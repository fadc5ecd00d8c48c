/** What the writer records of a row group (writer.go, index_write.go): a zone and a null count
    for each column, and membership filters. It is all true of the group's rows. */
module GroupWriter {
  import opened Digits
  import opened Predicate
  import Bloom

  // ---- null counts

  function Nulls(rows: seq<Row>, col: nat): nat {
    if rows == [] then 0 else
      var n := |rows| - 1;
      Nulls(rows[..n], col) + if At(rows[n], col).Null? then 1 else 0
  }

  lemma {:induction false} NoNull(rows: seq<Row>, col: nat, i: nat)
    requires i < |rows| && Nulls(rows, col) == 0
    ensures At(rows[i], col).Val?
    decreases |rows|
  {
    if i < |rows| - 1 { NoNull(rows[..|rows| - 1], col, i); }
  }

  lemma {:induction false} NullsJoin(a: seq<Row>, b: seq<Row>, col: nat)
    ensures Nulls(a + b, col) == Nulls(a, col) + Nulls(b, col)
    decreases |b|
  {
    if b == [] {
      assert a + b == a;
    } else {
      NullsJoin(a, b[..|b| - 1], col);
      assert (a + b)[..|a + b| - 1] == a + b[..|b| - 1];
    }
  }

  /** `buildValidityMask`, as far as it counts. */
  method CountNulls(rows: seq<Row>, col: nat) returns (n: nat)
    ensures n == Nulls(rows, col)
  {
    n := 0;
    var i := 0;
    while i < |rows|
      invariant 0 <= i <= |rows| && n == Nulls(rows[..i], col)
    {
      assert rows[..i + 1][..i] == rows[..i];
      if At(rows[i], col).Null? {
        n := n + 1;
      }
      i := i + 1;
    }
    assert rows[..i] == rows;
  }

  /** `writeChunk`: page by page, merging the pages' zones and adding their null counts. However the
      rows are cut into pages, the chunk's entry is that of its rows. */
  method WriteChunk(rows: seq<Row>, col: nat, step: nat) returns (z: Zone, nulls: nat)
    requires step > 0
    ensures ZoneOf(z, rows, col) && nulls == Nulls(rows, col)
  {
    hide ZoneOf, Merge, Nulls;
    z, nulls := ABSENT, 0;
    var s := 0;
    ChunkStart(rows, col);
    while s < |rows|
      invariant 0 <= s <= |rows| && ZoneOf(z, rows[..s], col) && nulls == Nulls(rows[..s], col)
    {
      var cnt := Min(step, |rows| - s);
      var page := rows[s..s + cnt];
      assert rows[..s + cnt] == rows[..s] + page;
      var pz := ColumnZone(page, col);
      var pn := CountNulls(page, col);
      MergeZones(z, pz, rows[..s], page, col);
      NullsJoin(rows[..s], page, col);
      z, nulls := Merge(z, pz), nulls + pn;
      s := s + cnt;
    }
    assert rows[..s] == rows;
  }

  lemma ChunkStart(rows: seq<Row>, col: nat)
    ensures ZoneOf(ABSENT, rows[..0], col) && Nulls(rows[..0], col) == 0
  {
    NoZone(col);
  }

  // ---- membership filters

  /** The keys of a column's filter: its present values, encoded. */
  function ColumnKeys(rows: seq<Row>, col: nat, enc: Scalar -> Bytes): seq<Bytes> {
    if rows == [] then [] else
      var n := |rows| - 1;
      ColumnKeys(rows[..n], col, enc) + if At(rows[n], col).Val? then [enc(At(rows[n], col).v)] else []
  }

  lemma {:induction false} KeyIn(rows: seq<Row>, col: nat, enc: Scalar -> Bytes, i: nat)
    requires i < |rows| && At(rows[i], col).Val?
    ensures enc(At(rows[i], col).v) in ColumnKeys(rows, col, enc)
    decreases |rows|
  {
    if i < |rows| - 1 { KeyIn(rows[..|rows| - 1], col, enc, i); }
  }

  method GatherKeys(rows: seq<Row>, col: nat, enc: Scalar -> Bytes) returns (keys: seq<Bytes>)
    ensures keys == ColumnKeys(rows, col, enc)
  {
    keys := [];
    var i := 0;
    while i < |rows|
      invariant 0 <= i <= |rows| && keys == ColumnKeys(rows[..i], col, enc)
    {
      assert rows[..i + 1][..i] == rows[..i];
      if At(rows[i], col).Val? {
        keys := keys + [enc(At(rows[i], col).v)];
      }
      i := i + 1;
    }
    assert rows[..i] == rows;
  }

  datatype Hashing = Hashing(enc: Scalar -> Bytes, base: Bloom.Hash, stride: Bloom.Hash)

  /** The filter of a column denies none of its values. */
  ghost predicate Admits(m: Bloom.Image, rows: seq<Row>, col: nat, h: Hashing) {
    forall key :: key in ColumnKeys(rows, col, h.enc) ==> Bloom.MayHold(m, key, h.base, h.stride)
  }

  lemma AdmitsValue(m: Bloom.Image, rows: seq<Row>, col: nat, h: Hashing, v: Scalar, i: nat)
    requires Admits(m, rows, col, h) && i < |rows| && At(rows[i], col) == Val(v)
    ensures Bloom.MayHold(m, h.enc(v), h.base, h.stride)
  {
    hide Bloom.MayHold;
    KeyIn(rows, col, h.enc, i);
  }

  /** `buildGroupBloom`: none for a column with no value. */
  method BuildGroupBloom(rows: seq<Row>, col: nat, h: Hashing) returns (some: bool, m: Bloom.Image)
    requires Bloom.Sized(|ColumnKeys(rows, col, h.enc)|, 10)
    ensures some <==> ColumnKeys(rows, col, h.enc) != []
    ensures some ==> Admits(m, rows, col, h)
  {
    hide Bloom.Contains;
    var keys := GatherKeys(rows, col, h.enc);
    if |keys| == 0 {
      return false, Bloom.Image([], 0, 0);
    }
    var f := Bloom.BuildBloom(keys, 10, h.base, h.stride);
    some, m := true, Bloom.Image(f.bits[..], f.nbits, f.k);
  }

  // ---- the group's footer entry

  /** What is recorded of the first `cols` columns. */
  datatype Footer = Footer(zones: map<nat, Zone>, nulls: map<nat, nat>, blooms: map<nat, Bloom.Image>)

  ghost predicate Records(f: Footer, rows: seq<Row>, cols: nat, h: Hashing) {
    && (forall c: nat :: c in f.nulls <==> c < cols)
    && (forall c: nat :: c < cols ==> ZoneOf(if c in f.zones then f.zones[c] else ABSENT, rows, c))
    && (forall c :: c in f.zones ==> c < cols)
    && (forall c :: c in f.nulls ==> f.nulls[c] == Nulls(rows, c))
    && (forall c :: c in f.blooms ==> Admits(f.blooms[c], rows, c, h))
  }

  /** `newGroupView`: zones where a value is present, a filter only where one was loaded. A
      column beyond the schema, which no bound predicate names, counts as all null. */
  function ViewOf(f: Footer, n: nat, h: Hashing): View {
    View(f.zones, c => if c in f.nulls then f.nulls[c] else n,
      (c, v) => c in f.blooms && !Bloom.MayHold(f.blooms[c], h.enc(v), h.base, h.stride))
  }

  lemma RecordsTell(f: Footer, rows: seq<Row>, cols: nat, h: Hashing)
    requires Records(f, rows, cols, h)
    ensures GoodGroup(Group(rows, ViewOf(f, |rows|, h)))
  {
    hide ZoneOf, Admits, Bloom.MayHold, At;
    var r := ViewOf(f, |rows|, h);
    forall c, v, i | 0 <= i < |rows| && r.rejects(c, v) ensures At(rows[i], c) != Val(v) {
      if At(rows[i], c) == Val(v) { AdmitsValue(f.blooms[c], rows, c, h, v, i); }
    }
    forall c, i | 0 <= i < |rows| && r.nulls(c) == 0 ensures At(rows[i], c).Val? {
      NoNull(rows, c, i);
    }
  }

  /** A group as the writer leaves it, seen through its footer entry. */
  ghost predicate Flushed(g: Group, rows: seq<Row>, cols: nat) {
    && g.rows == rows && GoodGroup(g)
    && forall c: nat :: c < cols ==> ZoneOf(ZoneIn(g, c), rows, c)
  }

  /** `flushGroup`, as far as pruning sees it: zones and null counts of every column, filters of
      those that ask for one. The view a reader then has of the group is true of its rows. */
  method FlushGroup(rows: seq<Row>, cols: nat, step: nat, filters: set<nat>, h: Hashing) returns (g: Group)
    requires step > 0 && forall c :: c in filters ==> Bloom.Sized(|ColumnKeys(rows, c, h.enc)|, 10)
    ensures Flushed(g, rows, cols)
  {
    hide ZoneOf, Admits, Bloom.Sized, GoodGroup;
    var f, c := Footer(map[], map[], map[]), 0;
    while c < cols
      invariant 0 <= c <= cols && Records(f, rows, c, h)
    {
      var z, n := WriteChunk(rows, c, step);
      if z.present {
        f := f.(zones := f.zones[c := z]);
      } else {
        NoValue(z, rows, c);
      }
      f := f.(nulls := f.nulls[c := n]);
      if c in filters {
        var some, m := BuildGroupBloom(rows, c, h);
        if some {
          f := f.(blooms := f.blooms[c := m]);
        }
      }
      c := c + 1;
    }
    RecordsTell(f, rows, cols, h);
    g := Group(rows, ViewOf(f, |rows|, h));
  }

  lemma NoValue(z: Zone, rows: seq<Row>, col: nat)
    requires ZoneOf(z, rows, col) && !z.present
    ensures ZoneOf(ABSENT, rows, col)
  {
  }

  // ---- whole files

  function AllChunks(chunks: seq<seq<Row>>): seq<Row> {
    if chunks == [] then [] else AllChunks(chunks[..|chunks| - 1]) + chunks[|chunks| - 1]
  }

  /** A file as the writer leaves it. */
  ghost predicate Written(groups: seq<Group>, chunks: seq<seq<Row>>, cols: nat) {
    |groups| == |chunks| && forall i :: 0 <= i < |chunks| ==> Flushed(groups[i], chunks[i], cols)
  }

  lemma {:induction false} WrittenRows(groups: seq<Group>, chunks: seq<seq<Row>>, cols: nat)
    requires Written(groups, chunks, cols)
    ensures AllRows(groups) == AllChunks(chunks)
    decreases |groups|
  {
    hide Flushed;
    if groups != [] {
      var n := |groups| - 1;
      WrittenRows(groups[..n], chunks[..n], cols);
      FlushedRows(groups[n], chunks[n], cols);
    }
  }

  lemma FlushedRows(g: Group, rows: seq<Row>, cols: nat)
    requires Flushed(g, rows, cols)
    ensures g.rows == rows && GoodGroup(g)
  {
    hide GoodGroup;
  }

  /** The rows, cut into groups and pages anyhow. */
  method WriteFile(chunks: seq<seq<Row>>, cols: nat, step: nat, filters: set<nat>, h: Hashing)
    returns (groups: seq<Group>)
    requires step > 0
    requires forall c, chunk :: c in filters && chunk in chunks ==> Bloom.Sized(|ColumnKeys(chunk, c, h.enc)|, 10)
    ensures Written(groups, chunks, cols)
  {
    hide Bloom.Sized, Flushed;
    groups := [];
    while |groups| < |chunks|
      invariant |groups| <= |chunks| && forall i :: 0 <= i < |groups| ==> Flushed(groups[i], chunks[i], cols)
    {
      assert chunks[|groups|] in chunks;
      var g := FlushGroup(chunks[|groups|], cols, step, filters, h);
      groups := groups + [g];
    }
  }

  /** A file written and then scanned, pruned by what the writer recorded: exactly the matching rows
      come back, in order, exactly when every group passed whole is passed rightly; so whenever no
      row is null in a column compared. */
  method WriteThenScan(chunks: seq<seq<Row>>, cols: nat, step: nat, filters: set<nat>, h: Hashing, p: Pred,
                       proj: seq<nat>)
    returns (out: seq<Row>, groups: seq<Group>)
    requires step > 0
    requires forall c, chunk :: c in filters && chunk in chunks ==> Bloom.Sized(|ColumnKeys(chunk, c, h.enc)|, 10)
    ensures Written(groups, chunks, cols)
    ensures out == Filtered(AllChunks(chunks), p, proj) <==> forall g :: g in groups ==> PassesRightly(g, p)
    ensures (forall row :: row in AllChunks(chunks) ==> NoNulls(p, row)) ==> out == Filtered(AllChunks(chunks), p, proj)
  {
    hide Bloom.Sized, GoodGroup, NoNulls, PassesRightly, Scanned, Filtered, Flushed;
    groups := WriteFile(chunks, cols, step, filters, h);
    WrittenRows(groups, chunks, cols);
    forall g | g in groups ensures GoodGroup(g) {
      var i :| 0 <= i < |groups| && groups[i] == g;
      FlushedRows(g, chunks[i], cols);
    }
    var scanned;
    out, scanned := Scan(groups, p, proj);
    if forall row :: row in AllChunks(chunks) ==> NoNulls(p, row) {
      forall g, row | g in groups && row in g.rows ensures row in AllRows(groups) {
        GroupIn(groups, g, row);
      }
      NoNullsPass(groups, p);
    }
  }

  lemma {:induction false} GroupIn(groups: seq<Group>, g: Group, row: Row)
    requires g in groups && row in g.rows
    ensures row in AllRows(groups)
    decreases |groups|
  {
    var front, last := groups[..|groups| - 1], groups[|groups| - 1];
    assert groups == front + [last];
    if g != last { GroupIn(front, g, row); }
  }

  /** The zones a file's catalogue entry carries, for the columns that have one. */
  method MemberEntry(groups: seq<Group>, cols: nat, ghost chunks: seq<seq<Row>>) returns (zones: map<nat, Zone>)
    requires Written(groups, chunks, cols)
    ensures Rolled(zones, AllChunks(chunks)) && forall c :: c in zones ==> c < cols && zones[c].present
  {
    hide ZoneOf, GoodGroup;
    WrittenRows(groups, chunks, cols);
    zones := map[];
    var c := 0;
    while c < cols
      invariant 0 <= c <= cols && Rolled(zones, AllChunks(chunks))
      invariant forall x :: x in zones ==> x < cols && zones[x].present
    {
      forall g | g in groups ensures ZoneOf(ZoneIn(g, c), g.rows, c) {
        var i :| 0 <= i < |groups| && groups[i] == g;
        assert Flushed(groups[i], chunks[i], cols);
      }
      var z := Rollup(groups, c);
      if z.present {
        zones := zones[c := z];
      }
      c := c + 1;
    }
  }

  /** A file written, rolled up into the catalogue and offered to a predicate: it is kept if any of
      its rows matches for a reason other than IS NULL, and lost with a matching row exactly where
      its zones rule that out and a row matches through a null alone. */
  method WriteThenPrune(chunks: seq<seq<Row>>, cols: nat, step: nat, filters: set<nat>, h: Hashing, p: Pred)
    returns (kept: bool, zones: map<nat, Zone>)
    requires step > 0
    requires forall c, chunk :: c in filters && chunk in chunks ==> Bloom.Sized(|ColumnKeys(chunk, c, h.enc)|, 10)
    ensures Rolled(zones, AllChunks(chunks)) && (kept <==> Eval(p, MemberView(zones)) != No)
    ensures (exists row :: row in AllChunks(chunks) && Match(Without(p), row)) ==> kept
    ensures (exists row :: row in AllChunks(chunks) && Match(p, row)) && !kept <==>
      Eval(Without(p), MemberView(zones)) == No
      && exists row :: row in AllChunks(chunks) && Match(p, row) && !Match(Without(p), row) && NullAsked(p, row)
  {
    hide Bloom.Sized, Written, Rolled, Match, Eval, NullAsked, Without, MemberView;
    var groups := WriteFile(chunks, cols, step, filters, h);
    zones := MemberEntry(groups, cols, chunks);
    var keep := Prune([zones], p);
    kept := 0 in keep;
    var rows := AllChunks(chunks);
    PruneLoses(p, zones, rows);
    forall i | 0 <= i < |rows| && Match(Without(p), rows[i]) ensures kept {
      PruneSafe(p, zones, rows, i);
    }
    assert forall i :: 0 <= i < |rows| ==> rows[i] in rows;
  }
}
