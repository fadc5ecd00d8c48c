/** Point lookup in a file sorted by its key (query.go, pageindex.go, writer.go): groups, pages
    and rows, each found by binary search, whatever way the writer cut them. */
module SortedFile {
  import opened Digits
  import opened Predicate

  ghost predicate Ascending(ks: seq<Scalar>) {
    forall i, j :: 0 <= i <= j < |ks| ==> Cmp(ks[i], ks[j]) <= 0
  }

  function Concat(parts: seq<seq<Scalar>>): seq<Scalar> {
    if parts == [] then [] else Concat(parts[..|parts| - 1]) + parts[|parts| - 1]
  }

  /** The keys as one column of rows. */
  function Column(ks: seq<Scalar>): (rows: seq<Row>)
    ensures |rows| == |ks| && forall i :: 0 <= i < |ks| ==> rows[i] == [Val(ks[i])]
  {
    seq(|ks|, i requires 0 <= i < |ks| => [Val(ks[i])])
  }

  // ---- what the writer leaves

  datatype Page = Page(firstRow: nat, zone: Zone, keys: seq<Scalar>)
  datatype Group = Group(min: Scalar, max: Scalar, pages: seq<Page>)

  function PageKeys(pages: seq<Page>): (r: seq<seq<Scalar>>)
    ensures |r| == |pages| && forall i :: 0 <= i < |pages| ==> r[i] == pages[i].keys
  {
    seq(|pages|, i requires 0 <= i < |pages| => pages[i].keys)
  }

  ghost predicate PagesOf(pages: seq<Page>, ks: seq<Scalar>) {
    && Concat(PageKeys(pages)) == ks
    && forall p :: 0 <= p < |pages| ==> (
         pages[p].keys != [] && ZoneOf(pages[p].zone, Column(pages[p].keys), 0)
         && pages[p].firstRow == |Concat(PageKeys(pages)[..p])|)
  }

  ghost predicate GroupOf(g: Group, ks: seq<Scalar>) {
    ks != [] && PagesOf(g.pages, ks) && ZoneOf(Zone(true, g.min, g.max), Column(ks), 0)
  }

  lemma ConcatSnoc(parts: seq<seq<Scalar>>, last: seq<Scalar>)
    ensures Concat(parts + [last]) == Concat(parts) + last
  {
    assert (parts + [last])[..|parts|] == parts;
  }

  lemma PagesSnoc(pages: seq<Page>, page: Page, ks: seq<Scalar>)
    requires PagesOf(pages, ks) && page.keys != [] && page.firstRow == |ks| && ZoneOf(page.zone, Column(page.keys), 0)
    ensures PagesOf(pages + [page], ks + page.keys)
  {
    hide ZoneOf, Concat;
    var all := pages + [page];
    assert PageKeys(all) == PageKeys(pages) + [page.keys];
    ConcatSnoc(PageKeys(pages), page.keys);
    forall p | 0 <= p < |all| ensures PageKeys(all)[..p] == PageKeys(pages)[..p] {
    }
    assert PageKeys(pages)[..|pages|] == PageKeys(pages);
  }

  /** Every page holds `step` keys, but for the last, which holds what is left. */
  ghost predicate CutEvery(pages: seq<Page>, step: nat, done: bool) {
    forall p :: 0 <= p < |pages| ==>
      |pages[p].keys| <= step && (p < |pages| - 1 || !done ==> |pages[p].keys| == step)
  }

  /** `writeChunk` and the group bounds `flushGroup` takes from it. */
  method WriteGroup(ks: seq<Scalar>, step: nat) returns (g: Group)
    requires ks != [] && step > 0
    ensures GroupOf(g, ks)
    ensures CutEvery(g.pages, step, true)
  {
    hide ZoneOf, PagesOf, Cmp, Merge, CutEvery, Column;
    var pages: seq<Page>, zone, s := [], ABSENT, 0;
    NoPages();
    assert ks[..0] == [];
    while s < |ks|
      invariant 0 <= s <= |ks| && PagesOf(pages, ks[..s]) && ZoneOf(zone, Column(ks[..s]), 0)
      invariant CutEvery(pages, step, s == |ks|)
      decreases |ks| - s
    {
      var e := Min(s + step, |ks|);
      var pz := ColumnZone(Column(ks[s..e]), 0);
      CutJoins(ks, s, e);
      MergeZones(zone, pz, Column(ks[..s]), Column(ks[s..e]), 0);
      PagesSnoc(pages, Page(s, pz, ks[s..e]), ks[..s]);
      zone := Merge(zone, pz);
      NextCut(pages, step, Page(s, pz, ks[s..e]), e == |ks|);
      pages := pages + [Page(s, pz, ks[s..e])];
      s := e;
    }
    assert ks[..s] == ks;
    Present(zone, ks);
    g := Group.Group(zone.min, zone.max, pages);
  }

  lemma CutJoins(ks: seq<Scalar>, s: nat, e: nat)
    requires s <= e <= |ks|
    ensures ks[..s] + ks[s..e] == ks[..e] && Column(ks[..s]) + Column(ks[s..e]) == Column(ks[..e])
  {
  }

  lemma NextCut(pages: seq<Page>, step: nat, page: Page, done: bool)
    requires CutEvery(pages, step, false) && |page.keys| <= step && (!done ==> |page.keys| == step)
    ensures CutEvery(pages + [page], step, done)
  {
  }

  lemma NoPages()
    ensures (forall step, done :: CutEvery([], step, done)) && PagesOf([], []) && ZoneOf(ABSENT, Column([]), 0)
  {
  }

  lemma Present(z: Zone, ks: seq<Scalar>)
    requires ZoneOf(z, Column(ks), 0) && ks != []
    ensures z.present && z == Zone(true, z.min, z.max)
  {
    assert At(Column(ks)[0], 0) == Val(ks[0]);
  }

  /** Bounds of a zone, as statements about the keys. */
  lemma ZoneKeys(z: Zone, ks: seq<Scalar>)
    requires ZoneOf(z, Column(ks), 0) && ks != []
    ensures z.present && z.min in ks && z.max in ks
    ensures forall k :: k in ks ==> Cmp(z.min, k) <= 0 && Cmp(k, z.max) <= 0
  {
    hide Cmp;
    Present(z, ks);
    var rows := Column(ks);
    var a :| 0 <= a < |rows| && At(rows[a], 0) == Val(z.min);
    var b :| 0 <= b < |rows| && At(rows[b], 0) == Val(z.max);
    assert ks[a] == z.min && ks[b] == z.max;
    forall k | k in ks ensures Cmp(z.min, k) <= 0 && Cmp(k, z.max) <= 0 {
      var i :| 0 <= i < |ks| && ks[i] == k;
      assert At(rows[i], 0) == Val(k);
      assert Within(z, k);
    }
  }

  // ---- cutting a sorted column

  lemma {:induction false} PartAt(parts: seq<seq<Scalar>>, i: nat, j: nat)
    requires i < |parts| && j < |parts[i]|
    ensures |Concat(parts[..i])| + j < |Concat(parts)|
    ensures Concat(parts)[|Concat(parts[..i])| + j] == parts[i][j]
    decreases |parts|
  {
    var n := |parts| - 1;
    if i < n {
      PartAt(parts[..n], i, j);
      assert parts[..n][..i] == parts[..i];
    }
  }

  lemma {:induction false} PartsGrow(parts: seq<seq<Scalar>>, i: nat, j: nat)
    requires i < j <= |parts|
    ensures |Concat(parts[..i])| + |parts[i]| <= |Concat(parts[..j])|
    decreases j
  {
    assert parts[..j] == parts[..j - 1] + [parts[j - 1]];
    ConcatSnoc(parts[..j - 1], parts[j - 1]);
    if i < j - 1 { PartsGrow(parts, i, j - 1); }
  }

  /** However a sorted column is cut, each part is sorted and parts do not overlap. */
  lemma CutOrder(parts: seq<seq<Scalar>>, i: nat, j: nat, x: Scalar, y: Scalar)
    requires Ascending(Concat(parts)) && i < j < |parts| && x in parts[i] && y in parts[j]
    ensures Cmp(x, y) <= 0
  {
    hide Cmp, Concat;
    var a :| 0 <= a < |parts[i]| && parts[i][a] == x;
    var b :| 0 <= b < |parts[j]| && parts[j][b] == y;
    PartAt(parts, i, a);
    PartAt(parts, j, b);
    PartsGrow(parts, i, j);
  }

  lemma PartSorted(parts: seq<seq<Scalar>>, i: nat)
    requires Ascending(Concat(parts)) && i < |parts|
    ensures Ascending(parts[i])
  {
    hide Cmp, Concat;
    forall a, b | 0 <= a <= b < |parts[i]| ensures Cmp(parts[i][a], parts[i][b]) <= 0 {
      PartAt(parts, i, a);
      PartAt(parts, i, b);
    }
  }

  lemma {:induction false} InConcat(parts: seq<seq<Scalar>>, x: Scalar)
    ensures x in Concat(parts) <==> exists i :: 0 <= i < |parts| && x in parts[i]
    decreases |parts|
  {
    if parts != [] {
      var n := |parts| - 1;
      InConcat(parts[..n], x);
      if i :| 0 <= i < |parts| && x in parts[i] && i < n {
        assert x in parts[..n][i];
      }
    }
  }

  /** With parts bounded by their largest key, a key can only first stand in the first part
      whose bound reaches it. */
  lemma OnlyHere(parts: seq<seq<Scalar>>, maxs: seq<Scalar>, at: nat, key: Scalar)
    requires Ascending(Concat(parts)) && |maxs| == |parts| && at <= |parts|
    requires forall i :: 0 <= i < |parts| ==> maxs[i] in parts[i] && forall k :: k in parts[i] ==> Cmp(k, maxs[i]) <= 0
    requires forall i :: 0 <= i < at ==> Cmp(maxs[i], key) < 0
    requires at < |parts| ==> Cmp(maxs[at], key) >= 0
    ensures forall i :: 0 <= i < at ==> key !in parts[i]
    ensures key in Concat(parts) ==> at < |parts| && key in parts[at]
  {
    hide Cmp, Concat;
    InConcat(parts, key);
    CmpOrder(key, key);
    forall i | 0 <= i < at ensures key !in parts[i] {
      if key in parts[i] { CmpTransitive(key, maxs[i], key); }
    }
    if key in Concat(parts) {
      var i :| 0 <= i < |parts| && key in parts[i];
      if at < i {
        CutOrder(parts, at, i, maxs[at], key);
        CmpOrder(maxs[at], key);
      }
    }
  }

  // ---- lookup

  /** `sort.Search` over ascending bounds: the first not below the key. */
  method FirstReaching(maxs: seq<Scalar>, key: Scalar) returns (lo: nat)
    requires Ascending(maxs)
    ensures lo <= |maxs| && (forall i :: 0 <= i < lo ==> Cmp(maxs[i], key) < 0)
    ensures lo < |maxs| ==> Cmp(maxs[lo], key) >= 0
  {
    hide Cmp;
    var hi := |maxs|;
    lo := 0;
    while lo < hi
      invariant 0 <= lo <= hi <= |maxs|
      invariant forall i :: 0 <= i < lo ==> Cmp(maxs[i], key) < 0
      invariant hi < |maxs| ==> Cmp(maxs[hi], key) >= 0
    {
      var mid := (lo + hi) / 2;
      if Cmp(maxs[mid], key) >= 0 {
        hi := mid;
      } else {
        forall i | 0 <= i <= mid ensures Cmp(maxs[i], key) < 0 {
          CmpTransitive(maxs[i], maxs[mid], key);
        }
        lo := mid + 1;
      }
    }
  }

  function GroupMaxs(groups: seq<Group>): (r: seq<Scalar>)
    ensures |r| == |groups| && forall i :: 0 <= i < |groups| ==> r[i] == groups[i].max
  {
    seq(|groups|, i requires 0 <= i < |groups| => groups[i].max)
  }

  function PageMaxs(pages: seq<Page>): (r: seq<Scalar>)
    ensures |r| == |pages| && forall i :: 0 <= i < |pages| ==> r[i] == pages[i].zone.max
  {
    seq(|pages|, i requires 0 <= i < |pages| => pages[i].zone.max)
  }

  lemma MaxsAscend(parts: seq<seq<Scalar>>, maxs: seq<Scalar>)
    requires Ascending(Concat(parts)) && |maxs| == |parts| && forall i :: 0 <= i < |parts| ==> maxs[i] in parts[i]
    ensures Ascending(maxs)
  {
    hide Cmp, Concat;
    forall i, j | 0 <= i <= j < |maxs| ensures Cmp(maxs[i], maxs[j]) <= 0 {
      if i < j { CutOrder(parts, i, j, maxs[i], maxs[j]); } else { CmpOrder(maxs[i], maxs[i]); }
    }
  }

  datatype RowRef = RowRef(group: nat, row: nat)
  datatype Answer = Found(ref: RowRef) | Missing

  /** The groups hold the parts of a sorted column. */
  ghost predicate FileOf(groups: seq<Group>, parts: seq<seq<Scalar>>) {
    |groups| == |parts| && Ascending(Concat(parts)) && forall i :: 0 <= i < |groups| ==> GroupOf(groups[i], parts[i])
  }

  /** Inside the group the search settled on. */
  method LookupGroup(g: Group, key: Scalar, ghost ks: seq<Scalar>) returns (row: nat, found: bool)
    requires GroupOf(g, ks) && Ascending(ks)
    ensures found <==> key in ks
    ensures found ==> row < |ks| && ks[row] == key && key !in ks[..row]
  {
    hide Cmp, Concat, ZoneOf;
    ghost var parts := PageKeys(g.pages);
    var maxs := PageMaxs(g.pages);
    forall p | 0 <= p < |parts|
      ensures maxs[p] in parts[p] && g.pages[p].zone.min in parts[p]
      ensures forall k :: k in parts[p] ==> Cmp(k, maxs[p]) <= 0 && Cmp(g.pages[p].zone.min, k) <= 0
    {
      ZoneKeys(g.pages[p].zone, parts[p]);
    }
    MaxsAscend(parts, maxs);
    var p := FirstReaching(maxs, key);
    OnlyHere(parts, maxs, p, key);
    row, found := 0, false;
    if p == |g.pages| || Cmp(g.pages[p].zone.min, key) > 0 {
      if p < |g.pages| { CmpOrder(g.pages[p].zone.min, key); }
      return;
    }
    PartSorted(parts, p);
    var i := FirstReaching(g.pages[p].keys, key);
    FirstInPage(parts, p, i, key);
    if i < |g.pages[p].keys| && Cmp(g.pages[p].keys[i], key) == 0 {
      CmpOrder(g.pages[p].keys[i], key);
      return g.pages[p].firstRow + i, true;
    }
  }

  /** The first row of the page not below the key is the first such row of the column. */
  lemma FirstInPage(parts: seq<seq<Scalar>>, p: nat, i: nat, key: Scalar)
    requires Ascending(Concat(parts)) && p < |parts| && i <= |parts[p]|
    requires forall q :: 0 <= q < p ==> key !in parts[q]
    requires forall j :: 0 <= j < i ==> Cmp(parts[p][j], key) < 0
    requires i < |parts[p]| ==> Cmp(parts[p][i], key) >= 0
    ensures key in parts[p] ==> i < |parts[p]| && Cmp(parts[p][i], key) == 0
    ensures i < |parts[p]| ==>
      var row := |Concat(parts[..p])| + i;
      row < |Concat(parts)| && Concat(parts)[row] == parts[p][i] && key !in Concat(parts)[..row]
  {
    hide Cmp, Concat;
    CmpOrder(key, key);
    PartSorted(parts, p);
    if key in parts[p] {
      var j :| 0 <= j < |parts[p]| && parts[p][j] == key;
      if i < |parts[p]| {
        CmpOrder(parts[p][i], key);
        assert i <= j && Cmp(parts[p][i], parts[p][j]) <= 0;
      }
    }
    if i < |parts[p]| {
      PartAt(parts, p, i);
      BeforeRow(parts, p, i);
      InConcat(parts[..p], key);
    }
  }

  lemma {:induction false} BeforeRow(parts: seq<seq<Scalar>>, p: nat, i: nat)
    requires p < |parts| && i <= |parts[p]|
    ensures |Concat(parts[..p])| + i <= |Concat(parts)|
    ensures Concat(parts)[..|Concat(parts[..p])| + i] == Concat(parts[..p]) + parts[p][..i]
    decreases |parts|
  {
    var n := |parts| - 1;
    if p < n {
      BeforeRow(parts[..n], p, i);
      assert parts[..n][..p] == parts[..p];
    }
  }

  /** `Lookup`: the key's first row, exactly when the file has it. */
  method Lookup(groups: seq<Group>, key: Scalar, ghost parts: seq<seq<Scalar>>) returns (a: Answer)
    requires FileOf(groups, parts)
    ensures a.Found? <==> key in Concat(parts)
    ensures a.Found? ==>
      && a.ref.group < |parts| && a.ref.row < |parts[a.ref.group]| && parts[a.ref.group][a.ref.row] == key
      && key !in parts[a.ref.group][..a.ref.row] && forall g :: 0 <= g < a.ref.group ==> key !in parts[g]
  {
    hide Cmp, Concat, ZoneOf, PagesOf;
    var maxs := GroupMaxs(groups);
    forall g | 0 <= g < |parts|
      ensures maxs[g] in parts[g] && groups[g].min in parts[g]
      ensures forall k :: k in parts[g] ==> Cmp(k, maxs[g]) <= 0 && Cmp(groups[g].min, k) <= 0
    {
      ZoneKeys(Zone(true, groups[g].min, groups[g].max), parts[g]);
    }
    MaxsAscend(parts, maxs);
    var g := FirstReaching(maxs, key);
    OnlyHere(parts, maxs, g, key);
    InConcat(parts, key);
    if g == |groups| || Cmp(groups[g].min, key) > 0 {
      if g < |groups| { CmpOrder(groups[g].min, key); }
      return Missing;
    }
    PartSorted(parts, g);
    var row, found := LookupGroup(groups[g], key, parts[g]);
    a := if found then Found(RowRef(g, row)) else Missing;
  }
}
