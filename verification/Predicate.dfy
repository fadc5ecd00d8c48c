/** Pushed-down predicates (predicate.go, value.go): three-valued evaluation against a region's
    zone maps and filters, and what its verdicts promise about the region's rows. */
module Predicate {
  import opened Digits
  import opened Keys

  // ---- typed scalars and their order

  datatype Scalar = Num(n: int) | Text(b: Bytes)

  function Cmp(a: Scalar, b: Scalar): int {
    match (a, b)
    case (Num(x), Num(y)) => if x < y then -1 else if x > y then 1 else 0
    case (Text(x), Text(y)) => if x == y then 0 else if Less(x, y) then -1 else 1
    case (Num(_), Text(_)) => -1
    case (Text(_), Num(_)) => 1
  }

  lemma CmpOrder(a: Scalar, b: Scalar)
    ensures Cmp(a, b) == -Cmp(b, a) && -1 <= Cmp(a, b) <= 1
    ensures Cmp(a, b) == 0 <==> a == b
  {
    if a.Text? && b.Text? {
      LessOrder(a.b, b.b);
      LessOrder(b.b, a.b);
    }
  }

  lemma CmpTransitive(a: Scalar, b: Scalar, c: Scalar)
    ensures Cmp(a, b) <= 0 && Cmp(b, c) <= 0 ==> Cmp(a, c) <= 0
    ensures Cmp(a, b) <= 0 && Cmp(b, c) < 0 ==> Cmp(a, c) < 0
    ensures Cmp(a, b) < 0 && Cmp(b, c) <= 0 ==> Cmp(a, c) < 0
  {
    CmpOrder(a, b);
    CmpOrder(b, c);
    CmpOrder(a, c);
    if a.Text? && b.Text? && c.Text? && Less(a.b, b.b) && Less(b.b, c.b) {
      LessTransitive(a.b, b.b, c.b);
    }
  }

  // ---- rows and zones

  datatype Cell = Null | Val(v: Scalar)
  type Row = seq<Cell>

  datatype Zone = Zone(present: bool, min: Scalar, max: Scalar)

  const ABSENT := Zone(false, Num(0), Num(0))

  function At(row: Row, col: nat): Cell {
    if col < |row| then row[col] else Null
  }

  ghost predicate Within(z: Zone, v: Scalar) {
    Cmp(z.min, v) <= 0 && Cmp(v, z.max) <= 0
  }

  /** The zone is the exact range of the column's present values: absent for none. */
  ghost predicate ZoneOf(z: Zone, rows: seq<Row>, col: nat) {
    && (z.present <==> exists i :: 0 <= i < |rows| && At(rows[i], col).Val?)
    && (forall i :: 0 <= i < |rows| && At(rows[i], col).Val? ==> Within(z, At(rows[i], col).v))
    && (z.present ==> exists i :: 0 <= i < |rows| && At(rows[i], col) == Val(z.min))
    && (z.present ==> exists i :: 0 <= i < |rows| && At(rows[i], col) == Val(z.max))
  }

  /** `columnZone`. */
  method ColumnZone(rows: seq<Row>, col: nat) returns (z: Zone)
    ensures ZoneOf(z, rows, col)
  {
    hide Cmp;
    z := ABSENT;
    var i := 0;
    while i < |rows|
      invariant 0 <= i <= |rows| && ZoneOf(z, rows[..i], col)
    {
      ghost var was := z;
      assert rows[..i + 1] == rows[..i] + [rows[i]];
      if At(rows[i], col).Val? {
        var v := At(rows[i], col).v;
        if !z.present {
          z := Zone(true, v, v);
        } else {
          if Cmp(v, z.min) < 0 {
            z := z.(min := v);
          }
          if Cmp(v, z.max) > 0 {
            z := z.(max := v);
          }
        }
      }
      ZoneStep(was, z, rows[..i], rows[i], col);
      i := i + 1;
    }
    assert rows[..i] == rows;
  }

  lemma ZoneStep(was: Zone, z: Zone, rows: seq<Row>, row: Row, col: nat)
    requires ZoneOf(was, rows, col)
    requires !At(row, col).Val? ==> z == was
    requires At(row, col).Val? && !was.present ==> z == Zone(true, At(row, col).v, At(row, col).v)
    requires At(row, col).Val? && was.present ==>
      z == Zone(true, if Cmp(At(row, col).v, was.min) < 0 then At(row, col).v else was.min,
                if Cmp(At(row, col).v, was.max) > 0 then At(row, col).v else was.max)
    ensures ZoneOf(z, rows + [row], col)
  {
    hide Cmp, At;
    var all := rows + [row];
    assert all[|rows|] == row;
    if At(row, col).Val? {
      var v := At(row, col).v;
      CmpOrder(v, v);
      if was.present {
        CmpOrder(v, was.min);
        CmpOrder(v, was.max);
        var a :| 0 <= a < |rows| && At(rows[a], col) == Val(was.min);
        var b :| 0 <= b < |rows| && At(rows[b], col) == Val(was.max);
        assert all[a] == rows[a] && all[b] == rows[b];
        forall i | 0 <= i < |all| && At(all[i], col).Val? ensures Within(z, At(all[i], col).v) {
          if i < |rows| {
            assert Within(was, At(rows[i], col).v);
            CmpTransitive(v, was.min, At(rows[i], col).v);
            CmpTransitive(At(rows[i], col).v, was.max, v);
          }
        }
      }
    } else if was.present {
      var a :| 0 <= a < |rows| && At(rows[a], col) == Val(was.min);
      var b :| 0 <= b < |rows| && At(rows[b], col) == Val(was.max);
      assert all[a] == rows[a] && all[b] == rows[b];
    }
  }

  /** `merge`: the zone of two regions together. */
  function Merge(z: Zone, o: Zone): Zone {
    if !o.present then z
    else if !z.present then o
    else Zone(true, if Cmp(o.min, z.min) < 0 then o.min else z.min, if Cmp(o.max, z.max) > 0 then o.max else z.max)
  }

  lemma Holds(rows: seq<Row>, more: seq<Row>, col: nat, c: Cell)
    ensures (exists i :: 0 <= i < |rows + more| && At((rows + more)[i], col) == c) <==>
      (exists i :: 0 <= i < |rows| && At(rows[i], col) == c) || (exists i :: 0 <= i < |more| && At(more[i], col) == c)
  {
    hide At;
    var all := rows + more;
    if i :| 0 <= i < |all| && At(all[i], col) == c {
      if i < |rows| { assert At(rows[i], col) == c; } else { assert At(more[i - |rows|], col) == c; }
    }
    if i :| 0 <= i < |rows| && At(rows[i], col) == c { assert At(all[i], col) == c; }
    if i :| 0 <= i < |more| && At(more[i], col) == c { assert At(all[|rows| + i], col) == c; }
  }

  lemma MergeZones(z: Zone, o: Zone, rows: seq<Row>, more: seq<Row>, col: nat)
    requires ZoneOf(z, rows, col) && ZoneOf(o, more, col)
    ensures ZoneOf(Merge(z, o), rows + more, col)
  {
    hide Cmp, At;
    var m, all := Merge(z, o), rows + more;
    if z.present { ZoneHolds(z, rows, more, col, true); }
    if o.present { ZoneHolds(o, more, rows, col, false); }
    if z.present && o.present {
      CmpOrder(o.min, z.min);
      CmpOrder(o.max, z.max);
    }
    forall i | 0 <= i < |all| && At(all[i], col).Val? ensures m.present && Within(m, At(all[i], col).v) {
      var v := At(all[i], col).v;
      if i < |rows| {
        assert all[i] == rows[i] && Within(z, v);
      } else {
        assert all[i] == more[i - |rows|] && Within(o, v);
      }
      CmpTransitive(o.min, z.min, v);
      CmpTransitive(z.min, o.min, v);
      CmpTransitive(v, o.max, z.max);
      CmpTransitive(v, z.max, o.max);
    }
  }

  lemma ZoneHolds(z: Zone, rows: seq<Row>, more: seq<Row>, col: nat, first: bool)
    requires ZoneOf(z, rows, col) && z.present
    ensures var all := if first then rows + more else more + rows;
      && (exists i :: 0 <= i < |all| && At(all[i], col) == Val(z.min))
      && (exists i :: 0 <= i < |all| && At(all[i], col) == Val(z.max))
  {
    hide At;
    if first {
      Holds(rows, more, col, Val(z.min));
      Holds(rows, more, col, Val(z.max));
    } else {
      Holds(more, rows, col, Val(z.min));
      Holds(more, rows, col, Val(z.max));
    }
  }

  // ---- predicates

  datatype Op = EQ | NE | LT | LE | GT | GE | Between | IsNull

  datatype Pred = Leaf(col: nat, op: Op, val: Scalar, hi: Scalar) | And(kids: seq<Pred>) | Or(kids: seq<Pred>)

  /** `matchRow`. */
  function Match(p: Pred, row: Row): bool {
    match p
    case Leaf(col, op, val, hi) => MatchLeaf(op, val, hi, At(row, col))
    case And(kids) => forall i :: 0 <= i < |kids| ==> Match(kids[i], row)
    case Or(kids) => exists i :: 0 <= i < |kids| && Match(kids[i], row)
  }

  function MatchLeaf(op: Op, val: Scalar, hi: Scalar, c: Cell): bool {
    if op == IsNull then c.Null?
    else if c.Null? then false
    else
      match op
      case EQ => Cmp(c.v, val) == 0
      case NE => Cmp(c.v, val) != 0
      case LT => Cmp(c.v, val) < 0
      case LE => Cmp(c.v, val) <= 0
      case GT => Cmp(c.v, val) > 0
      case GE => Cmp(c.v, val) >= 0
      case Between => Cmp(c.v, val) >= 0 && Cmp(c.v, hi) <= 0
      case IsNull => false
  }

  /** What each operator asks of a value, in the order of integers and of byte strings. */
  lemma LeafReads(val: Scalar, hi: Scalar, v: Scalar)
    ensures MatchLeaf(EQ, val, hi, Val(v)) <==> v == val
    ensures MatchLeaf(NE, val, hi, Val(v)) <==> v != val
    ensures v.Num? && val.Num? ==> (MatchLeaf(LT, val, hi, Val(v)) <==> v.n < val.n)
    ensures v.Text? && val.Text? ==> (MatchLeaf(LT, val, hi, Val(v)) <==> Less(v.b, val.b))
    ensures MatchLeaf(GT, val, hi, Val(v)) <==> MatchLeaf(LT, v, hi, Val(val))
    ensures MatchLeaf(LE, val, hi, Val(v)) <==> v == val || MatchLeaf(LT, val, hi, Val(v))
    ensures MatchLeaf(GE, val, hi, Val(v)) <==> v == val || MatchLeaf(GT, val, hi, Val(v))
    ensures MatchLeaf(Between, val, hi, Val(v)) <==> MatchLeaf(GE, val, hi, Val(v)) && MatchLeaf(LE, hi, hi, Val(v))
    ensures !MatchLeaf(IsNull, val, hi, Val(v))
  {
    CmpOrder(v, val);
    CmpOrder(v, hi);
    if v.Text? && val.Text? { LessIrreflexive(v.b); }
  }

  /** Exactly one of less, equal and greater holds of a value; of a null only IS NULL does. */
  lemma LeafOne(val: Scalar, hi: Scalar, v: Scalar)
    ensures MatchLeaf(LT, val, hi, Val(v)) ==> v != val && !MatchLeaf(GT, val, hi, Val(v))
    ensures MatchLeaf(GT, val, hi, Val(v)) ==> v != val
    ensures MatchLeaf(LT, val, hi, Val(v)) || v == val || MatchLeaf(GT, val, hi, Val(v))
    ensures forall op :: MatchLeaf(op, val, hi, Null) <==> op == IsNull
  {
    CmpOrder(v, val);
  }

  datatype Tri = No | Maybe | Yes

  /** What a region says of itself: zones where there are any, null counts, and filters. */
  datatype View = View(zones: map<nat, Zone>, nulls: nat -> nat, rejects: (nat, Scalar) -> bool)

  function EvalLeaf(op: Op, val: Scalar, hi: Scalar, col: nat, r: View): Tri {
    if op == IsNull then (if r.nulls(col) == 0 then No else Maybe)
    else if col !in r.zones then Maybe
    else if !r.zones[col].present then No
    else
      var z := r.zones[col];
      match op
      case EQ =>
        if Cmp(val, z.min) < 0 || Cmp(val, z.max) > 0 then No else if r.rejects(col, val) then No else Maybe
      case NE => if Cmp(z.min, z.max) == 0 && Cmp(val, z.min) == 0 then No else Maybe
      case LT => if Cmp(z.min, val) >= 0 then No else if Cmp(z.max, val) < 0 then Yes else Maybe
      case LE => if Cmp(z.min, val) > 0 then No else if Cmp(z.max, val) <= 0 then Yes else Maybe
      case GT => if Cmp(z.max, val) <= 0 then No else if Cmp(z.min, val) > 0 then Yes else Maybe
      case GE => if Cmp(z.max, val) < 0 then No else if Cmp(z.min, val) >= 0 then Yes else Maybe
      case Between =>
        if Cmp(z.max, val) < 0 || Cmp(hi, z.min) < 0 then No
        else if Cmp(z.min, val) >= 0 && Cmp(z.max, hi) <= 0 then Yes else Maybe
      case IsNull => Maybe
  }

  /** `eval`. */
  function Eval(p: Pred, r: View): Tri {
    match p
    case Leaf(col, op, val, hi) => EvalLeaf(op, val, hi, col, r)
    case And(kids) => EvalAnd(kids, r)
    case Or(kids) => EvalOr(kids, r)
  }

  function EvalAnd(kids: seq<Pred>, r: View): Tri {
    if kids == [] then Yes else
      var t := Eval(kids[0], r);
      if t == No then No else
        var rest := EvalAnd(kids[1..], r);
        if rest == No then No else if t == Maybe then Maybe else rest
  }

  function EvalOr(kids: seq<Pred>, r: View): Tri {
    if kids == [] then No else
      var t := Eval(kids[0], r);
      if t == Yes then Yes else
        var rest := EvalOr(kids[1..], r);
        if rest == Yes then Yes else if t == Maybe then Maybe else rest
  }

  // ---- what a verdict promises

  /** The view is true of the rows, null counts aside. */
  ghost predicate Tells(r: View, rows: seq<Row>) {
    && (forall c :: c in r.zones ==> ZoneOf(r.zones[c], rows, c))
    && (forall c, v, i :: 0 <= i < |rows| && r.rejects(c, v) ==> At(rows[i], c) != Val(v))
  }

  ghost predicate CountsNulls(r: View, rows: seq<Row>) {
    forall c, i :: 0 <= i < |rows| && r.nulls(c) == 0 ==> At(rows[i], c).Val?
  }

  predicate AsksNull(p: Pred) {
    match p
    case Leaf(_, op, _, _) => op == IsNull
    case And(kids) => exists i :: 0 <= i < |kids| && AsksNull(kids[i])
    case Or(kids) => exists i :: 0 <= i < |kids| && AsksNull(kids[i])
  }

  /** No null in any column a value leaf compares. */
  ghost predicate NoNulls(p: Pred, row: Row) {
    match p
    case Leaf(col, op, _, _) => op == IsNull || At(row, col).Val?
    case And(kids) => forall i :: 0 <= i < |kids| ==> NoNulls(kids[i], row)
    case Or(kids) => forall i :: 0 <= i < |kids| ==> NoNulls(kids[i], row)
  }

  lemma LeafVerdict(op: Op, val: Scalar, hi: Scalar, col: nat, r: View, rows: seq<Row>, i: nat)
    requires Tells(r, rows) && i < |rows| && (op == IsNull ==> CountsNulls(r, rows))
    ensures EvalLeaf(op, val, hi, col, r) == No ==> !MatchLeaf(op, val, hi, At(rows[i], col))
    ensures EvalLeaf(op, val, hi, col, r) == Yes && At(rows[i], col).Val? ==> MatchLeaf(op, val, hi, At(rows[i], col))
  {
    hide Cmp;
    if op != IsNull && col in r.zones && At(rows[i], col).Val? {
      var z, v := r.zones[col], At(rows[i], col).v;
      assert Within(z, v);
      Bounds(z, v, val);
      Bounds(z, v, hi);
      CmpOrder(v, val);
      CmpOrder(z.min, z.max);
    }
  }

  /** Where a value of the region can stand against a constant. */
  lemma Bounds(z: Zone, v: Scalar, x: Scalar)
    requires Within(z, v)
    ensures Cmp(x, z.min) == -Cmp(z.min, x) && Cmp(x, z.max) == -Cmp(z.max, x) && Cmp(x, v) == -Cmp(v, x)
    ensures Cmp(z.min, x) >= 0 ==> Cmp(v, x) >= 0
    ensures Cmp(z.min, x) > 0 ==> Cmp(v, x) > 0
    ensures Cmp(z.max, x) <= 0 ==> Cmp(v, x) <= 0
    ensures Cmp(z.max, x) < 0 ==> Cmp(v, x) < 0
    ensures z.min == z.max == x ==> v == x
  {
    CmpOrder(x, z.min);
    CmpOrder(x, z.max);
    CmpOrder(x, v);
    CmpOrder(z.min, v);
    CmpTransitive(x, z.min, v);
    CmpTransitive(v, z.max, x);
  }

  /** What an all-match verdict rests on. A value leaf says nothing of rows null in its column;
      a disjunction rests on its branches ruled in, and on those left open that match. */
  ghost predicate Backed(p: Pred, r: View, row: Row) {
    match p
    case Leaf(col, _, _, _) => At(row, col).Val?
    case And(kids) => forall i :: 0 <= i < |kids| ==> Backed(kids[i], r, row)
    case Or(kids) => exists i ::
      0 <= i < |kids| && Eval(kids[i], r) != No
        && if Eval(kids[i], r) == Yes then Backed(kids[i], r, row) else Match(kids[i], row)
  }

  /** A region ruled out holds no matching row. In one ruled in, exactly the rows the verdict
      rests on match. */
  lemma {:induction false} Verdict(p: Pred, r: View, rows: seq<Row>, i: nat)
    requires Tells(r, rows) && i < |rows| && (AsksNull(p) ==> CountsNulls(r, rows))
    ensures Eval(p, r) == No ==> !Match(p, rows[i])
    ensures Eval(p, r) == Yes ==> (Match(p, rows[i]) <==> Backed(p, r, rows[i]))
    decreases p
  {
    hide Tells, CountsNulls, MatchLeaf, EvalLeaf, EvalAnd, EvalOr;
    match p
    case Leaf(col, op, val, hi) =>
      LeafVerdict(op, val, hi, col, r, rows, i);
      if Eval(p, r) == Yes { LeafYes(op, val, hi, col, r); }
      if At(rows[i], col).Null? { NullMatches(op, val, hi, At(rows[i], col)); }
    case And(kids) =>
      AndParts(kids, r);
      forall j | 0 <= j < |kids|
        ensures Eval(kids[j], r) == No ==> !Match(kids[j], rows[i])
        ensures Eval(kids[j], r) == Yes ==> (Match(kids[j], rows[i]) <==> Backed(kids[j], r, rows[i]))
      {
        Verdict(kids[j], r, rows, i);
      }
    case Or(kids) =>
      OrParts(kids, r);
      forall j | 0 <= j < |kids|
        ensures Eval(kids[j], r) == No ==> !Match(kids[j], rows[i])
        ensures Eval(kids[j], r) == Yes ==> (Match(kids[j], rows[i]) <==> Backed(kids[j], r, rows[i]))
      {
        Verdict(kids[j], r, rows, i);
      }
  }

  lemma LeafYes(op: Op, val: Scalar, hi: Scalar, col: nat, r: View)
    requires EvalLeaf(op, val, hi, col, r) == Yes
    ensures op != IsNull
  {
  }

  lemma NullMatches(op: Op, val: Scalar, hi: Scalar, c: Cell)
    requires c.Null?
    ensures MatchLeaf(op, val, hi, c) <==> op == IsNull
  {
  }

  lemma {:induction false} AndParts(kids: seq<Pred>, r: View)
    ensures EvalAnd(kids, r) == No <==> exists j :: 0 <= j < |kids| && Eval(kids[j], r) == No
    ensures EvalAnd(kids, r) == Yes <==> forall j :: 0 <= j < |kids| ==> Eval(kids[j], r) == Yes
    decreases |kids|
  {
    hide Eval;
    if kids != [] {
      AndParts(kids[1..], r);
      if j :| 0 <= j < |kids[1..]| && Eval(kids[1..][j], r) == No { assert Eval(kids[j + 1], r) == No; }
      assert forall j :: 0 <= j < |kids| - 1 ==> kids[1..][j] == kids[j + 1];
      assert forall j :: 1 <= j < |kids| ==> kids[j] == kids[1..][j - 1];
    }
  }

  lemma {:induction false} OrParts(kids: seq<Pred>, r: View)
    ensures EvalOr(kids, r) == No <==> forall j :: 0 <= j < |kids| ==> Eval(kids[j], r) == No
    ensures EvalOr(kids, r) == Yes <==> exists j :: 0 <= j < |kids| && Eval(kids[j], r) == Yes
    decreases |kids|
  {
    hide Eval;
    if kids != [] {
      OrParts(kids[1..], r);
      if j :| 0 <= j < |kids[1..]| && Eval(kids[1..][j], r) == Yes { assert Eval(kids[j + 1], r) == Yes; }
      assert forall j :: 0 <= j < |kids| - 1 ==> kids[1..][j] == kids[j + 1];
      assert forall j :: 1 <= j < |kids| ==> kids[j] == kids[1..][j - 1];
    }
  }

  ghost predicate AllIn(z: Zone, op: Op, val: Scalar, hi: Scalar) {
    forall v :: Within(z, v) ==> MatchLeaf(op, val, hi, Val(v))
  }

  ghost predicate NoneIn(z: Zone, op: Op, val: Scalar, hi: Scalar) {
    forall v :: Within(z, v) ==> !MatchLeaf(op, val, hi, Val(v))
  }

  /** Where a value of the zone can stand against `x`. */
  ghost predicate Placed(z: Zone, v: Scalar, x: Scalar) {
    && (Cmp(v, x) == 0 <==> v == x)
    && (Cmp(z.min, x) >= 0 ==> Cmp(v, x) >= 0) && (Cmp(z.min, x) > 0 ==> Cmp(v, x) > 0)
    && (Cmp(z.max, x) <= 0 ==> Cmp(v, x) <= 0) && (Cmp(z.max, x) < 0 ==> Cmp(v, x) < 0)
    && (z.min == z.max == x ==> v == x)
  }

  lemma AllPlaced(z: Zone, x: Scalar)
    ensures forall v :: Within(z, v) ==> Placed(z, v, x)
  {
    hide Cmp;
    forall v | Within(z, v) ensures Placed(z, v, x) {
      Bounds(z, v, x);
      CmpOrder(v, x);
    }
  }

  lemma Turned(z: Zone, x: Scalar)
    ensures Cmp(x, z.min) == -Cmp(z.min, x) && Cmp(x, z.max) == -Cmp(z.max, x)
    ensures (Cmp(x, z.min) == 0 <==> x == z.min) && (Cmp(x, z.max) == 0 <==> x == z.max) && Cmp(x, x) == 0
    ensures Within(z, x) <==> Cmp(x, z.min) >= 0 && Cmp(x, z.max) <= 0
  {
    CmpOrder(x, z.min);
    CmpOrder(x, z.max);
    CmpOrder(x, x);
  }

  /** Nothing is given away: a value leaf is ruled out whenever no value of its zone could match, or a
      filter denies the constant, and an order leaf is ruled in whenever every value would. */
  lemma LeafTight(op: Op, val: Scalar, hi: Scalar, col: nat, r: View)
    requires op != IsNull && col in r.zones && r.zones[col].present && Cmp(r.zones[col].min, r.zones[col].max) <= 0
    requires op == Between ==> Cmp(val, hi) <= 0
    ensures EvalLeaf(op, val, hi, col, r) == No <==>
      NoneIn(r.zones[col], op, val, hi) || (op == EQ && r.rejects(col, val))
    ensures op != EQ && op != NE ==> (EvalLeaf(op, val, hi, col, r) == Yes <==> AllIn(r.zones[col], op, val, hi))
  {
    var z := r.zones[col];
    AllPlaced(z, val);
    AllPlaced(z, hi);
    Turned(z, z.min);
    Turned(z, z.max);
    Turned(z, val);
    Turned(z, hi);
    CmpOrder(z.min, z.max);
    hide Cmp;
    assert Within(z, z.min) && Within(z, z.max);
    match op
    case EQ =>
    case NE =>
    case LT =>
    case LE =>
    case GT =>
    case GE =>
    case Between => if Cmp(z.min, val) < 0 && Cmp(z.max, val) >= 0 { assert Within(z, val); }
    case IsNull =>
  }

  predicate Conjunctive(p: Pred) {
    match p
    case Leaf(_, _, _, _) => true
    case And(kids) => forall i :: 0 <= i < |kids| ==> Conjunctive(kids[i])
    case Or(_) => false
  }

  /** With no null in the columns compared an all-match verdict is always backed; without
      disjunctions, only then. */
  lemma {:induction false} BackedNoNulls(p: Pred, r: View, row: Row)
    requires Eval(p, r) == Yes
    ensures NoNulls(p, row) ==> Backed(p, r, row)
    ensures Conjunctive(p) && Backed(p, r, row) ==> NoNulls(p, row)
    decreases p
  {
    hide EvalAnd, EvalOr, EvalLeaf, Match;
    match p
    case Leaf(col, op, val, hi) => LeafYes(op, val, hi, col, r);
    case And(kids) =>
      AndParts(kids, r);
      forall j | 0 <= j < |kids|
        ensures NoNulls(kids[j], row) ==> Backed(kids[j], r, row)
        ensures Conjunctive(kids[j]) && Backed(kids[j], r, row) ==> NoNulls(kids[j], row)
      {
        BackedNoNulls(kids[j], r, row);
      }
    case Or(kids) =>
      OrParts(kids, r);
      var j :| 0 <= j < |kids| && Eval(kids[j], r) == Yes;
      BackedNoNulls(kids[j], r, row);
  }

  /** A region passed whole on a conjunction holds only matching rows exactly when none of its
      rows is null in a column compared. */
  lemma PassedWhole(p: Pred, r: View, rows: seq<Row>)
    requires Tells(r, rows) && (AsksNull(p) ==> CountsNulls(r, rows)) && Eval(p, r) == Yes && Conjunctive(p)
    ensures (forall i :: 0 <= i < |rows| ==> Match(p, rows[i])) <==>
      (forall i :: 0 <= i < |rows| ==> NoNulls(p, rows[i]))
  {
    hide Tells, CountsNulls, Match, Eval, NoNulls, Backed, Conjunctive, AsksNull;
    forall i | 0 <= i < |rows| ensures Match(p, rows[i]) <==> NoNulls(p, rows[i]) {
      Verdict(p, r, rows, i);
      BackedNoNulls(p, r, rows[i]);
    }
  }

  // ---- scanning a file

  datatype Group = Group(rows: seq<Row>, view: View)

  ghost predicate GoodGroup(g: Group) {
    Tells(g.view, g.rows) && CountsNulls(g.view, g.rows)
  }

  function Project(row: Row, proj: seq<nat>): (out: Row)
    ensures |out| == |proj| && forall j :: 0 <= j < |proj| ==> out[j] == At(row, proj[j])
  {
    seq(|proj|, j requires 0 <= j < |proj| => At(row, proj[j]))
  }

  /** Filtering every row, the reference for a scan. */
  function Filtered(rows: seq<Row>, p: Pred, proj: seq<nat>): seq<Row> {
    if rows == [] then [] else
      var n := |rows| - 1;
      Filtered(rows[..n], p, proj) + if Match(p, rows[n]) then [Project(rows[n], proj)] else []
  }

  function AllRows(groups: seq<Group>): seq<Row> {
    if groups == [] then [] else AllRows(groups[..|groups| - 1]) + groups[|groups| - 1].rows
  }

  lemma {:induction false} FilteredJoin(a: seq<Row>, b: seq<Row>, p: Pred, proj: seq<nat>)
    ensures Filtered(a + b, p, proj) == Filtered(a, p, proj) + Filtered(b, p, proj)
    decreases |b|
  {
    hide Match, Project;
    if b == [] {
      assert a + b == a;
    } else {
      var n := |b| - 1;
      FilteredJoin(a, b[..n], p, proj);
      assert (a + b)[..|a + b| - 1] == a + b[..n];
    }
  }

  function Projected(rows: seq<Row>, proj: seq<nat>): (out: seq<Row>)
    ensures |out| == |rows|
  {
    if rows == [] then [] else
      var n := |rows| - 1;
      Projected(rows[..n], proj) + [Project(rows[n], proj)]
  }

  /** Filtering keeps every row exactly when every row matches. */
  lemma {:induction false} FilteredSize(rows: seq<Row>, p: Pred, proj: seq<nat>)
    ensures |Filtered(rows, p, proj)| <= |rows|
    ensures |Filtered(rows, p, proj)| == |rows| <==> forall i :: 0 <= i < |rows| ==> Match(p, rows[i])
    ensures |Filtered(rows, p, proj)| == |rows| ==> Filtered(rows, p, proj) == Projected(rows, proj)
    ensures (forall i :: 0 <= i < |rows| ==> !Match(p, rows[i])) ==> Filtered(rows, p, proj) == []
    decreases |rows|
  {
    hide Match, Project;
    if rows != [] {
      FilteredSize(rows[..|rows| - 1], p, proj);
    }
  }

  /** The rows `scanGroup` takes from one group: with `allMatch` all of them, unlooked at. */
  function Taken(g: Group, p: Pred, allMatch: bool, proj: seq<nat>): seq<Row> {
    if allMatch then Projected(g.rows, proj) else Filtered(g.rows, p, proj)
  }

  method ScanGroup(g: Group, p: Pred, allMatch: bool, proj: seq<nat>) returns (out: seq<Row>)
    ensures out == Taken(g, p, allMatch, proj)
  {
    hide Match;
    out := [];
    var i := 0;
    while i < |g.rows|
      invariant 0 <= i <= |g.rows|
      invariant out == if allMatch then Projected(g.rows[..i], proj) else Filtered(g.rows[..i], p, proj)
    {
      assert g.rows[..i + 1][..i] == g.rows[..i];
      if allMatch || Match(p, g.rows[i]) {
        out := out + [Project(g.rows[i], proj)];
      }
      i := i + 1;
    }
    assert g.rows[..i] == g.rows;
  }

  function Scanned(groups: seq<Group>, p: Pred, proj: seq<nat>): seq<Row> {
    if groups == [] then [] else
      var g := groups[|groups| - 1];
      Scanned(groups[..|groups| - 1], p, proj)
        + if Eval(p, g.view) == No then [] else Taken(g, p, Eval(p, g.view) == Yes, proj)
  }

  /** If the group is passed whole, its rows back the verdict. */
  ghost predicate PassesRightly(g: Group, p: Pred) {
    Eval(p, g.view) == Yes ==> forall row :: row in g.rows ==> Backed(p, g.view, row)
  }

  /** A group gives its matching rows, or, passed whole with rows that do not back the verdict,
      strictly more. */
  lemma GroupTakes(g: Group, p: Pred, proj: seq<nat>)
    requires GoodGroup(g)
    ensures var taken := if Eval(p, g.view) == No then [] else Taken(g, p, Eval(p, g.view) == Yes, proj);
      if PassesRightly(g, p) then taken == Filtered(g.rows, p, proj) else |taken| > |Filtered(g.rows, p, proj)|
  {
    hide Match, Eval, Tells, CountsNulls, Backed, AsksNull;
    FilteredSize(g.rows, p, proj);
    forall i | 0 <= i < |g.rows|
      ensures Eval(p, g.view) == No ==> !Match(p, g.rows[i])
      ensures Eval(p, g.view) == Yes ==> (Match(p, g.rows[i]) <==> Backed(p, g.view, g.rows[i]))
    {
      Verdict(p, g.view, g.rows, i);
    }
    if !PassesRightly(g, p) {
      var row :| row in g.rows && !Backed(p, g.view, row);
      var i :| 0 <= i < |g.rows| && g.rows[i] == row;
      assert !Match(p, g.rows[i]);
    }
  }

  lemma {:induction false} ScanTakes(groups: seq<Group>, p: Pred, proj: seq<nat>)
    requires forall g :: g in groups ==> GoodGroup(g)
    ensures if forall g :: g in groups ==> PassesRightly(g, p)
      then Scanned(groups, p, proj) == Filtered(AllRows(groups), p, proj)
      else |Scanned(groups, p, proj)| > |Filtered(AllRows(groups), p, proj)|
    decreases |groups|
  {
    hide Match, Eval, GoodGroup, PassesRightly, Taken, Filtered;
    if groups == [] {
      FilteredSize([], p, proj);
    } else {
      var front, g := groups[..|groups| - 1], groups[|groups| - 1];
      assert groups == front + [g];
      ScanTakes(front, p, proj);
      GroupTakes(g, p, proj);
      FilteredJoin(AllRows(front), g.rows, p, proj);
    }
  }

  /** The groups among the first `n` that are not ruled out. */
  ghost function Open(groups: seq<Group>, p: Pred, n: nat): set<nat>
    requires n <= |groups|
  {
    set gi: nat | gi < n && Eval(p, groups[gi].view) != No
  }

  lemma ScanNext(groups: seq<Group>, p: Pred, proj: seq<nat>, n: nat)
    requires n < |groups|
    ensures var g, was := groups[n], Scanned(groups[..n], p, proj);
      Scanned(groups[..n + 1], p, proj)
      == was + if Eval(p, g.view) == No then [] else Taken(g, p, Eval(p, g.view) == Yes, proj)
    ensures |Open(groups, p, n + 1)| == |Open(groups, p, n)| + if Eval(p, groups[n].view) == No then 0 else 1
  {
    hide Eval, Taken;
    assert groups[..n + 1][..n] == groups[..n];
    assert Open(groups, p, n + 1)
      == if Eval(p, groups[n].view) == No then Open(groups, p, n) else Open(groups, p, n) + {n};
  }

  /** `Scan`: zone maps and filters skip and pass whole groups. The rows are exactly the matching
      ones, in order, exactly when every group passed whole is passed rightly. */
  method Scan(groups: seq<Group>, p: Pred, proj: seq<nat>) returns (out: seq<Row>, scanned: nat)
    requires forall g :: g in groups ==> GoodGroup(g)
    ensures out == Scanned(groups, p, proj)
    ensures out == Filtered(AllRows(groups), p, proj) <==> forall g :: g in groups ==> PassesRightly(g, p)
    ensures scanned == |Open(groups, p, |groups|)|
  {
    hide Match, Eval, GoodGroup, PassesRightly, Taken, Filtered;
    assert Open(groups, p, 0) == {};
    out, scanned := [], 0;
    var gi := 0;
    while gi < |groups|
      invariant 0 <= gi <= |groups| && out == Scanned(groups[..gi], p, proj)
      invariant scanned == |Open(groups, p, gi)|
    {
      ScanNext(groups, p, proj, gi);
      var verdict := Eval(p, groups[gi].view);
      if verdict != No {
        var more := ScanGroup(groups[gi], p, verdict == Yes, proj);
        out := out + more;
        scanned := scanned + 1;
      }
      gi := gi + 1;
    }
    assert groups[..gi] == groups;
    ScanTakes(groups, p, proj);
  }

  /** Where no row is null in a column compared, a scan is exact. */
  lemma NoNullsPass(groups: seq<Group>, p: Pred)
    requires forall g, row :: g in groups && row in g.rows ==> NoNulls(p, row)
    ensures forall g :: g in groups ==> PassesRightly(g, p)
  {
    hide NoNulls, Backed, Eval;
    forall g, row | g in groups && Eval(p, g.view) == Yes && row in g.rows ensures Backed(p, g.view, row) {
      BackedNoNulls(p, g.view, row);
    }
  }

  // ---- what comes back, row by row

  /** `at` lists positions of `rows` in order, and `out` their projections. */
  ghost predicate Picks(out: seq<Row>, rows: seq<Row>, at: seq<nat>, proj: seq<nat>) {
    && |out| == |at|
    && (forall n :: 0 <= n < |at| ==> at[n] < |rows| && out[n] == Project(rows[at[n]], proj))
    && (forall m, n :: 0 <= m < n < |at| ==> at[m] < at[n])
  }

  /** Filtering picks exactly the matching rows, in order. */
  lemma {:induction false} FilteredPicks(rows: seq<Row>, p: Pred, proj: seq<nat>) returns (at: seq<nat>)
    ensures Picks(Filtered(rows, p, proj), rows, at, proj)
    ensures forall i: nat :: i in at <==> i < |rows| && Match(p, rows[i])
    decreases |rows|
  {
    hide Match, Project;
    at := [];
    if rows != [] {
      var n := |rows| - 1;
      at := FilteredPicks(rows[..n], p, proj);
      if Match(p, rows[n]) {
        forall m | 0 <= m < |at| ensures at[m] < n {
          assert at[m] in at;
        }
        at := at + [n];
      }
    }
  }

  /** The rows of a file are those of its groups, one group after the other. */
  lemma {:induction false} RowsAt(groups: seq<Group>, g: nat, i: nat)
    requires g < |groups| && i < |groups[g].rows|
    ensures var before := |AllRows(groups[..g])|;
      before + i < |AllRows(groups)| && AllRows(groups)[before + i] == groups[g].rows[i]
    ensures |AllRows(groups[..g + 1])| == |AllRows(groups[..g])| + |groups[g].rows|
    ensures groups[..|groups|] == groups && AllRows([]) == []
    decreases |groups|
  {
    var n := |groups| - 1;
    assert groups[..g + 1][..g] == groups[..g];
    if g == n {
      assert groups[..g + 1] == groups;
    } else {
      RowsAt(groups[..n], g, i);
      assert groups[..n][..g] == groups[..g];
    }
  }

  /** An equality scan returns exactly the rows holding the value, in order, whatever its groups'
      zones and filters let it skip. */
  lemma EqualityScan(groups: seq<Group>, col: nat, val: Scalar, hi: Scalar, proj: seq<nat>) returns (at: seq<nat>)
    requires forall g :: g in groups ==> GoodGroup(g)
    ensures Picks(Scanned(groups, Leaf(col, EQ, val, hi), proj), AllRows(groups), at, proj)
    ensures forall i: nat :: i in at <==> i < |AllRows(groups)| && At(AllRows(groups)[i], col) == Val(val)
  {
    var p, rows := Leaf(col, EQ, val, hi), AllRows(groups);
    forall g | g in groups ensures PassesRightly(g, p) {
      assert Eval(p, g.view) != Yes;
    }
    forall i | 0 <= i < |rows| ensures Match(p, rows[i]) <==> At(rows[i], col) == Val(val) {
      if At(rows[i], col).Val? { LeafReads(val, hi, At(rows[i], col).v); }
    }
    hide GoodGroup, PassesRightly, Match, Scanned, Picks;
    ScanTakes(groups, p, proj);
    at := FilteredPicks(rows, p, proj);
  }

  const BELOW_FIVE := Leaf(0, LT, Num(5), Num(5))

  /** One value, below 5, and one null. */
  function NullGroup(): Group {
    Group([[Val(Num(1))], [Null]], View(map[0 := Zone(true, Num(1), Num(1))], _ => 1, (_, _) => false))
  }

  /** A scan that is not: under `col < 5` the group is passed whole, and its null row with it. */
  lemma NullExample()
    ensures GoodGroup(NullGroup()) && Scanned([NullGroup()], BELOW_FIVE, [0]) == [[Val(Num(1))], [Null]]
    ensures Filtered(AllRows([NullGroup()]), BELOW_FIVE, [0]) == [[Val(Num(1))]]
  {
    NullGroupGood();
    var g := NullGroup();
    var a: Row, b: Row := [Val(Num(1))], [Null];
    OneGroup(g, BELOW_FIVE, [0]);
    hide Match, Eval, Projected, Filtered, Scanned, AllRows, GoodGroup;
    assert g.rows == [a, b];
    TwoRows(a, b, BELOW_FIVE, [0]);
    assert Project(a, [0]) == a && Project(b, [0]) == b;
  }

  lemma NullGroupGood()
    ensures GoodGroup(NullGroup()) && Eval(BELOW_FIVE, NullGroup().view) == Yes
    ensures Match(BELOW_FIVE, [Val(Num(1))]) && !Match(BELOW_FIVE, [Null])
  {
    var rows := NullGroup().rows;
    assert At(rows[0], 0) == Val(Num(1)) && At(rows[1], 0) == Null;
  }

  lemma OneGroup(g: Group, p: Pred, proj: seq<nat>)
    requires Eval(p, g.view) == Yes
    ensures Scanned([g], p, proj) == Projected(g.rows, proj) && AllRows([g]) == g.rows
  {
    hide Eval, Projected;
    assert [g][..0] == [];
  }

  lemma TwoRows(a: Row, b: Row, p: Pred, proj: seq<nat>)
    requires Match(p, a) && !Match(p, b)
    ensures Filtered([a, b], p, proj) == [Project(a, proj)]
    ensures Projected([a, b], proj) == [Project(a, proj), Project(b, proj)]
  {
    hide Match, Project;
    assert [a, b][..1] == [a] && [a][..0] == [];
    assert Filtered([], p, proj) == [] && Filtered([a], p, proj) == [Project(a, proj)];
    assert Projected([a], proj) == [Project(a, proj)];
  }

  // ---- pruning whole files

  /** The zone a group records of a column; none, for a column with no value in it. */
  function ZoneIn(g: Group, col: nat): Zone {
    if col in g.view.zones then g.view.zones[col] else ABSENT
  }

  /** `memberEntry`, one column: the chunk zones merged over the groups, those without one skipped. */
  method Rollup(groups: seq<Group>, col: nat) returns (z: Zone)
    requires forall g :: g in groups ==> ZoneOf(ZoneIn(g, col), g.rows, col)
    ensures ZoneOf(z, AllRows(groups), col)
  {
    hide ZoneOf;
    z := ABSENT;
    assert ZoneOf(z, AllRows(groups[..0]), col) by { NoZone(col); }
    var gi := 0;
    while gi < |groups|
      invariant 0 <= gi <= |groups| && ZoneOf(z, AllRows(groups[..gi]), col)
    {
      var g := groups[gi];
      assert groups[..gi + 1][..gi] == groups[..gi] && g in groups;
      MergeZones(z, ZoneIn(g, col), AllRows(groups[..gi]), g.rows, col);
      if col in g.view.zones && g.view.zones[col].present {
        z := Merge(z, g.view.zones[col]);
      }
      gi := gi + 1;
    }
    assert groups[..gi] == groups;
  }

  lemma NoZone(col: nat)
    ensures ZoneOf(ABSENT, [], col)
  {
  }

  /** What the catalogue knows of a file: rolled-up zones, no null counts, no filters. */
  function MemberView(zones: map<nat, Zone>): View {
    View(map c | c in zones && zones[c].present :: zones[c], _ => 0, (_, _) => false)
  }

  /** The predicate with its IS NULL leaves read as false. */
  function Without(p: Pred): Pred {
    match p
    case Leaf(_, op, _, _) => if op == IsNull then Or([]) else p
    case And(kids) => And(WithoutAll(kids))
    case Or(kids) => Or(WithoutAll(kids))
  }

  function WithoutAll(kids: seq<Pred>): (r: seq<Pred>)
    ensures |r| == |kids|
  {
    if kids == [] then [] else [Without(kids[0])] + WithoutAll(kids[1..])
  }

  lemma {:induction false} WithoutAt(kids: seq<Pred>, i: nat)
    requires i < |kids|
    ensures WithoutAll(kids)[i] == Without(kids[i])
  {
    if i > 0 { WithoutAt(kids[1..], i - 1); }
  }

  lemma {:induction false} WithoutAsks(p: Pred)
    ensures !AsksNull(Without(p))
    ensures !AsksNull(p) ==> Without(p) == p
    decreases p
  {
    if !p.Leaf? {
      forall i | 0 <= i < |p.kids|
        ensures WithoutAll(p.kids)[i] == Without(p.kids[i]) && !AsksNull(Without(p.kids[i]))
        ensures !AsksNull(p.kids[i]) ==> Without(p.kids[i]) == p.kids[i]
      {
        WithoutAt(p.kids, i);
        WithoutAsks(p.kids[i]);
      }
      if !AsksNull(p) { assert WithoutAll(p.kids) == p.kids; }
    }
  }

  /** Reading IS NULL as false can only lose rows, and only rows null where it asks. */
  lemma {:induction false} WithoutMatch(p: Pred, row: Row)
    ensures Match(Without(p), row) ==> Match(p, row)
    ensures Match(p, row) && !Match(Without(p), row) ==> NullAsked(p, row)
    decreases p
  {
    if !p.Leaf? {
      forall i | 0 <= i < |p.kids|
        ensures WithoutAll(p.kids)[i] == Without(p.kids[i])
        ensures Match(Without(p.kids[i]), row) ==> Match(p.kids[i], row)
        ensures Match(p.kids[i], row) && !Match(Without(p.kids[i]), row) ==> NullAsked(p.kids[i], row)
      {
        WithoutAt(p.kids, i);
        WithoutMatch(p.kids[i], row);
      }
    }
  }

  /** Some column the predicate asks IS NULL of is null in the row. */
  ghost predicate NullAsked(p: Pred, row: Row) {
    match p
    case Leaf(col, op, _, _) => op == IsNull && At(row, col).Null?
    case And(kids) => exists i :: 0 <= i < |kids| && NullAsked(kids[i], row)
    case Or(kids) => exists i :: 0 <= i < |kids| && NullAsked(kids[i], row)
  }

  /** With every null count zero, an IS NULL leaf counts for nothing. */
  lemma {:induction false} EvalWithout(p: Pred, r: View)
    requires forall c :: r.nulls(c) == 0
    ensures Eval(p, r) == Eval(Without(p), r)
    decreases p, if p.Leaf? then 0 else |p.kids| + 1
  {
    hide EvalLeaf;
    match p
    case Leaf(col, op, val, hi) => if op == IsNull { NullLeafNo(val, hi, col, r); }
    case And(kids) => EvalWithoutAll(p, kids, r);
    case Or(kids) => EvalWithoutAll(p, kids, r);
  }

  lemma NullLeafNo(val: Scalar, hi: Scalar, col: nat, r: View)
    requires r.nulls(col) == 0
    ensures EvalLeaf(IsNull, val, hi, col, r) == No
  {
  }

  lemma {:induction false} EvalWithoutAll(p: Pred, kids: seq<Pred>, r: View)
    requires forall c :: r.nulls(c) == 0
    requires forall j :: 0 <= j < |kids| ==> kids[j] < p
    ensures EvalAnd(kids, r) == EvalAnd(WithoutAll(kids), r) && EvalOr(kids, r) == EvalOr(WithoutAll(kids), r)
    decreases p, |kids|
  {
    hide Eval, Without;
    if kids != [] {
      EvalWithout(kids[0], r);
      EvalWithoutAll(p, kids[1..], r);
      assert WithoutAll(kids)[1..] == WithoutAll(kids[1..]);
    }
  }

  /** The zones are those of the file. */
  ghost predicate Rolled(zones: map<nat, Zone>, rows: seq<Row>) {
    forall c :: c in zones ==> ZoneOf(zones[c], rows, c)
  }

  /** `Prune` never drops a file with a row that matches for any reason but IS NULL. */
  lemma PruneSafe(p: Pred, zones: map<nat, Zone>, rows: seq<Row>, i: nat)
    requires Rolled(zones, rows) && i < |rows| && Match(Without(p), rows[i])
    ensures Eval(p, MemberView(zones)) != No
  {
    hide Match, Eval, ZoneOf, AsksNull, Backed;
    EvalWithout(p, MemberView(zones));
    WithoutAsks(p);
    Verdict(Without(p), MemberView(zones), rows, i);
  }

  /** In particular it never drops one for a predicate that does not ask for nulls. */
  lemma PruneSafeWithoutNulls(p: Pred, zones: map<nat, Zone>, rows: seq<Row>, i: nat)
    requires Rolled(zones, rows) && i < |rows| && Match(p, rows[i]) && !AsksNull(p)
    ensures Eval(p, MemberView(zones)) != No
  {
    WithoutAsks(p);
    PruneSafe(p, zones, rows, i);
  }

  /** Exactly which files are lost: those the zones rule out once IS NULL is read as false, and
      that hold a row matching through a null alone. */
  lemma PruneLoses(p: Pred, zones: map<nat, Zone>, rows: seq<Row>)
    requires Rolled(zones, rows)
    ensures (Eval(p, MemberView(zones)) == No && exists i :: 0 <= i < |rows| && Match(p, rows[i])) <==>
      (Eval(Without(p), MemberView(zones)) == No
        && exists i :: 0 <= i < |rows| && Match(p, rows[i]) && !Match(Without(p), rows[i]) && NullAsked(p, rows[i]))
  {
    hide Match, Eval, ZoneOf, NullAsked, Rolled;
    EvalWithout(p, MemberView(zones));
    if Eval(p, MemberView(zones)) == No {
      if i :| 0 <= i < |rows| && Match(p, rows[i]) {
        if Match(Without(p), rows[i]) { PruneSafe(p, zones, rows, i); }
        WithoutMatch(p, rows[i]);
      }
    }
  }

  /** An IS NULL leaf drops every file, and so loses a row of exactly those with a null. */
  lemma NullLeafLoses(col: nat, val: Scalar, hi: Scalar, zones: map<nat, Zone>, rows: seq<Row>)
    ensures var p := Leaf(col, IsNull, val, hi);
      && Eval(p, MemberView(zones)) == No
      && ((exists i :: 0 <= i < |rows| && Match(p, rows[i])) <==> exists i :: 0 <= i < |rows| && At(rows[i], col).Null?)
  {
    var p := Leaf(col, IsNull, val, hi);
    assert forall i :: 0 <= i < |rows| ==> (Match(p, rows[i]) <==> At(rows[i], col).Null?);
  }

  /** ... such as a file of one null. */
  lemma NullCountExample()
    ensures var p := Leaf(0, IsNull, Num(0), Num(0)); var rows := [[Null]];
      Rolled(map[], rows) && Eval(p, MemberView(map[])) == No && Match(p, rows[0])
  {
  }

  /** `Prune`: the files kept, in catalogue order. */
  method Prune(members: seq<map<nat, Zone>>, p: Pred) returns (keep: seq<nat>)
    ensures forall m: nat :: m in keep <==> m < |members| && Eval(p, MemberView(members[m])) != No
    ensures forall i, j :: 0 <= i < j < |keep| ==> keep[i] < keep[j]
  {
    hide Eval;
    keep := [];
    var m := 0;
    while m < |members|
      invariant 0 <= m <= |members|
      invariant forall x: nat :: x in keep <==> x < m && Eval(p, MemberView(members[x])) != No
      invariant forall i, j :: 0 <= i < j < |keep| ==> keep[i] < keep[j]
    {
      assert forall i :: 0 <= i < |keep| ==> keep[i] in keep;
      if Eval(p, MemberView(members[m])) != No {
        keep := keep + [m];
      }
      m := m + 1;
    }
  }
}
