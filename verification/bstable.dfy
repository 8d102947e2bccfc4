/** The balance-sheet table's view logic: which comparison columns a row
    shows, the largest change in the tree, the variance bar's width, and
    the tree handed to the commentary request. */
module BalanceSheetView {
  import opened Wrappers
  import opened Types
  import opened TreeFinalize

  datatype ComparisonSource = VsPreviousQuarter | VsSamePeriodLastYear | VsBeginningOfYear

  /** The comparison amount, change and change percentage a row shows. */
  function ComparedValue(r: Row, src: ComparisonSource): Option<real> {
    match src
    case VsSamePeriodLastYear => r.values.samePeriodLastYear
    case VsBeginningOfYear => r.values.beginningOfYear
    case VsPreviousQuarter => r.values.start
  }

  function DiffFor(r: Row, src: ComparisonSource): Option<real> {
    match src
    case VsSamePeriodLastYear => r.derived.diffVsSamePeriod
    case VsBeginningOfYear => r.derived.diffVsBeginningOfYear
    case VsPreviousQuarter => r.derived.diff
  }

  function DiffPctFor(r: Row, src: ComparisonSource): Option<real> {
    match src
    case VsSamePeriodLastYear => r.derived.diffPctVsSamePeriod
    case VsBeginningOfYear => r.derived.diffPctVsBeginningOfYear
    case VsPreviousQuarter => r.derived.diffPct
  }

  /** On a finalized row the three columns come from one comparison: the
      change added to the compared amount gives the end amount, and the
      percentage is the change relative to the compared amount. */
  lemma ColumnsAgree(r: Row, base: real, src: ComparisonSource)
    requires r.derived == DerivedOf(r.values, base)
    ensures ChangeFrom(r.values.end, ComparedValue(r, src), DiffFor(r, src), DiffPctFor(r, src))
  {
    var v := r.values;
    var d := r.derived;
    match src
    case VsPreviousQuarter =>
      assert ChangeFrom(v.end, v.start, d.diff, d.diffPct);
    case VsSamePeriodLastYear =>
      assert ChangeFrom(v.end, v.samePeriodLastYear, d.diffVsSamePeriod, d.diffPctVsSamePeriod);
    case VsBeginningOfYear =>
      assert ChangeFrom(v.end, v.beginningOfYear, d.diffVsBeginningOfYear, d.diffPctVsBeginningOfYear);
  }

  /** The rows `traverse` visits: pre-order, descending only into rows
      flagged as having children. */
  function Visited(rows: seq<Row>): seq<Row>
    decreases rows
  {
    if |rows| == 0 then []
    else [rows[0]] + (if rows[0].hasChildren then Visited(rows[0].children) else []) + Visited(rows[1..])
  }

  /** One visit: a larger magnitude of the row's change raises the maximum. */
  function Raise(m: real, r: Row, src: ComparisonSource): (m': real)
    ensures m' >= m
    ensures DiffFor(r, src).Some? ==> m' >= Abs(DiffFor(r, src).value)
    ensures m' == m || (DiffFor(r, src).Some? && m' == Abs(DiffFor(r, src).value))
  {
    if DiffFor(r, src).Some? && Abs(DiffFor(r, src).value) > m then Abs(DiffFor(r, src).value) else m
  }

  /** `traverse` with the running maximum `m`. */
  function Traverse(rows: seq<Row>, src: ComparisonSource, m: real): (r: real)
    ensures r >= m
    decreases rows
  {
    if |rows| == 0 then m
    else
      var m1 := Raise(m, rows[0], src);
      var m2 := if rows[0].hasChildren then Traverse(rows[0].children, src, m1) else m1;
      Traverse(rows[1..], src, m2)
  }

  /** A row's change on the axis exceeds no bound. */
  predicate Bounded(rows: seq<Row>, src: ComparisonSource, b: real) {
    forall i :: 0 <= i < |rows| && DiffFor(rows[i], src).Some? ==> Abs(DiffFor(rows[i], src).value) <= b
  }

  /** Some row's change on the axis has magnitude `b`. */
  predicate Attained(rows: seq<Row>, src: ComparisonSource, b: real) {
    exists i :: 0 <= i < |rows| && DiffFor(rows[i], src).Some? && b == Abs(DiffFor(rows[i], src).value)
  }

  lemma ConcatBounds(x: seq<Row>, y: seq<Row>, src: ComparisonSource, b: real)
    ensures Bounded(x + y, src, b) <==> Bounded(x, src, b) && Bounded(y, src, b)
    ensures Attained(x, src, b) || Attained(y, src, b) ==> Attained(x + y, src, b)
  {
    if Attained(x, src, b) {
      var i :| 0 <= i < |x| && DiffFor(x[i], src).Some? && b == Abs(DiffFor(x[i], src).value);
      assert (x + y)[i] == x[i];
    }
    if Attained(y, src, b) {
      var i :| 0 <= i < |y| && DiffFor(y[i], src).Some? && b == Abs(DiffFor(y[i], src).value);
      assert (x + y)[|x| + i] == y[i];
    }
    if Bounded(x, src, b) && Bounded(y, src, b) {
      forall i | 0 <= i < |x + y| && DiffFor((x + y)[i], src).Some? ensures Abs(DiffFor((x + y)[i], src).value) <= b {
        if i < |x| {
          assert (x + y)[i] == x[i];
        } else {
          assert (x + y)[i] == y[i - |x|];
        }
      }
    }
    if Bounded(x + y, src, b) {
      assert forall i :: 0 <= i < |x| ==> (x + y)[i] == x[i];
      assert forall i :: 0 <= i < |y| ==> (x + y)[|x| + i] == y[i];
    }
  }

  lemma BoundedMonotone(rows: seq<Row>, src: ComparisonSource, b: real, c: real)
    requires Bounded(rows, src, b) && b <= c
    ensures Bounded(rows, src, c)
  {
  }

  /** The traversal bounds every visited row's change, and ends at `m` or
      at one of those changes. */
  lemma {:induction false} TraverseBounds(rows: seq<Row>, src: ComparisonSource, m: real)
    ensures Bounded(Visited(rows), src, Traverse(rows, src, m))
    ensures Traverse(rows, src, m) == m || Attained(Visited(rows), src, Traverse(rows, src, m))
    decreases rows
  {
    if |rows| > 0 {
      var m1 := Raise(m, rows[0], src);
      var m2 := if rows[0].hasChildren then Traverse(rows[0].children, src, m1) else m1;
      var below := if rows[0].hasChildren then Visited(rows[0].children) else [];
      var rest := Visited(rows[1..]);
      var r := Traverse(rows[1..], src, m2);
      if rows[0].hasChildren {
        TraverseBounds(rows[0].children, src, m1);
      }
      TraverseBounds(rows[1..], src, m2);
      assert Visited(rows) == [rows[0]] + below + rest;
      ConcatBounds([rows[0]], below, src, r);
      ConcatBounds([rows[0]] + below, rest, src, r);
      BoundedMonotone(below, src, m2, r);
      assert Bounded([rows[0]], src, r);
      if r != m {
        if r == m2 {
          if m2 == m1 {
            assert [rows[0]][0] == rows[0];
            assert Attained([rows[0]], src, r);
          } else {
            assert Attained(below, src, r);
            ConcatBounds([rows[0]], below, src, r);
          }
        }
      }
    }
  }

  /** `findMaxAbsDiff`: at least 0, no smaller than any visited row's
      change, and either 0 or one of those changes. */
  function MaxAbsDiff(rows: seq<Row>, src: ComparisonSource): (r: real)
    ensures r >= 0.0
    ensures Bounded(Visited(rows), src, r)
    ensures r == 0.0 || Attained(Visited(rows), src, r)
  {
    TraverseBounds(rows, src, 0.0);
    Traverse(rows, src, 0.0)
  }

  /** With no change on the axis anywhere the maximum is 0. */
  lemma MaxAbsDiffNoChanges(rows: seq<Row>, src: ComparisonSource)
    requires forall i :: 0 <= i < |Visited(rows)| ==> DiffFor(Visited(rows)[i], src).None?
    ensures MaxAbsDiff(rows, src) == 0.0
  {
    assert !Attained(Visited(rows), src, MaxAbsDiff(rows, src));
  }

  /** With exact flags every row of the tree is visited. */
  lemma {:induction false} VisitedIsPreOrder(rows: seq<Row>)
    requires AllFlagsExact(rows)
    ensures Visited(rows) == PreOrders(rows)
    decreases rows
  {
    if |rows| > 0 {
      assert FlagsExact(rows[0]);
      VisitedIsPreOrder(rows[0].children);
      assert AllFlagsExact(rows[1..]) by {
        forall i | 0 <= i < |rows| - 1 ensures FlagsExact(rows[1..][i]) {
          assert rows[1..][i] == rows[i + 1];
        }
      }
      VisitedIsPreOrder(rows[1..]);
      if !rows[0].hasChildren {
        assert rows[0].children == [];
        assert PreOrders(rows[0].children) == [];
      }
      assert PreOrder(rows[0]) == [rows[0]] + PreOrders(rows[0].children);
    }
  }

  /** The variance bar: the placeholder for no value, otherwise the width in
      percent of the larger of 1 and the maximum change. */
  function BarWidth(value: Option<real>, maxAbsDiff: real): (w: Option<real>)
    ensures w.Some? <==> value.Some?
    ensures w.Some? ==> w.value >= 0.0
    ensures w.Some? ==> w.value * (if maxAbsDiff < 1.0 then 1.0 else maxAbsDiff) == Abs(value.value) * 100.0
    ensures w.Some? && Abs(value.value) <= maxAbsDiff ==> w.value <= 100.0
  {
    if value.None? then None
    else
      var max := if maxAbsDiff < 1.0 then 1.0 else maxAbsDiff;
      var q := Abs(value.value) / max;
      assert q * max == Abs(value.value);
      assert Abs(value.value) <= maxAbsDiff ==> q <= 1.0;
      Some(q * 100.0)
  }

  /** Every visited row's bar fits in the full width. */
  lemma BarWithinTree(rows: seq<Row>, src: ComparisonSource, i: nat)
    requires i < |Visited(rows)| && DiffFor(Visited(rows)[i], src).Some?
    ensures var w := BarWidth(DiffFor(Visited(rows)[i], src), MaxAbsDiff(rows, src)).value;
      0.0 <= w <= 100.0
  {
    assert Bounded(Visited(rows), src, MaxAbsDiff(rows, src));
  }

  /** The row shape sent with a commentary request. */
  datatype Simple = Simple(name: string, endPeriod: Option<real>, startPeriod: Option<real>, children: seq<Simple>)

  /** `simplify`, over every child. */
  function Simplify(r: Row): (s: Simple)
    ensures s.name == r.name && s.endPeriod == r.values.end && s.startPeriod == r.values.start
    ensures |s.children| == |r.children|
    ensures forall i :: 0 <= i < |r.children| ==> s.children[i] == Simplify(r.children[i])
    decreases r
  {
    Simple(r.name, r.values.end, r.values.start,
           seq(|r.children|, i requires 0 <= i < |r.children| => Simplify(r.children[i])))
  }

  function SimpleCount(s: Simple): nat
    decreases s, 1
  {
    1 + SimpleCounts(s.children)
  }

  function SimpleCounts(ss: seq<Simple>): nat
    decreases ss, 0
  {
    if |ss| == 0 then 0 else SimpleCount(ss[0]) + SimpleCounts(ss[1..])
  }

  /** Simplifying keeps every node: the simple tree has as many nodes as
      the row tree's pre-order. */
  lemma {:induction false} SimplifyKeepsNodes(r: Row)
    ensures SimpleCount(Simplify(r)) == |PreOrder(r)|
    decreases r, 1
  {
    SimplifyKeepsNodesAll(r.children, Simplify(r).children);
  }

  lemma {:induction false} SimplifyKeepsNodesAll(rs: seq<Row>, ss: seq<Simple>)
    requires |ss| == |rs| && forall i :: 0 <= i < |rs| ==> ss[i] == Simplify(rs[i])
    ensures SimpleCounts(ss) == |PreOrders(rs)|
    decreases rs, 0
  {
    if |rs| > 0 {
      SimplifyKeepsNodes(rs[0]);
      SimplifyKeepsNodesAll(rs[1..], ss[1..]);
    }
  }
}
