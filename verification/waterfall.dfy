/** The waterfall decomposition of a selected row's change into the changes
    of its leaf descendants plus a remainder, as the dashboard builds it for
    the balance sheet and for the income and cash-flow statements. */
module Waterfall {
  import opened Wrappers
  import opened Types
  import opened TreeFinalize

  /** One entry of the chart's data: a total bar or a change bar. */
  datatype Bar = Bar(name: string, value: real, isTotal: bool)

  /** The balance sheet's comparison modes. */
  datatype BsMode = BsVsPreviousQuarter | BsVsSamePeriodLastYear | BsVsBeginningOfYear

  /** The income and cash-flow statements' comparison modes. */
  datatype FlowMode = FlowVsSamePeriodLastYear | FlowVsPreviousQuarter

  const Remainder: string := "Khác"

  /** The axis a balance-sheet mode compares the end amount against: the
      default mode reads `start`, which for the balance sheet holds the
      previous quarter's end. */
  function BsFrom(m: BsMode): Axis {
    match m
    case BsVsPreviousQuarter => Start
    case BsVsSamePeriodLastYear => SamePeriodLastYear
    case BsVsBeginningOfYear => BeginningOfYear
  }

  function BsStartLabel(m: BsMode): string {
    match m
    case BsVsPreviousQuarter => "Đầu kỳ"
    case BsVsSamePeriodLastYear => "Cùng kỳ năm trước"
    case BsVsBeginningOfYear => "Đầu năm"
  }

  const BsEndLabel: string := "Cuối kỳ"

  function FlowFrom(m: FlowMode): Axis {
    if m == FlowVsPreviousQuarter then PrevQuarter else Start
  }

  function FlowStartLabel(m: FlowMode): string {
    if m == FlowVsPreviousQuarter then "Lũy kế quý trước" else "Lũy kế cùng kỳ"
  }

  const FlowEndLabel: string := "Lũy kế kỳ này"

  function Abs(x: real): real {
    if x < 0.0 then -x else x
  }

  // ---------------------------------------------------------------------
  // Leaf descendants.

  /** `traverse`: a row without children is a leaf; otherwise its children
      are traversed in order. */
  function LeavesOf(r: Row): seq<Row>
    decreases r, 1
  {
    if !r.hasChildren then [r] else LeavesAll(r.children)
  }

  function LeavesAll(rs: seq<Row>): seq<Row>
    decreases rs, 0
  {
    if |rs| == 0 then [] else LeavesOf(rs[0]) + LeavesAll(rs[1..])
  }

  /** `findAllLeafDescendants`: the leaves below a row, the row excluded. */
  function Leaves(r: Row): seq<Row> {
    LeavesAll(r.children)
  }

  /** Reference: the rows of a list flagged as having no children. */
  function Childless(nodes: seq<Row>): seq<Row> {
    if |nodes| == 0 then []
    else (if nodes[0].hasChildren then [] else [nodes[0]]) + Childless(nodes[1..])
  }

  lemma {:induction false} ChildlessConcat(x: seq<Row>, y: seq<Row>)
    ensures Childless(x + y) == Childless(x) + Childless(y)
  {
    if |x| > 0 {
      assert (x + y)[1..] == x[1..] + y;
      ChildlessConcat(x[1..], y);
    } else {
      assert x + y == y;
    }
  }

  /** With exact flags the traversal yields exactly the childless nodes of
      the pre-order, in pre-order. */
  lemma {:induction false} LeavesAllArePreOrderLeaves(rs: seq<Row>)
    requires AllFlagsExact(rs)
    ensures LeavesAll(rs) == Childless(PreOrders(rs))
    decreases rs, 0
  {
    if |rs| > 0 {
      assert FlagsExact(rs[0]);
      assert AllFlagsExact(rs[1..]) by {
        forall i | 0 <= i < |rs| - 1 ensures FlagsExact(rs[1..][i]) {
          assert rs[1..][i] == rs[i + 1];
        }
      }
      LeavesOfArePreOrderLeaves(rs[0]);
      LeavesAllArePreOrderLeaves(rs[1..]);
      ChildlessConcat(PreOrder(rs[0]), PreOrders(rs[1..]));
    }
  }

  lemma {:induction false} LeavesOfArePreOrderLeaves(r: Row)
    requires FlagsExact(r)
    ensures LeavesOf(r) == Childless(PreOrder(r))
    decreases r, 1
  {
    assert PreOrder(r) == [r] + PreOrders(r.children);
    ChildlessConcat([r], PreOrders(r.children));
    assert Childless([r]) == (if r.hasChildren then [] else [r]) by {
      assert [r][1..] == [];
    }
    if r.hasChildren {
      LeavesAllArePreOrderLeaves(r.children);
    } else {
      assert r.children == [];
      assert PreOrders(r.children) == [];
    }
  }

  // ---------------------------------------------------------------------
  // The decomposition.

  /** A leaf's change against the comparison axis, missing amounts as 0. */
  function LeafChange(leaf: Row, from: Axis): real {
    leaf.values.end.GetOr(0.0) - leaf.values.Get(from).GetOr(0.0)
  }

  /** The change bars of the leaves whose change exceeds 1 in magnitude. */
  function Changes(leaves: seq<Row>, from: Axis): seq<Bar> {
    if |leaves| == 0 then []
    else
      var rest := Changes(leaves[..|leaves| - 1], from);
      var leaf := leaves[|leaves| - 1];
      if Abs(LeafChange(leaf, from)) > 1.0 then rest + [Bar(leaf.name, LeafChange(leaf, from), false)] else rest
  }

  function BarSum(bars: seq<Bar>): real {
    if |bars| == 0 then 0.0 else BarSum(bars[..|bars| - 1]) + bars[|bars| - 1].value
  }

  /** The end amount less the comparison amount, 0 unless both exist. */
  function TotalDiff(r: Row, from: Axis): real {
    if r.values.end.Some? && r.values.Get(from).Some? then r.values.end.value - r.values.Get(from).value else 0.0
  }

  /** The remainder bar, when what the leaf changes leave unexplained
      exceeds 1 in magnitude. */
  function RemainderBar(r: Row, from: Axis): seq<Bar> {
    var other := TotalDiff(r, from) - BarSum(Changes(Leaves(r), from));
    if Abs(other) > 1.0 then [Bar(Remainder, other, false)] else []
  }

  /** The bars for a selected row: the comparison total, the leaf changes,
      the remainder and the end total. */
  function Bars(r: Row, from: Axis, startLabel: string, endLabel: string): seq<Bar> {
    [Bar(startLabel, r.values.Get(from).GetOr(0.0), true)]
    + Changes(Leaves(r), from) + RemainderBar(r, from)
    + [Bar(endLabel, r.values.end.GetOr(0.0), true)]
  }

  /** The chart data for a selected row id: empty without an id, a tree, a
      row with that id, or children below it. */
  function Build(tree: seq<Row>, id: Option<NodeId>, from: Axis, startLabel: string, endLabel: string): seq<Bar> {
    if id.None? || |tree| == 0 then []
    else
      match FindRowById(tree, id.value)
      case None => []
      case Some(r) => if !r.hasChildren then [] else Bars(r, from, startLabel, endLabel)
  }

  function BalanceSheet(tree: seq<Row>, id: Option<NodeId>, m: BsMode): seq<Bar> {
    Build(tree, id, BsFrom(m), BsStartLabel(m), BsEndLabel)
  }

  function Flow(tree: seq<Row>, id: Option<NodeId>, m: FlowMode): seq<Bar> {
    Build(tree, id, FlowFrom(m), FlowStartLabel(m), FlowEndLabel)
  }

  // ---------------------------------------------------------------------
  // Properties.

  /** Each change bar is a big leaf change, and every big leaf change has
      its bar (order and multiplicity: `ChangesInLeafOrder`). */
  lemma {:induction false} ChangesAreBigLeafChanges(leaves: seq<Row>, from: Axis)
    ensures forall b :: b in Changes(leaves, from) ==> !b.isTotal && Abs(b.value) > 1.0
    ensures forall b :: b in Changes(leaves, from) <==>
              exists i :: 0 <= i < |leaves| && Abs(LeafChange(leaves[i], from)) > 1.0
                          && b == Bar(leaves[i].name, LeafChange(leaves[i], from), false)
  {
    if |leaves| > 0 {
      var pre := leaves[..|leaves| - 1];
      ChangesAreBigLeafChanges(pre, from);
      assert forall i :: 0 <= i < |pre| ==> pre[i] == leaves[i];
    }
  }

  /** The bar one leaf contributes: its change when that exceeds 1 in
      magnitude, nothing otherwise. */
  function LeafBar(leaf: Row, from: Axis): seq<Bar> {
    if Abs(LeafChange(leaf, from)) > 1.0 then [Bar(leaf.name, LeafChange(leaf, from), false)] else []
  }

  lemma {:induction false} ChangesConcat(a: seq<Row>, b: seq<Row>, from: Axis)
    ensures Changes(a + b, from) == Changes(a, from) + Changes(b, from)
    decreases |b|
  {
    if |b| == 0 {
      assert a + b == a;
    } else {
      var p := b[..|b| - 1];
      assert (a + b)[..|a + b| - 1] == a + p;
      assert (a + b)[|a + b| - 1] == b[|b| - 1];
      ChangesConcat(a, p, from);
    }
  }

  /** The change bars come one per big leaf, in leaf order: around any
      leaf, the bars are those of the leaves before it, then its own bar
      (if its change is big), then those of the leaves after it. */
  lemma ChangesInLeafOrder(leaves: seq<Row>, from: Axis)
    ensures forall k :: 0 <= k < |leaves| ==>
              Changes(leaves, from) == Changes(leaves[..k], from) + LeafBar(leaves[k], from) + Changes(leaves[k + 1..], from)
  {
    forall k | 0 <= k < |leaves|
      ensures Changes(leaves, from) == Changes(leaves[..k], from) + LeafBar(leaves[k], from) + Changes(leaves[k + 1..], from)
    {
      assert leaves == (leaves[..k] + [leaves[k]]) + leaves[k + 1..];
      ChangesConcat(leaves[..k] + [leaves[k]], leaves[k + 1..], from);
      ChangesConcat(leaves[..k], [leaves[k]], from);
      assert [leaves[k]][..0] == [];
      assert Changes([leaves[k]], from) == LeafBar(leaves[k], from);
    }
  }

  lemma SumSnoc(bars: seq<Bar>, b: Bar)
    ensures BarSum(bars + [b]) == BarSum(bars) + b.value
  {
    assert (bars + [b])[..|bars|] == bars;
  }

  /** The chart is empty exactly when there is no selected row with
      children. */
  lemma BuildEmpty(tree: seq<Row>, id: Option<NodeId>, from: Axis, startLabel: string, endLabel: string)
    ensures Build(tree, id, from, startLabel, endLabel) == [] <==>
              id.None? || |tree| == 0 || FindRowById(tree, id.value).None? || !FindRowById(tree, id.value).value.hasChildren
  {
  }

  /** The bars between the two totals: change bars of magnitude over 1,
      the leaf changes `ch` first, adding up to the total difference when a
      remainder bar follows them and to within 1 of it otherwise. */
  predicate MiddleOk(mid: seq<Bar>, ch: seq<Bar>, total: real) {
    && |ch| <= |mid|
    && (forall i :: 0 <= i < |mid| ==> !mid[i].isTotal && Abs(mid[i].value) > 1.0)
    && mid[..|ch|] == ch
    && (|mid| > |ch| ==> BarSum(mid) == total)
    && Abs(BarSum(mid) - total) <= 1.0
  }

  lemma MiddleShape(r: Row, from: Axis)
    ensures MiddleOk(Changes(Leaves(r), from) + RemainderBar(r, from), Changes(Leaves(r), from), TotalDiff(r, from))
  {
    var ch := Changes(Leaves(r), from);
    var rem := RemainderBar(r, from);
    var mid := ch + rem;
    ChangesAreBigLeafChanges(Leaves(r), from);
    forall i | 0 <= i < |mid| ensures !mid[i].isTotal && Abs(mid[i].value) > 1.0 {
      if i < |ch| {
        assert mid[i] == ch[i];
        assert ch[i] in ch;
      } else {
        assert mid[i] == rem[i - |ch|];
      }
    }
    assert mid[..|ch|] == ch;
    if |rem| > 0 {
      SumSnoc(ch, rem[0]);
      assert mid == ch + [rem[0]];
    } else {
      assert mid == ch;
    }
  }

  /** A row's chart opens with the comparison total and closes with the end
      total, and the bars between them are as `MiddleOk` describes. */
  lemma BarsShape(r: Row, from: Axis, startLabel: string, endLabel: string)
    ensures var bars := Bars(r, from, startLabel, endLabel);
      && |bars| >= 2
      && bars[0] == Bar(startLabel, r.values.Get(from).GetOr(0.0), true)
      && bars[|bars| - 1] == Bar(endLabel, r.values.end.GetOr(0.0), true)
      && MiddleOk(bars[1..|bars| - 1], Changes(Leaves(r), from), TotalDiff(r, from))
  {
    var first := Bar(startLabel, r.values.Get(from).GetOr(0.0), true);
    var last := Bar(endLabel, r.values.end.GetOr(0.0), true);
    var m := Changes(Leaves(r), from) + RemainderBar(r, from);
    assert Bars(r, from, startLabel, endLabel) == [first] + m + [last];
    Framed(first, m, last);
    MiddleShape(r, from);
  }

  lemma Framed(first: Bar, m: seq<Bar>, last: Bar)
    ensures var bars := [first] + m + [last];
      && |bars| == |m| + 2 && bars[0] == first && bars[|bars| - 1] == last
      && bars[1..|bars| - 1] == m
  {
    var bars := [first] + m + [last];
    assert bars[1..|bars| - 1] == m;
  }

  /** A selected row with children gets its own bars. */
  lemma BuildSelected(tree: seq<Row>, id: NodeId, from: Axis, startLabel: string, endLabel: string)
    requires FindRowById(tree, id).Some? && FindRowById(tree, id).value.hasChildren
    ensures Build(tree, Some(id), from, startLabel, endLabel)
         == Bars(FindRowById(tree, id).value, from, startLabel, endLabel)
  {
    assert |tree| > 0;
  }
}
