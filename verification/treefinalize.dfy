/** The passes of `buildTreeByPath` after insertion: bottom-up aggregation
    of the five axes, stt backfill on parents, the percentage base, and the
    derived comparison fields. */
module TreeFinalize {
  import opened Wrappers
  import opened Seqs
  import opened Labels
  import opened Types
  import opened Items
  import opened PathIndex
  import opened TreeBuild

  // ---------------------------------------------------------------------
  // Aggregation.

  /** The sum of the children's amounts on an axis, skipping those without
      data. */
  function KidsSum(kids: seq<Row>, a: Axis): real {
    if |kids| == 0 then 0.0
    else (if kids[0].values.Get(a).Some? then kids[0].values.Get(a).value else 0.0) + KidsSum(kids[1..], a)
  }

  /** Whether some child has data on an axis. */
  predicate KidsAny(kids: seq<Row>, a: Axis) {
    exists i :: 0 <= i < |kids| && kids[i].values.Get(a).Some?
  }

  /** One axis of a parent after aggregation: its own amount (0 if none)
      plus its children's, or its own amount (no data) when neither it nor
      any child has data. */
  function CombineAxis(own: Option<real>, kids: seq<Row>, a: Axis): Option<real> {
    if own.Some? || KidsAny(kids, a) then Some(own.GetOr(0.0) + KidsSum(kids, a)) else own
  }

  function Combine(own: Amounts, kids: seq<Row>): (r: Amounts)
    ensures forall a: Axis :: r.Get(a) == CombineAxis(own.Get(a), kids, a)
  {
    Amounts(CombineAxis(own.start, kids, Start), CombineAxis(own.end, kids, End),
            CombineAxis(own.prevQuarter, kids, PrevQuarter),
            CombineAxis(own.samePeriodLastYear, kids, SamePeriodLastYear),
            CombineAxis(own.beginningOfYear, kids, BeginningOfYear))
  }

  /** `aggregate`: a row without children keeps its amounts; a parent
      aggregates its children first and then combines. */
  function Aggregate(r: Row): (r': Row)
    ensures r'.id == r.id && r'.name == r.name && r'.level == r.level && r'.stt == r.stt
    ensures r'.isTotal == r.isTotal && r'.hasChildren == r.hasChildren && r'.derived == r.derived
    ensures |r'.children| == |r.children|
    ensures !r.hasChildren ==> r' == r
    decreases r
  {
    if !r.hasChildren then r
    else
      var kids := seq(|r.children|, i requires 0 <= i < |r.children| => Aggregate(r.children[i]));
      r.(children := kids, values := Combine(r.values, kids))
  }

  function AggregateAll(rs: seq<Row>): (r: seq<Row>)
    ensures |r| == |rs| && forall i :: 0 <= i < |rs| ==> r[i] == Aggregate(rs[i])
  {
    seq(|rs|, i requires 0 <= i < |rs| => Aggregate(rs[i]))
  }

  /** The own amounts of a list of nodes on an axis, 0 for no data. */
  function Owns(nodes: seq<Row>, a: Axis): (s: seq<real>)
    ensures |s| == |nodes|
  {
    seq(|nodes|, i requires 0 <= i < |nodes| => nodes[i].values.Get(a).GetOr(0.0))
  }

  predicate HasData(nodes: seq<Row>, a: Axis) {
    exists i :: 0 <= i < |nodes| && nodes[i].values.Get(a).Some?
  }

  /** What aggregation should give a subtree: the sum of every node's own
      amount, or no data when no node in it has any. */
  function SubtreeTotal(r: Row, a: Axis): Option<real> {
    if HasData(PreOrder(r), a) then Some(Sum(Owns(PreOrder(r), a))) else None
  }

  lemma OwnsConcat(x: seq<Row>, y: seq<Row>, a: Axis)
    ensures Owns(x + y, a) == Owns(x, a) + Owns(y, a)
    ensures HasData(x + y, a) <==> HasData(x, a) || HasData(y, a)
  {
    assert Owns(x + y, a) == Owns(x, a) + Owns(y, a) by {
      forall i | 0 <= i < |x + y| ensures Owns(x + y, a)[i] == (Owns(x, a) + Owns(y, a))[i] {
        if i < |x| {
          assert (x + y)[i] == x[i];
        } else {
          assert (x + y)[i] == y[i - |x|];
        }
      }
    }
    HasDataConcat(x, y, a);
  }

  lemma HasDataConcat(x: seq<Row>, y: seq<Row>, a: Axis)
    ensures HasData(x + y, a) <==> HasData(x, a) || HasData(y, a)
  {
    if HasData(y, a) {
      var i :| 0 <= i < |y| && y[i].values.Get(a).Some?;
      assert (x + y)[|x| + i] == y[i];
    }
    if HasData(x, a) {
      var i :| 0 <= i < |x| && x[i].values.Get(a).Some?;
      assert (x + y)[i] == x[i];
    }
    if HasData(x + y, a) {
      var i :| 0 <= i < |x + y| && (x + y)[i].values.Get(a).Some?;
      if i < |x| {
        assert (x + y)[i] == x[i];
      } else {
        assert (x + y)[i] == y[i - |x|];
      }
    }
  }

  /** The children's contribution, taken from their subtree references. */
  lemma {:induction false} KidsMatchReference(kids: seq<Row>, agg: seq<Row>, a: Axis)
    requires |agg| == |kids|
    requires forall i :: 0 <= i < |kids| ==> agg[i].values.Get(a) == SubtreeTotal(kids[i], a)
    ensures KidsAny(agg, a) <==> HasData(PreOrders(kids), a)
    ensures KidsSum(agg, a) == Sum(Owns(PreOrders(kids), a))
  {
    if |kids| > 0 {
      KidsMatchReference(kids[1..], agg[1..], a);
      var h := PreOrder(kids[0]);
      OwnsConcat(h, PreOrders(kids[1..]), a);
      SumConcat(Owns(h, a), Owns(PreOrders(kids[1..]), a));
      assert KidsAny(agg, a) <==> agg[0].values.Get(a).Some? || KidsAny(agg[1..], a) by {
        if KidsAny(agg, a) {
          var i :| 0 <= i < |agg| && agg[i].values.Get(a).Some?;
          if i > 0 {
            assert agg[1..][i - 1] == agg[i];
          }
        }
        if KidsAny(agg[1..], a) {
          var i :| 0 <= i < |agg| - 1 && agg[1..][i].values.Get(a).Some?;
          assert agg[i + 1] == agg[1..][i];
        }
      }
      if !HasData(h, a) {
        assert Sum(Owns(h, a)) == 0.0 by {
          NoDataSumsToZero(h, a);
        }
      }
    } else {
      assert Owns([], a) == [];
    }
  }

  lemma {:induction false} NoDataSumsToZero(nodes: seq<Row>, a: Axis)
    requires !HasData(nodes, a)
    ensures Sum(Owns(nodes, a)) == 0.0
  {
    if |nodes| > 0 {
      var pre := nodes[..|nodes| - 1];
      assert Owns(nodes, a) == Owns(pre, a) + [0.0];
      assert Owns(nodes, a)[..|nodes| - 1] == Owns(pre, a);
      NoDataSumsToZero(pre, a);
    }
  }

  /** Aggregation totals every subtree: with exact `hasChildren` flags each
      aggregated amount is the sum of the own amounts in the subtree, and
      stays no data exactly when no node in the subtree has data. */
  lemma {:induction false} AggregateTotals(r: Row, a: Axis)
    requires FlagsExact(r)
    ensures Aggregate(r).values.Get(a) == SubtreeTotal(r, a)
    decreases r
  {
    if !r.hasChildren {
      AggregateLeaf(r, a);
    } else {
      var kids := Aggregate(r).children;
      forall i | 0 <= i < |r.children| ensures kids[i].values.Get(a) == SubtreeTotal(r.children[i], a) {
        AggregateTotals(r.children[i], a);
      }
      AggregateParent(r, a);
    }
  }

  lemma AggregateLeaf(r: Row, a: Axis)
    requires FlagsExact(r) && !r.hasChildren
    ensures Aggregate(r).values.Get(a) == SubtreeTotal(r, a)
  {
    var pre := PreOrder(r);
    assert r.children == [];
    assert PreOrders(r.children) == [];
    assert pre == [r];
    SingleNode(r, a);
  }

  lemma SingleNode(r: Row, a: Axis)
    ensures HasData([r], a) <==> r.values.Get(a).Some?
    ensures Sum(Owns([r], a)) == r.values.Get(a).GetOr(0.0)
  {
    assert Owns([r], a) == [r.values.Get(a).GetOr(0.0)];
    SumSingleton(r.values.Get(a).GetOr(0.0));
    if HasData([r], a) {
      var i :| 0 <= i < 1 && [r][i].values.Get(a).Some?;
    }
  }

  lemma AggregateParent(r: Row, a: Axis)
    requires r.hasChildren
    requires forall i :: 0 <= i < |r.children| ==>
               Aggregate(r).children[i].values.Get(a) == SubtreeTotal(r.children[i], a)
    ensures Aggregate(r).values.Get(a) == SubtreeTotal(r, a)
  {
    var kids := Aggregate(r).children;
    KidsMatchReference(r.children, kids, a);
    assert Aggregate(r).values == Combine(r.values, kids);
    CombineIsTotal(r, kids, a);
  }

  lemma CombineIsTotal(r: Row, kids: seq<Row>, a: Axis)
    requires KidsAny(kids, a) <==> HasData(PreOrders(r.children), a)
    requires KidsSum(kids, a) == Sum(Owns(PreOrders(r.children), a))
    ensures CombineAxis(r.values.Get(a), kids, a) == SubtreeTotal(r, a)
  {
    OwnsConcat([r], PreOrders(r.children), a);
    SumConcat(Owns([r], a), Owns(PreOrders(r.children), a));
    SingleNode(r, a);
    assert PreOrder(r) == [r] + PreOrders(r.children);
  }

  // ---------------------------------------------------------------------
  // Stt backfill.

  /** `assignSttToParents`: children first; then a parent without an stt
      takes its first child's, when that child has one. */
  function Backfill(r: Row): (r': Row)
    ensures r'.id == r.id && r'.name == r.name && r'.level == r.level && r'.values == r.values
    ensures r'.isTotal == r.isTotal && r'.hasChildren == r.hasChildren && r'.derived == r.derived
    ensures |r'.children| == |r.children|
    ensures r.stt.Some? ==> r'.stt == r.stt
    decreases r
  {
    if !r.hasChildren then r
    else
      var kids := seq(|r.children|, i requires 0 <= i < |r.children| => Backfill(r.children[i]));
      var stt := if r.stt.None? && |kids| > 0 && kids[0].stt.Some? then kids[0].stt else r.stt;
      r.(children := kids, stt := stt)
  }

  function BackfillAll(rs: seq<Row>): (r: seq<Row>)
    ensures |r| == |rs| && forall i :: 0 <= i < |rs| ==> r[i] == Backfill(rs[i])
  {
    seq(|rs|, i requires 0 <= i < |rs| => Backfill(rs[i]))
  }

  /** Reference: the first stt met walking down the first-child spine. */
  function SpineStt(r: Row): Option<int>
    decreases r
  {
    if r.stt.Some? then r.stt
    else if r.hasChildren && |r.children| > 0 then SpineStt(r.children[0])
    else None
  }

  /** After backfill a node's stt is the first one on its first-child spine. */
  lemma {:induction false} BackfillIsSpineStt(r: Row)
    ensures Backfill(r).stt == SpineStt(r)
    decreases r
  {
    if r.hasChildren && |r.children| > 0 {
      BackfillIsSpineStt(r.children[0]);
    }
  }

  /** Backfilling twice gives the same tree. */
  lemma {:induction false} BackfillIdempotent(r: Row)
    ensures Backfill(Backfill(r)) == Backfill(r)
    decreases r
  {
    if r.hasChildren {
      var b := Backfill(r);
      forall i | 0 <= i < |r.children| ensures Backfill(b.children[i]) == b.children[i] {
        BackfillIdempotent(r.children[i]);
      }
      assert Backfill(b).children == b.children;
    }
  }

  // ---------------------------------------------------------------------
  // Pre-order lookups.

  /** What a lookup looks for: a row with a given stt, or with a given id. */
  datatype Key = SttKey(stt: int) | IdKey(id: NodeId)

  predicate Matches(r: Row, k: Key) {
    match k
    case SttKey(s) => r.stt == Some(s)
    case IdKey(id) => r.id == id
  }

  /** A depth-first pre-order search. The dashboard's `findRowByStt` and
      `findRowById` descend only into rows flagged as having children
      (`guarded`); the base selection's `findNodeBySTT` descends into every
      child list. */
  function Find(rows: seq<Row>, k: Key, guarded: bool): Option<Row>
    decreases rows
  {
    if |rows| == 0 then None
    else if Matches(rows[0], k) then Some(rows[0])
    else
      match (if !guarded || rows[0].hasChildren then Find(rows[0].children, k, guarded) else None)
      case Some(n) => Some(n)
      case None => Find(rows[1..], k, guarded)
  }

  function FindByStt(rows: seq<Row>, stt: int): Option<Row> {
    Find(rows, SttKey(stt), false)
  }

  function FindRowByStt(rows: seq<Row>, stt: int): Option<Row> {
    Find(rows, SttKey(stt), true)
  }

  function FindRowById(rows: seq<Row>, id: NodeId): Option<Row> {
    Find(rows, IdKey(id), true)
  }

  /** Reference: the first node of a flat list that matches. */
  function FirstMatch(nodes: seq<Row>, k: Key): Option<Row> {
    if |nodes| == 0 then None
    else if Matches(nodes[0], k) then Some(nodes[0])
    else FirstMatch(nodes[1..], k)
  }

  lemma {:induction false} FirstMatchConcat(x: seq<Row>, y: seq<Row>, k: Key)
    ensures FirstMatch(x + y, k) == if FirstMatch(x, k).Some? then FirstMatch(x, k) else FirstMatch(y, k)
  {
    if |x| > 0 {
      assert (x + y)[1..] == x[1..] + y;
      FirstMatchConcat(x[1..], y, k);
    } else {
      assert x + y == y;
    }
  }

  /** The first match is a matching node of the list, and no earlier node
      matches. */
  lemma {:induction false} FirstMatchIsFirst(nodes: seq<Row>, k: Key)
    ensures FirstMatch(nodes, k).None? <==> forall i :: 0 <= i < |nodes| ==> !Matches(nodes[i], k)
    ensures FirstMatch(nodes, k).Some? ==>
              (exists i :: 0 <= i < |nodes| && nodes[i] == FirstMatch(nodes, k).value
                           && Matches(nodes[i], k) && forall j :: 0 <= j < i ==> !Matches(nodes[j], k))
  {
    if |nodes| > 0 {
      FirstMatchIsFirst(nodes[1..], k);
      if !Matches(nodes[0], k) {
        if FirstMatch(nodes[1..], k).Some? {
          var i :| 0 <= i < |nodes| - 1 && nodes[1..][i] == FirstMatch(nodes[1..], k).value
                   && Matches(nodes[1..][i], k) && forall j :: 0 <= j < i ==> !Matches(nodes[1..][j], k);
          assert nodes[i + 1] == nodes[1..][i];
          assert forall j :: 0 <= j < i + 1 ==> !Matches(nodes[j], k) by {
            forall j | 0 <= j < i + 1 ensures !Matches(nodes[j], k) {
              if j > 0 {
                assert nodes[j] == nodes[1..][j - 1];
              }
            }
          }
        } else {
          forall i | 0 <= i < |nodes| ensures !Matches(nodes[i], k) {
            if i > 0 {
              assert nodes[i] == nodes[1..][i - 1];
            }
          }
        }
      }
    }
  }

  /** The unguarded search finds the first matching node in pre-order. */
  lemma {:induction false} FindIsPreOrderFirst(rows: seq<Row>, k: Key)
    ensures Find(rows, k, false) == FirstMatch(PreOrders(rows), k)
    decreases rows
  {
    if |rows| > 0 {
      var r := rows[0];
      FindIsPreOrderFirst(r.children, k);
      FindIsPreOrderFirst(rows[1..], k);
      FirstMatchConcat(PreOrder(r), PreOrders(rows[1..]), k);
      FirstMatchConcat([r], PreOrders(r.children), k);
      assert PreOrder(r) == [r] + PreOrders(r.children);
      assert ([r] + PreOrders(r.children))[1..] == PreOrders(r.children);
    }
  }

  /** With exact flags, the guarded search agrees with the unguarded one. */
  lemma {:induction false} GuardedFindAgrees(rows: seq<Row>, k: Key)
    requires AllFlagsExact(rows)
    ensures Find(rows, k, true) == Find(rows, k, false)
    decreases rows
  {
    if |rows| > 0 {
      assert FlagsExact(rows[0]);
      GuardedFindAgrees(rows[0].children, k);
      assert AllFlagsExact(rows[1..]) by {
        forall i | 0 <= i < |rows| - 1 ensures FlagsExact(rows[1..][i]) {
          assert rows[1..][i] == rows[i + 1];
        }
      }
      GuardedFindAgrees(rows[1..], k);
    }
  }

  // ---------------------------------------------------------------------
  // The passes keep `hasChildren` exact.

  lemma {:induction false} SiblingsOkFlags(rows: seq<Row>, parentKeys: seq<string>, idx: map<string, Entry>)
    requires SiblingsOk(rows, parentKeys, idx)
    ensures AllFlagsExact(rows)
    decreases rows, 1
  {
    forall i | 0 <= i < |rows| ensures FlagsExact(rows[i]) {
      NodeOkFlags(rows[i], parentKeys, idx);
    }
  }

  lemma {:induction false} NodeOkFlags(r: Row, parentKeys: seq<string>, idx: map<string, Entry>)
    requires NodeOk(r, parentKeys, idx)
    ensures FlagsExact(r)
    decreases r, 0
  {
    SiblingsOkFlags(r.children, parentKeys + [r.id.key], idx);
  }

  lemma {:induction false} AggregateKeepsFlags(r: Row)
    requires FlagsExact(r)
    ensures FlagsExact(Aggregate(r))
    decreases r
  {
    forall i | 0 <= i < |r.children| ensures FlagsExact(Aggregate(r).children[i]) {
      AggregateKeepsFlags(r.children[i]);
    }
  }

  lemma {:induction false} BackfillKeepsFlags(r: Row)
    requires FlagsExact(r)
    ensures FlagsExact(Backfill(r))
    decreases r
  {
    forall i | 0 <= i < |r.children| ensures FlagsExact(Backfill(r).children[i]) {
      BackfillKeepsFlags(r.children[i]);
    }
  }

  lemma {:induction false} FinalizeKeepsFlags(r: Row, base: real)
    requires FlagsExact(r)
    ensures FlagsExact(Finalize(r, base))
    decreases r
  {
    forall i | 0 <= i < |r.children| ensures FlagsExact(Finalize(r, base).children[i]) {
      FinalizeKeepsFlags(r.children[i], base);
    }
  }

  // ---------------------------------------------------------------------
  // Percentage base and derived fields.

  datatype ReportCode = BS | PL | CF

  /** `roots.find(n => /tài\s*sản/i.test(n.name))`, as the index found. */
  function FirstAssetsRoot(roots: seq<Row>): (r: Option<nat>)
    ensures r.Some? ==> r.value < |roots| && IsAssetsLabel(roots[r.value].name)
    ensures r.Some? ==> forall j :: 0 <= j < r.value ==> !IsAssetsLabel(roots[j].name)
    ensures r.None? ==> forall i :: 0 <= i < |roots| ==> !IsAssetsLabel(roots[i].name)
  {
    if |roots| == 0 then None
    else if IsAssetsLabel(roots[0].name) then Some(0)
    else
      match FirstAssetsRoot(roots[1..])
      case None => None
      case Some(i) => Some(i + 1)
  }

  /** The node the percentages are taken against: for the balance sheet the
      first root naming assets, else the first root; for the other reports
      the first node in pre-order with stt 3 (net revenue). */
  function BaseNode(roots: seq<Row>, code: ReportCode): Option<Row> {
    if code == BS then
      (if FirstAssetsRoot(roots).Some? then Some(roots[FirstAssetsRoot(roots).value])
       else if |roots| > 0 then Some(roots[0]) else None)
    else FindByStt(roots, 3)
  }

  /** `totalBase`: the base node's end amount, 0 without one. */
  function PercentBase(roots: seq<Row>, code: ReportCode): (b: real)
    ensures BaseNode(roots, code).None? ==> b == 0.0
    ensures BaseNode(roots, code).Some? ==> b == BaseNode(roots, code).value.values.end.GetOr(0.0)
  {
    match BaseNode(roots, code)
    case None => 0.0
    case Some(n) => n.values.end.GetOr(0.0)
  }

  function Abs(x: real): real {
    if x < 0.0 then -x else x
  }

  /** The change against one comparison amount and its percentage. */
  function DiffOf(end: Option<real>, from: Option<real>): (d: Option<real>)
    ensures d.Some? <==> end.Some? && from.Some?
    ensures d.Some? ==> from.value + d.value == end.value
  {
    if end.Some? && from.Some? then Some(end.value - from.value) else None
  }

  /** `x / y * 100`, which multiplied back by `y` is `100 x`. */
  function Percent(x: real, y: real): (p: real)
    requires y != 0.0
    ensures p * y == x * 100.0
  {
    var q := x / y;
    assert q * y == x;
    q * 100.0
  }

  function DiffPctOf(diff: Option<real>, from: Option<real>): (p: Option<real>)
    ensures p.Some? <==> diff.Some? && from.Some? && from.value != 0.0
    ensures p.Some? ==> p.value * Abs(from.value) == diff.value * 100.0
  {
    if from.Some? && from.value != 0.0 && diff.Some? then Some(Percent(diff.value, Abs(from.value))) else None
  }

  /** The share of the base, when there is a non-zero base and an amount. */
  function PctOf(end: Option<real>, base: real): (p: Option<real>)
    ensures p.Some? <==> base != 0.0 && end.Some?
    ensures p.Some? ==> p.value * base == end.value * 100.0
  {
    if base != 0.0 && end.Some? then Some(Percent(end.value, base)) else None
  }

  /** The quarter's own movement: end less the previous quarter's end
      (taken as 0 when missing). */
  function CurrentQuarter(end: Option<real>, prev: Option<real>): (c: Option<real>)
    ensures c.Some? <==> end.Some?
    ensures c.Some? ==> c.value + prev.GetOr(0.0) == end.value
  {
    if end.None? then None
    else if prev.Some? then Some(end.value - prev.value)
    else Some(end.value)
  }

  /** A change and its percentage against one comparison amount: the
      change is there when both amounts are and adds back to the end
      amount; the percentage is there when the comparison amount is also
      non-zero and is the change relative to its magnitude. */
  predicate ChangeFrom(end: Option<real>, from: Option<real>, d: Option<real>, p: Option<real>) {
    && (d.Some? <==> end.Some? && from.Some?)
    && (d.Some? ==> from.value + d.value == end.value)
    && (p.Some? <==> d.Some? && from.value != 0.0)
    && (p.Some? ==> p.value * Abs(from.value) == d.value * 100.0)
  }

  /** One comparison's change and percentage. */
  function ChangeOf(end: Option<real>, from: Option<real>): (c: (Option<real>, Option<real>))
    ensures ChangeFrom(end, from, c.0, c.1)
  {
    var d := DiffOf(end, from);
    (d, DiffPctOf(d, from))
  }

  /** `finalize`'s fields for one node, given the percentage base. */
  function DerivedOf(v: Amounts, base: real): (d: Derived)
    ensures ChangeFrom(v.end, v.start, d.diff, d.diffPct)
    ensures ChangeFrom(v.end, v.samePeriodLastYear, d.diffVsSamePeriod, d.diffPctVsSamePeriod)
    ensures ChangeFrom(v.end, v.beginningOfYear, d.diffVsBeginningOfYear, d.diffPctVsBeginningOfYear)
    ensures d.pct.Some? <==> base != 0.0 && v.end.Some?
    ensures d.pct.Some? ==> d.pct.value * base == v.end.value * 100.0
    ensures d.currentQuarterValue.Some? <==> v.end.Some?
    ensures d.currentQuarterValue.Some? ==> d.currentQuarterValue.value + v.prevQuarter.GetOr(0.0) == v.end.value
  {
    var q := ChangeOf(v.end, v.start);
    var sp := ChangeOf(v.end, v.samePeriodLastYear);
    var boy := ChangeOf(v.end, v.beginningOfYear);
    Derived(CurrentQuarter(v.end, v.prevQuarter), q.0, q.1, sp.0, sp.1, boy.0, boy.1, PctOf(v.end, base))
  }

  /** `finalize`: derive every node's fields against one base. */
  function Finalize(r: Row, base: real): (r': Row)
    ensures r' == r.(derived := r'.derived, children := r'.children)
    ensures r'.derived == DerivedOf(r.values, base)
    ensures |r'.children| == |r.children|
    ensures forall i :: 0 <= i < |r.children| ==> r'.children[i] == Finalize(r.children[i], base)
    decreases r
  {
    var kids := seq(|r.children|, i requires 0 <= i < |r.children| => Finalize(r.children[i], base));
    r.(derived := DerivedOf(r.values, base), children := kids)
  }

  /** `buildTreeByPath`: build, aggregate, backfill, then finalize against
      the base chosen from the backfilled roots. */
  function BuildTreeByPath(items: seq<Item>, code: ReportCode): seq<Row> {
    var roots := BackfillAll(AggregateAll(Build(items)));
    var base := PercentBase(roots, code);
    seq(|roots|, i requires 0 <= i < |roots| => Finalize(roots[i], base))
  }

  /** Whatever the report, the base node's own percentage is 100 whenever
      the base is non-zero. */
  lemma BaseIsHundredPercent(roots: seq<Row>, code: ReportCode)
    requires PercentBase(roots, code) != 0.0
    ensures BaseNode(roots, code).Some?
    ensures DerivedOf(BaseNode(roots, code).value.values, PercentBase(roots, code)).pct == Some(100.0)
  {
    var n := BaseNode(roots, code).value;
    var b := PercentBase(roots, code);
    assert n.values.end == Some(b);
    var p := DerivedOf(n.values, b).pct.value;
    assert p * b == b * 100.0;
  }

  /** Every pass keeps the flags exact, so on the finished forest the
      dashboard's guarded lookups find the first match in pre-order. */
  lemma BuildTreeFlagsExact(items: seq<Item>, code: ReportCode)
    ensures AllFlagsExact(BuildTreeByPath(items, code))
  {
    BuildOk(items);
    var built := Build(items);
    SiblingsOkFlags(built, [], Index(items));
    var roots := BackfillAll(AggregateAll(built));
    forall i | 0 <= i < |built| ensures FlagsExact(roots[i]) {
      AggregateKeepsFlags(built[i]);
      BackfillKeepsFlags(AggregateAll(built)[i]);
    }
    var base := PercentBase(roots, code);
    forall i | 0 <= i < |roots| ensures FlagsExact(BuildTreeByPath(items, code)[i]) {
      FinalizeKeepsFlags(roots[i], base);
    }
  }

  lemma FindRowBySttOnTree(items: seq<Item>, code: ReportCode, stt: int)
    ensures FindRowByStt(BuildTreeByPath(items, code), stt)
            == FirstMatch(PreOrders(BuildTreeByPath(items, code)), SttKey(stt))
  {
    BuildTreeFlagsExact(items, code);
    GuardedFindAgrees(BuildTreeByPath(items, code), SttKey(stt));
    FindIsPreOrderFirst(BuildTreeByPath(items, code), SttKey(stt));
  }

  /** On the built forest aggregation totals each root's subtree. */
  lemma AggregatedRootTotals(items: seq<Item>, i: nat, a: Axis)
    requires i < |Build(items)|
    ensures AggregateAll(Build(items))[i].values.Get(a) == SubtreeTotal(Build(items)[i], a)
  {
    BuildOk(items);
    SiblingsOkFlags(Build(items), [], Index(items));
    AggregateTotals(Build(items)[i], a);
  }
}
