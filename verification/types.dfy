/** The record shapes shared by the report pipeline: account rows as stored,
    the five value axes, and the tree rows the tables render. */
module Types {
  import opened Wrappers

  /** An account row (`d_account`): its fact id and its four label levels,
      any of which may be missing. */
  datatype DAccount = DAccount(stt: Option<int>, lv1: Option<string>, lv2: Option<string>,
                               lv3: Option<string>, lv4: Option<string>)

  /** JavaScript truthiness of a nullable label: present and non-empty. */
  predicate Truthy(s: Option<string>) {
    s.Some? && s.value != ""
  }

  /** `name || ''`. */
  function OrEmpty(s: Option<string>): string {
    if s.Some? then s.value else ""
  }

  /** The value axes of a row. `Start` is the comparison period (previous
      quarter for the balance sheet, same period last year for the income
      and cash-flow statements). */
  datatype Axis = Start | End | PrevQuarter | SamePeriodLastYear | BeginningOfYear

  /** One nullable amount per axis; `None` is "no data", distinct from 0. */
  datatype Amounts = Amounts(start: Option<real>, end: Option<real>, prevQuarter: Option<real>,
                             samePeriodLastYear: Option<real>, beginningOfYear: Option<real>)
  {
    function Get(a: Axis): Option<real> {
      match a
      case Start => start
      case End => end
      case PrevQuarter => prevQuarter
      case SamePeriodLastYear => samePeriodLastYear
      case BeginningOfYear => beginningOfYear
    }
  }

  const NoAmounts: Amounts := Amounts(None, None, None, None, None)

  /** `if (v != null) acc = (acc || 0) + v`. */
  function AddOpt(acc: Option<real>, v: Option<real>): (r: Option<real>)
    ensures r.Some? <==> acc.Some? || v.Some?
    ensures r.GetOr(0.0) == acc.GetOr(0.0) + v.GetOr(0.0)
  {
    if v.Some? then Some(acc.GetOr(0.0) + v.value) else acc
  }

  /** Adds an item's amounts to a node's direct amounts, axis by axis. */
  function Deposit(acc: Amounts, v: Amounts): (r: Amounts)
    ensures forall a: Axis :: r.Get(a) == AddOpt(acc.Get(a), v.Get(a))
  {
    Amounts(AddOpt(acc.start, v.start), AddOpt(acc.end, v.end), AddOpt(acc.prevQuarter, v.prevQuarter),
            AddOpt(acc.samePeriodLastYear, v.samePeriodLastYear), AddOpt(acc.beginningOfYear, v.beginningOfYear))
  }

  /** A node id `lv{level}-{key}-{ordinal}`: the node's depth, its
      normalised label, and how many siblings existed when it was created. */
  datatype NodeId = NodeId(level: int, key: string, ordinal: nat)

  /** The fields `finalize` derives. */
  datatype Derived = Derived(currentQuarterValue: Option<real>, diff: Option<real>, diffPct: Option<real>,
                             diffVsSamePeriod: Option<real>, diffPctVsSamePeriod: Option<real>,
                             diffVsBeginningOfYear: Option<real>, diffPctVsBeginningOfYear: Option<real>,
                             pct: Option<real>)

  const NoDerived: Derived := Derived(None, None, None, None, None, None, None, None)

  /** `TreeRow`. */
  datatype Row = Row(id: NodeId, name: string, level: int, stt: Option<int>, isTotal: bool,
                     values: Amounts, derived: Derived, hasChildren: bool, children: seq<Row>)

  /** Every node of a tree, parent before children, children in order. */
  function PreOrder(r: Row): (s: seq<Row>)
    ensures |s| > 0 && s[0] == r
    decreases r, 1
  {
    [r] + PreOrders(r.children)
  }

  function PreOrders(rs: seq<Row>): seq<Row>
    decreases rs, 0
  {
    if |rs| == 0 then [] else PreOrder(rs[0]) + PreOrders(rs[1..])
  }

  /** `hasChildren` is set exactly on rows that have children, at every depth. */
  predicate FlagsExact(r: Row)
    decreases r
  {
    r.hasChildren == (|r.children| > 0) && forall i :: 0 <= i < |r.children| ==> FlagsExact(r.children[i])
  }

  predicate AllFlagsExact(rs: seq<Row>) {
    forall i :: 0 <= i < |rs| ==> FlagsExact(rs[i])
  }
}
