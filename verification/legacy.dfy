/** The older balance-sheet transform of the helpers: facts routed to a
    start or end amount by date, and one flat item per account. */
module Legacy {
  import opened Wrappers
  import opened Types

  datatype Account = Account(id: int, code: string, stt: int, lv1: Option<string>, lv2: Option<string>,
                             lv3: Option<string>, lv4: Option<string>, parentCode: Option<string>,
                             level: int, isTotal: bool)

  datatype FinancialFact = FinancialFact(stt: int, date: string, value: real)

  datatype Entry = Entry(start: Option<real>, end: Option<real>)

  datatype BalanceSheetItem = BalanceSheetItem(id: string, stt: int, name: string, parentCode: Option<string>,
                                               level: int, endPeriod: Option<real>, startPeriod: Option<real>,
                                               isTotal: bool)

  /** The routing loop: a fact of the start date sets `start`, otherwise
      one of the end date sets `end`; any other date only creates the
      entry. */
  function FactsMap(facts: seq<FinancialFact>, startDate: string, endDate: string): map<int, Entry> {
    if |facts| == 0 then map[]
    else
      var m := FactsMap(facts[..|facts| - 1], startDate, endDate);
      var f := facts[|facts| - 1];
      var e := if f.stt in m then m[f.stt] else Entry(None, None);
      m[f.stt := if f.date == startDate then e.(start := Some(f.value))
                 else if f.date == endDate then e.(end := Some(f.value))
                 else e]
  }

  /** Reference: the value of the last fact for an account on a date. */
  function LastValue(facts: seq<FinancialFact>, id: int, date: string): Option<real> {
    if |facts| == 0 then None
    else if facts[|facts| - 1].stt == id && facts[|facts| - 1].date == date then Some(facts[|facts| - 1].value)
    else LastValue(facts[..|facts| - 1], id, date)
  }

  /** An account has an entry exactly when some fact names it; its start is
      the last start-date fact's value and its end the last end-date
      fact's, unless the two dates coincide, when the start wins. */
  lemma {:induction false} FactsMapRouting(facts: seq<FinancialFact>, startDate: string, endDate: string, id: int)
    ensures id in FactsMap(facts, startDate, endDate) <==> exists i :: 0 <= i < |facts| && facts[i].stt == id
    ensures id in FactsMap(facts, startDate, endDate) ==>
              FactsMap(facts, startDate, endDate)[id]
              == Entry(LastValue(facts, id, startDate), if endDate == startDate then None else LastValue(facts, id, endDate))
  {
    if |facts| > 0 {
      var pre := facts[..|facts| - 1];
      FactsMapRouting(pre, startDate, endDate, id);
      assert forall i :: 0 <= i < |pre| ==> pre[i] == facts[i];
      if id !in FactsMap(pre, startDate, endDate) {
        NoFactNoValue(pre, id, startDate);
        NoFactNoValue(pre, id, endDate);
      }
    }
  }

  lemma {:induction false} NoFactNoValue(facts: seq<FinancialFact>, id: int, date: string)
    requires forall i :: 0 <= i < |facts| ==> facts[i].stt != id
    ensures LastValue(facts, id, date) == None
  {
    if |facts| > 0 {
      NoFactNoValue(facts[..|facts| - 1], id, date);
    }
  }

  /** `chi_tieu_lv4 || chi_tieu_lv3 || chi_tieu_lv2 || chi_tieu_lv1 || ''`. */
  function NameOf(a: Account): (n: string)
    ensures n == "" <==> !Truthy(a.lv4) && !Truthy(a.lv3) && !Truthy(a.lv2) && !Truthy(a.lv1)
    ensures Truthy(a.lv4) ==> n == a.lv4.value
    ensures !Truthy(a.lv4) && Truthy(a.lv3) ==> n == a.lv3.value
    ensures !Truthy(a.lv4) && !Truthy(a.lv3) && Truthy(a.lv2) ==> n == a.lv2.value
    ensures !Truthy(a.lv4) && !Truthy(a.lv3) && !Truthy(a.lv2) && Truthy(a.lv1) ==> n == a.lv1.value
  {
    if Truthy(a.lv4) then a.lv4.value
    else if Truthy(a.lv3) then a.lv3.value
    else if Truthy(a.lv2) then a.lv2.value
    else if Truthy(a.lv1) then a.lv1.value
    else ""
  }

  function ItemOf(a: Account, m: map<int, Entry>): BalanceSheetItem {
    var e := if a.id in m then m[a.id] else Entry(None, None);
    var leaf := a.level == 4;
    BalanceSheetItem(a.code, a.stt, NameOf(a), a.parentCode, a.level,
                     if leaf then e.end else None, if leaf then e.start else None, a.isTotal)
  }

  /** `transformSupabaseData`. */
  function Transform(accounts: seq<Account>, facts: seq<FinancialFact>, startDate: string, endDate: string): seq<BalanceSheetItem> {
    var m := FactsMap(facts, startDate, endDate);
    seq(|accounts|, i requires 0 <= i < |accounts| => ItemOf(accounts[i], m))
  }

  /** One item per account, in order, keyed by the account code; only a
      level-4 account carries amounts, looked up by the account's numeric
      id: the last start-date fact and the last end-date fact. */
  lemma TransformSpec(accounts: seq<Account>, facts: seq<FinancialFact>, startDate: string, endDate: string, i: nat)
    requires i < |accounts|
    ensures |Transform(accounts, facts, startDate, endDate)| == |accounts|
    ensures var it := Transform(accounts, facts, startDate, endDate)[i];
      var a := accounts[i];
      && it.id == a.code && it.stt == a.stt && it.level == a.level && it.isTotal == a.isTotal
      && it.name == NameOf(a) && it.parentCode == a.parentCode
      && (a.level != 4 ==> it.startPeriod.None? && it.endPeriod.None?)
      && (a.level == 4 ==> it.startPeriod == LastValue(facts, a.id, startDate))
      && (a.level == 4 ==> it.endPeriod == if endDate == startDate then None else LastValue(facts, a.id, endDate))
  {
    var a := accounts[i];
    FactsMapRouting(facts, startDate, endDate, a.id);
    if a.id !in FactsMap(facts, startDate, endDate) {
      NoFactNoValue(facts, a.id, startDate);
      NoFactNoValue(facts, a.id, endDate);
    }
  }
}
