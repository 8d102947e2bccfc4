/** The financial-analysis ratio engine: per-date sums of the fetched facts
    for each balance-sheet and income-statement line, and the ratios of one
    reporting date in a quarterly and a cumulative pass. */
module Ratios {
  import opened Wrappers
  import opened Seqs
  import opened Periods

  /** The keys of `factsByDate`: the balance-sheet component lists and the
      single-stt income-statement lines. */
  datatype Line =
    | ShortTermAssets | CashAndEquivalents | ShortTermInvestments | ShortTermLiabilities
    | TotalAssets | Equity | TotalLiabilities | LongTermAssets | LongTermDebt | Inventory
    | ShortTermReceivables | LongTermReceivables
    | ProfitAfterTax | ProfitBeforeTax | NetRevenue | CostOfGoodsSold | InterestExpense
    | ContributedCapital | ShortTermLoans | LongTermLoans | TradePayables

  /** The single-stt lines and their fixed stts. */
  function SingleStts(): map<Line, seq<int>> {
    map[ProfitAfterTax := [19], ProfitBeforeTax := [16], NetRevenue := [3], CostOfGoodsSold := [4],
        InterestExpense := [8], ContributedCapital := [100], ShortTermLoans := [81], LongTermLoans := [93],
        TradePayables := [73]]
  }

  /** One fetched fact row. */
  datatype FaFact = FaFact(date: Date, stt: int, value: real)

  /** The amounts of one date, by line; a line no fact fed is absent. */
  type Snapshot = map<Line, real>

  // ---------------------------------------------------------------------
  // Per-date sums.

  /** The lines whose stt list holds an stt. */
  function Hits(lines: map<Line, seq<int>>, stt: int): set<Line> {
    set k | k in lines && stt in lines[k]
  }

  /** Add one fact to its date's amounts: every line listing its stt grows
      by its value. */
  function AddFact(snap: Snapshot, lines: map<Line, seq<int>>, f: FaFact): Snapshot {
    map k | k in snap.Keys + Hits(lines, f.stt) ::
      if k in Hits(lines, f.stt) then (if k in snap then snap[k] else 0.0) + f.value else snap[k]
  }

  /** The aggregation loop: a date seen in any fact gets an entry, even one
      no line picks up. */
  function FactsByDate(facts: seq<FaFact>, lines: map<Line, seq<int>>): map<Date, Snapshot> {
    if |facts| == 0 then map[]
    else
      var m := FactsByDate(facts[..|facts| - 1], lines);
      var f := facts[|facts| - 1];
      m[f.date := AddFact(if f.date in m then m[f.date] else map[], lines, f)]
  }

  /** Reference: the values of the facts of one date that a line lists. */
  function LineValues(facts: seq<FaFact>, lines: map<Line, seq<int>>, d: Date, k: Line): seq<real> {
    if |facts| == 0 then []
    else
      var f := facts[|facts| - 1];
      LineValues(facts[..|facts| - 1], lines, d, k)
      + (if f.date == d && k in lines && f.stt in lines[k] then [f.value] else [])
  }

  /** Each date of the facts has an entry; within it a line is present
      exactly when some fact of that date is listed by it, and then holds
      the sum of those facts' values. */
  lemma {:induction false} FactsByDateSums(facts: seq<FaFact>, lines: map<Line, seq<int>>, d: Date, k: Line)
    ensures d in FactsByDate(facts, lines) <==> exists i :: 0 <= i < |facts| && facts[i].date == d
    ensures d in FactsByDate(facts, lines) ==>
              (k in FactsByDate(facts, lines)[d] <==> |LineValues(facts, lines, d, k)| > 0)
    ensures d in FactsByDate(facts, lines) && k in FactsByDate(facts, lines)[d] ==>
              FactsByDate(facts, lines)[d][k] == Sum(LineValues(facts, lines, d, k))
  {
    if |facts| > 0 {
      var pre := facts[..|facts| - 1];
      var f := facts[|facts| - 1];
      var m := FactsByDate(pre, lines);
      FactsByDateSums(pre, lines, d, k);
      assert forall i :: 0 <= i < |pre| ==> pre[i] == facts[i];
      var vs := LineValues(pre, lines, d, k);
      var hit := f.date == d && k in lines && f.stt in lines[k];
      assert LineValues(facts, lines, d, k) == vs + (if hit then [f.value] else []);
      if f.date == d {
        var snap := if d in m then m[d] else map[];
        AddFactAt(snap, lines, f, k);
        assert FactsByDate(facts, lines)[d] == AddFact(snap, lines, f);
        if d !in m {
          LineValuesOfUnseenDate(pre, lines, d, k);
        }
        if hit {
          SumConcat(vs, [f.value]);
          SumSingleton(f.value);
          if |vs| == 0 {
            assert Sum(vs) == 0.0;
          }
        } else {
          assert vs + [] == vs;
        }
      } else {
        assert FactsByDate(facts, lines) == m[f.date := AddFact(if f.date in m then m[f.date] else map[], lines, f)];
        assert d in FactsByDate(facts, lines) <==> d in m;
        assert d in m ==> FactsByDate(facts, lines)[d] == m[d];
        assert LineValues(facts, lines, d, k) == vs;
      }
    }
  }

  /** One fact adds its value to every line that lists its stt. */
  lemma AddFactAt(snap: Snapshot, lines: map<Line, seq<int>>, f: FaFact, k: Line)
    ensures var hit := k in lines && f.stt in lines[k];
      && (k in AddFact(snap, lines, f) <==> k in snap || hit)
      && (k in AddFact(snap, lines, f) ==>
            AddFact(snap, lines, f)[k] == if hit then (if k in snap then snap[k] else 0.0) + f.value else snap[k])
  {
    assert k in Hits(lines, f.stt) <==> k in lines && f.stt in lines[k];
  }

  lemma {:induction false} LineValuesOfUnseenDate(facts: seq<FaFact>, lines: map<Line, seq<int>>, d: Date, k: Line)
    requires forall i :: 0 <= i < |facts| ==> facts[i].date != d
    ensures LineValues(facts, lines, d, k) == []
  {
    if |facts| > 0 {
      LineValuesOfUnseenDate(facts[..|facts| - 1], lines, d, k);
    }
  }

  // ---------------------------------------------------------------------
  // Building blocks.

  /** `safeDiv`: no result without both operands or with a zero divisor. */
  function SafeDiv(num: Option<real>, den: Option<real>, mult: real): (r: Option<real>)
    ensures r.Some? <==> num.Some? && den.Some? && den.value != 0.0
    ensures r.Some? ==> r.value * den.value == num.value * mult
  {
    if num.Some? && den.Some? && den.value != 0.0 then
      var q := num.value / den.value;
      assert q * den.value == num.value;
      Some(q * mult)
    else None
  }

  /** The mean of an opening and a closing balance, when both exist. */
  function Average(start: Option<real>, end: Option<real>): (r: Option<real>)
    ensures r.Some? <==> start.Some? && end.Some?
    ensures r.Some? ==> 2.0 * r.value == start.value + end.value
  {
    if start.Some? && end.Some? then Some((start.value + end.value) / 2.0) else None
  }

  /** Earnings before interest and tax, when both parts exist. */
  function Ebit(pbt: Option<real>, interest: Option<real>): (r: Option<real>)
    ensures r.Some? <==> pbt.Some? && interest.Some?
    ensures r.Some? ==> r.value - interest.value == pbt.value
  {
    if pbt.Some? && interest.Some? then Some(pbt.value + interest.value) else None
  }

  /** A line's amount in a snapshot, if any. */
  function Val(snap: Option<Snapshot>, k: Line): Option<real> {
    if snap.Some? && k in snap.value then Some(snap.value[k]) else None
  }

  /** JavaScript's `x || 0` on an amount. */
  function OrZero(v: Option<real>): real {
    v.GetOr(0.0)
  }

  datatype Pass = Quarterly | Cumulative

  /** An income-statement line for a pass: the year-to-date figure as
      stored, or the quarter's own movement, the previous quarter's
      year-to-date figure subtracted with missing amounts as 0. */
  function Flow(period: Snapshot, prev: Option<Snapshot>, k: Line, pass: Pass): (r: Option<real>)
    ensures pass == Cumulative ==> r == Val(Some(period), k)
    ensures pass == Quarterly ==> r.Some? && r.value + OrZero(Val(prev, k)) == OrZero(Val(Some(period), k))
  {
    if pass == Cumulative then Val(Some(period), k)
    else Some(OrZero(Val(Some(period), k)) - OrZero(Val(prev, k)))
  }

  /** The cumulative pass's day count as written: the unfloored month index
      over 3, plus 1, times 91.25. */
  function DaysInPeriodAsWritten(month: int, pass: Pass): real {
    if pass == Quarterly then 91.25 else ((month - 1) as real / 3.0 + 1.0) * 91.25
  }

  /** The day count with the quarter number floored: 91.25 days per quarter
      elapsed in the year. */
  function DaysInPeriod(month: int, pass: Pass): (r: real)
    requires 1 <= month <= 12
    ensures pass == Quarterly ==> r == 91.25
    ensures pass == Cumulative ==> 91.25 <= r <= 365.0
    ensures forall q: Quarter :: pass == Cumulative && q.Month() - 2 <= month <= q.Month() ==>
              r == 91.25 * (q.Index() + 1) as real
  {
    if pass == Quarterly then 91.25 else ((month - 1) / 3 + 1) as real * 91.25
  }

  /** The as-written count overstates every quarter end: at the end of the
      first quarter it counts 152.08… days instead of 91.25, and it never
      agrees with the floored count at a quarter's closing month. */
  lemma DaysInPeriodAsWrittenDisagrees(q: Quarter)
    ensures DaysInPeriodAsWritten(q.Month(), Cumulative) == DaysInPeriod(q.Month(), Cumulative) + 2.0 / 3.0 * 91.25
    ensures DaysInPeriodAsWritten(Q1.Month(), Cumulative) != 91.25
  {
  }

  /** The days of the part of a quarter the month index has run past the
      quarter's first month: 0, 1/3 or 2/3 of 91.25. */
  function ExcessDays(month: int): real {
    ((month - 1) % 3) as real / 3.0 * 91.25
  }

  /** The unfloored count exceeds the floored one by `ExcessDays`: two
      thirds of a quarter at every closing month. */
  lemma DaysAsWrittenExcess(month: int)
    requires 1 <= month <= 12
    ensures DaysInPeriodAsWritten(month, Cumulative) == DaysInPeriod(month, Cumulative) + ExcessDays(month)
    ensures month % 3 == 0 ==> ExcessDays(month) == 2.0 / 3.0 * 91.25
  {
    assert 1 <= month <= 3 || 4 <= month <= 6 || 7 <= month <= 9 || 10 <= month <= 12;
  }

  /** The floored count is 91.25 times the quarter's number. */
  lemma DaysInPeriodOfQuarter(q: Quarter)
    ensures DaysInPeriod(q.Month(), Cumulative) == 91.25 * (q.Index() + 1) as real
  {
  }

  // ---------------------------------------------------------------------
  // One pass.

  /** The figures one pass reads: flows for the pass, closing balances from
      the period, opening balances from the pass's start snapshot. */
  datatype Inputs = Inputs(
    netIncome: Option<real>, pbt: Option<real>, interest: Option<real>, cogs: Option<real>, revenue: Option<real>,
    assetsEnd: Option<real>, assetsStart: Option<real>, equityEnd: Option<real>, equityStart: Option<real>,
    currentAssetsEnd: Option<real>, currentLiabilitiesEnd: Option<real>,
    workingCapitalEnd: real, workingCapitalStart: Option<real>,
    inventoryEnd: Option<real>, inventoryStart: Option<real>,
    liabilitiesEnd: Option<real>, liabilitiesStart: Option<real>,
    receivablesEnd: real, receivablesStart: Option<real>,
    cashEnd: Option<real>, shortTermInvestmentsEnd: Option<real>, loans: real,
    longTermAssetsEnd: Option<real>, longTermDebtEnd: Option<real>, days: real)

  /** A difference or sum of two opening amounts, when both exist. */
  function Both(a: Option<real>, b: Option<real>, negate: bool): (r: Option<real>)
    ensures r.Some? <==> a.Some? && b.Some?
    ensures r.Some? ==> r.value == a.value + (if negate then -b.value else b.value)
  {
    if a.Some? && b.Some? then Some(if negate then a.value - b.value else a.value + b.value) else None
  }

  /** A flow as a pass reads it: the period's year-to-date amount for the
      cumulative pass; for the quarterly pass an amount that, added to the
      previous quarter's (0 when missing), gives the period's (0 when
      missing). */
  predicate FlowIs(v: Option<real>, period: Snapshot, prev: Option<Snapshot>, k: Line, pass: Pass) {
    && (pass == Cumulative ==> v == Val(Some(period), k))
    && (pass == Quarterly ==> v.Some? && v.value + OrZero(Val(prev, k)) == OrZero(Val(Some(period), k)))
  }

  /** The figures of one pass: the five flows as the pass reads them,
      closing balances from the period, opening balances from `start`, and
      the given day count. */
  function InputsOf(period: Snapshot, prev: Option<Snapshot>, start: Option<Snapshot>, pass: Pass, days: real): (i: Inputs)
    ensures FlowIs(i.netIncome, period, prev, ProfitAfterTax, pass)
    ensures FlowIs(i.pbt, period, prev, ProfitBeforeTax, pass)
    ensures FlowIs(i.interest, period, prev, InterestExpense, pass)
    ensures FlowIs(i.cogs, period, prev, CostOfGoodsSold, pass)
    ensures FlowIs(i.revenue, period, prev, NetRevenue, pass)
    ensures i.assetsEnd == Val(Some(period), TotalAssets) && i.assetsStart == Val(start, TotalAssets)
    ensures i.equityEnd == Val(Some(period), Equity) && i.equityStart == Val(start, Equity)
    ensures i.inventoryEnd == Val(Some(period), Inventory) && i.inventoryStart == Val(start, Inventory)
    ensures i.liabilitiesEnd == Val(Some(period), TotalLiabilities) && i.liabilitiesStart == Val(start, TotalLiabilities)
    ensures i.days == days
    ensures i.workingCapitalEnd == OrZero(Val(Some(period), ShortTermAssets)) - OrZero(Val(Some(period), ShortTermLiabilities))
    ensures i.workingCapitalStart.Some? <==> Val(start, ShortTermAssets).Some? && Val(start, ShortTermLiabilities).Some?
    ensures i.receivablesStart.Some? <==> Val(start, ShortTermReceivables).Some? && Val(start, LongTermReceivables).Some?
  {
    var p := Some(period);
    Inputs(
      Flow(period, prev, ProfitAfterTax, pass), Flow(period, prev, ProfitBeforeTax, pass),
      Flow(period, prev, InterestExpense, pass), Flow(period, prev, CostOfGoodsSold, pass),
      Flow(period, prev, NetRevenue, pass),
      Val(p, TotalAssets), Val(start, TotalAssets), Val(p, Equity), Val(start, Equity),
      Val(p, ShortTermAssets), Val(p, ShortTermLiabilities),
      OrZero(Val(p, ShortTermAssets)) - OrZero(Val(p, ShortTermLiabilities)),
      Both(Val(start, ShortTermAssets), Val(start, ShortTermLiabilities), true),
      Val(p, Inventory), Val(start, Inventory),
      Val(p, TotalLiabilities), Val(start, TotalLiabilities),
      OrZero(Val(p, ShortTermReceivables)) + OrZero(Val(p, LongTermReceivables)),
      Both(Val(start, ShortTermReceivables), Val(start, LongTermReceivables), false),
      Val(p, CashAndEquivalents), Val(p, ShortTermInvestments),
      OrZero(Val(p, ShortTermLoans)) + OrZero(Val(p, LongTermLoans)),
      Val(p, LongTermAssets), Val(p, LongTermDebt), days)
  }

  /** The ratio record of one pass. */
  datatype Ratios = Ratios(
    roa: Option<real>, roe: Option<real>, pbtMargin: Option<real>, capitalAdequacyRatio: Option<real>,
    debtCoverageRatio: Option<real>, selfFinancingRatio: Option<real>, debtToAssetRatio: Option<real>,
    currentAssetToTotalAssetRatio: Option<real>, assetTurnover: Option<real>, debtToEquityRatio: Option<real>,
    loanToEquityRatio: Option<real>, longTermAssetSelfFinancingRatio: Option<real>, longTermDebtRatio: Option<real>,
    workingCapitalTurnover: Option<real>, payablesTurnover: Option<real>, receivablesTurnover: Option<real>,
    daysSalesOutstanding: Option<real>, solvencyRatio: Option<real>, quickRatio: Option<real>,
    currentRatio: Option<real>, cashRatio: Option<real>, ebit: Option<real>, taxBurdenRatio: Option<real>,
    interestBurdenRatio: Option<real>, ebitMargin: Option<real>, financialLeverage: Option<real>)

  /** Purchases: cost of goods sold plus the inventory build-up. */
  function Purchases(cogs: Option<real>, inventoryEnd: Option<real>, inventoryStart: Option<real>): (r: Option<real>)
    ensures r.Some? <==> cogs.Some? && inventoryEnd.Some? && inventoryStart.Some?
    ensures r.Some? ==> r.value - cogs.value == inventoryEnd.value - inventoryStart.value
  {
    if cogs.Some? && inventoryEnd.Some? && inventoryStart.Some? then
      Some(cogs.value + inventoryEnd.value - inventoryStart.value)
    else None
  }

  /** `calculate`'s return value for a pass's figures. */
  function RatiosOf(i: Inputs): Ratios {
    var avgAssets := Average(i.assetsStart, i.assetsEnd);
    var avgEquity := Average(i.equityStart, i.equityEnd);
    var avgWorkingCapital := Average(i.workingCapitalStart, Some(i.workingCapitalEnd));
    var avgLiabilities := Average(i.liabilitiesStart, i.liabilitiesEnd);
    var avgReceivables := Average(i.receivablesStart, Some(i.receivablesEnd));
    var ebit := Ebit(i.pbt, i.interest);
    var receivablesTurnover := SafeDiv(i.revenue, avgReceivables, 1.0);
    Ratios(
      SafeDiv(i.netIncome, avgAssets, 1.0), SafeDiv(i.netIncome, avgEquity, 1.0), SafeDiv(i.pbt, i.revenue, 1.0),
      SafeDiv(i.equityEnd, i.equityStart, 1.0), SafeDiv(i.equityEnd, i.liabilitiesEnd, 1.0),
      SafeDiv(i.equityEnd, i.assetsEnd, 1.0), SafeDiv(i.liabilitiesEnd, i.assetsEnd, 1.0),
      SafeDiv(i.currentAssetsEnd, i.assetsEnd, 1.0), SafeDiv(i.revenue, avgAssets, 1.0),
      SafeDiv(i.liabilitiesEnd, i.equityEnd, 1.0), SafeDiv(Some(i.loans), i.equityEnd, 1.0),
      SafeDiv(i.equityEnd, i.longTermAssetsEnd, 1.0), SafeDiv(i.longTermDebtEnd, i.equityEnd, 1.0),
      SafeDiv(i.revenue, avgWorkingCapital, 1.0), SafeDiv(Purchases(i.cogs, i.inventoryEnd, i.inventoryStart), avgLiabilities, 1.0),
      receivablesTurnover, SafeDiv(Some(i.days), receivablesTurnover, 1.0),
      SafeDiv(i.assetsEnd, i.liabilitiesEnd, 1.0),
      SafeDiv(Some(OrZero(i.cashEnd) + OrZero(i.shortTermInvestmentsEnd)), i.currentLiabilitiesEnd, 1.0),
      SafeDiv(i.currentAssetsEnd, i.currentLiabilitiesEnd, 1.0), SafeDiv(i.cashEnd, i.currentLiabilitiesEnd, 1.0),
      ebit, SafeDiv(i.netIncome, i.pbt, 1.0), SafeDiv(i.pbt, ebit, 1.0), SafeDiv(ebit, i.revenue, 1.0),
      SafeDiv(avgAssets, avgEquity, 1.0))
  }

  lemma ChainOfQuotients(t: real, b: real, m: real, rev: real, ebit: real, pbt: real, ni: real)
    requires t * pbt == ni && b * ebit == pbt && m * rev == ebit
    ensures t * b * m * rev == ni
  {
    assert t * b * m * rev == t * (b * (m * rev));
  }

  lemma QuotientOfQuotients(a: real, l: real, e: real, avgA: real, avgE: real, ni: real)
    requires a * avgA == ni && l * avgE == avgA && e * avgE == ni && avgE != 0.0
    ensures e == a * l
  {
    assert (a * l) * avgE == a * (l * avgE);
    assert (e - a * l) * avgE == 0.0;
  }

  /** The Dupont margin identity: tax burden × interest burden × EBIT
      margin is net income over revenue, whenever all three exist. */
  lemma DupontMargin(i: Inputs)
    requires RatiosOf(i).taxBurdenRatio.Some? && RatiosOf(i).interestBurdenRatio.Some? && RatiosOf(i).ebitMargin.Some?
    ensures i.revenue.Some? && i.netIncome.Some? && i.revenue.value != 0.0
    ensures RatiosOf(i).taxBurdenRatio.value * RatiosOf(i).interestBurdenRatio.value * RatiosOf(i).ebitMargin.value
            * i.revenue.value == i.netIncome.value
  {
    var r := RatiosOf(i);
    var ebit := Ebit(i.pbt, i.interest);
    assert r.taxBurdenRatio == SafeDiv(i.netIncome, i.pbt, 1.0);
    assert r.interestBurdenRatio == SafeDiv(i.pbt, ebit, 1.0);
    assert r.ebitMargin == SafeDiv(ebit, i.revenue, 1.0);
    ChainOfQuotients(r.taxBurdenRatio.value, r.interestBurdenRatio.value, r.ebitMargin.value,
                     i.revenue.value, ebit.value, i.pbt.value, i.netIncome.value);
  }

  /** Return on equity is return on assets times financial leverage,
      whenever both exist. */
  lemma DupontEquity(i: Inputs)
    requires RatiosOf(i).roa.Some? && RatiosOf(i).financialLeverage.Some?
    ensures RatiosOf(i).roe.Some?
    ensures RatiosOf(i).roe.value == RatiosOf(i).roa.value * RatiosOf(i).financialLeverage.value
  {
    var r := RatiosOf(i);
    var avgA := Average(i.assetsStart, i.assetsEnd);
    var avgE := Average(i.equityStart, i.equityEnd);
    assert r.roa == SafeDiv(i.netIncome, avgA, 1.0);
    assert r.financialLeverage == SafeDiv(avgA, avgE, 1.0);
    assert r.roe == SafeDiv(i.netIncome, avgE, 1.0);
    QuotientOfQuotients(r.roa.value, r.financialLeverage.value, r.roe.value, avgA.value, avgE.value, i.netIncome.value);
  }

  // ---------------------------------------------------------------------
  // One reporting date.

  /** `previousQuarterDate`: the previous quarter's month start within the
      year, or December of the year before for the first quarter. */
  function PreviousQuarterDate(d: Date): Date
    requires Valid(d)
  {
    var q := QuarterOf(d).Index();
    if q > 0 then Date(d.year, QuarterAt(q - 1).Month(), 1) else Date(d.year - 1, 12, 1)
  }

  /** `yearStartDate`: December of the year before. */
  function YearStartDate(d: Date): Date {
    Date(d.year - 1, 12, 1)
  }

  /** On a quarter's month start the previous quarter date is what the
      helpers' three-month step gives. */
  lemma PreviousQuarterDateAgrees(q: Quarter, year: int)
    ensures PreviousQuarterDate(Date(year, q.Month(), 1)) == PreviousQuarterEnd(ReportingPeriod(year, q)).date
  {
  }

  function Lookup(m: map<Date, Snapshot>, d: Date): Option<Snapshot> {
    if d in m then Some(m[d]) else None
  }

  /** The two passes of one date with a given cumulative day count: the
      quarterly pass (flows net of the previous quarter, opening balances
      at the previous quarter date, 91.25 days) and the cumulative pass
      (year-to-date flows, opening balances at the year start). */
  function Passes(m: map<Date, Snapshot>, d: Date, cumulativeDays: real): (Ratios, Ratios)
    requires Valid(d) && d in m
  {
    var prev := Lookup(m, PreviousQuarterDate(d));
    (RatiosOf(InputsOf(m[d], prev, prev, Quarterly, 91.25)),
     RatiosOf(InputsOf(m[d], prev, Lookup(m, YearStartDate(d)), Cumulative, cumulativeDays)))
  }

  /** The ratios both passes read from the closing balances alone. */
  predicate SameClosingRatios(a: Ratios, b: Ratios) {
    && a.debtCoverageRatio == b.debtCoverageRatio && a.selfFinancingRatio == b.selfFinancingRatio
    && a.debtToAssetRatio == b.debtToAssetRatio && a.currentAssetToTotalAssetRatio == b.currentAssetToTotalAssetRatio
    && a.debtToEquityRatio == b.debtToEquityRatio && a.loanToEquityRatio == b.loanToEquityRatio
    && a.longTermAssetSelfFinancingRatio == b.longTermAssetSelfFinancingRatio
    && a.longTermDebtRatio == b.longTermDebtRatio && a.solvencyRatio == b.solvencyRatio
    && a.quickRatio == b.quickRatio && a.currentRatio == b.currentRatio && a.cashRatio == b.cashRatio
  }

  /** `calculateAndStoreRatios` as written: the cumulative day count uses
      the unfloored quarter number (see `DaysInPeriodAsWritten`). */
  function CalculateAndStoreAsWritten(m: map<Date, Snapshot>, d: Date): (r: Option<(Ratios, Ratios)>)
    requires Valid(d)
    ensures r.None? <==> d !in m
    ensures r.Some? ==> SameClosingRatios(r.value.0, r.value.1)
    ensures r.Some? ==> r.value.1.daysSalesOutstanding
                        == SafeDiv(Some(DaysInPeriodAsWritten(d.month, Cumulative)), r.value.1.receivablesTurnover, 1.0)
  {
    if d !in m then None else Some(Passes(m, d, DaysInPeriodAsWritten(d.month, Cumulative)))
  }

  /** `calculateAndStoreRatios` with the floored quarter number: nothing
      without an entry for the date. The closing-balance ratios agree
      between the passes. The cumulative pass reads the period's own
      year-to-date figures and opens at the year start; the quarterly pass
      reads the quarter's own movement and opens at the previous quarter
      date. */
  function CalculateAndStore(m: map<Date, Snapshot>, d: Date): (r: Option<(Ratios, Ratios)>)
    requires Valid(d)
    ensures r.None? <==> d !in m
    ensures r.Some? ==> SameClosingRatios(r.value.0, r.value.1)
    ensures r.Some? ==> r.value.1.pbtMargin == SafeDiv(Val(Some(m[d]), ProfitBeforeTax), Val(Some(m[d]), NetRevenue), 1.0)
    ensures r.Some? ==>
              var prev := Lookup(m, PreviousQuarterDate(d));
              r.value.0.pbtMargin == SafeDiv(Flow(m[d], prev, ProfitBeforeTax, Quarterly),
                                             Flow(m[d], prev, NetRevenue, Quarterly), 1.0)
    ensures r.Some? ==>
              r.value.0.capitalAdequacyRatio == SafeDiv(Val(Some(m[d]), Equity), Val(Lookup(m, PreviousQuarterDate(d)), Equity), 1.0)
              && r.value.1.capitalAdequacyRatio == SafeDiv(Val(Some(m[d]), Equity), Val(Lookup(m, YearStartDate(d)), Equity), 1.0)
    ensures r.Some? ==> r.value.0.daysSalesOutstanding == SafeDiv(Some(91.25), r.value.0.receivablesTurnover, 1.0)
    ensures r.Some? ==> r.value.1.daysSalesOutstanding
                        == SafeDiv(Some(DaysInPeriod(d.month, Cumulative)), r.value.1.receivablesTurnover, 1.0)
  {
    if d !in m then None else Some(Passes(m, d, DaysInPeriod(d.month, Cumulative)))
  }

  /** The program as written and the corrected one store the same ratios
      except the cumulative days sales outstanding, which the unfloored day
      count computes from `ExcessDays` more days: two thirds of a quarter
      more at every closing month. */
  lemma AsWrittenDiffersOnlyInCumulativeDso(m: map<Date, Snapshot>, d: Date)
    requires Valid(d) && d in m
    ensures var w := CalculateAndStoreAsWritten(m, d).value;
      var c := CalculateAndStore(m, d).value;
      && w.0 == c.0
      && w.1 == c.1.(daysSalesOutstanding := w.1.daysSalesOutstanding)
      && w.1.daysSalesOutstanding
         == SafeDiv(Some(DaysInPeriod(d.month, Cumulative) + ExcessDays(d.month)), c.1.receivablesTurnover, 1.0)
  {
    var dw := DaysInPeriodAsWritten(d.month, Cumulative);
    var dc := DaysInPeriod(d.month, Cumulative);
    assert CalculateAndStoreAsWritten(m, d).value == Passes(m, d, dw);
    assert CalculateAndStore(m, d).value == Passes(m, d, dc);
    PassesDiffer(m, d, dw, dc);
    DaysAsWrittenExcess(d.month);
  }

  /** Two day counts give the same passes but for the cumulative days sales
      outstanding. */
  lemma PassesDiffer(m: map<Date, Snapshot>, d: Date, x: real, y: real)
    requires Valid(d) && d in m
    ensures Passes(m, d, x).0 == Passes(m, d, y).0
    ensures Passes(m, d, x).1 == Passes(m, d, y).1.(daysSalesOutstanding :=
              SafeDiv(Some(x), Passes(m, d, y).1.receivablesTurnover, 1.0))
    ensures Passes(m, d, y).1.daysSalesOutstanding == SafeDiv(Some(y), Passes(m, d, y).1.receivablesTurnover, 1.0)
  {
    var prev := Lookup(m, PreviousQuarterDate(d));
    var iy := InputsOf(m[d], prev, Lookup(m, YearStartDate(d)), Cumulative, y);
    assert InputsOf(m[d], prev, Lookup(m, YearStartDate(d)), Cumulative, x) == iy.(days := x);
    RatiosOfDays(iy, x);
  }

  /** Only the days sales outstanding reads the day count. */
  lemma RatiosOfDays(i: Inputs, x: real)
    ensures RatiosOf(i.(days := x))
         == RatiosOf(i).(daysSalesOutstanding := SafeDiv(Some(x), RatiosOf(i).receivablesTurnover, 1.0))
  {
  }



  /** In the first quarter both passes open at the same December snapshot,
      so their opening-balance ratios agree. */
  lemma FirstQuarterPassesShareOpening(m: map<Date, Snapshot>, year: int)
    requires Date(year, 3, 1) in m
    ensures var r := CalculateAndStore(m, Date(year, 3, 1)).value;
      r.0.capitalAdequacyRatio == r.1.capitalAdequacyRatio
  {
  }

  /** `subtract` of the flow chart: a quarter's own amount from two
      year-to-date amounts; nothing without the current one, and a missing
      earlier one counts as 0. */
  function Subtract(a: Option<real>, b: Option<real>): (r: Option<real>)
    ensures r.Some? <==> a.Some?
    ensures r.Some? ==> r.value + OrZero(b) == a.value
  {
    if a.Some? && b.Some? then Some(a.value - b.value)
    else if a.Some? then a
    else None
  }

  /** Where the current amount exists, the chart's subtraction and the
      ratio engine's quarterly flow agree; where it does not, the chart
      shows nothing while the flow counts it as 0. */
  lemma SubtractAgreesWithQuarterlyFlow(period: Snapshot, prev: Option<Snapshot>, k: Line)
    ensures k in period ==> Subtract(Val(Some(period), k), Val(prev, k)) == Flow(period, prev, k, Quarterly)
    ensures k !in period ==> Subtract(Val(Some(period), k), Val(prev, k)).None?
                             && Flow(period, prev, k, Quarterly) == Some(-OrZero(Val(prev, k)))
  {
  }
}
