/** Report versions ("analysis types"): which stored version of the figures
    is read for a period. Under the consolidated scope the versions are
    PVN-P01 (before audit) and PVN-P02 (after audit); under the parent-company
    scope PVN-P03 and PVN-P04. Each quarter of the selected year has its own
    user selection; other years follow a fixed rule. */
module Versions {
  import opened Wrappers
  import opened Periods

  datatype AnalType = AnalType(code: string, name: string)

  /** The four per-quarter selections; `None` is an unset selector. */
  datatype Selections = Selections(q1: Option<AnalType>, q2: Option<AnalType>,
                                   q3: Option<AnalType>, q4: Option<AnalType>)
  {
    function Get(q: Quarter): Option<AnalType> {
      match q
      case Q1 => q1
      case Q2 => q2
      case Q3 => q3
      case Q4 => q4
    }

    predicate AllUnset() {
      q1.None? && q2.None? && q3.None? && q4.None?
    }
  }

  const Consolidated: string := "Hợp nhất"
  const PreAuditConsolidated: string := "PVN-P01"
  const PostAuditConsolidated: string := "PVN-P02"
  const PreAuditParent: string := "PVN-P03"
  const PostAuditParent: string := "PVN-P04"

  /** The version pair of a scope: consolidated, or anything else meaning the
      parent company. The first entry is the pre-audit version. */
  function ScopeCodes(scope: string): (r: seq<string>)
    ensures |r| == 2
  {
    if scope == Consolidated then [PreAuditConsolidated, PostAuditConsolidated]
    else [PreAuditParent, PostAuditParent]
  }

  predicate HasCode(types: seq<AnalType>, code: string) {
    exists i :: 0 <= i < |types| && types[i].code == code
  }

  /** The types of the scope's pair, in list order. */
  function ScopeFilter(all: seq<AnalType>, scope: string): (r: seq<AnalType>)
    ensures |r| <= |all|
    ensures forall i :: 0 <= i < |r| ==> r[i] in all && r[i].code in ScopeCodes(scope)
    ensures forall i :: 0 <= i < |all| && all[i].code in ScopeCodes(scope) ==> all[i] in r
  {
    if |all| == 0 then []
    else
      var rest := ScopeFilter(all[..|all| - 1], scope);
      var t := all[|all| - 1];
      assert forall i :: 0 <= i < |all| - 1 ==> all[i] == all[..|all| - 1][i];
      if t.code in ScopeCodes(scope) then rest + [t] else rest
  }

  /** The scope filter read front to back, as `Array.prototype.filter`
      visits the list: an independent reference for `ScopeFilter`. */
  function InScope(all: seq<AnalType>, scope: string): seq<AnalType>
    decreases |all|
  {
    if |all| == 0 then []
    else (if all[0].code in ScopeCodes(scope) then [all[0]] else []) + InScope(all[1..], scope)
  }

  lemma {:induction false} InScopeSnoc(p: seq<AnalType>, t: AnalType, scope: string)
    ensures InScope(p + [t], scope)
         == InScope(p, scope) + (if t.code in ScopeCodes(scope) then [t] else [])
    decreases |p|
  {
    if |p| == 0 {
      assert InScope([t], scope) == (if t.code in ScopeCodes(scope) then [t] else []) + InScope([], scope);
    } else {
      assert (p + [t])[1..] == p[1..] + [t];
      InScopeSnoc(p[1..], t, scope);
    }
  }

  /** The scope filter keeps the in-scope versions in list order and drops
      nothing else: it is exactly the front-to-back filter. */
  lemma {:induction false} ScopeFilterIsFilter(all: seq<AnalType>, scope: string)
    ensures ScopeFilter(all, scope) == InScope(all, scope)
    decreases |all|
  {
    if |all| > 0 {
      var p := all[..|all| - 1];
      ScopeFilterIsFilter(p, scope);
      assert all == p + [all[|all| - 1]];
      InScopeSnoc(p, all[|all| - 1], scope);
    }
  }

  /** The filter's first entry, which the code uses as the fallback
      `filteredTypes[0]`, is the first version of the list in scope. */
  lemma {:induction false} ScopeFilterHead(all: seq<AnalType>, scope: string, k: nat)
    requires k < |all| && all[k].code in ScopeCodes(scope)
    requires forall j :: 0 <= j < k ==> all[j].code !in ScopeCodes(scope)
    ensures |ScopeFilter(all, scope)| > 0 && ScopeFilter(all, scope)[0] == all[k]
  {
    ScopeFilterIsFilter(all, scope);
    InScopeHead(all, scope, k);
  }

  lemma {:induction false} InScopeHead(all: seq<AnalType>, scope: string, k: nat)
    requires k < |all| && all[k].code in ScopeCodes(scope)
    requires forall j :: 0 <= j < k ==> all[j].code !in ScopeCodes(scope)
    ensures |InScope(all, scope)| > 0 && InScope(all, scope)[0] == all[k]
    decreases k
  {
    if k > 0 {
      assert all[0].code !in ScopeCodes(scope);
      assert InScope(all, scope) == InScope(all[1..], scope);
      InScopeHead(all[1..], scope, k - 1);
    }
  }

  /** The first type carrying a code. */
  function FindByCode(types: seq<AnalType>, code: string): (r: Option<AnalType>)
    ensures r.Some? ==> r.value in types && r.value.code == code
    ensures r.None? <==> !HasCode(types, code)
    ensures r.Some? && |types| > 0 && types[0].code == code ==> r.value == types[0]
  {
    if |types| == 0 then None
    else if types[0].code == code then Some(types[0])
    else
      var r := FindByCode(types[1..], code);
      assert forall i :: 1 <= i < |types| ==> types[i] == types[1..][i - 1];
      assert HasCode(types[1..], code) ==> HasCode(types, code);
      r
  }

  /** `getHistoricalAnalCodeForQuarter`: the first and third quarters read
      the pre-audit version, every other quarter value the post-audit one. */
  function HistoricalCode(quarterValue: string, scope: string): (r: string)
    ensures var preAudit := quarterValue == Q1.Value() || quarterValue == Q3.Value();
      r == ScopeCodes(scope)[if preAudit then 0 else 1]
    ensures r in ScopeCodes(scope)
  {
    var preAudit := quarterValue == "03-01" || quarterValue == "09-01";
    if scope == "Hợp nhất" then (if preAudit then "PVN-P01" else "PVN-P02")
    else (if preAudit then "PVN-P03" else "PVN-P04")
  }

  /** A selection is honoured when its code is in the scope's list;
      otherwise the list's first code stands in, if there is one. */
  function ResolveCode(selected: Option<AnalType>, filtered: seq<AnalType>): (r: Option<string>)
    ensures selected.Some? && HasCode(filtered, selected.value.code) ==> r == Some(selected.value.code)
    ensures !(selected.Some? && HasCode(filtered, selected.value.code)) ==>
              (r.Some? <==> |filtered| > 0) && (r.Some? ==> r.value == filtered[0].code)
    ensures r.Some? ==> HasCode(filtered, r.value)
  {
    if selected.Some? && HasCode(filtered, selected.value.code) then Some(selected.value.code)
    else if |filtered| > 0 then Some(filtered[0].code)
    else None
  }

  /** `effectiveAnalTypeCode`: the version for the selected quarter. A
      selector value that names no quarter leaves no selection. */
  function EffectiveCode(selectedQuarter: string, scope: string, all: seq<AnalType>,
                         sel: Selections): (r: Option<string>)
    ensures r.Some? ==> r.value in ScopeCodes(scope)
    ensures r.None? <==> |ScopeFilter(all, scope)| == 0
    ensures forall q: Quarter ::
              (q.Value() == selectedQuarter && sel.Get(q).Some? && HasCode(ScopeFilter(all, scope), sel.Get(q).value.code))
              ==> r == Some(sel.Get(q).value.code)
    ensures (forall q: Quarter :: q.Value() == selectedQuarter ==>
               sel.Get(q).None? || !HasCode(ScopeFilter(all, scope), sel.Get(q).value.code))
            && |ScopeFilter(all, scope)| > 0
            ==> r == Some(ScopeFilter(all, scope)[0].code)
  {
    var filtered := ScopeFilter(all, scope);
    var selected := match QuarterOfValue(selectedQuarter)
                    case Some(q) => sel.Get(q)
                    case None => None;
    var r := ResolveCode(selected, filtered);
    assert r.Some? ==> r.value in ScopeCodes(scope);
    r
  }

  /** `getAnalCodeForPeriod`: no version for a blank period or before the
      version list is loaded; a year other than the selected one follows the
      fixed pre-/post-audit rule; the selected year follows the quarter's
      selector. */
  function AnalCodeForPeriod(p: Period, all: seq<AnalType>, selectedYear: Option<int>,
                             scope: string, sel: Selections): (r: Option<string>)
    requires ValidPeriod(p)
    ensures p.Blank? || |all| == 0 ==> r.None?
    ensures p.On? && |all| > 0 && selectedYear != Some(p.date.year) ==>
              r == Some(HistoricalCode(QuarterOf(p.date).Value(), scope))
    ensures p.On? && |all| > 0 && selectedYear == Some(p.date.year) ==>
              r == ResolveCode(sel.Get(QuarterOf(p.date)), ScopeFilter(all, scope))
    ensures r.Some? ==> r.value in ScopeCodes(scope)
  {
    if p.Blank? || |all| == 0 then None
    else
      var q := QuarterOf(p.date);
      if selectedYear != Some(p.date.year) then Some(HistoricalCode(q.Value(), scope))
      else
        var r := ResolveCode(sel.Get(q), ScopeFilter(all, scope));
        assert r.Some? ==> r.value in ScopeCodes(scope);
        r
  }

  /** A period in the selected year resolves exactly like the selector view
      does when that period's quarter is the one selected. */
  lemma SelectedPeriodMatchesEffectiveCode(year: int, q: Quarter, all: seq<AnalType>,
                                           scope: string, sel: Selections)
    requires |all| > 0
    ensures AnalCodeForPeriod(ReportingPeriod(year, q), all, Some(year), scope, sel)
         == EffectiveCode(q.Value(), scope, all, sel)
  {
    assert QuarterOfValue(q.Value()) == Some(q);
  }

  // ---------------------------------------------------------------------
  // Settling the four selectors (the version-sync effect).

  /** One selector after a scope change: kept if still valid in the scope,
      else the scope's first type, else unset. */
  function Target(current: Option<AnalType>, filtered: seq<AnalType>): (r: Option<AnalType>)
    ensures current.Some? && HasCode(filtered, current.value.code) ==> r == current
    ensures !(current.Some? && HasCode(filtered, current.value.code)) ==>
              r == (if |filtered| > 0 then Some(filtered[0]) else None)
  {
    if current.Some? && HasCode(filtered, current.value.code) then current
    else if |filtered| > 0 then Some(filtered[0])
    else None
  }

  function Sync(sel: Selections, filtered: seq<AnalType>): Selections {
    Selections(Target(sel.q1, filtered), Target(sel.q2, filtered),
               Target(sel.q3, filtered), Target(sel.q4, filtered))
  }

  /** After a sync every selector is unset exactly when the scope has no
      types, and otherwise holds a type whose code the scope offers. */
  lemma SyncValid(sel: Selections, filtered: seq<AnalType>, q: Quarter)
    ensures var s := Sync(sel, filtered).Get(q);
      (s.None? <==> |filtered| == 0) && (s.Some? ==> HasCode(filtered, s.value.code))
  {
    if |filtered| > 0 {
      assert filtered[0].code == filtered[0].code;
    }
  }

  /** Syncing a selector never changes the version a period of that
      quarter reads: the resolution before and after the sync agree. */
  lemma SyncKeepsResolution(sel: Selections, filtered: seq<AnalType>, q: Quarter)
    ensures ResolveCode(Sync(sel, filtered).Get(q), filtered) == ResolveCode(sel.Get(q), filtered)
    ensures var s := Sync(sel, filtered).Get(q);
      ResolveCode(sel.Get(q), filtered) == (if s.Some? then Some(s.value.code) else None)
  {
    SyncValid(sel, filtered, q);
  }

  /** Syncing twice against the same list changes nothing more. */
  lemma SyncIdempotent(sel: Selections, filtered: seq<AnalType>)
    ensures Sync(Sync(sel, filtered), filtered) == Sync(sel, filtered)
  {
    SyncValid(sel, filtered, Q1);
    SyncValid(sel, filtered, Q2);
    SyncValid(sel, filtered, Q3);
    SyncValid(sel, filtered, Q4);
  }

  /** One pass of the version-sync effect. With no types loaded it does
      nothing. When every selector is unset under the consolidated scope it
      installs the defaults: Q1 and Q3 take PVN-P01 when that exists, and when
      PVN-P02 exists Q4 takes it while Q2 takes the PVN-P01 lookup (which is
      unset when PVN-P01 is absent). Otherwise it syncs every selector. */
  function Settle(scope: string, all: seq<AnalType>, sel: Selections): (r: Selections)
    ensures |all| == 0 ==> r == sel
    ensures |all| > 0 && !(sel.AllUnset() && scope == Consolidated) ==> r == Sync(sel, ScopeFilter(all, scope))
  {
    if |all| == 0 then sel
    else if sel.AllUnset() && scope == Consolidated then
      var pre := FindByCode(all, PreAuditConsolidated);
      var post := FindByCode(all, PostAuditConsolidated);
      Selections(if pre.Some? then pre else sel.q1,
                 if post.Some? then pre else sel.q2,
                 if pre.Some? then pre else sel.q3,
                 if post.Some? then post else sel.q4)
    else Sync(sel, ScopeFilter(all, scope))
  }

  /** The defaults installed on first load under the consolidated scope. */
  lemma SettleDefaults(all: seq<AnalType>, sel: Selections)
    requires |all| > 0 && sel.AllUnset()
    ensures var r := Settle(Consolidated, all, sel);
      var pre := FindByCode(all, PreAuditConsolidated);
      var post := FindByCode(all, PostAuditConsolidated);
      && (pre.Some? ==> r.q1 == pre && r.q3 == pre)
      && (pre.None? ==> r.q1.None? && r.q3.None?)
      && (post.Some? ==> r.q2 == pre && r.q4 == post)
      && (post.None? ==> r.q2.None? && r.q4.None?)
  {
  }

  /** The effect reaches a fixed point after at most two passes: a third
      pass over the same types and scope changes nothing. */
  lemma {:induction false} SettleStabilises(scope: string, all: seq<AnalType>, sel: Selections)
    ensures var s2 := Settle(scope, all, Settle(scope, all, sel));
      Settle(scope, all, s2) == s2
  {
    var filtered := ScopeFilter(all, scope);
    var s1 := Settle(scope, all, sel);
    if |all| == 0 {
    } else if sel.AllUnset() && scope == Consolidated {
      var pre := FindByCode(all, PreAuditConsolidated);
      var post := FindByCode(all, PostAuditConsolidated);
      if s1.AllUnset() {
        assert Settle(scope, all, s1) == s1;
      } else {
        assert pre.Some? ==> HasCode(filtered, pre.value.code) by {
          if pre.Some? {
            assert pre.value in filtered;
            var i :| 0 <= i < |filtered| && filtered[i] == pre.value;
          }
        }
        assert post.Some? ==> HasCode(filtered, post.value.code) by {
          if post.Some? {
            assert post.value in filtered;
            var i :| 0 <= i < |filtered| && filtered[i] == post.value;
          }
        }
        var s2 := Sync(s1, filtered);
        assert !s2.AllUnset();
        SyncIdempotent(s1, filtered);
      }
    } else {
      SyncIdempotent(sel, filtered);
      SyncValid(sel, filtered, Q1);
      if |filtered| > 0 {
        assert !s1.AllUnset();
      }
      SyncIdempotent(s1, filtered);
    }
  }

  // ---------------------------------------------------------------------
  // Batching the balance-sheet fetch by version.

  /** One fetch: a version and the month starts read with it. */
  datatype Batch = Batch(code: string, months: seq<Date>)

  /** A period to fetch: the version resolved for its date (`None` or the
      empty code skips it) and the month start stored in the fact table. */
  datatype Wanted = Wanted(code: Option<string>, month: Date)

  predicate Fetched(w: Wanted) {
    w.code.Some? && w.code.value != ""
  }

  function IndexOfCode(bs: seq<Batch>, code: string): (k: nat)
    ensures k <= |bs|
    ensures k < |bs| ==> bs[k].code == code
    ensures forall i :: 0 <= i < k ==> bs[i].code != code
    ensures k == |bs| <==> forall i :: 0 <= i < |bs| ==> bs[i].code != code
  {
    if |bs| == 0 then 0
    else if bs[0].code == code then 0
    else 1 + IndexOfCode(bs[1..], code)
  }

  /** The months of the wanted periods fetched under `code`, in order. */
  function MonthsFor(ws: seq<Wanted>, code: string): seq<Date> {
    if |ws| == 0 then []
    else
      var w := ws[|ws| - 1];
      MonthsFor(ws[..|ws| - 1], code) + (if Fetched(w) && w.code.value == code then [w.month] else [])
  }

  /** The date loop of the balance-sheet fetch: one batch per version, in
      the order versions are first needed, each listing its months in order. */
  function BatchByCode(ws: seq<Wanted>): seq<Batch> {
    if |ws| == 0 then []
    else
      var bs := BatchByCode(ws[..|ws| - 1]);
      var w := ws[|ws| - 1];
      if !Fetched(w) then bs
      else
        var k := IndexOfCode(bs, w.code.value);
        if k == |bs| then bs + [Batch(w.code.value, [w.month])]
        else bs[k := Batch(bs[k].code, bs[k].months + [w.month])]
  }

  predicate DistinctCodes(bs: seq<Batch>) {
    forall i, j :: 0 <= i < j < |bs| ==> bs[i].code != bs[j].code
  }

  function CodesOf(bs: seq<Batch>): set<string> {
    set i | 0 <= i < |bs| :: bs[i].code
  }

  /** The versions the fetched periods resolved to. */
  function FetchedCodes(ws: seq<Wanted>): (r: set<string>)
    ensures forall i :: 0 <= i < |ws| && Fetched(ws[i]) ==> ws[i].code.value in r
  {
    if |ws| == 0 then {}
    else
      var w := ws[|ws| - 1];
      assert forall i :: 0 <= i < |ws| - 1 ==> ws[..|ws| - 1][i] == ws[i];
      FetchedCodes(ws[..|ws| - 1]) + (if Fetched(w) then {w.code.value} else {})
  }

  /** Batches have distinct versions, and there is one for exactly the
      versions some fetched period resolved to. */
  lemma {:induction false} BatchCodes(ws: seq<Wanted>)
    ensures DistinctCodes(BatchByCode(ws))
    ensures CodesOf(BatchByCode(ws)) == FetchedCodes(ws)
  {
    if |ws| > 0 {
      var pre := ws[..|ws| - 1];
      var w := ws[|ws| - 1];
      BatchCodes(pre);
      var bs0 := BatchByCode(pre);
      var bs := BatchByCode(ws);
      if Fetched(w) {
        var k := IndexOfCode(bs0, w.code.value);
        if k == |bs0| {
          assert CodesOf(bs) == CodesOf(bs0) + {w.code.value} by {
            assert forall i :: 0 <= i < |bs0| ==> bs[i] == bs0[i];
            assert bs[|bs0|].code == w.code.value;
          }
        } else {
          assert forall i :: 0 <= i < |bs| ==> bs[i].code == bs0[i].code;
          assert CodesOf(bs) == CodesOf(bs0);
        }
      }
    }
  }

  /** Each batch lists exactly the months of the periods resolved to its
      version, in their order. */
  lemma {:induction false} BatchMonths(ws: seq<Wanted>)
    ensures forall i :: 0 <= i < |BatchByCode(ws)| ==>
              BatchByCode(ws)[i].months == MonthsFor(ws, BatchByCode(ws)[i].code)
  {
    if |ws| > 0 {
      var pre := ws[..|ws| - 1];
      var w := ws[|ws| - 1];
      BatchMonths(pre);
      BatchCodes(pre);
      var bs0 := BatchByCode(pre);
      var bs := BatchByCode(ws);
      if Fetched(w) {
        var k := IndexOfCode(bs0, w.code.value);
        if k == |bs0| {
          MonthsForAbsent(pre, w.code.value);
        }
        forall i | 0 <= i < |bs| ensures bs[i].months == MonthsFor(ws, bs[i].code) {
          if i < |bs0| && i != k {
            assert bs[i] == bs0[i];
          }
        }
      }
    }
  }

  /** A version that some period resolved to has at least one month, so no
      batch is empty. */
  lemma {:induction false} MonthsForNonEmpty(ws: seq<Wanted>, code: string)
    requires code in FetchedCodes(ws)
    ensures |MonthsFor(ws, code)| > 0
  {
    var pre := ws[..|ws| - 1];
    var w := ws[|ws| - 1];
    if !(Fetched(w) && w.code.value == code) {
      MonthsForNonEmpty(pre, code);
    }
  }

  /** A version no fetched period resolved to has no months. */
  lemma {:induction false} MonthsForAbsent(ws: seq<Wanted>, code: string)
    requires code !in FetchedCodes(ws)
    ensures MonthsFor(ws, code) == []
  {
    if |ws| > 0 {
      MonthsForAbsent(ws[..|ws| - 1], code);
    }
  }

  /** The balance-sheet fetch's period list: the reporting period, the
      previous quarter, the same period last year and, when a year is
      selected, the prior year's closing balance (dated 31 December, stored
      under 1 December). A blank reporting period fetches nothing. */
  function BalanceSheetWanted(reporting: Period, selectedYear: Option<int>, all: seq<AnalType>,
                              scope: string, sel: Selections): (r: seq<Wanted>)
    requires ValidPeriod(reporting)
    ensures reporting.Blank? ==> r == []
    ensures reporting.On? ==> |r| == (if selectedYear.Some? then 4 else 3)
    ensures reporting.On? ==>
              r[0].month == ToMonthStart(reporting).date
              && r[0].code == AnalCodeForPeriod(reporting, all, selectedYear, scope, sel)
    ensures reporting.On? ==>
              r[1].month == ToMonthStart(PreviousQuarterEnd(reporting)).date
              && r[1].code == AnalCodeForPeriod(PreviousQuarterEnd(reporting), all, selectedYear, scope, sel)
    ensures reporting.On? ==>
              r[2].month == ToMonthStart(SamePeriodLastYear(reporting)).date
              && r[2].code == AnalCodeForPeriod(SamePeriodLastYear(reporting), all, selectedYear, scope, sel)
    ensures reporting.On? && selectedYear.Some? && |all| > 0 ==>
              r[3].month == Date(selectedYear.value - 1, 12, 1) && r[3].code == Some(ScopeCodes(scope)[1])
  {
    if reporting.Blank? then []
    else
      var prev := PreviousQuarterEnd(reporting);
      var last := SamePeriodLastYear(reporting);
      var main := [Wanted(AnalCodeForPeriod(reporting, all, selectedYear, scope, sel), ToMonthStart(reporting).date),
                   Wanted(AnalCodeForPeriod(prev, all, selectedYear, scope, sel), ToMonthStart(prev).date),
                   Wanted(AnalCodeForPeriod(last, all, selectedYear, scope, sel), ToMonthStart(last).date)];
      match selectedYear
      case None => main
      case Some(y) =>
        var close := On(Date(y - 1, 12, 31));
        main + [Wanted(AnalCodeForPeriod(close, all, selectedYear, scope, sel), ToMonthStart(close).date)]
  }

  /** The balance-sheet fetches, one per version. */
  function BalanceSheetBatches(reporting: Period, selectedYear: Option<int>, all: seq<AnalType>,
                               scope: string, sel: Selections): (r: seq<Batch>)
    requires ValidPeriod(reporting)
    ensures DistinctCodes(r)
    ensures forall i :: 0 <= i < |r| ==> |r[i].months| > 0 && r[i].code in ScopeCodes(scope)
  {
    var ws := BalanceSheetWanted(reporting, selectedYear, all, scope, sel);
    BatchCodes(ws);
    BatchMonths(ws);
    var r := BatchByCode(ws);
    forall i | 0 <= i < |r| ensures |r[i].months| > 0 && r[i].code in ScopeCodes(scope) {
      assert r[i].code in CodesOf(r);
      MonthsForNonEmpty(ws, r[i].code);
      FetchedCodesInScope(ws, scope, r[i].code);
    }
    r
  }

  lemma {:induction false} FetchedCodesInScope(ws: seq<Wanted>, scope: string, code: string)
    requires forall i :: 0 <= i < |ws| && ws[i].code.Some? ==> ws[i].code.value in ScopeCodes(scope)
    requires code in FetchedCodes(ws)
    ensures code in ScopeCodes(scope)
  {
    var pre := ws[..|ws| - 1];
    var w := ws[|ws| - 1];
    if !(Fetched(w) && w.code.value == code) {
      assert forall i :: 0 <= i < |pre| ==> pre[i] == ws[i];
      FetchedCodesInScope(pre, scope, code);
    }
  }

  /** The selector the profit-and-loss fetch uses for the previous quarter:
      the one before the selected quarter; none for the first quarter or an
      unknown selector value. */
  function PreviousQuarterSelection(selectedQuarter: string, sel: Selections): (r: Option<AnalType>)
    ensures forall q: Quarter :: q.Value() == selectedQuarter && q != Q1 ==> r == sel.Get(QuarterAt(q.Index() - 1))
    ensures selectedQuarter == Q1.Value() ==> r.None?
  {
    if selectedQuarter == "06-01" then sel.q1
    else if selectedQuarter == "09-01" then sel.q2
    else if selectedQuarter == "12-01" then sel.q3
    else None
  }

  /** The version of the previous-quarter fetch (profit and loss, cash
      flow). The first quarter has no previous-quarter period, so nothing is
      fetched and no version is chosen; any other selector value picks the
      previous quarter's selection if it is in scope, else the first
      in-scope version. */
  function PreviousQuarterCode(selectedQuarter: string, scope: string, all: seq<AnalType>,
                               sel: Selections): (r: Option<string>)
    ensures r.Some? ==> r.value in ScopeCodes(scope)
    ensures selectedQuarter == Q1.Value() ==> r.None?
    ensures selectedQuarter != Q1.Value() ==> (r.None? <==> |ScopeFilter(all, scope)| == 0)
  {
    if selectedQuarter == Q1.Value() then None
    else
      var r := ResolveCode(PreviousQuarterSelection(selectedQuarter, sel), ScopeFilter(all, scope));
      assert r.Some? ==> r.value in ScopeCodes(scope);
      r
  }

  /** That version is the one `getAnalCodeForPeriod` gives the previous
      quarter's date, so the two ways of resolving it agree. */
  lemma PreviousQuarterCodeAgrees(year: int, q: Quarter, all: seq<AnalType>, scope: string, sel: Selections)
    requires q != Q1 && |all| > 0
    ensures PreviousQuarterCode(q.Value(), scope, all, sel)
         == AnalCodeForPeriod(PreviousQuarterEnd(ReportingPeriod(year, q)), all, Some(year), scope, sel)
  {
    PreviousQuarterOfMonthStart(ReportingPeriod(year, q).date);
  }
}
