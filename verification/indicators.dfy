/** Resolving an indicator name to the stts of the accounts it names: the
    first level at which some account's normalised label equals the
    normalised name decides, and every account matching there contributes
    its stt. */
module Indicators {
  import opened Wrappers
  import opened Seqs
  import opened Labels
  import opened Types

  /** The label of an account at level 1 to 4. */
  function LabelAt(a: DAccount, level: int): Option<string>
    requires 1 <= level <= 4
  {
    if level == 1 then a.lv1 else if level == 2 then a.lv2 else if level == 3 then a.lv3 else a.lv4
  }

  /** Whether an account's label at a level normalises to the query (a
      missing label normalises as the empty string). */
  predicate MatchesAt(a: DAccount, level: int, query: string)
    requires 1 <= level <= 4
  {
    Normalize(OrEmpty(LabelAt(a, level))) == Normalize(query)
  }

  predicate AnyAt(accounts: seq<DAccount>, level: int, query: string)
    requires 1 <= level <= 4
  {
    exists i :: 0 <= i < |accounts| && MatchesAt(accounts[i], level, query)
  }

  /** The first level, from `from` up to 4, with a match. */
  function FirstLevelFrom(accounts: seq<DAccount>, query: string, from: int): (r: Option<int>)
    requires 1 <= from <= 5
    ensures r.Some? ==> from <= r.value <= 4 && AnyAt(accounts, r.value, query)
    ensures forall l :: from <= l <= 4 && (r.None? || l < r.value) ==> !AnyAt(accounts, l, query)
    decreases 5 - from
  {
    if from == 5 then None
    else if AnyAt(accounts, from, query) then Some(from)
    else FirstLevelFrom(accounts, query, from + 1)
  }

  /** The stts of the accounts matching at a level, nulls dropped, in
      account order. */
  function SttsAt(accounts: seq<DAccount>, level: int, query: string): seq<int>
    requires 1 <= level <= 4
  {
    if |accounts| == 0 then []
    else
      var a := accounts[|accounts| - 1];
      SttsAt(accounts[..|accounts| - 1], level, query)
      + (if MatchesAt(a, level, query) && a.stt.Some? then [a.stt.value] else [])
  }

  /** `getSttsForIndicator` over the fetched accounts. */
  function SttsForIndicator(accounts: seq<DAccount>, query: string): seq<int> {
    match FirstLevelFrom(accounts, query, 1)
    case None => []
    case Some(l) => Distinct(SttsAt(accounts, l, query))
  }

  lemma {:induction false} SttsAtMembers(accounts: seq<DAccount>, level: int, query: string, x: int)
    requires 1 <= level <= 4
    ensures x in SttsAt(accounts, level, query) <==>
              exists i :: 0 <= i < |accounts| && MatchesAt(accounts[i], level, query) && accounts[i].stt == Some(x)
  {
    if |accounts| > 0 {
      var pre := accounts[..|accounts| - 1];
      SttsAtMembers(pre, level, query, x);
      assert forall i :: 0 <= i < |pre| ==> pre[i] == accounts[i];
    }
  }

  /** With no matching label at any level the result is empty; otherwise
      the result holds, once each and in first-occurrence order, exactly
      the non-null stts of the accounts matching at the first matching
      level, and no earlier level has a match. */
  lemma SttsForIndicatorSpec(accounts: seq<DAccount>, query: string)
    ensures (forall l :: 1 <= l <= 4 ==> !AnyAt(accounts, l, query)) ==> SttsForIndicator(accounts, query) == []
    ensures NoDuplicates(SttsForIndicator(accounts, query))
    ensures forall l :: 1 <= l <= 4 && AnyAt(accounts, l, query) && (forall m :: 1 <= m < l ==> !AnyAt(accounts, m, query)) ==>
              forall x :: x in SttsForIndicator(accounts, query) <==>
                exists i :: 0 <= i < |accounts| && MatchesAt(accounts[i], l, query) && accounts[i].stt == Some(x)
  {
    var r := FirstLevelFrom(accounts, query, 1);
    forall l | 1 <= l <= 4 && AnyAt(accounts, l, query) && (forall m :: 1 <= m < l ==> !AnyAt(accounts, m, query))
      ensures forall x :: x in SttsForIndicator(accounts, query) <==>
                exists i :: 0 <= i < |accounts| && MatchesAt(accounts[i], l, query) && accounts[i].stt == Some(x)
    {
      assert r == Some(l);
      forall x ensures x in SttsForIndicator(accounts, query) <==>
                exists i :: 0 <= i < |accounts| && MatchesAt(accounts[i], l, query) && accounts[i].stt == Some(x)
      {
        SttsAtMembers(accounts, l, query, x);
        DistinctMembers(SttsAt(accounts, l, query), x);
      }
    }
  }

  /** The first matching level decides the list, which is that level's
      stts de-duplicated in first-occurrence order, as `[...new Set(xs)]`
      gives. */
  lemma SttsForIndicatorOrder(accounts: seq<DAccount>, query: string, l: int)
    requires 1 <= l <= 4 && AnyAt(accounts, l, query)
    requires forall m :: 1 <= m < l ==> !AnyAt(accounts, m, query)
    ensures SttsForIndicator(accounts, query) == Distinct(SttsAt(accounts, l, query))
    ensures forall i, j :: 0 <= i < j < |SttsForIndicator(accounts, query)| ==>
              FirstIndex(SttsAt(accounts, l, query), SttsForIndicator(accounts, query)[i])
              < FirstIndex(SttsAt(accounts, l, query), SttsForIndicator(accounts, query)[j])
  {
    assert FirstLevelFrom(accounts, query, 1) == Some(l);
    forall i, j | 0 <= i < j < |SttsForIndicator(accounts, query)|
      ensures FirstIndex(SttsAt(accounts, l, query), SttsForIndicator(accounts, query)[i])
            < FirstIndex(SttsAt(accounts, l, query), SttsForIndicator(accounts, query)[j])
    {
      DistinctFirstSeenOrder(SttsAt(accounts, l, query), i, j);
    }
  }

  lemma DistinctMembers(s: seq<int>, x: int)
    ensures x in Distinct(s) <==> x in s
  {
    if x in s {
      var i :| 0 <= i < |s| && s[i] == x;
    }
    if x in Distinct(s) {
      var i :| 0 <= i < |Distinct(s)| && Distinct(s)[i] == x;
    }
  }
}
