/** Flattening accounts into tree-builder items: the canonical label path of
    an account and the join of fetched facts onto accounts. */
module Items {
  import opened Wrappers
  import opened Labels
  import opened Periods
  import opened Types

  // ---------------------------------------------------------------------
  // Canonical label path.

  /** The account's non-empty levels, top first. */
  function RawNames(a: DAccount): (r: seq<string>)
    ensures |r| <= 4
    ensures forall i :: 0 <= i < |r| ==> r[i] != ""
  {
    (if Truthy(a.lv1) then [a.lv1.value] else [])
    + (if Truthy(a.lv2) then [a.lv2.value] else [])
    + (if Truthy(a.lv3) then [a.lv3.value] else [])
    + (if Truthy(a.lv4) then [a.lv4.value] else [])
  }

  /** The fold of `getNormalizedAccountPath`: a name is appended unless it
      normalises like the last name kept. */
  function CollapseRepeats(names: seq<string>): (r: seq<string>)
    ensures |r| <= |names|
    ensures |names| > 0 ==> |r| > 0 && Normalize(r[|r| - 1]) == Normalize(names[|names| - 1])
    ensures forall j :: 0 <= j < |r| ==> r[j] in names
  {
    if |names| == 0 then []
    else
      var acc := CollapseRepeats(names[..|names| - 1]);
      var cur := names[|names| - 1];
      assert forall j :: 0 <= j < |acc| ==> acc[j] in names[..|names| - 1] ==> acc[j] in names;
      if |acc| == 0 || Normalize(acc[|acc| - 1]) != Normalize(cur) then acc + [cur] else acc
  }

  /** `getNormalizedAccountPath`. */
  function Path(a: DAccount): seq<string> {
    CollapseRepeats(RawNames(a))
  }

  /** The path as node keys: every name normalised. */
  function KeyPath(a: DAccount): (r: seq<string>)
    ensures |r| == |Path(a)|
    ensures forall i :: 0 <= i < |r| ==> r[i] == Normalize(Path(a)[i])
  {
    var p := Path(a);
    seq(|p|, i requires 0 <= i < |p| => Normalize(p[i]))
  }

  /** Each node key is already in canonical form, there are at most four,
      and no key repeats its parent's: the keys name a chain of distinct
      tree levels. */
  lemma KeyPathCanonical(a: DAccount)
    ensures |KeyPath(a)| <= 4
    ensures forall i :: 0 <= i < |KeyPath(a)| ==> Normalize(KeyPath(a)[i]) == KeyPath(a)[i]
    ensures forall j :: 0 <= j < |KeyPath(a)| - 1 ==> KeyPath(a)[j] != KeyPath(a)[j + 1]
  {
    var r := KeyPath(a);
    forall i | 0 <= i < |r| ensures Normalize(r[i]) == r[i] {
      NormalizeIdempotent(Path(a)[i]);
    }
    CollapseRepeatsNoAdjacent(RawNames(a));
  }

  /** No two adjacent entries of a collapsed path normalise alike. */
  predicate NoAdjacentAlike(r: seq<string>) {
    forall j :: 0 <= j < |r| - 1 ==> Normalize(r[j]) != Normalize(r[j + 1])
  }

  lemma NoAdjacentAlikeSnoc(acc: seq<string>, cur: string)
    requires NoAdjacentAlike(acc)
    requires |acc| == 0 || Normalize(acc[|acc| - 1]) != Normalize(cur)
    ensures NoAdjacentAlike(acc + [cur])
  {
    var r := acc + [cur];
    forall j | 0 <= j < |r| - 1 ensures Normalize(r[j]) != Normalize(r[j + 1]) {
      assert r[j] == acc[j];
      if j < |acc| - 1 {
        assert r[j + 1] == acc[j + 1];
      } else {
        assert r[j + 1] == cur;
      }
    }
  }

  lemma {:induction false} CollapseRepeatsNoAdjacent(names: seq<string>)
    ensures NoAdjacentAlike(CollapseRepeats(names))
  {
    if |names| > 0 {
      var acc := CollapseRepeats(names[..|names| - 1]);
      var cur := names[|names| - 1];
      CollapseRepeatsNoAdjacent(names[..|names| - 1]);
      if |acc| == 0 || Normalize(acc[|acc| - 1]) != Normalize(cur) {
        NoAdjacentAlikeSnoc(acc, cur);
      } else {
        assert CollapseRepeats(names) == acc;
      }
    }
  }

  /** Independent description: keep exactly the names that start a run of
      names normalising alike, in order, with their own spelling. */
  function RunStarts(names: seq<string>): seq<string> {
    if |names| == 0 then []
    else
      var n := |names|;
      RunStarts(names[..n - 1])
      + (if n == 1 || Normalize(names[n - 2]) != Normalize(names[n - 1]) then [names[n - 1]] else [])
  }

  lemma {:induction false} CollapseRepeatsIsRunStarts(names: seq<string>)
    ensures CollapseRepeats(names) == RunStarts(names)
  {
    if |names| > 0 {
      var n := |names|;
      CollapseRepeatsIsRunStarts(names[..n - 1]);
      if n > 1 {
        assert names[..n - 1][n - 2] == names[n - 2];
      }
    }
  }

  /** Every kept name is a run start, and the kept names appear in the raw
      order: the path is a subsequence of the raw names. */
  predicate SubsequenceOf(r: seq<string>, s: seq<string>)
    decreases |s|
  {
    if |r| == 0 then true
    else if |s| == 0 then false
    else if r[0] == s[0] then SubsequenceOf(r[1..], s[1..])
    else SubsequenceOf(r, s[1..])
  }

  lemma {:induction false} SubsequenceAppend(r: seq<string>, s: seq<string>, x: string)
    requires SubsequenceOf(r, s)
    ensures SubsequenceOf(r + [x], s + [x])
    ensures SubsequenceOf(r, s + [x])
    decreases |s|
  {
    if |r| == 0 {
      if |s| > 0 {
        assert (s + [x])[1..] == s[1..] + [x];
        SubsequenceAppend(r, s[1..], x);
      } else {
        assert ([] + [x])[1..] == [];
        assert (r + [x])[1..] == [];
      }
    } else if r[0] == s[0] {
      assert (r + [x])[1..] == r[1..] + [x];
      assert (s + [x])[1..] == s[1..] + [x];
      SubsequenceAppend(r[1..], s[1..], x);
    } else {
      assert (s + [x])[1..] == s[1..] + [x];
      SubsequenceAppend(r, s[1..], x);
    }
  }

  lemma {:induction false} RunStartsSubsequence(names: seq<string>)
    ensures SubsequenceOf(RunStarts(names), names)
  {
    if |names| > 0 {
      var n := |names|;
      var pre := RunStarts(names[..n - 1]);
      RunStartsSubsequence(names[..n - 1]);
      SubsequenceAppend(pre, names[..n - 1], names[n - 1]);
      assert names == names[..n - 1] + [names[n - 1]];
      if n == 1 || Normalize(names[n - 2]) != Normalize(names[n - 1]) {
        assert RunStarts(names) == pre + [names[n - 1]];
      } else {
        assert RunStarts(names) == pre;
      }
    }
  }

  /** The properties of `getNormalizedAccountPath` together: at most four
      non-empty names, a subsequence of the account's non-empty levels
      keeping the spelling that starts each run, with no two adjacent
      entries alike after normalisation. */
  lemma PathSpec(a: DAccount)
    ensures |Path(a)| <= 4
    ensures forall j :: 0 <= j < |Path(a)| ==> Path(a)[j] != ""
    ensures SubsequenceOf(Path(a), RawNames(a))
    ensures Path(a) == RunStarts(RawNames(a))
    ensures NoAdjacentAlike(Path(a))
  {
    CollapseRepeatsIsRunStarts(RawNames(a));
    RunStartsSubsequence(RawNames(a));
    CollapseRepeatsNoAdjacent(RawNames(a));
  }

  lemma PathExample()
    ensures Path(DAccount(None, Some("A"), Some("A"), Some("B"), None)) == ["A", "B"]
  {
    var a := DAccount(None, Some("A"), Some("A"), Some("B"), None);
    assert RawNames(a) == ["A", "A", "B"];
    assert ["A", "A", "B"][..2] == ["A", "A"];
    assert ["A", "A"][..1] == ["A"];
    assert ["A"][..0] == [];
    assert Normalize("A") != Normalize("B") by {
      assert Trim("A") == "A" && Trim("B") == "B";
      assert Upper("A") == "A" && Upper("B") == "B";
      assert Collapse("A") == "A" && Collapse("B") == "B";
    }
  }

  // ---------------------------------------------------------------------
  // Joining facts onto accounts.

  /** A netted fact: the fact id (`id_tckt`), its date string, its amount. */
  datatype Fact = Fact(id: int, date: Period, value: real)

  /** The month each axis reads; `Blank` for an axis that is not fetched
      (a null or empty month string). */
  datatype Months = Months(start: Period, end: Period, prevQuarter: Period,
                           samePeriodLastYear: Period, beginningOfYear: Period)
  {
    function Get(a: Axis): Period {
      match a
      case Start => start
      case End => end
      case PrevQuarter => prevQuarter
      case SamePeriodLastYear => samePeriodLastYear
      case BeginningOfYear => beginningOfYear
    }
  }

  /** The `factMap` of `makeItemsFrom`, keyed by (fact id, date); facts
      without a date are skipped and a later fact overwrites an earlier one
      with the same key. */
  function FactMap(facts: seq<Fact>): map<(int, Date), real> {
    if |facts| == 0 then map[]
    else
      var m := FactMap(facts[..|facts| - 1]);
      var f := facts[|facts| - 1];
      if f.date.Blank? then m else m[(f.id, f.date.date) := f.value]
  }

  /** Reference: the value of the last dated fact with that id and date. */
  function LastFact(facts: seq<Fact>, id: int, d: Date): Option<real> {
    if |facts| == 0 then None
    else
      var f := facts[|facts| - 1];
      if f.id == id && f.date == On(d) then Some(f.value) else LastFact(facts[..|facts| - 1], id, d)
  }

  lemma {:induction false} FactMapLastWins(facts: seq<Fact>, id: int, d: Date)
    ensures (id, d) in FactMap(facts) <==> LastFact(facts, id, d).Some?
    ensures (id, d) in FactMap(facts) ==> LastFact(facts, id, d) == Some(FactMap(facts)[(id, d)])
  {
    if |facts| > 0 {
      FactMapLastWins(facts[..|facts| - 1], id, d);
    }
  }

  /** `factMap.get(`${stt}|${month}`) ?? null`; a blank month finds nothing
      because dateless facts never enter the map. */
  function Lookup(m: map<(int, Date), real>, id: int, month: Period): Option<real> {
    if month.On? && (id, month.date) in m then Some(m[(id, month.date)]) else None
  }

  /** An item of `makeItemsFrom`; its id is `row-{rowIndex}`. */
  datatype Item = Item(rowIndex: nat, level: int, stt: Option<int>, name: string,
                       values: Amounts, account: DAccount)

  /** Level `k` (1..4) of an account. */
  function LevelName(a: DAccount, k: int): Option<string>
    requires 1 <= k <= 4
  {
    if k == 1 then a.lv1 else if k == 2 then a.lv2 else if k == 3 then a.lv3 else a.lv4
  }

  /** The deepest non-empty level's number (1 when none is). */
  function LevelOf(a: DAccount): (l: int)
    ensures 1 <= l <= 4
    ensures l > 1 ==> Truthy(LevelName(a, l))
    ensures forall k :: l < k <= 4 ==> !Truthy(LevelName(a, k))
    ensures |RawNames(a)| > 0 ==> l >= |RawNames(a)|
  {
    if Truthy(a.lv4) then 4 else if Truthy(a.lv3) then 3 else if Truthy(a.lv2) then 2 else 1
  }

  /** The deepest non-empty label, or "". */
  function LabelOf(a: DAccount): (s: string)
    ensures |RawNames(a)| > 0 ==> s == RawNames(a)[|RawNames(a)| - 1]
    ensures |RawNames(a)| == 0 ==> s == ""
  {
    if Truthy(a.lv4) then a.lv4.value
    else if Truthy(a.lv3) then a.lv3.value
    else if Truthy(a.lv2) then a.lv2.value
    else OrEmpty(if Truthy(a.lv1) then a.lv1 else None)
  }

  function ItemOf(a: DAccount, idx: nat, m: map<(int, Date), real>, months: Months): Item {
    var vals := match a.stt
      case None => NoAmounts
      case Some(id) => Amounts(Lookup(m, id, months.start), Lookup(m, id, months.end),
                               Lookup(m, id, months.prevQuarter), Lookup(m, id, months.samePeriodLastYear),
                               Lookup(m, id, months.beginningOfYear));
    Item(idx, LevelOf(a), a.stt, LabelOf(a), vals, a)
  }

  /** `makeItemsFrom`: one item per account, in order. An account without
      an stt has no amounts; otherwise each axis holds the last fact with
      the account's id on that axis's month, or nothing. */
  function MakeItems(accounts: seq<DAccount>, facts: seq<Fact>, months: Months): (r: seq<Item>)
    ensures |r| == |accounts|
    ensures forall i :: 0 <= i < |r| ==>
              r[i].rowIndex == i && r[i].account == accounts[i] && r[i].stt == accounts[i].stt
    ensures forall i :: 0 <= i < |r| && accounts[i].stt.None? ==> r[i].values == NoAmounts
    ensures forall i, a: Axis :: 0 <= i < |r| && accounts[i].stt.Some? ==>
              r[i].values.Get(a) == (if months.Get(a).On?
                                     then LastFact(facts, accounts[i].stt.value, months.Get(a).date) else None)
  {
    var m := FactMap(facts);
    var r := seq(|accounts|, i requires 0 <= i < |accounts| => ItemOf(accounts[i], i, m, months));
    forall i, a: Axis | 0 <= i < |r| && accounts[i].stt.Some?
      ensures r[i].values.Get(a) == (if months.Get(a).On?
                                     then LastFact(facts, accounts[i].stt.value, months.Get(a).date) else None)
    {
      if months.Get(a).On? {
        FactMapLastWins(facts, accounts[i].stt.value, months.Get(a).date);
      }
    }
    r
  }
}
