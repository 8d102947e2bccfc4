/** Netting of the fetched fact rows: the rows of several batches may
    repeat an (stt, date) pair, and the tree is fed one fact per pair
    holding their sum. */
module FactNetting {
  import opened Seqs
  import opened Periods
  import opened Items

  /** The netting key, `${id_tckt}|${date}`. */
  datatype Key = Key(id: int, date: Period)

  function KeyOf(f: Fact): Key {
    Key(f.id, f.date)
  }

  function Keys(facts: seq<Fact>): (ks: seq<Key>)
    ensures |ks| == |facts| && forall i :: 0 <= i < |facts| ==> ks[i] == KeyOf(facts[i])
  {
    seq(|facts|, i requires 0 <= i < |facts| => KeyOf(facts[i]))
  }

  /** The position of a key among netted facts, or their count if absent. */
  function Position(net: seq<Fact>, k: Key): (p: nat)
    ensures p <= |net|
    ensures p < |net| ==> KeyOf(net[p]) == k
    ensures p == |net| ==> forall i :: 0 <= i < |net| ==> KeyOf(net[i]) != k
  {
    if |net| == 0 then 0
    else if KeyOf(net[|net| - 1]) == k && Position(net[..|net| - 1], k) == |net| - 1 then |net| - 1
    else if Position(net[..|net| - 1], k) < |net| - 1 then Position(net[..|net| - 1], k)
    else |net|
  }

  /** One row into the map: a new key is appended, a known one grows. */
  function Add(net: seq<Fact>, f: Fact): seq<Fact> {
    var p := Position(net, KeyOf(f));
    if p < |net| then net[p := net[p].(value := net[p].value + f.value)]
    else net + [f]
  }

  /** The netting loop, then `Array.from(map.entries())`. */
  function Net(raw: seq<Fact>): seq<Fact> {
    if |raw| == 0 then [] else Add(Net(raw[..|raw| - 1]), raw[|raw| - 1])
  }

  /** Reference: the values of the raw rows with a key. */
  function ValuesOf(raw: seq<Fact>, k: Key): seq<real> {
    if |raw| == 0 then []
    else ValuesOf(raw[..|raw| - 1], k) + (if KeyOf(raw[|raw| - 1]) == k then [raw[|raw| - 1].value] else [])
  }

  function Values(facts: seq<Fact>): (vs: seq<real>)
    ensures |vs| == |facts| && forall i :: 0 <= i < |facts| ==> vs[i] == facts[i].value
  {
    seq(|facts|, i requires 0 <= i < |facts| => facts[i].value)
  }

  lemma KeysSnoc(net: seq<Fact>, f: Fact)
    ensures Keys(net + [f]) == Keys(net) + [KeyOf(f)]
  {
  }

  lemma KeysUpdate(net: seq<Fact>, p: nat, v: real)
    requires p < |net|
    ensures Keys(net[p := net[p].(value := v)]) == Keys(net)
  {
  }

  /** Adding a row keeps the keys, or appends the row's key when it is new. */
  lemma AddKeys(net: seq<Fact>, f: Fact)
    ensures Keys(Add(net, f)) == if KeyOf(f) in Keys(net) then Keys(net) else Keys(net) + [KeyOf(f)]
  {
    var p := Position(net, KeyOf(f));
    if p < |net| {
      KeysUpdate(net, p, net[p].value + f.value);
      assert Keys(net)[p] == KeyOf(f);
    } else {
      KeysSnoc(net, f);
      assert KeyOf(f) !in Keys(net) by {
        forall i | 0 <= i < |net| ensures Keys(net)[i] != KeyOf(f) {
        }
      }
    }
  }

  /** The netted keys are the raw keys, once each, in first-seen order. */
  lemma {:induction false} NetKeys(raw: seq<Fact>)
    ensures Keys(Net(raw)) == Distinct(Keys(raw))
  {
    if |raw| > 0 {
      var pre := raw[..|raw| - 1];
      var f := raw[|raw| - 1];
      NetKeys(pre);
      var net := Net(pre);
      assert Net(raw) == Add(net, f);
      assert raw == pre + [f];
      KeysSnoc(pre, f);
      DistinctSnoc(Keys(pre), KeyOf(f));
      assert KeyOf(f) in Keys(pre) <==> KeyOf(f) in Distinct(Keys(pre));
      AddKeys(net, f);
    }
  }

  /** Each netted fact holds the sum of the raw rows sharing its key. */
  lemma {:induction false} NetSums(raw: seq<Fact>, i: nat)
    requires i < |Net(raw)|
    ensures Net(raw)[i].value == Sum(ValuesOf(raw, KeyOf(Net(raw)[i])))
  {
    var pre := raw[..|raw| - 1];
    var f := raw[|raw| - 1];
    var net := Net(pre);
    var k := KeyOf(Net(raw)[i]);
    var p := Position(net, KeyOf(f));
    if i < |net| {
      NetSums(pre, i);
      assert KeyOf(net[i]) == k by {
        if p < |net| {
          assert Net(raw) == net[p := net[p].(value := net[p].value + f.value)];
        }
      }
    }
    if KeyOf(f) == k {
      SumConcat(ValuesOf(pre, k), [f.value]);
      SumSingleton(f.value);
      if p < |net| {
        assert Net(raw) == net[p := net[p].(value := net[p].value + f.value)];
        NetKeysDistinct(pre);
        assert i == p;
      } else {
        assert i == |net|;
        assert ValuesOf(pre, k) == [] by {
          AbsentKeyValues(pre, k);
        }
      }
    } else {
      assert ValuesOf(raw, k) == ValuesOf(pre, k);
      if p < |net| {
        assert i != p;
      }
    }
  }

  lemma NetKeysDistinct(raw: seq<Fact>)
    ensures forall i, j :: 0 <= i < j < |Net(raw)| ==> KeyOf(Net(raw)[i]) != KeyOf(Net(raw)[j])
  {
    NetKeys(raw);
    assert NoDuplicates(Keys(Net(raw)));
  }

  /** A key that netting has not seen has no raw rows. */
  lemma {:induction false} AbsentKeyValues(raw: seq<Fact>, k: Key)
    requires forall i :: 0 <= i < |Net(raw)| ==> KeyOf(Net(raw)[i]) != k
    ensures ValuesOf(raw, k) == []
  {
    if |raw| > 0 {
      var pre := raw[..|raw| - 1];
      var f := raw[|raw| - 1];
      NetKeys(raw);
      assert Keys(raw)[|raw| - 1] == KeyOf(f);
      assert KeyOf(f) in Keys(Net(raw));
      NetKeys(pre);
      assert forall i :: 0 <= i < |Net(pre)| ==> KeyOf(Net(pre)[i]) != k by {
        forall i | 0 <= i < |Net(pre)| ensures KeyOf(Net(pre)[i]) != k {
          assert Keys(Net(pre))[i] in Keys(pre);
          assert Keys(pre) == Keys(raw)[..|raw| - 1];
          var j :| 0 <= j < |pre| && Keys(pre)[j] == KeyOf(Net(pre)[i]);
          assert Keys(raw)[j] in Keys(Net(raw));
        }
      }
      AbsentKeyValues(pre, k);
    }
  }

  /** Netting conserves the grand total. */
  lemma {:induction false} NetConserves(raw: seq<Fact>)
    ensures Sum(Values(Net(raw))) == Sum(Values(raw))
  {
    if |raw| > 0 {
      var pre := raw[..|raw| - 1];
      var f := raw[|raw| - 1];
      NetConserves(pre);
      var net := Net(pre);
      assert Values(raw) == Values(pre) + [f.value];
      SumConcat(Values(pre), [f.value]);
      SumSingleton(f.value);
      var p := Position(net, KeyOf(f));
      if p < |net| {
        SumUpdate(Values(net), p, f.value);
        assert Values(Net(raw)) == Values(net)[p := Values(net)[p] + f.value];
      } else {
        assert Values(Net(raw)) == Values(net) + [f.value];
        SumConcat(Values(net), [f.value]);
      }
    }
  }

  /** Growing one entry grows the sum by as much. */
  lemma {:induction false} SumUpdate(s: seq<real>, p: nat, d: real)
    requires p < |s|
    ensures Sum(s[p := s[p] + d]) == Sum(s) + d
  {
    var t := s[p := s[p] + d];
    if p == |s| - 1 {
      assert t[..|t| - 1] == s[..|s| - 1];
    } else {
      SumUpdate(s[..|s| - 1], p, d);
      assert t[..|t| - 1] == s[..|s| - 1][p := s[p] + d];
    }
  }
}
