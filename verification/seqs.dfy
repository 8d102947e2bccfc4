/** Sequence helpers shared by the model: sums of amounts and
    first-occurrence de-duplication. */
module Seqs {

  /** Sum of a sequence of amounts, folded from the left like `reduce`. */
  function Sum(s: seq<real>): real
    decreases |s|
  {
    if |s| == 0 then 0.0 else Sum(s[..|s| - 1]) + s[|s| - 1]
  }

  lemma {:induction false} SumConcat(a: seq<real>, b: seq<real>)
    ensures Sum(a + b) == Sum(a) + Sum(b)
    decreases |b|
  {
    if |b| == 0 {
      assert a + b == a;
    } else {
      assert (a + b)[..|a + b| - 1] == a + b[..|b| - 1];
      SumConcat(a, b[..|b| - 1]);
    }
  }

  lemma SumSingleton(x: real)
    ensures Sum([x]) == x
  {
    assert [x][..0] == [];
  }

  /** No element occurs twice. */
  predicate NoDuplicates<T(==)>(s: seq<T>) {
    forall i, j :: 0 <= i < j < |s| ==> s[i] != s[j]
  }

  /** The distinct elements of `s` in order of first occurrence
      (JavaScript's `[...new Set(xs)]`). */
  function Distinct<T(==)>(s: seq<T>): (r: seq<T>)
    ensures NoDuplicates(r)
    ensures forall i :: 0 <= i < |r| ==> r[i] in s
    ensures forall i :: 0 <= i < |s| ==> s[i] in r
    decreases |s|
  {
    if |s| == 0 then []
    else
      var d := Distinct(s[..|s| - 1]);
      assert s == s[..|s| - 1] + [s[|s| - 1]];
      if s[|s| - 1] in d then d else d + [s[|s| - 1]]
  }

  lemma DistinctSnoc<T>(s: seq<T>, x: T)
    ensures Distinct(s + [x]) == if x in s then Distinct(s) else Distinct(s) + [x]
  {
    assert (s + [x])[..|s|] == s;
    if x in s {
      var i :| 0 <= i < |s| && s[i] == x;
      assert x in Distinct(s);
    }
  }

  /** Distinct keeps first-occurrence order: whatever appears earlier in
      the result was first seen earlier in the input. */
  lemma {:induction false} DistinctFirstSeenOrder<T>(s: seq<T>, i: nat, j: nat)
    requires i < j < |Distinct(s)|
    ensures FirstIndex(s, Distinct(s)[i]) < FirstIndex(s, Distinct(s)[j])
    decreases |s|
  {
    var p := s[..|s| - 1];
    var d := Distinct(p);
    var x := s[|s| - 1];
    assert s == p + [x];
    FirstIndexPrefix(p, x, Distinct(s)[i]);
    FirstIndexPrefix(p, x, Distinct(s)[j]);
    if x in d {
      DistinctFirstSeenOrder(p, i, j);
    } else if j < |d| {
      DistinctFirstSeenOrder(p, i, j);
    } else {
      assert Distinct(s)[j] == x;
      assert Distinct(s)[i] in p;
      FirstIndexBound(p, Distinct(s)[i]);
    }
  }

  /** Position of the first occurrence of `x` in `s` (or `|s|` if absent). */
  function FirstIndex<T(==)>(s: seq<T>, x: T): (k: nat)
    ensures k <= |s|
    ensures k < |s| ==> s[k] == x
    ensures forall m :: 0 <= m < k ==> s[m] != x
    ensures x in s ==> k < |s|
  {
    if |s| == 0 then 0
    else if s[0] == x then 0
    else 1 + FirstIndex(s[1..], x)
  }

  lemma FirstIndexPrefix<T>(p: seq<T>, x: T, y: T)
    requires y in p || y == x
    ensures y in p ==> FirstIndex(p + [x], y) == FirstIndex(p, y)
    ensures y !in p ==> FirstIndex(p + [x], y) == |p|
  {
    var k := FirstIndex(p + [x], y);
    if y in p {
      var k' := FirstIndex(p, y);
      assert (p + [x])[k'] == y;
    }
  }

  lemma FirstIndexBound<T>(p: seq<T>, y: T)
    requires y in p
    ensures FirstIndex(p, y) < |p|
  {
  }
}
