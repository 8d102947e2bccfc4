/** The path→STT index of `buildTreeByPath`: for each normalised path, the
    stt of the account that names it most directly. */
module PathIndex {
  import opened Wrappers
  import opened Types
  import opened Items

  /** `keys.join('|')`. */
  function Join(keys: seq<string>): string {
    if |keys| == 0 then ""
    else if |keys| == 1 then keys[0]
    else Join(keys[..|keys| - 1]) + "|" + keys[|keys| - 1]
  }

  /** What the index loop reads of an item: its stt, whether its path is
      non-empty, the joined path key and the count of non-empty raw levels. */
  datatype Candidate = Candidate(stt: Option<int>, hasPath: bool, key: string, depth: nat)

  function CandidateOf(it: Item): Candidate {
    Candidate(it.stt, |Path(it.account)| > 0, Join(KeyPath(it.account)), |RawNames(it.account)|)
  }

  function Candidates(items: seq<Item>): (cs: seq<Candidate>)
    ensures |cs| == |items| && forall i :: 0 <= i < |items| ==> cs[i] == CandidateOf(items[i])
  {
    seq(|items|, i requires 0 <= i < |items| => CandidateOf(items[i]))
  }

  /** An index entry: the stt and the raw level count of the item that set it. */
  datatype Entry = Entry(stt: int, depth: nat)

  /** Items that take part (an stt and a non-empty path) with a given key. */
  predicate Takes(c: Candidate, key: string) {
    c.stt.Some? && c.hasPath && c.key == key
  }

  /** The loop over items: an entry is (re)placed when the key is new or the
      item has strictly fewer raw levels than the entry's. */
  function IndexOf(cs: seq<Candidate>): map<string, Entry> {
    if |cs| == 0 then map[]
    else
      var m := IndexOf(cs[..|cs| - 1]);
      var c := cs[|cs| - 1];
      if !(c.stt.Some? && c.hasPath) then m
      else if c.key !in m || c.depth < m[c.key].depth then m[c.key := Entry(c.stt.value, c.depth)]
      else m
  }

  function Index(items: seq<Item>): map<string, Entry> {
    IndexOf(Candidates(items))
  }

  /** The stt the index gives a path key, if any. */
  function SttFor(m: map<string, Entry>, key: string): Option<int> {
    if key in m then Some(m[key].stt) else None
  }

  /** A key is indexed iff some taking-part item has it. */
  lemma {:induction false} IndexKeys(cs: seq<Candidate>, key: string)
    ensures key in IndexOf(cs) <==> exists i :: 0 <= i < |cs| && Takes(cs[i], key)
  {
    if |cs| > 0 {
      var pre := cs[..|cs| - 1];
      IndexKeys(pre, key);
      assert forall i :: 0 <= i < |pre| ==> pre[i] == cs[i];
      if Takes(cs[|cs| - 1], key) {
        assert key in IndexOf(cs);
      }
    }
  }

  /** No item with the key has fewer raw levels than the entry. */
  lemma {:induction false} IndexFewest(cs: seq<Candidate>, key: string, i: int)
    requires 0 <= i < |cs| && Takes(cs[i], key)
    ensures key in IndexOf(cs) && IndexOf(cs)[key].depth <= cs[i].depth
  {
    var pre := cs[..|cs| - 1];
    var c := cs[|cs| - 1];
    if i < |cs| - 1 {
      assert pre[i] == cs[i];
      IndexFewest(pre, key, i);
    }
  }

  /** The entry is the earliest item among those with the fewest raw levels:
      it comes from an item with the key, and every earlier item with the key
      has strictly more levels. */
  lemma {:induction false} IndexEarliest(cs: seq<Candidate>, key: string)
    requires key in IndexOf(cs)
    ensures exists i :: 0 <= i < |cs| && Takes(cs[i], key)
              && IndexOf(cs)[key] == Entry(cs[i].stt.value, cs[i].depth)
              && forall j :: 0 <= j < i && Takes(cs[j], key) ==> cs[j].depth > cs[i].depth
  {
    var pre := cs[..|cs| - 1];
    var c := cs[|cs| - 1];
    var m := IndexOf(pre);
    assert forall i :: 0 <= i < |pre| ==> pre[i] == cs[i];
    if Takes(c, key) && (key !in m || c.depth < m[key].depth) {
      var w := |cs| - 1;
      forall j | 0 <= j < w && Takes(cs[j], key) ensures cs[j].depth > cs[w].depth {
        IndexFewest(pre, key, j);
      }
    } else {
      assert IndexOf(cs)[key] == m[key];
      IndexEarliest(pre, key);
      var w :| 0 <= w < |pre| && Takes(pre[w], key)
              && m[key] == Entry(pre[w].stt.value, pre[w].depth)
              && forall j :: 0 <= j < w && Takes(pre[j], key) ==> pre[j].depth > pre[w].depth;
      assert cs[w] == pre[w];
    }
  }
}
