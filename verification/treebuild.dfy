/** The forest of `buildTreeByPath` before aggregation: items are inserted
    one after another along their normalised paths, creating nodes on first
    sight, and each item's own amounts are added at its terminal node. */
module TreeBuild {
  import opened Wrappers
  import opened Seqs
  import opened Labels
  import opened Types
  import opened Items
  import opened PathIndex

  /** What insertion reads of an item: its path spelled as in the account,
      the same path normalised, whether it carries an stt, and its amounts. */
  datatype Placed = Placed(names: seq<string>, keys: seq<string>, deposit: bool, values: Amounts)

  predicate WellKeyed(names: seq<string>, keys: seq<string>) {
    |names| == |keys| && forall i :: 0 <= i < |names| ==> keys[i] == Normalize(names[i])
  }

  function PlacedOf(it: Item): (p: Placed)
    ensures WellKeyed(p.names, p.keys)
  {
    Placed(Path(it.account), KeyPath(it.account), it.stt.Some?, it.values)
  }

  function Placeds(items: seq<Item>): (ps: seq<Placed>)
    ensures |ps| == |items| && forall i :: 0 <= i < |items| ==> ps[i] == PlacedOf(items[i])
  {
    seq(|items|, i requires 0 <= i < |items| => PlacedOf(items[i]))
  }

  /** The sibling holding a key (`childMap.get`), or `|rows|` if none does. */
  function IndexOfKey(rows: seq<Row>, key: string): (k: nat)
    ensures k <= |rows|
    ensures k < |rows| ==> rows[k].id.key == key
    ensures forall i :: 0 <= i < k ==> rows[i].id.key != key
  {
    if |rows| == 0 then 0
    else if rows[0].id.key == key then 0
    else 1 + IndexOfKey(rows[1..], key)
  }

  /** `getOrCreate`'s new node: the trimmed label, the depth as level, the
      sibling count as ordinal, the stt indexed for its full path, and the
      total marker read from the raw label. */
  function NewRow(raw: string, key: string, parentKeys: seq<string>, ordinal: nat,
                  idx: map<string, Entry>): Row
  {
    Row(NodeId(|parentKeys| + 1, key, ordinal), Trim(raw), |parentKeys| + 1,
        SttFor(idx, Join(parentKeys + [key])), IsTotalLabel(raw), NoAmounts, NoDerived, false, [])
  }

  /** The sibling for the first key: the existing one, or a new node. */
  function GetOrCreate(rows: seq<Row>, raw: string, key: string, parentKeys: seq<string>,
                       idx: map<string, Entry>): Row
  {
    var k := IndexOfKey(rows, key);
    if k < |rows| then rows[k] else NewRow(raw, key, parentKeys, |rows|, idx)
  }

  /** Puts the updated sibling back in place, or appends it when new. */
  function Place(rows: seq<Row>, k: nat, node: Row): seq<Row>
    requires k <= |rows|
  {
    if k < |rows| then rows[k := node] else rows + [node]
  }

  /** Inserts the remaining path `names`/`keys` below the node at
      `parentKeys` (whose children are `rows`), and deposits the amounts at
      the end of the path when the item has an stt. */
  function Insert(rows: seq<Row>, names: seq<string>, keys: seq<string>, parentKeys: seq<string>,
                  deposit: bool, values: Amounts, idx: map<string, Entry>): seq<Row>
    requires 0 < |names| == |keys|
    decreases |names|, 1
  {
    var k := IndexOfKey(rows, keys[0]);
    var node := GetOrCreate(rows, names[0], keys[0], parentKeys, idx);
    Place(rows, k, Descend(node, names, keys, parentKeys, deposit, values, idx))
  }

  /** At the node for `keys[0]`: deposit when the path ends here, else
      continue below it, marking it as a parent when a child is added. */
  function Descend(node: Row, names: seq<string>, keys: seq<string>, parentKeys: seq<string>,
                   deposit: bool, values: Amounts, idx: map<string, Entry>): (r: Row)
    requires 0 < |names| == |keys|
    ensures r.id == node.id && r.name == node.name && r.level == node.level
    ensures r.stt == node.stt && r.isTotal == node.isTotal
    ensures |names| > 1 ==> r.values == node.values
    ensures |names| == 1 ==>
              r.children == node.children && r.values == (if deposit then Deposit(node.values, values) else node.values)
    decreases |names|, 0
  {
    if |names| == 1 then
      (if deposit then node.(values := Deposit(node.values, values)) else node)
    else
      var kids := Insert(node.children, names[1..], keys[1..], parentKeys + [keys[0]], deposit, values, idx);
      node.(children := kids, hasChildren := node.hasChildren || |kids| > |node.children|)
  }

  /** The insertion loop; items with an empty path are skipped. */
  function BuildFrom(ps: seq<Placed>, idx: map<string, Entry>): seq<Row>
    requires forall i :: 0 <= i < |ps| ==> WellKeyed(ps[i].names, ps[i].keys)
  {
    if |ps| == 0 then []
    else
      var rows := BuildFrom(ps[..|ps| - 1], idx);
      var p := ps[|ps| - 1];
      assert WellKeyed(p.names, p.keys);
      if |p.names| == 0 then rows
      else Insert(rows, p.names, p.keys, [], p.deposit, p.values, idx)
  }

  /** The forest built from `makeItemsFrom`'s items. */
  function Build(items: seq<Item>): seq<Row> {
    BuildFrom(Placeds(items), Index(items))
  }

  // ---------------------------------------------------------------------
  // Well-formedness.

  /** A sibling list below the path `parentKeys`: distinct keys; each node's
      level is its depth and its ordinal its position; and every node is
      well formed. */
  predicate SiblingsOk(rows: seq<Row>, parentKeys: seq<string>, idx: map<string, Entry>)
    decreases rows
  {
    && (forall i :: 0 <= i < |rows| ==> rows[i].id == NodeId(|parentKeys| + 1, rows[i].id.key, i))
    && (forall i :: 0 <= i < |rows| ==> rows[i].level == |parentKeys| + 1)
    && (forall i, j :: 0 <= i < j < |rows| ==> rows[i].id.key != rows[j].id.key)
    && (forall i :: 0 <= i < |rows| ==> NodeOk(rows[i], parentKeys, idx))
  }

  /** A node: `hasChildren` exact, key = normalised name, total marker as the
      name says, stt as indexed for its path, children well formed. */
  predicate NodeOk(r: Row, parentKeys: seq<string>, idx: map<string, Entry>)
    decreases r
  {
    && r.hasChildren == (|r.children| > 0)
    && Normalize(r.name) == r.id.key
    && r.isTotal == IsTotalLabel(r.name)
    && r.stt == SttFor(idx, Join(parentKeys + [r.id.key]))
    && SiblingsOk(r.children, parentKeys + [r.id.key], idx)
  }

  lemma NewRowOk(raw: string, key: string, parentKeys: seq<string>, ordinal: nat, idx: map<string, Entry>)
    requires key == Normalize(raw)
    ensures NodeOk(NewRow(raw, key, parentKeys, ordinal, idx), parentKeys, idx)
  {
    NormalizeTrim(raw);
    MarkersIgnoreTrim(raw);
  }

  lemma {:induction false} InsertOk(rows: seq<Row>, names: seq<string>, keys: seq<string>, parentKeys: seq<string>,
                                    deposit: bool, values: Amounts, idx: map<string, Entry>)
    requires 0 < |names| && WellKeyed(names, keys)
    requires SiblingsOk(rows, parentKeys, idx)
    ensures SiblingsOk(Insert(rows, names, keys, parentKeys, deposit, values, idx), parentKeys, idx)
    decreases |names|
  {
    var k := IndexOfKey(rows, keys[0]);
    var node := GetOrCreate(rows, names[0], keys[0], parentKeys, idx);
    if k == |rows| {
      NewRowOk(names[0], keys[0], parentKeys, |rows|, idx);
    }
    assert NodeOk(node, parentKeys, idx);
    var node' := Descend(node, names, keys, parentKeys, deposit, values, idx);
    if |names| > 1 {
      assert WellKeyed(names[1..], keys[1..]) by {
        forall i | 0 <= i < |names| - 1 ensures keys[1..][i] == Normalize(names[1..][i]) {
          assert keys[1..][i] == keys[i + 1] && names[1..][i] == names[i + 1];
        }
      }
      InsertOk(node.children, names[1..], keys[1..], parentKeys + [keys[0]], deposit, values, idx);
      InsertGrows(node.children, names[1..], keys[1..], parentKeys + [keys[0]], deposit, values, idx);
    }
    assert NodeOk(node', parentKeys, idx);
  }

  /** Insertion never removes a sibling and always leaves at least one. */
  lemma InsertGrows(rows: seq<Row>, names: seq<string>, keys: seq<string>, parentKeys: seq<string>,
                    deposit: bool, values: Amounts, idx: map<string, Entry>)
    requires 0 < |names| == |keys|
    ensures var r := Insert(rows, names, keys, parentKeys, deposit, values, idx);
      |r| >= |rows| && |r| > 0
  {
  }

  /** The built forest is well formed at every depth. */
  lemma {:induction false} BuildFromOk(ps: seq<Placed>, idx: map<string, Entry>)
    requires forall i :: 0 <= i < |ps| ==> WellKeyed(ps[i].names, ps[i].keys)
    ensures SiblingsOk(BuildFrom(ps, idx), [], idx)
  {
    if |ps| > 0 {
      var pre := ps[..|ps| - 1];
      assert forall i :: 0 <= i < |pre| ==> pre[i] == ps[i];
      BuildFromOk(pre, idx);
      var p := ps[|ps| - 1];
      if |p.names| > 0 {
        InsertOk(BuildFrom(pre, idx), p.names, p.keys, [], p.deposit, p.values, idx);
      }
    }
  }

  // ---------------------------------------------------------------------
  // Paths and first-seen order.

  /** The keys of a sibling list, in order. */
  function Keys(rows: seq<Row>): (r: seq<string>)
    ensures |r| == |rows| && forall i :: 0 <= i < |rows| ==> r[i] == rows[i].id.key
  {
    seq(|rows|, i requires 0 <= i < |rows| => rows[i].id.key)
  }

  /** The keys of the children of the node at path `path` (the roots for the
      empty path); empty when there is no such node. */
  function ChildKeys(rows: seq<Row>, path: seq<string>): seq<string>
    decreases |path|
  {
    if |path| == 0 then Keys(rows)
    else
      var k := IndexOfKey(rows, path[0]);
      if k == |rows| then [] else ChildKeys(rows[k].children, path[1..])
  }

  /** The key an item's path adds below `path`: its next key when `path`
      is a proper prefix of the item's key path. */
  function NextKey(keys: seq<string>, path: seq<string>): seq<string> {
    if |path| < |keys| && keys[..|path|] == path then [keys[|path|]] else []
  }

  /** Every next key below `path`, item by item. */
  function NextKeys(ps: seq<Placed>, path: seq<string>): seq<string> {
    if |ps| == 0 then []
    else NextKeys(ps[..|ps| - 1], path) + NextKey(ps[|ps| - 1].keys, path)
  }

  lemma IndexOfKeyAbsent(rows: seq<Row>, key: string)
    ensures IndexOfKey(rows, key) == |rows| <==> key !in Keys(rows)
  {
    if key in Keys(rows) {
      var i :| 0 <= i < |rows| && Keys(rows)[i] == key;
    }
  }

  /** IndexOfKey is the only position that is a first match (or the end). */
  lemma IndexOfKeyUnique(rows: seq<Row>, key: string, k: nat)
    requires k <= |rows| && (k < |rows| ==> rows[k].id.key == key)
    requires forall i :: 0 <= i < k ==> rows[i].id.key != key
    ensures IndexOfKey(rows, key) == k
    decreases |rows|
  {
    if |rows| > 0 && k > 0 {
      assert forall i :: 0 <= i < k - 1 ==> rows[1..][i] == rows[i + 1];
      IndexOfKeyUnique(rows[1..], key, k - 1);
    }
  }

  lemma IndexOfKeyUpdate(rows: seq<Row>, k: nat, x: Row, key: string)
    requires k < |rows| && x.id.key == rows[k].id.key
    ensures IndexOfKey(rows[k := x], key) == IndexOfKey(rows, key)
  {
    var r := rows[k := x];
    var b := IndexOfKey(rows, key);
    assert forall i :: 0 <= i < |r| ==> r[i].id.key == rows[i].id.key;
    IndexOfKeyUnique(r, key, b);
  }

  lemma IndexOfKeyAppend(rows: seq<Row>, x: Row, key: string)
    ensures IndexOfKey(rows + [x], key) ==
      (if IndexOfKey(rows, key) < |rows| then IndexOfKey(rows, key)
       else if x.id.key == key then |rows| else |rows| + 1)
  {
    var r := rows + [x];
    var b := IndexOfKey(rows, key);
    var c := if b < |rows| then b else if x.id.key == key then |rows| else |rows| + 1;
    assert forall i :: 0 <= i < |rows| ==> r[i] == rows[i];
    IndexOfKeyUnique(r, key, c);
  }

  lemma ChildKeysEmpty(path: seq<string>)
    ensures ChildKeys([], path) == []
  {
  }

  /** The key list an insertion leaves below `path`. */
  function Grown(before: seq<string>, next: seq<string>): seq<string> {
    before + (if |next| > 0 && next[0] !in before then next else [])
  }

  /** One insertion adds a key below `path` exactly when `path` is a proper
      prefix of the inserted key path and the next key is new there. */
  lemma {:induction false} InsertChildKeys(rows: seq<Row>, names: seq<string>, keys: seq<string>,
                                           parentKeys: seq<string>, deposit: bool, values: Amounts,
                                           idx: map<string, Entry>, path: seq<string>)
    requires 0 < |names| == |keys|
    ensures ChildKeys(Insert(rows, names, keys, parentKeys, deposit, values, idx), path)
         == Grown(ChildKeys(rows, path), NextKey(keys, path))
    decreases |names|
  {
    if |path| == 0 {
      InsertRootKeys(rows, names, keys, parentKeys, deposit, values, idx);
    } else if path[0] != keys[0] {
      InsertOtherBranch(rows, names, keys, parentKeys, deposit, values, idx, path);
    } else {
      var node := GetOrCreate(rows, names[0], keys[0], parentKeys, idx);
      var node' := Descend(node, names, keys, parentKeys, deposit, values, idx);
      InsertSameBranch(rows, names, keys, parentKeys, deposit, values, idx, path);
      if |names| == 1 {
        assert NextKey(keys, path) == [];
      } else {
        InsertChildKeys(node.children, names[1..], keys[1..], parentKeys + [keys[0]], deposit, values, idx, path[1..]);
        assert NextKey(keys[1..], path[1..]) == NextKey(keys, path) by {
          if |path| < |keys| {
            assert keys[..|path|] == [keys[0]] + keys[1..][..|path| - 1];
            assert path == [path[0]] + path[1..];
          }
        }
      }
    }
  }

  lemma InsertRootKeys(rows: seq<Row>, names: seq<string>, keys: seq<string>, parentKeys: seq<string>,
                       deposit: bool, values: Amounts, idx: map<string, Entry>)
    requires 0 < |names| == |keys|
    ensures Keys(Insert(rows, names, keys, parentKeys, deposit, values, idx))
         == Grown(Keys(rows), [keys[0]])
  {
    var k := IndexOfKey(rows, keys[0]);
    IndexOfKeyAbsent(rows, keys[0]);
    var r := Insert(rows, names, keys, parentKeys, deposit, values, idx);
    if k < |rows| {
      assert Keys(r) == Keys(rows);
    } else {
      assert Keys(r) == Keys(rows) + [keys[0]];
    }
  }

  lemma InsertOtherBranch(rows: seq<Row>, names: seq<string>, keys: seq<string>, parentKeys: seq<string>,
                          deposit: bool, values: Amounts, idx: map<string, Entry>, path: seq<string>)
    requires 0 < |names| == |keys| && 0 < |path| && path[0] != keys[0]
    ensures NextKey(keys, path) == []
    ensures ChildKeys(Insert(rows, names, keys, parentKeys, deposit, values, idx), path) == ChildKeys(rows, path)
  {
    if |path| < |keys| {
      assert keys[..|path|][0] == keys[0];
    }
    var k := IndexOfKey(rows, keys[0]);
    var node' := Descend(GetOrCreate(rows, names[0], keys[0], parentKeys, idx), names, keys, parentKeys, deposit, values, idx);
    var r := Insert(rows, names, keys, parentKeys, deposit, values, idx);
    assert r == Place(rows, k, node');
    var j := IndexOfKey(rows, path[0]);
    if k < |rows| {
      IndexOfKeyUpdate(rows, k, node', path[0]);
      if j < |rows| {
        assert r[j] == rows[j];
      }
    } else {
      IndexOfKeyAppend(rows, node', path[0]);
      if j < |rows| {
        assert r[j] == rows[j];
      }
    }
  }

  lemma InsertSameBranch(rows: seq<Row>, names: seq<string>, keys: seq<string>, parentKeys: seq<string>,
                         deposit: bool, values: Amounts, idx: map<string, Entry>, path: seq<string>)
    requires 0 < |names| == |keys| && 0 < |path| && path[0] == keys[0]
    ensures var node := GetOrCreate(rows, names[0], keys[0], parentKeys, idx);
      && ChildKeys(Insert(rows, names, keys, parentKeys, deposit, values, idx), path)
         == ChildKeys(Descend(node, names, keys, parentKeys, deposit, values, idx).children, path[1..])
      && ChildKeys(rows, path) == ChildKeys(node.children, path[1..])
  {
    var k := IndexOfKey(rows, keys[0]);
    var node := GetOrCreate(rows, names[0], keys[0], parentKeys, idx);
    var node' := Descend(node, names, keys, parentKeys, deposit, values, idx);
    var r := Insert(rows, names, keys, parentKeys, deposit, values, idx);
    assert r == Place(rows, k, node');
    if k < |rows| {
      IndexOfKeyUpdate(rows, k, node', path[0]);
    } else {
      IndexOfKeyAppend(rows, node', path[0]);
      ChildKeysEmpty(path[1..]);
    }
  }

  lemma DistinctSnoc(s: seq<string>, x: seq<string>)
    requires |x| <= 1
    ensures Distinct(s + x) == Distinct(s) + (if |x| > 0 && x[0] !in Distinct(s) then x else [])
  {
    if |x| == 0 {
      assert s + x == s;
    } else {
      assert (s + x)[..|s + x| - 1] == s;
    }
  }

  /** First-seen order at every depth: the children of the node at any path
      (the roots, for the empty path) carry exactly the distinct next keys of
      the items below that path, in the order the items first show them. In
      particular a node exists at a path iff some item's key path extends it,
      and items sharing a path prefix share its nodes. */
  lemma {:induction false} BuildFromChildKeys(ps: seq<Placed>, idx: map<string, Entry>, path: seq<string>)
    requires forall i :: 0 <= i < |ps| ==> WellKeyed(ps[i].names, ps[i].keys)
    ensures ChildKeys(BuildFrom(ps, idx), path) == Distinct(NextKeys(ps, path))
  {
    if |ps| > 0 {
      var pre := ps[..|ps| - 1];
      var p := ps[|ps| - 1];
      assert forall i :: 0 <= i < |pre| ==> pre[i] == ps[i];
      BuildFromChildKeys(pre, idx, path);
      DistinctSnoc(NextKeys(pre, path), NextKey(p.keys, path));
      if |p.names| > 0 {
        InsertChildKeys(BuildFrom(pre, idx), p.names, p.keys, [], p.deposit, p.values, idx, path);
      } else {
        assert NextKey(p.keys, path) == [];
      }
    }
  }

  // ---------------------------------------------------------------------
  // Direct amounts.

  /** The node at a key path (from the roots), if any. */
  function NodeAt(rows: seq<Row>, path: seq<string>): Option<Row>
    decreases |path|
  {
    if |path| == 0 then None
    else
      var k := IndexOfKey(rows, path[0]);
      if k == |rows| then None
      else if |path| == 1 then Some(rows[k])
      else NodeAt(rows[k].children, path[1..])
  }

  /** The direct amount on an axis at a key path; `None` when there is no
      node there or it has no data. */
  function OwnAt(rows: seq<Row>, path: seq<string>, a: Axis): Option<real> {
    match NodeAt(rows, path)
    case Some(n) => n.values.Get(a)
    case None => None
  }

  /** Reference for the deposits: the items whose key path is exactly
      `path` and that carry an stt add their amount on the axis, in order,
      starting from no data. */
  function DepositedAt(ps: seq<Placed>, path: seq<string>, a: Axis): Option<real> {
    if |ps| == 0 then None
    else
      var p := ps[|ps| - 1];
      var prev := DepositedAt(ps[..|ps| - 1], path, a);
      if |p.keys| > 0 && p.deposit && p.keys == path then AddOpt(prev, p.values.Get(a)) else prev
  }

  /** Only the row for the first key can change. */
  lemma InsertOtherRow(rows: seq<Row>, names: seq<string>, keys: seq<string>, parentKeys: seq<string>,
                       deposit: bool, values: Amounts, idx: map<string, Entry>, key: string)
    requires 0 < |names| == |keys| && key != keys[0]
    ensures var r := Insert(rows, names, keys, parentKeys, deposit, values, idx);
      var j := IndexOfKey(rows, key);
      IndexOfKey(r, key) == (if j < |rows| then j else |r|) && (j < |rows| ==> r[j] == rows[j])
  {
    var k := IndexOfKey(rows, keys[0]);
    var node' := Descend(GetOrCreate(rows, names[0], keys[0], parentKeys, idx), names, keys, parentKeys, deposit, values, idx);
    var r := Insert(rows, names, keys, parentKeys, deposit, values, idx);
    assert r == Place(rows, k, node');
    if k < |rows| {
      IndexOfKeyUpdate(rows, k, node', key);
    } else {
      IndexOfKeyAppend(rows, node', key);
    }
  }

  /** The row for the first key is the descended node. */
  lemma InsertSameRow(rows: seq<Row>, names: seq<string>, keys: seq<string>, parentKeys: seq<string>,
                      deposit: bool, values: Amounts, idx: map<string, Entry>)
    requires 0 < |names| == |keys|
    ensures var r := Insert(rows, names, keys, parentKeys, deposit, values, idx);
      var node := GetOrCreate(rows, names[0], keys[0], parentKeys, idx);
      var j := IndexOfKey(r, keys[0]);
      j < |r| && r[j] == Descend(node, names, keys, parentKeys, deposit, values, idx)
  {
    var k := IndexOfKey(rows, keys[0]);
    var node' := Descend(GetOrCreate(rows, names[0], keys[0], parentKeys, idx), names, keys, parentKeys, deposit, values, idx);
    var r := Insert(rows, names, keys, parentKeys, deposit, values, idx);
    assert r == Place(rows, k, node');
    if k < |rows| {
      IndexOfKeyUpdate(rows, k, node', keys[0]);
    } else {
      IndexOfKeyAppend(rows, node', keys[0]);
    }
  }

  lemma OwnAtEmpty(path: seq<string>, a: Axis)
    ensures OwnAt([], path, a) == None
  {
  }

  lemma InsertNodeAtSame(rows: seq<Row>, names: seq<string>, keys: seq<string>, parentKeys: seq<string>,
                         deposit: bool, values: Amounts, idx: map<string, Entry>, path: seq<string>)
    requires 0 < |names| == |keys| && 0 < |path| && path[0] == keys[0]
    ensures var node := GetOrCreate(rows, names[0], keys[0], parentKeys, idx);
      var node' := Descend(node, names, keys, parentKeys, deposit, values, idx);
      && NodeAt(Insert(rows, names, keys, parentKeys, deposit, values, idx), path)
         == (if |path| == 1 then Some(node') else NodeAt(node'.children, path[1..]))
      && NodeAt(rows, path)
         == (if IndexOfKey(rows, keys[0]) == |rows| then None
             else if |path| == 1 then Some(node) else NodeAt(node.children, path[1..]))
  {
    InsertSameRow(rows, names, keys, parentKeys, deposit, values, idx);
  }

  lemma InsertNodeAtOther(rows: seq<Row>, names: seq<string>, keys: seq<string>, parentKeys: seq<string>,
                          deposit: bool, values: Amounts, idx: map<string, Entry>, path: seq<string>)
    requires 0 < |names| == |keys| && 0 < |path| && path[0] != keys[0]
    ensures NodeAt(Insert(rows, names, keys, parentKeys, deposit, values, idx), path) == NodeAt(rows, path)
  {
    InsertOtherRow(rows, names, keys, parentKeys, deposit, values, idx, path[0]);
  }

  /** An insertion changes direct amounts only at the end of its own path,
      and only when the item carries an stt. */
  lemma {:induction false} InsertOwnAt(rows: seq<Row>, names: seq<string>, keys: seq<string>,
                                       parentKeys: seq<string>, deposit: bool, values: Amounts,
                                       idx: map<string, Entry>, path: seq<string>, a: Axis)
    requires 0 < |names| == |keys|
    ensures OwnAt(Insert(rows, names, keys, parentKeys, deposit, values, idx), path, a)
         == if deposit && path == keys then AddOpt(OwnAt(rows, path, a), values.Get(a)) else OwnAt(rows, path, a)
    decreases |names|, 1
  {
    if |path| == 0 {
    } else if path[0] != keys[0] {
      InsertNodeAtOther(rows, names, keys, parentKeys, deposit, values, idx, path);
      assert path != keys;
    } else if |path| == 1 {
      InsertOwnAtHere(rows, names, keys, parentKeys, deposit, values, idx, path, a);
    } else {
      InsertOwnAtBelow(rows, names, keys, parentKeys, deposit, values, idx, path, a);
    }
  }

  lemma InsertOwnAtHere(rows: seq<Row>, names: seq<string>, keys: seq<string>,
                        parentKeys: seq<string>, deposit: bool, values: Amounts,
                        idx: map<string, Entry>, path: seq<string>, a: Axis)
    requires 0 < |names| == |keys| && |path| == 1 && path[0] == keys[0]
    ensures OwnAt(Insert(rows, names, keys, parentKeys, deposit, values, idx), path, a)
         == if deposit && path == keys then AddOpt(OwnAt(rows, path, a), values.Get(a)) else OwnAt(rows, path, a)
  {
    InsertNodeAtSame(rows, names, keys, parentKeys, deposit, values, idx, path);
    assert path == keys <==> |names| == 1;
  }

  lemma {:induction false} InsertOwnAtBelow(rows: seq<Row>, names: seq<string>, keys: seq<string>,
                                            parentKeys: seq<string>, deposit: bool, values: Amounts,
                                            idx: map<string, Entry>, path: seq<string>, a: Axis)
    requires 0 < |names| == |keys| && |path| > 1 && path[0] == keys[0]
    ensures OwnAt(Insert(rows, names, keys, parentKeys, deposit, values, idx), path, a)
         == if deposit && path == keys then AddOpt(OwnAt(rows, path, a), values.Get(a)) else OwnAt(rows, path, a)
    decreases |names|, 0
  {
    var node := GetOrCreate(rows, names[0], keys[0], parentKeys, idx);
    var node' := Descend(node, names, keys, parentKeys, deposit, values, idx);
    InsertNodeAtSame(rows, names, keys, parentKeys, deposit, values, idx, path);
    if |names| == 1 {
      assert path != keys;
      if IndexOfKey(rows, keys[0]) == |rows| {
        assert node.children == [];
      }
    } else {
      InsertOwnAt(node.children, names[1..], keys[1..], parentKeys + [keys[0]], deposit, values, idx, path[1..], a);
      assert path == keys <==> path[1..] == keys[1..] by {
        assert path == [path[0]] + path[1..];
        assert keys == [keys[0]] + keys[1..];
      }
      if IndexOfKey(rows, keys[0]) == |rows| {
        assert node.children == [];
        assert OwnAt(node.children, path[1..], a) == None;
      }
    }
  }

  /** Direct amounts of the built forest: the node at any path holds exactly
      the reference deposits for that path. Items without an stt add nothing,
      nothing lands anywhere but at the end of an item's own path, and a node
      no item with data ends at keeps no data. */
  lemma {:induction false} BuildFromOwnAt(ps: seq<Placed>, idx: map<string, Entry>, path: seq<string>, a: Axis)
    requires forall i :: 0 <= i < |ps| ==> WellKeyed(ps[i].names, ps[i].keys)
    ensures OwnAt(BuildFrom(ps, idx), path, a) == DepositedAt(ps, path, a)
  {
    if |ps| > 0 {
      var pre := ps[..|ps| - 1];
      var p := ps[|ps| - 1];
      assert forall i :: 0 <= i < |pre| ==> pre[i] == ps[i];
      BuildFromOwnAt(pre, idx, path, a);
      assert WellKeyed(p.names, p.keys);
      if |p.names| > 0 {
        InsertOwnAt(BuildFrom(pre, idx), p.names, p.keys, [], p.deposit, p.values, idx, path, a);
      }
    }
  }

  /** The amounts the reference deposits at a path, in item order. */
  function Contributions(ps: seq<Placed>, path: seq<string>, a: Axis): seq<real> {
    if |ps| == 0 then []
    else
      var p := ps[|ps| - 1];
      Contributions(ps[..|ps| - 1], path, a)
      + (if |p.keys| > 0 && p.deposit && p.keys == path && p.values.Get(a).Some?
         then [p.values.Get(a).value] else [])
  }

  /** Conservation with null preservation: a path's deposit is the sum of
      its contributions, and there is no data iff there are none. */
  lemma {:induction false} DepositedAtIsSum(ps: seq<Placed>, path: seq<string>, a: Axis)
    ensures DepositedAt(ps, path, a) ==
      if |Contributions(ps, path, a)| > 0 then Some(Sum(Contributions(ps, path, a))) else None
  {
    if |ps| > 0 {
      var pre := ps[..|ps| - 1];
      var p := ps[|ps| - 1];
      var prev := DepositedAt(pre, path, a);
      var c := Contributions(pre, path, a);
      DepositedAtIsSum(pre, path, a);
      assert prev.GetOr(0.0) == Sum(c);
      var hit := |p.keys| > 0 && p.deposit && p.keys == path;
      assert DepositedAt(ps, path, a) == if hit then AddOpt(prev, p.values.Get(a)) else prev;
      if hit && p.values.Get(a).Some? {
        var v := p.values.Get(a).value;
        assert Contributions(ps, path, a) == c + [v];
        SumConcat(c, [v]);
        SumSingleton(v);
      } else {
        assert Contributions(ps, path, a) == c;
      }
    }
  }

  // ---------------------------------------------------------------------
  // The same facts for the forest built from items.

  lemma PlacedsWellKeyed(items: seq<Item>)
    ensures forall i :: 0 <= i < |items| ==> WellKeyed(Placeds(items)[i].names, Placeds(items)[i].keys)
  {
  }

  /** The forest built from items is well formed at every depth. */
  lemma BuildOk(items: seq<Item>)
    ensures SiblingsOk(Build(items), [], Index(items))
  {
    PlacedsWellKeyed(items);
    BuildFromOk(Placeds(items), Index(items));
  }

  /** Below every path, the children appear in the order their keys were
      first seen among the items' paths. */
  lemma BuildChildKeys(items: seq<Item>, path: seq<string>)
    ensures ChildKeys(Build(items), path) == Distinct(NextKeys(Placeds(items), path))
  {
    PlacedsWellKeyed(items);
    BuildFromChildKeys(Placeds(items), Index(items), path);
  }
}
