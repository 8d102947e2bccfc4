/** The unit hierarchy: the unit rows grouped by their second-level id, and
    the selected groups flattened to the entity codes the queries use. */
module Units {
  import opened Wrappers
  import opened Seqs
  import opened Types
  import opened Sidebar

  datatype UnitRow = UnitRow(idLv1: Option<string>, idLv2: Option<string>, nameLv2: Option<string>,
                             idLv3: Option<string>, nameLv3: Option<string>)

  datatype Entity = Entity(id: string, name: string)

  datatype Group = Group(id: string, name: string, idLv1: string, children: seq<Entity>)

  /** A row the grouping keeps: every field present and non-empty. */
  predicate Complete(u: UnitRow) {
    Truthy(u.idLv1) && Truthy(u.idLv2) && Truthy(u.nameLv2) && Truthy(u.idLv3) && Truthy(u.nameLv3)
  }

  /** The position of a group id, or the group count if absent. */
  function GroupIndex(h: seq<Group>, id: string): (k: nat)
    ensures k <= |h|
    ensures k < |h| ==> h[k].id == id
    ensures forall i :: 0 <= i < k ==> h[i].id != id
  {
    if |h| == 0 then 0 else if h[0].id == id then 0 else 1 + GroupIndex(h[1..], id)
  }

  /** One row into the hierarchy: a new second-level id opens a group
      named by that row; the row's entity joins its group. */
  function AddUnit(h: seq<Group>, u: UnitRow): seq<Group>
    requires Complete(u)
  {
    var e := Entity(u.idLv3.value, u.nameLv3.value);
    var k := GroupIndex(h, u.idLv2.value);
    if k < |h| then h[k := h[k].(children := h[k].children + [e])]
    else h + [Group(u.idLv2.value, u.nameLv2.value, u.idLv1.value, [e])]
  }

  /** The grouping loop, incomplete rows skipped; the map's insertion order
      is kept. */
  function Hierarchy(rows: seq<UnitRow>): seq<Group> {
    if |rows| == 0 then []
    else
      var h := Hierarchy(rows[..|rows| - 1]);
      var u := rows[|rows| - 1];
      if Complete(u) then AddUnit(h, u) else h
  }

  /** Reference: the entities of the complete rows under a second-level id,
      in row order. */
  function EntitiesUnder(rows: seq<UnitRow>, id: string): seq<Entity> {
    if |rows| == 0 then []
    else
      var u := rows[|rows| - 1];
      EntitiesUnder(rows[..|rows| - 1], id)
      + (if Complete(u) && u.idLv2.value == id then [Entity(u.idLv3.value, u.nameLv3.value)] else [])
  }

  /** The sidebar's unit options: one `{ id, name }` per group, in order. */
  function UnitOptions(h: seq<Group>): (os: seq<UnitOption>)
    ensures |os| == |h| && forall i :: 0 <= i < |h| ==> os[i] == UnitOption(h[i].id, h[i].name)
  {
    seq(|h|, i requires 0 <= i < |h| => UnitOption(h[i].id, h[i].name))
  }

  /** The group ids the unit selector offers. */
  function GroupIds(h: seq<Group>): seq<string> {
    OptionIds(UnitOptions(h))
  }

  /** The second-level ids of the complete rows, in row order. */
  function CompleteIds(rows: seq<UnitRow>): seq<string> {
    if |rows| == 0 then []
    else
      var u := rows[|rows| - 1];
      CompleteIds(rows[..|rows| - 1]) + (if Complete(u) then [u.idLv2.value] else [])
  }

  lemma AddUnitIds(h: seq<Group>, u: UnitRow)
    requires Complete(u)
    ensures GroupIds(AddUnit(h, u)) == if u.idLv2.value in GroupIds(h) then GroupIds(h) else GroupIds(h) + [u.idLv2.value]
  {
    var k := GroupIndex(h, u.idLv2.value);
    if k == |h| {
      assert u.idLv2.value !in GroupIds(h);
    } else {
      assert GroupIds(h)[k] == u.idLv2.value;
    }
  }

  /** The groups appear once each, in the order their ids first occur among
      the complete rows. */
  lemma {:induction false} HierarchyIds(rows: seq<UnitRow>)
    ensures GroupIds(Hierarchy(rows)) == Distinct(CompleteIds(rows))
  {
    if |rows| > 0 {
      var pre := rows[..|rows| - 1];
      var u := rows[|rows| - 1];
      HierarchyIds(pre);
      if Complete(u) {
        AddUnitIds(Hierarchy(pre), u);
        var c := CompleteIds(rows);
        assert c == CompleteIds(pre) + [u.idLv2.value];
        assert c[..|c| - 1] == CompleteIds(pre);
        assert c[|c| - 1] == u.idLv2.value;
        assert Distinct(c) == if u.idLv2.value in Distinct(CompleteIds(pre)) then Distinct(CompleteIds(pre))
                              else Distinct(CompleteIds(pre)) + [u.idLv2.value];
      } else {
        assert CompleteIds(rows) == CompleteIds(pre);
      }
    }
  }

  /** Each group holds exactly the entities of the complete rows filed
      under it, in row order. */
  lemma {:induction false} HierarchyChildren(rows: seq<UnitRow>, i: nat)
    requires i < |Hierarchy(rows)|
    ensures Hierarchy(rows)[i].children == EntitiesUnder(rows, Hierarchy(rows)[i].id)
  {
    var pre := rows[..|rows| - 1];
    var u := rows[|rows| - 1];
    var h := Hierarchy(pre);
    var id := Hierarchy(rows)[i].id;
    if !Complete(u) {
      HierarchyChildren(pre, i);
    } else {
      var k := GroupIndex(h, u.idLv2.value);
      HierarchyIds(pre);
      if i < |h| {
        HierarchyChildren(pre, i);
        assert h[i].id == id;
        if k < |h| && k != i {
          assert h[k].id != h[i].id;
        }
      } else {
        assert k == |h| && i == |h|;
        assert EntitiesUnder(pre, id) == [] by {
          NoGroupNoEntities(pre, id);
        }
      }
    }
  }

  lemma {:induction false} NoGroupNoEntities(rows: seq<UnitRow>, id: string)
    requires forall i :: 0 <= i < |Hierarchy(rows)| ==> Hierarchy(rows)[i].id != id
    ensures EntitiesUnder(rows, id) == []
  {
    if |rows| > 0 {
      var pre := rows[..|rows| - 1];
      var u := rows[|rows| - 1];
      HierarchyIds(rows);
      HierarchyIds(pre);
      if Complete(u) {
        assert CompleteIds(rows)[|CompleteIds(rows)| - 1] == u.idLv2.value;
        assert u.idLv2.value in GroupIds(Hierarchy(rows));
      }
      assert forall i :: 0 <= i < |Hierarchy(pre)| ==> Hierarchy(pre)[i].id != id by {
        forall i | 0 <= i < |Hierarchy(pre)| ensures Hierarchy(pre)[i].id != id {
          assert GroupIds(Hierarchy(pre))[i] in CompleteIds(pre);
          assert CompleteIds(pre) == CompleteIds(rows)[..|CompleteIds(pre)|];
          var j :| 0 <= j < |CompleteIds(pre)| && CompleteIds(pre)[j] == Hierarchy(pre)[i].id;
          assert CompleteIds(rows)[j] in GroupIds(Hierarchy(rows));
        }
      }
      NoGroupNoEntities(pre, id);
    }
  }

  /** `unitHierarchy.get(id)`. */
  function GroupOf(h: seq<Group>, id: string): Option<Group> {
    if GroupIndex(h, id) < |h| then Some(h[GroupIndex(h, id)]) else None
  }

  function EntityIds(es: seq<Entity>): seq<string> {
    seq(|es|, i requires 0 <= i < |es| => es[i].id)
  }

  /** `selectedUnitCodes`: nothing without a hierarchy or a selection;
      otherwise the entity ids of each selected group in turn, an unknown
      id contributing nothing. */
  function SelectedUnitCodes(h: Option<seq<Group>>, selected: seq<string>): seq<string>
    decreases |selected|
  {
    if h.None? || |selected| == 0 then []
    else
      var pre := SelectedUnitCodes(h, selected[..|selected| - 1]);
      match GroupOf(h.value, selected[|selected| - 1])
      case None => pre
      case Some(g) => pre + EntityIds(g.children)
  }

  /** A code is selected exactly when it is an entity of a known selected
      group. */
  lemma {:induction false} SelectedUnitCodesMembers(h: seq<Group>, selected: seq<string>, code: string)
    requires NoDuplicates(GroupIds(h))
    ensures code in SelectedUnitCodes(Some(h), selected) <==>
              exists i, j :: 0 <= i < |selected| && 0 <= j < |h| && h[j].id == selected[i]
                             && code in EntityIds(h[j].children)
  {
    if |selected| > 0 {
      var pre := selected[..|selected| - 1];
      var s := selected[|selected| - 1];
      SelectedUnitCodesMembers(h, pre, code);
      assert forall i :: 0 <= i < |pre| ==> pre[i] == selected[i];
      var k := GroupIndex(h, s);
      if exists i, j :: 0 <= i < |selected| && 0 <= j < |h| && h[j].id == selected[i] && code in EntityIds(h[j].children) {
        var i, j :| 0 <= i < |selected| && 0 <= j < |h| && h[j].id == selected[i] && code in EntityIds(h[j].children);
        if i == |selected| - 1 {
          assert k <= j;
          assert GroupIds(h)[k] == GroupIds(h)[j];
          assert k == j;
        }
      }
    }
  }

  /** On the hierarchy built from the unit rows: a code is selected exactly
      when it belongs to a complete row filed under a selected group. */
  lemma SelectedCodesOfHierarchy(rows: seq<UnitRow>, selected: seq<string>, code: string)
    ensures code in SelectedUnitCodes(Some(Hierarchy(rows)), selected) <==>
              exists i, j :: 0 <= i < |selected| && 0 <= j < |Hierarchy(rows)| && Hierarchy(rows)[j].id == selected[i]
                             && code in EntityIds(EntitiesUnder(rows, selected[i]))
  {
    var h := Hierarchy(rows);
    HierarchyIds(rows);
    SelectedUnitCodesMembers(h, selected, code);
    forall j | 0 <= j < |h| ensures h[j].children == EntitiesUnder(rows, h[j].id) {
      HierarchyChildren(rows, j);
    }
  }
}
