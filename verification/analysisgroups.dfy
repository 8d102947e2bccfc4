/** The financial-analysis table's grouping of ratio rows under their
    indicator groups, in a fixed group order. */
module AnalysisGroups {
  import opened Wrappers

  datatype FaRow = FaRow(key: string, values: seq<Option<real>>)

  datatype Group = Group(name: string, rows: seq<FaRow>)

  const Other: string := "Khác"

  /** `groupOrder`. */
  const GroupOrder: seq<string> := [
    "Các hệ số về khả năng sinh lời",
    "Các hệ số về cơ cấu vốn",
    "Các hệ số về khả năng thanh toán",
    "Phân tích Dupont",
    "Chỉ tiêu bổ sung"
  ]

  /** A row's group: its indicator's group, or the catch-all when the key
      has no metadata or an empty group. */
  function GroupName(meta: map<string, string>, key: string): string {
    if key in meta && meta[key] != "" then meta[key] else Other
  }

  /** The collecting loop: each row appended to its group's list. */
  function Collect(rows: seq<FaRow>, meta: map<string, string>): map<string, seq<FaRow>> {
    if |rows| == 0 then map[]
    else
      var m := Collect(rows[..|rows| - 1], meta);
      var r := rows[|rows| - 1];
      var g := GroupName(meta, r.key);
      m[g := (if g in m then m[g] else []) + [r]]
  }

  /** The order's groups with their rows, empty ones dropped. */
  function Arrange(order: seq<string>, groups: map<string, seq<FaRow>>): seq<Group> {
    if |order| == 0 then []
    else
      var rows := if order[0] in groups then groups[order[0]] else [];
      (if |rows| > 0 then [Group(order[0], rows)] else []) + Arrange(order[1..], groups)
  }

  /** `groupedRows`. */
  function Grouped(rows: seq<FaRow>, meta: map<string, string>): seq<Group> {
    Arrange(GroupOrder, Collect(rows, meta))
  }

  /** Reference: the rows of one group, in input order. */
  function RowsIn(rows: seq<FaRow>, meta: map<string, string>, g: string): seq<FaRow> {
    if |rows| == 0 then []
    else
      RowsIn(rows[..|rows| - 1], meta, g)
      + (if GroupName(meta, rows[|rows| - 1].key) == g then [rows[|rows| - 1]] else [])
  }

  lemma {:induction false} CollectIsFilter(rows: seq<FaRow>, meta: map<string, string>, g: string)
    ensures g in Collect(rows, meta) <==> |RowsIn(rows, meta, g)| > 0
    ensures g in Collect(rows, meta) ==> Collect(rows, meta)[g] == RowsIn(rows, meta, g)
  {
    if |rows| > 0 {
      CollectIsFilter(rows[..|rows| - 1], meta, g);
    }
  }

  /** Membership in the reference: a row of the input in that group. */
  lemma {:induction false} RowsInMembers(rows: seq<FaRow>, meta: map<string, string>, g: string, r: FaRow)
    ensures r in RowsIn(rows, meta, g) <==> r in rows && GroupName(meta, r.key) == g
  {
    if |rows| > 0 {
      var pre := rows[..|rows| - 1];
      RowsInMembers(pre, meta, g, r);
      assert rows == pre + [rows[|rows| - 1]];
    }
  }

  /** Reference: the names of the order whose row list is non-empty. */
  function Present(order: seq<string>, rows: seq<FaRow>, meta: map<string, string>): seq<string> {
    if |order| == 0 then []
    else (if |RowsIn(rows, meta, order[0])| > 0 then [order[0]] else []) + Present(order[1..], rows, meta)
  }

  function Names(gs: seq<Group>): (ns: seq<string>)
    ensures |ns| == |gs| && forall i :: 0 <= i < |gs| ==> ns[i] == gs[i].name
  {
    seq(|gs|, i requires 0 <= i < |gs| => gs[i].name)
  }

  /** Arranging keeps the order's names that have rows, in the order's
      order, each with all of its rows in input order. */
  lemma {:induction false} ArrangeSpec(order: seq<string>, rows: seq<FaRow>, meta: map<string, string>)
    ensures Names(Arrange(order, Collect(rows, meta))) == Present(order, rows, meta)
    ensures forall i :: 0 <= i < |Arrange(order, Collect(rows, meta))| ==>
              Arrange(order, Collect(rows, meta))[i].rows == RowsIn(rows, meta, Arrange(order, Collect(rows, meta))[i].name)
  {
    if |order| > 0 {
      ArrangeSpec(order[1..], rows, meta);
      CollectIsFilter(rows, meta, order[0]);
      var rest := Arrange(order[1..], Collect(rows, meta));
      var m := Collect(rows, meta);
      var here := if order[0] in m then m[order[0]] else [];
      assert Arrange(order, m) == (if |here| > 0 then [Group(order[0], here)] else []) + rest;
      if |here| > 0 {
        assert Names(Arrange(order, m)) == [order[0]] + Names(rest);
        forall i | 0 <= i < |Arrange(order, m)| ensures Arrange(order, m)[i].rows == RowsIn(rows, meta, Arrange(order, m)[i].name) {
          if i > 0 {
            assert Arrange(order, m)[i] == rest[i - 1];
          }
        }
      } else {
        assert Arrange(order, m) == rest;
      }
    }
  }

  lemma {:induction false} PresentMembers(order: seq<string>, rows: seq<FaRow>, meta: map<string, string>, g: string)
    ensures g in Present(order, rows, meta) <==> g in order && |RowsIn(rows, meta, g)| > 0
  {
    if |order| > 0 {
      PresentMembers(order[1..], rows, meta, g);
      assert order == [order[0]] + order[1..];
    }
  }

  /** The table's groups: they follow the fixed group order, none is
      empty, each holds its rows in input order, and an input row is shown
      exactly when its group is one of the ordered groups, so rows of the
      catch-all group never are. */
  lemma GroupedSpec(rows: seq<FaRow>, meta: map<string, string>)
    ensures Names(Grouped(rows, meta)) == Present(GroupOrder, rows, meta)
    ensures forall i :: 0 <= i < |Grouped(rows, meta)| ==>
              |Grouped(rows, meta)[i].rows| > 0
              && Grouped(rows, meta)[i].rows == RowsIn(rows, meta, Grouped(rows, meta)[i].name)
    ensures forall r :: r in rows ==>
              ((exists i :: 0 <= i < |Grouped(rows, meta)| && r in Grouped(rows, meta)[i].rows)
               <==> GroupName(meta, r.key) in GroupOrder)
    ensures Other !in GroupOrder
  {
    var gs := Grouped(rows, meta);
    ArrangeSpec(GroupOrder, rows, meta);
    forall i | 0 <= i < |gs| ensures |gs[i].rows| > 0 {
      assert gs[i].name == Names(gs)[i];
      assert gs[i].name in Present(GroupOrder, rows, meta);
      PresentMembers(GroupOrder, rows, meta, gs[i].name);
    }
    forall r | r in rows
      ensures (exists i :: 0 <= i < |gs| && r in gs[i].rows) <==> GroupName(meta, r.key) in GroupOrder
    {
      var g := GroupName(meta, r.key);
      RowsInMembers(rows, meta, g, r);
      PresentMembers(GroupOrder, rows, meta, g);
      if g in GroupOrder {
        assert g in Names(gs);
        var i :| 0 <= i < |gs| && Names(gs)[i] == g;
        assert r in gs[i].rows;
      }
      if exists i :: 0 <= i < |gs| && r in gs[i].rows {
        var i :| 0 <= i < |gs| && r in gs[i].rows;
        RowsInMembers(rows, meta, gs[i].name, r);
        PresentMembers(GroupOrder, rows, meta, gs[i].name);
        assert gs[i].name in Names(gs);
      }
    }
  }
}
