/** The sidebar's selection logic: the report-type selector and the unit
    multi-select. */
module Sidebar {
  import opened Wrappers
  import opened Versions

  /** `handleAnalTypeChange`: the first type with the chosen code, if any. */
  function AnalTypeChange(types: seq<AnalType>, code: string): (r: Option<AnalType>)
    ensures r.Some? ==> r.value in types && r.value.code == code
    ensures r.None? <==> forall i :: 0 <= i < |types| ==> types[i].code != code
    ensures forall k :: (0 <= k < |types| && types[k].code == code
                         && forall j :: 0 <= j < k ==> types[j].code != code) ==> r == Some(types[k])
  {
    if |types| == 0 then None
    else if types[0].code == code then Some(types[0])
    else
      var r := AnalTypeChange(types[1..], code);
      assert r.None? ==> forall i :: 1 <= i < |types| ==> types[i].code != code by {
        if r.None? {
          forall i | 1 <= i < |types| ensures types[i].code != code {
            assert types[i] == types[1..][i - 1];
          }
        }
      }
      assert forall k :: 1 <= k < |types| ==> types[k] == types[1..][k - 1];
      r
  }

  datatype UnitOption = UnitOption(id: string, name: string)

  /** The option ids in option order. */
  function OptionIds(options: seq<UnitOption>): (ids: seq<string>)
    ensures |ids| == |options| && forall i :: 0 <= i < |options| ==> ids[i] == options[i].id
  {
    seq(|options|, i requires 0 <= i < |options| => options[i].id)
  }

  /** `handleSelectAll`. */
  function SelectAll(options: seq<UnitOption>, checked: bool): (r: seq<string>)
    ensures checked ==> |r| == |options| && forall i :: 0 <= i < |options| ==> r[i] == options[i].id
    ensures checked ==> forall o :: o in options ==> o.id in r
    ensures !checked ==> r == []
  {
    if checked then OptionIds(options) else []
  }

  /** The selection without any occurrence of an id. */
  function Without(ids: seq<string>, id: string): (r: seq<string>)
    ensures id !in r
    ensures forall x :: x != id ==> (x in r <==> x in ids)
    ensures |r| <= |ids|
  {
    if |ids| == 0 then []
    else if ids[0] == id then Without(ids[1..], id)
    else [ids[0]] + Without(ids[1..], id)
  }

  /** `handleOptionClick`: a selected id is filtered out, keeping the other
      ids in their order; an unselected one is appended. */
  function Toggle(ids: seq<string>, id: string): (r: seq<string>)
    ensures id in ids ==> id !in r && forall x :: x != id ==> (x in r <==> x in ids)
    ensures id in ids ==> forall k :: 0 <= k <= |ids| ==> r == Without(ids[..k], id) + Without(ids[k..], id)
    ensures forall k :: 0 <= k < |ids| && ids[k] == id && id !in ids[..k] && id !in ids[k + 1..] ==>
              r == ids[..k] + ids[k + 1..]
    ensures id !in ids ==> r == ids + [id]
  {
    WithoutSplitAll(ids, id);
    WithoutOnceAll(ids, id);
    if id in ids then Without(ids, id) else ids + [id]
  }

  /** The filter distributes over any split of the list, so the kept ids
      keep their relative order. */
  lemma {:induction false} WithoutSplit(ids: seq<string>, id: string, k: nat)
    requires k <= |ids|
    ensures Without(ids, id) == Without(ids[..k], id) + Without(ids[k..], id)
    decreases k
  {
    if k == 0 {
      assert ids[..0] == [] && ids[0..] == ids;
    } else {
      assert ids[1..][..k - 1] == ids[1..k];
      assert ids[1..][k - 1..] == ids[k..];
      WithoutSplit(ids[1..], id, k - 1);
      assert ids[..k][1..] == ids[1..k];
      assert ids[..k][0] == ids[0];
    }
  }

  lemma WithoutSplitAll(ids: seq<string>, id: string)
    ensures forall k :: 0 <= k <= |ids| ==> Without(ids, id) == Without(ids[..k], id) + Without(ids[k..], id)
  {
    forall k | 0 <= k <= |ids| ensures Without(ids, id) == Without(ids[..k], id) + Without(ids[k..], id) {
      WithoutSplit(ids, id, k);
    }
  }

  /** Removing an id that occurs once cuts exactly that position out. */
  lemma WithoutOnceAll(ids: seq<string>, id: string)
    ensures forall k :: 0 <= k < |ids| && ids[k] == id && id !in ids[..k] && id !in ids[k + 1..] ==>
              Without(ids, id) == ids[..k] + ids[k + 1..]
  {
    forall k | 0 <= k < |ids| && ids[k] == id && id !in ids[..k] && id !in ids[k + 1..]
      ensures Without(ids, id) == ids[..k] + ids[k + 1..]
    {
      WithoutSplit(ids, id, k);
      WithoutAbsent(ids[..k], id);
      assert ids[k..] == [id] + ids[k + 1..];
      assert Without(ids[k..], id) == Without(ids[k + 1..], id);
      WithoutAbsent(ids[k + 1..], id);
    }
  }

  lemma {:induction false} WithoutAbsent(ids: seq<string>, id: string)
    requires id !in ids
    ensures Without(ids, id) == ids
  {
    if |ids| > 0 {
      WithoutAbsent(ids[1..], id);
    }
  }

  lemma {:induction false} WithoutSnoc(ids: seq<string>, id: string)
    ensures Without(ids + [id], id) == Without(ids, id)
  {
    if |ids| == 0 {
      assert Without([id], id) == Without([id][1..], id);
    } else {
      assert (ids + [id])[1..] == ids[1..] + [id];
      WithoutSnoc(ids[1..], id);
    }
  }

  /** Toggling an id that is not selected twice restores the selection. */
  lemma ToggleTwice(ids: seq<string>, id: string)
    requires id !in ids
    ensures Toggle(Toggle(ids, id), id) == ids
  {
    WithoutSnoc(ids, id);
    WithoutAbsent(ids, id);
  }

  /** What the dropdown button says. */
  datatype ButtonLabel = Placeholder(text: string) | WholeGroup | Single(name: string) | Count(n: nat)

  /** `options.find(opt => opt.id === id)`. */
  function FindOption(options: seq<UnitOption>, id: string): (r: Option<UnitOption>)
    ensures r.Some? ==> r.value in options && r.value.id == id
    ensures r.None? ==> forall i :: 0 <= i < |options| ==> options[i].id != id
    ensures forall k :: (0 <= k < |options| && options[k].id == id
                         && forall j :: 0 <= j < k ==> options[j].id != id) ==> r == Some(options[k])
  {
    if |options| == 0 then None
    else if options[0].id == id then Some(options[0])
    else
      var r := FindOption(options[1..], id);
      assert r.None? ==> forall i :: 1 <= i < |options| ==> options[i].id != id by {
        if r.None? {
          forall i | 1 <= i < |options| ensures options[i].id != id {
            assert options[i] == options[1..][i - 1];
          }
        }
      }
      assert forall k :: 1 <= k < |options| ==> options[k] == options[1..][k - 1];
      r
  }

  /** `getButtonLabel`: nothing selected gives the placeholder; as many
      selected as there are options gives the group-wide label, checked
      before the single case; one selected gives its option's name (the
      placeholder when not found or unnamed); otherwise the count. */
  function Label(options: seq<UnitOption>, ids: seq<string>, placeholder: string): (r: ButtonLabel)
    ensures |ids| == 0 ==> r == Placeholder(placeholder)
    ensures |ids| > 0 && |ids| == |options| ==> r == WholeGroup
    ensures r.Single? ==> |ids| == 1 && |options| != 1 && exists o :: o in options && o.id == ids[0] && o.name == r.name && o.name != ""
    ensures r.Count? ==> r.n == |ids| && r.n >= 2 && r.n != |options|
    ensures |ids| == 1 && |options| != 1 && (forall i :: 0 <= i < |options| ==> options[i].id != ids[0]) ==> r == Placeholder(placeholder)
    ensures forall k :: (|ids| == 1 && |options| != 1 && 0 <= k < |options| && options[k].id == ids[0]
                         && forall j :: 0 <= j < k ==> options[j].id != ids[0]) ==>
              r == (if options[k].name != "" then Single(options[k].name) else Placeholder(placeholder))
    ensures |ids| >= 2 && |ids| != |options| ==> r == Count(|ids|)
  {
    if |ids| == 0 then Placeholder(placeholder)
    else if |ids| == |options| then WholeGroup
    else if |ids| == 1 then
      (match FindOption(options, ids[0])
       case Some(o) => if o.name != "" then Single(o.name) else Placeholder(placeholder)
       case None => Placeholder(placeholder))
    else Count(|ids|)
  }

  /** `isAllSelected`. */
  predicate IsAllSelected(options: seq<UnitOption>, ids: seq<string>) {
    |options| > 0 && |ids| == |options|
  }

  /** Selecting all checks the box exactly when there are options, and
      the button then reads as the whole group. */
  lemma SelectAllIsAllSelected(options: seq<UnitOption>)
    ensures IsAllSelected(options, SelectAll(options, true)) <==> |options| > 0
    ensures |options| > 0 ==> Label(options, SelectAll(options, true), "Chọn đơn vị") == WholeGroup
    ensures !IsAllSelected(options, SelectAll(options, false))
  {
  }
}
