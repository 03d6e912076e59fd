/**
 * The admin editor's edits to its list of pins.  Every edit rebuilds the
 * list with `pins.map`, replacing only the pins whose `id` equals the edited
 * pin id.  Copying a list field with `[...p[field]]` throws when the field is
 * not iterable; the edit then never reaches `setPins`, so the list stays as
 * it was (None here).
 */
module AdminEdits {

  import opened Basics
  import opened JsValue

  /** `p.id`. */
  function Id(p: Pin): Value {
    Get(p, "id")
  }

  /** The pin's list `field` is an array and `index` addresses one of its elements. */
  predicate InRange(p: Pin, field: string, index: nat) {
    Get(p, field).Arr? && index < |Get(p, field).elems|
  }

  /** The editor's state touched by the edits: the pin list and the pin open in the form. */
  datatype Editor = Editor(pins: seq<Pin>, selected: Option<Pin>)

  /**
   * `pins.map(p => p.id !== pinId ? p : edit(p))`, where `edit` may throw;
   * one throw aborts the whole map.
   */
  function MapMatching(pins: seq<Pin>, pinId: Value, edit: Pin -> Option<Pin>): (r: Option<seq<Pin>>)
    ensures r.None? <==> exists i :: 0 <= i < |pins| && Id(pins[i]) == pinId && edit(pins[i]).None?
    ensures r.Some? ==> |r.value| == |pins|
    ensures r.Some? ==> forall i :: 0 <= i < |pins| && Id(pins[i]) != pinId ==> r.value[i] == pins[i]
    ensures r.Some? ==> forall i :: 0 <= i < |pins| && Id(pins[i]) == pinId ==> edit(pins[i]) == Some(r.value[i])
    decreases |pins|
  {
    if pins == [] then Some([])
    else
      var head := if Id(pins[0]) == pinId then edit(pins[0]) else Some(pins[0]);
      var tail := MapMatching(pins[1..], pinId, edit);
      assert forall i :: 1 <= i < |pins| ==> pins[i] == pins[1..][i - 1];
      if head.None? || tail.None? then None
      else Some([head.value] + tail.value)
  }

  /** The field edit as the function `updatePinField` maps over the pins. */
  function FieldSetting(field: string, value: Value): Pin -> Option<Pin> {
    p => Some(p[field := value])
  }

  /**
   * updatePinField: `{...p, [field]: value}` on every pin with the id, and
   * on the open pin when its id matches.  With no pin open, `selectedPin?.id`
   * is undefined, so an undefined pin id opens `{[field]: value}`.
   */
  function UpdatePinField(e: Editor, pinId: Value, field: string, value: Value): (r: Editor)
    ensures |r.pins| == |e.pins|
    ensures forall i :: 0 <= i < |e.pins| && Id(e.pins[i]) != pinId ==> r.pins[i] == e.pins[i]
    ensures forall i :: 0 <= i < |e.pins| && Id(e.pins[i]) == pinId ==>
      && Get(r.pins[i], field) == value
      && r.pins[i].Keys == e.pins[i].Keys + {field}
      && forall k :: k != field ==> Get(r.pins[i], k) == Get(e.pins[i], k)
    ensures field != "id" ==> forall i :: 0 <= i < |e.pins| ==> Id(r.pins[i]) == Id(e.pins[i])
    ensures e.selected.Some? && Id(e.selected.value) == pinId ==>
      && r.selected.Some?
      && Get(r.selected.value, field) == value
      && r.selected.value.Keys == e.selected.value.Keys + {field}
      && forall k :: k != field ==> Get(r.selected.value, k) == Get(e.selected.value, k)
    ensures e.selected.Some? && Id(e.selected.value) != pinId ==> r.selected == e.selected
    ensures e.selected.None? ==> (r.selected.Some? <==> pinId == Undefined)
    ensures e.selected.None? && pinId == Undefined ==> r.selected == Some(map[field := value])
  {
    var pins := MapMatching(e.pins, pinId, FieldSetting(field, value));
    var selectedId := if e.selected.Some? then Id(e.selected.value) else Undefined;
    var prev := if e.selected.Some? then e.selected.value else map[];
    Editor(pins.value, if selectedId == pinId then Some(prev[field := value]) else e.selected)
  }

  /** The array-item edit applied to one pin. */
  function EditArrayItem(p: Pin, field: string, index: nat, key: string, value: Value): Option<Pin> {
    match SpreadArray(Get(p, field))
    case None => None
    case Some(arr) =>
      Some(p[field := Arr(SetAt(arr, index, Obj(SpreadObject(At(arr, index))[key := value])))])
  }

  /** The array-item edit as the function `updateArrayItem` maps over the pins. */
  function ItemSetting(field: string, index: nat, key: string, value: Value): Pin -> Option<Pin> {
    p => EditArrayItem(p, field, index, key, value)
  }

  /**
   * updateArrayItem: `arr[index] = {...arr[index], [key]: value}` in a copy
   * of the pin's list `field`.  In range, only `key` of element `index`
   * changes.
   */
  function UpdateArrayItem(pins: seq<Pin>, pinId: Value, field: string, index: nat, key: string, value: Value)
    : (r: Option<seq<Pin>>)
    ensures r.None? <==> exists i :: (0 <= i < |pins| && Id(pins[i]) == pinId &&
      !(Get(pins[i], field).Arr? || Get(pins[i], field).Str?))
    ensures r.Some? ==> |r.value| == |pins|
    ensures r.Some? ==> forall i :: 0 <= i < |pins| && Id(pins[i]) != pinId ==> r.value[i] == pins[i]
    ensures r.Some? ==> forall i :: 0 <= i < |pins| && Id(pins[i]) == pinId ==>
      && r.value[i].Keys == pins[i].Keys
      && forall k :: k != field ==> Get(r.value[i], k) == Get(pins[i], k)
    ensures r.Some? ==> forall i :: 0 <= i < |pins| && Id(pins[i]) == pinId && InRange(pins[i], field, index) ==>
        var a := Get(pins[i], field).elems;
        && Get(r.value[i], field).Arr?
        && |Get(r.value[i], field).elems| == |a|
        && (forall j :: 0 <= j < |a| && j != index ==> Get(r.value[i], field).elems[j] == a[j])
        && Get(r.value[i], field).elems[index].Obj?
        && Get(r.value[i], field).elems[index].fields.Keys == SpreadObject(a[index]).Keys + {key}
        && Get(Get(r.value[i], field).elems[index].fields, key) == value
        && forall k :: k != key ==>
             Get(Get(r.value[i], field).elems[index].fields, k) == Get(SpreadObject(a[index]), k)
  {
    MapMatching(pins, pinId, ItemSetting(field, index, key, value))
  }

  /** The append edit applied to one pin. */
  function EditAppend(p: Pin, field: string, template: Value): Option<Pin> {
    match SpreadArray(Get(p, field))
    case None => None
    case Some(arr) => Some(p[field := Arr(arr + [template])])
  }

  /** The append edit as the function `addArrayItem` maps over the pins. */
  function Appending(field: string, template: Value): Pin -> Option<Pin> {
    p => EditAppend(p, field, template)
  }

  /** addArrayItem: `[...p[field], template]`. */
  function AddArrayItem(pins: seq<Pin>, pinId: Value, field: string, template: Value): (r: Option<seq<Pin>>)
    ensures r.None? <==> exists i :: (0 <= i < |pins| && Id(pins[i]) == pinId &&
      !(Get(pins[i], field).Arr? || Get(pins[i], field).Str?))
    ensures r.Some? ==> |r.value| == |pins|
    ensures r.Some? ==> forall i :: 0 <= i < |pins| && Id(pins[i]) != pinId ==> r.value[i] == pins[i]
    ensures r.Some? ==> forall i :: 0 <= i < |pins| && Id(pins[i]) == pinId ==>
      && r.value[i].Keys == pins[i].Keys
      && forall k :: k != field ==> Get(r.value[i], k) == Get(pins[i], k)
    ensures r.Some? ==> forall i :: 0 <= i < |pins| && Id(pins[i]) == pinId && Get(pins[i], field).Arr? ==>
      var a := Get(pins[i], field).elems;
      && Get(r.value[i], field).Arr?
      && |Get(r.value[i], field).elems| == |a| + 1
      && Get(r.value[i], field).elems[..|a|] == a
      && Get(r.value[i], field).elems[|a|] == template
  {
    MapMatching(pins, pinId, Appending(field, template))
  }

  /** The removal edit applied to one pin. */
  function EditRemove(p: Pin, field: string, index: nat): Option<Pin> {
    match SpreadArray(Get(p, field))
    case None => None
    case Some(arr) => Some(p[field := Arr(RemoveAt(arr, index))])
  }

  /** The removal edit as the function `removeArrayItem` maps over the pins. */
  function Removing(field: string, index: nat): Pin -> Option<Pin> {
    p => EditRemove(p, field, index)
  }

  /** removeArrayItem: `arr.splice(index, 1)` on a copy of the list. */
  function RemoveArrayItem(pins: seq<Pin>, pinId: Value, field: string, index: nat): (r: Option<seq<Pin>>)
    ensures r.None? <==> exists i :: (0 <= i < |pins| && Id(pins[i]) == pinId &&
      !(Get(pins[i], field).Arr? || Get(pins[i], field).Str?))
    ensures r.Some? ==> |r.value| == |pins|
    ensures r.Some? ==> forall i :: 0 <= i < |pins| && Id(pins[i]) != pinId ==> r.value[i] == pins[i]
    ensures r.Some? ==> forall i :: 0 <= i < |pins| && Id(pins[i]) == pinId ==>
      && r.value[i].Keys == pins[i].Keys
      && forall k :: k != field ==> Get(r.value[i], k) == Get(pins[i], k)
    ensures r.Some? ==> forall i :: 0 <= i < |pins| && Id(pins[i]) == pinId && Get(pins[i], field).Arr? ==>
      var a := Get(pins[i], field).elems;
      && Get(r.value[i], field).Arr?
      && (index < |a| ==> Get(r.value[i], field).elems == a[..index] + a[index + 1..])
      && (index >= |a| ==> Get(r.value[i], field).elems == a)
  {
    MapMatching(pins, pinId, Removing(field, index))
  }

  /** The question edit applied to one pin. */
  function EditQuestion(p: Pin, index: nat, value: Value): Option<Pin> {
    match SpreadArray(Get(p, "questions"))
    case None => None
    case Some(qs) => Some(p["questions" := Arr(SetAt(qs, index, value))])
  }

  /** The question edit as the function `updateQuestion` maps over the pins. */
  function QuestionSetting(index: nat, value: Value): Pin -> Option<Pin> {
    p => EditQuestion(p, index, value)
  }

  /** updateQuestion: `questions[index] = value` on a copy of the pin's questions. */
  function UpdateQuestion(pins: seq<Pin>, pinId: Value, index: nat, value: Value): (r: Option<seq<Pin>>)
    ensures r.None? <==> exists i :: (0 <= i < |pins| && Id(pins[i]) == pinId &&
      !(Get(pins[i], "questions").Arr? || Get(pins[i], "questions").Str?))
    ensures r.Some? ==> |r.value| == |pins|
    ensures r.Some? ==> forall i :: 0 <= i < |pins| && Id(pins[i]) != pinId ==> r.value[i] == pins[i]
    ensures r.Some? ==> forall i :: 0 <= i < |pins| && Id(pins[i]) == pinId ==>
      && r.value[i].Keys == pins[i].Keys
      && forall k :: k != "questions" ==> Get(r.value[i], k) == Get(pins[i], k)
    ensures r.Some? ==> forall i :: 0 <= i < |pins| && Id(pins[i]) == pinId && InRange(pins[i], "questions", index) ==>
        var qs := Get(pins[i], "questions").elems;
        && Get(r.value[i], "questions").Arr?
        && |Get(r.value[i], "questions").elems| == |qs|
        && Get(r.value[i], "questions").elems[index] == value
        && forall j :: 0 <= j < |qs| && j != index ==> Get(r.value[i], "questions").elems[j] == qs[j]
  {
    MapMatching(pins, pinId, QuestionSetting(index, value))
  }

  /** On one pin: appending to an array and removing its last element restores the pin. */
  lemma AppendThenRemoveOne(p: Pin, field: string, template: Value)
    requires Get(p, field).Arr?
    ensures EditAppend(p, field, template).Some?
    ensures EditRemove(EditAppend(p, field, template).value, field, |Get(p, field).elems|) == Some(p)
  {
    var a := Get(p, field).elems;
    var added := p[field := Arr(a + [template])];
    assert (a + [template])[..|a|] + (a + [template])[|a| + 1..] == a;
    assert added[field := Arr(a)] == p;
  }

  /** One step of the map: the head pin, then the rest. */
  lemma MapMatchingCons(p: Pin, rest: seq<Pin>, pinId: Value, edit: Pin -> Option<Pin>)
    ensures var head := if Id(p) == pinId then edit(p) else Some(p);
      var tail := MapMatching(rest, pinId, edit);
      MapMatching([p] + rest, pinId, edit) ==
        if head.None? || tail.None? then None else Some([head.value] + tail.value)
  {
    assert ([p] + rest)[0] == p && ([p] + rest)[1..] == rest;
  }

  /**
   * Mapping `undo` over the result of mapping `edit` restores the list when,
   * on every pin with the id, `edit` succeeds, keeps the id, and `undo`
   * reverts it.
   */
  lemma {:induction false} MapMatchingUndo(pins: seq<Pin>, pinId: Value, edit: Pin -> Option<Pin>, undo: Pin -> Option<Pin>)
    requires forall i :: 0 <= i < |pins| && Id(pins[i]) == pinId ==>
      edit(pins[i]).Some? && Id(edit(pins[i]).value) == pinId && undo(edit(pins[i]).value) == Some(pins[i])
    ensures MapMatching(pins, pinId, edit).Some?
    ensures MapMatching(MapMatching(pins, pinId, edit).value, pinId, undo) == Some(pins)
    decreases |pins|
  {
    if pins != [] {
      var p, rest := pins[0], pins[1..];
      assert pins == [p] + rest;
      assert forall i :: 1 <= i < |pins| ==> pins[i] == rest[i - 1];
      MapMatchingUndo(rest, pinId, edit, undo);
      var tail := MapMatching(rest, pinId, edit).value;
      var head := if Id(p) == pinId then edit(p).value else p;
      MapMatchingCons(p, rest, pinId, edit);
      MapMatchingCons(head, tail, pinId, undo);
      assert (if Id(head) == pinId then undo(head) else Some(head)) == Some(p);
    }
  }

  /**
   * Adding an item and then removing the last one gives back the original
   * list, when every pin with the id holds an array of the same length
   * (and the list edited is not the id itself).
   */
  lemma AddThenRemoveLast(pins: seq<Pin>, pinId: Value, field: string, template: Value, n: nat)
    requires field != "id"
    requires forall i :: 0 <= i < |pins| && Id(pins[i]) == pinId ==>
      Get(pins[i], field).Arr? && |Get(pins[i], field).elems| == n
    ensures AddArrayItem(pins, pinId, field, template).Some?
    ensures RemoveArrayItem(AddArrayItem(pins, pinId, field, template).value, pinId, field, n) == Some(pins)
  {
    var edit, undo := Appending(field, template), Removing(field, n);
    forall i | 0 <= i < |pins| && Id(pins[i]) == pinId
      ensures edit(pins[i]).Some? && Id(edit(pins[i]).value) == pinId && undo(edit(pins[i]).value) == Some(pins[i])
    {
      AppendThenRemoveOne(pins[i], field, template);
    }
    MapMatchingUndo(pins, pinId, edit, undo);
  }

  /**
   * Mapping an edit twice equals mapping it once when, on every pin with
   * the id, the edit succeeds and, if the edited pin still has the id,
   * editing it again changes nothing.
   */
  lemma {:induction false} MapMatchingTwice(pins: seq<Pin>, pinId: Value, edit: Pin -> Option<Pin>)
    requires forall i :: 0 <= i < |pins| && Id(pins[i]) == pinId ==>
      edit(pins[i]).Some? && (Id(edit(pins[i]).value) == pinId ==> edit(edit(pins[i]).value) == edit(pins[i]))
    ensures MapMatching(pins, pinId, edit).Some?
    ensures MapMatching(MapMatching(pins, pinId, edit).value, pinId, edit) == MapMatching(pins, pinId, edit)
    decreases |pins|
  {
    if pins != [] {
      var p, rest := pins[0], pins[1..];
      assert pins == [p] + rest;
      assert forall i :: 1 <= i < |pins| ==> pins[i] == rest[i - 1];
      MapMatchingTwice(rest, pinId, edit);
      var tail := MapMatching(rest, pinId, edit).value;
      var head := if Id(p) == pinId then edit(p).value else p;
      MapMatchingCons(p, rest, pinId, edit);
      MapMatchingCons(head, tail, pinId, edit);
      assert (if Id(head) == pinId then edit(head) else Some(head)) == Some(head);
    }
  }

  /** Setting a field to a value twice is the same as setting it once. */
  lemma UpdatePinFieldTwice(e: Editor, pinId: Value, field: string, value: Value)
    ensures var once := UpdatePinField(e, pinId, field, value);
      UpdatePinField(once, pinId, field, value).pins == once.pins
  {
    var edit := FieldSetting(field, value);
    forall i | 0 <= i < |e.pins| && Id(e.pins[i]) == pinId
      ensures edit(e.pins[i]).Some? && (Id(edit(e.pins[i]).value) == pinId ==> edit(edit(e.pins[i]).value) == edit(e.pins[i]))
    {
      assert e.pins[i][field := value][field := value] == e.pins[i][field := value];
    }
    MapMatchingTwice(e.pins, pinId, edit);
  }

  /** On one pin: writing the same key of the same element twice is the same as once. */
  lemma EditArrayItemTwice(p: Pin, field: string, index: nat, key: string, value: Value)
    requires Get(p, field).Arr? || Get(p, field).Str?
    ensures EditArrayItem(p, field, index, key, value).Some?
    ensures var q := EditArrayItem(p, field, index, key, value).value;
      EditArrayItem(q, field, index, key, value) == Some(q)
  {
    var arr := SpreadArray(Get(p, field)).value;
    var item := Obj(SpreadObject(At(arr, index))[key := value]);
    var arr2 := SetAt(arr, index, item);
    var q := p[field := Arr(arr2)];
    assert Get(q, field) == Arr(arr2);
    assert At(arr2, index) == item;
    assert SpreadObject(item)[key := value] == item.fields;
    assert SetAt(arr2, index, item) == arr2;
    assert q[field := Arr(arr2)] == q;
  }

  /** updateArrayItem with the same arguments twice is the same as once. */
  lemma UpdateArrayItemTwice(pins: seq<Pin>, pinId: Value, field: string, index: nat, key: string, value: Value)
    requires forall i :: 0 <= i < |pins| && Id(pins[i]) == pinId ==>
      Get(pins[i], field).Arr? || Get(pins[i], field).Str?
    ensures UpdateArrayItem(pins, pinId, field, index, key, value).Some?
    ensures var once := UpdateArrayItem(pins, pinId, field, index, key, value).value;
      UpdateArrayItem(once, pinId, field, index, key, value) == Some(once)
  {
    var edit := ItemSetting(field, index, key, value);
    forall i | 0 <= i < |pins| && Id(pins[i]) == pinId
      ensures edit(pins[i]).Some? && (Id(edit(pins[i]).value) == pinId ==> edit(edit(pins[i]).value) == edit(pins[i]))
    {
      EditArrayItemTwice(pins[i], field, index, key, value);
    }
    MapMatchingTwice(pins, pinId, edit);
  }

  /** On one pin: writing the same question twice is the same as once. */
  lemma EditQuestionTwice(p: Pin, index: nat, value: Value)
    requires Get(p, "questions").Arr? || Get(p, "questions").Str?
    ensures EditQuestion(p, index, value).Some?
    ensures var q := EditQuestion(p, index, value).value;
      EditQuestion(q, index, value) == Some(q)
  {
    var qs := SpreadArray(Get(p, "questions")).value;
    var qs2 := SetAt(qs, index, value);
    var q := p["questions" := Arr(qs2)];
    assert Get(q, "questions") == Arr(qs2);
    assert SetAt(qs2, index, value) == qs2;
    assert q["questions" := Arr(qs2)] == q;
  }

  /** updateQuestion with the same arguments twice is the same as once. */
  lemma UpdateQuestionTwice(pins: seq<Pin>, pinId: Value, index: nat, value: Value)
    requires forall i :: 0 <= i < |pins| && Id(pins[i]) == pinId ==>
      Get(pins[i], "questions").Arr? || Get(pins[i], "questions").Str?
    ensures UpdateQuestion(pins, pinId, index, value).Some?
    ensures var once := UpdateQuestion(pins, pinId, index, value).value;
      UpdateQuestion(once, pinId, index, value) == Some(once)
  {
    var edit := QuestionSetting(index, value);
    forall i | 0 <= i < |pins| && Id(pins[i]) == pinId
      ensures edit(pins[i]).Some? && (Id(edit(pins[i]).value) == pinId ==> edit(edit(pins[i]).value) == edit(pins[i]))
    {
      EditQuestionTwice(pins[i], index, value);
    }
    MapMatchingTwice(pins, pinId, edit);
  }
}
