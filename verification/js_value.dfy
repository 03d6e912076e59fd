/** Shared helper types. */
module Basics {

  /** A value that may be absent: JavaScript's `null` result, a thrown error. */
  datatype Option<+T> = None | Some(value: T)
}

/**
 * The small part of JavaScript value semantics that the pin editor and the
 * pin store rely on: a JSON-like value, truthiness for `a || b`, property
 * lookup that yields `undefined` for a missing key, array and object spread,
 * and element assignment that may grow an array.
 */
module JsValue {

  import opened Basics

  /** A JavaScript value as it appears in a pin record. */
  datatype Value =
    | Undefined
    | Null
    | Bool(b: bool)
    | Num(n: real)
    | Str(s: string)
    | Arr(elems: seq<Value>)
    | Obj(fields: map<string, Value>)

  /** A plain JavaScript object: its own enumerable properties. */
  type Object = map<string, Value>

  /** A pin as the site handles it, in the editor and in the store client: a plain object. */
  type Pin = Object

  /** `o.key`: a missing property reads as `undefined`. */
  function Get(o: Object, key: string): (v: Value)
    ensures key !in o ==> v == Undefined
    ensures key in o ==> v == o[key]
  {
    if key in o then o[key] else Undefined
  }

  /** JavaScript truthiness (NaN is not representable here). */
  predicate Truthy(v: Value) {
    match v
    case Undefined => false
    case Null => false
    case Bool(b) => b
    case Num(n) => n != 0.0
    case Str(s) => s != ""
    case Arr(_) => true
    case Obj(_) => true
  }

  /** `a || b`: the first operand when it is truthy, otherwise the second. */
  function Or(a: Value, b: Value): (r: Value)
    ensures Truthy(a) ==> r == a
    ensures !Truthy(a) ==> r == b
  {
    if Truthy(a) then a else b
  }

  /**
   * `[...v]`: arrays copy, strings split into one-character strings, and
   * every other value is not iterable (a TypeError, modelled as None).
   */
  function SpreadArray(v: Value): (r: Option<seq<Value>>)
    ensures v.Arr? ==> r == Some(v.elems)
    ensures r.None? <==> !(v.Arr? || v.Str?)
    ensures v.Str? ==> r.Some? && |r.value| == |v.s|
    ensures v.Str? ==> forall i :: 0 <= i < |v.s| ==> r.value[i] == Str([v.s[i]])
  {
    match v
    case Arr(a) => Some(a)
    case Str(s) => Some(seq(|s|, i requires 0 <= i < |s| => Str([s[i]])))
    case _ => None
  }

  /**
   * `{...v}` for the values the editor spreads: an object copies its
   * properties, `undefined` and `null` give the empty object.
   */
  function SpreadObject(v: Value): (r: Object)
    ensures v.Obj? ==> r == v.fields
    ensures !v.Obj? ==> r == map[]
  {
    if v.Obj? then v.fields else map[]
  }

  /** `a[i]`: reading past the end yields `undefined`. */
  function At(a: seq<Value>, i: nat): (v: Value)
    ensures i < |a| ==> v == a[i]
    ensures i >= |a| ==> v == Undefined
  {
    if i < |a| then a[i] else Undefined
  }

  /**
   * `a[i] = v` on a copy: inside the array it replaces one element; past the
   * end the array grows to length i + 1 and the gap is filled with holes,
   * which read back as `undefined`.
   */
  function SetAt(a: seq<Value>, i: nat, v: Value): (r: seq<Value>)
    ensures |r| == if i < |a| then |a| else i + 1
    ensures r[i] == v
    ensures forall j :: 0 <= j < |r| && j != i ==> r[j] == At(a, j)
  {
    if i < |a| then a[i := v]
    else a + seq(i - |a|, _ => Undefined) + [v]
  }

  /** `a.splice(i, 1)` on a copy: removes element i when there is one. */
  function RemoveAt(a: seq<Value>, i: nat): (r: seq<Value>)
    ensures i < |a| ==> |r| == |a| - 1
    ensures i >= |a| ==> r == a
    ensures i < |a| ==> forall j :: 0 <= j < i ==> r[j] == a[j]
    ensures i < |a| ==> forall j :: i <= j < |r| ==> r[j] == a[j + 1]
  {
    if i < |a| then a[..i] + a[i + 1..] else a
  }
}
