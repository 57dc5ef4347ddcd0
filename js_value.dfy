/** JavaScript values as the extractors and the logger see them.

    `JSON.parse` only ever yields Null, Bool, Num, Str, Arr and Obj; Undefined
    is what reading a missing property gives, and Exotic stands for an object
    whose prototype is not `Object.prototype` (a Firestore sentinel, a Date). */
module JsValue {

  datatype Value =
    | Undefined
    | Null
    | Bool(b: bool)
    | Num(n: int)
    | Str(s: string)
    | Arr(elems: seq<Value>)
    | Obj(fields: seq<Field>)
    | Exotic(kind: string)

  /** One own property of a plain object, in insertion order. */
  datatype Field = Field(key: string, val: Value)

  /** `typeof x === "object" && x !== null` (arrays included). */
  predicate IsObject(x: Value) {
    x.Arr? || x.Obj? || x.Exotic?
  }

  predicate IsString(x: Value) {
    x.Str?
  }

  /** JavaScript truthiness (numbers are integers here, so NaN does not arise). */
  predicate Truthy(x: Value) {
    match x
    case Undefined => false
    case Null => false
    case Bool(b) => b
    case Num(n) => n != 0
    case Str(s) => s != []
    case _ => true
  }

  /** Index of the first field named `key`, or |fields| when there is none. */
  function FieldIndex(fields: seq<Field>, key: string): (i: nat)
    ensures i <= |fields|
    ensures i < |fields| ==> fields[i].key == key
    ensures forall j :: 0 <= j < i ==> fields[j].key != key
  {
    if fields == [] then 0
    else if fields[0].key == key then 0
    else 1 + FieldIndex(fields[1..], key)
  }

  /** `x?.key` for the properties the extractors read: a plain object's own
      field, and Undefined on everything else. */
  function Get(x: Value, key: string): (r: Value)
    ensures r != Undefined ==> x.Obj? && exists i :: 0 <= i < |x.fields| && x.fields[i] == Field(key, r)
  {
    if x.Obj? then
      var i := FieldIndex(x.fields, key);
      if i < |x.fields| then x.fields[i].val else Undefined
    else Undefined
  }

  /** `Object.values(x)`: the elements of an array, the field values of a
      plain object, nothing for anything else. */
  function Values(x: Value): (vs: seq<Value>)
    ensures x.Arr? ==> vs == x.elems
    ensures x.Obj? ==> |vs| == |x.fields| && forall i :: 0 <= i < |vs| ==> vs[i] == x.fields[i].val
    ensures !x.Arr? && !x.Obj? ==> vs == []
  {
    match x
    case Arr(es) => es
    case Obj(fs) => seq(|fs|, i requires 0 <= i < |fs| => fs[i].val)
    case _ => []
  }

  /** Every value in `Values(x)` is structurally smaller than `x`. */
  lemma ValuesSmaller(x: Value, i: nat)
    requires i < |Values(x)|
    ensures Values(x)[i] < x
  {
    match x
    case Arr(es) =>
    case Obj(fs) =>
      assert Values(x)[i] == fs[i].val;
      assert fs[i] < x;
  }

  lemma AllValuesSmaller(x: Value)
    ensures forall i :: 0 <= i < |Values(x)| ==> Values(x)[i] < x
  {
    forall i | 0 <= i < |Values(x)| ensures Values(x)[i] < x {
      ValuesSmaller(x, i);
    }
  }
}
