/** The type guards of the dictionary route: which parsed JSON values the
    extractors accept as entry arrays and string arrays. */
module Guards {
  import opened JsValue
  import opened SeqUtil

  /** `isMWDictEntryArray` and `isMWThesEntryArray` (both entry guards are
      `isObject`): an array whose every element is an object. */
  predicate IsEntryArray(x: Value) {
    x.Arr? && forall i :: 0 <= i < |x.elems| ==> IsObject(x.elems[i])
  }

  /** `isStringArray`: an array whose every element is a string. */
  predicate IsStringArray(x: Value) {
    x.Arr? && forall i :: 0 <= i < |x.elems| ==> x.elems[i].Str?
  }

  function StrOf(v: Value): seq<string> {
    if v.Str? then [v.s] else []
  }

  /** The strings of an array, in order (all of it, for a string array). */
  function Strings(vs: seq<Value>): seq<string> {
    ConcatMap(StrOf, vs)
  }

  /** On a string array, `Strings` is the element-wise unwrapping. */
  lemma {:induction false} StringsOfStringArray(vs: seq<Value>)
    requires forall i :: 0 <= i < |vs| ==> vs[i].Str?
    ensures |Strings(vs)| == |vs|
    ensures forall i :: 0 <= i < |vs| ==> Strings(vs)[i] == vs[i].s
  {
    if vs != [] {
      StringsOfStringArray(vs[1..]);
      assert Strings(vs) == [vs[0].s] + Strings(vs[1..]);
    }
  }
}
