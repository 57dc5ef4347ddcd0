/** Pronunciations of a dictionary entry: the audio-file URL built from a
    Merriam-Webster audio token (`audioUrlFromToken`) and the first usable
    pronunciation of an entry (`firstPron`). */
module Pronunciation {
  import opened Wrappers
  import opened JsValue

  const AudioBase: string := "https://media.merriam-webster.com/audio/prons/en/us/mp3/"

  /** `/^\d/` without the `u` flag: an ASCII digit. */
  predicate IsAsciiDigit(c: char) {
    '0' <= c <= '9'
  }

  /** The sub-folder the audio file lives in. `token[0]` of the empty string
      is `undefined`, which the template literal spells out. */
  function AudioFolder(token: string): string
  {
    if "bix" <= token then "bix"
    else if "gg" <= token then "gg"
    else if token != [] && IsAsciiDigit(token[0]) then "number"
    else if token == [] then "undefined"
    else [token[0]]
  }

  function AudioUrl(token: string): (url: string)
    ensures AudioBase <= url
    ensures url[|AudioBase|..] == AudioFolder(token) + "/" + token + ".mp3"
  {
    AudioBase + AudioFolder(token) + "/" + token + ".mp3"
  }

  /** The folder rules in order of precedence: a `bix` prefix wins over a
      `gg` prefix, which wins over a leading digit; otherwise the folder is
      the token's first character, and `undefined` for the empty token. */
  lemma AudioFolderRules(token: string)
    ensures "bix" <= token ==> AudioFolder(token) == "bix"
    ensures "gg" <= token ==> AudioFolder(token) == "gg"
    ensures AudioFolder(token) == "number" <==> token != [] && IsAsciiDigit(token[0])
    ensures AudioFolder(token) == "undefined" <==> token == []
    ensures AudioFolder(token) !in ["number", "undefined"] ==> AudioFolder(token) <= token
    ensures token != [] && !("bix" <= token) && !("gg" <= token) && !IsAsciiDigit(token[0]) ==>
              AudioFolder(token) == [token[0]]
  {
    if "bix" <= token { assert token[0] == 'b'; }
    if "gg" <= token { assert token[0] == 'g'; }
    if token != [] && !("bix" <= token) && !("gg" <= token) && !IsAsciiDigit(token[0]) {
      assert [token[0]] != "number" && [token[0]] != "undefined";
    }
  }

  /** The pronunciation object `{ mw, audioUrl }`; an absent field is None. */
  datatype Pron = Pron(mw: Option<string>, audioUrl: Option<string>)

  /** `p.mw` when it is a string. */
  function MwOf(p: Value): Option<string> {
    var m := Get(p, "mw");
    if m.Str? then Some(m.s) else None
  }

  /** `p.sound?.audio` when it is a string. */
  function AudioToken(p: Value): Option<string> {
    var a := Get(Get(p, "sound"), "audio");
    if a.Str? then Some(a.s) else None
  }

  /** The audio URL built from the audio token, if there is one. */
  function AudioOf(p: Value): (r: Option<string>)
    ensures r.Some? <==> AudioToken(p).Some?
  {
    if AudioToken(p).Some? then Some(AudioUrl(AudioToken(p).value)) else None
  }

  /** `mw || audioUrl` is truthy: a non-empty respelling or any audio token
      (the URL is never empty). */
  predicate Usable(p: Value) {
    (MwOf(p).Some? && MwOf(p).value != []) || AudioToken(p).Some?
  }

  /** The `prs` array of an entry (`e.hwi?.prs`), when it is an array. */
  function PrsOf(e: Value): Option<seq<Value>> {
    var prs := Get(Get(e, "hwi"), "prs");
    if prs.Arr? then Some(prs.elems) else None
  }

  /** Reading `p.mw` throws a TypeError exactly on null and undefined. */
  predicate Throws(p: Value) {
    p.Null? || p.Undefined?
  }

  /** The index of the first usable element, or |prs|. */
  function FirstUsable(prs: seq<Value>): (i: nat)
    ensures i <= |prs|
    ensures i < |prs| ==> Usable(prs[i])
    ensures forall j :: 0 <= j < i ==> !Usable(prs[j])
  {
    if prs == [] then 0
    else if Usable(prs[0]) then 0
    else 1 + FirstUsable(prs[1..])
  }

  /** The pronunciation made of element `p`. */
  function PronAt(p: Value): Pron {
    Pron(MwOf(p), AudioOf(p))
  }

  /** The pronunciation of the first usable element, if any. */
  function PickFirst(prs: seq<Value>): Option<Pron> {
    var k := FirstUsable(prs);
    if k < |prs| then Some(PronAt(prs[k])) else None
  }

  /** Some element before the first usable one is null or undefined. */
  predicate NullBeforeUsable(prs: seq<Value>) {
    exists j :: 0 <= j < FirstUsable(prs) && Throws(prs[j])
  }

  /** `firstPron` as written: it reads `p.mw` on every element it passes,
      so a null element before the first usable one makes it throw. */
  method FirstPronAsWritten(e: Value) returns (r: Outcome<Option<Pron>>)
    ensures PrsOf(e).None? ==> r == Returned(None)
    ensures PrsOf(e).Some? && NullBeforeUsable(PrsOf(e).value) ==> r.Threw?
    ensures PrsOf(e).Some? && !NullBeforeUsable(PrsOf(e).value) ==> r == Returned(PickFirst(PrsOf(e).value))
  {
    var po := PrsOf(e);
    if po.None? {
      return Returned(None);
    }
    var prs := po.value;
    var i := 0;
    while i < |prs|
      invariant i <= |prs|
      invariant forall j :: 0 <= j < i ==> !Usable(prs[j]) && !Throws(prs[j])
    {
      var p := prs[i];
      if Throws(p) {
        ThrowsAt(prs, i);
        return Threw("TypeError: cannot read properties of null (reading 'mw')");
      }
      var mw := MwOf(p);
      var audioUrl := AudioOf(p);
      if (mw.Some? && mw.value != []) || audioUrl.Some? {
        FoundAt(prs, i);
        return Returned(Some(Pron(mw, audioUrl)));
      }
      i := i + 1;
    }
    NoneFound(prs);
    return Returned(None);
  }

  /** A null element reached before any usable one. */
  lemma ThrowsAt(prs: seq<Value>, i: nat)
    requires i < |prs| && Throws(prs[i])
    requires forall j :: 0 <= j < i ==> !Usable(prs[j])
    ensures NullBeforeUsable(prs)
  {
    assert !Usable(prs[i]);
    assert i < FirstUsable(prs);
  }

  /** A usable element reached without passing a null one is the first usable one. */
  lemma FoundAt(prs: seq<Value>, i: nat)
    requires i < |prs| && Usable(prs[i])
    requires forall j :: 0 <= j < i ==> !Usable(prs[j]) && !Throws(prs[j])
    ensures !NullBeforeUsable(prs) && PickFirst(prs) == Some(PronAt(prs[i]))
  {
    assert FirstUsable(prs) == i;
  }

  /** A list without usable and without null elements. */
  lemma NoneFound(prs: seq<Value>)
    requires forall j :: 0 <= j < |prs| ==> !Usable(prs[j]) && !Throws(prs[j])
    ensures !NullBeforeUsable(prs) && PickFirst(prs) == None
  {
    assert FirstUsable(prs) == |prs|;
  }

  /** What `firstPron` is meant to return: the pronunciation of the first
      usable element of `e.hwi.prs`, and none when `prs` is not an array. */
  function PronOf(e: Value): Option<Pron> {
    if PrsOf(e).None? then None else PickFirst(PrsOf(e).value)
  }

  /** `firstPron` with the null check the other extractors have (`?.`). */
  method FirstPron(e: Value) returns (r: Option<Pron>)
    ensures r == PronOf(e)
  {
    var po := PrsOf(e);
    if po.None? {
      return None;
    }
    var prs := po.value;
    var i := 0;
    while i < |prs|
      invariant i <= |prs|
      invariant forall j :: 0 <= j < i ==> !Usable(prs[j])
    {
      var p := prs[i];
      var mw := MwOf(p);
      var audioUrl := AudioOf(p);
      if (mw.Some? && mw.value != []) || audioUrl.Some? {
        assert FirstUsable(prs) == i;
        return Some(Pron(mw, audioUrl));
      }
      i := i + 1;
    }
    assert FirstUsable(prs) == |prs|;
    return None;
  }

  /** There is a pronunciation exactly when some element is usable, and it
      is the one of the first usable element. */
  lemma PickFirstSpec(prs: seq<Value>)
    ensures PickFirst(prs).Some? <==> exists i :: 0 <= i < |prs| && Usable(prs[i])
    ensures PickFirst(prs).Some? ==>
      exists i :: 0 <= i < |prs| && Usable(prs[i])
        && (forall j :: 0 <= j < i ==> !Usable(prs[j]))
        && PickFirst(prs).value == PronAt(prs[i])
  {
    var k := FirstUsable(prs);
    if k == |prs| {
      assert forall i :: 0 <= i < |prs| ==> !Usable(prs[i]);
    }
  }

  /** A pronunciation that is picked has a non-empty respelling or an audio
      URL under the Merriam-Webster audio base. */
  lemma PickedPronIsUsable(p: Value)
    requires Usable(p)
    ensures var r := PronAt(p);
      (r.mw.Some? && r.mw.value != []) || (r.audioUrl.Some? && AudioBase <= r.audioUrl.value)
  {
  }

  /** The entry `{ hwi: { prs: [null] } }`. */
  const NullPrsEntry: Value := Obj([Field("hwi", Obj([Field("prs", Arr([Null]))]))])

  /** On that entry the null element comes before any usable one, so
      `firstPron` as written throws, while the corrected one finds nothing. */
  lemma NullPrsThrows()
    ensures PrsOf(NullPrsEntry) == Some([Null])
    ensures NullBeforeUsable([Null]) && PickFirst([Null]) == None
  {
    assert FirstUsable([Null]) == 1 && Throws([Null][0]);
    assert Get(NullPrsEntry, "hwi") == Obj([Field("prs", Arr([Null]))]);
  }
}
