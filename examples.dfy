/** Example sentences of a dictionary entry: a deep walk over the sense
    trees of every definition block (`walkSseq`) that collects the `t` text
    of each `vis` and `uns` item of a `dt` array (`collectDtExamples`) into
    a capped `Set` (`extractExamplesFromEntry`). */
module Examples {
  import opened JsValue
  import opened OrderedSet
  import opened SeqUtil
  import opened MarkupCleaner

  /** The default cap of `extractExamplesFromEntry`. */
  const ExampleLimit: int := 6

  /* ---------- what the walk offers to the set, in order ---------- */

  /** One element of a `vis`/`uns` list: its `t`, when that is a string. */
  function TText(v: Value): seq<string> {
    var t := Get(v, "t");
    if t.Str? then [t.s] else []
  }

  /** The texts as the set receives them: each one passed through `clean`, in order. */
  function Cleaned(clean: string -> string, raws: seq<string>): (r: seq<string>)
    ensures |r| == |raws|
    decreases |raws|
  {
    if raws == [] then [] else [clean(raws[0])] + Cleaned(clean, raws[1..])
  }

  /** A `["vis", [...]]` or `["uns", [...]]` item of a `dt` array (further
      elements of the item are ignored). */
  predicate IsExampleItem(item: Value) {
    && item.Arr? && |item.elems| >= 2
    && (item.elems[0] == Str("vis") || item.elems[0] == Str("uns"))
    && item.elems[1].Arr?
  }

  /** One item of a `dt` array. */
  function DtItemTexts(item: Value): seq<string> {
    if IsExampleItem(item) then ConcatMap(TText, item.elems[1].elems) else []
  }

  /** Everything `collectDtExamples` would add to an unbounded set. */
  function DtTexts(dt: Value): seq<string> {
    if dt.Arr? then ConcatMap(DtItemTexts, dt.elems) else []
  }

  /** Everything `walkSseq` would offer to an unbounded set, in visiting
      order. A `[string, payload]` pair contributes the payload's `dt` and
      then the payload's object-valued children; any other array all its
      children; any other object its object-valued children. */
  function Candidates(node: Value): seq<string>
    decreases node, |Values(node)| + 1
  {
    if !Truthy(node) then []
    else if node.Arr? then
      var es := node.elems;
      if |es| >= 2 && es[0].Str? then
        var payload := es[1];
        if IsObject(payload) then
          AllValuesSmaller(payload);
          DtTexts(Get(payload, "dt")) + Children(payload, Values(payload), true)
        else []
      else
        AllValuesSmaller(node);
        Children(node, es, false)
    else if IsObject(node) then
      AllValuesSmaller(node);
      Children(node, Values(node), true)
    else []
  }

  /** The candidates of the children `vs` of `parent`, all of them or only
      the object-valued ones, in order (built from the back, so that a loop
      over a growing prefix extends it by one child). */
  function Children(ghost parent: Value, vs: seq<Value>, objectsOnly: bool): seq<string>
    requires forall i :: 0 <= i < |vs| ==> vs[i] < parent
    decreases parent, |vs|
  {
    if vs == [] then []
    else
      var last := vs[|vs| - 1];
      Children(parent, vs[..|vs| - 1], objectsOnly)
      + (if !objectsOnly || IsObject(last) then Candidates(last) else [])
  }

  /** The candidates of one definition block: those of its `sseq`. */
  function SseqCandidates(d: Value): seq<string> {
    Candidates(Get(d, "sseq"))
  }

  /** Everything `extractExamplesFromEntry` would collect without a cap. */
  function EntryCandidates(e: Value): seq<string> {
    var defs := Get(e, "def");
    if defs.Arr? then ConcatMap(SseqCandidates, defs.elems) else []
  }

  /** The examples of an entry: the cleaned candidates, deduplicated, cut at `limit`. */
  function EntryExamples(e: Value, limit: int): seq<string> {
    Capped([], Cleaned(CleanMWText, EntryCandidates(e)), limit)
  }

  /* ---------- the imperative collectors ----------

     The walkers receive the text cleaner as the parameter `clean`; the
     entry point passes `CleanMWText`, which is what the source calls at
     the same place. */

  /** `collectDtExamples`: the set grows by the cleaned `t` texts of the
      `vis` and `uns` items, and the method returns as soon as an add leaves
      the set at the cap. */
  method CollectDtExamples(clean: string -> string, dt: Value, out: MutableSet<string>, limit: int)
    modifies out
    ensures out.items == AddThenCheck(old(out.items), Cleaned(clean, DtTexts(dt)), limit)
  {
    if !dt.Arr? {
      return;
    }
    var items := dt.elems;
    ghost var start := out.items;
    ghost var done: seq<string> := [];
    var i := 0;
    while i < |items|
      invariant 0 <= i <= |items|
      invariant done == ConcatMap(DtItemTexts, items[..i])
      invariant out.items == AddThenCheck(start, Cleaned(clean, done), limit)
      invariant done != [] ==> |out.items| < limit
    {
      ghost var next := ConcatMap(DtItemTexts, items[..i + 1]);
      var item := items[i];
      if IsExampleItem(item) {
        ItemVisited(clean, start, items, i, limit);
        var full := CollectTexts(clean, item.elems[1].elems, out, limit);
        assert out.items == AddThenCheck(start, Cleaned(clean, next), limit);
        if full {
          ItemStop(clean, start, items, i, limit);
          return;
        }
        assert next != [] ==> |out.items| < limit;
      } else {
        ItemSkipped(items, i);
      }
      done := next;
      i := i + 1;
    }
    assert items[..i] == items;
  }

  /** A `vis`/`uns` item continues the run with the texts of its list. */
  lemma ItemVisited(clean: string -> string, start: seq<string>, items: seq<Value>, i: nat, limit: int)
    requires i < |items| && IsExampleItem(items[i])
    requires ConcatMap(DtItemTexts, items[..i]) != [] ==>
      |AddThenCheck(start, Cleaned(clean, ConcatMap(DtItemTexts, items[..i])), limit)| < limit
    ensures ConcatMap(DtItemTexts, items[..i + 1])
      == ConcatMap(DtItemTexts, items[..i]) + ConcatMap(TText, items[i].elems[1].elems)
    ensures AddThenCheck(start, Cleaned(clean, ConcatMap(DtItemTexts, items[..i + 1])), limit)
      == AddThenCheck(AddThenCheck(start, Cleaned(clean, ConcatMap(DtItemTexts, items[..i])), limit),
                      Cleaned(clean, ConcatMap(TText, items[i].elems[1].elems)), limit)
  {
    var a := ConcatMap(DtItemTexts, items[..i]);
    var b := ConcatMap(TText, items[i].elems[1].elems);
    ConcatMapSnoc(DtItemTexts, items, i);
    CleanedAppend(clean, a, b);
    Join(start, Cleaned(clean, a), Cleaned(clean, b), limit);
  }

  /** Any other item offers nothing. */
  lemma ItemSkipped(items: seq<Value>, i: nat)
    requires i < |items| && !IsExampleItem(items[i])
    ensures ConcatMap(DtItemTexts, items[..i + 1]) == ConcatMap(DtItemTexts, items[..i])
  {
    ConcatMapSnoc(DtItemTexts, items, i);
    assert DtItemTexts(items[i]) == [];
  }

  /** Once an add has left the set at the cap, the remaining items change nothing. */
  lemma ItemStop(clean: string -> string, start: seq<string>, items: seq<Value>, i: nat, limit: int)
    requires i < |items| && ConcatMap(DtItemTexts, items[..i + 1]) != []
    requires |AddThenCheck(start, Cleaned(clean, ConcatMap(DtItemTexts, items[..i + 1])), limit)| >= limit
    ensures AddThenCheck(start, Cleaned(clean, DtTexts(Arr(items))), limit)
      == AddThenCheck(start, Cleaned(clean, ConcatMap(DtItemTexts, items[..i + 1])), limit)
  {
    var a := ConcatMap(DtItemTexts, items[..i + 1]);
    var b := ConcatMap(DtItemTexts, items[i + 1..]);
    ConcatMapSplit(DtItemTexts, items, i + 1);
    CleanedAppend(clean, a, b);
    AddThenCheckAppend(start, Cleaned(clean, a), Cleaned(clean, b), limit);
  }

  /** The two inner loops of `collectDtExamples`, over a `vis` and over an
      `uns` list, which are the same: adds the cleaned `t` texts of `vs` and
      reports whether an add left the set at the cap (where the source returns). */
  method CollectTexts(clean: string -> string, vs: seq<Value>, out: MutableSet<string>, limit: int) returns (full: bool)
    modifies out
    ensures out.items == AddThenCheck(old(out.items), Cleaned(clean, ConcatMap(TText, vs)), limit)
    ensures full <==> ConcatMap(TText, vs) != [] && |out.items| >= limit
  {
    ghost var start := out.items;
    var j := 0;
    while j < |vs|
      invariant 0 <= j <= |vs|
      invariant out.items == AddThenCheck(start, Cleaned(clean, ConcatMap(TText, vs[..j])), limit)
      invariant ConcatMap(TText, vs[..j]) != [] ==> |out.items| < limit
    {
      var t := Get(vs[j], "t");
      if t.Str? {
        TextAdded(clean, start, vs, j, limit);
        out.Add(clean(t.s));
        if out.Size() >= limit {
          TextStop(clean, start, vs, j, limit);
          return true;
        }
      } else {
        TextSkipped(vs, j);
      }
      j := j + 1;
    }
    assert vs[..j] == vs;
    return false;
  }

  /** Cleaning commutes with concatenation and keeps emptiness. */
  lemma {:induction false} CleanedAppend(clean: string -> string, a: seq<string>, b: seq<string>)
    ensures Cleaned(clean, a + b) == Cleaned(clean, a) + Cleaned(clean, b)
    decreases |a|
  {
    if a == [] {
      assert a + b == b;
    } else {
      assert (a + b)[0] == a[0] && (a + b)[1..] == a[1..] + b;
      CleanedAppend(clean, a[1..], b);
    }
  }

  /** An element with a string `t` offers its cleaned text. */
  lemma TextAdded(clean: string -> string, start: seq<string>, vs: seq<Value>, j: nat, limit: int)
    requires j < |vs| && Get(vs[j], "t").Str?
    requires ConcatMap(TText, vs[..j]) != [] ==> |AddThenCheck(start, Cleaned(clean, ConcatMap(TText, vs[..j])), limit)| < limit
    ensures ConcatMap(TText, vs[..j + 1]) != []
    ensures AddThenCheck(start, Cleaned(clean, ConcatMap(TText, vs[..j + 1])), limit)
      == Insert(AddThenCheck(start, Cleaned(clean, ConcatMap(TText, vs[..j])), limit), clean(Get(vs[j], "t").s))
  {
    var sofar := ConcatMap(TText, vs[..j]);
    var raw := Get(vs[j], "t").s;
    ConcatMapSnoc(TText, vs, j);
    assert ConcatMap(TText, vs[..j + 1]) == sofar + [raw];
    CleanedAppend(clean, sofar, [raw]);
    assert Cleaned(clean, [raw]) == [clean(raw)];
    StepOne(start, Cleaned(clean, sofar), clean(raw), limit);
  }

  /** Any other element offers nothing. */
  lemma TextSkipped(vs: seq<Value>, j: nat)
    requires j < |vs| && !Get(vs[j], "t").Str?
    ensures ConcatMap(TText, vs[..j + 1]) == ConcatMap(TText, vs[..j])
  {
    ConcatMapSnoc(TText, vs, j);
    assert TText(vs[j]) == [];
  }

  /** Once an add has left the set at the cap, the rest of the list changes nothing. */
  lemma TextStop(clean: string -> string, start: seq<string>, vs: seq<Value>, j: nat, limit: int)
    requires j < |vs| && ConcatMap(TText, vs[..j + 1]) != []
    requires |AddThenCheck(start, Cleaned(clean, ConcatMap(TText, vs[..j + 1])), limit)| >= limit
    ensures ConcatMap(TText, vs) != []
    ensures AddThenCheck(start, Cleaned(clean, ConcatMap(TText, vs)), limit)
      == AddThenCheck(start, Cleaned(clean, ConcatMap(TText, vs[..j + 1])), limit)
  {
    var a := ConcatMap(TText, vs[..j + 1]);
    var b := ConcatMap(TText, vs[j + 1..]);
    ConcatMapSplit(TText, vs, j + 1);
    CleanedAppend(clean, a, b);
    AddThenCheckAppend(start, Cleaned(clean, a), Cleaned(clean, b), limit);
  }

  /** Continuing a run that has not stopped. */
  lemma Join(start: seq<string>, done: seq<string>, more: seq<string>, limit: int)
    requires done != [] ==> |AddThenCheck(start, done, limit)| < limit
    ensures AddThenCheck(start, done + more, limit) == AddThenCheck(AddThenCheck(start, done, limit), more, limit)
  {
    if done == [] {
      assert done + more == more;
    } else {
      AddThenCheckAppend(start, done, more, limit);
    }
  }

  /** One add of the collector, when the run has not stopped yet. */
  lemma StepOne(start: seq<string>, sofar: seq<string>, x: string, limit: int)
    requires sofar != [] ==> |AddThenCheck(start, sofar, limit)| < limit
    ensures AddThenCheck(start, sofar + [x], limit) == Insert(AddThenCheck(start, sofar, limit), x)
  {
    if sofar == [] {
      assert sofar + [x] == [x];
    } else {
      AddThenCheckAppend(start, sofar, [x], limit);
    }
  }

  /** `walkSseq`: the set ends up as the capped insertion of the node's
      cleaned candidates; a falsy node, or a set already at the cap, leaves
      it as it is. */
  method WalkSseq(clean: string -> string, node: Value, out: MutableSet<string>, limit: int)
    modifies out
    ensures out.items == Capped(old(out.items), Cleaned(clean, Candidates(node)), limit)
    decreases node, |Values(node)| + 1
  {
    if !Truthy(node) || out.Size() >= limit {
      return;
    }
    if node.Arr? {
      var es := node.elems;
      if |es| >= 2 && es[0].Str? {
        var payload := es[1];
        if IsObject(payload) {
          var dt := Get(payload, "dt");
          ghost var start := out.items;
          if Truthy(dt) {
            CollectDtExamples(clean, dt, out, limit);
            AddThenCheckBelow(start, Cleaned(clean, DtTexts(dt)), limit);
          }
          AllValuesSmaller(payload);
          WalkChildren(clean, payload, Values(payload), true, out, limit);
          CleanedAppend(clean, DtTexts(dt), Children(payload, Values(payload), true));
          CappedAppend(start, Cleaned(clean, DtTexts(dt)), Cleaned(clean, Children(payload, Values(payload), true)), limit);
        }
      } else {
        AllValuesSmaller(node);
        WalkChildren(clean, node, es, false, out, limit);
      }
    } else if IsObject(node) {
      AllValuesSmaller(node);
      WalkChildren(clean, node, Values(node), true, out, limit);
    }
  }

  /** The `for … of` loops of `walkSseq` over the children of `parent`. */
  method WalkChildren(clean: string -> string, ghost parent: Value, vs: seq<Value>, objectsOnly: bool,
                      out: MutableSet<string>, limit: int)
    requires forall i :: 0 <= i < |vs| ==> vs[i] < parent
    modifies out
    ensures out.items == Capped(old(out.items), Cleaned(clean, Children(parent, vs, objectsOnly)), limit)
    decreases parent, |vs|
  {
    ghost var start := out.items;
    var i := 0;
    while i < |vs|
      invariant 0 <= i <= |vs|
      invariant out.items == Capped(start, Cleaned(clean, Children(parent, vs[..i], objectsOnly)), limit)
    {
      if !objectsOnly || IsObject(vs[i]) {
        WalkSseq(clean, vs[i], out, limit);
      }
      ChildStep(clean, start, parent, vs, i, objectsOnly, limit);
      i := i + 1;
    }
    assert vs[..i] == vs;
  }

  /** One child of the walk continues the capped run with its own candidates. */
  lemma ChildStep(clean: string -> string, start: seq<string>, parent: Value, vs: seq<Value>, i: nat,
                  objectsOnly: bool, limit: int)
    requires i < |vs| && forall k :: 0 <= k < |vs| ==> vs[k] < parent
    ensures Capped(Capped(start, Cleaned(clean, Children(parent, vs[..i], objectsOnly)), limit),
                   Cleaned(clean, if !objectsOnly || IsObject(vs[i]) then Candidates(vs[i]) else []), limit)
      == Capped(start, Cleaned(clean, Children(parent, vs[..i + 1], objectsOnly)), limit)
  {
    var own := if !objectsOnly || IsObject(vs[i]) then Candidates(vs[i]) else [];
    assert vs[..i + 1][..i] == vs[..i];
    assert Children(parent, vs[..i + 1], objectsOnly) == Children(parent, vs[..i], objectsOnly) + own;
    CleanedAppend(clean, Children(parent, vs[..i], objectsOnly), own);
    CappedAppend(start, Cleaned(clean, Children(parent, vs[..i], objectsOnly)), Cleaned(clean, own), limit);
  }

  /** `extractExamplesFromEntry`: walks the `sseq` of each definition block
      into one set, stopping once it is full. */
  method ExtractExamplesFromEntry(e: Value, limit: int) returns (r: seq<string>)
    ensures r == EntryExamples(e, limit)
  {
    var out := new MutableSet<string>();
    var defs := Get(e, "def");
    if defs.Arr? {
      var ds := defs.elems;
      var i := 0;
      while i < |ds|
        invariant 0 <= i <= |ds|
        invariant out.items == Capped([], Cleaned(CleanMWText, ConcatMap(SseqCandidates, ds[..i])), limit)
      {
        WalkSseq(CleanMWText, Get(ds[i], "sseq"), out, limit);
        DefStep(ds, i, limit);
        if out.Size() >= limit {
          DefStop(ds, i, limit);
          return out.items;
        }
        i := i + 1;
      }
      assert ds[..i] == ds;
    }
    r := out.items;
  }

  /** One definition block continues the capped run with its candidates. */
  lemma DefStep(ds: seq<Value>, i: nat, limit: int)
    requires i < |ds|
    ensures Capped(Capped([], Cleaned(CleanMWText, ConcatMap(SseqCandidates, ds[..i])), limit),
                   Cleaned(CleanMWText, Candidates(Get(ds[i], "sseq"))), limit)
      == Capped([], Cleaned(CleanMWText, ConcatMap(SseqCandidates, ds[..i + 1])), limit)
  {
    var a := ConcatMap(SseqCandidates, ds[..i]);
    ConcatMapSnoc(SseqCandidates, ds, i);
    CleanedAppend(CleanMWText, a, SseqCandidates(ds[i]));
    CappedAppend([], Cleaned(CleanMWText, a), Cleaned(CleanMWText, SseqCandidates(ds[i])), limit);
  }

  /** A full set ignores the remaining definition blocks. */
  lemma DefStop(ds: seq<Value>, i: nat, limit: int)
    requires i < |ds|
    requires |Capped([], Cleaned(CleanMWText, ConcatMap(SseqCandidates, ds[..i + 1])), limit)| >= limit
    ensures Capped([], Cleaned(CleanMWText, ConcatMap(SseqCandidates, ds)), limit)
      == Capped([], Cleaned(CleanMWText, ConcatMap(SseqCandidates, ds[..i + 1])), limit)
  {
    var a := ConcatMap(SseqCandidates, ds[..i + 1]);
    var b := ConcatMap(SseqCandidates, ds[i + 1..]);
    ConcatMapSplit(SseqCandidates, ds, i + 1);
    CleanedAppend(CleanMWText, a, b);
    CappedAppend([], Cleaned(CleanMWText, a), Cleaned(CleanMWText, b), limit);
  }

  /* ---------- properties ---------- */

  /** The cleaned texts are exactly the images of the raw ones. */
  lemma {:induction false} CleanedMembers(clean: string -> string, raws: seq<string>)
    ensures forall x :: x in Cleaned(clean, raws) <==> exists r :: r in raws && x == clean(r)
    decreases |raws|
  {
    if raws != [] {
      CleanedMembers(clean, raws[1..]);
      assert forall r :: r in raws <==> r == raws[0] || r in raws[1..];
    }
  }

  /** The examples are distinct, at most `limit` of them (for a positive
      cap), each one the cleaned text of a candidate; and when fewer than
      `limit` come back, every cleaned candidate is among them. */
  lemma ExamplesBounded(e: Value, limit: int)
    ensures NoDups(EntryExamples(e, limit))
    ensures |EntryExamples(e, limit)| <= if limit < 0 then 0 else limit
    ensures forall x :: x in EntryExamples(e, limit) ==>
      exists c :: c in EntryCandidates(e) && x == CleanMWText(c)
    ensures |EntryExamples(e, limit)| < limit ==>
      forall c :: c in EntryCandidates(e) ==> CleanMWText(c) in EntryExamples(e, limit)
  {
    var cleaned := Cleaned(CleanMWText, EntryCandidates(e));
    CappedBounds([], cleaned, limit);
    CleanedMembers(CleanMWText, EntryCandidates(e));
    if |EntryExamples(e, limit)| < limit {
      CappedComplete([], cleaned, limit);
    }
  }

  /** Every example is cleaned Merriam-Webster text: no `{…}` token
      survives, spacing is single and ends are trimmed. */
  lemma ExamplesClean(e: Value, limit: int)
    ensures forall x :: x in EntryExamples(e, limit) ==> CleanShape(x)
  {
    ExamplesBounded(e, limit);
    forall c | c in EntryCandidates(e) {
      CleanMWTextShape(c);
    }
  }
}
