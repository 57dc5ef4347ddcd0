/** `extractAllDefsByPOS`: dictionary entries grouped by part of speech
    (`fl`). A `Map` of buckets keeps the first-seen order of the parts of
    speech; each bucket merges the short definitions of its entries without
    repeats, keeps the first pronunciation found, and caps its examples at
    six and its etymologies at two. */
module DefsByPos {
  import opened Wrappers
  import opened JsValue
  import opened OrderedSet
  import opened SeqUtil
  import opened Pronunciation
  import opened Examples
  import opened Etymology
  import opened Guards

  /** An entry takes part when its `fl` is a non-empty string and its
      `shortdef` a string array. */
  predicate Accepted(e: Value) {
    var fl := Get(e, "fl");
    fl.Str? && fl.s != [] && IsStringArray(Get(e, "shortdef"))
  }

  function FlOf(e: Value): string
    requires Accepted(e)
  {
    Get(e, "fl").s
  }

  function ShortDefs(e: Value): seq<string> {
    var sd := Get(e, "shortdef");
    if sd.Arr? then Strings(sd.elems) else []
  }

  /* ---------- buckets ---------- */

  /** What one accepted entry brings to the bucket of its part of speech. */
  datatype Contribution = Contribution(fl: string, definitions: seq<string>, pronunciation: Option<Pron>,
                                       examples: seq<string>, etymologies: seq<string>)

  function ContributionOf(e: Value): Contribution
    requires Accepted(e)
  {
    Contribution(FlOf(e), ShortDefs(e), PronOf(e), EntryExamples(e, ExampleLimit), Etymologies(e, EtymologyLimit))
  }

  /** The contributions of the accepted entries, in order (built from the
      back, so that the loop over a growing prefix extends it by one entry). */
  function Contributions(es: seq<Value>): seq<Contribution> {
    if es == [] then []
    else
      var e := es[|es| - 1];
      Contributions(es[..|es| - 1]) + if Accepted(e) then [ContributionOf(e)] else []
  }

  datatype Bucket = Bucket(definitions: seq<string>, pronunciation: Option<Pron>,
                           examples: seq<string>, etymologies: seq<string>)

  const EmptyBucket: Bucket := Bucket([], None, [], [])

  /** One part of speech of the result. */
  datatype PosGroup = PosGroup(fl: string, definitions: seq<string>, pronunciation: Option<Pron>,
                               examples: seq<string>, etymologies: seq<string>)

  /** The bucket after one more entry of its part of speech: new definitions
      appended, a pronunciation only if there was none, examples and
      etymologies added while below their caps. */
  function Merge(b: Bucket, c: Contribution): Bucket {
    Bucket(
      DedupeInto(b.definitions, c.definitions),
      if b.pronunciation.None? then c.pronunciation else b.pronunciation,
      Capped(b.examples, c.examples, ExampleLimit),
      Capped(b.etymologies, c.etymologies, EtymologyLimit))
  }

  /** The `byPOS` map: its keys in insertion order and its buckets. */
  datatype Grouping = Grouping(order: seq<string>, buckets: map<string, Bucket>)

  function Absorb(g: Grouping, c: Contribution): Grouping {
    var b := if c.fl in g.buckets then g.buckets[c.fl] else EmptyBucket;
    Grouping(if c.fl in g.buckets then g.order else g.order + [c.fl], g.buckets[c.fl := Merge(b, c)])
  }

  function GroupAll(cs: seq<Contribution>): Grouping {
    if cs == [] then Grouping([], map[])
    else Absorb(GroupAll(cs[..|cs| - 1]), cs[|cs| - 1])
  }

  /** `Array.from(byPOS, …)`: one group per key, in key order, each
      carrying its key's bucket (an empty one for a key without bucket). */
  function Emit(order: seq<string>, buckets: map<string, Bucket>): (r: seq<PosGroup>)
    ensures |r| == |order|
    ensures forall i :: 0 <= i < |order| ==>
      var b := if order[i] in buckets then buckets[order[i]] else EmptyBucket;
      r[i] == PosGroup(order[i], b.definitions, b.pronunciation, b.examples, b.etymologies)
  {
    if order == [] then []
    else
      var fl := order[0];
      var b := if fl in buckets then buckets[fl] else EmptyBucket;
      [PosGroup(fl, b.definitions, b.pronunciation, b.examples, b.etymologies)] + Emit(order[1..], buckets)
  }

  function AllDefsByPos(json: Value): seq<PosGroup> {
    if !IsEntryArray(json) then []
    else
      var g := GroupAll(Contributions(json.elems));
      Emit(g.order, g.buckets)
  }

  /* ---------- the imperative extractor ---------- */

  /** `extractAllDefsByPOS`. */
  method ExtractAllDefsByPOS(json: Value) returns (r: seq<PosGroup>)
    ensures r == AllDefsByPos(json)
  {
    if !IsEntryArray(json) {
      return [];
    }
    var es := json.elems;
    var order: seq<string> := [];
    var buckets: map<string, Bucket> := map[];
    var i := 0;
    while i < |es|
      invariant 0 <= i <= |es|
      invariant Grouping(order, buckets) == GroupAll(Contributions(es[..i]))
    {
      var e := es[i];
      var flVal := Get(e, "fl");
      var sdVal := Get(e, "shortdef");
      GroupStep(es, i);
      if flVal.Str? && flVal.s != [] && IsStringArray(sdVal) {
        assert Accepted(e);
        order, buckets := AbsorbEntry(order, buckets, e);
      } else {
        assert !Accepted(e);
      }
      i := i + 1;
    }
    assert es[..i] == es;
    r := Emit(order, buckets);
  }

  /** One more entry either adds its contribution to the grouping or, when
      it is not accepted, leaves the grouping as it was. */
  lemma GroupStep(es: seq<Value>, i: nat)
    requires i < |es|
    ensures GroupAll(Contributions(es[..i + 1])) ==
      if Accepted(es[i]) then Absorb(GroupAll(Contributions(es[..i])), ContributionOf(es[i]))
      else GroupAll(Contributions(es[..i]))
  {
    assert es[..i + 1][..i] == es[..i];
    if Accepted(es[i]) {
      assert Contributions(es[..i + 1]) == Contributions(es[..i]) + [ContributionOf(es[i])];
    } else {
      assert Contributions(es[..i + 1]) == Contributions(es[..i]) + [] == Contributions(es[..i]);
    }
  }

  /** The loop body for an accepted entry: its part of speech is appended to
      the order when new, and its bucket is filled. */
  method AbsorbEntry(order: seq<string>, buckets: map<string, Bucket>, e: Value)
    returns (order': seq<string>, buckets': map<string, Bucket>)
    requires Accepted(e)
    ensures Grouping(order', buckets') == Absorb(Grouping(order, buckets), ContributionOf(e))
  {
    var fl := Get(e, "fl").s;
    assert ContributionOf(e).fl == fl;
    var bucket := if fl in buckets then buckets[fl] else EmptyBucket;
    bucket := FillBucket(bucket, e);
    order' := if fl in buckets then order else order + [fl];
    buckets' := buckets[fl := bucket];
  }

  /** Filling one bucket from an accepted entry: the bucket's definitions,
      pronunciation, examples and etymologies are updated in turn. */
  method FillBucket(b: Bucket, e: Value) returns (r: Bucket)
    requires Accepted(e)
    ensures r == Merge(b, ContributionOf(e))
  {
    var definitions := AddMissing(b.definitions, ShortDefs(e));
    var pronunciation := b.pronunciation;
    if pronunciation.None? {
      var pron := FirstPron(e);
      if pron.Some? {
        pronunciation := pron;
      }
    }
    var exs := ExtractExamplesFromEntry(e, ExampleLimit);
    var examples := AddBelowCap(b.examples, exs, ExampleLimit);
    var ets := ExtractEtymologiesFromEntry(MarkupCleaner.CleanMWText, e, EtymologyLimit);
    var etymologies := AddBelowCap(b.etymologies, ets, EtymologyLimit);
    r := Bucket(definitions, pronunciation, examples, etymologies);
  }

  /** `for (const d of sdVal) if (!defs.includes(d)) defs.push(d)`. */
  method AddMissing(into: seq<string>, items: seq<string>) returns (r: seq<string>)
    ensures r == DedupeInto(into, items)
  {
    r := into;
    var k := 0;
    while k < |items|
      invariant 0 <= k <= |items|
      invariant r == DedupeInto(into, items[..k])
    {
      DedupeIntoSnoc(into, items, k);
      if items[k] !in r {
        r := r + [items[k]];
      }
      k := k + 1;
    }
    assert items[..k] == items;
  }

  /** `for (const x of xs) if (set.size < cap) set.add(x)`. */
  method AddBelowCap(into: seq<string>, items: seq<string>, cap: int) returns (r: seq<string>)
    ensures r == Capped(into, items, cap)
  {
    r := into;
    var k := 0;
    while k < |items|
      invariant 0 <= k <= |items|
      invariant r == Capped(into, items[..k], cap)
    {
      CappedSnoc(into, items, k, cap);
      if |r| < cap {
        r := Insert(r, items[k]);
      }
      k := k + 1;
    }
    assert items[..k] == items;
  }

  lemma DedupeIntoSnoc(into: seq<string>, items: seq<string>, k: nat)
    requires k < |items|
    ensures DedupeInto(into, items[..k + 1]) == Insert(DedupeInto(into, items[..k]), items[k])
  {
    assert items[..k + 1] == items[..k] + [items[k]];
    DedupeIntoAppend(into, items[..k], [items[k]]);
    assert DedupeInto(DedupeInto(into, items[..k]), [items[k]])
      == DedupeInto(Insert(DedupeInto(into, items[..k]), items[k]), []);
  }

  lemma CappedSnoc(into: seq<string>, items: seq<string>, k: nat, cap: int)
    requires k < |items|
    ensures var o := Capped(into, items[..k], cap);
      Capped(into, items[..k + 1], cap) == if |o| < cap then Insert(o, items[k]) else o
  {
    var o := Capped(into, items[..k], cap);
    assert items[..k + 1] == items[..k] + [items[k]];
    CappedAppend(into, items[..k], [items[k]], cap);
    var x := items[k];
    assert [x][1..] == [];
    if |o| < cap {
      if x in o {
        assert AddEach(o, [x], cap) == AddEach(o, [], cap);
      } else {
        assert AddEach(o, [x], cap) == o + [x] by {
          if |o| + 1 < cap {
            assert AddEach(o, [x], cap) == AddEach(o + [x], [], cap);
          }
        }
      }
    }
  }

  /* ---------- properties ---------- */

  /** The parts of speech of the contributions, in order, repeats included. */
  function Fls(cs: seq<Contribution>): seq<string> {
    if cs == [] then [] else Fls(cs[..|cs| - 1]) + [cs[|cs| - 1].fl]
  }

  /** The short definitions contributed to part of speech `fl`. */
  function DefsFor(cs: seq<Contribution>, fl: string): seq<string> {
    if cs == [] then []
    else
      var c := cs[|cs| - 1];
      DefsFor(cs[..|cs| - 1], fl) + (if c.fl == fl then c.definitions else [])
  }

  /** The first pronunciation contributed to part of speech `fl`. */
  function PronFor(cs: seq<Contribution>, fl: string): Option<Pron> {
    if cs == [] then None
    else
      var c := cs[|cs| - 1];
      var before := PronFor(cs[..|cs| - 1], fl);
      if before.None? && c.fl == fl then c.pronunciation else before
  }

  /** Everything offered to the example set of `fl`, entry after entry. */
  function ExamplesFor(cs: seq<Contribution>, fl: string): seq<string> {
    if cs == [] then []
    else
      var c := cs[|cs| - 1];
      ExamplesFor(cs[..|cs| - 1], fl) + (if c.fl == fl then c.examples else [])
  }

  /** Everything offered to the etymology set of `fl`, entry after entry. */
  function EtymologiesFor(cs: seq<Contribution>, fl: string): seq<string> {
    if cs == [] then []
    else
      var c := cs[|cs| - 1];
      EtymologiesFor(cs[..|cs| - 1], fl) + (if c.fl == fl then c.etymologies else [])
  }

  /** The map's keys are the parts of speech of the contributions, each
      once, in first-seen order. */
  lemma {:induction false} GroupOrder(cs: seq<Contribution>)
    ensures GroupAll(cs).order == Dedupe(Fls(cs))
    ensures forall fl :: fl in GroupAll(cs).order <==> fl in GroupAll(cs).buckets
  {
    if cs != [] {
      var init := cs[..|cs| - 1];
      var c := cs[|cs| - 1];
      GroupOrder(init);
      DedupeIntoAppend([], Fls(init), [c.fl]);
      assert DedupeInto(Dedupe(Fls(init)), [c.fl]) == DedupeInto(Insert(Dedupe(Fls(init)), c.fl), []);
    }
  }

  /** A part of speech nobody contributed to has nothing collected. */
  lemma {:induction false} Untouched(cs: seq<Contribution>, fl: string)
    requires fl !in GroupAll(cs).buckets
    ensures DefsFor(cs, fl) == [] && PronFor(cs, fl) == None
    ensures ExamplesFor(cs, fl) == [] && EtymologiesFor(cs, fl) == []
  {
    if cs != [] {
      Untouched(cs[..|cs| - 1], fl);
    }
  }

  /** How the last contribution changes the bucket of `fl`. */
  lemma LastContribution(cs: seq<Contribution>, fl: string)
    requires cs != [] && fl in GroupAll(cs).buckets
    ensures var g0 := GroupAll(cs[..|cs| - 1]);
      var c := cs[|cs| - 1];
      && (c.fl != fl ==> fl in g0.buckets && GroupAll(cs).buckets[fl] == g0.buckets[fl])
      && (c.fl == fl ==> GroupAll(cs).buckets[fl] == Merge(if fl in g0.buckets then g0.buckets[fl] else EmptyBucket, c))
  {
  }

  /** Every bucket's definitions are the short definitions of exactly its
      own entries, without repeats, in first-seen order. */
  lemma {:induction false} GroupDefinitions(cs: seq<Contribution>, fl: string)
    requires fl in GroupAll(cs).buckets
    ensures GroupAll(cs).buckets[fl].definitions == Dedupe(DefsFor(cs, fl))
  {
    var init := cs[..|cs| - 1];
    var c := cs[|cs| - 1];
    LastContribution(cs, fl);
    if fl in GroupAll(init).buckets {
      GroupDefinitions(init, fl);
    } else {
      Untouched(init, fl);
    }
    if c.fl == fl {
      DedupeIntoAppend([], DefsFor(init, fl), c.definitions);
    } else {
      assert DefsFor(cs, fl) == DefsFor(init, fl) + [] == DefsFor(init, fl);
    }
  }

  /** Every bucket keeps the first pronunciation contributed to it. */
  lemma {:induction false} GroupPronunciation(cs: seq<Contribution>, fl: string)
    requires fl in GroupAll(cs).buckets
    ensures GroupAll(cs).buckets[fl].pronunciation == PronFor(cs, fl)
  {
    var init := cs[..|cs| - 1];
    LastContribution(cs, fl);
    if fl in GroupAll(init).buckets {
      GroupPronunciation(init, fl);
    } else {
      Untouched(init, fl);
    }
  }

  /** Every bucket's examples are those offered by its own entries, added
      while fewer than six. */
  lemma {:induction false} GroupExamples(cs: seq<Contribution>, fl: string)
    requires fl in GroupAll(cs).buckets
    ensures GroupAll(cs).buckets[fl].examples == Capped([], ExamplesFor(cs, fl), ExampleLimit)
  {
    var init := cs[..|cs| - 1];
    var c := cs[|cs| - 1];
    LastContribution(cs, fl);
    if fl in GroupAll(init).buckets {
      GroupExamples(init, fl);
    } else {
      Untouched(init, fl);
    }
    if c.fl == fl {
      CappedAppend([], ExamplesFor(init, fl), c.examples, ExampleLimit);
    } else {
      assert ExamplesFor(cs, fl) == ExamplesFor(init, fl) + [] == ExamplesFor(init, fl);
    }
  }

  /** Every bucket's etymologies are those offered by its own entries,
      added while fewer than two. */
  lemma {:induction false} GroupEtymologies(cs: seq<Contribution>, fl: string)
    requires fl in GroupAll(cs).buckets
    ensures GroupAll(cs).buckets[fl].etymologies == Capped([], EtymologiesFor(cs, fl), EtymologyLimit)
  {
    var init := cs[..|cs| - 1];
    var c := cs[|cs| - 1];
    LastContribution(cs, fl);
    if fl in GroupAll(init).buckets {
      GroupEtymologies(init, fl);
    } else {
      Untouched(init, fl);
    }
    if c.fl == fl {
      CappedAppend([], EtymologiesFor(init, fl), c.etymologies, EtymologyLimit);
    } else {
      assert EtymologiesFor(cs, fl) == EtymologiesFor(init, fl) + [] == EtymologiesFor(init, fl);
    }
  }

  /** `extractAllDefsByPOS` returns nothing unless its input is an array of
      objects; otherwise one group per part of speech of the accepted
      entries, each once and in first-seen order, whose definitions are its
      entries' short definitions without repeats, whose pronunciation is the
      first one found, and which holds at most six distinct examples and at
      most two distinct etymologies. */
  lemma AllDefsByPosSpec(json: Value)
    ensures !IsEntryArray(json) ==> AllDefsByPos(json) == []
    ensures IsEntryArray(json) ==>
      var cs := Contributions(json.elems);
      var r := AllDefsByPos(json);
      && |r| == |Dedupe(Fls(cs))|
      && forall i :: 0 <= i < |r| ==>
        && r[i].fl == Dedupe(Fls(cs))[i]
        && r[i].definitions == Dedupe(DefsFor(cs, r[i].fl))
        && NoDups(r[i].definitions)
        && r[i].pronunciation == PronFor(cs, r[i].fl)
        && r[i].examples == Capped([], ExamplesFor(cs, r[i].fl), ExampleLimit)
        && NoDups(r[i].examples) && |r[i].examples| <= ExampleLimit
        && r[i].etymologies == Capped([], EtymologiesFor(cs, r[i].fl), EtymologyLimit)
        && NoDups(r[i].etymologies) && |r[i].etymologies| <= EtymologyLimit
  {
    if IsEntryArray(json) {
      var cs := Contributions(json.elems);
      var g := GroupAll(cs);
      GroupOrder(cs);
      forall i | 0 <= i < |g.order|
        ensures var fl := g.order[i];
          && g.buckets[fl].definitions == Dedupe(DefsFor(cs, fl))
          && NoDups(g.buckets[fl].definitions)
          && g.buckets[fl].pronunciation == PronFor(cs, fl)
          && g.buckets[fl].examples == Capped([], ExamplesFor(cs, fl), ExampleLimit)
          && NoDups(g.buckets[fl].examples) && |g.buckets[fl].examples| <= ExampleLimit
          && g.buckets[fl].etymologies == Capped([], EtymologiesFor(cs, fl), EtymologyLimit)
          && NoDups(g.buckets[fl].etymologies) && |g.buckets[fl].etymologies| <= EtymologyLimit
      {
        var fl := g.order[i];
        GroupDefinitions(cs, fl);
        GroupPronunciation(cs, fl);
        GroupExamples(cs, fl);
        GroupEtymologies(cs, fl);
        DedupeSpec(DefsFor(cs, fl));
        CappedBounds([], ExamplesFor(cs, fl), ExampleLimit);
        CappedBounds([], EtymologiesFor(cs, fl), EtymologyLimit);
      }
    }
  }
}
