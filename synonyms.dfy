/** `extractSynonymsByPOS` and `extractSuggestions`: the thesaurus words of
    each entry, read through three fixed levels (`def` → `sseq` → sense →
    `[kind, payload]` pair) into the payload's `syn_list`, and the slice of
    spelling suggestions. */
module Synonyms {
  import opened JsValue
  import opened OrderedSet
  import opened SeqUtil
  import opened Guards

  /* ---------- what each level offers, in order ---------- */

  /** A `syn_list` is read only when every group is an array of objects. */
  predicate IsGroupList(synList: Value) {
    && synList.Arr?
    && forall i :: 0 <= i < |synList.elems| ==>
         && synList.elems[i].Arr?
         && forall k :: 0 <= k < |synList.elems[i].elems| ==> IsObject(synList.elems[i].elems[k])
  }

  /** `item?.wd` when it is a string. */
  function ItemWord(item: Value): seq<string> {
    var wd := Get(item, "wd");
    if wd.Str? then [wd.s] else []
  }

  function GroupWords(group: Value): seq<string> {
    if group.Arr? then ConcatMap(ItemWord, group.elems) else []
  }

  /** A `[kind, payload]` pair with an object payload offers the words of
      the payload's `syn_list`; anything else is skipped. */
  predicate IsPair(p: Value) {
    p.Arr? && |p.elems| >= 2 && IsObject(p.elems[1])
  }

  function PairWords(p: Value): seq<string> {
    if IsPair(p) then
      var synList := Get(p.elems[1], "syn_list");
      if IsGroupList(synList) then ConcatMap(GroupWords, synList.elems) else []
    else []
  }

  function SenseWords(s: Value): seq<string> {
    if s.Arr? then ConcatMap(PairWords, s.elems) else []
  }

  function DefWords(d: Value): seq<string> {
    var sseq := Get(d, "sseq");
    if sseq.Arr? then ConcatMap(SenseWords, sseq.elems) else []
  }

  /** Every word of a thesaurus entry, in reading order, repeats included. */
  function EntryWords(entry: Value): seq<string> {
    var defs := Get(entry, "def");
    if defs.Arr? then ConcatMap(DefWords, defs.elems) else []
  }

  /** One part of speech of the result. */
  datatype SynGroup = SynGroup(fl: string, synonyms: seq<string>)

  /** The group an entry contributes: none without a non-empty string `fl`
      or without a single synonym. */
  function EntryGroup(entry: Value): seq<SynGroup> {
    var fl := Get(entry, "fl");
    var syns := Dedupe(EntryWords(entry));
    if fl.Str? && fl.s != [] && syns != [] then [SynGroup(fl.s, syns)] else []
  }

  function AllSynonyms(json: Value): seq<SynGroup> {
    if IsEntryArray(json) then ConcatMap(EntryGroup, json.elems) else []
  }

  /* ---------- the imperative extractor ---------- */

  /** `extractSynonymsByPOS`: one fresh set per entry, filled by the nested
      loops, and a group pushed when the set is not empty. */
  method ExtractSynonymsByPOS(json: Value) returns (out: seq<SynGroup>)
    ensures out == AllSynonyms(json)
  {
    if !IsEntryArray(json) {
      return [];
    }
    var entries := json.elems;
    out := [];
    var i := 0;
    while i < |entries|
      invariant 0 <= i <= |entries|
      invariant out == ConcatMap(EntryGroup, entries[..i])
    {
      ConcatMapSnoc(EntryGroup, entries, i);
      var group := EntrySynonyms(entries[i]);
      out := out + group;
      i := i + 1;
    }
    assert entries[..i] == entries;
  }

  /** The body of the loop over entries: the synonym group of one entry,
      present when it has a part of speech and at least one synonym. */
  method EntrySynonyms(entry: Value) returns (group: seq<SynGroup>)
    ensures group == EntryGroup(entry)
  {
    group := [];
    var flVal := Get(entry, "fl");
    if flVal.Str? && flVal.s != [] {
      var synonyms := new MutableSet<string>();
      var defs := Get(entry, "def");
      if defs.Arr? {
        CollectDefs(defs.elems, synonyms);
      }
      var list := synonyms.items;
      assert list == Dedupe(EntryWords(entry));
      if |list| > 0 {
        group := [SynGroup(flVal.s, list)];
      }
    }
  }

  /** Adding the words of one more element continues the deduplication. */
  lemma Step<A>(f: A -> seq<string>, start: seq<string>, xs: seq<A>, i: nat)
    requires i < |xs|
    ensures DedupeInto(start, ConcatMap(f, xs[..i + 1]))
      == DedupeInto(DedupeInto(start, ConcatMap(f, xs[..i])), f(xs[i]))
  {
    ConcatMapSnoc(f, xs, i);
    DedupeIntoAppend(start, ConcatMap(f, xs[..i]), f(xs[i]));
  }

  /** `for (const d of defs)`, skipping a `d` whose `sseq` is not an array. */
  method CollectDefs(defs: seq<Value>, out: MutableSet<string>)
    modifies out
    ensures out.items == DedupeInto(old(out.items), ConcatMap(DefWords, defs))
  {
    ghost var start := out.items;
    var i := 0;
    while i < |defs|
      invariant 0 <= i <= |defs|
      invariant out.items == DedupeInto(start, ConcatMap(DefWords, defs[..i]))
    {
      Step(DefWords, start, defs, i);
      var sseq := Get(defs[i], "sseq");
      if sseq.Arr? {
        CollectSenses(sseq.elems, out);
      }
      i := i + 1;
    }
    assert defs[..i] == defs;
  }

  /** `for (const s of sseq)`, skipping an `s` that is not an array. */
  method CollectSenses(sseq: seq<Value>, out: MutableSet<string>)
    modifies out
    ensures out.items == DedupeInto(old(out.items), ConcatMap(SenseWords, sseq))
  {
    ghost var start := out.items;
    var i := 0;
    while i < |sseq|
      invariant 0 <= i <= |sseq|
      invariant out.items == DedupeInto(start, ConcatMap(SenseWords, sseq[..i]))
    {
      Step(SenseWords, start, sseq, i);
      var s := sseq[i];
      if s.Arr? {
        CollectPairs(s.elems, out);
      }
      i := i + 1;
    }
    assert sseq[..i] == sseq;
  }

  /** `for (const maybePair of s)`: a pair whose `syn_list` passes the
      all-or-nothing check contributes all its groups. */
  method CollectPairs(pairs: seq<Value>, out: MutableSet<string>)
    modifies out
    ensures out.items == DedupeInto(old(out.items), ConcatMap(PairWords, pairs))
  {
    ghost var start := out.items;
    var i := 0;
    while i < |pairs|
      invariant 0 <= i <= |pairs|
      invariant out.items == DedupeInto(start, ConcatMap(PairWords, pairs[..i]))
    {
      Step(PairWords, start, pairs, i);
      var p := pairs[i];
      if IsPair(p) {
        var synList := Get(p.elems[1], "syn_list");
        if IsGroupList(synList) {
          CollectGroups(synList.elems, out);
        }
      }
      i := i + 1;
    }
    assert pairs[..i] == pairs;
  }

  /** `for (const group of synList)`. */
  method CollectGroups(groups: seq<Value>, out: MutableSet<string>)
    requires forall i :: 0 <= i < |groups| ==> groups[i].Arr?
    modifies out
    ensures out.items == DedupeInto(old(out.items), ConcatMap(GroupWords, groups))
  {
    ghost var start := out.items;
    var i := 0;
    while i < |groups|
      invariant 0 <= i <= |groups|
      invariant out.items == DedupeInto(start, ConcatMap(GroupWords, groups[..i]))
    {
      Step(GroupWords, start, groups, i);
      CollectItems(groups[i].elems, out);
      i := i + 1;
    }
    assert groups[..i] == groups;
  }

  /** `for (const item of group)`: adds the string `wd`s. */
  method CollectItems(items: seq<Value>, out: MutableSet<string>)
    modifies out
    ensures out.items == DedupeInto(old(out.items), ConcatMap(ItemWord, items))
  {
    ghost var start := out.items;
    var i := 0;
    while i < |items|
      invariant 0 <= i <= |items|
      invariant out.items == DedupeInto(start, ConcatMap(ItemWord, items[..i]))
    {
      Step(ItemWord, start, items, i);
      var wd := Get(items[i], "wd");
      if wd.Str? {
        out.Add(wd.s);
        assert DedupeInto(out.items, []) == out.items;
      }
      i := i + 1;
    }
    assert items[..i] == items;
  }

  /* ---------- properties ---------- */

  /** Every group has a non-empty part of speech and distinct synonyms,
      which are exactly the string `wd`s the entry's checked `syn_list`s
      hold; entries are neither merged nor reordered. */
  lemma EntryGroupSpec(entry: Value)
    ensures |EntryGroup(entry)| <= 1
    ensures EntryGroup(entry) != [] ==>
      var g := EntryGroup(entry)[0];
      && g.fl != [] && Get(entry, "fl") == Str(g.fl)
      && g.synonyms != [] && NoDups(g.synonyms)
      && forall w :: w in g.synonyms <==> w in EntryWords(entry)
    ensures EntryGroup(entry) == [] ==>
      !Get(entry, "fl").Str? || Get(entry, "fl").s == [] || EntryWords(entry) == []
  {
    DedupeSpec(EntryWords(entry));
    if EntryWords(entry) != [] {
      assert EntryWords(entry)[0] in Dedupe(EntryWords(entry));
    }
  }

  /** The result has one group per qualifying entry, in input order: two
      entries with the same part of speech give two groups. */
  lemma {:induction false} AllSynonymsPerEntry(es: seq<Value>)
    ensures |ConcatMap(EntryGroup, es)| <= |es|
    ensures forall g :: g in ConcatMap(EntryGroup, es) ==>
      exists e :: e in es && EntryGroup(e) == [g]
  {
    if es != [] {
      AllSynonymsPerEntry(es[1..]);
      EntryGroupSpec(es[0]);
      forall g | g in ConcatMap(EntryGroup, es)
        ensures exists e :: e in es && EntryGroup(e) == [g]
      {
        if g in EntryGroup(es[0]) {
          assert EntryGroup(es[0]) == [g];
        } else {
          assert g in ConcatMap(EntryGroup, es[1..]);
          var e :| e in es[1..] && EntryGroup(e) == [g];
          assert e in es;
        }
      }
    }
  }

  /** A `syn_list` with one group that is not an array of objects gives
      nothing, whatever else it holds. */
  lemma AllOrNothing(p: Value, i: nat)
    requires IsPair(p)
    requires var synList := Get(p.elems[1], "syn_list");
      synList.Arr? && i < |synList.elems| && !synList.elems[i].Arr?
    ensures PairWords(p) == []
  {
  }

  /* ---------- suggestions ---------- */

  /** The default length of the suggestion list. */
  const SuggestionLimit: int := 5

  /** The end index `slice(0, limit)` uses on a list of length `n`. */
  function SliceEnd(n: nat, limit: int): (k: nat)
    ensures k <= n
  {
    if limit < 0 then (if n + limit < 0 then 0 else n + limit)
    else if limit < n then limit else n
  }

  /** `extractSuggestions`: the first `limit` strings of a string array
      (counted from the end for a negative `limit`, as `slice` does), and
      nothing for any other input. */
  function ExtractSuggestions(json: Value, limit: int): (r: seq<string>)
    ensures !IsStringArray(json) ==> r == []
    ensures IsStringArray(json) ==> |r| == SliceEnd(|json.elems|, limit)
    ensures IsStringArray(json) && limit >= 0 ==>
      |r| == (if limit < |json.elems| then limit else |json.elems|)
    ensures IsStringArray(json) ==> forall i :: 0 <= i < |r| ==> r[i] == json.elems[i].s
  {
    if IsStringArray(json) then
      var k := SliceEnd(|json.elems|, limit);
      StringsOfStringArray(json.elems[..k]);
      Strings(json.elems[..k])
    else []
  }
}
