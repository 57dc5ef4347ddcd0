/** What the results view (`Results`) derives from a define result before
    rendering: the entries sorted by part of speech, the synonyms shown for
    each part of speech, the accordion item open by default and whether
    the suggestion line shows. */
module ResultsView {
  import opened Wrappers
  import opened OrderedSet
  import opened SeqUtil
  import opened DefsByPos
  import opened Synonyms

  /** The fixed part-of-speech order. */
  const PosOrder: seq<string> :=
    ["noun", "pronoun", "verb", "adjective", "adverb", "preposition", "conjunction", "interjection", "article"]

  /** `xs.indexOf(x)`: the first position of `x`, or -1. */
  function IndexOf(xs: seq<string>, x: string): (i: int)
    ensures -1 <= i < |xs|
    ensures i == -1 <==> x !in xs
    ensures i >= 0 ==> xs[i] == x && x !in xs[..i]
  {
    if xs == [] then -1
    else if xs[0] == x then 0
    else
      var i := IndexOf(xs[1..], x);
      assert i >= 0 ==> xs[..i + 1] == [xs[0]] + xs[1..][..i];
      if i == -1 then -1 else i + 1
  }

  /** The sort key `order.indexOf(fl)`; the comparator subtracts two keys
      (the `+ 999` on both sides cancels). */
  function PosKey(fl: string): int {
    IndexOf(PosOrder, fl)
  }

  /** Places `x` after every element whose key is not above its own. */
  function InsertByKey<T>(key: T -> int, x: T, ys: seq<T>): (r: seq<T>)
    ensures multiset(r) == multiset(ys) + multiset{x}
  {
    if ys == [] || key(x) <= key(ys[0]) then [x] + ys
    else
      assert ys == [ys[0]] + ys[1..];
      [ys[0]] + InsertByKey(key, x, ys[1..])
  }

  /** `[...xs].sort((a, b) => key(a) - key(b))`: JavaScript's sort is
      stable, so this is a stable sort by key (an insertion sort here). */
  function SortByKey<T>(key: T -> int, xs: seq<T>): (r: seq<T>)
    ensures multiset(r) == multiset(xs)
  {
    if xs == [] then []
    else
      assert xs == [xs[0]] + xs[1..];
      InsertByKey(key, xs[0], SortByKey(key, xs[1..]))
  }

  function EntryKey(e: PosGroup): int {
    PosKey(e.fl)
  }

  /** `entries`: the result's entries in part-of-speech order. */
  function SortedEntries(entries: seq<PosGroup>): seq<PosGroup> {
    SortByKey(EntryKey, entries)
  }

  /** `new Map(list.map((s) => [s.fl, s.synonyms]))`: later pairs overwrite
      earlier ones with the same key. */
  function SynMap(groups: seq<SynGroup>): (m: map<string, seq<string>>)
    ensures forall fl :: fl in m <==> exists k :: 0 <= k < |groups| && groups[k].fl == fl
  {
    if groups == [] then map[]
    else
      var last := groups[|groups| - 1];
      var m := SynMap(groups[..|groups| - 1]);
      assert forall k :: 0 <= k < |groups| - 1 ==> groups[..|groups| - 1][k] == groups[k];
      m[last.fl := last.synonyms]
  }

  function SynonymsOfGroup(g: SynGroup): seq<string> {
    g.synonyms
  }

  /** `Array.from(new Set(list.flatMap((s) => s.synonyms)))` */
  function AllSynFallback(groups: seq<SynGroup>): seq<string> {
    Dedupe(ConcatMap(SynonymsOfGroup, groups))
  }

  /** `showSyns` for one part of speech. */
  function ShownSynonyms(groups: seq<SynGroup>, fl: string): seq<string> {
    var m := SynMap(groups);
    var syns := if fl in m then m[fl] else [];
    if |syns| > 0 then syns else AllSynFallback(groups)
  }

  /** `defaultValue={entries[0]?.fl}` */
  function DefaultValue(sorted: seq<PosGroup>): Option<string> {
    if sorted == [] then None else Some(sorted[0].fl)
  }

  /** The "Did you mean" line shows only for a non-empty suggestion list. */
  predicate ShowsSuggestions(suggestions: seq<string>) {
    |suggestions| > 0
  }

  /* ---------- properties of the sort ---------- */

  predicate SortedByKey<T>(key: T -> int, xs: seq<T>) {
    forall i, j :: 0 <= i < j < |xs| ==> key(xs[i]) <= key(xs[j])
  }

  lemma {:induction false} InsertSorted<T>(key: T -> int, x: T, ys: seq<T>)
    requires SortedByKey(key, ys)
    ensures SortedByKey(key, InsertByKey(key, x, ys))
  {
    if ys != [] && key(x) > key(ys[0]) {
      InsertSorted(key, x, ys[1..]);
      var r := InsertByKey(key, x, ys);
      assert r[1..] == InsertByKey(key, x, ys[1..]);
      assert forall k :: 1 <= k < |r| ==> r[k] in multiset(r[1..]);
      assert forall k :: 1 <= k < |r| ==> r[k] == x || r[k] in ys[1..];
    }
  }

  lemma {:induction false} SortSorted<T>(key: T -> int, xs: seq<T>)
    ensures SortedByKey(key, SortByKey(key, xs))
  {
    if xs != [] {
      SortSorted(key, xs[1..]);
      InsertSorted(key, x := xs[0], ys := SortByKey(key, xs[1..]));
    }
  }

  /** The elements with one key, in order. */
  function WithKey<T>(key: T -> int, xs: seq<T>, k: int): seq<T> {
    if xs == [] then [] else (if key(xs[0]) == k then [xs[0]] else []) + WithKey(key, xs[1..], k)
  }

  lemma {:induction false} InsertStable<T>(key: T -> int, x: T, ys: seq<T>, k: int)
    ensures WithKey(key, InsertByKey(key, x, ys), k) == (if key(x) == k then [x] else []) + WithKey(key, ys, k)
  {
    var r := InsertByKey(key, x, ys);
    if ys != [] && key(x) > key(ys[0]) {
      InsertStable(key, x, ys[1..], k);
      assert r[0] == ys[0] && r[1..] == InsertByKey(key, x, ys[1..]);
      var a := if key(x) == k then [x] else [];
      var b := if key(ys[0]) == k then [ys[0]] else [];
      assert a == [] || b == [];
      assert b + (a + WithKey(key, ys[1..], k)) == a + (b + WithKey(key, ys[1..], k));
    } else {
      assert r[0] == x && r[1..] == ys;
    }
  }

  /** The sort is stable: entries with equal keys keep their input order. */
  lemma {:induction false} SortStable<T>(key: T -> int, xs: seq<T>, k: int)
    ensures WithKey(key, SortByKey(key, xs), k) == WithKey(key, xs, k)
  {
    if xs != [] {
      SortStable(key, xs[1..], k);
      InsertStable(key, xs[0], SortByKey(key, xs[1..]), k);
    }
  }

  /** In a list sorted by key, a smaller key means an earlier position. */
  lemma SortedBefore<T>(key: T -> int, xs: seq<T>)
    requires SortedByKey(key, xs)
    ensures forall i, j :: 0 <= i < |xs| && 0 <= j < |xs| && key(xs[i]) < key(xs[j]) ==> i < j
  {
  }

  /** Sorted entries: a permutation of the input with known parts of
      speech in the order of the fixed list. */
  lemma SortedEntriesSpec(entries: seq<PosGroup>)
    ensures var r := SortedEntries(entries);
      && multiset(r) == multiset(entries)
      && forall i, j :: 0 <= i < |r| && 0 <= j < |r| && EntryKey(r[i]) < EntryKey(r[j]) ==> i < j
  {
    SortSorted(EntryKey, entries);
    SortedBefore(EntryKey, SortedEntries(entries));
  }

  /** Every unknown part of speech (key -1) comes before every known one,
      whatever the comment in the source says. */
  lemma UnknownFirst(entries: seq<PosGroup>)
    ensures var r := SortedEntries(entries);
      forall i, j :: 0 <= i < |r| && 0 <= j < |r| && r[i].fl !in PosOrder && r[j].fl in PosOrder ==> i < j
  {
    var r := SortedEntries(entries);
    SortedEntriesSpec(entries);
    forall i, j | 0 <= i < |r| && 0 <= j < |r| && r[i].fl !in PosOrder && r[j].fl in PosOrder
      ensures i < j
    {
      assert EntryKey(r[i]) == -1 && EntryKey(r[j]) >= 0;
    }
  }

  /** The open item is the part of speech of an entry with the smallest
      key; there is none only without entries. */
  lemma DefaultValueSpec(entries: seq<PosGroup>)
    ensures DefaultValue(SortedEntries(entries)).None? <==> entries == []
    ensures DefaultValue(SortedEntries(entries)).Some? ==>
      exists e :: e in entries && e.fl == DefaultValue(SortedEntries(entries)).value
        && forall d :: d in entries ==> PosKey(e.fl) <= PosKey(d.fl)
  {
    var r := SortedEntries(entries);
    SortSorted(EntryKey, entries);
    assert |r| == |multiset(r)| == |entries|;
    if r != [] {
      assert r[0] in multiset(entries);
      forall d | d in entries
        ensures PosKey(r[0].fl) <= PosKey(d.fl)
      {
        assert d in multiset(r);
        var j :| 0 <= j < |r| && r[j] == d;
        assert j == 0 || EntryKey(r[0]) <= EntryKey(r[j]);
      }
    }
  }

  /* ---------- properties of the synonym choice ---------- */

  /** The map holds, for each part of speech, the synonyms of the last group
      that has it. */
  lemma {:induction false} SynMapLastWins(groups: seq<SynGroup>, k: nat)
    requires k < |groups|
    requires forall j :: k < j < |groups| ==> groups[j].fl != groups[k].fl
    ensures SynMap(groups)[groups[k].fl] == groups[k].synonyms
  {
    if k < |groups| - 1 {
      var init := groups[..|groups| - 1];
      assert init[k] == groups[k];
      assert forall j :: k < j < |init| ==> init[j] == groups[j];
      SynMapLastWins(init, k);
    }
  }

  /** The fallback is every synonym of every group, once each, in
      first-seen order. */
  lemma FallbackSpec(groups: seq<SynGroup>)
    ensures NoDups(AllSynFallback(groups))
    ensures forall w :: w in AllSynFallback(groups) <==> exists g :: g in groups && w in g.synonyms
  {
    DedupeSpec(ConcatMap(SynonymsOfGroup, groups));
    ConcatMapMembers(SynonymsOfGroup, groups);
    forall w, g | g in groups && w in g.synonyms
      ensures w in AllSynFallback(groups)
    {
      ConcatMapHas(SynonymsOfGroup, groups, g, w);
    }
  }

  /** A part of speech shows its own synonyms when the map has a non-empty
      list for it, and the fallback otherwise. */
  lemma ShownSynonymsSpec(groups: seq<SynGroup>, fl: string)
    ensures var m := SynMap(groups);
      ShownSynonyms(groups, fl) == if fl in m && m[fl] != [] then m[fl] else AllSynFallback(groups)
    ensures (forall g :: g in groups ==> g.fl != fl) ==> ShownSynonyms(groups, fl) == AllSynFallback(groups)
  {
  }
}
