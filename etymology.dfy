/** Etymologies of a dictionary entry (`extractEtymologiesFromEntry`): the
    `["text", …]` parts of the standard `et` array, then the "Word History"
    chunks of `history.pt` (text pairs or bare strings), each cleaned;
    empty and repeated texts are skipped and the list stops at the cap. */
module Etymology {
  import opened JsValue
  import opened OrderedSet
  import opened SeqUtil
  import opened MarkupCleaner

  /** The default cap of `extractEtymologiesFromEntry`. */
  const EtymologyLimit: int := 2

  /** A `["text", s]` part with a string `s` (further elements ignored). */
  predicate IsTextPair(part: Value) {
    part.Arr? && |part.elems| >= 2 && part.elems[0] == Str("text") && part.elems[1].Str?
  }

  /** The raw text an `et` part offers. */
  function EtPart(part: Value): seq<string> {
    if IsTextPair(part) then [part.elems[1].s] else []
  }

  /** The raw text a `history.pt` chunk offers: a text pair or a bare string. */
  function HistoryChunk(chunk: Value): seq<string> {
    if IsTextPair(chunk) then [chunk.elems[1].s]
    else if chunk.Str? then [chunk.s]
    else []
  }

  function EtRaws(e: Value): seq<string> {
    var et := Get(e, "et");
    if et.Arr? then ConcatMap(EtPart, et.elems) else []
  }

  function HistoryRaws(e: Value): seq<string> {
    var pt := Get(Get(e, "history"), "pt");
    if pt.Arr? then ConcatMap(HistoryChunk, pt.elems) else []
  }

  /** Every raw etymology text of an entry, `et` first. */
  function EtymologyRaws(e: Value): seq<string> {
    EtRaws(e) + HistoryRaws(e)
  }

  /** The cleaned texts that survive the `txt &&` test, in order. */
  function Offered(clean: string -> string, raws: seq<string>): (r: seq<string>)
    ensures forall k :: 0 <= k < |r| ==> r[k] != []
    decreases |raws|
  {
    if raws == [] then []
    else
      var txt := clean(raws[0]);
      (if txt == [] then [] else [txt]) + Offered(clean, raws[1..])
  }

  /** The etymologies of an entry with the cleaner the source uses. */
  function Etymologies(e: Value, limit: int): seq<string> {
    AddEach([], Offered(CleanMWText, EtymologyRaws(e)), limit)
  }

  /* ---------- the imperative extractor ---------- */

  /** `extractEtymologiesFromEntry`, with the text cleaner as the parameter
      `clean` (the source calls `cleanMWText` there): the `et` loop, which
      returns when the list reaches `limit`, then the `history.pt` loop. */
  method ExtractEtymologiesFromEntry(clean: string -> string, e: Value, limit: int) returns (out: seq<string>)
    ensures out == AddEach([], Offered(clean, EtymologyRaws(e)), limit)
  {
    out := [];
    var et := Get(e, "et");
    if et.Arr? {
      var full;
      out, full := OfferEtParts(clean, et.elems, out, limit);
      if full {
        OfferedAppend(clean, EtRaws(e), HistoryRaws(e));
        AddEachStopped([], Offered(clean, EtRaws(e)), Offered(clean, HistoryRaws(e)), limit);
        return;
      }
    }
    OfferedAppend(clean, EtRaws(e), HistoryRaws(e));
    AddEachJoin([], Offered(clean, EtRaws(e)), Offered(clean, HistoryRaws(e)), limit);
    var pt := Get(Get(e, "history"), "pt");
    if pt.Arr? {
      var full;
      out, full := OfferHistoryChunks(clean, pt.elems, out, limit);
    }
  }

  /** The `for (const part of et)` loop: pushes the new non-empty cleaned
      text of every `["text", s]` part and reports whether a push left the
      list at the cap (where the source returns). */
  method OfferEtParts(clean: string -> string, parts: seq<Value>, start: seq<string>, limit: int)
    returns (out: seq<string>, full: bool)
    ensures out == AddEach(start, Offered(clean, ConcatMap(EtPart, parts)), limit)
    ensures full <==> out != start && |out| >= limit
  {
    out := start;
    ghost var done: seq<string> := [];
    var i := 0;
    while i < |parts|
      invariant 0 <= i <= |parts|
      invariant done == ConcatMap(EtPart, parts[..i])
      invariant out == AddEach(start, Offered(clean, done), limit)
      invariant out == start || |out| < limit
    {
      ConcatMapSnoc(EtPart, parts, i);
      var raws := EtPart(parts[i]);
      out, full := OfferRaws(clean, start, done, out, raws, limit);
      if full {
        ConcatMapSplit(EtPart, parts, i + 1);
        Stop(clean, start, done + raws, ConcatMap(EtPart, parts[i + 1..]), limit);
        return;
      }
      done := done + raws;
      i := i + 1;
    }
    assert parts[..i] == parts;
    full := false;
  }

  /** The `for (const chunk of pt)` loop: the same for text pairs and bare
      strings, breaking when a push left the list at the cap. */
  method OfferHistoryChunks(clean: string -> string, chunks: seq<Value>, start: seq<string>, limit: int)
    returns (out: seq<string>, full: bool)
    ensures out == AddEach(start, Offered(clean, ConcatMap(HistoryChunk, chunks)), limit)
    ensures full <==> out != start && |out| >= limit
  {
    out := start;
    ghost var done: seq<string> := [];
    var j := 0;
    while j < |chunks|
      invariant 0 <= j <= |chunks|
      invariant done == ConcatMap(HistoryChunk, chunks[..j])
      invariant out == AddEach(start, Offered(clean, done), limit)
      invariant out == start || |out| < limit
    {
      ConcatMapSnoc(HistoryChunk, chunks, j);
      var raws := HistoryChunk(chunks[j]);
      out, full := OfferRaws(clean, start, done, out, raws, limit);
      if full {
        ConcatMapSplit(HistoryChunk, chunks, j + 1);
        Stop(clean, start, done + raws, ConcatMap(HistoryChunk, chunks[j + 1..]), limit);
        return;
      }
      done := done + raws;
      j := j + 1;
    }
    assert chunks[..j] == chunks;
    full := false;
  }

  /** The body shared by both loops: for the raw text of a part, if it
      has one, `txt && !out.includes(txt) && out.push(txt)`, reporting
      whether the push left the list at the cap. */
  method OfferRaws(clean: string -> string, start: seq<string>, ghost done: seq<string>, out: seq<string>,
                   raws: seq<string>, limit: int)
    returns (out': seq<string>, full: bool)
    requires |raws| <= 1
    requires out == AddEach(start, Offered(clean, done), limit)
    requires out == start || |out| < limit
    ensures out' == AddEach(start, Offered(clean, done + raws), limit)
    ensures full <==> out' != start && |out'| >= limit
    ensures full ==> |out'| > |start|
  {
    out' := out;
    full := false;
    if raws == [] {
      assert done + raws == done;
    } else {
      var raw := raws[0];
      assert raws == [raw];
      Offer(clean, start, done, raw, limit);
      var txt := clean(raw);
      if txt != [] && txt !in out {
        out' := out + [txt];
        full := |out'| >= limit;
      }
    }
  }

  /** One raw text offered to a list that has not stopped. */
  lemma Offer(clean: string -> string, start: seq<string>, done: seq<string>, raw: string, limit: int)
    requires AddEach(start, Offered(clean, done), limit) == start
          || |AddEach(start, Offered(clean, done), limit)| < limit
    ensures |AddEach(start, Offered(clean, done), limit)| >= |start|
    ensures var out := AddEach(start, Offered(clean, done), limit);
      var txt := clean(raw);
      AddEach(start, Offered(clean, done + [raw]), limit)
        == if txt == [] || txt in out then out else out + [txt]
  {
    var o := Offered(clean, done);
    OfferedAppend(clean, done, [raw]);
    assert Offered(clean, [raw]) == if clean(raw) == [] then [] else [clean(raw)];
    AddEachJoin(start, o, Offered(clean, [raw]), limit);
    AddEachGrows(start, o, limit);
  }

  /** A list that reached the cap by a push ignores everything after. */
  lemma Stop(clean: string -> string, start: seq<string>, done: seq<string>, rest: seq<string>, limit: int)
    requires |AddEach(start, Offered(clean, done), limit)| > |start|
    requires |AddEach(start, Offered(clean, done), limit)| >= limit
    ensures AddEach(start, Offered(clean, done + rest), limit) == AddEach(start, Offered(clean, done), limit)
  {
    OfferedAppend(clean, done, rest);
    AddEachStopped(start, Offered(clean, done), Offered(clean, rest), limit);
  }

  lemma {:induction false} OfferedAppend(clean: string -> string, a: seq<string>, b: seq<string>)
    decreases |a|
    ensures Offered(clean, a + b) == Offered(clean, a) + Offered(clean, b)
  {
    if a == [] {
      assert a + b == b;
    } else {
      assert (a + b)[0] == a[0] && (a + b)[1..] == a[1..] + b;
      OfferedAppend(clean, a[1..], b);
    }
  }

  /* ---------- properties ---------- */

  /** The offered texts are exactly the non-empty images of the raw ones. */
  lemma {:induction false} OfferedMembers(clean: string -> string, raws: seq<string>)
    decreases |raws|
    ensures forall x :: x in Offered(clean, raws) <==> x != [] && exists r :: r in raws && x == clean(r)
  {
    if raws != [] {
      OfferedMembers(clean, raws[1..]);
      assert forall r :: r in raws <==> r == raws[0] || r in raws[1..];
    }
  }

  /** The etymologies are distinct non-empty cleanings of the entry's raw
      texts, at most `limit` of them (one, for a cap below one), and below
      the cap none is missing. */
  lemma EtymologiesBounded(e: Value, limit: int)
    ensures NoDups(Etymologies(e, limit))
    ensures |Etymologies(e, limit)| <= if limit < 1 then 1 else limit
    ensures forall x :: x in Etymologies(e, limit) ==>
      x != [] && exists r :: r in EtymologyRaws(e) && x == CleanMWText(r)
    ensures |Etymologies(e, limit)| < limit ==>
      forall r :: r in EtymologyRaws(e) && CleanMWText(r) != [] ==> CleanMWText(r) in Etymologies(e, limit)
  {
    var ts := Offered(CleanMWText, EtymologyRaws(e));
    OfferedMembers(CleanMWText, EtymologyRaws(e));
    AddEachBounds([], ts, limit);
    if limit < 1 && ts != [] {
      assert AddEach([], ts, limit) == [ts[0]];
    }
    if |Etymologies(e, limit)| < limit {
      AddEachComplete([], ts, limit);
    }
  }

  /** Every etymology is cleaned Merriam-Webster text. */
  lemma EtymologiesClean(e: Value, limit: int)
    ensures forall x :: x in Etymologies(e, limit) ==> CleanShape(x)
  {
    EtymologiesBounded(e, limit);
    forall r | r in EtymologyRaws(e) {
      CleanMWTextShape(r);
    }
  }

  /** The standard `et` texts come first: when they alone fill the list,
      the "Word History" block is never read. */
  lemma EtFirst(e: Value, limit: int)
    requires AddEach([], Offered(CleanMWText, EtRaws(e)), limit) != []
    requires |AddEach([], Offered(CleanMWText, EtRaws(e)), limit)| >= limit
    ensures Etymologies(e, limit) == AddEach([], Offered(CleanMWText, EtRaws(e)), limit)
  {
    OfferedAppend(CleanMWText, EtRaws(e), HistoryRaws(e));
    AddEachStopped([], Offered(CleanMWText, EtRaws(e)), Offered(CleanMWText, HistoryRaws(e)), limit);
  }
}
