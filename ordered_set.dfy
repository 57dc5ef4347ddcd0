/** A JavaScript `Set<string>` (and the `out.includes(x) || out.push(x)`
    idiom) as a duplicate-free sequence in insertion order, which is the
    order `Array.from(set)` gives back. */
module OrderedSet {

  predicate NoDups<T(==)>(s: seq<T>) {
    forall i, j :: 0 <= i < j < |s| ==> s[i] != s[j]
  }

  /** `set.add(x)`: appends x unless it is already there. */
  function Insert<T(==)>(out: seq<T>, x: T): (r: seq<T>)
    ensures x in out ==> r == out
    ensures x !in out ==> r == out + [x]
  {
    if x in out then out else out + [x]
  }

  /** Inserts the elements of `ts` one by one, checking the size only after a
      real insertion and stopping as soon as it reaches `limit`: the loops of
      the example and etymology collectors. */
  function AddEach<T(==)>(out: seq<T>, ts: seq<T>, limit: int): seq<T>
    decreases |ts|
  {
    if ts == [] then out
    else if ts[0] in out then AddEach(out, ts[1..], limit)
    else if |out| + 1 >= limit then out + [ts[0]]
    else AddEach(out + [ts[0]], ts[1..], limit)
  }

  /** `AddEach` behind an entry check `if (out.size >= limit) return`, which
      is also what "add while the size is below the cap" computes. */
  function Capped<T(==)>(out: seq<T>, ts: seq<T>, limit: int): seq<T>
  {
    if |out| >= limit then out else AddEach(out, ts, limit)
  }

  /** `Array.from(new Set(ts))`: first occurrences, in order. */
  function Dedupe<T(==)>(ts: seq<T>): seq<T>
  {
    DedupeInto([], ts)
  }

  function DedupeInto<T(==)>(out: seq<T>, ts: seq<T>): seq<T>
    decreases |ts|
  {
    if ts == [] then out else DedupeInto(Insert(out, ts[0]), ts[1..])
  }

  /** What AddEach keeps: a duplicate-free extension of `out` by elements of
      `ts`, never longer than the cap when it starts below it. */
  lemma {:induction false} AddEachBounds<T>(out: seq<T>, ts: seq<T>, limit: int)
    decreases |ts|
    requires NoDups(out)
    ensures NoDups(AddEach(out, ts, limit))
    ensures out <= AddEach(out, ts, limit)
    ensures forall x :: x in AddEach(out, ts, limit) ==> x in out || x in ts
    ensures |out| < limit ==> |AddEach(out, ts, limit)| <= limit
  {
    if ts == [] {
    } else if ts[0] in out {
      AddEachBounds(out, ts[1..], limit);
    } else if |out| + 1 >= limit {
    } else {
      AddEachBounds(out + [ts[0]], ts[1..], limit);
    }
  }

  /** When AddEach ends below the cap it has taken every element of `ts`. */
  lemma {:induction false} AddEachComplete<T>(out: seq<T>, ts: seq<T>, limit: int)
    decreases |ts|
    requires |AddEach(out, ts, limit)| < limit
    ensures forall x :: x in out || x in ts ==> x in AddEach(out, ts, limit)
  {
    if ts == [] {
    } else if ts[0] in out {
      AddEachComplete(out, ts[1..], limit);
    } else if |out| + 1 >= limit {
    } else {
      AddEachComplete(out + [ts[0]], ts[1..], limit);
      assert forall x :: x in ts ==> x == ts[0] || x in ts[1..];
    }
  }

  /** Running AddEach over `a` and then over `b` is running it over `a + b`,
      provided the first run stopped below the cap (so the second one is not
      blocked by an entry check). */
  lemma {:induction false} AddEachAppend<T>(out: seq<T>, a: seq<T>, b: seq<T>, limit: int)
    decreases |a|
    ensures |AddEach(out, a, limit)| < limit ==>
      AddEach(AddEach(out, a, limit), b, limit) == AddEach(out, a + b, limit)
    ensures |AddEach(out, a, limit)| >= limit && |out| < limit ==>
      AddEach(out, a, limit) == AddEach(out, a + b, limit)
  {
    if a == [] {
      assert a + b == b;
    } else {
      assert (a + b)[0] == a[0] && (a + b)[1..] == a[1..] + b;
      if a[0] in out {
        AddEachAppend(out, a[1..], b, limit);
      } else if |out| + 1 >= limit {
      } else {
        AddEachAppend(out + [a[0]], a[1..], b, limit);
      }
    }
  }

  /** The same composition law for the guarded form: Capped runs compose
      over concatenation unconditionally. */
  lemma CappedAppend<T>(out: seq<T>, a: seq<T>, b: seq<T>, limit: int)
    ensures Capped(Capped(out, a, limit), b, limit) == Capped(out, a + b, limit)
  {
    if |out| < limit {
      AddEachAppend(out, a, b, limit);
    }
  }

  lemma CappedBounds<T>(out: seq<T>, ts: seq<T>, limit: int)
    requires NoDups(out)
    ensures NoDups(Capped(out, ts, limit))
    ensures out <= Capped(out, ts, limit)
    ensures forall x :: x in Capped(out, ts, limit) ==> x in out || x in ts
    ensures |out| <= limit ==> |Capped(out, ts, limit)| <= limit
  {
    AddEachBounds(out, ts, limit);
  }

  lemma CappedComplete<T>(out: seq<T>, ts: seq<T>, limit: int)
    requires |Capped(out, ts, limit)| < limit
    ensures forall x :: x in out || x in ts ==> x in Capped(out, ts, limit)
  {
    AddEachComplete(out, ts, limit);
  }

  /** Dedupe keeps exactly the elements of its input, each once, and the
      first occurrence decides the position. */
  lemma {:induction false} DedupeIntoSpec<T>(out: seq<T>, ts: seq<T>)
    decreases |ts|
    requires NoDups(out)
    ensures NoDups(DedupeInto(out, ts))
    ensures out <= DedupeInto(out, ts)
    ensures forall x :: x in DedupeInto(out, ts) <==> x in out || x in ts
  {
    if ts != [] {
      DedupeIntoSpec(Insert(out, ts[0]), ts[1..]);
      assert forall x :: x in ts ==> x == ts[0] || x in ts[1..];
    }
  }

  lemma DedupeSpec<T>(ts: seq<T>)
    ensures NoDups(Dedupe(ts))
    ensures forall x :: x in Dedupe(ts) <==> x in ts
    ensures |Dedupe(ts)| <= |ts|
  {
    DedupeIntoSpec([], ts);
    DedupeLength([], ts);
  }

  lemma {:induction false} DedupeLength<T>(out: seq<T>, ts: seq<T>)
    decreases |ts|
    ensures |DedupeInto(out, ts)| <= |out| + |ts|
  {
    if ts != [] {
      DedupeLength(Insert(out, ts[0]), ts[1..]);
    }
  }

  /** A duplicate-free sequence is its own deduplication. */
  lemma {:induction false} DedupeIntoNoDups<T>(out: seq<T>, ts: seq<T>)
    decreases |ts|
    requires NoDups(out + ts)
    ensures DedupeInto(out, ts) == out + ts
  {
    if ts != [] {
      assert forall k :: 0 <= k < |out| ==> out[k] == (out + ts)[k] != (out + ts)[|out|] == ts[0];
      assert out + ts == (out + [ts[0]]) + ts[1..];
      DedupeIntoNoDups(out + [ts[0]], ts[1..]);
    }
  }

  /** Adding to a duplicate-free list keeps order: AddEach never reorders or
      drops what is already there, and appends new elements in the order of `ts`. */
  lemma {:induction false} DedupeIntoAppend<T>(out: seq<T>, a: seq<T>, b: seq<T>)
    decreases |a|
    ensures DedupeInto(DedupeInto(out, a), b) == DedupeInto(out, a + b)
  {
    if a == [] {
      assert a + b == b;
    } else {
      assert (a + b)[0] == a[0] && (a + b)[1..] == a[1..] + b;
      DedupeIntoAppend(Insert(out, a[0]), a[1..], b);
    }
  }

  /** AddEach never shrinks what it starts from. */
  lemma {:induction false} AddEachGrows<T>(out: seq<T>, ts: seq<T>, limit: int)
    decreases |ts|
    ensures out <= AddEach(out, ts, limit)
  {
    if ts != [] {
      if ts[0] in out {
        AddEachGrows(out, ts[1..], limit);
      } else if |out| + 1 < limit {
        AddEachGrows(out + [ts[0]], ts[1..], limit);
      }
    }
  }

  /** A run over `a` that has not stopped (it inserted nothing, or it is
      still below the cap) goes on over `b` as a run over `a + b` would. */
  lemma {:induction false} AddEachJoin<T>(out: seq<T>, a: seq<T>, b: seq<T>, limit: int)
    decreases |a|
    requires AddEach(out, a, limit) == out || |AddEach(out, a, limit)| < limit
    ensures AddEach(out, a + b, limit) == AddEach(AddEach(out, a, limit), b, limit)
  {
    if a == [] {
      assert a + b == b;
    } else {
      assert (a + b)[0] == a[0] && (a + b)[1..] == a[1..] + b;
      if a[0] in out {
        AddEachJoin(out, a[1..], b, limit);
      } else if |out| + 1 < limit {
        AddEachGrows(out + [a[0]], a[1..], limit);
        AddEachJoin(out + [a[0]], a[1..], b, limit);
      }
    }
  }

  /** A run that inserted something and ended at the cap has stopped: more
      input changes nothing. */
  lemma {:induction false} AddEachStopped<T>(out: seq<T>, a: seq<T>, b: seq<T>, limit: int)
    decreases |a|
    requires AddEach(out, a, limit) != out && |AddEach(out, a, limit)| >= limit
    ensures AddEach(out, a + b, limit) == AddEach(out, a, limit)
  {
    assert a != [];
    assert (a + b)[0] == a[0] && (a + b)[1..] == a[1..] + b;
    if a[0] in out {
      AddEachStopped(out, a[1..], b, limit);
    } else if |out| + 1 < limit {
      AddEachGrows(out + [a[0]], a[1..], limit);
      AddEachStopped(out + [a[0]], a[1..], b, limit);
    }
  }

  /** `out.add(x); if (out.size >= limit) return;` over `ts`: the size is
      checked after every add, whether or not the add inserted anything. */
  function AddThenCheck<T(==)>(out: seq<T>, ts: seq<T>, limit: int): seq<T>
    decreases |ts|
  {
    if ts == [] then out
    else
      var o := Insert(out, ts[0]);
      if |o| >= limit then o else AddThenCheck(o, ts[1..], limit)
  }

  /** Started below the cap, checking after every add and checking only
      after a real insertion stop at the same place. */
  lemma {:induction false} AddThenCheckBelow<T>(out: seq<T>, ts: seq<T>, limit: int)
    requires |out| < limit
    ensures AddThenCheck(out, ts, limit) == AddEach(out, ts, limit)
    decreases |ts|
  {
    if ts != [] && ts[0] in out {
      AddThenCheckBelow(out, ts[1..], limit);
    } else if ts != [] && |out| + 1 < limit {
      AddThenCheckBelow(out + [ts[0]], ts[1..], limit);
    }
  }

  /** Splitting the input of AddThenCheck: after a non-empty `a` the run
      either has stopped (size at the cap) or goes on with `b`. */
  lemma {:induction false} AddThenCheckAppend<T>(out: seq<T>, a: seq<T>, b: seq<T>, limit: int)
    requires a != []
    ensures |AddThenCheck(out, a, limit)| < limit ==>
      AddThenCheck(out, a + b, limit) == AddThenCheck(AddThenCheck(out, a, limit), b, limit)
    ensures |AddThenCheck(out, a, limit)| >= limit ==>
      AddThenCheck(out, a + b, limit) == AddThenCheck(out, a, limit)
    decreases |a|
  {
    assert (a + b)[0] == a[0] && (a + b)[1..] == a[1..] + b;
    var o := Insert(out, a[0]);
    if |o| < limit && |a| > 1 {
      AddThenCheckAppend(o, a[1..], b, limit);
    }
  }

  /** A JavaScript `Set` that the extractors fill in place; `items` lists
      its elements in insertion order. */
  class MutableSet<T(==)> {
    var items: seq<T>

    /** `new Set()` */
    constructor ()
      ensures items == []
    {
      items := [];
    }

    /** `set.size` */
    function Size(): (n: nat)
      reads this
      ensures n == |items|
    {
      |items|
    }

    /** `set.add(x)` */
    method Add(x: T)
      modifies this
      ensures items == Insert(old(items), x)
    {
      if x !in items {
        items := items + [x];
      }
    }
  }
}
