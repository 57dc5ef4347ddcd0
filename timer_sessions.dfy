/** The store of today's timer sessions (`TimerSessionsProvider`). The
    stored list is replaced by each operation; what the store exposes is
    its canonical form: only sessions that ended today, ascending by start
    time, at most fifty. "Today" is a predicate on the `endedAt` timestamp
    and times are given as parameters. */
module TimerSessions {
  import opened Wrappers
  import opened StringOrder

  datatype Session = Session(id: string, startedAt: string, endedAt: string, durationSec: int, labelText: Option<string>)

  /** `MAX_TODAY` */
  const MaxToday: nat := 50

  /* ---------- filterToToday ---------- */

  function FilterToToday(isToday: string -> bool, list: seq<Session>): (r: seq<Session>)
    ensures |r| <= |list|
    ensures forall s :: s in r <==> s in list && isToday(s.endedAt)
  {
    if list == [] then []
    else (if isToday(list[0].endedAt) then [list[0]] else []) + FilterToToday(isToday, list[1..])
  }

  /* ---------- sortByStartedAtAsc ---------- */

  predicate SortedByStart(xs: seq<Session>) {
    forall i, j :: 0 <= i < j < |xs| ==> LexLe(xs[i].startedAt, xs[j].startedAt)
  }

  /** Places `x` before the first element that does not start earlier. */
  function InsertByStart(x: Session, ys: seq<Session>): (r: seq<Session>)
    ensures multiset(r) == multiset(ys) + multiset{x}
  {
    if ys == [] || LexLe(x.startedAt, ys[0].startedAt) then [x] + ys
    else
      assert ys == [ys[0]] + ys[1..];
      [ys[0]] + InsertByStart(x, ys[1..])
  }

  /** `[...arr].sort((a, b) => a.startedAt.localeCompare(b.startedAt))`, a
      stable sort (an insertion sort here). */
  function SortByStartedAtAsc(xs: seq<Session>): (r: seq<Session>)
    ensures multiset(r) == multiset(xs)
  {
    if xs == [] then []
    else
      assert xs == [xs[0]] + xs[1..];
      InsertByStart(xs[0], SortByStartedAtAsc(xs[1..]))
  }

  /* ---------- canonicalize ---------- */

  /** `sortByStartedAtAsc(filterToToday(list)).slice(0, MAX_TODAY)` */
  function Canonicalize(isToday: string -> bool, list: seq<Session>): seq<Session> {
    var sorted := SortByStartedAtAsc(FilterToToday(isToday, list));
    if |sorted| <= MaxToday then sorted else sorted[..MaxToday]
  }

  predicate IsCanonical(isToday: string -> bool, xs: seq<Session>) {
    && |xs| <= MaxToday
    && SortedByStart(xs)
    && forall i :: 0 <= i < |xs| ==> isToday(xs[i].endedAt)
  }

  /* ---------- the operations' list transforms ---------- */

  /** `Math.max(0, Math.round((endedAt - startedAt) / 1000))` on millisecond
      instants; `Math.round` rounds halves up. */
  function ComputedDuration(startedMs: int, endedMs: int): (d: int)
    ensures d >= 0
    ensures endedMs >= startedMs ==> d * 1000 - 500 <= endedMs - startedMs < d * 1000 + 500
    ensures endedMs < startedMs - 500 ==> d == 0
  {
    var rounded := (endedMs - startedMs + 500) / 1000;
    if rounded > 0 then rounded else 0
  }

  /** The session `addTimerSession` builds: the given duration when there
      is one, otherwise the computed one. */
  function NewSession(id: string, startedMs: int, endedMs: int, startedIso: string, endedIso: string,
                      durationSec: Option<int>, labelText: Option<string>): Session
  {
    Session(id, startedIso, endedIso,
            if durationSec.Some? then durationSec.value else ComputedDuration(startedMs, endedMs),
            labelText)
  }

  predicate HasId(list: seq<Session>, id: string) {
    exists k :: 0 <= k < |list| && list[k].id == id
  }

  /** `Partial<Omit<TimerSessionType, "id">>`: `Some` for each key given;
      for the optional `label`, `Some(None)` is a key given as `undefined`. */
  datatype SessionUpdate = SessionUpdate(startedAt: Option<string>, endedAt: Option<string>,
                                         durationSec: Option<int>, labelText: Option<Option<string>>)

  /** `{ ...s, ...updates }` */
  function Overwrite(s: Session, u: SessionUpdate): Session {
    Session(s.id,
            if u.startedAt.Some? then u.startedAt.value else s.startedAt,
            if u.endedAt.Some? then u.endedAt.value else s.endedAt,
            if u.durationSec.Some? then u.durationSec.value else s.durationSec,
            if u.labelText.Some? then u.labelText.value else s.labelText)
  }

  /** `prev.map((s) => (s.id === id ? { ...s, ...updates } : s))` */
  function UpdateMatching(list: seq<Session>, id: string, u: SessionUpdate): (r: seq<Session>)
    ensures |r| == |list|
  {
    if list == [] then []
    else [if list[0].id == id then Overwrite(list[0], u) else list[0]] + UpdateMatching(list[1..], id, u)
  }

  /** `prev.filter((s) => s.id !== id)` */
  function WithoutId(list: seq<Session>, id: string): (r: seq<Session>)
    ensures |r| <= |list|
  {
    if list == [] then []
    else (if list[0].id != id then [list[0]] else []) + WithoutId(list[1..], id)
  }

  /** `sessions.reduce((sum, s) => sum + s.durationSec, 0)` */
  function SumDurations(xs: seq<Session>): int {
    if xs == [] then 0 else xs[0].durationSec + SumDurations(xs[1..])
  }

  /* ---------- the store ---------- */

  class SessionStore {
    /** `sessionsRaw`, the stored list. */
    var raw: seq<Session>

    constructor ()
      ensures raw == []
    {
      raw := [];
    }

    /** `sessions`, the list the context exposes. */
    function Sessions(isToday: string -> bool): seq<Session>
      reads this
    {
      Canonicalize(isToday, raw)
    }

    /** `totalSecondsToday` */
    function TotalSecondsToday(isToday: string -> bool): int
      reads this
    {
      SumDurations(Sessions(isToday))
    }

    /** `addTimerSession`: a stored session with the same id leaves the list
        as it is; otherwise the new session goes in front and the list is
        canonicalised. */
    method AddTimerSession(isToday: string -> bool, id: string, startedMs: int, endedMs: int,
                           startedIso: string, endedIso: string, durationSec: Option<int>, labelText: Option<string>)
      modifies this
      ensures raw == if HasId(old(raw), id) then old(raw)
                     else Canonicalize(isToday, [NewSession(id, startedMs, endedMs, startedIso, endedIso, durationSec, labelText)] + old(raw))
      ensures !HasId(old(raw), id) ==> IsCanonical(isToday, raw)
    {
      var s := NewSession(id, startedMs, endedMs, startedIso, endedIso, durationSec, labelText);
      if !HasId(raw, id) {
        raw := Canonicalize(isToday, [s] + raw);
        CanonicalizeSpec(isToday, [s] + old(raw));
      }
    }

    /** `updateSession` */
    method UpdateSession(isToday: string -> bool, id: string, u: SessionUpdate)
      modifies this
      ensures raw == Canonicalize(isToday, UpdateMatching(old(raw), id, u))
      ensures IsCanonical(isToday, raw)
    {
      raw := Canonicalize(isToday, UpdateMatching(raw, id, u));
      CanonicalizeSpec(isToday, UpdateMatching(old(raw), id, u));
    }

    /** `removeSession` */
    method RemoveSession(isToday: string -> bool, id: string)
      modifies this
      ensures raw == Canonicalize(isToday, WithoutId(old(raw), id))
      ensures IsCanonical(isToday, raw) && !HasId(raw, id)
    {
      raw := Canonicalize(isToday, WithoutId(raw, id));
      CanonicalizeSpec(isToday, WithoutId(old(raw), id));
      RemoveSpec(old(raw), id);
    }

    /** `clearSessions` */
    method ClearSessions()
      modifies this
      ensures raw == []
    {
      raw := [];
    }
  }

  /* ---------- properties ---------- */

  lemma {:induction false} InsertSorted(x: Session, ys: seq<Session>)
    requires SortedByStart(ys)
    ensures SortedByStart(InsertByStart(x, ys))
    ensures InsertByStart(x, ys)[0] == x || InsertByStart(x, ys)[0] == ys[0]
  {
    if ys != [] && !LexLe(x.startedAt, ys[0].startedAt) {
      LexLeTotal(x.startedAt, ys[0].startedAt);
      InsertSorted(x, ys[1..]);
      var r := InsertByStart(x, ys);
      forall i, j | 0 <= i < j < |r|
        ensures LexLe(r[i].startedAt, r[j].startedAt)
      {
        if i == 0 && j == 1 {
          if |ys| > 1 && r[1] == ys[1] {
            assert LexLe(ys[0].startedAt, ys[1].startedAt);
          }
        } else if i == 0 {
          LexLeTrans(r[0].startedAt, r[1].startedAt, r[j].startedAt);
        }
      }
    } else if ys != [] {
      var r := InsertByStart(x, ys);
      forall i, j | 0 <= i < j < |r|
        ensures LexLe(r[i].startedAt, r[j].startedAt)
      {
        if i == 0 && j > 1 {
          LexLeTrans(x.startedAt, ys[0].startedAt, r[j].startedAt);
        }
      }
    }
  }

  /** The sort puts the sessions in ascending start order. */
  lemma {:induction false} SortSorted(xs: seq<Session>)
    ensures SortedByStart(SortByStartedAtAsc(xs))
  {
    if xs != [] {
      SortSorted(xs[1..]);
      InsertSorted(xs[0], SortByStartedAtAsc(xs[1..]));
    }
  }

  /** The sessions with one start time. */
  function StartingAt(xs: seq<Session>, t: string): seq<Session> {
    if xs == [] then [] else (if xs[0].startedAt == t then [xs[0]] else []) + StartingAt(xs[1..], t)
  }

  lemma {:induction false} InsertStable(x: Session, ys: seq<Session>, t: string)
    ensures StartingAt(InsertByStart(x, ys), t) == (if x.startedAt == t then [x] else []) + StartingAt(ys, t)
  {
    var r := InsertByStart(x, ys);
    if ys != [] && !LexLe(x.startedAt, ys[0].startedAt) {
      InsertStable(x, ys[1..], t);
      if x.startedAt == t {
        LexLeRefl(t);
      }
      assert r[0] == ys[0] && r[1..] == InsertByStart(x, ys[1..]);
      Swap(if ys[0].startedAt == t then [ys[0]] else [], if x.startedAt == t then [x] else [], StartingAt(ys[1..], t));
    } else {
      assert r[0] == x && r[1..] == ys;
    }
  }

  lemma Swap(a: seq<Session>, b: seq<Session>, rest: seq<Session>)
    requires a == [] || b == []
    ensures a + (b + rest) == b + (a + rest)
  {
  }

  /** The sort is stable: sessions with equal start times keep their order. */
  lemma {:induction false} SortStable(xs: seq<Session>, t: string)
    ensures StartingAt(SortByStartedAtAsc(xs), t) == StartingAt(xs, t)
  {
    if xs != [] {
      SortStable(xs[1..], t);
      InsertStable(xs[0], SortByStartedAtAsc(xs[1..]), t);
    }
  }

  /** Sorting a sorted list changes nothing. */
  lemma {:induction false} SortOfSorted(xs: seq<Session>)
    requires SortedByStart(xs)
    ensures SortByStartedAtAsc(xs) == xs
  {
    if xs != [] {
      assert SortedByStart(xs[1..]);
      SortOfSorted(xs[1..]);
    }
  }

  /** The canonical list: sessions of the stored list that ended today,
      ascending by start, at most fifty, each taken from the stored list. */
  lemma CanonicalizeSpec(isToday: string -> bool, list: seq<Session>)
    ensures var r := Canonicalize(isToday, list);
      && IsCanonical(isToday, r)
      && |r| == (if |FilterToToday(isToday, list)| <= MaxToday then |FilterToToday(isToday, list)| else MaxToday)
      && multiset(r) <= multiset(FilterToToday(isToday, list))
      && forall s :: s in r ==> s in list
  {
    var today := FilterToToday(isToday, list);
    var r := Canonicalize(isToday, list);
    CanonicalPrefix(isToday, list);
    forall s | s in r
      ensures s in list && isToday(s.endedAt)
    {
      assert s in multiset(r);
      assert s in today;
    }
    forall i | 0 <= i < |r|
      ensures isToday(r[i].endedAt)
    {
      assert r[i] in r;
    }
  }

  /** When more than fifty sessions ended today, the earliest are kept:
      every session left out starts no earlier than every kept one. */
  lemma CanonicalizeKeepsEarliest(isToday: string -> bool, list: seq<Session>)
    ensures var r := Canonicalize(isToday, list);
      forall s :: s in list && isToday(s.endedAt) && s !in r ==>
        forall k :: 0 <= k < |r| ==> LexLe(r[k].startedAt, s.startedAt)
  {
    var sorted := SortByStartedAtAsc(FilterToToday(isToday, list));
    var r := Canonicalize(isToday, list);
    CanonicalPrefix(isToday, list);
    forall s | s in list && isToday(s.endedAt) && s !in r
      ensures forall k :: 0 <= k < |r| ==> LexLe(r[k].startedAt, s.startedAt)
    {
      assert s in FilterToToday(isToday, list);
      assert s in multiset(sorted);
      PrefixOfSorted(sorted, r, s);
    }
  }

  lemma PrefixOfSorted(sorted: seq<Session>, r: seq<Session>, s: Session)
    requires SortedByStart(sorted) && |r| <= |sorted| && r == sorted[..|r|]
    requires s in sorted && s !in r
    ensures forall k :: 0 <= k < |r| ==> LexLe(r[k].startedAt, s.startedAt)
  {
    var j :| 0 <= j < |sorted| && sorted[j] == s;
    assert forall i :: 0 <= i < |r| ==> sorted[i] == r[i] && r[i] in r;
  }

  /** The canonical list is a prefix of the sorted list of today's sessions. */
  lemma CanonicalPrefix(isToday: string -> bool, list: seq<Session>)
    ensures var sorted := SortByStartedAtAsc(FilterToToday(isToday, list));
      var r := Canonicalize(isToday, list);
      && |sorted| == |FilterToToday(isToday, list)|
      && SortedByStart(sorted) && SortedByStart(r)
      && r == sorted[..|r|]
      && multiset(r) <= multiset(sorted) == multiset(FilterToToday(isToday, list))
  {
    var today := FilterToToday(isToday, list);
    var sorted := SortByStartedAtAsc(today);
    var r := Canonicalize(isToday, list);
    SortSorted(today);
    assert |sorted| == |multiset(sorted)| == |today|;
    assert sorted == r + sorted[|r|..];
  }

  /** Canonicalising twice is canonicalising once. */
  lemma CanonicalizeIdempotent(isToday: string -> bool, list: seq<Session>)
    ensures Canonicalize(isToday, Canonicalize(isToday, list)) == Canonicalize(isToday, list)
  {
    var r := Canonicalize(isToday, list);
    CanonicalizeSpec(isToday, list);
    AllTodayKept(isToday, r);
    SortOfSorted(r);
  }

  lemma {:induction false} AllTodayKept(isToday: string -> bool, xs: seq<Session>)
    requires forall i :: 0 <= i < |xs| ==> isToday(xs[i].endedAt)
    ensures FilterToToday(isToday, xs) == xs
  {
    if xs != [] {
      AllTodayKept(isToday, xs[1..]);
    }
  }

  /** Updating touches only sessions with the id: they keep the id, take
      the given fields and keep the rest; every other session is left as
      it was, in place. */
  lemma {:induction false} UpdateSpec(list: seq<Session>, id: string, u: SessionUpdate)
    ensures var r := UpdateMatching(list, id, u);
      forall k :: 0 <= k < |list| ==>
        if list[k].id != id then r[k] == list[k]
        else
          && r[k].id == id
          && r[k].startedAt == (if u.startedAt.Some? then u.startedAt.value else list[k].startedAt)
          && r[k].endedAt == (if u.endedAt.Some? then u.endedAt.value else list[k].endedAt)
          && r[k].durationSec == (if u.durationSec.Some? then u.durationSec.value else list[k].durationSec)
          && r[k].labelText == (if u.labelText.Some? then u.labelText.value else list[k].labelText)
  {
    if list != [] {
      UpdateSpec(list[1..], id, u);
      var r := UpdateMatching(list, id, u);
      assert r[1..] == UpdateMatching(list[1..], id, u);
    }
  }

  /** Removing keeps, in order, exactly the sessions with another id. */
  lemma {:induction false} RemoveSpec(list: seq<Session>, id: string)
    ensures forall s :: s in WithoutId(list, id) <==> s in list && s.id != id
    ensures !HasId(WithoutId(list, id), id)
    ensures !HasId(list, id) ==> WithoutId(list, id) == list
  {
    if list != [] {
      RemoveSpec(list[1..], id);
      var r := WithoutId(list, id);
      forall k | 0 <= k < |r|
        ensures r[k].id != id
      {
        assert r[k] in r;
      }
      if !HasId(list, id) {
        assert list[0].id != id;
        assert !HasId(list[1..], id) by {
          forall k | 0 <= k < |list[1..]| ensures list[1..][k].id != id {
            assert list[1..][k] == list[k + 1];
          }
        }
      }
    }
  }

  lemma {:induction false} SumInsert(x: Session, ys: seq<Session>)
    ensures SumDurations(InsertByStart(x, ys)) == x.durationSec + SumDurations(ys)
  {
    if ys != [] && !LexLe(x.startedAt, ys[0].startedAt) {
      SumInsert(x, ys[1..]);
    }
  }

  lemma {:induction false} SumSorted(xs: seq<Session>)
    ensures SumDurations(SortByStartedAtAsc(xs)) == SumDurations(xs)
  {
    if xs != [] {
      SumSorted(xs[1..]);
      SumInsert(xs[0], SortByStartedAtAsc(xs[1..]));
    }
  }

  /** While at most fifty sessions ended today, the total is the sum of the
      durations of all of today's stored sessions, whatever their order. */
  lemma TotalOfToday(isToday: string -> bool, list: seq<Session>)
    requires |FilterToToday(isToday, list)| <= MaxToday
    ensures SumDurations(Canonicalize(isToday, list)) == SumDurations(FilterToToday(isToday, list))
  {
    var today := FilterToToday(isToday, list);
    assert |SortByStartedAtAsc(today)| == |multiset(SortByStartedAtAsc(today))| == |today|;
    SumSorted(today);
  }

  /** The duration rounds the elapsed milliseconds to whole seconds and is
      never negative; a given duration is used as it is. */
  lemma NewSessionSpec(id: string, startedMs: int, endedMs: int, startedIso: string, endedIso: string,
                       durationSec: Option<int>, labelText: Option<string>)
    ensures var s := NewSession(id, startedMs, endedMs, startedIso, endedIso, durationSec, labelText);
      && s.id == id && s.startedAt == startedIso && s.endedAt == endedIso && s.labelText == labelText
      && (durationSec.Some? ==> s.durationSec == durationSec.value)
      && (durationSec.None? ==> s.durationSec >= 0)
      && (durationSec.None? && (endedMs - startedMs) % 1000 == 0 && endedMs >= startedMs ==>
            s.durationSec == (endedMs - startedMs) / 1000)
  {
  }
}
