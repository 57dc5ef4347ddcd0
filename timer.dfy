/** The study timer (`Timer`): elapsed time is a base of whole seconds
    plus the seconds of the current run, which starts at a remembered
    instant. Pausing folds the run into the base; saving stores the base
    as a new session or as an update of the loaded one, then resets.
    The clock is a parameter (`now`, in milliseconds), and so are the ISO
    conversions of instants, in both directions, and the id of a new
    session. */
module StudyTimer {
  import opened Wrappers
  import opened Text
  import opened TimerSessions

  /* ---------- arithmetic of runs and saves ---------- */

  /** `Math.floor((now - runStart) / 1000)`: the whole seconds of a run. */
  function RunSeconds(runStartMs: int, now: int): (r: int)
    ensures r * 1000 <= now - runStartMs < r * 1000 + 1000
  {
    (now - runStartMs) / 1000
  }

  /** The instants `saveTimer` stores: the end is the end instant when
      there is one, else the start (or `now`) plus the duration; the start
      is the start instant when there is one, else the end minus the
      duration. */
  function SaveTimes(startedAt: Option<int>, endedAt: Option<int>, now: int, durationSec: int): (r: (int, int))
    ensures startedAt.Some? ==> r.0 == startedAt.value
    ensures endedAt.Some? ==> r.1 == endedAt.value
    ensures startedAt.None? || endedAt.None? ==> r.1 - r.0 == durationSec * 1000
    ensures startedAt.None? && endedAt.None? ==> r.0 == now
  {
    var ended := if endedAt.Some? then endedAt.value
                 else (if startedAt.Some? then startedAt.value else now) + durationSec * 1000;
    var started := if startedAt.Some? then startedAt.value else ended - durationSec * 1000;
    (started, ended)
  }

  /** The `updates` object of an edit: duration and end only when time was
      added since the session was loaded, the label only when its trimmed
      form is not empty, and never the start. */
  function EditUpdates(durationSec: int, baseAtLoad: int, endedIso: string, labelText: string): (u: SessionUpdate)
    ensures u.startedAt.None?
    ensures u.durationSec.Some? <==> durationSec > baseAtLoad
    ensures u.durationSec.Some? ==> u.durationSec.value == durationSec
    ensures u.endedAt.Some? <==> durationSec > baseAtLoad
    ensures u.endedAt.Some? ==> u.endedAt.value == endedIso
    ensures u.labelText.Some? <==> Trim(labelText) != ""
    ensures u.labelText.Some? ==> u.labelText.value == Some(Trim(labelText))
  {
    var added := durationSec - baseAtLoad;
    SessionUpdate(None,
                  if added > 0 then Some(endedIso) else None,
                  if added > 0 then Some(durationSec) else None,
                  if Trim(labelText) != "" then Some(Some(Trim(labelText))) else None)
  }

  /** `Object.keys(updates).length > 0` */
  predicate HasChanges(u: SessionUpdate) {
    u.startedAt.Some? || u.endedAt.Some? || u.durationSec.Some? || u.labelText.Some?
  }

  /** `label.trim() || undefined` */
  function NewLabel(labelText: string): (l: Option<string>)
    ensures l.None? <==> Trim(labelText) == ""
    ensures l.Some? ==> l.value == Trim(labelText)
  {
    if Trim(labelText) == "" then None else Some(Trim(labelText))
  }

  /* ---------- the component's state ---------- */

  class Timer {
    /** `seconds`, the value on display. */
    var seconds: int
    var running: bool
    var showTimer: bool
    var saving: bool
    /** `label`, the text of the label input. */
    var labelText: string
    /** `editingId`: the id of the loaded session. */
    var editingId: Option<string>
    /** `startedAtRef`, `runStartMsRef`, `baseSecRef`, `endedAtRef`, `baseAtLoadRef`. */
    var startedAt: Option<int>
    var runStartMs: Option<int>
    var baseSec: int
    var endedAt: Option<int>
    var baseAtLoad: int

    /** A run is in progress exactly while the timer runs; a running timer
        is shown; a stopped timer displays its base; a hidden timer holds
        nothing. */
    predicate Valid()
      reads this
    {
      && (running <==> runStartMs.Some?)
      && (running ==> showTimer)
      && (!running ==> seconds == baseSec)
      && (!showTimer ==> baseSec == 0 && baseAtLoad == 0 && startedAt.None? && endedAt.None?
                         && editingId.None? && labelText == "")
    }

    /** The seconds the timer stands at: the base plus the run so far. */
    function Elapsed(now: int): int
      reads this
    {
      if runStartMs.Some? then baseSec + RunSeconds(runStartMs.value, now) else baseSec
    }

    /** `editingId ? … : …`: an id is loaded (ids are truthy when not empty). */
    predicate Editing()
      reads this
    {
      editingId.Some? && editingId.value != ""
    }

    constructor ()
      ensures Valid()
      ensures seconds == 0 && !running && !showTimer && !saving && labelText == "" && editingId.None?
      ensures startedAt.None? && runStartMs.None? && baseSec == 0 && endedAt.None? && baseAtLoad == 0
    {
      seconds, running, showTimer, saving, labelText, editingId := 0, false, false, false, "", None;
      startedAt, runStartMs, baseSec, endedAt, baseAtLoad := None, None, 0, None, 0;
    }

    /** The interval callback: while running, display the elapsed seconds;
        otherwise do nothing. */
    method Tick(now: int)
      requires Valid()
      modifies this`seconds
      ensures Valid()
      ensures running ==> seconds == Elapsed(now)
      ensures !running ==> seconds == old(seconds)
    {
      if !running || runStartMs.None? {
        return;
      }
      var next := baseSec + RunSeconds(runStartMs.value, now);
      if seconds != next {
        seconds := next;
      }
    }

    /** `startOrResume`: show and run the timer from `now`, keeping the
        first start instant and forgetting the end instant. */
    method StartOrResume(now: int)
      requires Valid()
      modifies this
      ensures Valid()
      ensures showTimer && running && runStartMs == Some(now) && endedAt.None?
      ensures startedAt == if old(startedAt).None? then Some(now) else old(startedAt)
      ensures seconds == old(seconds) && baseSec == old(baseSec) && baseAtLoad == old(baseAtLoad)
      ensures saving == old(saving) && labelText == old(labelText) && editingId == old(editingId)
      ensures Elapsed(now) == baseSec
    {
      showTimer := true;
      if startedAt.None? {
        startedAt := Some(now);
      }
      runStartMs := Some(now);
      endedAt := None;
      running := true;
    }

    /** `pause`: nothing unless running; otherwise the run's whole seconds
        join the base, which is displayed, and `now` is the end instant. */
    method Pause(now: int)
      requires Valid()
      modifies this
      ensures Valid()
      ensures !old(running) ==> running == old(running) && seconds == old(seconds) && baseSec == old(baseSec)
                                && runStartMs == old(runStartMs) && endedAt == old(endedAt)
      ensures old(running) ==>
        && !running && runStartMs.None?
        && baseSec == old(baseSec) + RunSeconds(old(runStartMs).value, now)
        && seconds == baseSec && endedAt == Some(now)
      ensures baseSec == old(Elapsed(now))
      ensures showTimer == old(showTimer) && startedAt == old(startedAt) && baseAtLoad == old(baseAtLoad)
      ensures saving == old(saving) && labelText == old(labelText) && editingId == old(editingId)
    {
      if !running {
        return;
      }
      running := false;
      if runStartMs.Some? {
        var currentRunSec := RunSeconds(runStartMs.value, now);
        baseSec := baseSec + currentRunSec;
        runStartMs := None;
        seconds := baseSec;
      }
      endedAt := Some(now);
    }

    /** `resetTimer`: back to the hidden, empty timer; `saving` is left alone. */
    method ResetTimer()
      requires Valid()
      modifies this
      ensures Valid()
      ensures !running && !showTimer && seconds == 0 && baseSec == 0 && baseAtLoad == 0
      ensures runStartMs.None? && startedAt.None? && endedAt.None? && labelText == "" && editingId.None?
      ensures saving == old(saving)
    {
      running := false;
      baseSec := 0;
      runStartMs := None;
      startedAt := None;
      endedAt := None;
      baseAtLoad := 0;
      seconds := 0;
      showTimer := false;
      labelText := "";
      editingId := None;
    }

    /** The label input's `onChange`; the input is there only while the
        timer is shown. */
    method SetLabel(text: string)
      requires Valid() && showTimer
      modifies this`labelText
      ensures Valid() && labelText == text
    {
      labelText := text;
    }

    /** `saveTimer`: nothing while a save is in progress; a running timer
        is paused first; a base of zero seconds or less stores nothing.
        Otherwise the loaded session is updated with what changed (and not
        at all when nothing did), or a new session is added with the
        trimmed label, and the timer is reset. */
    method SaveTimer(now: int, store: SessionStore, isToday: string -> bool, iso: int -> string, newId: string)
      requires Valid()
      modifies this, store
      ensures Valid() && saving == old(saving)
      ensures old(saving) ==> unchanged(this, store)
      ensures !old(saving) && old(Elapsed(now)) <= 0 ==>
        && store.raw == old(store.raw) && !running && baseSec == old(Elapsed(now))
        && showTimer == old(showTimer) && editingId == old(editingId) && labelText == old(labelText)
        && startedAt == old(startedAt) && endedAt == (if old(running) then Some(now) else old(endedAt))
      ensures !old(saving) && old(Elapsed(now)) > 0 ==>
        var d := old(Elapsed(now));
        var times := SaveTimes(old(startedAt), if old(running) then Some(now) else old(endedAt), now, d);
        && !showTimer && !running && baseSec == 0 && editingId.None? && labelText == ""
        && (old(Editing()) ==>
              var u := EditUpdates(d, old(baseAtLoad), iso(times.1), old(labelText));
              store.raw == if HasChanges(u) then Canonicalize(isToday, UpdateMatching(old(store.raw), old(editingId).value, u))
                           else old(store.raw))
        && (!old(Editing()) ==>
              var s := NewSession(newId, times.0, times.1, iso(times.0), iso(times.1), Some(d), NewLabel(old(labelText)));
              store.raw == if HasId(old(store.raw), newId) then old(store.raw)
                           else Canonicalize(isToday, [s] + old(store.raw)))
    {
      if saving {
        return;
      }
      if running {
        Pause(now);
      }
      var durationSec := baseSec;
      if durationSec <= 0 {
        return;
      }
      saving := true;
      var times := SaveTimes(startedAt, endedAt, now, durationSec);
      if Editing() {
        var updates := EditUpdates(durationSec, baseAtLoad, iso(times.1), labelText);
        if HasChanges(updates) {
          store.UpdateSession(isToday, editingId.value, updates);
        }
        ResetTimer();
        saving := false;
        return;
      }
      store.AddTimerSession(isToday, newId, times.0, times.1, iso(times.0), iso(times.1), Some(durationSec), NewLabel(labelText));
      ResetTimer();
      saving := false;
    }

    /** `handleResumeFromSession`: load a stored session, stopped, with its
        duration as both base and baseline, its label and its instants. */
    method ResumeFromSession(s: Session, parse: string -> int)
      requires Valid()
      modifies this
      ensures Valid()
      ensures !running && runStartMs.None? && showTimer
      ensures baseSec == s.durationSec && baseAtLoad == s.durationSec && seconds == s.durationSec
      ensures labelText == (if s.labelText.Some? then s.labelText.value else "")
      ensures editingId == Some(s.id)
      ensures startedAt == Some(parse(s.startedAt)) && endedAt == Some(parse(s.endedAt))
      ensures saving == old(saving)
    {
      running := false;
      baseSec := s.durationSec;
      baseAtLoad := s.durationSec;
      seconds := s.durationSec;
      labelText := if s.labelText.Some? then s.labelText.value else "";
      showTimer := true;
      editingId := Some(s.id);
      startedAt := Some(parse(s.startedAt));
      endedAt := Some(parse(s.endedAt));
      runStartMs := None;
    }
  }

  /* ---------- properties ---------- */

  /** Each pause drops the run's fraction of a second: two runs split at
      `mid` count the same seconds as one run, or one second fewer. */
  lemma PauseTruncates(start: int, mid: int, end: int)
    ensures var split := RunSeconds(start, mid) + RunSeconds(mid, end);
      RunSeconds(start, end) - 1 <= split <= RunSeconds(start, end)
  {
    var a, b, c := RunSeconds(start, mid), RunSeconds(mid, end), RunSeconds(start, end);
    assert (a + b) * 1000 <= end - start < (a + b) * 1000 + 2000;
  }

  /** Saving a loaded session without adding time or typing a label sends
      no update. */
  lemma NothingToUpdate(durationSec: int, baseAtLoad: int, endedIso: string, labelText: string)
    requires durationSec <= baseAtLoad && Trim(labelText) == ""
    ensures !HasChanges(EditUpdates(durationSec, baseAtLoad, endedIso, labelText))
  {
  }
}
