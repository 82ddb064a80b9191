/**
 * The challenge wait on the gate page: the title predicate, and the
 * one-shot stage that starts the consent search once the title stops
 * saying "Just a", fed by a title observer, a 500 ms poll and a
 * 120000 ms timeout, all guarded by the `redirected` flag.
 */
module TitleStage {
  import opened Common
  import opened Text
  import opened Constants

  const TITLE_POLL_MS := 500
  const TITLE_TIMEOUT_MS := 120000

  /** `titleIndicatesWaiting(t)`: `/Just a/i.test(t || '')`. */
  predicate TitleIndicatesWaiting(t: Option<string>) {
    ContainsIgnoreCase(t.GetOr(""), WAITING_PATTERN)
  }

  /** The title is "waiting" exactly when it contains "just a" in any letter case; a missing title is not. */
  lemma TitleWaitingIff(t: Option<string>)
    ensures TitleIndicatesWaiting(t) <==> t.Some? && exists i :: MatchesAt(t.value, WAITING_PATTERN, i)
  {
    ContainsIgnoreCaseIff(t.GetOr(""), WAITING_PATTERN);
  }

  /** The challenge title is recognised in any case; an ordinary title and a missing one are not. */
  lemma TitleExamples()
    ensures TitleIndicatesWaiting(Some("Just a moment..."))
    ensures TitleIndicatesWaiting(Some("JUST A SEC"))
    ensures !TitleIndicatesWaiting(Some("Welcome"))
    ensures !TitleIndicatesWaiting(None)
  {
    var m := "Just a moment...";
    assert m[..6] == WAITING_PATTERN;
    assert MatchesAt(m, WAITING_PATTERN, 0);
    TitleWaitingIff(Some(m));
    var c := "JUST A SEC";
    var u := ToUpperAscii(c[..6]);
    var v := ToUpperAscii(WAITING_PATTERN);
    assert u[1] == v[1] && u[2] == v[2] && u[3] == v[3] && u[5] == v[5];
    assert u == v;
    assert MatchesAt(c, WAITING_PATTERN, 0);
    TitleWaitingIff(Some(c));
    var w := "Welcome";
    assert ToUpperAscii(w[..6])[0] == 'W' && ToUpperAscii(w[1..][..6])[0] == 'E';
    assert ToUpperAscii(WAITING_PATTERN)[0] == 'J';
  }

  /** One signal the stage can receive, at a time in milliseconds since the stage began. */
  datatype Event =
    | TitleMutated(at: int, title: Option<string>)  // the observer on <title> fired
    | PollTick(at: int, title: Option<string>)      // the 500 ms interval fired
    | TimeoutFired(at: int)                         // the 120000 ms timeout fired

  /** The stage's variables; `started` counts calls of clickAgreeIfPresentThenRedirect. */
  datatype WaitState = WaitState(
    redirected: bool,
    observing: bool,   // the <title> observer is registered
    polling: bool,     // the interval is registered
    timerArmed: bool,  // the timeout has not fired yet
    started: nat,
    startedAt: int
  )

  /** Lines 270-308: start at once when the title is not waiting; otherwise register the watchers. */
  function Begin(title0: Option<string>, hasTitleEl: bool): WaitState {
    if !TitleIndicatesWaiting(title0) then WaitState(false, false, false, false, 1, 0)
    else WaitState(false, hasTitleEl, true, true, 0, 0)
  }

  /** `tryMaybeRedirect` / `_tryOnce` */
  function TryOnce(s: WaitState, at: int, title: Option<string>): WaitState {
    if s.redirected then s
    else if !TitleIndicatesWaiting(title) then s.(redirected := true, started := s.started + 1, startedAt := at)
    else s
  }

  /** Delivery of one event; a watcher that is not registered delivers nothing. */
  function Step(s: WaitState, e: Event): WaitState {
    match e
    case TitleMutated(at, t) => if s.observing then TryOnce(s, at, t) else s
    case PollTick(at, t) => if s.polling then TryOnce(s, at, t) else s
    case TimeoutFired(at) =>
      if !s.timerArmed then s
      else if s.redirected then s.(timerArmed := false)
      else s.(timerArmed := false, redirected := true, polling := false,
              started := s.started + 1, startedAt := at)
  }

  /** The state after delivering `evs` in order. */
  function Run(s: WaitState, evs: seq<Event>): WaitState
    decreases |evs|
  {
    if evs == [] then s else Step(Run(s, evs[..|evs| - 1]), evs[|evs| - 1])
  }

  /** A timeline the host can produce: times never go back, the poll fires on multiples of 500 ms, the timeout at 120000 ms. */
  predicate WellTimed(evs: seq<Event>) {
    && (forall i, j :: 0 <= i < j < |evs| ==> evs[i].at <= evs[j].at)
    && (forall i :: 0 <= i < |evs| ==> 0 <= evs[i].at)
    && (forall i :: 0 <= i < |evs| && evs[i].PollTick? ==> evs[i].at > 0 && evs[i].at % TITLE_POLL_MS == 0)
    && (forall i :: 0 <= i < |evs| && evs[i].TimeoutFired? ==> evs[i].at == TITLE_TIMEOUT_MS)
  }

  /** Reachable states: the search has not started and the flag is clear; or it started once, and either the flag is set or no watcher was ever registered. */
  predicate Inv(s: WaitState) {
    && ((s.started == 0 && !s.redirected && s.timerArmed)
        || (s.started == 1 && s.redirected)
        || (s.started == 1 && !s.redirected && !s.observing && !s.polling && !s.timerArmed))
  }

  lemma BeginInv(title0: Option<string>, hasTitleEl: bool)
    ensures Inv(Begin(title0, hasTitleEl))
  {
  }

  lemma {:induction false} RunInv(s: WaitState, evs: seq<Event>)
    requires Inv(s)
    ensures Inv(Run(s, evs))
    decreases |evs|
  {
    if evs != [] {
      RunInv(s, evs[..|evs| - 1]);
    }
  }

  /** Whatever the signals, clickAgreeIfPresentThenRedirect is started at most once. */
  lemma AtMostOnce(title0: Option<string>, hasTitleEl: bool, evs: seq<Event>)
    ensures Run(Begin(title0, hasTitleEl), evs).started <= 1
  {
    RunInv(Begin(title0, hasTitleEl), evs);
  }

  lemma {:induction false} RunAppend(s: WaitState, a: seq<Event>, b: seq<Event>)
    ensures Run(s, a + b) == Run(Run(s, a), b)
    decreases |b|
  {
    if b == [] {
      assert a + b == a;
    } else {
      assert (a + b)[..|a + b| - 1] == a + b[..|b| - 1];
      RunAppend(s, a, b[..|b| - 1]);
    }
  }

  /** Once started, later signals change neither the count nor the start time. */
  lemma {:induction false} StartedIsFinal(s: WaitState, evs: seq<Event>)
    requires Inv(s) && s.started == 1
    ensures Run(s, evs).started == 1 && Run(s, evs).startedAt == s.startedAt
    decreases |evs|
  {
    if evs != [] {
      StartedIsFinal(s, evs[..|evs| - 1]);
      RunInv(s, evs[..|evs| - 1]);
    }
  }

  /** A title that is not waiting at the start: one call right away, no watchers, and nothing that follows has any effect. */
  lemma {:induction false} ReadyAtStart(title0: Option<string>, hasTitleEl: bool, evs: seq<Event>)
    requires !TitleIndicatesWaiting(title0)
    ensures Begin(title0, hasTitleEl).started == 1 && Begin(title0, hasTitleEl).startedAt == 0
    ensures var s := Begin(title0, hasTitleEl); !s.observing && !s.polling && !s.timerArmed
    ensures Run(Begin(title0, hasTitleEl), evs) == Begin(title0, hasTitleEl)
    decreases |evs|
  {
    if evs != [] {
      ReadyAtStart(title0, hasTitleEl, evs[..|evs| - 1]);
    }
  }

  /** The start time is that of the start or of some delivered event. */
  lemma {:induction false} StartBounded(s: WaitState, evs: seq<Event>, bound: int)
    requires s.started == 1 ==> s.startedAt <= bound
    requires forall i :: 0 <= i < |evs| ==> evs[i].at <= bound
    ensures Run(s, evs).started == 1 ==> Run(s, evs).startedAt <= bound
    decreases |evs|
  {
    if evs != [] {
      StartBounded(s, evs[..|evs| - 1], bound);
    }
  }

  /** Cutting a run at event `t`. */
  lemma SplitAt(s: WaitState, evs: seq<Event>, t: nat)
    requires t < |evs|
    ensures Run(s, evs) == Run(Step(Run(s, evs[..t]), evs[t]), evs[t + 1..])
  {
    var pre, post := evs[..t], evs[t + 1..];
    assert evs == (pre + [evs[t]]) + post;
    RunAppend(s, pre + [evs[t]], post);
    assert (pre + [evs[t]])[..|pre|] == pre;
  }

  /** The timeout leaves the search started; it starts it itself when nothing did before. */
  lemma TimeoutStep(s: WaitState, at: int)
    requires Inv(s)
    ensures Inv(Step(s, TimeoutFired(at))) && Step(s, TimeoutFired(at)).started == 1
    ensures s.started == 0 ==> Step(s, TimeoutFired(at)).startedAt == at
    ensures s.started == 1 ==> Step(s, TimeoutFired(at)).startedAt == s.startedAt
  {
  }

  /** When the timeout fires, the search has been started, and no later than 120000 ms. */
  lemma TimeoutBound(title0: Option<string>, hasTitleEl: bool, evs: seq<Event>, t: nat)
    requires WellTimed(evs)
    requires t < |evs| && evs[t].TimeoutFired?
    ensures Run(Begin(title0, hasTitleEl), evs).started == 1
    ensures Run(Begin(title0, hasTitleEl), evs).startedAt <= TITLE_TIMEOUT_MS
  {
    var s0 := Begin(title0, hasTitleEl);
    SplitAt(s0, evs, t);
    var sp := Run(s0, evs[..t]);
    RunInv(s0, evs[..t]);
    StartBounded(s0, evs[..t], TITLE_TIMEOUT_MS);
    TimeoutStep(sp, TITLE_TIMEOUT_MS);
    StartedIsFinal(Step(sp, evs[t]), evs[t + 1..]);
  }

  /** With the watchers registered, an event of either kind that sees no waiting title changes nothing. */
  lemma {:induction false} StillWaiting(s: WaitState, evs: seq<Event>)
    requires !s.redirected && s.started == 0 && s.timerArmed
    requires forall i :: 0 <= i < |evs| ==> !evs[i].TimeoutFired? && TitleIndicatesWaiting(evs[i].title)
    ensures Run(s, evs) == s
    decreases |evs|
  {
    if evs != [] {
      StillWaiting(s, evs[..|evs| - 1]);
    }
  }

  /** A challenge that never clears: the search starts exactly at the 120000 ms bound. */
  lemma NeverReadyStartsAtTimeout(title0: Option<string>, hasTitleEl: bool, evs: seq<Event>, t: nat)
    requires TitleIndicatesWaiting(title0)
    requires WellTimed(evs)
    requires t < |evs| && evs[t].TimeoutFired?
    requires forall i :: 0 <= i < t ==> !evs[i].TimeoutFired?
    requires forall i :: 0 <= i < |evs| && !evs[i].TimeoutFired? ==> TitleIndicatesWaiting(evs[i].title)
    ensures Run(Begin(title0, hasTitleEl), evs).started == 1
    ensures Run(Begin(title0, hasTitleEl), evs).startedAt == TITLE_TIMEOUT_MS
  {
    var s0 := Begin(title0, hasTitleEl);
    SplitAt(s0, evs, t);
    StillWaiting(s0, evs[..t]);
    TimeoutStep(s0, TITLE_TIMEOUT_MS);
    StartedIsFinal(Step(s0, evs[t]), evs[t + 1..]);
  }

  /** A challenge that clears: the first delivered signal that sees a title without "Just a" starts the search, at that signal's time. */
  lemma ClearedTitleStarts(title0: Option<string>, hasTitleEl: bool, evs: seq<Event>, t: nat)
    requires TitleIndicatesWaiting(title0)
    requires t < |evs| && !evs[t].TimeoutFired? && !TitleIndicatesWaiting(evs[t].title)
    requires evs[t].TitleMutated? ==> hasTitleEl
    requires forall i :: 0 <= i < t ==> !evs[i].TimeoutFired? && TitleIndicatesWaiting(evs[i].title)
    ensures Run(Begin(title0, hasTitleEl), evs).started == 1
    ensures Run(Begin(title0, hasTitleEl), evs).startedAt == evs[t].at
  {
    var s0 := Begin(title0, hasTitleEl);
    SplitAt(s0, evs, t);
    StillWaiting(s0, evs[..t]);
    StartedIsFinal(Step(s0, evs[t]), evs[t + 1..]);
  }

  /**
   * The stage as an object: the closure variables of the waiting branch.
   * `started` and `startedAt` record the calls of clickAgreeIfPresentThenRedirect.
   */
  class TitleWatcher {
    var redirected: bool
    var observing: bool
    var polling: bool
    var timerArmed: bool
    var started: nat
    var startedAt: int

    function Snapshot(): WaitState
      reads this
    {
      WaitState(redirected, observing, polling, timerArmed, started, startedAt)
    }

    constructor (title0: Option<string>, hasTitleEl: bool)
      ensures Snapshot() == Begin(title0, hasTitleEl)
    {
      redirected := false;
      startedAt := 0;
      if !TitleIndicatesWaiting(title0) {
        observing, polling, timerArmed := false, false, false;
        started := 1;
      } else {
        observing, polling, timerArmed := hasTitleEl, true, true;
        started := 0;
      }
    }

    method TryMaybeRedirect(at: int, title: Option<string>)
      modifies this
      ensures Snapshot() == TryOnce(old(Snapshot()), at, title)
    {
      if redirected {
        return;
      }
      if !TitleIndicatesWaiting(title) {
        redirected := true;
        started := started + 1;
        startedAt := at;
      }
    }

    method Deliver(e: Event)
      modifies this
      ensures Snapshot() == Step(old(Snapshot()), e)
    {
      match e
      case TitleMutated(at, t) =>
        if observing {
          TryMaybeRedirect(at, t);
        }
      case PollTick(at, t) =>
        if polling {
          TryMaybeRedirect(at, t);
        }
      case TimeoutFired(at) =>
        if timerArmed {
          timerArmed := false;
          if !redirected {
            redirected := true;
            polling := false;
            started := started + 1;
            startedAt := at;
          }
        }
    }

    /** Delivers the signals in order. */
    method Drive(evs: seq<Event>)
      modifies this
      ensures Snapshot() == Run(old(Snapshot()), evs)
    {
      var i := 0;
      while i < |evs|
        invariant 0 <= i <= |evs|
        invariant Snapshot() == Run(old(Snapshot()), evs[..i])
      {
        assert evs[..i + 1][..i] == evs[..i];
        Deliver(evs[i]);
        i := i + 1;
      }
      assert evs[..|evs|] == evs;
    }
  }
}
