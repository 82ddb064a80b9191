/**
 * `clickAgreeIfPresentThenRedirect` / `_clickThen`: look for the consent
 * button at once; otherwise race a mutation observer against a poll loop
 * that sleeps 250 ms per round for at most 5000 ms, then go to the final
 * redirect with or without a click.
 *
 * Time is idealised: each sleep lasts exactly 250 ms and everything else
 * takes none, so the loop guard `Date.now() - start < 5000` holds before
 * the first 20 rounds and fails after them.
 */
module SearchStage {
  import opened Common
  import opened Browser
  import opened Locator
  import opened Redirect

  const SEARCH_TIMEOUT_MS := 5000
  const SEARCH_POLL_MS := 250
  const MAX_POLLS := 20

  /**
   * What happens during one 250 ms sleep of the poll loop: the documents
   * the observer callbacks see, in order, and the document when the poll
   * wakes. The observer watches child lists only, so a change of text or
   * attributes reaches the poll without a callback.
   */
  datatype Slot = Slot(observed: seq<Document>, atWake: Document)

  /** The call site of a finalRedirect: line 216, 236, 252 or 259 of workink.user.js. */
  datatype Caller = Immediate | Observer | PollHit | AfterLoop

  datatype Effect = Activate(button: nat) | Final(caller: Caller)

  /** The stage's variables; `effects` records its clicks and finalRedirect calls. */
  datatype SearchState = SearchState(resolved: bool, observing: bool, polls: nat, effects: seq<Effect>)

  /** The slot of round `k`; after the schedule ends the page is quiet. */
  function SlotAt(sched: seq<Slot>, k: nat, current: Document): Slot {
    if k < |sched| then sched[k] else Slot([], current)
  }

  /** The mutation observer callback. A disconnected observer delivers nothing. */
  function OnMutation(s: SearchState, doc: Document): SearchState {
    if !s.observing || s.resolved then s
    else match FindAgree(doc)
      case None => s
      case Some(b) => s.(resolved := true, observing := false,
                         effects := s.effects + [Activate(b), Final(Observer)])
  }

  /** The callbacks of one sleep, in order. */
  function Observe(s: SearchState, docs: seq<Document>): SearchState
    decreases |docs|
  {
    if docs == [] then s else OnMutation(Observe(s, docs[..|docs| - 1]), docs[|docs| - 1])
  }

  /** The poll loop from round `s.polls` on, `doc` being the document the last poll saw. */
  function Loop(s: SearchState, doc: Document, sched: seq<Slot>): SearchState
    decreases SEARCH_TIMEOUT_MS - s.polls * SEARCH_POLL_MS
  {
    if s.resolved || s.polls * SEARCH_POLL_MS >= SEARCH_TIMEOUT_MS then
      s.(resolved := true, observing := false, effects := s.effects + [Final(AfterLoop)])
    else
      var slot := SlotAt(sched, s.polls, doc);
      var woken := Observe(s, slot.observed).(polls := s.polls + 1);
      match FindAgree(slot.atWake)
      case Some(b) => woken.(resolved := true, observing := false,
                             effects := woken.effects + [Activate(b), Final(PollHit)])
      case None => Loop(woken, slot.atWake, sched)
  }

  /** The whole stage: an immediate hit, or the observer and the poll loop. */
  function SearchRun(doc0: Document, observerOk: bool, sched: seq<Slot>): SearchState {
    match FindAgree(doc0)
    case Some(b) => SearchState(false, false, 0, [Activate(b), Final(Immediate)])
    case None => Loop(SearchState(false, observerOk, 0, []), doc0, sched)
  }

  /** The host calls the effects stand for. */
  function Realize(effects: seq<Effect>, dest: string): seq<Action>
    decreases |effects|
  {
    if effects == [] then []
    else
      Realize(effects[..|effects| - 1], dest) +
      match effects[|effects| - 1]
      case Activate(b) => [Click(b)]
      case Final(_) => FinalActions(dest)
  }

  lemma {:induction false} RealizeAppend(a: seq<Effect>, b: seq<Effect>, dest: string)
    ensures Realize(a + b, dest) == Realize(a, dest) + Realize(b, dest)
    decreases |b|
  {
    if b == [] {
      assert a + b == a;
    } else {
      assert (a + b)[..|a + b| - 1] == a + b[..|b| - 1];
      RealizeAppend(a, b[..|b| - 1], dest);
    }
  }

  /** Number of finalRedirect calls among the effects. */
  function CountFinals(e: seq<Effect>): nat
    decreases |e|
  {
    if e == [] then 0 else CountFinals(e[..|e| - 1]) + (if e[|e| - 1].Final? then 1 else 0)
  }

  /** Number of navigations to `dest` in a log. */
  function CountAssigns(log: seq<Action>, dest: string): nat
    decreases |log|
  {
    if log == [] then 0 else CountAssigns(log[..|log| - 1], dest) + (if log[|log| - 1] == Assign(dest) then 1 else 0)
  }

  lemma {:induction false} CountAssignsAppend(a: seq<Action>, b: seq<Action>, dest: string)
    ensures CountAssigns(a + b, dest) == CountAssigns(a, dest) + CountAssigns(b, dest)
    decreases |b|
  {
    if b == [] {
      assert a + b == a;
    } else {
      assert (a + b)[..|a + b| - 1] == a + b[..|b| - 1];
      CountAssignsAppend(a, b[..|b| - 1], dest);
    }
  }

  /** Each finalRedirect call navigates to the destination once; nothing else does. */
  lemma {:induction false} AssignsMatchFinals(e: seq<Effect>, dest: string)
    ensures CountAssigns(Realize(e, dest), dest) == CountFinals(e)
    decreases |e|
  {
    if e != [] {
      AssignsMatchFinals(e[..|e| - 1], dest);
      var tail := match e[|e| - 1] case Activate(b) => [Click(b)] case Final(_) => FinalActions(dest);
      CountAssignsAppend(Realize(e[..|e| - 1], dest), tail, dest);
      if e[|e| - 1].Final? {
        FinalActionsAssignOnce(dest);
      } else {
        assert tail[..0] == [];
      }
    }
  }

  lemma CountAssignsPrefix(log: seq<Action>, k: nat, dest: string)
    requires 0 < k <= |log|
    ensures CountAssigns(log[..k], dest) == CountAssigns(log[..k - 1], dest) + (if log[k - 1] == Assign(dest) then 1 else 0)
  {
    assert log[..k][..k - 1] == log[..k - 1];
  }

  lemma FinalActionsAssignOnce(dest: string)
    ensures CountAssigns(FinalActions(dest), dest) == 1
  {
    var t := FinalActions(dest);
    assert t[..0] == [];
    CountAssignsPrefix(t, 1, dest);
    CountAssignsPrefix(t, 2, dest);
    CountAssignsPrefix(t, 3, dest);
    assert t[..3] == t;
  }

  /** The effect sequences the stage can end with, one per path through the code. */
  predicate IsOutcome(e: seq<Effect>) {
    || (|e| == 2 && e[0].Activate? && e[1] == Final(Immediate))                   // found at once
    || e == [Final(AfterLoop)]                                                    // gave up after 5000 ms
    || (|e| == 2 && e[0].Activate? && e[1] == Final(PollHit))                     // the poll found it
    || (|e| == 3 && e[0].Activate? && e[1] == Final(Observer) && e[2] == Final(AfterLoop))
    || (|e| == 4 && e[0].Activate? && e[1] == Final(Observer)
        && e[2].Activate? && e[3] == Final(PollHit))
  }

  /** Nothing has happened yet and the loop is still running. */
  predicate Pending(s: SearchState) {
    !s.resolved && s.effects == []
  }

  /** The observer found the button, clicked it and called finalRedirect. */
  predicate ObserverWon(s: SearchState) {
    s.resolved && !s.observing && |s.effects| == 2 && s.effects[0].Activate? && s.effects[1] == Final(Observer)
  }

  lemma {:induction false} ObserveShape(s: SearchState, docs: seq<Document>)
    requires Pending(s) || ObserverWon(s)
    ensures Pending(Observe(s, docs)) || ObserverWon(Observe(s, docs))
    ensures ObserverWon(s) ==> Observe(s, docs) == s
    ensures !s.observing ==> Observe(s, docs) == s
    decreases |docs|
  {
    if docs != [] {
      ObserveShape(s, docs[..|docs| - 1]);
    }
  }

  lemma {:induction false} LoopShape(s: SearchState, doc: Document, sched: seq<Slot>)
    requires Pending(s) || ObserverWon(s)
    ensures IsOutcome(Loop(s, doc, sched).effects)
    decreases SEARCH_TIMEOUT_MS - s.polls * SEARCH_POLL_MS
  {
    if !(s.resolved || s.polls * SEARCH_POLL_MS >= SEARCH_TIMEOUT_MS) {
      var slot := SlotAt(sched, s.polls, doc);
      ObserveShape(s, slot.observed);
      var woken := Observe(s, slot.observed).(polls := s.polls + 1);
      if FindAgree(slot.atWake).None? {
        LoopShape(woken, slot.atWake, sched);
      }
    }
  }

  /** Every run of the stage ends in one of the five outcomes. */
  lemma Outcomes(doc0: Document, observerOk: bool, sched: seq<Slot>)
    ensures IsOutcome(SearchRun(doc0, observerOk, sched).effects)
  {
    if FindAgree(doc0).None? {
      LoopShape(SearchState(false, observerOk, 0, []), doc0, sched);
    }
  }

  /** An immediate hit: one click, one finalRedirect, no observer and no poll. */
  lemma ImmediateHit(doc0: Document, observerOk: bool, sched: seq<Slot>, b: nat)
    requires FindAgree(doc0) == Some(b)
    ensures SearchRun(doc0, observerOk, sched).effects == [Activate(b), Final(Immediate)]
    ensures !SearchRun(doc0, observerOk, sched).observing && SearchRun(doc0, observerOk, sched).polls == 0
  {
  }

  /** No document of the search window shows the button. */
  predicate Quiet(slot: Slot) {
    FindAgree(slot.atWake).None? && forall i :: 0 <= i < |slot.observed| ==> FindAgree(slot.observed[i]).None?
  }

  lemma {:induction false} QuietObserve(s: SearchState, docs: seq<Document>)
    requires forall i :: 0 <= i < |docs| ==> FindAgree(docs[i]).None?
    ensures Observe(s, docs) == s
    decreases |docs|
  {
    if docs != [] {
      QuietObserve(s, docs[..|docs| - 1]);
    }
  }

  lemma QuietRound(s: SearchState, doc: Document, sched: seq<Slot>)
    requires !s.resolved && s.polls < MAX_POLLS
    requires Quiet(SlotAt(sched, s.polls, doc))
    ensures Loop(s, doc, sched) == Loop(s.(polls := s.polls + 1), SlotAt(sched, s.polls, doc).atWake, sched)
  {
    QuietObserve(s, SlotAt(sched, s.polls, doc).observed);
    LoopStep(s, doc, sched);
  }

  lemma {:induction false} QuietLoop(s: SearchState, doc: Document, sched: seq<Slot>)
    requires Pending(s) && s.polls <= MAX_POLLS
    requires FindAgree(doc).None?
    requires forall k :: s.polls <= k < |sched| && k < MAX_POLLS ==> Quiet(sched[k])
    ensures Loop(s, doc, sched).effects == [Final(AfterLoop)]
    ensures Loop(s, doc, sched).polls == MAX_POLLS
    decreases SEARCH_TIMEOUT_MS - s.polls * SEARCH_POLL_MS
  {
    if s.polls < MAX_POLLS {
      var slot := SlotAt(sched, s.polls, doc);
      assert Quiet(slot) by {
        if s.polls < |sched| {
          assert Quiet(sched[s.polls]);
        }
      }
      QuietRound(s, doc, sched);
      QuietLoop(s.(polls := s.polls + 1), slot.atWake, sched);
    }
  }

  /** Nothing appears within 5000 ms: twenty polls, then finalRedirect without a click. */
  lemma NoHitTimesOut(doc0: Document, observerOk: bool, sched: seq<Slot>)
    requires FindAgree(doc0).None?
    requires forall k :: 0 <= k < |sched| && k < MAX_POLLS ==> Quiet(sched[k])
    ensures SearchRun(doc0, observerOk, sched).effects == [Final(AfterLoop)]
    ensures SearchRun(doc0, observerOk, sched).polls * SEARCH_POLL_MS == SEARCH_TIMEOUT_MS
  {
    QuietLoop(SearchState(false, observerOk, 0, []), doc0, sched);
  }

  /**
   * The observer wins during a sleep. The poll loop resumes without looking
   * at `resolved`: it clicks again and calls finalRedirect again when the
   * button is still there, and otherwise leaves the loop and calls
   * finalRedirect after it.
   */
  lemma ObserverWinResumesPoll(s: SearchState, doc: Document, sched: seq<Slot>)
    requires Pending(s) && s.polls < MAX_POLLS
    requires ObserverWon(Observe(s, SlotAt(sched, s.polls, doc).observed))
    ensures var slot := SlotAt(sched, s.polls, doc);
      Loop(s, doc, sched).effects == Observe(s, slot.observed).effects +
        match FindAgree(slot.atWake)
        case Some(b) => [Activate(b), Final(PollHit)]
        case None => [Final(AfterLoop)]
  {
    var slot := SlotAt(sched, s.polls, doc);
    ObserveShape(s, slot.observed);
  }

  lemma CountFinalsPrefix(e: seq<Effect>, k: nat)
    requires 0 < k <= |e|
    ensures CountFinals(e[..k]) == CountFinals(e[..k - 1]) + (if e[k - 1].Final? then 1 else 0)
  {
    assert e[..k][..k - 1] == e[..k - 1];
  }

  lemma FinalsOfOutcome(e: seq<Effect>)
    requires IsOutcome(e)
    ensures 1 <= CountFinals(e) <= 2
    ensures CountFinals(e) == 2 <==> Final(Observer) in e
    ensures Final(Observer) in e ==> e[|e| - 1] in {Final(PollHit), Final(AfterLoop)}
  {
    assert e[..0] == [];
    CountFinalsPrefix(e, 1);
    if |e| >= 2 {
      CountFinalsPrefix(e, 2);
    }
    if |e| >= 3 {
      CountFinalsPrefix(e, 3);
    }
    if |e| == 4 {
      CountFinalsPrefix(e, 4);
    }
    assert e[..|e|] == e;
  }

  /** finalRedirect runs once or twice; twice exactly when the observer won, and then the second call comes from the resumed poll. */
  lemma FinalCalls(doc0: Document, observerOk: bool, sched: seq<Slot>)
    ensures var e := SearchRun(doc0, observerOk, sched).effects;
      && 1 <= CountFinals(e) <= 2
      && (CountFinals(e) == 2 <==> Final(Observer) in e)
      && (Final(Observer) in e ==> e[|e| - 1] in {Final(PollHit), Final(AfterLoop)})
  {
    Outcomes(doc0, observerOk, sched);
    FinalsOfOutcome(SearchRun(doc0, observerOk, sched).effects);
  }

  lemma {:induction false} LoopWithoutObserver(s: SearchState, doc: Document, sched: seq<Slot>)
    requires Pending(s) && !s.observing
    ensures Final(Observer) !in Loop(s, doc, sched).effects
    decreases SEARCH_TIMEOUT_MS - s.polls * SEARCH_POLL_MS
  {
    if !(s.resolved || s.polls * SEARCH_POLL_MS >= SEARCH_TIMEOUT_MS) {
      var slot := SlotAt(sched, s.polls, doc);
      ObserveShape(s, slot.observed);
      if FindAgree(slot.atWake).None? {
        LoopWithoutObserver(Observe(s, slot.observed).(polls := s.polls + 1), slot.atWake, sched);
      }
    }
  }

  /** When the observer cannot be created, finalRedirect runs exactly once. */
  lemma NoObserverSingleFinal(doc0: Document, sched: seq<Slot>)
    ensures CountFinals(SearchRun(doc0, false, sched).effects) == 1
  {
    FinalCalls(doc0, false, sched);
    if FindAgree(doc0).None? {
      LoopWithoutObserver(SearchState(false, false, 0, []), doc0, sched);
    }
  }

  /** Observer callbacks never touch the round counter. */
  lemma {:induction false} ObserveKeepsPolls(s: SearchState, docs: seq<Document>)
    ensures Observe(s, docs).polls == s.polls
    decreases |docs|
  {
    if docs != [] {
      ObserveKeepsPolls(s, docs[..|docs| - 1]);
    }
  }

  /** One round of the poll loop, while its guard holds. */
  lemma LoopStep(s: SearchState, doc: Document, sched: seq<Slot>)
    requires !s.resolved && s.polls * SEARCH_POLL_MS < SEARCH_TIMEOUT_MS
    ensures var slot := SlotAt(sched, s.polls, doc);
      var woken := Observe(s, slot.observed).(polls := s.polls + 1);
      Loop(s, doc, sched) ==
        match FindAgree(slot.atWake)
        case Some(b) => woken.(resolved := true, observing := false,
                               effects := woken.effects + [Activate(b), Final(PollHit)])
        case None => Loop(woken, slot.atWake, sched)
  {
  }

  /**
   * The stage as an object: the closure variables `resolved` and `mo`
   * (`observing` says whether `mo` is connected), its round counter, and
   * the effects it has had. Clicks and finalRedirect calls go to `host`.
   */
  class SearchRunner {
    const host: Host
    const dest: string
    var resolved: bool
    var observing: bool
    var polls: nat
    var effects: seq<Effect>
    ghost const baseLog: seq<Action>
    ghost const baseSlot: Option<string>

    function Snapshot(): SearchState
      reads this
    {
      SearchState(resolved, observing, polls, effects)
    }

    /** The host has seen exactly the calls that the effects stand for. */
    ghost predicate Valid()
      reads this, host
    {
      && host.log == baseLog + Realize(effects, dest)
      && host.slot == (if host.deleteWorks && CountFinals(effects) > 0 then None else baseSlot)
    }

    constructor (host: Host, dest: string)
      ensures this.host == host && this.dest == dest
      ensures Snapshot() == SearchState(false, false, 0, [])
      ensures baseLog == host.log && baseSlot == host.slot && Valid()
    {
      this.host := host;
      this.dest := dest;
      resolved, observing, polls, effects := false, false, 0, [];
      baseLog := host.log;
      baseSlot := host.slot;
    }

    /** `stop()`: disconnect the observer and set `resolved`. */
    method Stop()
      modifies this
      ensures Snapshot() == old(Snapshot()).(resolved := true, observing := false)
    {
      observing := false;
      resolved := true;
    }

    /** `performClick(b)` then `finalRedirect()`, recorded under the calling line. */
    method ClickThenRedirect(b: nat, caller: Caller)
      requires Valid()
      modifies this, host
      ensures Valid()
      ensures Snapshot() == old(Snapshot()).(effects := old(effects) + [Activate(b), Final(caller)])
    {
      host.Perform(Click(b));
      effects := effects + [Activate(b)];
      FinalRedirect(host, dest);
      RealizeAppend(old(effects), [Activate(b)], dest);
      RealizeAppend(old(effects) + [Activate(b)], [Final(caller)], dest);
      effects := effects + [Final(caller)];
      assert effects[..|effects| - 1] == old(effects) + [Activate(b)];
      assert CountFinals(effects) > 0;
    }

    /** finalRedirect without a click (line 259). */
    method RedirectAfterLoop()
      requires Valid()
      modifies this, host
      ensures Valid()
      ensures Snapshot() == old(Snapshot()).(effects := old(effects) + [Final(AfterLoop)])
    {
      FinalRedirect(host, dest);
      RealizeAppend(effects, [Final(AfterLoop)], dest);
      effects := effects + [Final(AfterLoop)];
      assert effects[..|effects| - 1] == old(effects);
    }

    /** The observer callback (lines 230-237). */
    method OnMutationCallback(doc: Document)
      requires Valid()
      modifies this, host
      ensures Valid()
      ensures Snapshot() == OnMutation(old(Snapshot()), doc)
    {
      if !observing || resolved {
        return;
      }
      var f := FindAgree(doc);
      if f.Some? {
        Stop();
        ClickThenRedirect(f.value, Observer);
      }
    }

    /** One 250 ms sleep: the observer callbacks it delivers, in order. */
    method Sleep(observed: seq<Document>)
      requires Valid()
      modifies this, host
      ensures Valid()
      ensures Snapshot() == Observe(old(Snapshot()), observed)
    {
      var i := 0;
      while i < |observed|
        invariant 0 <= i <= |observed|
        invariant Valid()
        invariant Snapshot() == Observe(old(Snapshot()), observed[..i])
      {
        assert observed[..i + 1][..i] == observed[..i];
        OnMutationCallback(observed[i]);
        i := i + 1;
      }
      assert observed[..|observed|] == observed;
    }

    /** The whole stage, from a fresh runner. */
    method Run(doc0: Document, observerOk: bool, sched: seq<Slot>)
      requires Valid() && Snapshot() == SearchState(false, false, 0, [])
      modifies this, host
      ensures Valid()
      ensures Snapshot() == SearchRun(doc0, observerOk, sched)
    {
      var found := FindAgree(doc0);
      if found.Some? {
        ClickThenRedirect(found.value, Immediate);
        return;
      }
      observing := observerOk;
      var doc := doc0;
      ghost var target := SearchRun(doc0, observerOk, sched);
      while !resolved && polls * SEARCH_POLL_MS < SEARCH_TIMEOUT_MS
        invariant Valid()
        invariant Loop(Snapshot(), doc, sched) == target
        decreases SEARCH_TIMEOUT_MS - polls * SEARCH_POLL_MS
      {
        var slot := SlotAt(sched, polls, doc);
        ghost var before := Snapshot();
        LoopStep(before, doc, sched);
        ObserveKeepsPolls(before, slot.observed);
        Sleep(slot.observed);
        polls := polls + 1;
        ghost var woken := Snapshot();
        assert woken == Observe(before, slot.observed).(polls := before.polls + 1);
        doc := slot.atWake;
        var f := FindAgree(doc);
        if f.Some? {
          Stop();
          ClickThenRedirect(f.value, PollHit);
          assert Snapshot() == woken.(resolved := true, observing := false,
                                      effects := woken.effects + [Activate(f.value), Final(PollHit)]);
          return;
        }
      }
      Stop();
      RedirectAfterLoop();
    }
  }
}
