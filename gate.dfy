/**
 * The gate page from start to finish: acquire the destination, wait for
 * the title to stop saying "Just a …", then search for the consent button
 * and redirect.
 */
module Gate {
  import opened Common
  import opened Constants
  import opened Url
  import opened Browser
  import opened Handoff
  import opened TitleStage
  import opened Locator
  import opened SearchStage

  /** The calls the search stage makes for a destination, when it starts. */
  function GateTail(acq: Acquired, wait: WaitState, doc0: Document, observerOk: bool, sched: seq<Slot>): seq<Action> {
    match acq
    case Nothing => []
    case Invalid(_) => [StoreDelete]
    case Proceed(u) => if wait.started > 0 then Realize(SearchRun(doc0, observerOk, sched).effects, u) else []
  }

  /**
   * Once the search starts, the browser is sent to the normalised
   * destination once or twice, and twice exactly when the mutation
   * observer won the race.
   */
  lemma DestinationAssignedOnceOrTwice(doc0: Document, observerOk: bool, sched: seq<Slot>, u: string)
    ensures var e := SearchRun(doc0, observerOk, sched).effects;
      var n := CountAssigns(Realize(e, u), u);
      && 1 <= n <= 2
      && (n == 2 <==> Final(Observer) in e)
  {
    FinalCalls(doc0, observerOk, sched);
    AssignsMatchFinals(SearchRun(doc0, observerOk, sched).effects, u);
  }

  /** The search stage run for destination `u`: its calls go to the host, and a working delete clears the slot. */
  method SearchPhase(host: Host, u: string, doc0: Document, observerOk: bool, sched: seq<Slot>)
    modifies host
    ensures host.log == old(host.log) + Realize(SearchRun(doc0, observerOk, sched).effects, u)
    ensures host.slot == (if host.deleteWorks then None else old(host.slot))
  {
    var runner := new SearchRunner(host, u);
    runner.Run(doc0, observerOk, sched);
    FinalCalls(doc0, observerOk, sched);
  }

  /**
   * The gate branch. `evs` are the title signals delivered before the page
   * is left; `doc0`, `observerOk` and `sched` describe the page the search
   * stage sees once it starts.
   */
  method RunGate(host: Host, cfg: Config, lib: UrlLib, search: string, href: string,
                 title0: Option<string>, hasTitleEl: bool, evs: seq<Event>,
                 doc0: Document, observerOk: bool, sched: seq<Slot>)
    returns (acq: Acquired, wait: WaitState)
    modifies host
    ensures acq == Acquire(old(host.Peek()), lib, cfg, search, href)
    ensures acq.Proceed? ==> wait == Run(Begin(title0, hasTitleEl), evs)
    ensures host.log == old(host.log) + [StoreGet] + GateTail(acq, wait, doc0, observerOk, sched)
    ensures host.slot ==
      (if host.deleteWorks && (acq.Invalid? || (acq.Proceed? && wait.started > 0)) then None else old(host.slot))
  {
    acq := AcquireDestination(host, lib, cfg, search, href);
    wait := Begin(title0, hasTitleEl);
    if !acq.Proceed? {
      return;
    }
    var watcher := new TitleWatcher(title0, hasTitleEl);
    watcher.Drive(evs);
    wait := watcher.Snapshot();
    if wait.started == 0 {
      return;
    }
    SearchPhase(host, acq.url, doc0, observerOk, sched);
  }
}
