/**
 * The two sides of the hand-off. On the origin's `/refresh` page the
 * destination from `?url=` is written to the store and the browser is sent
 * to the gate; when the write fails the destination travels in the gate
 * URL's `__dest` parameter instead. On the gate the destination is read
 * back (store first, `__dest` only when the store gives nothing usable)
 * and resolved against the page URL.
 */
module Handoff {
  import opened Common
  import opened Constants
  import opened Url
  import opened Browser
  import Backends

  /** Which branch of the script a page load takes. */
  datatype Role = Origin | Gate | Elsewhere

  function RoleFor(cfg: Config, hostname: string, pathname: string): Role {
    if hostname == cfg.originHost && StartsWith(pathname, cfg.refreshPrefix) then Origin
    else if hostname == cfg.gateHost then Gate
    else Elsewhere
  }

  /** Only `/refresh…` pages of the origin host act as origin; only the gate host acts as gate. */
  lemma RoleDispatch(cfg: Config, hostname: string, pathname: string)
    requires cfg == USER_SCRIPT || cfg == LoaderConfig()
    ensures RoleFor(cfg, hostname, pathname) == Origin <==>
      hostname == cfg.originHost && |pathname| >= 8 && pathname[..8] == "/refresh"
    ensures RoleFor(cfg, hostname, pathname) == Gate <==> hostname == "work.ink"
  {
    VariantsDifferOnlyInOriginHost();
  }

  /** The origin's navigation. */
  datatype OriginStep = Idle | ReplaceTo(url: string) | AssignTo(url: string)

  /** The destination the origin hands on: the `url` parameter, when truthy. */
  function OriginDest(cfg: Config, lib: UrlLib, search: string): Option<string> {
    var d := ExtractParam(lib, search, cfg.urlParam);
    if Truthy(d) then d else None
  }

  function OriginDecision(cfg: Config, lib: UrlLib, search: string, setWorks: bool): OriginStep {
    match OriginDest(cfg, lib, search)
    case None => Idle
    case Some(d) => if setWorks then ReplaceTo(cfg.gateRoot) else AssignTo(cfg.fallbackPrefix + lib.encode(d))
  }

  /** The calls the origin makes: nothing at all, or one write followed by one navigation. */
  function OriginLog(cfg: Config, lib: UrlLib, search: string, setWorks: bool): seq<Action> {
    match OriginDecision(cfg, lib, search, setWorks)
    case Idle => []
    case ReplaceTo(u) => [StoreSet(OriginDest(cfg, lib, search).value), Replace(u)]
    case AssignTo(u) => [StoreSet(OriginDest(cfg, lib, search).value), Assign(u)]
  }

  /**
   * The origin stays put exactly when there is no truthy `url` parameter;
   * otherwise it writes that value, then goes to the gate root with
   * `replace` when the write succeeded and to the fallback URL with an
   * assignment when it failed.
   */
  lemma OriginBehaviour(cfg: Config, lib: UrlLib, search: string, setWorks: bool)
    ensures OriginDecision(cfg, lib, search, setWorks) == Idle <==>
      !Truthy(ExtractParam(lib, search, cfg.urlParam))
    ensures OriginDecision(cfg, lib, search, setWorks).Idle? ==> OriginLog(cfg, lib, search, setWorks) == []
    ensures Truthy(ExtractParam(lib, search, cfg.urlParam)) ==>
      var d := ExtractParam(lib, search, cfg.urlParam).value;
      && |OriginLog(cfg, lib, search, setWorks)| == 2
      && OriginLog(cfg, lib, search, setWorks)[0] == StoreSet(d)
      && OriginLog(cfg, lib, search, setWorks)[1] ==
           (if setWorks then Replace(cfg.gateRoot) else Assign(cfg.fallbackPrefix + lib.encode(d)))
  {
  }

  /** The origin branch against a host. */
  method RunOrigin(host: Host, cfg: Config, lib: UrlLib, search: string) returns (step: OriginStep)
    modifies host
    ensures step == OriginDecision(cfg, lib, search, host.setWorks)
    ensures host.log == old(host.log) + OriginLog(cfg, lib, search, host.setWorks)
    ensures host.slot == (if step.ReplaceTo? then OriginDest(cfg, lib, search) else old(host.slot))
  {
    var dest := ExtractParam(lib, search, cfg.urlParam);
    if !Truthy(dest) {
      return Idle;
    }
    var ok := host.Set(dest.value);
    if !ok {
      var url := cfg.fallbackPrefix + lib.encode(dest.value);
      host.Perform(Assign(url));
      return AssignTo(url);
    }
    host.Perform(Replace(cfg.gateRoot));
    return ReplaceTo(cfg.gateRoot);
  }

  /** What the gate makes of the destination. */
  datatype Acquired = Nothing | Invalid(raw: string) | Proceed(url: string)

  /** The value `gmGet(key, null)` leaves in `dest`: a rejected read counts as `null`. */
  function StoredValue(read: ReadResult): Option<string> {
    if read.Read? then read.value else None
  }

  /** The store value when truthy, else a truthy `__dest` parameter, else nothing. */
  function Candidate(read: ReadResult, lib: UrlLib, cfg: Config, search: string): Option<string> {
    var stored := StoredValue(read);
    if Truthy(stored) then stored
    else
      var m := lib.query(search, cfg.destParam);
      if Truthy(m) then m else None
  }

  function Acquire(read: ReadResult, lib: UrlLib, cfg: Config, search: string, href: string): Acquired {
    match Candidate(read, lib, cfg, search)
    case None => Nothing
    case Some(d) =>
      match lib.resolve(d, href)
      case None => Invalid(d)
      case Some(u) => Proceed(u)
  }

  /** A truthy store value wins: the query string is not looked at. */
  lemma StoredWins(read: ReadResult, lib: UrlLib, lib2: UrlLib, cfg: Config, search: string, search2: string, href: string)
    requires Truthy(StoredValue(read))
    requires lib2.resolve == lib.resolve
    ensures Acquire(read, lib, cfg, search, href) == Acquire(read, lib2, cfg, search2, href)
    ensures Candidate(read, lib, cfg, search) == StoredValue(read)
  {
  }

  /** A failed read, an absent value and an empty value are all treated alike: `__dest` decides. */
  lemma FalsyStoreFallsBack(read: ReadResult, lib: UrlLib, cfg: Config, search: string, href: string)
    requires !Truthy(StoredValue(read))
    ensures Acquire(read, lib, cfg, search, href) == Acquire(ReadFailed, lib, cfg, search, href)
    ensures Candidate(read, lib, cfg, search) == (if Truthy(lib.query(search, cfg.destParam)) then lib.query(search, cfg.destParam) else None)
  {
  }

  /** The gate does nothing exactly when neither source gives a truthy value. */
  lemma NothingIffBothFalsy(read: ReadResult, lib: UrlLib, cfg: Config, search: string, href: string)
    ensures Acquire(read, lib, cfg, search, href) == Nothing <==>
      !Truthy(StoredValue(read)) && !Truthy(lib.query(search, cfg.destParam))
  {
  }

  /** A candidate the URL constructor rejects is reported with its raw text; one it accepts is replaced by its normal form. */
  lemma ResolveDecides(read: ReadResult, lib: UrlLib, cfg: Config, search: string, href: string)
    ensures Acquire(read, lib, cfg, search, href).Invalid? <==>
      Candidate(read, lib, cfg, search).Some? && lib.resolve(Candidate(read, lib, cfg, search).value, href).None?
    ensures Acquire(read, lib, cfg, search, href).Proceed? ==>
      Some(Acquire(read, lib, cfg, search, href).url) == lib.resolve(Candidate(read, lib, cfg, search).value, href)
    ensures Candidate(read, lib, cfg, search).Some? ==> Truthy(Candidate(read, lib, cfg, search))
  {
  }

  /** The gate's first step against a host: read, and on an invalid destination delete (a failure is ignored). */
  method AcquireDestination(host: Host, lib: UrlLib, cfg: Config, search: string, href: string) returns (r: Acquired)
    modifies host
    ensures r == Acquire(old(host.Peek()), lib, cfg, search, href)
    ensures host.log == old(host.log) + [StoreGet] + (if r.Invalid? then [StoreDelete] else [])
    ensures host.slot == (if r.Invalid? && host.deleteWorks then None else old(host.slot))
  {
    var read := host.Get();
    var dest := StoredValue(read);
    if !Truthy(dest) {
      var maybe := lib.query(search, cfg.destParam);
      if Truthy(maybe) {
        dest := maybe;
      }
    }
    if !Truthy(dest) {
      return Nothing;
    }
    var parsed := lib.resolve(dest.value, href);
    if parsed.None? {
      var ignored := host.Delete();
      return Invalid(dest.value);
    }
    return Proceed(parsed.value);
  }

  /** The query string of the fallback URL. */
  function FallbackSearch(cfg: Config, lib: UrlLib, d: string): string {
    "?" + cfg.destParam + "=" + lib.encode(d)
  }

  /**
   * An origin run followed by a gate run recovers the destination, through
   * the store when the write succeeded and through `__dest` when it failed,
   * provided the gate reads the same store, a failed write leaves no other
   * truthy value readable, and the URL library decodes what it encoded.
   */
  lemma HandoffDeliversDestination(cfg: Config, lib: UrlLib, search: string, setWorks: bool,
                                   getWorks: bool, slot0: Option<string>, href: string)
    requires cfg == USER_SCRIPT || cfg == LoaderConfig()
    requires OriginDest(cfg, lib, search).Some?
    requires setWorks ==> getWorks
    requires !setWorks ==> !(getWorks && Truthy(slot0))
    requires var d := OriginDest(cfg, lib, search).value;
      lib.query(FallbackSearch(cfg, lib, d), cfg.destParam) == Some(d)
    ensures var d := OriginDest(cfg, lib, search).value;
      var step := OriginDecision(cfg, lib, search, setWorks);
      var slot1 := if setWorks then Some(d) else slot0;
      var read := if getWorks then Read(slot1) else ReadFailed;
      var gateSearch := if setWorks then "" else FallbackSearch(cfg, lib, d);
      && (step == ReplaceTo(cfg.gateRoot + gateSearch) || step == AssignTo(cfg.gateRoot + gateSearch))
      && Candidate(read, lib, cfg, gateSearch) == Some(d)
  {
    var d := OriginDest(cfg, lib, search).value;
    FallbackExtendsGateRoot(cfg);
    assert cfg.gateRoot + "" == cfg.gateRoot;
    assert cfg.fallbackPrefix + lib.encode(d) == cfg.gateRoot + FallbackSearch(cfg, lib, d);
  }

  /**
   * A stale truthy value left in the store shadows the fallback parameter:
   * when the write fails but reads still work, the gate goes to the old
   * destination rather than the one in `__dest`.
   */
  lemma StaleStoreShadowsFallback(cfg: Config, lib: UrlLib, search: string, stale: string, href: string)
    requires OriginDest(cfg, lib, search).Some? && stale != ""
    ensures var d := OriginDest(cfg, lib, search).value;
      Candidate(Read(Some(stale)), lib, cfg, FallbackSearch(cfg, lib, d)) == Some(stale)
  {
  }

  /** A userscript page with neither GM API: the write rejects, so the destination travels in `__dest`. */
  lemma NoGmApiUsesFallback(cfg: Config, lib: UrlLib, search: string, a: Backends.Apis, callSucceeds: bool)
    requires !a.gmFunction && !a.gmObject
    requires OriginDest(cfg, lib, search).Some?
    ensures var setWorks := Backends.Resolves(Backends.Select(Backends.UserScript, a), callSucceeds);
      OriginDecision(cfg, lib, search, setWorks) ==
        AssignTo(cfg.fallbackPrefix + lib.encode(OriginDest(cfg, lib, search).value))
  {
    Backends.NoGmApiRejects(a, callSucceeds);
  }

  /**
   * `localStorage` belongs to one origin. When the loader falls back to it,
   * the write on the origin host succeeds, so the browser is sent to the
   * bare gate root; the gate's own storage has no item and its URL carries
   * no `__dest`, so the gate stops without a destination.
   */
  lemma LocalStorageHandoffLost(lib: UrlLib, search: string, a: Backends.Apis, href: string,
                                parse: string -> Option<string>)
    requires !a.injected && !a.gmFunction && !a.gmObject
    requires OriginDest(LoaderConfig(), lib, search).Some?
    requires !Truthy(lib.query("", LoaderConfig().destParam))
    ensures Backends.Select(Backends.Loader, a) == Backends.LocalStorage
    ensures OriginDecision(LoaderConfig(), lib, search,
                           Backends.Resolves(Backends.Select(Backends.Loader, a), true)) == ReplaceTo(LoaderConfig().gateRoot)
    ensures Acquire(Backends.LocalStorageGet(None, parse, false), lib, LoaderConfig(), "", href) == Nothing
  {
  }
}
