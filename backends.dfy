/**
 * Which store backend each variant uses for one store operation. The
 * userscript looks for the `GM_*` functions, then the `GM.*` object, and
 * otherwise rejects; the loader prefers an injected `env` function, then
 * the same two, and falls back to `localStorage`. Set, get and delete are
 * selected independently. `OpenHost` turns the selection into the success
 * flags of a `Host`, and the read lemmas show that each backend's read is
 * the host's read of its one slot.
 */
module Backends {
  import opened Common
  import opened Browser

  datatype Variant = UserScript | Loader

  /** What the page offers for one operation. */
  datatype Apis = Apis(
    injected: bool,     // env.gmSet / env.gmGet / env.gmDelete is provided
    gmFunction: bool,   // typeof GM_setValue (etc.) === 'function'
    gmObject: bool      // GM is defined and GM.setValue (etc.) is present
  )

  datatype Backend = Injected | GmFunction | GmObject | LocalStorage | Missing

  /** The selection expressions of gmSet/gmGet/gmDelete (workink.user.js) and of `__wk` (main.js). */
  function Select(v: Variant, a: Apis): Backend {
    match v
    case UserScript =>
      if a.gmFunction then GmFunction else if a.gmObject then GmObject else Missing
    case Loader =>
      if a.injected then Injected
      else if a.gmFunction then GmFunction
      else if a.gmObject then GmObject
      else LocalStorage
  }

  /** Preference order of each variant. */
  function Order(v: Variant): seq<Backend> {
    match v
    case UserScript => [GmFunction, GmObject]
    case Loader => [Injected, GmFunction, GmObject, LocalStorage]
  }

  /** Whether the page offers a backend; `localStorage` is always there to try. */
  predicate Offers(a: Apis, b: Backend) {
    match b
    case Injected => a.injected
    case GmFunction => a.gmFunction
    case GmObject => a.gmObject
    case LocalStorage => true
    case Missing => false
  }

  /** Reference definition: the first backend in `order` that the page offers. */
  function FirstOffered(order: seq<Backend>, a: Apis): (b: Backend)
    ensures b == Missing || (b in order && Offers(a, b))
  {
    if order == [] then Missing
    else if Offers(a, order[0]) then order[0]
    else FirstOffered(order[1..], a)
  }

  /** The nested conditionals pick the first offered backend of the variant's order. */
  lemma SelectIsFirstOffered(v: Variant, a: Apis)
    ensures Select(v, a) == FirstOffered(Order(v), a)
  {
    var tail := [GmFunction, GmObject];
    assert tail[1..] == [GmObject] && [GmObject][1..] == [];
    assert FirstOffered(tail, a) == (if a.gmFunction then GmFunction else if a.gmObject then GmObject else Missing);
    if v.Loader? {
      var o := [Injected, GmFunction, GmObject, LocalStorage];
      var o2 := [GmObject, LocalStorage];
      assert o2[1..] == [LocalStorage] && [LocalStorage][1..] == [];
      assert FirstOffered(o2, a) == (if a.gmObject then GmObject else LocalStorage);
      assert o[1..][1..] == o2;
      assert o == Order(v);
    } else {
      assert tail == Order(v);
    }
  }

  /** The loader always has a backend to try; the userscript may have none. */
  lemma LoaderNeverMissing(a: Apis)
    ensures Select(Loader, a) != Missing
    ensures Select(UserScript, a) == Missing <==> !a.gmFunction && !a.gmObject
  {
  }

  /** Without an injected store the loader picks what the userscript picks, or `localStorage` where the userscript has nothing. */
  lemma LoaderExtendsUserScript(a: Apis)
    requires !a.injected
    ensures Select(Loader, a) == (if Select(UserScript, a) == Missing then LocalStorage else Select(UserScript, a))
  {
  }

  /** Whether an operation's promise resolves: with no backend the wrapper rejects; otherwise the backend's own call decides. */
  function Resolves(b: Backend, callSucceeds: bool): bool {
    b != Missing && callSucceeds
  }

  /** What the page offers for each store operation; set, get and delete are selected one by one. */
  datatype OpApis = OpApis(forSet: Apis, forGet: Apis, forDelete: Apis)

  /** Whether the selected backend's own call succeeds, per operation. */
  datatype OpCalls = OpCalls(setCall: bool, getCall: bool, deleteCall: bool)

  /** The host a page load runs against: whether each store operation works is decided by backend selection. */
  method OpenHost(v: Variant, apis: OpApis, calls: OpCalls, initial: Option<string>) returns (h: Host)
    ensures fresh(h) && h.slot == initial && h.log == []
    ensures h.setWorks == Resolves(Select(v, apis.forSet), calls.setCall)
    ensures h.getWorks == Resolves(Select(v, apis.forGet), calls.getCall)
    ensures h.deleteWorks == Resolves(Select(v, apis.forDelete), calls.deleteCall)
  {
    h := new Host(initial, Resolves(Select(v, apis.forSet), calls.setCall),
                  Resolves(Select(v, apis.forGet), calls.getCall), Resolves(Select(v, apis.forDelete), calls.deleteCall));
  }

  /** A userscript page with neither GM API cannot store anything, whatever the calls would do. */
  lemma NoGmApiRejects(a: Apis, callSucceeds: bool)
    requires !a.gmFunction && !a.gmObject
    ensures !Resolves(Select(UserScript, a), callSucceeds)
    ensures Resolves(Select(Loader, a), callSucceeds) == callSucceeds
  {
  }

  /** What `localStorage` holds for the slot: the JSON text of the value, or no item. */
  function StoredItem(slot: Option<string>, stringify: string -> string): Option<string> {
    match slot
    case None => None
    case Some(v) => Some(stringify(v))
  }

  /** The loader's `localStorage` read: no item gives the default `null`; an item is JSON-parsed; a throw rejects. */
  function LocalStorageGet(item: Option<string>, parse: string -> Option<string>, throws: bool): ReadResult {
    if throws then ReadFailed
    else match item
      case None => Read(None)
      case Some(s) =>
        match parse(s)
        case None => ReadFailed
        case Some(v) => Read(Some(v))
  }

  /** What `setItem(k, JSON.stringify(v))` wrote, `getItem` and `JSON.parse` give back; a missing item reads as `null`. */
  lemma LocalStorageRoundTrip(v: string, stringify: string -> string, parse: string -> Option<string>)
    requires parse(stringify(v)) == Some(v)
    ensures LocalStorageGet(StoredItem(Some(v), stringify), parse, false) == Read(Some(v))
    ensures LocalStorageGet(StoredItem(None, stringify), parse, false) == Read(None)
  {
  }

  /** With a JSON round trip, a `localStorage` read is exactly the host's read of its slot. */
  lemma LocalStorageActsAsHostRead(h: Host, stringify: string -> string, parse: string -> Option<string>, throws: bool)
    requires h.getWorks == !throws
    requires forall v :: parse(stringify(v)) == Some(v)
    ensures LocalStorageGet(StoredItem(h.slot, stringify), parse, throws) == h.Peek()
  {
    if h.slot.Some? {
      LocalStorageRoundTrip(h.slot.value, stringify, parse);
    }
  }

  /** `GM_getValue`: `undefined` gives the default `null`; a throw rejects. */
  function GmFunctionGet(stored: Option<string>, throws: bool): ReadResult {
    if throws then ReadFailed else Read(stored)
  }

  /** A `GM_getValue` read is exactly the host's read of its slot. */
  lemma GmGetActsAsHostRead(h: Host, throws: bool)
    requires h.getWorks == !throws
    ensures GmFunctionGet(h.slot, throws) == h.Peek()
  {
  }
}
