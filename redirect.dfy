/** `finalRedirect` / `_final`: clear the pending destination, let the page settle, navigate. */
module Redirect {
  import opened Common
  import opened Browser

  const SETTLE_MS := 2000

  /** The calls one finalRedirect makes, in order. */
  function FinalActions(dest: string): seq<Action> {
    [StoreDelete, Sleep(SETTLE_MS), Assign(dest)]
  }

  /** Delete (a failure is ignored), then wait 2000 ms, then assign the destination. */
  method FinalRedirect(host: Host, dest: string)
    modifies host
    ensures host.log == old(host.log) + [StoreDelete, Sleep(SETTLE_MS), Assign(dest)]
    ensures host.slot == (if host.deleteWorks then None else old(host.slot))
  {
    var ignored := host.Delete();
    host.Perform(Sleep(SETTLE_MS));
    host.Perform(Assign(dest));
  }
}
