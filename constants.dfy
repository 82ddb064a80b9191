/**
 * The fixed strings of the two variants. The userscript writes them as
 * literals; the hosted loader reads them from an index table through a
 * lookup function. Both variants are described by one `Config`.
 */
module Constants {
  import opened Common
  import Text

  /** The loader's string table, in its order. */
  const TABLE: seq<string> := [
    "workink_redirect_dest",
    "workink.vercel.app",
    "work.ink",
    "/refresh",
    "url",
    "https://work.ink/?__dest=",
    "https://work.ink/",
    "__dest",
    "AGREE",
    "Just a"
  ]

  /** `_0x(i)`: `undefined` outside the table. */
  function Lookup(i: int): (r: Option<string>)
    ensures r.Some? <==> 0 <= i < |TABLE|
    ensures r.Some? ==> r.value == TABLE[i]
  {
    if 0 <= i < |TABLE| then Some(TABLE[i]) else None
  }

  /** The literal in use at `_0x(i)` for an index the loader uses. */
  function Str(i: int): string
    requires 0 <= i < |TABLE|
  {
    Lookup(i).value
  }

  const WAITING_PATTERN := "Just a"

  datatype Config = Config(
    storageKey: string,      // the one store key holding the pending destination
    originHost: string,      // host of the page that starts the hand-off
    refreshPrefix: string,   // path prefix of that page
    urlParam: string,        // query parameter carrying the destination there
    gateHost: string,        // host of the gate page
    gateRoot: string,        // where the origin sends the browser after a stored hand-off
    fallbackPrefix: string,  // gate URL prefix carrying the destination when the store failed
    destParam: string        // query parameter read on the gate page
  )

  /** workink.user.js */
  const USER_SCRIPT := Config(
    "workink_redirect_dest", "my-site.co", "/refresh", "url",
    "work.ink", "https://work.ink/", "https://work.ink/?__dest=", "__dest")

  /** main.js: every field comes from the table. */
  function LoaderConfig(): Config {
    Config(Str(0), Str(1), Str(3), Str(4), Str(2), Str(6), Str(5), Str(7))
  }

  /** The two variants agree on every string except the origin host. */
  lemma VariantsDifferOnlyInOriginHost()
    ensures LoaderConfig() == USER_SCRIPT.(originHost := "workink.vercel.app")
    ensures LoaderConfig().originHost != USER_SCRIPT.originHost
  {
  }

  /** The loader's consent label and title pattern are the ones the shared model uses. */
  lemma TableMatchesSharedLiterals()
    ensures Lookup(8) == Some(Text.CONSENT_LABEL)
    ensures Lookup(9) == Some(WAITING_PATTERN)
    ensures Lookup(|TABLE|) == None && Lookup(-1) == None
  {
  }

  /** The gate URL used on store failure extends the gate root with the `__dest` query. */
  lemma FallbackExtendsGateRoot(cfg: Config)
    requires cfg == USER_SCRIPT || cfg == LoaderConfig()
    ensures cfg.fallbackPrefix == cfg.gateRoot + "?" + cfg.destParam + "="
    ensures cfg.fallbackPrefix != cfg.gateRoot
  {
  }
}
