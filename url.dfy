/**
 * The URL library calls the scripts make, left uninterpreted: each is a
 * function value supplied by the caller. A call that throws or yields
 * `null` is `None`.
 */
module Url {
  import opened Common

  datatype UrlLib = UrlLib(
    /** `new URLSearchParams(search).get(name)` */
    query: (string, string) -> Option<string>,
    /** `decodeURIComponent(s)`; `None` when it throws */
    decode: string -> Option<string>,
    /** `encodeURIComponent(s)` (its input never holds a lone surrogate here, so it does not throw) */
    encode: string -> string,
    /** `new URL(dest, base).href`; `None` when the constructor throws */
    resolve: (string, string) -> Option<string>
  )

  /**
   * `extractUrlParamFromSearch` / `_extract`: the parameter's value, decoded
   * once more when that succeeds; `null` when the parameter is missing or empty.
   */
  function ExtractParam(lib: UrlLib, search: string, name: string): (r: Option<string>)
    ensures r.None? <==> !Truthy(lib.query(search, name))
  {
    var u := lib.query(search, name);
    if !Truthy(u) then None
    else match lib.decode(u.value)
      case Some(d) => Some(d)
      case None => u
  }

  /** A decode that throws leaves the raw parameter value in place. */
  lemma DecodeFailureKeepsRaw(lib: UrlLib, search: string, name: string, raw: string)
    requires lib.query(search, name) == Some(raw) && raw != ""
    requires lib.decode(raw) == None
    ensures ExtractParam(lib, search, name) == Some(raw)
  {
  }

  /** A successful decode is applied exactly once. */
  lemma DecodeAppliedOnce(lib: UrlLib, search: string, name: string, raw: string, decoded: string)
    requires lib.query(search, name) == Some(raw) && raw != ""
    requires lib.decode(raw) == Some(decoded)
    ensures ExtractParam(lib, search, name) == Some(decoded)
  {
  }
}
