/**
 * The request middleware of `src/middleware.ts`: a request for a page under
 * `/home` without a session token is sent back to the login page `/`.
 */
module Middleware {

  import opened Common
  import opened Text

  datatype Response = Next | Redirect(location: string)

  /** The decision for a request with the `token` cookie (if any) and the path. */
  function Decide(token: Option<string>, path: string): (r: Response)
    ensures r.Redirect? <==> (token == None || token == Some("")) && StartsWith(path, "/home")
    ensures r.Redirect? ==> r.location == "/"
  {
    if (token.None? || token.value == "") && StartsWith(path, "/home") then Redirect("/")
    else Next
  }

  /** A non-empty token always lets the request through. */
  lemma TokenContinues(token: string, path: string)
    requires token != ""
    ensures Decide(Some(token), path) == Next
  {
  }

  /**
   * A path outside `/home` continues even without a token; this includes the
   * `/padrinos` pages that the route matcher sends through the middleware.
   */
  lemma PadrinosContinues(path: string)
    requires StartsWith(path, "/padrinos")
    ensures Decide(None, path) == Next
  {
    assert path[1] == 'p';
    assert path[..5][1] == 'p';
    assert "/home"[1] == 'h';
  }
}
