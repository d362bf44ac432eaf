/** The parts of the servlet request and response that the collector reads or changes. */
module Http {
  import opened Wrappers

  /** A cookie: its name, its value and its max age in seconds (-1: until the browser closes). */
  datatype Cookie = Cookie(name: string, value: string, maxAge: int)

  /**
   * An incoming request: the caller's address, its query/form parameters and its
   * cookies (`getCookies()` answers null when the request carries none).
   */
  datatype Request = Request(remoteAddr: string, parameters: map<string, string>, cookies: Option<seq<Cookie>>)
  {
    /** `getParameter(name)`, null when absent. */
    function Parameter(name: string): Option<string>
    {
      if name in parameters then Some(parameters[name]) else None
    }
  }

  /** The outgoing response, as far as cookies go: the cookies added to it, in order. */
  class Response {
    var cookies: seq<Cookie>

    constructor ()
      ensures cookies == []
    {
      cookies := [];
    }

    /** `addCookie(cookie)`. */
    method AddCookie(cookie: Cookie)
      modifies this
      ensures cookies == old(cookies) + [cookie]
    {
      cookies := cookies + [cookie];
    }
  }
}
