/**
 * The collector servlet: the address gate, the choice of application, the
 * registration of an application (POST) and the routing of a monitoring request
 * (GET) between removal, broadcast of an action and local handling.
 */
module Collector {
  import opened Wrappers
  import opened Text
  import opened Http
  import opened Registry
  import opened Selector
  import opened Forwarder

  const APPLICATION_PARAMETER := "application"
  const ACTION_PARAMETER := "action"
  const PART_PARAMETER := "part"
  const SESSION_ID_PARAMETER := "sessionId"
  const APP_NAME_PARAMETER := "appName"
  const APP_URLS_PARAMETER := "appUrls"

  /** What is shown to the user: a message of the servlet's resource bundle, or an exception's text. */
  datatype Notice =
    | MissingData
    | UrlsFormat
    | ApplicationAdded(name: string)
    | ApplicationRemoved(name: string)
    | Error(text: string)

  /** The part handlers of `doPart`; `Report` is the full report. */
  datatype PartKind = WebXml | PomXml | Sessions | CurrentRequests | HeapHisto | Processes | Report

  /** How a request is answered. */
  datatype Reply =
    | Forbidden                                   // 403, address refused
    | OnlyAddApplication                          // no application yet: the page to add one
    | DataUnavailable(application: string)        // 500, no data for that application
    | Message(application: string, notice: Notice) // a message inside the application's page
    | AlertAndRedirect(notice: Notice, target: string)
    | Part(application: string, part: PartKind)   // the part handler (or full report) that runs

  /** The `part` value that selects each handler; the report has none, it is what any other value selects. */
  function PartName(part: PartKind): string
    requires part != Report
  {
    match part
    case WebXml => "web.xml"
    case PomXml => "pom.xml"
    case Sessions => "sessions"
    case CurrentRequests => "currentRequests"
    case HeapHisto => "heaphisto"
    case Processes => "processes"
  }

  /** `doPart`'s dispatch (and `doMonitoring`'s, without a part): case-insensitive; anything else is the report. */
  function SelectPart(part: Option<string>): (r: PartKind)
    ensures part.None? ==> r == Report
    ensures r != Report ==> part.Some? && EqualsIgnoreCase(PartName(r), part.value)
  {
    if part.None? then Report
    else if EqualsIgnoreCase(PartName(WebXml), part.value) then WebXml
    else if EqualsIgnoreCase(PartName(PomXml), part.value) then PomXml
    else if EqualsIgnoreCase(PartName(Sessions), part.value) then Sessions
    else if EqualsIgnoreCase(PartName(CurrentRequests), part.value) then CurrentRequests
    else if EqualsIgnoreCase(PartName(HeapHisto), part.value) then HeapHisto
    else if EqualsIgnoreCase(PartName(Processes), part.value) then Processes
    else Report
  }

  lemma EqualsIgnoreCaseChain(a: string, b: string, c: string)
    requires EqualsIgnoreCase(b, c)
    ensures EqualsIgnoreCase(a, b) <==> EqualsIgnoreCase(a, c)
  {
  }

  /** No two handlers' names are equal ignoring case. */
  lemma PartNamesDiffer(p: PartKind, q: PartKind)
    requires p != Report && q != Report && p != q
    ensures !EqualsIgnoreCase(PartName(p), PartName(q))
  {
    if |PartName(p)| == |PartName(q)| {
      assert LowerAscii(PartName(p)[0]) != LowerAscii(PartName(q)[0]);
    }
  }

  /** Each handler's own name selects it, and so does any spelling differing only in ASCII case. */
  lemma SelectPartByName(part: PartKind, spelled: string)
    requires part != Report
    requires EqualsIgnoreCase(PartName(part), spelled)
    ensures SelectPart(Some(spelled)) == part
  {
    forall other: PartKind | other != Report && other != part
      ensures !EqualsIgnoreCase(PartName(other), spelled)
    {
      PartNamesDiffer(other, part);
      EqualsIgnoreCaseChain(PartName(other), PartName(part), spelled);
    }
  }

  /** `writeMessage`: without an application, an alert that sends back to "?"; otherwise a message in its page. */
  function WriteMessage(application: Option<string>, notice: Notice): Reply
  {
    if application.None? then AlertAndRedirect(notice, "?") else Message(application.value, notice)
  }

  const SCRIPT_START := "<script type='text/javascript'>alert('"
  const SCRIPT_MIDDLE := "');location.href='"
  const SCRIPT_END := "';</script>"

  /** `showAlertAndRedirectTo`: the script written; `encode` is `I18N.javascriptEncode`. */
  function ShowAlertAndRedirectTo(encode: string -> string, message: string, redirectTo: string): (r: string)
    ensures StartsWith(r, SCRIPT_START + encode(message) + SCRIPT_MIDDLE)
    ensures |r| == |SCRIPT_START + encode(message) + SCRIPT_MIDDLE| + |redirectTo| + |SCRIPT_END|
    ensures r[|r| - |SCRIPT_END|..] == SCRIPT_END
  {
    SCRIPT_START + encode(message) + SCRIPT_MIDDLE + redirectTo + SCRIPT_END
  }

  /** The text before the first single quote, and the rest from that quote on. */
  function UpToQuote(s: string): (string, string)
  {
    if s == [] then ([], [])
    else if s[0] == '\'' then ([], s)
    else var (before, rest) := UpToQuote(s[1..]); ([s[0]] + before, rest)
  }

  lemma {:induction false} UpToQuoteOf(s: string, t: string)
    requires '\'' !in s
    requires t != [] && t[0] == '\''
    ensures UpToQuote(s + t) == (s, t)
  {
    if s == [] {
      assert s + t == t;
    } else {
      assert s[0] in s && (s + t)[0] == s[0] && (s + t)[1..] == s[1..] + t;
      assert forall c :: c in s[1..] ==> c in s;
      UpToQuoteOf(s[1..], t);
      assert [s[0]] + s[1..] == s;
    }
  }

  /** What a browser reads from such a script: the alert text and the target, when it has that shape. */
  function ReadAlertScript(script: string): Option<(string, string)>
  {
    if !StartsWith(script, SCRIPT_START) then None
    else
      var (alert, rest) := UpToQuote(script[|SCRIPT_START|..]);
      if !StartsWith(rest, SCRIPT_MIDDLE) then None
      else
        var (target, tail) := UpToQuote(rest[|SCRIPT_MIDDLE|..]);
        if tail == SCRIPT_END then Some((alert, target)) else None
  }

  /**
   * The script shows exactly the encoded message and leads exactly to the target,
   * provided neither holds a single quote.
   */
  lemma AlertScriptRoundTrip(encode: string -> string, message: string, redirectTo: string)
    requires '\'' !in encode(message) && '\'' !in redirectTo
    ensures ReadAlertScript(ShowAlertAndRedirectTo(encode, message, redirectTo)) == Some((encode(message), redirectTo))
  {
    var encoded := encode(message);
    var script := ShowAlertAndRedirectTo(encode, message, redirectTo);
    var rest := SCRIPT_MIDDLE + redirectTo + SCRIPT_END;
    assert script == SCRIPT_START + (encoded + rest);
    assert script[|SCRIPT_START|..] == encoded + rest;
    UpToQuoteOf(encoded, rest);
    assert rest[|SCRIPT_MIDDLE|..] == redirectTo + SCRIPT_END;
    UpToQuoteOf(redirectTo, SCRIPT_END);
  }

  /** The checks of `doPost` before anything is registered: both fields present, an http(s) scheme. */
  function ValidateRegistration(appName: Option<string>, appUrls: Option<string>): (r: Result<(string, string), Notice>)
    ensures r.Success? <==>
      appName.Some? && appUrls.Some? && (StartsWith(appUrls.value, "http://") || StartsWith(appUrls.value, "https://"))
    ensures r.Success? ==> r.value == (appName.value, appUrls.value)
    ensures r.Failure? ==> r.error == if appName.None? || appUrls.None? then MissingData else UrlsFormat
  {
    if appName.None? || appUrls.None? then Failure(MissingData)
    else if !StartsWith(appUrls.value, "http://") && !StartsWith(appUrls.value, "https://") then Failure(UrlsFormat)
    else Success((appName.value, appUrls.value))
  }

  /** The scheme is checked on the whole field only: an ftp URL is refused, but not after an http one. */
  lemma SchemeCheckedOnWholeField(name: string)
    ensures ValidateRegistration(Some(name), Some("ftp://x")) == Failure(UrlsFormat)
    ensures ValidateRegistration(Some(name), Some("http://a,http://b")).Success?
    ensures ValidateRegistration(Some(name), Some("http://a,ftp://b")).Success?
  {
    assert "ftp://x"[..7][0] != "http://"[0];
  }

  /**
   * The answer of `doMonitoring` for an application with data, whose nodes are
   * `nodes`; `collect` is `collectForApplication` on the action URLs, and `execute`
   * is `executeActionIfNeeded` of the application's own monitoring controller; each
   * answers the message of its exception, if any.
   */
  function MonitoringReply(req: Request, application: string, nodes: seq<Url>,
                           isClearCounter: string -> bool, collect: (string, seq<string>) -> Option<string>,
                           execute: (string, Request) -> Option<string>): (reply: Reply)
    ensures var branch := Route(req.Parameter(ACTION_PARAMETER), isClearCounter);
      && (reply.AlertAndRedirect? <==> branch == RemoveApplication)
      && (branch == ForwardToNodes ==>
            var action := req.Parameter(ACTION_PARAMETER).value;
            var failure := collect(application, ActionUrls(nodes, action, req.Parameter(SESSION_ID_PARAMETER)));
            && (reply.Part? <==> failure.None?)
            && (reply.Part? ==> reply == Part(application, SelectPart(req.Parameter(PART_PARAMETER))))
            && (failure.Some? ==> reply == Message(application, Error(failure.value))))
      && (reply.AlertAndRedirect? ==> reply.target == "?")
      && (branch == ExecuteLocally ==>
            var failure := execute(application, req);
            && (reply.Part? <==> failure.None?)
            && (reply.Part? ==> reply == Part(application, SelectPart(req.Parameter(PART_PARAMETER))))
            && (failure.Some? ==> reply == Message(application, Error(failure.value))))
  {
    var action := req.Parameter(ACTION_PARAMETER);
    match Route(action, isClearCounter)
    case RemoveApplication => AlertAndRedirect(ApplicationRemoved(application), "?")
    case ForwardToNodes =>
      var failure := collect(application, ActionUrls(nodes, action.value, req.Parameter(SESSION_ID_PARAMETER)));
      if failure.Some? then Message(application, Error(failure.value))
      else Part(application, SelectPart(req.Parameter(PART_PARAMETER)))
    case ExecuteLocally =>
      var failure := execute(application, req);
      if failure.Some? then Message(application, Error(failure.value))
      else Part(application, SelectPart(req.Parameter(PART_PARAMETER)))
  }

  class CollectorServlet {
    /** The allow-list pattern for callers' addresses, when one is configured. */
    const allowedAddrPattern: Option<string>
    /** Whether an address matches a pattern as a whole (`Pattern.matcher(addr).matches()`). */
    const fullMatch: (string, string) -> bool
    const server: CollectorServer

    constructor (allowedAddrPattern: Option<string>, fullMatch: (string, string) -> bool, server: CollectorServer)
      ensures this.allowedAddrPattern == allowedAddrPattern
      ensures this.fullMatch == fullMatch && this.server == server
    {
      this.allowedAddrPattern := allowedAddrPattern;
      this.fullMatch := fullMatch;
      this.server := server;
    }

    /**
     * `isAddressAllowed`: despite its name, true when the request must be refused,
     * that is when a pattern is configured and the address does not match it whole.
     */
    predicate IsAddressAllowed(remoteAddr: string)
      ensures allowedAddrPattern.None? ==> !IsAddressAllowed(remoteAddr)
      ensures allowedAddrPattern.Some? && fullMatch(allowedAddrPattern.value, remoteAddr) ==> !IsAddressAllowed(remoteAddr)
      ensures allowedAddrPattern.Some? && !fullMatch(allowedAddrPattern.value, remoteAddr) ==> IsAddressAllowed(remoteAddr)
    {
      allowedAddrPattern.Some? && !fullMatch(allowedAddrPattern.value, remoteAddr)
    }

    /** `getApplication`: the application of the request, and the cookies it adds to the response. */
    method GetApplication(req: Request, resp: Response) returns (application: Option<string>)
      modifies resp
      ensures var s := SelectApplication(req.Parameter(APPLICATION_PARAMETER), req.cookies,
                                         server.available, server.GetFirstApplication());
        application == s.application && resp.cookies == old(resp.cookies) + s.emitted
    {
      application := req.Parameter(APPLICATION_PARAMETER);
      if application.None? {
        if req.cookies.Some? {
          var cookies := req.cookies.value;
          var i := 0;
          while i < |cookies|
            invariant 0 <= i <= |cookies|
            invariant forall j :: 0 <= j < i ==> cookies[j].name != COOKIE_NAME
            invariant application.None? && resp.cookies == old(resp.cookies)
          {
            var cookie := cookies[i];
            if cookie.name == COOKIE_NAME {
              application := Some(cookie.value);
              if !server.IsApplicationDataAvailable(cookie.value) {
                resp.AddCookie(cookie.(maxAge := -1));
                application := None;
              }
              break;
            }
            i := i + 1;
          }
        }
        if application.None? {
          application := server.GetFirstApplication();
        }
      } else if server.IsApplicationDataAvailable(application.value) {
        resp.AddCookie(Cookie(COOKIE_NAME, application.value, COOKIE_MAX_AGE));
      }
    }

    /** `doMonitoring` up to the part step, for an application whose data is available. */
    method DoMonitoring(req: Request, application: string,
                        isClearCounter: string -> bool, collect: (string, seq<string>) -> Option<string>,
                        execute: (string, Request) -> Option<string>)
      returns (reply: Reply)
      requires server.Valid() && application in server.available
      modifies server
      ensures server.Valid()
      ensures reply == MonitoringReply(req, application, old(server.urlsByApplication)[application], isClearCounter, collect, execute)
      ensures Route(req.Parameter(ACTION_PARAMETER), isClearCounter) == RemoveApplication ==>
        && server.urlsByApplication == old(server.urlsByApplication) - {application}
        && server.applications == Without(old(server.applications), application)
        && server.available == old(server.available) - {application}
      ensures Route(req.Parameter(ACTION_PARAMETER), isClearCounter) != RemoveApplication ==> unchanged(server)
    {
      var action := req.Parameter(ACTION_PARAMETER);
      var branch := Route(action, isClearCounter);
      if branch == RemoveApplication {
        server.RemoveCollectorApplication(application);
        return AlertAndRedirect(ApplicationRemoved(application), "?");
      } else if branch == ForwardToNodes {
        var nodes := server.urlsByApplication[application];
        var actionUrls := ForwardActionUrls(nodes, action.value, req.Parameter(SESSION_ID_PARAMETER));
        assert actionUrls == ActionUrls(nodes, action.value, req.Parameter(SESSION_ID_PARAMETER));
        var failure := collect(application, actionUrls);
        if failure.Some? {
          return Message(application, Error(failure.value));
        }
      } else {
        var failure := execute(application, req);
        if failure.Some? {
          return Message(application, Error(failure.value));
        }
      }
      reply := Part(application, SelectPart(req.Parameter(PART_PARAMETER)));
    }

    /**
     * `doGet`: a refused address gets 403 before anything else happens; otherwise the
     * application is chosen, and the request goes on only when its data is available.
     */
    method DoGet(req: Request, resp: Response,
                 isClearCounter: string -> bool, collect: (string, seq<string>) -> Option<string>,
                 execute: (string, Request) -> Option<string>)
      returns (reply: Reply)
      requires server.Valid()
      modifies resp, server
      ensures server.Valid()
      ensures IsAddressAllowed(req.remoteAddr) ==>
        reply == Forbidden && resp.cookies == old(resp.cookies) && unchanged(server)
      ensures !IsAddressAllowed(req.remoteAddr) ==>
        var s := SelectApplication(req.Parameter(APPLICATION_PARAMETER), req.cookies,
                                   old(server.available), old(server.GetFirstApplication()));
        && resp.cookies == old(resp.cookies) + s.emitted
        && (s.application.None? ==> reply == OnlyAddApplication && unchanged(server))
        && (s.application.Some? && s.application.value !in old(server.available) ==>
              reply == DataUnavailable(s.application.value) && unchanged(server))
        && (s.application.Some? && s.application.value in old(server.available) ==>
              var application := s.application.value;
              && reply == MonitoringReply(req, application, old(server.urlsByApplication)[application],
                                          isClearCounter, collect, execute)
              && (Route(req.Parameter(ACTION_PARAMETER), isClearCounter) == RemoveApplication ==>
                    server.applications == Without(old(server.applications), application)
                    && server.available == old(server.available) - {application}
                    && server.urlsByApplication == old(server.urlsByApplication) - {application})
              && (Route(req.Parameter(ACTION_PARAMETER), isClearCounter) != RemoveApplication ==>
                    unchanged(server)))
    {
      if IsAddressAllowed(req.remoteAddr) {
        return Forbidden;
      }
      var application := GetApplication(req, resp);
      if application.None? {
        return OnlyAddApplication;
      }
      if !server.IsApplicationDataAvailable(application.value) {
        return DataUnavailable(application.value);
      }
      reply := DoMonitoring(req, application.value, isClearCounter, collect, execute);
    }

    /**
     * `doPost`, the form that registers an application: a refused address gets 403;
     * a missing field, a field without an http(s) scheme or URLs that do not parse
     * give a message and leave the registry alone; otherwise the application is
     * registered with the parsed URLs and the browser is sent to its page.
     * `parseUrl` is `Parameters.parseUrl`, answering the text of its exception on failure.
     */
    method DoPost(req: Request, resp: Response, parseUrl: string -> Result<seq<Url>, string>)
      returns (reply: Reply)
      requires server.Valid()
      modifies resp, server
      ensures server.Valid()
      ensures IsAddressAllowed(req.remoteAddr) ==>
        reply == Forbidden && resp.cookies == old(resp.cookies) && unchanged(server)
      ensures !IsAddressAllowed(req.remoteAddr) ==>
        var s := SelectApplication(req.Parameter(APPLICATION_PARAMETER), req.cookies,
                                   old(server.available), old(server.GetFirstApplication()));
        var check := ValidateRegistration(req.Parameter(APP_NAME_PARAMETER), req.Parameter(APP_URLS_PARAMETER));
        && (check.Failure? ==>
              reply == WriteMessage(s.application, check.error)
              && resp.cookies == old(resp.cookies) + s.emitted && unchanged(server))
        && (check.Success? && parseUrl(check.value.1).Failure? ==>
              reply == WriteMessage(s.application, Error(parseUrl(check.value.1).error))
              && resp.cookies == old(resp.cookies) + s.emitted && unchanged(server))
        && (check.Success? && parseUrl(check.value.1).Success? ==>
              var name := check.value.0;
              && reply == AlertAndRedirect(ApplicationAdded(name), "?application=" + name)
              && resp.cookies == old(resp.cookies)
              && server.urlsByApplication == old(server.urlsByApplication)[name := parseUrl(check.value.1).value]
              && server.available == old(server.available) + {name}
              && server.applications == if name in old(server.applications) then old(server.applications)
                                        else old(server.applications) + [name])
    {
      if IsAddressAllowed(req.remoteAddr) {
        return Forbidden;
      }
      var appName := req.Parameter(APP_NAME_PARAMETER);
      var appUrls := req.Parameter(APP_URLS_PARAMETER);
      if appName.None? || appUrls.None? {
        var application := GetApplication(req, resp);
        return WriteMessage(application, MissingData);
      }
      if !StartsWith(appUrls.value, "http://") && !StartsWith(appUrls.value, "https://") {
        var application := GetApplication(req, resp);
        return WriteMessage(application, UrlsFormat);
      }
      var urls := parseUrl(appUrls.value);
      if urls.Failure? {
        var application := GetApplication(req, resp);
        return WriteMessage(application, Error(urls.error));
      }
      server.AddCollectorApplication(appName.value, urls.value);
      reply := AlertAndRedirect(ApplicationAdded(appName.value), "?application=" + appName.value);
    }
  }
}

/**
 * A client of the contracts above, following one browser: it chooses application
 * `a` explicitly, comes back with the cookie it was given, and comes back again
 * after `a` has been removed, when the cookie is re-sent with max age -1 and the
 * first remaining application, `b`, is chosen.
 */
module StickyRouting {
  import opened Wrappers
  import opened Http
  import opened Registry
  import opened Collector
  import opened Selector

  /** A registry where `b` and then `a` are registered, behind a servlet with no address pattern. */
  method TwoApplications(a: string, b: string, nodesA: seq<Url>, nodesB: seq<Url>) returns (servlet: CollectorServlet)
    requires a != b
    ensures fresh(servlet.server)
    ensures servlet.server.Valid() && servlet.server.applications == [b, a] && servlet.server.available == {a, b}
  {
    var server := new CollectorServer();
    server.AddCollectorApplication(b, nodesB);
    server.AddCollectorApplication(a, nodesA);
    servlet := new CollectorServlet(None, (pattern: string, address: string) => true, server);
  }

  /** A browser without cookies asks for `a` by name and gets the persistent cookie. */
  method ChooseExplicitly(servlet: CollectorServlet, a: string) returns (cookies: seq<Cookie>)
    requires a in servlet.server.available
    ensures cookies == [Cookie(COOKIE_NAME, a, COOKIE_MAX_AGE)]
  {
    var resp := new Response();
    var chosen := servlet.GetApplication(Request("10.0.0.5", map[APPLICATION_PARAMETER := a], None), resp);
    cookies := resp.cookies;
  }

  /** A browser comes back without a parameter, carrying `cookies`. */
  method ComeBack(servlet: CollectorServlet, cookies: seq<Cookie>) returns (chosen: Option<string>, sent: seq<Cookie>)
    ensures var s := SelectApplication(None, Some(cookies), servlet.server.available, servlet.server.GetFirstApplication());
      chosen == s.application && sent == s.emitted
  {
    var resp := new Response();
    var returning := Request("10.0.0.5", map[], Some(cookies));
    assert returning.Parameter(APPLICATION_PARAMETER) == None;
    chosen := servlet.GetApplication(returning, resp);
    sent := resp.cookies;
  }

  /** `a` is removed from the registry of `TwoApplications`, leaving `b` alone. */
  method RemoveLatest(server: CollectorServer, a: string, b: string)
    requires server.Valid() && server.applications == [b, a] && server.available == {a, b}
    modifies server
    ensures server.Valid() && server.applications == [b] && server.available == {b}
  {
    server.RemoveCollectorApplication(a);
    assert [b, a][1..] == [a] && [a][1..] == [];
    assert Without([a], a) == [];
  }

  method StickyRoutingScenario(a: string, b: string, nodesA: seq<Url>, nodesB: seq<Url>)
    requires a != b
  {
    var servlet := TwoApplications(a, b, nodesA, nodesB);
    var cookies := ChooseExplicitly(servlet, a);

    StickyChoice(a, {a, b}, Some(b), {a, b}, Some(b));
    var chosen, sent := ComeBack(servlet, cookies);
    assert chosen == Some(a) && sent == [];

    RemoveLatest(servlet.server, a, b);
    StaleCookieFallsBack([], a, COOKIE_MAX_AGE, [], {b}, Some(b));
    assert [] + [Cookie(COOKIE_NAME, a, COOKIE_MAX_AGE)] + [] == cookies;
    chosen, sent := ComeBack(servlet, cookies);
    assert chosen == Some(b) && sent == [Cookie(COOKIE_NAME, a, -1)];
  }
}
