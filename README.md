# JavaMelody collector servlet, modelled in Dafny

JavaMelody's collector server is a separate web application. It monitors other
applications ("nodes") remotely. Its `CollectorServlet` handles the following:

- It refuses callers whose address does not match a configured pattern.
- It works out which monitored application a browser is looking at. The
  `application` parameter decides when present; otherwise a "monitoring" cookie
  or the first registered application decides.
- It registers new applications from a POST form.
- It routes the `action` parameter. The action either removes the application,
  is forwarded to every node, or runs locally.
- It builds reports from all nodes. Session lists are concatenated. A single
  session is looked up node by node until one node has it. Heap histograms are
  merged with `HeapHistogram.add`, the first one seeding the total. Configuration files come from the first node only.

This project models those decisions and proves what they promise.

Files and modules:

- `wrappers.dfy` (`Wrappers`): `Option` stands for a Java null; `Result` stands
  for a value or an exception's message.
- `text.dfy` (`Text`): `startsWith`, `String.replace`, ASCII `equalsIgnoreCase`
  and `Integer.toString`, with their lemmas.
- `http.dfy` (`Http`): cookies, the request (address, parameters, cookies), and
  the response as the list of cookies added to it.
- `registry.dfy` (`Registry`): the node URL datatype, and the `CollectorServer`
  class. That class holds the registry: registered applications in registration
  order, their node URLs, and which of them have data available.
- `selector.dfy` (`Selector`): the specification of `getApplication` as a
  function, and lemmas about it.
- `forwarder.dfy` (`Forwarder`): the three-way routing of the action, and the
  per-node action URLs.
- `aggregator.dfy` (`Aggregator`): the fan-out handlers. They are specified by
  one generic in-order fold, `FanOut`, that stops at the first failure. The
  module also holds the host/port text and the current-requests URL rewrite.
- `collector.dfy` (`Collector`, `StickyRouting`): the servlet class with
  `GetApplication`, `DoMonitoring`, `DoGet` and `DoPost`; the reply shapes; the
  alert-and-redirect script; and one client scenario. In that scenario a
  browser chooses an application, comes back with its cookie, and comes back
  again after the application was removed.

Collaborators whose code is not part of this model are parameters:

- `fetch`: one remote call to a node URL. It returns a payload, or a failure that
  ends the request.
- `collect`: `collectForApplication` on the action URLs.
- `execute`: `executeActionIfNeeded` of the application's own monitoring
  controller, which runs a local action such as CLEAR_COUNTER. It answers the
  message of its exception, if any.
- `parseUrl`: `Parameters.parseUrl`.
- `isClearCounter`: whether `Action.valueOfIgnoreCase(a)` is `CLEAR_COUNTER`.
- `fullMatch`: the compiled address pattern's `matches()`.
- `add`: `HeapHistogram.add`.
- `sort`: `SessionListener.sortSessions`.
- `encode`: `I18N.javascriptEncode`.

Behaviours of the code worth knowing:

- An explicit `application` parameter naming an application without data is
  kept as it is. There is no fallback to the cookie or to the first application,
  and `doGet` then answers 500.
- A stale "monitoring" cookie is sent back with max age -1. That makes it a
  session cookie; it does not delete it (max age 0 would).
- `removeCollectorApplication` runs before any part or report step.
  `clear_counter` is the only action that is not forwarded, apart from removal.

`AlertScriptRoundTrip` needs a redirect target without a single quote. The
registration redirect `"?application=" + appName` puts the application name
into the script unescaped, so that property holds only for names without a quote.

## Model

| member | source | states |
|---|---|---|
| `Collector.CollectorServlet.IsAddressAllowed` | javamelody-core/src/main/java/net/bull/javamelody/CollectorServlet.java:414-417 | the inverted gate: with no pattern configured, or with an address that matches it in full, the request is not refused; with a pattern the address does not match in full, it is refused |
| `Collector.CollectorServlet.DoGet` | javamelody-core/src/main/java/net/bull/javamelody/CollectorServlet.java:87-106 | a refused address gets 403 with no cookie and no registry change; otherwise the chosen application's cookies are added; no application gives the add-application page, an application without data gives 500, and with data the monitoring step runs; removal takes the application out of the registration order, the URL map and the available set, and any other action leaves the registry unchanged |
| `Collector.CollectorServlet.DoPost` | javamelody-core/src/main/java/net/bull/javamelody/CollectorServlet.java:121-153 | a refused address gets 403 before anything else; a missing field, an `appUrls` starting with neither `http://` nor `https://`, or unparseable URLs give a message (through `getApplication` and its cookies) and leave the registry unchanged; otherwise the application is registered with the parsed URLs and the redirect target is exactly `?application=` + name |
| `Collector.CollectorServlet.constructor` | javamelody-core/src/main/java/net/bull/javamelody/CollectorServlet.java:73-76 | the servlet keeps the configured address pattern (or none) and the registry |
| `Collector.CollectorServlet.GetApplication` | javamelody-core/src/main/java/net/bull/javamelody/CollectorServlet.java:443-476 | the cookie loop, which stops at the first "monitoring" cookie, returns the application of `SelectApplication` and adds exactly its cookies to the response |
| `Collector.CollectorServlet.DoMonitoring` | javamelody-core/src/main/java/net/bull/javamelody/CollectorServlet.java:159-188 | removal takes the application out of the registry (names, URLs, availability) and answers an alert back to `?`; every other branch leaves the registry unchanged; the reply is the one `MonitoringReply` gives for the application's node list |
| `Collector.MonitoringReply` | javamelody-core/src/main/java/net/bull/javamelody/CollectorServlet.java:159-188 | the reply is an alert-and-redirect (to `?`) exactly when the action is `remove_application`; a forwarded action goes to `collect` as one action URL per node, and a local action (none, or CLEAR_COUNTER) goes to `execute`; in both cases the reply is the requested part exactly when that step succeeds, and otherwise the message of its failure |
| `Collector.PartNamesDiffer` | javamelody-core/src/main/java/net/bull/javamelody/CollectorServlet.java:200-212 | no two handlers' part names are equal ignoring case, so the order of the tests in `doPart` decides nothing |
| `Collector.SelectPart` | javamelody-core/src/main/java/net/bull/javamelody/CollectorServlet.java:180-217 | no `part` parameter gives the report; any handler other than the report is chosen only by a value equal to its part name ignoring case |
| `Collector.SelectPartByName` | javamelody-core/src/main/java/net/bull/javamelody/CollectorServlet.java:200-213 | any spelling of a handler's part name that differs only in ASCII case selects that handler |
| `Collector.ShowAlertAndRedirectTo` | javamelody-core/src/main/java/net/bull/javamelody/CollectorServlet.java:403-412 | the script opens the alert with the encoded message, then sets `location.href`, and closes with `';</script>`; its length is that of those pieces and the target |
| `Collector.AlertScriptRoundTrip` | javamelody-core/src/main/java/net/bull/javamelody/CollectorServlet.java:403-412 | reading the written script back gives exactly the encoded message and the redirect target, when neither contains a single quote |
| `Collector.ValidateRegistration` | javamelody-core/src/main/java/net/bull/javamelody/CollectorServlet.java:132-140 | registration passes exactly when both fields are present and `appUrls` starts with `http://` or `https://`; otherwise it fails with the missing-data notice or the URL-format notice, in that order of checks |
| `Collector.SchemeCheckedOnWholeField` | javamelody-core/src/main/java/net/bull/javamelody/CollectorServlet.java:137 | `ftp://x` is refused with the format notice, `http://a,http://b` passes, and so does `http://a,ftp://b`, because only the start of the whole field is checked |
| `Selector.SelectApplication` | javamelody-core/src/main/java/net/bull/javamelody/CollectorServlet.java:443-476 | at most one cookie is added, it is named "monitoring", and it is persistent (30 days) only for an explicit parameter |
| `Selector.MonitoringCookieIndex` | javamelody-core/src/main/java/net/bull/javamelody/CollectorServlet.java:452-461 | the index found is that of a "monitoring" cookie with none before it; none is found only when no cookie has that name |
| `Selector.ExplicitApplicationIsKept` | javamelody-core/src/main/java/net/bull/javamelody/CollectorServlet.java:468-475 | an `application` parameter is the result whether known or not; a cookie is written iff its data is available, and it is "monitoring" = the name with max age 30*24*60*60 |
| `Selector.OnlyFirstMonitoringCookieCounts` | javamelody-core/src/main/java/net/bull/javamelody/CollectorServlet.java:452-462 | without a parameter, cookies after the first "monitoring" cookie do not change the outcome |
| `Selector.FirstMonitoringCookieAt` | javamelody-core/src/main/java/net/bull/javamelody/CollectorServlet.java:452-453 | a "monitoring" cookie preceded by no other is the one the loop stops at |
| `Selector.NoCookieGivesFirst` | javamelody-core/src/main/java/net/bull/javamelody/CollectorServlet.java:448-467 | without a parameter and without any "monitoring" cookie (or any cookie at all), the result is `getFirstApplication()`, possibly null, and no cookie is written |
| `Selector.AvailableCookieIsChosen` | javamelody-core/src/main/java/net/bull/javamelody/CollectorServlet.java:452-462 | without a parameter, a first "monitoring" cookie naming an application with data selects that application, and no cookie is written |
| `Selector.StaleCookieFallsBack` | javamelody-core/src/main/java/net/bull/javamelody/CollectorServlet.java:453-467 | a first "monitoring" cookie naming an application without data is re-added with max age -1, and the result is `getFirstApplication()` |
| `Selector.StickyChoice` | javamelody-core/src/main/java/net/bull/javamelody/CollectorServlet.java:468-475 | the cookie written for an explicit choice selects the same application on a later request without a parameter while its data stays available |
| `Forwarder.Route` | javamelody-core/src/main/java/net/bull/javamelody/CollectorServlet.java:166-179 | exactly one branch: removal iff the action equals `remove_application` ignoring case; forwarding iff another non-null action is not CLEAR_COUNTER; local otherwise |
| `Forwarder.RemovalIgnoresCase` | javamelody-core/src/main/java/net/bull/javamelody/CollectorServlet.java:166 | `REMOVE_APPLICATION` and `Remove_Application` both select removal; `remove-application` does not, since only letters are compared ignoring case |
| `Forwarder.ForwardActionUrls` | javamelody-core/src/main/java/net/bull/javamelody/CollectorServlet.java:424-435 | one action URL per node, in node order, the i-th being node i's URL + `&action=` + action (+ `&sessionId=` + id when given) |
| `Forwarder.ActionUrl` | javamelody-core/src/main/java/net/bull/javamelody/CollectorServlet.java:427-433 | an action URL starts with the node URL and `&action=` + action; after that it is `&sessionId=` + id when an id is given, and nothing when none is |
| `Forwarder.ActionUrls` | javamelody-core/src/main/java/net/bull/javamelody/CollectorServlet.java:426-435 | one action URL per node, each starting with its own node's URL and the action |
| `Forwarder.ActionUrlSeparatesNodes` | javamelody-core/src/main/java/net/bull/javamelody/CollectorServlet.java:426-435 | two nodes get the same action URL only if their own URLs are equal |
| `Aggregator.FanOutFoldsAnswers` | javamelody-core/src/main/java/net/bull/javamelody/CollectorServlet.java:257-262 | a fan-out succeeds iff every node answers, and then it is the left fold of the answers in node order |
| `Aggregator.FanOutFailsAtFirstFailure` | javamelody-core/src/main/java/net/bull/javamelody/CollectorServlet.java:236-245 | a failed fan-out carries the failure of the first failing node, every earlier node having answered |
| `Aggregator.FanOutFailureSticks` | javamelody-core/src/main/java/net/bull/javamelody/CollectorServlet.java:257-262 | once a node has failed, the later nodes do not change the outcome (the loop is left) |
| `Aggregator.CollectSessions` | javamelody-core/src/main/java/net/bull/javamelody/CollectorServlet.java:254-263 | the `addAll` loop yields the fan-out's concatenation, then `sort` of it; a node failure ends it with that failure |
| `Aggregator.CollectedSessionsAreConcatenation` | javamelody-core/src/main/java/net/bull/javamelody/CollectorServlet.java:256-262 | with every node answering, the merged list is the nodes' lists one after another in node order, with length the sum of their lengths |
| `Aggregator.NotHereCount` | javamelody-core/src/main/java/net/bull/javamelody/CollectorServlet.java:269-278 | the number of leading nodes that answer "no such session"; the next node, if any, answers otherwise |
| `Aggregator.LookupSession` | javamelody-core/src/main/java/net/bull/javamelody/CollectorServlet.java:268-280 | a non-null answer is that of some node, every node before which answered that it does not hold the session; a null answer means every node answered that it does not hold it |
| `Aggregator.FindSession` | javamelody-core/src/main/java/net/bull/javamelody/CollectorServlet.java:268-280 | the loop answers the one-element list holding the first node's session (or null), asks exactly the nodes up to and including the first that answers otherwise, and fails with the first failure met |
| `Aggregator.FirstHolderIsFound` | javamelody-core/src/main/java/net/bull/javamelody/CollectorServlet.java:269-278 | a node holding the session, every node before which answered that it does not, gives that session, whatever the later nodes would answer |
| `Aggregator.OnlyHolderIsFound` | javamelody-core/src/main/java/net/bull/javamelody/CollectorServlet.java:269-278 | when exactly one node holds the session, that session is the answer |
| `Aggregator.MissingSessionIsNotAnError` | javamelody-core/src/main/java/net/bull/javamelody/CollectorServlet.java:279-280 | when no node holds the session, the answer is null (an invalidated session), not a failure |
| `Aggregator.CollectHeapHistogram` | javamelody-core/src/main/java/net/bull/javamelody/CollectorServlet.java:235-245 | the seed-then-add loop yields the fan-out with the seed-then-add step |
| `Aggregator.HeapTotalIsFirstPlusOthers` | javamelody-core/src/main/java/net/bull/javamelody/CollectorServlet.java:235-245 | with every node answering, the total is the first node's histogram with each later one added once, in node order; with no node the total stays null |
| `Aggregator.ProxyUrl` | javamelody-core/src/main/java/net/bull/javamelody/CollectorServlet.java:226-228 | the proxied URL is the first node's URL + `&` + the part parameter; an application without nodes fails as `get(0)` does |
| `Aggregator.ProxyAsksFirstNodeOnly` | javamelody-core/src/main/java/net/bull/javamelody/CollectorServlet.java:222-226 | the nodes after the first play no part in a proxied request |
| `Aggregator.GetHostAndPort` | javamelody-core/src/main/java/net/bull/javamelody/CollectorServlet.java:348-354 | the text starts with the host; it is the host alone exactly when the port is -1 (the default port); a given port follows a `:` as decimal digits |
| `Aggregator.HostAndPortNamesThePort` | javamelody-core/src/main/java/net/bull/javamelody/CollectorServlet.java:348-354 | for one host, `getHostAndPort` gives the same text for two ports only when they are equal; -1 (the default port) gives the host alone |
| `Aggregator.CurrentRequestsUrl` | javamelody-core/src/main/java/net/bull/javamelody/CollectorServlet.java:305-308 | the URL asked of a node always ends with `&part=currentRequests` |
| `Aggregator.CurrentRequestsUrlOfPlainUrl` | javamelody-core/src/main/java/net/bull/javamelody/CollectorServlet.java:305-308 | a node URL containing neither transport code only gains `&part=currentRequests` |
| `Aggregator.CurrentRequestsUrlOfSerializedUrl` | javamelody-core/src/main/java/net/bull/javamelody/CollectorServlet.java:305-308 | a node URL naming the serialized transport code once, where the XML code does not occur once that code is replaced, asks for `html` in its place, the rest of the URL unchanged, then `&part=currentRequests` |
| `Aggregator.CurrentRequestsUrlOfXmlUrl` | javamelody-core/src/main/java/net/bull/javamelody/CollectorServlet.java:305-308 | a node URL naming the XML transport code once, and not the serialized one, asks for `html` in its place, then `&part=currentRequests` |
| `Text.Replace` | javamelody-core/src/main/java/net/bull/javamelody/CollectorServlet.java:305-307 | `String.replace` leaves a string without the (non-empty) target unchanged |
| `Text.ReplaceFirstOccurrence` | javamelody-core/src/main/java/net/bull/javamelody/CollectorServlet.java:305-307 | when no occurrence of the target starts before it, the first occurrence becomes the replacement and the scan goes on from just after it |
| `Text.EqualsIgnoreCase` | javamelody-core/src/main/java/net/bull/javamelody/CollectorServlet.java:166 | `equalsIgnoreCase` holds for equal strings, only between strings of equal length, and only when every character other than an ASCII letter matches exactly |
| `Text.NatToDecimal` | javamelody-core/src/main/java/net/bull/javamelody/CollectorServlet.java:350 | the port's text is non-empty, all decimal digits, with no leading zero |
| `Text.DecimalRoundTrip` | javamelody-core/src/main/java/net/bull/javamelody/CollectorServlet.java:350 | reading back the digits written for a number gives that number |
| `Text.IntToDecimalInjective` | javamelody-core/src/main/java/net/bull/javamelody/CollectorServlet.java:350 | two integers with the same decimal text are equal |
| `Http.Response.AddCookie` | javamelody-core/src/main/java/net/bull/javamelody/CollectorServlet.java:457 | the cookie is appended to the response's cookies |
| `Registry.CollectorServer.GetFirstApplication` | javamelody-core/src/main/java/net/bull/javamelody/CollectorServlet.java:466 | null exactly when no application is registered, otherwise a registered one (the earliest) |
| `Registry.CollectorServer.AddCollectorApplication` | javamelody-core/src/main/java/net/bull/javamelody/CollectorServlet.java:142 | the application's node URLs are replaced wholesale, it keeps its place or is appended to the order, and its data becomes available |
| `Registry.CollectorServer.RemoveCollectorApplication` | javamelody-core/src/main/java/net/bull/javamelody/CollectorServlet.java:167 | the application leaves the order, the URL map and the available set; the others keep their order |

## Left out

- Servlet plumbing is not modelled: `init` (beyond keeping the pattern), `destroy`,
  writers, content types, `noCache`, flushing, and the text of `sendError`.
- HTML and I18N are not modelled: `HtmlReport`, `doReport`, `writeOnlyAddApplication`'s
  page, `HtmlProcessInformationsReport`, and the message texts (replies carry a
  notice instead). Logging and timing are left out too.
- DoMonitoring stops at the part handler that runs (`Reply.Part`). Each handler's
  fan-out is modelled on its own in `Aggregator`. A handler failure turning into a
  message (lines 189-194) is not wired up: the handlers return a `Failure` instead.
- `doProcesses` and the per-node loop of `doCurrentRequests` are not modelled. They
  write titles and stream each node's output. Only the URL rewrite and the
  host:port title text are modelled.
- `LabradorRetriever` is the `fetch` parameter. Its streaming mode (`copyTo`) and
  its deserialization are not modelled, and a failure only ends the loop.
- `collectForApplication` is the `collect` parameter. Its fail-fast broadcast and its
  refresh of node data are not visible in this file.
- `CollectorServer` is not part of this model. Its registry is modelled as a class
  holding names in registration order, URLs and available data.
  `getFirstApplication` is taken to be the earliest registered name. A successful
  registration is taken to make the application's data available.
- Registry.CollectorServer.AddCollectorApplication: does not model failures of
  registration itself (the `FileNotFoundException` branch, lines 147-150). Only a
  parse failure of `appUrls` is modelled as an error.
- `Parameters.parseUrl` is the `parseUrl` parameter.
- `Action.valueOfIgnoreCase` is the `isClearCounter` parameter. Its exception on
  an unknown action is not modelled.
- `Pattern` is the `fullMatch` parameter. An invalid pattern at `init` is not modelled.
- Text.EqualsIgnoreCase: folds ASCII letters only. Java also folds other
  letters, so a non-ASCII spelling that Java accepts is refused by the model.
- The part names ("web.xml", "pom.xml", "sessions", "currentRequests", "heaphisto",
  "processes") are constants of `MonitoringController`, which is not part of this
  model. They are taken from the URLs this file builds.
- Cookie path, domain and the in-place `setMaxAge` on the request's own cookie
  object are not modelled. The model re-emits a copy with max age -1.
- `HeapHistogram.add` and `SessionListener.sortSessions` are parameters. Nothing
  is claimed about commutativity of the merge or about the sort order.
- Aggregator.ProxyUrl: the message of the exception thrown by `get(0)` is a fixed string.
- Collector.MonitoringReply: a failure of `removeCollectorApplication` (line 167),
  caught by the block at lines 189-194, is not modelled; removal always answers the
  alert. The registry's own code is not part of this model.
- Concurrent requests sharing the registry are not modelled.
