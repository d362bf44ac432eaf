/**
 * The fan-out handlers of the collector: each asks every node of the application,
 * in node order, through `fetch` (the remote call of one node URL, answering a
 * payload or the failure that ends the request), and merges the answers.
 * `HeapHistogram.add` and `SessionListener.sortSessions` are given as parameters.
 */
module Aggregator {
  import opened Wrappers
  import opened Text
  import opened Registry

  function SessionsUrl(node: Url): string { node.text + "&part=sessions" }

  function SessionUrl(node: Url, sessionId: string): string { node.text + "&part=sessions&sessionId=" + sessionId }

  function HeapHistoUrl(node: Url): string { node.text + "&part=heaphisto" }

  /**
   * Asks each node in order and folds each answer into an accumulator; the first
   * failure ends the fan-out and is the outcome.
   */
  function FanOut<T, A>(nodes: seq<Url>, url: Url -> string, fetch: string -> Result<T, string>,
                        step: (A, T) -> A, seed: A): Result<A, string>
    decreases |nodes|
  {
    if nodes == [] then Success(seed)
    else match FanOut(nodes[..|nodes| - 1], url, fetch, step, seed)
      case Failure(e) => Failure(e)
      case Success(acc) =>
        match fetch(url(nodes[|nodes| - 1]))
        case Failure(e) => Failure(e)
        case Success(t) => Success(step(acc, t))
  }

  /** Every node answers. */
  predicate AllAnswer<T>(nodes: seq<Url>, url: Url -> string, fetch: string -> Result<T, string>)
  {
    forall i :: 0 <= i < |nodes| ==> fetch(url(nodes[i])).Success?
  }

  /** The nodes' answers, in node order. */
  function Answers<T>(nodes: seq<Url>, url: Url -> string, fetch: string -> Result<T, string>): (r: seq<T>)
    requires AllAnswer(nodes, url, fetch)
    ensures |r| == |nodes|
  {
    seq(|nodes|, i requires 0 <= i < |nodes| && AllAnswer(nodes, url, fetch) => fetch(url(nodes[i])).value)
  }

  /** Left fold: `step(...step(step(acc, xs[0]), xs[1])..., xs[n-1])`. */
  function FoldLeft<T, A>(step: (A, T) -> A, acc: A, xs: seq<T>): A
    decreases |xs|
  {
    if xs == [] then acc else FoldLeft(step, step(acc, xs[0]), xs[1..])
  }

  lemma {:induction false} FoldLeftSnoc<T, A>(step: (A, T) -> A, acc: A, xs: seq<T>, x: T)
    ensures FoldLeft(step, acc, xs + [x]) == step(FoldLeft(step, acc, xs), x)
    decreases |xs|
  {
    if xs != [] {
      assert (xs + [x])[1..] == xs[1..] + [x];
      FoldLeftSnoc(step, step(acc, xs[0]), xs[1..], x);
    }
  }

  /**
   * The fan-out succeeds exactly when every node answers, and then its outcome is
   * the answers folded in node order.
   */
  lemma {:induction false} FanOutFoldsAnswers<T, A>(nodes: seq<Url>, url: Url -> string,
                                                    fetch: string -> Result<T, string>, step: (A, T) -> A, seed: A)
    ensures FanOut(nodes, url, fetch, step, seed).Success? <==> AllAnswer(nodes, url, fetch)
    ensures AllAnswer(nodes, url, fetch) ==>
      FanOut(nodes, url, fetch, step, seed) == Success(FoldLeft(step, seed, Answers(nodes, url, fetch)))
    decreases |nodes|
  {
    if nodes != [] {
      var n := |nodes| - 1;
      var front := nodes[..n];
      FanOutFoldsAnswers(front, url, fetch, step, seed);
      assert forall i :: 0 <= i < n ==> front[i] == nodes[i];
      if AllAnswer(nodes, url, fetch) {
        assert AllAnswer(front, url, fetch);
        assert Answers(nodes, url, fetch) == Answers(front, url, fetch) + [fetch(url(nodes[n])).value];
        FoldLeftSnoc(step, seed, Answers(front, url, fetch), fetch(url(nodes[n])).value);
      } else if AllAnswer(front, url, fetch) {
        assert !fetch(url(nodes[n])).Success?;
      }
    }
  }

  /**
   * A failed fan-out reports the failure of the first node that failed, every
   * earlier node having answered.
   */
  lemma {:induction false} FanOutFailsAtFirstFailure<T, A>(nodes: seq<Url>, url: Url -> string,
                                                          fetch: string -> Result<T, string>, step: (A, T) -> A, seed: A)
    requires FanOut(nodes, url, fetch, step, seed).Failure?
    ensures exists i :: 0 <= i < |nodes| && fetch(url(nodes[i])) == Failure(FanOut(nodes, url, fetch, step, seed).error)
                        && forall j :: 0 <= j < i ==> fetch(url(nodes[j])).Success?
    decreases |nodes|
  {
    var n := |nodes| - 1;
    var front := nodes[..n];
    assert forall i :: 0 <= i < n ==> front[i] == nodes[i];
    if FanOut(front, url, fetch, step, seed).Failure? {
      FanOutFailsAtFirstFailure(front, url, fetch, step, seed);
      var i :| 0 <= i < n && fetch(url(front[i])) == Failure(FanOut(front, url, fetch, step, seed).error)
               && forall j :: 0 <= j < i ==> fetch(url(front[j])).Success?;
      assert fetch(url(nodes[i])) == Failure(FanOut(nodes, url, fetch, step, seed).error);
    } else {
      FanOutFoldsAnswers(front, url, fetch, step, seed);
      assert fetch(url(nodes[n])) == Failure(FanOut(nodes, url, fetch, step, seed).error);
    }
  }

  /** Once a prefix of the nodes has failed, the rest of the nodes do not change the outcome. */
  lemma {:induction false} FanOutFailureSticks<T, A>(nodes: seq<Url>, k: nat, url: Url -> string,
                                                    fetch: string -> Result<T, string>, step: (A, T) -> A, seed: A)
    requires k <= |nodes|
    requires FanOut(nodes[..k], url, fetch, step, seed).Failure?
    ensures FanOut(nodes, url, fetch, step, seed) == FanOut(nodes[..k], url, fetch, step, seed)
    decreases |nodes| - k
  {
    if k < |nodes| {
      assert nodes[..k + 1][..k] == nodes[..k];
      FanOutFailureSticks(nodes, k + 1, url, fetch, step, seed);
    } else {
      assert nodes[..k] == nodes;
    }
  }

  // ---------------------------------------------------------------- sessions

  function Concat<S>(acc: seq<S>, sessions: seq<S>): seq<S> { acc + sessions }

  /** The lists one after the other. */
  function Flatten<S>(lists: seq<seq<S>>): seq<S>
  {
    if lists == [] then [] else lists[0] + Flatten(lists[1..])
  }

  function SumOfLengths<S>(lists: seq<seq<S>>): nat
  {
    if lists == [] then 0 else |lists[0]| + SumOfLengths(lists[1..])
  }

  lemma {:induction false} FoldConcatIsFlatten<S>(acc: seq<S>, lists: seq<seq<S>>)
    ensures FoldLeft(Concat, acc, lists) == acc + Flatten(lists)
    ensures |Flatten(lists)| == SumOfLengths(lists)
    decreases |lists|
  {
    if lists != [] {
      FoldConcatIsFlatten(acc + lists[0], lists[1..]);
    }
  }

  /**
   * The session-list branch of `doSessions`: every node's sessions appended in
   * node order, then sorted by `sort`.
   */
  method CollectSessions<S>(nodes: seq<Url>, fetch: string -> Result<seq<S>, string>, sort: seq<S> -> seq<S>)
    returns (r: Result<seq<S>, string>)
    ensures r == match FanOut(nodes, SessionsUrl, fetch, Concat, [])
                 case Failure(e) => Failure(e)
                 case Success(sessions) => Success(sort(sessions))
  {
    var sessions: seq<S> := [];
    var i := 0;
    while i < |nodes|
      invariant 0 <= i <= |nodes|
      invariant FanOut(nodes[..i], SessionsUrl, fetch, Concat, []) == Success(sessions)
    {
      assert nodes[..i + 1][..i] == nodes[..i];
      var answer := fetch(SessionsUrl(nodes[i]));
      if answer.Failure? {
        FanOutFailureSticks(nodes, i + 1, SessionsUrl, fetch, Concat, []);
        return Failure(answer.error);
      }
      sessions := sessions + answer.value;
      i := i + 1;
    }
    assert nodes[..i] == nodes;
    r := Success(sort(sessions));
  }

  /**
   * When every node answers, the merged list is their lists one after the other,
   * as long as all of them together.
   */
  lemma CollectedSessionsAreConcatenation<S>(nodes: seq<Url>, fetch: string -> Result<seq<S>, string>)
    requires AllAnswer(nodes, SessionsUrl, fetch)
    ensures var lists := Answers(nodes, SessionsUrl, fetch);
      && FanOut(nodes, SessionsUrl, fetch, Concat, []) == Success(Flatten(lists))
      && |Flatten(lists)| == SumOfLengths(lists)
  {
    var lists := Answers(nodes, SessionsUrl, fetch);
    FanOutFoldsAnswers(nodes, SessionsUrl, fetch, Concat, []);
    FoldConcatIsFlatten([], lists);
    assert [] + Flatten(lists) == Flatten(lists);
  }

  // ----------------------------------------------------------- single session

  predicate NotHere<S>(answer: Result<Option<S>, string>)
  {
    answer.Success? && answer.value.None?
  }

  /** How many nodes, from the first, answer that they do not hold the session. */
  function NotHereCount<S>(nodes: seq<Url>, sessionId: string, fetch: string -> Result<Option<S>, string>): (k: nat)
    ensures k <= |nodes|
    ensures forall j :: 0 <= j < k ==> NotHere(fetch(SessionUrl(nodes[j], sessionId)))
    ensures k < |nodes| ==> !NotHere(fetch(SessionUrl(nodes[k], sessionId)))
    decreases |nodes|
  {
    if nodes == [] || !NotHere(fetch(SessionUrl(nodes[0], sessionId))) then 0
    else 1 + NotHereCount(nodes[1..], sessionId, fetch)
  }

  /**
   * The single-session lookup: the answer of the first node that does not say "not
   * here"; when every node says so, no session (it was invalidated), not an error.
   */
  function LookupSession<S>(nodes: seq<Url>, sessionId: string, fetch: string -> Result<Option<S>, string>): (r: Result<Option<S>, string>)
    ensures r != Success(None) ==>
      exists k :: 0 <= k < |nodes| && r == fetch(SessionUrl(nodes[k], sessionId))
        && forall j :: 0 <= j < k ==> NotHere(fetch(SessionUrl(nodes[j], sessionId)))
    ensures r == Success(None) ==> forall j :: 0 <= j < |nodes| ==> NotHere(fetch(SessionUrl(nodes[j], sessionId)))
  {
    var k := NotHereCount(nodes, sessionId, fetch);
    if k == |nodes| then Success(None) else fetch(SessionUrl(nodes[k], sessionId))
  }

  /**
   * The session-id branch of `doSessions`: asks the nodes in order and stops at the
   * first that holds the session; answers a one-element list. `queried` counts the
   * nodes asked.
   */
  method FindSession<S>(nodes: seq<Url>, sessionId: string, fetch: string -> Result<Option<S>, string>)
    returns (r: Result<seq<Option<S>>, string>, ghost queried: nat)
    ensures r == match LookupSession(nodes, sessionId, fetch)
                 case Failure(e) => Failure(e)
                 case Success(found) => Success([found])
    ensures queried == var k := NotHereCount(nodes, sessionId, fetch); if k < |nodes| then k + 1 else k
  {
    var found: Option<S> := None;
    queried := 0;
    var i := 0;
    while i < |nodes|
      invariant 0 <= i <= |nodes| && queried == i && found.None?
      invariant forall j :: 0 <= j < i ==> NotHere(fetch(SessionUrl(nodes[j], sessionId)))
    {
      var answer := fetch(SessionUrl(nodes[i], sessionId));
      queried := queried + 1;
      if answer.Failure? {
        r := Failure(answer.error);
        return;
      }
      if answer.value.Some? {
        found := answer.value;
        break;
      }
      i := i + 1;
    }
    r := Success([found]);
  }

  /**
   * The first node holding the session answers it, whatever the nodes after it
   * would answer: the loop stops there.
   */
  lemma FirstHolderIsFound<S>(nodes: seq<Url>, sessionId: string, fetch: string -> Result<Option<S>, string>,
                              holder: nat, session: S)
    requires holder < |nodes|
    requires fetch(SessionUrl(nodes[holder], sessionId)) == Success(Some(session))
    requires forall j :: 0 <= j < holder ==> NotHere(fetch(SessionUrl(nodes[j], sessionId)))
    ensures LookupSession(nodes, sessionId, fetch) == Success(Some(session))
  {
  }

  /** When exactly one node holds the session, that node's session is the answer. */
  lemma OnlyHolderIsFound<S>(nodes: seq<Url>, sessionId: string, fetch: string -> Result<Option<S>, string>,
                             holder: nat, session: S)
    requires holder < |nodes|
    requires fetch(SessionUrl(nodes[holder], sessionId)) == Success(Some(session))
    requires forall j :: 0 <= j < |nodes| && j != holder ==> NotHere(fetch(SessionUrl(nodes[j], sessionId)))
    ensures LookupSession(nodes, sessionId, fetch) == Success(Some(session))
  {
  }

  /** When no node holds the session, the answer is "no session", never a failure. */
  lemma MissingSessionIsNotAnError<S>(nodes: seq<Url>, sessionId: string, fetch: string -> Result<Option<S>, string>)
    requires forall j :: 0 <= j < |nodes| ==> NotHere(fetch(SessionUrl(nodes[j], sessionId)))
    ensures LookupSession(nodes, sessionId, fetch) == Success(None)
  {
  }

  // ----------------------------------------------------------- heap histogram

  /** One step of `doHeapHisto`: the first histogram becomes the total, later ones are added to it. */
  function Accumulate<H>(add: (H, H) -> H): (Option<H>, H) -> Option<H>
  {
    (total: Option<H>, histogram: H) => Some(if total.None? then histogram else add(total.value, histogram))
  }

  /** `doHeapHisto`'s loop: the total of the nodes' heap histograms, null when there is no node. */
  method CollectHeapHistogram<H>(nodes: seq<Url>, fetch: string -> Result<H, string>, add: (H, H) -> H)
    returns (r: Result<Option<H>, string>)
    ensures r == FanOut(nodes, HeapHistoUrl, fetch, Accumulate(add), None)
  {
    var total: Option<H> := None;
    var i := 0;
    while i < |nodes|
      invariant 0 <= i <= |nodes|
      invariant FanOut(nodes[..i], HeapHistoUrl, fetch, Accumulate(add), None) == Success(total)
    {
      assert nodes[..i + 1][..i] == nodes[..i];
      var answer := fetch(HeapHistoUrl(nodes[i]));
      if answer.Failure? {
        FanOutFailureSticks(nodes, i + 1, HeapHistoUrl, fetch, Accumulate(add), None);
        return Failure(answer.error);
      }
      if total.None? {
        total := Some(answer.value);
      } else {
        total := Some(add(total.value, answer.value));
      }
      i := i + 1;
    }
    assert nodes[..i] == nodes;
    r := Success(total);
  }

  lemma {:induction false} AccumulateFromSeed<H>(add: (H, H) -> H, seed: H, histograms: seq<H>)
    ensures FoldLeft(Accumulate(add), Some(seed), histograms) == Some(FoldLeft(add, seed, histograms))
    decreases |histograms|
  {
    if histograms != [] {
      AccumulateFromSeed(add, add(seed, histograms[0]), histograms[1..]);
    }
  }

  /**
   * When every node answers, the total is the first node's histogram with each later
   * node's histogram added once, in node order; with no node there is no total.
   */
  lemma HeapTotalIsFirstPlusOthers<H>(nodes: seq<Url>, fetch: string -> Result<H, string>, add: (H, H) -> H)
    requires AllAnswer(nodes, HeapHistoUrl, fetch)
    ensures var histograms := Answers(nodes, HeapHistoUrl, fetch);
      FanOut(nodes, HeapHistoUrl, fetch, Accumulate(add), None)
        == Success(if nodes == [] then None else Some(FoldLeft(add, histograms[0], histograms[1..])))
  {
    FanOutFoldsAnswers(nodes, HeapHistoUrl, fetch, Accumulate(add), None);
    var histograms := Answers(nodes, HeapHistoUrl, fetch);
    if nodes != [] {
      AccumulateFromSeed(add, histograms[0], histograms[1..]);
    }
  }

  // -------------------------------------------------------- proxy and helpers

  /** What `get(0)` throws on an application without nodes. */
  const NO_NODE := "Index: 0, Size: 0"

  /** `doProxy`: the URL asked for a configuration file, on the first node only. */
  function ProxyUrl(nodes: seq<Url>, urlParameter: string): (r: Result<string, string>)
    ensures r.Success? <==> nodes != []
    ensures r.Success? ==> StartsWith(r.value, nodes[0].text + "&") && r.value[|nodes[0].text| + 1..] == urlParameter
    ensures r.Failure? ==> r.error == NO_NODE
  {
    if nodes == [] then Failure(NO_NODE) else Success(nodes[0].text + "&" + urlParameter)
  }

  /** The other nodes play no part in a proxied request. */
  lemma ProxyAsksFirstNodeOnly(first: Url, others1: seq<Url>, others2: seq<Url>, urlParameter: string)
    ensures ProxyUrl([first] + others1, urlParameter) == ProxyUrl([first] + others2, urlParameter)
  {
  }

  /** `getHostAndPort(url)`: the host, followed by ":" and the port unless the port is the default (-1). */
  function GetHostAndPort(url: Url): (r: string)
    ensures StartsWith(r, url.host)
    ensures r == url.host <==> url.port == -1
    ensures url.port >= 0 ==> r[|url.host|] == ':' && forall i :: |url.host| < i < |r| ==> IsDigit(r[i])
  {
    if url.port != -1 then url.host + ":" + IntToDecimal(url.port) else url.host
  }

  /** For one host, the text names the port: two ports give the same text only when they are equal. */
  lemma HostAndPortNamesThePort(a: Url, b: Url)
    requires a.host == b.host
    requires GetHostAndPort(a) == GetHostAndPort(b)
    ensures a.port == b.port
  {
    var h := a.host;
    if a.port != -1 && b.port != -1 {
      assert IntToDecimal(a.port) == GetHostAndPort(a)[|h| + 1..];
      assert IntToDecimal(b.port) == GetHostAndPort(b)[|h| + 1..];
      IntToDecimalInjective(a.port, b.port);
    }
  }

  /**
   * The URL `doCurrentRequests` streams from a node: the serialized and XML transport
   * codes replaced by "html", then the current-requests part asked for.
   */
  function CurrentRequestsUrl(url: Url, serializedCode: string, xmlCode: string): (r: string)
    ensures |r| >= |"&part=currentRequests"| && r[|r| - |"&part=currentRequests"|..] == "&part=currentRequests"
  {
    Replace(Replace(url.text, serializedCode, "html"), xmlCode, "html") + "&part=currentRequests"
  }

  /** A node URL naming neither transport code only gains the part suffix. */
  lemma CurrentRequestsUrlOfPlainUrl(url: Url, serializedCode: string, xmlCode: string)
    requires serializedCode != [] && xmlCode != []
    requires !Occurs(url.text, serializedCode) && !Occurs(url.text, xmlCode)
    ensures CurrentRequestsUrl(url, serializedCode, xmlCode) == url.text + "&part=currentRequests"
  {
  }

  /**
   * A node URL naming the serialized transport once, as `p + serializedCode + q`,
   * asks for "html" in its place. The conditions: no occurrence of the code starts
   * inside `p` or lies in `q`, and the XML code does not occur in the rewritten URL.
   */
  lemma CurrentRequestsUrlOfSerializedUrl(url: Url, p: string, q: string, serializedCode: string, xmlCode: string)
    requires serializedCode != [] && xmlCode != []
    requires url.text == p + serializedCode + q
    requires !Occurs(p + serializedCode[..|serializedCode| - 1], serializedCode)
    requires !Occurs(q, serializedCode)
    requires !Occurs(p + "html" + q, xmlCode)
    ensures CurrentRequestsUrl(url, serializedCode, xmlCode) == p + "html" + q + "&part=currentRequests"
  {
    ReplaceFirstOccurrence(p, serializedCode, q, "html");
  }

  /**
   * A node URL naming the XML transport once, as `p + xmlCode + q`, and not the
   * serialized one, asks for "html" in its place.
   */
  lemma CurrentRequestsUrlOfXmlUrl(url: Url, p: string, q: string, serializedCode: string, xmlCode: string)
    requires serializedCode != [] && xmlCode != []
    requires url.text == p + xmlCode + q
    requires !Occurs(url.text, serializedCode)
    requires !Occurs(p + xmlCode[..|xmlCode| - 1], xmlCode)
    requires !Occurs(q, xmlCode)
    ensures CurrentRequestsUrl(url, serializedCode, xmlCode) == p + "html" + q + "&part=currentRequests"
  {
    ReplaceFirstOccurrence(p, xmlCode, q, "html");
  }
}
