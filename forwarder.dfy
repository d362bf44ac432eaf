/**
 * What `doMonitoring` does with the `action` parameter, and the per-node URLs
 * through which `forwardActionAndUpdateData` broadcasts an action.
 */
module Forwarder {
  import opened Wrappers
  import opened Text
  import opened Registry

  const REMOVE_APPLICATION := "remove_application"

  /** The three ways a monitoring request can treat its action. */
  datatype Branch = RemoveApplication | ForwardToNodes | ExecuteLocally

  /**
   * The branch taken for an `action` parameter. `isClearCounter(a)` stands for
   * `Action.valueOfIgnoreCase(a) == Action.CLEAR_COUNTER`.
   */
  function Route(action: Option<string>, isClearCounter: string -> bool): (b: Branch)
    ensures b == RemoveApplication <==> action.Some? && EqualsIgnoreCase(REMOVE_APPLICATION, action.value)
    ensures b == ForwardToNodes <==>
      action.Some? && !EqualsIgnoreCase(REMOVE_APPLICATION, action.value) && !isClearCounter(action.value)
    ensures b == ExecuteLocally <==>
      action.None? || (!EqualsIgnoreCase(REMOVE_APPLICATION, action.value) && isClearCounter(action.value))
  {
    if action.Some? && EqualsIgnoreCase(REMOVE_APPLICATION, action.value) then RemoveApplication
    else if action.Some? && !isClearCounter(action.value) then ForwardToNodes
    else ExecuteLocally
  }

  /**
   * The URL that carries the action to one node: the node's URL and the action,
   * ending with the session id exactly when one is given.
   */
  function ActionUrl(node: Url, action: string, sessionId: Option<string>): (r: string)
    ensures StartsWith(r, node.text + "&action=" + action)
    ensures sessionId.None? ==> |r| == |node.text + "&action=" + action|
    ensures sessionId.Some? ==> r[|node.text + "&action=" + action|..] == "&sessionId=" + sessionId.value
  {
    var url := node.text + "&action=" + action;
    if sessionId.None? then url
    else
      assert url + "&sessionId=" + sessionId.value == url + ("&sessionId=" + sessionId.value);
      url + "&sessionId=" + sessionId.value
  }

  /** One action URL per node, in node order, each starting with its node's URL and the action. */
  function ActionUrls(nodes: seq<Url>, action: string, sessionId: Option<string>): (r: seq<string>)
    ensures |r| == |nodes|
    ensures forall i :: 0 <= i < |nodes| ==> StartsWith(r[i], nodes[i].text + "&action=" + action)
  {
    seq(|nodes|, i requires 0 <= i < |nodes| => ActionUrl(nodes[i], action, sessionId))
  }

  /** The loop of `forwardActionAndUpdateData` that builds the list of action URLs. */
  method ForwardActionUrls(nodes: seq<Url>, action: string, sessionId: Option<string>) returns (actionUrls: seq<string>)
    ensures |actionUrls| == |nodes|
    ensures forall i :: 0 <= i < |nodes| ==> actionUrls[i] == ActionUrl(nodes[i], action, sessionId)
  {
    actionUrls := [];
    for i := 0 to |nodes|
      invariant |actionUrls| == i
      invariant forall k :: 0 <= k < i ==> actionUrls[k] == ActionUrl(nodes[k], action, sessionId)
    {
      var url := nodes[i].text + "&action=" + action;
      var actionUrl;
      if sessionId.None? {
        actionUrl := url;
      } else {
        actionUrl := url + "&sessionId=" + sessionId.value;
      }
      actionUrls := actionUrls + [actionUrl];
    }
  }

  /** The removal action is recognised whatever the ASCII case of its letters. */
  lemma RemovalIgnoresCase(isClearCounter: string -> bool)
    ensures Route(Some("REMOVE_APPLICATION"), isClearCounter) == RemoveApplication
    ensures Route(Some("Remove_Application"), isClearCounter) == RemoveApplication
    ensures Route(Some("remove-application"), isClearCounter) != RemoveApplication
  {
    assert LowerAscii('R') == 'r';
    assert "remove-application"[6] != REMOVE_APPLICATION[6];
  }

  /** Nodes with different URLs are sent different action URLs: the broadcast reaches each node separately. */
  lemma ActionUrlSeparatesNodes(a: Url, b: Url, action: string, sessionId: Option<string>)
    requires ActionUrl(a, action, sessionId) == ActionUrl(b, action, sessionId)
    ensures a.text == b.text
  {
    var tail := "&action=" + action + (if sessionId.None? then "" else "&sessionId=" + sessionId.value);
    SuffixAfterNode(a, action, sessionId, tail);
    SuffixAfterNode(b, action, sessionId, tail);
    assert a.text == (a.text + tail)[..|a.text|];
  }

  /** An action URL is its node's URL followed by a text that does not depend on the node. */
  lemma SuffixAfterNode(node: Url, action: string, sessionId: Option<string>, tail: string)
    requires tail == "&action=" + action + (if sessionId.None? then "" else "&sessionId=" + sessionId.value)
    ensures ActionUrl(node, action, sessionId) == node.text + tail
  {
    if sessionId.Some? {
      assert node.text + "&action=" + action + "&sessionId=" + sessionId.value
          == node.text + ("&action=" + action + "&sessionId=" + sessionId.value);
    } else {
      assert node.text + "&action=" + action == node.text + ("&action=" + action + "");
    }
  }
}
