/**
 * Which application a request is about (`getApplication`): the `application`
 * parameter when present, otherwise the application named by the first
 * "monitoring" cookie, otherwise the registry's first application; and the
 * cookies the choice adds to the response.
 */
module Selector {
  import opened Wrappers
  import opened Http

  const COOKIE_NAME := "monitoring"
  /** Thirty days, in seconds. */
  const COOKIE_MAX_AGE := 30 * 24 * 60 * 60

  /** The application chosen, and the cookies written to the response in that order. */
  datatype Selection = Selection(application: Option<string>, emitted: seq<Cookie>)

  /** Index of the first cookie named "monitoring", if any. */
  function MonitoringCookieIndex(cookies: seq<Cookie>): (r: Option<nat>)
    ensures r.Some? ==> r.value < |cookies| && cookies[r.value].name == COOKIE_NAME
    ensures r.Some? ==> forall j :: 0 <= j < r.value ==> cookies[j].name != COOKIE_NAME
    ensures r.None? ==> forall j :: 0 <= j < |cookies| ==> cookies[j].name != COOKIE_NAME
  {
    if cookies == [] then None
    else if cookies[0].name == COOKIE_NAME then Some(0)
    else match MonitoringCookieIndex(cookies[1..])
      case None => None
      case Some(k) => Some(k + 1)
  }

  /**
   * The outcome of `getApplication` for the `application` parameter, the request's
   * cookies, the applications with available data and the registry's first application.
   * At most one cookie is written, always named "monitoring", and it is persistent
   * only for an explicit choice.
   */
  function SelectApplication(parameter: Option<string>, cookies: Option<seq<Cookie>>,
                             available: set<string>, first: Option<string>): (s: Selection)
    ensures |s.emitted| <= 1
    ensures forall c :: c in s.emitted ==> c.name == COOKIE_NAME
    ensures forall c :: c in s.emitted && c.maxAge != -1 ==> parameter.Some? && c.maxAge == COOKIE_MAX_AGE
  {
    match parameter
    case Some(application) =>
      if application in available
      then Selection(parameter, [Cookie(COOKIE_NAME, application, COOKIE_MAX_AGE)])
      else Selection(parameter, [])
    case None =>
      var index := if cookies.Some? then MonitoringCookieIndex(cookies.value) else None;
      match index
      case None => Selection(first, [])
      case Some(i) =>
        var cookie := cookies.value[i];
        if cookie.value in available then Selection(Some(cookie.value), [])
        else Selection(first, [cookie.(maxAge := -1)])
  }

  /**
   * An explicit `application` parameter is what the request is about, known or not;
   * the persistent cookie is written exactly when its data is available, and no other
   * cookie is written.
   */
  lemma ExplicitApplicationIsKept(application: string, cookies: Option<seq<Cookie>>,
                                  available: set<string>, first: Option<string>)
    ensures var s := SelectApplication(Some(application), cookies, available, first);
      && s.application == Some(application)
      && (application in available <==> s.emitted != [])
      && (s.emitted != [] ==> s.emitted == [Cookie(COOKIE_NAME, application, COOKIE_MAX_AGE)])
  {
  }

  /**
   * Without a parameter, only the first "monitoring" cookie is consulted: whatever
   * follows it in the request does not change the outcome.
   */
  lemma {:induction false} OnlyFirstMonitoringCookieCounts(before: seq<Cookie>, cookie: Cookie,
                                                          after1: seq<Cookie>, after2: seq<Cookie>,
                                                          available: set<string>, first: Option<string>)
    requires forall j :: 0 <= j < |before| ==> before[j].name != COOKIE_NAME
    requires cookie.name == COOKIE_NAME
    ensures SelectApplication(None, Some(before + [cookie] + after1), available, first)
         == SelectApplication(None, Some(before + [cookie] + after2), available, first)
  {
    FirstMonitoringCookieAt(before, cookie, after1);
    FirstMonitoringCookieAt(before, cookie, after2);
  }

  lemma {:induction false} FirstMonitoringCookieAt(before: seq<Cookie>, cookie: Cookie, after: seq<Cookie>)
    requires forall j :: 0 <= j < |before| ==> before[j].name != COOKIE_NAME
    requires cookie.name == COOKIE_NAME
    ensures MonitoringCookieIndex(before + [cookie] + after) == Some(|before|)
    ensures (before + [cookie] + after)[|before|] == cookie
  {
    var cookies := before + [cookie] + after;
    assert cookies[|before|] == cookie;
    assert forall j :: 0 <= j < |before| ==> cookies[j] == before[j];
  }

  /** Without a parameter or a "monitoring" cookie, the first application is chosen and no cookie is written. */
  lemma NoCookieGivesFirst(cookies: Option<seq<Cookie>>, available: set<string>, first: Option<string>)
    requires cookies.None? || MonitoringCookieIndex(cookies.value).None?
    ensures SelectApplication(None, cookies, available, first) == Selection(first, [])
  {
  }

  /**
   * Without a parameter, a first "monitoring" cookie naming an application with
   * available data chooses that application, and no cookie is written.
   */
  lemma AvailableCookieIsChosen(cookies: seq<Cookie>, i: nat, available: set<string>, first: Option<string>)
    requires MonitoringCookieIndex(cookies) == Some(i)
    requires cookies[i].value in available
    ensures SelectApplication(None, Some(cookies), available, first) == Selection(Some(cookies[i].value), [])
  {
  }

  /**
   * A cookie naming an application without available data is sent back with max
   * age -1: same name and value, no longer persistent but not deleted. The request
   * then falls back to the first application.
   */
  lemma StaleCookieFallsBack(before: seq<Cookie>, application: string, maxAge: int, after: seq<Cookie>,
                             available: set<string>, first: Option<string>)
    requires forall j :: 0 <= j < |before| ==> before[j].name != COOKIE_NAME
    requires application !in available
    ensures var stale := Cookie(COOKIE_NAME, application, maxAge);
      SelectApplication(None, Some(before + [stale] + after), available, first)
        == Selection(first, [Cookie(COOKIE_NAME, application, -1)])
  {
    FirstMonitoringCookieAt(before, Cookie(COOKIE_NAME, application, maxAge), after);
  }

  /**
   * The cookie written for an explicit choice brings the same application back on a
   * later request without a parameter, as long as its data stays available.
   */
  lemma StickyChoice(application: string, available: set<string>, first: Option<string>,
                     later: set<string>, laterFirst: Option<string>)
    requires application in available && application in later
    ensures var chosen := SelectApplication(Some(application), None, available, first);
      SelectApplication(None, Some(chosen.emitted), later, laterFirst) == Selection(Some(application), [])
  {
  }
}
