/**
 * HttpHandlerSimpleRouter: an ordered list of routes, each a path template
 * compiled to an anchored QRegExp plus a target.  A request is handed to the
 * first route whose pattern matches its path; the request counts as handled
 * once a route matched, whatever the target then does.
 */
module SimpleRouter {
  import opened Bytes
  import opened PathTemplate

  /**
   * What a route invokes: a handler object or a QObject slot, both held by
   * guarded pointers (identified here by number, and alive or not at
   * dispatch time), or a fixed response.
   */
  datatype Target =
    | HandlerTarget(handler: nat)
    | MetaCallTarget(receiver: nat, member: string)
    | StaticTarget(statusCode: int, headers: seq<Header>, content: string)

  /** A compiled route: the pattern text, its token model, the parameter names and the target. */
  datatype Route = Route(pattern: string, tokens: seq<Token>, paramNames: seq<string>, target: Target)

  /** What dispatching a request did. */
  datatype Invocation =
    | HandlerCalled(handler: nat)
    | MetaCalled(receiver: nat, member: string)
    | TargetGone
    | StaticWritten(statusCode: int, headers: seq<Header>, content: string)

  /** pathToRegExp as a value: "^" + the template with both kinds of captures replaced + "$", and the names. */
  function Compile(path: string): (r: (string, seq<string>))
  {
    var ts := Tokenize(path);
    ("^" + Render(ts, GreedyNamedGroup, SplatGroup) + "$", ParamNames(ts))
  }

  /** The compiled route for a template and a target. */
  function MakeRoute(path: string, target: Target): Route
  {
    Route(Compile(path).0, Tokenize(path), Compile(path).1, target)
  }

  /**
   * pathToRegExp: collect the ":" names, replace the ":" markers by the greedy
   * segment group, then collect the "*" names from the text so far and
   * replace the "*" markers by "(.*)"; the result is anchored at both ends.
   */
  method PathToRegExp(p: string) returns (pattern: string, paramNames: seq<string>)
    ensures (pattern, paramNames) == Compile(p)
    ensures paramNames == MarkerNames(p, ':') + MarkerNames(p, '*')
  {
    var path := p;
    var named := CollectNames(path, ':');
    path := ReplaceMarkers(path, ':', GreedyNamedGroup);
    var splats := CollectNames(path, '*');
    path := ReplaceMarkers(path, '*', SplatGroup);
    paramNames := named + splats;
    pattern := "^" + path + "$";
    TokenizeNames(p);
    GroupsInert();
    SplatPassAfterNamedPass(p, GreedyNamedGroup, SplatGroup);
  }

  /** The Qt pattern matches the path: QRegExp is greedy, '.' takes any character, no optional '/'. */
  predicate RouteMatches(r: Route, path: string)
  {
    Search(r.tokens, path, QtFlavour).Some?
  }

  /** Index of the first route at or after lo whose pattern matches. */
  function FirstMatch(routes: seq<Route>, path: string, lo: nat): (r: Option<nat>)
    requires lo <= |routes|
    ensures r.Some? ==> lo <= r.value < |routes| && RouteMatches(routes[r.value], path)
    ensures r.Some? ==> forall i :: lo <= i < r.value ==> !RouteMatches(routes[i], path)
    ensures r.None? ==> forall i :: lo <= i < |routes| ==> !RouteMatches(routes[i], path)
    decreases |routes| - lo
  {
    if lo == |routes| then None
    else if RouteMatches(routes[lo], path) then Some(lo)
    else FirstMatch(routes, path, lo + 1)
  }

  /** Route::invoke for each kind of target; a guarded pointer that went away does nothing. */
  function Invoke(t: Target, alive: nat -> bool): (inv: Invocation)
    ensures inv.TargetGone? <==> (t.HandlerTarget? && !alive(t.handler)) || (t.MetaCallTarget? && !alive(t.receiver))
    ensures t.StaticTarget? ==> inv == StaticWritten(t.statusCode, t.headers, t.content)
  {
    match t
    case HandlerTarget(h) => if alive(h) then HandlerCalled(h) else TargetGone
    case MetaCallTarget(o, m) => if alive(o) then MetaCalled(o, m) else TargetGone
    case StaticTarget(code, hs, body) => StaticWritten(code, hs, body)
  }

  /** handleRequest as a value: the first matching route's invocation, or nothing (false). */
  function Dispatch(routes: seq<Route>, path: string, alive: nat -> bool): Option<(nat, Invocation)>
  {
    match FirstMatch(routes, path, 0)
    case None => None
    case Some(i) => Some((i, Invoke(routes[i].target, alive)))
  }

  /** The request is handled exactly when some route's pattern matches its path, and by the first such route. */
  lemma RouteHandlesIffMatch(routes: seq<Route>, path: string, alive: nat -> bool)
    ensures Dispatch(routes, path, alive).Some? <==> exists i :: 0 <= i < |routes| && RouteMatches(routes[i], path)
    ensures Dispatch(routes, path, alive).Some? ==>
      var i := Dispatch(routes, path, alive).value.0;
      i < |routes| && RouteMatches(routes[i], path) && forall j :: 0 <= j < i ==> !RouteMatches(routes[j], path)
  {
  }

  /**
   * A route matches a path exactly when the path is in the route's
   * language, so the outcome never depends on the capture search order.
   */
  lemma RouteMatchesIffLanguage(r: Route, path: string)
    ensures RouteMatches(r, path) <==> exists caps :: Matches(r.tokens, path, caps, QtFlavour)
  {
    SearchExact(r.tokens, path, QtFlavour);
  }

  /**
   * Without the JavaScript router's "/?": a template of named captures and
   * literals that matches a path refuses the same path with a '/' appended.
   */
  lemma TrailingSlashRefused(ts: seq<Token>, s: string)
    requires SegmentTemplate(ts) && Search(ts, s, QtFlavour).Some?
    ensures Search(ts, s + "/", QtFlavour).None?
  {
    SearchSound(ts, s, QtFlavour);
    SlashCount(ts, s, Search(ts, s, QtFlavour).value, QtFlavour);
    SlashesAppend(s, "/");
    assert Slashes("/") == 1;
    SlashMismatch(ts, s + "/", QtFlavour);
  }

  lemma {:induction false} SlashesAppend(s: string, t: string)
    ensures Slashes(s + t) == Slashes(s) + Slashes(t)
  {
    if s == [] {
      assert s + t == t;
    } else {
      assert (s + t)[1..] == s[1..] + t;
      SlashesAppend(s[1..], t);
    }
  }

  class Router {
    /** The routes, in the order they were added. */
    var routes: seq<Route>

    constructor ()
      ensures routes == []
    {
      routes := [];
    }

    /** addRoute(path, handler). */
    method AddHandlerRoute(path: string, handler: nat)
      modifies this
      ensures routes == old(routes) + [MakeRoute(path, HandlerTarget(handler))]
    {
      var pattern, names := PathToRegExp(path);
      routes := routes + [Route(pattern, Tokenize(path), names, HandlerTarget(handler))];
    }

    /** addRoute(path, object, member). */
    method AddMetaCallRoute(path: string, receiver: nat, member: string)
      modifies this
      ensures routes == old(routes) + [MakeRoute(path, MetaCallTarget(receiver, member))]
    {
      var pattern, names := PathToRegExp(path);
      routes := routes + [Route(pattern, Tokenize(path), names, MetaCallTarget(receiver, member))];
    }

    /** addRoute(path, statusCode, headers, content); content defaults to empty. */
    method AddStaticRoute(path: string, statusCode: int, headers: seq<Header>, content: string)
      modifies this
      ensures routes == old(routes) + [MakeRoute(path, StaticTarget(statusCode, headers, content))]
    {
      var pattern, names := PathToRegExp(path);
      routes := routes + [Route(pattern, Tokenize(path), names, StaticTarget(statusCode, headers, content))];
    }

    /**
     * handleRequest: the first route whose pattern finds a match in the
     * path is invoked and the request counts as handled (true), even when
     * its target went away; false when no route matched.
     */
    method HandleRequest(path: string, alive: nat -> bool) returns (handled: bool, inv: Option<Invocation>)
      ensures handled <==> Dispatch(routes, path, alive).Some?
      ensures handled ==> inv == Some(Dispatch(routes, path, alive).value.1)
      ensures !handled ==> inv == None
    {
      var i := 0;
      while i < |routes|
        invariant 0 <= i <= |routes|
        invariant FirstMatch(routes, path, 0) == FirstMatch(routes, path, i)
      {
        if Search(routes[i].tokens, path, QtFlavour).Some? {
          return true, Some(Invoke(routes[i].target, alive));
        }
        i := i + 1;
      }
      return false, None;
    }
  }

  /** Adding a route never changes how a path that an earlier route matched is handled. */
  lemma {:induction false} AddedRouteComesLast(routes: seq<Route>, r: Route, path: string, alive: nat -> bool)
    requires Dispatch(routes, path, alive).Some?
    ensures Dispatch(routes + [r], path, alive) == Dispatch(routes, path, alive)
  {
    FirstMatchPrefix(routes, [r], path, 0);
  }

  lemma {:induction false} FirstMatchPrefix(routes: seq<Route>, more: seq<Route>, path: string, lo: nat)
    requires lo <= |routes| && FirstMatch(routes, path, lo).Some?
    ensures FirstMatch(routes + more, path, lo) == FirstMatch(routes, path, lo)
    decreases |routes| - lo
  {
    assert (routes + more)[lo] == routes[lo];
    if !RouteMatches(routes[lo], path) {
      FirstMatchPrefix(routes, more, path, lo + 1);
    }
  }
}
