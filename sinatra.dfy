/**
 * The Sinatra-style router of the QtScript example (examples/qtscript/test.js):
 * an App holds an ordered list of routes; addRoute compiles a path template
 * into a pattern anchored as "^...\/?$" plus the ordered list of capture
 * names; handleRequest dispatches to the first route whose method and path
 * both match, merges query and path parameters and normalises the handler's
 * result into a call of writeResponseString.
 */
module Sinatra {
  import opened Bytes
  import opened PathTemplate

  /** The script values the router handles: handlers, handler results, arguments. */
  datatype JsValue =
    | JsFunction(id: nat)
    | JsString(s: string)
    | JsNumber(n: int)
    | JsArray(items: seq<JsValue>)
    | JsObject(props: map<string, string>)
    | JsUndefined

  /** The request as the script sees it. */
  datatype Request = Request(requestMethod: string, requestPath: string, requestQueryParams: map<string, string>)

  /**
   * A compiled route: the method pattern (a case-insensitive, unanchored
   * RegExp), the path pattern text, its meaning as tokens, the capture names
   * and the stored handler.
   */
  datatype Route = Route(methodPattern: string, pathPattern: string, tokens: seq<Token>, paramNames: seq<string>, func: JsValue)

  /** What handleRequest did. */
  datatype Outcome =
    | NotMatched
    | Answered(route: nat, params: map<string, string>, write: Option<seq<JsValue>>)
    | Threw(route: nat, params: map<string, string>)

  /** The compiled form addRoute stores for a template. */
  function CompileRoute(verb: string, path: string, func: JsValue): Route
  {
    var ts := Tokenize(path);
    Route(verb, "^" + Render(ts, LazyNamedGroup, SplatGroup) + "/?$", ts, ParamNames(ts), func)
  }

  /** A route declaration as made by the setup function: method, path and the remaining arguments. */
  datatype Declaration = Declaration(verb: string, path: string, extra: seq<JsValue>)

  /** arguments[arguments.length - 1]: the handler is the last argument, whatever it is. */
  function LastArgument(path: string, extra: seq<JsValue>): (f: JsValue)
    ensures extra != [] ==> f == extra[|extra| - 1]
    ensures extra == [] ==> f == JsString(path)
  {
    if extra == [] then JsString(path) else extra[|extra| - 1]
  }

  /** p occurs in s at position i, ignoring case. */
  predicate OccursAt(s: string, i: nat, p: string)
  {
    i + |p| <= |s| && AsciiEqualsCI(s[i..i + |p|], p)
  }

  /** new RegExp(method, 'i') matched against the method: the text occurs somewhere, ignoring case. */
  function ContainsCI(s: string, p: string): (r: bool)
    ensures r <==> exists i: nat :: OccursAt(s, i, p)
    decreases |s|
  {
    if StartsWithCI(s, p) then
      assert OccursAt(s, 0, p);
      true
    else if |s| <= |p| then
      NoLaterOccurrence(s, p);
      false
    else
      OccursShift(s, p);
      ContainsCI(s[1..], p)
  }

  lemma NoLaterOccurrence(s: string, p: string)
    requires |s| <= |p| && !StartsWithCI(s, p)
    ensures forall i: nat :: !OccursAt(s, i, p)
  {
    forall i: nat ensures !OccursAt(s, i, p) {
      if i == 0 && |s| == |p| {
        assert s[0..|p|] == s[..|p|];
      }
    }
  }

  lemma OccursShift(s: string, p: string)
    requires |s| > |p| && !StartsWithCI(s, p)
    ensures (exists i: nat :: OccursAt(s, i, p)) <==> exists i: nat :: OccursAt(s[1..], i, p)
  {
    forall i: nat | OccursAt(s, i, p) ensures OccursAt(s[1..], i - 1, p) {
      assert i != 0 by { assert s[0..|p|] == s[..|p|]; }
      assert s[1..][i - 1..i - 1 + |p|] == s[i..i + |p|];
    }
    forall i: nat | OccursAt(s[1..], i, p) ensures OccursAt(s, i + 1, p) {
      assert s[1..][i..i + |p|] == s[i + 1..i + 1 + |p|];
    }
  }

  predicate RouteMatches(r: Route, req: Request)
  {
    ContainsCI(req.requestMethod, r.methodPattern) && Search(r.tokens, req.requestPath, ScriptFlavour).Some?
  }

  /** The index of the first route, from lo on, that matches. */
  function FirstMatch(routes: seq<Route>, req: Request, lo: nat): (r: Option<nat>)
    requires lo <= |routes|
    ensures r.Some? ==> lo <= r.value < |routes| && RouteMatches(routes[r.value], req)
    ensures r.Some? ==> forall j :: lo <= j < r.value ==> !RouteMatches(routes[j], req)
    ensures r.None? ==> forall j :: lo <= j < |routes| ==> !RouteMatches(routes[j], req)
    decreases |routes| - lo
  {
    if lo == |routes| then None
    else if RouteMatches(routes[lo], req) then Some(lo)
    else FirstMatch(routes, req, lo + 1)
  }

  /** params[paramNames[j]] = match[j + 1], for j in order, over a copy of the query. */
  function AssignParams(params: map<string, string>, names: seq<string>, caps: seq<string>): map<string, string>
    requires |names| == |caps|
    decreases |names|
  {
    if names == [] then params
    else AssignParams(params[names[0] := caps[0]], names[1..], caps[1..])
  }

  /** The last position of name in names, if any. */
  function LastIndexOf(names: seq<string>, name: string): (r: Option<nat>)
    ensures r.Some? ==> r.value < |names| && names[r.value] == name
    ensures r.Some? ==> forall j :: r.value < j < |names| ==> names[j] != name
    ensures r.None? ==> name !in names
  {
    if names == [] then None
    else if names[|names| - 1] == name then Some(|names| - 1)
    else LastIndexOf(names[..|names| - 1], name)
  }

  /**
   * Path values overwrite query values and a repeated name takes the value
   * of its last capture; other keys keep their query value.
   */
  lemma {:induction false} AssignParamsValue(params: map<string, string>, names: seq<string>, caps: seq<string>, k: string)
    requires |names| == |caps|
    ensures k in AssignParams(params, names, caps) <==> k in params || k in names
    ensures LastIndexOf(names, k).Some? ==> AssignParams(params, names, caps)[k] == caps[LastIndexOf(names, k).value]
    ensures k !in names && k in params ==> AssignParams(params, names, caps)[k] == params[k]
    decreases |names|
  {
    if names != [] {
      AssignParamsValue(params[names[0] := caps[0]], names[1..], caps[1..], k);
      var li := LastIndexOf(names, k);
      var lt := LastIndexOf(names[1..], k);
      if lt.Some? {
        LastIndexShift(names, k);
      } else if k == names[0] {
        assert k !in names[1..];
        LastIndexShift(names, k);
      } else {
        LastIndexShift(names, k);
      }
    }
  }

  /** LastIndexOf on a list relates to LastIndexOf on its tail. */
  lemma LastIndexShift(names: seq<string>, k: string)
    requires names != []
    ensures LastIndexOf(names[1..], k).Some? ==> LastIndexOf(names, k) == Some(LastIndexOf(names[1..], k).value + 1)
    ensures LastIndexOf(names[1..], k).None? ==> LastIndexOf(names, k) == (if names[0] == k then Some(0) else None)
  {
    var l := LastIndexOf(names, k);
    var t := LastIndexOf(names[1..], k);
    if t.Some? {
      assert names[t.value + 1] == k;
      LastIndexUnique(names, k, t.value + 1);
    } else {
      assert forall j :: 1 <= j < |names| ==> names[j] == names[1..][j - 1];
      if names[0] == k {
        LastIndexUnique(names, k, 0);
      }
    }
  }

  lemma LastIndexUnique(names: seq<string>, k: string, i: nat)
    requires i < |names| && names[i] == k
    requires forall j :: i < j < |names| ==> names[j] != k
    ensures LastIndexOf(names, k) == Some(i)
  {
  }

  /** The first three items of an array result, undefined where missing. */
  function Item(items: seq<JsValue>, i: nat): JsValue
  {
    if i < |items| then items[i] else JsUndefined
  }

  /**
   * The arguments handed to writeResponseString for a handler result, or
   * None when the result is not an array, a string or a number.
   */
  function WriteArguments(result: JsValue): (w: Option<seq<JsValue>>)
  {
    match result
    case JsArray(items) => Some([Item(items, 0), Item(items, 1), Item(items, 2)])
    case JsString(s) => Some([JsNumber(200), JsObject(map[]), JsString(s)])
    case JsNumber(n) => Some([JsNumber(n)])
    case _ => None
  }

  /** A string result is answered exactly as the array [200, {}, s]. */
  lemma StringResultIsArrayResult(s: string)
    ensures WriteArguments(JsString(s)) == WriteArguments(JsArray([JsNumber(200), JsObject(map[]), JsString(s)]))
  {
  }

  /** Only the three result kinds write a response; anything else writes nothing. */
  lemma WriteArgumentsKinds(result: JsValue)
    ensures WriteArguments(result).Some? <==> result.JsArray? || result.JsString? || result.JsNumber?
    ensures WriteArguments(result).Some? ==> 1 <= |WriteArguments(result).value| <= 3
  {
  }

  /** The whole of handleRequest for a route list and a handler oracle. */
  function Dispatch(routes: seq<Route>, req: Request, call: (nat, map<string, string>) -> JsValue): Outcome
  {
    match FirstMatch(routes, req, 0)
    case None => NotMatched
    case Some(i) =>
      var r := routes[i];
      var caps := Search(r.tokens, req.requestPath, ScriptFlavour).value;
      if |caps| != |r.paramNames| then NotMatched
      else
        var params := AssignParams(req.requestQueryParams, r.paramNames, caps);
        if r.func.JsFunction? then Answered(i, params, WriteArguments(call(r.func.id, params)))
        else Threw(i, params)
  }

  /** A route list in which every route was compiled by addRoute. */
  predicate Compiled(routes: seq<Route>)
  {
    forall i :: 0 <= i < |routes| ==> routes[i].paramNames == ParamNames(routes[i].tokens)
  }

  /**
   * Declaration-order precedence: the first matching route answers, later
   * routes are never consulted, and no route answers when none matches.
   */
  lemma DispatchFirstMatch(routes: seq<Route>, req: Request, call: (nat, map<string, string>) -> JsValue)
    requires Compiled(routes)
    ensures Dispatch(routes, req, call).NotMatched? <==> forall j :: 0 <= j < |routes| ==> !RouteMatches(routes[j], req)
    ensures !Dispatch(routes, req, call).NotMatched? ==>
      var i := Dispatch(routes, req, call).route;
      i < |routes| && RouteMatches(routes[i], req) && forall j :: 0 <= j < i ==> !RouteMatches(routes[j], req)
  {
    var m := FirstMatch(routes, req, 0);
    if m.Some? {
      var r := routes[m.value];
      ParamNamesCount(r.tokens);
    }
  }

  /** Adding a route never changes the answer to a request an earlier route matches. */
  lemma AddRouteKeepsEarlierWinners(routes: seq<Route>, r: Route, req: Request, call: (nat, map<string, string>) -> JsValue)
    requires FirstMatch(routes, req, 0).Some?
    ensures Dispatch(routes + [r], req, call) == Dispatch(routes, req, call)
  {
    FirstMatchPrefix(routes, [r], req, 0);
  }

  lemma {:induction false} FirstMatchPrefix(routes: seq<Route>, more: seq<Route>, req: Request, lo: nat)
    requires lo <= |routes|
    requires FirstMatch(routes, req, lo).Some?
    ensures FirstMatch(routes + more, req, lo) == FirstMatch(routes, req, lo)
    decreases |routes| - lo
  {
    assert (routes + more)[lo] == routes[lo];
    if !RouteMatches(routes[lo], req) {
      FirstMatchPrefix(routes, more, req, lo + 1);
    }
  }

  /** The parameters of a match: query values, overwritten by the path captures. */
  lemma DispatchParams(routes: seq<Route>, req: Request, call: (nat, map<string, string>) -> JsValue, k: string)
    requires Compiled(routes)
    requires !Dispatch(routes, req, call).NotMatched?
    ensures var o := Dispatch(routes, req, call);
      var r := routes[o.route];
      var caps := Search(r.tokens, req.requestPath, ScriptFlavour).value;
      (k in o.params <==> k in req.requestQueryParams || k in r.paramNames)
      && (LastIndexOf(r.paramNames, k).Some? ==> o.params[k] == caps[LastIndexOf(r.paramNames, k).value])
      && (k !in r.paramNames && k in req.requestQueryParams ==> o.params[k] == req.requestQueryParams[k])
  {
    var o := Dispatch(routes, req, call);
    var r := routes[o.route];
    var caps := Search(r.tokens, req.requestPath, ScriptFlavour).value;
    ParamNamesCount(r.tokens);
    AssignParamsValue(req.requestQueryParams, r.paramNames, caps, k);
  }

  /** Every route list the setup function declares is compiled. */
  lemma {:induction false} CompileAllCompiled(ds: seq<Declaration>)
    ensures Compiled(App.CompileAll(ds))
    decreases |ds|
  {
    if ds != [] {
      CompileAllCompiled(ds[..|ds| - 1]);
    }
  }

  class App {
    /** this.routes, in registration order. */
    var routes: seq<Route>

    /**
     * Sinatra.App(setupFunc): an empty route list, then the routes the setup
     * function declares when setupFunc is a function.
     */
    constructor (setup: JsValue, declarations: seq<Declaration>)
      ensures setup.JsFunction? ==> routes == CompileAll(declarations)
      ensures !setup.JsFunction? ==> routes == []
      ensures Compiled(routes)
    {
      routes := [];
      new;
      if setup.JsFunction? {
        var i := 0;
        while i < |declarations|
          invariant 0 <= i <= |declarations|
          invariant routes == CompileAll(declarations[..i])
          invariant Compiled(routes)
        {
          var d := declarations[i];
          AddRoute(d.verb, d.path, d.extra);
          assert declarations[..i + 1] == declarations[..i] + [d];
          i := i + 1;
        }
        assert declarations[..i] == declarations;
      }
    }

    static function CompileAll(ds: seq<Declaration>): seq<Route>
    {
      if ds == [] then []
      else
        var d := ds[|ds| - 1];
        CompileAll(ds[..|ds| - 1]) + [CompileRoute(d.verb, d.path, LastArgument(d.path, d.extra))]
    }

    /**
     * addRoute(method, path, ...): the names of ":" captures then "*" captures,
     * the pattern with both kinds replaced, appended after the existing routes.
     * The handler check never fires, so any last argument is stored.
     */
    method AddRoute(verb: string, path: string, extra: seq<JsValue>)
      requires Compiled(routes)
      modifies this
      ensures Compiled(routes)
      ensures routes == old(routes) + [CompileRoute(verb, path, LastArgument(path, extra))]
    {
      var func := LastArgument(path, extra);
      var named := CollectNames(path, ':');
      var splats := CollectNames(path, '*');
      var pattern := ReplaceMarkers(path, ':', LazyNamedGroup);
      pattern := ReplaceMarkers(pattern, '*', SplatGroup);
      TokenizeNames(path);
      GroupsInert();
      SplatPassAfterNamedPass(path, LazyNamedGroup, SplatGroup);
      routes := routes + [Route(verb, "^" + pattern + "/?$", Tokenize(path), named + splats, func)];
    }

    method Get(path: string, func: JsValue)
      requires Compiled(routes)
      modifies this
      ensures Compiled(routes)
      ensures routes == old(routes) + [CompileRoute("GET", path, func)]
    {
      AddRoute("GET", path, [func]);
    }

    method Post(path: string, func: JsValue)
      requires Compiled(routes)
      modifies this
      ensures Compiled(routes)
      ensures routes == old(routes) + [CompileRoute("POST", path, func)]
    {
      AddRoute("POST", path, [func]);
    }

    method Put(path: string, func: JsValue)
      requires Compiled(routes)
      modifies this
      ensures Compiled(routes)
      ensures routes == old(routes) + [CompileRoute("PUT", path, func)]
    {
      AddRoute("PUT", path, [func]);
    }

    method Delete(path: string, func: JsValue)
      requires Compiled(routes)
      modifies this
      ensures Compiled(routes)
      ensures routes == old(routes) + [CompileRoute("DELETE", path, func)]
    {
      AddRoute("DELETE", path, [func]);
    }

    /**
     * handleRequest: the routes are tried in order; the first whose method
     * and path match gets the parameters and is called, and its result is
     * written.  True (Answered) when a route matched, false when none did.
     */
    method HandleRequest(req: Request, call: (nat, map<string, string>) -> JsValue) returns (o: Outcome)
      requires Compiled(routes)
      ensures o == Dispatch(routes, req, call)
    {
      var i := 0;
      while i < |routes|
        invariant 0 <= i <= |routes|
        invariant FirstMatch(routes, req, 0) == FirstMatch(routes, req, i)
      {
        var route := routes[i];
        var m := Search(route.tokens, req.requestPath, ScriptFlavour);
        if ContainsCI(req.requestMethod, route.methodPattern) && m.Some? {
          var params := req.requestQueryParams;
          var caps := m.value;
          ParamNamesCount(route.tokens);
          var j := 0;
          while j < |route.paramNames|
            invariant 0 <= j <= |route.paramNames|
            invariant AssignParams(req.requestQueryParams, route.paramNames, caps)
                   == AssignParams(params, route.paramNames[j..], caps[j..])
          {
            params := params[route.paramNames[j] := caps[j]];
            assert route.paramNames[j..][1..] == route.paramNames[j + 1..];
            assert caps[j..][1..] == caps[j + 1..];
            j := j + 1;
          }
          if !route.func.JsFunction? {
            return Threw(i, params);
          }
          var result := call(route.func.id, params);
          return Answered(i, params, WriteArguments(result));
        }
        i := i + 1;
      }
      return NotMatched;
    }
  }

  // ---------------------------------------------------------------------
  // Routes of the example application
  // ---------------------------------------------------------------------

  lemma WorldIdTokens()
    ensures Tokenize("/world/:id") == Lits("/world/") + [Named("id")]
  {
    LiteralsThenNamed("/world/", "id");
    assert "/world/" + ([':'] + "id") == "/world/:id";
  }

  /** Literal text followed by one named parameter that ends the template. */
  lemma LiteralsThenNamed(w: string, name: string)
    requires ':' !in w && '*' !in w
    requires |name| >= 1 && AllWordChars(name)
    ensures Tokenize(w + ([':'] + name)) == Lits(w) + [Named(name)]
  {
    var marker := [':'] + name;
    TokenizeLiterals(w, marker);
    TokenizeMarker(':', name, "");
    assert marker + "" == marker;
    assert Tokenize("") == [];
  }

  /** '/world/:id' captures the last segment of '/world/42'. */
  lemma WorldIdCaptures()
    ensures Search(Tokenize("/world/:id"), "/world/42", ScriptFlavour) == Some(["42"])
  {
    var w: string := "/world/";
    var x: string := "42";
    SearchFinalNamed("id", x, "", ScriptFlavour);
    assert x + "" == x;
    SearchLits(w, [Named("id")], x, ScriptFlavour);
    assert Search(Lits(w) + [Named("id")], w + x, ScriptFlavour) == Some([x]);
    WorldIdTokens();
    assert w + x == "/world/42";
  }

  /** ... and of '/world/42/', whose trailing '/' the pattern tolerates. */
  lemma WorldIdCapturesWithSlash()
    ensures Search(Tokenize("/world/:id"), "/world/42/", ScriptFlavour) == Some(["42"])
  {
    var w: string := "/world/";
    var x: string := "42";
    var y: string := "/";
    SearchFinalNamed("id", x, y, ScriptFlavour);
    SearchLits(w, [Named("id")], x + y, ScriptFlavour);
    assert Search(Lits(w) + [Named("id")], w + (x + y), ScriptFlavour) == Some([x]);
    WorldIdTokens();
    assert w + (x + y) == "/world/42/";
  }

  // A splat, then a named parameter, each after a '/': "/*" + a + "/:" + b.
  lemma SplatThenNamedTokens(a: string, b: string)
    requires |a| >= 1 && AllWordChars(a) && |b| >= 1 && AllWordChars(b)
    ensures Tokenize("/*" + a + "/:" + b) == [Lit('/'), Splat(a), Lit('/'), Named(b)]
  {
    var slash: string := ['/'];
    var tail := slash + ([':'] + b);
    LiteralsThenNamed(slash, b);
    TokenizeMarker('*', a, tail);
    TokenizeLiterals(slash, ['*'] + a + tail);
    assert Lits(slash) == [Lit('/')];
    assert slash + (['*'] + a + tail) == "/*" + a + "/:" + b;
  }

  /**
   * addRoute lists the named parameter before the splat, while the groups of
   * the pattern come in template order: the two lists disagree.
   */
  lemma SplatThenNamedNames(a: string, b: string)
    ensures ParamNames([Lit('/'), Splat(a), Lit('/'), Named(b)]) == [b, a]
    ensures PositionalNames([Lit('/'), Splat(a), Lit('/'), Named(b)]) == [a, b]
  {
    var t3 := [Named(b)];
    var t2 := [Lit('/')] + t3;
    var t1 := [Splat(a)] + t2;
    assert t3 == [Named(b)] + [];
    NamesCons(Named(b), []);
    NamesCons(Lit('/'), t3);
    NamesCons(Splat(a), t2);
    NamesCons(Lit('/'), t1);
    assert [Lit('/')] + t1 == [Lit('/'), Splat(a), Lit('/'), Named(b)];
    assert [a] + [b] == [a, b];
  }

  /** The splat may run over the whole of "x/y": no line break stops it. */
  lemma SegmentsDotRun(x: string, y: string)
    requires AllSegmentChars(x) && AllSegmentChars(y)
    ensures DotRun(x + "/" + y, ScriptFlavour) == |x + "/" + y|
  {
    var s := x + "/" + y;
    forall i | 0 <= i < |s| ensures DotMatches(s[i], ScriptFlavour) {
      if i < |x| { assert s[i] == x[i]; }
      else if i > |x| { assert s[i] == y[i - |x| - 1]; }
    }
  }

  /** A cut beyond x leaves a piece of y, which holds no '/' for the literal to meet. */
  lemma LongerSplatCutsFail(b: string, x: string, y: string)
    requires AllSegmentChars(y)
    ensures var s := x + "/" + y;
      forall k :: |x| < k <= |s| ==> Search([Lit('/'), Named(b)], s[k..], ScriptFlavour).None?
  {
    var s := x + "/" + y;
    forall k | |x| < k <= |s| ensures Search([Lit('/'), Named(b)], s[k..], ScriptFlavour).None? {
      if k < |s| {
        assert s[k..][0] == y[k - |x| - 1];
      }
    }
  }

  /** The named group alone takes the segment after the separator. */
  lemma SeparatorThenNamed(b: string, y: string)
    requires |y| >= 1 && AllSegmentChars(y)
    ensures Search([Lit('/'), Named(b)], "/" + y, ScriptFlavour) == Some([y])
  {
    assert [Lit('/'), Named(b)][1..] == [Named(b)];
    assert ("/" + y)[1..] == y + "";
    SearchFinalNamed(b, y, "", ScriptFlavour);
  }

  /** The splat's cuts, tried from the longest, stop at x. */
  lemma SplatCutsStopAtX(a: string, b: string, x: string, y: string)
    requires |y| >= 1 && AllSegmentChars(y)
    ensures TryCuts([Splat(a), Lit('/'), Named(b)], x + "/" + y, Down(|x + "/" + y|, 0), ScriptFlavour) == Some([x, y])
  {
    var f := ScriptFlavour;
    var rest := [Splat(a), Lit('/'), Named(b)];
    var tail := [Lit('/'), Named(b)];
    var s := x + "/" + y;
    assert rest[1..] == tail;
    LongerSplatCutsFail(b, x, y);
    assert s[|x|..] == "/" + y && s[..|x|] == x;
    SeparatorThenNamed(b, y);
    TryCutsDownFinds(rest, s, |s|, |x|, f);
    assert [x] + [y] == [x, y];
  }

  /** After the leading '/', the greedy splat backs off to x and the named group takes y. */
  lemma SplatBacksOff(a: string, b: string, x: string, y: string)
    requires AllSegmentChars(x) && |y| >= 1 && AllSegmentChars(y)
    ensures Search([Splat(a), Lit('/'), Named(b)], x + "/" + y, ScriptFlavour) == Some([x, y])
  {
    var rest := [Splat(a), Lit('/'), Named(b)];
    var s := x + "/" + y;
    SegmentsDotRun(x, y);
    assert Search(rest, s, ScriptFlavour) == TryCuts(rest, s, Down(|s|, 0), ScriptFlavour);
    SplatCutsStopAtX(a, b, x, y);
  }

  /** On "/" + x + "/" + y the splat captures x and the named group y. */
  lemma SplatThenNamedCaptures(a: string, b: string, x: string, y: string)
    requires AllSegmentChars(x) && |y| >= 1 && AllSegmentChars(y)
    ensures Search([Lit('/'), Splat(a), Lit('/'), Named(b)], "/" + x + "/" + y, ScriptFlavour) == Some([x, y])
  {
    var rest := [Splat(a), Lit('/'), Named(b)];
    assert Lits("/") + rest == [Lit('/'), Splat(a), Lit('/'), Named(b)];
    assert "/" + (x + "/" + y) == "/" + x + "/" + y;
    SearchLits("/", rest, x + "/" + y, ScriptFlavour);
    SplatBacksOff(a, b, x, y);
  }

  // Dispatching "/" + x + "/" + y to "/*" + a + "/:" + b binds each value to
  // the other's name: the splat's x lands on b and the named y on a, over the
  // query parameters.
  lemma SplatThenNamedSwaps(m: string, verb: string, a: string, b: string, id: nat, x: string, y: string,
                            q: map<string, string>, call: (nat, map<string, string>) -> JsValue)
    requires ContainsCI(m, verb)
    requires |a| >= 1 && AllWordChars(a) && |b| >= 1 && AllWordChars(b)
    requires AllSegmentChars(x) && |y| >= 1 && AllSegmentChars(y)
    ensures var o := Dispatch([CompileRoute(verb, "/*" + a + "/:" + b, JsFunction(id))], Request(m, "/" + x + "/" + y, q), call);
      o.Answered? && o.params == q[b := x][a := y]
  {
    var r := CompileRoute(verb, "/*" + a + "/:" + b, JsFunction(id));
    var req := Request(m, "/" + x + "/" + y, q);
    SplatThenNamedTokens(a, b);
    SplatThenNamedNames(a, b);
    SplatThenNamedCaptures(a, b, x, y);
    assert RouteMatches(r, req);
    assert FirstMatch([r], req, 0) == Some(0);
    assert [b, a][1..] == [a] && [x, y][1..] == [y];
    assert [a][1..] == [] && [y][1..] == [];
    assert AssignParams(q[b := x][a := y], [], []) == q[b := x][a := y];
    assert AssignParams(q[b := x], [a], [y]) == q[b := x][a := y];
  }

  // The route "/*a/:b" with the path "/x/y": a == "y" and b == "x".
  lemma SplatThenNamedExample(call: (nat, map<string, string>) -> JsValue)
    ensures var o := Dispatch([CompileRoute("GET", "/*a/:b", JsFunction(0))], Request("GET", "/x/y", map[]), call);
      o.Answered? && o.params == map["b" := "x", "a" := "y"]
  {
    assert OccursAt("GET", 0, "GET");
    assert "/*" + "a" + "/:" + "b" == "/*a/:b";
    assert "/" + "x" + "/" + "y" == "/x/y";
    SplatThenNamedSwaps("GET", "GET", "a", "b", 0, "x", "y", map[], call);
  }
}
