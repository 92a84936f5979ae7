/** redstore.c: which handler answers a request. */
module Handlers {
  import opened Text
  import opened Lines
  import opened Routing
  import opened Allow
  import opened Servers
  import opened RedStoreRoutes

  // ----- what the table says, in literal methods and paths -----

  /** The handler of the application for a method and path. */
  function HandlerFor(name: string, path: string): Option<Handler> {
    if IsDataPath(path) then
      if name == "GET" then Some(DataGet) else if name == "HEAD" then Some(DataHead)
      else if name == "PUT" then Some(DataPut) else if name == "POST" then Some(DataPost)
      else if name == "DELETE" then Some(DataDelete) else None
    else if name == "GET" then
      if path == "/" then Some(Home)
      else if path == "/query" then Some(Query)
      else if path == "/sparql" || path == "/sparql/" then Some(Sparql)
      else if path == "/insert" then Some(UpdateForm("Insert Triples"))
      else if path == "/delete" then Some(UpdateForm("Delete Triples"))
      else if path == "/graphs" then Some(GraphIndex)
      else if path == "/load" then Some(LoadForm)
      else if path == "/description" then Some(Description)
      else if path == "/favicon.ico" then Some(Favicon)
      else if path == "/robots.txt" then Some(Robots)
      else None
    else if name == "POST" then
      if path == "/query" then Some(Query)
      else if path == "/sparql" || path == "/sparql/" then Some(Sparql)
      else if path == "/insert" then Some(InsertPost)
      else if path == "/delete" then Some(DeletePost)
      else if path == "/load" then Some(LoadPost)
      else None
    else None
  }

  predicate IsDataPath(path: string) { |path| >= 5 && path[..5] == "/data" }

  /** What a data handler sees of the path. */
  function GlobFor(path: string): Option<string> {
    if IsDataPath(path) && |path| > 5 then Some(path[5..]) else None
  }

  // ----- the position of the handler in the table -----

  /** The application route of a method and path in the table; -1 if there is none. */
  function RouteOf(name: string, path: string): int {
    if IsDataPath(path) then
      if name == "HEAD" then 9 else if name == "GET" then 10 else if name == "PUT" then 11
      else if name == "POST" then 12 else if name == "DELETE" then 13 else -1
    else if name == "GET" then
      if path == "/query" then 3 else if path == "/sparql" then 4 else if path == "/sparql/" then 5
      else if path == "/insert" then 14 else if path == "/delete" then 16
      else if path == "/graphs" then 18 else if path == "/load" then 19 else if path == "/" then 21
      else if path == "/description" then 22 else if path == "/favicon.ico" then 23
      else if path == "/robots.txt" then 24 else -1
    else if name == "POST" then
      if path == "/query" then 6 else if path == "/sparql" then 7 else if path == "/sparql/" then 8
      else if path == "/insert" then 15 else if path == "/delete" then 17 else if path == "/load" then 20 else -1
    else -1
  }

  lemma RouteIffHandler(name: string, path: string)
    ensures HandlerFor(name, path).Some? <==> 3 <= RouteOf(name, path) < 25
    ensures HandlerFor(name, path).None? <==> RouteOf(name, path) == -1
  {}

  /** The route runs the handler for the request, and shows it its part of the path. */
  ghost predicate Serves<A(!new)>(app: App<A>, route: Route<Globals<A>>, name: string, path: string)
    requires IsRoute(route)
  {
    && HandlerFor(name, path).Some? && RunsHandler(app, route, HandlerFor(name, path).value)
    && GlobAfter(route, Call(name, path, None)) == GlobFor(path)
  }

  /** Of the routes, which stand in the table from position `at` on, the one for the request matches and
      serves it, and no other matches. */
  ghost predicate AreRouted<A(!new)>(app: App<A>, routes: seq<Route<Globals<A>>>, at: int, name: string, path: string) {
    IsTable(routes) && forall i :: 0 <= i < |routes| ==> IsRouted(app, routes[i], at + i, name, path)
  }

  ghost predicate IsRouted<A(!new)>(app: App<A>, route: Route<Globals<A>>, at: int, name: string, path: string)
    requires IsRoute(route)
  {
    && (Matches(route, name, path) <==> RouteOf(name, path) == at)
    && (RouteOf(name, path) == at ==> Serves(app, route, name, path) && path != "*")
  }

  lemma DataPathStarts(path: string)
    requires IsDataPath(path)
    ensures path[1] == 'd' && path[2] == 'a'
  {
    assert path[1] == path[..5][1] && path[2] == path[..5][2];
  }

  lemma PlainRouted<A(!new)>(app: App<A>, method_: string, route: string, handler: Handler, at: int, name: string,
                             path: string)
    requires route != "" && route[|route| - 1] != '*' && route != "*"
    requires RouteOf(name, path) == at <==> name == method_ && path == route
    requires name == method_ && path == route ==> HandlerFor(name, path) == Some(handler) && !IsDataPath(path)
    ensures IsRouted(app, AppRoute(app, method_, route, handler), at, name, path)
  {
    PathMatchesItself(AppRoute(app, method_, route, handler), Call(name, path, None));
    assert RunsHandler(app, AppRoute(app, method_, route, handler), handler);
  }

  lemma DataRouted<A(!new)>(app: App<A>, method_: string, handler: Handler, at: int, name: string, path: string)
    requires RouteOf(name, path) == at <==> name == method_ && IsDataPath(path)
    requires forall p :: IsDataPath(p) ==> HandlerFor(method_, p) == Some(handler)
    ensures IsRouted(app, AppRoute(app, method_, "/data*", handler), at, name, path)
  {
    var route := AppRoute(app, method_, "/data*", handler);
    assert "/data*" == "/data" + "*";
    GlobMatchesPrefix(route, "/data", Call(name, path, None));
    assert RunsHandler(app, route, handler);
  }

  lemma QueryRouted<A(!new)>(app: App<A>, name: string, path: string)
    ensures AreRouted(app, QueryRoutes(app), 3, name, path)
  {
    if IsDataPath(path) { DataPathStarts(path); }
    PlainRouted(app, "GET", "/query", Query, 3, name, path);
    PlainRouted(app, "GET", "/sparql", Sparql, 4, name, path);
    PlainRouted(app, "GET", "/sparql/", Sparql, 5, name, path);
    PlainRouted(app, "POST", "/query", Query, 6, name, path);
    PlainRouted(app, "POST", "/sparql", Sparql, 7, name, path);
    PlainRouted(app, "POST", "/sparql/", Sparql, 8, name, path);
  }

  lemma DataAreRouted<A(!new)>(app: App<A>, name: string, path: string)
    ensures AreRouted(app, DataRoutes(app), 9, name, path)
  {
    DataRouted(app, "HEAD", DataHead, 9, name, path);
    DataRouted(app, "GET", DataGet, 10, name, path);
    DataRouted(app, "PUT", DataPut, 11, name, path);
    DataRouted(app, "POST", DataPost, 12, name, path);
    DataRouted(app, "DELETE", DataDelete, 13, name, path);
  }

  lemma UpdateRouted<A(!new)>(app: App<A>, name: string, path: string)
    ensures AreRouted(app, UpdateRoutes(app), 14, name, path)
  {
    if IsDataPath(path) { DataPathStarts(path); }
    PlainRouted(app, "GET", "/insert", UpdateForm("Insert Triples"), 14, name, path);
    PlainRouted(app, "POST", "/insert", InsertPost, 15, name, path);
    PlainRouted(app, "GET", "/delete", UpdateForm("Delete Triples"), 16, name, path);
    PlainRouted(app, "POST", "/delete", DeletePost, 17, name, path);
  }

  lemma PageRouted<A(!new)>(app: App<A>, name: string, path: string)
    ensures AreRouted(app, PageRoutes(app), 18, name, path)
  {
    var front, back := PageRoutes(app)[..3], PageRoutes(app)[3..];
    GraphsAndLoadRouted(app, name, path);
    OtherPagesRouted(app, name, path);
    RoutedConcat(app, front, back, 18, name, path);
    assert front + back == PageRoutes(app);
  }

  lemma GraphsAndLoadRouted<A(!new)>(app: App<A>, name: string, path: string)
    ensures AreRouted(app, PageRoutes(app)[..3], 18, name, path)
  {
    if IsDataPath(path) { DataPathStarts(path); }
    PlainRouted(app, "GET", "/graphs", GraphIndex, 18, name, path);
    PlainRouted(app, "GET", "/load", LoadForm, 19, name, path);
    PlainRouted(app, "POST", "/load", LoadPost, 20, name, path);
  }

  lemma OtherPagesRouted<A(!new)>(app: App<A>, name: string, path: string)
    ensures AreRouted(app, PageRoutes(app)[3..], 21, name, path)
  {
    if IsDataPath(path) { DataPathStarts(path); }
    PlainRouted(app, "GET", "/", Home, 21, name, path);
    PlainRouted(app, "GET", "/description", Description, 22, name, path);
    PlainRouted(app, "GET", "/favicon.ico", Favicon, 23, name, path);
    PlainRouted(app, "GET", "/robots.txt", Robots, 24, name, path);
  }

  lemma RoutedConcat<A(!new)>(app: App<A>, a: seq<Route<Globals<A>>>, b: seq<Route<Globals<A>>>, at: int,
                              name: string, path: string)
    requires AreRouted(app, a, at, name, path) && AreRouted(app, b, at + |a|, name, path)
    ensures AreRouted(app, a + b, at, name, path)
  {
    forall i | 0 <= i < |a + b| ensures IsRouted(app, (a + b)[i], at + i, name, path) {
      if i >= |a| { assert IsRouted(app, b[i - |a|], at + |a| + (i - |a|), name, path); }
    }
  }

  lemma AppRoutesRouted<A(!new)>(app: App<A>, name: string, path: string)
    ensures AreRouted(app, AppRoutes(app), 3, name, path)
  {
    var queries, data, updates, pages := QueryRoutes(app), DataRoutes(app), UpdateRoutes(app), PageRoutes(app);
    QueryRouted(app, name, path);
    DataAreRouted(app, name, path);
    UpdateRouted(app, name, path);
    PageRouted(app, name, path);
    RoutedConcat(app, queries, data, 3, name, path);
    RoutedConcat(app, queries + data, updates, 3, name, path);
    RoutedConcat(app, queries + data + updates, pages, 3, name, path);
  }

  /** A request matches the application route that it is routed to and no other; none has the path `*`. */
  lemma TableIsRouted<A(!new)>(app: App<A>, name: string, path: string)
    requires IsTable(Table(app))
    ensures forall h :: 3 <= h < 25 ==> IsRouted(app, Table(app)[h], h, name, path)
  {
    TableShape(app);
    AppRoutesRouted(app, name, path);
    forall h | 3 <= h < 25 ensures IsRouted(app, Table(app)[h], h, name, path) {
      assert IsRouted(app, AppRoutes(app)[h - 3], 3 + (h - 3), name, path);
    }
  }

  // ----- the steps behind the filters -----

  /** Routes that do not match do nothing. */
  lemma {:induction false} Skip<S>(routes: seq<Route<S>>, i: nat, h: nat, state: S, call: Call)
    requires IsTable(routes) && i <= h <= |routes|
    requires forall j :: i <= j < h ==> !Matches(routes[j], call.name, call.path)
    ensures RunFrom(routes, i, state, call) == RunFrom(routes, h, state, call)
    decreases h - i
  {
    if i < h { Skip(routes, i + 1, h, state, call); }
  }

  /** What the two last handlers answer: a GET of a path with a slash at its end is redirected. */
  function LastAnswer(name: string, path: string): Response {
    if name == "GET" && path != "" && path[|path| - 1] == '/' then Response(301, None, None)
    else Response(404, Some("Unsupported path."), None)
  }

  /** The two last handlers change nothing, and one of them answers. */
  lemma LastsChangeNothing<A>(routes: seq<Route<Globals<A>>>, g: Globals<A>, call: Call)
    requires IsTable(routes) && |routes| == 27
    requires routes[25] == Route(Some("GET"), None, RemoveTrailingSlash)
    requires routes[26] == Route(None, None, HandleNotFound)
    ensures var ran := RunFrom(routes, 25, g, call);
            && ran.after == g && ran.response == Some(LastAnswer(call.name, call.path)) && |ran.steps| > 0
            && forall k :: 0 <= k < |ran.steps| ==> ran.steps[k].before == g && ran.steps[k].handler >= 25
  {
    assert RunFrom(routes, 26, g, call).steps == [Step(26, g, call)];
  }

  // ----- what a request runs -----

  /** From step k on only the two last handlers are called. */
  predicate NoAppHandlerFrom<A>(steps: seq<Step<Globals<A>>>, k: nat) {
    forall j :: k <= j < |steps| ==> steps[j].handler >= 25
  }

  /** Behind the filters, with the request counted and the error buffer empty. */
  function Behind3<A>(g: Globals<A>): Globals<A> {
    Globals((g.requestCount + 1) % 0x1_0000_0000_0000_0000, None, g.app)
  }

  lemma RestWithout<A(!new)>(app: App<A>, g: Globals<A>, name: string, path: string)
    requires IsTable(Table(app)) && HandlerFor(name, path) == None
    ensures var ran := RunFrom(Table(app), 3, g, Call(name, path, None));
            ran.after == g && ran.response == Some(LastAnswer(name, path)) && NoAppHandlerFrom(ran.steps, 0)
  {
    var table, call := Table(app), Call(name, path, None);
    TableShape(app);
    TableIsRouted(app, name, path);
    forall h | 3 <= h < 25 ensures !Matches(table[h], name, path) { assert IsRouted(app, table[h], h, name, path); }
    Skip(table, 3, 25, g, call);
    LastsChangeNothing(table, g, call);
  }

  lemma RestWith<A(!new)>(app: App<A>, g: Globals<A>, name: string, path: string)
    requires IsTable(Table(app)) && HandlerFor(name, path).Some?
    ensures var ran, call := RunFrom(Table(app), 3, g, Call(name, path, None)), Call(name, path, GlobFor(path));
            var answer := app(HandlerFor(name, path).value, g, call);
            && |ran.steps| > 0 && ran.steps[0].before == g && ran.steps[0].call == call
            && 3 <= ran.steps[0].handler < 25 && NoAppHandlerFrom(ran.steps, 1) && ran.after == answer.0
            && ran.response == if answer.1.Some? then answer.1 else Some(LastAnswer(name, path))
  {
    var table, call := Table(app), Call(name, path, None);
    var h := RouteOf(name, path);
    TableShape(app);
    TableIsRouted(app, name, path);
    RouteIffHandler(name, path);
    assert IsRouted(app, table[h], h, name, path);
    forall j | 3 <= j < 25 && j != h ensures !Matches(table[j], name, path) {
      assert IsRouted(app, table[j], j, name, path);
    }
    Skip(table, 3, h, g, call);
    var seen := Call(name, path, GlobFor(path));
    var answer := table[h].run(g, seen);
    if answer.1.None? {
      Skip(table, h + 1, 25, answer.0, seen);
      LastsChangeNothing(table, answer.0, seen);
    }
  }

  /** Behind the filters a request for a path other than `*` runs exactly the handler for its method and path,
      if there is one, and one of the two last handlers answers what that does not. */
  lemma DispatchRuns<A(!new)>(app: App<A>, g: Globals<A>, name: string, path: string)
    requires path != "*"
    ensures IsTable(Table(app))
    ensures var ran := Dispatched(Table(app), g, Call(name, path, None));
            match HandlerFor(name, path)
            case None =>
              ran.after == Behind3(g) && ran.response == Some(LastAnswer(name, path)) && NoAppHandlerFrom(ran.steps, 3)
            case Some(handler) =>
              var call := Call(name, path, GlobFor(path));
              var answer := app(handler, Behind3(g), call);
              && |ran.steps| > 3 && ran.steps[3].before == Behind3(g) && ran.steps[3].call == call
              && NoAppHandlerFrom(ran.steps, 4) && ran.after == answer.0
              && ran.response == if answer.1.Some? then answer.1 else Some(LastAnswer(name, path))
  {
    var table, call := Table(app), Call(name, path, None);
    TableShape(app);
    FiltersRun(table, g, call);
    var rest := RunFrom(table, 3, Filtered(g), call);
    assert Filtered(g) == Behind3(g);
    if HandlerFor(name, path).None? {
      RestWithout(app, Filtered(g), name, path);
    } else {
      RestWith(app, Filtered(g), name, path);
    }
    var steps := RunFrom(table, 0, g, call).steps;
    assert forall k :: 0 <= k < |rest.steps| ==> steps[3 + k] == rest.steps[k];
    assert forall k :: 3 <= k < |steps| ==> steps[k] == rest.steps[k - 3];
  }

  // ----- the methods of the whole server -----

  /** Routes whose methods are listed already add nothing. */
  lemma {:induction false} MethodsStay<S>(routes: seq<Route<S>>, i: nat, j: nat)
    requires i <= j <= |routes|
    requires forall k :: i <= k < j ==> routes[k].name == None || InList(Methods(routes, i, None), routes[k].name.value)
    ensures Methods(routes, j, None) == Methods(routes, i, None)
  {
    if i < j { MethodsStay(routes, i, j - 1); }
  }

  lemma MethodsGrow<S>(routes: seq<Route<S>>, i: nat, name: string)
    requires i < |routes| && routes[i].name == Some(name) && !InList(Methods(routes, i, None), name) && name != "GET"
    ensures Methods(routes, i + 1, None) == Methods(routes, i, None) + [name]
  {}

  /** The methods of the routes. */
  predicate HasNames<S>(routes: seq<Route<S>>) {
    && |routes| == 27
    && (forall k :: 0 <= k < 3 ==> routes[k].name == None)
    && (forall k :: 3 <= k < 6 ==> routes[k].name == Some("GET"))
    && routes[6].name == Some("POST")
    && (forall k :: 7 <= k < 11 ==> routes[k].name in [Some("POST"), Some("HEAD"), Some("GET")])
    && routes[11].name == Some("PUT") && routes[12].name == Some("POST") && routes[13].name == Some("DELETE")
    && (forall k :: 14 <= k < 27 ==> routes[k].name in [None, Some("GET"), Some("POST")])
  }

  lemma TableNames<A>(app: App<A>)
    ensures HasNames(Table(app))
  {}

  lemma GetIsListed<S>(routes: seq<Route<S>>)
    requires HasNames(routes)
    ensures Methods(routes, 6, None) == ["OPTIONS", "GET", "HEAD"]
  {
    MethodsStay(routes, 0, 3);
    var list := ["OPTIONS", "GET", "HEAD"];
    assert Methods(routes, 4, None) == list;
    assert list[1] == "GET";
    MethodsStay(routes, 4, 6);
  }

  lemma PostIsListed<S>(routes: seq<Route<S>>)
    requires HasNames(routes)
    ensures Methods(routes, 11, None) == ["OPTIONS", "GET", "HEAD", "POST"]
  {
    GetIsListed(routes);
    MethodsGrow(routes, 6, "POST");
    var list := ["OPTIONS", "GET", "HEAD", "POST"];
    assert Methods(routes, 7, None) == list;
    assert list[1] == "GET" && list[2] == "HEAD" && list[3] == "POST";
    MethodsStay(routes, 7, 11);
  }

  lemma PutIsListed<S>(routes: seq<Route<S>>)
    requires HasNames(routes)
    ensures Methods(routes, 13, None) == ["OPTIONS", "GET", "HEAD", "POST", "PUT"]
  {
    PostIsListed(routes);
    MethodsGrow(routes, 11, "PUT");
    var list := ["OPTIONS", "GET", "HEAD", "POST", "PUT"];
    assert Methods(routes, 12, None) == list;
    assert list[3] == "POST";
    MethodsStay(routes, 12, 13);
  }

  const ALL_METHODS := ["OPTIONS", "GET", "HEAD", "POST", "PUT", "DELETE"]

  lemma AllAreListed<S>(routes: seq<Route<S>>)
    requires HasNames(routes)
    ensures AllowList(routes, None) == ALL_METHODS
  {
    PutIsListed(routes);
    MethodsGrow(routes, 13, "DELETE");
    assert Methods(routes, 14, None) == ALL_METHODS;
    assert ALL_METHODS[1] == "GET" && ALL_METHODS[3] == "POST";
    MethodsStay(routes, 14, 27);
  }

  lemma {:induction false} JoinIsShort(list: seq<string>, k: nat)
    requires k <= |list| && forall i :: 0 <= i < |list| ==> |list[i]| <= 7
    ensures |JoinFrom(list, k, ',')| <= 8 * (|list| - k)
    decreases |list| - k
  {
    if k < |list| {
      JoinStep(list, k, ',');
      JoinIsShort(list, k + 1);
    }
  }

  /** A request for the path `*` calls no handler.  OPTIONS gets the methods of the server, any other method
      is refused in favour of OPTIONS. */
  lemma StarIsAnswered<A>(app: App<A>, g: Globals<A>, name: string, glob: Option<string>)
    ensures IsTable(Table(app))
    ensures Dispatched(Table(app), g, Call(name, "*", glob)) ==
              Ran([], g, Some(if name == "OPTIONS" then Response(200, None, Some(Join(ALL_METHODS, ',')))
                              else Response(405, None, Some("OPTIONS"))))
  {
    TableShape(app);
    TableNames(app);
    AllAreListed(Table(app));
    JoinIsShort(ALL_METHODS, 0);
    AllowTextIsJoin(ALL_METHODS);
  }
}
