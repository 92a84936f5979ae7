/** redstore.c: the route table of the program, its request counter and its error buffer. */
module RedStoreRoutes {
  import opened Text
  import opened Numbers
  import opened Request
  import opened Routing
  import opened Servers
  import opened GenId

  /** The globals: the counter, an unsigned long; the text of the errors of the current request, if any was
      logged; and everything the application handlers share. */
  datatype Globals<A> = Globals(requestCount: nat, errorBuffer: Option<string>, app: A)

  /** The handlers that answer the routes of the application; two routes share one, with different user data. */
  datatype Handler =
    | Query | Sparql | DataHead | DataGet | DataPut | DataPost | DataDelete
    | UpdateForm(title: string) | InsertPost | DeletePost
    | GraphIndex | LoadForm | LoadPost | Home | Description | Favicon | Robots

  /** What they do. */
  type App<!A> = (Handler, Globals<A>, Call) -> (Globals<A>, Option<Response>)

  // ----- the filters, and the handlers at the end -----

  function RequestCounter<A>(g: Globals<A>, call: Call): (Globals<A>, Option<Response>) {
    (g.(requestCount := (g.requestCount + 1) % ULONG_RANGE), None)
  }

  function RequestLog<A>(g: Globals<A>, call: Call): (Globals<A>, Option<Response>) { (g, None) }

  function ResetErrorBuffer<A>(g: Globals<A>, call: Call): (Globals<A>, Option<Response>) {
    (g.(errorBuffer := None), None)
  }

  function RemoveTrailingSlash<A>(g: Globals<A>, call: Call): (Globals<A>, Option<Response>) {
    (g, if call.path != "" && call.path[|call.path| - 1] == '/' then Some(Response(301, None, None)) else None)
  }

  function HandleNotFound<A>(g: Globals<A>, call: Call): (Globals<A>, Option<Response>) {
    (g, Some(Response(404, Some("Unsupported path."), None)))
  }

  // ----- the table -----

  function AppRoute<A>(app: App<A>, name: string, path: string, handler: Handler): Route<Globals<A>> {
    Route(Some(name), Some(path), (g, call) => app(handler, g, call))
  }

  function Filters<A>(): seq<Route<Globals<A>>> {
    [Route(None, None, RequestCounter), Route(None, None, RequestLog), Route(None, None, ResetErrorBuffer)]
  }

  function QueryRoutes<A>(app: App<A>): seq<Route<Globals<A>>> {
    [ AppRoute(app, "GET", "/query", Query),
      AppRoute(app, "GET", "/sparql", Sparql), AppRoute(app, "GET", "/sparql/", Sparql),
      AppRoute(app, "POST", "/query", Query),
      AppRoute(app, "POST", "/sparql", Sparql), AppRoute(app, "POST", "/sparql/", Sparql) ]
  }

  function DataRoutes<A>(app: App<A>): seq<Route<Globals<A>>> {
    [ AppRoute(app, "HEAD", "/data*", DataHead), AppRoute(app, "GET", "/data*", DataGet),
      AppRoute(app, "PUT", "/data*", DataPut),
      AppRoute(app, "POST", "/data*", DataPost), AppRoute(app, "DELETE", "/data*", DataDelete) ]
  }

  function UpdateRoutes<A>(app: App<A>): seq<Route<Globals<A>>> {
    [ AppRoute(app, "GET", "/insert", UpdateForm("Insert Triples")), AppRoute(app, "POST", "/insert", InsertPost),
      AppRoute(app, "GET", "/delete", UpdateForm("Delete Triples")), AppRoute(app, "POST", "/delete", DeletePost) ]
  }

  function PageRoutes<A>(app: App<A>): seq<Route<Globals<A>>> {
    [ AppRoute(app, "GET", "/graphs", GraphIndex), AppRoute(app, "GET", "/load", LoadForm),
      AppRoute(app, "POST", "/load", LoadPost),
      AppRoute(app, "GET", "/", Home), AppRoute(app, "GET", "/description", Description),
      AppRoute(app, "GET", "/favicon.ico", Favicon), AppRoute(app, "GET", "/robots.txt", Robots) ]
  }

  function AppRoutes<A>(app: App<A>): seq<Route<Globals<A>>> {
    QueryRoutes(app) + DataRoutes(app) + UpdateRoutes(app) + PageRoutes(app)
  }

  function LastRoutes<A>(): seq<Route<Globals<A>>> {
    [Route(Some("GET"), None, RemoveTrailingSlash), Route(None, None, HandleNotFound)]
  }

  function Table<A>(app: App<A>): seq<Route<Globals<A>>> {
    Filters() + AppRoutes(app) + LastRoutes()
  }

  /** Registers the routes one after the other. */
  method AddRoutes<A>(server: Server<Globals<A>>, routes: seq<Route<Globals<A>>>)
    requires server.Valid() && IsTable(routes)
    modifies server.handlers, server.handlers.repr
    ensures server.Valid() && fresh(server.handlers.repr - old(server.handlers.repr))
    ensures server.handlers.items == old(server.handlers.items) + routes
  {
    for i := 0 to |routes|
      invariant server.Valid() && fresh(server.handlers.repr - old(server.handlers.repr))
      invariant server.handlers.items == old(server.handlers.items) + routes[..i]
    {
      assert IsRoute(routes[i]);
      assert routes[..i + 1] == routes[..i] + [routes[i]];
      Assoc(old(server.handlers.items), routes[..i], [routes[i]]);
      server.AddHandler(routes[i].name, routes[i].path, routes[i].run);
    }
    assert routes[..|routes|] == routes;
  }

  lemma TableIsTable<A>(app: App<A>)
    ensures IsTable(Table(app)) && |Table(app)| == 27
  {}

  method Setup<A>(globals: Globals<A>, app: App<A>) returns (server: Server<Globals<A>>)
    ensures fresh(server) && fresh(server.handlers) && fresh(server.handlers.repr)
    ensures server.Valid() && server.handlers.items == Table(app) && server.state == globals
  {
    server := new Server(globals);
    TableIsTable(app);
    AddRoutes(server, Table(app));
  }

  // ----- one request -----

  /** The globals behind the three filters. */
  function Filtered<A>(g: Globals<A>): Globals<A> {
    g.(requestCount := (g.requestCount + 1) % ULONG_RANGE, errorBuffer := None)
  }

  ghost predicate StartsWithFilters<A>(routes: seq<Route<Globals<A>>>) {
    && |routes| >= 3
    && routes[0] == Route(None, None, RequestCounter)
    && routes[1] == Route(None, None, RequestLog)
    && routes[2] == Route(None, None, ResetErrorBuffer)
  }

  /** Every dispatched request passes the three filters, in order, and then the handlers behind them. */
  lemma FiltersRun<A>(routes: seq<Route<Globals<A>>>, g: Globals<A>, call: Call)
    requires IsTable(routes) && StartsWithFilters(routes)
    ensures var counted := g.(requestCount := (g.requestCount + 1) % ULONG_RANGE);
            RunFrom(routes, 0, g, call) ==
              Behind([Step(0, g, call), Step(1, counted, call), Step(2, counted, call)],
                RunFrom(routes, 3, Filtered(g), call))
  {
    var counted := g.(requestCount := (g.requestCount + 1) % ULONG_RANGE);
    var rest := RunFrom(routes, 3, Filtered(g), call);
    assert RunFrom(routes, 2, counted, call) == Behind([Step(2, counted, call)], rest);
    assert RunFrom(routes, 1, counted, call) == Behind([Step(1, counted, call), Step(2, counted, call)], rest);
  }

  ghost predicate KeepsCount<A(!new)>(route: Route<Globals<A>>) {
    forall g, call :: route.run(g, call).0.requestCount == g.requestCount
  }

  lemma {:induction false} RestKeepsCount<A(!new)>(routes: seq<Route<Globals<A>>>, i: nat, g: Globals<A>, call: Call)
    requires IsTable(routes) && i <= |routes| && forall j :: i <= j < |routes| ==> KeepsCount(routes[j])
    ensures RunFrom(routes, i, g, call).after.requestCount == g.requestCount
    decreases |routes| - i
  {
    if i < |routes| {
      if Matches(routes[i], call.name, call.path) {
        var seen := call.(glob := GlobAfter(routes[i], call));
        assert KeepsCount(routes[i]);
        RestKeepsCount(routes, i + 1, routes[i].run(g, seen).0, seen);
      } else {
        RestKeepsCount(routes, i + 1, g, call);
      }
    }
  }

  // ----- the program's table -----

  /** The application handlers leave the counter alone. */
  ghost predicate LeavesCount<A(!new)>(app: App<A>) {
    forall handler, g, call :: app(handler, g, call).0.requestCount == g.requestCount
  }

  /** A route that runs an application handler. */
  ghost predicate IsAppRoute<A(!new)>(app: App<A>, route: Route<Globals<A>>) {
    exists handler :: RunsHandler(app, route, handler)
  }

  ghost predicate RunsHandler<A(!new)>(app: App<A>, route: Route<Globals<A>>, handler: Handler) {
    forall g, call :: route.run(g, call) == app(handler, g, call)
  }

  ghost predicate AreAppRoutes<A(!new)>(app: App<A>, routes: seq<Route<Globals<A>>>) {
    forall i :: 0 <= i < |routes| ==> IsAppRoute(app, routes[i])
  }

  lemma AppRouteRuns<A(!new)>(app: App<A>, name: string, path: string, handler: Handler)
    ensures IsAppRoute(app, AppRoute(app, name, path, handler))
  {
    assert RunsHandler(app, AppRoute(app, name, path, handler), handler);
  }

  lemma QueryRoutesRun<A(!new)>(app: App<A>)
    ensures AreAppRoutes(app, QueryRoutes(app))
  {
    AppRouteRuns(app, "GET", "/query", Query);
    AppRouteRuns(app, "GET", "/sparql", Sparql);
    AppRouteRuns(app, "GET", "/sparql/", Sparql);
    AppRouteRuns(app, "POST", "/query", Query);
    AppRouteRuns(app, "POST", "/sparql", Sparql);
    AppRouteRuns(app, "POST", "/sparql/", Sparql);
  }

  lemma DataRoutesRun<A(!new)>(app: App<A>)
    ensures AreAppRoutes(app, DataRoutes(app))
  {
    AppRouteRuns(app, "HEAD", "/data*", DataHead);
    AppRouteRuns(app, "GET", "/data*", DataGet);
    AppRouteRuns(app, "PUT", "/data*", DataPut);
    AppRouteRuns(app, "POST", "/data*", DataPost);
    AppRouteRuns(app, "DELETE", "/data*", DataDelete);
  }

  lemma UpdateRoutesRun<A(!new)>(app: App<A>)
    ensures AreAppRoutes(app, UpdateRoutes(app))
  {
    AppRouteRuns(app, "GET", "/insert", UpdateForm("Insert Triples"));
    AppRouteRuns(app, "POST", "/insert", InsertPost);
    AppRouteRuns(app, "GET", "/delete", UpdateForm("Delete Triples"));
    AppRouteRuns(app, "POST", "/delete", DeletePost);
  }

  lemma PageRoutesRun<A(!new)>(app: App<A>)
    ensures AreAppRoutes(app, PageRoutes(app))
  {
    AppRouteRuns(app, "GET", "/graphs", GraphIndex);
    AppRouteRuns(app, "GET", "/load", LoadForm);
    AppRouteRuns(app, "POST", "/load", LoadPost);
    AppRouteRuns(app, "GET", "/", Home);
    AppRouteRuns(app, "GET", "/description", Description);
    AppRouteRuns(app, "GET", "/favicon.ico", Favicon);
    AppRouteRuns(app, "GET", "/robots.txt", Robots);
  }

  lemma AppRoutesConcat<A(!new)>(app: App<A>, a: seq<Route<Globals<A>>>, b: seq<Route<Globals<A>>>)
    requires AreAppRoutes(app, a) && AreAppRoutes(app, b)
    ensures AreAppRoutes(app, a + b)
  {}

  lemma AppRoutesRun<A(!new)>(app: App<A>)
    ensures AreAppRoutes(app, AppRoutes(app))
  {
    var queries, data, updates, pages := QueryRoutes(app), DataRoutes(app), UpdateRoutes(app), PageRoutes(app);
    QueryRoutesRun(app);
    DataRoutesRun(app);
    UpdateRoutesRun(app);
    PageRoutesRun(app);
    AppRoutesConcat(app, queries, data);
    AppRoutesConcat(app, queries + data, updates);
    AppRoutesConcat(app, queries + data + updates, pages);
  }

  /** Behind the filters stand the application routes and the two last ones. */
  lemma TableShape<A>(app: App<A>)
    ensures IsTable(Table(app)) && StartsWithFilters(Table(app)) && |Table(app)| == 27
    ensures forall j :: 3 <= j < 25 ==> Table(app)[j] == AppRoutes(app)[j - 3]
    ensures Table(app)[25] == Route(Some("GET"), None, RemoveTrailingSlash)
    ensures Table(app)[26] == Route(None, None, HandleNotFound)
  {
    TableIsTable(app);
  }

  lemma TableKeepsCount<A(!new)>(app: App<A>)
    requires LeavesCount(app)
    ensures forall j :: 3 <= j < 27 ==> KeepsCount(Table(app)[j])
  {
    var table := Table(app);
    TableShape(app);
    AppRoutesRun(app);
    forall j | 3 <= j < 27 ensures KeepsCount(table[j]) {
      if j < 25 {
        assert IsAppRoute(app, AppRoutes(app)[j - 3]);
        var handler :| RunsHandler(app, table[j], handler);
      }
    }
  }

  /** A dispatched request is counted once, and some handler answers it. */
  lemma RequestIsCounted<A(!new)>(app: App<A>, g: Globals<A>, call: Call)
    requires IsTable(Table(app)) && LeavesCount(app) && call.path != "*"
    ensures var ran := Dispatched(Table(app), g, call);
            ran.after.requestCount == (g.requestCount + 1) % ULONG_RANGE && ran == RunFrom(Table(app), 0, g, call)
  {
    var table := Table(app);
    TableShape(app);
    TableKeepsCount(app);
    FiltersRun(table, g, call);
    RestKeepsCount(table, 3, Filtered(g), call);
    RequestIsAnswered(app, g, call);
  }

  /** The last handler answers what no other does, so the server's own answers are for the path `*` only. */
  lemma {:induction false} RequestIsAnswered<A(!new)>(app: App<A>, g: Globals<A>, call: Call)
    requires IsTable(Table(app))
    ensures RunFrom(Table(app), 0, g, call).response.Some?
  {
    TableShape(app);
    if RunFrom(Table(app), 0, g, call).response.None? {
      PassedOn(Table(app), g, call, 26);
    }
  }

  /** The first handler behind the filters finds the error buffer empty. */
  lemma BufferOnEntry<A(!new)>(app: App<A>, g: Globals<A>, call: Call)
    requires IsTable(Table(app))
    ensures var steps := RunFrom(Table(app), 0, g, call).steps;
            && |steps| > 3 && steps[3].before == Filtered(g)
            && forall k :: 0 <= k < |steps| ==> if k < 3 then steps[k].handler == k else 3 <= steps[k].handler < 27
  {
    TableShape(app);
    FiltersRun(Table(app), g, call);
    RunIsRun(Table(app), 3, Filtered(g), call);
    RequestIsAnswered(app, g, call);
  }

  // ----- every run -----

  /** Where the RDF library found an error; a number that is not positive is unknown. */
  datatype Locator = Locator(byte: int, line: int, column: int)

  /** What happens to the program: a connection, with the call that could be read from it, or a message that
      the RDF library logs between two. */
  datatype Event = Connection(call: Option<Call>) | Report(isError: bool, message: string, locator: Option<Locator>)

  function Place(name: string, number: int): string {
    if number > 0 then ", " + name + " " + Decimal(number) else ""
  }

  function ErrorText(message: string, locator: Option<Locator>): string {
    message
    + (match locator
       case None => ""
       case Some(l) => Place("byte", l.byte) + Place("line", l.line) + Place("column", l.column))
    + "\n"
  }

  lemma PlaceIs(name: string, number: int)
    ensures Place(name, number) == if number > 0 then ", " + name + " " + Decimal(number) else ""
  {}

  /** An error is logged with the numbers of its place that are known, and a line end. */
  lemma ErrorTextIs(message: string, byte: int, line: int, column: int)
    ensures ErrorText(message, Some(Locator(byte, line, column)))
         == message + (Place("byte", byte) + Place("line", line) + Place("column", column)) + "\n"
    ensures ErrorText(message, None) == message + "\n"
  {
    assert message + "" == message;
  }

  /** The log handler: any report opens the buffer, an error goes into it. */
  function Logged<A>(g: Globals<A>, isError: bool, message: string, locator: Option<Locator>): Globals<A> {
    var text := if g.errorBuffer.Some? then g.errorBuffer.value else "";
    g.(errorBuffer := Some(if isError then text + ErrorText(message, locator) else text))
  }

  /** Any message opens the buffer, and an error joins those before it. */
  lemma LoggedIs<A>(g: Globals<A>, message: string, locator: Option<Locator>)
    ensures Logged(g, true, message, locator).errorBuffer
         == Some((if g.errorBuffer.Some? then g.errorBuffer.value else "") + ErrorText(message, locator))
    ensures Logged(g, false, message, locator).errorBuffer == if g.errorBuffer.Some? then g.errorBuffer else Some("")
    ensures forall isError :: Logged(g, isError, message, locator).app == g.app
    ensures forall isError :: Logged(g, isError, message, locator).requestCount == g.requestCount
  {}

  /** The connection is dispatched to the handlers. */
  predicate IsDispatched(event: Event) {
    event.Connection? && event.call.Some? && event.call.value.path != "*"
  }

  function After<A>(app: App<A>, g: Globals<A>, event: Event): Globals<A>
    requires IsTable(Table(app))
  {
    match event
    case Report(isError, message, locator) => Logged(g, isError, message, locator)
    case Connection(call) => if call.Some? then Dispatched(Table(app), g, call.value).after else g
  }

  /** The globals after the first n events. */
  function AfterAll<A>(app: App<A>, g: Globals<A>, events: seq<Event>, n: nat): Globals<A>
    requires n <= |events| && IsTable(Table(app))
  {
    if n == 0 then g else After(app, AfterAll(app, g, events, n - 1), events[n - 1])
  }

  function DispatchCount(events: seq<Event>, n: nat): nat
    requires n <= |events|
  {
    if n == 0 then 0 else DispatchCount(events, n - 1) + if IsDispatched(events[n - 1]) then 1 else 0
  }

  /** One event counts one if it is dispatched, and nothing otherwise. */
  lemma EventCounts<A(!new)>(app: App<A>, g: Globals<A>, event: Event)
    requires IsTable(Table(app)) && LeavesCount(app)
    ensures After(app, g, event).requestCount
         == if IsDispatched(event) then (g.requestCount + 1) % ULONG_RANGE else g.requestCount
  {
    if IsDispatched(event) { RequestIsCounted(app, g, event.call.value); }
  }

  lemma Successor(n: nat, size: nat, q: nat, r: nat)
    requires r < size && n == size * q + r
    ensures (n + 1) % size == if r + 1 < size then r + 1 else 0
  {
    if r + 1 < size {
      ModUnique(n + 1, size, q, r + 1);
    } else {
      assert size * (q + 1) == size * q + size;
      ModUnique(n + 1, size, q + 1, 0);
    }
  }

  /** Wrapping at every step is wrapping at the end. */
  lemma CountNext(n: nat, size: nat)
    requires size > 0
    ensures (n % size + 1) % size == (n + 1) % size
  {
    Successor(n, size, n / size, n % size);
    Successor(n % size, size, 0, n % size);
  }

  /** After every run the counter is the number of requests dispatched, whatever was logged or refused. */
  lemma {:induction false} CounterCounts<A(!new)>(app: App<A>, g: Globals<A>, events: seq<Event>, n: nat)
    requires n <= |events| && IsTable(Table(app)) && LeavesCount(app)
    requires g.requestCount < ULONG_RANGE
    ensures AfterAll(app, g, events, n).requestCount == (g.requestCount + DispatchCount(events, n)) % ULONG_RANGE
  {
    if n > 0 {
      CounterCounts(app, g, events, n - 1);
      EventCounts(app, AfterAll(app, g, events, n - 1), events[n - 1]);
      CountNext(g.requestCount + DispatchCount(events, n - 1), ULONG_RANGE);
    }
  }

  /** A connection to the running program is such an event. */
  method Connect<A>(server: Server<Globals<A>>, app: App<A>, data: string)
    returns (response: Response, ghost made: seq<Step<Globals<A>>>)
    requires server.Valid() && server.handlers.items == Table(app) && IsRequest([], data, 0)
    modifies server`state
    ensures server.state == After(app, old(server.state), Connection(CallIn(data)))
    ensures CallIn(data).Some? && CallIn(data).value.path != "*" ==>
              made == RunFrom(Table(app), 0, old(server.state), CallIn(data).value).steps
  {
    response, made := server.HandleRequest(data);
  }

  method AppendString<A>(server: Server<Globals<A>>, text: string)
    requires server.state.errorBuffer.Some?
    modifies server`state
    ensures server.state == old(server.state).(errorBuffer := Some(old(server.state).errorBuffer.value + text))
  {
    server.state := server.state.(errorBuffer := Some(server.state.errorBuffer.value + text));
  }

  method AppendPlace<A>(server: Server<Globals<A>>, name: string, number: int)
    requires server.state.errorBuffer.Some?
    modifies server`state
    ensures var text := old(server.state).errorBuffer.value;
            server.state == old(server.state).(errorBuffer := Some(text + Place(name, number)))
  {
    ghost var text := server.state.errorBuffer.value;
    if number > 0 {
      Assoc(text, ", " + name + " ", Decimal(number));
      AppendString(server, ", " + name + " ");
      AppendString(server, Decimal(number));
    } else {
      assert text + Place(name, number) == text;
    }
  }

  lemma Gather(a: string, b: string, c: string, d: string, e: string, f: string)
    ensures a + b + c + d + e + f == a + (b + (c + d + e) + f)
  {}

  /** The pieces that are appended one by one are the error text. */
  lemma ErrorTextParts(text: string, message: string, l: Locator)
    ensures text + message + "\n" == text + ErrorText(message, None)
    ensures text + message + Place("byte", l.byte) + Place("line", l.line) + Place("column", l.column) + "\n"
         == text + ErrorText(message, Some(l))
  {
    Gather(text, message, "", "", "", "\n");
    Gather(text, message, Place("byte", l.byte), Place("line", l.line), Place("column", l.column), "\n");
  }

  /** The log handler of the RDF library. */
  method RedlandLog<A>(server: Server<Globals<A>>, app: App<A>, isError: bool, message: string,
      locator: Option<Locator>)
    requires IsTable(Table(app))
    modifies server`state
    ensures server.state == After(app, old(server.state), Report(isError, message, locator))
  {
    if server.state.errorBuffer.None? {
      server.state := server.state.(errorBuffer := Some(""));
    }
    if isError {
      ghost var text := server.state.errorBuffer.value;
      ErrorTextParts(text, message, if locator.Some? then locator.value else Locator(0, 0, 0));
      AppendString(server, message);
      if locator.Some? {
        AppendPlace(server, "byte", locator.value.byte);
        AppendPlace(server, "line", locator.value.line);
        AppendPlace(server, "column", locator.value.column);
      }
      AppendString(server, "\n");
    }
  }
}
