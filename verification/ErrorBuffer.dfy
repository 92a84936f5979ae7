/** redstore.c: what the handlers of a request find in the error buffer. */
module ErrorBuffer {
  import opened Text
  import opened Request
  import opened Routing
  import opened Servers
  import opened RedStoreRoutes
  import opened Handlers
  import opened GenId

  /** Every handler behind the filters finds the error buffer empty. */
  predicate IsEmptyOnEntry<A>(steps: seq<Step<Globals<A>>>) {
    forall k :: 3 <= k < |steps| ==> steps[k].before.errorBuffer == None
  }

  predicate AreEmpty<A>(steps: seq<Step<Globals<A>>>) {
    forall k :: 0 <= k < |steps| ==> steps[k].before.errorBuffer == None
  }

  /** A handler that gets the call answers it or leaves the error buffer empty. */
  predicate StaysEmpty<A>(route: Route<Globals<A>>, g: Globals<A>, call: Call)
    requires IsRoute(route)
  {
    var (after, response) := route.run(g, call.(glob := GlobAfter(route, call)));
    response.None? ==> after.errorBuffer == None
  }

  lemma {:induction false} StepsOfRoute<A(!new)>(app: App<A>, g: Globals<A>, call: Call, h: nat)
    requires IsTable(Table(app)) && 3 <= h < 25 && Matches(Table(app)[h], call.name, call.path) && g.errorBuffer == None
    ensures AreEmpty(RunFrom(Table(app), 3, g, call).steps) <==> StaysEmpty(Table(app)[h], g, call)
  {
    var table := Table(app);
    TableShape(app);
    TableIsRouted(app, call.name, call.path);
    Skip(table, 3, h, g, call);
    var seen := call.(glob := GlobAfter(table[h], call));
    var (after, response) := table[h].run(g, seen);
    if response.None? {
      Skip(table, h + 1, 25, after, seen);
      LastsChangeNothing(table, after, seen);
      var rest := RunFrom(table, 25, after, seen);
      assert RunFrom(table, 3, g, call).steps == [Step(h, g, seen)] + rest.steps;
      assert rest.steps[0].before == after;
      assert RunFrom(table, 3, g, call).steps[1] == rest.steps[0];
    }
  }

  lemma StepsOfNone<A(!new)>(app: App<A>, g: Globals<A>, call: Call)
    requires IsTable(Table(app)) && g.errorBuffer == None
    requires forall h :: 3 <= h < 25 ==> !Matches(Table(app)[h], call.name, call.path)
    ensures AreEmpty(RunFrom(Table(app), 3, g, call).steps)
  {
    TableShape(app);
    Skip(Table(app), 3, 25, g, call);
    LastsChangeNothing(Table(app), g, call);
  }

  // ----- the exact condition -----

  /** For one request: every handler behind the filters finds the error buffer empty exactly if the
      application handler of the request, if there is one, answers or leaves it empty. */
  lemma {:induction false} BufferOfCall<A(!new)>(app: App<A>, g: Globals<A>, call: Call)
    requires IsTable(Table(app))
    ensures IsEmptyOnEntry(Dispatched(Table(app), g, call).steps) <==>
              forall h :: 3 <= h < 25 && Matches(Table(app)[h], call.name, call.path) ==>
                StaysEmpty(Table(app)[h], Filtered(g), call)
  {
    var table := Table(app);
    TableShape(app);
    TableIsRouted(app, call.name, call.path);
    if call.path == "*" { return; }
    var h := RouteOf(call.name, call.path);
    if 3 <= h < 25 && Matches(table[h], call.name, call.path) {
      StepsOfRoute(app, Filtered(g), call, h);
    } else {
      StepsOfNone(app, Filtered(g), call);
    }
    BehindFilters(table, g, call);
  }

  lemma BehindFilters<A>(routes: seq<Route<Globals<A>>>, g: Globals<A>, call: Call)
    requires IsTable(routes) && StartsWithFilters(routes) && call.path != "*"
    ensures IsEmptyOnEntry(Dispatched(routes, g, call).steps) <==> AreEmpty(RunFrom(routes, 3, Filtered(g), call).steps)
  {
    FiltersRun(routes, g, call);
    var rest := RunFrom(routes, 3, Filtered(g), call).steps;
    var steps := Dispatched(routes, g, call).steps;
    assert |steps| == 3 + |rest| && forall k :: 0 <= k < |rest| ==> steps[3 + k] == rest[k];
    if IsEmptyOnEntry(steps) {
      forall k | 0 <= k < |rest| ensures rest[k].before.errorBuffer == None { assert steps[3 + k] == rest[k]; }
    }
  }

  /** What an application handler can be given: an empty error buffer and a counter that is an unsigned long. */
  predicate IsFresh<A>(g: Globals<A>) {
    g.errorBuffer == None && g.requestCount < ULONG_RANGE
  }

  /** If application route h gets the request, its handler answers or leaves the error buffer empty. */
  predicate HandlerStaysEmpty<A>(app: App<A>, h: int, g: Globals<A>, name: string, path: string)
    requires IsTable(Table(app)) && 3 <= h < 25
  {
    Matches(Table(app)[h], name, path) ==> StaysEmpty(Table(app)[h], g, Call(name, path, None))
  }

  /** The application handlers pass on only what they logged no error for. */
  ghost predicate HandlersStayEmpty<A(!new)>(app: App<A>)
    requires IsTable(Table(app))
  {
    forall h, g, name, path :: 3 <= h < 25 && IsFresh(g) ==> HandlerStaysEmpty(app, h, g, name, path)
  }

  /** In the dispatch of a request every handler behind the filters finds the error buffer empty. */
  predicate FindsEmpty<A>(app: App<A>, g: Globals<A>, name: string, path: string)
    requires IsTable(Table(app))
  {
    IsEmptyOnEntry(Dispatched(Table(app), g, Call(name, path, None)).steps)
  }

  ghost predicate AlwaysFindsEmpty<A(!new)>(app: App<A>)
    requires IsTable(Table(app))
  {
    forall g: Globals<A>, name, path :: g.requestCount < ULONG_RANGE ==> FindsEmpty(app, g, name, path)
  }

  /** Any fresh globals are those behind the filters of some request. */
  lemma FilteredIsOnto<A>(g: Globals<A>) returns (before: Globals<A>)
    requires IsFresh(g)
    ensures before.requestCount < ULONG_RANGE && Filtered(before) == g
  {
    before := g.(requestCount := if g.requestCount == 0 then ULONG_RANGE - 1 else g.requestCount - 1);
  }

  lemma HandlerIsChecked<A(!new)>(app: App<A>, h: int, g: Globals<A>, name: string, path: string)
    requires IsTable(Table(app)) && 3 <= h < 25 && FindsEmpty(app, g, name, path)
    ensures HandlerStaysEmpty(app, h, Filtered(g), name, path)
  {
    BufferOfCall(app, g, Call(name, path, None));
  }

  lemma RequestIsChecked<A(!new)>(app: App<A>, g: Globals<A>, name: string, path: string)
    requires IsTable(Table(app)) && forall h :: 3 <= h < 25 ==> HandlerStaysEmpty(app, h, Filtered(g), name, path)
    ensures FindsEmpty(app, g, name, path)
  {
    BufferOfCall(app, g, Call(name, path, None));
    forall h | 3 <= h < 25 && Matches(Table(app)[h], name, path)
      ensures StaysEmpty(Table(app)[h], Filtered(g), Call(name, path, None))
    {
      assert HandlerStaysEmpty(app, h, Filtered(g), name, path);
    }
  }

  /** Over all requests: the error buffer is empty on entry to every handler behind the filters exactly if
      the application handlers pass on only what they logged no error for. */
  lemma {:induction false} BufferIsEmpty<A(!new)>(app: App<A>)
    requires IsTable(Table(app))
    ensures AlwaysFindsEmpty(app) <==> HandlersStayEmpty(app)
  {
    if AlwaysFindsEmpty(app) {
      forall h, g, name, path | 3 <= h < 25 && IsFresh(g) ensures HandlerStaysEmpty(app, h, g, name, path) {
        var before := FilteredIsOnto(g);
        HandlerIsChecked(app, h, before, name, path);
      }
    }
    if HandlersStayEmpty(app) {
      forall g: Globals<A>, name, path | g.requestCount < ULONG_RANGE ensures FindsEmpty(app, g, name, path) {
        RequestIsChecked(app, g, name, path);
      }
    }
  }

  /** An application in which only the service description logs an error and passes on. */
  function DescriptionFails(): App<int> {
    (handler: Handler, g: Globals<int>, call: Call) =>
      if handler.Description? then (g.(errorBuffer := Some("error")), None) else (g, Some(Response(200, None, None)))
  }

  /** There the handlers behind it find its error. */
  lemma {:induction false} BufferMayFill(g: Globals<int>)
    ensures IsTable(Table(DescriptionFails()))
    ensures !FindsEmpty(DescriptionFails(), g, "GET", "/description")
  {
    var app, call := DescriptionFails(), Call("GET", "/description", None);
    TableShape(app);
    var route := Table(app)[22];
    assert route == AppRoutes(app)[19] == AppRoute(app, "GET", "/description", Description);
    assert Matches(route, call.name, call.path) && !StaysEmpty(route, Filtered(g), call);
    BufferOfCall(app, g, call);
  }
}
