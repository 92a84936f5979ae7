/** server.c: dispatching a request to the handlers of a server. */
module Servers {
  import opened Text
  import opened LinkedLists
  import opened Lines
  import opened Request
  import opened Routing
  import opened Allow

  const OK := 200
  const NOT_FOUND := 404
  const NOT_ALLOWED := 405

  function Empty(status: int): Response { Response(status, None, None) }

  /** Does some route have exactly this path? */
  predicate HasPath<S>(routes: seq<Route<S>>, path: string) {
    exists i :: 0 <= i < |routes| && routes[i].path == Some(path)
  }

  predicate HasGet<S>(routes: seq<Route<S>>, path: string) {
    exists i :: 0 <= i < |routes| && routes[i].name == Some("GET") && routes[i].path == Some(path)
  }

  /** The answer when no handler answers. */
  function Fallback<S>(routes: seq<Route<S>>, name: string, path: string): Response {
    if name == "HEAD" then Empty(if HasGet(routes, path) then OK else NOT_FOUND)
    else if HasPath(routes, path) then AllowResponse(if name == "OPTIONS" then OK else NOT_ALLOWED, routes, Some(path))
    else Empty(NOT_FOUND)
  }

  /** The answer to a request for the whole server. */
  function ForServer<S>(routes: seq<Route<S>>, name: string): Response {
    if name == "OPTIONS" then AllowResponse(OK, routes, None) else Response(NOT_ALLOWED, None, Some("OPTIONS"))
  }

  /** The run of a dispatch: no handler is called for the path `*`. */
  function Dispatched<S>(routes: seq<Route<S>>, state: S, call: Call): Ran<S>
    requires IsTable(routes)
  {
    if call.path == "*" then Ran([], state, Some(ForServer(routes, call.name)))
    else
      var ran := RunFrom(routes, 0, state, call);
      if ran.response.Some? then ran else ran.(response := Some(Fallback(routes, call.name, call.path)))
  }

  /** Some handler is registered for exactly this path, and this method if one is given. */
  predicate IsRegistered<S>(routes: seq<Route<S>>, name: Option<string>, path: string) {
    exists i :: 0 <= i < |routes| && routes[i].path == Some(path) && (name == None || routes[i].name == name)
  }

  /** What the status of that answer says.  A HEAD request finds a GET handler of the exact path or nothing;
      OPTIONS is answered for a path that some handler has; any other method is refused there; and no other
      path is found. */
  lemma FallbackStatus<S>(routes: seq<Route<S>>, name: string, path: string)
    ensures var answer := Fallback(routes, name, path);
            && (name == "HEAD" ==> answer.status == if IsRegistered(routes, Some("GET"), path) then 200 else 404)
            && (name == "OPTIONS" ==> answer.status == if IsRegistered(routes, None, path) then 200 else 404)
            && (name != "HEAD" && name != "OPTIONS" ==>
                  answer.status == if IsRegistered(routes, None, path) then 405 else 404)
            && (answer.allow.Some? <==> name != "HEAD" && IsRegistered(routes, None, path))
  {
    assert HasPath(routes, path) <==> IsRegistered(routes, None, path);
    assert HasGet(routes, path) <==> IsRegistered(routes, Some("GET"), path);
  }

  // ----- what a 405 says -----

  ghost predicate AlwaysAnswers<S(!new)>(route: Route<S>) {
    forall state, call :: route.run(state, call).1.Some?
  }

  /** The handlers of the exact path that are registered with a method always answer. */
  ghost predicate AreAnswered<S(!new)>(routes: seq<Route<S>>, name: string, path: string) {
    forall i :: 0 <= i < |routes| && routes[i].name == Some(name) && routes[i].path == Some(path) ==>
      AlwaysAnswers(routes[i])
  }

  /** A request that no handler answered was passed on by every matching handler. */
  lemma {:induction false} PassedOn<S(!new)>(routes: seq<Route<S>>, state: S, call: Call, i: nat)
    requires IsTable(routes) && RunFrom(routes, 0, state, call).response.None?
    requires i < |routes| && Matches(routes[i], call.name, call.path)
    ensures !AlwaysAnswers(routes[i])
  {
    var ran := RunFrom(routes, 0, state, call);
    RunIsRun(routes, 0, state, call);
    assert Called(ran.steps, i);
    var k :| 0 <= k < |ran.steps| && ran.steps[k].handler == i;
    var step := ran.steps[k];
    if k < |ran.steps| - 1 { assert Outcome(routes, step) == (ran.steps[k + 1].before, None); }
    assert routes[i].run(step.before, step.call).1.None?;
  }

  /** A 405 never lists the method it refuses. */
  lemma {:induction false} RefusedIsNotListed<S(!new)>(routes: seq<Route<S>>, state: S, call: Call)
    requires IsTable(routes) && call.path != "*" && AreAnswered(routes, call.name, call.path)
    requires RunFrom(routes, 0, state, call).response.None?
    requires Fallback(routes, call.name, call.path).status == NOT_ALLOWED
    ensures Fallback(routes, call.name, call.path) == AllowResponse(NOT_ALLOWED, routes, Some(call.path))
    ensures !InList(AllowList(routes, Some(call.path)), call.name)
  {
    var list := AllowList(routes, Some(call.path));
    if InList(list, call.name) {
      AllowListIsRight(routes, Some(call.path));
      var j :| 0 <= j < |list| && list[j] == call.name;
      assert IsAllowed(routes, |routes|, Some(call.path), list[j]);
      var i :| 0 <= i < |routes| && routes[i].name == Some(call.name) && routes[i].path == Some(call.path);
      PassedOn(routes, state, call, i);
    }
  }

  /** Nor does its Allow header. */
  lemma {:induction false} RefusedIsNotInHeader<S(!new)>(routes: seq<Route<S>>, state: S, call: Call)
    requires IsTable(routes) && call.path != "*" && AreAnswered(routes, call.name, call.path)
    requires RunFrom(routes, 0, state, call).response.None?
    requires Fallback(routes, call.name, call.path).status == NOT_ALLOWED
    requires forall i :: 0 <= i < |AllowList(routes, Some(call.path))| ==>
               Without(AllowList(routes, Some(call.path))[i], ',', ',')
    ensures var allow := Fallback(routes, call.name, call.path).allow;
            allow.Some? && !InList(Split(allow.value, ',', ','), call.name)
  {
    var list := AllowList(routes, Some(call.path));
    RefusedIsNotListed(routes, state, call);
    AllowListIsRight(routes, Some(call.path));
    if InList(Split(AllowText(list), ',', ','), call.name) { AllowTextNamesOnly(list, call.name); }
  }

  // ----- the server -----

  /** The call that a connection's data makes, if it can be read. */
  function CallIn(data: string): Option<Call>
    requires IsRequest([], data, 0)
  {
    var status := StatusAt(data, 0);
    if status.Status? && EndOf(status, [], data, 0).result == 0 then
      Some(Call(Upper(status.name), PathOf(status.target), None))
    else None
  }

  /** Reads the request of a connection. */
  method ReadCall(data: string) returns (request: Request, result: int)
    requires IsRequest([], data, 0)
    ensures fresh(request) && (result == 0 <==> CallIn(data).Some?)
    ensures result == 0 ==> HoldsCall(request, CallIn(data).value)
  {
    var socket := new Stream(data);
    request := new Request(socket);
    result := request.Read();
  }

  ghost predicate HoldsCall(request: Request, call: Call)
    reads request
  {
    request.name == Some(call.name) && request.path == Some(call.path) && request.pathGlob == call.glob
  }

  /** A run behind calls that did not answer. */
  ghost function Behind<S>(made: seq<Step<S>>, rest: Ran<S>): Ran<S> {
    rest.(steps := made + rest.steps)
  }

  /** The next matching call joins the calls made. */
  lemma StepBehind<S>(routes: seq<Route<S>>, k: nat, state: S, call: Call, made: seq<Step<S>>)
    requires IsTable(routes) && k < |routes| && Matches(routes[k], call.name, call.path)
    ensures var seen := call.(glob := GlobAfter(routes[k], call));
            var (after, response) := routes[k].run(state, seen);
            Behind(made, RunFrom(routes, k, state, call)) ==
              Behind(made + [Step(k, state, seen)],
                     if response.Some? then Ran([], after, response) else RunFrom(routes, k + 1, after, seen))
  {
    var seen := call.(glob := GlobAfter(routes[k], call));
    var (after, response) := routes[k].run(state, seen);
    if response.None? { Assoc(made, [Step(k, state, seen)], RunFrom(routes, k + 1, after, seen).steps); }
  }

  class Server<S> {
    const handlers: List<Route<S>>
    /** The program's globals, which the handlers read and write. */
    var state: S

    ghost predicate Valid()
      reads this, handlers, handlers.repr
    {
      handlers.Valid() && IsTable(handlers.items)
    }

    constructor (state: S)
      ensures Valid() && fresh(handlers) && handlers.repr == {} && handlers.items == [] && this.state == state
    {
      handlers := new List<Route<S>>();
      this.state := state;
    }

    method AddHandler(name: Option<string>, path: Option<string>, run: (S, Call) -> (S, Option<Response>))
      requires Valid() && path != Some("")
      modifies handlers, handlers.repr
      ensures Valid() && fresh(handlers.repr - old(handlers.repr))
      ensures handlers.items == old(handlers.items) + [Route(name, path, run)]
    {
      handlers.Append(Route(name, path, run));
    }

    /** Compares a handler with a request, and keeps what the handler's `*` stands for in the request. */
    method MatchRoute(route: Route<S>, request: Request, ghost call: Call) returns (matched: bool)
      requires IsRoute(route) && request.name == Some(call.name) && request.path == Some(call.path)
      requires request.pathGlob == call.glob
      modifies request`pathGlob
      ensures matched <==> Matches(route, call.name, call.path)
      ensures request.pathGlob == if matched then GlobAfter(route, call) else call.glob
    {
      if !(route.name.None? || route.name.value == request.name.value) { return false; }
      if route.path.None? { return true; }
      var handlerPath, path := route.path.value, request.path.value;
      var length := |handlerPath|;
      if handlerPath[length - 1] == '*' && HasPrefix(path, handlerPath[..length - 1]) {
        request.SetPathGlob(path[length - 1..]);
        return true;
      } else if handlerPath == path {
        return true;
      }
      return false;
    }

    /** Calls the matching handlers up to the first that answers; `made` records the calls. */
    method CallHandlers(request: Request, ghost call: Call)
      returns (response: Option<Response>, ghost made: seq<Step<S>>)
      requires Valid() && HoldsCall(request, call)
      modifies this`state, request`pathGlob
      ensures Ran(made, state, response) == RunFrom(handlers.items, 0, old(state), call)
    {
      var it := handlers.first;
      ghost var k := 0;
      ghost var seen := call;
      made := [];
      while it != null
        invariant 0 <= k <= |handlers.nodes| && it == NodeAt(handlers.nodes, k)
        invariant request.pathGlob == seen.glob && seen.name == call.name && seen.path == call.path
        invariant Behind(made, RunFrom(handlers.items, k, state, seen)) == RunFrom(handlers.items, 0, old(state), call)
        decreases |handlers.nodes| - k
      {
        assert IsRoute(handlers.items[k]);
        var matched := MatchRoute(it.data, request, seen);
        if matched {
          var view := Call(request.name.value, request.path.value, request.pathGlob);
          var outcome := it.data.run(state, view);
          StepBehind(handlers.items, k, state, seen, made);
          made := made + [Step(k, state, view)];
          seen, state := view, outcome.0;
          if outcome.1.Some? { return outcome.1, made; }
        }
        it := it.next;
        k := k + 1;
      }
      response := None;
    }

    method Dispatch(request: Request) returns (response: Response, ghost made: seq<Step<S>>)
      requires Valid() && request.name.Some? && request.path.Some?
      modifies this`state, request`pathGlob
      ensures var call := Call(request.name.value, request.path.value, old(request.pathGlob));
              Ran(made, state, Some(response)) == Dispatched(handlers.items, old(state), call)
    {
      var name, path := request.name.value, request.path.value;
      if path == "*" {
        if name == "OPTIONS" {
          response := CheckAllowedResponses(OK, handlers, None);
        } else {
          response := Response(NOT_ALLOWED, None, Some("OPTIONS"));
        }
        return response, [];
      }
      var answer: Option<Response>;
      answer, made := CallHandlers(request, Call(name, path, request.pathGlob));
      if answer.Some? { return answer.value, made; }
      if name == "HEAD" {
        var found := FindGet(path);
        return Empty(if found then OK else NOT_FOUND), made;
      }
      var found := FindPath(path);
      if found {
        response := CheckAllowedResponses(if name == "OPTIONS" then OK else NOT_ALLOWED, handlers, Some(path));
      } else {
        response := Empty(NOT_FOUND);
      }
    }

    method FindGet(path: string) returns (found: bool)
      requires Valid()
      ensures found <==> HasGet(handlers.items, path)
    {
      var it := handlers.first;
      ghost var k := 0;
      while it != null
        invariant 0 <= k <= |handlers.nodes| && it == NodeAt(handlers.nodes, k)
        invariant !HasGet(handlers.items[..k], path)
        decreases |handlers.nodes| - k
      {
        assert it.data == handlers.items[k];
        if it.data.name == Some("GET") && it.data.path == Some(path) { return true; }
        assert handlers.items[..k + 1] == handlers.items[..k] + [handlers.items[k]];
        it := it.next;
        k := k + 1;
      }
      assert handlers.items[..k] == handlers.items;
      found := false;
    }

    method FindPath(path: string) returns (found: bool)
      requires Valid()
      ensures found <==> HasPath(handlers.items, path)
    {
      var it := handlers.first;
      ghost var k := 0;
      while it != null
        invariant 0 <= k <= |handlers.nodes| && it == NodeAt(handlers.nodes, k)
        invariant !HasPath(handlers.items[..k], path)
        decreases |handlers.nodes| - k
      {
        assert it.data == handlers.items[k];
        if it.data.path == Some(path) { return true; }
        assert handlers.items[..k + 1] == handlers.items[..k] + [handlers.items[k]];
        it := it.next;
        k := k + 1;
      }
      assert handlers.items[..k] == handlers.items;
      found := false;
    }

    /** Reads a request from a connection and answers it; a request that cannot be read reaches no handler. */
    method HandleRequest(data: string) returns (response: Response, ghost made: seq<Step<S>>)
      requires Valid() && IsRequest([], data, 0)
      modifies this`state
      ensures match CallIn(data)
              case None => response.status == BAD_REQUEST && state == old(state) && made == []
              case Some(call) => Ran(made, state, Some(response)) == Dispatched(handlers.items, old(state), call)
    {
      var request, result := ReadCall(data);
      if result != 0 {
        return Empty(BAD_REQUEST), [];
      }
      response, made := Dispatch(request);
    }
  }
}
