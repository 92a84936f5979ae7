/** server.c: finding the handlers of a request. */
module Routing {
  import opened Text
  import opened Request

  /** What a handler sees of a request. */
  datatype Call = Call(name: string, path: string, glob: Option<string>)

  datatype Response = Response(status: int, message: Option<string>, allow: Option<string>)

  /** A handler: the method and path it is registered for, each None for any, and what it does to the
      program's globals S.  It answers the request or leaves it to the handlers behind it. */
  datatype Route<!S> = Route(name: Option<string>, path: Option<string>, run: (S, Call) -> (S, Option<Response>))

  // ----- matching -----

  /** A path ending in `*` stands for every path that starts with what is before the `*`. */
  predicate IsGlob(path: string, actual: string)
    requires path != ""
  {
    path[|path| - 1] == '*' && HasPrefix(actual, path[..|path| - 1])
  }

  predicate IsRoute<S>(route: Route<S>) { route.path != Some("") }

  predicate IsTable<S>(routes: seq<Route<S>>) {
    forall i :: 0 <= i < |routes| ==> IsRoute(routes[i])
  }

  predicate Matches<S>(route: Route<S>, name: string, path: string)
    requires IsRoute(route)
  {
    && (route.name.None? || route.name.value == name)
    && (route.path.None? || IsGlob(route.path.value, path) || route.path.value == path)
  }

  /** The request's glob after a match. */
  function GlobAfter<S>(route: Route<S>, call: Call): Option<string>
    requires IsRoute(route)
  {
    if route.path.Some? && IsGlob(route.path.value, call.path) then
      var glob := call.path[|route.path.value| - 1..];
      if glob == "" then None else Some(glob)
    else call.glob
  }

  /** A path without a `*` at its end matches itself only, and leaves the glob as it was. */
  lemma PathMatchesItself<S>(route: Route<S>, call: Call)
    requires route.path.Some? && route.path.value != "" && route.path.value[|route.path.value| - 1] != '*'
    ensures Matches(route, call.name, call.path) <==>
              (route.name == None || route.name == Some(call.name)) && route.path.value == call.path
    ensures GlobAfter(route, call) == call.glob
  {}

  /** The path of a prefix and a `*` matches every path that starts with the prefix, and the glob is the rest. */
  lemma GlobMatchesPrefix<S>(route: Route<S>, prefix: string, call: Call)
    requires route.path == Some(prefix + "*")
    ensures Matches(route, call.name, call.path) <==>
              (route.name == None || route.name == Some(call.name))
              && |prefix| <= |call.path| && call.path[..|prefix|] == prefix
    ensures Matches(route, call.name, call.path) ==>
              GlobAfter(route, call) == if call.path == prefix then None else Some(call.path[|prefix|..])
  {
    assert (prefix + "*")[..|prefix|] == prefix;
    StartsAtIff(call.path, prefix);
  }

  /** A route without a path matches every path. */
  lemma NoPathMatchesAll<S>(route: Route<S>, call: Call)
    requires route.path == None
    ensures Matches(route, call.name, call.path) <==> route.name == None || route.name == Some(call.name)
    ensures GlobAfter(route, call) == call.glob
  {}

  // ----- running the handlers -----

  /** One handler call: which handler, the globals before it, and what it saw. */
  datatype Step<S> = Step(handler: nat, before: S, call: Call)

  /** A run of the handlers: the calls made, the globals after them, and the answer, if any. */
  datatype Ran<S> = Ran(steps: seq<Step<S>>, after: S, response: Option<Response>)

  /** The run of the handlers from position i on. */
  function RunFrom<S>(routes: seq<Route<S>>, i: nat, state: S, call: Call): Ran<S>
    requires i <= |routes| && IsTable(routes)
    decreases |routes| - i
  {
    if i == |routes| then Ran([], state, None)
    else if !Matches(routes[i], call.name, call.path) then RunFrom(routes, i + 1, state, call)
    else
      var seen := call.(glob := GlobAfter(routes[i], call));
      var (after, response) := routes[i].run(state, seen);
      if response.Some? then Ran([Step(i, state, seen)], after, response)
      else
        var ran := RunFrom(routes, i + 1, after, seen);
        ran.(steps := [Step(i, state, seen)] + ran.steps)
  }

  function Outcome<S>(routes: seq<Route<S>>, step: Step<S>): (S, Option<Response>)
    requires step.handler < |routes|
  {
    routes[step.handler].run(step.before, step.call)
  }

  predicate InOrder<S>(steps: seq<Step<S>>) {
    forall j, k :: 0 <= j < k < |steps| ==> steps[j].handler < steps[k].handler
  }

  predicate Called<S>(steps: seq<Step<S>>, i: nat) {
    exists k :: 0 <= k < |steps| && steps[k].handler == i
  }

  /** A handler whose path ends in `*` sees what the `*` stands for; none is the empty text. */
  predicate SeesGlob<S>(route: Route<S>, call: Call)
    requires IsRoute(route)
  {
    route.path.Some? && IsGlob(route.path.value, call.path) ==>
      route.path.value[..|route.path.value| - 1] + (if call.glob.Some? then call.glob.value else "") == call.path
  }

  lemma GlobIsSeen<S>(route: Route<S>, call: Call)
    requires IsRoute(route)
    ensures SeesGlob(route, call.(glob := GlobAfter(route, call)))
  {
    if route.path.Some? && IsGlob(route.path.value, call.path) {
      StartsAtSlice(call.path, 0, route.path.value[..|route.path.value| - 1]);
    }
  }

  /** Only matching handlers are called, in order of registration and each once. */
  ghost predicate AreMatches<S>(routes: seq<Route<S>>, i: nat, call: Call, steps: seq<Step<S>>)
    requires IsTable(routes)
  {
    && (forall k :: 0 <= k < |steps| ==> i <= steps[k].handler < |routes|)
    && (forall k :: 0 <= k < |steps| ==> Matches(routes[steps[k].handler], call.name, call.path))
    && (forall k :: 0 <= k < |steps| ==> steps[k].call.name == call.name && steps[k].call.path == call.path)
    && (forall k :: 0 <= k < |steps| ==> SeesGlob(routes[steps[k].handler], steps[k].call))
    && InOrder(steps)
  }

  /** Every handler gets the globals the one before it left; only the last may answer. */
  ghost predicate IsChain<S>(routes: seq<Route<S>>, state: S, ran: Ran<S>)
    requires forall k :: 0 <= k < |ran.steps| ==> ran.steps[k].handler < |routes|
  {
    var steps, n := ran.steps, |ran.steps|;
    && (n > 0 ==> steps[0].before == state)
    && (forall k :: 0 <= k < n - 1 ==> Outcome(routes, steps[k]) == (steps[k + 1].before, None))
    && (if n > 0 then Outcome(routes, steps[n - 1]) == (ran.after, ran.response)
        else ran.after == state && ran.response == None)
  }

  /** A matching handler is left out only behind an answer. */
  ghost predicate IsComplete<S>(routes: seq<Route<S>>, i: nat, call: Call, ran: Ran<S>)
    requires IsTable(routes)
  {
    forall h: nat :: i <= h < |routes| && Matches(routes[h], call.name, call.path) ==>
      Called(ran.steps, h) || AnsweredBefore(ran, h)
  }

  predicate AnsweredBefore<S>(ran: Ran<S>, h: nat) {
    ran.response.Some? && |ran.steps| > 0 && ran.steps[|ran.steps| - 1].handler < h
  }

  /** What a run of the handlers from i on is. */
  ghost predicate IsRun<S>(routes: seq<Route<S>>, i: nat, state: S, call: Call, ran: Ran<S>)
    requires IsTable(routes)
  {
    AreMatches(routes, i, call, ran.steps) && IsChain(routes, state, ran) && IsComplete(routes, i, call, ran)
  }

  lemma {:induction false} RunIsRun<S>(routes: seq<Route<S>>, i: nat, state: S, call: Call)
    requires i <= |routes| && IsTable(routes)
    ensures IsRun(routes, i, state, call, RunFrom(routes, i, state, call))
    decreases |routes| - i
  {
    if i < |routes| {
      if !Matches(routes[i], call.name, call.path) {
        RunIsRun(routes, i + 1, state, call);
      } else {
        var seen := call.(glob := GlobAfter(routes[i], call));
        var (after, response) := routes[i].run(state, seen);
        GlobIsSeen(routes[i], call);
        if response.None? {
          RunIsRun(routes, i + 1, after, seen);
          RunExtends(routes, i, state, call, seen, after, RunFrom(routes, i + 1, after, seen));
        } else {
          AnswerIsRun(routes, i, state, call, seen);
        }
      }
    }
  }

  /** A call that answers is a run. */
  lemma AnswerIsRun<S>(routes: seq<Route<S>>, i: nat, state: S, call: Call, seen: Call)
    requires i < |routes| && IsTable(routes) && Matches(routes[i], call.name, call.path)
    requires seen.name == call.name && seen.path == call.path && SeesGlob(routes[i], seen)
    requires routes[i].run(state, seen).1.Some?
    ensures var (after, response) := routes[i].run(state, seen);
            IsRun(routes, i, state, call, Ran([Step(i, state, seen)], after, response))
  {
    var (after, response) := routes[i].run(state, seen);
    LastIsComplete(routes, i, call, Ran([Step(i, state, seen)], after, response));
  }

  /** Nothing is left out in front of the first handler. */
  lemma LastIsComplete<S>(routes: seq<Route<S>>, i: nat, call: Call, ran: Ran<S>)
    requires i < |routes| && IsTable(routes) && ran.response.Some? && |ran.steps| == 1 && ran.steps[0].handler == i
    ensures IsComplete(routes, i, call, ran)
  {
    assert Called(ran.steps, i);
  }

  /** A call that does not answer, in front of a run, is a run. */
  lemma RunExtends<S>(routes: seq<Route<S>>, i: nat, state: S, call: Call, seen: Call, after: S, ran: Ran<S>)
    requires i < |routes| && IsTable(routes) && Matches(routes[i], call.name, call.path)
    requires seen.name == call.name && seen.path == call.path && SeesGlob(routes[i], seen)
    requires routes[i].run(state, seen) == (after, None)
    requires IsRun(routes, i + 1, after, seen, ran)
    ensures IsRun(routes, i, state, call, ran.(steps := [Step(i, state, seen)] + ran.steps))
  {
    MatchesExtend(routes, i, call, Step(i, state, seen), ran.steps);
    ChainExtends(routes, Step(i, state, seen), after, ran);
    CompleteExtends(routes, i, call, Step(i, state, seen), ran);
  }

  lemma MatchesExtend<S>(routes: seq<Route<S>>, i: nat, call: Call, step: Step<S>, steps: seq<Step<S>>)
    requires i < |routes| && IsTable(routes) && Matches(routes[i], call.name, call.path)
    requires step.handler == i && step.call.name == call.name && step.call.path == call.path
    requires SeesGlob(routes[i], step.call)
    requires AreMatches(routes, i + 1, step.call, steps)
    ensures AreMatches(routes, i, call, [step] + steps)
  {}

  lemma ChainExtends<S>(routes: seq<Route<S>>, step: Step<S>, after: S, ran: Ran<S>)
    requires step.handler < |routes| && forall k :: 0 <= k < |ran.steps| ==> ran.steps[k].handler < |routes|
    requires Outcome(routes, step) == (after, None) && IsChain(routes, after, ran)
    ensures IsChain(routes, step.before, ran.(steps := [step] + ran.steps))
  {}

  lemma CompleteExtends<S>(routes: seq<Route<S>>, i: nat, call: Call, step: Step<S>, ran: Ran<S>)
    requires IsTable(routes) && step.handler == i && step.call.name == call.name && step.call.path == call.path
    requires IsComplete(routes, i + 1, step.call, ran)
    ensures IsComplete(routes, i, call, ran.(steps := [step] + ran.steps))
  {
    var steps := [step] + ran.steps;
    forall h: nat | i <= h < |routes| && Matches(routes[h], call.name, call.path)
      ensures Called(steps, h) || AnsweredBefore(ran.(steps := steps), h)
    {
      if h == i {
        assert steps[0].handler == h;
      } else if Called(ran.steps, h) {
        var k :| 0 <= k < |ran.steps| && ran.steps[k].handler == h;
        assert steps[k + 1].handler == h;
      }
    }
  }
}
