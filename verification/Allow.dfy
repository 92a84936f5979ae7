/** server.c: the methods a path allows (sections 10.4.6 and 14.7 of RFC 2616). */
module Allow {
  import opened Text
  import opened LinkedLists
  import opened Lines
  import opened Routing

  const MAX_ALLOWED_METHODS := 50

  predicate InList(list: seq<string>, name: string) {
    exists i :: 0 <= i < |list| && list[i] == name
  }

  predicate NoDuplicates(list: seq<string>) {
    forall i, j :: 0 <= i < j < |list| ==> list[i] != list[j]
  }

  /** Is the route one whose method counts for the path?  No path stands for the whole server. */
  predicate Counts<S>(route: Route<S>, path: Option<string>) {
    route.name.Some? && (path.None? || route.path == path)
  }

  function Added(list: seq<string>, name: string): seq<string> {
    if InList(list, name) then list else list + [name]
  }

  /** The list after a route: its method if it is new, and HEAD with a new GET. */
  function AddedBy<S>(list: seq<string>, route: Route<S>, path: Option<string>): seq<string> {
    if !Counts(route, path) || InList(list, route.name.value) then list
    else if route.name.value == "GET" then Added(list + ["GET"], "HEAD")
    else list + [route.name.value]
  }

  /** The methods of the first n routes, without a limit on their number. */
  function Methods<S>(routes: seq<Route<S>>, n: nat, path: Option<string>): (list: seq<string>)
    requires n <= |routes|
  {
    if n == 0 then ["OPTIONS"] else AddedBy(Methods(routes, n - 1, path), routes[n - 1], path)
  }

  function Prefix(list: seq<string>): seq<string> {
    if |list| <= MAX_ALLOWED_METHODS then list else list[..MAX_ALLOWED_METHODS]
  }

  /** The allowed methods of a path. */
  function AllowList<S>(routes: seq<Route<S>>, path: Option<string>): seq<string> {
    Prefix(Methods(routes, |routes|, path))
  }

  // ----- what the list is -----

  predicate IsMethodOf<S>(routes: seq<Route<S>>, n: nat, path: Option<string>, name: string)
    requires n <= |routes|
  {
    exists i :: 0 <= i < n && routes[i].name == Some(name) && (path == None || routes[i].path == path)
  }

  /** OPTIONS, the methods of the path's routes, and HEAD if GET is one of them. */
  predicate IsAllowed<S>(routes: seq<Route<S>>, n: nat, path: Option<string>, name: string)
    requires n <= |routes|
  {
    name == "OPTIONS" || IsMethodOf(routes, n, path, name) || (name == "HEAD" && IsMethodOf(routes, n, path, "GET"))
  }

  lemma InAppended(list: seq<string>, x: string, name: string)
    ensures InList(list + [x], name) <==> InList(list, name) || name == x
  {
    if InList(list, name) {
      var i :| 0 <= i < |list| && list[i] == name;
      assert (list + [x])[i] == name;
    }
    assert (list + [x])[|list|] == x;
  }

  lemma InAddedBy<S>(list: seq<string>, route: Route<S>, path: Option<string>, name: string)
    ensures InList(AddedBy(list, route, path), name) <==>
              || InList(list, name)
              || (Counts(route, path) && !InList(list, route.name.value)
                  && (name == route.name.value || (name == "HEAD" && route.name.value == "GET")))
  {
    if Counts(route, path) {
      InAppended(list, route.name.value, name);
      InAppended(list, route.name.value, "HEAD");
      InAppended(list + ["GET"], "HEAD", name);
    }
  }

  /** The list, if it is not cut off, holds exactly the allowed methods. */
  lemma {:induction false} MethodsAreAllowed<S>(routes: seq<Route<S>>, n: nat, path: Option<string>, name: string)
    requires n <= |routes|
    ensures InList(Methods(routes, n, path), name) <==> IsAllowed(routes, n, path, name)
  {
    if n == 0 {
      assert Methods(routes, 0, path)[0] == "OPTIONS";
    } else {
      var route := routes[n - 1];
      MethodsAreAllowed(routes, n - 1, path, name);
      MethodsAreAllowed(routes, n - 1, path, "GET");
      InAddedBy(Methods(routes, n - 1, path), route, path, name);
      if Counts(route, path) { MethodsAreAllowed(routes, n - 1, path, route.name.value); }
    }
  }

  lemma {:induction false} MethodsStart<S>(routes: seq<Route<S>>, n: nat, path: Option<string>)
    requires n <= |routes|
    ensures |Methods(routes, n, path)| > 0 && Methods(routes, n, path)[0] == "OPTIONS"
  {
    if n > 0 { MethodsStart(routes, n - 1, path); }
  }

  lemma {:induction false} MethodsDiffer<S>(routes: seq<Route<S>>, n: nat, path: Option<string>)
    requires n <= |routes|
    ensures NoDuplicates(Methods(routes, n, path))
  {
    if n > 0 {
      MethodsDiffer(routes, n - 1, path);
      var list := Methods(routes, n - 1, path);
      if Counts(routes[n - 1], path) && !InList(list, routes[n - 1].name.value) {
        assert NoDuplicates(list + [routes[n - 1].name.value]);
      }
    }
  }

  /** The list starts with OPTIONS, and has no duplicates and only allowed methods. */
  lemma AllowListIsRight<S>(routes: seq<Route<S>>, path: Option<string>)
    ensures var list := AllowList(routes, path);
            && 0 < |list| <= 50 && list[0] == "OPTIONS" && NoDuplicates(list)
            && forall i :: 0 <= i < |list| ==> IsAllowed(routes, |routes|, path, list[i])
  {
    var all, list := Methods(routes, |routes|, path), AllowList(routes, path);
    MethodsStart(routes, |routes|, path);
    MethodsDiffer(routes, |routes|, path);
    forall i | 0 <= i < |list| ensures IsAllowed(routes, |routes|, path, list[i]) {
      assert all[i] == list[i];
      MethodsAreAllowed(routes, |routes|, path, list[i]);
    }
  }

  /** It has all allowed methods exactly if these fit its slots. */
  lemma {:induction false} AllowListIsComplete<S>(routes: seq<Route<S>>, path: Option<string>)
    ensures (forall name :: IsAllowed(routes, |routes|, path, name) ==> InList(AllowList(routes, path), name)) <==>
              |Methods(routes, |routes|, path)| <= 50
  {
    var all, list := Methods(routes, |routes|, path), AllowList(routes, path);
    if |all| <= MAX_ALLOWED_METHODS {
      forall name | IsAllowed(routes, |routes|, path, name) ensures InList(list, name) {
        MethodsAreAllowed(routes, |routes|, path, name);
      }
    } else {
      var left := all[MAX_ALLOWED_METHODS];
      MethodsDiffer(routes, |routes|, path);
      MethodsAreAllowed(routes, |routes|, path, left);
      forall i | 0 <= i < |list| ensures list[i] != left { assert list[i] == all[i]; }
    }
  }

  // ----- the header text -----

  /** The methods from position k on behind the text, each with a comma; one that does not fit is left out. */
  function TextFrom(list: seq<string>, k: nat, text: string): string
    requires k <= |list|
    decreases |list| - k
  {
    if k == |list| then text
    else TextFrom(list, k + 1, if |text| + |list[k]| + 2 < BUFSIZ then text + "," + list[k] else text)
  }

  function AllowText(list: seq<string>): string
    requires |list| > 0
  {
    TextFrom(list, 1, list[0])
  }

  lemma {:induction false} TextFits(list: seq<string>, k: nat, text: string)
    requires k <= |list| && |text| + 1 < BUFSIZ
    ensures |TextFrom(list, k, text)| + 1 < BUFSIZ
    decreases |list| - k
  {
    if k < |list| { TextFits(list, k + 1, if |text| + |list[k]| + 2 < BUFSIZ then text + "," + list[k] else text); }
  }

  /** A comma and the methods from position k on, joined by commas. */
  function Tail(list: seq<string>, k: nat): string
    requires k <= |list|
  {
    if k == |list| then "" else "," + JoinFrom(list, k, ',')
  }

  lemma TailStep(list: seq<string>, k: nat, text: string)
    requires k < |list|
    ensures text + Tail(list, k) == (text + "," + list[k]) + Tail(list, k + 1)
  {}

  /** The text is the joined list exactly if that fits; a text with less in it is shorter. */
  lemma {:induction false} TextIsJoin(list: seq<string>, k: nat, text: string)
    requires k <= |list| && |text| + 1 < BUFSIZ
    ensures |TextFrom(list, k, text)| <= |text + Tail(list, k)|
    ensures TextFrom(list, k, text) == text + Tail(list, k) <==> |text + Tail(list, k)| + 1 < BUFSIZ
    decreases |list| - k
  {
    if k < |list| {
      var next := text + "," + list[k];
      TailStep(list, k, text);
      if |next| + 1 < BUFSIZ {
        TextIsJoin(list, k + 1, next);
      } else {
        TextFits(list, k, text);
        TextIsShorter(list, k + 1, text);
      }
    }
  }

  lemma {:induction false} TextIsShorter(list: seq<string>, k: nat, text: string)
    requires k <= |list|
    ensures |TextFrom(list, k, text)| <= |text + Tail(list, k)|
    decreases |list| - k
  {
    if k < |list| {
      TailStep(list, k, text);
      TextIsShorter(list, k + 1, if |text| + |list[k]| + 2 < BUFSIZ then text + "," + list[k] else text);
    }
  }

  /** The header's text is the list joined by commas exactly if that fits the buffer. */
  lemma AllowTextIsJoin(list: seq<string>)
    requires |list| > 0 && |list[0]| + 1 < 8192
    ensures |AllowText(list)| + 1 < 8192
    ensures AllowText(list) == Join(list, ',') <==> |Join(list, ',')| + 1 < 8192
  {
    TextFits(list, 1, list[0]);
    TextIsJoin(list, 1, list[0]);
    assert Join(list, ',') == list[0] + Tail(list, 1);
  }

  /** Splitting a text that fits gives back the methods. */
  lemma AllowTextRoundTrip(list: seq<string>)
    requires |list| > 0 && |list[0]| + 1 < 8192 && |Join(list, ',')| + 1 < 8192
    requires forall i :: 0 <= i < |list| ==> Without(list[i], ',', ',')
    ensures Split(AllowText(list), ',', ',') == list
  {
    AllowTextIsJoin(list);
    SplitJoin(list, 0, ',', ',', ',');
    assert list[0..] == list;
  }

  lemma {:induction false} TextNext(list: seq<string>, k: nat, text: string, name: string)
    requires k <= |list|
    ensures var all := TextFrom(list, k, text);
            TextFrom(list + [name], k, text) == if |all| + |name| + 2 < 8192 then all + "," + name else all
    decreases |list| - k
  {
    if k < |list| {
      assert (list + [name])[k] == list[k];
      TextNext(list, k + 1, if |text| + |list[k]| + 2 < BUFSIZ then text + "," + list[k] else text, name);
    } else {
      assert (list + [name])[k] == name;
    }
  }

  /** One more method joins the text behind a comma, unless it does not fit. */
  lemma AllowTextNext(list: seq<string>, name: string)
    requires |list| > 0
    ensures AllowText([name]) == name
    ensures AllowText(list + [name])
         == if |AllowText(list)| + |name| + 2 < 8192 then AllowText(list) + "," + name else AllowText(list)
  {
    TextNext(list, 1, list[0], name);
  }

  /** The text never names a method that the list does not. */
  lemma {:induction false} TextNamesOnly(list: seq<string>, k: nat, text: string, name: string)
    requires k <= |list| && forall i :: 0 <= i < |list| ==> Without(list[i], ',', ',')
    requires InList(Split(TextFrom(list, k, text), ',', ','), name)
    ensures InList(Split(text, ',', ','), name) || InList(list, name)
    decreases |list| - k
  {
    if k < |list| {
      if |text| + |list[k]| + 2 < BUFSIZ {
        var next := text + "," + list[k];
        TextNamesOnly(list, k + 1, next, name);
        assert next == text + ([','] + list[k]);
        SplitLast(text, 0, ',', list[k], ',', ',');
        InAppended(Split(text, ',', ','), list[k], name);
      } else {
        TextNamesOnly(list, k + 1, text, name);
      }
    }
  }

  lemma AllowTextNamesOnly(list: seq<string>, name: string)
    requires |list| > 0 && forall i :: 0 <= i < |list| ==> Without(list[i], ',', ',')
    requires InList(Split(AllowText(list), ',', ','), name)
    ensures InList(list, name)
  {
    TextNamesOnly(list, 1, list[0], name);
    SplitWhole(list[0], ',', ',');
    assert list[0] == name ==> InList(list, name);
  }

  // ----- filling the array -----

  /** The array of method names holds the list, then null pointers. */
  ghost predicate HoldsList(allowed: array<Option<string>>, list: seq<string>)
    reads allowed
  {
    && |list| <= allowed.Length
    && (forall i :: 0 <= i < |list| ==> allowed[i] == Some(list[i]))
    && forall i :: |list| <= i < allowed.Length ==> allowed[i] == None
  }

  function AddedWithin(list: seq<string>, max: nat, name: string): seq<string> {
    if InList(list, name) || |list| >= max then list else list + [name]
  }

  /** Puts the method into the first free slot, unless it is there already or none is free. */
  method AddAllowedMethod(allowed: array<Option<string>>, max: nat, name: string, ghost list: seq<string>)
    returns (added: bool)
    requires HoldsList(allowed, list) && max == allowed.Length
    modifies allowed
    ensures HoldsList(allowed, AddedWithin(list, max, name))
    ensures added <==> !InList(list, name) && |list| < max
  {
    for i := 0 to max
      invariant i <= |list| && HoldsList(allowed, list) && forall j :: 0 <= j < i ==> list[j] != name
    {
      if allowed[i].None? {
        allowed[i] := Some(name);
        return true;
      } else if allowed[i].value == name {
        return false;
      }
    }
    added := false;
  }

  /** Filling up to the limit gives the start of the unlimited list. */
  lemma AddedIsPrefix(all: seq<string>, name: string)
    ensures Prefix(Added(all, name)) == AddedWithin(Prefix(all), MAX_ALLOWED_METHODS, name)
  {
    if |all| >= MAX_ALLOWED_METHODS { assert Prefix(all + [name]) == Prefix(all); }
  }

  /** A method that counts for the path is added, and HEAD with a GET that was new. */
  method AddRoute<S>(allowed: array<Option<string>>, route: Route<S>, path: Option<string>, ghost all: seq<string>)
    requires allowed.Length == MAX_ALLOWED_METHODS && HoldsList(allowed, Prefix(all)) && Counts(route, path)
    modifies allowed
    ensures HoldsList(allowed, Prefix(AddedBy(all, route, path)))
  {
    ghost var name := route.name.value;
    AddedIsPrefix(all, name);
    AddedIsPrefix(all + ["GET"], "HEAD");
    var added := AddAllowedMethod(allowed, MAX_ALLOWED_METHODS, route.name.value, Prefix(all));
    if added && route.name.value == "GET" {
      var head := AddAllowedMethod(allowed, MAX_ALLOWED_METHODS, "HEAD", Prefix(Added(all, name)));
    } else if !added && !InList(all, name) && name == "GET" {
      assert Prefix(Added(all + ["GET"], "HEAD")) == Prefix(all + ["GET"]);
    }
  }

  /** The allowed methods of a path, in a list of fixed size. */
  method Collect<S>(handlers: List<Route<S>>, path: Option<string>) returns (allowed: array<Option<string>>)
    requires handlers.Valid()
    ensures fresh(allowed) && allowed.Length == MAX_ALLOWED_METHODS
    ensures HoldsList(allowed, AllowList(handlers.items, path))
  {
    allowed := new Option<string>[MAX_ALLOWED_METHODS](i => if i == 0 then Some("OPTIONS") else None);
    var it := handlers.first;
    ghost var k := 0;
    while it != null
      invariant 0 <= k <= |handlers.nodes| && it == NodeAt(handlers.nodes, k)
      invariant HoldsList(allowed, Prefix(Methods(handlers.items, k, path)))
      decreases |handlers.nodes| - k
    {
      if it.data.name.Some? {
        if path.None? || it.data.path == path {
          AddRoute(allowed, it.data, path, Methods(handlers.items, k, path));
        }
      }
      it := it.next;
      k := k + 1;
    }
  }

  /** Joins the methods in a buffer of fixed size. */
  method JoinMethods(allowed: array<Option<string>>, ghost list: seq<string>) returns (text: string)
    requires |list| > 0 && HoldsList(allowed, list)
    ensures text == AllowText(list)
  {
    text := allowed[0].value;
    for i := 1 to allowed.Length
      invariant i <= |list| && TextFrom(list, i, text) == AllowText(list)
    {
      if allowed[i].None? { break; }
      if |text| + |allowed[i].value| + 2 < BUFSIZ {
        text := text + "," + allowed[i].value;
      }
    }
  }

  const ADVICE := "Please use one of the allowed methods:<br /><code>"

  /** What `snprintf` keeps of a text. */
  function Truncated(text: string): string {
    if |text| < BUFSIZ then text else text[..BUFSIZ - 1]
  }

  function AllowResponse<S>(status: int, routes: seq<Route<S>>, path: Option<string>): Response {
    MethodsStart(routes, |routes|, path);
    var text := AllowText(AllowList(routes, path));
    Response(status, if status == 200 then None else Some(Truncated(ADVICE + text + "</code>")), Some(text))
  }

  /** A success carries the text as Allow header only; any other status advises it too, as far as that fits. */
  lemma AllowResponseIs<S>(status: int, routes: seq<Route<S>>, path: Option<string>)
    ensures |AllowList(routes, path)| > 0
    ensures var answer, text := AllowResponse(status, routes, path), AllowText(AllowList(routes, path));
            && answer.status == status && answer.allow == Some(text)
            && (status == 200 ==> answer.message == None)
            && (status != 200 && |text| < 8000 ==>
                  answer.message == Some("Please use one of the allowed methods:<br /><code>" + text + "</code>"))
  {
    MethodsStart(routes, |routes|, path);
  }

  method CheckAllowedResponses<S>(status: int, handlers: List<Route<S>>, path: Option<string>)
    returns (response: Response)
    requires handlers.Valid()
    ensures response == AllowResponse(status, handlers.items, path)
  {
    MethodsStart(handlers.items, |handlers.items|, path);
    var allowed := Collect(handlers, path);
    var text := JoinMethods(allowed, AllowList(handlers.items, path));
    var message := if status == 200 then None else Some(Truncated(ADVICE + text + "</code>"));
    response := Response(status, message, Some(text));
  }
}
