/** graphs.c: the links of the HTML page that lists the named graphs. */
module GraphIndex {
  import opened Text
  import opened Buffers
  import opened Url
  import opened Headers
  import opened Request
  import opened RoundTrip
  import Handlers
  import RedStoreRoutes

  const GRAPH_QUERY := "/data/?graph="

  /** `strstr`. */
  predicate Contains(s: string, t: string) {
    exists i {:trigger StartsAt(s, i, t)} :: 0 <= i <= |s| && StartsAt(s, i, t)
  }

  lemma ContainsIs(s: string, t: string)
    ensures Contains(s, t) <==> exists before, behind :: s == before + t + behind
  {
    if Contains(s, t) {
      var i :| 0 <= i <= |s| && StartsAt(s, i, t);
      StartsAtSlice(s, i, t);
      assert s == s[..i] + t + s[i + |t|..];
    }
    if before, behind :| s == before + t + behind {
      assert StartsAt(s, |before|, t);
    }
  }

  function IndirectLink(uri: string): string
    requires IsAscii(uri)
  {
    GRAPH_QUERY + Escape(uri)
  }

  const OPENING := "<li><a href=\""

  function Anchor(href: string, text: string): string {
    OPENING + (href + ("\">" + (text + "</a></li>\n")))
  }

  /** The link that a reader of the page finds in an item: the attribute's text up to its closing quote. */
  function HrefOf(item: string): string
    requires |OPENING| <= |item|
  {
    Copied(item, |OPENING|, FirstFrom(item, |OPENING|, '\"', '\"'))
  }

  lemma HrefOfAnchor(href: string, text: string)
    requires Without(href, '\"', '\"')
    ensures HrefOf(Anchor(href, text)) == href
  {
    var rest := href + ("\">" + (text + "</a></li>\n"));
    FirstFromIs(rest, 0, '\"', '\"', |href|);
    FirstFromShift(OPENING, rest, 0, '\"', '\"');
  }

  /** The XML escaping of the page writer leaves unreserved characters and `%` alone. */
  ghost predicate KeepsUrlText(xml: string -> string) {
    forall s :: IsUrlText(s) ==> xml(s) == s
  }

  lemma LinkHasNoQuote(uri: string)
    requires IsAscii(uri)
    ensures Without(IndirectLink(uri), '\"', '\"') && IsUrlText(Escape(uri))
  {
    EscapeIsText(uri);
  }

  /** The text an item's link is written with; the graph's own URI if it contains the server's root. */
  method WriteLink(uri: string, root: string, xml: string -> string) returns (href: string)
    requires IsAscii(uri) && KeepsUrlText(xml)
    ensures href == if Contains(uri, root) then xml(uri) else IndirectLink(uri)
  {
    if Contains(uri, root) { return xml(uri); }
    var buffer := UrlEscape(uri);
    var escaped := StringOf(buffer, Escape(uri));
    LinkHasNoQuote(uri);
    href := GRAPH_QUERY + xml(escaped);
  }

  /** Appends the item of one graph.  A graph of another server is linked by the query that names it. */
  method AppendItem(page: Output, uri: string, root: string, xml: string -> string) returns (item: string)
    requires IsAscii(uri) && KeepsUrlText(xml)
    modifies page
    ensures page.text == old(page.text) + item && |OPENING| <= |item| && item[..|OPENING|] == "<li><a href=\""
    ensures if Contains(uri, root) then item == Anchor(xml(uri), xml(uri)) else HrefOf(item) == IndirectLink(uri)
  {
    var href := WriteLink(uri, root, xml);
    item := Anchor(href, xml(uri));
    if !Contains(uri, root) {
      LinkHasNoQuote(uri);
      HrefOfAnchor(href, xml(uri));
    }
    page.text := page.text + item;
  }

  // ----- following a link -----

  function GraphArgument(uri: string): Header { Header("graph", Some(uri)) }

  /** A key that escaping leaves alone. */
  predicate IsSafeKey(key: string) {
    key != "" && IsAscii(key) && forall i :: 0 <= i < |key| ==> IsUrlSafe(key[i])
  }

  lemma QueryOfOne(key: string, value: string)
    requires IsSafeKey(key) && value != "" && IsAscii(value)
    ensures ArePlainArguments([Header(key, Some(value))])
    ensures QueryText([Header(key, Some(value))]) == key + ("=" + Escape(value))
  {
    EscapeSafe(key);
    var args := [Header(key, Some(value))];
    assert QueryText(args) == ArgumentTexts(args)[0];
  }

  /** A path that unescaping leaves alone. */
  predicate IsPlainPath(path: string) {
    IsCString(path) && Without(path, '%', '+') && Without(path, '?', '?')
  }

  lemma OneArgumentIsRead(path: string, key: string, value: string)
    requires IsPlainPath(path) && IsSafeKey(key) && value != "" && IsAscii(value)
    ensures var target := path + ("?" + (key + ("=" + Escape(value))));
            && PathOf(target) == path && IsTarget(target)
            && TargetArguments(target) == [Header(key, Some(value))]
  {
    QueryOfOne(key, value);
    CutsAt(path, key + ("=" + Escape(value)));
    UnescapePlain(path);
    CStrOfCString(path, "");
    QueryRoundTrip([Header(key, Some(value))]);
  }

  lemma LinkParts(query: string)
    ensures GRAPH_QUERY + query == "/data/" + ("?" + ("graph" + ("=" + query)))
  {}

  /** The target of an indirect link reads as the data path with the graph as its only argument. */
  lemma IndirectLinkNamesGraph(uri: string)
    requires uri != "" && IsAscii(uri)
    ensures IsCString(IndirectLink(uri)) && IsTarget(IndirectLink(uri))
    ensures PathOf(IndirectLink(uri)) == "/data/"
    ensures TargetArguments(IndirectLink(uri)) == [Header("graph", Some(uri))]
  {
    EscapeIsCString(uri);
    LinkParts(Escape(uri));
    OneArgumentIsRead("/data/", "graph", uri);
  }

  /** A GET of that path runs the data handler. */
  lemma LinkReachesData(uri: string)
    requires uri != "" && IsAscii(uri)
    ensures Handlers.HandlerFor("GET", PathOf(IndirectLink(uri))) == Some(RedStoreRoutes.DataGet)
  {
    IndirectLinkNamesGraph(uri);
    assert "/data/"[..5] == "/data";
  }

  lemma GraphIsFound(uri: string)
    ensures Lookup([GraphArgument(uri)], "graph") == Some(uri)
  {
    LookupIsFirst([GraphArgument(uri)], "graph", 0);
  }

  /** Different graphs have different links. */
  lemma LinksDiffer(u: string, v: string)
    requires IsAscii(u) && IsAscii(v) && IndirectLink(u) == IndirectLink(v)
    ensures u == v
  {
    assert Escape(u) == IndirectLink(u)[|GRAPH_QUERY|..];
    assert Escape(v) == IndirectLink(v)[|GRAPH_QUERY|..];
    Injective(u, v);
  }

  /** A request object set to an indirect link has the graph as its `graph` argument. */
  method FollowLink(request: Request, uri: string) returns (path: Option<string>, graph: Option<string>)
    requires request.Valid() && request.arguments.items == [] && uri != "" && IsAscii(uri)
    modifies request, request.arguments, request.arguments.repr
    ensures path == Some("/data/") && graph == Some(uri)
  {
    var buffer := UrlEscape(uri);
    var escaped := StringOf(buffer, Escape(uri));
    IndirectLinkNamesGraph(uri);
    GraphIsFound(uri);
    request.SetPathAndQuery(Some(GRAPH_QUERY + escaped));
    path := request.path;
    graph := Headers.Get(request.arguments, "graph");
  }
}
