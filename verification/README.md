# RedStore's HTTP library, verified in Dafny

RedStore is an RDF triple store with an HTTP interface.  Its own logic is an HTTP library (`src/redhttp`)
and a few places of the program that depend on it.  This project models four parts of that logic and proves
what they promise:

1. **Content negotiation.**  A preference list is a singly linked list that a pointer-swapping bubble sort
   reorders in place after every append.  The sort is proved to be the stable sort on any acyclic list, with
   the same nodes and n(n-1)/2 comparisons.  The choice of a type leaves its inner loop early; it is proved to
   find the first best offer on every list the library builds.  The parser and the printer undo each other.
2. **The request codec.**  A line reader with a doubling buffer, a status-line parser and an argument tokenizer
   that cut their buffers in place, percent-encoding and ordered header lists are each proved against a
   declarative specification.  Together they give the round trip of whole requests, with and without a form.
3. **Graph names.**  The generated names are a bijection of the counter modulo 2^32, and the retry loop that
   picks a name for a new graph fails only when ten graphs exist.
4. **Routing.**  Dispatch calls the matching handlers in order of registration up to the first answer; the
   `Allow` list is what it should be; and over every run of the program the request counter counts the
   dispatched requests.  Which handler a request runs, and what it finds in the error buffer, is stated exactly.

`dafny verify dfyconfig.toml` checks all of it.

## How the model is built

- A C string is a `string` without NUL.  A buffer that the program cuts in place is an `array<char>`, a pointer
  into it is an index, and writing NUL over a character ends the string there (`Buffers`).
- The list structs of the library differ only in their payload.  `LinkedLists.List` is the `first` pointer of
  such a list; its ghost fields are the nodes of the chain and their payloads.  Methods rewire `next` pointers.
- A method that the program implements with loops and updates is a Dafny method, and its `ensures` ties the new
  state to a specification function of the old one.  What the program promises is then proved about those
  functions.
- C assertions are `requires`.  Input that the program handles has its own branch in the specification, so the
  bad requests, the missing headers and the lists without a match are all covered.
- The quality factor is a number of tenths, 0 to 10; `strtod` is modelled on exact decimals.
- Characters are classified as in the C locale.
- Handlers are functions on the program's globals that may answer a request or pass it on.  The application
  handlers of RedStore are parameters of the route table.
- Randomness, the resolution of a URI against a base, the graphs in the store and the XML escaping of pages are
  parameters.

## Files

| file | content |
|---|---|
| `Text.dfy`, `Buffers.dfy`, `LinkedLists.dfy`, `Numbers.dfy` | strings, buffers, lists, decimal numbers |
| `Negotiation.dfy`, `BubbleSort.dfy`, `Negotiate.dfy`, `Choice.dfy` | the sort and the choice |
| `AcceptSyntax.dfy`, `NegotiateText.dfy` | reading and writing preference lists |
| `Formats.dfy` | the format of a response |
| `Url.dfy`, `Headers.dfy`, `Arguments.dfy` | percent-encoding, header lists, arguments |
| `Lines.dfy`, `StatusLine.dfy`, `Request.dfy`, `RoundTrip.dfy` | reading a request, and writing one |
| `GraphIndex.dfy` | links to graphs |
| `GenId.dfy`, `NewGraph.dfy` | names of new graphs |
| `Routing.dfy`, `Allow.dfy`, `Servers.dfy`, `RedStoreRoutes.dfy`, `Handlers.dfy`, `ErrorBuffer.dfy` | dispatch, allowed methods, the route table, its handlers, the error buffer |

## Model

| member | source | states |
|---|---|---|
| Negotiate.Sort | src/redhttp/negotiate.c:165-203 | the in-place sort leaves an acyclic list of the same nodes with the same payloads; its entries are the stable sort of the old ones by falling quality; it costs exactly n(n-1)/2 comparisons |
| Negotiate.Pass | src/redhttp/negotiate.c:177-201 | one pass up to the boundary bubbles the lowest entry before it to its end, and the boundary moves one node towards the head |
| Negotiate.CompareStep | src/redhttp/negotiate.c:180-198 | comparing two neighbours swaps their nodes, by rewiring pointers, exactly if the second is better |
| BubbleSort.PassesSort | src/redhttp/negotiate.c:165-203 | the passes keep the nodes of each quality in their order, and the entries they end with are the stable sort |
| BubbleSort.BubbleSettles | src/redhttp/negotiate.c:177-201 | after a pass the entry before the boundary is at most every entry in front of it, and what was settled stays |
| BubbleSort.StepReorders | src/redhttp/negotiate.c:180-197 | a swap keeps the nodes of each quality in their order |
| BubbleSort.ReorderedIsPermutation | src/redhttp/negotiate.c:165-203 | a reordered list has exactly the old nodes |
| BubbleSort.ComparisonsClosed | src/redhttp/negotiate.c:176-202 | the comparisons of all passes over n nodes sum up to n(n-1)/2 |
| Negotiation.StableSortCorrect | src/redhttp/negotiate.c:165-203 | the specification of the sort is non-increasing in quality and keeps, for every quality, the entries of that quality in order |
| Negotiation.StableSortUnique | src/redhttp/negotiate.c:165-203 | no other list has these properties |
| Negotiate.Add | src/redhttp/negotiate.c:205-242 | adding trims the type, appends the entry and leaves the stable sort of the old list and the new entry |
| Negotiate.Trimmed | src/redhttp/negotiate.c:214-223 | the stored type is the given range without the spaces at either end |
| AcceptSyntax.TypeIsTrimmed | src/redhttp/negotiate.c:214-223 | space before and behind the type of an element is not part of it |
| Negotiation.AddToSorted | src/redhttp/negotiate.c:205-242 | on a sorted list an add is an insertion |
| Negotiation.InsertPosition | src/redhttp/negotiate.c:205-242 | an insertion lands just behind the last entry whose quality is at least the new one |
| Negotiation.SortIncrementally | src/redhttp/negotiate.c:205-242 | sorting before an add does not change what sorting after it gives |
| Negotiation.AddsAreStableSort | src/redhttp/negotiate.c:205-242 | adding any sequence of entries, sorting after each, gives the stable sort of all of them in call order |
| Negotiate.AddAll | src/redhttp/negotiate.c:205-242 | any sequence of adds to a sorted list on the heap leaves the stable sort of the old entries and the trimmed new ones in call order |
| Negotiate.Get | src/redhttp/negotiate.c:125-149 | the entry at an index, none outside the list |
| LinkedLists.List.Append | src/redhttp/negotiate.c:231-238 | linking a node at the tail keeps the chain acyclic and appends the payload |
| LinkedLists.List.Count | src/redhttp/negotiate.c:151-163 | the number of entries |
| Negotiate.Choose | src/redhttp/negotiate.c:44-70 | the chosen type is that of the early-exit scan; on a client list of non-increasing quality it is that of the first server entry with the highest score of all matching pairs, and none if no pair matches |
| Choice.ChoiceIsFirstMaximum | src/redhttp/negotiate.c:34-70 | in terms of the lists alone, for a client list of falling quality: the chosen offer has the highest product with a preference that is `*/*` or names its type, and a higher one than every offer before it; nothing is chosen exactly if no preference accepts an offer |
| Choice.WildcardFindsOffer | src/redhttp/negotiate.c:37-38 | a client list with `*/*` gets something from every server list that is not empty |
| Choice.EarlyScanCorrect | src/redhttp/negotiate.c:51-62 | on a client list of non-increasing quality the scan with the early exit finds the first best offer, or none exactly if no pair matches |
| Choice.ScansAgree | src/redhttp/negotiate.c:51-62 | on a client list that meets this condition, as every sorted one does, the early exit changes neither the score nor the choice |
| Choice.ScanCorrect | src/redhttp/negotiate.c:51-62 | without the exit the scan is right on every list |
| Choice.EarlyScanExact | src/redhttp/negotiate.c:51-62 | the scan with the early exit finds the first best offer of every server list exactly if, for every type, the first client preference that accepts it is the best that does |
| Choice.EarlyScanMisses | src/redhttp/negotiate.c:55-59 | if for some type it is not, a server that offers the type twice gets the second offer instead of the first |
| Numbers.RoundIsNearest | src/redhttp/negotiate.c:72-77 | rounding gives a nearest integer, and of two the one farther from zero, for either sign |
| NegotiateText.Parse | src/redhttp/negotiate.c:79-123 | parsing a text whose elements all name a type gives the stable sort of its elements |
| NegotiateText.ReadQuality | src/redhttp/negotiate.c:99-107 | the scan for `q=` keeps the last usable number, in tenths, and 10 without one |
| AcceptSyntax.ScanFindsLast | src/redhttp/negotiate.c:99-107 | of the places with `q=` and more than three characters left in the element, the last one decides |
| AcceptSyntax.QualityIsRounded | src/redhttp/negotiate.c:103-105 | a number from 0 to 1 is rounded to tenths, halves upwards; anything else changes nothing |
| AcceptSyntax.WeightedIsRead | src/redhttp/negotiate.c:93-114 | a type, `;q=` and a number give the type with the quality of the number, if that has two characters or more, and else with 10 |
| AcceptSyntax.FractionIsQuality | src/redhttp/negotiate.c:93-114 | `;q=0.` and any digits give the quality that the fraction rounds to |
| Numbers.FractionIsRead | src/redhttp/negotiate.c:103 | digits, a point and digits behind optional space are read as the decimal fraction |
| Numbers.IntegerIsRead | src/redhttp/negotiate.c:103 | digits behind optional space, with no point or exponent, are read as the integer |
| Numbers.DigitsHaveValue | src/redhttp/negotiate.c:103 | the digits are decimal |
| Numbers.SignIsRead | src/redhttp/negotiate.c:103 | a minus in front of the digits negates the number |
| Numbers.NoNumberIsRead | src/redhttp/negotiate.c:103 | text that starts with no space, sign, digit or point is no number |
| Numbers.ExponentIsRead | src/redhttp/negotiate.c:103 | an exponent scales the digits before it by a power of ten |
| AcceptSyntax.ElementsAreIndependent | src/redhttp/negotiate.c:88-120 | the elements of a text are what its pieces between commas denote on their own |
| NegotiateText.ToString | src/redhttp/negotiate.c:244-283 | the text is the printed list with its terminator, in a buffer of exactly its length |
| NegotiateText.PrintedLength | src/redhttp/negotiate.c:253-260 | the counting pass gives the length that the writing pass produces |
| AcceptSyntax.EntryIsPrinted | src/redhttp/negotiate.c:267-274 | an entry is printed as its type and, below 10, `;q=0.` and its tenths |
| AcceptSyntax.PrintIsJoin | src/redhttp/negotiate.c:266-279 | the printed list is its printed entries joined by commas |
| AcceptSyntax.ParsePrintRoundTrip | src/redhttp/negotiate.c:79-123 | parsing a printed list that is non-increasing in quality gives the list back, for all plain types |
| AcceptSyntax.ParsePrintParse | src/redhttp/negotiate.c:244-283 | parsing, printing and parsing again is parsing, on every acceptable text |
| Formats.GetFormatByName | src/utils.c:85-104 | the first descriptor with the name; none for a missing or empty name |
| Formats.BestFormat | src/utils.c:119-143 | the descriptor and MIME type of the best score over all descriptors, their types and the preferences |
| Formats.NegotiateFormat | src/utils.c:106-161 | an explicit format goes by name; an Accept header that is neither empty nor `*/*` by the first best type in table order, in terms of the table and the preferences alone; anything else by the default name; without a negotiated MIME type the first of the descriptor is filled in |
| Formats.FormatIsFirstBest | src/utils.c:119-143 | on the Accept path the choice is the first best pair in table order, the MIME type is one of the descriptor's own, and the type negotiation on the flattened table chooses the same |
| Formats.NegotiateString | src/utils.c:163-191 | an explicit format as it is, the first best supported type for an Accept header that is neither empty nor `*/*`, else the default |
| Url.RoundTrip | src/redhttp/url.c:88-123 | unescaping an escaped string of characters 1..127 gives the string back |
| Url.Injective | src/redhttp/url.c:88-123 | different strings have different escapes |
| Url.EscapeShape | src/redhttp/url.c:107-119 | an escape holds only unreserved characters and %XX triples |
| Url.EscapeIs | src/redhttp/url.c:80-119 | an unreserved character of section 2.3 of RFC 3986 stays, and any other becomes `%` and the two capital hex digits of its code |
| Url.Unescape | src/redhttp/url.c:45-77 | decoding never lengthens a text |
| Url.UrlEscape | src/redhttp/url.c:88-123 | the counting pass allocates exactly the length that the writing pass fills |
| Url.UrlUnescape | src/redhttp/url.c:45-77 | the result is the decoded text, read within the input and written within a buffer of its size; as a string it ends at the first NUL decoded |
| Url.TripleIsDecoded | src/redhttp/url.c:31-67 | `%` and two hex digits, each in either case, decode to the character with that code |
| Url.OthersPass | src/redhttp/url.c:57-74 | any other `%` stays, `+` becomes a space, and every other character stays |
| Headers.StrCaseCmp | src/redhttp/redhttp_private.h:142-153 | the comparison is zero exactly on strings of the same length whose characters are equal or the capital and small form of a letter |
| Headers.SameKeyIsCaseless | src/redhttp/redhttp_private.h:142-153 | so are the keys that lookups take for one |
| Headers.Add | src/redhttp/headers.c:45-70 | a new entry at the end, an empty value stored as none |
| Headers.Set | src/redhttp/headers.c:72-90 | the first entry of the key's class gets the value, or a new entry joins at the end |
| Headers.LookupAfterSet | src/redhttp/headers.c:72-90 | after a set a lookup gives the value for the key's class and the old answer for all other keys |
| Headers.CountAfterSet | src/redhttp/headers.c:72-90 | a set adds an entry exactly if the key was absent |
| Headers.LookupAfterAdd | src/redhttp/headers.c:45-70 | an add never changes what an existing key gives, and gives a new key its value |
| Headers.LookupIsFirst | src/redhttp/headers.c:106-119 | a lookup finds the first entry of the key's class |
| Headers.LookupInFront | src/redhttp/request.c:509-529 | entries that come first win, so an argument of the URL hides one of the body |
| Headers.Get | src/redhttp/headers.c:106-119 | the value of the first entry of the key's class |
| Headers.Exists | src/redhttp/headers.c:121-134 | whether the list has an entry of the key's class |
| Headers.GetIndex | src/redhttp/headers.c:137-161 | the entry at an index, none outside the list |
| Headers.ParseLine | src/redhttp/headers.c:164-198 | a line with a colon and something behind it adds its key and value; any other line adds nothing |
| Headers.LineHolds | src/redhttp/headers.c:170-193 | a line of a key, a colon, any space and a value holds that header, unless the value is empty |
| Headers.NoColonHoldsNothing | src/redhttp/headers.c:170-193 | a line without a colon holds none |
| Headers.Print | src/redhttp/headers.c:33-43 | one line for every entry, in order; a missing value prints as `(null)` |
| Headers.HeaderIsPrinted | src/redhttp/headers.c:38-41 | a header is printed as its key, a colon, a space, its value and a line end |
| Headers.LineRoundTrip | src/redhttp/headers.c:164-198 | reading a printed header line gives the header back |
| Arguments.ParseArguments | src/redhttp/request.c:170-221 | the tokenizer, cutting its copy with NULs, appends exactly the arguments the input denotes, in order |
| Arguments.CutPiece | src/redhttp/request.c:184-208 | one step cuts the piece at its first `=` and its end, and finds the next |
| Arguments.ArgumentsAreFields | src/redhttp/request.c:183-218 | the arguments are the decoded pieces between `&` and `;`, each cut at its first `=`; a last empty piece, and no other, is left out |
| Arguments.FieldIsLocal | src/redhttp/request.c:184-212 | an argument depends on nothing but its own piece |
| Arguments.FieldIs | src/redhttp/request.c:189-212 | a piece is a key, or a key, `=` and a value, each unescaped up to its first NUL; an empty value is none |
| Lines.ReadLine | src/redhttp/request.c:59-106 | the line up to the first carriage return or line feed, in a buffer that doubles when full; null if a NUL or the end of the input comes first; the input is consumed through the line feed |
| Lines.Stream.Fread | src/redhttp/request.c:521-522 | up to n characters, fewer only at the end of the input |
| Lines.LineEnds | src/redhttp/request.c:75-91 | a line feed ends a line, and a carriage return hides what stands between it and the line feed |
| Lines.NoLine | src/redhttp/request.c:75-79 | a NUL before the line feed, or the end of the input, leaves no line |
| StatusLine.ParseStatusLine | src/redhttp/request.c:442-477 | cutting the line in place gives the parts that the line denotes |
| StatusLine.StatusGrammar | src/redhttp/request.c:442-459 | a line of the form space, letters, a delimiter, space, trimmed rest, space denotes the letters and what the rest denotes; an empty rest is a bad request |
| StatusLine.RestGrammar | src/redhttp/request.c:461-477 | a rest that ends in space and `HTTP/v` or `http/v` without space in v denotes the trimmed prefix and v; any other is a target of version 0.9 |
| StatusLine.EveryLineHasForm | src/redhttp/request.c:442-459 | every line with something behind the method name has that form |
| Text.CharacterClasses | src/redhttp/request.c:443-454 | the spaces, letters and digits of the C locale, by their codes |
| StatusLine.CutVersion | src/redhttp/request.c:466-477 | the search from the end cuts the target before its version |
| StatusLine.CutEnd | src/redhttp/request.c:461-465 | the spaces at the end of the rest are cut off |
| Request.Request.SetMethod | src/redhttp/request.c:224-243 | the method is stored with its small letters, and nothing else, replaced by capitals |
| Request.Request.SetPathGlob | src/redhttp/request.c:153-163 | a non-empty glob is kept, an empty one is not |
| Request.Request.SetPathAndQuery | src/redhttp/request.c:250-288 | the path is decoded up to the first `?`, and the arguments behind it are appended |
| Request.TargetIs | src/redhttp/request.c:262-282 | the target is a path up to the first `?` and a query behind it; the path is unescaped up to its first NUL |
| Request.Request.ReadStatusLine | src/redhttp/request.c:426-487 | the fields hold what the first line denotes, or the request is bad and nothing but the input position has changed |
| Request.Request.ReadHeaders | src/redhttp/request.c:497-506 | the headers on the lines up to an empty or missing one are appended in order |
| Request.Request.ReadContent | src/redhttp/request.c:509-533 | a POST needs both content headers; a form's arguments are appended once all of it has arrived, and a form of negative length is not read |
| Request.Request.Read | src/redhttp/request.c:490-536 | the result, the fields, both lists, the content and the position in the input are those the input denotes, on every branch |
| Request.VersionDecides | src/redhttp/request.c:496-506 | a request of a version that begins with `0.9` ends with its first line; any other has the headers behind it |
| Request.MethodDecides | src/redhttp/request.c:508-509 | of those, one whose upper-cased method begins with `POST` has content behind the headers, and any other ends there |
| Request.OtherContentIs | src/redhttp/request.c:511-517 | without `Content-Type` or `Content-Length` the request is bad, and content of a type that does not begin with `application/x-www-form-urlencoded` is left alone |
| Request.FormIsDeclared | src/redhttp/request.c:517-518 | content of such a type is a form of the length that `Content-Length` says |
| Request.FormEndIs | src/redhttp/request.c:518-527 | a form is read if all of it is there, a form cut short is a bad request, and one of negative length is not read |
| Request.FormArgumentsAre | src/redhttp/request.c:527-529 | its arguments are those of its text up to the first NUL |
| Numbers.AtoiReads | src/redhttp/request.c:518 | the length is read from the digits behind space and a sign, whatever follows them |
| RoundTrip.QueryRoundTrip | src/redhttp/request.c:170-221 | reading written arguments gives them back, for all non-empty ASCII keys and absent or non-empty values |
| RoundTrip.TargetRoundTrip | src/redhttp/request.c:250-288 | reading a written target gives back path and arguments |
| RoundTrip.StatusRoundTrip | src/redhttp/request.c:426-487 | reading a written first line gives back method, target and version |
| RoundTrip.HeadersRoundTrip | src/redhttp/request.c:497-506 | reading written header lines gives back the headers and stops behind the empty line |
| RoundTrip.LinesAreRead | src/redhttp/request.c:497-506 | any header lines are read one by one up to the empty line, and each adds the header it holds, if any |
| RoundTrip.RequestRoundTrip | src/redhttp/request.c:490-536 | a written request that is no POST is read as it was written, with exactly its characters, whatever follows |
| RoundTrip.FormRoundTrip | src/redhttp/request.c:509-529 | a written form POST, empty or not, is read with the arguments of the target first and then those of the body |
| RoundTrip.FormHeadersDeclare | src/redhttp/request.c:511-518 | the two content headers, with the length in decimal, declare a form behind any headers that have neither |
| Numbers.AtoiOfDecimal | src/redhttp/request.c:518 | reading the decimal text of a number gives the number |
| RoundTrip.ReadBack | src/redhttp/request.c:490-536 | a request object that reads a written request holds what was written |
| GraphIndex.AppendItem | src/graphs.c:71-87 | the link that a reader finds in the item of a graph elsewhere is exactly its indirect link; a graph of this server is linked by its URI |
| GraphIndex.HrefOfAnchor | src/graphs.c:81-85 | the text up to the closing quote of an item's attribute is the link that was written |
| GraphIndex.IndirectLinkNamesGraph | src/graphs.c:78-86 | an indirect link reads as the path `/data/` with the graph as its only argument, for every non-empty ASCII URI |
| GraphIndex.LinkReachesData | src/redstore.c:236-237 | a GET of that path runs the data handler |
| GraphIndex.ContainsIs | src/graphs.c:71 | a URI counts as this server's exactly if the root is a part of it |
| GraphIndex.LinksDiffer | src/graphs.c:78-86 | different graphs have different links |
| GraphIndex.FollowLink | src/redhttp/request.c:250-288 | a request object set to such a link finds the graph under `graph` |
| GenId.Generator.GenId | src/genid.c:29-62 | the written id is that of the counter, which is seeded if it is 0 and then advances by one |
| GenId.WriteId | src/genid.c:49-59 | the loop writes the digits of the running sum, with a dash behind the fourth |
| GenId.IdIs | src/genid.c:49-59 | in closed form, digit j is the sum of the counter's hex digits and of the string positions up to it, modulo 16, as a small hex digit, with a dash at position 4 |
| GenId.IdsEqual | src/genid.c:49-59 | two ids are equal exactly if their counter values agree modulo 2^32 |
| GenId.NoRepeatInWindow | src/genid.c:49-59 | no 2^32 consecutive counter values repeat an id |
| GenId.Unscramble | src/genid.c:49-59 | every string of four hex digits, a dash and four hex digits is the id of some counter value |
| GenId.IdsCoverShape | src/genid.c:49-59 | the ids are exactly the strings of that shape |
| NewGraph.NewGraphNode | src/data.c:26-72 | the node is the id's path resolved against the base |
| NewGraph.CandidateIs | src/data.c:28-36 | a candidate is `/data/` and the id of its counter value |
| NewGraph.NextCounter | src/genid.c:41-49 | the counter goes up by one with every candidate, wraps at 2^64, and takes the random number when it is 0 |
| NewGraph.CandidatesDistinct | src/data.c:188-206 | the ten candidates are pairwise distinct, also when the counter wraps or is seeded again |
| NewGraph.GraphsDiffer | src/data.c:188-206 | so two candidates resolve to different graphs, if different ids do |
| NewGraph.RootedIsInjective | src/data.c:49 | different ids resolve to different graphs whenever the path is put behind the root of the base |
| NewGraph.GivingUpNeedsTenGraphs | src/data.c:188-206 | ten taken candidates are ten graphs, if different ids resolve to different graphs |
| NewGraph.PostToNewGraph | src/data.c:182-219 | the loop takes the first of ten candidates that is no graph, and uses up no counter value behind it; it never takes an existing graph, and never gives up while the store holds fewer than ten, if different ids resolve to different graphs |
| Servers.Server.MatchRoute | src/redhttp/server.c:193-218 | a route matches by method and by path, by a path ending in `*` or by no path; a match by `*` keeps what the `*` stands for |
| Routing.PathMatchesItself | src/redhttp/server.c:212-214 | a path without `*` at its end matches itself only |
| Routing.GlobMatchesPrefix | src/redhttp/server.c:206-211 | a prefix and `*` match every path that starts with the prefix, and the glob is the rest |
| Routing.NoPathMatchesAll | src/redhttp/server.c:201-204 | a route without a path matches every path of its method |
| Servers.Server.AddHandler | src/redhttp/server.c:130-153 | a handler joins at the end of the table |
| Routing.RunIsRun | src/redhttp/server.c:380-387 | the matching handlers are called in order of registration, each once, on the globals the one before left, up to the first that answers |
| Routing.GlobIsSeen | src/redhttp/server.c:207-211 | a handler whose path ends in `*` sees the rest of the request's path as its glob |
| Servers.Server.CallHandlers | src/redhttp/server.c:380-387 | the loop makes exactly the calls of that run |
| Servers.Server.Dispatch | src/redhttp/server.c:359-414 | the calls, the globals and the response are those of the dispatch: no call for the path `*`, else the run of the handlers, else the answer for HEAD, for a known path or for an unknown one |
| Servers.FallbackStatus | src/redhttp/server.c:389-413 | without an answer HEAD gets 200 exactly if GET has a handler for the exact path, OPTIONS 200 and any other method 405 exactly if the path has one, and everything else 404 |
| Servers.PassedOn | src/redhttp/server.c:380-387 | a request that no handler answered was passed on by every matching handler |
| Servers.RefusedIsNotListed | src/redhttp/server.c:402-410 | a 405 never lists the method it refuses, if the handlers of that method and exact path always answer |
| Servers.RefusedIsNotInHeader | src/redhttp/server.c:402-410 | nor does the text of its Allow header, split at the commas, for methods without commas |
| Servers.ReadCall | src/redhttp/server.c:248-272 | a connection that can be read gives the method in upper case, the decoded path and no glob |
| Servers.Server.HandleRequest | src/redhttp/server.c:241-286 | a request that cannot be read gets a 400 and reaches no handler; any other is dispatched with the method and path that were read |
| Allow.AddAllowedMethod | src/redhttp/server.c:289-305 | a method is added exactly if it is new and a slot is free |
| Allow.Collect | src/redhttp/server.c:312-333 | the filled array holds the first fifty of the unlimited list |
| Allow.MethodsAreAllowed | src/redhttp/server.c:312-333 | the unlimited list holds exactly OPTIONS, the methods of the path's handlers, and HEAD if GET is among them |
| Allow.AllowListIsRight | src/redhttp/server.c:312-333 | the list starts with OPTIONS, has no duplicates and only allowed methods |
| Allow.AllowListIsComplete | src/redhttp/server.c:312-333 | the list has all allowed methods exactly if they fit the fifty slots |
| Allow.JoinMethods | src/redhttp/server.c:335-343 | the text is the methods of the list with commas, leaving out what does not fit |
| Allow.AllowTextNext | src/redhttp/server.c:335-343 | one more method joins the text behind a comma, unless that leaves no room in 8192 characters |
| Allow.AllowTextIsJoin | src/redhttp/server.c:335-343 | the text stays within its buffer, and is the whole list exactly if that fits |
| Allow.AllowTextNamesOnly | src/redhttp/server.c:335-343 | a text that does not fit still names no method that the list does not |
| Allow.AllowTextRoundTrip | src/redhttp/server.c:335-343 | splitting a text that fits gives back the methods |
| Allow.AllowResponseIs | src/redhttp/server.c:345-356 | a success carries no advice; any other status advises the methods in the words of the source |
| Allow.CheckAllowedResponses | src/redhttp/server.c:308-357 | the response has that text as its Allow header, and as advice unless it is a success |
| RedStoreRoutes.Setup | src/redstore.c:217-258 | the successive registrations give the table of 27 routes in that order |
| RedStoreRoutes.FiltersRun | src/redstore.c:56-78 | every dispatched request passes the counter, the log and the reset of the error buffer, in order, and then the handlers behind them |
| Handlers.DispatchRuns | src/redstore.c:225-252 | behind the filters a request for a path other than `*` runs exactly the application handler for its method and path, on an empty error buffer and the rest of a `/data` path; a GET of a path with a slash at its end that is not answered is redirected, and anything else not found |
| Handlers.StarIsAnswered | src/redhttp/server.c:368-377 | for the path `*` no handler runs; OPTIONS lists OPTIONS, GET, HEAD, POST, PUT and DELETE, and any other method is refused in favour of OPTIONS |
| RedStoreRoutes.RequestIsAnswered | src/redstore.c:225-252 | some handler answers every dispatched request, so the server's own answers are for the path `*` only |
| RedStoreRoutes.RequestIsCounted | src/redstore.c:56-60 | a dispatched request is counted once |
| RedStoreRoutes.CounterCounts | src/redstore.c:56-60 | after every run the counter is the number of requests dispatched with a path other than `*`, modulo 2^64, whatever was logged or refused |
| RedStoreRoutes.BufferOnEntry | src/redstore.c:70-78 | the first handler behind the filters finds the error buffer empty and the request counted |
| Handlers.TableIsRouted | src/redstore.c:229-250 | the application route of a request is the only one that matches it, and runs its handler; none has the path `*` |
| ErrorBuffer.BufferOfCall | src/redstore.c:70-78 | for one request, every handler behind the filters finds the buffer empty exactly if its application handler, if it has one, answers or leaves the buffer empty |
| ErrorBuffer.BufferIsEmpty | src/redstore.c:70-78 | over all requests, every handler behind the filters finds the buffer empty exactly if the application handlers pass on only what they logged no error for |
| ErrorBuffer.BufferMayFill | src/description.c:500-545 | if the service description alone logs an error and passes on, as it does when the RDF library fails, the handlers behind it find the error |
| RedStoreRoutes.Connect | src/redhttp/server.c:241-286 | a connection to the running program is one event of a run |
| RedStoreRoutes.RedlandLog | src/redstore.c:99-143 | a logged message opens the buffer, and an error goes into it with the place where it was found |
| RedStoreRoutes.LoggedIs | src/redstore.c:109-118 | any message opens the buffer, and an error joins those before it |
| RedStoreRoutes.ErrorTextIs | src/redstore.c:117-139 | an error is logged with the byte, line and column that are known, and a line end |
| RedStoreRoutes.PlaceIs | src/redstore.c:124-137 | a number of a place is logged with its name if it is positive |

## Left out

- Storage, parsers, serialisers, SPARQL and URI objects of librdf, raptor and rasqal, which are not part of
  this repository; the handlers that call them are parameters.
- Sockets, threads of control, signals and the main loop: a connection is its finite input.
- Sending responses, HTML pages, service description, favicon, time headers and log output: easy members.
- `malloc` failure, `free` and leaks: an allocation succeeds and memory is collected.  In particular
  `redhttp_request_set_path_glob` (src/redhttp/request.c:153-163) frees a glob that it does not replace; the
  model has none then.
- IEEE rounding in `strtod` and `%1.1f`, and the hexadecimal, infinite and not-a-number forms of `strtod`: the
  model reads decimal numbers exactly.
- Locales other than the C locale.
- Preference texts with an element that has nothing but space before its first `;`: `redhttp_negotiate_add`
  asserts on them or reads past them, so the parser's `requires` excludes them.
- Quality parameters of less than four characters, such as `q=0`, are not scanned (src/redhttp/negotiate.c:99);
  the model does the same, so nothing is claimed for every form of section 3.9 of RFC 2616.  A quality of 0
  scores 0 and can win, as in the code.
- Characters of 128 and above in `redhttp_url_escape`, which would index its table with a negative `char`.
- Status lines that end with the method name: the code steps over the terminator, so `IsDelimited` excludes
  them from the `requires`.
- Empty keys, on which `redhttp_headers_add` asserts: they are excluded from the inputs that are read.
- A Content-Length of -1, for which the code allocates no buffer for what it reads; lengths beyond an `int`,
  which `atoi` does not define; and a request line of more than 2^30 characters.  Any other negative length
  asks for more than half the address space, which `calloc` refuses.
- A log message that is a null pointer.  A null value that is printed follows the C library of GNU, since the C
  standard does not define it.
- The comparison of a string with itself by address in `redhttp_strcasecmp`, which saves time only.
- A GET request for the empty path, for which `remove_trailing_slash` reads before the start of the path: the
  model redirects only a path that ends in `/`.
- The texts of error pages and redirects: responses carry a status, a message and an Allow header.
- RedStoreRoutes.CounterCounts: assumes that no application handler changes the counter, which only
  `request_counter` writes (src/redstore.c:58).
- NewGraph.PostToNewGraph: takes the store's named graphs as a set and the resolution of a path against the
  request's URL as a function.  That different ids resolve to different URIs is assumed where fewer than ten
  graphs are said to suffice; resolution by section 5.2 of RFC 3986, which keeps a path without dot segments,
  does so.
