/** Choosing what to serve: the scan over server offers and client preferences. */
module Choice {
  import opened Text
  import opened Negotiation

  /** Does a client preference accept a server type?  Only the full wildcard is special. */
  predicate CompareTypes(serverType: string, clientType: string) {
    clientType == "*/*" || serverType == clientType
  }

  /** Server offer i and client preference j agree, with score v. */
  ghost predicate Scores(server: seq<Entry>, client: seq<Entry>, i: nat, j: nat, v: int) {
    && i < |server| && j < |client|
    && CompareTypes(server[i].mime, client[j].mime)
    && v == server[i].q * client[j].q
  }

  /** Offer k attains the highest score of all agreeing pairs, and no earlier offer does. */
  ghost predicate FirstBest(server: seq<Entry>, client: seq<Entry>, k: nat, v: int) {
    && (exists j :: Scores(server, client, k, j, v))
    && (forall i, j, w :: Scores(server, client, i, j, w) ==> w <= v)
    && (forall i: nat, j: nat, w :: i < k && Scores(server, client, i, j, w) ==> w < v)
  }

  /** What a scan must deliver: nothing if no pair agrees, else the first best offer. */
  ghost predicate IsChoice(server: seq<Entry>, client: seq<Entry>, chosen: Option<nat>) {
    match chosen
    case None => forall i: nat, j: nat, w :: !Scores(server, client, i, j, w)
    case Some(k) => k < |server| && exists v :: FirstBest(server, client, k, v)
  }

  /** The type of a chosen offer. */
  function TypeOf(server: seq<Entry>, chosen: Option<nat>): Option<string>
    requires chosen.Some? ==> chosen.value < |server|
  {
    if chosen.Some? then Some(server[chosen.value].mime) else None
  }

  /** The best score after looking at one offer, given the best so far.  With `early` the scan leaves
      the client list at the first preference that improves the score; without, it reads it all. */
  function Row(early: bool, s: Entry, client: seq<Entry>, best: int): int {
    if client == [] then best
    else if CompareTypes(s.mime, client[0].mime) && s.q * client[0].q > best then
      if early then s.q * client[0].q else Row(early, s, client[1..], s.q * client[0].q)
    else Row(early, s, client[1..], best)
  }

  /** The best score and the offer that first reached it. */
  function Scan(early: bool, server: seq<Entry>, client: seq<Entry>): (r: (int, Option<nat>))
    ensures r.1.Some? ==> r.1.value < |server|
  {
    if server == [] then (-1, None)
    else
      var k := |server| - 1;
      var (best, chosen) := Scan(early, server[..k], client);
      var score := Row(early, server[k], client, best);
      if score > best then (score, Some(k)) else (best, chosen)
  }

  lemma ScoreMonotone(q: nat, a: nat, b: nat)
    requires a >= b
    ensures q * a >= q * b
  {}

  lemma {:induction false} RowStays(s: Entry, client: seq<Entry>, best: int)
    requires forall j :: 0 <= j < |client| && CompareTypes(s.mime, client[j].mime) ==> s.q * client[j].q <= best
    ensures Row(false, s, client, best) == best
  {
    if client != [] { RowStays(s, client[1..], best); }
  }

  /** No preference that accepts the type is better than the first that does. */
  ghost predicate FirstAcceptingIsBest(client: seq<Entry>, mime: string) {
    forall j, m :: 0 <= j < m < |client| && IsFirstAccepting(client, mime, j) && CompareTypes(mime, client[m].mime) ==>
      client[m].q <= client[j].q
  }

  ghost predicate IsFirstAccepting(client: seq<Entry>, mime: string, j: int) {
    && 0 <= j < |client| && CompareTypes(mime, client[j].mime)
    && forall i :: 0 <= i < j ==> !CompareTypes(mime, client[i].mime)
  }

  /** The first preference that accepts a type is the best that does, for every type. */
  ghost predicate EarlyIsBest(client: seq<Entry>) {
    forall mime :: FirstAcceptingIsBest(client, mime)
  }

  lemma FirstAcceptingOfRest(client: seq<Entry>, mime: string)
    requires client != [] && FirstAcceptingIsBest(client, mime) && !CompareTypes(mime, client[0].mime)
    ensures FirstAcceptingIsBest(client[1..], mime)
  {
    var rest := client[1..];
    forall j, m | 0 <= j < m < |rest| && IsFirstAccepting(rest, mime, j) && CompareTypes(mime, rest[m].mime)
      ensures rest[m].q <= rest[j].q
    {
      assert forall i :: 0 < i <= j ==> client[i] == rest[i - 1];
      assert IsFirstAccepting(client, mime, j + 1);
      assert client[m + 1] == rest[m];
    }
  }

  lemma FirstAcceptingBounds(s: Entry, client: seq<Entry>, m: nat)
    requires m < |client| && FirstAcceptingIsBest(client, s.mime) && CompareTypes(s.mime, client[0].mime)
    requires CompareTypes(s.mime, client[m].mime)
    ensures s.q * client[m].q <= s.q * client[0].q
  {
    assert IsFirstAccepting(client, s.mime, 0);
    ScoreMonotone(s.q, client[0].q, client[m].q);
  }

  /** Then leaving early loses nothing. */
  lemma {:induction false} RowsAgree(s: Entry, client: seq<Entry>, best: int)
    requires FirstAcceptingIsBest(client, s.mime)
    ensures Row(true, s, client, best) == Row(false, s, client, best)
  {
    if client != [] {
      if CompareTypes(s.mime, client[0].mime) {
        forall m: nat | m < |client| && CompareTypes(s.mime, client[m].mime)
          ensures s.q * client[m].q <= s.q * client[0].q
        {
          FirstAcceptingBounds(s, client, m);
        }
        if s.q * client[0].q > best {
          RowStays(s, client[1..], s.q * client[0].q);
        } else {
          RowStays(s, client, best);
          NothingImproves(s, client, best);
        }
      } else {
        FirstAcceptingOfRest(client, s.mime);
        RowsAgree(s, client[1..], best);
      }
    }
  }

  lemma {:induction false} NothingImproves(s: Entry, client: seq<Entry>, best: int)
    requires forall j :: 0 <= j < |client| && CompareTypes(s.mime, client[j].mime) ==> s.q * client[j].q <= best
    ensures Row(true, s, client, best) == best
  {
    if client != [] { NothingImproves(s, client[1..], best); }
  }

  lemma {:induction false} ScansAgree(server: seq<Entry>, client: seq<Entry>)
    requires EarlyIsBest(client)
    ensures Scan(true, server, client) == Scan(false, server, client)
  {
    if server != [] {
      var k := |server| - 1;
      ScansAgree(server[..k], client);
      RowsAgree(server[k], client, Scan(false, server[..k], client).0);
    }
  }

  /** A list of falling quality is such a list. */
  lemma OrderedIsBest(client: seq<Entry>)
    requires NonIncreasing(client)
    ensures EarlyIsBest(client)
  {}

  /** A full row is the maximum of the best so far and the scores of the row. */
  lemma {:induction false} RowIsMax(s: Entry, client: seq<Entry>, best: int) returns (j: nat)
    ensures Row(false, s, client, best) >= best
    ensures forall i :: 0 <= i < |client| && CompareTypes(s.mime, client[i].mime) ==>
              s.q * client[i].q <= Row(false, s, client, best)
    ensures Row(false, s, client, best) > best ==>
              j < |client| && CompareTypes(s.mime, client[j].mime) && s.q * client[j].q == Row(false, s, client, best)
  {
    j := 0;
    if client != [] {
      var improves := CompareTypes(s.mime, client[0].mime) && s.q * client[0].q > best;
      var score := if improves then s.q * client[0].q else best;
      var k := RowIsMax(s, client[1..], score);
      if Row(false, s, client[1..], score) > score {
        j := k + 1;
      }
      forall i | 0 <= i < |client| && CompareTypes(s.mime, client[i].mime)
        ensures s.q * client[i].q <= Row(false, s, client, best)
      {
        if i > 0 { assert client[i] == client[1..][i - 1]; }
      }
    }
  }

  /** The exhaustive scan chooses the first best offer, whatever the order of the client list. */
  lemma {:induction false} ScanCorrect(server: seq<Entry>, client: seq<Entry>)
    ensures IsChoice(server, client, Scan(false, server, client).1)
    ensures match Scan(false, server, client).1
            case None => Scan(false, server, client).0 == -1
            case Some(k) => FirstBest(server, client, k, Scan(false, server, client).0)
  {
    if server != [] {
      var k := |server| - 1;
      var front := server[..k];
      var (best, chosen) := Scan(false, front, client);
      ScanCorrect(front, client);
      var j := RowIsMax(server[k], client, best);
      var score := Row(false, server[k], client, best);
      forall i: nat, j: nat, w | Scores(server, client, i, j, w)
        ensures 0 <= w <= score && (i < k ==> Scores(front, client, i, j, w) && w <= best)
      {
        ScoreMonotone(server[i].q, client[j].q, 0);
        if i < k {
          assert Scores(front, client, i, j, w);
        }
      }
      if score > best {
        assert Scores(server, client, k, j, score);
        assert FirstBest(server, client, k, score);
      } else if chosen.Some? {
        var j' :| Scores(front, client, chosen.value, j', best);
        assert Scores(server, client, chosen.value, j', best);
        assert FirstBest(server, client, chosen.value, best);
      }
    }
  }

  /** The early-leaving scan is correct on every client list of falling quality. */
  lemma EarlyScanCorrect(server: seq<Entry>, client: seq<Entry>)
    requires NonIncreasing(client)
    ensures IsChoice(server, client, Scan(true, server, client).1)
  {
    OrderedIsBest(client);
    ScansAgree(server, client);
    ScanCorrect(server, client);
  }

  // ----- exactly when leaving early is right -----

  /** Leaving early, a row gives the score of the first preference that improves on the best so far. */
  lemma {:induction false} EarlyRow(s: Entry, client: seq<Entry>, best: int, j: nat)
    requires j < |client| && CompareTypes(s.mime, client[j].mime) && s.q * client[j].q > best
    requires forall i :: 0 <= i < j && CompareTypes(s.mime, client[i].mime) ==> s.q * client[i].q <= best
    ensures Row(true, s, client, best) == s.q * client[j].q
  {
    if j > 0 { EarlyRow(s, client[1..], best, j - 1); }
  }

  lemma {:induction false} EarlyRowImproves(s: Entry, client: seq<Entry>, best: int, m: nat)
    requires m < |client| && CompareTypes(s.mime, client[m].mime) && s.q * client[m].q > best
    ensures Row(true, s, client, best) > best
  {
    if m > 0 && !(CompareTypes(s.mime, client[0].mime) && s.q * client[0].q > best) {
      EarlyRowImproves(s, client[1..], best, m - 1);
    }
  }

  /** Offered the same type twice, the scan takes the second if the first accepting preference is not the best. */
  lemma EarlyScanMisses(client: seq<Entry>, mime: string, j: nat, m: nat)
    requires j < m < |client| && IsFirstAccepting(client, mime, j) && CompareTypes(mime, client[m].mime)
    requires client[m].q > client[j].q
    ensures var server := [Entry(mime, 10), Entry(mime, 10)];
            Scan(true, server, client).1 == Some(1) && !IsChoice(server, client, Some(1))
  {
    var s := Entry(mime, 10);
    var server := [s, s];
    assert server[..1] == [s] && [s][..0] == [];
    EarlyRow(s, client, -1, j);
    assert Scan(true, [s], client) == (10 * client[j].q, Some(0));
    EarlyRowImproves(s, client, 10 * client[j].q, m);
    forall v ensures !FirstBest(server, client, 1, v) {
      if FirstBest(server, client, 1, v) {
        var i :| Scores(server, client, 1, i, v);
        assert Scores(server, client, 0, i, v);
      }
    }
  }

  /** The early-leaving scan chooses the first best offer from every server list exactly if, for every type,
      the first preference that accepts it is the best that does. */
  lemma {:induction false} EarlyScanExact(client: seq<Entry>)
    ensures (forall server :: IsChoice(server, client, Scan(true, server, client).1)) <==> EarlyIsBest(client)
  {
    if EarlyIsBest(client) {
      forall server ensures IsChoice(server, client, Scan(true, server, client).1) {
        ScansAgree(server, client);
        ScanCorrect(server, client);
      }
    } else {
      var mime :| !FirstAcceptingIsBest(client, mime);
      var j, m :| 0 <= j < m < |client| && IsFirstAccepting(client, mime, j) && CompareTypes(mime, client[m].mime)
                  && client[m].q > client[j].q;
      EarlyScanMisses(client, mime, j, m);
    }
  }

  // ----- the choice in terms of the lists alone -----

  /** Preference j is the full wildcard or names the type of offer i. */
  predicate IsAccepted(server: seq<Entry>, client: seq<Entry>, i: int, j: int) {
    && 0 <= i < |server| && 0 <= j < |client|
    && (client[j].mime == "*/*" || client[j].mime == server[i].mime)
  }

  function Product(server: seq<Entry>, client: seq<Entry>, i: int, j: int): nat
    requires IsAccepted(server, client, i, j)
  {
    server[i].q * client[j].q
  }

  /** With some preference offer k has the highest product of all accepted pairs, and a higher one than every
      offer before it. */
  ghost predicate IsFirstMaximum(server: seq<Entry>, client: seq<Entry>, k: int) {
    exists a :: IsAccepted(server, client, k, a) && IsMaximum(server, client, k, a)
  }

  ghost predicate IsMaximum(server: seq<Entry>, client: seq<Entry>, k: int, a: int)
    requires IsAccepted(server, client, k, a)
  {
    forall i, j :: IsAccepted(server, client, i, j) ==>
      && Product(server, client, i, j) <= Product(server, client, k, a)
      && (i < k ==> Product(server, client, i, j) < Product(server, client, k, a))
  }

  /** For a client list of falling quality the choice is the first maximum, and none exactly if no preference
      accepts an offer. */
  lemma ChoiceIsFirstMaximum(server: seq<Entry>, client: seq<Entry>)
    requires forall i, j :: 0 <= i < j < |client| ==> client[i].q >= client[j].q
    ensures match Scan(true, server, client).1
            case None => forall i, j :: !IsAccepted(server, client, i, j)
            case Some(k) => IsFirstMaximum(server, client, k)
  {
    EarlyScanCorrect(server, client);
    match Scan(true, server, client).1 {
      case None =>
        forall i, j ensures !IsAccepted(server, client, i, j) {
          if IsAccepted(server, client, i, j) { assert Scores(server, client, i, j, Product(server, client, i, j)); }
        }
      case Some(k) =>
        var v :| FirstBest(server, client, k, v);
        var a: nat :| Scores(server, client, k, a, v);
        assert IsAccepted(server, client, k, a) && Product(server, client, k, a) == v;
        forall i, j | IsAccepted(server, client, i, j)
          ensures Product(server, client, i, j) <= v && (i < k ==> Product(server, client, i, j) < v)
        {
          assert Scores(server, client, i, j, Product(server, client, i, j));
        }
    }
  }

  /** A client that accepts everything gets something from every server that offers anything. */
  lemma WildcardFindsOffer(server: seq<Entry>, client: seq<Entry>, j: nat)
    requires server != [] && j < |client| && client[j].mime == "*/*"
    requires forall i, j :: 0 <= i < j < |client| ==> client[i].q >= client[j].q
    ensures Scan(true, server, client).1.Some?
  {
    assert IsAccepted(server, client, 0, j);
    ChoiceIsFirstMaximum(server, client);
  }
}
