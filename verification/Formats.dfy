/** utils.c: choosing a serialisation format for a request. */
module Formats {
  import opened Text
  import opened LinkedLists
  import opened Negotiation
  import opened Choice
  import opened AcceptSyntax
  import Negotiate
  import NegotiateText

  /** A syntax description: its names, and the MIME types it can be served as. */
  datatype Descriptor = Descriptor(names: seq<string>, mimeTypes: seq<Entry>)

  /** All MIME types of the first d descriptors, in table order. */
  ghost function Offers(table: seq<Descriptor>, d: nat): seq<Entry>
    requires d <= |table|
  {
    if d == 0 then [] else Offers(table, d - 1) + table[d - 1].mimeTypes
  }

  ghost function Repeat(d: int, n: nat): (r: seq<int>)
    ensures |r| == n && forall i :: 0 <= i < n ==> r[i] == d
  {
    if n == 0 then [] else Repeat(d, n - 1) + [d]
  }

  /** The descriptor that each of those MIME types belongs to. */
  ghost function Owners(table: seq<Descriptor>, d: nat): (owners: seq<int>)
    requires d <= |table|
    ensures |owners| == |Offers(table, d)|
  {
    if d == 0 then [] else Owners(table, d - 1) + Repeat(d - 1, |table[d - 1].mimeTypes|)
  }

  predicate IsOwnOffer(table: seq<Descriptor>, d: int, offer: Entry) {
    0 <= d < |table| && offer in table[d].mimeTypes
  }

  lemma {:induction false} OwnerHasOffer(table: seq<Descriptor>, d: nat, k: nat)
    requires d <= |table| && k < |Offers(table, d)|
    ensures Owners(table, d)[k] < d && IsOwnOffer(table, Owners(table, d)[k], Offers(table, d)[k])
  {
    if k < |Offers(table, d - 1)| {
      OwnerHasOffer(table, d - 1, k);
    } else {
      assert Offers(table, d)[k] == table[d - 1].mimeTypes[k - |Offers(table, d - 1)|];
    }
  }

  /** The first descriptor with the given name; none for a missing or empty name. */
  ghost predicate IsNamed(table: seq<Descriptor>, name: Option<string>, d: Option<nat>) {
    match d
    case Some(k) =>
      && name.Some? && name.value != "" && k < |table| && name.value in table[k].names
      && forall e :: 0 <= e < k ==> name.value !in table[e].names
    case None => name.Some? && name.value != "" ==> forall e :: 0 <= e < |table| ==> name.value !in table[e].names
  }

  method GetFormatByName(table: seq<Descriptor>, name: Option<string>) returns (found: Option<nat>)
    ensures IsNamed(table, name, found)
  {
    if name.None? || name.value == "" { return None; }
    var d := 0;
    while d < |table|
      invariant 0 <= d <= |table| && forall e :: 0 <= e < d ==> name.value !in table[e].names
    {
      var n := 0;
      while n < |table[d].names|
        invariant 0 <= n <= |table[d].names| && name.value !in table[d].names[..n]
      {
        if table[d].names[n] == name.value { return Some(d); }
        n := n + 1;
      }
      d := d + 1;
    }
    return None;
  }

  /** The best score after comparing one MIME type with every preference, fetched by its index. */
  method ScoreRow(mimeType: Entry, accept: List<Entry>, best: int) returns (score: int)
    requires accept.Valid()
    ensures score == Row(false, mimeType, accept.items, best)
  {
    score := best;
    var a := 0;
    var it := Negotiate.Get(accept, a);
    while it.Some?
      invariant 0 <= a <= |accept.items|
      invariant it == if a < |accept.items| then Some(accept.items[a]) else None
      invariant Row(false, mimeType, accept.items[a..], score) == Row(false, mimeType, accept.items, best)
      decreases |accept.items| - a
    {
      if CompareTypes(mimeType.mime, it.value.mime) {
        if mimeType.q * it.value.q > score {
          score := mimeType.q * it.value.q;
        }
      }
      assert accept.items[a..][1..] == accept.items[a + 1..];
      a := a + 1;
      it := Negotiate.Get(accept, a);
    }
  }

  lemma ScanExtend(offers: seq<Entry>, next: Entry, client: seq<Entry>)
    ensures Scan(false, offers + [next], client) ==
              var (best, chosen) := Scan(false, offers, client);
              var score := Row(false, next, client, best);
              if score > best then (score, Some(|offers|)) else (best, chosen)
  {
    assert (offers + [next])[..|offers|] == offers;
  }

  /** The best score so far, and the format that has it, after the given offers. */
  ghost predicate IsBest(offers: seq<Entry>, owners: seq<int>, client: seq<Entry>, best: int, desc: Option<nat>,
      mime: Option<string>)
    requires |offers| == |owners|
  {
    var (score, chosen) := Scan(false, offers, client);
    && best == score
    && match chosen
       case None => desc == None && mime == None
       case Some(k) => desc.Some? && desc.value == owners[k] && mime == Some(offers[k].mime)
  }

  /** Tries one MIME type of descriptor d against every preference. */
  method TryOffer(mimeType: Entry, d: nat, accept: List<Entry>, best: int, desc: Option<nat>, mime: Option<string>,
                  ghost offers: seq<Entry>, ghost owners: seq<int>)
    returns (best': int, desc': Option<nat>, mime': Option<string>)
    requires accept.Valid() && |offers| == |owners| && IsBest(offers, owners, accept.items, best, desc, mime)
    ensures IsBest(offers + [mimeType], owners + [d], accept.items, best', desc', mime')
  {
    ScanExtend(offers, mimeType, accept.items);
    best', desc', mime' := best, desc, mime;
    var score := ScoreRow(mimeType, accept, best);
    if score > best {
      best', desc', mime' := score, Some(d), Some(mimeType.mime);
    }
  }

  /** Tries every MIME type of every descriptor. */
  method BestFormat(table: seq<Descriptor>, accept: List<Entry>) returns (desc: Option<nat>, mime: Option<string>)
    requires accept.Valid()
    ensures IsBest(Offers(table, |table|), Owners(table, |table|), accept.items,
              Scan(false, Offers(table, |table|), accept.items).0, desc, mime)
  {
    desc, mime := None, None;
    var best := -1;
    ghost var offers: seq<Entry>, owners: seq<int> := [], [];
    var d := 0;
    while d < |table|
      invariant 0 <= d <= |table| && offers == Offers(table, d) && owners == Owners(table, d)
      invariant IsBest(offers, owners, accept.items, best, desc, mime)
    {
      var m := 0;
      while m < |table[d].mimeTypes|
        invariant 0 <= m <= |table[d].mimeTypes| && |offers| == |owners|
        invariant offers == Offers(table, d) + table[d].mimeTypes[..m] && owners == Owners(table, d) + Repeat(d, m)
        invariant IsBest(offers, owners, accept.items, best, desc, mime)
      {
        var mimeType := table[d].mimeTypes[m];
        best, desc, mime := TryOffer(mimeType, d, accept, best, desc, mime, offers, owners);
        assert table[d].mimeTypes[..m + 1] == table[d].mimeTypes[..m] + [mimeType];
        Assoc(Offers(table, d), table[d].mimeTypes[..m], [mimeType]);
        Assoc(Owners(table, d), Repeat(d, m), [d]);
        offers, owners := offers + [mimeType], owners + [d];
        m := m + 1;
      }
      assert table[d].mimeTypes[..m] == table[d].mimeTypes;
      d := d + 1;
    }
  }

  // ----- the first best format, in terms of the table -----

  /** Preference j accepts MIME type m of descriptor d. */
  predicate Agree(table: seq<Descriptor>, d: int, m: int, prefs: seq<Entry>, j: int) {
    && 0 <= d < |table| && 0 <= m < |table[d].mimeTypes| && 0 <= j < |prefs|
    && (prefs[j].mime == "*/*" || prefs[j].mime == table[d].mimeTypes[m].mime)
  }

  function ScoreOf(table: seq<Descriptor>, d: int, m: int, prefs: seq<Entry>, j: int): nat
    requires Agree(table, d, m, prefs, j)
  {
    table[d].mimeTypes[m].q * prefs[j].q
  }

  /** MIME type m of descriptor d has the highest score of all, and no type before it in the table has it. */
  ghost predicate IsFirstBest(table: seq<Descriptor>, prefs: seq<Entry>, d: int, m: int) {
    exists a :: Agree(table, d, m, prefs, a) && IsBestScore(table, prefs, d, m, ScoreOf(table, d, m, prefs, a))
  }

  ghost predicate IsBestScore(table: seq<Descriptor>, prefs: seq<Entry>, d: int, m: int, best: int) {
    forall e, n, j :: Agree(table, e, n, prefs, j) ==>
      && ScoreOf(table, e, n, prefs, j) <= best
      && (e < d || (e == d && n < m) ==> ScoreOf(table, e, n, prefs, j) < best)
  }

  ghost predicate IsBestFormat(table: seq<Descriptor>, prefs: seq<Entry>, desc: Option<nat>, mime: Option<string>) {
    match desc
    case None => mime == None && forall d, m, j :: !Agree(table, d, m, prefs, j)
    case Some(d) => exists m :: IsTypeOf(table, d, m, mime) && IsFirstBest(table, prefs, d, m)
  }

  predicate IsTypeOf(table: seq<Descriptor>, d: nat, m: int, mime: Option<string>) {
    d < |table| && 0 <= m < |table[d].mimeTypes| && mime == Some(table[d].mimeTypes[m].mime)
  }

  /** Where MIME type m of descriptor d stands among the offers. */
  ghost function PlaceOf(table: seq<Descriptor>, d: nat, m: nat): nat
    requires d < |table|
  {
    |Offers(table, d)| + m
  }

  lemma {:induction false} OfferAt(table: seq<Descriptor>, n: nat, d: nat, m: nat)
    requires d < n <= |table| && m < |table[d].mimeTypes|
    ensures PlaceOf(table, d, m) < |Offers(table, n)|
    ensures Offers(table, n)[PlaceOf(table, d, m)] == table[d].mimeTypes[m]
    ensures Owners(table, n)[PlaceOf(table, d, m)] == d
  {
    if d < n - 1 { OfferAt(table, n - 1, d, m); }
  }

  lemma {:induction false} PlaceIsFound(table: seq<Descriptor>, n: nat, k: nat) returns (d: nat, m: nat)
    requires n <= |table| && k < |Offers(table, n)|
    ensures d < n && m < |table[d].mimeTypes| && k == PlaceOf(table, d, m)
  {
    if k < |Offers(table, n - 1)| {
      d, m := PlaceIsFound(table, n - 1, k);
    } else {
      d, m := n - 1, k - |Offers(table, n - 1)|;
    }
  }

  /** The offers are in table order. */
  lemma {:induction false} PlacesAscend(table: seq<Descriptor>, e: nat, n: nat, d: nat, m: nat)
    requires e <= d < |table| && n < |table[e].mimeTypes| && (e == d ==> n < m)
    ensures PlaceOf(table, e, n) < PlaceOf(table, d, m)
    decreases d
  {
    if e < d { OfferAt(table, d, e, n); }
  }

  lemma AgreeIsScore(table: seq<Descriptor>, prefs: seq<Entry>, e: nat, n: nat, j: nat)
    requires Agree(table, e, n, prefs, j)
    ensures Scores(Offers(table, |table|), prefs, PlaceOf(table, e, n), j, ScoreOf(table, e, n, prefs, j))
  {
    OfferAt(table, |table|, e, n);
  }

  lemma ChosenIsFirstBest(table: seq<Descriptor>, prefs: seq<Entry>, k: nat, d: nat, m: nat, v: int)
    requires d < |table| && m < |table[d].mimeTypes| && k == PlaceOf(table, d, m)
    requires FirstBest(Offers(table, |table|), prefs, k, v)
    ensures IsFirstBest(table, prefs, d, m)
  {
    var offers := Offers(table, |table|);
    OfferAt(table, |table|, d, m);
    var a: nat :| Scores(offers, prefs, k, a, v);
    assert offers[k] == table[d].mimeTypes[m];
    assert Agree(table, d, m, prefs, a);
    assert ScoreOf(table, d, m, prefs, a) == v;
    forall e, n, j | Agree(table, e, n, prefs, j)
      ensures ScoreOf(table, e, n, prefs, j) <= v
      ensures e < d || (e == d && n < m) ==> ScoreOf(table, e, n, prefs, j) < v
    {
      AgreeIsScore(table, prefs, e, n, j);
      if e < d || (e == d && n < m) { PlacesAscend(table, e, n, d, m); }
    }
  }

  /** The choice among the offers is the first best format in table order. */
  lemma ChoiceIsBestFormat(table: seq<Descriptor>, prefs: seq<Entry>, desc: Option<nat>, mime: Option<string>)
    requires IsBest(Offers(table, |table|), Owners(table, |table|), prefs, Scan(false, Offers(table, |table|), prefs).0,
                    desc, mime)
    ensures IsBestFormat(table, prefs, desc, mime)
  {
    var offers := Offers(table, |table|);
    ScanCorrect(offers, prefs);
    match Scan(false, offers, prefs).1 {
      case None =>
        forall d, m, j ensures !Agree(table, d, m, prefs, j) {
          if Agree(table, d, m, prefs, j) { AgreeIsScore(table, prefs, d, m, j); }
        }
      case Some(k) =>
        var d, m := PlaceIsFound(table, |table|, k);
        OfferAt(table, |table|, d, m);
        ChosenIsFirstBest(table, prefs, k, d, m, Scan(false, offers, prefs).0);
        assert IsTypeOf(table, d, m, mime);
    }
  }

  // ----- the format and the type for a request -----

  /** The format for a request: an explicit `format` argument by name, else the Accept header unless it is
      empty or accepts everything, else the default by name.  A MIME type is filled in from the descriptor when
      none was negotiated. */
  method NegotiateFormat(formatArg: Option<string>, accept: Option<string>, table: seq<Descriptor>,
                         defaultFormat: Option<string>)
    returns (desc: Option<nat>, mime: Option<string>)
    requires formatArg == None && accept.Some? && accept.value != "" && accept.value != "*/*" ==>
               IsAcceptable(accept.value)
    ensures desc.Some? ==> desc.value < |table|
    ensures formatArg.Some? ==> IsNamed(table, formatArg, desc)
    ensures formatArg == None && (accept == None || accept == Some("") || accept == Some("*/*")) ==>
              IsNamed(table, defaultFormat, desc)
    ensures formatArg.Some? || accept == None || accept == Some("") || accept == Some("*/*") ==>
              if desc.Some? && |table[desc.value].mimeTypes| > 0 then mime == Some(table[desc.value].mimeTypes[0].mime)
              else mime == None
    ensures formatArg == None && accept.Some? && accept.value != "" && accept.value != "*/*" ==>
              IsBestFormat(table, ParseList(accept.value), desc, mime)
  {
    desc, mime := None, None;
    if formatArg.Some? {
      desc := GetFormatByName(table, formatArg);
    } else if accept.Some? && accept.value != "" && accept.value != "*/*" {
      var prefs := NegotiateText.Parse(accept);
      if prefs.first != null {
        desc, mime := BestFormat(table, prefs);
        ChoiceIsBestFormat(table, prefs.items, desc, mime);
      }
    } else if defaultFormat.Some? {
      desc := GetFormatByName(table, defaultFormat);
    }
    if desc.Some? && mime.None? && table[desc.value].mimeTypes != [] {
      mime := Some(table[desc.value].mimeTypes[0].mime);
    }
  }

  ghost predicate IsChosenType(server: seq<Entry>, client: seq<Entry>, format: Option<string>) {
    exists k :: IsChoice(server, client, k) && format == TypeOf(server, k)
  }

  /** The type for a request among those of a supported list: an explicit `format` argument as it is,
      else the choice for the Accept header, else the default as it is. */
  method NegotiateString(formatArg: Option<string>, accept: Option<string>, supported: string,
                         defaultFormat: Option<string>)
    returns (format: Option<string>)
    requires formatArg == None && accept.Some? && accept.value != "" && accept.value != "*/*" ==>
               IsAcceptable(accept.value) && (supported != "" ==> IsAcceptable(supported))
    ensures formatArg.Some? ==> format == formatArg
    ensures formatArg == None && (accept == None || accept == Some("") || accept == Some("*/*")) ==>
              format == defaultFormat
    ensures formatArg == None && accept.Some? && accept.value != "" && accept.value != "*/*" ==>
              IsChosenType(ParseList(supported), ParseList(accept.value), format)
  {
    if formatArg.Some? { return formatArg; }
    if accept.Some? && accept.value != "" && accept.value != "*/*" {
      var client := NegotiateText.Parse(accept);
      var server := NegotiateText.Parse(Some(supported));
      ParsePrintParse(accept.value);
      format := Negotiate.Choose(server, client);
    } else {
      format := defaultFormat;
    }
  }

  /** On the Accept path the format is the first best offer in table order, its MIME type is one of its
      descriptor's own, and the choice is the one the type negotiation makes on the flattened table. */
  lemma FormatIsFirstBest(table: seq<Descriptor>, accept: string)
    requires IsAcceptable(accept) && accept != ""
    ensures var offers, prefs := Offers(table, |table|), ParseList(accept);
            var chosen := Scan(false, offers, prefs).1;
            && IsChoice(offers, prefs, chosen)
            && chosen == Scan(true, offers, prefs).1
            && (chosen.Some? ==> IsOwnOffer(table, Owners(table, |table|)[chosen.value], offers[chosen.value]))
  {
    var offers, prefs := Offers(table, |table|), ParseList(accept);
    ParsePrintParse(accept);
    ScanCorrect(offers, prefs);
    OrderedIsBest(prefs);
    ScansAgree(offers, prefs);
    var chosen := Scan(false, offers, prefs).1;
    if chosen.Some? { OwnerHasOffer(table, |table|, chosen.value); }
  }
}
