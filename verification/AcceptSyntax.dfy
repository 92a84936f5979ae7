/** The text form of a preference list (sections 3.9 and 14.1 of RFC 2616), as the library reads and
    writes it.  Reading is by position in the whole text, as the pointers of the source are. */
module AcceptSyntax {
  import opened Text
  import opened Negotiation
  import opened Numbers

  // ----- reading -----

  /** The quality after a `q=` whose value is at position i; a missing or out-of-range number changes
      nothing. */
  function QualityAt(s: string, i: nat, q: nat): (r: nat)
    requires i <= |s| && q <= 10
    ensures r <= 10
  {
    match StrtodAt(s, i)
    case None => q
    case Some(d) =>
      if 0.0 <= d <= 1.0 then
        RoundIsNearest(d * 10.0);
        Round(d * 10.0)
      else q
  }

  /** The scan of s[i..end] for `q=`: the last usable one wins, and only a position with more than
      three characters left is looked at. */
  function ScanQuality(s: string, i: nat, end: nat, q: nat): (r: nat)
    requires i <= end <= |s| && q <= 10
    ensures r <= 10
    decreases end - i
  {
    if i + 3 >= end then q
    else ScanQuality(s, i + 1, end, if s[i] == 'q' && s[i + 1] == '=' then QualityAt(s, i + 2, q) else q)
  }

  /** Where the list element at position `start` ends, and where its parameters begin. */
  function ElementEnd(s: string, start: nat): (k: nat)
    requires start <= |s|
    ensures start <= k <= |s|
  {
    FirstFrom(s, start, ',', ',')
  }

  function ParamsStart(s: string, start: nat): (k: nat)
    requires start <= |s|
    ensures start <= k <= ElementEnd(s, start)
  {
    ParamsBeforeEnd(s, start);
    FirstFrom(s, start, ';', ',')
  }

  lemma {:induction false} ParamsBeforeEnd(s: string, start: nat)
    requires start <= |s|
    ensures FirstFrom(s, start, ';', ',') <= FirstFrom(s, start, ',', ',')
    decreases |s| - start
  {
    if start < |s| && s[start] != ',' && s[start] != ';' { ParamsBeforeEnd(s, start + 1); }
  }

  function TypeAt(s: string, start: nat): string
    requires start <= |s|
  {
    TrimRange(s, start, ParamsStart(s, start))
  }

  /** The type of the element at position `start` has a character that is no space. */
  predicate NamesType(s: string, start: nat)
    requires start <= |s|
  {
    SkipSpace(s, start, ParamsStart(s, start)) < ParamsStart(s, start)
  }

  lemma NamesTypeIff(s: string, start: nat)
    requires start <= |s|
    ensures NamesType(s, start) <==> TypeAt(s, start) != ""
  {
    var i, hi := SkipSpace(s, start, ParamsStart(s, start)), ParamsStart(s, start);
    if i < hi { DropsAtMost(s, i, hi); }
  }

  function ElementAt(s: string, start: nat): (e: Entry)
    requires start <= |s|
    ensures e.q <= 10
  {
    Entry(TypeAt(s, start), ScanQuality(s, ParamsStart(s, start), ElementEnd(s, start), 10))
  }

  /** The positions at which list elements start, from `start` on. */
  function Starts(s: string, start: nat): (starts: seq<int>)
    requires start <= |s|
    ensures forall i :: 0 <= i < |starts| ==> 0 <= starts[i] <= |s|
    decreases |s| - start
  {
    var end := ElementEnd(s, start);
    if end == |s| then [start] else [start] + Starts(s, end + 1)
  }

  ghost function ElementsFrom(s: string, start: nat): (entries: seq<Entry>)
    requires start <= |s|
  {
    var starts := Starts(s, start);
    seq(|starts|, i requires 0 <= i < |starts| => ElementAt(s, starts[i]))
  }

  /** Every element from position `start` on names a type. */
  ghost predicate AllNameTypes(s: string, start: nat)
    requires start <= |s|
  {
    var starts := Starts(s, start);
    forall i {:trigger NamesType(s, starts[i])} :: 0 <= i < |starts| ==> NamesType(s, starts[i])
  }

  ghost predicate IsAcceptable(s: string) { IsCString(s) && AllNameTypes(s, 0) }

  ghost function ParseList(s: string): seq<Entry> {
    if s == "" then [] else StableSort(ElementsFrom(s, 0))
  }

  // ----- writing -----

  predicate AllTenths(entries: seq<Entry>) { forall i :: 0 <= i < |entries| ==> entries[i].q <= 10 }

  function PrintQuality(q: nat): string
    requires q <= 10
  {
    if q == 10 then "" else ";q=0." + [('0' as int + q) as char]
  }

  function PrintEntry(e: Entry): string
    requires e.q <= 10
  {
    e.mime + PrintQuality(e.q)
  }

  /** The text of the entries from position k on. */
  function PrintFrom(entries: seq<Entry>, k: nat): string
    requires k <= |entries| && AllTenths(entries)
    decreases |entries| - k
  {
    if k == |entries| then ""
    else (PrintEntry(entries[k]) + if k + 1 < |entries| then "," else "") + PrintFrom(entries, k + 1)
  }

  function PrintList(entries: seq<Entry>): string
    requires AllTenths(entries)
  {
    PrintFrom(entries, 0)
  }

  /** A type that survives the text form: no separator in it, no space around it. */
  predicate IsPlainType(mime: string) {
    mime != "" && IsCString(mime) && Without(mime, ',', ';') && IsTrimmed(mime)
  }

  predicate IsPlain(entries: seq<Entry>) {
    forall i :: 0 <= i < |entries| ==> IsPlainType(entries[i].mime) && entries[i].q <= 10
  }

  // ----- elements are independent of their surroundings -----

  /** s is the list element of t that starts at position `at`. */
  predicate IsElementOf(s: string, t: string, at: nat) {
    && at + |s| <= |t|
    && (forall i :: 0 <= i < |s| ==> s[i] != ',' && t[at + i] == s[i])
    && (at + |s| < |t| ==> t[at + |s|] == ',')
  }

  /** A number's leading spaces end inside the element: what follows it is no space. */
  lemma {:induction false} SkipSpaceLocal(s: string, t: string, at: nat, i: nat)
    requires IsElementOf(s, t, at) && i <= |s|
    ensures SkipSpace(t, at + i, |t|) == at + SkipSpace(s, i, |s|)
    decreases |s| - i
  {
    if i < |s| { SkipSpaceLocal(s, t, at, i + 1); }
  }

  lemma {:induction false} SkipWithin(s: string, t: string, at: nat, i: nat, hi: nat)
    requires IsElementOf(s, t, at) && i <= hi <= |s|
    ensures SkipSpace(t, at + i, at + hi) == at + SkipSpace(s, i, hi)
    decreases hi - i
  {
    if i < hi { SkipWithin(s, t, at, i + 1, hi); }
  }

  lemma {:induction false} DropWithin(s: string, t: string, at: nat, lo: nat, j: nat)
    requires IsElementOf(s, t, at) && lo <= j <= |s|
    ensures DropSpace(t, at + lo, at + j) == at + DropSpace(s, lo, j)
    decreases j
  {
    if lo < j { DropWithin(s, t, at, lo, j - 1); }
  }

  lemma CopiedLocal(s: string, t: string, at: nat, lo: nat, hi: nat)
    requires IsElementOf(s, t, at) && lo <= hi <= |s|
    ensures Copied(t, at + lo, at + hi) == Copied(s, lo, hi)
  {}

  lemma TrimLocal(s: string, t: string, at: nat, hi: nat)
    requires IsElementOf(s, t, at) && hi <= |s|
    ensures TrimRange(t, at, at + hi) == TrimRange(s, 0, hi)
  {
    SkipWithin(s, t, at, 0, hi);
    var start := SkipSpace(s, 0, hi);
    DropWithin(s, t, at, start, hi);
    CopiedLocal(s, t, at, start, DropSpace(s, start, hi));
  }

  lemma {:induction false} DigitEndLocal(s: string, t: string, at: nat, i: nat)
    requires IsElementOf(s, t, at) && i <= |s|
    ensures DigitEnd(t, at + i) == at + DigitEnd(s, i)
    decreases |s| - i
  {
    if i < |s| { DigitEndLocal(s, t, at, i + 1); }
  }

  lemma {:induction false} ValueLocal(s: string, t: string, at: nat, i: nat, j: nat)
    requires IsElementOf(s, t, at) && i <= j <= |s|
    ensures Value(t, at + i, at + j) == Value(s, i, j)
  {
    if i < j { ValueLocal(s, t, at, i, j - 1); }
  }

  lemma ExponentLocal(s: string, t: string, at: nat, i: nat)
    requires IsElementOf(s, t, at) && i <= |s|
    ensures ExponentAt(t, at + i) == ExponentAt(s, i)
  {
    if i < |s| {
      var k := SkipSign(s, i + 1);
      assert SkipSign(t, at + (i + 1)) == at + k;
      DigitEndLocal(s, t, at, k);
      ValueLocal(s, t, at, k, DigitEnd(s, k));
    }
  }

  lemma UnsignedLocal(s: string, t: string, at: nat, i: nat)
    requires IsElementOf(s, t, at) && i <= |s|
    ensures UnsignedAt(t, at + i) == UnsignedAt(s, i)
  {
    var whole := DigitEnd(s, i);
    var start := if CharAt(s, whole, '.') then whole + 1 else whole;
    var end := if start > whole then DigitEnd(s, start) else whole;
    DigitEndLocal(s, t, at, i);
    ValueLocal(s, t, at, i, whole);
    DigitEndLocal(s, t, at, start);
    ValueLocal(s, t, at, start, end);
    ExponentLocal(s, t, at, end);
  }

  lemma StrtodLocal(s: string, t: string, at: nat, i: nat)
    requires IsElementOf(s, t, at) && i <= |s|
    ensures StrtodAt(t, at + i) == StrtodAt(s, i)
  {
    SkipSpaceLocal(s, t, at, i);
    UnsignedLocal(s, t, at, SkipSign(s, SkipSpace(s, i, |s|)));
  }

  lemma QualityLocal(s: string, t: string, at: nat, i: nat, q: nat)
    requires IsElementOf(s, t, at) && i <= |s| && q <= 10
    ensures QualityAt(t, at + i, q) == QualityAt(s, i, q)
  {
    StrtodLocal(s, t, at, i);
  }

  lemma {:induction false} ScanLocal(s: string, t: string, at: nat, i: nat, q: nat)
    requires IsElementOf(s, t, at) && i <= |s| && q <= 10
    ensures ScanQuality(t, at + i, at + |s|, q) == ScanQuality(s, i, |s|, q)
    decreases |s| - i
  {
    if i + 3 < |s| {
      if s[i] == 'q' && s[i + 1] == '=' {
        QualityLocal(s, t, at, i + 2, q);
        ScanLocal(s, t, at, i + 1, QualityAt(s, i + 2, q));
      } else {
        ScanLocal(s, t, at, i + 1, q);
      }
    }
  }

  lemma {:induction false} FirstLocal(s: string, t: string, at: nat, i: nat, c: char)
    requires IsElementOf(s, t, at) && i <= |s|
    ensures FirstFrom(t, at + i, c, ',') == at + FirstFrom(s, i, c, ',')
    decreases |s| - i
  {
    if i < |s| { FirstLocal(s, t, at, i + 1, c); }
  }

  lemma BoundsLocal(s: string, t: string, at: nat)
    requires IsElementOf(s, t, at)
    ensures ElementEnd(s, 0) == |s| && ElementEnd(t, at) == at + |s|
    ensures ParamsStart(t, at) == at + ParamsStart(s, 0)
  {
    FirstLocal(s, t, at, 0, ';');
    FirstLocal(s, t, at, 0, ',');
    FirstFromIs(s, 0, ',', ',', |s|);
  }

  lemma ElementLocal(s: string, t: string, at: nat)
    requires IsElementOf(s, t, at)
    ensures ElementAt(t, at) == ElementAt(s, 0)
  {
    BoundsLocal(s, t, at);
    TrimLocal(s, t, at, ParamsStart(s, 0));
    ScanLocal(s, t, at, ParamsStart(s, 0), 10);
  }

  ghost function ParsePieces(pieces: seq<string>): seq<Entry> {
    seq(|pieces|, i requires 0 <= i < |pieces| => ElementAt(pieces[i], 0))
  }

  lemma PieceIsElement(s: string, start: nat)
    requires start <= |s|
    ensures IsElementOf(Copied(s, start, ElementEnd(s, start)), s, start)
  {
    FirstFromSpec(s, start, ',', ',');
  }

  lemma {:induction false} PiecesAreElements(s: string, start: nat)
    requires start <= |s|
    ensures var pieces, starts := SplitFrom(s, start, ',', ','), Starts(s, start);
            |pieces| == |starts| && forall i :: 0 <= i < |pieces| ==> IsElementOf(pieces[i], s, starts[i])
    decreases |s| - start
  {
    var end := ElementEnd(s, start);
    PieceIsElement(s, start);
    if end < |s| {
      PiecesAreElements(s, end + 1);
    }
  }

  /** Reading the whole text is reading its comma-separated pieces one by one. */
  lemma ElementsAreIndependent(s: string)
    ensures ElementsFrom(s, 0) == ParsePieces(Split(s, ',', ','))
  {
    var pieces, starts := Split(s, ',', ','), Starts(s, 0);
    PiecesAreElements(s, 0);
    forall i | 0 <= i < |pieces| ensures ElementAt(s, starts[i]) == ElementAt(pieces[i], 0) {
      ElementLocal(pieces[i], s, starts[i]);
    }
  }

  // ----- printing and parsing undo each other -----

  lemma TenthsRoundTrip(s: string, i: nat, d: nat, q: nat)
    requires d < 10 && q <= 10 && i + 3 == |s|
    requires s[i] == '0' && s[i + 1] == '.' && s[i + 2] == ('0' as int + d) as char
    ensures QualityAt(s, i, q) == d
  {
    assert SkipSpace(s, i, |s|) == i && SkipSign(s, i) == i;
    assert DigitEnd(s, i + 1) == i + 1 && DigitEnd(s, i) == i + 1;
    assert DigitEnd(s, i + 3) == i + 3 && DigitEnd(s, i + 2) == i + 3;
    assert Value(s, i, i) == 0 && Value(s, i, i + 1) == 0;
    assert Value(s, i + 2, i + 2) == 0 && Value(s, i + 2, i + 3) == d;
    assert Scale(d as real, -1) == Scale(d as real / 10.0, 0) == d as real / 10.0;
    assert UnsignedAt(s, i) == Some(d as real / 10.0);
    RoundIsNearest(d as real / 10.0 * 10.0);
  }

  lemma PrintedBounds(e: Entry)
    requires IsPlainType(e.mime) && e.q <= 10
    ensures ParamsStart(PrintEntry(e), 0) == |e.mime| && ElementEnd(PrintEntry(e), 0) == |PrintEntry(e)|
    ensures TypeAt(PrintEntry(e), 0) == e.mime
  {
    var p, n := PrintEntry(e), |e.mime|;
    FirstFromIs(p, 0, ';', ',', n);
    FirstFromIs(p, 0, ',', ',', |p|);
    assert SkipSpace(p, 0, n) == 0 && DropSpace(p, 0, n) == n;
    assert p[0..n] == e.mime;
  }

  lemma PrintedQuality(p: string, n: nat, q: nat)
    requires q < 10 && n + 6 == |p| && p[n..] == PrintQuality(q)
    ensures ScanQuality(p, n, |p|, 10) == q
  {
    assert p[n] == ';' && p[n + 1] == 'q' && p[n + 2] == '=' && p[n + 3] == '0' && p[n + 4] == '.';
    assert p[n + 5] == ('0' as int + q) as char;
    TenthsRoundTrip(p, n + 3, q, 10);
    assert ScanQuality(p, n + 3, |p|, q) == q;
    assert ScanQuality(p, n + 2, |p|, q) == q;
    assert ScanQuality(p, n + 1, |p|, 10) == q;
  }

  lemma ElementOfPrinted(e: Entry)
    requires IsPlainType(e.mime) && e.q <= 10
    ensures ElementAt(PrintEntry(e), 0) == e
  {
    PrintedBounds(e);
    if e.q < 10 { PrintedQuality(PrintEntry(e), |e.mime|, e.q); }
  }

  ghost function PrintEntries(entries: seq<Entry>): seq<string>
    requires AllTenths(entries)
  {
    seq(|entries|, i requires 0 <= i < |entries| => PrintEntry(entries[i]))
  }

  lemma PrintStep(entries: seq<Entry>, k: nat)
    requires k < |entries| && AllTenths(entries)
    ensures PrintFrom(entries, k)
         == (PrintEntries(entries)[k] + if k + 1 < |entries| then [','] else "") + PrintFrom(entries, k + 1)
  {}

  lemma {:induction false} PrintIsJoin(entries: seq<Entry>, k: nat)
    requires k <= |entries| && AllTenths(entries)
    ensures PrintFrom(entries, k) == JoinFrom(PrintEntries(entries), k, ',')
    decreases |entries| - k
  {
    if k < |entries| {
      PrintIsJoin(entries, k + 1);
      JoinStep(PrintEntries(entries), k, ',');
      PrintStep(entries, k);
    }
  }

  lemma PrintedChars(e: Entry)
    requires IsPlainType(e.mime) && e.q <= 10
    ensures Without(PrintEntry(e), ',', ',') && IsCString(PrintEntry(e)) && PrintEntry(e) != ""
  {}

  lemma PiecesOfPrinted(entries: seq<Entry>)
    requires IsPlain(entries)
    ensures ParsePieces(PrintEntries(entries)) == entries
    ensures forall i :: 0 <= i < |entries| ==>
              Without(PrintEntries(entries)[i], ',', ',') && IsCString(PrintEntries(entries)[i])
  {
    forall i | 0 <= i < |entries|
      ensures ElementAt(PrintEntry(entries[i]), 0) == entries[i]
      ensures Without(PrintEntry(entries[i]), ',', ',') && IsCString(PrintEntry(entries[i]))
    {
      ElementOfPrinted(entries[i]);
      PrintedChars(entries[i]);
    }
  }

  /** Printing a sorted list and parsing the text gives the list back. */
  lemma ParsePrintRoundTrip(entries: seq<Entry>)
    requires NonIncreasing(entries) && IsPlain(entries)
    ensures entries != [] ==> PrintList(entries) != "" && IsAcceptable(PrintList(entries))
    ensures ParseList(PrintList(entries)) == entries
  {
    if entries != [] {
      var pieces, str := PrintEntries(entries), PrintList(entries);
      PrintIsJoin(entries, 0);
      PiecesOfPrinted(entries);
      PrintedChars(entries[0]);
      SplitJoin(pieces, 0, ',', ',', ',');
      assert pieces[0..] == pieces;
      JoinIsCString(pieces, 0, ',');
      ElementsAreIndependent(str);
      forall i | 0 <= i < |Starts(str, 0)| ensures NamesType(str, Starts(str, 0)[i]) {
        NamesTypeIff(str, Starts(str, 0)[i]);
        assert ElementsFrom(str, 0)[i].mime == TypeAt(str, Starts(str, 0)[i]);
      }
      StableSortFixed(entries);
    }
  }

  lemma ElementIsPlain(s: string, start: nat)
    requires start <= |s| && IsCString(s) && NamesType(s, start)
    ensures IsPlainType(TypeAt(s, start))
  {
    NamesTypeIff(s, start);
    FirstFromSpec(s, start, ';', ',');
    var i, j := TrimSpec(s, start, ParamsStart(s, start));
    assert forall x :: 0 <= x < j - i ==> TypeAt(s, start)[x] == s[i + x];
  }

  lemma ElementsArePlain(s: string)
    requires IsAcceptable(s)
    ensures IsPlain(ElementsFrom(s, 0))
  {
    forall i | 0 <= i < |Starts(s, 0)| ensures IsPlainType(TypeAt(s, Starts(s, 0)[i])) {
      assert NamesType(s, Starts(s, 0)[i]);
      ElementIsPlain(s, Starts(s, 0)[i]);
    }
  }

  lemma SortKeepsPlain(entries: seq<Entry>)
    requires IsPlain(entries)
    ensures IsPlain(StableSort(entries)) && NonIncreasing(StableSort(entries))
  {
    StableSortCorrect(entries);
    var sorted := StableSort(entries);
    forall i | 0 <= i < |sorted| ensures IsPlainType(sorted[i].mime) && sorted[i].q <= 10 {
      assert sorted[i] in entries;
    }
  }

  /** What an acceptable header parses to is always printable, in order, and stable under another trip. */
  lemma ParsePrintParse(s: string)
    requires s != "" ==> IsAcceptable(s)
    ensures NonIncreasing(ParseList(s)) && IsPlain(ParseList(s))
    ensures ParseList(PrintList(ParseList(s))) == ParseList(s)
  {
    if s != "" {
      ElementsArePlain(s);
      SortKeepsPlain(ElementsFrom(s, 0));
    }
    ParsePrintRoundTrip(ParseList(s));
  }

  // ----- what an element says -----

  /** A quality from 0 to 1 is rounded to tenths, halves upwards; anything else changes nothing. */
  lemma QualityIsRounded(s: string, i: nat, q: nat)
    requires i <= |s| && q <= 10
    ensures match StrtodAt(s, i)
            case None => QualityAt(s, i, q) == q
            case Some(v) => QualityAt(s, i, q) == if 0.0 <= v <= 1.0 then (v * 10.0 + 0.5).Floor else q
  {}

  /** The two characters at position p are `q=`. */
  predicate IsWeight(s: string, p: int) { 0 <= p < |s| - 1 && s[p] == 'q' && s[p + 1] == '=' }

  lemma {:induction false} ScanFindsNothing(s: string, i: nat, end: nat, q: nat)
    requires i <= end <= |s| && q <= 10 && forall p :: i <= p < end - 3 ==> !IsWeight(s, p)
    ensures ScanQuality(s, i, end, q) == q
    decreases end - i
  {
    if i + 3 < end {
      assert !IsWeight(s, i);
      ScanFindsNothing(s, i + 1, end, q);
    }
  }

  /** A `q=` counts if more than three characters of the element start there; the last one that counts wins. */
  lemma {:induction false} ScanFindsLast(s: string, i: nat, end: nat, q: nat, p: nat) returns (before: nat)
    requires i <= p < end - 3 && end <= |s| && q <= 10 && IsWeight(s, p)
    requires forall r :: p < r < end - 3 ==> !IsWeight(s, r)
    ensures before <= 10 && ScanQuality(s, i, end, q) == QualityAt(s, p + 2, before)
    ensures (forall r :: i <= r < p ==> !IsWeight(s, r)) ==> before == q
    decreases end - i
  {
    if i < p {
      var next := if s[i] == 'q' && s[i + 1] == '=' then QualityAt(s, i + 2, q) else q;
      before := ScanFindsLast(s, i + 1, end, next, p);
      assert ScanQuality(s, i, end, q) == ScanQuality(s, i + 1, end, next);
      assert !IsWeight(s, i) ==> next == q;
    } else {
      before := q;
      ScanFindsNothing(s, i + 1, end, QualityAt(s, p + 2, q));
    }
  }

  /** A type with a weight behind it, and nothing else. */
  function Weighted(mime: string, number: string): string { mime + ";q=" + number }

  predicate IsNumberText(number: string) {
    IsCString(number) && Without(number, ',', ',') && forall p :: 0 <= p < |number| ==> !IsWeight(number, p)
  }

  lemma WeightedBounds(mime: string, number: string)
    requires IsPlainType(mime) && IsNumberText(number)
    ensures var s := Weighted(mime, number);
            ElementEnd(s, 0) == |s| && ParamsStart(s, 0) == |mime| && TypeAt(s, 0) == mime
  {
    var s, n := Weighted(mime, number), |mime|;
    FirstFromIs(s, 0, ';', ',', n);
    FirstFromIs(s, 0, ',', ',', |s|);
    SkipSpaceIs(s, 0, n, 0);
    DropSpaceIs(s, 0, n, n);
    CopiedIsSlice(s, 0, n);
    assert s[0..n] == mime;
  }

  /** The number's `q=` is the only one. */
  lemma OnlyWeight(mime: string, number: string)
    requires IsNumberText(number)
    ensures var s, n := Weighted(mime, number), |mime|;
            |s| == n + 3 + |number| && IsWeight(s, n + 1) && forall r :: n <= r && r != n + 1 ==> !IsWeight(s, r)
  {
    var s, n := Weighted(mime, number), |mime|;
    assert s[n] == ';' && s[n + 1] == 'q' && s[n + 2] == '=';
    forall r | n + 3 <= r < |s| - 1 ensures !IsWeight(s, r) {
      assert s[r] == number[r - n - 3] && s[r + 1] == number[r - n - 2];
      assert !IsWeight(number, r - n - 3);
    }
  }

  lemma NumberIsElement(mime: string, number: string)
    requires IsNumberText(number)
    ensures IsElementOf(number, Weighted(mime, number), |mime| + 3)
  {
    assert |Weighted(mime, number)| == |mime| + 3 + |number|;
  }

  /** It is read with the quality of its number, if that has two characters or more, and else with 10. */
  lemma WeightedIsRead(mime: string, number: string)
    requires IsPlainType(mime) && IsNumberText(number)
    ensures ElementAt(Weighted(mime, number), 0)
         == Entry(mime, if |number| >= 2 then QualityAt(number, 0, 10) else 10)
  {
    var s, n := Weighted(mime, number), |mime|;
    WeightedBounds(mime, number);
    OnlyWeight(mime, number);
    if |number| >= 2 {
      var before := ScanFindsLast(s, n, |s|, 10, n + 1);
      NumberIsElement(mime, number);
      QualityLocal(number, s, n + 3, 0, 10);
    } else {
      ScanFindsNothing(s, n, |s|, 10);
    }
  }

  /** The value of the digits behind a decimal point. */
  function FractionOf(digits: string): real { Value(digits, 0, |digits|) as real / Pow10(|digits|) as real }

  lemma FractionShape(digits: string)
    requires digits != "" && IsDigitRun(digits, 0, |digits|)
    ensures var number := "0." + digits;
            && IsNumberText(number) && IsElementOf(digits, number, 2)
            && number[1] == '.' && IsDigitRun(number, 0, 1) && IsDigitRun(number, 2, |number|)
    ensures Value("0." + digits, 0, 1) == 0
  {
    var number := "0." + digits;
    forall k | 2 <= k < |number| ensures number[k] == digits[k - 2] && IsDigit(number[k]) {
      assert IsDigit(digits[k - 2]);
    }
    assert Value(number, 0, 0) == 0;
  }

  lemma FractionText(digits: string)
    requires digits != "" && IsDigitRun(digits, 0, |digits|)
    ensures IsNumberText("0." + digits) && StrtodAt("0." + digits, 0) == Some(FractionOf(digits))
  {
    var number := "0." + digits;
    FractionShape(digits);
    ProperFractionIsRead(number, |number|);
    ValueLocal(digits, number, 2, 0, |digits|);
  }

  /** So `;q=0.` and digits give the quality that the digits round to. */
  lemma FractionIsQuality(mime: string, digits: string)
    requires IsPlainType(mime) && digits != "" && IsDigitRun(digits, 0, |digits|)
    ensures ElementAt(Weighted(mime, "0." + digits), 0)
         == Entry(mime, if 0.0 <= FractionOf(digits) <= 1.0 then (FractionOf(digits) * 10.0 + 0.5).Floor else 10)
  {
    FractionText(digits);
    WeightedIsRead(mime, "0." + digits);
    QualityIsRounded("0." + digits, 0, 10);
  }

  /** An entry is printed as its type and, below 10, its tenths behind `;q=0.`. */
  lemma EntryIsPrinted(e: Entry)
    requires e.q <= 10
    ensures PrintEntry(e) == if e.q == 10 then e.mime else e.mime + (";q=0." + Decimal(e.q))
  {}

  /** Space around a type is not part of it. */
  lemma TypeIsTrimmed(before: string, mime: string, behind: string, params: string)
    requires IsPlainType(mime) && Without(params, ',', ',')
    requires forall i :: 0 <= i < |before| ==> IsSpace(before[i])
    requires forall i :: 0 <= i < |behind| ==> IsSpace(behind[i])
    ensures TypeAt(before + mime + behind + ";" + params, 0) == mime
  {
    var s, i, j, n := before + mime + behind + ";" + params, |before|, |before| + |mime|, |before| + |mime| + |behind|;
    assert s[n] == ';' && s[i] == mime[0] && s[j - 1] == mime[|mime| - 1];
    assert forall k :: i <= k < j ==> s[k] == mime[k - i];
    assert forall k :: j <= k < n ==> s[k] == behind[k - j];
    FirstFromIs(s, 0, ';', ',', n);
    SkipSpaceIs(s, 0, n, i);
    DropSpaceIs(s, i, n, j);
    CopiedIsSlice(s, i, j);
    assert s[i..j] == mime;
  }
}
