/** What a preference list means: entries, their order, and the stable sort by quality. */
module Negotiation {
  import opened Text

  /** A MIME type with its quality factor in tenths, 0..10. */
  datatype Entry = Entry(mime: string, q: nat)

  ghost predicate NonIncreasing(entries: seq<Entry>) {
    forall i, j :: 0 <= i < j < |entries| ==> entries[i].q >= entries[j].q
  }

  /** The entries of quality q, in list order. */
  ghost function WithQ(entries: seq<Entry>, q: nat): seq<Entry> {
    if entries == [] then []
    else WithQ(entries[..|entries| - 1], q) + var e := entries[|entries| - 1]; if e.q == q then [e] else []
  }

  /** Puts e just behind the last entry whose quality is at least e's. */
  ghost function Insert(entries: seq<Entry>, e: Entry): seq<Entry> {
    if entries == [] || entries[|entries| - 1].q >= e.q then entries + [e]
    else Insert(entries[..|entries| - 1], e) + [entries[|entries| - 1]]
  }

  /** The stable sort by falling quality. */
  ghost function StableSort(entries: seq<Entry>): seq<Entry> {
    if entries == [] then []
    else Insert(StableSort(entries[..|entries| - 1]), entries[|entries| - 1])
  }

  lemma {:induction false} WithQConcat(a: seq<Entry>, b: seq<Entry>, q: nat)
    ensures WithQ(a + b, q) == WithQ(a, q) + WithQ(b, q)
  {
    if b == [] {
      assert a + b == a;
    } else {
      var b' := b[..|b| - 1];
      assert (a + b)[..|a + b| - 1] == a + b';
      WithQConcat(a, b', q);
    }
  }

  lemma {:induction false} InsertWithQ(entries: seq<Entry>, e: Entry, q: nat)
    ensures WithQ(Insert(entries, e), q) == WithQ(entries + [e], q)
  {
    WithQConcat(entries, [e], q);
    if entries != [] && entries[|entries| - 1].q < e.q {
      var front, last := entries[..|entries| - 1], entries[|entries| - 1];
      InsertWithQ(front, e, q);
      WithQConcat(front, [e], q);
      WithQConcat(Insert(front, e), [last], q);
    }
  }

  /** Insertion lands between the entries of quality at least e's and the entries below it. */
  lemma {:induction false} InsertPosition(entries: seq<Entry>, e: Entry) returns (k: nat)
    requires NonIncreasing(entries)
    ensures k <= |entries| && Insert(entries, e) == entries[..k] + [e] + entries[k..]
    ensures forall i :: 0 <= i < k ==> entries[i].q >= e.q
    ensures forall i :: k <= i < |entries| ==> entries[i].q < e.q
  {
    if entries == [] || entries[|entries| - 1].q >= e.q {
      k := |entries|;
    } else {
      var front, last := entries[..|entries| - 1], entries[|entries| - 1];
      k := InsertPosition(front, e);
      assert front[k..] + [last] == entries[k..];
    }
  }

  lemma InsertOrder(entries: seq<Entry>, e: Entry)
    requires NonIncreasing(entries)
    ensures |Insert(entries, e)| == |entries| + 1
    ensures NonIncreasing(Insert(entries, e))
  {
    var k := InsertPosition(entries, e);
    var r := Insert(entries, e);
    assert forall i :: 0 <= i < |r| ==> r[i] == if i < k then entries[i] else if i == k then e else entries[i - 1];
  }

  lemma {:induction false} InsertMembers(entries: seq<Entry>, e: Entry)
    ensures forall x :: x in Insert(entries, e) <==> x in entries || x == e
  {
    if entries != [] && entries[|entries| - 1].q < e.q {
      var front, last := entries[..|entries| - 1], entries[|entries| - 1];
      InsertMembers(front, e);
      assert entries == front + [last];
    }
  }

  /** The sort is non-increasing, and keeps every quality's entries in their original order. */
  lemma {:induction false} StableSortCorrect(entries: seq<Entry>)
    ensures NonIncreasing(StableSort(entries))
    ensures |StableSort(entries)| == |entries|
    ensures forall q :: WithQ(StableSort(entries), q) == WithQ(entries, q)
    ensures forall x :: x in StableSort(entries) <==> x in entries
  {
    if entries != [] {
      var front, last := entries[..|entries| - 1], entries[|entries| - 1];
      StableSortCorrect(front);
      assert entries == front + [last];
      InsertOrder(StableSort(front), last);
      InsertMembers(StableSort(front), last);
      forall q ensures WithQ(StableSort(entries), q) == WithQ(entries, q) {
        InsertWithQ(StableSort(front), last, q);
        WithQConcat(StableSort(front), [last], q);
        WithQConcat(front, [last], q);
      }
    }
  }

  lemma {:induction false} WithQHas(entries: seq<Entry>, i: nat)
    requires i < |entries|
    ensures entries[i] in WithQ(entries, entries[i].q)
  {
    if i < |entries| - 1 {
      WithQHas(entries[..|entries| - 1], i);
    }
  }

  lemma {:induction false} WithQOnly(entries: seq<Entry>, q: nat)
    ensures forall e :: e in WithQ(entries, q) ==> e in entries && e.q == q
  {
    if entries != [] {
      WithQOnly(entries[..|entries| - 1], q);
    }
  }

  lemma {:induction false} LastIsLowest(a: seq<Entry>, b: seq<Entry>)
    requires NonIncreasing(b) && a != []
    requires WithQ(a, a[|a| - 1].q) == WithQ(b, a[|a| - 1].q)
    ensures b != [] && b[|b| - 1].q <= a[|a| - 1].q
  {
    var last := a[|a| - 1];
    WithQHas(a, |a| - 1);
    WithQOnly(b, last.q);
    var i :| 0 <= i < |b| && b[i] == last;
  }

  /** Order and stability leave no freedom: they determine the list. */
  lemma {:induction false} SortedUnique(a: seq<Entry>, b: seq<Entry>)
    requires NonIncreasing(a) && NonIncreasing(b)
    requires forall q :: WithQ(a, q) == WithQ(b, q)
    ensures a == b
    decreases |a|
  {
    if a == [] {
      if b != [] { LastIsLowest(b, a); }
    } else {
      LastIsLowest(a, b);
      LastIsLowest(b, a);
      var x, y := a[|a| - 1], b[|b| - 1];
      assert WithQ(a, x.q) == WithQ(b, x.q);
      assert x == WithQ(a, x.q)[|WithQ(a, x.q)| - 1] == y;
      var a', b' := a[..|a| - 1], b[..|b| - 1];
      forall q ensures WithQ(a', q) == WithQ(b', q) {
        var tail := if x.q == q then [x] else [];
        assert WithQ(a', q) + tail == WithQ(a, q) == WithQ(b, q) == WithQ(b', q) + tail;
        assert WithQ(a', q) == (WithQ(a', q) + tail)[..|WithQ(a, q)| - |tail|];
      }
      SortedUnique(a', b');
      assert a == a' + [x] && b == b' + [y];
    }
  }

  lemma StableSortUnique(entries: seq<Entry>, sorted: seq<Entry>)
    requires NonIncreasing(sorted)
    requires forall q :: WithQ(sorted, q) == WithQ(entries, q)
    ensures sorted == StableSort(entries)
  {
    StableSortCorrect(entries);
    SortedUnique(sorted, StableSort(entries));
  }

  /** Sorting a list that is already in order changes nothing. */
  lemma StableSortFixed(entries: seq<Entry>)
    requires NonIncreasing(entries)
    ensures StableSort(entries) == entries
  {
    StableSortUnique(entries, entries);
  }

  /** Appending to a sorted list and sorting again is one insertion. */
  lemma AddToSorted(entries: seq<Entry>, e: Entry)
    requires NonIncreasing(entries)
    ensures StableSort(entries + [e]) == Insert(entries, e)
  {
    StableSortFixed(entries);
    assert (entries + [e])[..|entries|] == entries;
  }

  /** Sorting as entries arrive, after every one of them, is sorting once at the end. */
  lemma SortIncrementally(entries: seq<Entry>, e: Entry)
    ensures StableSort(StableSort(entries) + [e]) == StableSort(entries + [e])
  {
    StableSortCorrect(entries);
    AddToSorted(StableSort(entries), e);
    assert (entries + [e])[..|entries|] == entries;
  }

  /** The list after adding the entries one by one, sorting after each. */
  ghost function AddedOneByOne(entries: seq<Entry>): seq<Entry> {
    if entries == [] then []
    else StableSort(AddedOneByOne(entries[..|entries| - 1]) + [entries[|entries| - 1]])
  }

  /** After any sequence of adds the list is the stable sort of all entries in call order. */
  lemma {:induction false} AddsAreStableSort(entries: seq<Entry>)
    ensures AddedOneByOne(entries) == StableSort(entries)
  {
    if entries != [] {
      var front, last := entries[..|entries| - 1], entries[|entries| - 1];
      AddsAreStableSort(front);
      SortIncrementally(front, last);
      FrontAndLast(entries);
    }
  }
}
