/** The bubble sort of negotiate.c on values: what each pass does to the sequence of list slots. */
module BubbleSort {
  import opened LinkedLists
  import opened Negotiation

  /** A list node together with the entry it holds. */
  datatype Slot = Slot(node: Node<Entry>, entry: Entry)

  ghost function EntriesOf(slots: seq<Slot>): seq<Entry> {
    seq(|slots|, i requires 0 <= i < |slots| => slots[i].entry)
  }

  /** The slots of quality q, in list order. */
  ghost function SlotsWithQ(slots: seq<Slot>, q: nat): seq<Slot> {
    if slots == [] then []
    else
      var last := slots[|slots| - 1];
      SlotsWithQ(slots[..|slots| - 1], q) + if last.entry.q == q then [last] else []
  }

  /** The same nodes holding the same entries, those of equal quality in their old relative order. */
  ghost predicate Reordered(slots: seq<Slot>, was: seq<Slot>) {
    |slots| == |was| && forall q :: SlotsWithQ(slots, q) == SlotsWithQ(was, q)
  }

  ghost function Step(slots: seq<Slot>, k: nat): (r: seq<Slot>)
    requires k + 1 < |slots|
    ensures |r| == |slots|
  {
    if slots[k].entry.q < slots[k + 1].entry.q then slots[k := slots[k + 1]][k + 1 := slots[k]] else slots
  }

  /** The rest of a pass over the first m slots, from position k on. */
  ghost function Bubble(slots: seq<Slot>, k: nat, m: nat): (r: seq<Slot>)
    requires m <= |slots|
    ensures |r| == |slots|
    decreases m - k
  {
    if k + 1 >= m then slots else Bubble(Step(slots, k), k + 1, m)
  }

  /** The passes over the first m, m - 1, .., 2 slots. */
  ghost function Passes(slots: seq<Slot>, m: nat): (r: seq<Slot>)
    requires m <= |slots|
    ensures |r| == |slots|
    decreases m
  {
    if m <= 1 then slots else Passes(Bubble(slots, 0, m), m - 1)
  }

  /** The comparisons those passes make. */
  ghost function Comparisons(m: nat): nat {
    if m == 0 then 0 else m - 1 + Comparisons(m - 1)
  }

  lemma {:induction false} ComparisonsClosed(m: nat)
    ensures 2 * Comparisons(m) == m * (m - 1)
  {
    if m > 0 { ComparisonsClosed(m - 1); }
  }

  lemma {:induction false} SlotsWithQConcat(a: seq<Slot>, b: seq<Slot>, q: nat)
    ensures SlotsWithQ(a + b, q) == SlotsWithQ(a, q) + SlotsWithQ(b, q)
  {
    if b == [] {
      assert a + b == a;
    } else {
      assert (a + b)[..|a + b| - 1] == a + b[..|b| - 1];
      SlotsWithQConcat(a, b[..|b| - 1], q);
    }
  }

  lemma SwapPairWithQ(s: Slot, t: Slot, q: nat)
    requires s.entry.q != t.entry.q
    ensures SlotsWithQ([s, t], q) == SlotsWithQ([t, s], q)
  {
    assert [s, t][..1] == [s] && [t, s][..1] == [t];
  }

  lemma StepReorders(slots: seq<Slot>, k: nat)
    requires k + 1 < |slots|
    ensures Reordered(Step(slots, k), slots)
  {
    var x, s, t, y := slots[..k], slots[k], slots[k + 1], slots[k + 2..];
    assert slots == x + ([s, t] + y);
    if s.entry.q < t.entry.q {
      assert Step(slots, k) == x + ([t, s] + y);
      forall q ensures SlotsWithQ(Step(slots, k), q) == SlotsWithQ(slots, q) {
        SlotsWithQConcat(x, [s, t] + y, q);
        SlotsWithQConcat([s, t], y, q);
        SlotsWithQConcat(x, [t, s] + y, q);
        SlotsWithQConcat([t, s], y, q);
        SwapPairWithQ(s, t, q);
      }
    }
  }

  /** Everything from position m on is in its final place. */
  ghost predicate Settled(slots: seq<Slot>, m: nat) {
    forall i, j :: 0 <= i < j < |slots| && m <= j ==> slots[i].entry.q >= slots[j].entry.q
  }

  lemma {:induction false} BubbleSettles(slots: seq<Slot>, k: nat, m: nat)
    requires k < m <= |slots| && Settled(slots, m)
    requires forall i :: 0 <= i < k ==> slots[i].entry.q >= slots[k].entry.q
    ensures Settled(Bubble(slots, k, m), m - 1)
    ensures Reordered(Bubble(slots, k, m), slots)
    decreases m - k
  {
    if k + 1 < m {
      StepReorders(slots, k);
      BubbleSettles(Step(slots, k), k + 1, m);
    }
  }

  lemma {:induction false} PassesSettle(slots: seq<Slot>, m: nat)
    requires m <= |slots| && Settled(slots, m)
    ensures Settled(Passes(slots, m), 1)
    ensures Reordered(Passes(slots, m), slots)
    decreases m
  {
    if m > 1 {
      BubbleSettles(slots, 0, m);
      PassesSettle(Bubble(slots, 0, m), m - 1);
    }
  }

  lemma {:induction false} EntriesWithQ(slots: seq<Slot>, q: nat)
    ensures WithQ(EntriesOf(slots), q) == EntriesOf(SlotsWithQ(slots, q))
  {
    if slots != [] {
      assert EntriesOf(slots)[..|slots| - 1] == EntriesOf(slots[..|slots| - 1]);
      EntriesWithQ(slots[..|slots| - 1], q);
    }
  }

  /** The bubble sort is the stable sort by falling quality, on the very same nodes. */
  lemma PassesSort(slots: seq<Slot>)
    ensures Reordered(Passes(slots, |slots|), slots)
    ensures EntriesOf(Passes(slots, |slots|)) == StableSort(EntriesOf(slots))
  {
    var r := Passes(slots, |slots|);
    PassesSettle(slots, |slots|);
    forall q ensures WithQ(EntriesOf(r), q) == WithQ(EntriesOf(slots), q) {
      EntriesWithQ(r, q);
      EntriesWithQ(slots, q);
    }
    StableSortUnique(EntriesOf(slots), EntriesOf(r));
  }

  lemma {:induction false} SlotsWithQCount(slots: seq<Slot>, s: Slot)
    ensures multiset(slots)[s] == multiset(SlotsWithQ(slots, s.entry.q))[s]
  {
    if slots != [] {
      var front, last := slots[..|slots| - 1], slots[|slots| - 1];
      assert slots == front + [last];
      SlotsWithQCount(front, s);
    }
  }

  /** So a reordering keeps every node, and what it holds. */
  lemma ReorderedIsPermutation(slots: seq<Slot>, was: seq<Slot>)
    requires Reordered(slots, was)
    ensures multiset(slots) == multiset(was)
  {
    forall s ensures multiset(slots)[s] == multiset(was)[s] {
      SlotsWithQCount(slots, s);
      SlotsWithQCount(was, s);
    }
  }
}
