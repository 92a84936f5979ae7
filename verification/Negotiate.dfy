/** negotiate.c: the preference list as a heap structure. */
module Negotiate {
  import opened LinkedLists
  import opened Negotiation
  import opened BubbleSort
  import opened Choice
  import opened Text

  ghost function SlotsOf(nodes: seq<Node<Entry>>, items: seq<Entry>): (slots: seq<Slot>)
    requires |nodes| == |items|
  {
    seq(|nodes|, i requires 0 <= i < |nodes| => Slot(nodes[i], items[i]))
  }

  lemma SwappedSlots(nodes: seq<Node<Entry>>, items: seq<Entry>, k: nat)
    requires |nodes| == |items| && k + 1 < |nodes| && items[k].q < items[k + 1].q
    ensures SlotsOf(nodes[k := nodes[k + 1]][k + 1 := nodes[k]], items[k := items[k + 1]][k + 1 := items[k]])
         == Step(SlotsOf(nodes, items), k)
  {}

  lemma NodeAtInjective<T>(nodes: seq<Node<T>>, i: nat, j: nat)
    requires Distinct(nodes) && i <= |nodes| && j <= |nodes| && NodeAt(nodes, i) == NodeAt(nodes, j)
    ensures i == j
  {}

  /** One comparison: exchanges the neighbours a and b, at positions k and k + 1, if they are out of
      order, and moves on.  c is the node before a; a heads the list when it has none. */
  method CompareStep(list: List<Entry>, a: Node<Entry>, b: Node<Entry>, c: Node?<Entry>, ghost k: nat)
    returns (a': Node<Entry>, c': Node<Entry>)
    requires list.Valid()
    requires k + 1 < |list.nodes| && a == list.nodes[k] && b == list.nodes[k + 1] && (k > 0 ==> c == list.nodes[k - 1])
    modifies list, list.repr`next
    ensures list.Valid() && list.repr == old(list.repr)
    ensures |list.nodes| == |old(list.nodes)| && list.nodes[k + 2..] == old(list.nodes[k + 2..])
    ensures SlotsOf(list.nodes, list.items) == Step(old(SlotsOf(list.nodes, list.items)), k)
    ensures a' == list.nodes[k + 1] && c' == list.nodes[k]
  {
    if a.data.q < b.data.q {
      SwappedSlots(list.nodes, list.items, k);
      var tmp := b.next;
      b.next := a;
      a.next := tmp;
      if a == list.first {
        list.first := b;
      } else {
        c.next := b;
      }
      list.nodes := list.nodes[k := b][k + 1 := a];
      list.items := list.items[k := b.data][k + 1 := a.data];
      a', c' := a, b;
    } else {
      a', c' := a.next, a;
    }
  }

  /** One pass of the sort, up to the boundary `e` at position m: `a` carries the lowest quality seen
      so far and `c` trails one node behind it.  The pass ends when the boundary has moved onto `a`. */
  method Pass(list: List<Entry>, e: Node?<Entry>, ghost m: nat)
    returns (boundary: Node?<Entry>, ghost comparisons: nat)
    requires list.Valid()
    requires 1 < m <= |list.nodes| && e == NodeAt(list.nodes, m)
    modifies list, list.repr`next
    ensures list.Valid() && list.repr == old(list.repr)
    ensures |list.nodes| == |old(list.nodes)|
    ensures SlotsOf(list.nodes, list.items) == Bubble(old(SlotsOf(list.nodes, list.items)), 0, m)
    ensures boundary == list.nodes[m - 1]
    ensures comparisons == m - 1
  {
    boundary := e;
    var a := list.first;
    var c := a;
    var b := a.next;
    comparisons := 0;
    while a != boundary
      invariant list.Valid() && list.repr == old(list.repr)
      invariant |list.nodes| == |old(list.nodes)|
      invariant comparisons < m && a == list.nodes[comparisons] && b == NodeAt(list.nodes, comparisons + 1)
      invariant comparisons > 0 ==> c == list.nodes[comparisons - 1]
      invariant boundary == NodeAt(list.nodes, if comparisons == m - 1 then comparisons else m)
      invariant Bubble(SlotsOf(list.nodes, list.items), comparisons, m)
                  == Bubble(old(SlotsOf(list.nodes, list.items)), 0, m)
      decreases m - comparisons
    {
      a, c := CompareStep(list, a, b, c, comparisons);
      assert boundary == NodeAt(list.nodes, m);
      comparisons := comparisons + 1;
      b := a.next;
      if b == boundary {
        NodeAtInjective(list.nodes, comparisons + 1, m);
        boundary := a;
      }
    }
    assert comparisons == m - 1;
  }

  /** The passes of the sort: `e` is the first node known to be in its final place. */
  method SortPasses(list: List<Entry>) returns (ghost comparisons: nat)
    requires list.Valid() && list.first != null
    modifies list, list.repr`next
    ensures list.Valid() && list.repr == old(list.repr)
    ensures SlotsOf(list.nodes, list.items) == Passes(old(SlotsOf(list.nodes, list.items)), |old(list.nodes)|)
    ensures comparisons == Comparisons(|old(list.nodes)|)
  {
    comparisons := 0;
    ghost var slots := SlotsOf(list.nodes, list.items);
    ghost var m := |slots|;
    var e: Node?<Entry> := null;
    while e != list.first.next
      invariant list.Valid() && list.repr == old(list.repr) && |list.nodes| == |slots|
      invariant 1 <= m <= |slots| && e == NodeAt(list.nodes, m)
      invariant Passes(SlotsOf(list.nodes, list.items), m) == Passes(slots, |slots|)
      invariant comparisons + Comparisons(m) == Comparisons(|slots|)
      decreases m
    {
      ghost var cost;
      e, cost := Pass(list, e, m);
      m := m - 1;
      comparisons := comparisons + cost;
    }
    NodeAtInjective(list.nodes, m, 1);
  }

  /** Bubble sort by relinking. */
  method Sort(list: List<Entry>) returns (ghost comparisons: nat)
    requires list.Valid()
    modifies list, list.repr`next
    ensures list.Valid() && list.repr == old(list.repr)
    ensures Reordered(SlotsOf(list.nodes, list.items), old(SlotsOf(list.nodes, list.items)))
    ensures list.items == StableSort(old(list.items))
    ensures 2 * comparisons == |list.nodes| * (|list.nodes| - 1)
  {
    ghost var slots := SlotsOf(list.nodes, list.items);
    PassesSort(slots);
    assert EntriesOf(slots) == list.items;
    if list.first == null { return 0; }
    comparisons := SortPasses(list);
    ComparisonsClosed(|slots|);
    assert EntriesOf(SlotsOf(list.nodes, list.items)) == list.items;
  }

  /** The type text[start..end] without the spaces at both ends; some character is not a space. */
  method Trimmed(text: string, start: nat, end: nat) returns (trimmed: string)
    requires start <= end <= |text| && TrimRange(text, start, end) != ""
    ensures trimmed == TrimRange(text, start, end)
  {
    var lo, hi := start, end;
    while IsSpace(text[lo])
      invariant start <= lo < hi && SkipSpace(text, lo, hi) == SkipSpace(text, start, hi)
      decreases hi - lo
    {
      lo := lo + 1;
    }
    while IsSpace(text[hi - 1])
      invariant lo < hi <= end && DropSpace(text, lo, hi) == DropSpace(text, lo, end)
      decreases hi
    {
      hi := hi - 1;
    }
    CopiedIsSlice(text, lo, hi);
    trimmed := text[lo..hi];
  }

  /** Trims the type text[start..end], links the entry at the tail and sorts the list again. */
  method Add(list: List<Entry>, text: string, start: nat, end: nat, q: nat)
    requires start <= end <= |text| && TrimRange(text, start, end) != "" && q <= 10
    requires list.Valid()
    modifies list, list.repr
    ensures list.Valid()
    ensures fresh(list.repr - old(list.repr))
    ensures list.items == StableSort(old(list.items) + [Entry(TrimRange(text, start, end), q)])
  {
    var mime := Trimmed(text, start, end);
    list.Append(Entry(mime, q));
    ghost var comparisons := Sort(list);
  }

  /** The entry that an add of the text with the quality stores. */
  function Stored(call: Entry): Entry { Entry(TrimRange(call.mime, 0, |call.mime|), call.q) }

  function StoredAll(calls: seq<Entry>): seq<Entry> {
    seq(|calls|, i requires 0 <= i < |calls| => Stored(calls[i]))
  }

  lemma SortNext(before: seq<Entry>, entries: seq<Entry>, i: nat)
    requires i < |entries|
    ensures StableSort(StableSort(before + entries[..i]) + [entries[i]]) == StableSort(before + entries[..i + 1])
  {
    SortIncrementally(before + entries[..i], entries[i]);
    Assoc(before, entries[..i], [entries[i]]);
    PrefixAndNext(entries, i);
  }

  /** Any sequence of adds to a sorted list. */
  method AddAll(list: List<Entry>, calls: seq<Entry>)
    requires list.Valid() && NonIncreasing(list.items)
    requires forall i :: 0 <= i < |calls| ==> Stored(calls[i]).mime != "" && calls[i].q <= 10
    modifies list, list.repr
    ensures list.Valid() && fresh(list.repr - old(list.repr))
    ensures list.items == StableSort(old(list.items) + StoredAll(calls))
  {
    ghost var entries := StoredAll(calls);
    StableSortFixed(list.items);
    assert list.items + entries[..0] == list.items;
    for i := 0 to |calls|
      invariant list.Valid() && fresh(list.repr - old(list.repr))
      invariant list.items == StableSort(old(list.items) + entries[..i])
    {
      SortNext(old(list.items), entries, i);
      Add(list, calls[i].mime, 0, |calls[i].mime|, calls[i].q);
    }
    assert entries[..|calls|] == entries;
  }

  /** Walks to entry i; None past the end. */
  method Get(list: List<Entry>, i: int) returns (entry: Option<Entry>)
    requires list.Valid()
    ensures entry == if 0 <= i < |list.items| then Some(list.items[i]) else None
  {
    if i < 0 { return None; }
    var it := list.first;
    var count := 0;
    while it != null
      invariant 0 <= count <= i && count <= |list.nodes| && it == NodeAt(list.nodes, count)
      decreases |list.nodes| - count
    {
      if count == i { return Some(it.data); }
      count := count + 1;
      it := it.next;
    }
    return None;
  }

  /** The best score and server node after the client list has been walked for one server entry. */
  method ChooseRow(s: Entry, client: List<Entry>, best: int) returns (score: int)
    requires client.Valid()
    ensures score == Row(true, s, client.items, best)
  {
    score := best;
    var c := client.first;
    ghost var j := 0;
    while c != null
      invariant j <= |client.nodes| && c == NodeAt(client.nodes, j)
      invariant score == best && Row(true, s, client.items[j..], best) == Row(true, s, client.items, best)
      decreases |client.nodes| - j
    {
      if CompareTypes(s.mime, c.data.mime) {
        if s.q * c.data.q > score {
          score := s.q * c.data.q;
          break;
        }
      }
      assert client.items[j..][1..] == client.items[j + 1..];
      c := c.next;
      j := j + 1;
    }
  }

  /** The server type to answer with, if any. */
  method Choose(server: List<Entry>, client: List<Entry>) returns (result: Option<string>)
    requires server.Valid() && client.Valid()
    ensures result == TypeOf(server.items, Scan(true, server.items, client.items).1)
    ensures NonIncreasing(client.items) ==>
              exists k :: IsChoice(server.items, client.items, k) && result == TypeOf(server.items, k)
  {
    var bestScore := -1;
    ghost var chosen: Option<nat> := None;
    result := None;
    var s := server.first;
    ghost var i := 0;
    while s != null
      invariant i <= |server.nodes| && s == NodeAt(server.nodes, i)
      invariant (bestScore, chosen) == Scan(true, server.items[..i], client.items)
      invariant chosen.Some? ==> chosen.value < |server.items|
      invariant result == TypeOf(server.items, chosen)
      decreases |server.nodes| - i
    {
      assert server.items[..i + 1][..i] == server.items[..i];
      var score := ChooseRow(s.data, client, bestScore);
      if score > bestScore {
        bestScore := score;
        result := Some(s.data.mime);
        chosen := Some(i);
      }
      s := s.next;
      i := i + 1;
    }
    assert server.items[..i] == server.items;
    if NonIncreasing(client.items) {
      EarlyScanCorrect(server.items, client.items);
    }
  }
}
