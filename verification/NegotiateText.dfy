/** negotiate.c: reading and writing a preference list as text. */
module NegotiateText {
  import opened Text
  import opened Buffers
  import opened LinkedLists
  import opened Negotiation
  import opened AcceptSyntax
  import opened Numbers
  import Negotiate

  /** The quality a number gives, if it is usable. */
  method ReadNumber(s: string, i: nat, q: nat) returns (r: nat)
    requires i <= |s| && q <= 10
    ensures r == QualityAt(s, i, q)
  {
    r := q;
    var d := StrtodAt(s, i);
    if d.Some? && d.value >= 0.0 && d.value <= 1.0 {
      RoundIsNearest(d.value * 10.0);
      r := Round(d.value * 10.0);
    }
  }

  /** The scan for `q=` in str[params..ptr], a list element's parameters. */
  method ReadQuality(str: string, params: nat, ptr: nat) returns (q: nat)
    requires params <= ptr <= |str|
    ensures q == ScanQuality(str, params, ptr, 10) <= 10
  {
    q := 10;
    var p := params;
    while p < ptr - 3
      invariant params <= p <= ptr && q <= 10
      invariant ScanQuality(str, p, ptr, q) == ScanQuality(str, params, ptr, 10)
    {
      if str[p] == 'q' && str[p + 1] == '=' {
        q := ReadNumber(str, p + 2, q);
      }
      p := p + 1;
    }
  }

  /** Adds the list element str[start..ptr]. */
  method AddElement(list: List<Entry>, str: string, start: nat, ptr: nat)
    requires start <= |str| && ptr == ElementEnd(str, start) && NamesType(str, start)
    requires list.Valid()
    modifies list, list.repr
    ensures list.Valid() && fresh(list.repr - old(list.repr))
    ensures list.items == StableSort(old(list.items) + [ElementAt(str, start)])
  {
    var params := start;
    FirstFromSpec(str, start, ',', ',');
    while params < ptr && str[params] != ';'
      invariant start <= params <= ptr && FirstFrom(str, params, ';', ',') == ParamsStart(str, start)
    {
      params := params + 1;
    }
    NamesTypeIff(str, start);
    var q := ReadQuality(str, params, ptr);
    Negotiate.Add(list, str, start, params, q);
  }

  /** Element n is followed by element n + 1, or is the last one. */
  lemma {:induction false} NextStart(str: string, start: nat, n: nat)
    requires start <= |str| && n < |Starts(str, start)|
    ensures var starts := Starts(str, start);
            var end := ElementEnd(str, starts[n]);
            if end == |str| then n + 1 == |starts| else n + 1 < |starts| && starts[n + 1] == end + 1
    decreases n
  {
    if n > 0 { NextStart(str, ElementEnd(str, start) + 1, n - 1); }
  }

  ghost predicate IsFollowed(str: string, starts: seq<int>, i: int)
    requires 0 <= i < |starts| && 0 <= starts[i] <= |str|
  {
    var end := ElementEnd(str, starts[i]);
    if end == |str| then i + 1 == |starts| else i + 1 < |starts| && starts[i + 1] == end + 1
  }

  /** Element i starts at position starts[i] and is followed by the next one, and lists[i] is the list before
      it is added. */
  ghost predicate IsReading(str: string, starts: seq<int>, lists: seq<seq<Entry>>) {
    && |lists| == |starts| + 1 && starts != [] && starts[0] == 0
    && (forall i {:trigger starts[i]} :: 0 <= i < |starts| ==> 0 <= starts[i] <= |str|)
    && forall i {:trigger NamesType(str, starts[i])} :: 0 <= i < |starts| ==>
         && NamesType(str, starts[i]) && IsFollowed(str, starts, i)
         && lists[i + 1] == StableSort(lists[i] + [ElementAt(str, starts[i])])
  }

  /** The lists that hold the first elements, sorted. */
  ghost function ListsOf(elements: seq<Entry>): seq<seq<Entry>> {
    seq(|elements| + 1, i requires 0 <= i <= |elements| => StableSort(elements[..i]))
  }

  lemma NextList(elements: seq<Entry>, n: nat)
    requires n < |elements|
    ensures ListsOf(elements)[n + 1] == StableSort(ListsOf(elements)[n] + [elements[n]])
  {
    SortIncrementally(elements[..n], elements[n]);
    PrefixAndNext(elements, n);
  }

  lemma ListsAreReading(str: string)
    requires AllNameTypes(str, 0)
    ensures IsReading(str, Starts(str, 0), ListsOf(ElementsFrom(str, 0)))
  {
    var starts, elements := Starts(str, 0), ElementsFrom(str, 0);
    forall i | 0 <= i < |starts| ensures IsFollowed(str, starts, i) { NextStart(str, 0, i); }
    forall i | 0 <= i < |starts|
      ensures ListsOf(elements)[i + 1] == StableSort(ListsOf(elements)[i] + [ElementAt(str, starts[i])])
    {
      NextList(elements, i);
    }
  }

  /** Adds element n to a list that holds the elements before it. */
  method AddNth(list: List<Entry>, str: string, start: nat, ptr: nat, ghost starts: seq<int>,
      ghost lists: seq<seq<Entry>>, ghost n: nat)
    requires IsReading(str, starts, lists) && n < |starts| && start == starts[n] && ptr == ElementEnd(str, start)
    requires list.Valid() && list.items == lists[n]
    modifies list, list.repr
    ensures list.Valid() && fresh(list.repr - old(list.repr))
    ensures list.items == lists[n + 1] && IsFollowed(str, starts, n)
  {
    assert NamesType(str, starts[n]);
    AddElement(list, str, start, ptr);
  }

  /** Cuts the text at its commas and adds every element to the list. */
  method AddElements(list: List<Entry>, str: string, ghost starts: seq<int>, ghost lists: seq<seq<Entry>>)
    requires list.Valid() && list.repr == {} && IsReading(str, starts, lists) && list.items == lists[0]
    modifies list
    ensures list.Valid() && fresh(list.repr) && list.items == lists[|starts|]
  {
    ghost var n := 0;
    var start := 0;
    var ptr := 0;
    while true
      invariant list.Valid() && fresh(list.repr)
      invariant n < |starts| && start == starts[n]
      invariant start <= ptr <= |str| && ElementEnd(str, ptr) == ElementEnd(str, start)
      invariant list.items == lists[n]
      decreases |str| - ptr
    {
      if ptr == |str| || str[ptr] == ',' {
        AddNth(list, str, start, ptr, starts, lists, n);
        start := ptr + 1;
        n := n + 1;
      }
      if ptr == |str| { break; }
      ptr := ptr + 1;
    }
  }

  /** The list a header denotes; an absent or empty text is an empty list. */
  method Parse(input: Option<string>) returns (list: List<Entry>)
    requires input.Some? && input.value != "" ==> IsAcceptable(input.value)
    ensures fresh(list) && list.Valid() && fresh(list.repr)
    ensures list.items == if input.None? then [] else ParseList(input.value)
  {
    list := new List();
    if input.Some? && input.value != "" {
      ghost var elements := ElementsFrom(input.value, 0);
      ListsAreReading(input.value);
      AddElements(list, input.value, Starts(input.value, 0), ListsOf(elements));
      assert elements[..|elements|] == elements;
    }
  }

  /** Sums up the length of the text form. */
  method PrintedLength(list: List<Entry>) returns (len: nat)
    requires list.Valid() && AllTenths(list.items)
    ensures len == |PrintList(list.items)|
  {
    len := 0;
    var it := list.first;
    ghost var k := 0;
    while it != null
      invariant k <= |list.nodes| && it == NodeAt(list.nodes, k)
      invariant len + |PrintFrom(list.items, k)| == |PrintList(list.items)|
      decreases |list.nodes| - k
    {
      len := len + |it.data.mime|;
      if it.data.q != 10 {
        len := len + 6;
      }
      if it.next != null {
        len := len + 1;
      }
      it := it.next;
      k := k + 1;
    }
  }

  /** Writes one entry, and a comma if more follow, through the moving pointer.  The formatted quality
      brings its own terminator, which the next write or the final one replaces. */
  method PutEntry(buffer: array<char>, at: nat, e: Entry, more: bool) returns (ptr: nat)
    requires e.q <= 10 && at + |PrintEntry(e)| + (if more then 1 else 0) < buffer.Length
    modifies buffer
    ensures ptr == at + |PrintEntry(e)| + if more then 1 else 0
    ensures buffer[..ptr] == old(buffer[..at]) + (PrintEntry(e) + if more then "," else "")
  {
    Put(buffer, at, e.mime);
    ptr := at + |e.mime|;
    if e.q != 10 {
      Put(buffer, ptr, PrintQuality(e.q) + ['\0']);
      assert buffer[..ptr + 6] == buffer[..ptr + 7][..ptr + 6];
      ptr := ptr + 6;
    }
    assert buffer[..ptr] == old(buffer[..at]) + PrintEntry(e);
    if more {
      Put(buffer, ptr, ",");
      ptr := ptr + 1;
    }
  }

  /** The text form, in a buffer of exactly the computed length and its terminator. */
  method ToString(list: List<Entry>) returns (str: array<char>)
    requires list.Valid() && AllTenths(list.items)
    ensures fresh(str) && str.Length == |PrintList(list.items)| + 1
    ensures str[..] == PrintList(list.items) + ['\0']
  {
    var len := PrintedLength(list);
    str := new char[len + 1];
    var ptr := 0;
    var it := list.first;
    ghost var k := 0;
    while it != null
      invariant list.Valid() && list.items == old(list.items)
      invariant k <= |list.nodes| && it == NodeAt(list.nodes, k)
      invariant 0 <= ptr <= len && str[..ptr] + PrintFrom(list.items, k) == PrintList(list.items)
      decreases |list.nodes| - k
    {
      ghost var written := str[..ptr];
      ptr := PutEntry(str, ptr, it.data, it.next != null);
      Assoc(written, PrintEntry(it.data) + if it.next != null then "," else "", PrintFrom(list.items, k + 1));
      it := it.next;
      k := k + 1;
    }
    str[ptr] := '\0';
    assert str[..ptr] == PrintList(list.items);
  }
}
