/** request.c: the first line of a request (sections 5 and 5.1 of RFC 1945). */
module StatusLine {
  import opened Text
  import opened Buffers

  /** The method name, the request target and the protocol version, or a bad request. */
  datatype Status = BadStatus | Status(name: string, target: string, version: string)

  function AlphaEnd(s: string, i: nat): (k: nat)
    requires i <= |s|
    ensures i <= k <= |s| && (k < |s| ==> !IsAlpha(s[k]))
    decreases |s| - i
  {
    if i < |s| && IsAlpha(s[i]) then AlphaEnd(s, i + 1) else i
  }

  /** The last position of s[lo..t + 1] that holds a space; lo if there is none behind lo. */
  function LastSpace(s: string, lo: nat, t: nat): (w: nat)
    requires lo <= t < |s|
    ensures lo <= w <= t && (w > lo ==> IsSpace(s[w]))
  {
    if t > lo && !IsSpace(s[t]) then LastSpace(s, lo, t - 1) else t
  }

  predicate HasTag(s: string, i: nat, end: nat)
    requires end <= |s|
  {
    i + 5 <= end && (s[i..i + 5] == "HTTP/" || s[i..i + 5] == "http/")
  }

  /** Where the method name ends. */
  function NameEnd(s: string): (k: nat)
    ensures SkipSpace(s, 0, |s|) <= k <= |s|
  {
    AlphaEnd(s, SkipSpace(s, 0, |s|))
  }

  /** Something follows the method name. */
  predicate IsDelimited(s: string) { NameEnd(s) < |s| }

  /** The last word of the rest s[p..end] of a line is a tagged version. */
  predicate EndsInVersion(s: string, p: nat, end: nat)
    requires p < end <= |s|
  {
    var w := LastSpace(s, p, end - 1);
    w > p && HasTag(s, w + 1, end)
  }

  /** Where the target that starts at p ends. */
  function TargetEnd(s: string, p: nat, end: nat): (k: nat)
    requires p < end <= |s|
    ensures p <= k <= end
  {
    if EndsInVersion(s, p, end) then DropSpace(s, p, LastSpace(s, p, end - 1)) else end
  }

  /** The trimmed rest s[p..end] of the line denotes a target and a version. */
  function TargetOf(s: string, p: nat, end: nat): string
    requires p < end <= |s|
  {
    Copied(s, p, TargetEnd(s, p, end))
  }

  function VersionOf(s: string, p: nat, end: nat): string
    requires p < end <= |s|
  {
    if EndsInVersion(s, p, end) then Copied(s, LastSpace(s, p, end - 1) + 6, end) else "0.9"
  }

  /** Where a rest that starts at p ends. */
  function RestEnd(s: string, p: nat): (end: nat)
    requires p < |s| && !IsSpace(s[p])
    ensures p < end <= |s| && !IsSpace(s[end - 1])
  {
    DropsAtMost(s, p, |s|);
    DropSpace(s, p, |s|)
  }

  function StatusWith(s: string, lead: nat, name: nat, p: nat, end: nat): Status
    requires lead <= name <= |s| && p < end <= |s|
  {
    Status(Copied(s, lead, name), TargetOf(s, p, end), VersionOf(s, p, end))
  }

  /** What a non-empty line denotes. */
  function StatusOf(s: string): Status
    requires IsDelimited(s)
  {
    var p := SkipSpace(s, NameEnd(s) + 1, |s|);
    if p == |s| then BadStatus
    else StatusWith(s, SkipSpace(s, 0, |s|), NameEnd(s), p, RestEnd(s, p))
  }

  // ----- the grammar -----

  predicate SpaceIn(s: string, i: nat, j: nat)
    requires i <= j <= |s|
  {
    forall k :: i <= k < j ==> IsSpace(s[k])
  }

  /** The line is space, the name s[lead..name], one character that is no letter, space, the trimmed rest
      s[rest..end], and space. */
  predicate IsLine(s: string, lead: nat, name: nat, rest: nat, end: nat) {
    && lead <= name < rest <= end <= |s|
    && SpaceIn(s, 0, lead) && (lead < name || !IsSpace(s[lead]))
    && (forall k :: lead <= k < name ==> IsAlpha(s[k])) && !IsAlpha(s[name])
    && SpaceIn(s, name + 1, rest) && SpaceIn(s, end, |s|)
    && (rest < end ==> !IsSpace(s[rest]) && !IsSpace(s[end - 1]))
    && (rest == end ==> end == |s|)
  }

  /** s[p..end] is a target s[p..target], space, and a tagged version s[tag..end] without space. */
  predicate IsVersioned(s: string, p: nat, end: nat, target: nat, tag: nat) {
    && p < target < tag < end <= |s|
    && !IsSpace(s[target - 1]) && SpaceIn(s, target, tag)
    && tag + 5 <= end && (s[tag..tag + 5] == "HTTP/" || s[tag..tag + 5] == "http/")
    && forall k :: tag <= k < end ==> !IsSpace(s[k])
  }

  lemma {:induction false} AlphaEndIs(s: string, i: nat, k: nat)
    requires i <= k <= |s| && (k < |s| ==> !IsAlpha(s[k]))
    requires forall j :: i <= j < k ==> IsAlpha(s[j])
    ensures AlphaEnd(s, i) == k
    decreases k - i
  {
    if i < k { AlphaEndIs(s, i + 1, k); }
  }

  lemma {:induction false} LastSpaceIs(s: string, lo: nat, t: nat, w: nat)
    requires lo <= w <= t < |s| && (w > lo ==> IsSpace(s[w]))
    requires forall i :: w < i <= t ==> !IsSpace(s[i])
    ensures LastSpace(s, lo, t) == w
  {
    if w < t { LastSpaceIs(s, lo, t - 1, w); }
  }

  lemma {:induction false} LastSpaceSpec(s: string, lo: nat, t: nat)
    requires lo <= t < |s|
    ensures forall i :: LastSpace(s, lo, t) < i <= t ==> !IsSpace(s[i])
  {
    if t > lo && !IsSpace(s[t]) { LastSpaceSpec(s, lo, t - 1); }
  }

  lemma VersionedEnds(s: string, p: nat, end: nat, target: nat, tag: nat)
    requires p < end <= |s| && !IsSpace(s[p]) && IsVersioned(s, p, end, target, tag)
    ensures EndsInVersion(s, p, end) && LastSpace(s, p, end - 1) == tag - 1 && TargetEnd(s, p, end) == target
  {
    LastSpaceIs(s, p, end - 1, tag - 1);
    DropSpaceIs(s, p, tag - 1, target);
  }

  lemma VersionedRest(s: string, p: nat, end: nat, target: nat, tag: nat)
    requires p < end <= |s| && !IsSpace(s[p]) && IsVersioned(s, p, end, target, tag)
    ensures TargetOf(s, p, end) == s[p..target] && VersionOf(s, p, end) == s[tag + 5..end]
  {
    VersionedEnds(s, p, end, target, tag);
    CopiedIsSlice(s, p, target);
    CopiedIsSlice(s, tag + 5, end);
  }

  lemma RestIsVersioned(s: string, p: nat, end: nat) returns (target: nat, tag: nat)
    requires p < end <= |s| && !IsSpace(s[p])
    requires EndsInVersion(s, p, end)
    ensures IsVersioned(s, p, end, target, tag)
  {
    var w := LastSpace(s, p, end - 1);
    LastSpaceSpec(s, p, end - 1);
    DropSpaceSpec(s, p, w);
    DropsAtMost(s, p, w);
    target, tag := DropSpace(s, p, w), w + 1;
  }

  /** The rest splits before a tagged version exactly if it ends in one; any other rest is a target of
      version 0.9. */
  lemma RestGrammar(s: string, p: nat, end: nat)
    requires p < end <= |s| && !IsSpace(s[p])
    ensures forall target: nat, tag: nat :: IsVersioned(s, p, end, target, tag) ==>
              TargetOf(s, p, end) == s[p..target] && VersionOf(s, p, end) == s[tag + 5..end]
    ensures (forall target: nat, tag: nat :: !IsVersioned(s, p, end, target, tag)) ==>
              TargetOf(s, p, end) == s[p..end] && VersionOf(s, p, end) == "0.9"
  {
    forall target: nat, tag: nat | IsVersioned(s, p, end, target, tag)
      ensures TargetOf(s, p, end) == s[p..target] && VersionOf(s, p, end) == s[tag + 5..end]
    {
      VersionedRest(s, p, end, target, tag);
    }
    CopiedIsSlice(s, p, end);
    if EndsInVersion(s, p, end) {
      var target, tag := RestIsVersioned(s, p, end);
    }
  }

  /** The positions of the grammar are those the parser computes. */
  lemma LinePositions(s: string, lead: nat, name: nat, rest: nat, end: nat)
    requires IsLine(s, lead, name, rest, end)
    ensures SkipSpace(s, 0, |s|) == lead && NameEnd(s) == name && SkipSpace(s, name + 1, |s|) == rest
    ensures DropSpace(s, rest, |s|) == end
  {
    SkipSpaceIs(s, 0, |s|, lead);
    AlphaEndIs(s, lead, name);
    SkipSpaceIs(s, name + 1, |s|, rest);
    DropSpaceIs(s, rest, |s|, end);
  }

  lemma StatusByPositions(s: string, lead: nat, name: nat, rest: nat, end: nat)
    requires name < rest <= end <= |s| && (rest < end ==> !IsSpace(s[rest]))
    requires SkipSpace(s, 0, |s|) == lead && NameEnd(s) == name && SkipSpace(s, name + 1, |s|) == rest
    requires DropSpace(s, rest, |s|) == end && (rest == end ==> end == |s|)
    ensures StatusOf(s) == if rest == end then BadStatus else StatusWith(s, lead, name, rest, end)
  {}

  /** What every line of the grammar denotes; an empty rest is a bad request. */
  lemma StatusGrammar(s: string, lead: nat, name: nat, rest: nat, end: nat)
    requires IsLine(s, lead, name, rest, end)
    ensures IsDelimited(s)
    ensures rest == end ==> StatusOf(s) == BadStatus
    ensures rest < end ==> StatusOf(s) == StatusWith(s, lead, name, rest, end)
  {
    LinePositions(s, lead, name, rest, end);
    StatusByPositions(s, lead, name, rest, end);
  }

  /** A line that ends in a tagged version. */
  lemma VersionedLine(s: string, lead: nat, name: nat, rest: nat, target: nat, tag: nat, end: nat)
    requires IsLine(s, lead, name, rest, end) && IsVersioned(s, rest, end, target, tag)
    ensures IsDelimited(s) && StatusOf(s) == Status(s[lead..name], s[rest..target], s[tag + 5..end])
  {
    StatusGrammar(s, lead, name, rest, end);
    VersionedRest(s, rest, end, target, tag);
    CopiedIsSlice(s, lead, name);
  }

  /** Every line with something behind the method name is of the grammar. */
  lemma EveryLineHasForm(s: string) returns (lead: nat, name: nat, rest: nat, end: nat)
    requires IsDelimited(s)
    ensures IsLine(s, lead, name, rest, end)
  {
    lead, name := SkipSpace(s, 0, |s|), NameEnd(s);
    rest := SkipSpace(s, name + 1, |s|);
    end := DropSpace(s, rest, |s|);
    SkipSpaceSpec(s, 0, |s|);
    AlphaEndSpec(s, lead);
    SkipSpaceSpec(s, name + 1, |s|);
    DropSpaceSpec(s, rest, |s|);
    if rest < |s| { DropsAtMost(s, rest, |s|); }
  }

  lemma {:induction false} AlphaEndSpec(s: string, i: nat)
    requires i <= |s|
    ensures forall k :: i <= k < AlphaEnd(s, i) ==> IsAlpha(s[k])
    decreases |s| - i
  {
    if i < |s| && IsAlpha(s[i]) { AlphaEndSpec(s, i + 1); }
  }

  // ----- the parser -----

  method CopyText(line: array<char>, lo: nat, ghost s: string, ghost hi: nat) returns (copy: string)
    requires Spans(line, s, lo, hi)
    ensures copy == Copied(s, lo, hi)
  {
    copy := StrDup(line, lo, s, hi);
    CopiedIsSlice(s, lo, hi);
  }

  /** Finds the method name and cuts the line behind it. */
  method CutName(line: array<char>, ghost s: string) returns (name: nat, ptr: nat)
    requires Spans(line, s, 0, |s|) && IsDelimited(s)
    modifies line
    ensures name == SkipSpace(s, 0, |s|) && ptr == NameEnd(s) + 1
    ensures Spans(line, s, name, NameEnd(s)) && Spans(line, s, ptr, |s|)
  {
    ptr := SkipSpaces(line, 0, s, |s|);
    name := ptr;
    while IsAlpha(line[ptr])
      invariant name <= ptr <= |s| && AlphaEnd(s, ptr) == AlphaEnd(s, name)
      decreases |s| - ptr
    {
      ptr := ptr + 1;
    }
    Cut(line, ptr, name, s, |s|);
    ptr := ptr + 1;
  }

  /** Does the text at position i of the buffer start with the tag? */
  method IsTag(line: array<char>, i: nat, tag: string, ghost s: string, ghost end: nat) returns (same: bool)
    requires Spans(line, s, i, end) && IsCString(tag)
    ensures same <==> i + |tag| <= end && s[i..i + |tag|] == tag
  {
    for k := 0 to |tag|
      invariant i + k <= end && forall j :: 0 <= j < k ==> s[i + j] == tag[j]
    {
      if line[i + k] != tag[k] {
        assert i + |tag| <= end ==> s[i..i + |tag|][k] != tag[k];
        return false;
      }
    }
    same := true;
  }

  method IsTagged(line: array<char>, i: nat, ghost s: string, ghost end: nat) returns (tagged: bool)
    requires Spans(line, s, i, end)
    ensures tagged == HasTag(s, i, end)
  {
    tagged := IsTag(line, i, "HTTP/", s, end);
    if !tagged { tagged := IsTag(line, i, "http/", s, end); }
  }

  /** Moves a pointer back over the spaces at the end of the text at `target`. */
  method BackOverSpace(line: array<char>, target: nat, from: nat, ghost s: string) returns (ptr: nat)
    requires target <= from < |s| < line.Length && !IsSpace(s[target])
    requires forall i :: target <= i <= from ==> line[i] == s[i]
    ensures ptr + 1 == DropSpace(s, target, from + 1) && target <= ptr <= from
  {
    ptr := from;
    while IsSpace(line[ptr]) && ptr > target
      invariant target <= ptr <= from && DropSpace(s, target, ptr + 1) == DropSpace(s, target, from + 1)
    {
      ptr := ptr - 1;
    }
  }

  /** Cuts the trimmed text at `target` before its version, if it ends in one. */
  method CutVersion(line: array<char>, target: nat, last: nat, ghost s: string) returns (version: Option<nat>)
    requires Spans(line, s, target, last + 1) && target <= last && !IsSpace(s[target]) && !IsSpace(s[last])
    modifies line
    ensures Spans(line, s, target, TargetEnd(s, target, last + 1))
    ensures if EndsInVersion(s, target, last + 1)
            then version == Some(LastSpace(s, target, last) + 6)
              && Spans(line, s, LastSpace(s, target, last) + 6, last + 1)
            else version == None
    ensures forall i :: 0 <= i < target ==> line[i] == old(line[i])
  {
    var ptr := last;
    while !IsSpace(line[ptr]) && ptr > target
      invariant target <= ptr <= last && LastSpace(s, target, ptr) == LastSpace(s, target, last)
    {
      ptr := ptr - 1;
    }
    version := None;
    if ptr > target {
      var tagged := IsTagged(line, ptr + 1, s, last + 1);
      if tagged {
        version := Some(ptr + 6);
        ptr := BackOverSpace(line, target, ptr, s);
        line[ptr + 1] := '\0';
      }
    }
  }

  method CopyVersion(line: array<char>, tag: Option<nat>, ghost target: nat, ghost end: nat, ghost s: string)
    returns (version: string)
    requires target < end <= |s|
    requires if EndsInVersion(s, target, end)
             then tag == Some(LastSpace(s, target, end - 1) + 6)
               && Spans(line, s, LastSpace(s, target, end - 1) + 6, end)
             else tag == None
    ensures version == VersionOf(s, target, end)
  {
    version := "0.9";
    if tag.Some? { version := CopyText(line, tag.value, s, end); }
  }

  /** Cuts the text at `target` behind its last character that is no space. */
  method CutEnd(line: array<char>, target: nat, ghost s: string) returns (last: nat)
    requires Spans(line, s, target, |s|) && target < |s| && !IsSpace(s[target])
    modifies line
    ensures last + 1 == RestEnd(s, target) && Spans(line, s, target, last + 1)
    ensures forall i :: 0 <= i < target ==> line[i] == old(line[i])
  {
    last := target;
    while line[last] != '\0'
      invariant target <= last <= |s|
      decreases |s| - last
    {
      last := last + 1;
    }
    last := BackOverSpace(line, target, last - 1, s);
    line[last + 1] := '\0';
  }

  /** Cuts and copies the target and version that start at `ptr`. */
  method CutRest(line: array<char>, ptr: nat, ghost s: string) returns (target: string, version: string)
    requires Spans(line, s, ptr, |s|) && ptr < |s| && !IsSpace(s[ptr])
    modifies line
    ensures target == TargetOf(s, ptr, RestEnd(s, ptr)) && version == VersionOf(s, ptr, RestEnd(s, ptr))
    ensures forall i :: 0 <= i < ptr ==> line[i] == old(line[i])
  {
    var last := CutEnd(line, ptr, s);
    var tag := CutVersion(line, ptr, last, s);
    version := CopyVersion(line, tag, ptr, last + 1, s);
    target := CopyText(line, ptr, s, TargetEnd(s, ptr, last + 1));
  }

  /** Advances a pointer over spaces, but not over a line end. */
  method SkipInLine(line: array<char>, start: nat, ghost s: string) returns (ptr: nat)
    requires Spans(line, s, start, |s|) && Without(s, '\r', '\n')
    ensures ptr == SkipSpace(s, start, |s|)
  {
    ptr := start;
    while IsSpace(line[ptr]) && line[ptr] != '\n'
      invariant start <= ptr <= |s| && SkipSpace(s, ptr, |s|) == SkipSpace(s, start, |s|)
      decreases |s| - ptr
    {
      ptr := ptr + 1;
    }
  }

  /** Cuts a line in place into its parts. */
  method ParseStatusLine(line: array<char>, ghost s: string) returns (status: Status)
    requires Spans(line, s, 0, |s|) && IsDelimited(s) && Without(s, '\r', '\n')
    modifies line
    ensures status == StatusOf(s)
  {
    var name, ptr := CutName(line, s);
    ptr := SkipInLine(line, ptr, s);
    if line[ptr] == '\n' || line[ptr] == '\0' { return BadStatus; }
    var target, version := CutRest(line, ptr, s);
    var method_ := CopyText(line, name, s, NameEnd(s));
    status := Status(method_, target, version);
  }
}
