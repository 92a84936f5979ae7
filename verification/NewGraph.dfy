/** data.c: naming the graph for data posted without a graph name.

    The store's named graphs are a set of URIs, and `resolve` is the construction of a graph URI from an
    absolute path against the request's URL (section 5.2 of RFC 3986); it yields None when no URI can be
    made. */
module NewGraph {
  import opened Text
  import opened Buffers
  import GenId

  const ATTEMPTS := 10

  datatype Outcome = NodeFailed | Created(graph: string) | GaveUp

  /** The process counter before attempt k; randoms[i] is what `random()` would return in attempt i. */
  function CounterBefore(baseId: nat, randoms: seq<nat>, k: nat): (c: nat)
    requires baseId < GenId.ULONG_RANGE && k <= |randoms|
    ensures c < GenId.ULONG_RANGE
  {
    if k == 0 then baseId
    else (GenId.Used(CounterBefore(baseId, randoms, k - 1), randoms[k - 1]) + 1) % GenId.ULONG_RANGE
  }

  /** The counter value that attempt k makes its id from. */
  function Counter(baseId: nat, randoms: seq<nat>, k: nat): nat
    requires baseId < GenId.ULONG_RANGE && k < |randoms|
  {
    GenId.Used(CounterBefore(baseId, randoms, k), randoms[k])
  }

  function CandidatePath(baseId: nat, randoms: seq<nat>, k: nat): string
    requires baseId < GenId.ULONG_RANGE && k < |randoms|
  {
    "/data/" + GenId.Id(Counter(baseId, randoms, k))
  }

  ghost predicate AreRandoms(randoms: seq<nat>) {
    |randoms| == 10 && forall i :: 0 <= i < |randoms| ==> randoms[i] < GenId.RANDOM_RANGE
  }

  /** Attempt k is taken: it resolves to the URI of an existing graph. */
  ghost predicate IsTaken(baseId: nat, randoms: seq<nat>, k: nat, resolve: string -> Option<string>,
      graphs: set<string>)
    requires baseId < GenId.ULONG_RANGE && k < |randoms|
  {
    var uri := resolve(CandidatePath(baseId, randoms, k));
    uri.Some? && uri.value in graphs
  }

  /** The path of a candidate is `/data/` and the id of its counter value. */
  lemma CandidateIs(baseId: nat, randoms: seq<nat>, k: nat)
    requires baseId < GenId.ULONG_RANGE && k < |randoms|
    ensures CandidatePath(baseId, randoms, k)[..6] == "/data/"
    ensures CandidatePath(baseId, randoms, k)[6..] == GenId.Id(Counter(baseId, randoms, k))
  {}

  /** The counter goes up by one with every candidate and wraps at 2^64; a counter of 0 takes the random number. */
  lemma NextCounter(baseId: nat, randoms: seq<nat>, k: nat)
    requires baseId < GenId.ULONG_RANGE && k < |randoms|
    ensures Counter(baseId, randoms, 0) == if baseId == 0 then randoms[0] else baseId
    ensures k > 0 ==>
              var next := (Counter(baseId, randoms, k - 1) + 1) % 0x1_0000_0000_0000_0000;
              Counter(baseId, randoms, k) == if next == 0 then randoms[k] else next
  {}

  method NewGraphNode(generator: GenId.Generator, random: nat, resolve: string -> Option<string>)
    returns (node: Option<string>)
    requires generator.baseId < GenId.ULONG_RANGE && random < GenId.RANDOM_RANGE
    modifies generator
    ensures generator.baseId == (GenId.Used(old(generator.baseId), random) + 1) % GenId.ULONG_RANGE
    ensures node == resolve("/data/" + GenId.Id(GenId.Used(old(generator.baseId), random)))
  {
    var buffer := generator.GenId(random);
    ghost var id := GenId.Id(GenId.Used(old(generator.baseId), random));
    IdIsCString(GenId.Used(old(generator.baseId), random));
    assert buffer[..|id|] == buffer[..][..|id|] == id && buffer[|id|] == buffer[..][|id|] == '\0';
    var copy := StringOf(buffer, id);
    node := resolve("/data/" + copy);
  }

  lemma IdIsCString(n: nat)
    ensures IsCString(GenId.Id(n))
  {
    GenId.IdsCoverShape(GenId.Id(n));
    forall i | 0 <= i < GenId.ID_LEN ensures GenId.Id(n)[i] != '\0' {
      assert GenId.Id(n)[i] == GenId.IdChar(n, i);
    }
  }

  // ----- the ten candidates are pairwise distinct -----

  /** Counters run on by one from the first, until they wrap; from then on they run on from a seed. */
  lemma {:induction false} CounterForm(baseId: nat, randoms: seq<nat>, k: nat) returns (w: nat)
    requires baseId < GenId.ULONG_RANGE && AreRandoms(randoms) && k < 10
    ensures var first := Counter(baseId, randoms, 0);
            first < GenId.ULONG_RANGE &&
            if first + k < GenId.ULONG_RANGE then Counter(baseId, randoms, k) == first + k
            else 1 <= w <= k && first + w == GenId.ULONG_RANGE && Counter(baseId, randoms, k) == randoms[w] + (k - w)
  {
    w := 0;
    if k > 0 {
      w := CounterForm(baseId, randoms, k - 1);
      var first := Counter(baseId, randoms, 0);
      var previous := Counter(baseId, randoms, k - 1);
      if first + k == GenId.ULONG_RANGE {
        w := k;
      } else {
        assert 0 < previous + 1 < GenId.ULONG_RANGE;
        assert CounterBefore(baseId, randoms, k) == previous + 1;
      }
    }
  }

  lemma NearDiffers(a: nat, b: nat)
    requires a < b < a + GenId.ID_RANGE
    ensures a % GenId.ID_RANGE != b % GenId.ID_RANGE
  {
    GenId.NoRepeatInWindow(a, b);
    GenId.IdsEqual(a, b);
  }

  /** A counter just before the wrap and one just behind a seed. */
  lemma SeedDiffers(a: nat, b: nat)
    requires GenId.ULONG_RANGE - 10 <= a < GenId.ULONG_RANGE && b < GenId.RANDOM_RANGE + 10
    ensures a % GenId.ID_RANGE != b % GenId.ID_RANGE
  {
    var q := GenId.ID_RANGE - 1;
    GenId.ModUnique(a, GenId.ID_RANGE, q, a - GenId.ID_RANGE * q);
    GenId.ModUnique(b, GenId.ID_RANGE, 0, b);
  }

  lemma CountersDistinct(baseId: nat, randoms: seq<nat>, i: nat, j: nat)
    requires baseId < GenId.ULONG_RANGE && AreRandoms(randoms) && i < j < 10
    ensures Counter(baseId, randoms, i) % GenId.ID_RANGE != Counter(baseId, randoms, j) % GenId.ID_RANGE
  {
    var v := CounterForm(baseId, randoms, i);
    var w := CounterForm(baseId, randoms, j);
    var first := Counter(baseId, randoms, 0);
    if first + i < GenId.ULONG_RANGE && first + j >= GenId.ULONG_RANGE {
      SeedDiffers(Counter(baseId, randoms, i), Counter(baseId, randoms, j));
    } else {
      NearDiffers(Counter(baseId, randoms, i), Counter(baseId, randoms, j));
    }
  }

  /** So the ten candidate names are pairwise distinct, whatever the state of the counter. */
  lemma CandidatesDistinct(baseId: nat, randoms: seq<nat>, i: nat, j: nat)
    requires baseId < GenId.ULONG_RANGE && AreRandoms(randoms) && i < j < 10
    ensures CandidatePath(baseId, randoms, i) != CandidatePath(baseId, randoms, j)
  {
    CountersDistinct(baseId, randoms, i, j);
    GenId.IdsEqual(Counter(baseId, randoms, i), Counter(baseId, randoms, j));
    PathInjective(GenId.Id(Counter(baseId, randoms, i)), GenId.Id(Counter(baseId, randoms, j)));
  }

  lemma PathInjective(a: string, b: string)
    ensures "/data/" + a == "/data/" + b ==> a == b
  {
    assert ("/data/" + a)[6..] == a && ("/data/" + b)[6..] == b;
  }

  /** Different ids resolve to different graphs: an absolute path without dot segments replaces the base's
      path as it is. */
  ghost predicate IsInjective(resolve: string -> Option<string>) {
    forall a, b :: GenId.IsIdShape(a) && GenId.IsIdShape(b) && NameSame(resolve, a, b) ==> a == b
  }

  predicate NameSame(resolve: string -> Option<string>, a: string, b: string) {
    resolve("/data/" + a).Some? && resolve("/data/" + a) == resolve("/data/" + b)
  }

  /** So it is for every construction that puts the path behind the root of the base. */
  lemma RootedIsInjective(resolve: string -> Option<string>, root: string)
    requires forall a :: GenId.IsIdShape(a) ==> resolve("/data/" + a) == Some(root + ("/data/" + a))
    ensures IsInjective(resolve)
  {
    forall a, b | GenId.IsIdShape(a) && GenId.IsIdShape(b) && NameSame(resolve, a, b) ensures a == b {
      var n := |root| + 6;
      assert (root + ("/data/" + a))[n..] == a && (root + ("/data/" + b))[n..] == b;
    }
  }

  lemma IdHasShape(n: nat)
    ensures GenId.IsIdShape(GenId.Id(n))
  {
    GenId.IdsEqual(n, n % GenId.ID_RANGE);
    GenId.IdsCoverShape(GenId.Id(n));
  }

  /** Two candidates do not resolve to the same graph. */
  lemma GraphsDiffer(baseId: nat, randoms: seq<nat>, i: nat, j: nat, resolve: string -> Option<string>)
    requires baseId < GenId.ULONG_RANGE && AreRandoms(randoms) && i < j < 10 && IsInjective(resolve)
    requires resolve(CandidatePath(baseId, randoms, i)).Some?
    ensures resolve(CandidatePath(baseId, randoms, i)) != resolve(CandidatePath(baseId, randoms, j))
  {
    CandidatesDistinct(baseId, randoms, i, j);
    IdHasShape(Counter(baseId, randoms, i));
    IdHasShape(Counter(baseId, randoms, j));
    assert !NameSame(resolve, GenId.Id(Counter(baseId, randoms, i)), GenId.Id(Counter(baseId, randoms, j)));
  }

  /** The URIs of the first k candidates, if all are taken, are k graphs of the store. */
  lemma {:induction false} TakenGraphs(baseId: nat, randoms: seq<nat>, k: nat, resolve: string -> Option<string>,
      graphs: set<string>)
    returns (taken: set<string>)
    requires baseId < GenId.ULONG_RANGE && AreRandoms(randoms) && k <= 10 && IsInjective(resolve)
    requires forall j :: 0 <= j < k ==> IsTaken(baseId, randoms, j, resolve, graphs)
    ensures taken <= graphs && |taken| == k
    ensures forall u :: u in taken ==> exists j :: 0 <= j < k && resolve(CandidatePath(baseId, randoms, j)) == Some(u)
  {
    if k == 0 {
      taken := {};
    } else {
      var before := TakenGraphs(baseId, randoms, k - 1, resolve, graphs);
      assert IsTaken(baseId, randoms, k - 1, resolve, graphs);
      var uri := resolve(CandidatePath(baseId, randoms, k - 1)).value;
      if uri in before {
        var j :| 0 <= j < k - 1 && resolve(CandidatePath(baseId, randoms, j)) == Some(uri);
        GraphsDiffer(baseId, randoms, j, k - 1, resolve);
        assert false;
      }
      taken := before + {uri};
    }
  }

  lemma {:induction false} SubsetSize(a: set<string>, b: set<string>)
    requires a <= b
    ensures |a| <= |b|
    decreases a
  {
    if a != {} {
      var x :| x in a;
      SubsetSize(a - {x}, b - {x});
    }
  }

  /** Giving up means that ten graphs exist: with fewer, one of the names is free. */
  lemma GivingUpNeedsTenGraphs(baseId: nat, randoms: seq<nat>, resolve: string -> Option<string>, graphs: set<string>)
    requires baseId < GenId.ULONG_RANGE && AreRandoms(randoms) && IsInjective(resolve)
    requires forall k :: 0 <= k < 10 ==> IsTaken(baseId, randoms, k, resolve, graphs)
    ensures |graphs| >= 10
  {
    var taken := TakenGraphs(baseId, randoms, 10, resolve, graphs);
    SubsetSize(taken, graphs);
  }

  // ----- the retry loop -----

  /** Tries ten fresh names and takes the first that is no graph yet. */
  method PostToNewGraph(generator: GenId.Generator, randoms: seq<nat>, resolve: string -> Option<string>,
      graphs: set<string>)
    returns (outcome: Outcome)
    requires generator.baseId < GenId.ULONG_RANGE && AreRandoms(randoms)
    modifies generator
    ensures generator.baseId < GenId.ULONG_RANGE
    ensures outcome == GaveUp ==> generator.baseId == CounterBefore(old(generator.baseId), randoms, 10)
    ensures IsInjective(resolve) && |graphs| < 10 ==> outcome != GaveUp
    ensures match outcome
            case GaveUp => forall k :: 0 <= k < 10 ==> IsTaken(old(generator.baseId), randoms, k, resolve, graphs)
            case NodeFailed =>
              exists k :: 0 <= k < 10 && resolve(CandidatePath(old(generator.baseId), randoms, k)) == None
                       && generator.baseId == CounterBefore(old(generator.baseId), randoms, k + 1)
                       && forall j :: 0 <= j < k ==> IsTaken(old(generator.baseId), randoms, j, resolve, graphs)
            case Created(graph) =>
              graph !in graphs
              && exists k :: 0 <= k < 10
                          && resolve(CandidatePath(old(generator.baseId), randoms, k)) == Some(graph)
                          && generator.baseId == CounterBefore(old(generator.baseId), randoms, k + 1)
                          && forall j :: 0 <= j < k ==> IsTaken(old(generator.baseId), randoms, j, resolve, graphs)
  {
    ghost var baseId := generator.baseId;
    var attempts := 0;
    var node: Option<string> := None;
    while attempts < ATTEMPTS
      invariant 0 <= attempts <= 10 && node == None
      invariant generator.baseId == CounterBefore(baseId, randoms, attempts)
      invariant forall j :: 0 <= j < attempts ==> IsTaken(baseId, randoms, j, resolve, graphs)
    {
      node := NewGraphNode(generator, randoms[attempts], resolve);
      assert node == resolve(CandidatePath(baseId, randoms, attempts));
      if node.None? { return NodeFailed; }
      if node.value !in graphs {
        break;
      } else {
        node := None;
      }
      attempts := attempts + 1;
    }
    if node.None? && IsInjective(resolve) {
      GivingUpNeedsTenGraphs(baseId, randoms, resolve, graphs);
    }
    outcome := if node.Some? then Created(node.value) else GaveUp;
  }
}
