/** The offline topology generator: random symmetric peer graphs, the
    ring-distance "small world" graphs, the row sort its entry point applies
    and the C tables it emits for the simulator.

    A topology is a sequence of rows; row i lists the peers of node i in the
    order they were added.  Python's random number generator is replaced by
    explicit draws: a finite `seq<nat>` where the generator keeps drawing
    until a condition holds (running out of draws is reported as
    GenerationStarvation), and an infinite stream `nat -> real` where the
    number of draws is bounded by the loop structure. */
module Topology {
  import opened Wrappers

  datatype TopologyError = InvalidParameters | GenerationStarvation | CapacityExceeded

  type Rows = seq<seq<nat>>

  // ---------------------------------------------------------------------
  // Well-formed topologies

  predicate Distinct(s: seq<nat>)
  {
    forall a, b :: 0 <= a < b < |s| ==> s[a] != s[b]
  }

  predicate InRange(t: Rows)
  {
    forall i, k :: 0 <= i < |t| && 0 <= k < |t[i]| ==> t[i][k] < |t|
  }

  predicate NoSelfLoops(t: Rows)
  {
    forall i :: 0 <= i < |t| ==> i !in t[i]
  }

  predicate Symmetric(t: Rows)
  {
    forall i, j :: 0 <= i < |t| && 0 <= j < |t| ==> (j in t[i] <==> i in t[j])
  }

  predicate NoDuplicates(t: Rows)
  {
    forall i :: 0 <= i < |t| ==> Distinct(t[i])
  }

  /** An undirected simple graph on nodes 0..n-1 given as adjacency rows. */
  predicate IsTopology(t: Rows, n: nat)
  {
    |t| == n && InRange(t) && NoSelfLoops(t) && Symmetric(t) && NoDuplicates(t)
  }

  predicate DegreesAtMost(t: Rows, bound: int)
  {
    forall i :: 0 <= i < |t| ==> |t[i]| <= bound
  }

  predicate DegreesAtLeast(t: Rows, bound: int)
  {
    forall i :: 0 <= i < |t| ==> |t[i]| >= bound
  }

  /** Connect i and p: append p to row i and i to row p. */
  function AddEdge(t: Rows, i: nat, p: nat): (u: Rows)
    requires i < |t| && p < |t| && i != p
    ensures |u| == |t|
    ensures u[i] == t[i] + [p] && u[p] == t[p] + [i]
    ensures forall k :: 0 <= k < |t| && k != i && k != p ==> u[k] == t[k]
  {
    t[i := t[i] + [p]][p := t[p] + [i]]
  }

  lemma AddEdgeKeepsTopology(t: Rows, n: nat, i: nat, p: nat)
    requires IsTopology(t, n)
    requires i < n && p < n && i != p && p !in t[i]
    ensures IsTopology(AddEdge(t, i, p), n)
  {
    var u := AddEdge(t, i, p);
    assert i !in t[p];
    forall k | 0 <= k < |u|
      ensures Distinct(u[k])
    {
      if k == i || k == p {
        assert Distinct(t[k]);
      }
    }
    forall a, b | 0 <= a < |u| && 0 <= b < |u|
      ensures b in u[a] <==> a in u[b]
    {
      assert b in t[a] <==> a in t[b];
    }
  }

  /** The set of peers a row lists. */
  function Elements(s: seq<nat>): (e: set<nat>)
    ensures forall x :: x in e <==> x in s
  {
    set x | x in s
  }

  /** Distinct entries give a set of the same size as the row. */
  lemma {:induction false} DistinctRowCard(s: seq<nat>)
    requires Distinct(s)
    ensures |Elements(s)| == |s|
  {
    if s != [] {
      var init := s[..|s| - 1];
      var last := s[|s| - 1];
      assert s == init + [last];
      assert Distinct(init);
      DistinctRowCard(init);
      assert last !in Elements(init);
      assert Elements(s) == Elements(init) + {last};
    }
  }

  // ---------------------------------------------------------------------
  // generate_symmetric_topology

  /** Python's randint(lo, hi) fed with one raw draw d. */
  function RandInt(lo: int, hi: int, d: nat): (v: int)
    requires lo <= hi
    ensures lo <= v <= hi
  {
    lo + d % (hi - lo + 1)
  }

  predicate SymmetricParametersValid(n: int, minPeers: int, maxPeers: int)
  {
    n > 0 && minPeers >= 1 && maxPeers >= minPeers && maxPeers < n - 1
    && 10 * minPeers <= 9 * maxPeers
  }

  /** Each node in turn draws a target degree in [minPeers, floor(0.9 maxPeers)]
      and then draws candidate peers, accepting a candidate that is new,
      not itself and not yet full, until its row reaches the target. */
  method GenerateSymmetricTopology(n: int, minPeers: int, maxPeers: int, draws: seq<nat>)
    returns (r: Result<Rows, TopologyError>)
    ensures r == Failure(InvalidParameters) <==>
              (n <= 0 || minPeers < 1 || maxPeers < minPeers || maxPeers >= n - 1
               || 10 * minPeers > 9 * maxPeers)
    ensures r.Failure? ==> r.error == InvalidParameters || r.error == GenerationStarvation
    ensures r.Success? ==> IsTopology(r.value, n) && DegreesAtMost(r.value, maxPeers)
                           && DegreesAtLeast(r.value, minPeers)
  {
    if !SymmetricParametersValid(n, minPeers, maxPeers) {
      return Failure(InvalidParameters);
    }
    var topology: Rows := seq(n, _ => []);
    var pos := 0;
    var i := 0;
    while i < n
      invariant 0 <= i <= n && pos <= |draws|
      invariant IsTopology(topology, n) && DegreesAtMost(topology, maxPeers)
      invariant forall k :: 0 <= k < i ==> |topology[k]| >= minPeers
    {
      var connected := Elements(topology[i]);
      DistinctRowCard(topology[i]);
      if pos == |draws| {
        return Failure(GenerationStarvation);
      }
      var numConnections := RandInt(minPeers, 9 * maxPeers / 10, draws[pos]);
      pos := pos + 1;
      while |connected| < numConnections
        invariant pos <= |draws|
        invariant IsTopology(topology, n) && DegreesAtMost(topology, maxPeers)
        invariant forall k :: 0 <= k < i ==> |topology[k]| >= minPeers
        invariant forall x :: x in connected <==> x in topology[i]
        invariant |connected| == |topology[i]|
        decreases |draws| - pos
      {
        if pos == |draws| {
          return Failure(GenerationStarvation);
        }
        var p := RandInt(0, n - 1, draws[pos]);
        pos := pos + 1;
        if p !in connected && p != i && |topology[p]| < maxPeers {
          AddEdgeKeepsTopology(topology, n, i, p);
          topology := AddEdge(topology, i, p);
          connected := connected + {p};
        }
      }
      i := i + 1;
    }
    return Success(topology);
  }

  // ---------------------------------------------------------------------
  // get_pij and generate_small_world_topology

  function Abs(x: int): nat { if x < 0 then -x else x }

  function Min(a: int, b: int): int { if a <= b then a else b }

  /** Distance of i and j on a ring of n nodes. */
  function RingDistance(n: int, i: int, j: int): (d: int)
    ensures d == Min(Abs(i - j), n - Abs(i - j))
  {
    var dis := if i - j < 0 then j - i else i - j;
    if 2 * dis > n then n - dis else dis
  }

  /** Probability that i and j are linked: prop*dens for every pair, plus
      1-prop for pairs within dens*maxDis of each other on the ring. */
  function ConnectionProbability(n: int, dens: real, prop: real, maxDis: real, i: int, j: int): (p: real)
    ensures 0.0 <= dens <= 1.0 && 0.0 <= prop <= 1.0 ==> 0.0 <= p <= 1.0
  {
    var dis := RingDistance(n, i, j);
    var probability := prop * dens;
    ShareOfProp(prop, dens);
    if dens * maxDis >= dis as real then probability + (1.0 - prop) else probability
  }

  lemma ConnectionProbabilitySymmetric(n: int, dens: real, prop: real, maxDis: real, i: int, j: int)
    ensures ConnectionProbability(n, dens, prop, maxDis, i, j)
         == ConnectionProbability(n, dens, prop, maxDis, j, i)
  {
    assert Abs(i - j) == Abs(j - i);
  }

  /** A nearer pair is never less likely to be linked: the probability
      does not grow with the ring distance. */
  lemma ConnectionProbabilityNearerAtLeast(n: int, dens: real, prop: real, maxDis: real, i: int, j: int, k: int, l: int)
    requires prop <= 1.0
    requires RingDistance(n, i, j) <= RingDistance(n, k, l)
    ensures ConnectionProbability(n, dens, prop, maxDis, i, j) >= ConnectionProbability(n, dens, prop, maxDis, k, l)
  {
  }

  /** prop*dens is a share of prop when dens is a fraction. */
  lemma ShareOfProp(prop: real, dens: real)
    ensures 0.0 <= prop && 0.0 <= dens <= 1.0 ==> 0.0 <= prop * dens <= prop
  {
    if 0.0 <= prop && 0.0 <= dens <= 1.0 {
      MulNonNegative(prop, dens);
      MulNonNegative(prop, 1.0 - dens);
    }
  }

  lemma MulNonNegative(a: real, b: real)
    requires 0.0 <= a && 0.0 <= b
    ensures 0.0 <= a * b
  {
  }

  /** Ten nodes, dens 0.3, prop 0.2, maxDis 5: pairs at ring distance 1 are
      near, the opposite node (distance 5) is far. */
  lemma ConnectionProbabilityExample()
    ensures ConnectionProbability(10, 0.3, 0.2, 5.0, 0, 1) == 0.86
    ensures ConnectionProbability(10, 0.3, 0.2, 5.0, 0, 5) == 0.06
    ensures ConnectionProbability(10, 0.3, 0.2, 5.0, 0, 9) == 0.86
  {
  }

  predicate SmallWorldParametersValid(n: int, dens: real, prop: real, maxDis: real)
  {
    n > 0 && 0.0 <= dens <= 1.0 && 0.0 <= prop <= 1.0 && maxDis > 0.0
  }

  /** Every ordered pair (i, j), i != j, not yet connected, draws one
      uniform value and links i and j when it falls below their
      connection probability.  Draws are taken from the stream in order. */
  method GenerateSmallWorldTopology(n: int, dens: real, prop: real, maxDis: real, draws: nat -> real)
    returns (r: Result<Rows, TopologyError>)
    ensures r.Failure? <==> (n <= 0 || dens < 0.0 || dens > 1.0 || prop < 0.0 || prop > 1.0
                             || maxDis <= 0.0)
    ensures r.Failure? ==> r.error == InvalidParameters
    ensures r.Success? ==> IsTopology(r.value, n)
  {
    if !SmallWorldParametersValid(n, dens, prop, maxDis) {
      return Failure(InvalidParameters);
    }
    var topology: Rows := seq(n, _ => []);
    var pos := 0;
    var i := 0;
    while i < n
      invariant 0 <= i <= n
      invariant IsTopology(topology, n)
    {
      var connected := Elements(topology[i]);
      var j := 0;
      while j < n
        invariant 0 <= j <= n
        invariant IsTopology(topology, n)
        invariant forall x :: x in connected <==> x in topology[i]
      {
        if i != j && j !in connected {
          if draws(pos) < ConnectionProbability(n, dens, prop, maxDis, i, j) {
            AddEdgeKeepsTopology(topology, n, i, j);
            topology := AddEdge(topology, i, j);
            connected := connected + {j};
          }
          pos := pos + 1;
        }
        j := j + 1;
      }
      i := i + 1;
    }
    return Success(topology);
  }

  // ---------------------------------------------------------------------
  // Sorting the rows (list.sort on every row)

  predicate SortedAscending(s: seq<nat>)
  {
    forall a, b :: 0 <= a < b < |s| ==> s[a] <= s[b]
  }

  function Insert(x: nat, s: seq<nat>): (r: seq<nat>)
    requires SortedAscending(s)
    ensures SortedAscending(r) && multiset(r) == multiset(s) + multiset{x}
    decreases |s|
  {
    if s == [] then [x]
    else if x <= s[0] then [x] + s
    else
      assert s == [s[0]] + s[1..];
      var rest := Insert(x, s[1..]);
      InsertedAbove(x, s, rest);
      [s[0]] + rest
  }

  /** Every element of an insertion into the tail of s is at least s[0]
      when x is. */
  lemma InsertedAbove(x: nat, s: seq<nat>, rest: seq<nat>)
    requires SortedAscending(s) && |s| > 0 && s[0] < x
    requires SortedAscending(rest) && multiset(rest) == multiset(s[1..]) + multiset{x}
    ensures SortedAscending([s[0]] + rest)
  {
    forall k | 0 <= k < |rest|
      ensures s[0] <= rest[k]
    {
      assert rest[k] in multiset(rest);
      if rest[k] != x {
        assert rest[k] in multiset(s[1..]);
        assert rest[k] in s[1..];
      }
    }
    var r := [s[0]] + rest;
    assert forall k :: 0 < k < |r| ==> r[k] == rest[k - 1];
  }

  /** The ascending order of a row, as the result of an insertion sort. */
  function SortRow(s: seq<nat>): (r: seq<nat>)
    ensures SortedAscending(r) && multiset(r) == multiset(s)
    decreases |s|
  {
    if s == [] then []
    else
      assert s == s[..|s| - 1] + [s[|s| - 1]];
      Insert(s[|s| - 1], SortRow(s[..|s| - 1]))
  }

  /** Sort every row of the topology in place of the original rows. */
  method SortRows(t: Rows) returns (s: Rows)
    ensures |s| == |t|
    ensures forall i :: 0 <= i < |s| ==> SortedAscending(s[i]) && multiset(s[i]) == multiset(t[i])
  {
    s := t;
    var i := 0;
    while i < |s|
      invariant 0 <= i <= |s| == |t|
      invariant forall k :: 0 <= k < i ==> SortedAscending(s[k]) && multiset(s[k]) == multiset(t[k])
      invariant forall k :: i <= k < |s| ==> s[k] == t[k]
    {
      s := s[i := SortRow(s[i])];
      i := i + 1;
    }
  }

  lemma {:induction false} DistinctIffSingleCounts(s: seq<nat>)
    ensures Distinct(s) <==> forall x :: multiset(s)[x] <= 1
  {
    if s != [] {
      var init := s[..|s| - 1];
      var last := s[|s| - 1];
      assert s == init + [last];
      DistinctIffSingleCounts(init);
      if Distinct(s) {
        assert Distinct(init);
        assert last !in init;
        assert multiset(init)[last] == 0;
      } else {
        assert multiset(s) == multiset(init) + multiset{last};
        var a, b :| 0 <= a < b < |s| && s[a] == s[b];
        if b == |s| - 1 {
          assert last in init by { assert init[a] == last; }
          assert multiset(s)[last] >= 2;
        } else {
          assert !Distinct(init) by { assert init[a] == init[b]; }
          var y :| multiset(init)[y] > 1;
          assert multiset(s)[y] > 1;
        }
      }
    }
  }

  /** Reordering rows keeps degrees and every property of the graph. */
  lemma PermutedRowsKeepTopology(t: Rows, s: Rows, n: nat)
    requires IsTopology(t, n) && |s| == |t|
    requires forall i :: 0 <= i < |s| ==> multiset(s[i]) == multiset(t[i])
    ensures IsTopology(s, n)
    ensures forall i :: 0 <= i < |s| ==> |s[i]| == |t[i]|
  {
    forall i, x | 0 <= i < |s|
      ensures x in s[i] <==> x in t[i]
    {
      assert x in s[i] <==> x in multiset(s[i]);
      assert x in t[i] <==> x in multiset(t[i]);
    }
    forall i | 0 <= i < |s|
      ensures Distinct(s[i]) && |s[i]| == |t[i]|
    {
      DistinctIffSingleCounts(t[i]);
      DistinctIffSingleCounts(s[i]);
      assert |s[i]| == |multiset(s[i])|;
    }
    forall i, k | 0 <= i < |s| && 0 <= k < |s[i]|
      ensures s[i][k] < |s|
    {
      assert s[i][k] in t[i];
    }
  }

  /** A sorted row without duplicates is strictly increasing. */
  lemma SortedDistinctIncreasing(s: seq<nat>)
    requires SortedAscending(s) && Distinct(s)
    ensures forall a, b :: 0 <= a < b < |s| ==> s[a] < s[b]
  {
  }

  // ---------------------------------------------------------------------
  // topology_to_c

  /** The two tables of the emitted Topology.c (with C's zero filling of the
      elements after the written initialisers) and the header constants. */
  datatype SerializedTopology = SerializedTopology(
    nNodes: nat, minPeers: int, maxPeers: nat,
    peerListSizes: seq<nat>,
    peerLists: seq<seq<nat>>)

  predicate WellShaped(s: SerializedTopology)
  {
    |s.peerListSizes| == s.nNodes && |s.peerLists| == s.nNodes
    && forall i :: 0 <= i < s.nNodes ==> |s.peerLists[i]| == s.maxPeers && s.peerListSizes[i] <= s.maxPeers
  }

  /** The peers the simulator reads for node i: the first peer_list_sizes[i]
      entries of peer_lists[i]. */
  function PeersOf(s: SerializedTopology, i: nat): (p: seq<nat>)
    requires WellShaped(s) && i < s.nNodes
    ensures |p| == s.peerListSizes[i]
  {
    s.peerLists[i][..s.peerListSizes[i]]
  }

  /** Emit the C tables.  The initialisers fit the declared arrays only when
      there are at most nNodes rows of at most maxPeers peers; beyond that the
      emitted initialisers are excess elements, which a C compiler warns about
      and discards.  The model refuses such a topology instead of modelling
      the discarded elements; GenerateTopologyFiles never hands it one. */
  method TopologyToC(t: Rows, nNodes: nat, minPeers: int, maxPeers: nat)
    returns (r: Result<SerializedTopology, TopologyError>)
    ensures r.Failure? <==> (|t| > nNodes || exists i :: 0 <= i < |t| && |t[i]| > maxPeers)
    ensures r.Failure? ==> r.error == CapacityExceeded
    ensures r.Success? ==>
              var s := r.value;
              WellShaped(s) && s.nNodes == nNodes && s.minPeers == minPeers && s.maxPeers == maxPeers
              && (forall i :: 0 <= i < |t| ==> PeersOf(s, i) == t[i])
              && (forall i :: |t| <= i < nNodes ==> PeersOf(s, i) == [])
              && (forall i, k :: 0 <= i < nNodes && s.peerListSizes[i] <= k < maxPeers ==>
                                   s.peerLists[i][k] == 0)
  {
    if |t| > nNodes {
      return Failure(CapacityExceeded);
    }
    var sizes: seq<nat> := [];
    var lists: seq<seq<nat>> := [];
    var i := 0;
    while i < nNodes
      invariant 0 <= i <= nNodes
      invariant |sizes| == i && |lists| == i
      invariant forall k :: 0 <= k < i ==> |lists[k]| == maxPeers && sizes[k] <= maxPeers
      invariant forall k :: 0 <= k < i && k < |t| ==> sizes[k] == |t[k]| && lists[k][..sizes[k]] == t[k]
      invariant forall k :: 0 <= k < i && |t| <= k ==> sizes[k] == 0
      invariant forall k, c :: 0 <= k < i && sizes[k] <= c < maxPeers ==> lists[k][c] == 0
      invariant forall k :: 0 <= k < i && k < |t| ==> |t[k]| <= maxPeers
    {
      var row: seq<nat> := if i < |t| then t[i] else [];
      if |row| > maxPeers {
        return Failure(CapacityExceeded);
      }
      var padded := row + seq(maxPeers - |row|, _ => 0);
      assert padded[..|row|] == row;
      sizes := sizes + [|row|];
      lists := lists + [padded];
      i := i + 1;
    }
    var s := SerializedTopology(nNodes, minPeers, maxPeers, sizes, lists);
    assert forall k :: 0 <= k < |t| ==> PeersOf(s, k) == t[k];
    return Success(s);
  }

  // ---------------------------------------------------------------------
  // main: generate, sort every row, emit

  method GenerateTopologyFiles(n: int, minPeers: int, maxPeers: int, draws: seq<nat>)
    returns (r: Result<SerializedTopology, TopologyError>)
    ensures !SymmetricParametersValid(n, minPeers, maxPeers) ==> r == Failure(InvalidParameters)
    ensures r.Failure? ==> r.error != CapacityExceeded
    ensures r.Success? ==>
              var s := r.value;
              WellShaped(s) && s.nNodes == n && s.minPeers == minPeers && s.maxPeers == maxPeers
              && IsTopology(seq(n, i requires 0 <= i < n => PeersOf(s, i)), n)
              && (forall i :: 0 <= i < n ==> minPeers <= s.peerListSizes[i] <= maxPeers)
              && (forall i :: 0 <= i < n ==> SortedAscending(PeersOf(s, i)))
  {
    var g := GenerateSymmetricTopology(n, minPeers, maxPeers, draws);
    if g.Failure? {
      return Failure(g.error);
    }
    var sorted := SortRows(g.value);
    PermutedRowsKeepTopology(g.value, sorted, n);
    assert forall i :: 0 <= i < n ==> minPeers <= |sorted[i]| <= maxPeers;
    r := TopologyToC(sorted, n, minPeers, maxPeers);
    if r.Success? {
      var s := r.value;
      assert seq(n, i requires 0 <= i < n => PeersOf(s, i)) == sorted;
      assert forall i :: 0 <= i < n ==> s.peerListSizes[i] == |sorted[i]|;
    }
  }

}
