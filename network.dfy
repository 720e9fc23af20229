/** Placement of the nodes in geographical regions, and the choice of the
    nodes a block is sent to.

    Scheduling an event with the runtime is modelled by returning the event:
    each method yields the sequence of RECEIVE_BLOCK events it schedules, in
    order.  The transmission delay between two nodes is the parameter
    `delay`, and RandomRange(0, n - 1) is `d % n` for the next value d of the
    draw sequence. */
module Network {
  import opened Wrappers
  import opened Config
  import opened Topology
  import opened Blocks

  /** A RECEIVE_BLOCK event for `receiver`, due at `deliveryTime`. */
  datatype Event = Event(receiver: nat, deliveryTime: real, block: Block)

  datatype GossipError = DrawsExhausted

  // ---------------------------------------------------------------------
  // Regions

  /** Sum of the first k entries. */
  function PrefixSum(s: seq<nat>, k: nat): nat
    requires k <= |s|
  {
    if k == 0 then 0 else PrefixSum(s, k - 1) + s[k - 1]
  }

  lemma {:induction false} PrefixSumMonotone(s: seq<nat>, j: nat, k: nat)
    requires j <= k <= |s|
    ensures PrefixSum(s, j) <= PrefixSum(s, k)
    decreases k - j
  {
    if j < k {
      PrefixSumMonotone(s, j, k - 1);
    }
  }

  lemma {:induction false} PrefixSumAgree(s: seq<nat>, t: seq<nat>, k: nat)
    requires k <= |s| && k <= |t| && s[..k] == t[..k]
    ensures PrefixSum(s, k) == PrefixSum(t, k)
  {
    if k > 0 {
      assert s[k - 1] == s[..k][k - 1] == t[..k][k - 1] == t[k - 1];
      assert s[..k - 1] == s[..k][..k - 1] == t[..k][..k - 1] == t[..k - 1];
      PrefixSumAgree(s, t, k - 1);
    }
  }

  /** A share of the nodes per region, each in [0, 1]. */
  predicate ValidDistribution(dist: seq<real>)
  {
    |dist| == REGIONS_NUM && forall i :: 0 <= i < |dist| ==> 0.0 <= dist[i] <= 1.0
  }

  /** The size_t conversion of nNodes * d: the product truncated. */
  function RegionShare(nNodes: nat, d: real): (c: nat)
    requires 0.0 <= d <= 1.0
    ensures c as real <= nNodes as real * d < c as real + 1.0
    ensures c <= nNodes
  {
    var x := nNodes as real * d;
    assert x <= nNodes as real * 1.0;
    x.Floor
  }

  /** The sizes of all regions but the last. */
  function Shares(nNodes: nat, dist: seq<real>): (s: seq<nat>)
    requires ValidDistribution(dist)
    ensures |s| == REGIONS_NUM - 1
    ensures forall i :: 0 <= i < |s| ==> s[i] == RegionShare(nNodes, dist[i])
  {
    seq(REGIONS_NUM - 1, i requires 0 <= i < REGIONS_NUM - 1 => RegionShare(nNodes, dist[i]))
  }

  /** What initNetwork stores: the truncated shares, and for the last
      region whatever remains of nNodes, wrapping as size_t when the shares
      already exceed it. */
  function RegionCounts(nNodes: nat, dist: seq<real>): (c: seq<nat>)
    requires ValidDistribution(dist)
  {
    var s := Shares(nNodes, dist);
    s + [(nNodes - PrefixSum(s, REGIONS_NUM - 1)) % SIZE_T_MODULUS]
  }

  lemma {:induction false} PrefixSumBound(s: seq<nat>, k: nat, bound: nat)
    requires k <= |s| && forall i :: 0 <= i < |s| ==> s[i] <= bound
    ensures PrefixSum(s, k) <= k * bound
  {
    if k > 0 {
      PrefixSumBound(s, k - 1, bound);
    }
  }

  /** The counts add up to nNodes exactly when the first five shares do
      not already exceed it; otherwise the last count is the wrapped
      difference. */
  lemma RegionCountsSum(nNodes: nat, dist: seq<real>)
    requires ValidDistribution(dist) && nNodes < SIZE_T_MODULUS
    ensures var c := RegionCounts(nNodes, dist);
            |c| == REGIONS_NUM
            && (forall i :: 0 <= i < REGIONS_NUM - 1 ==> c[i] as real <= nNodes as real * dist[i] < c[i] as real + 1.0)
            && (PrefixSum(c, REGIONS_NUM - 1) <= nNodes <==> PrefixSum(c, REGIONS_NUM) == nNodes)
  {
    var s := Shares(nNodes, dist);
    var c := RegionCounts(nNodes, dist);
    assert c[..REGIONS_NUM - 1] == s[..REGIONS_NUM - 1];
    PrefixSumAgree(c, s, REGIONS_NUM - 1);
    PrefixSumBound(s, REGIONS_NUM - 1, nNodes);
  }

  /** The shipped distribution over the shipped 1000 nodes. */
  lemma ShippedRegionCounts()
    ensures RegionCounts(N_NODES, REGIONS_DISTRIBUTION) == [476, 222, 0, 297, 5, 0]
  {
    var s := Shares(N_NODES, REGIONS_DISTRIBUTION);
    assert s[0] == 476 && s[1] == 222 && s[2] == 0 && s[3] == 297 && s[4] == 5;
    assert s == [476, 222, 0, 297, 5];
  }

  /** initNetwork: fill the region table. */
  method InitNetwork(nodesInRegion: array<nat>, nNodes: nat, dist: seq<real>)
    requires nodesInRegion.Length == REGIONS_NUM && ValidDistribution(dist)
    modifies nodesInRegion
    ensures nodesInRegion[..] == RegionCounts(nNodes, dist)
  {
    ghost var s := Shares(nNodes, dist);
    var tot := 0;
    var i := 0;
    while i < REGIONS_NUM - 1
      invariant 0 <= i <= REGIONS_NUM - 1
      invariant forall k :: 0 <= k < i ==> nodesInRegion[k] == s[k]
      invariant tot == PrefixSum(s, i)
    {
      nodesInRegion[i] := RegionShare(nNodes, dist[i]);
      tot := tot + nodesInRegion[i];
      i := i + 1;
    }
    nodesInRegion[REGIONS_NUM - 1] := (nNodes - tot) % SIZE_T_MODULUS;
  }

  /** Node `node` lies in region r: past the nodes of the regions before r
      and before the end of r. */
  predicate InRegion(counts: seq<nat>, node: nat, r: nat)
  {
    r < |counts| && PrefixSum(counts, r) <= node < PrefixSum(counts, r + 1)
  }

  /** getRegion: subtract region sizes until the node falls inside one;
      past the last region the lookup aborts (None). */
  method GetRegion(nodesInRegion: array<nat>, node: nat) returns (r: Option<nat>)
    ensures r.Some? ==> InRegion(nodesInRegion[..], node, r.value) && nodesInRegion[r.value] > 0
    ensures r.None? <==> PrefixSum(nodesInRegion[..], nodesInRegion.Length) <= node
  {
    ghost var counts := nodesInRegion[..];
    var rest := node;
    var i := 0;
    while i < nodesInRegion.Length
      invariant 0 <= i <= nodesInRegion.Length
      invariant PrefixSum(counts, i) <= node && rest == node - PrefixSum(counts, i)
    {
      if rest < nodesInRegion[i] {
        InRegionBelowTotal(counts, node, i);
        return Some(i);
      }
      rest := rest - nodesInRegion[i];
      i := i + 1;
    }
    return None;
  }

  /** The region of a node is unique, and a larger node id never lies in an
      earlier region. */
  lemma InRegionMonotone(counts: seq<nat>, n1: nat, r1: nat, n2: nat, r2: nat)
    requires InRegion(counts, n1, r1) && InRegion(counts, n2, r2) && n1 <= n2
    ensures r1 <= r2
  {
    if r2 < r1 {
      PrefixSumMonotone(counts, r2 + 1, r1);
    }
  }

  /** No node lies beyond the last region. */
  lemma InRegionBelowTotal(counts: seq<nat>, node: nat, r: nat)
    requires InRegion(counts, node, r)
    ensures node < PrefixSum(counts, |counts|)
  {
    PrefixSumMonotone(counts, r + 1, |counts|);
  }

  /** Lookups in the shipped table: the empty regions 2 and 5 are never
      returned, and node 1000 is past the end. */
  lemma ShippedRegionLookups()
    ensures var c := [476, 222, 0, 297, 5, 0];
            InRegion(c, 0, 0) && InRegion(c, 475, 0) && InRegion(c, 476, 1)
            && InRegion(c, 698, 3) && InRegion(c, 995, 4) && InRegion(c, 999, 4)
            && PrefixSum(c, |c|) == 1000
            && (forall node :: !InRegion(c, node, 2) && !InRegion(c, node, 5))
  {
    var c := [476, 222, 0, 297, 5, 0];
    assert PrefixSum(c, 1) == 476 && PrefixSum(c, 2) == 698 && PrefixSum(c, 3) == 698;
    assert PrefixSum(c, 4) == 995 && PrefixSum(c, 5) == 1000 && PrefixSum(c, 6) == 1000;
  }

  // ---------------------------------------------------------------------
  // Block propagation

  /** One event per chosen peer index, each due after the delay between
      the sender and that peer. */
  function Deliveries(sender: nat, sendTime: real, block: Block, peers: seq<nat>,
                      picked: seq<nat>, delay: (nat, nat) -> real): (events: seq<Event>)
    requires forall k :: 0 <= k < |picked| ==> picked[k] < |peers|
    ensures |events| == |picked|
  {
    seq(|picked|, k requires 0 <= k < |picked| =>
          Event(peers[picked[k]], sendTime + delay(sender, peers[picked[k]]), block))
  }

  lemma DeliveriesAppend(sender: nat, sendTime: real, block: Block, peers: seq<nat>,
                         picked: seq<nat>, p: nat, delay: (nat, nat) -> real)
    requires p < |peers| && forall k :: 0 <= k < |picked| ==> picked[k] < |peers|
    ensures Deliveries(sender, sendTime, block, peers, picked + [p], delay)
            == Deliveries(sender, sendTime, block, peers, picked, delay)
               + [Event(peers[p], sendTime + delay(sender, peers[p]), block)]
  {
  }

  /** The values RandomRange(0, n - 1) takes on a sequence of draws. */
  function Residues(draws: seq<nat>, n: nat): set<nat>
    requires n > 0
  {
    if draws == [] then {} else Residues(draws[..|draws| - 1], n) + {draws[|draws| - 1] % n}
  }

  lemma {:induction false} ResiduesPrefix(draws: seq<nat>, n: nat, k: nat)
    requires n > 0 && k <= |draws|
    ensures Residues(draws[..k], n) <= Residues(draws, n)
    decreases |draws|
  {
    if k < |draws| {
      var init := draws[..|draws| - 1];
      assert init[..k] == draws[..k];
      ResiduesPrefix(init, n, k);
    } else {
      assert draws[..k] == draws;
    }
  }

  lemma SubsetCard(a: set<nat>, b: set<nat>)
    requires a <= b
    ensures |a| <= |b|
  {
    assert b == a + (b - a);
  }

  /** The gossip rule sends to every peer: no fanout, at most fanout peers,
      or the sender mined the block. */
  predicate SendsToAll(fanout: nat, nPeers: nat, block: Block, sender: nat)
  {
    fanout == 0 || nPeers <= fanout || block.miner == sender
  }

  /** The all-peers branch of gossipBlock: each of the first nPeers
      entries once, in list order. */
  method GossipToAll(sender: nat, sendTime: real, block: Block, peers: seq<nat>, nPeers: nat,
                     delay: (nat, nat) -> real)
    returns (events: seq<Event>, picked: seq<nat>)
    requires nPeers <= |peers|
    ensures picked == seq(nPeers, i => i)
    ensures events == Deliveries(sender, sendTime, block, peers, picked, delay)
  {
    events, picked := [], [];
    var i := 0;
    while i < nPeers
      invariant 0 <= i <= nPeers
      invariant picked == seq(i, k => k)
      invariant events == Deliveries(sender, sendTime, block, peers, picked, delay)
    {
      events := events + [Event(peers[i], sendTime + delay(sender, peers[i]), block)];
      picked := picked + [i];
      i := i + 1;
    }
  }

  /** One pick of the random branch: draw indices from position `pos` on,
      rejecting those `selected` marks, until an unmarked one comes up or
      the draws run out.  `next` is the position after the last draw
      used. */
  method DrawUnselected(selected: array<bool>, picked: seq<nat>, draws: seq<nat>, pos: nat)
    returns (found: bool, peer: nat, next: nat)
    requires 0 < selected.Length && pos <= |draws|
    requires forall p :: 0 <= p < selected.Length ==> (selected[p] <==> p in picked)
    requires Elements(picked) == Residues(draws[..pos], selected.Length)
    ensures pos <= next <= |draws|
    ensures found ==> peer < selected.Length && peer !in picked
                      && Residues(draws[..next], selected.Length) == Elements(picked) + {peer}
    ensures !found ==> next == |draws| && Residues(draws, selected.Length) == Elements(picked)
  {
    var n := selected.Length;
    next := pos;
    if next == |draws| {
      assert draws[..next] == draws;
      return false, 0, next;
    }
    peer := draws[next] % n;
    assert draws[..next + 1][..next] == draws[..next];
    next := next + 1;
    while selected[peer]
      invariant pos < next <= |draws| && peer == draws[next - 1] % n
      invariant Residues(draws[..next], n) == Elements(picked) + {peer}
      decreases |draws| - next
    {
      if next == |draws| {
        assert draws[..next] == draws;
        return false, 0, next;
      }
      peer := draws[next] % n;
      assert draws[..next + 1][..next] == draws[..next];
      next := next + 1;
    }
    found := true;
  }

  /** The random branch of gossipBlock: `fanout` picks, each marked in a
      cleared bitmap of nPeers bits. */
  method GossipToSample(sender: nat, sendTime: real, block: Block, peers: seq<nat>, nPeers: nat,
                        fanout: nat, delay: (nat, nat) -> real, draws: seq<nat>)
    returns (r: Result<seq<Event>, GossipError>, picked: seq<nat>)
    requires 0 < nPeers <= |peers|
    ensures Distinct(picked) && forall k :: 0 <= k < |picked| ==> picked[k] < nPeers
    ensures r.Success? ==> r.value == Deliveries(sender, sendTime, block, peers, picked, delay)
                           && |picked| == fanout && Elements(picked) <= Residues(draws, nPeers)
    ensures r.Failure? <==> |Residues(draws, nPeers)| < fanout
  {
    var events: seq<Event> := [];
    picked := [];
    var selected := new bool[nPeers](_ => false);
    var pos := 0;
    var i := 0;
    while i < fanout
      invariant 0 <= i <= fanout && 0 <= pos <= |draws|
      invariant |picked| == i && Distinct(picked)
      invariant forall k :: 0 <= k < |picked| ==> picked[k] < nPeers
      invariant forall p :: 0 <= p < nPeers ==> (selected[p] <==> p in picked)
      invariant Elements(picked) == Residues(draws[..pos], nPeers)
      invariant events == Deliveries(sender, sendTime, block, peers, picked, delay)
    {
      var found, peer, next := DrawUnselected(selected, picked, draws, pos);
      if !found {
        DistinctRowCard(picked);
        return Failure(DrawsExhausted), picked;
      }
      DeliveriesAppend(sender, sendTime, block, peers, picked, peer, delay);
      assert Elements(picked + [peer]) == Elements(picked) + {peer};
      selected[peer] := true;
      events := events + [Event(peers[peer], sendTime + delay(sender, peers[peer]), block)];
      picked := picked + [peer];
      pos := next;
      i := i + 1;
    }
    ResiduesPrefix(draws, nPeers, pos);
    DistinctRowCard(picked);
    SubsetCard(Elements(picked), Residues(draws, nPeers));
    return Success(events), picked;
  }

  /** gossipBlock over the first nPeers entries of `peers`.  Either every
      peer is targeted once in list order, or `fanout` distinct peer
      indices are drawn, a draw whose index was already picked being
      rejected and drawn again.  `picked` lists the targeted indices; the
      draws run out exactly when they hold fewer than `fanout` distinct
      indices. */
  method GossipBlock(sender: nat, sendTime: real, block: Block, peers: seq<nat>, nPeers: nat,
                     fanout: nat, delay: (nat, nat) -> real, draws: seq<nat>)
    returns (r: Result<seq<Event>, GossipError>, picked: seq<nat>)
    requires nPeers <= |peers|
    ensures Distinct(picked) && forall k :: 0 <= k < |picked| ==> picked[k] < nPeers
    ensures r.Success? ==> r.value == Deliveries(sender, sendTime, block, peers, picked, delay)
    ensures SendsToAll(fanout, nPeers, block, sender) ==>
              r.Success? && picked == seq(nPeers, i => i)
    ensures !SendsToAll(fanout, nPeers, block, sender) ==>
              (r.Success? ==> |picked| == fanout && Elements(picked) <= Residues(draws, nPeers))
              && (r.Failure? <==> |Residues(draws, nPeers)| < fanout)
  {
    if SendsToAll(fanout, nPeers, block, sender) {
      var events;
      events, picked := GossipToAll(sender, sendTime, block, peers, nPeers, delay);
      r := Success(events);
    } else {
      r, picked := GossipToSample(sender, sendTime, block, peers, nPeers, fanout, delay, draws);
    }
  }

  /** The receivers of a sequence of events, in order. */
  function Receivers(events: seq<Event>): (r: seq<nat>)
    ensures |r| == |events| && forall k :: 0 <= k < |events| ==> r[k] == events[k].receiver
  {
    seq(|events|, k requires 0 <= k < |events| => events[k].receiver)
  }

  /** send_to_everyone: one event for each of the `lps` nodes but the
      sender, in id order. */
  method SendToEveryone(sender: nat, sendTime: real, block: Block, lps: nat, delay: (nat, nat) -> real)
    returns (events: seq<Event>)
    ensures |events| == if sender < lps then lps - 1 else lps
    ensures forall k :: 0 <= k < |events| ==>
              events[k].receiver < lps && events[k].receiver != sender
              && events[k] == Event(events[k].receiver, sendTime + delay(sender, events[k].receiver), block)
    ensures forall a, b :: 0 <= a < b < |events| ==> events[a].receiver < events[b].receiver
    ensures forall d :: 0 <= d < lps && d != sender ==> d in Receivers(events)
  {
    events := [];
    var d := 0;
    while d < lps
      invariant 0 <= d <= lps
      invariant |events| == if sender < d then d - 1 else d
      invariant forall k :: 0 <= k < |events| ==>
                  events[k].receiver < d && events[k].receiver != sender
                  && events[k] == Event(events[k].receiver, sendTime + delay(sender, events[k].receiver), block)
      invariant forall a, b :: 0 <= a < b < |events| ==> events[a].receiver < events[b].receiver
      invariant forall e :: 0 <= e < d && e != sender ==> e in Receivers(events)
    {
      if d != sender {
        assert Receivers(events + [Event(d, sendTime + delay(sender, d), block)])
               == Receivers(events) + [d];
        events := events + [Event(d, sendTime + delay(sender, d), block)];
      }
      d := d + 1;
    }
  }

  /** propagateBlock: gossip over the sender's row of the compiled-in
      topology, with the configured fanout. */
  method PropagateBlock(sender: nat, sendTime: real, block: Block, topology: SerializedTopology,
                        delay: (nat, nat) -> real, draws: seq<nat>)
    returns (r: Result<seq<Event>, GossipError>, picked: seq<nat>)
    requires WellShaped(topology) && sender < topology.nNodes
    ensures Distinct(picked)
    ensures forall k :: 0 <= k < |picked| ==> picked[k] < topology.peerListSizes[sender]
    ensures r.Success? ==>
              r.value == Deliveries(sender, sendTime, block, topology.peerLists[sender], picked, delay)
              && forall k :: 0 <= k < |r.value| ==> r.value[k].receiver in PeersOf(topology, sender)
    ensures SendsToAll(GOSSIP_FANOUT, topology.peerListSizes[sender], block, sender) ==>
              r.Success? && picked == seq(topology.peerListSizes[sender], i => i)
    ensures !SendsToAll(GOSSIP_FANOUT, topology.peerListSizes[sender], block, sender) ==>
              (r.Success? ==> |picked| == GOSSIP_FANOUT)
              && (r.Failure? <==> |Residues(draws, topology.peerListSizes[sender])| < GOSSIP_FANOUT)
  {
    r, picked := GossipBlock(sender, sendTime, block, topology.peerLists[sender],
                             topology.peerListSizes[sender], GOSSIP_FANOUT, delay, draws);
    if r.Success? {
      forall k | 0 <= k < |r.value|
        ensures r.value[k].receiver in PeersOf(topology, sender)
      {
        assert r.value[k].receiver == topology.peerLists[sender][picked[k]] == PeersOf(topology, sender)[picked[k]];
      }
    }
  }
}
