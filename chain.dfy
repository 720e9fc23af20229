/** The local chain of one node: the two level buffers and the main-chain
    pointer, insertion and linking of blocks, the switch of the main chain,
    and block production and receipt.  The shape of the store is stated on
    the window `oldLevels[..] + currentLevels[..]`, whose entry s holds the
    level of height minHeight + s. */
module Chain {
  import opened Wrappers
  import opened Config
  import opened Transactions
  import opened Statistics
  import opened Blocks
  import Attacks

  /** A height the store cannot address or a main tip that has left the
      window: the source aborts. */
  datatype ChainError = HeightOutOfWindow

  // ---------------------------------------------------------------------
  // The window as a value

  /** The node in use at height h, index i, of the window W starting at
      height min. */
  function NodeAt(W: seq<ChainLevel>, min: nat, h: nat, i: nat): Option<ChainNode>
  {
    if min <= h < min + |W| && i < W[h - min].size && i < |W[h - min].nodes| then Some(W[h - min].nodes[i])
    else None
  }

  /** A node in use that is not an orphan. */
  predicate Linked(W: seq<ChainLevel>, min: nat, h: nat, i: nat)
  {
    NodeAt(W, min, h, i).Some? && !IsOrphan(NodeAt(W, min, h, i).value)
  }

  /** What the store keeps true of node k of level s: its height is the
      level's, it carries transaction data unless it is the genesis block,
      and a linked node above the bottom level points at a linked node of
      the level below. */
  predicate NodeOk(W: seq<ChainLevel>, min: nat, s: nat, k: nat)
  {
    s < |W| && k < |W[s].nodes|
    && W[s].nodes[k].height == min + s
    && (min + s > 0 ==> W[s].nodes[k].txData.Some? && DataFits(W[s].nodes[k].txData.value))
    && (s > 0 && !IsOrphan(W[s].nodes[k]) ==> Linked(W, min, min + s - 1, W[s].nodes[k].parent))
  }

  /** The window invariant: 2 * DEPTH_TO_KEEP well-formed levels, none in
      use above maxHeight, maxHeight inside the window, every node in use
      as NodeOk says, and the genesis level in place while the window
      starts at height 0. */
  predicate WindowOk(W: seq<ChainLevel>, min: nat, max: nat)
  {
    |W| == 2 * DEPTH_TO_KEEP && max < min + 2 * DEPTH_TO_KEEP
    && (forall s :: 0 <= s < |W| ==> LevelOk(W[s]))
    && (forall s :: 0 <= s < |W| && W[s].size > 0 ==> min + s <= max)
    && (forall s, k :: 0 <= s < |W| && 0 <= k < W[s].size ==> NodeOk(W, min, s, k))
    && (min == 0 ==> W[0] == GenesisLevel)
  }

  /** The main tip is at most maxHeight, and while it is inside the window
      it is a linked node. */
  predicate MainTipOk(W: seq<ChainLevel>, min: nat, max: nat, height: nat, index: nat)
  {
    height <= max && (min <= height ==> Linked(W, min, height, index))
  }

  /** A linked node above the window start has a linked parent one level
      down, and sits at its level's height. */
  lemma LinkedParent(W: seq<ChainLevel>, min: nat, max: nat, h: nat, i: nat)
    requires WindowOk(W, min, max) && Linked(W, min, h, i) && min < h
    ensures NodeAt(W, min, h, i).value.height == h
    ensures Linked(W, min, h - 1, NodeAt(W, min, h, i).value.parent)
  {
    assert NodeOk(W, min, h - min, i);
  }

  /** The index, in the level n below height h, of the n-th ancestor of
      node (h, i); None once the walk leaves the nodes in use. */
  function Ancestor(W: seq<ChainLevel>, min: nat, h: nat, i: nat, n: nat): Option<nat>
  {
    if n == 0 then (if NodeAt(W, min, h, i).Some? then Some(i) else None)
    else if n > h then None
    else match Ancestor(W, min, h, i, n - 1)
      case None => None
      case Some(j) =>
        match NodeAt(W, min, h - (n - 1), j)
        case None => None
        case Some(node) => if NodeAt(W, min, h - n, node.parent).Some? then Some(node.parent) else None
  }

  /** The n-th ancestor of node (h, i) itself. */
  function PathNode(W: seq<ChainLevel>, min: nat, h: nat, i: nat, n: nat): Option<ChainNode>
  {
    match Ancestor(W, min, h, i, n)
    case None => None
    case Some(j) => if n <= h then NodeAt(W, min, h - n, j) else None
  }

  lemma {:induction false} AncestorInUse(W: seq<ChainLevel>, min: nat, h: nat, i: nat, n: nat)
    requires Ancestor(W, min, h, i, n).Some?
    ensures n <= h && NodeAt(W, min, h - n, Ancestor(W, min, h, i, n).value).Some?
    ensures PathNode(W, min, h, i, n) == NodeAt(W, min, h - n, Ancestor(W, min, h, i, n).value)
  {
    if n > 0 {
      AncestorInUse(W, min, h, i, n - 1);
    }
  }

  /** From a linked node, the walk down the parent links stays on linked
      nodes for as long as it stays inside the window. */
  lemma {:induction false} AncestorLinked(W: seq<ChainLevel>, min: nat, max: nat, h: nat, i: nat, n: nat)
    requires WindowOk(W, min, max) && Linked(W, min, h, i) && min + n <= h
    ensures Ancestor(W, min, h, i, n).Some?
    ensures Linked(W, min, h - n, Ancestor(W, min, h, i, n).value)
  {
    if n > 0 {
      AncestorLinked(W, min, max, h, i, n - 1);
      var j := Ancestor(W, min, h, i, n - 1).value;
      LinkedParent(W, min, max, h - (n - 1), j);
    }
  }

  /** The step the walkers take: one more parent link. */
  lemma AncestorStep(W: seq<ChainLevel>, min: nat, max: nat, h: nat, i: nat, n: nat)
    requires WindowOk(W, min, max) && Linked(W, min, h, i) && min + n < h
    ensures Ancestor(W, min, h, i, n).Some? && NodeAt(W, min, h - n, Ancestor(W, min, h, i, n).value).Some?
    ensures Ancestor(W, min, h, i, n + 1) ==
              Some(NodeAt(W, min, h - n, Ancestor(W, min, h, i, n).value).value.parent)
  {
    AncestorLinked(W, min, max, h, i, n);
    LinkedParent(W, min, max, h - n, Ancestor(W, min, h, i, n).value);
  }

  // ---------------------------------------------------------------------
  // Changes to the window

  /** A level with one more node in use: written in the first unused
      entry, or in a new entry when the storage is full (capacity grows
      by one). */
  function Append(l: ChainLevel, n: ChainNode): (r: ChainLevel)
    requires LevelOk(l)
    ensures LevelOk(r) && r.size == l.size + 1
    ensures r.nodes[l.size] == n && r.nodes[..l.size] == l.nodes[..l.size]
    ensures r.capacity == if l.size < l.capacity then l.capacity else l.capacity + 1
  {
    if l.size < l.capacity then ChainLevel(l.nodes[l.size := n], l.size + 1, l.capacity)
    else ChainLevel(l.nodes + [n], l.size + 1, l.capacity + 1)
  }

  /** The levels of a buffer after resetLevels: nothing in use, storage
      and stale entries kept. */
  function Emptied(ls: seq<ChainLevel>): (r: seq<ChainLevel>)
    ensures |r| == |ls|
    ensures forall s :: 0 <= s < |ls| ==> r[s] == ls[s].(size := 0)
  {
    seq(|ls|, s requires 0 <= s < |ls| => ls[s].(size := 0))
  }

  /** The window after moveChainForward: current_levels becomes the first
      half, the emptied old_levels the second. */
  function Advance(W: seq<ChainLevel>): (r: seq<ChainLevel>)
    requires |W| == 2 * DEPTH_TO_KEEP
    ensures |r| == |W|
  {
    W[DEPTH_TO_KEEP..] + Emptied(W[..DEPTH_TO_KEEP])
  }

  /** The window addBlock adds into: advanced when the block raises
      maxHeight to the end of the window or past it. */
  function Spread(W: seq<ChainLevel>, min: nat, max: nat, h: nat): (r: seq<ChainLevel>)
    requires |W| == 2 * DEPTH_TO_KEEP
    ensures |r| == |W|
  {
    if h > max && h >= min + 2 * DEPTH_TO_KEEP then Advance(W) else W
  }

  function SpreadMin(min: nat, max: nat, h: nat): nat
  {
    if h > max && h >= min + 2 * DEPTH_TO_KEEP then min + DEPTH_TO_KEEP else min
  }

  /** Raising maxHeight inside the window keeps the invariant. */
  lemma RaiseMaxKeepsWindowOk(W: seq<ChainLevel>, min: nat, max: nat, max': nat, height: nat, index: nat)
    requires WindowOk(W, min, max) && max <= max' < min + 2 * DEPTH_TO_KEEP
    ensures WindowOk(W, min, max')
    ensures MainTipOk(W, min, max, height, index) ==> MainTipOk(W, min, max', height, index)
  {
  }

  /** Heights from the new window start on are found where they were. */
  lemma NodeAtAdvance(W: seq<ChainLevel>, min: nat, h: nat, i: nat)
    requires |W| == 2 * DEPTH_TO_KEEP && min + DEPTH_TO_KEEP <= h
    ensures NodeAt(Advance(W), min + DEPTH_TO_KEEP, h, i) == NodeAt(W, min, h, i)
  {
  }

  /** Moving the window forward when maxHeight reaches its end keeps the
      invariant, and keeps a main tip that stays inside. */
  lemma AdvanceKeepsWindowOk(W: seq<ChainLevel>, min: nat, max: nat, max': nat, height: nat, index: nat)
    requires WindowOk(W, min, max) && max <= max' && min + 2 * DEPTH_TO_KEEP <= max' < min + 3 * DEPTH_TO_KEEP
    ensures WindowOk(Advance(W), min + DEPTH_TO_KEEP, max')
    ensures MainTipOk(W, min, max, height, index) ==>
              MainTipOk(Advance(W), min + DEPTH_TO_KEEP, max', height, index)
  {
    var W' := Advance(W);
    var min' := min + DEPTH_TO_KEEP;
    forall s | 0 <= s < |W'|
      ensures LevelOk(W'[s]) && (W'[s].size > 0 ==> min' + s <= max')
    {
      if s < DEPTH_TO_KEEP {
        assert W'[s] == W[DEPTH_TO_KEEP + s];
      } else {
        assert W'[s] == W[s - DEPTH_TO_KEEP].(size := 0);
      }
    }
    forall s, k | 0 <= s < |W'| && 0 <= k < W'[s].size
      ensures NodeOk(W', min', s, k)
    {
      assert s < DEPTH_TO_KEEP && W'[s] == W[DEPTH_TO_KEEP + s];
      assert NodeOk(W, min, DEPTH_TO_KEEP + s, k);
      if s > 0 && !IsOrphan(W'[s].nodes[k]) {
        NodeAtAdvance(W, min, min' + s - 1, W'[s].nodes[k].parent);
      }
    }
    if min' <= height {
      NodeAtAdvance(W, min, height, index);
    }
  }

  /** Putting a node in use at level s keeps the invariant when the node
      has the level's height and transaction data and, if linked, a linked
      parent; the main tip stays where it was. */
  lemma AppendKeepsWindowOk(W: seq<ChainLevel>, min: nat, max: nat, s: nat, n: ChainNode, height: nat, index: nat)
    requires WindowOk(W, min, max) && 0 < s < |W| && min + s <= max
    requires n.height == min + s && n.txData.Some? && DataFits(n.txData.value)
    requires !IsOrphan(n) ==> Linked(W, min, min + s - 1, n.parent)
    ensures WindowOk(W[s := Append(W[s], n)], min, max)
    ensures MainTipOk(W, min, max, height, index) ==> MainTipOk(W[s := Append(W[s], n)], min, max, height, index)
    ensures forall h: nat, i: nat :: NodeAt(W, min, h, i).Some? ==> NodeAt(W[s := Append(W[s], n)], min, h, i) == NodeAt(W, min, h, i)
  {
    var W' := W[s := Append(W[s], n)];
    forall h: nat, i: nat | NodeAt(W, min, h, i).Some?
      ensures NodeAt(W', min, h, i) == NodeAt(W, min, h, i)
    {
      if h - min == s {
        assert W'[s].nodes[..W[s].size] == W[s].nodes[..W[s].size];
        assert W'[s].nodes[i] == W'[s].nodes[..W[s].size][i];
      }
    }
    forall s2, k | 0 <= s2 < |W'| && 0 <= k < W'[s2].size
      ensures NodeOk(W', min, s2, k)
    {
      if s2 == s && k == W[s].size {
        assert W'[s].nodes[k] == n;
      } else {
        assert NodeAt(W, min, min + s2, k).Some?;
        assert NodeAt(W', min, min + s2, k) == NodeAt(W, min, min + s2, k);
        assert NodeOk(W, min, s2, k);
      }
    }
  }

  /** The window addBlock stores into keeps the invariant, and the main
      tip. */
  lemma SpreadKeepsWindowOk(W: seq<ChainLevel>, min: nat, max: nat, h: nat, height: nat, index: nat)
    requires WindowOk(W, min, max) && Placeable(min, max, h)
    ensures WindowOk(Spread(W, min, max, h), SpreadMin(min, max, h), if h > max then h else max)
    ensures MainTipOk(W, min, max, height, index) ==>
              MainTipOk(Spread(W, min, max, h), SpreadMin(min, max, h), if h > max then h else max, height, index)
  {
    if h > max && h >= min + 2 * DEPTH_TO_KEEP {
      AdvanceKeepsWindowOk(W, min, max, h, height, index);
    } else {
      RaiseMaxKeepsWindowOk(W, min, max, if h > max then h else max, height, index);
    }
  }

  /** Placed, from the steps of addBlock that establish it. */
  lemma PlacedFrom(W0: seq<ChainLevel>, min0: nat, max0: nat, b: Block, now: real,
                   W1: seq<ChainLevel>, min1: nat, max1: nat, node: ChainNode, idx: nat, W: seq<ChainLevel>)
    requires |W0| == 2 * DEPTH_TO_KEEP && W1 == Spread(W0, min0, max0, b.height)
    requires min1 == SpreadMin(min0, max0, b.height) && max1 == (if b.height > max0 then b.height else max0)
    requires min1 < b.height < min1 + 2 * DEPTH_TO_KEEP && WindowOk(W1, min1, max1)
    requires var s := b.height - min1;
             idx == W1[s].size && node == Stored(W1[s - 1], b, now) && W == W1[s := Append(W1[s], node)]
    ensures Placed(W0, min0, max0, b, now, W1, min1, max1, node, idx, W)
  {
  }

  /** The node Append puts in use is found at the level's old size. */
  lemma AppendedNodeAt(W: seq<ChainLevel>, min: nat, s: nat, n: ChainNode)
    requires s < |W| && LevelOk(W[s])
    ensures NodeAt(W[s := Append(W[s], n)], min, min + s, W[s].size) == Some(n)
  {
  }

  /** Two windows with the same level at height h hold the same nodes there. */
  lemma SameLevelNodeAt(W: seq<ChainLevel>, W': seq<ChainLevel>, min: nat, h: nat, i: nat)
    requires |W| == |W'| && min <= h < min + |W| && W'[h - min] == W[h - min]
    ensures NodeAt(W', min, h, i) == NodeAt(W, min, h, i)
  {
  }

  /** Rewriting node k of level s keeps the invariant when height and
      transaction data stay, a linked node stays linked to the same parent,
      and a node that becomes linked gets a linked parent. */
  lemma ReplaceKeepsWindowOk(W: seq<ChainLevel>, min: nat, max: nat, s: nat, k: nat, n: ChainNode,
                             height: nat, index: nat)
    requires WindowOk(W, min, max) && 0 < s < |W| && k < W[s].size
    requires n.height == W[s].nodes[k].height && n.txData == W[s].nodes[k].txData
    requires !IsOrphan(W[s].nodes[k]) ==> !IsOrphan(n) && n.parent == W[s].nodes[k].parent
    requires !IsOrphan(n) ==> Linked(W, min, min + s - 1, n.parent)
    ensures WindowOk(W[s := W[s].(nodes := W[s].nodes[k := n])], min, max)
    ensures MainTipOk(W, min, max, height, index) ==>
              MainTipOk(W[s := W[s].(nodes := W[s].nodes[k := n])], min, max, height, index)
  {
    var W' := W[s := W[s].(nodes := W[s].nodes[k := n])];
    forall s2, k2 | 0 <= s2 < |W'| && 0 <= k2 < W'[s2].size
      ensures NodeOk(W', min, s2, k2)
    {
      assert NodeOk(W, min, s2, k2);
      if s2 > 0 && !(s2 == s && k2 == k) && !IsOrphan(W'[s2].nodes[k2]) {
        assert Linked(W, min, min + s2 - 1, W[s2].nodes[k2].parent);
      }
    }
  }

  // ---------------------------------------------------------------------
  // Linking orphans

  /** An orphan waiting for a parent mined by parent.miner. */
  predicate ChildOf(n: ChainNode, parent: ChainNode)
  {
    IsOrphan(n) && n.parent == parent.miner
  }

  /** A node linked under the parent at index parentIndex: the parent's
      score plus one (uint32) and the parent's ancestorsMined. */
  function LinkTo(n: ChainNode, parentIndex: nat, parent: ChainNode): (r: ChainNode)
    ensures r.height == n.height && r.txData == n.txData && r.miner == n.miner && r.timestamp == n.timestamp
    ensures r.parent == parentIndex && r.ancestorsMined == parent.ancestorsMined
    ensures parent.score + 1 < UINT32_MODULUS ==> r.score == parent.score + 1
  {
    n.(parent := parentIndex, score := Inc32(parent.score), ancestorsMined := parent.ancestorsMined)
  }

  /** What unorphanBlocks does to one of the orphans it links (unOrphan
      clears every flag). */
  function Relink(n: ChainNode, parentIndex: nat, parent: ChainNode): (r: ChainNode)
    ensures !IsOrphan(r) && r.flags == 0
    ensures r == LinkTo(n, parentIndex, parent).(flags := 0)
  {
    UnOrphan(LinkTo(n, parentIndex, parent))
  }

  /** b is a, or a was an orphan and b is a linked under some parent. */
  predicate NodeRelinked(a: ChainNode, b: ChainNode)
  {
    a == b || (IsOrphan(a) && !IsOrphan(b) && b == a.(parent := b.parent, score := b.score,
                                                       ancestorsMined := b.ancestorsMined, flags := 0))
  }

  /** Window W2 is W1 with some orphans linked and nothing else changed. */
  predicate Relinks(W1: seq<ChainLevel>, W2: seq<ChainLevel>)
  {
    |W2| == |W1|
    && (forall s :: 0 <= s < |W1| ==>
          W2[s].size == W1[s].size && W2[s].capacity == W1[s].capacity && |W2[s].nodes| == |W1[s].nodes|)
    && (forall s, k :: 0 <= s < |W1| && 0 <= k < |W1[s].nodes| ==> NodeRelinked(W1[s].nodes[k], W2[s].nodes[k]))
  }

  lemma RelinksTransitive(W1: seq<ChainLevel>, W2: seq<ChainLevel>, W3: seq<ChainLevel>)
    requires Relinks(W1, W2) && Relinks(W2, W3)
    ensures Relinks(W1, W3)
  {
    forall s, k | 0 <= s < |W1| && 0 <= k < |W1[s].nodes|
      ensures NodeRelinked(W1[s].nodes[k], W3[s].nodes[k])
    {
      assert NodeRelinked(W1[s].nodes[k], W2[s].nodes[k]);
      assert NodeRelinked(W2[s].nodes[k], W3[s].nodes[k]);
    }
  }

  /** Linking orphans leaves linked nodes alone and creates no orphan. */
  lemma RelinksKeepLinked(W1: seq<ChainLevel>, W2: seq<ChainLevel>, min: nat, h: nat, i: nat)
    requires Relinks(W1, W2)
    ensures NodeAt(W1, min, h, i).Some? <==> NodeAt(W2, min, h, i).Some?
    ensures Linked(W1, min, h, i) ==> NodeAt(W2, min, h, i) == NodeAt(W1, min, h, i)
    ensures NodeAt(W2, min, h, i).Some? && IsOrphan(NodeAt(W2, min, h, i).value) ==>
              NodeAt(W1, min, h, i) == NodeAt(W2, min, h, i)
  {
    if min <= h < min + |W1| && i < |W1[h - min].nodes| {
      assert NodeRelinked(W1[h - min].nodes[i], W2[h - min].nodes[i]);
    }
  }

  /** Level l with the orphan children of `parent` among its first i
      entries linked under it at parentIndex. */
  function RelinkLevel(l: ChainLevel, parent: ChainNode, parentIndex: nat, i: nat): (r: ChainLevel)
    ensures r.size == l.size && r.capacity == l.capacity && |r.nodes| == |l.nodes|
    ensures forall k :: 0 <= k < |l.nodes| ==>
              r.nodes[k] == if k < i && k < l.size && ChildOf(l.nodes[k], parent)
                            then Relink(l.nodes[k], parentIndex, parent) else l.nodes[k]
  {
    l.(nodes := seq(|l.nodes|, k requires 0 <= k < |l.nodes| =>
                      if k < i && k < l.size && ChildOf(l.nodes[k], parent)
                      then Relink(l.nodes[k], parentIndex, parent) else l.nodes[k]))
  }

  /** The candidate unorphanBlocks reports, as (node, index): the stored
      value of a node linked in W2 that was an orphan in W1, at height at
      least h. */
  predicate NewlyLinked(W1: seq<ChainLevel>, W2: seq<ChainLevel>, min: nat, h: nat, best: Option<(ChainNode, nat)>)
  {
    best.Some? ==>
      var n := best.value.0;
      var i := best.value.1;
      h <= n.height && NodeAt(W2, min, n.height, i) == Some(n) && !IsOrphan(n)
      && NodeAt(W1, min, n.height, i).Some? && IsOrphan(NodeAt(W1, min, n.height, i).value)
  }

  /** A candidate stays valid while further orphans are linked. */
  lemma NewlyLinkedKept(W0: seq<ChainLevel>, W1: seq<ChainLevel>, W2: seq<ChainLevel>, min: nat, h: nat,
                        best: Option<(ChainNode, nat)>)
    requires NewlyLinked(W0, W1, min, h, best) && Relinks(W1, W2)
    ensures NewlyLinked(W0, W2, min, h, best)
  {
    if best.Some? {
      RelinksKeepLinked(W1, W2, min, best.value.0.height, best.value.1);
    }
  }

  /** A candidate found deeper, from a window already relinked from W0,
      is newly linked with respect to W0 too. */
  lemma NewlyLinkedFromEarlier(W0: seq<ChainLevel>, W1: seq<ChainLevel>, W2: seq<ChainLevel>, min: nat, h: nat,
                               best: Option<(ChainNode, nat)>)
    requires Relinks(W0, W1) && NewlyLinked(W1, W2, min, h + 1, best)
    ensures NewlyLinked(W0, W2, min, h, best)
  {
    if best.Some? {
      RelinksKeepLinked(W0, W1, min, best.value.0.height, best.value.1);
    }
  }

  /** What unorphanBlocks keeps true while it scans level h, from the
      window W0 it started on, once it has looked at the first i nodes:
      only orphans have been linked, the levels below h are untouched, the
      orphan children of `parent` among those i are linked under it, and
      `best` is a node linked so far, present exactly when one was. */
  predicate Unorphaning(W0: seq<ChainLevel>, W: seq<ChainLevel>, min: nat, max: nat, parent: ChainNode,
                        parentIndex: nat, h: nat, i: nat, best: Option<(ChainNode, nat)>)
  {
    WindowOk(W, min, max) && |W0| == |W| && Relinks(W0, W) && min < h <= max
    && (forall s :: 0 <= s < h - min ==> W[s] == W0[s])
    && W[h - min] == RelinkLevel(W0[h - min], parent, parentIndex, i)
    && NewlyLinked(W0, W, min, h, best)
    && (best.None? <==> NoChildBefore(W0[h - min], parent, i))
  }

  /** None of the first i nodes in use of level l is an orphan child of
      `parent`. */
  predicate NoChildBefore(l: ChainLevel, parent: ChainNode, i: nat)
  {
    forall k :: 0 <= k < i && k < l.size && k < |l.nodes| ==> !ChildOf(l.nodes[k], parent)
  }

  /** What unorphanBlocks promises, from the window W0 it starts on to the
      window W it leaves: only orphans have been linked, the levels below h
      are untouched, every orphan child of `parent` in use at level h is
      linked under it, and `best` is a node it linked, present exactly
      when one was; above maxHeight nothing changes. */
  predicate Unorphaned(W0: seq<ChainLevel>, W: seq<ChainLevel>, min: nat, max: nat, parent: ChainNode,
                       parentIndex: nat, h: nat, best: Option<(ChainNode, nat)>)
  {
    WindowOk(W, min, max) && Relinks(W0, W) && min < h
    && (forall s :: 0 <= s < h - min && s < |W| ==> W[s] == W0[s])
    && NewlyLinked(W0, W, min, h, best)
    && (h > max ==> W == W0 && best.None?)
    && (h <= max ==>
          W[h - min] == RelinkLevel(W0[h - min], parent, parentIndex, W0[h - min].size)
          && (best.None? <==> NoChildBefore(W0[h - min], parent, W0[h - min].size)))
  }

  /** The result of unorphanBlocks as a value, from window W (starting at
      height min, stored up to max): the best node it links, as (node,
      index), and the window it leaves.  Above max, or at a height the
      window cannot hold, nothing changes. */
  function UnorphanResult(W: seq<ChainLevel>, min: nat, max: nat, cfg: AttackConfig, attacker: bool,
                          parent: ChainNode, parentIndex: nat, h: nat): (Option<(ChainNode, nat)>, seq<ChainLevel>)
    requires ForkRuleOk(cfg, attacker)
    decreases max + 1 - h, 1, 0
  {
    if h > max || h <= min || h - min >= |W| then (None, W)
    else UnorphanScan(W, min, max, cfg, attacker, parent, parentIndex, h, W[h - min].size, 0, None)
  }

  /** unorphanBlocks' loop over the first `size` nodes of level h, from
      node i on with `best` found so far: an orphan child of `parent` is
      linked under it and becomes the best when there was none or the fork
      rule prefers it to the best; then its own orphans are linked one
      height up, and what that finds replaces the best when the fork rule
      prefers it. */
  function UnorphanScan(W: seq<ChainLevel>, min: nat, max: nat, cfg: AttackConfig, attacker: bool,
                        parent: ChainNode, parentIndex: nat, h: nat, size: nat, i: nat,
                        best: Option<(ChainNode, nat)>): (Option<(ChainNode, nat)>, seq<ChainLevel>)
    requires ForkRuleOk(cfg, attacker)
    decreases max + 1 - h, 0, size - i
  {
    if h > max || h <= min || h - min >= |W| || i >= size || i >= |W[h - min].nodes| then (best, W)
    else if !ChildOf(W[h - min].nodes[i], parent) then
      UnorphanScan(W, min, max, cfg, attacker, parent, parentIndex, h, size, i + 1, best)
    else
      var linked := Relink(W[h - min].nodes[i], parentIndex, parent);
      var W1 := W[h - min := W[h - min].(nodes := W[h - min].nodes[i := linked])];
      var picked := if best.None? || PicksSecond(cfg, attacker, best.value.0, linked) then Some((linked, i)) else best;
      var deeper := UnorphanResult(W1, min, max, cfg, attacker, linked, i, h + 1);
      var best' := if deeper.0.Some? && PicksSecond(cfg, attacker, picked.value.0, deeper.0.value.0)
                   then deeper.0 else picked;
      UnorphanScan(deeper.1, min, max, cfg, attacker, parent, parentIndex, h, size, i + 1, best')
  }

  /** The unorphaning scenario of the chain tests: the parent arrives at
      height 1 after an orphan B at height 2 and B's own orphan child C at
      height 3.  Both are relinked, B under the parent and C under B, and
      the best node returned is C, which the honest rule prefers to the
      parent; the linked nodes A and D are left alone. */
  lemma UnorphanChainOfTwo()
    ensures var cfg := AttackConfig(Attacks.AttackNone, 0, 0);
            var P := ChainNode(0, None, 1.0, 1, 1, 1, 0, 0);
            var A := ChainNode(0, None, 3.0, 3, 2, 2, 0, 0);
            var B := ChainNode(1, None, 2.0, 2, 2, 0, CHAIN_NODE_FLAG_ORPHAN, 0);
            var C := ChainNode(2, None, 4.0, 4, 3, 0, CHAIN_NODE_FLAG_ORPHAN, 0);
            var D := ChainNode(0, None, 5.0, 5, 3, 3, 0, 0);
            var W := [ChainLevel([Genesis], 1, 1), ChainLevel([P], 1, 1),
                      ChainLevel([A, B], 2, 2), ChainLevel([C, D], 2, 2)];
            var B' := Relink(B, 0, P);
            var C' := Relink(C, 1, B');
            var u := UnorphanResult(W, 0, 3, cfg, false, P, 0, 2);
            u.0 == Some((C', 0)) && C'.score == 3 && C'.parent == 1 && B'.parent == 0
            && u.1 == [W[0], W[1], ChainLevel([A, B'], 2, 2), ChainLevel([C', D], 2, 2)]
            && PicksSecond(cfg, false, P, C')
  {
    var cfg := AttackConfig(Attacks.AttackNone, 0, 0);
    var P := ChainNode(0, None, 1.0, 1, 1, 1, 0, 0);
    var A := ChainNode(0, None, 3.0, 3, 2, 2, 0, 0);
    var B := ChainNode(1, None, 2.0, 2, 2, 0, CHAIN_NODE_FLAG_ORPHAN, 0);
    var C := ChainNode(2, None, 4.0, 4, 3, 0, CHAIN_NODE_FLAG_ORPHAN, 0);
    var D := ChainNode(0, None, 5.0, 5, 3, 3, 0, 0);
    var W := [ChainLevel([Genesis], 1, 1), ChainLevel([P], 1, 1),
              ChainLevel([A, B], 2, 2), ChainLevel([C, D], 2, 2)];
    var B' := Relink(B, 0, P);
    var C' := Relink(C, 1, B');
    var W1 := [W[0], W[1], ChainLevel([A, B'], 2, 2), ChainLevel([C, D], 2, 2)];
    var W2 := [W[0], W[1], ChainLevel([A, B'], 2, 2), ChainLevel([C', D], 2, 2)];
    assert !ChildOf(A, P) && ChildOf(B, P) && ChildOf(C, B') && !ChildOf(D, B');
    assert [C, D][0 := C'] == [C', D];
    assert W2 == W1[3 := W1[3].(nodes := W1[3].nodes[0 := C'])];
    // One height up, under B': C is linked, D skipped, then the end of the level.
    assert UnorphanResult(W2, 0, 3, cfg, false, C', 0, 4) == (None, W2);
    assert UnorphanScan(W2, 0, 3, cfg, false, B', 1, 3, 2, 2, Some((C', 0))) == (Some((C', 0)), W2);
    assert UnorphanScan(W2, 0, 3, cfg, false, B', 1, 3, 2, 1, Some((C', 0))) == (Some((C', 0)), W2);
    assert UnorphanScan(W1, 0, 3, cfg, false, B', 1, 3, 2, 0, None) == (Some((C', 0)), W2);
    assert UnorphanResult(W1, 0, 3, cfg, false, B', 1, 3) == (Some((C', 0)), W2);
    // At height 2: A skipped, B linked, and C' beats B'.
    assert [A, B][1 := B'] == [A, B'];
    assert W1 == W[2 := W[2].(nodes := W[2].nodes[1 := B'])];
    assert PicksSecond(cfg, false, B', C');
    assert UnorphanScan(W2, 0, 3, cfg, false, P, 0, 2, 2, 2, Some((C', 0))) == (Some((C', 0)), W2);
    assert UnorphanScan(W, 0, 3, cfg, false, P, 0, 2, 2, 1, None) == (Some((C', 0)), W2);
    assert UnorphanScan(W, 0, 3, cfg, false, P, 0, 2, 2, 0, None) == (Some((C', 0)), W2);
  }

  /** Above maxHeight there is nothing to link. */
  lemma UnorphanNothing(W0: seq<ChainLevel>, min: nat, max: nat, parent: ChainNode, parentIndex: nat, h: nat)
    requires WindowOk(W0, min, max) && min < h && max < h
    ensures Unorphaned(W0, W0, min, max, parent, parentIndex, h, None)
  {
    assert Relinks(W0, W0) by {
      forall s, k | 0 <= s < |W0| && 0 <= k < |W0[s].nodes|
        ensures NodeRelinked(W0[s].nodes[k], W0[s].nodes[k])
      {
      }
    }
  }

  /** The scan of level h, before it has looked at any node. */
  lemma UnorphanStart(W0: seq<ChainLevel>, min: nat, max: nat, parent: ChainNode, parentIndex: nat, h: nat)
    requires WindowOk(W0, min, max) && min < h <= max
    ensures Unorphaning(W0, W0, min, max, parent, parentIndex, h, 0, None)
  {
    assert Relinks(W0, W0) by {
      forall s, k | 0 <= s < |W0| && 0 <= k < |W0[s].nodes|
        ensures NodeRelinked(W0[s].nodes[k], W0[s].nodes[k])
      {
      }
    }
    assert RelinkLevel(W0[h - min], parent, parentIndex, 0).nodes == W0[h - min].nodes;
  }

  /** The scan of level h, once it has looked at every node in use. */
  lemma UnorphanDone(W0: seq<ChainLevel>, W: seq<ChainLevel>, min: nat, max: nat, parent: ChainNode,
                     parentIndex: nat, h: nat, best: Option<(ChainNode, nat)>)
    requires min < h && h - min < |W0|
    requires Unorphaning(W0, W, min, max, parent, parentIndex, h, W0[h - min].size, best)
    ensures Unorphaned(W0, W, min, max, parent, parentIndex, h, best)
  {
  }

  /** Skipping a node that is not an orphan child of `parent`. */
  lemma UnorphanSkip(W0: seq<ChainLevel>, W: seq<ChainLevel>, min: nat, max: nat, parent: ChainNode,
                     parentIndex: nat, h: nat, i: nat, best: Option<(ChainNode, nat)>)
    requires Unorphaning(W0, W, min, max, parent, parentIndex, h, i, best)
    requires i < W[h - min].size && !ChildOf(W[h - min].nodes[i], parent)
    ensures Unorphaning(W0, W, min, max, parent, parentIndex, h, i + 1, best)
  {
    var s := h - min;
    assert W[s].nodes[i] == W0[s].nodes[i];
    assert RelinkLevel(W0[s], parent, parentIndex, i + 1) == RelinkLevel(W0[s], parent, parentIndex, i);
  }

  /** The level after linking node i, an orphan child of `parent`, is the
      level with the first i + 1 nodes relinked. */
  lemma RelinkLevelStep(l0: ChainLevel, l: ChainLevel, parent: ChainNode, parentIndex: nat, i: nat, linked: ChainNode)
    requires l == RelinkLevel(l0, parent, parentIndex, i) && i < l0.size && i < |l0.nodes|
    requires ChildOf(l0.nodes[i], parent) && linked == Relink(l0.nodes[i], parentIndex, parent)
    ensures l.(nodes := l.nodes[i := linked]) == RelinkLevel(l0, parent, parentIndex, i + 1)
  {
    assert l.nodes[i := linked] == RelinkLevel(l0, parent, parentIndex, i + 1).nodes;
  }

  /** Replacing one orphan by a linked copy relinks the window. */
  lemma RelinkOne(W: seq<ChainLevel>, W1: seq<ChainLevel>, s: nat, i: nat, linked: ChainNode)
    requires s < |W| && i < |W[s].nodes| && NodeRelinked(W[s].nodes[i], linked)
    requires W1 == W[s := W[s].(nodes := W[s].nodes[i := linked])]
    ensures Relinks(W, W1)
  {
    forall s2, k | 0 <= s2 < |W| && 0 <= k < |W[s2].nodes|
      ensures NodeRelinked(W[s2].nodes[k], W1[s2].nodes[k])
    {
      if s2 != s || k != i {
        assert W1[s2].nodes[k] == W[s2].nodes[k];
      }
    }
  }

  /** Linking node i, an orphan child of the linked `parent` one level
      down, keeps the invariant with either the old candidate or the node
      just linked as the new one. */
  lemma UnorphanLink(W0: seq<ChainLevel>, W: seq<ChainLevel>, W1: seq<ChainLevel>, min: nat, max: nat,
                     parent: ChainNode, parentIndex: nat, h: nat, i: nat, best: Option<(ChainNode, nat)>,
                     linked: ChainNode, best': Option<(ChainNode, nat)>)
    requires Unorphaning(W0, W, min, max, parent, parentIndex, h, i, best)
    requires NodeAt(W0, min, h - 1, parentIndex) == Some(parent) && !IsOrphan(parent)
    requires i < W[h - min].size && ChildOf(W[h - min].nodes[i], parent)
    requires linked == Relink(W[h - min].nodes[i], parentIndex, parent)
    requires W1 == W[h - min := W[h - min].(nodes := W[h - min].nodes[i := linked])]
    requires best' == best || best' == Some((linked, i))
    requires best'.Some?
    ensures Unorphaning(W0, W1, min, max, parent, parentIndex, h, i + 1, best')
    ensures NodeAt(W1, min, h, i) == Some(linked) && !IsOrphan(linked)
  {
    var s := h - min;
    var n := W[s].nodes[i];
    assert n == W0[s].nodes[i];
    assert NodeOk(W, min, s, i);
    assert W[s - 1] == W0[s - 1];
    assert NodeAt(W, min, h - 1, parentIndex) == Some(parent);
    ReplaceKeepsWindowOk(W, min, max, s, i, linked, 0, 0);
    RelinkLevelStep(W0[s], W[s], parent, parentIndex, i, linked);
    RelinkOne(W, W1, s, i, linked);
    RelinksTransitive(W0, W, W1);
    NewlyLinkedKept(W0, W, W1, min, h, best);
    assert NodeAt(W1, min, h, i) == Some(linked);
  }

  /** After the recursion one height up has linked more orphans, the
      invariant holds with the better of the two candidates. */
  lemma UnorphanDeeper(W0: seq<ChainLevel>, W1: seq<ChainLevel>, W2: seq<ChainLevel>, min: nat, max: nat,
                       parent: ChainNode, parentIndex: nat, h: nat, i: nat, best: Option<(ChainNode, nat)>,
                       child: ChainNode, childIndex: nat, aux: Option<(ChainNode, nat)>, best': Option<(ChainNode, nat)>)
    requires Unorphaning(W0, W1, min, max, parent, parentIndex, h, i, best) && best.Some?
    requires Unorphaned(W1, W2, min, max, child, childIndex, h + 1, aux)
    requires best' == best || best' == aux
    requires best'.Some?
    ensures Unorphaning(W0, W2, min, max, parent, parentIndex, h, i, best')
  {
    RelinksTransitive(W0, W1, W2);
    NewlyLinkedKept(W0, W1, W2, min, h, best);
    NewlyLinkedFromEarlier(W0, W1, W2, min, h, aux);
    assert W2[h - min] == W1[h - min];
  }

  // ---------------------------------------------------------------------
  // The ledger: what applying and reverting nodes change outside the store

  /** The transaction window (bits, low, high; empty without a transaction
      state) and the two main-chain counter records. */
  datatype Ledger = Ledger(bits: seq<bool>, low: int, high: int, selfish: SelfishStats, fiftyOne: FiftyOneStats)

  /** The data a node carries; the genesis block carries none. */
  function DataOf(n: ChainNode): TransactionData
  {
    if n.txData.Some? then n.txData.value else TransactionData(0, 0, [])
  }

  /** applyChainNode's effect: the node's transactions marked executed (when
      there is a transaction state) and the node counted in the main chain
      by the configured statistics. */
  function ApplyEffect(l: Ledger, withTx: bool, st: StatsType, n: ChainNode, me: nat, isAttacker: nat -> bool): Ledger
  {
    var l1 := if withTx then l.(bits := ApplyBits(l.bits, DataOf(n)), high := Transactions.Max(l.high, DataOf(n).high)) else l;
    if st == StatsSelfish then l1.(selfish := AddBlockSelfish(l1.selfish, n.miner, me, isAttacker))
    else if st == StatsFiftyOne then l1.(fiftyOne := AddBlockFiftyOne(l1.fiftyOne, n.miner, isAttacker))
    else l1
  }

  /** revertAppliedChainNode's effect: the node's transactions available
      again and the node no longer counted. */
  function RevertEffect(l: Ledger, withTx: bool, st: StatsType, n: ChainNode, me: nat, isAttacker: nat -> bool): Ledger
  {
    var l1 := if withTx then l.(bits := RevertBits(l.bits, DataOf(n)), low := Transactions.Min(l.low, DataOf(n).low)) else l;
    if st == StatsSelfish then l1.(selfish := RemoveBlockSelfish(l1.selfish, n.miner, me, isAttacker))
    else if st == StatsFiftyOne then l1.(fiftyOne := RemoveBlockFiftyOne(l1.fiftyOne, n.miner, isAttacker))
    else l1
  }

  /** Reverting nodes[0], then nodes[1], and so on. */
  function RevertAll(l: Ledger, withTx: bool, st: StatsType, nodes: seq<ChainNode>, me: nat, isAttacker: nat -> bool): Ledger
  {
    if nodes == [] then l
    else RevertEffect(RevertAll(l, withTx, st, nodes[..|nodes| - 1], me, isAttacker), withTx, st,
                      nodes[|nodes| - 1], me, isAttacker)
  }

  /** Applying nodes[|nodes| - 1] down to nodes[i]: a path collected from
      the tip downwards, applied from the bottom up. */
  function ApplyFrom(l: Ledger, withTx: bool, st: StatsType, nodes: seq<ChainNode>, i: nat, me: nat,
                     isAttacker: nat -> bool): Ledger
    decreases |nodes| - i
  {
    if i >= |nodes| then l
    else ApplyEffect(ApplyFrom(l, withTx, st, nodes, i + 1, me, isAttacker), withTx, st, nodes[i], me, isAttacker)
  }

  predicate CountersInRange(l: Ledger)
  {
    SelfishInRange(l.selfish) && FiftyOneInRange(l.fiftyOne)
  }

  /** Reverting a node right after applying it restores the ledger, except
      that high keeps the raise (revert leaves high) and low may drop to the
      data's low (revert lowers it), as long as none of the node's
      transactions was executed before. */
  lemma RevertUndoesApplyEffect(l: Ledger, withTx: bool, st: StatsType, n: ChainNode, me: nat, isAttacker: nat -> bool)
    requires CountersInRange(l)
    requires forall i :: 0 <= i < |l.bits| && Included(DataOf(n), i) ==> !l.bits[i]
    ensures RevertEffect(ApplyEffect(l, withTx, st, n, me, isAttacker), withTx, st, n, me, isAttacker)
            == if withTx then l.(high := Transactions.Max(l.high, DataOf(n).high), low := Transactions.Min(l.low, DataOf(n).low)) else l
  {
    RevertUndoesApply(l.bits, DataOf(n));
    RemoveUndoesAddSelfish(l.selfish, n.miner, me, isAttacker);
    RemoveUndoesAddFiftyOne(l.fiftyOne, n.miner, isAttacker);
  }

  /** Two ledgers that differ only in their window bounds are alike. */
  predicate SameButBounds(a: Ledger, b: Ledger)
  {
    a.bits == b.bits && a.selfish == b.selfish && a.fiftyOne == b.fiftyOne
  }

  /** None of the path's transactions is executed in l, and no two nodes
      of the path share a transaction. */
  ghost predicate PathClear(l: Ledger, p: seq<ChainNode>)
  {
    (forall k, i :: 0 <= k < |p| && 0 <= i < |l.bits| && Included(DataOf(p[k]), i) ==> !l.bits[i])
    && (forall a, b, i :: 0 <= a < b < |p| && Included(DataOf(p[a]), i) ==> !Included(DataOf(p[b]), i))
  }

  /** Applying from index k + 1 is applying the path without its tip from k. */
  lemma {:induction false} ApplyFromShift(l: Ledger, withTx: bool, st: StatsType, p: seq<ChainNode>, k: nat,
                                          me: nat, isAttacker: nat -> bool)
    requires |p| > 0
    ensures ApplyFrom(l, withTx, st, p, k + 1, me, isAttacker) == ApplyFrom(l, withTx, st, p[1..], k, me, isAttacker)
    decreases |p| - k
  {
    if k + 1 < |p| {
      ApplyFromShift(l, withTx, st, p, k + 1, me, isAttacker);
    }
  }

  /** What applying a path from index k does to the bitmap and counters:
      only the path's transactions can become executed, and the counters
      stay within size_t. */
  lemma {:induction false} ApplyFromMarks(l: Ledger, withTx: bool, st: StatsType, p: seq<ChainNode>, k: nat,
                                          me: nat, isAttacker: nat -> bool)
    requires CountersInRange(l)
    ensures var a := ApplyFrom(l, withTx, st, p, k, me, isAttacker);
            CountersInRange(a) && |a.bits| == |l.bits|
            && forall i :: 0 <= i < |l.bits| && a.bits[i] ==>
                 l.bits[i] || exists j :: k <= j < |p| && Included(DataOf(p[j]), i)
    decreases |p| - k
  {
    if k < |p| {
      ApplyFromMarks(l, withTx, st, p, k + 1, me, isAttacker);
      var a1 := ApplyFrom(l, withTx, st, p, k + 1, me, isAttacker);
      IncInRange(a1, withTx, st, p[k], me, isAttacker);
    }
  }

  /** Applying one node keeps the counters within size_t. */
  lemma IncInRange(l: Ledger, withTx: bool, st: StatsType, n: ChainNode, me: nat, isAttacker: nat -> bool)
    requires CountersInRange(l)
    ensures CountersInRange(ApplyEffect(l, withTx, st, n, me, isAttacker))
  {
  }

  /** Reverting a path is reverting its tip first and then the rest. */
  lemma {:induction false} RevertAllCons(l: Ledger, withTx: bool, st: StatsType, p: seq<ChainNode>, me: nat,
                                         isAttacker: nat -> bool)
    requires |p| > 0
    ensures RevertAll(l, withTx, st, p, me, isAttacker)
            == RevertAll(RevertEffect(l, withTx, st, p[0], me, isAttacker), withTx, st, p[1..], me, isAttacker)
  {
    if |p| > 1 {
      RevertAllCons(l, withTx, st, p[..|p| - 1], me, isAttacker);
      assert p[..|p| - 1][1..] == p[1..][..|p[1..]| - 1];
    } else {
      assert p[..0] == [] && p[1..] == [];
    }
  }

  /** The window bounds do not influence what reverting does to the bitmap
      and the counters. */
  lemma {:induction false} RevertAllIgnoresBounds(a: Ledger, b: Ledger, withTx: bool, st: StatsType, p: seq<ChainNode>,
                                                  me: nat, isAttacker: nat -> bool)
    requires SameButBounds(a, b)
    ensures SameButBounds(RevertAll(a, withTx, st, p, me, isAttacker), RevertAll(b, withTx, st, p, me, isAttacker))
  {
    if p != [] {
      RevertAllIgnoresBounds(a, b, withTx, st, p[..|p| - 1], me, isAttacker);
    }
  }

  /** switchChains undone: applying a path collected tip first from the
      bottom up and then reverting it tip first restores the bitmap and
      the counters, when none of its transactions was executed before and
      no two of its nodes share a transaction. */
  lemma {:induction false} SwitchBackAndForth(l: Ledger, withTx: bool, st: StatsType, p: seq<ChainNode>,
                                                  me: nat, isAttacker: nat -> bool)
    requires CountersInRange(l) && PathClear(l, p)
    ensures SameButBounds(RevertAll(ApplyFrom(l, withTx, st, p, 0, me, isAttacker), withTx, st, p, me, isAttacker), l)
  {
    if p != [] {
      var q := p[1..];
      var a1 := ApplyFrom(l, withTx, st, q, 0, me, isAttacker);
      ApplyFromShift(l, withTx, st, p, 0, me, isAttacker);
      ApplyFromMarks(l, withTx, st, q, 0, me, isAttacker);
      forall i | 0 <= i < |a1.bits| && Included(DataOf(p[0]), i)
        ensures !a1.bits[i]
      {
        assert !l.bits[i];
        forall j | 0 <= j < |q| ensures !Included(DataOf(q[j]), i) {
          assert q[j] == p[j + 1];
        }
      }
      RevertUndoesApplyEffect(a1, withTx, st, p[0], me, isAttacker);
      RevertAllCons(ApplyEffect(a1, withTx, st, p[0], me, isAttacker), withTx, st, p, me, isAttacker);
      RevertAllIgnoresBounds(RevertEffect(ApplyEffect(a1, withTx, st, p[0], me, isAttacker), withTx, st, p[0], me, isAttacker),
                             a1, withTx, st, q, me, isAttacker);
      assert PathClear(l, q) by {
        forall k, i | 0 <= k < |q| && 0 <= i < |l.bits| && Included(DataOf(q[k]), i) ensures !l.bits[i] {
          assert q[k] == p[k + 1];
        }
        forall a, b, i | 0 <= a < b < |q| && Included(DataOf(q[a]), i) ensures !Included(DataOf(q[b]), i) {
          assert q[a] == p[a + 1] && q[b] == p[b + 1];
        }
      }
      SwitchBackAndForth(l, withTx, st, q, me, isAttacker);
    }
  }

  // ---------------------------------------------------------------------
  // Walks and their meeting point

  /** The index of the ancestor at height g of node (h, i). */
  function AtHeight(W: seq<ChainLevel>, min: nat, h: nat, i: nat, g: nat): Option<nat>
  {
    if g <= h then Ancestor(W, min, h, i, h - g) else None
  }

  /** The first n nodes of the walk down the parent links from (h, i),
      tip first, as far as the walk goes. */
  function Path(W: seq<ChainLevel>, min: nat, h: nat, i: nat, n: nat): seq<ChainNode>
  {
    if n == 0 then []
    else match PathNode(W, min, h, i, n - 1)
      case None => Path(W, min, h, i, n - 1)
      case Some(x) => Path(W, min, h, i, n - 1) + [x]
  }

  /** Entry k of a walk is the k-th ancestor, for as long as the walk goes. */
  lemma {:induction false} PathEntries(W: seq<ChainLevel>, min: nat, h: nat, i: nat, n: nat, k: nat)
    requires |Path(W, min, h, i, n)| == n && k < n
    ensures PathNode(W, min, h, i, k) == Some(Path(W, min, h, i, n)[k])
  {
    if PathNode(W, min, h, i, n - 1).None? {
      PathShort(W, min, h, i, n - 1);
    } else if k < n - 1 {
      PathEntries(W, min, h, i, n - 1, k);
    }
  }

  lemma {:induction false} PathShort(W: seq<ChainLevel>, min: nat, h: nat, i: nat, n: nat)
    ensures |Path(W, min, h, i, n)| <= n
  {
    if n > 0 {
      PathShort(W, min, h, i, n - 1);
    }
  }

  /** The chains ending at (h1, i1) and (h2, i2) meet at height g inside the
      window: they share their ancestor there and no higher one. */
  predicate MeetAt(W: seq<ChainLevel>, min: nat, h1: nat, i1: nat, h2: nat, i2: nat, g: nat)
  {
    min <= g <= h1 && g <= h2
    && AtHeight(W, min, h1, i1, g).Some? && AtHeight(W, min, h1, i1, g) == AtHeight(W, min, h2, i2, g)
    && forall g' {:trigger AtHeight(W, min, h1, i1, g'), AtHeight(W, min, h2, i2, g')} ::
         g < g' <= h1 && g' <= h2 ==> AtHeight(W, min, h1, i1, g') != AtHeight(W, min, h2, i2, g')
  }

  /** The two chains share no ancestor inside the window. */
  predicate NoMeeting(W: seq<ChainLevel>, min: nat, h1: nat, i1: nat, h2: nat, i2: nat)
  {
    forall g {:trigger AtHeight(W, min, h1, i1, g), AtHeight(W, min, h2, i2, g)} ::
      min <= g <= h1 && g <= h2 ==> AtHeight(W, min, h1, i1, g) != AtHeight(W, min, h2, i2, g)
  }

  /** Chains that meet somewhere in the window do not fail to meet. */
  lemma MeetAtExcludesNoMeeting(W: seq<ChainLevel>, min: nat, h1: nat, i1: nat, h2: nat, i2: nat, g: nat)
    requires MeetAt(W, min, h1, i1, h2, i2, g)
    ensures !NoMeeting(W, min, h1, i1, h2, i2)
  {
  }

  /** The meeting point is unique. */
  lemma MeetAtUnique(W: seq<ChainLevel>, min: nat, h1: nat, i1: nat, h2: nat, i2: nat, g: nat, g': nat)
    requires MeetAt(W, min, h1, i1, h2, i2, g) && MeetAt(W, min, h1, i1, h2, i2, g')
    ensures g == g'
  {
  }

  /** A node on a walk inside the window has the height of its level and,
      above height 0, transaction data. */
  lemma PathNodeOk(W: seq<ChainLevel>, min: nat, max: nat, h: nat, i: nat, k: nat)
    requires WindowOk(W, min, max) && PathNode(W, min, h, i, k).Some?
    ensures k <= h && PathNode(W, min, h, i, k).value.height == h - k
    ensures h - k > 0 ==> PathNode(W, min, h, i, k).value.txData.Some?
                          && DataFits(PathNode(W, min, h, i, k).value.txData.value)
  {
    var j := Ancestor(W, min, h, i, k).value;
    AncestorInUse(W, min, h, i, k);
    assert NodeOk(W, min, h - k - min, j);
  }

  /** A node in use sits at its level's height. */
  lemma NodeAtHeight(W: seq<ChainLevel>, min: nat, max: nat, h: nat, i: nat)
    requires WindowOk(W, min, max) && NodeAt(W, min, h, i).Some?
    ensures NodeAt(W, min, h, i).value.height == h && h <= max
    ensures h > 0 ==> NodeAt(W, min, h, i).value.txData.Some? && DataFits(NodeAt(W, min, h, i).value.txData.value)
  {
    assert NodeOk(W, min, h - min, i);
  }

  /** `path` is the start of the walk down the parent links from the
      linked node (h, i), tip first, and the walk has reached the linked
      node j below it. */
  predicate Walk(W: seq<ChainLevel>, min: nat, h: nat, i: nat, path: seq<ChainNode>, j: nat)
  {
    Linked(W, min, h, i) && |path| <= h && path == Path(W, min, h, i, |path|)
    && Ancestor(W, min, h, i, |path|) == Some(j) && Linked(W, min, h - |path|, j)
  }

  /** One step of a walk: the node n the walk has reached carries the
      height of its level and transaction data, and following its parent
      link extends the walk by n. */
  lemma WalkStep(W: seq<ChainLevel>, min: nat, max: nat, h: nat, i: nat, path: seq<ChainNode>, j: nat,
                 n: ChainNode)
    requires WindowOk(W, min, max) && Walk(W, min, h, i, path, j)
    requires min < h - |path| && NodeAt(W, min, h - |path|, j) == Some(n)
    ensures n.height == h - |path| && n.txData.Some? && DataFits(n.txData.value)
    ensures Walk(W, min, h, i, path + [n], n.parent)
  {
    var g := h - |path|;
    AncestorStep(W, min, max, h, i, |path|);
    AncestorInUse(W, min, h, i, |path|);
    NodeAtHeight(W, min, max, g, j);
    LinkedParent(W, min, max, g, j);
  }

  /** Every node on a walk sits at its own height above the walk's end
      and carries transaction data. */
  lemma {:induction false} WalkNodes(W: seq<ChainLevel>, min: nat, max: nat, h: nat, i: nat, path: seq<ChainNode>,
                                     j: nat)
    requires WindowOk(W, min, max) && Walk(W, min, h, i, path, j)
    ensures forall k :: 0 <= k < |path| ==>
              path[k].height == h - k && path[k].txData.Some? && DataFits(path[k].txData.value)
  {
    forall k | 0 <= k < |path|
      ensures path[k].height == h - k && path[k].txData.Some? && DataFits(path[k].txData.value)
    {
      PathEntries(W, min, h, i, |path|, k);
      PathNodeOk(W, min, max, h, i, k);
    }
  }

  /** The two chains ending at (h1, i1) and (h2, i2) differ at every
      height above g, up to the lower tip. */
  predicate Apart(W: seq<ChainLevel>, min: nat, h1: nat, i1: nat, h2: nat, i2: nat, g: nat)
  {
    forall g' {:trigger AtHeight(W, min, h1, i1, g'), AtHeight(W, min, h2, i2, g')} ::
      g < g' <= h1 && g' <= h2 ==> AtHeight(W, min, h1, i1, g') != AtHeight(W, min, h2, i2, g')
  }

  /** Both walks of switchChains' third loop have come down to height g:
      the main chain's from (h1, i1) at node j, the new chain's from
      (h2, i2) at node w, and the chains differ above g. */
  predicate Walking(W: seq<ChainLevel>, min: nat, h1: nat, i1: nat, path1: seq<ChainNode>,
                    h2: nat, i2: nat, path2: seq<ChainNode>, g: nat, j: nat, w: nat)
  {
    g == h1 - |path1| && Walk(W, min, h1, i1, path1, j)
    && g == h2 - |path2| && Walk(W, min, h2, i2, path2, w)
    && Apart(W, min, h1, i1, h2, i2, g)
  }

  /** Where a walk has come to is its ancestor at that height. */
  lemma WalkAtHeight(W: seq<ChainLevel>, min: nat, h: nat, i: nat, path: seq<ChainNode>, j: nat)
    requires Walk(W, min, h, i, path, j)
    ensures AtHeight(W, min, h, i, h - |path|) == Some(j)
  {
  }

  /** Both walks stand on linked nodes inside the window. */
  lemma WalkingInUse(W: seq<ChainLevel>, min: nat, h1: nat, i1: nat, path1: seq<ChainNode>,
                     h2: nat, i2: nat, path2: seq<ChainNode>, g: nat, j: nat, w: nat)
    requires Walking(W, min, h1, i1, path1, h2, i2, path2, g, j, w)
    ensures min <= g && Linked(W, min, g, j) && Linked(W, min, g, w)
  {
  }

  /** When the walks stand on different nodes above the window start, both
      step down one level and the chains are still apart. */
  lemma WalkingStep(W: seq<ChainLevel>, min: nat, max: nat, h1: nat, i1: nat, path1: seq<ChainNode>,
                    h2: nat, i2: nat, path2: seq<ChainNode>, g: nat, j: nat, w: nat, a: ChainNode, b: ChainNode)
    requires WindowOk(W, min, max) && Walking(W, min, h1, i1, path1, h2, i2, path2, g, j, w)
    requires j != w && min < g && NodeAt(W, min, g, j) == Some(a) && NodeAt(W, min, g, w) == Some(b)
    ensures a.height == g && a.txData.Some? && DataFits(a.txData.value)
    ensures Walking(W, min, h1, i1, path1 + [a], h2, i2, path2 + [b], g - 1, a.parent, b.parent)
  {
    WalkStep(W, min, max, h1, i1, path1, j, a);
    WalkStep(W, min, max, h2, i2, path2, w, b);
    WalkAtHeight(W, min, h1, i1, path1, j);
    WalkAtHeight(W, min, h2, i2, path2, w);
  }

  /** Walks that reach the same node have found the meeting point. */
  lemma WalkingMeets(W: seq<ChainLevel>, min: nat, h1: nat, i1: nat, path1: seq<ChainNode>,
                     h2: nat, i2: nat, path2: seq<ChainNode>, g: nat, j: nat)
    requires Walking(W, min, h1, i1, path1, h2, i2, path2, g, j, j)
    ensures MeetAt(W, min, h1, i1, h2, i2, g) && !NoMeeting(W, min, h1, i1, h2, i2)
  {
    WalkAtHeight(W, min, h1, i1, path1, j);
    WalkAtHeight(W, min, h2, i2, path2, j);
  }

  /** Walks that stand on different nodes at the window start have no
      meeting point inside the window. */
  lemma WalkingApartAtBottom(W: seq<ChainLevel>, min: nat, h1: nat, i1: nat, path1: seq<ChainNode>,
                             h2: nat, i2: nat, path2: seq<ChainNode>, j: nat, w: nat)
    requires Walking(W, min, h1, i1, path1, h2, i2, path2, min, j, w) && j != w
    ensures NoMeeting(W, min, h1, i1, h2, i2)
  {
    WalkAtHeight(W, min, h1, i1, path1, j);
    WalkAtHeight(W, min, h2, i2, path2, w);
  }

  /** The outcome of switchChains: `path1`, the start of the walk down
      from the old tip (h1, i1), and `path2`, the start of the walk down
      from the new tip (h2, i2), both end just above the height where the
      two chains meet. */
  predicate Forked(W: seq<ChainLevel>, min: nat, h1: nat, i1: nat, path1: seq<ChainNode>,
                   h2: nat, i2: nat, path2: seq<ChainNode>)
  {
    |path1| <= h1 && |path2| == h2 - (h1 - |path1|)
    && MeetAt(W, min, h1, i1, h2, i2, h1 - |path1|)
    && path1 == Path(W, min, h1, i1, |path1|) && path2 == Path(W, min, h2, i2, |path2|)
  }

  /** Walks that have come down to the lower of the two tips are apart:
      there is no height above it below both tips. */
  lemma WalkingStart(W: seq<ChainLevel>, min: nat, h1: nat, i1: nat, path1: seq<ChainNode>,
                     h2: nat, i2: nat, path2: seq<ChainNode>, g: nat, j: nat, w: nat)
    requires Walk(W, min, h1, i1, path1, j) && Walk(W, min, h2, i2, path2, w)
    requires g == h1 - |path1| && g == h2 - |path2| && (g == h1 || g == h2)
    ensures Walking(W, min, h1, i1, path1, h2, i2, path2, g, j, w)
  {
  }

  /** Walks that reach the same node: the chains meet there, the walks are
      the paths down to it, and the new chain's walk carries, tip first,
      nodes at their own heights with transaction data. */
  lemma WalkingJoined(W: seq<ChainLevel>, min: nat, max: nat, h1: nat, i1: nat, path1: seq<ChainNode>,
                      h2: nat, i2: nat, path2: seq<ChainNode>, g: nat, j: nat)
    requires WindowOk(W, min, max) && Walking(W, min, h1, i1, path1, h2, i2, path2, g, j, j)
    ensures g == h1 - |path1| && Forked(W, min, h1, i1, path1, h2, i2, path2)
    ensures !NoMeeting(W, min, h1, i1, h2, i2)
    ensures h2 <= max && MainTipOk(W, min, max, h2, i2)
    ensures (if path2 == [] then g else path2[0].height) == h2
    ensures forall k :: 0 <= k < |path2| ==> path2[k].txData.Some? && DataFits(path2[k].txData.value)
  {
    WalkingMeets(W, min, h1, i1, path1, h2, i2, path2, g, j);
    WalkNodes(W, min, max, h2, i2, path2, j);
    NodeAtHeight(W, min, max, h2, i2);
  }

  lemma RevertAllSnoc(l: Ledger, withTx: bool, st: StatsType, nodes: seq<ChainNode>, n: ChainNode, me: nat,
                      isAttacker: nat -> bool)
    ensures RevertAll(l, withTx, st, nodes + [n], me, isAttacker)
            == RevertEffect(RevertAll(l, withTx, st, nodes, me, isAttacker), withTx, st, n, me, isAttacker)
  {
    assert (nodes + [n])[..|nodes|] == nodes;
  }

  /** The fork rule, asked about the main tip (h, i) and the node
      (nh, ni), returns the latter: it is the same node, or the rule picks
      its second argument. */
  predicate Prefers(W: seq<ChainLevel>, min: nat, cfg: AttackConfig, attacker: bool, h: nat, i: nat, nh: nat, ni: nat)
  {
    NodeAt(W, min, h, i).Some? && NodeAt(W, min, nh, ni).Some? && ForkRuleOk(cfg, attacker)
    && ((h == nh && i == ni) || PicksSecond(cfg, attacker, NodeAt(W, min, h, i).value, NodeAt(W, min, nh, ni).value))
  }

  // ---------------------------------------------------------------------
  // The effects outside the store, read from the heap

  ghost function TxFrame(tx: TransactionState?): set<object>
    reads tx
  {
    if tx == null then {} else var t: TransactionState := tx; {t, t.transactionsBitmap}
  }

  /** The ledger a transaction state (or none) and a statistics state hold. */
  ghost function LedgerOf(tx: TransactionState?, stats: StatsState): Ledger
    reads stats, TxFrame(tx)
  {
    if tx == null then Ledger([], 0, 0, stats.selfishStats, stats.fiftyOneStats)
    else Ledger(tx.transactionsBitmap[..], tx.low, tx.high, stats.selfishStats, stats.fiftyOneStats)
  }

  /** The parts of a statistics state applying and reverting never touch. */
  ghost function StatsShape(stats: StatsState): (StatsType, array<BlockStat>, nat, array<BlockStat>, nat)
    reads stats
  {
    (stats.statsType, stats.blockStats, stats.blockStatsSize, stats.minedBlockStats, stats.minedBlockStatsSize)
  }

  ghost predicate TxOk(tx: TransactionState?)
    reads tx
  {
    tx != null ==> tx.Valid()
  }

  /** resetLevels: every level of the buffer virtually empty; storage kept. */
  method ResetLevels(levels: array<ChainLevel>)
    requires levels.Length == DEPTH_TO_KEEP
    modifies levels
    ensures levels[..] == Emptied(old(levels[..]))
  {
    for i := 0 to DEPTH_TO_KEEP
      invariant forall k :: 0 <= k < i ==> levels[k] == old(levels[k]).(size := 0)
      invariant forall k :: i <= k < DEPTH_TO_KEEP ==> levels[k] == old(levels[k])
    {
      levels[i] := levels[i].(size := 0);
    }
  }

  /** The parent search of addBlock: the first node in use whose miner is
      the block's parent miner, if it is linked. */
  method SeekParent(level: ChainLevel, miner: nat) returns (found: bool, index: nat)
    requires LevelOk(level)
    ensures found <==> FirstWithMiner(level, miner).Some? && !IsOrphan(level.nodes[FirstWithMiner(level, miner).value])
    ensures found ==> index == FirstWithMiner(level, miner).value
  {
    found, index := false, 0;
    var i := 0;
    while i < level.size
      invariant i <= level.size
      invariant forall k :: 0 <= k < i ==> level.nodes[k].miner != miner
    {
      if level.nodes[i].miner == miner {
        if !IsOrphan(level.nodes[i]) {
          found, index := true, i;
        }
        return;
      }
      i := i + 1;
    }
  }

  /** The node addBlock stores for a block received at `now`, before it is
      linked or flagged. */
  function Received(b: Block, now: real): (r: ChainNode)
    ensures r.parent == b.prevBlockMiner && r.timestamp == now && r.height == b.height && r.miner == b.miner
    ensures r.txData == Some(b.transactionData) && !IsOrphan(r) && r.score == 0 && r.ancestorsMined == 0
  {
    PopulateChainNode(b).(timestamp := now)
  }

  /** The node addBlock puts in use for block b above the level `below`:
      linked under the first node of `below` mined by the parent's miner
      when that node is linked, an orphan otherwise. */
  function Stored(below: ChainLevel, b: Block, now: real): ChainNode
    requires LevelOk(below)
  {
    var p := FirstWithMiner(below, b.prevBlockMiner);
    if p.Some? && !IsOrphan(below.nodes[p.value]) then LinkTo(Received(b, now), p.value, below.nodes[p.value])
    else SetOrphan(Received(b, now))
  }

  /** The node of block b, as addBlock builds it: populated, stamped with
      the arrival time, then linked when the parent search succeeds and
      flagged orphan when it fails. */
  method NewNode(below: ChainLevel, b: Block, now: real) returns (node: ChainNode)
    requires LevelOk(below)
    ensures node == Stored(below, b, now)
  {
    var found, p := SeekParent(below, b.prevBlockMiner);
    node := if found then LinkTo(Received(b, now), p, below.nodes[p]) else SetOrphan(Received(b, now));
  }

  /** The node stored for block b keeps the block's height, miner and data
      and the arrival time; it is linked exactly when the first node of
      `below` mined by the parent's miner is linked, and then it points at
      that node and takes its score plus one and its ancestorsMined; an
      orphan keeps the parent's miner, score 0 and ancestorsMined 0. */
  lemma StoredLinking(below: ChainLevel, b: Block, now: real)
    requires LevelOk(below)
    ensures var n := Stored(below, b, now);
            var p := FirstWithMiner(below, b.prevBlockMiner);
            n.height == b.height && n.miner == b.miner && n.timestamp == now && n.txData == Some(b.transactionData)
            && (!IsOrphan(n) <==> p.Some? && !IsOrphan(below.nodes[p.value]))
            && (!IsOrphan(n) ==>
                  n.parent == p.value && below.nodes[n.parent].miner == b.prevBlockMiner
                  && n.score == Inc32(below.nodes[n.parent].score)
                  && n.ancestorsMined == below.nodes[n.parent].ancestorsMined)
            && (IsOrphan(n) ==> n.parent == b.prevBlockMiner && n.score == 0 && n.ancestorsMined == 0)
  {
    var r := Received(b, now);
    assert r.flags == 0;
  }

  /** addBlock can store a block of height h: once the window has moved
      for it, both its level and the parent level h - 1 are inside.
      Otherwise one of the level lookups aborts. */
  predicate Placeable(min: nat, max: nat, h: nat)
  {
    var min1 := SpreadMin(min, max, h);
    min1 < h < min1 + 2 * DEPTH_TO_KEEP
  }

  /** The first half of addBlock, from window W0 (start min0, maxHeight
      max0): maxHeight raised to the block's height, the window moved when
      needed (W1 from min1), and `node` put in use at index idx of the
      block's level, giving W. */
  predicate Placed(W0: seq<ChainLevel>, min0: nat, max0: nat, b: Block, now: real,
                   W1: seq<ChainLevel>, min1: nat, max1: nat, node: ChainNode, idx: nat, W: seq<ChainLevel>)
  {
    |W0| == 2 * DEPTH_TO_KEEP && Placeable(min0, max0, b.height)
    && W1 == Spread(W0, min0, max0, b.height) && min1 == SpreadMin(min0, max0, b.height)
    && max1 == (if b.height > max0 then b.height else max0) && WindowOk(W1, min1, max1)
    && var s := b.height - min1;
       idx == W1[s].size && node == Stored(W1[s - 1], b, now) && W == W1[s := Append(W1[s], node)]
  }

  /** The node addBlock stored is at index idx of its level. */
  lemma PlacedNodeAt(W0: seq<ChainLevel>, min0: nat, max0: nat, b: Block, now: real,
                     W1: seq<ChainLevel>, min1: nat, max1: nat, node: ChainNode, idx: nat, W: seq<ChainLevel>)
    requires Placed(W0, min0, max0, b, now, W1, min1, max1, node, idx, W)
    ensures min1 < b.height && NodeAt(W, min1, b.height, idx) == Some(node)
  {
    AppendedNodeAt(W1, min1, b.height - min1, node);
  }

  /** The node addBlock hands to maybeSwitchChains, at (target.0,
      target.1) of the window W reached from A by unorphanBlocks above the
      new node (h, idx) (UnorphanResult, stored up to max): the best node
      that call linked when there is one and the fork rule prefers it to
      the new node, the new node otherwise.  Either way a linked node, and
      one the call linked unless it is the new node. */
  predicate Candidate(A: seq<ChainLevel>, W: seq<ChainLevel>, min: nat, max: nat, cfg: AttackConfig, attacker: bool,
                      node: ChainNode, h: nat, idx: nat, target: (nat, nat))
  {
    ForkRuleOk(cfg, attacker)
    && NodeAt(W, min, target.0, target.1).Some? && !IsOrphan(NodeAt(W, min, target.0, target.1).value)
    && (target == (h, idx)
        || (NewlyLinked(A, W, min, h + 1, Some((NodeAt(W, min, target.0, target.1).value, target.1)))
            && PicksSecond(cfg, attacker, node, NodeAt(W, min, target.0, target.1).value)))
    && var u := UnorphanResult(A, min, max, cfg, attacker, node, idx, h + 1);
       W == u.1
       && target == if u.0.Some? && PicksSecond(cfg, attacker, node, u.0.value.0)
                    then (u.0.value.0.height, u.0.value.1) else (h, idx)
  }

  /** maybeSwitchChains, asked about the candidate at target of window W
      (start min) with the main tip at (H, M), aborts: the main tip has
      left the window, or the rule prefers the candidate and the two chains
      share no node inside the window. */
  predicate Aborts(W: seq<ChainLevel>, min: nat, cfg: AttackConfig, attacker: bool, H: nat, M: nat, target: (nat, nat))
  {
    H < min || (Prefers(W, min, cfg, attacker, H, M, target.0, target.1) && NoMeeting(W, min, H, M, target.0, target.1))
  }

  /** What maybeSwitchChains leaves when it does not abort: the main tip
      moved from (H, M) to the candidate at target, with the ledger L0
      taken down the one chain and up the other, when the fork rule prefers
      the candidate; tip and ledger unchanged otherwise. */
  predicate Switched(W: seq<ChainLevel>, min: nat, cfg: AttackConfig, attacker: bool, H: nat, M: nat,
                     target: (nat, nat), reverted: seq<ChainNode>, applied: seq<ChainNode>, height: nat, index: nat,
                     L0: Ledger, L: Ledger, withTx: bool, st: StatsType, me: nat, isAttacker: nat -> bool)
  {
    if Prefers(W, min, cfg, attacker, H, M, target.0, target.1) then
      height == target.0 && index == target.1 && Forked(W, min, H, M, reverted, target.0, target.1, applied)
      && L == ApplyFrom(RevertAll(L0, withTx, st, reverted, me, isAttacker), withTx, st, applied, 0, me, isAttacker)
    else
      height == H && index == M && L == L0
  }

  /** The node addBlock stored for block b, at index idx of its level:
      it keeps the block's height, miner and data and the arrival time; a
      linked one points at `parent`, the first node one level down mined by
      the parent's miner, which later linking of orphans leaves in place,
      and takes its ancestorsMined and its score plus one; an orphan has
      ancestorsMined 0. */
  lemma PlacedParent(W0: seq<ChainLevel>, min0: nat, max0: nat, b: Block, now: real,
                     W1: seq<ChainLevel>, min1: nat, max1: nat, node: ChainNode, idx: nat,
                     A: seq<ChainLevel>, W: seq<ChainLevel>)
    returns (parent: ChainNode)
    requires Placed(W0, min0, max0, b, now, W1, min1, max1, node, idx, A)
    requires !IsOrphan(node) ==> Relinks(A, W)
    ensures min1 < b.height && NodeAt(A, min1, b.height, idx) == Some(node)
    ensures node.height == b.height && node.miner == b.miner && node.timestamp == now
    ensures node.txData == Some(b.transactionData)
    ensures !IsOrphan(node) ==>
              NodeAt(W, min1, b.height - 1, node.parent) == Some(parent)
              && !IsOrphan(parent) && parent.miner == b.prevBlockMiner
              && node.ancestorsMined == parent.ancestorsMined && node.score == Inc32(parent.score)
    ensures IsOrphan(node) ==> node.ancestorsMined == 0
  {
    var s := b.height - min1;
    StoredLinking(W1[s - 1], b, now);
    AppendedNodeAt(W1, min1, s, node);
    parent := Genesis;
    if !IsOrphan(node) {
      parent := W1[s - 1].nodes[node.parent];
      assert A[s - 1] == W1[s - 1];
      assert NodeAt(A, min1, b.height - 1, node.parent) == Some(parent);
      RelinksKeepLinked(A, W, min1, b.height - 1, node.parent);
    }
  }

  /** The store of one node (struct Blockchain). */
  class Blockchain {
    var currentLevels: array<ChainLevel>
    var oldLevels: array<ChainLevel>
    var mainChainIndex: nat
    var height: nat
    var maxHeight: nat
    var minHeight: nat

    ghost function Window(): seq<ChainLevel>
      reads this`oldLevels, this`currentLevels, oldLevels, currentLevels
    {
      oldLevels[..] + currentLevels[..]
    }

    ghost predicate Buffers()
      reads this`oldLevels, this`currentLevels
    {
      oldLevels != currentLevels && oldLevels.Length == DEPTH_TO_KEEP && currentLevels.Length == DEPTH_TO_KEEP
    }

    /** The two buffers are a and b, in either order. */
    ghost predicate SameBuffers(a: array<ChainLevel>, b: array<ChainLevel>)
      reads this`oldLevels, this`currentLevels
    {
      (oldLevels == a && currentLevels == b) || (oldLevels == b && currentLevels == a)
    }

    ghost predicate Shaped()
      reads this`oldLevels, this`currentLevels, this`minHeight, this`maxHeight, oldLevels, currentLevels
    {
      Buffers() && WindowOk(Window(), minHeight, maxHeight)
    }

    ghost predicate Valid()
      reads this, oldLevels, currentLevels
    {
      Shaped() && MainTipOk(Window(), minHeight, maxHeight, height, mainChainIndex)
    }

    /** initBlockchain: two buffers of empty levels, the genesis block alone
        at height 0, the main tip on it. */
    constructor ()
      ensures Valid() && fresh(oldLevels) && fresh(currentLevels)
      ensures Window() == [GenesisLevel] + seq(2 * DEPTH_TO_KEEP - 1, _ => EmptyLevel)
      ensures mainChainIndex == 0 && height == 0 && maxHeight == 0 && minHeight == 0
    {
      currentLevels := new ChainLevel[DEPTH_TO_KEEP](_ => EmptyLevel);
      oldLevels := new ChainLevel[DEPTH_TO_KEEP](_ => EmptyLevel);
      mainChainIndex := 0;
      minHeight := 0;
      height := 0;
      maxHeight := 0;
      new;
      oldLevels[0] := GenesisLevel;
      assert Window() == [GenesisLevel] + seq(2 * DEPTH_TO_KEEP - 1, _ => EmptyLevel);
    }

    /** getChainLevel: the level of height h, None (an abort) outside the
        window. */
    function GetChainLevel(h: nat): (r: Option<ChainLevel>)
      reads this`oldLevels, this`currentLevels, this`minHeight, oldLevels, currentLevels
      requires Buffers()
      ensures r.None? <==> !(minHeight <= h < minHeight + 2 * DEPTH_TO_KEEP)
      ensures r.Some? ==> r.value == Window()[h - minHeight]
    {
      match ChainLevelSlot(minHeight, h)
      case None => None
      case Some(OldSlot(i)) => Some(oldLevels[i])
      case Some(CurrentSlot(i)) => Some(currentLevels[i])
    }

    /** getChainNode, for the indices in use. */
    function GetChainNode(h: nat, i: nat): (r: Option<ChainNode>)
      reads this`oldLevels, this`currentLevels, this`minHeight, oldLevels, currentLevels
      requires Buffers()
      ensures r == NodeAt(Window(), minHeight, h, i)
    {
      match GetChainLevel(h)
      case None => None
      case Some(l) => if i < l.size && i < |l.nodes| then Some(l.nodes[i]) else None
    }

    /** getMainChain: the main tip, a linked node at the chain height; None
        (an abort) once the window has moved past it. */
    function GetMainChain(): (r: Option<ChainNode>)
      reads this, oldLevels, currentLevels
      requires Valid()
      ensures r.Some? <==> minHeight <= height
      ensures r == NodeAt(Window(), minHeight, height, mainChainIndex)
      ensures r.Some? ==> !IsOrphan(r.value) && r.value.height == height
    {
      NodeAtHeightFor(height, mainChainIndex);
      GetChainNode(height, mainChainIndex)
    }

    /** A block on top of the main tip always has a place in the window. */
    lemma TipPlaceable()
      requires Valid() && minHeight <= height
      ensures Placeable(minHeight, maxHeight, height + 1)
    {
      assert height <= maxHeight < minHeight + 2 * DEPTH_TO_KEEP;
    }

    lemma NodeAtHeightFor(h: nat, i: nat)
      requires Shaped()
      ensures NodeAt(Window(), minHeight, h, i).Some? ==> NodeAt(Window(), minHeight, h, i).value.height == h
    {
      if NodeAt(Window(), minHeight, h, i).Some? {
        NodeAtHeight(Window(), minHeight, maxHeight, h, i);
      }
    }

    /** Writing the level of height h through the buffer it lives in. */
    method SetChainLevel(h: nat, l: ChainLevel)
      requires Buffers() && minHeight <= h < minHeight + 2 * DEPTH_TO_KEEP
      modifies oldLevels, currentLevels
      ensures Window() == old(Window())[h - minHeight := l]
    {
      ChainLevelSlotWindow(minHeight, h);
      match ChainLevelSlot(minHeight, h).value
      case OldSlot(i) =>
        oldLevels[i] := l;
        assert oldLevels[..] == old(oldLevels[..])[i := l];
      case CurrentSlot(i) =>
        currentLevels[i] := l;
        assert currentLevels[..] == old(currentLevels[..])[i := l];
    }

    /** moveChainForward: the old buffer is emptied and becomes the current
        one, and the window starts DEPTH_TO_KEEP heights later. */
    method MoveChainForward()
      requires Buffers()
      modifies this`oldLevels, this`currentLevels, this`minHeight, oldLevels
      ensures Buffers() && oldLevels == old(currentLevels) && currentLevels == old(oldLevels)
      ensures Window() == Advance(old(Window()))
      ensures minHeight == old(minHeight) + DEPTH_TO_KEEP
    {
      ghost var W := Window();
      assert W[DEPTH_TO_KEEP..] == currentLevels[..] && W[..DEPTH_TO_KEEP] == oldLevels[..];
      ResetLevels(oldLevels);
      var aux := oldLevels;
      oldLevels := currentLevels;
      currentLevels := aux;
      minHeight := minHeight + DEPTH_TO_KEEP;
    }

    /** findChainNode: above maxHeight there is none; below the window the
        lookup aborts; otherwise the first node in use mined by `miner`,
        orphan or not. */
    method FindChainNode(miner: nat, h: nat) returns (r: Result<Option<nat>, ChainError>)
      requires Shaped()
      ensures h > maxHeight ==> r == Success(None)
      ensures h <= maxHeight && h < minHeight ==> r == Failure(HeightOutOfWindow)
      ensures minHeight <= h <= maxHeight ==> r == Success(FirstWithMiner(Window()[h - minHeight], miner))
    {
      if h > maxHeight {
        return Success(None);
      }
      var found := GetChainLevel(h);
      if found.None? {
        return Failure(HeightOutOfWindow);
      }
      var level := found.value;
      assert LevelOk(level);
      var i := 0;
      while i < level.size
        invariant i <= level.size
        invariant forall k :: 0 <= k < i ==> level.nodes[k].miner != miner
      {
        if level.nodes[i].miner == miner {
          return Success(Some(i));
        }
        i := i + 1;
      }
      return Success(None);
    }

    /** applyChainNode: the node's transactions executed, the chain height
        set to the node's, the node counted by the statistics in force. */
    method ApplyChainNode(tx: TransactionState?, node: ChainNode, me: nat, stats: StatsState, isAttacker: nat -> bool)
      requires TxOk(tx) && (tx != null ==> node.txData.Some? && DataFits(node.txData.value))
      modifies this`height, stats, TxFrame(tx)
      ensures height == node.height
      ensures Window() == old(Window())
      ensures TxOk(tx) && TxFrame(tx) == old(TxFrame(tx)) && StatsShape(stats) == old(StatsShape(stats))
      ensures LedgerOf(tx, stats) == ApplyEffect(old(LedgerOf(tx, stats)), tx != null, stats.statsType, node, me, isAttacker)
    {
      if tx != null {
        tx.ApplyBlockTransactions(node.txData.value);
      }
      height := node.height;
      if stats.statsType == StatsSelfish {
        var _ := stats.StatsAddBlockSelfish(node.miner, me, isAttacker);
      } else if stats.statsType == StatsFiftyOne {
        var _ := stats.StatsAddBlockFiftyOne(node.miner, isAttacker);
      }
    }

    /** revertAppliedChainNode: the node's transactions available again,
        the main tip moved to the node's parent (height minus one, as a
        size_t), the node no longer counted. */
    method RevertAppliedChainNode(tx: TransactionState?, node: ChainNode, me: nat, stats: StatsState,
                                  isAttacker: nat -> bool)
      requires TxOk(tx) && (tx != null ==> node.txData.Some? && DataFits(node.txData.value))
      modifies this`height, this`mainChainIndex, stats, TxFrame(tx)
      ensures height == if node.height > 0 then node.height - 1 else SIZE_T_MODULUS - 1
      ensures mainChainIndex == node.parent
      ensures Window() == old(Window())
      ensures TxOk(tx) && TxFrame(tx) == old(TxFrame(tx)) && StatsShape(stats) == old(StatsShape(stats))
      ensures LedgerOf(tx, stats) == RevertEffect(old(LedgerOf(tx, stats)), tx != null, stats.statsType, node, me, isAttacker)
    {
      if tx != null {
        tx.RevertAppliedBlockTransactions(node.txData.value);
      }
      height := if node.height > 0 then node.height - 1 else SIZE_T_MODULUS - 1;
      mainChainIndex := node.parent;
      if stats.statsType == StatsSelfish {
        var _ := stats.StatsRemoveBlockSelfish(node.miner, me, isAttacker);
      } else if stats.statsType == StatsFiftyOne {
        var _ := stats.StatsRemoveBlockFiftyOne(node.miner, isAttacker);
      }
    }
  
    /** The first loop of switchChains: walk the new chain down to the
        main chain's height, collecting its nodes tip first.  Stepping
        below the window aborts. */
    method WalkNewChain(newHeight: nat, newIndex: nat)
      returns (r: Result<(), ChainError>, collected: seq<ChainNode>, walkerIndex: nat)
      requires Shaped() && Linked(Window(), minHeight, newHeight, newIndex)
      ensures r.Failure? <==> newHeight > height && height < minHeight
      ensures r.Success? ==>
                |collected| == (if newHeight > height then newHeight - height else 0)
                && Walk(Window(), minHeight, newHeight, newIndex, collected, walkerIndex)
    {
      ghost var W := Window();
      collected := [];
      walkerIndex := newIndex;
      var walkerHeight := newHeight;
      while walkerHeight > height
        invariant |collected| <= newHeight && walkerHeight == newHeight - |collected|
        invariant minHeight <= walkerHeight && (walkerHeight >= height || collected == [])
        invariant Walk(W, minHeight, newHeight, newIndex, collected, walkerIndex)
        decreases walkerHeight
      {
        var walker := GetChainNode(walkerHeight, walkerIndex).value;
        if walkerHeight - 1 < minHeight {
          return Failure(HeightOutOfWindow), collected, walkerIndex;
        }
        WalkStep(W, minHeight, maxHeight, newHeight, newIndex, collected, walkerIndex, walker);
        collected := collected + [walker];
        walkerIndex := walker.parent;
        walkerHeight := walkerHeight - 1;
      }
      r := Success(());
    }

    /** One turn of the loops that shorten the main chain: its tip is
        reverted and the tip moves to the parent, one step further down the
        walk from (H, M) that started with ledger L0. */
    method RevertTip(tx: TransactionState?, me: nat, stats: StatsState, isAttacker: nat -> bool,
                     ghost W: seq<ChainLevel>, ghost min: nat, ghost max: nat, ghost H: nat, ghost M: nat,
                     ghost L0: Ledger, ghost reverted: seq<ChainNode>)
      returns (main: ChainNode)
      requires Buffers() && Window() == W && minHeight == min && maxHeight == max && WindowOk(W, min, max)
      requires TxOk(tx)
      requires min < height && height == H - |reverted| && Walk(W, min, H, M, reverted, mainChainIndex)
      requires LedgerOf(tx, stats) == RevertAll(L0, tx != null, stats.statsType, reverted, me, isAttacker)
      modifies this`height, this`mainChainIndex, stats, TxFrame(tx)
      ensures NodeAt(W, min, old(height), old(mainChainIndex)) == Some(main)
      ensures Buffers() && Window() == W && minHeight == min && maxHeight == max
      ensures height == old(height) - 1 && mainChainIndex == main.parent
      ensures Walk(W, min, H, M, reverted + [main], mainChainIndex)
      ensures TxOk(tx) && TxFrame(tx) == old(TxFrame(tx)) && StatsShape(stats) == old(StatsShape(stats))
      ensures LedgerOf(tx, stats) == RevertAll(L0, tx != null, stats.statsType, reverted + [main], me, isAttacker)
    {
      ghost var g, j := height, mainChainIndex;
      assert Linked(W, min, g, j);
      main := GetChainNode(height, mainChainIndex).value;
      WalkStep(W, min, max, H, M, reverted, j, main);
      RevertAllSnoc(L0, tx != null, stats.statsType, reverted, main, me, isAttacker);
      RevertAppliedChainNode(tx, main, me, stats, isAttacker);
    }

    /** The second loop of switchChains: revert the main chain down to
        height `target`, tip first. */
    method RevertDownTo(tx: TransactionState?, me: nat, stats: StatsState, isAttacker: nat -> bool,
                        ghost W: seq<ChainLevel>, ghost min: nat, ghost max: nat, ghost H: nat, ghost M: nat,
                        ghost L0: Ledger, target: nat)
      returns (ghost reverted: seq<ChainNode>)
      requires Buffers() && Window() == W && minHeight == min && maxHeight == max && WindowOk(W, min, max)
      requires TxOk(tx) && min <= target && height == H && mainChainIndex == M && Linked(W, min, H, M)
      requires LedgerOf(tx, stats) == L0
      modifies this`height, this`mainChainIndex, stats, TxFrame(tx)
      ensures Buffers() && Window() == W && minHeight == min && maxHeight == max
      ensures height == if H > target then target else H
      ensures |reverted| == H - height
      ensures Walk(W, min, H, M, reverted, mainChainIndex)
      ensures TxOk(tx) && TxFrame(tx) == old(TxFrame(tx)) && StatsShape(stats) == old(StatsShape(stats))
      ensures LedgerOf(tx, stats) == RevertAll(L0, tx != null, stats.statsType, reverted, me, isAttacker)
    {
      reverted := [];
      while height > target
        invariant Buffers() && Window() == W && minHeight == min && maxHeight == max
        invariant (height == H || target <= height) && height == H - |reverted|
        invariant Walk(W, min, H, M, reverted, mainChainIndex)
        invariant TxOk(tx) && TxFrame(tx) == old(TxFrame(tx)) && StatsShape(stats) == old(StatsShape(stats))
        invariant LedgerOf(tx, stats) == RevertAll(L0, tx != null, stats.statsType, reverted, me, isAttacker)
        decreases height
      {
        var main := RevertTip(tx, me, stats, isAttacker, W, min, max, H, M, L0, reverted);
        reverted := reverted + [main];
      }
    }

    /** One turn of switchChains' third loop: the main tip is reverted,
        the new chain's node collected, and both walks step down a level. */
    method StepBoth(tx: TransactionState?, me: nat, stats: StatsState, isAttacker: nat -> bool,
                    ghost W: seq<ChainLevel>, ghost min: nat, ghost max: nat, ghost H: nat, ghost M: nat,
                    ghost L0: Ledger, ghost reverted: seq<ChainNode>,
                    ghost newHeight: nat, ghost newIndex: nat, toApply: seq<ChainNode>, wIndex: nat)
      returns (main: ChainNode, walker: ChainNode)
      requires Buffers() && Window() == W && minHeight == min && maxHeight == max && WindowOk(W, min, max) && TxOk(tx)
      requires Walking(W, min, H, M, reverted, newHeight, newIndex, toApply, height, mainChainIndex, wIndex)
      requires mainChainIndex != wIndex && min < height
      requires LedgerOf(tx, stats) == RevertAll(L0, tx != null, stats.statsType, reverted, me, isAttacker)
      modifies this`height, this`mainChainIndex, stats, TxFrame(tx)
      ensures Buffers() && Window() == W && minHeight == min && maxHeight == max && height == old(height) - 1
      ensures Walking(W, min, H, M, reverted + [main], newHeight, newIndex, toApply + [walker], height,
                      mainChainIndex, walker.parent)
      ensures TxOk(tx) && TxFrame(tx) == old(TxFrame(tx)) && StatsShape(stats) == old(StatsShape(stats))
      ensures LedgerOf(tx, stats) == RevertAll(L0, tx != null, stats.statsType, reverted + [main], me, isAttacker)
    {
      ghost var g, j := height, mainChainIndex;
      WalkingInUse(W, min, H, M, reverted, newHeight, newIndex, toApply, g, j, wIndex);
      walker := GetChainNode(height, wIndex).value;
      ghost var tip := GetChainNode(height, mainChainIndex).value;
      WalkingStep(W, min, max, H, M, reverted, newHeight, newIndex, toApply, g, j, wIndex, tip, walker);
      main := RevertTip(tx, me, stats, isAttacker, W, min, max, H, M, L0, reverted);
    }

    /** The third loop of switchChains: with both walks at the same height,
        step the main chain (reverting it) and the new chain (collecting
        it) down together until they stand on the same node.  Reaching the
        window start on different nodes is where the lookup below it
        aborts. */
    method RevertToCommonAncestor(tx: TransactionState?, me: nat, stats: StatsState, isAttacker: nat -> bool,
                                  ghost W: seq<ChainLevel>, ghost min: nat, ghost max: nat,
                                  ghost H: nat, ghost M: nat, ghost L0: Ledger, ghost rev0: seq<ChainNode>,
                                  newHeight: nat, newIndex: nat, walkerIndex: nat, collected: seq<ChainNode>)
      returns (r: Result<(), ChainError>, toApply: seq<ChainNode>, ghost reverted: seq<ChainNode>, ghost wIndex: nat)
      requires Buffers() && Window() == W && minHeight == min && maxHeight == max && WindowOk(W, min, max)
      requires TxOk(tx)
      requires Walking(W, min, H, M, rev0, newHeight, newIndex, collected, height, mainChainIndex, walkerIndex)
      requires LedgerOf(tx, stats) == RevertAll(L0, tx != null, stats.statsType, rev0, me, isAttacker)
      modifies this`height, this`mainChainIndex, stats, TxFrame(tx)
      ensures Buffers() && Window() == W && minHeight == min && maxHeight == max
      ensures TxOk(tx) && TxFrame(tx) == old(TxFrame(tx)) && StatsShape(stats) == old(StatsShape(stats))
      ensures Walking(W, min, H, M, reverted, newHeight, newIndex, toApply, height, mainChainIndex, wIndex)
      ensures r.Success? <==> mainChainIndex == wIndex
      ensures r.Failure? ==> height == min
      ensures old(mainChainIndex) == walkerIndex ==> reverted == rev0 && toApply == collected
      ensures LedgerOf(tx, stats) == RevertAll(L0, tx != null, stats.statsType, reverted, me, isAttacker)
    {
      if mainChainIndex == walkerIndex {
        return Success(()), collected, rev0, walkerIndex;
      }
      var w;
      toApply, reverted, w := StepUntilMet(tx, me, stats, isAttacker, W, min, max, H, M, L0, rev0,
                                           newHeight, newIndex, walkerIndex, collected);
      wIndex := w;
      r := if mainChainIndex == w then Success(()) else Failure(HeightOutOfWindow);
    }

    /** The loop of RevertToCommonAncestor: both walks step down together
        while they stand on different nodes above the window start. */
    method StepUntilMet(tx: TransactionState?, me: nat, stats: StatsState, isAttacker: nat -> bool,
                        ghost W: seq<ChainLevel>, ghost min: nat, ghost max: nat,
                        ghost H: nat, ghost M: nat, ghost L0: Ledger, ghost rev0: seq<ChainNode>,
                        ghost newHeight: nat, ghost newIndex: nat, walkerIndex: nat, collected: seq<ChainNode>)
      returns (toApply: seq<ChainNode>, ghost reverted: seq<ChainNode>, wIndex: nat)
      requires Buffers() && Window() == W && minHeight == min && maxHeight == max && WindowOk(W, min, max)
      requires TxOk(tx)
      requires Walking(W, min, H, M, rev0, newHeight, newIndex, collected, height, mainChainIndex, walkerIndex)
      requires LedgerOf(tx, stats) == RevertAll(L0, tx != null, stats.statsType, rev0, me, isAttacker)
      modifies this`height, this`mainChainIndex, stats, TxFrame(tx)
      ensures Buffers() && Window() == W && minHeight == min && maxHeight == max
      ensures TxOk(tx) && TxFrame(tx) == old(TxFrame(tx)) && StatsShape(stats) == old(StatsShape(stats))
      ensures Walking(W, min, H, M, reverted, newHeight, newIndex, toApply, height, mainChainIndex, wIndex)
      ensures mainChainIndex == wIndex || height == min
      ensures LedgerOf(tx, stats) == RevertAll(L0, tx != null, stats.statsType, reverted, me, isAttacker)
    {
      toApply := collected;
      reverted := rev0;
      wIndex := walkerIndex;
      while mainChainIndex != wIndex && height > minHeight
        invariant Buffers() && Window() == W && minHeight == min && maxHeight == max
        invariant TxOk(tx) && TxFrame(tx) == old(TxFrame(tx)) && StatsShape(stats) == old(StatsShape(stats))
        invariant Walking(W, min, H, M, reverted, newHeight, newIndex, toApply, height, mainChainIndex, wIndex)
        invariant LedgerOf(tx, stats) == RevertAll(L0, tx != null, stats.statsType, reverted, me, isAttacker)
        decreases height
      {
        var main, walker := StepBoth(tx, me, stats, isAttacker, W, min, max, H, M, L0, reverted,
                                     newHeight, newIndex, toApply, wIndex);
        reverted := reverted + [main];
        toApply := toApply + [walker];
        wIndex := walker.parent;
      }
      WalkingInUse(W, min, H, M, reverted, newHeight, newIndex, toApply, height, mainChainIndex, wIndex);
    }

    /** The last loop of switchChains: apply the collected nodes from the
        bottom of the path up to its tip. */
    method ApplyPath(tx: TransactionState?, me: nat, stats: StatsState, isAttacker: nat -> bool,
                     toApply: seq<ChainNode>)
      requires TxOk(tx)
      requires tx != null ==> forall k :: 0 <= k < |toApply| ==>
                                toApply[k].txData.Some? && DataFits(toApply[k].txData.value)
      modifies this`height, stats, TxFrame(tx)
      ensures Window() == old(Window())
      ensures height == if toApply == [] then old(height) else toApply[0].height
      ensures TxOk(tx) && TxFrame(tx) == old(TxFrame(tx)) && StatsShape(stats) == old(StatsShape(stats))
      ensures LedgerOf(tx, stats) ==
                ApplyFrom(old(LedgerOf(tx, stats)), tx != null, stats.statsType, toApply, 0, me, isAttacker)
    {
      ghost var L0 := LedgerOf(tx, stats);
      var i: nat := |toApply|;
      while i > 0
        invariant i <= |toApply|
        invariant Window() == old(Window())
        invariant height == if i == |toApply| then old(height) else toApply[i].height
        invariant TxOk(tx) && TxFrame(tx) == old(TxFrame(tx)) && StatsShape(stats) == old(StatsShape(stats))
        invariant LedgerOf(tx, stats) == ApplyFrom(L0, tx != null, stats.statsType, toApply, i, me, isAttacker)
      {
        ApplyChainNode(tx, toApply[i - 1], me, stats, isAttacker);
        i := i - 1;
      }
    }

    /** The applying half of switchChains: apply the new chain's nodes
        from the meeting point up, then make (newHeight, newIndex) the main
        tip. */
    method ApplyNewChain(tx: TransactionState?, me: nat, stats: StatsState, isAttacker: nat -> bool,
                         ghost W: seq<ChainLevel>, ghost min: nat, ghost max: nat,
                         toApply: seq<ChainNode>, newHeight: nat, newIndex: nat)
      requires Buffers() && Window() == W && minHeight == min && maxHeight == max && WindowOk(W, min, max)
      requires TxOk(tx) && MainTipOk(W, min, max, newHeight, newIndex)
      requires (if toApply == [] then height else toApply[0].height) == newHeight
      requires forall k :: 0 <= k < |toApply| ==> toApply[k].txData.Some? && DataFits(toApply[k].txData.value)
      modifies this`height, this`mainChainIndex, stats, TxFrame(tx)
      ensures Valid() && Window() == W && minHeight == min && height == newHeight && mainChainIndex == newIndex
      ensures TxOk(tx) && TxFrame(tx) == old(TxFrame(tx)) && StatsShape(stats) == old(StatsShape(stats))
      ensures LedgerOf(tx, stats) ==
                ApplyFrom(old(LedgerOf(tx, stats)), tx != null, stats.statsType, toApply, 0, me, isAttacker)
    {
      ApplyPath(tx, me, stats, isAttacker, toApply);
      mainChainIndex := newIndex;
    }

    /** The reverting half of switchChains: walk the new chain down to the
        main chain's height, revert the main chain down to the new chain's
        height, then step both down until they stand on the same node or
        at the window start. */
    method RevertToFork(tx: TransactionState?, me: nat, stats: StatsState, isAttacker: nat -> bool,
                        ghost W: seq<ChainLevel>, ghost min: nat, ghost max: nat, ghost H: nat, ghost M: nat,
                        ghost L0: Ledger, newHeight: nat, newIndex: nat)
      returns (r: Result<(), ChainError>, toApply: seq<ChainNode>, ghost reverted: seq<ChainNode>, ghost w: nat)
      requires Valid() && TxOk(tx) && Linked(W, min, newHeight, newIndex)
      requires Window() == W && minHeight == min && maxHeight == max
      requires height == H && mainChainIndex == M && LedgerOf(tx, stats) == L0
      modifies this`height, this`mainChainIndex, stats, TxFrame(tx)
      ensures Window() == W && minHeight == min
      ensures TxOk(tx) && TxFrame(tx) == old(TxFrame(tx)) && StatsShape(stats) == old(StatsShape(stats))
      ensures r.Failure? <==> H < min || mainChainIndex != w
      ensures min <= H ==> Walking(W, min, H, M, reverted, newHeight, newIndex, toApply, height, mainChainIndex, w)
      ensures min <= H && mainChainIndex != w ==> height == min
      ensures H == newHeight && M == newIndex ==> r.Success? && reverted == [] && toApply == []
      ensures LedgerOf(tx, stats) == RevertAll(L0, tx != null, stats.statsType, reverted, me, isAttacker)
    {
      var walked, collected, walkerIndex := WalkNewChain(newHeight, newIndex);
      if walked.Failure? || height < minHeight {
        return Failure(HeightOutOfWindow), [], [], 0;
      }
      reverted := RevertDownTo(tx, me, stats, isAttacker, W, min, max, H, M, L0, newHeight);
      WalkingStart(W, min, H, M, reverted, newHeight, newIndex, collected, height, mainChainIndex, walkerIndex);
      r, toApply, reverted, w := RevertToCommonAncestor(tx, me, stats, isAttacker, W, min, max, H, M, L0, reverted,
                                                        newHeight, newIndex, walkerIndex, collected);
    }

    /** switchChains: the chain ending at node (newHeight, newIndex) becomes
        the main chain.  The main chain is reverted down to the highest node
        the two chains share and the new chain applied from there up, so the
        ledger ends as reverting the one path and applying the other.  The
        lookups abort (Failure) when the main tip has left the window or
        the two chains share no node inside it. */
    method SwitchChains(tx: TransactionState?, me: nat, stats: StatsState, isAttacker: nat -> bool,
                        newHeight: nat, newIndex: nat)
      returns (r: Result<(), ChainError>, ghost reverted: seq<ChainNode>, ghost applied: seq<ChainNode>)
      requires Valid() && TxOk(tx) && Linked(Window(), minHeight, newHeight, newIndex)
      modifies this`height, this`mainChainIndex, stats, TxFrame(tx)
      ensures Window() == old(Window())
      ensures TxOk(tx) && TxFrame(tx) == old(TxFrame(tx)) && StatsShape(stats) == old(StatsShape(stats))
      ensures r.Failure? <==> NoMeeting(Window(), minHeight, old(height), old(mainChainIndex), newHeight, newIndex)
      ensures r.Success? ==>
                Valid() && height == newHeight && mainChainIndex == newIndex
                && Forked(Window(), minHeight, old(height), old(mainChainIndex), reverted, newHeight, newIndex, applied)
      ensures r.Success? ==>
                LedgerOf(tx, stats) ==
                ApplyFrom(RevertAll(old(LedgerOf(tx, stats)), tx != null, stats.statsType, reverted, me, isAttacker),
                          tx != null, stats.statsType, applied, 0, me, isAttacker)
      ensures old(height) == newHeight && old(mainChainIndex) == newIndex ==>
                r.Success? && reverted == [] && applied == [] && LedgerOf(tx, stats) == old(LedgerOf(tx, stats))
    {
      ghost var W, min, max := Window(), minHeight, maxHeight;
      ghost var H, M, L0 := height, mainChainIndex, LedgerOf(tx, stats);
      var found, toApply, rev, w := RevertToFork(tx, me, stats, isAttacker, W, min, max, H, M, L0, newHeight, newIndex);
      reverted, applied := rev, toApply;
      if found.Failure? {
        if min <= H {
          WalkingApartAtBottom(W, min, H, M, reverted, newHeight, newIndex, toApply, mainChainIndex, w);
        }
        return Failure(HeightOutOfWindow), reverted, applied;
      }
      WalkingJoined(W, min, max, H, M, reverted, newHeight, newIndex, toApply, height, mainChainIndex);
      ApplyNewChain(tx, me, stats, isAttacker, W, min, max, toApply, newHeight, newIndex);
      r := Success(());
    }

    /** maybeSwitchChains: switch to the chain ending at (newHeight,
        newIndex) when the fork rule, asked about the main tip and that
        node, returns the latter.  The rule returns a pointer, so the main
        tip asked about itself counts as returned.  Reading the main tip
        aborts once the window has moved past it. */
    method MaybeSwitchChains(cfg: AttackConfig, tx: TransactionState?, me: nat, stats: StatsState,
                             isAttacker: nat -> bool, newHeight: nat, newIndex: nat)
      returns (r: Result<bool, ChainError>, ghost reverted: seq<ChainNode>, ghost applied: seq<ChainNode>)
      requires Valid() && TxOk(tx) && Linked(Window(), minHeight, newHeight, newIndex)
      requires ForkRuleOk(cfg, isAttacker(me))
      modifies this`height, this`mainChainIndex, stats, TxFrame(tx)
      ensures Window() == old(Window())
      ensures TxOk(tx) && TxFrame(tx) == old(TxFrame(tx)) && StatsShape(stats) == old(StatsShape(stats))
      ensures r.Failure? <==>
                old(height) < minHeight
                || (Prefers(Window(), minHeight, cfg, isAttacker(me), old(height), old(mainChainIndex), newHeight, newIndex)
                    && NoMeeting(Window(), minHeight, old(height), old(mainChainIndex), newHeight, newIndex))
      ensures r.Success? ==>
                r.value == Prefers(Window(), minHeight, cfg, isAttacker(me), old(height), old(mainChainIndex),
                                   newHeight, newIndex)
      ensures r == Success(false) ==>
                Valid() && height == old(height) && mainChainIndex == old(mainChainIndex)
                && LedgerOf(tx, stats) == old(LedgerOf(tx, stats))
      ensures r == Success(true) ==>
                Valid() && height == newHeight && mainChainIndex == newIndex
                && Forked(Window(), minHeight, old(height), old(mainChainIndex), reverted, newHeight, newIndex, applied)
                && LedgerOf(tx, stats) ==
                   ApplyFrom(RevertAll(old(LedgerOf(tx, stats)), tx != null, stats.statsType, reverted, me, isAttacker),
                             tx != null, stats.statsType, applied, 0, me, isAttacker)
    {
      reverted, applied := [], [];
      var tip := GetMainChain();
      if tip.None? {
        return Failure(HeightOutOfWindow), [], [];
      }
      var newNode := GetChainNode(newHeight, newIndex).value;
      var sameTip := height == newHeight && mainChainIndex == newIndex;
      if !sameTip && !PicksSecond(cfg, isAttacker(me), tip.value, newNode) {
        return Success(false), [], [];
      }
      var switched;
      switched, reverted, applied := SwitchChains(tx, me, stats, isAttacker, newHeight, newIndex);
      r := if switched.Success? then Success(true) else Failure(switched.error);
    }

    /** unorphanBlocks: link every orphan of height childHeight waiting for
        `parent` (the linked node at childHeight - 1, index parentIndex)
        and, for each, its own orphans one height up.  Returns the best
        node it linked by the fork rule, with its index in its level;
        nothing above maxHeight. */
    method UnorphanBlocks(cfg: AttackConfig, attacker: bool, ghost W0: seq<ChainLevel>, ghost min: nat, ghost max: nat,
                          parent: ChainNode, parentIndex: nat, childHeight: nat)
      returns (best: Option<(ChainNode, nat)>, ghost W: seq<ChainLevel>)
      requires Buffers() && Window() == W0 && minHeight == min && maxHeight == max && WindowOk(W0, min, max)
      requires ForkRuleOk(cfg, attacker) && min < childHeight
      requires NodeAt(W0, min, childHeight - 1, parentIndex) == Some(parent) && !IsOrphan(parent)
      modifies oldLevels, currentLevels
      ensures Buffers() && minHeight == min && maxHeight == max && Window() == W
      ensures Unorphaned(W0, W, min, max, parent, parentIndex, childHeight, best)
      ensures (best, W) == UnorphanResult(W0, min, max, cfg, attacker, parent, parentIndex, childHeight)
      decreases max + 1 - childHeight, 4
    {
      if childHeight > maxHeight {
        UnorphanNothing(W0, min, max, parent, parentIndex, childHeight);
        return None, W0;
      }
      best, W := UnorphanLevel(cfg, attacker, W0, min, max, parent, parentIndex, childHeight);
    }

    /** The loop of unorphanBlocks over the nodes in use at a level inside
        the stored range. */
    method UnorphanLevel(cfg: AttackConfig, attacker: bool, ghost W0: seq<ChainLevel>, ghost min: nat, ghost max: nat,
                         parent: ChainNode, parentIndex: nat, childHeight: nat)
      returns (best: Option<(ChainNode, nat)>, ghost W: seq<ChainLevel>)
      requires Buffers() && Window() == W0 && minHeight == min && maxHeight == max && WindowOk(W0, min, max)
      requires ForkRuleOk(cfg, attacker) && min < childHeight <= max
      requires NodeAt(W0, min, childHeight - 1, parentIndex) == Some(parent) && !IsOrphan(parent)
      modifies oldLevels, currentLevels
      ensures Buffers() && minHeight == min && maxHeight == max && Window() == W
      ensures Unorphaned(W0, W, min, max, parent, parentIndex, childHeight, best)
      ensures (best, W) == UnorphanResult(W0, min, max, cfg, attacker, parent, parentIndex, childHeight)
      decreases max + 1 - childHeight, 3
    {
      var size := GetChainLevel(childHeight).value.size;
      UnorphanStart(W0, min, max, parent, parentIndex, childHeight);
      best := None;
      var i := 0;
      while i < size
        invariant i <= size && size == W0[childHeight - min].size
        invariant Buffers() && minHeight == min && maxHeight == max
        invariant Unorphaning(W0, Window(), min, max, parent, parentIndex, childHeight, i, best)
        invariant UnorphanScan(Window(), min, max, cfg, attacker, parent, parentIndex, childHeight, size, i, best)
                  == UnorphanResult(W0, min, max, cfg, attacker, parent, parentIndex, childHeight)
      {
        best := UnorphanAt(cfg, attacker, W0, min, max, parent, parentIndex, childHeight, i, best);
        i := i + 1;
      }
      W := Window();
      UnorphanDone(W0, W, min, max, parent, parentIndex, childHeight, best);
    }

    /** One turn of unorphanBlocks' loop: node i of level childHeight is
        linked when it is an orphan child of `parent`, its own orphans are
        linked one height up, and the better candidate is kept. */
    method UnorphanAt(cfg: AttackConfig, attacker: bool, ghost W0: seq<ChainLevel>, ghost min: nat, ghost max: nat,
                      parent: ChainNode, parentIndex: nat, childHeight: nat, i: nat, best: Option<(ChainNode, nat)>)
      returns (best': Option<(ChainNode, nat)>)
      requires Buffers() && minHeight == min && maxHeight == max && ForkRuleOk(cfg, attacker)
      requires Unorphaning(W0, Window(), min, max, parent, parentIndex, childHeight, i, best)
      requires i < W0[childHeight - min].size
      requires NodeAt(W0, min, childHeight - 1, parentIndex) == Some(parent) && !IsOrphan(parent)
      modifies oldLevels, currentLevels
      ensures Buffers() && minHeight == min && maxHeight == max
      ensures Unorphaning(W0, Window(), min, max, parent, parentIndex, childHeight, i + 1, best')
      ensures var size := W0[childHeight - min].size;
              UnorphanScan(Window(), min, max, cfg, attacker, parent, parentIndex, childHeight, size, i + 1, best')
              == UnorphanScan(old(Window()), min, max, cfg, attacker, parent, parentIndex, childHeight, size, i, best)
      decreases max + 1 - childHeight, 2
    {
      var n := GetChainLevel(childHeight).value.nodes[i];
      if IsOrphan(n) && n.parent == parent.miner {
        best' := Adopt(cfg, attacker, W0, min, max, parent, parentIndex, childHeight, i, best);
      } else {
        UnorphanSkip(W0, Window(), min, max, parent, parentIndex, childHeight, i, best);
        best' := best;
      }
    }

    /** Node i of level childHeight is an orphan child of `parent`: link
        it, link its own orphans one height up, and keep the best of the
        candidate so far, the node and what the recursion found. */
    method Adopt(cfg: AttackConfig, attacker: bool, ghost W0: seq<ChainLevel>, ghost min: nat, ghost max: nat,
               parent: ChainNode, parentIndex: nat, childHeight: nat, i: nat, best: Option<(ChainNode, nat)>)
      returns (best': Option<(ChainNode, nat)>)
      requires Buffers() && minHeight == min && maxHeight == max && ForkRuleOk(cfg, attacker)
      requires Unorphaning(W0, Window(), min, max, parent, parentIndex, childHeight, i, best)
      requires i < W0[childHeight - min].size && ChildOf(Window()[childHeight - min].nodes[i], parent)
      requires NodeAt(W0, min, childHeight - 1, parentIndex) == Some(parent) && !IsOrphan(parent)
      modifies oldLevels, currentLevels
      ensures Buffers() && minHeight == min && maxHeight == max
      ensures Unorphaning(W0, Window(), min, max, parent, parentIndex, childHeight, i + 1, best')
      ensures var size := W0[childHeight - min].size;
              UnorphanScan(Window(), min, max, cfg, attacker, parent, parentIndex, childHeight, size, i + 1, best')
              == UnorphanScan(old(Window()), min, max, cfg, attacker, parent, parentIndex, childHeight, size, i, best)
      decreases max + 1 - childHeight, 1
    {
      var linked, picked, W1 := LinkOrphan(cfg, attacker, W0, min, max, parent, parentIndex, childHeight, i, best);
      best' := Descend(cfg, attacker, W0, W1, min, max, parent, parentIndex, childHeight, i, picked, linked);
    }

    /** The second half of Adopt: with node i just linked and `picked` the
        candidate, link the node's own orphans one height up and keep the
        better of `picked` and what that found. */
    method Descend(cfg: AttackConfig, attacker: bool, ghost W0: seq<ChainLevel>, ghost W1: seq<ChainLevel>,
                   ghost min: nat, ghost max: nat, parent: ChainNode, parentIndex: nat, childHeight: nat, i: nat,
                   picked: Option<(ChainNode, nat)>, linked: ChainNode)
      returns (best': Option<(ChainNode, nat)>)
      requires Buffers() && minHeight == min && maxHeight == max && ForkRuleOk(cfg, attacker) && Window() == W1
      requires Unorphaning(W0, W1, min, max, parent, parentIndex, childHeight, i + 1, picked) && picked.Some?
      requires NodeAt(W1, min, childHeight, i) == Some(linked) && !IsOrphan(linked)
      modifies oldLevels, currentLevels
      ensures Buffers() && minHeight == min && maxHeight == max
      ensures Unorphaning(W0, Window(), min, max, parent, parentIndex, childHeight, i + 1, best')
      ensures var deeper := UnorphanResult(W1, min, max, cfg, attacker, linked, i, childHeight + 1);
              Window() == deeper.1
              && best' == if deeper.0.Some? && PicksSecond(cfg, attacker, picked.value.0, deeper.0.value.0)
                          then deeper.0 else picked
      decreases max + 1 - childHeight, 0
    {
      ghost var W2;
      var aux;
      aux, W2 := UnorphanBlocks(cfg, attacker, W1, min, max, linked, i, childHeight + 1);
      best' := if aux.Some? && PicksSecond(cfg, attacker, picked.value.0, aux.value.0) then aux else picked;
      UnorphanDeeper(W0, W1, W2, min, max, parent, parentIndex, childHeight, i + 1, picked, linked, i, aux, best');
    }

    /** Linking node i of level childHeight, an orphan child of `parent`:
        it takes its place in the level, and becomes the candidate when
        there is none yet or the fork rule prefers it. */
    method LinkOrphan(cfg: AttackConfig, attacker: bool, ghost W0: seq<ChainLevel>, ghost min: nat, ghost max: nat,
                      parent: ChainNode, parentIndex: nat, childHeight: nat, i: nat, best: Option<(ChainNode, nat)>)
      returns (linked: ChainNode, picked: Option<(ChainNode, nat)>, ghost W1: seq<ChainLevel>)
      requires Buffers() && minHeight == min && maxHeight == max && ForkRuleOk(cfg, attacker)
      requires Unorphaning(W0, Window(), min, max, parent, parentIndex, childHeight, i, best)
      requires i < W0[childHeight - min].size && ChildOf(Window()[childHeight - min].nodes[i], parent)
      requires NodeAt(W0, min, childHeight - 1, parentIndex) == Some(parent) && !IsOrphan(parent)
      modifies oldLevels, currentLevels
      ensures Buffers() && minHeight == min && maxHeight == max && Window() == W1
      ensures Unorphaning(W0, W1, min, max, parent, parentIndex, childHeight, i + 1, picked)
      ensures picked.Some? && (picked == best || picked == Some((linked, i)))
      ensures picked == if best.None? || PicksSecond(cfg, attacker, best.value.0, linked) then Some((linked, i)) else best
      ensures NodeAt(W1, min, childHeight, i) == Some(linked) && !IsOrphan(linked)
      ensures var s := childHeight - min;
              linked == Relink(old(Window())[s].nodes[i], parentIndex, parent)
              && W1 == old(Window())[s := old(Window())[s].(nodes := old(Window())[s].nodes[i := linked])]
    {
      ghost var W := Window();
      var l := GetChainLevel(childHeight).value;
      linked := Relink(l.nodes[i], parentIndex, parent);
      SetChainLevel(childHeight, l.(nodes := l.nodes[i := linked]));
      picked := if best.None? || PicksSecond(cfg, attacker, best.value.0, linked) then Some((linked, i)) else best;
      W1 := Window();
      UnorphanLink(W0, W, W1, min, max, parent, parentIndex, childHeight, i, best, linked, picked);
    }

    /** The first steps of addBlock: maxHeight raised to the block's
        height, and the window moved forward when the block reaches its
        end. */
    method MakeRoom(h: nat, ghost W0: seq<ChainLevel>, ghost min0: nat, ghost max0: nat)
      requires Buffers() && Window() == W0 && minHeight == min0 && maxHeight == max0 && |W0| == 2 * DEPTH_TO_KEEP
      modifies this`maxHeight, this`minHeight, this`oldLevels, this`currentLevels, oldLevels
      ensures Buffers() && SameBuffers(old(oldLevels), old(currentLevels))
      ensures Window() == Spread(W0, min0, max0, h) && minHeight == SpreadMin(min0, max0, h)
      ensures maxHeight == if h > max0 then h else max0
    {
      if h > maxHeight {
        maxHeight := h;
        if h >= minHeight + 2 * DEPTH_TO_KEEP {
          MoveChainForward();
        }
      }
    }

    /** The node of block b put in use at the end of its level, linked when
        the first node of the level below mined by the parent's miner is
        linked, flagged orphan otherwise. */
    method InsertNode(b: Block, now: real, ghost W0: seq<ChainLevel>, ghost min0: nat, ghost max0: nat,
                      ghost W1: seq<ChainLevel>, ghost min1: nat, ghost max1: nat)
      returns (node: ChainNode, idx: nat)
      requires Buffers() && Window() == W1 && minHeight == min1 && maxHeight == max1 && WindowOk(W1, min1, max1)
      requires min1 < b.height < min1 + 2 * DEPTH_TO_KEEP && MainTipOk(W1, min1, max1, height, mainChainIndex)
      requires |W0| == 2 * DEPTH_TO_KEEP && W1 == Spread(W0, min0, max0, b.height)
      requires min1 == SpreadMin(min0, max0, b.height) && max1 == (if b.height > max0 then b.height else max0)
      requires DataFits(b.transactionData)
      modifies oldLevels, currentLevels
      ensures Valid() && Placed(W0, min0, max0, b, now, W1, min1, max1, node, idx, Window())
    {
      var s := b.height - minHeight;
      var level := GetChainLevel(b.height).value;
      var below := GetChainLevel(b.height - 1).value;
      node := NewNode(below, b, now);
      AppendKeepsWindowOk(W1, minHeight, maxHeight, s, node, height, mainChainIndex);
      SetChainLevel(b.height, Append(level, node));
      idx := level.size;
      PlacedFrom(W0, min0, max0, b, now, W1, minHeight, maxHeight, node, idx, Window());
    }

    /** generateBlock's increment of the ancestorsMined count of the node it
        just stored, node idx at height h (uint32). */
    method IncAncestorsMined(h: nat, idx: nat, ghost W: seq<ChainLevel>, ghost tx: TransactionState?,
                             ghost stats: StatsState)
      requires Valid() && Window() == W && minHeight < h && NodeAt(W, minHeight, h, idx).Some? && TxOk(tx)
      modifies oldLevels, currentLevels
      ensures TxOk(tx) && TxFrame(tx) == old(TxFrame(tx)) && StatsShape(stats) == old(StatsShape(stats))
      ensures Valid() && minHeight == old(minHeight) && maxHeight == old(maxHeight)
      ensures oldLevels == old(oldLevels) && currentLevels == old(currentLevels)
      ensures var n := NodeAt(W, minHeight, h, idx).value;
              NodeAt(Window(), minHeight, h, idx) == Some(n.(ancestorsMined := Inc32(n.ancestorsMined)))
      ensures Window()[h - 1 - minHeight] == W[h - 1 - minHeight]
      ensures var s := h - minHeight;
              var n := W[s].nodes[idx];
              Window() == W[s := W[s].(nodes := W[s].nodes[idx := n.(ancestorsMined := Inc32(n.ancestorsMined))])]
    {
      var level := GetChainLevel(h).value;
      var n := level.nodes[idx];
      var n' := n.(ancestorsMined := Inc32(n.ancestorsMined));
      assert NodeOk(W, minHeight, h - minHeight, idx);
      ReplaceKeepsWindowOk(W, minHeight, maxHeight, h - minHeight, idx, n', height, mainChainIndex);
      SetChainLevel(h, level.(nodes := level.nodes[idx := n']));
    }

    /** The first half of addBlock: raise maxHeight to the block's height,
        move the window forward when the block reaches its end, and put the
        block's node in use at the end of its level (InsertNode).  A level
        lookup outside the window aborts (Failure). */
    method PlaceBlock(b: Block, now: real, ghost W0: seq<ChainLevel>, ghost min0: nat, ghost max0: nat)
      returns (r: Result<(ChainNode, nat), ChainError>, ghost W1: seq<ChainLevel>)
      requires Valid() && Window() == W0 && minHeight == min0 && maxHeight == max0 && DataFits(b.transactionData)
      modifies this`maxHeight, this`minHeight, this`oldLevels, this`currentLevels, oldLevels, currentLevels
      ensures Buffers() && SameBuffers(old(oldLevels), old(currentLevels))
      ensures r.Failure? <==> !Placeable(min0, max0, b.height)
      ensures r.Success? ==>
                Valid() && Placed(W0, min0, max0, b, now, W1, minHeight, maxHeight, r.value.0, r.value.1, Window())
    {
      MakeRoom(b.height, W0, min0, max0);
      W1 := Window();
      if !(minHeight < b.height < minHeight + 2 * DEPTH_TO_KEEP) {
        return Failure(HeightOutOfWindow), W1;
      }
      SpreadKeepsWindowOk(W0, min0, max0, b.height, height, mainChainIndex);
      var node, idx := InsertNode(b, now, W0, min0, max0, W1, minHeight, maxHeight);
      r := Success((node, idx));
    }

    /** The candidate of addBlock: the orphans waiting for the new node
        linked, and the best of them taken instead of the node when the
        fork rule prefers it. */
    method PickCandidate(cfg: AttackConfig, attacker: bool, node: ChainNode, h: nat, idx: nat,
                         ghost A: seq<ChainLevel>, ghost min: nat, ghost max: nat)
      returns (bestHeight: nat, bestIndex: nat, ghost W: seq<ChainLevel>)
      requires Buffers() && Window() == A && minHeight == min && maxHeight == max && WindowOk(A, min, max)
      requires ForkRuleOk(cfg, attacker) && min < h
      requires NodeAt(A, min, h, idx) == Some(node) && !IsOrphan(node)
      modifies oldLevels, currentLevels
      ensures Buffers() && Window() == W
      ensures WindowOk(W, min, max) && Relinks(A, W)
      ensures forall s :: 0 <= s <= h - min && s < |W| ==> W[s] == A[s]
      ensures Candidate(A, W, min, max, cfg, attacker, node, h, idx, (bestHeight, bestIndex))
    {
      var unorphaned;
      unorphaned, W := UnorphanBlocks(cfg, attacker, A, min, max, node, idx, h + 1);
      RelinksKeepLinked(A, W, min, h, idx);
      bestHeight, bestIndex := h, idx;
      if unorphaned.Some? && PicksSecond(cfg, attacker, node, unorphaned.value.0) {
        bestHeight, bestIndex := unorphaned.value.0.height, unorphaned.value.1;
      }
    }

    /** The second half of addBlock, for a node that found its parent:
        link the orphans waiting for it, take the best node linked when
        the fork rule prefers it to the new node, and let maybeSwitchChains
        decide about that candidate. */
    method UnorphanAndSwitch(cfg: AttackConfig, tx: TransactionState?, me: nat, stats: StatsState,
                             isAttacker: nat -> bool, node: ChainNode, h: nat, idx: nat,
                             ghost A: seq<ChainLevel>, ghost min: nat, ghost max: nat,
                             ghost H: nat, ghost M: nat, ghost L0: Ledger)
      returns (r: Result<(), ChainError>, ghost W: seq<ChainLevel>, ghost target: (nat, nat),
               ghost reverted: seq<ChainNode>, ghost applied: seq<ChainNode>)
      requires Valid() && TxOk(tx) && ForkRuleOk(cfg, isAttacker(me))
      requires Window() == A && minHeight == min && maxHeight == max && height == H && mainChainIndex == M
      requires LedgerOf(tx, stats) == L0
      requires min < h && NodeAt(A, min, h, idx) == Some(node) && !IsOrphan(node)
      modifies this`height, this`mainChainIndex, oldLevels, currentLevels, stats, TxFrame(tx)
      ensures TxOk(tx) && TxFrame(tx) == old(TxFrame(tx)) && StatsShape(stats) == old(StatsShape(stats))
      ensures Buffers() && Window() == W && WindowOk(W, min, max) && Relinks(A, W)
      ensures minHeight == min && maxHeight == max && oldLevels == old(oldLevels) && currentLevels == old(currentLevels)
      ensures Candidate(A, W, min, max, cfg, isAttacker(me), node, h, idx, target)
      ensures r.Failure? <==> Aborts(W, min, cfg, isAttacker(me), H, M, target)
      ensures r.Success? ==>
                Valid()
                && Switched(W, min, cfg, isAttacker(me), H, M, target, reverted, applied, height, mainChainIndex,
                            L0, LedgerOf(tx, stats), tx != null, stats.statsType, me, isAttacker)
    {
      var bestHeight, bestIndex;
      bestHeight, bestIndex, W := PickCandidate(cfg, isAttacker(me), node, h, idx, A, min, max);
      RelinksKeepLinked(A, W, min, H, M);
      target := (bestHeight, bestIndex);
      var switched;
      switched, reverted, applied := MaybeSwitchChains(cfg, tx, me, stats, isAttacker, bestHeight, bestIndex);
      r := if switched.Success? then Success(()) else Failure(switched.error);
    }

    /** What addBlock does with a node it has stored: an orphan stops
        there with the store and the main chain as they were, a linked node
        goes on to UnorphanAndSwitch. */
    method SettleBlock(cfg: AttackConfig, tx: TransactionState?, me: nat, stats: StatsState,
                       isAttacker: nat -> bool, node: ChainNode, h: nat, idx: nat,
                       ghost A: seq<ChainLevel>, ghost min: nat, ghost max: nat,
                       ghost H: nat, ghost M: nat, ghost L0: Ledger)
      returns (r: Result<(), ChainError>, ghost W: seq<ChainLevel>, ghost target: (nat, nat),
               ghost reverted: seq<ChainNode>, ghost applied: seq<ChainNode>)
      requires Valid() && TxOk(tx) && ForkRuleOk(cfg, isAttacker(me))
      requires Window() == A && minHeight == min && maxHeight == max && height == H && mainChainIndex == M
      requires LedgerOf(tx, stats) == L0
      requires min < h && NodeAt(A, min, h, idx) == Some(node)
      modifies this`height, this`mainChainIndex, oldLevels, currentLevels, stats, TxFrame(tx)
      ensures TxOk(tx) && TxFrame(tx) == old(TxFrame(tx)) && StatsShape(stats) == old(StatsShape(stats))
      ensures Buffers() && Window() == W && minHeight == min && maxHeight == max
      ensures oldLevels == old(oldLevels) && currentLevels == old(currentLevels)
      ensures r.Failure? <==> !IsOrphan(node) && Aborts(W, min, cfg, isAttacker(me), H, M, target)
      ensures r.Success? ==> Valid() && NodeAt(W, min, h, idx) == Some(node)
      ensures r.Success? && IsOrphan(node) ==>
                W == A && height == H && mainChainIndex == M && LedgerOf(tx, stats) == L0
      ensures r.Success? && !IsOrphan(node) ==>
                Relinks(A, W) && Candidate(A, W, min, max, cfg, isAttacker(me), node, h, idx, target)
                && Switched(W, min, cfg, isAttacker(me), H, M, target, reverted, applied, height, mainChainIndex,
                            L0, LedgerOf(tx, stats), tx != null, stats.statsType, me, isAttacker)
    {
      reverted, applied, target, W := [], [], (0, 0), A;
      if IsOrphan(node) {
        return Success(()), W, target, reverted, applied;
      }
      r, W, target, reverted, applied :=
        UnorphanAndSwitch(cfg, tx, me, stats, isAttacker, node, h, idx, A, min, max, H, M, L0);
      if r.Success? {
        RelinksKeepLinked(A, W, min, h, idx);
      }
    }

    /** addBlock: store the block's node (PlaceBlock); an orphan stops
        there, a linked node goes on to UnorphanAndSwitch.  Returns the
        stored node and its index in its level.  The store starts as
        window W0 from min0 up to max0, with the main tip at (H, M) and
        the ledger L0. */
    method AddBlock(cfg: AttackConfig, now: real, tx: TransactionState?, b: Block, me: nat, stats: StatsState,
                    isAttacker: nat -> bool, ghost W0: seq<ChainLevel>, ghost min0: nat, ghost max0: nat,
                    ghost H: nat, ghost M: nat, ghost L0: Ledger)
      returns (r: Result<(ChainNode, nat), ChainError>, ghost stored: (ChainNode, nat), ghost W1: seq<ChainLevel>,
               ghost A: seq<ChainLevel>, ghost W: seq<ChainLevel>, ghost target: (nat, nat),
               ghost reverted: seq<ChainNode>, ghost applied: seq<ChainNode>)
      requires Valid() && TxOk(tx) && ForkRuleOk(cfg, isAttacker(me)) && DataFits(b.transactionData)
      requires Window() == W0 && minHeight == min0 && maxHeight == max0 && height == H && mainChainIndex == M
      requires LedgerOf(tx, stats) == L0
      modifies this, oldLevels, currentLevels, stats, TxFrame(tx)
      ensures Buffers() && SameBuffers(old(oldLevels), old(currentLevels))
      ensures TxOk(tx) && TxFrame(tx) == old(TxFrame(tx)) && StatsShape(stats) == old(StatsShape(stats))
      ensures !Placeable(min0, max0, b.height) ==> r.Failure?
      ensures Placeable(min0, max0, b.height) ==>
                Window() == W && Placed(W0, min0, max0, b, now, W1, minHeight, maxHeight, stored.0, stored.1, A)
                && (r.Failure? <==> !IsOrphan(stored.0) && Aborts(W, minHeight, cfg, isAttacker(me), H, M, target))
      ensures r.Success? ==> r.value == stored && Valid() && NodeAt(W, minHeight, b.height, stored.1) == Some(stored.0)
      ensures r.Success? && IsOrphan(stored.0) ==>
                W == A && height == H && mainChainIndex == M && LedgerOf(tx, stats) == L0
      ensures r.Success? && !IsOrphan(stored.0) ==>
                Relinks(A, W) && Candidate(A, W, minHeight, maxHeight, cfg, isAttacker(me), stored.0, b.height, stored.1, target)
                && Switched(W, minHeight, cfg, isAttacker(me), H, M, target, reverted, applied, height, mainChainIndex,
                            L0, LedgerOf(tx, stats), tx != null, stats.statsType, me, isAttacker)
    {
      reverted, applied, target, stored := [], [], (0, 0), (Genesis, 0);
      var placed;
      placed, W1 := PlaceBlock(b, now, W0, min0, max0);
      assert TxOk(tx) && TxFrame(tx) == old(TxFrame(tx)) && StatsShape(stats) == old(StatsShape(stats));
      assert LedgerOf(tx, stats) == L0 && height == H && mainChainIndex == M;
      A := Window();
      W := A;
      if placed.Failure? {
        return Failure(placed.error), stored, W1, A, W, target, reverted, applied;
      }
      var node, idx := placed.value.0, placed.value.1;
      stored := (node, idx);
      ghost var min1, max1 := minHeight, maxHeight;
      PlacedNodeAt(W0, min0, max0, b, now, W1, min1, max1, node, idx, A);
      var settled;
      settled, W, target, reverted, applied :=
        SettleBlock(cfg, tx, me, stats, isAttacker, node, b.height, idx, A, min1, max1, H, M, L0);
      assert minHeight == min1 && maxHeight == max1;
      r := if settled.Success? then Success((node, idx)) else Failure(settled.error);
    }

    /** addBlock as generateBlock and receiveBlock use it: only the stored
        node, where it sits, its parent when it is linked, and that an
        orphan leaves the main tip alone.  The node is `stored` at index
        r.value of its level, linked under `parent` unless it is an
        orphan. */
    method StoreBlock(cfg: AttackConfig, now: real, tx: TransactionState?, b: Block, me: nat, stats: StatsState,
                      isAttacker: nat -> bool)
      returns (r: Result<(ChainNode, nat), ChainError>, ghost parent: ChainNode)
      requires Valid() && TxOk(tx) && ForkRuleOk(cfg, isAttacker(me)) && DataFits(b.transactionData)
      modifies this, oldLevels, currentLevels, stats, TxFrame(tx)
      ensures Buffers() && SameBuffers(old(oldLevels), old(currentLevels))
      ensures TxOk(tx) && TxFrame(tx) == old(TxFrame(tx)) && StatsShape(stats) == old(StatsShape(stats))
      ensures !Placeable(old(minHeight), old(maxHeight), b.height) ==> r.Failure?
      ensures r.Success? ==>
                var (stored, idx) := r.value;
                Valid() && minHeight < b.height && NodeAt(Window(), minHeight, b.height, idx) == Some(stored)
                && stored.height == b.height && stored.miner == b.miner && stored.timestamp == now
                && stored.txData == Some(b.transactionData)
      ensures r.Success? && !IsOrphan(r.value.0) ==>
                var stored := r.value.0;
                NodeAt(Window(), minHeight, b.height - 1, stored.parent) == Some(parent)
                && !IsOrphan(parent) && parent.miner == b.prevBlockMiner
                && stored.ancestorsMined == parent.ancestorsMined && stored.score == Inc32(parent.score)
      ensures r.Success? && IsOrphan(r.value.0) ==>
                r.value.0.ancestorsMined == 0 && height == old(height) && mainChainIndex == old(mainChainIndex)
    {
      parent := Genesis;
      ghost var W0, min0, max0 := Window(), minHeight, maxHeight;
      ghost var st, W1, A, W, target, reverted, applied;
      r, st, W1, A, W, target, reverted, applied :=
        AddBlock(cfg, now, tx, b, me, stats, isAttacker, W0, min0, max0, height, mainChainIndex, LedgerOf(tx, stats));
      if r.Success? {
        parent := PlacedParent(W0, min0, max0, b, now, W1, minHeight, maxHeight, r.value.0, r.value.1, A, W);
      }
    }

    /** The end of generateBlock: addBlock for a block of my own that the
        window can take, then one more ancestor mined by me on the node it
        stored: `added` as addBlock stored it at index r.value, linked
        under `parent` unless it is an orphan. */
    method AddOwnBlock(cfg: AttackConfig, now: real, tx: TransactionState?, b: Block, me: nat, stats: StatsState,
                       isAttacker: nat -> bool)
      returns (r: Result<nat, ChainError>, ghost added: ChainNode, ghost parent: ChainNode)
      requires Valid() && TxOk(tx) && ForkRuleOk(cfg, isAttacker(me)) && DataFits(b.transactionData)
      requires Placeable(minHeight, maxHeight, b.height)
      modifies this, oldLevels, currentLevels, stats, TxFrame(tx)
      ensures Buffers() && SameBuffers(old(oldLevels), old(currentLevels))
      ensures TxOk(tx) && TxFrame(tx) == old(TxFrame(tx)) && StatsShape(stats) == old(StatsShape(stats))
      ensures r.Success? ==>
                Valid() && added.height == b.height && added.miner == b.miner && added.timestamp == now
                && added.txData == Some(b.transactionData)
                && NodeAt(Window(), minHeight, b.height, r.value) == Some(added.(ancestorsMined := Inc32(added.ancestorsMined)))
      ensures r.Success? && !IsOrphan(added) ==>
                NodeAt(Window(), minHeight, b.height - 1, added.parent) == Some(parent)
                && !IsOrphan(parent) && parent.miner == b.prevBlockMiner
                && added.ancestorsMined == parent.ancestorsMined && added.score == Inc32(parent.score)
      ensures r.Success? && IsOrphan(added) ==> added.ancestorsMined == 0
    {
      added := Genesis;
      var res;
      res, parent := StoreBlock(cfg, now, tx, b, me, stats, isAttacker);
      if res.Failure? {
        return Failure(res.error), added, parent;
      }
      added := res.value.0;
      ghost var W := Window();
      IncAncestorsMined(b.height, res.value.1, W, tx, stats);
      if !IsOrphan(added) {
        SameLevelNodeAt(W, Window(), minHeight, b.height - 1, added.parent);
      }
      r := Success(res.value.1);
    }
  }
}
