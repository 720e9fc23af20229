/** Blocks as a node stores them: the transfer object, the chain node a
    block becomes, the levels holding the nodes of one height, where a
    height lives in the two level buffers, and the fork-choice rules. */
module Blocks {
  import opened Wrappers
  import opened Config
  import opened Transactions
  import opened Attacks

  /** The transfer object a node sends and receives. */
  datatype Block = Block(timestamp: real, size: nat, miner: nat, prevBlockMiner: nat, sender: nat,
                         height: nat, isAttackBlock: bool, transactionData: TransactionData)

  const CHAIN_NODE_FLAG_ORPHAN: bv32 := 1
  const CHAIN_NODE_FLAG_INCLUDED: bv32 := 2

  /** A block in the local chain.  `parent` is the storage the source shares
      between parent_index (the parent's index in the level below, once the
      node is linked) and parentMinerId (the parent's miner, while the node
      is an orphan).  `txData` is None only for the genesis block, whose
      transaction pointer is null.  Score and ancestorsMined are uint32. */
  datatype ChainNode = ChainNode(parent: nat, txData: Option<TransactionData>, timestamp: real,
                                 miner: nat, height: nat, score: nat, flags: bv32,
                                 ancestorsMined: nat)

  /** The genesis block every chain starts from, at height 0. */
  const Genesis: ChainNode :=
    ChainNode(NODE_ID_MAX, None, -1.0, NODE_ID_MAX, 0, 0, 0, 0)

  predicate IsOrphan(n: ChainNode)
  {
    n.flags & CHAIN_NODE_FLAG_ORPHAN != 0
  }

  function SetOrphan(n: ChainNode): (r: ChainNode)
    ensures IsOrphan(r)
  {
    n.(flags := n.flags | CHAIN_NODE_FLAG_ORPHAN)
  }

  /** unOrphan ands the flags with the logical negation of the orphan flag,
      which is 0: every flag is cleared, not just the orphan one. */
  function UnOrphan(n: ChainNode): (r: ChainNode)
    ensures !IsOrphan(r) && r.flags == 0
  {
    n.(flags := n.flags & 0)
  }

  /** The uint32 increment of a score or an ancestorsMined count. */
  function Inc32(x: nat): (r: nat)
    ensures r < UINT32_MODULUS
    ensures x + 1 < UINT32_MODULUS ==> r == x + 1
  {
    (x + 1) % UINT32_MODULUS
  }

  /** populateChainNode: the stored form of a received block, not yet
      linked, with score and ancestorsMined at zero. */
  function PopulateChainNode(b: Block): ChainNode
  {
    ChainNode(b.prevBlockMiner, Some(b.transactionData), b.timestamp, b.miner, b.height, 0, 0, 0)
  }

  /** The blocks of one height: `nodes` is the allocated storage of
      `capacity` entries, of which the first `size` are in use; entries
      past `size` keep whatever they held before. */
  datatype ChainLevel = ChainLevel(nodes: seq<ChainNode>, size: nat, capacity: nat)

  predicate LevelOk(l: ChainLevel)
  {
    l.size <= l.capacity && l.capacity == |l.nodes|
  }

  /** initChainLevel: no storage, nothing in use. */
  const EmptyLevel: ChainLevel := ChainLevel([], 0, 0)

  /** The level holding only the genesis block, as initBlockchain builds it. */
  const GenesisLevel: ChainLevel := ChainLevel([Genesis], 1, 1)

  /** The first node of a level (among those in use) mined by `miner`. */
  function FirstWithMiner(l: ChainLevel, miner: nat): (r: Option<nat>)
    requires LevelOk(l)
    ensures r.Some? ==> r.value < l.size && l.nodes[r.value].miner == miner
                        && forall k :: 0 <= k < r.value ==> l.nodes[k].miner != miner
    ensures r.None? ==> forall k :: 0 <= k < l.size ==> l.nodes[k].miner != miner
  {
    FirstWithMinerFrom(l, miner, 0)
  }

  function FirstWithMinerFrom(l: ChainLevel, miner: nat, i: nat): (r: Option<nat>)
    requires LevelOk(l) && i <= l.size
    requires forall k :: 0 <= k < i ==> l.nodes[k].miner != miner
    ensures r.Some? ==> i <= r.value < l.size && l.nodes[r.value].miner == miner
                        && forall k :: 0 <= k < r.value ==> l.nodes[k].miner != miner
    ensures r.None? ==> forall k :: 0 <= k < l.size ==> l.nodes[k].miner != miner
    decreases l.size - i
  {
    if i == l.size then None
    else if l.nodes[i].miner == miner then Some(i)
    else FirstWithMinerFrom(l, miner, i + 1)
  }

  // ---------------------------------------------------------------------
  // Where a height lives

  /** A slot of one of the two level buffers. */
  datatype Slot = OldSlot(index: nat) | CurrentSlot(index: nat)

  /** getChainLevel's addressing: the DEPTH_TO_KEEP heights from
      minHeight are in old_levels, the next DEPTH_TO_KEEP in
      current_levels.  A height below minHeight aborts; so does one past
      the second buffer (see GuardAsWrittenMissesEnd). */
  function ChainLevelSlot(minHeight: nat, h: nat): (r: Option<Slot>)
    ensures h < minHeight ==> r.None?
    ensures minHeight <= h < minHeight + DEPTH_TO_KEEP ==> r == Some(OldSlot(h - minHeight))
    ensures minHeight + DEPTH_TO_KEEP <= h < minHeight + 2 * DEPTH_TO_KEEP ==>
              r == Some(CurrentSlot(h - minHeight - DEPTH_TO_KEEP))
    ensures minHeight + 2 * DEPTH_TO_KEEP <= h ==> r.None?
  {
    if h < minHeight || h >= minHeight + 2 * DEPTH_TO_KEEP then None
    else
      var off := h - minHeight;
      if off < DEPTH_TO_KEEP then Some(OldSlot(off)) else Some(CurrentSlot(off - DEPTH_TO_KEEP))
  }

  /** The position of a slot in the window: old_levels followed by
      current_levels. */
  function WindowIndex(s: Slot): nat
  {
    match s
    case OldSlot(i) => i
    case CurrentSlot(i) => DEPTH_TO_KEEP + i
  }

  /** Through the two buffers, height h is entry h - minHeight of the
      window, and every slot holds exactly one height. */
  lemma ChainLevelSlotWindow(minHeight: nat, h: nat)
    requires minHeight <= h < minHeight + 2 * DEPTH_TO_KEEP
    ensures ChainLevelSlot(minHeight, h).Some?
    ensures WindowIndex(ChainLevelSlot(minHeight, h).value) == h - minHeight
    ensures ChainLevelSlot(minHeight, h).value.index < DEPTH_TO_KEEP
  {
  }

  lemma ChainLevelSlotInjective(minHeight: nat, h1: nat, h2: nat)
    requires ChainLevelSlot(minHeight, h1).Some? && ChainLevelSlot(minHeight, h1) == ChainLevelSlot(minHeight, h2)
    ensures h1 == h2
  {
  }

  /** The guard the source applies above the window (only when assertions
      are compiled in): it aborts for heights strictly above
      minHeight + 2 * DEPTH_TO_KEEP. */
  predicate GuardAsWrittenAborts(minHeight: nat, h: nat)
  {
    h < minHeight || h > minHeight + 2 * DEPTH_TO_KEEP
  }

  /** The guard lets height minHeight + 2 * DEPTH_TO_KEEP through, and the
      offset it then uses is one past the end of current_levels. */
  lemma GuardAsWrittenMissesEnd(minHeight: nat)
    ensures var h := minHeight + 2 * DEPTH_TO_KEEP;
            !GuardAsWrittenAborts(minHeight, h)
            && h - minHeight - DEPTH_TO_KEEP == DEPTH_TO_KEEP
            && ChainLevelSlot(minHeight, h).None?
  {
  }

  // ---------------------------------------------------------------------
  // Fork choice

  /** The honest preference as a lexicographic key: higher score, then
      more ancestors mined, then the earlier timestamp, then the smaller
      miner id; x is at least as good as y. */
  predicate HonestAtLeast(x: ChainNode, y: ChainNode)
  {
    x.score > y.score
    || (x.score == y.score
        && (x.ancestorsMined > y.ancestorsMined
            || (x.ancestorsMined == y.ancestorsMined
                && (x.timestamp < y.timestamp
                    || (x.timestamp == y.timestamp && x.miner <= y.miner)))))
  }

  /** chainNodeMaxHonest's cascade of comparisons: whether it returns its
      second argument. */
  predicate HonestPicksSecond(a: ChainNode, b: ChainNode)
  {
    if a.score > b.score then false
    else if a.score < b.score then true
    else if a.ancestorsMined > b.ancestorsMined then false
    else if a.ancestorsMined < b.ancestorsMined then true
    else if a.timestamp < b.timestamp then false
    else if a.timestamp > b.timestamp then true
    else !(a.miner <= b.miner)
  }

  /** chainNodeMaxHonest returns the first argument exactly when it is at
      least as good as the second, so the result is at least as good as
      both. */
  function ChainNodeMaxHonest(a: ChainNode, b: ChainNode): (r: ChainNode)
    ensures r == (if HonestAtLeast(a, b) then a else b)
    ensures HonestAtLeast(r, a) && HonestAtLeast(r, b)
  {
    if HonestPicksSecond(a, b) then b else a
  }

  /** The honest key order is a total preorder, so folding
      chainNodeMaxHonest over several nodes yields one at least as good as
      each of them. */
  lemma HonestAtLeastTotalPreorder(x: ChainNode, y: ChainNode, z: ChainNode)
    ensures HonestAtLeast(x, x)
    ensures HonestAtLeast(x, y) || HonestAtLeast(y, x)
    ensures HonestAtLeast(x, y) && HonestAtLeast(y, z) ==> HonestAtLeast(x, z)
  {
  }

  /** Only a full tie of the four keys makes the argument order matter. */
  lemma ChainNodeMaxHonestCommutes(a: ChainNode, b: ChainNode)
    requires a.score != b.score || a.ancestorsMined != b.ancestorsMined
             || a.timestamp != b.timestamp || a.miner != b.miner
    ensures ChainNodeMaxHonest(a, b) == ChainNodeMaxHonest(b, a)
  {
  }

  /** The attack parameters the attacker's fork choice reads. */
  datatype AttackConfig = AttackConfig(attackType: AttackType, selfishCatchupTolerance: nat,
                                       fiftyOneCatchupTolerance: nat)

  /** How many blocks the attacker may trail by; None for an attack type
      the rule does not know (the source exits). */
  function Tolerance(cfg: AttackConfig): Option<nat>
  {
    match cfg.attackType
    case AttackFiftyOne => Some(cfg.fiftyOneCatchupTolerance)
    case AttackSelfishMining => Some(cfg.selfishCatchupTolerance)
    case AttackNone => None
  }

  /** chainNodeMaxAttacker: whether it returns its second argument; None
      when it exits.  With different ancestorsMined, x is the node with
      more of them and y the other; x keeps priority while its score, plus
      the tolerance as a size_t, is not below y's. */
  function AttackerPicksSecond(cfg: AttackConfig, a: ChainNode, b: ChainNode): Option<bool>
  {
    if a.ancestorsMined == b.ancestorsMined then Some(HonestPicksSecond(a, b))
    else
      var swapped := a.ancestorsMined < b.ancestorsMined;
      var x := if swapped then b else a;
      var y := if swapped then a else b;
      if x.score >= y.score then Some(swapped)
      else match Tolerance(cfg)
        case None => None
        case Some(t) =>
          var virtualScore := (x.score + t) % SIZE_T_MODULUS;
          if virtualScore > y.score then Some(swapped)
          else if virtualScore < y.score then Some(!swapped)
          else if x.timestamp < y.timestamp then Some(swapped)
          else if x.timestamp > y.timestamp then Some(!swapped)
          else Some(if x.miner <= y.miner then swapped else !swapped)
  }

  function ChainNodeMaxAttacker(cfg: AttackConfig, a: ChainNode, b: ChainNode): (r: Option<ChainNode>)
    ensures r.None? <==> AttackerPicksSecond(cfg, a, b).None?
    ensures r.Some? ==> r.value == a || r.value == b
    ensures a.ancestorsMined == b.ancestorsMined ==> r == Some(ChainNodeMaxHonest(a, b))
    ensures a.ancestorsMined > b.ancestorsMined && a.score >= b.score ==> r == Some(a)
    ensures a.ancestorsMined < b.ancestorsMined && b.score >= a.score ==> r == Some(b)
    ensures a.ancestorsMined != b.ancestorsMined && Tolerance(cfg).Some? ==> r.Some?
    ensures a.ancestorsMined > b.ancestorsMined && Tolerance(cfg).Some? ==>
              ((a.score + Tolerance(cfg).value) % SIZE_T_MODULUS > b.score ==> r == Some(a))
              && (a.score < b.score && (a.score + Tolerance(cfg).value) % SIZE_T_MODULUS < b.score ==> r == Some(b))
    ensures a.ancestorsMined < b.ancestorsMined && Tolerance(cfg).Some? ==>
              ((b.score + Tolerance(cfg).value) % SIZE_T_MODULUS > a.score ==> r == Some(b))
              && (b.score < a.score && (b.score + Tolerance(cfg).value) % SIZE_T_MODULUS < a.score ==> r == Some(a))
    ensures a.ancestorsMined != b.ancestorsMined && Tolerance(cfg).Some? ==>
              var (x, y) := if a.ancestorsMined > b.ancestorsMined then (a, b) else (b, a);
              x.score < y.score && (x.score + Tolerance(cfg).value) % SIZE_T_MODULUS == y.score ==>
                r == Some(if x.timestamp < y.timestamp || (x.timestamp == y.timestamp && x.miner <= y.miner) then x else y)
  {
    match AttackerPicksSecond(cfg, a, b)
    case None => None
    case Some(second) => Some(if second then b else a)
  }

  /** The attacker rule exits only under no attack type, when the node with
      more ancestors mined has the lower score. */
  lemma AttackerExitsOnlyWithoutAttack(cfg: AttackConfig, a: ChainNode, b: ChainNode)
    ensures AttackerPicksSecond(cfg, a, b).None? <==>
              cfg.attackType == AttackNone && a.ancestorsMined != b.ancestorsMined
              && (if a.ancestorsMined > b.ancestorsMined then a.score < b.score else b.score < a.score)
  {
  }

  /** The rule in force: the attacker's when the current node is an
      attacker.  An attacker only exists under an attack type. */
  predicate ForkRuleOk(cfg: AttackConfig, attacker: bool)
  {
    attacker ==> cfg.attackType != AttackNone
  }

  /** chainNodeMax: whether it returns its second argument. */
  function PicksSecond(cfg: AttackConfig, attacker: bool, a: ChainNode, b: ChainNode): bool
    requires ForkRuleOk(cfg, attacker)
  {
    if attacker then AttackerPicksSecond(cfg, a, b).value else HonestPicksSecond(a, b)
  }

  function ChainNodeMax(cfg: AttackConfig, attacker: bool, a: ChainNode, b: ChainNode): (r: ChainNode)
    requires ForkRuleOk(cfg, attacker)
    ensures r == a || r == b
    ensures !attacker ==> r == ChainNodeMaxHonest(a, b)
    ensures attacker ==> Some(r) == ChainNodeMaxAttacker(cfg, a, b)
  {
    if PicksSecond(cfg, attacker, a, b) then b else a
  }

}
