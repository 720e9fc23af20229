/** The per-node blockchain state: the local chain and the count of blocks
    the node mined, with block production (generateBlock) and receipt
    (receiveBlock). */
module BlockchainStates {
  import opened Wrappers
  import opened Config
  import opened Transactions
  import opened Statistics
  import opened Blocks
  import opened Chain

  /** The transaction data of a block without transactions. */
  const NoTransactions: TransactionData := TransactionData(0, 0, [])

  /** validateBlock: every block is valid and costs the validation time. */
  function ValidateBlock(b: Block): (r: (real, bool))
    ensures r.0 == BLOCK_VALIDATION_TIME && r.1
  {
    (BLOCK_VALIDATION_TIME, true)
  }

  /** The data generateTransactionData picks from the window [low, high)
      of the bitmap `bits` after delivery, or none when that window is
      empty: offset j set exactly for the eligible transaction low + j, and
      `high` as the code leaves it (GeneratedHigh). */
  predicate GeneratedFrom(bits: seq<bool>, low: int, high: int, txns: seq<Transaction>, deliveryTime: nat -> real,
                          me: nat, now: real, d: TransactionData)
    requires |bits| == TXN_NUMBER && |txns| == TXN_NUMBER
  {
    (high <= low ==> d == NoTransactions)
    && (low < high ==>
          d.low == low && |d.included| == high - low
          && Selects(bits, txns, deliveryTime, me, now, low, d.included)
          && d.high == GeneratedHigh(low, d.included))
  }

  /** The transaction data generateBlock puts in its block: what
      generateTransactionData picks, or none when there is no transaction
      state or it picks nothing.  Delivery moves the state's low and high
      and leaves the bitmap alone. */
  method BlockTransactions(tx: TransactionState?, now: real, me: nat, txns: seq<Transaction>,
                           deliveryTime: nat -> real)
    returns (data: TransactionData)
    requires TxOk(tx) && |txns| == TXN_NUMBER
    modifies TxFrame(tx)
    ensures TxOk(tx) && TxFrame(tx) == old(TxFrame(tx))
    ensures DataFits(data) && (tx == null ==> data == NoTransactions)
    ensures tx != null ==>
              tx.transactionsBitmap[..] == old(tx.transactionsBitmap[..])
              && tx.low == NextAvailable(old(tx.transactionsBitmap[..]), old(tx.low))
              && tx.high == NextPending(txns, Max(old(tx.high), 0), now)
              && GeneratedFrom(tx.transactionsBitmap[..], tx.low, tx.high, txns, deliveryTime, me, now, data)
  {
    var generated := GenerateTransactionData(tx, now, me, txns, deliveryTime);
    data := if generated.Some? then generated.value else NoTransactions;
  }

  class BlockchainState {
    const chain: Blockchain
    var minedByMe: nat

    ghost predicate Valid()
      reads this, chain, chain.oldLevels, chain.currentLevels
    {
      chain.Valid() && minedByMe < UINT32_MODULUS
    }

    /** initBlockchainState, without the hash power draw: a fresh chain and
        nothing mined. */
    constructor ()
      ensures Valid() && fresh(chain) && fresh(chain.oldLevels) && fresh(chain.currentLevels)
      ensures chain.height == 0 && chain.mainChainIndex == 0 && minedByMe == 0
    {
      chain := new Blockchain();
      minedByMe := 0;
    }

    /** generateBlock: a block on top of the main tip carrying the
        transactions generateTransactionData picks (none without a
        transaction state or when it picks nothing), then mined and stored
        as MineOnTip says. */
    method GenerateBlock(cfg: AttackConfig, me: nat, now: real, tx: TransactionState?, stats: StatsState,
                         isAttacker: nat -> bool, txns: seq<Transaction>, deliveryTime: nat -> real)
      returns (r: Result<Block, ChainError>, ghost tip: ChainNode, ghost added: ChainNode, ghost idx: nat,
               ghost parent: ChainNode)
      requires Valid() && TxOk(tx) && ForkRuleOk(cfg, isAttacker(me)) && |txns| == TXN_NUMBER
      modifies this, chain, chain.oldLevels, chain.currentLevels, stats, TxFrame(tx)
      ensures TxOk(tx) && TxFrame(tx) == old(TxFrame(tx)) && StatsShape(stats) == old(StatsShape(stats))
      ensures old(chain.height) < old(chain.minHeight) ==> r.Failure?
      ensures r.Success? ==>
                Valid() && old(chain.GetMainChain()) == Some(tip)
                && r.value == Block(now, 10, me, tip.miner, me, tip.height + 1, false, r.value.transactionData)
                && DataFits(r.value.transactionData)
                && (tx == null ==> r.value.transactionData == NoTransactions)
                && minedByMe == Inc32(old(minedByMe))
                && added.height == tip.height + 1 && added.miner == me && added.timestamp == now
                && NodeAt(chain.Window(), chain.minHeight, tip.height + 1, idx)
                   == Some(added.(ancestorsMined := Inc32(added.ancestorsMined)))
      ensures r.Success? && !IsOrphan(added) ==>
                NodeAt(chain.Window(), chain.minHeight, tip.height, added.parent) == Some(parent)
                && !IsOrphan(parent) && parent.miner == tip.miner
                && added.ancestorsMined == parent.ancestorsMined && added.score == Inc32(parent.score)
      ensures r.Success? && IsOrphan(added) ==> added.ancestorsMined == 0
      ensures r.Success? && tx != null ==>
                GeneratedFrom(old(tx.transactionsBitmap[..]), NextAvailable(old(tx.transactionsBitmap[..]), old(tx.low)),
                              NextPending(txns, Max(old(tx.high), 0), now), txns, deliveryTime, me, now,
                              r.value.transactionData)
    {
      ghost var main0 := chain.GetMainChain();
      var data := BlockTransactions(tx, now, me, txns, deliveryTime);
      ghost var picked := tx != null ==>
        GeneratedFrom(old(tx.transactionsBitmap[..]), NextAvailable(old(tx.transactionsBitmap[..]), old(tx.low)),
                      NextPending(txns, Max(old(tx.high), 0), now), txns, deliveryTime, me, now, data);
      assert picked;
      assert Valid() && chain.GetMainChain() == main0;
      r, tip, added, idx, parent := MineOnTip(cfg, me, now, tx, stats, isAttacker, data);
    }

    /** The rest of generateBlock once the transactions are picked: the
        block extends the main tip `tip`, is mined and sent by me, is
        counted in minedByMe (unsigned), is stored by addBlock, and then
        gets one more ancestor mined by me on the stored node. `added` is
        the node as addBlock stored it at index idx, linked under `parent`
        unless it is an orphan. */
    method MineOnTip(cfg: AttackConfig, me: nat, now: real, tx: TransactionState?, stats: StatsState,
                     isAttacker: nat -> bool, data: TransactionData)
      returns (r: Result<Block, ChainError>, ghost tip: ChainNode, ghost added: ChainNode, ghost idx: nat,
               ghost parent: ChainNode)
      requires Valid() && TxOk(tx) && ForkRuleOk(cfg, isAttacker(me)) && DataFits(data)
      modifies this, chain, chain.oldLevels, chain.currentLevels, stats, TxFrame(tx)
      ensures TxOk(tx) && TxFrame(tx) == old(TxFrame(tx)) && StatsShape(stats) == old(StatsShape(stats))
      ensures old(chain.height) < old(chain.minHeight) ==> r.Failure?
      ensures r.Success? ==>
                Valid() && old(chain.GetMainChain()) == Some(tip)
                && r.value == Block(now, 10, me, tip.miner, me, tip.height + 1, false, data)
                && minedByMe == Inc32(old(minedByMe))
                && added.height == tip.height + 1 && added.miner == me && added.timestamp == now
                && NodeAt(chain.Window(), chain.minHeight, tip.height + 1, idx)
                   == Some(added.(ancestorsMined := Inc32(added.ancestorsMined)))
      ensures r.Success? && !IsOrphan(added) ==>
                NodeAt(chain.Window(), chain.minHeight, tip.height, added.parent) == Some(parent)
                && !IsOrphan(parent) && parent.miner == tip.miner
                && added.ancestorsMined == parent.ancestorsMined && added.score == Inc32(parent.score)
      ensures r.Success? && IsOrphan(added) ==> added.ancestorsMined == 0
    {
      tip, added, idx, parent := Genesis, Genesis, 0, Genesis;
      var main := chain.GetMainChain();
      if main.None? {
        return Failure(HeightOutOfWindow), tip, added, idx, parent;
      }
      tip := main.value;
      var b := Block(now, 10, me, main.value.miner, me, main.value.height + 1, false, data);
      minedByMe := Inc32(minedByMe);
      chain.TipPlaceable();
      var res;
      res, added, parent := chain.AddOwnBlock(cfg, now, tx, b, me, stats, isAttacker);
      if res.Failure? {
        return Failure(res.error), tip, added, idx, parent;
      }
      idx := res.value;
      r := Success(b);
    }

    /** receiveBlock: validation always accepts and costs the validation
        time; addBlock stores the block; the main chain counts as updated
        when the tip's height or index moved, and the parent as found when
        the stored node is linked.  The two flags start false, as at the
        only call site. */
    method ReceiveBlock(cfg: AttackConfig, now: real, tx: TransactionState?, b: Block, me: nat, stats: StatsState,
                        isAttacker: nat -> bool)
      returns (elapsed: real, r: Result<nat, ChainError>, updatedMainChain: bool, foundParent: bool,
               node: ChainNode)
      requires Valid() && TxOk(tx) && ForkRuleOk(cfg, isAttacker(me)) && DataFits(b.transactionData)
      modifies chain, chain.oldLevels, chain.currentLevels, stats, TxFrame(tx)
      ensures elapsed == BLOCK_VALIDATION_TIME
      ensures TxOk(tx) && TxFrame(tx) == old(TxFrame(tx)) && StatsShape(stats) == old(StatsShape(stats))
      ensures !Placeable(old(chain.minHeight), old(chain.maxHeight), b.height) ==> r.Failure?
      ensures r.Success? ==>
                Valid() && NodeAt(chain.Window(), chain.minHeight, b.height, r.value) == Some(node)
                && node.height == b.height && node.miner == b.miner && node.timestamp == now
                && foundParent == !IsOrphan(node)
                && updatedMainChain == (chain.height != old(chain.height) || chain.mainChainIndex != old(chain.mainChainIndex))
      ensures r.Success? && !foundParent ==> !updatedMainChain
    {
      node, r := Genesis, Failure(HeightOutOfWindow);
      updatedMainChain, foundParent := false, false;
      var valid;
      elapsed, valid := ValidateBlock(b).0, ValidateBlock(b).1;
      if valid {
        var oldIndex, oldHeight := chain.mainChainIndex, chain.height;
        var res;
        ghost var parent;
        res, parent := chain.StoreBlock(cfg, now, tx, b, me, stats, isAttacker);
        if res.Success? {
          node := res.value.0;
          if chain.height != oldHeight || chain.mainChainIndex != oldIndex {
            updatedMainChain := true;
          }
          foundParent := !IsOrphan(node);
          r := Success(res.value.1);
        } else {
          r := Failure(res.error);
        }
      }
    }
  }
}
