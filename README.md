# RBlockSim core in Dafny

RBlockSim is a discrete-event blockchain simulator. Every simulated node (a
logical process, "LP") keeps a local blockchain. It mines blocks at random
intervals, gossips them to its peers, and switches its main chain when a
better fork turns up. Some nodes can run a selfish-mining or 51% attack. A
Python generator builds the peer topology that the simulator is compiled
with.

This project models the sequential core of the simulator and proves
properties of that model:

- `topology.dfy` (`Topology`): the topology generator, covering the
  symmetric random graph, the small-world graph with its ring-distance
  connection probability, and the sorted rows and parallel degree/peer
  arrays written to `Topology.c` (with `N_NODES`, `MIN_PEERS` and
  `MAX_PEERS` as defines in `Topology.h`).
- `block.dfy` (`Blocks`): blocks and chain nodes, orphan flags, chain
  levels, how a height maps to the two level buffers, and the fork choice
  (honest and attacker).
- `chain.dfy` (`Chain`): the local `Blockchain`, a class over two arrays of
  `DEPTH_TO_KEEP` levels, together with:
  - the window, the main tip and parent links, and the effect ledger
    (transaction bitmap plus statistics) that applying and reverting
    blocks keeps;
  - `addBlock` with parent search, `unorphanBlocks`, `switchChains` and
    `maybeSwitchChains`;
  - the reference functions these are proved against (`Append`, `Advance`,
    `Relinks`, `Path`, `ApplyFrom`, `RevertAll`, ...).
- `state.dfy` (`BlockchainStates`): a node's blockchain state, with
  `generateBlock` and `receiveBlock`.
- `transaction.dfy` (`Transactions`): the transaction window. It holds a
  bitmap of executed transactions and a `[low, high)` window of pending
  ones. It covers delivery, selecting the transactions of a new block, and
  applying and reverting a block's transactions.
- `statistics.dfy` (`Statistics`): the statistics variants (detailed,
  fifty-one, selfish), the paired add/remove counter updates, the
  capacity-doubling buffer of the detailed statistics and the
  `[a,b,c,d,e]` record written by `sprintSelfishStats`.
- `attacks.dfy` (`Attacks`): attacker selection (selection sampling) and
  `initAttackers`.
- `network.dfy` (`Network`): region counts and region lookup, and the
  choice of receivers for gossip, for sending to everyone and for block
  propagation. Scheduled events are an outbox sequence.
- `config.dfy` (`Config`) holds the compile-time constants. `wrappers.dfy`
  holds `Option` and `Result`.

Modelling conventions:

- Random numbers are inputs: a sequence of draws, or a function from draw
  number to value.
- Floating-point times and probabilities are `real`.
- `size_t` and `uint32_t` counters wrap explicitly, modulo 2^64 and 2^32.
- A call to `exit`/`abort` in the source is a `Failure`/`None` result, or
  an `exited` flag, in the model.
- The global `is_attacker` test is passed as a function `isAttacker`.
- The transmission delay is passed as a function `delay`.

Where the source and its documentation disagree, the model follows the
code:

- A set bit in the transaction bitmap means "executed". A comment in
  `Transaction.h` says that 1 means available, but
  `markTransactionExecuted` sets the bit and `deliverNewTransactions` skips
  set bits.
- `unOrphan` clears all flags, because it is written with `!` rather than
  `~`. Only the orphan flag is ever set (`CHAIN_NODE_FLAG_INCLUDED` is
  defined but never set), so the effect is the same.

## Model

| member | source | states |
|---|---|---|
| Topology.AddEdge | RBlockSim/src/generate_topology.py:55-56 | accepting edge (i, j) appends j to row i and i to row j; every other row is unchanged |
| Topology.AddEdgeKeepsTopology | RBlockSim/src/generate_topology.py:52-56 | adding an edge between distinct nodes not yet connected keeps the lists symmetric, free of self-loops and free of duplicates |
| Topology.RandInt | RBlockSim/src/generate_topology.py:48-51 | `random.randint(lo, hi)` gives a value in `[lo, hi]` |
| Topology.DistinctRowCard | RBlockSim/src/generate_topology.py:52-53 | a duplicate-free row has as many distinct peers as entries |
| Topology.GenerateSymmetricTopology | RBlockSim/src/generate_topology.py:13-58 | it raises (InvalidParameters) exactly when `n <= 0`, `min < 1`, `max < min`, `max >= n - 1` or `min > 0.9 * max`. On success the lists are symmetric, without self-loops or duplicates, and every degree is between `min_peers` and `max_peers`. Running out of draws in the rejection loop is a separate error |
| Topology.RingDistance | RBlockSim/src/generate_topology.py:76-81 | the distance is `min(abs(i - j), n - abs(i - j))` |
| Topology.ConnectionProbabilitySymmetric | RBlockSim/src/generate_topology.py:61-88 | `get_pij(i, j) == get_pij(j, i)` |
| Topology.ConnectionProbability | RBlockSim/src/generate_topology.py:76-88 | `get_pij` with the ring distance folded at half the ring: for `dens` and `prop` in `[0, 1]`, as the generator validates them, the probability lies in `[0, 1]`. `ConnectionProbabilitySymmetric` proves it symmetric and `ConnectionProbabilityNearerAtLeast` proves that it never grows with the distance |
| Topology.ConnectionProbabilityNearerAtLeast | RBlockSim/src/generate_topology.py:76-88 | for `prop <= 1`, a pair at a smaller ring distance is never less likely to be linked than a pair further apart, which is the small-world intent of `get_pij` |
| Topology.ConnectionProbabilityExample | RBlockSim/src/generate_topology.py:83-88 | with n = 10, dens = 0.3, prop = 0.2, max_dis = 5: 0.86 for neighbours, 0.06 for nodes 5 apart, and 0.86 across the ring wrap (0, 9) |
| Topology.GenerateSmallWorldTopology | RBlockSim/src/generate_topology.py:91-134 | it raises exactly when `n <= 0`, `dens` or `prop` is outside `[0, 1]`, or `max_dis <= 0`. Otherwise the lists are symmetric, without self-loops or duplicates |
| Topology.Insert | RBlockSim/src/generate_topology.py:152-153 | inserting into a sorted row keeps it sorted and adds exactly one occurrence of the value |
| Topology.InsertedAbove | RBlockSim/src/generate_topology.py:152-153 | when the head of a sorted row is below x, the head followed by the sorted insertion of x into the tail is sorted |
| Topology.SortRow | RBlockSim/src/generate_topology.py:152-153 | `sorted(row)` is ascending and a permutation of the row |
| Topology.SortRows | RBlockSim/src/generate_topology.py:150-154 | every row is sorted and a permutation of the corresponding input row |
| Topology.DistinctIffSingleCounts | RBlockSim/src/generate_topology.py:52-53 | a row is duplicate-free iff every element occurs exactly once in its multiset |
| Topology.PermutedRowsKeepTopology | RBlockSim/src/generate_topology.py:150-154 | permuting each row keeps the lists symmetric, free of self-loops and free of duplicates, and keeps every degree |
| Topology.SortedDistinctIncreasing | RBlockSim/src/generate_topology.py:152-153 | a sorted duplicate-free row is strictly increasing |
| Topology.PeersOf | RBlockSim/src/generate_topology.py:167-178 | the peer row read back from the flat layout has the node's degree as its length |
| Topology.TopologyToC | RBlockSim/src/generate_topology.py:157-187 | row i is read back unchanged through `peer_list_sizes[i]`, with zero fill after it. Nodes without a row get an empty one, and the header constants are the arguments. It refuses a topology with more than `N_NODES` rows or a row longer than `MAX_PEERS`, and only such a topology (see Left out) |
| Topology.GenerateTopologyFiles | RBlockSim/src/generate_topology.py:137-187 | invalid parameters fail, and the emitting step never refuses what the generator built. The emitted rows are sorted and form a valid topology, with every degree in `[min_peers, max_peers]` |
| Transactions.AdditionalBufferSize | RBlockSim/src/Transaction.c:13-17 | the extra bytes are never negative. They top the minimum bitmap up to the required size: exactly the difference when more is needed, and 0 otherwise |
| Transactions.NextAvailable | RBlockSim/src/Transaction.c:76-78 | the result is at least `low` and at most `TXN_NUMBER`; every bit skipped is set, and the result is `TXN_NUMBER` or a clear bit |
| Transactions.NextPending | RBlockSim/src/Transaction.c:80-88 | the result is the first index at or after the start whose timestamp exceeds `now`, or `TXN_NUMBER` when there is none |
| Transactions.NextAvailableIdempotent | RBlockSim/src/Transaction.c:76-78 | advancing `low` a second time leaves it where it is |
| Transactions.NextPendingIdempotent | RBlockSim/src/Transaction.c:80-88 | advancing `high` a second time with the same `now` leaves it where it is |
| Transactions.NextPendingMonotone | RBlockSim/src/Transaction.c:80-88 | a later `now` never gives a smaller `high` |
| Transactions.SkipExecuted | RBlockSim/src/Transaction.c:76-78 | the loop over `low` ends at `NextAvailable` |
| Transactions.SkipIssued | RBlockSim/src/Transaction.c:80-88 | the loop over `i` ends at `NextPending` from `max(high, 0)` |
| Transactions.BlockHigh | RBlockSim/src/Transaction.c:100-111 | the intended `high`: `low` when nothing is included, otherwise one past the last included offset |
| Transactions.BlockHighAsWrittenAgrees | RBlockSim/src/Transaction.c:100-111 | the code's `high` agrees with `BlockHigh` unless the only included transaction is the one at `low`. In that case the code leaves `high == low` |
| Transactions.GeneratedHighAgrees | RBlockSim/src/Transaction.c:100-110 | the code's `high` equals the intended `BlockHigh` unless `BlockHigh` is `low + 1`, that is unless only the transaction at `low` is included. Then the code returns `low` |
| Transactions.LastTaken | RBlockSim/src/Transaction.c:100-108 | the index the loop leaves in `data->high`: `low` when nothing is included, otherwise an included index with nothing included after it |
| Transactions.LoneLowTransactionDropped | RBlockSim/src/Transaction.c:100-121 | a block whose only transaction is the one at `low`, built as the code builds it, gets `high == low` and marks nothing when applied. With the intended `high` it marks that transaction executed |
| Transactions.RevertUndoesApply | RBlockSim/src/Transaction.c:114-130 | reverting a block right after applying it restores the bitmap, when none of its transactions was executed before |
| Transactions.ApplyUndoesRevert | RBlockSim/src/Transaction.c:114-130 | applying a block right after reverting it restores the bitmap, when all of its transactions were executed before |
| Transactions.RevertKeepsOtherBlock | RBlockSim/src/Transaction.c:123-130 | for two blocks with no transaction in common, reverting the upper one after applying both leaves exactly the lower one applied. Every transaction of the lower block stays executed |
| Transactions.MarkTransactionExecuted | RBlockSim/src/Transaction.c:56-58 | only the named bit changes, and it becomes set |
| Transactions.MarkTransactionAvailable | RBlockSim/src/Transaction.c:60-62 | only the named bit changes, and it becomes clear |
| Transactions.TransactionState.constructor | RBlockSim/src/Transaction.c:30-39 | a cleared bitmap of `TXN_NUMBER` bits with `low == high == 0` |
| Transactions.TransactionState.DeliverNewTransactions | RBlockSim/src/Transaction.c:75-89 | `low` becomes `NextAvailable(bitmap, low)` and `high` becomes `NextPending(max(high, 0))`. `high` never decreases and the bitmap is unchanged |
| Transactions.TransactionState.ApplyBlockTransactions | RBlockSim/src/Transaction.c:114-121 | the bitmap becomes `ApplyBits` and `high` becomes `max(high, data.high)` |
| Transactions.TransactionState.RevertAppliedBlockTransactions | RBlockSim/src/Transaction.c:123-130 | the bitmap becomes `RevertBits` and `low` becomes `min(low, data.low)` |
| Transactions.GenerateTransactionData | RBlockSim/src/Transaction.c:93-112 | None for a null state, or when `high <= low` after delivery, and delivery moves `low` and `high` as `deliverNewTransactions` does. Otherwise the block covers the delivered window, offset j is set exactly when transaction `low + j` is eligible, and `high` is `GeneratedHigh`, as the code computes it. The bitmap is never altered |
| Transactions.SelectTransactions | RBlockSim/src/Transaction.c:100-110 | offset j is set exactly when transaction `low + j` is eligible: unexecuted, and sent by `me` or delivered before `now`. `high` is `GeneratedHigh`: the last included index, moved one past it only when it differs from `low` |
| Blocks.SetOrphan | RBlockSim/src/Block.c:20 | the node is an orphan afterwards |
| Blocks.UnOrphan | RBlockSim/src/Block.c:21 | the node is not an orphan afterwards, and every flag is clear |
| Blocks.Inc32 | RBlockSim/src/Block.c:580 | unsigned 32-bit increment: `x + 1` below 2^32 - 1, and the result always fits 32 bits |
| Blocks.FirstWithMiner | RBlockSim/src/Block.c:513-523 | a result is an index of the level holding that miner, and no earlier entry has it. No result means no entry has it |
| Blocks.FirstWithMinerFrom | RBlockSim/src/Block.c:574-584 | the same search, starting at a given index |
| Blocks.ChainLevelSlot | RBlockSim/src/Block.c:32-49 | heights below `min_height` abort. `[min, min+DEPTH)` maps to `old_levels[h - min]` and `[min+DEPTH, min+2*DEPTH)` to `current_levels[h - min - DEPTH]`. Anything higher is outside the buffers |
| Blocks.ChainLevelSlotWindow | RBlockSim/src/Block.c:43-48 | through the two buffers, height h is entry `h - min_height` of the window |
| Blocks.ChainLevelSlotInjective | RBlockSim/src/Block.c:43-48 | distinct heights in the window use distinct slots |
| Blocks.GuardAsWrittenMissesEnd | RBlockSim/src/Block.c:38-47 | the debug guard lets `min + 2*DEPTH` through, and the offset then used is one past the end of `current_levels` |
| Blocks.ChainNodeMaxHonest | RBlockSim/src/Block.c:235-246 | the first node is returned exactly when it is at least as good as the second in the key order: higher score, then more ancestors mined, then the earlier timestamp, then the smaller miner. The result is at least as good as both |
| Blocks.HonestAtLeastTotalPreorder | RBlockSim/src/Block.c:235-246 | the honest key order is reflexive, total and transitive, so repeated `chainNodeMax` calls keep a node at least as good as every node seen |
| Blocks.ChainNodeMaxHonestCommutes | RBlockSim/src/Block.c:235-246 | unless all four keys tie, the argument order does not change the result |
| Blocks.ChainNodeMaxAttacker | RBlockSim/src/Block.c:248-289 | equal ancestors mined falls back to the honest rule. Otherwise the node with more ancestors mined wins if its score is at least the other's, or if its score plus the tolerance (as `size_t`) exceeds it; it loses below. An exact tie goes to the earlier timestamp, then the smaller miner. It exits only when there is no attack type |
| Blocks.AttackerExitsOnlyWithoutAttack | RBlockSim/src/Block.c:265-279 | the attacker rule exits only when the nodes differ in ancestors mined, the node with more has the lower score, and no attack type is configured |
| Blocks.ChainNodeMax | RBlockSim/src/Block.c:301-307 | the result is one of the two nodes. An attacker uses the attacker rule and everyone else the honest rule |
| Chain.LinkedParent | RBlockSim/src/Block.c:572-580 | a linked node above the window start sits at its level's height, and its parent one level down is linked |
| Chain.AncestorInUse | RBlockSim/src/Block.c:413-437 | an ancestor reached n parent links down from a node is a node in use n levels below, and is the n-th node of the walk |
| Chain.AncestorLinked | RBlockSim/src/Block.c:413-437 | from a linked node, every ancestor down to the window start exists and is linked |
| Chain.AncestorStep | RBlockSim/src/Block.c:413-437 | the ancestor k + 1 levels down is the ancestor k levels down from the parent |
| Chain.Append | RBlockSim/src/Block.c:552-568 | the level gains the node at index `size` and its size grows by one. Earlier entries are unchanged, and capacity grows by one only when the level was full |
| Chain.Emptied | RBlockSim/src/Block.c:478-488 | every level keeps its capacity and gets size 0 |
| Chain.Advance | RBlockSim/src/Block.c:497-503 | after the move, the window's first half is the old second half and its second half is the old first half with every level emptied |
| Chain.Spread | RBlockSim/src/Block.c:540-546 | raising `max_height` moves the window forward exactly when the height reaches `min + 2*DEPTH` |
| Chain.RaiseMaxKeepsWindowOk | RBlockSim/src/Block.c:540-542 | raising `max_height` to the block height keeps the window well-formed |
| Chain.NodeAtAdvance | RBlockSim/src/Block.c:497-503 | after the move, every node of the kept half is found at the same height and index |
| Chain.AdvanceKeepsWindowOk | RBlockSim/src/Block.c:497-503 | when `max_height` reaches the window's end, moving forward keeps the window well-formed and the main tip valid |
| Chain.AppendKeepsWindowOk | RBlockSim/src/Block.c:563-588 | appending a node at its level's height keeps the window well-formed, when the node is linked to a linked node one level down or is an orphan. The main tip stays valid and every existing node stays in place |
| Chain.SpreadKeepsWindowOk | RBlockSim/src/Block.c:540-546 | making room for a block keeps the window well-formed |
| Chain.PlacedFrom | RBlockSim/src/Block.c:540-568 | spreading the window and then appending the stored node at its level's old size is exactly what `Placed` describes |
| Chain.AppendedNodeAt | RBlockSim/src/Block.c:564-568 | after the append the new node is at `(height, old size)` |
| Chain.PlacedNodeAt | RBlockSim/src/Block.c:563-568 | a node stored by `addBlock` sits above `min_height`, at its block's height and at the index the level's old size gave it |
| Chain.SameLevelNodeAt | RBlockSim/src/Block.c:564-568 | after the append every earlier node is found at the same place |
| Chain.ReplaceKeepsWindowOk | RBlockSim/src/Block.c:336-340 | replacing an orphan by its relinked version keeps the window well-formed |
| Chain.LinkTo | RBlockSim/src/Block.c:578-580 | a linked child gets the parent's index, the parent's ancestors mined and the parent's score + 1 (uint32) |
| Chain.Relink | RBlockSim/src/Block.c:336-340 | an unorphaned node is linked to the parent as `LinkTo` says, and its orphan flag is cleared |
| Chain.RelinksTransitive | RBlockSim/src/Block.c:321-363 | relinking steps compose |
| Chain.RelinksKeepLinked | RBlockSim/src/Block.c:321-363 | linking orphans keeps the same nodes in use, leaves linked nodes as they were, and creates no new orphan |
| Chain.RelinkLevel | RBlockSim/src/Block.c:329-360 | among the first i nodes of the level, exactly the orphan children of the parent are relinked to it. Size and capacity are unchanged |
| Chain.NewlyLinkedKept | RBlockSim/src/Block.c:321-363 | a reported best child (an orphan now linked) stays valid while further orphans are linked |
| Chain.NewlyLinkedFromEarlier | RBlockSim/src/Block.c:351-357 | a best child found one height deeper, in a window already relinked, is a valid best child for the whole call |
| Chain.UnorphanNothing | RBlockSim/src/Block.c:323 | above `max_height` nothing is relinked and no child is returned |
| Chain.UnorphanStart | RBlockSim/src/Block.c:326-329 | the level scan starts with no best child and nothing relinked |
| Chain.UnorphanDone | RBlockSim/src/Block.c:329-362 | once the scan has looked at every node in use, what `unorphanBlocks` promises holds |
| Chain.UnorphanSkip | RBlockSim/src/Block.c:332-336 | a node that is not an orphan child of the parent is skipped, and nothing changes |
| Chain.RelinkLevelStep | RBlockSim/src/Block.c:329-360 | relinking the first k + 1 entries is relinking the first k, then entry k |
| Chain.RelinkOne | RBlockSim/src/Block.c:336-340 | replacing one orphan by a linked copy is a relinking of the window |
| Chain.UnorphanLink | RBlockSim/src/Block.c:336-349 | linking an orphan child of a linked parent keeps the scan's invariant; the best child is either kept or becomes the new node. The node is in place and not an orphan |
| Chain.UnorphanDeeper | RBlockSim/src/Block.c:351-357 | after the recursion one height up, the scan's invariant holds, with the best child either kept or the deeper one |
| Chain.RevertUndoesApplyEffect | RBlockSim/src/Block.c:62-86 | reverting a node right after applying it restores the bitmap and the statistics, provided the node's transactions were not executed before. Only `high` keeps its raise and `low` may drop to the data's low |
| Chain.SwitchBackAndForth | RBlockSim/src/Block.c:396-448 | for any path whose transactions are all unexecuted and no two of whose nodes share a transaction, applying it from the bottom up and then reverting it tip first restores the bitmap and the counters. Only the window bounds may differ |
| Chain.ApplyFromShift | RBlockSim/src/Block.c:442-444 | applying a path from position k+1 is applying its tail from position k |
| Chain.ApplyFromMarks | RBlockSim/src/Block.c:442-444 | applying a path keeps the bitmap length and the counters below 2^64. A bit it sets was set before or belongs to a transaction of an applied node |
| Chain.IncInRange | RBlockSim/src/Block.c:62-73 | applying one node keeps every counter below 2^64 |
| Chain.RevertAllCons | RBlockSim/src/Block.c:419-428 | reverting a path tip first is reverting its tip node and then the rest |
| Chain.RevertAllIgnoresBounds | RBlockSim/src/Block.c:419-428 | reverting a path from two ledgers that differ only in the window bounds gives results that differ only in the window bounds |
| Chain.PathEntries | RBlockSim/src/Block.c:405-415 | every node on the collected path is the ancestor of the new tip at its height |
| Chain.PathShort | RBlockSim/src/Block.c:405-415 | a walk of n steps collects at most n nodes |
| Chain.MeetAtExcludesNoMeeting | RBlockSim/src/Block.c:425-439 | when the two chains meet, they cannot also fail to meet |
| Chain.MeetAtUnique | RBlockSim/src/Block.c:425-439 | two chains meet at no more than one height |
| Chain.PathNodeOk | RBlockSim/src/Block.c:405-437 | the node k steps down a walk inside the window is at height h - k. Above genesis it carries transaction data that fits |
| Chain.NodeAtHeight | RBlockSim/src/Block.c:169-171 | a node in use sits at its level's height, not above `max_height`. Above genesis it carries transaction data that fits |
| Chain.WalkStep | RBlockSim/src/Block.c:413 | one more parent link extends a walk, and the node reached sits at its height with fitting data |
| Chain.WalkNodes | RBlockSim/src/Block.c:405-415 | the k-th node collected by a walk from height h sits at height h - k |
| Chain.WalkAtHeight | RBlockSim/src/Block.c:405-415 | where a walk has come to is the ancestor at that height |
| Chain.WalkingInUse | RBlockSim/src/Block.c:425-439 | both walkers stand on linked nodes inside the window |
| Chain.WalkingStep | RBlockSim/src/Block.c:425-439 | while the walkers stand on different nodes above the window start, both step to their parents and the chains stay apart above them |
| Chain.WalkingMeets | RBlockSim/src/Block.c:425 | walkers on the same node have found where the chains meet |
| Chain.WalkingApartAtBottom | RBlockSim/src/Block.c:425-439 | walkers still on different nodes at the window start mean the chains share no ancestor in the window |
| Chain.WalkingStart | RBlockSim/src/Block.c:405-425 | two walks brought down to the lower tip's height are where the joint loop starts |
| Chain.WalkingJoined | RBlockSim/src/Block.c:425-446 | walkers on the same node leave the chains `Forked` there. The new tip is then a valid main tip, and the collected path starts at it |
| Chain.RevertAllSnoc | RBlockSim/src/Block.c:419-428 | reverting one more node is reverting the path and then that node |
| Chain.ResetLevels | RBlockSim/src/Block.c:478-488 | the levels become `Emptied(old levels)` |
| Chain.SeekParent | RBlockSim/src/Block.c:572-588 | the search finds a parent iff the first node of the miner named by `parentMinerId` at height - 1 is linked, and returns that node's index |
| Chain.Received | RBlockSim/src/Block.c:189-201 | the new node copies miner, height, parent miner and transactions from the block, with flags, score and ancestors mined at 0, and is stamped with `now` |
| Chain.NewNode | RBlockSim/src/Block.c:564-588 | the node built is the one `Stored` describes: the received node, linked under the first same-miner node below when that node is linked, and flagged orphan otherwise |
| Chain.StoredLinking | RBlockSim/src/Block.c:572-588 | the stored node is linked iff the first same-miner node at height - 1 is linked. It then has that parent's index, score + 1 and ancestors mined. Otherwise it is an orphan with nothing inherited |
| Chain.PlacedParent | RBlockSim/src/Block.c:572-588 | a linked stored node's parent is in the window, linked, and at height - 1 |
| Chain.Blockchain.constructor | RBlockSim/src/Block.c:104-118 | the window is the genesis level followed by empty levels. Height, index, `min_height` and `max_height` are 0 |
| Chain.Blockchain.GetChainLevel | RBlockSim/src/Block.c:32-49 | no level outside the window; otherwise the level is window entry `h - min_height` |
| Chain.Blockchain.GetChainNode | RBlockSim/src/Block.c:169-171 | the result is the window's node at that height and index |
| Chain.Blockchain.GetMainChain | RBlockSim/src/Block.c:173-175 | there is a tip iff `min_height <= height`. It is the window's node at (height, index), linked and at `height` |
| Chain.Blockchain.TipPlaceable | RBlockSim/src/Block.c:626-628 | a block on top of the main tip always has a place in the window |
| Chain.Blockchain.SetChainLevel | RBlockSim/src/Block.c:43-48 | writing a level through the buffer it lives in changes exactly window entry `h - min_height` |
| Chain.Blockchain.MoveChainForward | RBlockSim/src/Block.c:497-503 | the buffers are swapped, the window becomes `Advance(old window)` and `min_height` grows by `DEPTH_TO_KEEP` |
| Chain.Blockchain.FindChainNode | RBlockSim/src/Block.c:513-523 | nothing above `max_height`, and an abort below the window. Otherwise the first node of that miner at the height, if any |
| Chain.Blockchain.ApplyChainNode | RBlockSim/src/Block.c:62-72 | the height becomes the node's height, and the ledger takes the node's effect (its transactions, plus the statistics of the configured kind) |
| Chain.Blockchain.RevertAppliedChainNode | RBlockSim/src/Block.c:74-86 | the height becomes node height - 1 (`size_t`, so 0 wraps) and the index becomes `parent_index`. The ledger takes back the node's effect |
| Chain.Blockchain.WalkNewChain | RBlockSim/src/Block.c:405-415 | the collected nodes are the new chain's path from its tip down to the main height |
| Chain.Blockchain.RevertTip | RBlockSim/src/Block.c:419-421 | the main tip is reverted, its ledger effect is taken back, and the main tip becomes its parent one height lower |
| Chain.Blockchain.RevertDownTo | RBlockSim/src/Block.c:418-422 | the main chain is reverted down to the target height (not at all when already at or below it). The reverted nodes are the walk down from the old tip, and the ledger is `RevertAll` of them |
| Chain.Blockchain.StepBoth | RBlockSim/src/Block.c:425-439 | one step reverts the main node and collects the new node, moving both to their parents |
| Chain.Blockchain.StepUntilMet | RBlockSim/src/Block.c:425-439 | stepping ends when the walkers stand on the same node or reach the window start. The ledger is `RevertAll` of the reverted nodes |
| Chain.Blockchain.RevertToCommonAncestor | RBlockSim/src/Block.c:425-439 | it succeeds iff the walkers meet, and on failure they are at the window start. Starting on the same node reverts and collects nothing |
| Chain.Blockchain.ApplyPath | RBlockSim/src/Block.c:442-444 | the collected nodes are applied from the oldest, the height becomes the newest one's height, and the ledger becomes `ApplyFrom` the path |
| Chain.Blockchain.ApplyNewChain | RBlockSim/src/Block.c:442-446 | height and index become the new tip's, and the ledger is the collected path applied from the bottom |
| Chain.Blockchain.RevertToFork | RBlockSim/src/Block.c:405-439 | it fails iff the old tip is below the window or the chains never meet. Switching to the current tip reverts and collects nothing. The ledger is `RevertAll` of what was reverted |
| Chain.Blockchain.SwitchChains | RBlockSim/src/Block.c:396-448 | it fails iff the chains do not meet in the window. On success, height and index are the new tip's, the two tips are `Forked` at the common ancestor, and the ledger is the new path applied over the reverted old path. Switching to the current tip changes nothing |
| Chain.Blockchain.MaybeSwitchChains | RBlockSim/src/Block.c:463-469 | it fails iff the tip is below the window, or the new node is preferred and the chains do not meet. The result says whether `chainNodeMax(main, new)` picks the new node: false changes nothing, and true switches as `SwitchChains` does |
| Chain.Blockchain.UnorphanBlocks | RBlockSim/src/Block.c:321-363 | the result and the new window are `UnorphanResult`: nothing above `max_height`. Otherwise the level is scanned in index order, each orphan of the parent's miner is relinked and recursed into at the next height, and the returned child is folded with `chainNodeMax` over the linked nodes and the deeper results |
| Chain.UnorphanChainOfTwo | RBlockSim/test/Block.c:316-330 | the parent of two chained orphans arrives: the orphan at height 2 is relinked under it, its orphan child at height 3 under that one, the linked nodes beside them are untouched, and the returned best is the height-3 node, which the honest rule prefers to the parent |
| Chain.Blockchain.UnorphanLevel | RBlockSim/src/Block.c:329-360 | the scan of one level ends in `UnorphanResult` for that height. Each step keeps the rest of the scan (`UnorphanScan`) equal to that result |
| Chain.Blockchain.UnorphanAt | RBlockSim/src/Block.c:330-359 | one entry of the scan: the scan from the next index on the new window equals the scan from this index on the old one |
| Chain.Blockchain.Adopt | RBlockSim/src/Block.c:336-357 | relinking a matching orphan and recursing one height up advances the scan by one entry: the scan from the next index equals the scan from this one |
| Chain.Blockchain.Descend | RBlockSim/src/Block.c:351-357 | the window becomes the one the recursion one height up leaves, and the best child becomes the deeper result exactly when `chainNodeMax` prefers it to the best so far |
| Chain.Blockchain.LinkOrphan | RBlockSim/src/Block.c:336-349 | the orphan at that index is replaced by `Relink(orphan, index, parent)` and nothing else in the window changes. The best so far becomes the linked node when there was none or `chainNodeMax` prefers it |
| Chain.Blockchain.MakeRoom | RBlockSim/src/Block.c:540-546 | `max_height` is raised to the block's height, and the window is `Spread` forward when the height reaches `min + 2*DEPTH` |
| Chain.Blockchain.InsertNode | RBlockSim/src/Block.c:549-588 | the block's node is appended to its level as `Placed` says: linked by the parent search or flagged orphan |
| Chain.Blockchain.IncAncestorsMined | RBlockSim/src/Block.c:641 | only the stored node changes: its `ancestorsMined` grows by one (uint32) |
| Chain.Blockchain.PlaceBlock | RBlockSim/src/Block.c:540-588 | it fails iff the height has no place in the window. Otherwise the block is stored as `Placed` says |
| Chain.Blockchain.PickCandidate | RBlockSim/src/Block.c:590-600 | the orphans waiting on the new node are relinked as `UnorphanResult` says, and levels at or below its height are untouched. The candidate is the unorphaned best exactly when `chainNodeMax` prefers it to the new node, and the new node otherwise |
| Chain.Blockchain.UnorphanAndSwitch | RBlockSim/src/Block.c:590-604 | the descendants are relinked and the candidate chosen as `Candidate` says. The chain then switches to that candidate as `Switched` says, failing iff the switch finds no common ancestor |
| Chain.Blockchain.SettleBlock | RBlockSim/src/Block.c:585-606 | an orphan leaves the window, the main chain and the ledger alone. A linked node relinks its descendants, chooses its `Candidate`, and switches as `Switched` says |
| Chain.Blockchain.AddBlock | RBlockSim/src/Block.c:538-607 | a height outside the window fails. Otherwise the node is stored as `Placed` says. An orphan leaves the main chain and ledger alone. A linked node relinks its descendants (`UnorphanResult`), chooses its `Candidate`, the unorphaned best iff `chainNodeMax` prefers it, and switches as `Switched` says. It fails only when that switch finds no common ancestor |
| Chain.Blockchain.StoreBlock | RBlockSim/src/Block.c:538-607 | `addBlock` as its callers see it. A height outside the window fails. A stored node has the block's height, miner, data and the current time. A linked node has a linked parent one level down, mined by the block's `prevBlockMiner`, with equal ancestors mined and a score that is `Inc32` of the parent's. An orphan has no ancestors mined and leaves the main tip alone |
| Chain.Blockchain.AddOwnBlock | RBlockSim/src/Block.c:638-641 | `addBlock`, then `ancestorsMined + 1` on the stored node. The node carries the block's data. A linked node has its parent's ancestors mined and score + 1, and an orphan has none |
| BlockchainStates.ValidateBlock | RBlockSim/src/Block.c:177-181 | every block is valid and costs `BLOCK_VALIDATION_TIME` |
| BlockchainStates.BlockTransactions | RBlockSim/src/Block.c:612-619 | with a transaction state, delivery moves `low` and `high` as `deliverNewTransactions` does, and the bitmap is unchanged. The data is empty when the delivered window is, and otherwise selected from it as `generateTransactionData` selects (`GeneratedFrom`). Without a state it is empty |
| BlockchainStates.BlockchainState.constructor | RBlockSim/src/Block.c:120-126 | a fresh chain holding genesis, and nothing mined |
| BlockchainStates.BlockchainState.GenerateBlock | RBlockSim/src/Block.c:609-643 | the block is mined on the old main tip by `me` at `now`, one level up. Its data is what `generateTransactionData` picks from the delivered window of the old state, or empty without a transaction state. `mined_by_me` grows by one and the stored node gets `ancestorsMined + 1`, as `MineOnTip` states |
| BlockchainStates.BlockchainState.MineOnTip | RBlockSim/src/Block.c:624-642 | the new block is at the main tip's height + 1, and its `prevBlockMiner` is the tip's miner. `mined_by_me` grows by one (uint32), and the stored node has ancestors mined + 1. A linked node copies its parent's ancestors mined, with score + 1. It fails when the chain has no tip in the window |
| BlockchainStates.BlockchainState.ReceiveBlock | RBlockSim/src/Block.c:645-662 | elapsed is the validation time. The stored node is found at the block's height. `foundParent` says the node is linked, and `updatedMainChain` says height or index moved |
| Statistics.Inc | RBlockSim/src/Statistics.c:181-194 | a `size_t` increment: the result always fits, and it is `x + 1` whenever that fits |
| Statistics.Dec | RBlockSim/src/Statistics.c:196-209 | a `size_t` decrement: `x - 1`, with 0 wrapping to 2^64 - 1 |
| Statistics.DecUndoesInc | RBlockSim/src/Statistics.c:181-209 | decrementing undoes incrementing |
| Statistics.IncUndoesDec | RBlockSim/src/Statistics.c:181-209 | incrementing undoes decrementing |
| Statistics.RemoveUndoesAddSelfish | RBlockSim/src/Statistics.c:181-209 | `statsRemoveBlockSelfish` undoes `statsAddBlockSelfish` for the same miner and node |
| Statistics.AddUndoesRemoveSelfish | RBlockSim/src/Statistics.c:181-209 | `statsAddBlockSelfish` undoes `statsRemoveBlockSelfish` |
| Statistics.RemoveUndoesAddFiftyOne | RBlockSim/src/Statistics.c:157-179 | `statsRemoveBlockFiftyOne` undoes `statsAddBlockFiftyOne` |
| Statistics.AddUndoesRemoveFiftyOne | RBlockSim/src/Statistics.c:157-179 | `statsAddBlockFiftyOne` undoes `statsRemoveBlockFiftyOne` |
| Statistics.CountWhere | RBlockSim/src/Statistics.c:181-194 | a count of matching miners never exceeds the number of blocks |
| Statistics.AddChainSelfishCounts | RBlockSim/src/Statistics.c:181-194 | from zero counters, adding a chain gives its length as the total, the number of blocks mined by me as own, and the number mined by attackers as attacker blocks |
| Statistics.RemoveTipSelfish | RBlockSim/src/Statistics.c:196-209 | removing the tip of a chain gives the counters of the chain without it |
| Statistics.AddChainSelfishInRange | RBlockSim/src/Statistics.c:181-194 | counters stay within `size_t` while blocks are added |
| Statistics.DigitChar | RBlockSim/src/Statistics.c:468-477 | a digit below 10 is written as a decimal digit character |
| Statistics.DigitValue | RBlockSim/src/Statistics.c:468-477 | a digit character reads back as a value below 10 |
| Statistics.Decimal | RBlockSim/src/Statistics.c:468-477 | `%lu` writes at least one digit and no leading zero |
| Statistics.ParseDecimalRoundTrip | RBlockSim/src/Statistics.c:468-477 | reading back a counter's decimal gives the counter |
| Statistics.DecimalInjective | RBlockSim/src/Statistics.c:468-477 | distinct counters have distinct decimals |
| Statistics.SplitAtSeparator | RBlockSim/src/Statistics.c:468-477 | a field of digits followed by a non-digit separator splits uniquely |
| Statistics.JoinFieldsInjective | RBlockSim/src/Statistics.c:468-477 | comma-joined digit fields, closed by a bracket, determine the fields |
| Statistics.SelfishStatsTextInjective | RBlockSim/src/Statistics.c:468-477 | the `[a,b,c,d,e]` record determines all five counters, in field order |
| Statistics.FormattedPrefix | RBlockSim/src/Statistics.c:470-471 | `snprintf` keeps a prefix of the text shorter than the buffer, and the whole text when it fits with its NUL |
| Statistics.SprintExitsCatchesTruncation | RBlockSim/src/Statistics.c:470-474 | with the intended `>=` test, not exiting is the same as keeping the whole record |
| Statistics.SprintAsWrittenTruncatesSilently | RBlockSim/src/Statistics.c:472 | zero counters in an 11-character buffer pass the code's `>` test, although only "[0,0,0,0,0" is kept |
| Statistics.SnprintfInto | RBlockSim/src/Statistics.c:470-471 | it returns the full length. The buffer holds the kept prefix followed by a NUL |
| Statistics.SprintSelfishStats | RBlockSim/src/Statistics.c:468-477 | it exits iff the record is longer than the buffer, as the `>` test says. Otherwise it returns the record's length, and the buffer holds the record's prefix that fits with a NUL. That is the whole record when it is shorter than the buffer. At exactly the buffer's length the last character is silently lost |
| Statistics.AppendStat | RBlockSim/src/Statistics.c:116-130 | capacity doubles until there is room. The entry lands at the old size and the size grows by one. Earlier entries are unchanged, and size stays within capacity |
| Statistics.StatsState.InitDetailed | RBlockSim/src/Statistics.c:7-18 | detailed statistics with both buffers at size 0 and capacity 1 |
| Statistics.StatsState.InitFiftyOne | RBlockSim/src/Statistics.c:20-26 | fifty-one statistics with both counters at zero |
| Statistics.StatsState.InitSelfish | RBlockSim/src/Statistics.c:28-37 | selfish statistics with all five counters at zero |
| Statistics.StatsState.StatsAddBlockSelfish | RBlockSim/src/Statistics.c:181-194 | it exits iff the statistics are not selfish. Otherwise the total grows, own grows iff `miner == me`, and attacker grows iff the miner is an attacker |
| Statistics.StatsState.StatsRemoveBlockSelfish | RBlockSim/src/Statistics.c:196-209 | it exits iff not selfish. Otherwise it undoes the add for the same miner |
| Statistics.StatsState.StatsAddBlockFiftyOne | RBlockSim/src/Statistics.c:157-167 | it exits iff not fifty-one. Otherwise the total grows, and attacker grows iff the miner is an attacker |
| Statistics.StatsState.StatsRemoveBlockFiftyOne | RBlockSim/src/Statistics.c:169-179 | it exits iff not fifty-one. Otherwise it undoes the add |
| Statistics.StatsState.StatsMineBlockSelfish | RBlockSim/src/Statistics.c:211-218 | it exits iff not selfish. Otherwise only the mined count grows |
| Statistics.StatsState.StatsSwitchToSelfishChain | RBlockSim/src/Statistics.c:220-227 | it exits iff not selfish. Otherwise only the switch count grows |
| Statistics.StatsState.StatsReceiveBlockDetailed | RBlockSim/src/Statistics.c:109-131 | it exits iff not detailed. Otherwise the received-block buffer gets the entry appended as `AppendStat` says |
| Statistics.StatsState.StatsMineBlockDetailed | RBlockSim/src/Statistics.c:133-155 | it exits iff not detailed. Otherwise the mined-block buffer gets the entry appended |
| Statistics.StatsState.CopySelfishStatisticsState | RBlockSim/src/Statistics.c:86-88 | the destination's selfish counters equal the source's |
| Statistics.StatsState.CopyFiftyOneStatisticsState | RBlockSim/src/Statistics.c:82-84 | the destination's fifty-one counters equal the source's |
| Attacks.SelectPicksExactly | RBlockSim/src/Attacks.c:20-27 | whatever the draws, selection sampling picks exactly as many ids as there are slots left, once the remaining nodes are enough |
| Attacks.SelectIncreasing | RBlockSim/src/Attacks.c:20-27 | the picked ids are strictly increasing and below `node_count` |
| Attacks.SelectionSampling | RBlockSim/src/Attacks.c:17-28 | with `k <= n`, exactly k strictly increasing ids below n are picked |
| Attacks.GenerateAttackers | RBlockSim/src/Attacks.c:17-28 | the ids written are `Select`, and there are exactly k of them when `k <= node_count`. The bitmap gains exactly those ids |
| Attacks.Attackers.constructor | RBlockSim/src/Attacks.c:30-33 | no attackers and an empty bitmap |
| Attacks.Attackers.InitAttackers | RBlockSim/src/Attacks.c:30-71 | the bitmap is always a fresh cleared one of `lps` bits. It returns early for no attack or zero attackers, and exits when already initialised, when a selfish or 51% attack asks for a count other than 1, or when the count reaches `lps`. Otherwise the single attacker is `draw % lps`, only its bit is set, and the bitmap marks exactly the recorded ids |
| Attacks.Attackers.IsAttacker | RBlockSim/src/Attacks.c:78-80 | the node's bit in the attacker bitmap. When the bitmap marks exactly the recorded ids, it is true iff the node is one of them |
| Network.PrefixSumMonotone | RBlockSim/src/Network.c:22-28 | prefix sums of region counts never decrease |
| Network.PrefixSumAgree | RBlockSim/src/Network.c:22-28 | the prefix sum depends only on the counts it covers |
| Network.RegionShare | RBlockSim/src/Network.c:14 | the region count is `N_NODES * share` truncated towards zero |
| Network.Shares | RBlockSim/src/Network.c:13-16 | the first five regions get their truncated shares |
| Network.RegionCountsSum | RBlockSim/src/Network.c:10-18 | the first five counts are the truncated shares. The six counts sum to `N_NODES` exactly when the first five do not exceed it; otherwise the last count wraps |
| Network.ShippedRegionCounts | RBlockSim/src/Network.c:10-18 | the shipped distribution gives 476, 222, 0, 297, 5 and 0 nodes |
| Network.InitNetwork | RBlockSim/src/Network.c:10-18 | `nodes_in_region` becomes `RegionCounts` |
| Network.GetRegion | RBlockSim/src/Network.c:22-31 | the region found is the one whose prefix range holds the node, and it is never empty. There is an abort iff the node is at or above the total |
| Network.InRegionMonotone | RBlockSim/src/Network.c:22-28 | a larger node id never gets a smaller region |
| Network.InRegionBelowTotal | RBlockSim/src/Network.c:22-28 | a node with a region is below the total count |
| Network.ShippedRegionLookups | RBlockSim/src/Network.c:22-31 | with the shipped counts, nodes 0 and 475 are in region 0, 476 in region 1, 698 in region 3, and 995 and 999 in region 4. The total is 1000, and regions 2 and 5 hold no node |
| Network.Deliveries | RBlockSim/src/Network.c:85-100 | one `RECEIVE_BLOCK` event per picked peer, in pick order, at `send_time + delay` |
| Network.DeliveriesAppend | RBlockSim/src/Network.c:85-100 | one more pick appends one more event |
| Network.ResiduesPrefix | RBlockSim/src/Network.c:94-97 | fewer draws reach no more residues |
| Network.GossipToAll | RBlockSim/src/Network.c:83-88 | every peer is targeted exactly once, in list order |
| Network.DrawUnselected | RBlockSim/src/Network.c:94-98 | re-picks are rejected, so a peer found is below `n_peers` and not picked before. Otherwise the draws have run out without a new index |
| Network.GossipToSample | RBlockSim/src/Network.c:89-103 | the picks are distinct peer indices below `n_peers`, with one event each. On success there are exactly `fanout` picks, all among the drawn indices. It fails iff the draws hold fewer than `fanout` distinct indices |
| Network.GossipBlock | RBlockSim/src/Network.c:76-106 | every peer, once and in list order, when the fanout is 0, `n_peers <= GOSSIP_FANOUT` or the sender mined the block. Otherwise a distinct sample of `GOSSIP_FANOUT` peers, failing only when the draws run out |
| Network.Receivers | RBlockSim/src/Network.c:83-118 | the receivers of the outbox, in order |
| Network.SendToEveryone | RBlockSim/src/Network.c:108-120 | every LP except the sender receives the block exactly once, in increasing id order, at send time plus the delay |
| Network.PropagateBlock | RBlockSim/src/Network.c:131-133 | it gossips over the sender's row of the serialized topology, with the sender's degree as `n_peers`, so every receiver is one of the sender's peers |

## Left out

- The ROOT-Sim runtime, event dispatch (`ProcessEvent`), option parsing and
  all file and console output. `printChainNode`, `sprintChain`, the other
  `print*`/`sprint*` helpers of Block.c and the `dump*`/`print*` functions
  of Statistics.c are not part of this model; `sprintSelfishStats` is.
- Random number generation. `Random`, `RandomU64`, `RandomRange`,
  `random.randint` and `random.random` are inputs. The exponential
  distribution of `getNextGenDelay`, the hash-power draw of
  `initBlockchainState` and `generateTransactions` are not modelled.
- `getTransmissionDelay` and the `LATENCIES` table are the parameter `delay`.
  A transaction's delivery time (`getTransactionDeliveryTime`) is the
  parameter `deliveryTime`.
- Floating point is `real`, with no rounding. Four places convert to or
  compare with integers. The first three are written out:
  - `N_NODES * REGIONS_DISTRIBUTION[i]` in `initNetwork` is truncated
    explicitly.
  - `int(max_peers * 0.9)` in `generate_symmetric_topology` becomes
    `9 * maxPeers / 10`.
  - `min_peers > max_peers * 0.9` becomes `10 * minPeers > 9 * maxPeers`.

  The last two are exact for peer counts below 2^50. The double nearest
  0.9 is slightly above 0.9. The product's rounding error is then far
  smaller than the distance to the next integer boundary, so neither the
  truncation nor the comparison changes.

  The fourth is not rendered exactly. `get_pij` compares
  `dens * max_dis >= dis`, and `Topology.ConnectionProbability` compares
  the exact real product. The two differ when double rounding pushes the
  product below an integer. With `dens = 0.29`, `max_dis = 100` and ring
  distance 29 (so `n >= 58`), the double product is 28.999999999999996.
  The source then returns `prop * dens`, while the model returns
  `prop * dens + 1 - prop`.
- Memory management. `malloc`/`realloc`/`free` and their failure aborts are
  not modelled. A level's node array is a sequence with an explicit
  capacity. The transaction data copied into a node is a value.
- `bitmap_required_size` comes from a header that is not part of this
  model. `AdditionalBufferSize` takes it as a parameter.
- Atomics and concurrency: `txns_initialized`, `totalHashPower`, and the
  global `is_attacker`, which is the parameter `isAttacker`.
- Attacks.InitAttackers: the trailing `generateAttackers(conf.lps, ...)`
  call is unreachable with the three attack types (every path has returned
  or exited before it). `GenerateAttackers` is modelled and proved on its
  own.
- Topology.GenerateSymmetricTopology: the Python rejection loop may draw
  forever. With a finite list of draws, running out is reported as a
  separate error. (`GenerateSmallWorldTopology` has no such loop. It takes
  one draw per unlinked ordered pair from a stream `nat -> real`, and fails
  only with `InvalidParameters`.)
- Network.GossipToSample: the re-pick loop may run forever, and likewise
  running out of draws is reported.
- Topology.GenerateTopologyFiles and Topology.TopologyToC produce values;
  writing `topology.c`/`topology.h` to disk is left out.
- Topology.TopologyToC: refuses a topology with more than `N_NODES` rows
  or a row longer than `MAX_PEERS`. `topology_to_c` writes such a table
  anyway, and a C compiler then warns about the excess initialisers and
  discards them. The model does not follow that truncation.
  `GenerateTopologyFiles` never produces such a topology.
- Transactions.TransactionState.DeliverNewTransactions: the loop test
  reads bit `low` before checking `low < TXN_NUMBER`, so at
  `low == TXN_NUMBER` the code reads one bit past the end. The model checks
  the bound first.
- Chain.Blockchain.GetChainLevel and the members built on it treat a height
  at or above `min_height + 2*DEPTH_TO_KEEP` as outside the window (see
  Findings), and a height below `min_height` as the abort it is.
- Statistics.StatsState.StatsMineBlockDetailed: the source sizes the mined
  buffer with `sizeof` of the received-block entry type. Both entry types
  have the same layout, so the model uses one entry type.
- `copyReceivedStatisticsState` and the `formatStats*` helpers of the
  driver are not part of this model.
- BlockchainStates.BlockchainState.ReceiveBlock: the two out flags start
  false, as at the only call site. It does not restate the window and
  ledger effect of `addBlock`, which `Chain.Blockchain.AddBlock` states.
- BlockchainStates.BlockchainState.GenerateBlock: it states the new block,
  its transaction data, the counter and the stored node (through
  `MineOnTip`). It does not restate the window and ledger effect of
  `addBlock`, which `Chain.Blockchain.AddBlock` states.
- Chain.Blockchain.AddBlock: two aborts in the source are `Failure`
  results instead:
  - a height below the window, where `getChainLevel` aborts;
  - a switch that finds no common ancestor inside the window.

  In that switch, the walkers stand on different nodes at `min_height`.
  `switchChains` reverts the main node and asks for its parent one level
  below `min_height`, where `getChainLevel` aborts. At `min_height == 0`
  the walkers always meet at genesis.
- The test suites under `test/` declare older signatures. Their asserts
  are reflected only as the properties stated above.

## Findings

| source | as written | input that shows it | evidently intended | confidence | as-written member | corrected member |
|---|---|---|---|---|---|---|
| RBlockSim/src/Transaction.c:100-110 | `data->high` starts at `low` and becomes `last + 1` only when `last != low` | the only eligible transaction is the one at `low`: the block gets `high == low`, its one transaction is dropped, and applying it marks nothing | `high` is one past the last included index whenever anything is included | medium, not executed | Transactions.LoneLowTransactionDropped | Transactions.GeneratedHighAgrees |
| RBlockSim/src/Statistics.c:472 | exits only when `written > buffer_size` | five zero counters into an 11-byte buffer: `snprintf` returns 11, keeps "[0,0,0,0,0" and the code does not exit | exit when `written >= buffer_size`, the first truncating length | high, not executed | Statistics.SprintAsWrittenTruncatesSilently | Statistics.SprintExitsCatchesTruncation |
| RBlockSim/src/Block.c:38 | the debug guard aborts only for `height > min_height + 2*DEPTH_TO_KEEP` | height `min_height + 2*DEPTH_TO_KEEP`: the guard passes, and the index `current_levels[DEPTH_TO_KEEP]` is one past the buffer (the callers in this core do not reach it) | abort for `height >= min_height + 2*DEPTH_TO_KEEP` | low, not executed | Blocks.GuardAsWrittenMissesEnd | Blocks.ChainLevelSlot |

For the first two rows the operations (`SelectTransactions`,
`GenerateTransactionData`, `SprintSelfishStats`) follow the code as
written. The intended definitions (`BlockHigh`, `SprintExits`) are stated
beside them, and the corrected-member lemmas relate the two.
