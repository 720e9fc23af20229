/** A node's view of the global transaction list: a bitmap of executed
    transactions (a set bit means the transaction is already in the node's
    main chain) and a window [low, high) of the transactions the node has
    seen and may still include in a block.

    The global transaction table is a parameter (`txns`), and the time a
    transaction reaches the node (its timestamp plus the network delay) is
    the opaque function `deliveryTime`. */
module Transactions {
  import opened Wrappers
  import opened Config

  /** The fields of a global transaction the core reads. */
  datatype Transaction = Transaction(timestamp: real, sender: nat)

  /** The transactions a block carries: offset j of `included` stands for
      transaction low + j; `high` is one past the last one the block uses. */
  datatype TransactionData = TransactionData(low: int, high: int, included: seq<bool>)

  function Max(a: int, b: int): int { if a >= b then a else b }

  function Min(a: int, b: int): int { if a <= b then a else b }

  /** The fixed part of a TransactionData bitmap holds `minSize` bytes; the
      extension holds what a bitmap of `requiredSize` bytes needs beyond it.
      `requiredSize` and `minSize` are the values bitmap_required_size gives
      for the transaction count and for TXN_DATA_MIN_TXNS. */
  function AdditionalBufferSize(requiredSize: int, minSize: int): (r: int)
    ensures r >= 0 && minSize + r >= requiredSize
    ensures requiredSize > minSize ==> minSize + r == requiredSize
    ensures requiredSize <= minSize ==> r == 0
  {
    var res := requiredSize - minSize;
    if res > 0 then res else 0
  }

  /** A transaction data block whose offsets lie inside the bitmap. */
  predicate DataFits(d: TransactionData)
  {
    0 <= d.low <= d.high <= TXN_NUMBER && d.high - d.low <= |d.included|
  }

  /** Transaction i is one the block carries. */
  predicate Included(d: TransactionData, i: int)
  {
    d.low <= i < d.high && 0 <= i - d.low < |d.included| && d.included[i - d.low]
  }

  /** The bitmap after the block's transactions are marked executed. */
  function ApplyBits(bits: seq<bool>, d: TransactionData): (b: seq<bool>)
    ensures |b| == |bits|
  {
    seq(|bits|, i requires 0 <= i < |bits| => bits[i] || Included(d, i))
  }

  /** The bitmap after the block's transactions are marked available again. */
  function RevertBits(bits: seq<bool>, d: TransactionData): (b: seq<bool>)
    ensures |b| == |bits|
  {
    seq(|bits|, i requires 0 <= i < |bits| => bits[i] && !Included(d, i))
  }

  /** First index from `low` on that is not executed, or TXN_NUMBER. */
  function NextAvailable(bits: seq<bool>, low: int): (j: int)
    requires |bits| == TXN_NUMBER && 0 <= low <= TXN_NUMBER
    ensures low <= j <= TXN_NUMBER
    ensures forall k :: low <= k < j ==> bits[k]
    ensures j == TXN_NUMBER || !bits[j]
    decreases TXN_NUMBER - low
  {
    if low < TXN_NUMBER && bits[low] then NextAvailable(bits, low + 1) else low
  }

  /** First index from `start` on whose transaction is later than `now`, or TXN_NUMBER. */
  function NextPending(txns: seq<Transaction>, start: int, now: real): (j: int)
    requires |txns| == TXN_NUMBER && 0 <= start <= TXN_NUMBER
    ensures start <= j <= TXN_NUMBER
    ensures forall k :: start <= k < j ==> txns[k].timestamp <= now
    ensures j < TXN_NUMBER ==> txns[j].timestamp > now
    decreases TXN_NUMBER - start
  {
    if start < TXN_NUMBER && txns[start].timestamp <= now then NextPending(txns, start + 1, now)
    else start
  }

  /** Advancing over executed transactions a second time stops where the first did. */
  lemma NextAvailableIdempotent(bits: seq<bool>, low: int)
    requires |bits| == TXN_NUMBER && 0 <= low <= TXN_NUMBER
    ensures NextAvailable(bits, NextAvailable(bits, low)) == NextAvailable(bits, low)
  {
  }

  lemma NextPendingIdempotent(txns: seq<Transaction>, start: int, now: real)
    requires |txns| == TXN_NUMBER && 0 <= start <= TXN_NUMBER
    ensures NextPending(txns, NextPending(txns, start, now), now) == NextPending(txns, start, now)
  {
  }

  /** A later `now` never moves `high` back. */
  lemma {:induction false} NextPendingMonotone(txns: seq<Transaction>, start: int, now: real, later: real)
    requires |txns| == TXN_NUMBER && 0 <= start <= TXN_NUMBER && now <= later
    ensures NextPending(txns, start, now) <= NextPending(txns, start, later)
    decreases TXN_NUMBER - start
  {
    if start < TXN_NUMBER && txns[start].timestamp <= now {
      NextPendingMonotone(txns, start + 1, now, later);
    }
  }

  /** The first loop of deliverNewTransactions: skip the executed prefix from `low`. */
  method SkipExecuted(bitmap: array<bool>, low: int) returns (l: int)
    requires bitmap.Length == TXN_NUMBER && 0 <= low <= TXN_NUMBER
    ensures l == NextAvailable(bitmap[..], low)
  {
    l := low;
    while l < TXN_NUMBER && bitmap[l]
      invariant low <= l <= TXN_NUMBER
      invariant NextAvailable(bitmap[..], l) == NextAvailable(bitmap[..], low)
      decreases TXN_NUMBER - l
    {
      l := l + 1;
    }
  }

  /** The second loop of deliverNewTransactions: skip every transaction issued by `now`. */
  method SkipIssued(txns: seq<Transaction>, start: int, now: real) returns (i: int)
    requires |txns| == TXN_NUMBER && 0 <= start <= TXN_NUMBER
    ensures i == NextPending(txns, start, now)
  {
    i := start;
    while i < TXN_NUMBER
      invariant start <= i <= TXN_NUMBER
      invariant NextPending(txns, i, now) == NextPending(txns, start, now)
      decreases TXN_NUMBER - i
    {
      if txns[i].timestamp > now {
        break;
      }
      i := i + 1;
    }
  }

  /** Transaction i may go into a block mined by `me` at time `now`. */
  predicate Eligible(bits: seq<bool>, txns: seq<Transaction>, deliveryTime: nat -> real,
                     me: nat, now: real, i: int)
    requires |bits| == TXN_NUMBER && |txns| == TXN_NUMBER
  {
    0 <= i < TXN_NUMBER && !bits[i] && (txns[i].sender == me || deliveryTime(i) < now)
  }

  /** Offset j of `included` is set exactly when transaction low + j is eligible. */
  predicate Selects(bits: seq<bool>, txns: seq<Transaction>, deliveryTime: nat -> real,
                    me: nat, now: real, low: int, included: seq<bool>)
    requires |bits| == TXN_NUMBER && |txns| == TXN_NUMBER
  {
    forall j :: 0 <= j < |included| ==>
      (included[j] <==> Eligible(bits, txns, deliveryTime, me, now, low + j))
  }

  /** One past the last included offset, counted from `low`; `low` when
      nothing is included. */
  function BlockHigh(low: int, included: seq<bool>): (h: int)
    ensures (forall j :: 0 <= j < |included| ==> !included[j]) ==> h == low
    ensures (exists j :: 0 <= j < |included| && included[j]) ==>
              low < h <= low + |included| && included[h - low - 1]
              && forall j :: h - low <= j < |included| ==> !included[j]
    decreases |included|
  {
    if included == [] then low
    else if included[|included| - 1] then low + |included|
    else BlockHigh(low, included[..|included| - 1])
  }

  /** The final value of data->high as Transaction.c computes it from the
      last included index `last` (which starts at `low`). */
  function BlockHighAsWritten(low: int, last: int): int
  {
    if last != low then last + 1 else low
  }

  /** The index data->high holds when the selection loop ends: the last
      included index, or its initial value `low` when nothing is included. */
  function LastTaken(low: int, included: seq<bool>): (last: int)
    ensures (forall j :: 0 <= j < |included| ==> !included[j]) ==> last == low
    ensures (exists j :: 0 <= j < |included| && included[j]) ==>
              low <= last < low + |included| && included[last - low]
              && forall j :: last - low < j < |included| ==> !included[j]
    decreases |included|
  {
    if included == [] then low
    else if included[|included| - 1] then low + |included| - 1
    else LastTaken(low, included[..|included| - 1])
  }

  /** data->high as generateTransactionData returns it for the offsets
      `included` of a window starting at `low`. */
  function GeneratedHigh(low: int, included: seq<bool>): int
  {
    BlockHighAsWritten(low, LastTaken(low, included))
  }

  /** The returned high is the intended one, except that a block whose only
      included transaction is the one at `low` gets `low` instead of
      `low + 1`. */
  lemma GeneratedHighAgrees(low: int, included: seq<bool>)
    ensures BlockHigh(low, included) != low + 1 ==> GeneratedHigh(low, included) == BlockHigh(low, included)
    ensures BlockHigh(low, included) == low + 1 ==> GeneratedHigh(low, included) == low
  {
    if exists j :: 0 <= j < |included| && included[j] {
      BlockHighAsWrittenAgrees(low, included, LastTaken(low, included));
    }
  }

  /** The two agree except when the last (hence only) included index is low. */
  lemma BlockHighAsWrittenAgrees(low: int, included: seq<bool>, last: int)
    requires low <= last < low + |included| && included[last - low]
    requires forall j :: last - low < j < |included| ==> !included[j]
    ensures last != low ==> BlockHighAsWritten(low, last) == BlockHigh(low, included)
    ensures last == low ==> BlockHighAsWritten(low, last) == low < BlockHigh(low, included)
  {
  }

  /** A block whose single transaction is the window's first one: as written
      it leaves high == low, so applying it marks nothing executed; with the
      intended high the transaction is marked. */
  lemma LoneLowTransactionDropped(bits: seq<bool>)
    requires |bits| == TXN_NUMBER && !bits[0]
    ensures GeneratedHigh(0, [true]) == 0
    ensures var d := TransactionData(0, GeneratedHigh(0, [true]), [true]);
            ApplyBits(bits, d) == bits
    ensures var d := TransactionData(0, BlockHigh(0, [true]), [true]);
            d.high == 1 && ApplyBits(bits, d)[0] && ApplyBits(bits, d) == bits[0 := true]
  {
    var d := TransactionData(0, GeneratedHigh(0, [true]), [true]);
    assert forall i :: 0 <= i < |bits| ==> !Included(d, i);
    var e := TransactionData(0, BlockHigh(0, [true]), [true]);
    assert forall i :: 0 < i < |bits| ==> !Included(e, i);
  }

  /** Undoing a block whose transactions were all available restores the bitmap. */
  lemma RevertUndoesApply(bits: seq<bool>, d: TransactionData)
    requires forall i :: 0 <= i < |bits| && Included(d, i) ==> !bits[i]
    ensures RevertBits(ApplyBits(bits, d), d) == bits
  {
    var b := RevertBits(ApplyBits(bits, d), d);
    assert forall i :: 0 <= i < |bits| ==> b[i] == bits[i];
  }

  /** Re-applying a reverted block whose transactions were all executed restores the bitmap. */
  lemma ApplyUndoesRevert(bits: seq<bool>, d: TransactionData)
    requires forall i :: 0 <= i < |bits| && Included(d, i) ==> bits[i]
    ensures ApplyBits(RevertBits(bits, d), d) == bits
  {
    var b := ApplyBits(RevertBits(bits, d), d);
    assert forall i :: 0 <= i < |bits| ==> b[i] == bits[i];
  }

  /** Reverting the tip block keeps the bits of the block below it when the
      two carry different transactions. */
  lemma RevertKeepsOtherBlock(bits: seq<bool>, below: TransactionData, tip: TransactionData)
    requires forall i :: 0 <= i < |bits| ==> !(Included(below, i) && Included(tip, i))
    requires forall i :: 0 <= i < |bits| && Included(tip, i) ==> !bits[i]
    ensures RevertBits(ApplyBits(ApplyBits(bits, below), tip), tip) == ApplyBits(bits, below)
    ensures forall i :: 0 <= i < |bits| && Included(below, i) ==>
              RevertBits(ApplyBits(ApplyBits(bits, below), tip), tip)[i]
  {
    RevertUndoesApply(ApplyBits(bits, below), tip);
  }

  method MarkTransactionExecuted(bitmap: array<bool>, id: nat)
    requires id < bitmap.Length
    modifies bitmap
    ensures bitmap[..] == old(bitmap[..])[id := true]
  {
    bitmap[id] := true;
  }

  method MarkTransactionAvailable(bitmap: array<bool>, id: nat)
    requires id < bitmap.Length
    modifies bitmap
    ensures bitmap[..] == old(bitmap[..])[id := false]
  {
    bitmap[id] := false;
  }

  class TransactionState {
    var transactionsBitmap: array<bool>
    var low: int
    var high: int

    ghost predicate Valid()
      reads this
    {
      transactionsBitmap.Length == TXN_NUMBER && 0 <= low <= TXN_NUMBER && high <= TXN_NUMBER
    }

    /** initTransactionState: nothing executed, empty window. */
    constructor ()
      ensures Valid() && fresh(transactionsBitmap)
      ensures transactionsBitmap[..] == seq(TXN_NUMBER, _ => false)
      ensures low == 0 && high == 0
    {
      transactionsBitmap := new bool[TXN_NUMBER](_ => false);
      low := 0;
      high := 0;
    }

    /** Move `low` past the executed prefix and `high` past every
        transaction issued by `now`. */
    method DeliverNewTransactions(txns: seq<Transaction>, now: real)
      requires Valid() && |txns| == TXN_NUMBER
      modifies this
      ensures Valid() && transactionsBitmap == old(transactionsBitmap)
      ensures low == NextAvailable(transactionsBitmap[..], old(low))
      ensures high == NextPending(txns, Max(old(high), 0), now)
      ensures high >= old(high)
    {
      var l := SkipExecuted(transactionsBitmap, low);
      var i := SkipIssued(txns, if high < 0 then 0 else high, now);
      low := l;
      high := i;
    }

    /** Mark every transaction the block carries as executed. */
    method ApplyBlockTransactions(d: TransactionData)
      requires Valid() && DataFits(d)
      modifies this, transactionsBitmap
      ensures Valid() && transactionsBitmap == old(transactionsBitmap)
      ensures transactionsBitmap[..] == ApplyBits(old(transactionsBitmap[..]), d)
      ensures low == old(low) && high == Max(old(high), d.high)
    {
      ghost var before := transactionsBitmap[..];
      var i := d.low;
      while i < d.high
        invariant d.low <= i <= d.high
        invariant transactionsBitmap == old(transactionsBitmap) && low == old(low) && high == old(high)
        invariant forall k :: 0 <= k < TXN_NUMBER ==>
                    transactionsBitmap[k] == (before[k] || (Included(d, k) && k < i))
      {
        if d.included[i - d.low] {
          MarkTransactionExecuted(transactionsBitmap, i);
        }
        i := i + 1;
      }
      high := Max(high, d.high);
    }

    /** Mark every transaction the block carries as available again. */
    method RevertAppliedBlockTransactions(d: TransactionData)
      requires Valid() && DataFits(d)
      modifies this, transactionsBitmap
      ensures Valid() && transactionsBitmap == old(transactionsBitmap)
      ensures transactionsBitmap[..] == RevertBits(old(transactionsBitmap[..]), d)
      ensures high == old(high) && low == Min(old(low), d.low)
    {
      ghost var before := transactionsBitmap[..];
      var i := d.low;
      while i < d.high
        invariant d.low <= i <= d.high
        invariant transactionsBitmap == old(transactionsBitmap) && low == old(low) && high == old(high)
        invariant forall k :: 0 <= k < TXN_NUMBER ==>
                    transactionsBitmap[k] == (before[k] && !(Included(d, k) && k < i))
      {
        if d.included[i - d.low] {
          MarkTransactionAvailable(transactionsBitmap, i);
        }
        i := i + 1;
      }
      low := Min(low, d.low);
    }
  }

  /** Choose the transactions of a new block: after delivering, one offset
      per transaction of the window, set for the eligible ones.  No state,
      or an empty window, gives no data.  The bitmap is only read. */
  method GenerateTransactionData(state: TransactionState?, now: real, me: nat,
                                 txns: seq<Transaction>, deliveryTime: nat -> real)
    returns (data: Option<TransactionData>)
    requires state != null ==> state.Valid()
    requires |txns| == TXN_NUMBER
    modifies state
    ensures state == null ==> data == None
    ensures state != null ==>
              state.Valid() && state.transactionsBitmap == old(state.transactionsBitmap)
              && state.low == NextAvailable(state.transactionsBitmap[..], old(state.low))
              && state.high == NextPending(txns, Max(old(state.high), 0), now)
              && (data.None? <==> state.high <= state.low)
    ensures data.Some? ==>
              state != null &&
              var d := data.value;
              var bits := state.transactionsBitmap[..];
              DataFits(d) && d.low == state.low && |d.included| == state.high - state.low
              && Selects(bits, txns, deliveryTime, me, now, d.low, d.included)
              && d.high == GeneratedHigh(d.low, d.included)
  {
    if state == null {
      return None;
    }
    state.DeliverNewTransactions(txns, now);
    if state.high <= state.low {
      return None;
    }
    var included, high := SelectTransactions(state.transactionsBitmap, state.low, state.high,
                                             me, now, txns, deliveryTime);
    data := Some(TransactionData(state.low, high, included));
  }

  /** The selection loop of generateTransactionData over [low, stop): offset
      j is included when transaction low + j is eligible; high holds the
      last included index (low when none is) and then moves one past it
      unless it is still low. */
  method SelectTransactions(bitmap: array<bool>, low: nat, stop: nat, me: nat, now: real,
                            txns: seq<Transaction>, deliveryTime: nat -> real)
    returns (included: seq<bool>, high: int)
    requires bitmap.Length == TXN_NUMBER && |txns| == TXN_NUMBER && low <= stop <= TXN_NUMBER
    ensures |included| == stop - low && low <= high <= stop && high == GeneratedHigh(low, included)
    ensures Selects(bitmap[..], txns, deliveryTime, me, now, low, included)
  {
    ghost var bits := bitmap[..];
    // The included bitmap starts cleared; offset j is decided at step j.
    included := [];
    high := low;
    var i := low;
    while i < stop
      invariant low <= i <= stop && |included| == i - low && low <= high <= i
      invariant high == LastTaken(low, included) && (high > low ==> high < i)
      invariant forall j :: 0 <= j < |included| ==>
                  (included[j] <==> Eligible(bits, txns, deliveryTime, me, now, low + j))
    {
      var take := !bitmap[i] && (txns[i].sender == me || deliveryTime(i) < now);
      if take {
        high := i;
      }
      assert (included + [take])[..|included|] == included;
      included := included + [take];
      i := i + 1;
    }
    if high != low {
      high := high + 1;
    }
  }

}
