/** Per-node statistics: the counters the selfish-mining and 51% runs keep
    about the node's main chain, the append-only logs of the detailed runs,
    and the decimal record sprintSelfishStats writes.

    The simulator keeps the statistics kind in one global variable that the
    init functions set; here it is the field `statsType` of the state, and
    every update that finds the wrong kind reports that the process exits.
    Counters are C size_t values and wrap modulo 2^64. */
module Statistics {
  import opened Wrappers
  import opened Config

  datatype StatsType = StatsNone | StatsDetailed | StatsFiftyOne | StatsSelfish

  /** One entry of a detailed log; BlockStat and MinedBlockStat have the
      same three fields (miner, height, time). */
  datatype BlockStat = BlockStat(miner: nat, height: nat, time: real)

  datatype FiftyOneStats = FiftyOneStats(attackerBlocksInMainChain: nat, totalBlocksInMainChain: nat)

  datatype SelfishStats = SelfishStats(
    attackerBlocksInMainChain: nat,
    totalBlocksInMainChain: nat,
    totalBlocksMined: nat,
    ownBlocksInMainChain: nat,
    switchesToSelfishChain: nat)

  // ---------------------------------------------------------------------
  // size_t counters

  predicate IsSize(x: nat) { x < SIZE_T_MODULUS }

  function Inc(x: nat): (y: nat)
    ensures IsSize(y)
    ensures x + 1 < SIZE_T_MODULUS ==> y == x + 1
  {
    (x + 1) % SIZE_T_MODULUS
  }

  function Dec(x: nat): (y: nat)
    ensures IsSize(y)
    ensures 0 < x <= SIZE_T_MODULUS ==> y == x - 1
    ensures x == 0 ==> y == SIZE_T_MODULUS - 1
  {
    (x - 1) % SIZE_T_MODULUS
  }

  lemma DecUndoesInc(x: nat)
    requires IsSize(x)
    ensures Dec(Inc(x)) == x
  {
    if x + 1 == SIZE_T_MODULUS {
      assert Inc(x) == 0;
    }
  }

  lemma IncUndoesDec(x: nat)
    requires IsSize(x)
    ensures Inc(Dec(x)) == x
  {
  }

  predicate SelfishInRange(s: SelfishStats)
  {
    IsSize(s.attackerBlocksInMainChain) && IsSize(s.totalBlocksInMainChain) && IsSize(s.totalBlocksMined)
    && IsSize(s.ownBlocksInMainChain) && IsSize(s.switchesToSelfishChain)
  }

  predicate FiftyOneInRange(s: FiftyOneStats)
  {
    IsSize(s.attackerBlocksInMainChain) && IsSize(s.totalBlocksInMainChain)
  }

  // ---------------------------------------------------------------------
  // Main-chain counters as values

  /** A block mined by `miner` joins the main chain of node `me`. */
  function AddBlockSelfish(s: SelfishStats, miner: nat, me: nat, isAttacker: nat -> bool): SelfishStats
  {
    s.(totalBlocksInMainChain := Inc(s.totalBlocksInMainChain),
       ownBlocksInMainChain := if miner == me then Inc(s.ownBlocksInMainChain) else s.ownBlocksInMainChain,
       attackerBlocksInMainChain :=
         if isAttacker(miner) then Inc(s.attackerBlocksInMainChain) else s.attackerBlocksInMainChain)
  }

  /** A block mined by `miner` leaves the main chain of node `me`. */
  function RemoveBlockSelfish(s: SelfishStats, miner: nat, me: nat, isAttacker: nat -> bool): SelfishStats
  {
    s.(totalBlocksInMainChain := Dec(s.totalBlocksInMainChain),
       ownBlocksInMainChain := if miner == me then Dec(s.ownBlocksInMainChain) else s.ownBlocksInMainChain,
       attackerBlocksInMainChain :=
         if isAttacker(miner) then Dec(s.attackerBlocksInMainChain) else s.attackerBlocksInMainChain)
  }

  function AddBlockFiftyOne(s: FiftyOneStats, miner: nat, isAttacker: nat -> bool): FiftyOneStats
  {
    s.(totalBlocksInMainChain := Inc(s.totalBlocksInMainChain),
       attackerBlocksInMainChain :=
         if isAttacker(miner) then Inc(s.attackerBlocksInMainChain) else s.attackerBlocksInMainChain)
  }

  function RemoveBlockFiftyOne(s: FiftyOneStats, miner: nat, isAttacker: nat -> bool): FiftyOneStats
  {
    s.(totalBlocksInMainChain := Dec(s.totalBlocksInMainChain),
       attackerBlocksInMainChain :=
         if isAttacker(miner) then Dec(s.attackerBlocksInMainChain) else s.attackerBlocksInMainChain)
  }

  lemma RemoveUndoesAddSelfish(s: SelfishStats, miner: nat, me: nat, isAttacker: nat -> bool)
    requires SelfishInRange(s)
    ensures RemoveBlockSelfish(AddBlockSelfish(s, miner, me, isAttacker), miner, me, isAttacker) == s
  {
    DecUndoesInc(s.totalBlocksInMainChain);
    DecUndoesInc(s.ownBlocksInMainChain);
    DecUndoesInc(s.attackerBlocksInMainChain);
  }

  lemma AddUndoesRemoveSelfish(s: SelfishStats, miner: nat, me: nat, isAttacker: nat -> bool)
    requires SelfishInRange(s)
    ensures AddBlockSelfish(RemoveBlockSelfish(s, miner, me, isAttacker), miner, me, isAttacker) == s
  {
    IncUndoesDec(s.totalBlocksInMainChain);
    IncUndoesDec(s.ownBlocksInMainChain);
    IncUndoesDec(s.attackerBlocksInMainChain);
  }

  lemma RemoveUndoesAddFiftyOne(s: FiftyOneStats, miner: nat, isAttacker: nat -> bool)
    requires FiftyOneInRange(s)
    ensures RemoveBlockFiftyOne(AddBlockFiftyOne(s, miner, isAttacker), miner, isAttacker) == s
  {
    DecUndoesInc(s.totalBlocksInMainChain);
    DecUndoesInc(s.attackerBlocksInMainChain);
  }

  lemma AddUndoesRemoveFiftyOne(s: FiftyOneStats, miner: nat, isAttacker: nat -> bool)
    requires FiftyOneInRange(s)
    ensures AddBlockFiftyOne(RemoveBlockFiftyOne(s, miner, isAttacker), miner, isAttacker) == s
  {
    IncUndoesDec(s.totalBlocksInMainChain);
    IncUndoesDec(s.attackerBlocksInMainChain);
  }

  /** Number of entries of `miners` satisfying `p`. */
  function CountWhere(miners: seq<nat>, p: nat -> bool): (c: nat)
    ensures c <= |miners|
  {
    if miners == [] then 0
    else CountWhere(miners[..|miners| - 1], p) + (if p(miners[|miners| - 1]) then 1 else 0)
  }

  /** Counters after adding the blocks of a main chain, bottom first, to `base`. */
  function AddChainSelfish(base: SelfishStats, miners: seq<nat>, me: nat, isAttacker: nat -> bool): SelfishStats
  {
    if miners == [] then base
    else AddBlockSelfish(AddChainSelfish(base, miners[..|miners| - 1], me, isAttacker),
                         miners[|miners| - 1], me, isAttacker)
  }

  /** Starting from zeroed counters, the main-chain counters count the chain:
      its length, the node's own blocks and the attacker's blocks. */
  lemma {:induction false} AddChainSelfishCounts(miners: seq<nat>, me: nat, isAttacker: nat -> bool)
    requires |miners| < SIZE_T_MODULUS
    ensures var s := AddChainSelfish(SelfishStats(0, 0, 0, 0, 0), miners, me, isAttacker);
            s.totalBlocksInMainChain == |miners|
            && s.ownBlocksInMainChain == CountWhere(miners, m => m == me)
            && s.attackerBlocksInMainChain == CountWhere(miners, isAttacker)
            && s.totalBlocksMined == 0 && s.switchesToSelfishChain == 0
  {
    if miners != [] {
      var init := miners[..|miners| - 1];
      AddChainSelfishCounts(init, me, isAttacker);
      assert CountWhere(init, m => m == me) <= |init|;
      assert CountWhere(init, isAttacker) <= |init|;
    }
  }

  /** Dropping the tip of the main chain is the same as never adding it. */
  lemma RemoveTipSelfish(base: SelfishStats, miners: seq<nat>, me: nat, isAttacker: nat -> bool)
    requires miners != [] && SelfishInRange(base)
    requires |miners| < SIZE_T_MODULUS
    ensures RemoveBlockSelfish(AddChainSelfish(base, miners, me, isAttacker), miners[|miners| - 1], me, isAttacker)
         == AddChainSelfish(base, miners[..|miners| - 1], me, isAttacker)
  {
    var below := AddChainSelfish(base, miners[..|miners| - 1], me, isAttacker);
    AddChainSelfishInRange(base, miners[..|miners| - 1], me, isAttacker);
    RemoveUndoesAddSelfish(below, miners[|miners| - 1], me, isAttacker);
  }

  lemma {:induction false} AddChainSelfishInRange(base: SelfishStats, miners: seq<nat>, me: nat, isAttacker: nat -> bool)
    requires SelfishInRange(base)
    ensures SelfishInRange(AddChainSelfish(base, miners, me, isAttacker))
  {
    if miners != [] {
      AddChainSelfishInRange(base, miners[..|miners| - 1], me, isAttacker);
    }
  }

  // ---------------------------------------------------------------------
  // %lu and sprintSelfishStats

  predicate IsDigit(c: char) { '0' <= c <= '9' }

  predicate AllDigits(s: string) { forall k :: 0 <= k < |s| ==> IsDigit(s[k]) }

  function DigitChar(d: nat): (c: char)
    requires d < 10
    ensures IsDigit(c)
  {
    (48 + d) as char
  }

  function DigitValue(c: char): (d: nat)
    requires IsDigit(c)
    ensures d < 10
  {
    (c as int) - 48
  }

  /** The decimal text %lu prints for n. */
  function Decimal(n: nat): (s: string)
    ensures |s| >= 1 && AllDigits(s)
    ensures |s| == 1 || s[0] != '0'
    decreases n
  {
    if n < 10 then [DigitChar(n)] else Decimal(n / 10) + [DigitChar(n % 10)]
  }

  function ParseDecimal(s: string): nat
    requires AllDigits(s)
  {
    if s == [] then 0 else 10 * ParseDecimal(s[..|s| - 1]) + DigitValue(s[|s| - 1])
  }

  lemma {:induction false} ParseDecimalRoundTrip(n: nat)
    ensures ParseDecimal(Decimal(n)) == n
    decreases n
  {
    if n >= 10 {
      var s := Decimal(n);
      assert s[..|s| - 1] == Decimal(n / 10);
      ParseDecimalRoundTrip(n / 10);
    }
  }

  lemma DecimalInjective(a: nat, b: nat)
    requires Decimal(a) == Decimal(b)
    ensures a == b
  {
    ParseDecimalRoundTrip(a);
    ParseDecimalRoundTrip(b);
  }

  /** Two digit strings each followed by the same non-digit separator split a
      text the same way. */
  lemma SplitAtSeparator(a: string, b: string, x: string, y: string, sep: char)
    requires AllDigits(a) && AllDigits(b) && !IsDigit(sep)
    requires a + [sep] + x == b + [sep] + y
    ensures a == b && x == y
  {
    var l := a + [sep] + x;
    assert l[|a|] == sep;
    assert (b + [sep] + y)[|b|] == sep;
    assert |a| == |b|;
    assert a == l[..|a|] == b;
    assert x == l[|a| + 1..] == y;
  }

  /** Fields separated by commas. */
  function JoinFields(fields: seq<string>): string
    requires |fields| >= 1
  {
    if |fields| == 1 then fields[0] else fields[0] + "," + JoinFields(fields[1..])
  }

  lemma {:induction false} JoinFieldsInjective(xs: seq<string>, ys: seq<string>, close: char)
    requires |xs| == |ys| >= 1 && !IsDigit(close) && close != ','
    requires forall k :: 0 <= k < |xs| ==> AllDigits(xs[k])
    requires forall k :: 0 <= k < |ys| ==> AllDigits(ys[k])
    requires JoinFields(xs) + [close] == JoinFields(ys) + [close]
    ensures xs == ys
  {
    if |xs| == 1 {
      SplitAtSeparator(xs[0], ys[0], [], [], close);
    } else {
      assert JoinFields(xs) + [close] == xs[0] + [','] + (JoinFields(xs[1..]) + [close]);
      assert JoinFields(ys) + [close] == ys[0] + [','] + (JoinFields(ys[1..]) + [close]);
      SplitAtSeparator(xs[0], ys[0], JoinFields(xs[1..]) + [close], JoinFields(ys[1..]) + [close], ',');
      JoinFieldsInjective(xs[1..], ys[1..], close);
      assert xs == [xs[0]] + xs[1..] && ys == [ys[0]] + ys[1..];
    }
  }

  function SelfishFields(s: SelfishStats): seq<string>
  {
    [Decimal(s.attackerBlocksInMainChain), Decimal(s.totalBlocksInMainChain), Decimal(s.totalBlocksMined),
     Decimal(s.ownBlocksInMainChain), Decimal(s.switchesToSelfishChain)]
  }

  /** The record sprintSelfishStats formats: [a,b,c,d,e], the five counters
      in field order as %lu decimals. */
  function SelfishStatsText(s: SelfishStats): string
  {
    "[" + JoinFields(SelfishFields(s)) + "]"
  }

  /** The record determines the five counters. */
  lemma SelfishStatsTextInjective(s: SelfishStats, t: SelfishStats)
    requires SelfishStatsText(s) == SelfishStatsText(t)
    ensures s == t
  {
    var xs, ys := SelfishFields(s), SelfishFields(t);
    assert SelfishStatsText(s)[1..] == JoinFields(xs) + "]";
    assert SelfishStatsText(t)[1..] == JoinFields(ys) + "]";
    JoinFieldsInjective(xs, ys, ']');
    assert xs[0] == ys[0] && xs[1] == ys[1] && xs[2] == ys[2] && xs[3] == ys[3] && xs[4] == ys[4];
    DecimalInjective(s.attackerBlocksInMainChain, t.attackerBlocksInMainChain);
    DecimalInjective(s.totalBlocksInMainChain, t.totalBlocksInMainChain);
    DecimalInjective(s.totalBlocksMined, t.totalBlocksMined);
    DecimalInjective(s.ownBlocksInMainChain, t.ownBlocksInMainChain);
    DecimalInjective(s.switchesToSelfishChain, t.switchesToSelfishChain);
  }

  /** What snprintf leaves before the terminating NUL in a buffer of `size`
      characters: the text, cut to size - 1 characters. */
  function FormattedPrefix(text: string, size: nat): (p: string)
    ensures |p| < size || size == 0
    ensures p <= text
    ensures |text| < size ==> p == text
  {
    if size == 0 then [] else if |text| < size then text else text[..size - 1]
  }

  /** The exit test of sprintSelfishStats as written: only a count larger
      than the buffer exits. */
  predicate SprintExitsAsWritten(written: nat, size: nat) { written > size }

  /** The exit test that catches every truncation. */
  predicate SprintExits(written: nat, size: nat) { written >= size }

  /** With the corrected test, a record that does not exit is in the buffer whole. */
  lemma SprintExitsCatchesTruncation(text: string, size: nat)
    requires text != []
    ensures !SprintExits(|text|, size) <==> FormattedPrefix(text, size) == text
  {
  }

  /** As written, zeroed counters in an 11-character buffer pass the test,
      although snprintf kept only 10 of the record's 11 characters. */
  lemma SprintAsWrittenTruncatesSilently()
    ensures var text := SelfishStatsText(SelfishStats(0, 0, 0, 0, 0));
            text == "[0,0,0,0,0]" && |text| == 11
            && !SprintExitsAsWritten(|text|, 11)
            && FormattedPrefix(text, 11) == "[0,0,0,0,0"
            && FormattedPrefix(text, 11) != text
            && SprintExits(|text|, 11)
  {
    var fields := SelfishFields(SelfishStats(0, 0, 0, 0, 0));
    assert Decimal(0) == "0";
    assert fields == ["0", "0", "0", "0", "0"];
    assert JoinFields(fields[4..]) == "0";
    assert JoinFields(fields[3..]) == "0,0";
    assert JoinFields(fields[2..]) == "0,0,0";
    assert JoinFields(fields[1..]) == "0,0,0,0";
    assert JoinFields(fields) == "0,0,0,0,0";
  }

  /** snprintf into `buffer`: copies the part of `text` that fits, ends it
      with NUL, and returns the full length of `text`. */
  method SnprintfInto(buffer: array<char>, text: string) returns (written: nat)
    modifies buffer
    ensures written == |text|
    ensures var p := FormattedPrefix(text, buffer.Length);
            buffer[..|p|] == p
            && (buffer.Length > 0 ==> buffer[|p|] == '\0')
            && buffer[Min(|p| + 1, buffer.Length)..] == old(buffer[Min(|p| + 1, buffer.Length)..])
  {
    var p := FormattedPrefix(text, buffer.Length);
    var k := 0;
    while k < |p|
      invariant 0 <= k <= |p| < buffer.Length || (|p| == 0 && k == 0)
      invariant buffer[..k] == p[..k]
      invariant buffer[k..] == old(buffer[k..])
    {
      buffer[k] := p[k];
      k := k + 1;
    }
    if buffer.Length > 0 {
      buffer[k] := '\0';
    }
    written := |text|;
  }

  function Min(a: int, b: int): int { if a <= b then a else b }

  /** sprintSelfishStats: format the record into `buffer`; `None` is the
      process exit, which the code takes only when the record is longer
      than the buffer (SprintExitsAsWritten).  A record exactly as long as
      the buffer is returned with its last character cut by the NUL. */
  method SprintSelfishStats(s: SelfishStats, buffer: array<char>) returns (r: Option<nat>)
    modifies buffer
    ensures r.None? <==> |SelfishStatsText(s)| > buffer.Length
    ensures r.Some? ==>
              var p := FormattedPrefix(SelfishStatsText(s), buffer.Length);
              r.value == |SelfishStatsText(s)| && buffer[..|p|] == p && buffer[|p|] == '\0'
    ensures r.Some? && r.value < buffer.Length ==> buffer[..r.value] == SelfishStatsText(s)
    ensures r.Some? && r.value == buffer.Length ==> buffer[..r.value - 1] == SelfishStatsText(s)[..r.value - 1]
  {
    var written := SnprintfInto(buffer, SelfishStatsText(s));
    if SprintExitsAsWritten(written, buffer.Length) {
      return None;
    }
    return Some(written);
  }

  // ---------------------------------------------------------------------
  // Detailed logs

  /** Append to a log of `size` entries stored in `buf` (capacity
      buf.Length): while the log is full the capacity doubles (each time
      reallocating, which keeps the stored entries), then the entry goes to
      index `size`. */
  method AppendStat(buf: array<BlockStat>, size: nat, entry: BlockStat)
    returns (newBuf: array<BlockStat>, newSize: nat)
    requires 1 <= buf.Length && size <= buf.Length
    ensures newSize == size + 1 && newSize <= newBuf.Length
    ensures newBuf == buf || (fresh(newBuf) && newBuf.Length >= 2 * buf.Length)
    ensures newBuf[..size] == old(buf[..size]) && newBuf[size] == entry
    ensures newBuf != buf ==> buf[..] == old(buf[..])
    modifies buf
  {
    newBuf := buf;
    ghost var kept := buf[..size];
    var capacity := buf.Length;
    while size >= capacity
      invariant capacity >= buf.Length && capacity >= 1 && size <= capacity
      invariant newBuf.Length == capacity && newBuf[..size] == kept
      invariant newBuf == buf || (fresh(newBuf) && capacity >= 2 * buf.Length)
      invariant buf[..] == old(buf[..])
      decreases size - capacity + 1
    {
      capacity := capacity * 2;
      var contents := newBuf[..];
      newBuf := new BlockStat[capacity](i => if 0 <= i < |contents| then contents[i] else entry);
      assert newBuf[..size] == contents[..size];
    }
    newBuf[size] := entry;
    newSize := size + 1;
  }

  class StatsState {
    var statsType: StatsType
    var fiftyOneStats: FiftyOneStats
    var selfishStats: SelfishStats
    var blockStats: array<BlockStat>
    var blockStatsSize: nat
    var minedBlockStats: array<BlockStat>
    var minedBlockStatsSize: nat

    ghost predicate Valid()
      reads this
    {
      1 <= blockStats.Length && blockStatsSize <= blockStats.Length
      && 1 <= minedBlockStats.Length && minedBlockStatsSize <= minedBlockStats.Length
      && blockStats != minedBlockStats
    }

    /** initDetailedStatisticsState: both logs empty with capacity 1. */
    constructor InitDetailed()
      ensures Valid() && fresh(blockStats) && fresh(minedBlockStats)
      ensures statsType == StatsDetailed
      ensures blockStats.Length == 1 && blockStatsSize == 0
      ensures minedBlockStats.Length == 1 && minedBlockStatsSize == 0
    {
      statsType := StatsDetailed;
      blockStats := new BlockStat[1](_ => BlockStat(0, 0, 0.0));
      blockStatsSize := 0;
      minedBlockStats := new BlockStat[1](_ => BlockStat(0, 0, 0.0));
      minedBlockStatsSize := 0;
      fiftyOneStats := FiftyOneStats(0, 0);
      selfishStats := SelfishStats(0, 0, 0, 0, 0);
    }

    /** initFiftyOneStatisticsState: both counters zero. */
    constructor InitFiftyOne()
      ensures Valid() && statsType == StatsFiftyOne
      ensures fiftyOneStats == FiftyOneStats(0, 0)
    {
      statsType := StatsFiftyOne;
      fiftyOneStats := FiftyOneStats(0, 0);
      selfishStats := SelfishStats(0, 0, 0, 0, 0);
      blockStats := new BlockStat[1](_ => BlockStat(0, 0, 0.0));
      blockStatsSize := 0;
      minedBlockStats := new BlockStat[1](_ => BlockStat(0, 0, 0.0));
      minedBlockStatsSize := 0;
    }

    /** initSelfishStatisticsState: all five counters zero. */
    constructor InitSelfish()
      ensures Valid() && statsType == StatsSelfish
      ensures selfishStats == SelfishStats(0, 0, 0, 0, 0)
    {
      statsType := StatsSelfish;
      selfishStats := SelfishStats(0, 0, 0, 0, 0);
      fiftyOneStats := FiftyOneStats(0, 0);
      blockStats := new BlockStat[1](_ => BlockStat(0, 0, 0.0));
      blockStatsSize := 0;
      minedBlockStats := new BlockStat[1](_ => BlockStat(0, 0, 0.0));
      minedBlockStatsSize := 0;
    }

    method StatsAddBlockSelfish(miner: nat, me: nat, isAttacker: nat -> bool) returns (exited: bool)
      modifies this
      ensures exited <==> old(statsType) != StatsSelfish
      ensures exited ==> unchanged(this)
      ensures !exited ==> selfishStats == AddBlockSelfish(old(selfishStats), miner, me, isAttacker)
                          && fiftyOneStats == old(fiftyOneStats) && statsType == old(statsType)
                          && blockStats == old(blockStats) && blockStatsSize == old(blockStatsSize)
                          && minedBlockStats == old(minedBlockStats) && minedBlockStatsSize == old(minedBlockStatsSize)
    {
      if statsType != StatsSelfish {
        return true;
      }
      var s := selfishStats;
      s := s.(totalBlocksInMainChain := Inc(s.totalBlocksInMainChain));
      if miner == me {
        s := s.(ownBlocksInMainChain := Inc(s.ownBlocksInMainChain));
      }
      if isAttacker(miner) {
        s := s.(attackerBlocksInMainChain := Inc(s.attackerBlocksInMainChain));
      }
      selfishStats := s;
      return false;
    }

    method StatsRemoveBlockSelfish(miner: nat, me: nat, isAttacker: nat -> bool) returns (exited: bool)
      modifies this
      ensures exited <==> old(statsType) != StatsSelfish
      ensures exited ==> unchanged(this)
      ensures !exited ==> selfishStats == RemoveBlockSelfish(old(selfishStats), miner, me, isAttacker)
                          && fiftyOneStats == old(fiftyOneStats) && statsType == old(statsType)
                          && blockStats == old(blockStats) && blockStatsSize == old(blockStatsSize)
                          && minedBlockStats == old(minedBlockStats) && minedBlockStatsSize == old(minedBlockStatsSize)
    {
      if statsType != StatsSelfish {
        return true;
      }
      var s := selfishStats;
      s := s.(totalBlocksInMainChain := Dec(s.totalBlocksInMainChain));
      if miner == me {
        s := s.(ownBlocksInMainChain := Dec(s.ownBlocksInMainChain));
      }
      if isAttacker(miner) {
        s := s.(attackerBlocksInMainChain := Dec(s.attackerBlocksInMainChain));
      }
      selfishStats := s;
      return false;
    }

    method StatsAddBlockFiftyOne(miner: nat, isAttacker: nat -> bool) returns (exited: bool)
      modifies this
      ensures exited <==> old(statsType) != StatsFiftyOne
      ensures exited ==> unchanged(this)
      ensures !exited ==> fiftyOneStats == AddBlockFiftyOne(old(fiftyOneStats), miner, isAttacker)
                          && selfishStats == old(selfishStats) && statsType == old(statsType)
                          && blockStats == old(blockStats) && blockStatsSize == old(blockStatsSize)
                          && minedBlockStats == old(minedBlockStats) && minedBlockStatsSize == old(minedBlockStatsSize)
    {
      if statsType != StatsFiftyOne {
        return true;
      }
      var s := fiftyOneStats;
      s := s.(totalBlocksInMainChain := Inc(s.totalBlocksInMainChain));
      if isAttacker(miner) {
        s := s.(attackerBlocksInMainChain := Inc(s.attackerBlocksInMainChain));
      }
      fiftyOneStats := s;
      return false;
    }

    method StatsRemoveBlockFiftyOne(miner: nat, isAttacker: nat -> bool) returns (exited: bool)
      modifies this
      ensures exited <==> old(statsType) != StatsFiftyOne
      ensures exited ==> unchanged(this)
      ensures !exited ==> fiftyOneStats == RemoveBlockFiftyOne(old(fiftyOneStats), miner, isAttacker)
                          && selfishStats == old(selfishStats) && statsType == old(statsType)
                          && blockStats == old(blockStats) && blockStatsSize == old(blockStatsSize)
                          && minedBlockStats == old(minedBlockStats) && minedBlockStatsSize == old(minedBlockStatsSize)
    {
      if statsType != StatsFiftyOne {
        return true;
      }
      var s := fiftyOneStats;
      s := s.(totalBlocksInMainChain := Dec(s.totalBlocksInMainChain));
      if isAttacker(miner) {
        s := s.(attackerBlocksInMainChain := Dec(s.attackerBlocksInMainChain));
      }
      fiftyOneStats := s;
      return false;
    }

    method StatsMineBlockSelfish() returns (exited: bool)
      modifies this
      ensures exited <==> old(statsType) != StatsSelfish
      ensures exited ==> unchanged(this)
      ensures !exited ==> selfishStats == old(selfishStats).(totalBlocksMined := Inc(old(selfishStats).totalBlocksMined))
                          && fiftyOneStats == old(fiftyOneStats) && statsType == old(statsType)
                          && blockStats == old(blockStats) && blockStatsSize == old(blockStatsSize)
                          && minedBlockStats == old(minedBlockStats) && minedBlockStatsSize == old(minedBlockStatsSize)
    {
      if statsType != StatsSelfish {
        return true;
      }
      selfishStats := selfishStats.(totalBlocksMined := Inc(selfishStats.totalBlocksMined));
      return false;
    }

    method StatsSwitchToSelfishChain() returns (exited: bool)
      modifies this
      ensures exited <==> old(statsType) != StatsSelfish
      ensures exited ==> unchanged(this)
      ensures !exited ==> selfishStats == old(selfishStats).(switchesToSelfishChain := Inc(old(selfishStats).switchesToSelfishChain))
                          && fiftyOneStats == old(fiftyOneStats) && statsType == old(statsType)
                          && blockStats == old(blockStats) && blockStatsSize == old(blockStatsSize)
                          && minedBlockStats == old(minedBlockStats) && minedBlockStatsSize == old(minedBlockStatsSize)
    {
      if statsType != StatsSelfish {
        return true;
      }
      selfishStats := selfishStats.(switchesToSelfishChain := Inc(selfishStats.switchesToSelfishChain));
      return false;
    }

    /** Log a received block. */
    method StatsReceiveBlockDetailed(miner: nat, height: nat, receivedTime: real) returns (exited: bool)
      requires Valid()
      modifies this, blockStats
      ensures Valid()
      ensures exited <==> old(statsType) != StatsDetailed
      ensures exited ==> unchanged(this) && unchanged(old(blockStats))
      ensures !exited ==>
                blockStatsSize == old(blockStatsSize) + 1
                && blockStats[..old(blockStatsSize)] == old(blockStats[..blockStatsSize])
                && blockStats[old(blockStatsSize)] == BlockStat(miner, height, receivedTime)
                && (blockStats.Length == old(blockStats.Length)
                    || (fresh(blockStats) && blockStats.Length >= 2 * old(blockStats.Length)))
                && minedBlockStats == old(minedBlockStats) && minedBlockStatsSize == old(minedBlockStatsSize)
                && selfishStats == old(selfishStats) && fiftyOneStats == old(fiftyOneStats)
                && statsType == old(statsType)
    {
      if statsType != StatsDetailed {
        return true;
      }
      var b, n := AppendStat(blockStats, blockStatsSize, BlockStat(miner, height, receivedTime));
      blockStats, blockStatsSize := b, n;
      return false;
    }

    /** Log a block this node mined. */
    method StatsMineBlockDetailed(miner: nat, height: nat, minedTime: real) returns (exited: bool)
      requires Valid()
      modifies this, minedBlockStats
      ensures Valid()
      ensures exited <==> old(statsType) != StatsDetailed
      ensures exited ==> unchanged(this) && unchanged(old(minedBlockStats))
      ensures !exited ==>
                minedBlockStatsSize == old(minedBlockStatsSize) + 1
                && minedBlockStats[..old(minedBlockStatsSize)] == old(minedBlockStats[..minedBlockStatsSize])
                && minedBlockStats[old(minedBlockStatsSize)] == BlockStat(miner, height, minedTime)
                && (minedBlockStats.Length == old(minedBlockStats.Length)
                    || (fresh(minedBlockStats) && minedBlockStats.Length >= 2 * old(minedBlockStats.Length)))
                && blockStats == old(blockStats) && blockStatsSize == old(blockStatsSize)
                && selfishStats == old(selfishStats) && fiftyOneStats == old(fiftyOneStats)
                && statsType == old(statsType)
    {
      if statsType != StatsDetailed {
        return true;
      }
      var b, n := AppendStat(minedBlockStats, minedBlockStatsSize, BlockStat(miner, height, minedTime));
      minedBlockStats, minedBlockStatsSize := b, n;
      return false;
    }

    /** copySelfishStatisticsState: a field-by-field copy of `src`. */
    method CopySelfishStatisticsState(src: StatsState)
      modifies this
      ensures selfishStats == old(src.selfishStats)
      ensures statsType == old(statsType) && fiftyOneStats == old(fiftyOneStats)
      ensures blockStats == old(blockStats) && blockStatsSize == old(blockStatsSize)
      ensures minedBlockStats == old(minedBlockStats) && minedBlockStatsSize == old(minedBlockStatsSize)
    {
      selfishStats := src.selfishStats;
    }

    /** copyFiftyOneStatisticsState: a field-by-field copy of `src`. */
    method CopyFiftyOneStatisticsState(src: StatsState)
      modifies this
      ensures fiftyOneStats == old(src.fiftyOneStats)
      ensures statsType == old(statsType) && selfishStats == old(selfishStats)
      ensures blockStats == old(blockStats) && blockStatsSize == old(blockStatsSize)
      ensures minedBlockStats == old(minedBlockStats) && minedBlockStatsSize == old(minedBlockStatsSize)
    {
      fiftyOneStats := src.fiftyOneStats;
    }
  }

}
