/** Choice of the attacking nodes: Knuth's selection sampling for k of n
    ids, and the single-attacker set-up of the selfish-mining and 51% runs.
    RandomU64 is the draw stream `draws`; draw i is the one taken when
    node i is considered. */
module Attacks {

  datatype AttackType = AttackNone | AttackSelfishMining | AttackFiftyOne

  /** How initAttackers ends: normally, or with one of its three exits. */
  datatype InitOutcome = Initialised | AlreadyInitialised | NotSingleAttacker | TooManyAttackers

  /** The ids selection sampling picks from node i on, with `chosen` ids
      already picked out of k. */
  function Select(n: nat, k: nat, draws: nat -> nat, i: nat, chosen: nat): seq<nat>
    decreases n - i
  {
    if i >= n || chosen >= k then []
    else if draws(i) % (n - i) < k - chosen then [i] + Select(n, k, draws, i + 1, chosen + 1)
    else Select(n, k, draws, i + 1, chosen)
  }

  /** Exactly the missing number of ids is picked whenever there are enough
      nodes left, whatever the draws: once the remaining nodes equal the
      remaining slots every test succeeds. */
  lemma {:induction false} SelectPicksExactly(n: nat, k: nat, draws: nat -> nat, i: nat, chosen: nat)
    requires i <= n && chosen <= k && k - chosen <= n - i
    ensures |Select(n, k, draws, i, chosen)| == k - chosen
    decreases n - i
  {
    if i < n && chosen < k {
      if draws(i) % (n - i) < k - chosen {
        SelectPicksExactly(n, k, draws, i + 1, chosen + 1);
      } else {
        assert k - chosen < n - i;
        SelectPicksExactly(n, k, draws, i + 1, chosen);
      }
    }
  }

  /** The picked ids are increasing, at least i and below n. */
  lemma {:induction false} SelectIncreasing(n: nat, k: nat, draws: nat -> nat, i: nat, chosen: nat)
    ensures forall a :: 0 <= a < |Select(n, k, draws, i, chosen)| ==> i <= Select(n, k, draws, i, chosen)[a] < n
    ensures forall a, b :: 0 <= a < b < |Select(n, k, draws, i, chosen)| ==>
              Select(n, k, draws, i, chosen)[a] < Select(n, k, draws, i, chosen)[b]
    decreases n - i
  {
    if i < n && chosen < k {
      if draws(i) % (n - i) < k - chosen {
        var t := Select(n, k, draws, i + 1, chosen + 1);
        SelectIncreasing(n, k, draws, i + 1, chosen + 1);
        assert Select(n, k, draws, i, chosen) == [i] + t;
      } else {
        SelectIncreasing(n, k, draws, i + 1, chosen);
      }
    }
  }

  /** k of n nodes, picked from the start. */
  lemma SelectionSampling(n: nat, k: nat, draws: nat -> nat)
    requires k <= n
    ensures var s := Select(n, k, draws, 0, 0);
            |s| == k && (forall a :: 0 <= a < |s| ==> s[a] < n)
            && (forall a, b :: 0 <= a < b < |s| ==> s[a] < s[b])
  {
    SelectPicksExactly(n, k, draws, 0, 0);
    SelectIncreasing(n, k, draws, 0, 0);
  }

  /** generateAttackers: walk the nodes, put node i in `ids` and its bit in
      `bitmap` when draws(i) mod (remaining nodes) is below the remaining
      slots.  Returns how many ids were written. */
  method GenerateAttackers(ids: array<nat>, bitmap: array<bool>, nodeCount: nat, k: nat, draws: nat -> nat)
    returns (selected: nat)
    requires k <= ids.Length && nodeCount <= bitmap.Length
    modifies ids, bitmap
    ensures selected <= k
    ensures ids[..selected] == Select(nodeCount, k, draws, 0, 0)
    ensures k <= nodeCount ==> selected == k
    ensures forall m :: 0 <= m < bitmap.Length ==> bitmap[m] == (old(bitmap[m]) || m in ids[..selected])
    ensures ids[selected..] == old(ids[selected..])
  {
    ghost var all := Select(nodeCount, k, draws, 0, 0);
    SelectIncreasing(nodeCount, k, draws, 0, 0);
    var idxNodes := 0;
    var idxAttackers := 0;
    while idxNodes < nodeCount && idxAttackers < k
      invariant idxNodes <= nodeCount && idxAttackers <= k
      invariant ids[..idxAttackers] + Select(nodeCount, k, draws, idxNodes, idxAttackers) == all
      invariant forall a :: 0 <= a < idxAttackers ==> ids[a] < idxNodes
      invariant forall m :: 0 <= m < bitmap.Length ==> bitmap[m] == (old(bitmap[m]) || m in ids[..idxAttackers])
      invariant ids[idxAttackers..] == old(ids[idxAttackers..])
      invariant k - idxAttackers <= nodeCount - idxNodes || k > nodeCount
    {
      var remainingNodes := nodeCount - idxNodes;
      var remainingAttackers := k - idxAttackers;
      if draws(idxNodes) % remainingNodes < remainingAttackers {
        ids[idxAttackers] := idxNodes;
        bitmap[idxNodes] := true;
        assert ids[..idxAttackers + 1] == ids[..idxAttackers] + [idxNodes];
        idxAttackers := idxAttackers + 1;
      }
      idxNodes := idxNodes + 1;
    }
    selected := idxAttackers;
    if k <= nodeCount {
      SelectPicksExactly(nodeCount, k, draws, idxNodes, idxAttackers);
    }
  }

  /** The attacker registry: the ids array (null until initialised), the
      bitmap is_attacker reads, and the configured attack. */
  class Attackers {
    var attackType: AttackType
    var attackerIds: array?<nat>
    var isAttackerBitmap: array<bool>
    var numAttackers: nat

    /** Start of a run: no ids, an empty bitmap. */
    constructor (attackType: AttackType)
      ensures this.attackType == attackType && attackerIds == null && numAttackers == 0
      ensures isAttackerBitmap.Length == 0
    {
      this.attackType := attackType;
      attackerIds := null;
      isAttackerBitmap := new bool[0];
      numAttackers := 0;
    }

    /** The bitmap is set exactly at the recorded attacker ids. */
    ghost predicate BitmapMatchesIds()
      reads this, isAttackerBitmap, attackerIds
    {
      attackerIds != null
      && forall m :: 0 <= m < isAttackerBitmap.Length ==> (isAttackerBitmap[m] <==> m in attackerIds[..])
    }

    /** is_attacker: the node's bit, which says whether the node is one of
        the recorded attackers once the two agree. */
    function IsAttacker(node: nat): (b: bool)
      reads this, isAttackerBitmap, attackerIds
      requires node < isAttackerBitmap.Length
      ensures BitmapMatchesIds() ==> (b <==> node in attackerIds[..])
    {
      isAttackerBitmap[node]
    }

    /** initAttackers for `lps` nodes; `draw` is the RandomU64 value the
        single-attacker path reduces modulo lps. */
    method InitAttackers(attackersCount: nat, lps: nat, draw: nat) returns (outcome: InitOutcome)
      modifies this
      ensures fresh(isAttackerBitmap) && isAttackerBitmap.Length == lps
      ensures attackType == old(attackType)
      ensures outcome == (if old(attackType) == AttackNone || attackersCount == 0 then Initialised
                          else if old(attackerIds) != null then AlreadyInitialised
                          else if attackersCount != 1 then NotSingleAttacker
                          else if attackersCount >= lps then TooManyAttackers
                          else Initialised)
      ensures outcome != Initialised || old(attackType) == AttackNone || attackersCount == 0 ==>
                attackerIds == old(attackerIds) && numAttackers == old(numAttackers)
                && isAttackerBitmap[..] == seq(lps, _ => false)
      ensures outcome == Initialised && old(attackType) != AttackNone && attackersCount != 0 ==>
                numAttackers == 1 && attackerIds != null && fresh(attackerIds) && attackerIds.Length == 1
                && attackerIds[0] == draw % lps
                && (forall m :: 0 <= m < lps ==> (IsAttacker(m) <==> m == draw % lps))
                && BitmapMatchesIds()
    {
      isAttackerBitmap := new bool[lps](_ => false);
      if attackType == AttackNone || attackersCount == 0 {
        return Initialised;
      }
      if attackerIds != null {
        return AlreadyInitialised;
      }
      if attackersCount != 1 {
        return NotSingleAttacker;
      }
      if attackersCount >= lps {
        return TooManyAttackers;
      }
      numAttackers := attackersCount;
      var ids := new nat[numAttackers](_ => 0);
      attackerIds := ids;
      ids[0] := draw % lps;
      isAttackerBitmap[ids[0]] := true;
      return Initialised;
    }
  }

}
