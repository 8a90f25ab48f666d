/** The analysis of one worker: which mutations it evaluates, what it records of each, and the counts it reports. */
module Analysis {
  import opened Integers
  import opened Journal

  datatype Mutation = Mutation(id: u32, safe: bool, op: string)

  // ---------- Counts ----------

  datatype OpStats = OpStats(total: nat, undetected: nat, timedOut: nat, crashed: nat) {
    /** The remainder of the total once the three other verdicts are taken off. */
    function Detected(): nat
      requires undetected + timedOut + crashed <= total
    {
      total - undetected - timedOut - crashed
    }

    function Plus(result: Verdict): OpStats {
      OpStats(
        total + 1,
        undetected + if result.Undetected? then 1 else 0,
        timedOut + if result.TimedOut? then 1 else 0,
        crashed + if result.Crashed? then 1 else 0)
    }
  }

  const NO_STATS := OpStats(0, 0, 0, 0)

  type Recorded = seq<(Mutation, Verdict)>

  /** The results counted one by one, for the mutations that `counts` picks. */
  function Tally(recorded: Recorded, counts: Mutation -> bool): OpStats {
    if recorded == [] then NO_STATS
    else
      var before, (mutation, result) := Tally(recorded[..|recorded| - 1], counts), recorded[|recorded| - 1];
      if counts(mutation) then before.Plus(result) else before
  }

  function CountOf(recorded: Recorded, counts: Mutation -> bool, result: Verdict): nat {
    if recorded == [] then 0
    else
      var (mutation, last) := recorded[|recorded| - 1];
      CountOf(recorded[..|recorded| - 1], counts, result) + if counts(mutation) && last == result then 1 else 0
  }

  /** Every total is the sum of the counts of the four verdicts. */
  lemma {:induction false} TallyCounts(recorded: Recorded, counts: Mutation -> bool)
    ensures var stats := Tally(recorded, counts);
      && stats.undetected == CountOf(recorded, counts, Undetected)
      && stats.timedOut == CountOf(recorded, counts, TimedOut)
      && stats.crashed == CountOf(recorded, counts, Crashed)
      && stats.undetected + stats.timedOut + stats.crashed <= stats.total
      && stats.Detected() == CountOf(recorded, counts, Detected)
  {
    if recorded != [] {
      TallyCounts(recorded[..|recorded| - 1], counts);
    }
  }

  lemma TallySnoc(recorded: Recorded, mutation: Mutation, result: Verdict, counts: Mutation -> bool)
    ensures Tally(recorded + [(mutation, result)], counts) ==
      if counts(mutation) then Tally(recorded, counts).Plus(result) else Tally(recorded, counts)
  {
    assert (recorded + [(mutation, result)])[..|recorded|] == recorded;
  }

  const ALL := (m: Mutation) => true
  const SAFE := (m: Mutation) => m.safe
  const UNSAFE := (m: Mutation) => !m.safe

  function Minus(a: OpStats, b: OpStats): OpStats
    requires b.total <= a.total && b.undetected <= a.undetected && b.timedOut <= a.timedOut && b.crashed <= a.crashed
  {
    OpStats(a.total - b.total, a.undetected - b.undetected, a.timedOut - b.timedOut, a.crashed - b.crashed)
  }

  /** Taking the safe counts from all counts never goes below zero, and leaves those of the unsafe mutations. */
  lemma {:induction false} SafeIsPartOfAll(recorded: Recorded)
    ensures var all, safe := Tally(recorded, ALL), Tally(recorded, SAFE);
      && safe.total <= all.total && safe.undetected <= all.undetected
      && safe.timedOut <= all.timedOut && safe.crashed <= all.crashed
      && Minus(all, safe) == Tally(recorded, UNSAFE)
  {
    if recorded != [] {
      SafeIsPartOfAll(recorded[..|recorded| - 1]);
    }
  }

  class Results {
    var all: OpStats
    var safe: OpStats
    var ops: map<string, OpStats>
    ghost var recorded: Recorded

    static function HasOp(op: string): Mutation -> bool {
      (m: Mutation) => m.op == op
    }

    ghost predicate Valid()
      reads this
    {
      && all == Tally(recorded, ALL)
      && safe == Tally(recorded, SAFE)
      && (forall op <- ops :: ops[op] == Tally(recorded, HasOp(op)))
      && (forall i | 0 <= i < |recorded| :: recorded[i].0.op in ops)
    }

    constructor ()
      ensures Valid() && recorded == []
    {
      all, safe, ops := NO_STATS, NO_STATS, map[];
      recorded := [];
    }

    static lemma {:induction false} NoneOf(recorded: Recorded, op: string)
      requires forall i | 0 <= i < |recorded| :: recorded[i].0.op != op
      ensures Tally(recorded, HasOp(op)) == NO_STATS
    {
      if recorded != [] {
        NoneOf(recorded[..|recorded| - 1], op);
      }
    }

    method Record(mutation: Mutation, result: Verdict)
      requires Valid()
      modifies this
      ensures Valid() && recorded == old(recorded) + [(mutation, result)]
    {
      hide Tally;
      ghost var before := recorded;
      var stats := if mutation.op in ops then ops[mutation.op] else NO_STATS;
      if mutation.op !in ops {
        NoneOf(before, mutation.op);
      }
      TallySnoc(before, mutation, result, ALL);
      TallySnoc(before, mutation, result, SAFE);
      forall op | op in ops || op == mutation.op
        ensures Tally(before + [(mutation, result)], HasOp(op)) == if op == mutation.op then stats.Plus(result) else ops[op]
      {
        TallySnoc(before, mutation, result, HasOp(op));
      }
      all := all.Plus(result);
      safe := if mutation.safe then safe.Plus(result) else safe;
      ops := ops[mutation.op := stats.Plus(result)];
      recorded := before + [(mutation, result)];
    }

    method UnsafeStats() returns (stats: OpStats)
      requires Valid()
      ensures stats == Tally(recorded, UNSAFE)
    {
      SafeIsPartOfAll(recorded);
      stats := Minus(all, safe);
    }
  }
}
