/** The dynamic scheduler: which mutants it starts next to each other, and what the process then runs at each location. */
module Scheduler {
  import opened Integers
  import opened Collections
  import opened Wrappers
  import opened Conflicts

  /** Where the mutant's code is chosen, and the mutation that each place then runs. */
  type Substitutions = seq<(nat, u32)>

  datatype Mutant = Mutant(id: u32, substitutions: Substitutions)

  /** A mutant, and whether its substitutions stay out of the map that the mutants of this process share. */
  datatype Scheduled = Scheduled(mutant: Mutant, isolated: bool)

  type SubstMap = seq<Option<u32>>

  // ---------- Substitution maps ----------

  /** The map after one more mutant's substitutions. */
  function Overlaid(map': SubstMap, substitutions: Substitutions): (overlaid: SubstMap)
    requires forall i | 0 <= i < |substitutions| :: substitutions[i].0 < |map'|
    ensures |overlaid| == |map'|
  {
    if substitutions == [] then map'
    else
      var (location, mutation) := substitutions[|substitutions| - 1];
      Overlaid(map', substitutions[..|substitutions| - 1])[location := Some(mutation)]
  }

  /** What a mutant puts at a location, if anything. */
  function PutAt(substitutions: Substitutions, location: nat): Option<u32> {
    if substitutions == [] then None
    else
      var (last, mutation) := substitutions[|substitutions| - 1];
      if last == location then Some(mutation) else PutAt(substitutions[..|substitutions| - 1], location)
  }

  lemma {:induction false} OverlaidAt(map': SubstMap, substitutions: Substitutions, location: nat)
    requires location < |map'| && forall i | 0 <= i < |substitutions| :: substitutions[i].0 < |map'|
    ensures Overlaid(map', substitutions)[location] ==
      if PutAt(substitutions, location).Some? then PutAt(substitutions, location) else map'[location]
  {
    if substitutions != [] {
      OverlaidAt(map', substitutions[..|substitutions| - 1], location);
    }
  }

  method Overlay(map': array<Option<u32>>, substitutions: Substitutions)
    requires forall i | 0 <= i < |substitutions| :: substitutions[i].0 < map'.Length
    modifies map'
    ensures map'[..] == Overlaid(old(map'[..]), substitutions)
  {
    for i := 0 to |substitutions|
      invariant map'[..] == Overlaid(old(map'[..]), substitutions[..i])
    {
      assert substitutions[..i + 1][..i] == substitutions[..i];
      map'[substitutions[i].0] := Some(substitutions[i].1);
    }
    assert substitutions[..|substitutions|] == substitutions;
  }

  /** Each location runs the mutation of the one in-process mutant that has it, and the original code if none has it. */
  ghost predicate IsActiveFor(map': SubstMap, scheduled: set<Scheduled>) {
    forall location | 0 <= location < |map'| ::
      && (forall x <- scheduled | !x.isolated && PutAt(x.mutant.substitutions, location).Some? ::
            map'[location] == PutAt(x.mutant.substitutions, location))
      && ((forall x <- scheduled | !x.isolated :: PutAt(x.mutant.substitutions, location).None?) ==> map'[location].None?)
  }

  predicate Disjoint(a: Mutant, b: Mutant) {
    forall i, j | 0 <= i < |a.substitutions| && 0 <= j < |b.substitutions| :: a.substitutions[i].0 != b.substitutions[j].0
  }

  lemma {:induction false} PutIsThere(substitutions: Substitutions, location: nat)
    requires PutAt(substitutions, location).Some?
    ensures exists i :: 0 <= i < |substitutions| && substitutions[i].0 == location
  {
    var n := |substitutions| - 1;
    if substitutions[n].0 != location {
      PutIsThere(substitutions[..n], location);
      var i :| 0 <= i < n && substitutions[..n][i].0 == location;
      assert substitutions[i].0 == location;
    }
  }

  lemma DisjointPuts(a: Mutant, b: Mutant, location: nat)
    requires Disjoint(a, b)
    ensures PutAt(a.substitutions, location).None? || PutAt(b.substitutions, location).None?
  {
    if PutAt(a.substitutions, location).Some? && PutAt(b.substitutions, location).Some? {
      PutIsThere(a.substitutions, location);
      PutIsThere(b.substitutions, location);
    }
  }

  predicate FitsMap(x: Scheduled, slots: nat) {
    forall i | 0 <= i < |x.mutant.substitutions| :: x.mutant.substitutions[i].0 < slots
  }

  /** In-process mutants have no location in common. */
  predicate Apart(scheduled: set<Scheduled>) {
    forall x, y | x in scheduled && y in scheduled && x != y && !x.isolated && !y.isolated :: Disjoint(x.mutant, y.mutant)
  }

  lemma OverlayOneMore(map': SubstMap, done: set<Scheduled>, x: Scheduled)
    requires IsActiveFor(map', done) && Apart(done + {x}) && x !in done
    requires FitsMap(x, |map'|) && !x.isolated
    ensures IsActiveFor(Overlaid(map', x.mutant.substitutions), done + {x})
  {
    forall location | 0 <= location < |map'|
      ensures Overlaid(map', x.mutant.substitutions)[location] ==
        if PutAt(x.mutant.substitutions, location).Some? then PutAt(x.mutant.substitutions, location) else map'[location]
      ensures forall y <- done | !y.isolated :: PutAt(x.mutant.substitutions, location).None? || PutAt(y.mutant.substitutions, location).None?
    {
      OverlaidAt(map', x.mutant.substitutions, location);
      forall y <- done | !y.isolated
        ensures PutAt(x.mutant.substitutions, location).None? || PutAt(y.mutant.substitutions, location).None?
      {
        DisjointPuts(x.mutant, y.mutant, location);
      }
    }
  }

  /** The hash map gives the running mutants in any order; what becomes active is the same in all of them. */
  method InProcessSubstitutions(scheduled: set<Scheduled>, slots: nat) returns (map': SubstMap)
    requires Apart(scheduled) && forall x <- scheduled :: FitsMap(x, slots)
    ensures |map'| == slots && IsActiveFor(map', scheduled)
  {
    var slot := new Option<u32>[slots](_ => None);
    var rest := scheduled;
    while rest != {}
      invariant rest <= scheduled && IsActiveFor(slot[..], scheduled - rest)
    {
      var x :| x in rest;
      rest := rest - {x};
      assert scheduled - rest == scheduled - (rest + {x}) + {x};
      if !x.isolated {
        OverlayOneMore(slot[..], scheduled - (rest + {x}), x);
        Overlay(slot, x.mutant.substitutions);
      }
    }
    assert scheduled - rest == scheduled;
    map' := slot[..];
  }

  /** Whatever order built them, two maps of the same mutants are the same. */
  lemma ActiveMapIsUnique(a: SubstMap, b: SubstMap, scheduled: set<Scheduled>)
    requires |a| == |b| && IsActiveFor(a, scheduled) && IsActiveFor(b, scheduled)
    ensures a == b
  {
    forall location | 0 <= location < |a|
      ensures a[location] == b[location]
    {
      if x :| x in scheduled && !x.isolated && PutAt(x.mutant.substitutions, location).Some? {
        assert a[location] == PutAt(x.mutant.substitutions, location) == b[location];
      } else {
        assert forall x <- scheduled | !x.isolated :: PutAt(x.mutant.substitutions, location).None?;
      }
    }
  }

  // ---------- The scheduler ----------

  predicate Compatible(x: Scheduled, y: Scheduled, meta: ConflictsMeta)
    requires meta.Valid()
  {
    x.isolated || y.isolated || !meta.Conflicting(x.mutant.id, y.mutant.id)
  }

  ghost predicate RunsAlongside(x: Scheduled, scheduled: set<Scheduled>, meta: ConflictsMeta)
    requires meta.Valid()
  {
    forall y <- scheduled :: Compatible(x, y, meta)
  }

  /** No two mutants that run side by side in this process conflict. */
  ghost predicate AllCompatible(scheduled: set<Scheduled>, meta: ConflictsMeta)
    requires meta.Valid()
  {
    forall x, y | x in scheduled && y in scheduled && x != y :: Compatible(x, y, meta)
  }

  /** No two mutants that run side by side in this process are a pair that the generator inserted. */
  ghost predicate NoneInserted(scheduled: set<Scheduled>, inProcess: seq<u32>, pairs: set<set<nat>>) {
    forall x, y | x in scheduled && y in scheduled && x != y && !x.isolated && !y.isolated ::
      !IsInserted(inProcess, pairs, x.mutant.id, y.mutant.id)
  }

  lemma CompatibleMeansNoneInserted(scheduled: set<Scheduled>, meta: ConflictsMeta, pairs: set<set<nat>>)
    requires meta.Valid() && HoldsPairs(meta, pairs)
    ensures AllCompatible(scheduled, meta) <==> NoneInserted(scheduled, meta.inProcess, pairs)
  {
    hide HoldsPairs, IsInserted, ConflictsMeta.Conflicting;
    forall x: Scheduled, y: Scheduled
      ensures Compatible(x, y, meta) <==> x.isolated || y.isolated || !IsInserted(meta.inProcess, pairs, x.mutant.id, y.mutant.id)
    {
      ConflictsAreInserted(meta, pairs, x.mutant.id, y.mutant.id);
    }
  }

  /** A mutant waits only for one of this process that it stands with in an inserted pair; an isolated one never waits. */
  lemma WaitsForInserted(x: Scheduled, scheduled: set<Scheduled>, meta: ConflictsMeta, pairs: set<set<nat>>)
    requires meta.Valid() && HoldsPairs(meta, pairs)
    ensures RunsAlongside(x, scheduled, meta) <==>
      x.isolated || forall y <- scheduled | !y.isolated :: !IsInserted(meta.inProcess, pairs, x.mutant.id, y.mutant.id)
  {
    hide HoldsPairs, IsInserted, ConflictsMeta.Conflicting;
    forall y <- scheduled
      ensures Compatible(x, y, meta) <==> x.isolated || y.isolated || !IsInserted(meta.inProcess, pairs, x.mutant.id, y.mutant.id)
    {
      ConflictsAreInserted(meta, pairs, x.mutant.id, y.mutant.id);
    }
  }

  /** The mutants that the code generator lets run in one process share no location. */
  ghost predicate SharesNoLocation(mutants: set<Scheduled>, meta: ConflictsMeta)
    requires meta.Valid()
  {
    forall x, y | x in mutants && y in mutants && x != y && !x.isolated && !y.isolated ::
      meta.Conflicting(x.mutant.id, y.mutant.id) || Disjoint(x.mutant, y.mutant)
  }

  lemma CompatibleAreApart(scheduled: set<Scheduled>, mutants: set<Scheduled>, meta: ConflictsMeta)
    requires meta.Valid() && scheduled <= mutants && SharesNoLocation(mutants, meta) && AllCompatible(scheduled, meta)
    ensures Apart(scheduled)
  {}

  predicate DistinctIds(xs: seq<Scheduled>) {
    forall i, j | 0 <= i < j < |xs| :: xs[i].mutant.id != xs[j].mutant.id
  }

  lemma NoElements()
    ensures Elements<Scheduled>([]) == {} && Distinct<Scheduled>([])
  {}

  lemma ElementsSnoc(xs: seq<Scheduled>, x: Scheduled)
    ensures Elements(xs + [x]) == Elements(xs) + {x}
    ensures Distinct(xs) && x !in Elements(xs) ==> Distinct(xs + [x])
  {}

  lemma ElementsWithout(xs: seq<Scheduled>, i: nat)
    requires i < |xs| && Distinct(xs)
    ensures xs[i] in Elements(xs) && Elements(xs[..i] + xs[i + 1..]) == Elements(xs) - {xs[i]}
    ensures Distinct(xs[..i] + xs[i + 1..])
  {
    var rest := xs[..i] + xs[i + 1..];
    assert forall k | 0 <= k < |rest| :: rest[k] == xs[if k < i then k else k + 1];
    forall x | x in Elements(xs) - {xs[i]}
      ensures x in Elements(rest)
    {
      var k :| 0 <= k < |xs| && xs[k] == x;
      assert rest[if k < i then k else k - 1] == x;
    }
  }

  lemma OneMoreCompatible(scheduled: set<Scheduled>, x: Scheduled, meta: ConflictsMeta)
    requires meta.Valid() && AllCompatible(scheduled, meta) && RunsAlongside(x, scheduled, meta)
    ensures AllCompatible(scheduled + {x}, meta)
  {
    forall y <- scheduled
      ensures Compatible(x, y, meta) && Compatible(y, x, meta)
    {
      ConflictsAreMutual(meta, x.mutant.id, y.mutant.id);
    }
  }

  lemma FewerCompatible(fewer: set<Scheduled>, scheduled: set<Scheduled>, meta: ConflictsMeta)
    requires meta.Valid() && fewer <= scheduled && AllCompatible(scheduled, meta)
    ensures AllCompatible(fewer, meta)
  {}

  lemma DisjointDifference(a: set<Scheduled>, b: set<Scheduled>)
    requires a * b == {}
    ensures a - b == a
  {
    forall x <- a
      ensures x !in b
    {
      assert x in a && x in b ==> x in a * b;
    }
  }

  /** All that remain have to wait. */
  ghost predicate NoneRuns(remaining: seq<Scheduled>, scheduled: set<Scheduled>, meta: ConflictsMeta)
    requires meta.Valid()
  {
    forall x <- Elements(remaining) :: !RunsAlongside(x, scheduled, meta)
  }

  /** Any mutant may run by itself, so a process in which none runs never makes all that remain wait. */
  lemma NoneWaitsForNothing(remaining: seq<Scheduled>, meta: ConflictsMeta)
    requires meta.Valid()
    ensures NoneRuns(remaining, {}, meta) <==> remaining == []
  {
    if remaining != [] {
      assert remaining[0] in Elements(remaining) && RunsAlongside(remaining[0], {}, meta);
    }
  }

  lemma NoneRemain(scheduled: set<Scheduled>, meta: ConflictsMeta)
    requires meta.Valid()
    ensures NoneRuns([], scheduled, meta)
  {}

  /** Takes out the first mutant that runs alongside these, and keeps the others in order. */
  ghost predicate TakesFirst(before: seq<Scheduled>, after: seq<Scheduled>, x: Scheduled, scheduled: set<Scheduled>, meta: ConflictsMeta)
    requires meta.Valid()
  {
    && RunsAlongside(x, scheduled, meta)
    && exists i | 0 <= i < |before| ::
         && x == before[i] && after == before[..i] + before[i + 1..]
         && forall k | 0 <= k < i :: !RunsAlongside(before[k], scheduled, meta)
  }

  lemma UnionSize(a: set<Scheduled>, b: set<Scheduled>)
    requires a !! b
    ensures |a + b| == |a| + |b|
  {}

  datatype Terms = Terms(meta: ConflictsMeta, slots: nat, maxThreads: nat, mutants: set<Scheduled>)

  /** The mutants are those that remain, those just chosen, and those scheduled before; what runs was scheduled. */
  ghost predicate Holding(t: Terms, remaining: seq<Scheduled>, newly: set<Scheduled>, started: seq<Scheduled>, running: set<Scheduled>) {
    && t.meta.Valid() && SharesNoLocation(t.mutants, t.meta) && (forall x <- t.mutants :: FitsMap(x, t.slots))
    && Distinct(remaining) && Distinct(started)
    && Elements(remaining) + newly + Elements(started) == t.mutants
    && Elements(remaining) !! newly && Elements(remaining) + newly !! Elements(started)
    && running <= Elements(started)
    && AllCompatible(running + newly, t.meta)
    && |running| + |newly| <= t.maxThreads
  }

  lemma HoldingMeans(t: Terms, remaining: seq<Scheduled>, newly: set<Scheduled>, started: seq<Scheduled>, running: set<Scheduled>)
    requires Holding(t, remaining, newly, started, running)
    ensures t.meta.Valid() && Distinct(remaining)
  {}

  /** One more mutant moves from those that remain to those just chosen. */
  lemma TakenHolds(t: Terms, before: seq<Scheduled>, after: seq<Scheduled>, newly: seq<Scheduled>, x: Scheduled,
                   started: seq<Scheduled>, running: set<Scheduled>)
    requires Holding(t, before, Elements(newly), started, running) && Distinct(newly) && Distinct(after)
    requires x in Elements(before) && Elements(after) == Elements(before) - {x}
    requires RunsAlongside(x, running + Elements(newly), t.meta)
    requires |running| + |newly| < t.maxThreads
    ensures Distinct(newly + [x]) && Holding(t, after, Elements(newly + [x]), started, running)
  {
    hide RunsAlongside, AllCompatible, SharesNoLocation, FitsMap, Elements, Distinct, ConflictsMeta.Valid;
    OneMoreCompatible(running + Elements(newly), x, t.meta);
    ElementsSnoc(newly, x);
    ElementsSize(newly + [x]);
    assert running + Elements(newly) + {x} == running + (Elements(newly) + {x});
    MovedOne(Elements(before), Elements(newly), x);
  }

  lemma MovedOne(before: set<Scheduled>, newly: set<Scheduled>, x: Scheduled)
    requires x in before && before !! newly
    ensures before - {x} + (newly + {x}) == before + newly && before - {x} !! newly + {x} && x !in newly
  {}

  /** The mutants just chosen move to those that run. */
  lemma StartHolds(t: Terms, remaining: seq<Scheduled>, newly: seq<Scheduled>, started: seq<Scheduled>, running: set<Scheduled>)
    requires Holding(t, remaining, Elements(newly), started, running) && Distinct(newly)
    ensures Holding(t, remaining, {}, started + newly, running + Elements(newly)) && Elements(newly) !! running
  {
    hide AllCompatible, SharesNoLocation, FitsMap, Elements, Distinct, ConflictsMeta.Valid;
    StartedGrows(started, newly);
    Moved(Elements(remaining), Elements(newly), Elements(started), running);
  }

  /** Mutants that complete no longer run. */
  lemma CollectHolds(t: Terms, remaining: seq<Scheduled>, started: seq<Scheduled>, running: set<Scheduled>, completed: set<Scheduled>)
    requires Holding(t, remaining, {}, started, running)
    ensures Holding(t, remaining, {}, started, running - completed)
  {
    hide AllCompatible, SharesNoLocation, FitsMap, Elements, Distinct, ConflictsMeta.Valid;
    SubsetSize(running - completed, running);
    FewerCompatible(running - completed + {}, running + {}, t.meta);
  }

  /** Mutants that move from those just chosen to those that were started. */
  lemma Moved(remaining: set<Scheduled>, newly: set<Scheduled>, started: set<Scheduled>, running: set<Scheduled>)
    requires remaining !! newly && remaining + newly !! started && running <= started
    ensures remaining + {} + (started + newly) == remaining + newly + started
    ensures remaining + {} !! started + newly && started !! newly
    ensures running + newly <= started + newly && running !! newly && |running + newly| == |running| + |newly|
    ensures running + newly + {} == running + newly
  {
    UnionSize(running, newly);
  }

  lemma StartedGrows(started: seq<Scheduled>, newly: seq<Scheduled>)
    requires Distinct(started) && Distinct(newly) && Elements(started) !! Elements(newly)
    ensures Distinct(started + newly) && Elements(started + newly) == Elements(started) + Elements(newly)
  {
    assert forall i | 0 <= i < |started| :: started[i] in Elements(started);
    assert forall i | 0 <= i < |newly| :: newly[i] in Elements(newly);
  }

  // ---------- What a run of the scheduler did ----------

  /** What started in a round of the loop, and what completed in it. */
  datatype Round = Round(started: seq<Scheduled>, completed: set<Scheduled>)

  function StartedIn(rounds: seq<Round>): set<Scheduled> {
    if rounds == [] then {} else StartedIn(rounds[..|rounds| - 1]) + Elements(rounds[|rounds| - 1].started)
  }

  function CompletedIn(rounds: seq<Round>): set<Scheduled> {
    if rounds == [] then {} else CompletedIn(rounds[..|rounds| - 1]) + rounds[|rounds| - 1].completed
  }

  /** What starts in the round is new, and what completes has started and has not completed before. */
  predicate OnceAt(rounds: seq<Round>, i: nat)
    requires i < |rounds|
  {
    && Distinct(rounds[i].started) && Elements(rounds[i].started) !! StartedIn(rounds[..i])
    && rounds[i].completed <= StartedIn(rounds[..i + 1])
    && rounds[i].completed !! CompletedIn(rounds[..i])
  }

  predicate OnceEach(rounds: seq<Round>) {
    forall i | 0 <= i < |rounds| :: OnceAt(rounds, i)
  }

  lemma OnceBefore(rounds: seq<Round>, n: nat, i: nat)
    requires i < n <= |rounds|
    ensures OnceAt(rounds[..n], i) <==> OnceAt(rounds, i)
  {
    hide Distinct, Elements, StartedIn, CompletedIn;
    assert rounds[..n][..i] == rounds[..i] && rounds[..n][..i + 1] == rounds[..i + 1];
  }

  predicate Follows(rounds: seq<Round>, started: seq<Scheduled>, running: set<Scheduled>) {
    && OnceEach(rounds) && CompletedIn(rounds) <= StartedIn(rounds)
    && Elements(started) == StartedIn(rounds) && running == StartedIn(rounds) - CompletedIn(rounds)
  }

  lemma OneMoreRound(rounds: seq<Round>, last: Round)
    ensures StartedIn(rounds + [last]) == StartedIn(rounds) + Elements(last.started)
    ensures CompletedIn(rounds + [last]) == CompletedIn(rounds) + last.completed
  {
    assert (rounds + [last])[..|rounds|] == rounds;
  }

  lemma FollowsFurther(rounds: seq<Round>, started: seq<Scheduled>, running: set<Scheduled>, newly: seq<Scheduled>, completed: set<Scheduled>)
    requires Follows(rounds, started, running) && Distinct(started + newly) && completed <= running + Elements(newly)
    ensures Follows(rounds + [Round(newly, completed)], started + newly, running + Elements(newly) - completed)
  {
    hide StartedIn, CompletedIn, OnceEach;
    var last := Round(newly, completed);
    DistinctParts(started, newly);
    OneMoreRound(rounds, last);
    hide Elements, Distinct;
    OnceMore(rounds, last);
  }

  lemma DistinctParts(a: seq<Scheduled>, b: seq<Scheduled>)
    requires Distinct(a + b)
    ensures Distinct(b) && Elements(b) !! Elements(a) && Elements(a + b) == Elements(a) + Elements(b)
  {
    forall i, j | 0 <= i < |a| && 0 <= j < |b|
      ensures a[i] != b[j]
    {
      assert (a + b)[i] == a[i] && (a + b)[|a| + j] == b[j];
    }
    assert forall j | 0 <= j < |b| :: b[j] == (a + b)[|a| + j];
    assert forall x :: x in a + b <==> x in a || x in b;
  }

  lemma OnceMore(rounds: seq<Round>, last: Round)
    requires OnceEach(rounds) && Distinct(last.started) && Elements(last.started) !! StartedIn(rounds)
    requires last.completed <= StartedIn(rounds) + Elements(last.started) && last.completed !! CompletedIn(rounds)
    ensures OnceEach(rounds + [last])
  {
    OneMoreRound(rounds, last);
    hide StartedIn, CompletedIn, Elements, Distinct;
    var more := rounds + [last];
    assert more[..|rounds|] == rounds && more[..|rounds| + 1] == more;
    assert OnceAt(more, |rounds|);
    forall i | 0 <= i < |rounds|
      ensures OnceAt(more, i)
    {
      assert OnceAt(rounds, i);
      OnceBefore(more, |rounds|, i);
    }
  }

  class Scheduler {
    const meta: ConflictsMeta
    const slots: nat
    const maxThreads: nat
    /** All mutants to schedule. */
    ghost const mutants: set<Scheduled>

    var remaining: seq<Scheduled>
    /** The running mutants, each under its own id. */
    var running: set<Scheduled>
    /** What the process runs: nothing was made active before the first mutant is scheduled. */
    var active: Option<SubstMap>
    /** Every mutant scheduled so far, in order. */
    ghost var started: seq<Scheduled>

    ghost function Fixed(): Terms {
      Terms(meta, slots, maxThreads, mutants)
    }

    /** At most so many mutants run, no two of them conflict, and every mutant remains or was scheduled, once. */
    ghost predicate Valid()
      reads this
    {
      Holding(Fixed(), remaining, {}, started, running)
    }

    /** What runs in the process is exactly what the running in-process mutants put there. */
    ghost predicate ActiveIsRunning()
      reads this
    {
      match active
      case None => started == [] && running == {}
      case Some(map') => |map'| == slots && IsActiveFor(map', running)
    }

    constructor (meta: ConflictsMeta, slots: nat, maxThreads: nat, mutants: seq<Scheduled>)
      requires meta.Valid() && DistinctIds(mutants) && SharesNoLocation(Elements(mutants), meta)
      requires forall x <- Elements(mutants) :: FitsMap(x, slots)
      ensures Valid() && ActiveIsRunning()
      ensures this.mutants == Elements(mutants) && remaining == mutants && started == [] && running == {}
    {
      this.meta, this.slots, this.maxThreads, this.mutants := meta, slots, maxThreads, Elements(mutants);
      remaining, running, active, started := mutants, {}, None, [];
    }

    /** Takes the first remaining mutant that may run alongside these, if there is one. */
    method TakeRunnable(scheduled: set<Scheduled>) returns (taken: Option<Scheduled>)
      requires meta.Valid() && Distinct(remaining)
      modifies this`remaining
      ensures Distinct(remaining)
      ensures taken.None? ==> remaining == old(remaining) && NoneRuns(remaining, scheduled, meta)
      ensures taken.Some? ==>
        && TakesFirst(old(remaining), remaining, taken.value, scheduled, meta)
        && taken.value in Elements(old(remaining)) && Elements(remaining) == Elements(old(remaining)) - {taken.value}
        && |remaining| < |old(remaining)|
    {
      for i := 0 to |remaining|
        invariant remaining == old(remaining)
        invariant forall k | 0 <= k < i :: !RunsAlongside(remaining[k], scheduled, meta)
      {
        var runs := true;
        var rest := scheduled;
        while rest != {}
          invariant rest <= scheduled
          invariant runs <==> RunsAlongside(remaining[i], scheduled - rest, meta)
        {
          var y :| y in rest;
          rest := rest - {y};
          runs := runs && Compatible(remaining[i], y, meta);
          assert scheduled - rest == scheduled - (rest + {y}) + {y};
        }
        assert scheduled - rest == scheduled;
        if runs {
          ElementsWithout(remaining, i);
          taken := Some(remaining[i]);
          remaining := remaining[..i] + remaining[i + 1..];
          return;
        }
      }
      taken := None;
    }

    /** Chooses mutants for the free slots. */
    method Choose(activeCount: nat) returns (newly: seq<Scheduled>)
      requires Valid() && |running| <= activeCount
      modifies this`remaining
      ensures Distinct(newly) && Holding(Fixed(), remaining, Elements(newly), started, running) && meta.Valid()
      ensures activeCount + |newly| >= maxThreads || NoneRuns(remaining, running + Elements(newly), meta)
      ensures newly == [] ==> remaining == old(remaining)
    {
      hide NoneRuns, RunsAlongside, Elements, Distinct, Holding;
      newly := [];
      NoElements();
      while activeCount + |newly| < maxThreads && remaining != []
        invariant Distinct(newly) && Holding(Fixed(), remaining, Elements(newly), started, running)
        invariant newly == [] ==> remaining == old(remaining)
        decreases |remaining|
      {
        ghost var before := remaining;
        HoldingMeans(Fixed(), remaining, Elements(newly), started, running);
        var taken := TakeRunnable(running + Elements(newly));
        if taken.None? {
          break;
        }
        TakenHolds(Fixed(), before, remaining, newly, taken.value, started, running);
        newly := newly + [taken.value];
      }
      HoldingMeans(Fixed(), remaining, Elements(newly), started, running);
      NoneRemain(running + Elements(newly), meta);
    }

    method Activate()
      requires Valid()
      modifies this`active
      ensures active.Some? && |active.value| == slots && IsActiveFor(active.value, running)
    {
      assert running + {} == running;
      CompatibleAreApart(running, mutants, meta);
      var map' := InProcessSubstitutions(running, slots);
      active := Some(map');
    }

    /** Makes the substitutions of all that will then run active before any of the chosen mutants starts. */
    method Start(newly: seq<Scheduled>)
      requires Distinct(newly) && Holding(Fixed(), remaining, Elements(newly), started, running) && ActiveIsRunning()
      modifies this`running, this`active, this`started
      ensures Valid() && ActiveIsRunning()
      ensures running == old(running) + Elements(newly) && Elements(newly) !! old(running) && started == old(started) + newly
    {
      hide Holding, IsActiveFor, Elements, Distinct;
      StartHolds(Fixed(), remaining, newly, started, running);
      if newly == [] {
        NoElements();
        assert running + {} == running && started + [] == started;
      }
      running := running + Elements(newly);
      started := started + newly;
      if newly != [] {
        Activate();
      }
    }

    /** Nothing runs, a slot is free, and mutants wait. */
    predicate IsFree(poolActive: nat)
      reads this
    {
      running == {} && poolActive < maxThreads && remaining != []
    }

    /** Fills the slots that neither the pool nor a running mutant takes. */
    method Schedule(poolActive: nat) returns (newly: seq<Scheduled>)
      requires Valid() && ActiveIsRunning()
      modifies this
      ensures Valid() && ActiveIsRunning()
      ensures running == old(running) + Elements(newly) && Elements(newly) !! old(running) && started == old(started) + newly
      ensures Max(poolActive, |old(running)|) + |newly| >= maxThreads || NoneRuns(remaining, running, meta)
      ensures old(IsFree(poolActive)) ==> newly != []
    {
      hide NoneRuns, Holding, IsActiveFor, Elements, Distinct;
      newly := Choose(Max(poolActive, |running|));
      if newly == [] {
        NoElements();
        assert running + {} == running;
        NoneWaitsForNothing(remaining, meta);
      }
      Start(newly);
    }

    /** Removes the mutants that completed, and their substitutions with them. */
    method Collect(completed: set<Scheduled>)
      requires Valid() && ActiveIsRunning()
      modifies this`running, this`active
      ensures Valid() && ActiveIsRunning() && running == old(running) - completed
    {
      hide Holding, IsActiveFor;
      var anyRemoved := running * completed != {};
      CollectHolds(Fixed(), remaining, started, running, completed);
      if !anyRemoved {
        DisjointDifference(running, completed);
      }
      running := running - completed;
      if anyRemoved {
        Activate();
      }
    }

    /**
     * The loop, for as many rounds as are given; in each, the pool is found so busy and these mutants complete. A round
     * that finds a slot free and nothing running starts a mutant, so there are no more such rounds than mutants.
     */
    method Run(rounds: seq<(nat, set<Scheduled>)>) returns (ghost free: nat, ghost history: seq<Round>)
      requires Valid() && ActiveIsRunning()
      modifies this
      ensures Valid() && ActiveIsRunning()
      ensures old(started) <= started && |old(started)| + free <= |started| <= |mutants|
      ensures remaining == [] ==> Elements(started) == mutants && |started| == |mutants|
      ensures old(started) == [] ==> Follows(history, started, running)
      ensures |history| == |rounds| || (running == {} && remaining == [])
      ensures forall pairs | HoldsPairs(meta, pairs) :: NoneInserted(running, meta.inProcess, pairs)
    {
      hide Valid, ActiveIsRunning, Holding, NoneRuns, Elements, Follows;
      var i := 0;
      free, history := 0, [];
      if started == [] {
        BeginFollows();
      }
      while i < |rounds| && (running != {} || remaining != [])
        invariant i == |history| <= |rounds| && Valid() && ActiveIsRunning()
        invariant old(started) <= started && |old(started)| + free <= |started|
        invariant old(started) == [] ==> Follows(history, started, running)
      {
        free := free + if IsFree(rounds[i].0) then 1 else 0;
        ghost var startedBefore, runningBefore := started, running;
        var newly := Schedule(rounds[i].0);
        ghost var completed := running * rounds[i].1;
        Collect(rounds[i].1);
        if old(started) == [] {
          StartedOnce();
          FollowsFurther(history, startedBefore, runningBefore, newly, completed);
          assert runningBefore + Elements(newly) - completed == running;
        }
        history := history + [Round(newly, completed)];
        i := i + 1;
      }
      AtMostAll();
      if remaining == [] {
        AllScheduledOnce();
      }
      forall pairs | HoldsPairs(meta, pairs)
        ensures NoneInserted(running, meta.inProcess, pairs)
      {
        RunningAreNoPairs(pairs);
      }
    }

    /** At each head of the loop, none of the pairs that the generator inserted runs in this process. */
    lemma RunningAreNoPairs(pairs: set<set<nat>>)
      requires Valid() && HoldsPairs(meta, pairs)
      ensures NoneInserted(running, meta.inProcess, pairs)
    {
      hide NoneInserted, HoldsPairs;
      assert running + {} == running;
      CompatibleMeansNoneInserted(running, meta, pairs);
    }

    lemma BeginFollows()
      requires Valid() && started == []
      ensures Follows([], started, running)
    {}

    lemma StartedOnce()
      requires Valid()
      ensures Distinct(started)
    {}

    lemma AtMostAll()
      requires Valid()
      ensures |started| <= |mutants|
    {
      ElementsSize(started);
      SubsetSize(Elements(started), mutants);
    }

    /** Once none remains, every mutant was scheduled exactly once. */
    lemma AllScheduledOnce()
      requires Valid() && remaining == []
      ensures Elements(started) == mutants && |started| == |mutants| && Distinct(started)
    {
      NoElements();
      assert mutants == {} + {} + Elements(started);
      ElementsSize(started);
    }
  }
}
