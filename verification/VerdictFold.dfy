/** The verdicts of a mutant's mutations, folded from test results that arrive in any order, with and without early stops. */
module VerdictFold {
  import opened Integers
  import opened Wrappers
  import opened Journal
  import opened TestRunner

  datatype MutationResults = MutationResults(result: Verdict, perTest: map<string, Verdict>)

  type Results = map<u32, MutationResults>

  datatype Flow = Continue | Stop

  function VerdictOf(outcome: Outcome): Verdict {
    match outcome
    case Ignored => Undetected
    case Passed => Undetected
    case Failed => Detected
    case Crash => Crashed
    case Timeout => TimedOut
  }

  /** A detection is final; otherwise the last crash or timeout counts. */
  function Folded(result: Verdict, outcome: Outcome): Verdict {
    if VerdictOf(outcome) == Undetected || (result == Detected && VerdictOf(outcome) != Detected) then result
    else VerdictOf(outcome)
  }

  /** The mutation that a test's result counts for: the first one that it reaches. */
  function MutationOf(mutations: seq<u32>, test: Test): (m: u32)
    requires exists m <- mutations :: m in test.reaches
    ensures m in mutations && m in test.reaches
  {
    if mutations[0] in test.reaches then mutations[0] else MutationOf(mutations[1..], test)
  }

  /** The condition to stop, which neither an undetected nor a crashed mutation meets. */
  predicate AllDecided(results: Results) {
    forall m <- results :: results[m].result == Detected || results[m].result == TimedOut
  }

  predicate Reaches(test: Test, mutations: seq<u32>) {
    exists m <- mutations :: m in test.reaches
  }

  function Recorded(results: Results, m: u32, test: Test): Results
    requires m in results
  {
    results[m := MutationResults(Folded(results[m].result, test.outcome), results[m].perTest[test.name := VerdictOf(test.outcome)])]
  }

  predicate EndsMutation(outcome: Outcome) {
    outcome == Failed || outcome == Timeout
  }

  /** What a result does to the queue, with the results that then are recorded. */
  function EffectOf(results: Results, m: u32, outcome: Outcome, exhaustive: bool): Effect {
    if exhaustive || !EndsMutation(outcome) then GOES_ON else Effect(Some(m), AllDecided(results))
  }

  class Evaluation {
    const mutations: seq<u32>
    const exhaustive: bool
    var results: Results
    var remaining: seq<Test>

    constructor (mutations: seq<u32>, exhaustive: bool, tests: seq<Test>)
      ensures this.mutations == mutations && this.exhaustive == exhaustive && remaining == tests
      ensures results == map m <- mutations :: MutationResults(Undetected, map[])
    {
      this.mutations, this.exhaustive, remaining := mutations, exhaustive, tests;
      results := map m <- mutations :: MutationResults(Undetected, map[]);
    }

    /** Removes what is queued for a mutation that is decided. */
    method Retain(m: u32)
      modifies this`remaining
      ensures remaining == Without(old(remaining), m)
    {
      var kept := [];
      for i := 0 to |remaining|
        invariant remaining == old(remaining) && kept == Without(remaining[..i], m)
      {
        assert remaining[..i + 1][..i] == remaining[..i];
        if m !in remaining[i].reaches {
          kept := kept + [remaining[i]];
        }
      }
      assert remaining[..|remaining|] == remaining;
      remaining := kept;
    }

    method OnResult(test: Test) returns (flow: Flow)
      requires Reaches(test, mutations) && (forall m <- mutations :: m in results)
      modifies this
      ensures var m := MutationOf(mutations, test);
        && results == Recorded(old(results), m, test)
        && var effect := EffectOf(results, m, test.outcome, exhaustive);
           remaining == Dropped(old(remaining), effect) && (flow == Stop <==> effect.stops)
    {
      var m := MutationOf(mutations, test);
      var entry := results[m];
      match test.outcome {
        case Ignored | Passed =>
          results := results[m := entry.(perTest := entry.perTest[test.name := Undetected])];
          return Continue;
        case Failed =>
          results := results[m := MutationResults(Detected, entry.perTest[test.name := Detected])];
        case Crash =>
          var result := if entry.result != Detected then Crashed else Detected;
          results := results[m := MutationResults(result, entry.perTest[test.name := Crashed])];
          return Continue;
        case Timeout =>
          var result := if entry.result != Detected then TimedOut else Detected;
          results := results[m := MutationResults(result, entry.perTest[test.name := TimedOut])];
      }
      if !exhaustive {
        Retain(m);
        if AllDecided(results) {
          return Stop;
        }
      }
      return Continue;
    }
  }

  // ---------- A whole run ----------

  /**
   * One stage after the other: the tests of this process, then the tests of child processes, which are in `later` until
   * then. A stage goes as the test runner has it, with the effects of the handler of results.
   */
  datatype Run = Run(
    queued: seq<Test>, running: seq<Test>, later: Option<seq<Test>>, stopped: bool, results: Results, reported: seq<Test>,
    pc: Pc, expired: nat)
  {
    function Stage(): TestRunner.Stage {
      TestRunner.Stage(queued, running, reported, pc, expired, stopped)
    }
  }

  /** Each stage finds out for itself how many tests may run at once. */
  datatype Slots = Slots(here: nat, inChildren: nat) {
    predicate Valid() {
      here > 0 && inChildren > 0
    }

    function In(s: Run): nat {
      if s.later.Some? then here else inChildren
    }
  }

  function InChild(tests: seq<Test>, inChild: bool): seq<Test> {
    if tests == [] then []
    else
      var last := tests[|tests| - 1];
      InChild(tests[..|tests| - 1], inChild) + if last.inChild == inChild then [last] else []
  }

  function Beginning(tests: seq<Test>, mutations: seq<u32>): Run {
    Run(InChild(tests, false), [], Some(InChild(tests, true)), false, map m <- mutations :: MutationResults(Undetected, map[]), [],
        Filling, 0)
  }

  /** Without a report, the results stay as they are. */
  predicate Goes(s: Run, s': Run, slots: Slots) {
    GoesOn(s.Stage(), s'.Stage(), slots.In(s)) && s'.later == s.later && s'.results == s.results
  }

  /** Any of the running tests may be the next to report. */
  predicate ReportsTest(s: Run, s': Run, i: nat, mutations: seq<u32>, exhaustive: bool) {
    && i < |s.running|
    && var test := s.running[i];
       && Reaches(test, mutations)
       && var m := MutationOf(mutations, test);
          && m in s.results
          && s'.results == Recorded(s.results, m, test)
          && s'.later == s.later
          && Reports(s.Stage(), s'.Stage(), i, EffectOf(s'.results, m, test.outcome, exhaustive), s.later.Some?)
  }

  /** Tests whose mutations are all decided, or have crashed, do not run in child processes unless all tests are to run. */
  function NotYetDetected(tests: seq<Test>, results: Results, mutations: seq<u32>, exhaustive: bool): seq<Test> {
    if tests == [] then []
    else
      var last := tests[|tests| - 1];
      NotYetDetected(tests[..|tests| - 1], results, mutations, exhaustive)
      + if exhaustive || exists m <- mutations :: m in last.reaches && m in results && results[m].result == Undetected then [last] else []
  }

  function Moved(s: Run, mutations: seq<u32>, exhaustive: bool): Run
    requires s.later.Some?
  {
    Run(NotYetDetected(s.later.value, s.results, mutations, exhaustive), [], None, false, s.results, s.reported, Filling, 0)
  }

  /** What is still queued or running when the first stage ends is left behind. */
  predicate MovesOn(s: Run, s': Run, mutations: seq<u32>, exhaustive: bool) {
    s.pc.Over? && s.later.Some? && s' == Moved(s, mutations, exhaustive)
  }

  ghost predicate Next(s: Run, s': Run, mutations: seq<u32>, exhaustive: bool, slots: Slots) {
    Goes(s, s', slots) || (exists i :: ReportsTest(s, s', i, mutations, exhaustive)) || MovesOn(s, s', mutations, exhaustive)
  }

  predicate IsOver(s: Run) {
    s.pc.Over? && s.later.None?
  }

  /** Some steps lead from one state to the other. */
  ghost predicate Leads(s: Run, s': Run, mutations: seq<u32>, exhaustive: bool, slots: Slots) {
    exists steps :: IsPath(steps, s, s', mutations, exhaustive, slots)
  }

  ghost predicate IsPath(steps: seq<Run>, s: Run, s': Run, mutations: seq<u32>, exhaustive: bool, slots: Slots) {
    && steps != [] && steps[0] == s && steps[|steps| - 1] == s'
    && forall i | 0 <= i < |steps| - 1 :: Next(steps[i], steps[i + 1], mutations, exhaustive, slots)
  }

  /** The states that runs of these tests come to. */
  ghost predicate IsReached(s: Run, tests: seq<Test>, mutations: seq<u32>, exhaustive: bool, slots: Slots) {
    slots.Valid() && Leads(Beginning(tests, mutations), s, mutations, exhaustive, slots)
  }

  /** The end of a run. */
  ghost predicate IsEnd(s: Run, tests: seq<Test>, mutations: seq<u32>, exhaustive: bool, slots: Slots) {
    IsReached(s, tests, mutations, exhaustive, slots) && IsOver(s)
  }

  lemma LeadsNowhere(s: Run, mutations: seq<u32>, exhaustive: bool, slots: Slots)
    ensures Leads(s, s, mutations, exhaustive, slots)
  {
    assert IsPath([s], s, s, mutations, exhaustive, slots);
  }

  lemma NextLeads(s: Run, s': Run, mutations: seq<u32>, exhaustive: bool, slots: Slots)
    requires Next(s, s', mutations, exhaustive, slots)
    ensures Leads(s, s', mutations, exhaustive, slots)
  {
    assert IsPath([s, s'], s, s', mutations, exhaustive, slots);
  }

  lemma LeadsFurther(a: Run, b: Run, c: Run, mutations: seq<u32>, exhaustive: bool, slots: Slots)
    requires Leads(a, b, mutations, exhaustive, slots) && Leads(b, c, mutations, exhaustive, slots)
    ensures Leads(a, c, mutations, exhaustive, slots)
  {
    hide Next;
    var before :| IsPath(before, a, b, mutations, exhaustive, slots);
    var after :| IsPath(after, b, c, mutations, exhaustive, slots);
    var n := |before| - 1;
    var steps := before[..n] + after;
    forall i | 0 <= i < |steps| - 1
      ensures Next(steps[i], steps[i + 1], mutations, exhaustive, slots)
    {
      if i >= n {
        assert steps[i] == after[i - n] && steps[i + 1] == after[i + 1 - n];
      } else {
        assert steps[i] == before[i] && steps[i + 1] == before[i + 1];
      }
    }
    assert IsPath(steps, a, c, mutations, exhaustive, slots);
  }

  // ---------- What every state of a run keeps ----------

  lemma {:induction false} WithoutKeeps(queue: seq<Test>, m: u32, test: Test)
    ensures test in Without(queue, m) <==> test in queue && m !in test.reaches
  {
    if queue != [] {
      WithoutKeeps(queue[..|queue| - 1], m, test);
    }
  }

  lemma {:induction false} InChildKeeps(tests: seq<Test>, inChild: bool, test: Test)
    ensures test in InChild(tests, inChild) <==> test in tests && test.inChild == inChild
  {
    if tests != [] {
      InChildKeeps(tests[..|tests| - 1], inChild, test);
    }
  }

  predicate Spared(test: Test, results: Results, mutations: seq<u32>) {
    exists m <- mutations :: m in test.reaches && m in results && results[m].result == Undetected
  }

  lemma {:induction false} NotYetDetectedKeeps(tests: seq<Test>, results: Results, mutations: seq<u32>, exhaustive: bool, test: Test)
    ensures test in NotYetDetected(tests, results, mutations, exhaustive) <==>
      test in tests && (exhaustive || Spared(test, results, mutations))
  {
    if tests != [] {
      NotYetDetectedKeeps(tests[..|tests| - 1], results, mutations, exhaustive, test);
    }
  }

  predicate AllReach(tests: seq<Test>, mutations: seq<u32>) {
    forall i | 0 <= i < |tests| :: Reaches(tests[i], mutations)
  }

  predicate ReachOneEach(tests: seq<Test>, mutations: seq<u32>) {
    forall i, m, m' | 0 <= i < |tests| && m in mutations && m' in mutations && m in tests[i].reaches && m' in tests[i].reaches ::
      m == m'
  }

  /** Each test reaches exactly one of the mutant's mutations, and has a name of its own. */
  predicate OneEach(tests: seq<Test>, mutations: seq<u32>) {
    && AllReach(tests, mutations)
    && ReachOneEach(tests, mutations)
    && (forall i, j | 0 <= i < |tests| && 0 <= j < |tests| && tests[i].name == tests[j].name :: i == j)
  }

  /** A mutation's entry, as the results that were reported for it say. */
  ghost predicate EntryIs(entry: MutationResults, reported: seq<Test>, m: u32) {
    ResultIs(entry.result, reported, m) && PerTestIs(entry.perTest, reported, m)
  }

  predicate Passes(t: Test) {
    t.outcome == Passed || t.outcome == Ignored
  }

  /** Of the mutation's tests that did not pass, the last one. */
  predicate IsLast(reported: seq<Test>, m: u32, i: nat) {
    && i < |reported| && m in reported[i].reaches && !Passes(reported[i])
    && forall j | i < j < |reported| && m in reported[j].reaches :: Passes(reported[j])
  }

  ghost predicate ResultIs(result: Verdict, reported: seq<Test>, m: u32) {
    && (result == Detected <==> exists t <- reported :: m in t.reaches && t.outcome == Failed)
    && (result == Undetected <==> forall t <- reported | m in t.reaches :: Passes(t))
    && (result == TimedOut ==> exists i: nat :: IsLast(reported, m, i) && reported[i].outcome == Timeout)
    && (result == Crashed ==> exists i: nat :: IsLast(reported, m, i) && reported[i].outcome == Crash)
  }

  ghost predicate PerTestIs(perTest: map<string, Verdict>, reported: seq<Test>, m: u32) {
    && (forall t <- reported | m in t.reaches :: t.name in perTest && perTest[t.name] == VerdictOf(t.outcome))
    && (forall name <- perTest :: exists t <- reported :: m in t.reaches && t.name == name)
  }

  predicate Known(s: Run, test: Test) {
    test in s.queued || test in s.running || test in s.reported || (s.later.Some? && test in s.later.value)
  }

  /** A test is not lost, unless its mutation is not undetected any more. */
  predicate Accounted(s: Run, test: Test, mutations: seq<u32>, exhaustive: bool) {
    Known(s, test) || (!exhaustive && !Spared(test, s.results, mutations))
  }

  /** Until the first stage is over, all tests of child processes wait for the second, which gives none of them up. */
  predicate Placed(s: Run, tests: seq<Test>) {
    match s.later
    case Some(later) =>
      && later == InChild(tests, true)
      && (forall t <- s.queued :: !t.inChild) && (forall t <- s.running :: !t.inChild) && (forall t <- s.reported :: !t.inChild)
    case None => s.expired == 0 && (forall t <- s.queued :: t.inChild) && (forall t <- s.running :: t.inChild)
  }

  /** Only a test of this process that the first stage left behind is unaccounted for. */
  ghost predicate Inv(s: Run, tests: seq<Test>, mutations: seq<u32>, exhaustive: bool) {
    && (forall m :: m in s.results <==> m in mutations)
    && (forall m <- mutations :: EntryIs(s.results[m], s.reported, m))
    && (forall t | Known(s, t) :: t in tests)
    && (forall t <- tests | s.later.Some? || t.inChild :: Accounted(s, t, mutations, exhaustive))
    && (s.stopped ==> !exhaustive && AllDecided(s.results))
    && Placed(s, tests)
  }

  lemma BeginHolds(tests: seq<Test>, mutations: seq<u32>, exhaustive: bool, slots: Slots)
    ensures var s := Beginning(tests, mutations); Inv(s, tests, mutations, exhaustive) && SlotInv(s.Stage(), slots.In(s))
  {
    var s := Beginning(tests, mutations);
    forall t: Test
      ensures Known(s, t) <==> t in tests
      ensures t in s.queued ==> !t.inChild
    {
      InChildKeeps(tests, false, t);
      InChildKeeps(tests, true, t);
    }
  }

  lemma GoesKeeps(s: Run, s': Run, tests: seq<Test>, mutations: seq<u32>, exhaustive: bool, slots: Slots)
    requires Inv(s, tests, mutations, exhaustive) && Goes(s, s', slots)
    ensures Inv(s', tests, mutations, exhaustive)
  {
    hide EntryIs, Spared;
    forall t: Test
      ensures Known(s', t) <==> Known(s, t)
      ensures t in s'.queued ==> t in s.queued
      ensures t in s'.running ==> t in s.running || t in s.queued
    {
      assert s.queued != [] ==> s.queued == [s.queued[0]] + s.queued[1..];
    }
  }

  lemma EntryGrows(entry: MutationResults, reported: seq<Test>, m: u32, test: Test)
    requires EntryIs(entry, reported, m) && m in test.reaches
    requires forall t <- reported | t.name == test.name :: t == test
    ensures EntryIs(
      MutationResults(Folded(entry.result, test.outcome), entry.perTest[test.name := VerdictOf(test.outcome)]), reported + [test], m)
  {
    ResultGrows(entry.result, reported, m, test);
    PerTestGrows(entry.perTest, reported, m, test);
  }

  lemma ResultGrows(result: Verdict, reported: seq<Test>, m: u32, test: Test)
    requires ResultIs(result, reported, m) && m in test.reaches
    ensures ResultIs(Folded(result, test.outcome), reported + [test], m)
  {
    var reported' := reported + [test];
    assert forall t :: t in reported' <==> t in reported || t == test;
    if Passes(test) {
      forall i: nat | IsLast(reported, m, i)
        ensures IsLast(reported', m, i) && reported'[i] == reported[i]
      {
        LastStays(reported, m, i, test);
      }
    } else {
      assert IsLast(reported', m, |reported|);
    }
  }

  lemma LastStays(reported: seq<Test>, m: u32, i: nat, test: Test)
    requires IsLast(reported, m, i) && (m in test.reaches ==> Passes(test))
    ensures IsLast(reported + [test], m, i)
  {}

  lemma PerTestGrows(perTest: map<string, Verdict>, reported: seq<Test>, m: u32, test: Test)
    requires PerTestIs(perTest, reported, m) && m in test.reaches
    requires forall t <- reported | t.name == test.name :: t == test
    ensures PerTestIs(perTest[test.name := VerdictOf(test.outcome)], reported + [test], m)
  {
    hide VerdictOf;
    assert forall t :: t in reported + [test] <==> t in reported || t == test;
  }

  lemma EntryStays(entry: MutationResults, reported: seq<Test>, m: u32, test: Test)
    requires EntryIs(entry, reported, m) && m !in test.reaches
    ensures EntryIs(entry, reported + [test], m)
  {
    var reported' := reported + [test];
    assert forall t :: t in reported' <==> t in reported || t == test;
    forall i: nat | IsLast(reported, m, i)
      ensures IsLast(reported', m, i) && reported'[i] == reported[i]
    {
      LastStays(reported, m, i, test);
    }
  }

  /** A mutation that was detected, timed out or crashed does not get undetected again. */
  lemma SparedBefore(results: Results, m: u32, test: Test, mutations: seq<u32>, other: Test)
    requires m in results && Spared(other, Recorded(results, m, test), mutations)
    ensures Spared(other, results, mutations)
  {}

  lemma SameName(tests: seq<Test>, mutations: seq<u32>, a: Test, b: Test)
    requires OneEach(tests, mutations) && a in tests && b in tests && a.name == b.name
    ensures a == b
  {}

  /** What a report does to the places of the tests. */
  lemma ReportMoves(s: Run, s': Run, i: nat, mutations: seq<u32>, exhaustive: bool, t: Test)
    requires ReportsTest(s, s', i, mutations, exhaustive)
    ensures s'.reported == s.reported + [s.running[i]]
    ensures t in s.running <==> t == s.running[i] || t in s'.running
    ensures t in s'.queued ==> t in s.queued
    ensures var m := MutationOf(mutations, s.running[i]);
      t in s.queued && t !in s'.queued ==> !exhaustive && EndsMutation(s.running[i].outcome) && m in t.reaches
  {
    StillRunning(s.running, i, t);
    WithoutKeeps(s.queued, MutationOf(mutations, s.running[i]), t);
  }

  lemma ReportKeeps(s: Run, s': Run, i: nat, tests: seq<Test>, mutations: seq<u32>, exhaustive: bool)
    requires OneEach(tests, mutations) && Inv(s, tests, mutations, exhaustive) && ReportsTest(s, s', i, mutations, exhaustive)
    ensures Inv(s', tests, mutations, exhaustive)
  {
    hide EntryIs, Folded, Without, AllReach, ReachOneEach;
    var test := s.running[i];
    var m := MutationOf(mutations, test);
    assert Known(s, test);
    ReportEntries(s, s', i, tests, mutations, exhaustive);
    forall t: Test
      ensures Known(s', t) ==> Known(s, t)
      ensures Known(s, t) && !Known(s', t) ==> t in s.queued && t !in s'.queued
      ensures t in s'.queued ==> t in s.queued
      ensures t in s'.running ==> t in s.running
    {
      ReportMoves(s, s', i, mutations, exhaustive, t);
    }
    forall t <- tests | s'.later.Some? || t.inChild
      ensures Accounted(s', t, mutations, exhaustive)
    {
      assert Accounted(s, t, mutations, exhaustive);
      ReportMoves(s, s', i, mutations, exhaustive, t);
      if !exhaustive && Spared(t, s'.results, mutations) {
        SparedBefore(s.results, m, test, mutations, t);
        ReportedIsNotSpared(s.results, m, test, mutations, t, tests);
      }
    }
  }

  lemma ReportEntries(s: Run, s': Run, i: nat, tests: seq<Test>, mutations: seq<u32>, exhaustive: bool)
    requires OneEach(tests, mutations) && Inv(s, tests, mutations, exhaustive) && ReportsTest(s, s', i, mutations, exhaustive)
    ensures forall m :: m in s'.results <==> m in mutations
    ensures forall m <- mutations :: EntryIs(s'.results[m], s'.reported, m)
  {
    hide EntryIs, Folded, Without, OneEach, Placed, Accounted;
    var test := s.running[i];
    var m := MutationOf(mutations, test);
    assert Known(s, test);
    forall m' <- mutations
      ensures EntryIs(s'.results[m'], s'.reported, m')
    {
      if m' == m {
        forall t <- s.reported | t.name == test.name
          ensures t == test
        {
          assert Known(s, t);
          SameName(tests, mutations, t, test);
        }
        EntryGrows(s.results[m], s.reported, m, test);
      } else {
        ReachesOnly(test, tests, mutations, m);
        ReachesNoOther(test, tests, mutations, m, m');
        EntryStays(s.results[m'], s.reported, m', test);
      }
    }
  }

  lemma ReachesOnly(test: Test, tests: seq<Test>, mutations: seq<u32>, m: u32)
    requires OneEach(tests, mutations) && test in tests && m in mutations && m in test.reaches
    ensures Reaches(test, mutations) && MutationOf(mutations, test) == m
  {}

  lemma ReachesNoOther(test: Test, tests: seq<Test>, mutations: seq<u32>, m: u32, other: u32)
    requires OneEach(tests, mutations) && test in tests && m in mutations && other in mutations && m in test.reaches && other != m
    ensures other !in test.reaches
  {}

  /** What is removed from the queue belongs to the mutation that was just decided. */
  lemma ReportedIsNotSpared(results: Results, m: u32, test: Test, mutations: seq<u32>, other: Test, tests: seq<Test>)
    requires m in results && OneEach(tests, mutations) && other in tests
    requires m in mutations && Spared(other, Recorded(results, m, test), mutations)
    ensures EndsMutation(test.outcome) ==> m !in other.reaches
  {
    if m in other.reaches {
      ReachesOnly(other, tests, mutations, m);
      forall m' <- mutations | m' in other.reaches
        ensures m' == m
      {
        ReachesOnly(other, tests, mutations, m');
      }
    }
  }

  lemma MoveKeeps(s: Run, s': Run, tests: seq<Test>, mutations: seq<u32>, exhaustive: bool)
    requires Inv(s, tests, mutations, exhaustive) && MovesOn(s, s', mutations, exhaustive)
    ensures Inv(s', tests, mutations, exhaustive)
  {
    hide EntryIs, NotYetDetected;
    forall t: Test
      ensures Known(s', t) ==> Known(s, t)
      ensures t in s'.queued ==> t.inChild
    {
      InChildKeeps(tests, true, t);
      NotYetDetectedKeeps(s.later.value, s.results, mutations, exhaustive, t);
    }
    forall t <- tests | t.inChild
      ensures Accounted(s', t, mutations, exhaustive)
    {
      assert Accounted(s, t, mutations, exhaustive);
      InChildKeeps(tests, true, t);
      NotYetDetectedKeeps(s.later.value, s.results, mutations, exhaustive, t);
    }
  }

  lemma NextKeeps(s: Run, s': Run, tests: seq<Test>, mutations: seq<u32>, exhaustive: bool, slots: Slots)
    requires OneEach(tests, mutations) && slots.Valid() && Next(s, s', mutations, exhaustive, slots)
    requires Inv(s, tests, mutations, exhaustive) && SlotInv(s.Stage(), slots.In(s))
    ensures Inv(s', tests, mutations, exhaustive) && SlotInv(s'.Stage(), slots.In(s'))
  {
    if i: nat :| ReportsTest(s, s', i, mutations, exhaustive) {
      hide Inv, OneEach, SlotInv, Reports, Recorded;
      ReportKeeps(s, s', i, tests, mutations, exhaustive);
      var m := MutationOf(mutations, s.running[i]);
      ReportKeepsSlots(s.Stage(), s'.Stage(), i, EffectOf(s'.results, m, s.running[i].outcome, exhaustive), s.later.Some?, slots.In(s));
    } else if MovesOn(s, s', mutations, exhaustive) {
      hide Inv, OneEach, NotYetDetected;
      MoveKeeps(s, s', tests, mutations, exhaustive);
    } else {
      hide Inv, OneEach, SlotInv, GoesOn;
      GoesKeeps(s, s', tests, mutations, exhaustive, slots);
      QuietKeepsSlots(s.Stage(), s'.Stage(), slots.In(s));
    }
  }

  lemma {:induction false} PathKeeps(steps: seq<Run>, tests: seq<Test>, mutations: seq<u32>, exhaustive: bool, slots: Slots)
    requires OneEach(tests, mutations) && slots.Valid() && steps != []
    requires IsPath(steps, Beginning(tests, mutations), steps[|steps| - 1], mutations, exhaustive, slots)
    ensures var s := steps[|steps| - 1]; Inv(s, tests, mutations, exhaustive) && SlotInv(s.Stage(), slots.In(s))
  {
    hide Inv, OneEach, SlotInv, Next, Beginning;
    var n := |steps| - 1;
    if n == 0 {
      BeginHolds(tests, mutations, exhaustive, slots);
    } else {
      PathKeeps(steps[..n], tests, mutations, exhaustive, slots);
      NextKeeps(steps[n - 1], steps[n], tests, mutations, exhaustive, slots);
    }
  }

  lemma ReachedKeeps(s: Run, tests: seq<Test>, mutations: seq<u32>, exhaustive: bool, slots: Slots)
    requires OneEach(tests, mutations) && IsReached(s, tests, mutations, exhaustive, slots)
    ensures Inv(s, tests, mutations, exhaustive) && SlotInv(s.Stage(), slots.In(s))
  {
    var steps :| IsPath(steps, Beginning(tests, mutations), s, mutations, exhaustive, slots);
    PathKeeps(steps, tests, mutations, exhaustive, slots);
  }

  // ---------- Main results ----------

  /** In every state, a mutation is detected exactly if the result of one of its tests is, whatever came before or after. */
  lemma DetectedIsRecorded(s: Run, tests: seq<Test>, mutations: seq<u32>, exhaustive: bool, slots: Slots, m: u32)
    requires OneEach(tests, mutations) && IsReached(s, tests, mutations, exhaustive, slots) && m in mutations
    ensures m in s.results && (s.results[m].result == Detected <==> Detected in s.results[m].perTest.Values)
  {
    ReachedKeeps(s, tests, mutations, exhaustive, slots);
    hide IsReached, OneEach, Placed, Accounted;
    var entry := s.results[m];
    assert EntryIs(entry, s.reported, m);
    if entry.result == Detected {
      var t :| t in s.reported && m in t.reaches && t.outcome == Failed;
      assert entry.perTest[t.name] == Detected;
    }
    if Detected in entry.perTest.Values {
      var name :| name in entry.perTest && entry.perTest[name] == Detected;
      var t :| t in s.reported && m in t.reaches && t.name == name;
      assert VerdictOf(t.outcome) == Detected;
    }
  }

  predicate AllPass(tests: seq<Test>, m: u32) {
    forall t <- tests | m in t.reaches :: Passes(t)
  }

  predicate SomeFails(tests: seq<Test>, m: u32) {
    exists t <- tests :: m in t.reaches && t.outcome == Failed
  }

  predicate IsDetected(s: Run, m: u32) {
    m in s.results && s.results[m].result == Detected
  }

  predicate IsUndetected(s: Run, m: u32) {
    m in s.results && s.results[m].result == Undetected
  }

  /** A verdict says exactly what some of the reported tests say. */
  lemma VerdictsAreReported(s: Run, tests: seq<Test>, mutations: seq<u32>, exhaustive: bool, m: u32)
    requires Inv(s, tests, mutations, exhaustive) && m in mutations
    ensures m in s.results
    ensures IsDetected(s, m) <==> SomeFails(s.reported, m)
    ensures IsUndetected(s, m) <==> AllPass(s.reported, m)
    ensures forall t <- s.reported :: t in tests
  {
    assert EntryIs(s.results[m], s.reported, m);
    forall t <- s.reported
      ensures t in tests
    {
      assert Known(s, t);
    }
  }

  /** In every state: a failing test detects; with none, the last test that did not pass gives the verdict, if there is one. */
  lemma VerdictIsOfLast(s: Run, tests: seq<Test>, mutations: seq<u32>, exhaustive: bool, slots: Slots, m: u32)
    requires OneEach(tests, mutations) && IsReached(s, tests, mutations, exhaustive, slots) && m in mutations
    ensures m in s.results
    ensures SomeFails(s.reported, m) ==> s.results[m].result == Detected
    ensures AllPass(s.reported, m) ==> s.results[m].result == Undetected
    ensures !SomeFails(s.reported, m) && !AllPass(s.reported, m) ==>
      exists i: nat :: IsLast(s.reported, m, i) && s.results[m].result == if s.reported[i].outcome == Crash then Crashed else TimedOut
  {
    ReachedKeeps(s, tests, mutations, exhaustive, slots);
    VerdictsAreReported(s, tests, mutations, exhaustive, m);
    hide OneEach, IsReached, Accounted, Placed, PerTestIs, SomeFails, AllPass;
    assert EntryIs(s.results[m], s.reported, m);
  }

  /** A detection is always of a test that fails. */
  lemma DetectedMeansSomeFails(s: Run, tests: seq<Test>, mutations: seq<u32>, exhaustive: bool, slots: Slots, m: u32)
    requires OneEach(tests, mutations) && IsReached(s, tests, mutations, exhaustive, slots) && m in mutations
    ensures IsDetected(s, m) ==> SomeFails(tests, m)
  {
    ReachedKeeps(s, tests, mutations, exhaustive, slots);
    VerdictsAreReported(s, tests, mutations, exhaustive, m);
  }

  /** A mutation whose tests all pass is never anything but undetected. */
  lemma AllPassMeansUndetected(s: Run, tests: seq<Test>, mutations: seq<u32>, exhaustive: bool, slots: Slots, m: u32)
    requires OneEach(tests, mutations) && IsReached(s, tests, mutations, exhaustive, slots) && m in mutations && AllPass(tests, m)
    ensures IsUndetected(s, m)
  {
    ReachedKeeps(s, tests, mutations, exhaustive, slots);
    VerdictsAreReported(s, tests, mutations, exhaustive, m);
  }

  /** The tests of child processes all report, those of a mutation that is undetected even if the run stops early. */
  lemma ChildrenReport(s: Run, tests: seq<Test>, mutations: seq<u32>, exhaustive: bool, slots: Slots, t: Test)
    requires OneEach(tests, mutations) && IsEnd(s, tests, mutations, exhaustive, slots) && t in tests && t.inChild
    ensures t in s.reported || (!exhaustive && !Spared(t, s.results, mutations))
  {
    ReachedKeeps(s, tests, mutations, exhaustive, slots);
    assert Accounted(s, t, mutations, exhaustive);
    if s.stopped {
      StoppedSparesNone(s, tests, mutations, exhaustive, t);
    }
  }

  /** A run stops only once every mutation is decided. */
  lemma StoppedSparesNone(s: Run, tests: seq<Test>, mutations: seq<u32>, exhaustive: bool, t: Test)
    requires Inv(s, tests, mutations, exhaustive) && s.stopped
    ensures !exhaustive && !Spared(t, s.results, mutations)
  {}
}
