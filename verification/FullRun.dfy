/** What a run of all tests reports, however many tests run at once and whichever are given up: the exact conditions. */
module FullRun {
  import opened Collections
  import opened Integers
  import opened Wrappers
  import opened TestRunner
  import opened VerdictFold
  import opened RunSteps

  function InProcess(tests: seq<Test>): seq<Test> {
    InChild(tests, false)
  }

  /** Fewer tests than slots time out before it, so they cannot take all slots at once while it is queued. */
  predicate ComesInTime(queue: seq<Test>, t: Test, slots: nat) {
    exists k | 0 <= k < |queue| :: queue[k] == t && Count(queue[..k], TIMES_OUT) < slots
  }

  predicate IsSureToReport(tests: seq<Test>, t: Test, slots: Slots) {
    t in tests && (t.inChild || ComesInTime(InProcess(tests), t, slots.here))
  }

  // ---------- What is sure to report does ----------

  ghost predicate FullInv(s: Run, tests: seq<Test>, slots: Slots) {
    if s.later.Some? then exists n :: HasStarted(s.Stage(), InProcess(tests), n)
    else forall t <- InProcess(tests) | ComesInTime(InProcess(tests), t, slots.here) :: t in s.reported
  }

  /** Once the stage is over, those that came in time have reported. */
  lemma InTimeReports(s: Run, tests: seq<Test>, n: nat, t: Test, slots: Slots)
    requires HasStarted(s.Stage(), InProcess(tests), n) && SlotInv(s.Stage(), slots.here) && s.pc.Over?
    requires ComesInTime(InProcess(tests), t, slots.here)
    ensures t in s.reported
  {
    hide Count;
    var queue := InProcess(tests);
    var k :| 0 <= k < |queue| && queue[k] == t && Count(queue[..k], TIMES_OUT) < slots.here;
    if n <= k {
      CountPrefix(queue, n, k, TIMES_OUT);
      CountNone(s.running, TIMES_OUT);
    }
  }

  lemma FullStep(s: Run, s': Run, tests: seq<Test>, mutations: seq<u32>, slots: Slots)
    requires SlotInv(s.Stage(), slots.In(s)) && FullInv(s, tests, slots) && Next(s, s', mutations, true, slots)
    ensures FullInv(s', tests, slots)
  {
    hide SlotInv, HasStarted, Reports, GoesOn, Recorded;
    if MovesOn(s, s', mutations, true) {
      var n :| HasStarted(s.Stage(), InProcess(tests), n);
      forall t <- InProcess(tests) | ComesInTime(InProcess(tests), t, slots.here)
        ensures t in s'.reported
      {
        InTimeReports(s, tests, n, t, slots);
      }
    } else if s.later.Some? {
      var n :| HasStarted(s.Stage(), InProcess(tests), n);
      StageStep(s, s', mutations, slots);
      var n' := NextHasStarted(s.Stage(), s'.Stage(), InProcess(tests), n, slots.here);
    } else {
      ReportedStays(s, s', mutations, true, slots);
    }
  }

  /** As the handler drops nothing, the first stage goes as one whose tests are all to run. */
  lemma StageStep(s: Run, s': Run, mutations: seq<u32>, slots: Slots)
    requires s.later.Some? && Next(s, s', mutations, true, slots) && !MovesOn(s, s', mutations, true)
    ensures NextInStage(s.Stage(), s'.Stage(), slots.here, true) && s'.later == s.later
  {
    hide Reports, GoesOn, Recorded;
    if i: nat :| ReportsTest(s, s', i, mutations, true) {
      assert Reports(s.Stage(), s'.Stage(), i, GOES_ON, true);
    }
  }

  lemma ReportedStays(s: Run, s': Run, mutations: seq<u32>, exhaustive: bool, slots: Slots)
    requires Next(s, s', mutations, exhaustive, slots) && !MovesOn(s, s', mutations, exhaustive)
    ensures s.reported <= s'.reported && s'.later == s.later
  {
    hide Recorded, Without;
  }

  lemma {:induction false} FullPath(steps: seq<Run>, tests: seq<Test>, mutations: seq<u32>, slots: Slots)
    requires OneEach(tests, mutations) && slots.Valid() && steps != []
    requires IsPath(steps, Beginning(tests, mutations), steps[|steps| - 1], mutations, true, slots)
    ensures FullInv(steps[|steps| - 1], tests, slots)
  {
    hide OneEach, SlotInv, Next, Inv, Slots.In;
    var n := |steps| - 1;
    if n == 0 {
      assert HasStarted(steps[0].Stage(), InProcess(tests), 0);
    } else {
      hide FullInv, Beginning;
      PathKeeps(steps[..n], tests, mutations, true, slots);
      FullPath(steps[..n], tests, mutations, slots);
      FullStep(steps[n - 1], steps[n], tests, mutations, slots);
    }
  }

  /** Every run of all tests reports those that are sure to report. */
  lemma SureReports(s: Run, tests: seq<Test>, mutations: seq<u32>, slots: Slots, t: Test)
    requires OneEach(tests, mutations) && IsEnd(s, tests, mutations, true, slots) && IsSureToReport(tests, t, slots)
    ensures t in s.reported
  {
    if t.inChild {
      ChildrenReport(s, tests, mutations, true, slots, t);
    } else {
      var steps :| IsPath(steps, Beginning(tests, mutations), s, mutations, true, slots);
      FullPath(steps, tests, mutations, slots);
      var queue := InProcess(tests);
      var k :| 0 <= k < |queue| && queue[k] == t && Count(queue[..k], TIMES_OUT) < slots.here;
      assert t in queue;
    }
  }

  // ---------- A run that reports nothing else ----------

  /** The shortest prefix in which so many tests time out. */
  lemma {:induction false} LeastPrefix(queue: seq<Test>, slots: nat) returns (k: nat)
    requires 0 < slots <= Count(queue, TIMES_OUT)
    ensures k <= |queue| && Count(queue[..k], TIMES_OUT) >= slots
    ensures forall j | 0 <= j < k :: Count(queue[..j], TIMES_OUT) < slots
  {
    var n := |queue| - 1;
    if Count(queue[..n], TIMES_OUT) >= slots {
      k := LeastPrefix(queue[..n], slots);
      assert forall j | 0 <= j <= k :: queue[..n][..j] == queue[..j];
    } else {
      k := |queue|;
      assert queue[..k] == queue;
      forall j | 0 <= j < k
        ensures Count(queue[..j], TIMES_OUT) < slots
      {
        CountPrefix(queue, j, n, TIMES_OUT);
      }
    }
  }

  /** A run of the first stage alone is the beginning of a whole run. */
  lemma {:induction false} Lift(stages: seq<TestRunner.Stage>, tests: seq<Test>, mutations: seq<u32>, slots: Slots) returns (s: Run)
    requires OneEach(tests, mutations) && slots.Valid() && IsStageRun(stages, InProcess(tests), slots.here, true)
    ensures IsReached(s, tests, mutations, true, slots) && s.Stage() == stages[|stages| - 1] && s.later == Some(InChild(tests, true))
  {
    hide NextInStage, OneEach, Leads;
    var n := |stages| - 1;
    if n == 0 {
      s := Beginning(tests, mutations);
      LeadsNowhere(s, mutations, true, slots);
    } else {
      assert IsStageRun(stages[..n], InProcess(tests), slots.here, true);
      var before := Lift(stages[..n], tests, mutations, slots);
      s := LiftStep(before, stages[n], tests, mutations, slots);
      NextLeads(before, s, mutations, true, slots);
      LeadsFurther(Beginning(tests, mutations), before, s, mutations, true, slots);
    }
  }

  function WithStage(s: Run, stage: TestRunner.Stage, results: Results): Run {
    Run(stage.queued, stage.running, s.later, stage.stopped, results, stage.reported, stage.pc, stage.expired)
  }

  lemma LiftStep(s: Run, stage: TestRunner.Stage, tests: seq<Test>, mutations: seq<u32>, slots: Slots) returns (s': Run)
    requires OneEach(tests, mutations) && IsReached(s, tests, mutations, true, slots) && s.later.Some?
    requires NextInStage(s.Stage(), stage, slots.here, true)
    ensures Next(s, s', mutations, true, slots) && s'.Stage() == stage && s'.later == s.later
  {
    hide Inv, OneEach, SlotInv, IsReached, GoesOn, Reports;
    if i: nat :| Reports(s.Stage(), stage, i, GOES_ON, true) {
      ReportsOne(s.Stage(), stage, i);
      ReachedKeeps(s, tests, mutations, true, slots);
      s' := LiftReport(s, stage, i, tests, mutations);
    } else {
      s' := WithStage(s, stage, s.results);
      assert Goes(s, s', slots);
    }
  }

  lemma LiftReport(s: Run, stage: TestRunner.Stage, i: nat, tests: seq<Test>, mutations: seq<u32>) returns (s': Run)
    requires OneEach(tests, mutations) && Inv(s, tests, mutations, true) && s.later.Some?
    requires i < |s.running| && Reports(s.Stage(), stage, i, GOES_ON, true)
    ensures ReportsTest(s, s', i, mutations, true) && s'.Stage() == stage && s'.later == s.later
  {
    RunningReach(s, i, tests, mutations, true);
    hide Inv, OneEach, Reports, Recorded, Reaches, MutationOf;
    s' := WithStage(s, stage, Recorded(s.results, MutationOf(mutations, s.running[i]), s.running[i]));
  }

  lemma ReportsOne(s: TestRunner.Stage, s': TestRunner.Stage, i: nat)
    requires Reports(s, s', i, GOES_ON, true)
    ensures i < |s.running|
  {}

  /** From the end of the first stage on, no other tests report than those of child processes. */
  lemma ChildrenEnd(s: Run, tests: seq<Test>, mutations: seq<u32>, slots: Slots) returns (last: Run)
    requires OneEach(tests, mutations) && IsReached(s, tests, mutations, true, slots) && s.pc.Over? && s.later.Some?
    ensures IsEnd(last, tests, mutations, true, slots)
    ensures s.reported <= last.reported && forall t <- last.reported :: t in s.reported || (t in tests && t.inChild)
  {
    ReachedKeeps(s, tests, mutations, true, slots);
    MoveLeads(s, tests, mutations, true, slots);
    var moved := Moved(s, mutations, true);
    last := RunOut(moved, tests, mutations, true, slots);
    LeadsFurther(Beginning(tests, mutations), s, moved, mutations, true, slots);
    LeadsFurther(Beginning(tests, mutations), moved, last, mutations, true, slots);
    hide OneEach, Leads, SlotInv, NotYetDetected, HasOnly;
    forall t <- last.reported
      ensures t in s.reported || (t in tests && t.inChild)
    {
      LaterTests(s, moved, last, tests, mutations, t);
    }
  }

  lemma LaterTests(s: Run, moved: Run, last: Run, tests: seq<Test>, mutations: seq<u32>, t: Test)
    requires Inv(s, tests, mutations, true) && MovesOn(s, moved, mutations, true) && HasOnly(last, moved) && t in last.reported
    ensures t in s.reported || (t in tests && t.inChild)
  {
    NotYetDetectedKeeps(s.later.value, s.results, mutations, true, t);
    InChildKeeps(tests, true, t);
  }

  lemma OnlySureReport(tests: seq<Test>, mutations: seq<u32>, slots: Slots) returns (last: Run)
    requires OneEach(tests, mutations) && slots.Valid()
    ensures IsEnd(last, tests, mutations, true, slots)
    ensures forall t <- last.reported :: IsSureToReport(tests, t, slots)
  {
    hide OneEach, Leads, Count, Inv, SlotInv, Beginning;
    var queue := InProcess(tests);
    if Count(queue, TIMES_OUT) < slots.here {
      BeginIsReady(tests, mutations, true, slots);
      var s := RunOut(Beginning(tests, mutations), tests, mutations, true, slots);
      BeginningHasMore(tests, mutations);
      last := ChildrenEnd(s, tests, mutations, slots);
      ReachedKeeps(last, tests, mutations, true, slots);
      forall t <- last.reported
        ensures IsSureToReport(tests, t, slots)
      {
        VerdictsAreOfTests(last, tests, mutations, true, t);
        AllInTime(tests, slots, t);
      }
    } else {
      var k := LeastPrefix(queue, slots.here);
      var stages, m := GivesUp(queue, k, slots.here);
      var s := Lift(stages, tests, mutations, slots);
      last := ChildrenEnd(s, tests, mutations, slots);
      forall t <- last.reported
        ensures IsSureToReport(tests, t, slots)
      {
        if t in s.reported {
          StartedInTime(s.Stage(), tests, m, k, slots, t);
        }
      }
    }
  }

  /** A run that gives no test up reports them all. */
  lemma AllMayReport(tests: seq<Test>, mutations: seq<u32>, slots: Slots) returns (last: Run)
    requires OneEach(tests, mutations) && slots.Valid()
    ensures IsEnd(last, tests, mutations, true, slots) && forall t <- tests :: t in last.reported
  {
    hide OneEach, Leads, Inv, SlotInv, Beginning;
    BeginIsReady(tests, mutations, true, slots);
    BeginningHasMore(tests, mutations);
    var s := RunOut(Beginning(tests, mutations), tests, mutations, true, slots);
    last := ChildrenEnd(s, tests, mutations, slots);
    forall t <- tests
      ensures t in last.reported
    {
      if t.inChild {
        ChildrenReport(last, tests, mutations, true, slots, t);
      } else {
        NothingIsLeft(s, tests, mutations, t);
      }
    }
  }

  lemma NothingIsLeft(s: Run, tests: seq<Test>, mutations: seq<u32>, t: Test)
    requires Inv(s, tests, mutations, true) && s.later.Some? && t in tests && !t.inChild
    requires s.stopped || s.queued == s.running == []
    ensures t in s.reported
  {
    hide EntryIs;
    assert Accounted(s, t, mutations, true);
    InChildKeeps(tests, true, t);
  }

  lemma BeginningHasMore(tests: seq<Test>, mutations: seq<u32>)
    ensures Beginning(tests, mutations).later.Some?
  {}

  lemma VerdictsAreOfTests(s: Run, tests: seq<Test>, mutations: seq<u32>, exhaustive: bool, t: Test)
    requires Inv(s, tests, mutations, exhaustive) && t in s.reported
    ensures t in tests
  {
    assert Known(s, t);
  }

  lemma AllInTime(tests: seq<Test>, slots: Slots, t: Test)
    requires t in tests && Count(InProcess(tests), TIMES_OUT) < slots.here
    ensures IsSureToReport(tests, t, slots)
  {
    var queue := InProcess(tests);
    InChildKeeps(tests, false, t);
    if !t.inChild {
      var k :| 0 <= k < |queue| && queue[k] == t;
      CountPrefix(queue, k, |queue|, TIMES_OUT);
      assert queue[..|queue|] == queue;
    }
  }

  lemma StartedInTime(s: TestRunner.Stage, tests: seq<Test>, m: nat, k: nat, slots: Slots, t: Test)
    requires HasStarted(s, InProcess(tests), m) && m <= k && t in s.reported
    requires k <= |InProcess(tests)| && forall j | 0 <= j < k :: Count(InProcess(tests)[..j], TIMES_OUT) < slots.here
    ensures IsSureToReport(tests, t, slots)
  {
    var queue := InProcess(tests);
    assert t in queue[..m];
    var j :| 0 <= j < m && queue[..m][j] == t;
    assert queue[j] == t;
    InChildKeeps(tests, false, t);
  }

  // ---------- Main results ----------

  predicate SureToFail(tests: seq<Test>, slots: Slots, m: u32) {
    exists t <- tests :: m in t.reaches && t.outcome == Failed && IsSureToReport(tests, t, slots)
  }

  /** A run of all tests detects a mutation, whatever is given up, exactly if a test that fails is sure to report. */
  lemma FullRunDetects(tests: seq<Test>, mutations: seq<u32>, slots: Slots, m: u32)
    requires OneEach(tests, mutations) && slots.Valid() && m in mutations
    ensures (forall s | IsEnd(s, tests, mutations, true, slots) :: IsDetected(s, m)) <==> SureToFail(tests, slots, m)
  {
    hide OneEach, IsReached, IsSureToReport;
    if t :| t in tests && m in t.reaches && t.outcome == Failed && IsSureToReport(tests, t, slots) {
      forall s | IsEnd(s, tests, mutations, true, slots)
        ensures IsDetected(s, m)
      {
        SureReports(s, tests, mutations, slots, t);
        FullVerdict(s, tests, mutations, slots, m);
      }
    } else {
      var s := OnlySureReport(tests, mutations, slots);
      FullVerdict(s, tests, mutations, slots, m);
    }
  }

  lemma FullVerdict(s: Run, tests: seq<Test>, mutations: seq<u32>, slots: Slots, m: u32)
    requires OneEach(tests, mutations) && IsReached(s, tests, mutations, true, slots) && m in mutations
    ensures IsDetected(s, m) <==> SomeFails(s.reported, m)
    ensures IsUndetected(s, m) <==> AllPass(s.reported, m)
    ensures forall t <- s.reported :: t in tests
  {
    ReachedKeeps(s, tests, mutations, true, slots);
    VerdictsAreReported(s, tests, mutations, true, m);
  }

  predicate SureToTell(tests: seq<Test>, slots: Slots, m: u32) {
    exists t <- tests :: m in t.reaches && !Passes(t) && IsSureToReport(tests, t, slots)
  }

  /** A run of all tests leaves exactly the mutations undetected whose tests all pass, if and only if one that does not
      pass is sure to report. */
  lemma FullRunLeavesUndetected(tests: seq<Test>, mutations: seq<u32>, slots: Slots, m: u32)
    requires OneEach(tests, mutations) && slots.Valid() && m in mutations
    ensures (forall s | IsEnd(s, tests, mutations, true, slots) :: IsUndetected(s, m) <==> AllPass(tests, m)) <==>
      AllPass(tests, m) || SureToTell(tests, slots, m)
  {
    hide OneEach, IsReached, IsSureToReport;
    if AllPass(tests, m) {
      forall s | IsEnd(s, tests, mutations, true, slots)
        ensures IsUndetected(s, m)
      {
        AllPassMeansUndetected(s, tests, mutations, true, slots, m);
      }
    } else if t :| t in tests && m in t.reaches && !Passes(t) && IsSureToReport(tests, t, slots) {
      forall s | IsEnd(s, tests, mutations, true, slots)
        ensures !IsUndetected(s, m)
      {
        SureReports(s, tests, mutations, slots, t);
        FullVerdict(s, tests, mutations, slots, m);
      }
    } else {
      var s := OnlySureReport(tests, mutations, slots);
      FullVerdict(s, tests, mutations, slots, m);
    }
  }

  /** One slot, a test that times out, and behind it the test that fails: the run is over before it gets there. */
  lemma TimeoutMayHideDetection() returns (tests: seq<Test>, s: Run)
    ensures OneEach(tests, [1]) && SomeFails(tests, 1)
    ensures IsEnd(s, tests, [1], true, Slots(1, 1)) && !IsDetected(s, 1)
  {
    var slow, failing := Test("slow", {1}, Timeout, false), Test("failing", {1}, Failed, false);
    tests := [slow, failing];
    assert 1 in [1] && tests[1] == failing;
    assert !SureToFail(tests, Slots(1, 1), 1) by {
      InOrder(slow, failing);
    }
    FullRunDetects(tests, [1], Slots(1, 1), 1);
    hide OneEach, IsEnd, IsSureToReport;
    s :| IsEnd(s, tests, [1], true, Slots(1, 1)) && !IsDetected(s, 1);
  }

  lemma InOrder(slow: Test, failing: Test)
    requires !slow.inChild && !failing.inChild && slow.outcome == Timeout && failing.outcome == Failed
    ensures InProcess([slow, failing]) == [slow, failing] && !ComesInTime([slow, failing], failing, 1)
  {
    assert [slow, failing][..1] == [slow] && [slow][..0] == [];
    assert InChild([slow], false) == [slow];
    assert Count([slow], TIMES_OUT) == 1;
  }
}
