/** One stage of the test runner: up to so many tests run at once, and in this process those past their timeout are given up. */
module TestRunner {
  import opened Collections
  import opened Integers
  import opened Wrappers

  datatype Outcome = Ignored | Passed | Failed | Crash | Timeout

  /** A test with the mutations that it reaches, and whether it runs in a child process, after the other tests. */
  datatype Test = Test(name: string, reaches: set<u32>, outcome: Outcome, inChild: bool)

  /** The queue with no test left that reaches the mutation. */
  function Without(queue: seq<Test>, m: u32): seq<Test> {
    if queue == [] then []
    else
      var last := queue[|queue| - 1];
      Without(queue[..|queue| - 1], m) + if m in last.reaches then [] else [last]
  }

  /** Where the loop is: it fills the free slots, gives up tests past their timeout, then waits for one test to end. */
  datatype Pc = Filling | Expiring | Waiting | Over

  /** `expired` counts the tests given up since the slots were last filled. */
  datatype Stage = Stage(queued: seq<Test>, running: seq<Test>, reported: seq<Test>, pc: Pc, expired: nat, stopped: bool)

  /** What the handler of results does with the queue: it may drop the tests of a mutation, and stop the stage. */
  datatype Effect = Effect(drops: Option<u32>, stops: bool)

  const GOES_ON := Effect(None, false)

  function Dropped(queue: seq<Test>, effect: Effect): seq<Test> {
    if effect.drops.Some? then Without(queue, effect.drops.value) else queue
  }

  predicate BeginsStage(s: Stage, tests: seq<Test>) {
    s == Stage(tests, [], [], Filling, 0, false)
  }

  predicate Fills(s: Stage, s': Stage, slots: nat) {
    && s.pc.Filling?
    && s.queued != [] && |s.running| < slots
    && s' == s.(queued := s.queued[1..], running := s.running + [s.queued[0]])
  }

  predicate IsFilled(s: Stage, s': Stage, slots: nat) {
    && s.pc.Filling?
    && (s.queued == [] || |s.running| >= slots)
    && s' == s.(pc := if s.running == [] then Over else Expiring, expired := 0)
  }

  function Reported(s: Stage, i: nat, effect: Effect): Stage
    requires i < |s.running|
  {
    Stage(
      Dropped(s.queued, effect), s.running[..i] + s.running[i + 1..], s.reported + [s.running[i]],
      if effect.stops then Over else s.pc, s.expired, effect.stops)
  }

  /** A test past its timeout counts as timed out, though its thread still runs. */
  predicate Expires(s: Stage, s': Stage, i: nat, effect: Effect) {
    && s.pc.Expiring?
    && i < |s.running| && s.running[i].outcome == Timeout
    && s' == Reported(s, i, effect).(expired := s.expired + 1)
  }

  /** With none running any more, the loop ends here, whether or not tests are queued. */
  predicate HaveExpired(s: Stage, s': Stage) {
    s.pc.Expiring? && s' == s.(pc := if s.running == [] then Over else Waiting)
  }

  predicate Ends(s: Stage, s': Stage, i: nat, effect: Effect) {
    && s.pc.Waiting?
    && i < |s.running|
    && s' == Reported(s, i, effect).(pc := if effect.stops then Over else Filling)
  }

  /** A timeout came due before any test ended. */
  predicate WakesUp(s: Stage, s': Stage) {
    s.pc.Waiting? && s' == s.(pc := Filling)
  }

  /** No test reports. */
  predicate GoesOn(s: Stage, s': Stage, slots: nat) {
    Fills(s, s', slots) || IsFilled(s, s', slots) || HaveExpired(s, s') || WakesUp(s, s')
  }

  /** A running test reports; only tests of this process are given up. */
  predicate Reports(s: Stage, s': Stage, i: nat, effect: Effect, here: bool) {
    (here && Expires(s, s', i, effect)) || Ends(s, s', i, effect)
  }

  ghost predicate NextInStage(s: Stage, s': Stage, slots: nat, all: bool) {
    GoesOn(s, s', slots) || exists i, effect :: (all ==> effect == GOES_ON) && Reports(s, s', i, effect, true)
  }

  ghost predicate Linked(run: seq<Stage>, slots: nat, all: bool) {
    run != [] && forall i | 0 <= i < |run| - 1 :: NextInStage(run[i], run[i + 1], slots, all)
  }

  /** A run of a stage; with `all`, the handler lets all tests run. */
  ghost predicate IsStageRun(run: seq<Stage>, tests: seq<Test>, slots: nat, all: bool) {
    slots > 0 && Linked(run, slots, all) && BeginsStage(run[0], tests)
  }

  const TIMES_OUT := (t: Test) => t.outcome == Timeout

  lemma StillRunning(running: seq<Test>, i: nat, test: Test)
    requires i < |running|
    ensures test in running <==> test == running[i] || test in running[..i] + running[i + 1..]
  {
    assert running == running[..i] + [running[i]] + running[i + 1..];
  }

  // ---------- What every state keeps ----------

  /** While tests are queued, the slots that are free again are those of tests that were given up. */
  predicate SlotInv(s: Stage, slots: nat) {
    && |s.running| <= slots
    && s.expired <= Count(s.reported, TIMES_OUT)
    && (s.pc.Expiring? && s.queued != [] ==> |s.running| + s.expired >= slots)
    && (s.pc.Over? && !s.stopped ==> s.running == [] && (s.queued != [] ==> s.expired >= slots))
    && (s.stopped ==> s.pc.Over?)
  }

  lemma ReportCounts(s: Stage, i: nat, effect: Effect)
    requires i < |s.running|
    ensures var after := Reported(s, i, effect);
      && Count(after.reported, TIMES_OUT) == Count(s.reported, TIMES_OUT) + (if s.running[i].outcome == Timeout then 1 else 0)
      && Count(after.running, TIMES_OUT) == Count(s.running, TIMES_OUT) - (if s.running[i].outcome == Timeout then 1 else 0)
      && (s.queued == [] ==> after.queued == [])
  {
    CountPush(s.reported, s.running[i], TIMES_OUT);
    CountRemove(s.running, i, TIMES_OUT);
  }

  lemma QuietKeepsSlots(s: Stage, s': Stage, slots: nat)
    requires slots > 0 && SlotInv(s, slots) && GoesOn(s, s', slots)
    ensures SlotInv(s', slots)
  {
    hide Count;
  }

  lemma ReportKeepsSlots(s: Stage, s': Stage, i: nat, effect: Effect, here: bool, slots: nat)
    requires SlotInv(s, slots) && Reports(s, s', i, effect, here)
    ensures SlotInv(s', slots)
  {
    hide Count, Without;
    ReportCounts(s, i, effect);
  }

  lemma {:induction false} RunKeepsSlots(run: seq<Stage>, tests: seq<Test>, slots: nat, all: bool)
    requires IsStageRun(run, tests, slots, all)
    ensures SlotInv(run[|run| - 1], slots)
  {
    hide GoesOn, Reports;
    var n := |run| - 1;
    if n > 0 {
      assert IsStageRun(run[..n], tests, slots, all);
      RunKeepsSlots(run[..n], tests, slots, all);
      hide SlotInv;
      var s, s' := run[n - 1], run[n];
      assert NextInStage(s, s', slots, all);
      if i: nat, effect :| Reports(s, s', i, effect, true) {
        ReportKeepsSlots(s, s', i, effect, true, slots);
      } else {
        QuietKeepsSlots(s, s', slots);
      }
    }
  }

  /** With no stop, a stage leaves tests in the queue only after as many timeouts as it has slots. */
  lemma QueueIsLeftAtTimeouts(run: seq<Stage>, tests: seq<Test>, slots: nat, all: bool)
    requires IsStageRun(run, tests, slots, all)
    requires var s := run[|run| - 1]; s.pc.Over? && !s.stopped && s.queued != []
    ensures Count(run[|run| - 1].reported, TIMES_OUT) >= slots
  {
    RunKeepsSlots(run, tests, slots, all);
  }

  // ---------- A stage whose tests are all to run ----------

  /** The first `n` tests have started; what they count is what runs and what reported. */
  predicate HasStarted(s: Stage, tests: seq<Test>, n: nat) {
    && n <= |tests| && s.queued == tests[n..]
    && (forall j | 0 <= j < n :: tests[j] in s.running || tests[j] in s.reported)
    && (forall t <- s.running :: t in tests[..n]) && (forall t <- s.reported :: t in tests[..n])
    && Count(s.running, TIMES_OUT) + Count(s.reported, TIMES_OUT) == Count(tests[..n], TIMES_OUT)
    && !s.stopped
  }

  lemma FillHasStarted(s: Stage, s': Stage, tests: seq<Test>, n: nat, slots: nat)
    requires HasStarted(s, tests, n) && Fills(s, s', slots)
    ensures HasStarted(s', tests, n + 1)
  {
    assert tests[n..][1..] == tests[n + 1..] && tests[n..][0] == tests[n];
    assert tests[..n + 1] == tests[..n] + [tests[n]];
    CountPush(tests[..n], tests[n], TIMES_OUT);
    CountPush(s.running, tests[n], TIMES_OUT);
  }

  lemma ReportHasStarted(s: Stage, s': Stage, tests: seq<Test>, n: nat, i: nat)
    requires HasStarted(s, tests, n) && Reports(s, s', i, GOES_ON, true)
    ensures HasStarted(s', tests, n)
  {
    hide Count;
    ReportCounts(s, i, GOES_ON);
    forall t: Test
      ensures t in s'.running || t in s'.reported <==> t in s.running || t in s.reported
    {
      StillRunning(s.running, i, t);
    }
  }

  lemma NextHasStarted(s: Stage, s': Stage, tests: seq<Test>, n: nat, slots: nat) returns (n': nat)
    requires HasStarted(s, tests, n) && NextInStage(s, s', slots, true)
    ensures HasStarted(s', tests, n')
  {
    hide Count, Reports;
    n' := n;
    if i: nat :| Reports(s, s', i, GOES_ON, true) {
      ReportHasStarted(s, s', tests, n, i);
    } else if Fills(s, s', slots) {
      n' := n + 1;
      FillHasStarted(s, s', tests, n, slots);
    }
  }

  // ---------- A stage that gives up its queue ----------

  lemma LinkedCons(s: Stage, rest: seq<Stage>, slots: nat)
    requires Linked(rest, slots, true) && NextInStage(s, rest[0], slots, true)
    ensures Linked([s] + rest, slots, true) && rest != [] && ([s] + rest)[|rest|] == rest[|rest| - 1]
  {
    hide NextInStage;
    var run := [s] + rest;
    forall i | 0 <= i < |run| - 1
      ensures NextInStage(run[i], run[i + 1], slots, true)
    {
      assert run[i + 1] == rest[i] && (i > 0 ==> run[i] == rest[i - 1]);
    }
  }

  lemma {:induction false} ExpireAll(s: Stage, tests: seq<Test>, n: nat, slots: nat) returns (run: seq<Stage>)
    requires HasStarted(s, tests, n) && s.pc.Expiring? && forall t <- s.running :: t.outcome == Timeout
    ensures Linked(run, slots, true) && run[0] == s
    ensures run[|run| - 1].pc.Over? && HasStarted(run[|run| - 1], tests, n)
    decreases |s.running|
  {
    hide HasStarted, Linked;
    var s';
    if s.running == [] {
      s' := s.(pc := Over);
      assert HaveExpired(s, s');
      Alone(s', slots);
      KeepsStarted(s, s', tests, n);
      run := [s'];
    } else {
      s' := Reported(s, 0, GOES_ON).(expired := s.expired + 1);
      assert Reports(s, s', 0, GOES_ON, true);
      ReportHasStarted(s, s', tests, n, 0);
      run := ExpireAll(s', tests, n, slots);
    }
    LinkedCons(s, run, slots);
    run := [s] + run;
  }

  lemma Alone(s: Stage, slots: nat)
    ensures Linked([s], slots, true)
  {}

  lemma KeepsStarted(s: Stage, s': Stage, tests: seq<Test>, n: nat)
    requires HasStarted(s, tests, n) && s' == s.(pc := s'.pc, expired := s'.expired)
    ensures HasStarted(s', tests, n)
  {}

  /** Holds every timeout back until all slots are taken by tests that time out, and gives them all up at once. */
  lemma {:induction false} HoldBack(s: Stage, tests: seq<Test>, n: nat, k: nat, slots: nat) returns (run: seq<Stage>, m: nat)
    requires HasStarted(s, tests, n) && s.pc.Filling? && 0 < slots && n <= k <= |tests| && |s.running| <= slots
    requires Count(s.reported, TIMES_OUT) == 0 && Count(tests[..k], TIMES_OUT) >= slots
    ensures Linked(run, slots, true) && run[0] == s
    ensures run[|run| - 1].pc.Over? && m <= k && HasStarted(run[|run| - 1], tests, m)
    decreases 2 * |s.queued| + |s.running|
  {
    hide HasStarted, Linked, Count;
    var s', filled := s, s.(pc := Expiring, expired := 0);
    if |s.running| < slots {
      MoreToStart(s, tests, n, k, slots);
      s' := s.(queued := s.queued[1..], running := s.running + [s.queued[0]]);
      FillHasStarted(s, s', tests, n, slots);
      run, m := HoldBack(s', tests, n + 1, k, slots);
    } else if t :| t in s.running && t.outcome != Timeout {
      var i :| 0 <= i < |s.running| && s.running[i] == t;
      var waiting := filled.(pc := Waiting);
      s' := Reported(waiting, i, GOES_ON).(pc := Filling);
      KeepsStarted(s, waiting, tests, n);
      assert Reports(waiting, s', i, GOES_ON, true);
      ReportHasStarted(waiting, s', tests, n, i);
      ReportCounts(waiting, i, GOES_ON);
      run, m := HoldBack(s', tests, n, k, slots);
      LinkedCons(waiting, run, slots);
      assert HaveExpired(filled, waiting) && IsFilled(s, filled, slots);
      LinkedCons(filled, [waiting] + run, slots);
      run := [filled] + ([waiting] + run);
    } else {
      KeepsStarted(s, filled, tests, n);
      m := n;
      run := ExpireAll(filled, tests, n, slots);
      assert IsFilled(s, filled, slots);
    }
    LinkedCons(s, run, slots);
    run := [s] + run;
  }

  lemma MoreToStart(s: Stage, tests: seq<Test>, n: nat, k: nat, slots: nat)
    requires HasStarted(s, tests, n) && n <= k <= |tests| && |s.running| < slots
    requires Count(s.reported, TIMES_OUT) == 0 && Count(tests[..k], TIMES_OUT) >= slots
    ensures n < k && s.queued != []
  {
    CountAtMost(s.running, TIMES_OUT);
  }

  /** A run that gives up its slots before the tests from some place on start. */
  lemma GivesUp(tests: seq<Test>, k: nat, slots: nat) returns (run: seq<Stage>, m: nat)
    requires slots > 0 && k <= |tests| && Count(tests[..k], TIMES_OUT) >= slots
    ensures IsStageRun(run, tests, slots, true) && run[|run| - 1].pc.Over?
    ensures m <= k && HasStarted(run[|run| - 1], tests, m)
  {
    var s := Stage(tests, [], [], Filling, 0, false);
    assert HasStarted(s, tests, 0);
    run, m := HoldBack(s, tests, 0, k, slots);
  }
}
