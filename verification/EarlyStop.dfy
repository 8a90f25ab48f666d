/** What a run that stops early detects of what the tests could: the condition, on the tests and their order alone. */
module EarlyStop {
  import opened Collections
  import opened Integers
  import opened Journal
  import opened TestRunner
  import opened VerdictFold
  import opened FullRun

  // ---------- The condition ----------

  /** A result of this test ends the mutation's tests. */
  predicate Decides(test: Test, m: u32) {
    m in test.reaches && EndsMutation(test.outcome)
  }

  function Deciding(queue: seq<Test>, m: u32): seq<Test> {
    if queue == [] then []
    else
      var last := queue[|queue| - 1];
      Deciding(queue[..|queue| - 1], m) + if Decides(last, m) then [last] else []
  }

  function InChildren(tests: seq<Test>): seq<Test> {
    InChild(tests, true)
  }

  predicate AllFail(deciders: seq<Test>) {
    forall t <- deciders :: t.outcome == Failed
  }

  /** No test decides this mutation, so as long as these are the tests, the run does not stop. */
  predicate StaysOpen(seen: seq<Test>, mutations: seq<u32>) {
    exists m <- mutations :: forall t <- seen :: !Decides(t, m)
  }

  predicate FailsFirst(deciders: seq<Test>) {
    deciders != [] && deciders[0].outcome == Failed
  }

  /**
   * A test that fails is the first to decide the mutation, and nothing stops the stage while it runs: it runs alone, or
   * no other test decides the mutation by a timeout, or some mutation cannot be decided by then.
   */
  predicate IsSure(deciders: seq<Test>, seen: seq<Test>, mutations: seq<u32>, slots: nat) {
    FailsFirst(deciders) && (slots == 1 || AllFail(deciders) || StaysOpen(seen, mutations))
  }

  /** The place of the first test that decides the mutation. */
  function FirstDecider(queue: seq<Test>, m: u32): (k: nat)
    ensures k <= |queue| && (k < |queue| ==> Decides(queue[k], m))
    ensures forall j | 0 <= j < k :: !Decides(queue[j], m)
  {
    if queue == [] || Decides(queue[0], m) then 0 else 1 + FirstDecider(queue[1..], m)
  }

  predicate SameMutation(a: Test, b: Test, mutations: seq<u32>) {
    exists m <- mutations :: m in a.reaches && m in b.reaches
  }

  /** This test may be the last one to start in a stage that gives up its slots: it times out, and no test before it may
      have failed and dropped it. */
  predicate MayEndAt(queue: seq<Test>, k: nat, mutations: seq<u32>) {
    && k < |queue| && queue[k].outcome == Timeout
    && forall j | 0 <= j < k && queue[j].outcome == Failed :: !SameMutation(queue[j], queue[k], mutations)
  }

  /** Every test that decides the mutation is sure to fail it, in this process, and wherever its stage may end before. */
  predicate DetectsWith(tests: seq<Test>, mutations: seq<u32>, slots: Slots, m: u32) {
    var here, there := InProcess(tests), InChildren(tests);
    if Deciding(here, m) == [] then IsSure(Deciding(there, m), tests, mutations, slots.inChildren)
    else
      && IsSure(Deciding(here, m), here, mutations, slots.here)
      && forall k | 0 <= k < FirstDecider(here, m) && MayEndAt(here, k, mutations) ::
           IsSure(Deciding(there, m), here[..k + 1] + there, mutations, slots.inChildren)
  }

  /** Whatever the number of slots. */
  const MANY := Slots(2, 2)

  predicate DetectsEarly(tests: seq<Test>, mutations: seq<u32>, m: u32) {
    DetectsWith(tests, mutations, MANY, m)
  }

  /** A test that crashes takes its process with it, so only one of a child process reports that. */
  predicate CrashesInChildren(tests: seq<Test>) {
    forall t <- tests | t.outcome == Crash :: t.inChild
  }

  // ---------- The tests that decide a mutation ----------

  lemma {:induction false} DecidingHas(queue: seq<Test>, m: u32, test: Test)
    ensures test in Deciding(queue, m) <==> test in queue && Decides(test, m)
  {
    if queue != [] {
      DecidingHas(queue[..|queue| - 1], m, test);
    }
  }

  lemma DecidingSnoc(queue: seq<Test>, last: Test, m: u32)
    ensures Deciding(queue + [last], m) == if Decides(last, m) then Deciding(queue, m) + [last] else Deciding(queue, m)
  {
    assert (queue + [last])[..|queue|] == queue;
    assert Deciding(queue, m) + [] == Deciding(queue, m);
  }

  lemma {:induction false} DecidingCons(first: Test, queue: seq<Test>, m: u32)
    ensures Deciding([first] + queue, m) == if Decides(first, m) then [first] + Deciding(queue, m) else Deciding(queue, m)
  {
    DecidingSnoc([], first, m);
    if queue == [] {
      assert [] + [first] == [first] + queue == [first];
    } else {
      var n := |queue| - 1;
      var rest, last := queue[..n], queue[n];
      assert queue == rest + [last];
      DecidingCons(first, rest, m);
      DecidingSnoc(rest, last, m);
      DecidingSnoc([first] + rest, last, m);
      Associative([first], rest, [last]);
      hide Deciding;
      Associative([first], Deciding(rest, m), [last]);
    }
  }

  /** The first of them is the first test that decides the mutation. */
  lemma {:induction false} FirstIsFirst(queue: seq<Test>, m: u32)
    ensures Deciding(queue, m) != [] <==> FirstDecider(queue, m) < |queue|
    ensures Deciding(queue, m) != [] ==> Deciding(queue, m)[0] == queue[FirstDecider(queue, m)]
  {
    if queue != [] {
      assert queue == [queue[0]] + queue[1..];
      DecidingCons(queue[0], queue[1..], m);
      hide Deciding;
      if !Decides(queue[0], m) {
        FirstIsFirst(queue[1..], m);
      }
    }
  }

  lemma WithoutSnoc(queue: seq<Test>, last: Test, m: u32)
    ensures Without(queue + [last], m) == if m in last.reaches then Without(queue, m) else Without(queue, m) + [last]
  {
    assert (queue + [last])[..|queue|] == queue;
    assert Without(queue, m) + [] == Without(queue, m);
  }

  lemma {:induction false} DecidingWithout(queue: seq<Test>, mutations: seq<u32>, m: u32, other: u32)
    requires m in mutations && other in mutations && ReachOneEach(queue, mutations)
    ensures Deciding(Without(queue, other), m) == if m == other then [] else Deciding(queue, m)
  {
    if queue != [] {
      var n := |queue| - 1;
      var rest, last := queue[..n], queue[n];
      assert queue == rest + [last];
      DecidingWithout(rest, mutations, m, other);
      hide Deciding, Without;
      WithoutSnoc(rest, last, other);
      DecidingSnoc(rest, last, m);
      DecidingSnoc(Without(rest, other), last, m);
    }
  }

  lemma KeptSnoc(tests: seq<Test>, last: Test, results: Results, mutations: seq<u32>)
    ensures var kept := NotYetDetected(tests, results, mutations, false);
      NotYetDetected(tests + [last], results, mutations, false) == if Spared(last, results, mutations) then kept + [last] else kept
  {
    assert (tests + [last])[..|tests|] == tests;
    var kept := NotYetDetected(tests, results, mutations, false);
    assert kept + [] == kept;
  }

  /** Only while a mutation is undetected are its tests kept for child processes. */
  lemma {:induction false} DecidingKept(tests: seq<Test>, results: Results, mutations: seq<u32>, m: u32)
    requires m in mutations && m in results && ReachOneEach(tests, mutations)
    ensures Deciding(NotYetDetected(tests, results, mutations, false), m) ==
      if results[m].result == Undetected then Deciding(tests, m) else []
  {
    if tests != [] {
      var n := |tests| - 1;
      var rest, last := tests[..n], tests[n];
      assert tests == rest + [last];
      DecidingKept(rest, results, mutations, m);
      hide Deciding, NotYetDetected;
      KeptSnoc(rest, last, results, mutations);
      DecidingSnoc(rest, last, m);
      DecidingSnoc(NotYetDetected(rest, results, mutations, false), last, m);
    }
  }

  lemma {:induction false} PartReachesOne(part: seq<Test>, tests: seq<Test>, mutations: seq<u32>)
    requires ReachOneEach(tests, mutations) && forall t <- part :: t in tests
    ensures ReachOneEach(part, mutations)
  {
    forall i, m, m' | 0 <= i < |part| && m in mutations && m' in mutations && m in part[i].reaches && m' in part[i].reaches
      ensures m == m'
    {
      assert part[i] in tests;
      var k :| 0 <= k < |tests| && tests[k] == part[i];
    }
  }

  lemma QueueReachesOne(s: Run, tests: seq<Test>, mutations: seq<u32>)
    requires OneEach(tests, mutations) && Inv(s, tests, mutations, false)
    ensures ReachOneEach(s.queued, mutations)
    ensures s.later.Some? ==> ReachOneEach(s.later.value, mutations)
  {
    hide EntryIs, Accounted, Placed;
    assert forall t <- s.queued :: Known(s, t);
    PartReachesOne(s.queued, tests, mutations);
    if s.later.Some? {
      assert forall t <- s.later.value :: Known(s, t);
      PartReachesOne(s.later.value, tests, mutations);
    }
  }

  /** What child processes run of a mutation's tests: all of them, or none if the tests of this process came to anything. */
  lemma MovedDeciding(s: Run, tests: seq<Test>, mutations: seq<u32>, m: u32)
    requires OneEach(tests, mutations) && Inv(s, tests, mutations, false) && m in mutations && s.later.Some?
    ensures m in s.results && s.later.value == InChildren(tests)
    ensures Deciding(Moved(s, mutations, false).queued, m) == if IsUndetected(s, m) then Deciding(InChildren(tests), m) else []
  {
    QueueReachesOne(s, tests, mutations);
    hide Deciding, NotYetDetected, OneEach;
    DecidingKept(s.later.value, s.results, mutations, m);
  }

  // ---------- A detection that is on its way ----------

  /** None of these tests has run that decide the mutation; the first of them fails. */
  predicate Waits(s: Run, deciders: seq<Test>, m: u32) {
    && Deciding(s.reported, m) == Deciding(s.running, m) == []
    && Deciding(s.queued, m) == deciders && FailsFirst(deciders)
  }

  predicate OnItsWay(s: Run, deciders: seq<Test>, m: u32, slots: nat) {
    || SomeFails(s.reported, m)
    || (SomeFails(s.running, m) && (slots == 1 ==> Deciding(s.reported, m) == []))
    || Waits(s, deciders, m)
  }

  lemma GoesStaysOnItsWay(s: Run, s': Run, deciders: seq<Test>, m: u32, slots: Slots)
    requires OnItsWay(s, deciders, m, slots.In(s)) && Goes(s, s', slots)
    ensures OnItsWay(s', deciders, m, slots.In(s'))
  {
    hide Deciding, IsFilled;
    if Fills(s.Stage(), s'.Stage(), slots.In(s)) {
      var test := s.queued[0];
      assert s.queued == [test] + s.queued[1..];
      DecidingCons(test, s.queued[1..], m);
      DecidingSnoc(s.running, test, m);
      assert forall t <- s.running :: t in s'.running;
      assert test in s'.running;
    } else {
      GoesElse(s, s', slots);
    }
  }

  lemma GoesElse(s: Run, s': Run, slots: Slots)
    requires Goes(s, s', slots) && !Fills(s.Stage(), s'.Stage(), slots.In(s))
    ensures s'.queued == s.queued && s'.running == s.running && s'.reported == s.reported && s'.later == s.later
  {}

  lemma NoneDecides(running: seq<Test>, rest: seq<Test>, m: u32, i: nat)
    requires i < |running| && rest == running[..i] + running[i + 1..] && Deciding(running, m) == []
    ensures Deciding(rest, m) == [] && !Decides(running[i], m)
  {
    DecidingHas(running, m, running[i]);
    if Deciding(rest, m) != [] {
      var test := Deciding(rest, m)[0];
      DecidingHas(rest, m, test);
      StillRunning(running, i, test);
      DecidingHas(running, m, test);
    }
  }

  /** What a report leaves in the queue of the tests that decide a mutation. */
  lemma QueueAfterReport(s: Run, s': Run, i: nat, tests: seq<Test>, mutations: seq<u32>, m: u32)
    requires OneEach(tests, mutations) && Inv(s, tests, mutations, false) && m in mutations && ReportsTest(s, s', i, mutations, false)
    ensures Deciding(s'.queued, m) == if Decides(s.running[i], m) then [] else Deciding(s.queued, m)
    ensures s'.reported == s.reported + [s.running[i]] && s'.running == s.running[..i] + s.running[i + 1..] && s'.later == s.later
  {
    var test := s.running[i];
    assert Known(s, test);
    QueueReachesOne(s, tests, mutations);
    hide Deciding, Without, Inv, Recorded, AllDecided;
    DecidingWithout(s.queued, mutations, m, MutationOf(mutations, test));
    if m in test.reaches {
      ReachesOnly(test, tests, mutations, m);
    }
  }

  lemma ReportStaysOnItsWay(s: Run, s': Run, i: nat, tests: seq<Test>, mutations: seq<u32>, deciders: seq<Test>, m: u32, slots: nat)
    requires OneEach(tests, mutations) && Inv(s, tests, mutations, false) && m in mutations && |s.running| <= slots
    requires OnItsWay(s, deciders, m, slots) && ReportsTest(s, s', i, mutations, false)
    ensures OnItsWay(s', deciders, m, slots)
  {
    var test := s.running[i];
    QueueAfterReport(s, s', i, tests, mutations, m);
    hide Deciding, Inv, OneEach, ReportsTest;
    assert test in s'.reported && forall t <- s.reported :: t in s'.reported;
    DecidingSnoc(s.reported, test, m);
    forall t <- s.running
      ensures t in s'.running || t == test
    {
      StillRunning(s.running, i, t);
    }
    if Waits(s, deciders, m) {
      NoneDecides(s.running, s'.running, m, i);
    } else if slots == 1 && !SomeFails(s.reported, m) {
      var t :| t in s.running && m in t.reaches && t.outcome == Failed;
      assert t == test;
    }
  }

  /** A mutation that is decided has a test that decided it. */
  lemma DecidedByTest(s: Run, tests: seq<Test>, mutations: seq<u32>, m: u32) returns (t: Test)
    requires Inv(s, tests, mutations, false) && m in mutations
    requires s.stopped || (m in s.results && s.results[m].result in {Detected, TimedOut})
    ensures t in s.reported && t in tests && Decides(t, m)
    ensures t.outcome == Timeout || SomeFails(s.reported, m)
  {
    hide Accounted, Placed;
    assert EntryIs(s.results[m], s.reported, m);
    t :| t in s.reported && m in t.reaches && t.outcome == if s.results[m].result == Detected then Failed else Timeout;
    assert Known(s, t);
  }

  /** A run with a mutation that no test decides does not stop. */
  lemma OpenGoesOn(s: Run, tests: seq<Test>, mutations: seq<u32>, seen: seq<Test>)
    requires Inv(s, tests, mutations, false) && StaysOpen(seen, mutations) && forall t <- s.reported :: t in seen
    ensures !s.stopped
  {
    hide Inv;
    var open :| open in mutations && forall t <- seen :: !Decides(t, open);
    if s.stopped {
      var t := DecidedByTest(s, tests, mutations, open);
    }
  }

  /** If the stage stops, a test that is on its way has reported. */
  lemma StopDetects(s: Run, tests: seq<Test>, mutations: seq<u32>, seen: seq<Test>, deciders: seq<Test>, m: u32, slots: nat)
    requires Inv(s, tests, mutations, false) && m in mutations && OnItsWay(s, deciders, m, slots) && s.stopped
    requires forall t <- s.reported :: t in seen
    requires forall t <- s.reported | Decides(t, m) :: t in deciders
    requires IsSure(deciders, seen, mutations, slots)
    ensures SomeFails(s.reported, m)
  {
    hide Inv, StaysOpen, SomeFails, Deciding;
    var t := DecidedByTest(s, tests, mutations, m);
    DecidingHas(s.reported, m, t);
    if t.outcome == Timeout {
      if StaysOpen(seen, mutations) {
        OpenGoesOn(s, tests, mutations, seen);
      }
    }
  }
}
