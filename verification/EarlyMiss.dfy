/** Runs that stop early and miss a detection, for all tests that do not meet the condition of `EarlyStop`. */
module EarlyMiss {
  import opened Collections
  import opened Integers
  import opened Journal
  import opened TestRunner
  import opened VerdictFold
  import opened RunSteps
  import opened FullRun
  import opened EarlyStop
  import opened EarlyFront
  import opened EarlyDetect
  import opened EarlyRuns
  import opened EarlyGiveUp

  /** The first stage of a run is over. */
  ghost predicate IsHalf(s: Run, tests: seq<Test>, mutations: seq<u32>, slots: Slots) {
    StageEnds(Beginning(tests, mutations), s, tests, mutations, slots) && s.later.Some?
  }

  lemma HalfOf(s: Run, tests: seq<Test>, mutations: seq<u32>, slots: Slots)
    requires StageEnds(Beginning(tests, mutations), s, tests, mutations, slots)
    ensures IsHalf(s, tests, mutations, slots)
  {}

  /** A run that is over without a test that fails the mutation. */
  ghost predicate Misses(s: Run, tests: seq<Test>, mutations: seq<u32>, slots: Slots, m: u32) {
    IsEnd(s, tests, mutations, false, slots) && m in mutations && !SomeFails(s.reported, m)
  }

  lemma EndOf(s: Run, last: Run, tests: seq<Test>, mutations: seq<u32>, slots: Slots)
    requires IsHalf(s, tests, mutations, slots) && StageEnds(Moved(s, mutations, false), last, tests, mutations, slots)
    ensures IsEnd(last, tests, mutations, false, slots)
  {
    hide OneEach, Inv, SlotInv, Leads, Beginning;
    var moved := Moved(s, mutations, false);
    MoveLeads(s, tests, mutations, false, slots);
    LeadsFurther(Beginning(tests, mutations), s, moved, mutations, false, slots);
    LeadsFurther(Beginning(tests, mutations), moved, last, mutations, false, slots);
  }

  lemma MovedIsReady(s: Run, tests: seq<Test>, mutations: seq<u32>, slots: Slots)
    requires IsHalf(s, tests, mutations, slots)
    ensures Ready(Moved(s, mutations, false), tests, mutations, slots)
  {
    hide OneEach, Inv, SlotInv, Leads, Beginning;
    MoveLeads(s, tests, mutations, false, slots);
  }

  // ---------- One test at a time ----------

  /** If no test was given up, one of this process that decides a mutation has had its say. */
  lemma DecidedHere(s: Run, tests: seq<Test>, mutations: seq<u32>, m: u32, t: Test)
    requires Inv(s, tests, mutations, false) && m in mutations && s.later.Some?
    requires s.stopped || s.queued == s.running == []
    requires t in InProcess(tests) && Decides(t, m)
    ensures !IsUndetected(s, m)
  {
    InChildKeeps(tests, false, t);
    InChildKeeps(tests, true, t);
    if IsUndetected(s, m) {
      assert Spared(t, s.results, mutations);
      SparedReports(s, tests, mutations, t);
      VerdictsAreReported(s, tests, mutations, false, m);
    }
  }

  lemma SparedReports(s: Run, tests: seq<Test>, mutations: seq<u32>, t: Test)
    requires Inv(s, tests, mutations, false) && s.later.Some? && (s.stopped || s.queued == s.running == [])
    requires t in tests && t !in s.later.value && Spared(t, s.results, mutations)
    ensures t in s.reported
  {
    if s.stopped {
      StoppedSparesNone(s, tests, mutations, false, t);
    } else {
      StillAccounted(s, tests, mutations, t);
    }
  }

  lemma SecondBehind(s: Run, tests: seq<Test>, mutations: seq<u32>, slots: Slots, m: u32) returns (last: Run)
    requires IsHalf(s, tests, mutations, slots) && slots.inChildren == 1 && m in mutations && !SomeFails(s.reported, m)
    requires IsUndetected(s, m) ==> NoneFailsFirst(Deciding(InChildren(tests), m))
    ensures Misses(last, tests, mutations, slots, m)
  {
    hide OneEach, Inv, SlotInv, Leads, Deciding, InChild, NotYetDetected, SomeFails;
    MovedIsReady(s, tests, mutations, slots);
    var moved := Moved(s, mutations, false);
    MovedDeciding(s, tests, mutations, m);
    NoneAreRunning(m);
    last := RunBehind(moved, tests, mutations, slots, m);
    EndOf(s, last, tests, mutations, slots);
  }

  /** With one slot each, if the first test to decide the mutation times out. */
  lemma MissesOneByOne(tests: seq<Test>, mutations: seq<u32>, m: u32) returns (s: Run)
    requires OneEach(tests, mutations) && m in mutations && NoneFailsFirst(Deciding(InProcess(tests), m))
    requires Deciding(InProcess(tests), m) == [] ==> NoneFailsFirst(Deciding(InChildren(tests), m))
    ensures Misses(s, tests, mutations, Slots(1, 1), m)
  {
    var slots := Slots(1, 1);
    BeginIsReady(tests, mutations, false, slots);
    BeginBehind(tests, mutations, m);
    hide OneEach, Inv, SlotInv, Leads, Deciding, InChild, Behind, Beginning;
    BeginsHere(tests, mutations);
    var half := RunBehind(Beginning(tests, mutations), tests, mutations, slots, m);
    BehindFails(half, m);
    var here := Deciding(InProcess(tests), m);
    if here != [] {
      DecidingHas(InProcess(tests), m, here[0]);
      DecidedHere(half, tests, mutations, m, here[0]);
    }
    s := SecondBehind(half, tests, mutations, slots, m);
  }

  lemma BeginBehind(tests: seq<Test>, mutations: seq<u32>, m: u32)
    requires NoneFailsFirst(Deciding(InProcess(tests), m))
    ensures Behind(Beginning(tests, mutations), m)
  {}

  lemma BehindFails(s: Run, m: u32)
    requires Behind(s, m)
    ensures !SomeFails(s.reported, m)
  {}

  // ---------- Side by side ----------

  lemma {:induction false} InChildSize(tests: seq<Test>, inChild: bool)
    ensures |InChild(tests, inChild)| <= |tests|
  {
    if tests != [] {
      InChildSize(tests[..|tests| - 1], inChild);
    }
  }

  lemma {:induction false} KeptSize(tests: seq<Test>, results: Results, mutations: seq<u32>)
    ensures |NotYetDetected(tests, results, mutations, false)| <= |tests|
  {
    if tests != [] {
      KeptSize(tests[..|tests| - 1], results, mutations);
    }
  }

  /** No test of this process crashes, so a mutation that none of them decided is undetected. */
  lemma OpenIsUndetected(s: Run, tests: seq<Test>, mutations: seq<u32>, m: u32)
    requires CrashesInChildren(tests) && Inv(s, tests, mutations, false)
    requires s.later.Some? && m in Open(s.results, mutations)
    ensures IsUndetected(s, m) && m in mutations
  {
    OnlyTestsCrash(s, tests, mutations, m);
    NoneCrashesHere(s, tests, mutations);
    hide Inv;
  }

  lemma OnlyTestsCrash(s: Run, tests: seq<Test>, mutations: seq<u32>, m: u32)
    requires Inv(s, tests, mutations, false) && m in mutations
    ensures m in s.results && (s.results[m].result == Crashed ==> exists t <- s.reported :: t.outcome == Crash)
  {
    assert EntryIs(s.results[m], s.reported, m);
  }

  lemma NoneCrashesHere(s: Run, tests: seq<Test>, mutations: seq<u32>)
    requires CrashesInChildren(tests) && Inv(s, tests, mutations, false) && s.later.Some?
    ensures forall t <- s.reported :: t.outcome != Crash
  {
    hide EntryIs, Accounted;
    forall t <- s.reported
      ensures t.outcome != Crash
    {
      assert Known(s, t);
    }
  }

  /** What child processes run decides every mutation that is still open, if they have a test for it. */
  lemma KeptDecides(s: Run, tests: seq<Test>, mutations: seq<u32>, m: u32)
    requires OneEach(tests, mutations) && CrashesInChildren(tests) && Inv(s, tests, mutations, false) && s.later.Some?
    requires m in Open(s.results, mutations) && Deciding(InChildren(tests), m) != []
    ensures exists t <- Moved(s, mutations, false).queued :: Decides(t, m)
  {
    hide OneEach, CrashesInChildren, Inv, Deciding, InChild, NotYetDetected, Open;
    OpenIsUndetected(s, tests, mutations, m);
    MovedDeciding(s, tests, mutations, m);
    var kept := Moved(s, mutations, false).queued;
    DecidingHas(kept, m, Deciding(kept, m)[0]);
  }

  lemma SecondBeside(s: Run, tests: seq<Test>, mutations: seq<u32>, slots: Slots, m: u32, slow: Test) returns (last: Run)
    requires IsHalf(s, tests, mutations, slots) && slots.inChildren > |tests| && !SomeFails(s.reported, m)
    requires CrashesInChildren(tests) && m in Open(s.results, mutations)
    requires slow in Deciding(InChildren(tests), m) && slow.outcome == Timeout
    requires forall m' <- Open(s.results, mutations) :: Deciding(InChildren(tests), m') != []
    ensures Misses(last, tests, mutations, slots, m)
  {
    hide OneEach, CrashesInChildren, Inv, SlotInv, Leads, Deciding, InChild, NotYetDetected, SomeFails, Open, Beginning;
    MovedIsReady(s, tests, mutations, slots);
    var moved := Moved(s, mutations, false);
    OpenIsUndetected(s, tests, mutations, m);
    MovedDeciding(s, tests, mutations, m);
    DecidingHas(moved.queued, m, slow);
    InChildSize(tests, true);
    KeptSize(InChildren(tests), s.results, mutations);
    forall m' <- Open(moved.results, mutations)
      ensures exists t <- moved.queued :: Decides(t, m')
    {
      KeptDecides(s, tests, mutations, m');
    }
    last := StartAndDecide(moved, tests, mutations, slots, m, slow);
    EndOf(s, last, tests, mutations, slots);
  }

  /** From the end of the first stage, whatever child processes still run. */
  lemma SecondRest(s: Run, tests: seq<Test>, mutations: seq<u32>, slots: Slots) returns (last: Run)
    requires IsHalf(s, tests, mutations, slots)
    ensures IsEnd(last, tests, mutations, false, slots)
    ensures s.reported <= last.reported
    ensures forall t <- last.reported :: t in s.reported || t in Moved(s, mutations, false).queued
  {
    hide OneEach, Inv, SlotInv, Leads, NotYetDetected, Beginning;
    MovedIsReady(s, tests, mutations, slots);
    var moved := Moved(s, mutations, false);
    last := RunOut(moved, tests, mutations, false, slots);
    EndOf(s, last, tests, mutations, slots);
  }

  /** With every mutation decided, nothing is left for child processes. */
  lemma NothingLeft(s: Run, tests: seq<Test>, mutations: seq<u32>)
    requires Inv(s, tests, mutations, false) && s.stopped && s.later.Some?
    ensures Moved(s, mutations, false).queued == []
  {
    var kept := Moved(s, mutations, false).queued;
    if kept != [] {
      NotYetDetectedKeeps(s.later.value, s.results, mutations, false, kept[0]);
      StoppedSparesNone(s, tests, mutations, false, kept[0]);
    }
  }

  lemma BeginIsOpen(tests: seq<Test>, mutations: seq<u32>, m: u32)
    requires m in mutations
    ensures var s := Beginning(tests, mutations);
      && s.queued == InProcess(tests) && s.running == [] && s.later.Some? && !SomeFails(s.reported, m)
      && m in Open(s.results, mutations) && forall m' <- Open(s.results, mutations) :: m' in mutations
  {}

  lemma EachHasDecider(seen: seq<Test>, mutations: seq<u32>, m: u32)
    requires !StaysOpen(seen, mutations) && m in mutations
    ensures exists t <- seen :: Decides(t, m)
  {}

  /** In this process, with a slot for every test, if one times out and every mutation can be decided. */
  lemma MissesHere(tests: seq<Test>, mutations: seq<u32>, m: u32, slow: Test) returns (s: Run, slots: Slots)
    requires OneEach(tests, mutations) && m in mutations
    requires slow in Deciding(InProcess(tests), m) && slow.outcome == Timeout && !StaysOpen(InProcess(tests), mutations)
    ensures Misses(s, tests, mutations, slots, m)
  {
    slots := Slots(|tests| + 1, 1);
    var begin := Beginning(tests, mutations);
    BeginIsReady(tests, mutations, false, slots);
    BeginIsOpen(tests, mutations, m);
    DecidingHas(InProcess(tests), m, slow);
    InChildSize(tests, false);
    hide OneEach, Inv, SlotInv, Leads, InChild, SomeFails, Open, StaysOpen, Beginning, Decides, NotYetDetected;
    forall m' <- Open(begin.results, mutations)
      ensures exists t <- begin.queued :: Decides(t, m')
    {
      EachHasDecider(InProcess(tests), mutations, m');
    }
    var half := StartAndDecide(begin, tests, mutations, slots, m, slow);
    NothingLeft(half, tests, mutations);
    s := SecondRest(half, tests, mutations, slots);
    FewerFail(half.reported, s.reported, m);
  }

  lemma FewerFail(more: seq<Test>, fewer: seq<Test>, m: u32)
    requires !SomeFails(more, m) && forall t <- fewer :: t in more
    ensures !SomeFails(fewer, m)
  {}

  // ---------- Given up ----------

  /** The plan to give the stage up at a test, and the end of the stage that comes of it. */
  lemma GivenUpAt(tests: seq<Test>, mutations: seq<u32>, inChildren: nat, k: nat, m: u32) returns (s: Run, slots: Slots)
    requires OneEach(tests, mutations) && CrashesInChildren(tests) && inChildren > 0 && m in mutations
    requires k < FirstDecider(InProcess(tests), m) && MayEndAt(InProcess(tests), k, mutations)
    ensures slots.inChildren == inChildren && IsHalf(s, tests, mutations, slots) && !s.stopped
    ensures InProcess(tests)[k] in s.reported && forall t <- s.reported :: t in InProcess(tests)[..k + 1]
    ensures IsUndetected(s, m)
    ensures (forall j | 0 <= j < k :: InProcess(tests)[j].outcome == Timeout ==>
      !SameMutation(InProcess(tests)[j], InProcess(tests)[k], mutations)) ==> slots.here == 1
  {
    var here := InProcess(tests);
    InChildKeeps(tests, false, here[k]);
    var other := MutationOf(mutations, here[k]);
    slots := Slots(|Deciding(here[..k + 1], other)|, inChildren);
    var plan := Plan(tests, mutations, slots, k, other, m);
    CrewHasLast(here, k, other);
    BeginIsReady(tests, mutations, false, slots);
    PlanBegins(plan);
    hide OneEach, Inv, SlotInv, Leads, Deciding, InChild, FirstDecider, CrashesInChildren, Beginning, MayEndAt, HoldsBack;
    BeginsHere(tests, mutations);
    s := GiveUp(plan, Beginning(tests, mutations), here[..k], here[k + 1..]);
    NotStopped(plan, s);
    if forall j | 0 <= j < k :: here[j].outcome == Timeout ==> !SameMutation(here[j], here[k], mutations) {
      CrewIsAlone(here, mutations, k, other);
    }
  }

  lemma CrewHasLast(here: seq<Test>, k: nat, other: u32)
    requires k < |here| && here[k].outcome == Timeout && other in here[k].reaches
    ensures |Deciding(here[..k + 1], other)| > 0
  {
    DecidingHas(here[..k + 1], other, here[k]);
    assert here[..k + 1][k] == here[k];
  }

  lemma CrewIsAlone(here: seq<Test>, mutations: seq<u32>, k: nat, other: u32)
    requires MayEndAt(here, k, mutations) && other in mutations && other in here[k].reaches
    requires forall j | 0 <= j < k :: here[j].outcome == Timeout ==> !SameMutation(here[j], here[k], mutations)
    ensures |Deciding(here[..k + 1], other)| == 1
  {
    assert here[..k + 1] == here[..k] + [here[k]];
    DecidingSnoc(here[..k], here[k], other);
    forall j | 0 <= j < k
      ensures !Decides(here[j], other)
    {
      assert other in here[j].reaches ==> SameMutation(here[j], here[k], mutations);
    }
    hide Decides;
    if Deciding(here[..k], other) != [] {
      DecidingHas(here[..k], other, Deciding(here[..k], other)[0]);
    }
  }

  lemma PlanBegins(plan: Plan)
    requires plan.Valid()
    ensures HoldsBack(plan, Beginning(plan.tests, plan.mutations), plan.Here()[..plan.k], plan.Here()[plan.k + 1..])
  {
    InChildDistinct(plan.tests, plan.mutations, false);
    hide OneEach, Deciding, InChild, FirstDecider, MayEndAt, CrashesInChildren, Distinct;
    CrewIsInPart(plan);
    BeginQueues(plan.tests, plan.mutations);
    hide Beginning;
    HeldAtFirst(plan, Beginning(plan.tests, plan.mutations));
  }

  lemma BeginQueues(tests: seq<Test>, mutations: seq<u32>)
    ensures var s := Beginning(tests, mutations); s.queued == InProcess(tests) && s.running == s.reported == []
  {}

  lemma HeldAtFirst(plan: Plan, s: Run)
    requires plan.InQueue() && s.queued == plan.Here() && s.running == s.reported == [] && Distinct(plan.Here())
    requires forall t <- plan.Crew() :: t in plan.Part()
    ensures HoldsBack(plan, s, plan.Here()[..plan.k], plan.Here()[plan.k + 1..])
  {
    hide Deciding, InChild, Distinct;
    PartsOfHere(plan.Here(), plan.k);
    assert s.running + s.queued == plan.Here();
  }

  lemma CrewIsInPart(plan: Plan)
    requires plan.InQueue()
    ensures forall t <- plan.Crew() :: t in plan.Part()
  {
    forall t <- plan.Crew()
      ensures t in plan.Part()
    {
      DecidingHas(plan.Part(), plan.other, t);
    }
  }

  lemma PartsOfHere(here: seq<Test>, k: nat)
    requires k < |here|
    ensures here == here[..k] + [here[k]] + here[k + 1..] && here[..k + 1] == here[..k] + [here[k]]
  {}

  /** Once the stage was given up at a test, every mutation is decided that this test or one before it decides. */
  lemma PartIsDecided(s: Run, tests: seq<Test>, mutations: seq<u32>, slots: Slots, k: nat, m: u32, t: Test)
    requires IsHalf(s, tests, mutations, slots) && CrashesInChildren(tests) && !s.stopped && m in mutations
    requires k < |InProcess(tests)| && InProcess(tests)[k] in s.reported && t in InProcess(tests)[..k + 1] && Decides(t, m)
    ensures m !in Open(s.results, mutations)
  {
    var here := InProcess(tests);
    var n := FrontOf(s, tests, mutations, slots, m);
    InChildDistinct(tests, mutations, false);
    hide OneEach, CrashesInChildren, Leads, SlotInv, Inv, Front, Deciding, InChild, Open, Decides, Beginning;
    NothingRuns(s, slots.In(s));
    FrontIsBehind(s, here, mutations, n, k);
    var j := PlaceOf(here, k, t);
    var x := FrontDecides(s, tests, mutations, n, m, t);
    hide *;
    DecidedIsClosed(s, tests, mutations, m, x);
  }

  lemma PlaceOf(here: seq<Test>, k: nat, t: Test) returns (j: nat)
    requires k < |here| && t in here[..k + 1]
    ensures j <= k && here[j] == t
  {
    j :| 0 <= j < |here[..k + 1]| && here[..k + 1][j] == t;
  }

  lemma DecidedIsClosed(s: Run, tests: seq<Test>, mutations: seq<u32>, m: u32, x: Test)
    requires CrashesInChildren(tests) && Inv(s, tests, mutations, false) && s.later.Some?
    requires m in mutations && x in s.reported && Decides(x, m)
    ensures m !in Open(s.results, mutations)
  {
    hide CrashesInChildren, Inv, Deciding, Open, Decides;
    if m in Open(s.results, mutations) {
      OpenIsUndetected(s, tests, mutations, m);
      VerdictsAreReported(s, tests, mutations, false, m);
      NoneDecided(s.reported, m);
    }
  }

  lemma FrontOf(s: Run, tests: seq<Test>, mutations: seq<u32>, slots: Slots, m: u32) returns (n: nat)
    requires IsHalf(s, tests, mutations, slots) && CrashesInChildren(tests) && m in mutations
    ensures Front(s, InProcess(tests), mutations, n)
  {
    hide OneEach, CrashesInChildren, Leads, SlotInv, Inv, Front, InChild, Beginning, Pace, TimeoutsFit;
    EarlyReached(s, tests, mutations, slots, m);
    n :| IsPaced(s, InProcess(tests), mutations, n, slots.here);
  }

  lemma NothingRuns(s: Run, slots: nat)
    requires SlotInv(s.Stage(), slots) && s.pc.Over? && !s.stopped
    ensures s.running == []
  {
    hide Count;
  }

  lemma FrontIsBehind(s: Run, here: seq<Test>, mutations: seq<u32>, n: nat, k: nat)
    requires Front(s, here, mutations, n) && Distinct(here) && k < |here| && here[k] in s.reported
    ensures k < n <= |here|
  {
    hide IsDropped, Still;
    var j :| 0 <= j < n && here[..n][j] == here[k];
    assert here[j] == here[k];
  }

  /** A test that the front has passed is decided by its own report, or by the one that dropped it. */
  lemma FrontDecides(s: Run, tests: seq<Test>, mutations: seq<u32>, n: nat, m: u32, t: Test) returns (x: Test)
    requires OneEach(tests, mutations) && Front(s, InProcess(tests), mutations, n) && s.running == [] && m in mutations
    requires Decides(t, m) && exists j | 0 <= j < n :: InProcess(tests)[j] == t
    ensures x in s.reported && Decides(x, m)
  {
    hide Still, OneEach;
    x := t;
    InChildKeeps(tests, false, t);
    if t !in s.reported {
      assert IsDropped(t, s.reported, mutations);
      x :| x in s.reported && EndsMutation(x.outcome) && SameMutation(x, t, mutations);
      var other :| other in mutations && other in x.reaches && other in t.reaches;
      ReachesOnly(t, tests, mutations, m);
      ReachesOnly(t, tests, mutations, other);
    }
  }

  // ---------- All cases ----------

  lemma NotFailsFirst(queue: seq<Test>, m: u32)
    requires !FailsFirst(Deciding(queue, m))
    ensures NoneFailsFirst(Deciding(queue, m))
  {
    if Deciding(queue, m) != [] {
      DecidingHas(queue, m, Deciding(queue, m)[0]);
    }
  }

  lemma OneIsSlow(queue: seq<Test>, m: u32) returns (slow: Test)
    requires !AllFail(Deciding(queue, m))
    ensures slow in Deciding(queue, m) && slow.outcome == Timeout
  {
    slow :| slow in Deciding(queue, m) && slow.outcome != Failed;
    DecidingHas(queue, m, slow);
  }

  /** The first test of this process that decides a mutation may be given up alone, if any test that decides it may. */
  lemma FirstMayEnd(here: seq<Test>, mutations: seq<u32>, k: nat, other: u32) returns (first: nat)
    requires ReachOneEach(here, mutations) && MayEndAt(here, k, mutations) && other in mutations && other in here[k].reaches
    ensures first <= k && MayEndAt(here, first, mutations)
    ensures forall j | 0 <= j < first :: here[j].outcome == Timeout ==> !SameMutation(here[j], here[first], mutations)
  {
    first := FirstDecider(here, other);
    assert Decides(here[k], other);
    if here[first].outcome == Failed {
      assert SameMutation(here[first], here[k], mutations);
    }
    forall j | 0 <= j < first && here[j].outcome in {Failed, Timeout}
      ensures !SameMutation(here[j], here[first], mutations)
    {
      assert !Decides(here[j], other);
      if m :| m in mutations && m in here[j].reaches && m in here[first].reaches {
        ReachesSame(here, mutations, first, m, other);
      }
    }
  }

  lemma ReachesSame(queue: seq<Test>, mutations: seq<u32>, i: nat, a: u32, b: u32)
    requires ReachOneEach(queue, mutations) && i < |queue| && a in mutations && b in mutations
    requires a in queue[i].reaches && b in queue[i].reaches
    ensures a == b
  {}

  /** With one slot each, a run misses the mutation unless the condition holds. */
  lemma OneSlotMisses(tests: seq<Test>, mutations: seq<u32>, m: u32) returns (s: Run)
    requires OneEach(tests, mutations) && CrashesInChildren(tests) && m in mutations
    requires !DetectsWith(tests, mutations, Slots(1, 1), m)
    ensures Misses(s, tests, mutations, Slots(1, 1), m)
  {
    hide OneEach, CrashesInChildren, Deciding, InChild, StaysOpen, AllFail, Misses, MayEndAt;
    var here, there := InProcess(tests), InChildren(tests);
    if !FailsFirst(Deciding(here, m)) && (Deciding(here, m) == [] ==> !FailsFirst(Deciding(there, m))) {
      NotFailsFirst(here, m);
      if Deciding(here, m) == [] {
        NotFailsFirst(there, m);
      }
      s := MissesOneByOne(tests, mutations, m);
    } else {
      var k :| 0 <= k < FirstDecider(here, m) && MayEndAt(here, k, mutations) && !FailsFirst(Deciding(there, m));
      NotFailsFirst(there, m);
      s := MissesGivenUpAlone(tests, mutations, k, m);
    }
  }

  lemma MissesGivenUpAlone(tests: seq<Test>, mutations: seq<u32>, k: nat, m: u32) returns (s: Run)
    requires OneEach(tests, mutations) && CrashesInChildren(tests) && m in mutations
    requires k < FirstDecider(InProcess(tests), m) && MayEndAt(InProcess(tests), k, mutations)
    requires NoneFailsFirst(Deciding(InChildren(tests), m))
    ensures Misses(s, tests, mutations, Slots(1, 1), m)
  {
    var here := InProcess(tests);
    var other := EndReaches(tests, mutations, k);
    var first := FirstMayEnd(here, mutations, k, other);
    hide OneEach, CrashesInChildren, Deciding, InChild, MayEndAt, IsHalf, Misses, SameMutation;
    var half, slots := GivenUpAt(tests, mutations, 1, first, m);
    assert slots == Slots(1, 1);
    NoFailureYet(half, tests, mutations, slots, m);
    s := SecondBehind(half, tests, mutations, slots, m);
  }

  lemma EndReaches(tests: seq<Test>, mutations: seq<u32>, k: nat) returns (other: u32)
    requires OneEach(tests, mutations) && k < |InProcess(tests)|
    ensures ReachOneEach(InProcess(tests), mutations) && other in mutations && other in InProcess(tests)[k].reaches
  {
    hide ReachOneEach;
    forall t <- InProcess(tests)
      ensures t in tests
    {
      InChildKeeps(tests, false, t);
    }
    PartReachesOne(InProcess(tests), tests, mutations);
    assert InProcess(tests)[k] in tests;
    other :| other in mutations && other in InProcess(tests)[k].reaches;
  }

  lemma NoFailureYet(s: Run, tests: seq<Test>, mutations: seq<u32>, slots: Slots, m: u32)
    requires IsHalf(s, tests, mutations, slots) && m in mutations && IsUndetected(s, m)
    ensures !SomeFails(s.reported, m) && m in Open(s.results, mutations)
  {
    hide OneEach, Inv, SlotInv, Leads;
    VerdictsAreReported(s, tests, mutations, false, m);
  }

  /** In child processes, with a slot for every test, once the stage before was given up. */
  lemma MissesBesideGivenUp(tests: seq<Test>, mutations: seq<u32>, k: nat, m: u32, slow: Test) returns (s: Run, slots: Slots)
    requires OneEach(tests, mutations) && CrashesInChildren(tests) && m in mutations
    requires k < FirstDecider(InProcess(tests), m) && MayEndAt(InProcess(tests), k, mutations)
    requires slow in Deciding(InChildren(tests), m) && slow.outcome == Timeout
    requires !StaysOpen(InProcess(tests)[..k + 1] + InChildren(tests), mutations)
    ensures Misses(s, tests, mutations, slots, m)
  {
    hide OneEach, CrashesInChildren, Deciding, InChild, MayEndAt, IsHalf, Misses, SameMutation, Open, StaysOpen, Decides;
    var here, there := InProcess(tests), InChildren(tests);
    var half;
    half, slots := GivenUpAt(tests, mutations, |tests| + 1, k, m);
    NoFailureYet(half, tests, mutations, slots, m);
    forall m' <- Open(half.results, mutations)
      ensures Deciding(there, m') != []
    {
      OpenIsOfMutations(half, mutations, m');
      var t := DeciderOf(here[..k + 1] + there, mutations, m');
      if t in here[..k + 1] {
        PartIsDecided(half, tests, mutations, slots, k, m', t);
      }
      DecidingHas(there, m', t);
    }
    s := SecondBeside(half, tests, mutations, slots, m, slow);
  }

  lemma OpenIsOfMutations(s: Run, mutations: seq<u32>, m: u32)
    requires m in Open(s.results, mutations)
    ensures m in mutations
  {}

  lemma DeciderOf(seen: seq<Test>, mutations: seq<u32>, m: u32) returns (t: Test)
    requires !StaysOpen(seen, mutations) && m in mutations
    ensures t in seen && Decides(t, m)
  {
    EachHasDecider(seen, mutations, m);
    t :| t in seen && Decides(t, m);
  }

  /** In child processes, with a slot for every test, if no test of this process decides the mutation. */
  lemma MissesThere(tests: seq<Test>, mutations: seq<u32>, m: u32, slow: Test) returns (s: Run, slots: Slots)
    requires OneEach(tests, mutations) && CrashesInChildren(tests) && m in mutations
    requires Deciding(InProcess(tests), m) == [] && slow in Deciding(InChildren(tests), m) && slow.outcome == Timeout
    requires !StaysOpen(tests, mutations)
    ensures Misses(s, tests, mutations, slots, m)
  {
    slots := Slots(1, |tests| + 1);
    var begin := Beginning(tests, mutations);
    BeginIsReady(tests, mutations, false, slots);
    BeginsHere(tests, mutations);
    hide OneEach, CrashesInChildren, Deciding, InChild, Misses, Open, StaysOpen, Decides, Beginning, Leads, Inv, SlotInv;
    var half := RunOut(begin, tests, mutations, false, slots);
    HalfOf(half, tests, mutations, slots);
    ReportedHere(half, tests, mutations);
    NoneReported(half, InProcess(tests), m);
    StillUndetected(half, tests, mutations, m);
    NoFailureYet(half, tests, mutations, slots, m);
    forall m' <- Open(half.results, mutations)
      ensures Deciding(InChildren(tests), m') != []
    {
      LeftToChildren(half, tests, mutations, m');
    }
    s := SecondBeside(half, tests, mutations, slots, m, slow);
  }

  /** A mutation that is open after a whole first stage has a deciding test in child processes, if it has one at all. */
  lemma LeftToChildren(s: Run, tests: seq<Test>, mutations: seq<u32>, m: u32)
    requires CrashesInChildren(tests) && Inv(s, tests, mutations, false) && s.later.Some?
    requires s.stopped || s.queued == s.running == []
    requires m in Open(s.results, mutations) && !StaysOpen(tests, mutations)
    ensures Deciding(InChildren(tests), m) != []
  {
    hide CrashesInChildren, Deciding, Decides, Inv, StaysOpen;
    OpenIsUndetected(s, tests, mutations, m);
    var t := DeciderOf(tests, mutations, m);
    InChildKeeps(tests, false, t);
    InChildKeeps(tests, true, t);
    if !t.inChild {
      DecidedHere(s, tests, mutations, m, t);
    }
    DecidingHas(InChildren(tests), m, t);
  }

  /** Unless the condition holds, a run misses the mutation with some number of slots. */
  lemma MissesOtherwise(tests: seq<Test>, mutations: seq<u32>, m: u32) returns (s: Run, slots: Slots)
    requires OneEach(tests, mutations) && CrashesInChildren(tests) && m in mutations && !DetectsEarly(tests, mutations, m)
    ensures Misses(s, tests, mutations, slots, m)
  {
    hide OneEach, CrashesInChildren, Deciding, InChild, StaysOpen, AllFail, Misses, MayEndAt, FailsFirst;
    var here, there := InProcess(tests), InChildren(tests);
    if !DetectsWith(tests, mutations, Slots(1, 1), m) {
      slots := Slots(1, 1);
      s := OneSlotMisses(tests, mutations, m);
    } else if Deciding(here, m) == [] {
      var slow := OneIsSlow(there, m);
      s, slots := MissesThere(tests, mutations, m, slow);
    } else if !IsSure(Deciding(here, m), here, mutations, 2) {
      var slow := OneIsSlow(here, m);
      s, slots := MissesHere(tests, mutations, m, slow);
    } else {
      var k :| 0 <= k < FirstDecider(here, m) && MayEndAt(here, k, mutations) &&
        !IsSure(Deciding(there, m), here[..k + 1] + there, mutations, 2);
      var slow := OneIsSlow(there, m);
      s, slots := MissesBesideGivenUp(tests, mutations, k, m, slow);
    }
  }
}
