/** A run that stops early detects what the condition of `EarlyStop` says, and tells what a test before any timeout tells. */
module EarlyDetect {
  import opened Collections
  import opened Integers
  import opened Wrappers
  import opened TestRunner
  import opened VerdictFold
  import opened FullRun
  import opened EarlyStop
  import opened EarlyFront

  // ---------- Where a stage that gave up its queue ended ----------

  lemma {:induction false} InChildPlaces(tests: seq<Test>, inChild: bool) returns (places: seq<nat>)
    ensures |places| == |InChild(tests, inChild)|
    ensures forall i | 0 <= i < |places| :: places[i] < |tests| && InChild(tests, inChild)[i] == tests[places[i]]
    ensures forall i, j | 0 <= i < j < |places| :: places[i] < places[j]
  {
    places := [];
    if tests != [] {
      var n := |tests| - 1;
      places := InChildPlaces(tests[..n], inChild);
      if tests[n].inChild == inChild {
        places := places + [n];
      }
    }
  }

  /** No test is there twice. */
  lemma InChildDistinct(tests: seq<Test>, mutations: seq<u32>, inChild: bool)
    requires OneEach(tests, mutations)
    ensures Distinct(InChild(tests, inChild))
  {
    hide AllReach, ReachOneEach;
    var places := InChildPlaces(tests, inChild);
  }

  /** The first test to decide a mutation that no test decided yet is still queued, so the stage was given up before it. */
  lemma GaveUpBefore(s: Run, tests: seq<Test>, mutations: seq<u32>, n: nat, slots: nat, m: u32)
    requires OneEach(tests, mutations) && Inv(s, tests, mutations, false) && SlotInv(s.Stage(), slots)
    requires IsPaced(s, InProcess(tests), mutations, n, slots) && s.pc.Over? && s.later.Some?
    requires m in mutations && IsUndetected(s, m) && Deciding(InProcess(tests), m) != []
    ensures 0 < n <= FirstDecider(InProcess(tests), m) && MayEndAt(InProcess(tests), n - 1, mutations)
    ensures Count(InProcess(tests)[..n], TIMES_OUT) >= slots
    ensures forall t <- s.reported :: t in InProcess(tests)[..n]
  {
    hide OneEach, Inv, Deciding, MayEndAt, Front, SlotInv, InChild, Count;
    var here := InProcess(tests);
    var d := FirstDecider(here, m);
    FirstIsFirst(here, m);
    DeciderIsQueued(s, tests, mutations, slots, m, here[d]);
    GivenUpCounts(s, slots);
    InChildDistinct(tests, mutations, false);
    QueuedIsBehind(s, here, mutations, n, d);
  }

  lemma GivenUpCounts(s: Run, slots: nat)
    requires SlotInv(s.Stage(), slots) && s.pc.Over? && !s.stopped && s.queued != []
    ensures Count(s.reported, TIMES_OUT) >= slots
  {
    hide Count;
  }

  lemma QueuedIsBehind(s: Run, here: seq<Test>, mutations: seq<u32>, n: nat, d: nat)
    requires Front(s, here, mutations, n) && Distinct(here) && d < |here| && here[d] in s.queued
    ensures n <= d && forall t <- s.reported :: t in here[..n]
  {
    hide IsDropped;
    StillHas(here[n..], s.reported, mutations, here[d]);
    hide Still;
    var i :| 0 <= i < |here[n..]| && here[n..][i] == here[d];
    assert here[n + i] == here[d];
  }

  lemma DeciderIsQueued(s: Run, tests: seq<Test>, mutations: seq<u32>, slots: nat, m: u32, t: Test)
    requires Inv(s, tests, mutations, false) && SlotInv(s.Stage(), slots) && s.pc.Over? && s.later.Some?
    requires m in mutations && IsUndetected(s, m) && t in InProcess(tests) && Decides(t, m)
    ensures t in s.queued && !s.stopped
  {
    InChildKeeps(tests, false, t);
    InChildKeeps(tests, true, t);
    VerdictsAreReported(s, tests, mutations, false, m);
    assert Spared(t, s.results, mutations);
    StillAccounted(s, tests, mutations, t);
    hide Accounted, EntryIs, Count, InChild;
    if s.stopped {
      StoppedSparesNone(s, tests, mutations, false, t);
    }
  }

  lemma StillAccounted(s: Run, tests: seq<Test>, mutations: seq<u32>, t: Test)
    requires Inv(s, tests, mutations, false) && s.later.Some? && t in tests && Spared(t, s.results, mutations)
    ensures Known(s, t)
  {
    hide EntryIs, Placed;
    assert Accounted(s, t, mutations, false);
  }

  // ---------- What every state of a run keeps ----------

  /** With its deciding tests to come, in this process or in child processes, a mutation is sure to be detected. */
  ghost predicate WillDetect(s: Run, tests: seq<Test>, mutations: seq<u32>, slots: Slots, m: u32) {
    var here, there := Deciding(InProcess(tests), m), Deciding(InChildren(tests), m);
    if s.later.Some? then here != [] ==> OnItsWay(s, here, m, slots.here)
    else SomeFails(s.reported, m) || exists seen :: ComesThere(s, there, seen, mutations, slots, m)
  }

  ghost predicate ComesThere(s: Run, there: seq<Test>, seen: seq<Test>, mutations: seq<u32>, slots: Slots, m: u32) {
    OnItsWay(s, there, m, slots.inChildren) && IsSure(there, seen, mutations, slots.inChildren) && AllSeen(s, there, seen, m)
  }

  predicate Has(s: Run, t: Test) {
    t in s.queued || t in s.running || t in s.reported
  }

  ghost predicate AllSeen(s: Run, there: seq<Test>, seen: seq<Test>, m: u32) {
    forall t | Has(s, t) :: t in seen && (Decides(t, m) ==> t in there)
  }

  ghost predicate EarlyInv(s: Run, tests: seq<Test>, mutations: seq<u32>, slots: Slots, m: u32) {
    && Inv(s, tests, mutations, false) && SlotInv(s.Stage(), slots.In(s))
    && (s.later.Some? ==> exists n :: IsPaced(s, InProcess(tests), mutations, n, slots.here))
    && (DetectsWith(tests, mutations, slots, m) ==> WillDetect(s, tests, mutations, slots, m))
    && (s.later.None? && TellsHere(tests, mutations, slots.here, m) ==> !IsUndetected(s, m))
  }

  /** A test of this process decides the mutation, and before any that the stage may end at, too few tests time out. */
  predicate TellsHere(tests: seq<Test>, mutations: seq<u32>, slots: nat, m: u32) {
    var here := InProcess(tests);
    && Deciding(here, m) != []
    && forall k | 0 <= k < FirstDecider(here, m) && MayEndAt(here, k, mutations) :: Count(here[..k + 1], TIMES_OUT) < slots
  }

  lemma MoveTells(s: Run, s': Run, tests: seq<Test>, mutations: seq<u32>, n: nat, slots: nat, m: u32)
    requires OneEach(tests, mutations) && Inv(s, tests, mutations, false) && SlotInv(s.Stage(), slots)
    requires IsPaced(s, InProcess(tests), mutations, n, slots) && MovesOn(s, s', mutations, false)
    requires m in mutations && TellsHere(tests, mutations, slots, m)
    ensures !IsUndetected(s', m)
  {
    hide OneEach, Inv, Count, Front, Pace, MayEndAt;
    if IsUndetected(s, m) {
      GaveUpBefore(s, tests, mutations, n, slots, m);
    }
  }

  /** No report takes a verdict back. */
  lemma StaysTold(s: Run, s': Run, mutations: seq<u32>, slots: Slots, m: u32)
    requires Next(s, s', mutations, false, slots) && !MovesOn(s, s', mutations, false) && m in s.results && !IsUndetected(s, m)
    ensures !IsUndetected(s', m) && s'.later == s.later
  {
    hide Reports, GoesOn, MutationOf, Reaches;
  }

  lemma BeginWillDetect(tests: seq<Test>, mutations: seq<u32>, slots: Slots, m: u32)
    requires DetectsWith(tests, mutations, slots, m)
    ensures WillDetect(Beginning(tests, mutations), tests, mutations, slots, m)
  {}

  lemma ComesThereGoes(s: Run, s': Run, there: seq<Test>, seen: seq<Test>, mutations: seq<u32>, slots: Slots, m: u32)
    requires ComesThere(s, there, seen, mutations, slots, m) && s.later.None? && Goes(s, s', slots)
    ensures ComesThere(s', there, seen, mutations, slots, m)
  {
    GoesStaysOnItsWay(s, s', there, m, slots);
    hide OnItsWay, IsSure, Decides;
    forall t | Has(s', t)
      ensures Has(s, t)
    {
      GoesAddsNone(s, s', slots, t);
    }
  }

  lemma GoesAddsNone(s: Run, s': Run, slots: Slots, t: Test)
    requires Goes(s, s', slots) && Has(s', t)
    ensures Has(s, t)
  {
    assert s.queued != [] ==> s.queued == [s.queued[0]] + s.queued[1..];
  }

  lemma ComesThereReports(s: Run, s': Run, i: nat, tests: seq<Test>, mutations: seq<u32>, there: seq<Test>, seen: seq<Test>,
                          slots: Slots, m: u32)
    requires OneEach(tests, mutations) && Inv(s, tests, mutations, false) && SlotInv(s.Stage(), slots.In(s)) && m in mutations
    requires ComesThere(s, there, seen, mutations, slots, m) && s.later.None? && ReportsTest(s, s', i, mutations, false)
    ensures ComesThere(s', there, seen, mutations, slots, m)
  {
    ReportStaysOnItsWay(s, s', i, tests, mutations, there, m, slots.inChildren);
    hide OnItsWay, IsSure, OneEach, Inv, SlotInv, ReportsTest, Decides;
    forall t | Has(s', t)
      ensures Has(s, t)
    {
      ReportMoves(s, s', i, mutations, false, t);
      ReportsRunning(s, i, mutations, s');
    }
  }

  lemma ReportsRunning(s: Run, i: nat, mutations: seq<u32>, s': Run)
    requires ReportsTest(s, s', i, mutations, false)
    ensures i < |s.running|
  {}

  lemma ReportsGrow(s: Run, s': Run, m: u32)
    requires s.reported <= s'.reported
    ensures SomeFails(s.reported, m) ==> SomeFails(s'.reported, m)
  {}

  lemma GoesWillDetect(s: Run, s': Run, tests: seq<Test>, mutations: seq<u32>, slots: Slots, m: u32)
    requires WillDetect(s, tests, mutations, slots, m) && Goes(s, s', slots)
    ensures WillDetect(s', tests, mutations, slots, m)
  {
    hide OnItsWay, ComesThere, GoesOn, SomeFails;
    var here, there := Deciding(InProcess(tests), m), Deciding(InChildren(tests), m);
    if s.later.Some? {
      if here != [] {
        GoesStaysOnItsWay(s, s', here, m, slots);
      }
    } else if seen :| ComesThere(s, there, seen, mutations, slots, m) {
      ComesThereGoes(s, s', there, seen, mutations, slots, m);
    } else {
      GoesReportsNothing(s, s', slots);
    }
  }

  lemma GoesReportsNothing(s: Run, s': Run, slots: Slots)
    requires Goes(s, s', slots)
    ensures s'.reported == s.reported && s'.later == s.later
  {}

  lemma ReportWillDetect(s: Run, s': Run, i: nat, tests: seq<Test>, mutations: seq<u32>, slots: Slots, m: u32)
    requires OneEach(tests, mutations) && Inv(s, tests, mutations, false) && SlotInv(s.Stage(), slots.In(s)) && m in mutations
    requires WillDetect(s, tests, mutations, slots, m) && ReportsTest(s, s', i, mutations, false)
    ensures WillDetect(s', tests, mutations, slots, m)
  {
    QueueAfter(s, s', i, mutations);
    hide OnItsWay, ComesThere, SomeFails, OneEach, Inv, Reports, Recorded, Count;
    var here, there := Deciding(InProcess(tests), m), Deciding(InChildren(tests), m);
    ReportsGrow(s, s', m);
    if s.later.Some? {
      if here != [] {
        ReportStaysOnItsWay(s, s', i, tests, mutations, here, m, slots.here);
      }
    } else if seen :| ComesThere(s, there, seen, mutations, slots, m) {
      ComesThereReports(s, s', i, tests, mutations, there, seen, slots, m);
    }
  }

  /** With no crash in this process, a mutation that no test of it decided is undetected. */
  lemma StillUndetected(s: Run, tests: seq<Test>, mutations: seq<u32>, m: u32)
    requires Inv(s, tests, mutations, false) && CrashesInChildren(tests) && s.later.Some?
    requires m in mutations && Deciding(s.reported, m) == []
    ensures IsUndetected(s, m) && !s.stopped
  {
    hide *;
    NoneOfThisProcess(s, tests, mutations);
    NoneDecides(s.reported, m);
    VerdictsAreReported(s, tests, mutations, false, m);
    UndetectedGoesOn(s, tests, mutations, m);
  }

  lemma NoneDecides(reported: seq<Test>, m: u32)
    requires Deciding(reported, m) == [] && forall t <- reported :: t.outcome != Crash
    ensures AllPass(reported, m)
  {
    forall t <- reported | m in t.reaches
      ensures Passes(t)
    {
      DecidingHas(reported, m, t);
    }
  }

  /** No test that reported crashed, */
  lemma NoneOfThisProcess(s: Run, tests: seq<Test>, mutations: seq<u32>)
    requires Inv(s, tests, mutations, false) && CrashesInChildren(tests) && s.later.Some?
    ensures forall t <- s.reported :: t.outcome != Crash
  {
    forall t <- s.reported
      ensures t.outcome != Crash
    {
      assert Known(s, t);
    }
  }

  /** and a run with an undetected mutation is not stopped. */
  lemma UndetectedGoesOn(s: Run, tests: seq<Test>, mutations: seq<u32>, m: u32)
    requires Inv(s, tests, mutations, false) && m in mutations
    ensures IsUndetected(s, m) ==> !s.stopped
  {}

  /** The first stage is over, so the mutation is detected, or undetected and all its tests in child processes are to come. */
  lemma MoveWillDetect(s: Run, s': Run, tests: seq<Test>, mutations: seq<u32>, slots: Slots, n: nat, m: u32)
    requires OneEach(tests, mutations) && CrashesInChildren(tests) && m in mutations && DetectsWith(tests, mutations, slots, m)
    requires Inv(s, tests, mutations, false) && SlotInv(s.Stage(), slots.In(s))
    requires IsPaced(s, InProcess(tests), mutations, n, slots.here)
    requires MovesOn(s, s', mutations, false) && WillDetect(s, tests, mutations, slots, m)
    ensures WillDetect(s', tests, mutations, slots, m)
  {
    ReportedHere(s, tests, mutations);
    hide OneEach, CrashesInChildren, Inv, IsPaced, Deciding, SlotInv, NotYetDetected, SomeFails, DetectsWith, InChild, OnItsWay;
    if Deciding(InProcess(tests), m) == [] {
      hide WillDetect;
      MoveFromNone(s, tests, mutations, slots, m);
    } else if SomeFails(s.reported, m) {
    } else if s.stopped {
      MoveFromStopped(s, tests, mutations, slots, m);
    } else {
      WaitsAtEnd(s, Deciding(InProcess(tests), m), m, slots.here);
      hide WillDetect;
      MoveFromGivenUp(s, tests, mutations, slots, n, m);
    }
  }

  lemma MoveFromStopped(s: Run, tests: seq<Test>, mutations: seq<u32>, slots: Slots, m: u32)
    requires Inv(s, tests, mutations, false) && s.stopped && m in mutations && DetectsWith(tests, mutations, slots, m)
    requires Deciding(InProcess(tests), m) != [] && OnItsWay(s, Deciding(InProcess(tests), m), m, slots.here)
    requires forall t <- s.reported :: t in InProcess(tests) && t in tests
    ensures SomeFails(s.reported, m)
  {
    hide Inv, Deciding, IsSure, OnItsWay, InChild, SomeFails;
    DecidersHere(s, InProcess(tests), m);
    StopDetects(s, tests, mutations, InProcess(tests), Deciding(InProcess(tests), m), m, slots.here);
  }

  lemma MoveFromNone(s: Run, tests: seq<Test>, mutations: seq<u32>, slots: Slots, m: u32)
    requires OneEach(tests, mutations) && CrashesInChildren(tests) && m in mutations && DetectsWith(tests, mutations, slots, m)
    requires Inv(s, tests, mutations, false) && s.later.Some? && Deciding(InProcess(tests), m) == []
    requires forall t <- s.reported :: t in InProcess(tests) && t in tests
    ensures WillDetect(Moved(s, mutations, false), tests, mutations, slots, m)
  {
    hide OneEach, CrashesInChildren, Inv, Deciding, ComesThere, IsSure, SomeFails, NotYetDetected;
    NoneReported(s, InProcess(tests), m);
    StillUndetected(s, tests, mutations, m);
    forall t <- InChildren(tests)
      ensures t in tests
    {
      InChildKeeps(tests, true, t);
    }
    hide InChild;
    MovesThere(s, tests, mutations, slots, tests, m);
  }

  lemma WaitsAtEnd(s: Run, deciders: seq<Test>, m: u32, slots: nat)
    requires OnItsWay(s, deciders, m, slots) && !SomeFails(s.reported, m) && !s.stopped && s.pc.Over? && SlotInv(s.Stage(), slots)
    ensures Deciding(s.reported, m) == []
  {
    hide Count;
  }

  lemma MoveFromGivenUp(s: Run, tests: seq<Test>, mutations: seq<u32>, slots: Slots, n: nat, m: u32)
    requires OneEach(tests, mutations) && CrashesInChildren(tests) && m in mutations && DetectsWith(tests, mutations, slots, m)
    requires Inv(s, tests, mutations, false) && SlotInv(s.Stage(), slots.here) && s.later.Some? && s.pc.Over?
    requires IsPaced(s, InProcess(tests), mutations, n, slots.here)
    requires Deciding(InProcess(tests), m) != [] && Deciding(s.reported, m) == []
    ensures WillDetect(Moved(s, mutations, false), tests, mutations, slots, m)
  {
    hide OneEach, CrashesInChildren, Inv, Deciding, ComesThere, IsSure, IsPaced, SlotInv, InChild, MayEndAt, SomeFails, NotYetDetected;
    StillUndetected(s, tests, mutations, m);
    GaveUpBefore(s, tests, mutations, n, slots.here, m);
    var seen := InProcess(tests)[..n - 1 + 1] + InChildren(tests);
    assert InProcess(tests)[..n - 1 + 1] == InProcess(tests)[..n];
    MovesThere(s, tests, mutations, slots, seen, m);
  }

  lemma ReportedHere(s: Run, tests: seq<Test>, mutations: seq<u32>)
    requires Inv(s, tests, mutations, false) && s.later.Some?
    ensures forall t <- s.reported :: t in InProcess(tests) && t in tests
  {
    hide EntryIs, Accounted;
    forall t <- s.reported
      ensures t in InProcess(tests) && t in tests
    {
      assert Known(s, t);
      InChildKeeps(tests, false, t);
    }
  }

  lemma DecidersHere(s: Run, here: seq<Test>, m: u32)
    requires forall t <- s.reported :: t in here
    ensures forall t <- s.reported | Decides(t, m) :: t in Deciding(here, m)
  {
    forall t <- s.reported | Decides(t, m)
      ensures t in Deciding(here, m)
    {
      DecidingHas(here, m, t);
    }
  }

  lemma NoneReported(s: Run, here: seq<Test>, m: u32)
    requires (forall t <- s.reported :: t in here) && Deciding(here, m) == []
    ensures Deciding(s.reported, m) == []
  {
    if Deciding(s.reported, m) != [] {
      var t := Deciding(s.reported, m)[0];
      DecidingHas(s.reported, m, t);
      DecidingHas(here, m, t);
    }
  }

  lemma MovedTests(s: Run, tests: seq<Test>, mutations: seq<u32>, m: u32)
    requires s.later == Some(InChildren(tests))
    ensures forall t <- Moved(s, mutations, false).queued ::
      t in InChildren(tests) && (Decides(t, m) ==> t in Deciding(InChildren(tests), m))
  {
    forall t <- Moved(s, mutations, false).queued
      ensures t in InChildren(tests) && (Decides(t, m) ==> t in Deciding(InChildren(tests), m))
    {
      NotYetDetectedKeeps(InChildren(tests), s.results, mutations, false, t);
      DecidingHas(InChildren(tests), m, t);
    }
  }

  lemma MovesThere(s: Run, tests: seq<Test>, mutations: seq<u32>, slots: Slots, seen: seq<Test>, m: u32)
    requires OneEach(tests, mutations) && Inv(s, tests, mutations, false) && s.later.Some? && m in mutations
    requires IsUndetected(s, m) && IsSure(Deciding(InChildren(tests), m), seen, mutations, slots.inChildren)
    requires (forall t <- s.reported :: t in seen) && (forall t <- InChildren(tests) :: t in seen)
    ensures ComesThere(Moved(s, mutations, false), Deciding(InChildren(tests), m), seen, mutations, slots, m)
  {
    assert Deciding([], m) == [];
    hide OneEach, Inv, AllFail, StaysOpen, InChild, NotYetDetected, Deciding, SomeFails;
    MovedDeciding(s, tests, mutations, m);
    VerdictsAreReported(s, tests, mutations, false, m);
    MovedIsSeen(s, tests, mutations, seen, m);
    NoneDecided(s.reported, m);
    hide AllSeen;
  }

  lemma MovedIsSeen(s: Run, tests: seq<Test>, mutations: seq<u32>, seen: seq<Test>, m: u32)
    requires s.later == Some(InChildren(tests)) && AllPass(s.reported, m)
    requires (forall t <- s.reported :: t in seen) && (forall t <- InChildren(tests) :: t in seen)
    ensures AllSeen(Moved(s, mutations, false), Deciding(InChildren(tests), m), seen, m)
  {
    hide InChild, NotYetDetected, Deciding, Decides;
    MovedTests(s, tests, mutations, m);
    NoneDecided(s.reported, m);
  }

  lemma NoneDecided(reported: seq<Test>, m: u32)
    requires AllPass(reported, m)
    ensures Deciding(reported, m) == [] && forall t <- reported :: !Decides(t, m)
  {
    if Deciding(reported, m) != [] {
      DecidingHas(reported, m, Deciding(reported, m)[0]);
    }
  }

  lemma EarlyStep(s: Run, s': Run, tests: seq<Test>, mutations: seq<u32>, slots: Slots, m: u32)
    requires OneEach(tests, mutations) && CrashesInChildren(tests) && slots.Valid() && m in mutations
    requires EarlyInv(s, tests, mutations, slots, m) && Next(s, s', mutations, false, slots)
    ensures EarlyInv(s', tests, mutations, slots, m)
  {
    NextKeeps(s, s', tests, mutations, false, slots);
    if !MovesOn(s, s', mutations, false) && s.later.None? && TellsHere(tests, mutations, slots.here, m) {
      StaysTold(s, s', mutations, slots, m);
    }
    hide OneEach, CrashesInChildren, Inv, SlotInv, IsPaced, DetectsWith, WillDetect, InChild, GoesOn, Reports, Recorded, TellsHere;
    if MovesOn(s, s', mutations, false) {
      var n :| IsPaced(s, InProcess(tests), mutations, n, slots.here);
      if DetectsWith(tests, mutations, slots, m) {
        MoveWillDetect(s, s', tests, mutations, slots, n, m);
      }
      if TellsHere(tests, mutations, slots.here, m) {
        MoveTells(s, s', tests, mutations, n, slots.here, m);
      }
    } else if i: nat :| ReportsTest(s, s', i, mutations, false) {
      if s.later.Some? {
        var n :| IsPaced(s, InProcess(tests), mutations, n, slots.here);
        ReportIsPaced(s, s', i, tests, mutations, n, slots.here);
      }
      if DetectsWith(tests, mutations, slots, m) {
        ReportWillDetect(s, s', i, tests, mutations, slots, m);
      }
    } else {
      if s.later.Some? {
        var n :| IsPaced(s, InProcess(tests), mutations, n, slots.here);
        var n' := GoesIsPaced(s, s', tests, mutations, n, slots);
      }
      if DetectsWith(tests, mutations, slots, m) {
        GoesWillDetect(s, s', tests, mutations, slots, m);
      }
    }
  }

  lemma {:induction false} EarlyPath(steps: seq<Run>, tests: seq<Test>, mutations: seq<u32>, slots: Slots, m: u32)
    requires OneEach(tests, mutations) && CrashesInChildren(tests) && slots.Valid() && m in mutations && steps != []
    requires IsPath(steps, Beginning(tests, mutations), steps[|steps| - 1], mutations, false, slots)
    ensures EarlyInv(steps[|steps| - 1], tests, mutations, slots, m)
  {
    hide OneEach, CrashesInChildren, Next, Inv, SlotInv, IsPaced, DetectsWith, WillDetect, Beginning;
    var n := |steps| - 1;
    if n == 0 {
      BeginHolds(tests, mutations, false, slots);
      BeginIsPaced(tests, mutations, slots.here);
      if DetectsWith(tests, mutations, slots, m) {
        BeginWillDetect(tests, mutations, slots, m);
      }
      BeginsHere(tests, mutations);
    } else {
      hide EarlyInv;
      EarlyPath(steps[..n], tests, mutations, slots, m);
      EarlyStep(steps[n - 1], steps[n], tests, mutations, slots, m);
    }
  }

  lemma BeginsHere(tests: seq<Test>, mutations: seq<u32>)
    ensures Beginning(tests, mutations).later.Some?
  {}

  lemma EarlyReached(s: Run, tests: seq<Test>, mutations: seq<u32>, slots: Slots, m: u32)
    requires OneEach(tests, mutations) && CrashesInChildren(tests) && m in mutations
    requires IsReached(s, tests, mutations, false, slots)
    ensures EarlyInv(s, tests, mutations, slots, m)
  {
    hide OneEach, CrashesInChildren, Next, EarlyInv;
    var steps :| IsPath(steps, Beginning(tests, mutations), s, mutations, false, slots);
    EarlyPath(steps, tests, mutations, slots, m);
  }

  // ---------- Main results ----------

  /** Every run that stops early detects the mutation, in whatever order its tests report and whichever are given up. */
  lemma DetectsInEveryOrder(s: Run, tests: seq<Test>, mutations: seq<u32>, slots: Slots, m: u32)
    requires OneEach(tests, mutations) && CrashesInChildren(tests) && m in mutations
    requires DetectsWith(tests, mutations, slots, m) && IsEnd(s, tests, mutations, false, slots)
    ensures IsDetected(s, m)
  {
    EarlyReached(s, tests, mutations, slots, m);
    VerdictsAreReported(s, tests, mutations, false, m);
    hide OneEach, CrashesInChildren, DetectsWith, IsReached, IsSure;
    var there := Deciding(InChildren(tests), m);
    if !SomeFails(s.reported, m) {
      var seen :| ComesThere(s, there, seen, mutations, slots, m);
      if s.stopped {
        StopDetects(s, tests, mutations, seen, there, m, slots.inChildren);
      } else {
        EndsEmpty(s, tests, mutations, slots);
        NothingOnItsWay(s, there, m, slots.inChildren);
      }
    }
  }

  /** The second stage gives up no test, so nothing is left in its queue. */
  lemma EndsEmpty(s: Run, tests: seq<Test>, mutations: seq<u32>, slots: Slots)
    requires slots.Valid() && Inv(s, tests, mutations, false) && SlotInv(s.Stage(), slots.In(s)) && IsOver(s) && !s.stopped
    ensures s.queued == s.running == []
  {
    hide EntryIs, Accounted, Count;
  }

  lemma NothingOnItsWay(s: Run, deciders: seq<Test>, m: u32, slots: nat)
    requires OnItsWay(s, deciders, m, slots) && s.queued == s.running == []
    ensures SomeFails(s.reported, m)
  {}

  /** One of its tests in child processes does not pass, or one of this process tells before the stage may end. */
  predicate TellsEarly(tests: seq<Test>, mutations: seq<u32>, slots: nat, m: u32) {
    (exists t <- tests :: m in t.reaches && !Passes(t) && t.inChild) || TellsHere(tests, mutations, slots, m)
  }

  /** Then no run that stops early leaves the mutation undetected. */
  lemma ToldInEveryOrder(s: Run, tests: seq<Test>, mutations: seq<u32>, slots: Slots, m: u32)
    requires OneEach(tests, mutations) && CrashesInChildren(tests) && m in mutations
    requires TellsEarly(tests, mutations, slots.here, m) && IsEnd(s, tests, mutations, false, slots)
    ensures !IsUndetected(s, m)
  {
    EarlyReached(s, tests, mutations, slots, m);
    VerdictsAreReported(s, tests, mutations, false, m);
    hide OneEach, CrashesInChildren, TellsHere, IsReached, Inv, SlotInv;
    if t :| t in tests && m in t.reaches && !Passes(t) && t.inChild {
      ChildrenReport(s, tests, mutations, false, slots, t);
    }
  }
}
