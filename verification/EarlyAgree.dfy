/** When stopping early and running all tests come to the same verdict, whatever either of them gives up. */
module EarlyAgree {
  import opened Collections
  import opened Integers
  import opened TestRunner
  import opened VerdictFold
  import opened RunSteps
  import opened FullRun
  import opened EarlyStop
  import opened EarlyDetect
  import opened EarlyMiss
  import opened EarlyExact

  // ---------- A run that gives no test up ----------

  /** It tells of every mutation with a test that does not pass. */
  lemma EarlyMayTell(tests: seq<Test>, mutations: seq<u32>, slots: Slots, m: u32) returns (s: Run)
    requires OneEach(tests, mutations) && slots.Valid() && m in mutations
    ensures IsEnd(s, tests, mutations, false, slots) && (AllPass(tests, m) || !IsUndetected(s, m))
  {
    BeginIsReady(tests, mutations, false, slots);
    BeginsHere(tests, mutations);
    hide OneEach, Inv, SlotInv, Leads, Beginning;
    var half := RunOut(Beginning(tests, mutations), tests, mutations, false, slots);
    HalfOf(half, tests, mutations, slots);
    s := SecondRest(half, tests, mutations, slots);
    if !AllPass(tests, m) && IsUndetected(s, m) {
      UndetectedAllPass(half, s, tests, mutations, slots, m);
    }
  }

  lemma UndetectedAllPass(half: Run, s: Run, tests: seq<Test>, mutations: seq<u32>, slots: Slots, m: u32)
    requires OneEach(tests, mutations) && m in mutations
    requires Inv(half, tests, mutations, false) && half.later.Some? && (half.stopped || half.queued == half.running == [])
    requires IsEnd(s, tests, mutations, false, slots) && half.reported <= s.reported && IsUndetected(s, m)
    ensures AllPass(tests, m)
  {
    EarlyVerdict(s, tests, mutations, slots, m);
    forall t <- tests | m in t.reaches
      ensures Passes(t)
    {
      if t.inChild {
        ChildrenReport(s, tests, mutations, false, slots, t);
        assert Spared(t, s.results, mutations);
      } else {
        UndetectedSpares(half, s, tests, mutations, m, t);
      }
    }
  }

  lemma UndetectedSpares(half: Run, s: Run, tests: seq<Test>, mutations: seq<u32>, m: u32, t: Test)
    requires OneEach(tests, mutations) && m in mutations
    requires Inv(half, tests, mutations, false) && half.later.Some? && (half.stopped || half.queued == half.running == [])
    requires half.reported <= s.reported && AllPass(s.reported, m)
    requires t in tests && m in t.reaches && !t.inChild
    ensures t in s.reported
  {
    hide OneEach, EntryIs, Accounted;
    StillSpared(half, s, tests, mutations, m, t);
    InChildKeeps(tests, true, t);
    hide Spared;
    SparedReports(half, tests, mutations, t);
  }

  lemma StillSpared(half: Run, s: Run, tests: seq<Test>, mutations: seq<u32>, m: u32, t: Test)
    requires Inv(half, tests, mutations, false) && m in mutations && m in t.reaches
    requires half.reported <= s.reported && AllPass(s.reported, m)
    ensures Spared(t, half.results, mutations)
  {
    VerdictsAreReported(half, tests, mutations, false, m);
    hide Inv;
    assert forall x <- half.reported :: x in s.reported;
  }

  // ---------- Undetected ----------

  /** A test that is sure to report when all run is not behind a test that an early stage may end at either. */
  lemma SureToTellEarly(tests: seq<Test>, mutations: seq<u32>, slots: Slots, m: u32)
    requires CrashesInChildren(tests) && SureToTell(tests, slots, m)
    ensures TellsEarly(tests, mutations, slots.here, m)
  {
    hide Count, Deciding, InChild, MayEndAt, FirstDecider, TellsHere;
    var t :| t in tests && m in t.reaches && !Passes(t) && IsSureToReport(tests, t, slots);
    if !t.inChild {
      InTimeTells(InProcess(tests), mutations, slots.here, m, t);
      hide *;
      TellsHereIs(tests, mutations, slots.here, m);
    }
  }

  lemma TellsHereIs(tests: seq<Test>, mutations: seq<u32>, slots: nat, m: u32)
    requires Deciding(InProcess(tests), m) != []
    requires forall k | 0 <= k < FirstDecider(InProcess(tests), m) && MayEndAt(InProcess(tests), k, mutations) ::
      Count(InProcess(tests)[..k + 1], TIMES_OUT) < slots
    ensures TellsHere(tests, mutations, slots, m)
  {}

  lemma InTimeTells(here: seq<Test>, mutations: seq<u32>, slots: nat, m: u32, t: Test)
    requires ComesInTime(here, t, slots) && Decides(t, m)
    ensures Deciding(here, m) != []
    ensures forall k | 0 <= k < FirstDecider(here, m) && MayEndAt(here, k, mutations) :: Count(here[..k + 1], TIMES_OUT) < slots
  {
    hide Count, Deciding, MayEndAt;
    var k :| 0 <= k < |here| && here[k] == t && Count(here[..k], TIMES_OUT) < slots;
    DecidingHas(here, m, t);
    forall j | 0 <= j < FirstDecider(here, m) && MayEndAt(here, j, mutations)
      ensures Count(here[..j + 1], TIMES_OUT) < slots
    {
      CountPrefix(here, j + 1, k, TIMES_OUT);
    }
  }

  /** With the same numbers of slots, both modes leave a mutation undetected in the same cases, exactly if a test that
      does not pass is sure to report when all run. */
  lemma EarlyStopAgrees(tests: seq<Test>, mutations: seq<u32>, slots: Slots, m: u32)
    requires OneEach(tests, mutations) && CrashesInChildren(tests) && slots.Valid() && m in mutations
    ensures (forall e, f | IsEnd(e, tests, mutations, false, slots) && IsEnd(f, tests, mutations, true, slots) ::
      IsUndetected(e, m) <==> IsUndetected(f, m)) <==> AllPass(tests, m) || SureToTell(tests, slots, m)
  {
    FullRunLeavesUndetected(tests, mutations, slots, m);
    hide OneEach, CrashesInChildren, IsEnd, SureToTell, TellsEarly;
    if AllPass(tests, m) {
      forall e | IsEnd(e, tests, mutations, false, slots)
        ensures IsUndetected(e, m)
      {
        EndIsReached(e, tests, mutations, slots);
        AllPassMeansUndetected(e, tests, mutations, false, slots, m);
      }
    } else if SureToTell(tests, slots, m) {
      SureToTellEarly(tests, mutations, slots, m);
      forall e | IsEnd(e, tests, mutations, false, slots)
        ensures !IsUndetected(e, m)
      {
        ToldInEveryOrder(e, tests, mutations, slots, m);
      }
    } else {
      var e := EarlyMayTell(tests, mutations, slots, m);
      var f :| IsEnd(f, tests, mutations, true, slots) && IsUndetected(f, m);
    }
  }

  lemma EndIsReached(s: Run, tests: seq<Test>, mutations: seq<u32>, slots: Slots)
    requires IsEnd(s, tests, mutations, false, slots)
    ensures IsReached(s, tests, mutations, false, slots) && slots.Valid()
  {}

  // ---------- Detected ----------

  lemma FullyReported(f: Run, tests: seq<Test>, mutations: seq<u32>, slots: Slots, m: u32)
    requires OneEach(tests, mutations) && IsEnd(f, tests, mutations, true, slots) && m in mutations
    requires forall t <- tests :: t in f.reported
    ensures IsDetected(f, m) <==> SomeFails(tests, m)
  {
    FullVerdict(f, tests, mutations, slots, m);
  }

  /** Both modes detect a mutation in the same cases exactly if either nothing fails it, or both detect it in every run. */
  lemma BothDetectAlways(tests: seq<Test>, mutations: seq<u32>, slots: Slots, m: u32)
    requires OneEach(tests, mutations) && CrashesInChildren(tests) && slots.Valid() && m in mutations
    ensures (forall e, f | IsEnd(e, tests, mutations, false, slots) && IsEnd(f, tests, mutations, true, slots) ::
      IsDetected(e, m) <==> IsDetected(f, m)) <==>
      !SomeFails(tests, m) || (SureToFail(tests, slots, m) && forall e | IsEnd(e, tests, mutations, false, slots) :: IsDetected(e, m))
  {
    FullRunDetects(tests, mutations, slots, m);
    hide OneEach, CrashesInChildren, IsEnd, SureToFail;
    if SomeFails(tests, m) {
      var f := AllMayReport(tests, mutations, slots);
      FullyReported(f, tests, mutations, slots, m);
      var e := EarlyMayTell(tests, mutations, slots, m);
    } else {
      forall s, exhaustive | IsEnd(s, tests, mutations, exhaustive, slots)
        ensures !IsDetected(s, m)
      {
        NoneIsDetected(s, tests, mutations, exhaustive, slots, m);
      }
    }
  }

  lemma NoneIsDetected(s: Run, tests: seq<Test>, mutations: seq<u32>, exhaustive: bool, slots: Slots, m: u32)
    requires OneEach(tests, mutations) && IsEnd(s, tests, mutations, exhaustive, slots) && m in mutations && !SomeFails(tests, m)
    ensures !IsDetected(s, m)
  {
    DetectedMeansSomeFails(s, tests, mutations, exhaustive, slots, m);
  }

  /** With any number of slots: if a test fails the mutation, it has to meet both conditions. */
  lemma BothDetect(tests: seq<Test>, mutations: seq<u32>, m: u32)
    requires OneEach(tests, mutations) && CrashesInChildren(tests) && m in mutations
    ensures (forall e, f, slots | IsEnd(e, tests, mutations, false, slots) && IsEnd(f, tests, mutations, true, slots) ::
      IsDetected(e, m) <==> IsDetected(f, m)) <==>
      !SomeFails(tests, m) || (DetectsEarly(tests, mutations, m) && SureToFail(tests, Slots(1, 1), m))
    ensures (forall e, f | IsEnd(e, tests, mutations, false, Slots(1, 1)) && IsEnd(f, tests, mutations, true, Slots(1, 1)) ::
      IsDetected(e, m) <==> IsDetected(f, m)) <==>
      !SomeFails(tests, m) || (DetectsWith(tests, mutations, Slots(1, 1), m) && SureToFail(tests, Slots(1, 1), m))
  {
    BothDetectAlways(tests, mutations, Slots(1, 1), m);
    OneSlotDetects(tests, mutations, m);
    EarlyStopDetects(tests, mutations, m);
    hide OneEach, CrashesInChildren, IsEnd, SureToFail, DetectsWith, SomeFails;
    forall slots: Slots | slots.Valid()
      ensures (forall e, f | IsEnd(e, tests, mutations, false, slots) && IsEnd(f, tests, mutations, true, slots) ::
        IsDetected(e, m) <==> IsDetected(f, m)) <==>
        !SomeFails(tests, m) || (SureToFail(tests, slots, m) && forall e | IsEnd(e, tests, mutations, false, slots) :: IsDetected(e, m))
      ensures SureToFail(tests, Slots(1, 1), m) ==> SureToFail(tests, slots, m)
    {
      BothDetectAlways(tests, mutations, slots, m);
      SureWithMore(tests, slots, m);
    }
  }

  lemma SureWithMore(tests: seq<Test>, slots: Slots, m: u32)
    requires slots.Valid()
    ensures SureToFail(tests, Slots(1, 1), m) ==> SureToFail(tests, slots, m)
  {
    hide Count, InChild;
  }

  // ---------- Without timeouts ----------

  /** No test of this process times out, and no test of the mutation does. */
  predicate NoneTimesOut(tests: seq<Test>, m: u32) {
    forall t <- tests | !t.inChild || m in t.reaches :: t.outcome != Timeout
  }

  /** Then both modes detect the mutation exactly if a test fails it, each with slots of its own. */
  lemma WithoutTimeoutsBothDetect(e: Run, f: Run, tests: seq<Test>, mutations: seq<u32>, early: Slots, full: Slots, m: u32)
    requires OneEach(tests, mutations) && CrashesInChildren(tests) && m in mutations && NoneTimesOut(tests, m)
    requires IsEnd(e, tests, mutations, false, early) && IsEnd(f, tests, mutations, true, full)
    ensures IsDetected(e, m) <==> SomeFails(tests, m)
    ensures IsDetected(f, m) <==> SomeFails(tests, m)
  {
    FullRunDetects(tests, mutations, full, m);
    EarlyStopDetects(tests, mutations, m);
    DetectedMeansSomeFails(e, tests, mutations, false, early, m);
    DetectedMeansSomeFails(f, tests, mutations, true, full, m);
    hide OneEach, CrashesInChildren, NoneTimesOut, DetectsWith, SureToFail, Leads;
    if SomeFails(tests, m) {
      NothingHides(tests, mutations, full, m);
    }
  }

  lemma NothingHides(tests: seq<Test>, mutations: seq<u32>, slots: Slots, m: u32)
    requires SomeFails(tests, m) && NoneTimesOut(tests, m) && slots.here > 0
    ensures DetectsEarly(tests, mutations, m) && SureToFail(tests, slots, m)
  {
    hide Deciding, InChild, MayEndAt, Count, StaysOpen, NoneTimesOut, IsSureToReport, Decides, AllFail;
    var t :| t in tests && m in t.reaches && t.outcome == Failed;
    NoTimeoutHere(tests, m);
    AllInTime(tests, slots, t);
    FailingDecides(tests, m, t);
    DecidersFail(tests, m, false);
    DecidersFail(tests, m, true);
    NoneMayEndHere(tests, mutations, m);
  }

  lemma FailingDecides(tests: seq<Test>, m: u32, t: Test)
    requires t in tests && m in t.reaches && t.outcome == Failed
    ensures Deciding(InProcess(tests), m) != [] || Deciding(InChildren(tests), m) != []
  {
    InChildKeeps(tests, t.inChild, t);
    DecidingHas(InChild(tests, t.inChild), m, t);
  }

  lemma NoneMayEndHere(tests: seq<Test>, mutations: seq<u32>, m: u32)
    requires NoneTimesOut(tests, m)
    ensures forall k | 0 <= k < |InProcess(tests)| :: !MayEndAt(InProcess(tests), k, mutations)
  {
    forall k | 0 <= k < |InProcess(tests)|
      ensures !MayEndAt(InProcess(tests), k, mutations)
    {
      InChildKeeps(tests, false, InProcess(tests)[k]);
    }
  }

  lemma NoTimeoutHere(tests: seq<Test>, m: u32)
    requires NoneTimesOut(tests, m)
    ensures Count(InProcess(tests), TIMES_OUT) == 0
  {
    forall i | 0 <= i < |InProcess(tests)|
      ensures !TIMES_OUT(InProcess(tests)[i])
    {
      InChildKeeps(tests, false, InProcess(tests)[i]);
    }
    CountNone(InProcess(tests), TIMES_OUT);
  }

  lemma DecidersFail(tests: seq<Test>, m: u32, inChild: bool)
    requires NoneTimesOut(tests, m)
    ensures AllFail(Deciding(InChild(tests, inChild), m))
    ensures var deciders := Deciding(InChild(tests, inChild), m); deciders != [] ==> deciders[0].outcome == Failed
  {
    forall t <- Deciding(InChild(tests, inChild), m)
      ensures t.outcome == Failed
    {
      DecidingHas(InChild(tests, inChild), m, t);
      InChildKeeps(tests, inChild, t);
    }
  }

  // ---------- What one timeout of another mutation does ----------

  const SLOW := Test("slow", {1}, Timeout, false)

  const FAILING := Test("failing", {2}, Failed, false)

  lemma SlowComesFirst()
    ensures OneEach([SLOW, FAILING], [1, 2]) && CrashesInChildren([SLOW, FAILING]) && SomeFails([SLOW, FAILING], 2)
    ensures !SureToTell([SLOW, FAILING], Slots(1, 1), 2) && !TellsEarly([SLOW, FAILING], [1, 2], 1, 2)
  {
    assert [SLOW, FAILING][1] == FAILING;
    SlowIsInFront();
    SlowMayEnd();
    InOrder(SLOW, FAILING);
    hide Count, Deciding, InChild, FirstDecider, ComesInTime;
  }

  lemma SlowIsInFront()
    ensures var tests := [SLOW, FAILING]; FirstDecider(tests, 2) == 1 && Count(tests[..0 + 1], TIMES_OUT) == 1
  {
    var tests := [SLOW, FAILING];
    assert tests[..1] == [SLOW] && tests[1..] == [FAILING];
    assert FirstDecider([FAILING], 2) == 0;
  }

  lemma SlowMayEnd()
    ensures MayEndAt([SLOW, FAILING], 0, [1, 2])
  {}

  /** Whether all tests run or not, the stage may be given up before the only test of a mutation, which it fails. */
  lemma SlowTestMayHideOther() returns (e: Run, f: Run)
    ensures SomeFails([SLOW, FAILING], 2)
    ensures IsEnd(e, [SLOW, FAILING], [1, 2], false, Slots(1, 1)) && IsUndetected(e, 2)
    ensures IsEnd(f, [SLOW, FAILING], [1, 2], true, Slots(1, 1)) && IsUndetected(f, 2)
  {
    SlowComesFirst();
    hide OneEach, CrashesInChildren, SureToTell, TellsEarly, AllPass, IsEnd;
    FailsAlone();
    e := LeavesUndetected([SLOW, FAILING], [1, 2], 2);
    FullRunLeavesUndetected([SLOW, FAILING], [1, 2], Slots(1, 1), 2);
    f :| IsEnd(f, [SLOW, FAILING], [1, 2], true, Slots(1, 1)) && IsUndetected(f, 2);
  }

  lemma FailsAlone()
    ensures !AllPass([SLOW, FAILING], 2)
  {
    assert [SLOW, FAILING][1] == FAILING;
  }

  /** So stopping early may detect what running all tests leaves undetected. */
  lemma EarlyStopMayDisagree() returns (e: Run, f: Run)
    ensures IsEnd(e, [SLOW, FAILING], [1, 2], false, Slots(1, 1)) && IsDetected(e, 2)
    ensures IsEnd(f, [SLOW, FAILING], [1, 2], true, Slots(1, 1)) && IsUndetected(f, 2)
  {
    var other;
    other, f := SlowTestMayHideOther();
    SlowComesFirst();
    hide OneEach, CrashesInChildren, SureToTell, TellsEarly, IsEnd;
    FailsAlone();
    e := EarlyMayTell([SLOW, FAILING], [1, 2], Slots(1, 1), 2);
    EarlyVerdict(e, [SLOW, FAILING], [1, 2], Slots(1, 1), 2);
  }

  /** And with a timeout of its own mutation in front, running all tests may detect what stopping early misses. */
  lemma EarlyStopMayMiss() returns (tests: seq<Test>, e: Run, f: Run)
    ensures IsEnd(e, tests, [2], false, Slots(1, 1)) && !IsDetected(e, 2)
    ensures IsEnd(f, tests, [2], true, Slots(1, 1)) && IsDetected(f, 2)
  {
    var slow := Test("slow", {2}, Timeout, false);
    tests := [slow, FAILING];
    assert 2 in [2] && tests[1] == FAILING && tests[0] == slow;
    InOrder(slow, FAILING);
    SlowDecidesFirst(slow, FAILING, 2);
    hide OneEach, IsEnd, Deciding, InChild;
    e := OneSlotMisses(tests, [2], 2);
    EarlyVerdict(e, tests, [2], Slots(1, 1), 2);
    f := AllMayReport(tests, [2], Slots(1, 1));
    FullyReported(f, tests, [2], Slots(1, 1), 2);
  }

  lemma SlowDecidesFirst(slow: Test, failing: Test, m: u32)
    requires Decides(slow, m) && slow.outcome == Timeout
    ensures Deciding([slow, failing], m) != [] && Deciding([slow, failing], m)[0] == slow
  {
    FirstIsFirst([slow, failing], m);
  }
}
