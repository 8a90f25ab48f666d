/** What runs that stop early detect, and what they leave undetected: the exact conditions. */
module EarlyExact {
  import opened Collections
  import opened Integers
  import opened TestRunner
  import opened VerdictFold
  import opened FullRun
  import opened EarlyStop
  import opened EarlyDetect
  import opened EarlyMiss

  // ---------- Detection ----------

  lemma EarlyVerdict(s: Run, tests: seq<Test>, mutations: seq<u32>, slots: Slots, m: u32)
    requires OneEach(tests, mutations) && IsEnd(s, tests, mutations, false, slots) && m in mutations
    ensures IsDetected(s, m) <==> SomeFails(s.reported, m)
    ensures IsUndetected(s, m) <==> AllPass(s.reported, m)
    ensures forall t <- s.reported :: t in tests
  {
    ReachedKeeps(s, tests, mutations, false, slots);
    VerdictsAreReported(s, tests, mutations, false, m);
  }

  /** What detects with two slots each, whatever the verdicts of other mutations, detects with any number. */
  lemma DetectsWithAny(tests: seq<Test>, mutations: seq<u32>, slots: Slots, m: u32)
    requires DetectsEarly(tests, mutations, m)
    ensures DetectsWith(tests, mutations, slots, m)
  {
    hide StaysOpen, AllFail, FailsFirst, Deciding, InChild, MayEndAt;
  }

  /** Every run that stops early, with any number of slots, detects the mutation exactly if its tests meet the condition. */
  lemma EarlyStopDetects(tests: seq<Test>, mutations: seq<u32>, m: u32)
    requires OneEach(tests, mutations) && CrashesInChildren(tests) && m in mutations
    ensures (forall s, slots | IsEnd(s, tests, mutations, false, slots) :: IsDetected(s, m)) <==> DetectsEarly(tests, mutations, m)
  {
    hide OneEach, CrashesInChildren, DetectsWith, IsEnd;
    if DetectsEarly(tests, mutations, m) {
      forall s, slots | IsEnd(s, tests, mutations, false, slots)
        ensures IsDetected(s, m)
      {
        DetectsWithAny(tests, mutations, slots, m);
        DetectsInEveryOrder(s, tests, mutations, slots, m);
      }
    } else {
      var s, slots := MissesOtherwise(tests, mutations, m);
      EarlyVerdict(s, tests, mutations, slots, m);
    }
  }

  /** The same for one slot each, which is all that a mutant has that runs beside others. */
  lemma OneSlotDetects(tests: seq<Test>, mutations: seq<u32>, m: u32)
    requires OneEach(tests, mutations) && CrashesInChildren(tests) && m in mutations
    ensures (forall s | IsEnd(s, tests, mutations, false, Slots(1, 1)) :: IsDetected(s, m)) <==>
      DetectsWith(tests, mutations, Slots(1, 1), m)
  {
    hide OneEach, CrashesInChildren, DetectsWith, IsEnd;
    if DetectsWith(tests, mutations, Slots(1, 1), m) {
      forall s | IsEnd(s, tests, mutations, false, Slots(1, 1))
        ensures IsDetected(s, m)
      {
        DetectsInEveryOrder(s, tests, mutations, Slots(1, 1), m);
      }
    } else {
      var s := OneSlotMisses(tests, mutations, m);
      EarlyVerdict(s, tests, mutations, Slots(1, 1), m);
    }
  }

  // ---------- A mutant of one mutation ----------

  /** The tests that decide the mutation in the first stage that has any. */
  function Deciders(tests: seq<Test>, m: u32): seq<Test> {
    if Deciding(InProcess(tests), m) != [] then Deciding(InProcess(tests), m) else Deciding(InChildren(tests), m)
  }

  /** A timeout next to the tests that fail is always enough to miss them. */
  lemma OneMutationNeedsNoTimeout(tests: seq<Test>, m: u32)
    requires OneEach(tests, [m]) && CrashesInChildren(tests)
    ensures (forall s, slots | IsEnd(s, tests, [m], false, slots) :: IsDetected(s, m)) <==>
      Deciders(tests, m) != [] && AllFail(Deciders(tests, m))
  {
    EarlyStopDetects(tests, [m], m);
    hide OneEach, IsEnd, Deciders, AllFail, DetectsWith;
    OneMutationCondition(tests, m);
  }

  lemma OneMutationCondition(tests: seq<Test>, m: u32)
    requires OneEach(tests, [m])
    ensures DetectsEarly(tests, [m], m) <==> Deciders(tests, m) != [] && AllFail(Deciders(tests, m))
  {
    hide OneEach, Deciding, InChild, StaysOpen, MayEndAt;
    NoneMayEnd(tests, m);
    SeenDecides(InProcess(tests), InProcess(tests), m);
    ChildrenAreTests(tests);
    SeenDecides(tests, InChildren(tests), m);
  }

  lemma ChildrenAreTests(tests: seq<Test>)
    ensures forall t <- InChildren(tests) :: t in tests
  {
    forall t <- InChildren(tests)
      ensures t in tests
    {
      InChildKeeps(tests, true, t);
    }
  }

  lemma SeenDecides(seen: seq<Test>, queue: seq<Test>, m: u32)
    requires Deciding(queue, m) != [] ==> forall t <- queue :: t in seen
    ensures Deciding(queue, m) != [] ==> !StaysOpen(seen, [m])
  {
    if Deciding(queue, m) != [] {
      DecidingHas(queue, m, Deciding(queue, m)[0]);
    }
  }

  /** Before the first test that decides the only mutation, none times out. */
  lemma NoneMayEnd(tests: seq<Test>, m: u32)
    requires OneEach(tests, [m])
    ensures forall k | 0 <= k < FirstDecider(InProcess(tests), m) :: !MayEndAt(InProcess(tests), k, [m])
  {
    forall k | 0 <= k < FirstDecider(InProcess(tests), m)
      ensures !MayEndAt(InProcess(tests), k, [m])
    {
      var other := EndReaches(tests, [m], k);
      assert !Decides(InProcess(tests)[k], m);
    }
  }

  // ---------- What is left undetected ----------

  /** No run leaves a mutation undetected that a test can tell, with one slot or with any number, exactly if one that is
      told apart from it is not behind a test that the stage may end at. */
  lemma EarlyLeavesUndetected(tests: seq<Test>, mutations: seq<u32>, m: u32)
    requires OneEach(tests, mutations) && CrashesInChildren(tests) && m in mutations
    ensures (forall s, slots | IsEnd(s, tests, mutations, false, slots) :: IsUndetected(s, m) <==> AllPass(tests, m)) <==>
      AllPass(tests, m) || TellsEarly(tests, mutations, 1, m)
    ensures (forall s | IsEnd(s, tests, mutations, false, Slots(1, 1)) :: IsUndetected(s, m) <==> AllPass(tests, m)) <==>
      AllPass(tests, m) || TellsEarly(tests, mutations, 1, m)
  {
    hide OneEach, CrashesInChildren, TellsHere, Leads;
    forall s, slots | IsEnd(s, tests, mutations, false, slots) && (AllPass(tests, m) || TellsEarly(tests, mutations, 1, m))
      ensures IsUndetected(s, m) <==> AllPass(tests, m)
    {
      if AllPass(tests, m) {
        AllPassMeansUndetected(s, tests, mutations, false, slots, m);
      } else {
        TellsWithMore(tests, mutations, slots.here, m);
        ToldInEveryOrder(s, tests, mutations, slots, m);
      }
    }
    if !AllPass(tests, m) && !TellsEarly(tests, mutations, 1, m) {
      var s := LeavesUndetected(tests, mutations, m);
    }
  }

  lemma TellsWithMore(tests: seq<Test>, mutations: seq<u32>, slots: nat, m: u32)
    requires TellsEarly(tests, mutations, 1, m) && slots > 0
    ensures TellsEarly(tests, mutations, slots, m)
  {
    hide Count, Deciding, InChild, FirstDecider, MayEndAt;
  }

  /** Gives the stage up before the first test that could tell. */
  lemma LeavesUndetected(tests: seq<Test>, mutations: seq<u32>, m: u32) returns (s: Run)
    requires OneEach(tests, mutations) && CrashesInChildren(tests) && m in mutations
    requires !AllPass(tests, m) && !TellsEarly(tests, mutations, 1, m)
    ensures IsEnd(s, tests, mutations, false, Slots(1, 1)) && IsUndetected(s, m)
  {
    var here := InProcess(tests);
    var k := BehindATimeout(tests, mutations, m);
    var other := EndReaches(tests, mutations, k);
    var first := FirstMayEnd(here, mutations, k, other);
    assert forall t <- tests | m in t.reaches && t.inChild :: Passes(t);
    hide OneEach, CrashesInChildren, Deciding, InChild, MayEndAt, IsHalf, SameMutation, TellsEarly, Passes, IsReached, AllPass;
    var half, slots := GivenUpAt(tests, mutations, 1, first, m);
    assert slots == Slots(1, 1);
    s := SecondRest(half, tests, mutations, slots);
    EarlyVerdict(s, tests, mutations, slots, m);
    HalfVerdict(half, tests, mutations, slots, m);
    forall t <- s.reported | m in t.reaches
      ensures Passes(t)
    {
      AllPassHas(half.reported, m);
      if t !in half.reported {
        LaterIsInChild(half, tests, mutations, slots, t);
      }
    }
    AllOfThemPass(s.reported, m);
  }

  lemma AllPassHas(reported: seq<Test>, m: u32)
    requires AllPass(reported, m)
    ensures forall t <- reported | m in t.reaches :: Passes(t)
  {}

  lemma AllOfThemPass(reported: seq<Test>, m: u32)
    requires forall t <- reported | m in t.reaches :: Passes(t)
    ensures AllPass(reported, m)
  {}

  lemma HalfVerdict(s: Run, tests: seq<Test>, mutations: seq<u32>, slots: Slots, m: u32)
    requires IsHalf(s, tests, mutations, slots) && m in mutations && IsUndetected(s, m)
    ensures AllPass(s.reported, m)
  {
    hide OneEach, Leads, SlotInv;
    VerdictsAreReported(s, tests, mutations, false, m);
  }

  lemma LaterIsInChild(s: Run, tests: seq<Test>, mutations: seq<u32>, slots: Slots, t: Test)
    requires IsHalf(s, tests, mutations, slots) && t in Moved(s, mutations, false).queued
    ensures t in tests && t.inChild
  {
    hide OneEach, Leads, SlotInv, Accounted, EntryIs;
    NotYetDetectedKeeps(s.later.value, s.results, mutations, false, t);
    InChildKeeps(tests, true, t);
  }

  /** If no test is sure to tell, one of this process could, behind one that the stage may end at. */
  lemma BehindATimeout(tests: seq<Test>, mutations: seq<u32>, m: u32) returns (k: nat)
    requires CrashesInChildren(tests) && !AllPass(tests, m) && !TellsEarly(tests, mutations, 1, m)
    ensures k < FirstDecider(InProcess(tests), m) && MayEndAt(InProcess(tests), k, mutations)
  {
    hide MayEndAt, Deciding, InChild, FirstDecider, Count;
    var here := InProcess(tests);
    var t :| t in tests && m in t.reaches && !Passes(t);
    InChildKeeps(tests, false, t);
    DecidingHas(here, m, t);
    k :| 0 <= k < FirstDecider(here, m) && MayEndAt(here, k, mutations);
  }
}
