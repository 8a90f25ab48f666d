/** Stages of runs that stop early, built to miss a mutation: one test at a time, all side by side, or given up. */
module EarlyRuns {
  import opened Integers
  import opened Journal
  import opened TestRunner
  import opened VerdictFold
  import opened RunSteps
  import opened EarlyStop
  import opened EarlyFront

  ghost predicate Ready(s: Run, tests: seq<Test>, mutations: seq<u32>, slots: Slots) {
    IsReady(s, tests, mutations, false, slots)
  }

  /** The end of a stage that these states come to. */
  ghost predicate StageEnds(s: Run, last: Run, tests: seq<Test>, mutations: seq<u32>, slots: Slots) {
    && OneEach(tests, mutations) && slots.Valid()
    && Leads(s, last, mutations, false, slots) && last.later == s.later && last.pc.Over?
    && Inv(last, tests, mutations, false) && SlotInv(last.Stage(), slots.In(last))
  }

  // ---------- One test at a time ----------

  predicate NoneFailsFirst(deciding: seq<Test>) {
    deciding == [] || deciding[0].outcome == Timeout
  }

  /** With one slot, a timeout ends the mutation before any of its tests that fail starts. */
  predicate Behind(s: Run, m: u32) {
    && |s.running| <= 1
    && !SomeFails(s.reported, m) && !SomeFails(s.running, m)
    && (Deciding(s.running, m) == [] ==> NoneFailsFirst(Deciding(s.queued, m)))
  }

  lemma StartStaysBehind(s: Run, m: u32)
    requires Behind(s, m) && s.queued != [] && s.running == []
    ensures Behind(AfterStart(s), m)
  {
    var test := s.queued[0];
    assert s.queued == [test] + s.queued[1..];
    DecidingCons(test, s.queued[1..], m);
    DecidingSnoc([], test, m);
    hide Deciding;
  }

  lemma DecidingAfter(s: Run, i: nat, tests: seq<Test>, mutations: seq<u32>, m: u32)
    requires OneEach(tests, mutations) && Inv(s, tests, mutations, false) && m in mutations && i < |s.running|
    ensures Reaches(s.running[i], mutations) && MutationOf(mutations, s.running[i]) in s.results
    ensures Deciding(AfterReport(s, i, mutations, false, Filling, 0).queued, m) ==
      if Decides(s.running[i], m) then [] else Deciding(s.queued, m)
  {
    var test := s.running[i];
    RunningReach(s, i, tests, mutations, false);
    QueueReachesOne(s, tests, mutations);
    MutationIs(test, tests, mutations, m);
    hide Deciding, Without, Inv, Recorded, AllDecided, OneEach, MutationOf, Reaches, ReachOneEach;
    DecidingWithout(s.queued, mutations, m, MutationOf(mutations, test));
  }

  lemma MutationIs(test: Test, tests: seq<Test>, mutations: seq<u32>, m: u32)
    requires OneEach(tests, mutations) && test in tests && Reaches(test, mutations) && m in mutations
    ensures MutationOf(mutations, test) == m <==> m in test.reaches
    ensures MutationOf(mutations, test) in mutations
  {
    hide OneEach;
    if m in test.reaches {
      ReachesOnly(test, tests, mutations, m);
    }
  }

  lemma ReportStaysBehind(s: Run, tests: seq<Test>, mutations: seq<u32>, m: u32)
    requires OneEach(tests, mutations) && Inv(s, tests, mutations, false) && m in mutations
    requires Behind(s, m) && |s.running| == 1
    ensures Reaches(s.running[0], mutations) && MutationOf(mutations, s.running[0]) in s.results
    ensures Behind(AfterReport(s, 0, mutations, false, Filling, 0), m)
  {
    hide Without, Inv, OneEach, Recorded, AllDecided, MutationOf, Reaches, SomeFails;
    var test := s.running[0];
    DecidingAfter(s, 0, tests, mutations, m);
    assert s.running == [] + [test] && s.running[..0] + s.running[1..] == [] && Deciding([], m) == [];
    hide Deciding;
    DecidingSnoc([], test, m);
    OneMoreReported(s.reported, test, m);
    NoneAreRunning(m);
  }

  lemma OneMoreReported(reported: seq<Test>, test: Test, m: u32)
    requires !SomeFails(reported, m) && !SomeFails([test], m)
    ensures !SomeFails(reported + [test], m)
  {
    assert test in [test];
  }

  lemma NoneAreRunning(m: u32)
    ensures !SomeFails([], m)
  {}

  lemma {:induction false} RunBehind(s: Run, tests: seq<Test>, mutations: seq<u32>, slots: Slots, m: u32) returns (last: Run)
    requires Ready(s, tests, mutations, slots) && slots.In(s) == 1 && m in mutations && Behind(s, m)
    ensures StageEnds(s, last, tests, mutations, slots) && Behind(last, m)
    ensures last.stopped || last.queued == last.running == []
    decreases Left(s)
  {
    hide Inv, OneEach, SlotInv, Leads, Behind, Recorded, AllDecided, Without, MutationOf, Reaches;
    if s.queued == s.running == [] {
      last := FillLeads(s, tests, mutations, false, slots);
      SameBehind(s, last, m);
      return;
    }
    BehindRunsOne(s, m);
    var s' := s;
    if s.running == [] {
      s' := AfterStart(s);
      StartLeads(s, tests, mutations, false, slots);
      StartStaysBehind(s, m);
    } else {
      s' := ReportLeads(s, 0, tests, mutations, false, slots);
      ReportStaysBehind(s, tests, mutations, m);
      SameBehind(AfterReport(s, 0, mutations, false, Filling, 0), s', m);
      WithoutSize(s.queued, MutationOf(mutations, s.running[0]));
    }
    if s'.stopped {
      last := s';
      StopIsOver(s', slots.In(s'));
    } else {
      last := RunBehind(s', tests, mutations, slots, m);
      LeadsFurther(s, s', last, mutations, false, slots);
    }
  }

  lemma BehindRunsOne(s: Run, m: u32)
    requires Behind(s, m)
    ensures |s.running| <= 1
  {}

  lemma SameBehind(s: Run, s': Run, m: u32)
    requires Behind(s, m) && s'.running == s.running && s'.queued == s.queued && s'.reported == s.reported
    ensures Behind(s', m)
  {}

  lemma StopIsOver(s: Run, slots: nat)
    requires SlotInv(s.Stage(), slots) && s.stopped
    ensures s.pc.Over?
  {}

  // ---------- All tests side by side ----------

  lemma {:induction false} StartAll(s: Run, tests: seq<Test>, mutations: seq<u32>, slots: Slots)
    requires Ready(s, tests, mutations, slots) && |s.running| + |s.queued| <= slots.In(s)
    ensures var last := s.(queued := [], running := s.running + s.queued);
      Ready(last, tests, mutations, slots) && Leads(s, last, mutations, false, slots)
    decreases |s.queued|
  {
    hide IsReady, Leads;
    if s.queued == [] {
      assert s.running + [] == s.running;
      LeadsNowhere(s, mutations, false, slots);
    } else {
      StartLeads(s, tests, mutations, false, slots);
      StartAll(AfterStart(s), tests, mutations, slots);
      assert s.running + [s.queued[0]] + s.queued[1..] == s.running + s.queued;
      LeadsFurther(s, AfterStart(s), s.(queued := [], running := s.running + s.queued), mutations, false, slots);
    }
  }

  predicate IsDecided(results: Results, m: u32) {
    m in results && results[m].result in {Detected, TimedOut}
  }

  function Open(results: Results, mutations: seq<u32>): set<u32> {
    set m <- mutations | !IsDecided(results, m)
  }

  /** Each mutation that is not decided yet has a running test that decides it. */
  predicate AllDecidable(s: Run, mutations: seq<u32>) {
    forall m <- Open(s.results, mutations) :: exists t <- s.running :: Decides(t, m)
  }

  lemma NoneOpen(results: Results, mutations: seq<u32>)
    requires forall m :: m in results <==> m in mutations
    ensures AllDecided(results) <==> Open(results, mutations) == {}
  {
    if AllDecided(results) {
      forall m <- mutations
        ensures IsDecided(results, m)
      {
        assert m in results;
      }
    }
    if Open(results, mutations) == {} {
      forall m <- results
        ensures IsDecided(results, m)
      {
        assert m !in Open(results, mutations);
      }
    }
  }

  lemma NextOpen(s: Run, mutations: seq<u32>) returns (next: u32, i: nat)
    requires AllDecidable(s, mutations) && Open(s.results, mutations) != {}
    ensures next in Open(s.results, mutations) && next in mutations && i < |s.running| && Decides(s.running[i], next)
  {
    next :| next in Open(s.results, mutations);
    var t :| t in s.running && Decides(t, next);
    i :| 0 <= i < |s.running| && s.running[i] == t;
  }

  lemma ReportDecides(s: Run, i: nat, tests: seq<Test>, mutations: seq<u32>, m: u32)
    requires OneEach(tests, mutations) && Inv(s, tests, mutations, false) && m in mutations
    requires i < |s.running| && Decides(s.running[i], m) && AllDecidable(s, mutations)
    ensures Reaches(s.running[i], mutations) && MutationOf(mutations, s.running[i]) == m && m in s.results
    ensures var s' := AfterReport(s, i, mutations, false, Filling, 0);
      && Open(s'.results, mutations) == Open(s.results, mutations) - {m}
      && AllDecidable(s', mutations)
      && (s'.stopped <==> Open(s'.results, mutations) == {})
  {
    var test := s.running[i];
    RunningReach(s, i, tests, mutations, false);
    ReachesOnly(test, tests, mutations, m);
    hide OneEach, Recorded, Open, Without, AllDecided;
    RecordedCloses(s.results, mutations, m, test);
    hide Inv;
    OthersStayDecidable(s, i, tests, mutations, m);
  }

  /** A test that decides a mutation closes it, and leaves the others as they are. */
  lemma RecordedCloses(results: Results, mutations: seq<u32>, m: u32, test: Test)
    requires (forall m' :: m' in results <==> m' in mutations) && m in mutations && Decides(test, m)
    ensures var results' := Recorded(results, m, test);
      && Open(results', mutations) == Open(results, mutations) - {m}
      && (AllDecided(results') <==> Open(results', mutations) == {})
  {
    hide AllDecided;
    var results' := Recorded(results, m, test);
    assert (forall m' :: m' in results' <==> m' in mutations) && IsDecided(results', m);
    NoneOpen(results', mutations);
  }

  lemma OthersStayDecidable(s: Run, i: nat, tests: seq<Test>, mutations: seq<u32>, m: u32)
    requires OneEach(tests, mutations) && i < |s.running| && s.running[i] in tests
    requires m in mutations && Decides(s.running[i], m) && AllDecidable(s, mutations)
    ensures forall m' <- Open(s.results, mutations) - {m} :: exists t <- s.running[..i] + s.running[i + 1..] :: Decides(t, m')
  {
    hide OneEach;
    forall m' <- Open(s.results, mutations) - {m}
      ensures exists t <- s.running[..i] + s.running[i + 1..] :: Decides(t, m')
    {
      var t :| t in s.running && Decides(t, m');
      StillRunning(s.running, i, t);
      if m' in s.running[i].reaches {
        ReachesOnly(s.running[i], tests, mutations, m);
        ReachesOnly(s.running[i], tests, mutations, m');
      }
    }
  }

  /** Reports one test of each mutation that is not decided, until all are. */
  lemma {:induction false} DecideAll(s: Run, i: nat, tests: seq<Test>, mutations: seq<u32>, slots: Slots, m: u32, next: u32)
    returns (last: Run)
    requires Ready(s, tests, mutations, slots) && m in mutations && next in mutations
    requires s.queued == [] && AllDecidable(s, mutations) && !SomeFails(s.reported, m)
    requires i < |s.running| && Decides(s.running[i], next) && (next == m ==> s.running[i].outcome == Timeout)
    requires next in Open(s.results, mutations) && (next != m ==> m !in Open(s.results, mutations))
    ensures StageEnds(s, last, tests, mutations, slots) && last.stopped && !SomeFails(last.reported, m)
    decreases |Open(s.results, mutations)|
  {
    hide Inv, OneEach, SlotInv, Leads, SomeFails, Decides, AllDecidable, Open, Without, MutationOf, Recorded, AllDecided;
    var s' := ReportLeads(s, i, tests, mutations, false, slots);
    ReportDecides(s, i, tests, mutations, next);
    NothingWithout(MutationOf(mutations, s.running[i]));
    assert s'.queued == [] && s'.later == s.later && s'.reported == s.reported + [s.running[i]];
    NoneFailed(s, i, tests, mutations, m, next);
    if s'.stopped {
      last := s';
      StopIsOver(s', slots.In(s'));
    } else {
      var next', i' := NextOpen(s', mutations);
      last := DecideAll(s', i', tests, mutations, slots, m, next');
      LeadsFurther(s, s', last, mutations, false, slots);
    }
  }

  lemma NoneFailed(s: Run, i: nat, tests: seq<Test>, mutations: seq<u32>, m: u32, next: u32)
    requires OneEach(tests, mutations) && Inv(s, tests, mutations, false) && m in mutations && next in mutations
    requires i < |s.running| && Decides(s.running[i], next) && (next == m ==> s.running[i].outcome == Timeout)
    requires !SomeFails(s.reported, m)
    ensures !SomeFails(s.reported + [s.running[i]], m)
  {
    var test := s.running[i];
    RunningReach(s, i, tests, mutations, false);
    MutationIs(test, tests, mutations, m);
    MutationIs(test, tests, mutations, next);
    hide Inv, OneEach, MutationOf, Reaches;
    assert forall t :: t in s.reported + [test] <==> t in s.reported || t == test;
  }

  /** Starts all tests of a stage that is about to begin, then reports a timeout of this mutation first. */
  lemma StartAndDecide(s: Run, tests: seq<Test>, mutations: seq<u32>, slots: Slots, m: u32, slow: Test) returns (last: Run)
    requires Ready(s, tests, mutations, slots) && m in mutations
    requires s.running == [] && |s.queued| <= slots.In(s) && !SomeFails(s.reported, m)
    requires slow in s.queued && Decides(slow, m) && slow.outcome == Timeout && m in Open(s.results, mutations)
    requires forall m' <- Open(s.results, mutations) :: exists t <- s.queued :: Decides(t, m')
    ensures StageEnds(s, last, tests, mutations, slots) && last.stopped && !SomeFails(last.reported, m)
  {
    hide IsReady, Leads, SomeFails, Decides, Open;
    StartAll(s, tests, mutations, slots);
    var started := s.(queued := [], running := s.running + s.queued);
    assert started.running == s.queued && AllDecidable(started, mutations);
    var i :| 0 <= i < |started.running| && started.running[i] == slow;
    last := DecideAll(started, i, tests, mutations, slots, m, m);
    LeadsFurther(s, started, last, mutations, false, slots);
  }
}
