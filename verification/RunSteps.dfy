/** Parts of runs to build whole ones from: a test that starts, one that reports, a stage that runs out. */
module RunSteps {
  import opened Collections
  import opened Integers
  import opened TestRunner
  import opened VerdictFold

  /** A state between two rounds of the loop, in which every step may start. */
  ghost predicate IsReady(s: Run, tests: seq<Test>, mutations: seq<u32>, exhaustive: bool, slots: Slots) {
    && OneEach(tests, mutations) && slots.Valid()
    && Inv(s, tests, mutations, exhaustive) && SlotInv(s.Stage(), slots.In(s)) && s.pc.Filling?
  }

  lemma BeginIsReady(tests: seq<Test>, mutations: seq<u32>, exhaustive: bool, slots: Slots)
    requires OneEach(tests, mutations) && slots.Valid()
    ensures IsReady(Beginning(tests, mutations), tests, mutations, exhaustive, slots)
  {
    BeginHolds(tests, mutations, exhaustive, slots);
  }

  function AfterStart(s: Run): Run
    requires s.queued != []
  {
    s.(queued := s.queued[1..], running := s.running + [s.queued[0]])
  }

  lemma StartLeads(s: Run, tests: seq<Test>, mutations: seq<u32>, exhaustive: bool, slots: Slots)
    requires IsReady(s, tests, mutations, exhaustive, slots) && s.queued != [] && |s.running| < slots.In(s)
    ensures IsReady(AfterStart(s), tests, mutations, exhaustive, slots) && Leads(s, AfterStart(s), mutations, exhaustive, slots)
  {
    hide Inv, OneEach, SlotInv, Leads;
    var s' := AfterStart(s);
    assert Goes(s, s', slots);
    NextKeeps(s, s', tests, mutations, exhaustive, slots);
    NextLeads(s, s', mutations, exhaustive, slots);
  }

  /** The slots are full, or all tests run that are left. */
  lemma FillLeads(s: Run, tests: seq<Test>, mutations: seq<u32>, exhaustive: bool, slots: Slots) returns (s': Run)
    requires IsReady(s, tests, mutations, exhaustive, slots) && (s.queued == [] || |s.running| >= slots.In(s))
    ensures s' == s.(pc := if s.running == [] then Over else Expiring, expired := 0)
    ensures Inv(s', tests, mutations, exhaustive) && SlotInv(s'.Stage(), slots.In(s')) && Leads(s, s', mutations, exhaustive, slots)
  {
    hide Inv, OneEach, SlotInv, Leads;
    s' := s.(pc := if s.running == [] then Over else Expiring, expired := 0);
    assert Goes(s, s', slots);
    NextKeeps(s, s', tests, mutations, exhaustive, slots);
    NextLeads(s, s', mutations, exhaustive, slots);
  }

  /** The results, the queue and the running tests after a report. */
  function AfterReport(s: Run, i: nat, mutations: seq<u32>, exhaustive: bool, pc: Pc, expired: nat): Run
    requires i < |s.running| && Reaches(s.running[i], mutations) && MutationOf(mutations, s.running[i]) in s.results
  {
    var test := s.running[i];
    var m := MutationOf(mutations, test);
    var results := Recorded(s.results, m, test);
    var effect := EffectOf(results, m, test.outcome, exhaustive);
    Run(Dropped(s.queued, effect), s.running[..i] + s.running[i + 1..], s.later, effect.stops, results, s.reported + [test],
        if effect.stops then Over else pc, expired)
  }

  lemma RunningReach(s: Run, i: nat, tests: seq<Test>, mutations: seq<u32>, exhaustive: bool)
    requires OneEach(tests, mutations) && Inv(s, tests, mutations, exhaustive) && i < |s.running|
    ensures s.running[i] in tests && Reaches(s.running[i], mutations) && MutationOf(mutations, s.running[i]) in s.results
  {
    assert Known(s, s.running[i]);
  }

  /** The test ends by itself, with no other test given up before it. */
  lemma ReportLeads(s: Run, i: nat, tests: seq<Test>, mutations: seq<u32>, exhaustive: bool, slots: Slots) returns (s': Run)
    requires IsReady(s, tests, mutations, exhaustive, slots)
    requires i < |s.running| && (s.queued == [] || |s.running| >= slots.In(s))
    ensures Reaches(s.running[i], mutations) && MutationOf(mutations, s.running[i]) in s.results
    ensures s' == AfterReport(s, i, mutations, exhaustive, Filling, 0) && Leads(s, s', mutations, exhaustive, slots)
    ensures !s'.stopped ==> IsReady(s', tests, mutations, exhaustive, slots)
    ensures Inv(s', tests, mutations, exhaustive) && SlotInv(s'.Stage(), slots.In(s'))
  {
    RunningReach(s, i, tests, mutations, exhaustive);
    hide Inv, OneEach, SlotInv, Leads, Without, Recorded, MutationOf, Reaches, AllDecided;
    var filled := FillLeads(s, tests, mutations, exhaustive, slots);
    var waiting := filled.(pc := Waiting);
    assert Goes(filled, waiting, slots);
    NextKeeps(filled, waiting, tests, mutations, exhaustive, slots);
    NextLeads(filled, waiting, mutations, exhaustive, slots);
    LeadsFurther(s, filled, waiting, mutations, exhaustive, slots);
    s' := AfterReport(s, i, mutations, exhaustive, Filling, 0);
    assert ReportsTest(waiting, s', i, mutations, exhaustive);
    NextKeeps(waiting, s', tests, mutations, exhaustive, slots);
    NextLeads(waiting, s', mutations, exhaustive, slots);
    LeadsFurther(s, waiting, s', mutations, exhaustive, slots);
  }

  lemma MoveLeads(s: Run, tests: seq<Test>, mutations: seq<u32>, exhaustive: bool, slots: Slots)
    requires OneEach(tests, mutations) && slots.Valid() && s.pc.Over? && s.later.Some?
    requires Inv(s, tests, mutations, exhaustive) && SlotInv(s.Stage(), slots.In(s))
    ensures var s' := Moved(s, mutations, exhaustive);
      IsReady(s', tests, mutations, exhaustive, slots) && Leads(s, s', mutations, exhaustive, slots)
  {
    hide Inv, OneEach, SlotInv, Leads;
    var s' := Moved(s, mutations, exhaustive);
    NextKeeps(s, s', tests, mutations, exhaustive, slots);
    NextLeads(s, s', mutations, exhaustive, slots);
  }

  lemma {:induction false} WithoutSize(queue: seq<Test>, m: u32)
    ensures |Without(queue, m)| <= |queue|
  {
    if queue != [] {
      WithoutSize(queue[..|queue| - 1], m);
    }
  }

  /** No test of this state is new. */
  ghost predicate HasOnly(s: Run, before: Run) {
    forall t: Test | t in s.reported || t in s.running || t in s.queued :: t in before.reported || t in before.running || t in before.queued
  }

  function Left(s: Run): nat {
    2 * |s.queued| + |s.running|
  }

  /** The next test starts, or the first that runs reports. */
  lemma RoundLeads(s: Run, tests: seq<Test>, mutations: seq<u32>, exhaustive: bool, slots: Slots) returns (s': Run)
    requires IsReady(s, tests, mutations, exhaustive, slots) && !(s.queued == s.running == [])
    ensures Leads(s, s', mutations, exhaustive, slots) && s'.later == s.later && HasOnly(s', s) && Left(s') < Left(s)
    ensures s.reported <= s'.reported
    ensures Inv(s', tests, mutations, exhaustive) && SlotInv(s'.Stage(), slots.In(s'))
    ensures if s'.stopped then s'.pc.Over? else IsReady(s', tests, mutations, exhaustive, slots)
  {
    hide Inv, OneEach, Count, Leads, Recorded, AllDecided, Without, MutationOf, Reaches;
    if s.queued != [] && |s.running| < slots.In(s) {
      s' := AfterStart(s);
      StartLeads(s, tests, mutations, exhaustive, slots);
      assert s.queued == [s.queued[0]] + s.queued[1..];
    } else {
      s' := ReportLeads(s, 0, tests, mutations, exhaustive, slots);
      var m := MutationOf(mutations, s.running[0]);
      WithoutSize(s.queued, m);
      forall t: Test
        ensures t in Without(s.queued, m) ==> t in s.queued
        ensures t in s'.running ==> t in s.running
      {
        WithoutKeeps(s.queued, m, t);
        StillRunning(s.running, 0, t);
      }
    }
  }

  /** Runs a stage to its end, with no test given up. */
  lemma {:induction false} RunOut(s: Run, tests: seq<Test>, mutations: seq<u32>, exhaustive: bool, slots: Slots) returns (last: Run)
    requires IsReady(s, tests, mutations, exhaustive, slots)
    ensures Leads(s, last, mutations, exhaustive, slots) && last.later == s.later && HasOnly(last, s) && s.reported <= last.reported
    ensures Inv(last, tests, mutations, exhaustive) && SlotInv(last.Stage(), slots.In(last))
    ensures last.pc.Over? && (last.stopped || last.queued == last.running == [])
    decreases Left(s)
  {
    hide Inv, OneEach, SlotInv, Leads, IsReady;
    if s.queued == s.running == [] {
      last := FillLeads(s, tests, mutations, exhaustive, slots);
    } else {
      var s' := RoundLeads(s, tests, mutations, exhaustive, slots);
      last := s';
      if !s'.stopped {
        last := RunOut(s', tests, mutations, exhaustive, slots);
        LeadsFurther(s, s', last, mutations, exhaustive, slots);
      }
    }
  }
}
