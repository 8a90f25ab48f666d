/** A first stage that holds the timeouts of one mutation back until they take all slots, and is given up with them. */
module EarlyGiveUp {
  import opened Collections
  import opened Integers
  import opened TestRunner
  import opened VerdictFold
  import opened RunSteps
  import opened FullRun
  import opened EarlyStop
  import opened EarlyDetect
  import opened EarlyRuns

  /** The tests up to the last one of the crew that is given up, the mutation of the crew, and one that none of them decides. */
  datatype Plan = Plan(tests: seq<Test>, mutations: seq<u32>, slots: Slots, k: nat, other: u32, m: u32) {
    function Here(): seq<Test> {
      InProcess(tests)
    }

    predicate InQueue() {
      k < |Here()|
    }

    function Part(): seq<Test>
      requires InQueue()
    {
      Here()[..k + 1]
    }

    function Last(): Test
      requires InQueue()
    {
      Here()[k]
    }

    function Crew(): seq<Test>
      requires InQueue()
    {
      Deciding(Part(), other)
    }

    ghost predicate Valid() {
      && OneEach(tests, mutations) && CrashesInChildren(tests) && slots.Valid()
      && other in mutations && m in mutations
      && k < FirstDecider(Here(), m) && InQueue() && MayEndAt(Here(), k, mutations) && other in Last().reaches
      && slots.here == |Crew()|
    }
  }

  // ---------- The crew ----------

  lemma {:induction false} DecidingDistinct(queue: seq<Test>, m: u32)
    requires Distinct(queue)
    ensures Distinct(Deciding(queue, m))
  {
    if queue != [] {
      var n := |queue| - 1;
      var rest, last := queue[..n], queue[n];
      assert queue == rest + [last];
      DecidingDistinct(rest, m);
      DecidingSnoc(rest, last, m);
      DecidingHas(rest, m, last);
      hide Deciding;
      assert last !in Deciding(rest, m);
    }
  }

  /** They all time out, and each test up to the last that decides their mutation is one of them. */
  lemma CrewTimesOut(plan: Plan)
    requires plan.Valid()
    ensures Distinct(plan.Crew()) && plan.Last() in plan.Crew()
    ensures forall t <- plan.Crew() :: t.outcome == Timeout && plan.other in t.reaches
    ensures forall t <- plan.Part() | Decides(t, plan.other) :: t in plan.Crew()
  {
    var here := plan.Here();
    InChildDistinct(plan.tests, plan.mutations, false);
    DecidingDistinct(plan.Part(), plan.other);
    forall t: Test
      ensures t in plan.Crew() <==> t in plan.Part() && Decides(t, plan.other)
    {
      DecidingHas(plan.Part(), plan.other, t);
    }
    forall t <- plan.Crew()
      ensures t.outcome == Timeout
    {
      var j :| 0 <= j < |plan.Part()| && plan.Part()[j] == t;
      assert here[j] == t && (j < plan.k || t == plan.Last());
      assert plan.other in plan.mutations && plan.other in t.reaches && plan.other in plan.Last().reaches;
      if t.outcome == Failed {
        assert SameMutation(t, plan.Last(), plan.mutations);
      }
    }
    assert plan.Part()[plan.k] == plan.Last();
  }

  lemma SubsetSame<T>(a: set<T>, b: set<T>)
    requires a <= b && |b| <= |a|
    ensures a == b
  {
    assert b == a + (b - a);
  }

  /** So many distinct tests that hold the whole crew are the crew. */
  lemma CrewIsAll(crew: seq<Test>, running: seq<Test>)
    requires Distinct(crew) && Distinct(running) && |running| <= |crew| && forall t <- crew :: t in running
    ensures (forall t <- running :: t in crew) && |running| == |crew|
  {
    ElementsSize(crew);
    ElementsSize(running);
    SubsetSame(Elements(crew), Elements(running));
    forall t <- running
      ensures t in crew
    {
      assert t in Elements(running);
    }
  }

  /** Without its last test, the crew does not take all slots. */
  lemma OneIsFree(crew: seq<Test>, running: seq<Test>, last: Test) returns (i: nat)
    requires Distinct(crew) && Distinct(running) && |running| >= |crew| && last in crew && last !in running
    ensures i < |running| && running[i] !in crew
  {
    if forall t <- running :: t in crew {
      ElementsSize(crew);
      ElementsSize(running);
      SubsetSize(Elements(running) + {last}, Elements(crew));
    }
    var t :| t in running && t !in crew;
    i :| 0 <= i < |running| && running[i] == t;
  }

  // ---------- Holding back ----------

  /** The last of the crew is queued between these; the others run, or are queued before it. */
  predicate HoldsBack(plan: Plan, s: Run, front: seq<Test>, back: seq<Test>)
    requires plan.InQueue()
  {
    && s.queued == front + [plan.Last()] + back
    && Distinct(s.running + s.queued)
    && (forall t <- plan.Crew() :: t == plan.Last() || t in front || t in s.running)
    && (forall t <- front :: t in plan.Part()) && (forall t <- s.running :: t in plan.Part())
    && (forall t <- s.reported :: t in plan.Part())
  }

  lemma PartDecidesNot(plan: Plan, reported: seq<Test>)
    requires plan.Valid() && forall t <- reported :: t in plan.Part()
    ensures Deciding(reported, plan.m) == []
  {
    PartIsOpen(plan);
    hide Plan.Valid, Decides;
    if Deciding(reported, plan.m) != [] {
      DecidingHas(reported, plan.m, Deciding(reported, plan.m)[0]);
    }
  }

  lemma PartIsOpen(plan: Plan)
    requires plan.Valid()
    ensures forall t <- plan.Part() :: !Decides(t, plan.m)
  {
    forall t <- plan.Part()
      ensures !Decides(t, plan.m)
    {
      var j :| 0 <= j < |plan.Part()| && plan.Part()[j] == t;
      assert plan.Here()[j] == t;
    }
  }

  /** As none of these tests decides the mutation, the stage does not stop. */
  lemma NotStopped(plan: Plan, s: Run)
    requires plan.Valid() && Inv(s, plan.tests, plan.mutations, false) && s.later.Some?
    requires forall t <- s.reported :: t in plan.Part()
    ensures !s.stopped && IsUndetected(s, plan.m)
  {
    hide OneEach, Inv, Deciding, MayEndAt, CrashesInChildren;
    PartDecidesNot(plan, s.reported);
    StillUndetected(s, plan.tests, plan.mutations, plan.m);
  }

  lemma {:induction false} WithoutAppend(a: seq<Test>, b: seq<Test>, m: u32)
    ensures Without(a + b, m) == Without(a, m) + Without(b, m)
  {
    if b == [] {
      assert a + b == a;
    } else {
      var n := |b| - 1;
      WithoutAppend(a, b[..n], m);
      assert (a + b)[..|a| + n] == a + b[..n];
      var last := if m in b[n].reaches then [] else [b[n]];
      hide Without;
      Associative(Without(a, m), Without(b[..n], m), last);
    }
  }

  lemma {:induction false} WithoutDistinct(a: seq<Test>, queue: seq<Test>, m: u32)
    requires Distinct(a + queue)
    ensures Distinct(a + Without(queue, m))
  {
    if queue != [] {
      var n := |queue| - 1;
      assert a + queue == a + queue[..n] + [queue[n]];
      assert (a + queue)[..|a| + n] == a + queue[..n];
      WithoutDistinct(a, queue[..n], m);
      WithoutKeeps(queue[..n], m, queue[n]);
      WithoutSnoc(queue[..n], queue[n], m);
      assert queue[..n] + [queue[n]] == queue;
      var rest := Without(queue[..n], m);
      assert a + (rest + [queue[n]]) == a + rest + [queue[n]];
      hide Without;
      NotAmong(a, queue[..n], rest, queue[n], m);
    }
  }

  lemma NotAmong(a: seq<Test>, queue: seq<Test>, rest: seq<Test>, last: Test, m: u32)
    requires Distinct(a + queue + [last]) && Distinct(a + rest) && rest == Without(queue, m)
    ensures Distinct(a + rest + [last])
  {
    forall i | 0 <= i < |a + rest|
      ensures (a + rest)[i] != last
    {
      if i >= |a| {
        var t := rest[i - |a|];
        WithoutKeeps(queue, m, t);
        assert t in queue;
        var j :| 0 <= j < |queue| && queue[j] == t;
        assert (a + queue + [last])[|a| + j] == t && (a + queue + [last])[|a + queue|] == last;
      } else {
        assert (a + queue + [last])[i] == (a + rest)[i] && (a + queue + [last])[|a + queue|] == last;
      }
    }
  }

  lemma RemoveDistinct(running: seq<Test>, queue: seq<Test>, i: nat)
    requires Distinct(running + queue) && i < |running|
    ensures Distinct(running[..i] + running[i + 1..] + queue)
  {
    var all, rest := running + queue, running[..i] + running[i + 1..] + queue;
    assert forall j | 0 <= j < |rest| :: rest[j] == all[if j < i then j else j + 1];
  }

  /** What a report of a test that is no member of the crew leaves of the queue. */
  lemma QueueSplits(plan: Plan, front: seq<Test>, back: seq<Test>, m: u32)
    requires plan.Valid() && m in plan.mutations && m != plan.other
    ensures Without(front + [plan.Last()] + back, m) == Without(front, m) + [plan.Last()] + Without(back, m)
  {
    var last := plan.Last();
    InChildKeeps(plan.tests, false, last);
    ReachesNoOther(last, plan.tests, plan.mutations, plan.other, m);
    WithoutAppend(front + [last], back, m);
    WithoutSnoc(front, last, m);
  }

  lemma OtherMutation(plan: Plan, x: Test, m: u32)
    requires plan.Valid() && x in plan.Part() && x !in plan.Crew() && EndsMutation(x.outcome) && m in x.reaches
    ensures m != plan.other
  {
    DecidingHas(plan.Part(), plan.other, x);
  }

  /** A member of the crew is not dropped with another mutation. */
  lemma CrewIsKept(plan: Plan, t: Test, m: u32)
    requires plan.Valid() && t in plan.Crew() && m in plan.mutations && m != plan.other
    ensures m !in t.reaches
  {
    DecidingHas(plan.Part(), plan.other, t);
    InChildKeeps(plan.tests, false, t);
    assert t in plan.Here();
    ReachesNoOther(t, plan.tests, plan.mutations, plan.other, m);
  }

  /** A test that is no member of the crew reports, and leaves the crew as it is. */
  lemma ReportHolds(plan: Plan, s: Run, s': Run, i: nat, front: seq<Test>, back: seq<Test>, m: u32)
    returns (front': seq<Test>, back': seq<Test>)
    requires plan.Valid() && HoldsBack(plan, s, front, back)
    requires i < |s.running| && s.running[i] !in plan.Crew() && m in plan.mutations && m in s.running[i].reaches
    requires s'.running == s.running[..i] + s.running[i + 1..] && s'.reported == s.reported + [s.running[i]]
    requires s'.queued == if EndsMutation(s.running[i].outcome) then Without(s.queued, m) else s.queued
    ensures HoldsBack(plan, s', front', back')
  {
    var x := s.running[i];
    front', back' := front, back;
    RemoveDistinct(s.running, s.queued, i);
    if EndsMutation(x.outcome) {
      OtherMutation(plan, x, m);
      front', back' := Without(front, m), Without(back, m);
      QueueSplits(plan, front, back, m);
      WithoutDistinct(s'.running, s.queued, m);
    }
    forall t: Test
      ensures t in s.running <==> t == x || t in s'.running
      ensures t in front' ==> t in front
      ensures t in front && t in plan.Crew() ==> t in front'
    {
      StillRunning(s.running, i, t);
      WithoutKeeps(front, m, t);
      if EndsMutation(x.outcome) && t in plan.Crew() {
        CrewIsKept(plan, t, m);
      }
    }
    hide Plan.Valid, Distinct, Without, Deciding;
  }

  /** The next test starts that is queued before the last of the crew. */
  lemma StartHolds(plan: Plan, s: Run, s': Run, front: seq<Test>, back: seq<Test>)
    requires plan.Valid() && HoldsBack(plan, s, front, back) && front != []
    requires s'.queued == s.queued[1..] && s'.running == s.running + [s.queued[0]] && s'.reported == s.reported
    ensures HoldsBack(plan, s', front[1..], back)
  {
    var last := plan.Last();
    assert s.queued[0] == front[0] && s.queued[1..] == front[1..] + [last] + back;
    assert s'.running + s'.queued == s.running + s.queued;
    assert front == [front[0]] + front[1..];
    hide Plan.Valid, Deciding, Distinct;
  }

  /** The last of the crew starts, and the crew takes all slots. */
  lemma CrewStarts(plan: Plan, s: Run, s': Run, back: seq<Test>)
    requires plan.Valid() && HoldsBack(plan, s, [], back) && |s'.running| <= plan.slots.here
    requires s'.running == s.running + [s.queued[0]]
    ensures |s'.running| == plan.slots.here && plan.Last() in s'.running
    ensures forall t <- s'.running :: t in plan.Part() && t.outcome == Timeout && plan.other in t.reaches
  {
    CrewTimesOut(plan);
    assert s.queued[0] == plan.Last();
    assert s'.running == (s.running + s.queued)[..|s'.running|];
    CrewIsAll(plan.Crew(), s'.running);
    forall t <- s'.running
      ensures t in plan.Part()
    {
      DecidingHas(plan.Part(), plan.other, t);
    }
  }

  // ---------- Giving up ----------

  /** All running tests are given up, one after the other. */
  lemma {:induction false} ExpireCrew(plan: Plan, s: Run) returns (last: Run)
    requires plan.Valid() && Inv(s, plan.tests, plan.mutations, false) && SlotInv(s.Stage(), plan.slots.here)
    requires s.pc.Expiring? && s.later.Some?
    requires forall t <- s.running :: t in plan.Part() && t.outcome == Timeout
    requires forall t <- s.reported :: t in plan.Part()
    ensures StageEnds(s, last, plan.tests, plan.mutations, plan.slots) && !last.stopped
    ensures (forall t <- last.reported :: t in plan.Part()) && (forall t <- s.running :: t in last.reported)
    ensures forall t <- s.reported :: t in last.reported
    decreases |s.running|
  {
    hide OneEach, Inv, SlotInv, Leads, Deciding, MayEndAt, CrashesInChildren, InChild, Recorded, AllDecided, Without, FirstDecider;
    hide MutationOf, Reaches;
    if s.running == [] {
      last := s.(pc := Over);
      assert Goes(s, last, plan.slots);
      NextKeeps(s, last, plan.tests, plan.mutations, false, plan.slots);
      NextLeads(s, last, plan.mutations, false, plan.slots);
      NotStopped(plan, last);
    } else {
      var s' := ExpireOne(plan, s);
      last := ExpireCrew(plan, s');
      LeadsFurther(s, s', last, plan.mutations, false, plan.slots);
      assert s.running == [s.running[0]] + s'.running;
    }
  }

  lemma ExpireIsStep(s: Run, mutations: seq<u32>)
    requires s.pc.Expiring? && s.later.Some? && s.running != [] && s.running[0].outcome == Timeout
    requires Reaches(s.running[0], mutations) && MutationOf(mutations, s.running[0]) in s.results
    ensures ReportsTest(s, AfterReport(s, 0, mutations, false, Expiring, s.expired + 1), 0, mutations, false)
  {
    hide Without, Recorded, AllDecided, MutationOf, Reaches;
  }

  lemma ExpireOne(plan: Plan, s: Run) returns (s': Run)
    requires plan.Valid() && Inv(s, plan.tests, plan.mutations, false) && SlotInv(s.Stage(), plan.slots.here)
    requires s.pc.Expiring? && s.later.Some? && s.running != []
    requires forall t <- s.running :: t in plan.Part() && t.outcome == Timeout
    requires forall t <- s.reported :: t in plan.Part()
    ensures s'.running == s.running[1..] && s'.reported == s.reported + [s.running[0]] && s'.pc.Expiring? && s'.later == s.later
    ensures Leads(s, s', plan.mutations, false, plan.slots)
    ensures Inv(s', plan.tests, plan.mutations, false) && SlotInv(s'.Stage(), plan.slots.here)
  {
    RunningReach(s, 0, plan.tests, plan.mutations, false);
    hide OneEach, Inv, SlotInv, Leads, Deciding, MayEndAt, CrashesInChildren, InChild, Recorded, AllDecided, Without, FirstDecider;
    hide MutationOf, Reaches;
    ExpireIsStep(s, plan.mutations);
    s' := AfterReport(s, 0, plan.mutations, false, Expiring, s.expired + 1);
    hide ReportsTest;
    NextKeeps(s, s', plan.tests, plan.mutations, false, plan.slots);
    NextLeads(s, s', plan.mutations, false, plan.slots);
    assert s.running[..0] + s.running[1..] == s.running[1..];
    NotStopped(plan, s');
  }

  lemma QueueHasLast(plan: Plan, s: Run, front: seq<Test>, back: seq<Test>)
    requires plan.InQueue() && HoldsBack(plan, s, front, back)
    ensures s.queued != [] && forall t <- s.reported :: t in plan.Part()
    ensures front == [] ==> HoldsBack(plan, s, [], back)
  {}

  /** The whole crew runs, so the slots are full, and it is given up. */
  lemma GiveUpCrew(plan: Plan, s: Run) returns (last: Run)
    requires plan.Valid() && Ready(s, plan.tests, plan.mutations, plan.slots) && s.later.Some?
    requires |s.running| == plan.slots.here && s.running != []
    requires forall t <- s.running :: t in plan.Part() && t.outcome == Timeout
    requires forall t <- s.reported :: t in plan.Part()
    ensures StageEnds(s, last, plan.tests, plan.mutations, plan.slots) && !last.stopped
    ensures (forall t <- last.reported :: t in plan.Part()) && (forall t <- s.running :: t in last.reported)
  {
    hide Plan.Valid, OneEach, Inv, SlotInv, Leads;
    var filled := FillLeads(s, plan.tests, plan.mutations, false, plan.slots);
    last := ExpireCrew(plan, filled);
    LeadsFurther(s, filled, last, plan.mutations, false, plan.slots);
  }

  /** With all slots taken, a test that is no member of the crew reports. */
  lemma HoldRound(plan: Plan, s: Run, front: seq<Test>, back: seq<Test>) returns (s': Run, front': seq<Test>, back': seq<Test>)
    requires plan.Valid() && Ready(s, plan.tests, plan.mutations, plan.slots) && s.later.Some? && HoldsBack(plan, s, front, back)
    requires |s.running| >= plan.slots.here
    ensures Ready(s', plan.tests, plan.mutations, plan.slots) && Leads(s, s', plan.mutations, false, plan.slots)
    ensures s'.later == s.later && HoldsBack(plan, s', front', back') && Left(s') < Left(s)
  {
    CrewTimesOut(plan);
    LastIsQueued(plan, s, front, back);
    hide Plan.Valid, OneEach, Inv, SlotInv, Leads, HoldsBack, Deciding, InChild, Recorded, AllDecided, Without, MutationOf, Reaches, Distinct;
    var i := HoldOne(plan, s);
    s' := ReportLeads(s, i, plan.tests, plan.mutations, false, plan.slots);
    var m := MutationOf(plan.mutations, s.running[i]);
    WithoutSize(s.queued, m);
    front', back' := ReportHolds(plan, s, s', i, front, back, m);
    ReportedInPart(plan, s', front', back');
    NotStopped(plan, s');
  }

  lemma HoldOne(plan: Plan, s: Run) returns (i: nat)
    requires plan.InQueue() && Distinct(plan.Crew()) && Distinct(s.running) && |s.running| >= |plan.Crew()|
    requires plan.Last() in plan.Crew() && plan.Last() !in s.running
    ensures i < |s.running| && s.running[i] !in plan.Crew()
  {
    i := OneIsFree(plan.Crew(), s.running, plan.Last());
  }

  lemma LastIsQueued(plan: Plan, s: Run, front: seq<Test>, back: seq<Test>)
    requires plan.Valid() && HoldsBack(plan, s, front, back) && |s.running| >= plan.slots.here
    ensures plan.Last() !in s.running && Distinct(s.running) && |s.running| >= |plan.Crew()|
  {
    hide OneEach, Deciding, InChild, MayEndAt;
    assert s.queued[|front|] == plan.Last();
    NotInBoth(s.running, s.queued, plan.Last());
  }

  lemma NotInBoth(running: seq<Test>, queue: seq<Test>, t: Test)
    requires Distinct(running + queue) && t in queue
    ensures t !in running && Distinct(running)
  {
    var all := running + queue;
    var j :| 0 <= j < |queue| && queue[j] == t;
    assert all[|running| + j] == t && all[..|running|] == running;
    forall i | 0 <= i < |running|
      ensures running[i] != t
    {
      assert all[i] == running[i];
    }
  }

  lemma ReportedInPart(plan: Plan, s: Run, front: seq<Test>, back: seq<Test>)
    requires plan.InQueue() && HoldsBack(plan, s, front, back)
    ensures forall t <- s.reported :: t in plan.Part()
  {}

  /** From any state that holds the crew back, the stage comes to its end with the crew, and nothing behind it starts. */
  lemma {:induction false} GiveUp(plan: Plan, s: Run, front: seq<Test>, back: seq<Test>) returns (last: Run)
    requires plan.Valid() && Ready(s, plan.tests, plan.mutations, plan.slots) && s.later.Some? && HoldsBack(plan, s, front, back)
    ensures StageEnds(s, last, plan.tests, plan.mutations, plan.slots) && !last.stopped
    ensures (forall t <- last.reported :: t in plan.Part()) && plan.Last() in last.reported
    decreases Left(s)
  {
    hide OneEach, Inv, SlotInv, Leads, HoldsBack, Deciding, InChild, CrashesInChildren, FirstDecider, MayEndAt;
    if |s.running| < plan.slots.here {
      QueueHasLast(plan, s, front, back);
      StartLeads(s, plan.tests, plan.mutations, false, plan.slots);
      var s' := AfterStart(s);
      if front != [] {
        StartHolds(plan, s, s', front, back);
        last := GiveUp(plan, s', front[1..], back);
      } else {
        CrewStarts(plan, s, s', back);
        last := GiveUpCrew(plan, s');
      }
      LeadsFurther(s, s', last, plan.mutations, false, plan.slots);
    } else {
      var s', front', back';
      s', front', back' := HoldRound(plan, s, front, back);
      last := GiveUp(plan, s', front', back');
      LeadsFurther(s, s', last, plan.mutations, false, plan.slots);
    }
  }
}
