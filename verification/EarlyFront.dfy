/** How far the first stage of a run that stops early has come, and after which test it may end with tests in its queue. */
module EarlyFront {
  import opened Collections
  import opened Integers
  import opened TestRunner
  import opened VerdictFold
  import opened FullRun
  import opened EarlyStop

  // ---------- What is left of the queue ----------

  /** A report that decided its mutation dropped it from the queue. */
  predicate IsDropped(t: Test, reported: seq<Test>, mutations: seq<u32>) {
    exists x <- reported :: EndsMutation(x.outcome) && SameMutation(x, t, mutations)
  }

  function Still(queue: seq<Test>, reported: seq<Test>, mutations: seq<u32>): seq<Test> {
    if queue == [] then []
    else if IsDropped(queue[0], reported, mutations) then Still(queue[1..], reported, mutations)
    else [queue[0]] + Still(queue[1..], reported, mutations)
  }

  lemma {:induction false} StillHas(queue: seq<Test>, reported: seq<Test>, mutations: seq<u32>, t: Test)
    ensures t in Still(queue, reported, mutations) <==> t in queue && !IsDropped(t, reported, mutations)
  {
    hide IsDropped;
    if queue != [] {
      StillHas(queue[1..], reported, mutations, t);
      assert queue == [queue[0]] + queue[1..];
    }
  }

  lemma {:induction false} NoneDropped(queue: seq<Test>, mutations: seq<u32>)
    ensures Still(queue, [], mutations) == queue
  {
    if queue != [] {
      NoneDropped(queue[1..], mutations);
    }
  }

  lemma {:induction false} WithoutCons(first: Test, queue: seq<Test>, m: u32)
    ensures Without([first] + queue, m) == if m in first.reaches then Without(queue, m) else [first] + Without(queue, m)
  {
    WithoutSnoc([], first, m);
    if queue == [] {
      assert [] + [first] == [first] + queue == [first];
    } else {
      var n := |queue| - 1;
      var rest, last := queue[..n], queue[n];
      assert queue == rest + [last];
      WithoutCons(first, rest, m);
      WithoutSnoc(rest, last, m);
      WithoutSnoc([first] + rest, last, m);
      Associative([first], rest, [last]);
      hide Without;
      Associative([first], Without(rest, m), [last]);
    }
  }

  lemma SameAs(test: Test, t: Test, tests: seq<Test>, mutations: seq<u32>, m: u32)
    requires OneEach(tests, mutations) && test in tests && m in mutations && m in test.reaches
    ensures SameMutation(test, t, mutations) <==> m in t.reaches
  {
    if other :| other in mutations && other in test.reaches && other in t.reaches {
      ReachesOnly(test, tests, mutations, other);
      ReachesOnly(test, tests, mutations, m);
    }
  }

  lemma SameTransitive(a: Test, b: Test, c: Test, tests: seq<Test>, mutations: seq<u32>)
    requires OneEach(tests, mutations) && b in tests && SameMutation(a, b, mutations) && SameMutation(b, c, mutations)
    ensures SameMutation(a, c, mutations)
  {
    var m :| m in mutations && m in a.reaches && m in b.reaches;
    SameAs(b, c, tests, mutations, m);
  }

  lemma DroppedSnoc(t: Test, reported: seq<Test>, test: Test, mutations: seq<u32>)
    ensures IsDropped(t, reported + [test], mutations) <==>
      IsDropped(t, reported, mutations) || (EndsMutation(test.outcome) && SameMutation(test, t, mutations))
  {
    hide SameMutation;
    assert forall x :: x in reported + [test] <==> x in reported || x == test;
  }

  /** A report takes from the queue what it drops. */
  lemma {:induction false} StillReport(queue: seq<Test>, reported: seq<Test>, test: Test, tests: seq<Test>, mutations: seq<u32>, m: u32)
    requires OneEach(tests, mutations) && test in tests && m in mutations && m in test.reaches
    ensures Still(queue, reported + [test], mutations) ==
      if EndsMutation(test.outcome) then Without(Still(queue, reported, mutations), m) else Still(queue, reported, mutations)
  {
    hide OneEach, IsDropped, SameMutation;
    if queue != [] {
      StillReport(queue[1..], reported, test, tests, mutations, m);
      DroppedSnoc(queue[0], reported, test, mutations);
      SameAs(test, queue[0], tests, mutations, m);
      WithoutCons(queue[0], Still(queue[1..], reported, mutations), m);
      hide Without;
    }
  }

  /** The next test to start, and its place. */
  lemma {:induction false} StillHead(queue: seq<Test>, reported: seq<Test>, mutations: seq<u32>) returns (k: nat)
    requires Still(queue, reported, mutations) != []
    ensures k < |queue| && queue[k] == Still(queue, reported, mutations)[0] && !IsDropped(queue[k], reported, mutations)
    ensures Still(queue, reported, mutations)[1..] == Still(queue[k + 1..], reported, mutations)
    ensures forall j | 0 <= j < k :: IsDropped(queue[j], reported, mutations)
  {
    hide IsDropped;
    if IsDropped(queue[0], reported, mutations) {
      k := StillHead(queue[1..], reported, mutations);
      k := k + 1;
      assert queue[1..][k..] == queue[k + 1..];
    } else {
      k := 0;
    }
  }

  // ---------- The front ----------

  /** Of the test that started last: it runs, or is given up, and those before it that fail, of its mutation, run. */
  predicate LastHolds(s: Run, here: seq<Test>, mutations: seq<u32>, n: nat) {
    && 0 < n <= |here|
    && (here[n - 1] in s.running || here[n - 1].outcome == Timeout)
    && forall j | 0 <= j < n - 1 && here[j].outcome == Failed && SameMutation(here[j], here[n - 1], mutations) :: here[j] in s.running
  }

  /** The first `n` tests have started or were dropped; the others are still queued, unless they were dropped. */
  predicate Front(s: Run, here: seq<Test>, mutations: seq<u32>, n: nat) {
    && n <= |here| && s.queued == Still(here[n..], s.reported, mutations)
    && (forall t <- s.running :: t in here[..n]) && (forall t <- s.reported :: t in here[..n])
    && (forall j | 0 <= j < n :: here[j] in s.running || here[j] in s.reported || IsDropped(here[j], s.reported, mutations))
  }

  /** With tests queued, a slot gets free only by an end, which the next start follows, or by tests that are given up. */
  predicate Pace(s: Run, here: seq<Test>, mutations: seq<u32>, n: nat, slots: nat) {
    s.queued == [] || match s.pc
      case Filling => |s.running| < slots || LastHolds(s, here, mutations, n)
      case Expiring => LastHolds(s, here, mutations, n)
      case Waiting => LastHolds(s, here, mutations, n)
      case Over => s.stopped || (n > 0 && MayEndAt(here, n - 1, mutations))
  }

  /** What started of the tests that time out. */
  predicate TimeoutsFit(s: Run, here: seq<Test>, n: nat) {
    n <= |here| && Count(s.running, TIMES_OUT) + Count(s.reported, TIMES_OUT) <= Count(here[..n], TIMES_OUT)
  }

  predicate IsPaced(s: Run, here: seq<Test>, mutations: seq<u32>, n: nat, slots: nat) {
    Front(s, here, mutations, n) && Pace(s, here, mutations, n, slots) && TimeoutsFit(s, here, n)
  }

  lemma BeginIsPaced(tests: seq<Test>, mutations: seq<u32>, slots: nat)
    requires slots > 0
    ensures IsPaced(Beginning(tests, mutations), InProcess(tests), mutations, 0, slots)
  {
    NoneDropped(InProcess(tests), mutations);
    assert InProcess(tests)[0..] == InProcess(tests);
  }

  /** A test that fails before the one that starts now, and reaches its mutation, cannot have reported. */
  lemma EarlierRuns(s: Run, tests: seq<Test>, mutations: seq<u32>, n: nat, k: nat, j: nat)
    requires OneEach(tests, mutations) && Front(s, InProcess(tests), mutations, n) && n <= k < |InProcess(tests)|
    requires !IsDropped(InProcess(tests)[k], s.reported, mutations)
    requires forall i | n <= i < k :: IsDropped(InProcess(tests)[i], s.reported, mutations)
    requires j < k && InProcess(tests)[j].outcome == Failed && SameMutation(InProcess(tests)[j], InProcess(tests)[k], mutations)
    ensures InProcess(tests)[j] in s.running
  {
    hide OneEach, SameMutation, Still;
    var here := InProcess(tests);
    InChildKeeps(tests, false, here[j]);
    if IsDropped(here[j], s.reported, mutations) {
      var x :| x in s.reported && EndsMutation(x.outcome) && SameMutation(x, here[j], mutations);
      SameTransitive(x, here[j], here[k], tests, mutations);
    }
  }

  lemma FillMovesFront(s: Run, s': Run, here: seq<Test>, mutations: seq<u32>, n: nat, slots: nat) returns (k: nat)
    requires Front(s, here, mutations, n) && Fills(s.Stage(), s'.Stage(), slots)
    ensures n <= k < |here| && here[k] == s.queued[0] && Front(s', here, mutations, k + 1)
    ensures !IsDropped(here[k], s.reported, mutations)
    ensures forall i | n <= i < k :: IsDropped(here[i], s.reported, mutations)
  {
    hide IsDropped, Still;
    k := NextInQueue(here, n, s.reported, mutations);
    hide *;
    PrefixGrows(here, n, k);
    assert s'.queued == s.queued[1..] && s'.running == s.running + [s.queued[0]] && s'.reported == s.reported by {
      FillMoves(s, s', slots);
    }
    FrontIs(s, s', here, mutations, n, k);
  }

  lemma FillMoves(s: Run, s': Run, slots: nat)
    requires Fills(s.Stage(), s'.Stage(), slots)
    ensures s.queued != [] && s'.queued == s.queued[1..] && s'.running == s.running + [s.queued[0]] && s'.reported == s.reported
  {}

  lemma FrontIs(s: Run, s': Run, here: seq<Test>, mutations: seq<u32>, n: nat, k: nat)
    requires Front(s, here, mutations, n) && n <= k < |here| && s.queued != [] && here[k] == s.queued[0]
    requires s'.queued == s.queued[1..] && s'.running == s.running + [s.queued[0]] && s'.reported == s.reported
    requires s.queued[1..] == Still(here[k + 1..], s.reported, mutations)
    requires forall i | n <= i < k :: IsDropped(here[i], s.reported, mutations)
    requires here[k] in here[..k + 1] && forall t | t in here[..n] :: t in here[..k + 1]
    ensures Front(s', here, mutations, k + 1)
  {
    hide IsDropped, Still;
  }

  lemma NextInQueue(here: seq<Test>, n: nat, reported: seq<Test>, mutations: seq<u32>) returns (k: nat)
    requires n <= |here| && Still(here[n..], reported, mutations) != []
    ensures n <= k < |here| && here[k] == Still(here[n..], reported, mutations)[0] && !IsDropped(here[k], reported, mutations)
    ensures Still(here[n..], reported, mutations)[1..] == Still(here[k + 1..], reported, mutations)
    ensures forall i | n <= i < k :: IsDropped(here[i], reported, mutations)
  {
    hide IsDropped, Still;
    k := StillHead(here[n..], reported, mutations);
    k := n + k;
    assert here[n..][k - n] == here[k] && here[n..][k - n + 1..] == here[k + 1..];
    forall j | n <= j < k
      ensures IsDropped(here[j], reported, mutations)
    {
      assert here[n..][j - n] == here[j];
    }
  }

  lemma PrefixGrows(here: seq<Test>, n: nat, k: nat)
    requires n <= k < |here|
    ensures here[k] in here[..k + 1] && forall t | t in here[..n] :: t in here[..k + 1]
  {
    assert here[..k + 1] == here[..n] + here[n..k] + [here[k]];
  }

  lemma FillCounts(s: Run, s': Run, here: seq<Test>, n: nat, k: nat)
    requires TimeoutsFit(s, here, n) && n <= k < |here| && s'.running == s.running + [here[k]] && s'.reported == s.reported
    ensures TimeoutsFit(s', here, k + 1)
  {
    hide Count;
    CountPrefix(here, n, k, TIMES_OUT);
    CountPush(s.running, here[k], TIMES_OUT);
    CountPush(here[..k], here[k], TIMES_OUT);
    assert here[..k + 1] == here[..k] + [here[k]];
  }

  lemma ReportKeepsCounts(s: Run, s': Run, i: nat, here: seq<Test>, mutations: seq<u32>, n: nat)
    requires TimeoutsFit(s, here, n) && ReportsTest(s, s', i, mutations, false)
    ensures TimeoutsFit(s', here, n)
  {
    hide Count, Recorded, AllDecided, Without, MutationOf, Reaches;
    ReportCounts(s.Stage(), i, EffectOf(s'.results, MutationOf(mutations, s.running[i]), s.running[i].outcome, false));
  }

  lemma FillIsPaced(s: Run, s': Run, tests: seq<Test>, mutations: seq<u32>, n: nat, slots: nat) returns (n': nat)
    requires OneEach(tests, mutations) && IsPaced(s, InProcess(tests), mutations, n, slots)
    requires Fills(s.Stage(), s'.Stage(), slots)
    ensures IsPaced(s', InProcess(tests), mutations, n', slots)
  {
    var here := InProcess(tests);
    var k := FillMovesFront(s, s', here, mutations, n, slots);
    n' := k + 1;
    FillMoves(s, s', slots);
    FillCounts(s, s', here, n, k);
    assert LastHolds(s', here, mutations, n') by {
      hide OneEach, IsDropped, SameMutation, Front;
      forall j | 0 <= j < k && here[j].outcome == Failed && SameMutation(here[j], here[k], mutations)
        ensures here[j] in s'.running
      {
        EarlierRuns(s, tests, mutations, n, k, j);
      }
    }
    hide OneEach, LastHolds, Front, TimeoutsFit;
  }

  lemma GoesIsPaced(s: Run, s': Run, tests: seq<Test>, mutations: seq<u32>, n: nat, slots: Slots) returns (n': nat)
    requires OneEach(tests, mutations) && slots.Valid() && IsPaced(s, InProcess(tests), mutations, n, slots.here)
    requires SlotInv(s.Stage(), slots.here) && s.later.Some? && Goes(s, s', slots)
    ensures IsPaced(s', InProcess(tests), mutations, n', slots.here)
  {
    hide OneEach, IsDropped, SameMutation, Still, Count;
    n' := n;
    if Fills(s.Stage(), s'.Stage(), slots.here) {
      n' := FillIsPaced(s, s', tests, mutations, n, slots.here);
    }
  }

  lemma ReportKeepsFront(s: Run, s': Run, i: nat, tests: seq<Test>, here: seq<Test>, mutations: seq<u32>, n: nat)
    requires OneEach(tests, mutations) && Inv(s, tests, mutations, false)
    requires Front(s, here, mutations, n) && ReportsTest(s, s', i, mutations, false)
    ensures Front(s', here, mutations, n) && (s.queued == [] ==> s'.queued == [])
    ensures forall t :: t in s.running <==> t == s.running[i] || t in s'.running
  {
    ReportKeepsStill(s, s', i, tests, here, mutations, n);
    forall t: Test
      ensures t in s.running <==> t == s.running[i] || t in s'.running
    {
      ReportMoves(s, s', i, mutations, false, t);
    }
    hide *;
    FrontAfter(s, s', s.running[i], here, mutations, n);
  }

  lemma FrontAfter(s: Run, s': Run, test: Test, here: seq<Test>, mutations: seq<u32>, n: nat)
    requires Front(s, here, mutations, n) && s'.reported == s.reported + [test]
    requires s'.queued == Still(here[n..], s'.reported, mutations)
    requires forall t :: t in s.running <==> t == test || t in s'.running
    requires forall t: Test :: IsDropped(t, s.reported, mutations) ==> IsDropped(t, s'.reported, mutations)
    ensures Front(s', here, mutations, n)
  {
    hide Still, IsDropped;
  }

  lemma ReportKeepsStill(s: Run, s': Run, i: nat, tests: seq<Test>, here: seq<Test>, mutations: seq<u32>, n: nat)
    requires OneEach(tests, mutations) && Inv(s, tests, mutations, false) && n <= |here|
    requires s.queued == Still(here[n..], s.reported, mutations) && ReportsTest(s, s', i, mutations, false)
    ensures i < |s.running| && s'.reported == s.reported + [s.running[i]]
    ensures s'.queued == Still(here[n..], s'.reported, mutations) && (s.queued == [] ==> s'.queued == [])
    ensures forall t: Test :: IsDropped(t, s.reported, mutations) ==> IsDropped(t, s'.reported, mutations)
  {
    var test := s.running[i];
    var m := MutationOf(mutations, test);
    assert Known(s, test);
    StillReport(here[n..], s.reported, test, tests, mutations, m);
    NothingWithout(m);
    QueueAfter(s, s', i, mutations);
    hide OneEach, Inv, Still, IsDropped, ReportsTest, Without;
    forall t: Test
      ensures IsDropped(t, s.reported, mutations) ==> IsDropped(t, s'.reported, mutations)
    {
      DroppedSnoc(t, s.reported, test, mutations);
    }
  }

  lemma QueueAfter(s: Run, s': Run, i: nat, mutations: seq<u32>)
    requires ReportsTest(s, s', i, mutations, false)
    ensures s'.reported == s.reported + [s.running[i]]
    ensures s'.queued == if EndsMutation(s.running[i].outcome) then Without(s.queued, MutationOf(mutations, s.running[i])) else s.queued
  {
    hide Recorded, AllDecided, Without, MutationOf, Reaches;
  }

  lemma ReportIsPaced(s: Run, s': Run, i: nat, tests: seq<Test>, mutations: seq<u32>, n: nat, slots: nat)
    requires OneEach(tests, mutations) && Inv(s, tests, mutations, false) && SlotInv(s.Stage(), slots)
    requires IsPaced(s, InProcess(tests), mutations, n, slots) && ReportsTest(s, s', i, mutations, false)
    ensures IsPaced(s', InProcess(tests), mutations, n, slots)
  {
    hide OneEach, Inv, Front, Pace, TimeoutsFit, SlotInv, ReportsTest, InChild;
    ReportKeepsCounts(s, s', i, InProcess(tests), mutations, n);
    ReportKeepsFront(s, s', i, tests, InProcess(tests), mutations, n);
    ReportKeepsPace(s, s', i, InProcess(tests), mutations, n, slots);
  }

  lemma NothingWithout(m: u32)
    ensures Without([], m) == []
  {}

  lemma ReportKeepsPace(s: Run, s': Run, i: nat, here: seq<Test>, mutations: seq<u32>, n: nat, slots: nat)
    requires SlotInv(s.Stage(), slots) && Pace(s, here, mutations, n, slots) && ReportsTest(s, s', i, mutations, false)
    requires forall t :: t in s.running <==> t == s.running[i] || t in s'.running
    requires s.queued == [] ==> s'.queued == []
    ensures Pace(s', here, mutations, n, slots)
  {
    hide SameMutation, Count, Recorded, AllDecided, Without;
  }
}
