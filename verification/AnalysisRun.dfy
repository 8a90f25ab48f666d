/** One worker's pass over the mutants: what earlier workers finished is taken over, the rest runs and is recorded once. */
module AnalysisRun {
  import opened Collections
  import opened Integers
  import opened Wrappers
  import opened Journal
  import opened JournalRun
  import opened Analysis

  /** A finished mutation as its tests leave it, and the limit of each test, if it has one, in nanoseconds. */
  datatype Outcome = Outcome(finished: FinishedMutation, limits: seq<(string, Option<nat>)>)

  const SHORT_LIMIT: nat := 20_000_000_000

  predicate HasTimedOut(tests: TestVerdicts, name: string) {
    exists i | 0 <= i < |tests| :: tests[i] == (name, Some(TimedOut))
  }

  /** A timeout is not sure yet if load alone explains it: no test that timed out had a long limit. */
  predicate IsUnsure(outcome: Outcome) {
    && outcome.finished.result.TimedOut?
    && forall i | 0 <= i < |outcome.limits| && HasTimedOut(outcome.finished.tests, outcome.limits[i].0) ::
         outcome.limits[i].1.None? || outcome.limits[i].1.value < SHORT_LIMIT
  }

  /** What a rerun allows a test that had this limit. */
  function ConfirmationLimit(limit: nat): nat {
    if limit < SHORT_LIMIT then limit + 10_000_000_000 else limit
  }

  /** A timeout that is not sure yet is exactly one that the longer limits of a rerun may still undo. */
  lemma RerunsHaveMoreTime(outcome: Outcome)
    ensures IsUnsure(outcome) <==> outcome.finished.result == TimedOut && forall i | 0 <= i < |outcome.limits| ::
      HasTimedOut(outcome.finished.tests, outcome.limits[i].0) && outcome.limits[i].1.Some? ==>
      ConfirmationLimit(outcome.limits[i].1.value) > outcome.limits[i].1.value
  {}

  /** What comes of a mutation's own tests: it is deferred if they leave it unsure, or else has a row with its outcome. */
  predicate IsSettled(id: u32, outcome: Outcome, deferred: seq<Mutation>, rows: seq<Record>) {
    if IsUnsure(outcome) then id in IdsOf(deferred) else Finished(id, outcome.finished.(timeoutRerun := false)) in rows
  }

  /** A mutation that is not deferred is recorded with the verdict of its own outcome. */
  predicate IsRecordedAs(m: Mutation, outcome: Outcome, recorded: Recorded) {
    IsUnsure(outcome) || (m, outcome.finished.result) in recorded
  }

  /** Each of these mutations, but those that are skipped, is settled and recorded by its own outcome. */
  predicate AllDone(mutations: seq<Mutation>, skipped: set<u32>, outcomes: u32 -> Outcome,
                    deferred: seq<Mutation>, rows: seq<Record>, recorded: Recorded) {
    forall i | 0 <= i < |mutations| && mutations[i].id !in skipped ::
      && IsSettled(mutations[i].id, outcomes(mutations[i].id), deferred, rows)
      && IsRecordedAs(mutations[i], outcomes(mutations[i].id), recorded)
  }

  /** What a mutation ends up with: the result of an earlier worker, of its rerun, or of its own tests. */
  function FinalOf(id: u32, earlier: Contents, outcomes: u32 -> Outcome, reruns: u32 -> FinishedMutation): FinishedMutation {
    if id in earlier.finished then earlier.finished[id]
    else if IsUnsure(outcomes(id)) then reruns(id).(timeoutRerun := true)
    else outcomes(id).finished.(timeoutRerun := false)
  }

  function RerunRows(order: seq<Mutation>, reruns: u32 -> FinishedMutation): seq<Record> {
    seq(|order|, i requires 0 <= i < |order| => Finished(order[i].id, reruns(order[i].id).(timeoutRerun := true)))
  }

  function RerunResults(order: seq<Mutation>, reruns: u32 -> FinishedMutation): Recorded {
    seq(|order|, i requires 0 <= i < |order| => (order[i], reruns(order[i].id).result))
  }

  function Isolated(isolated: u32 -> bool): Mutation -> bool {
    (m: Mutation) => isolated(m.id)
  }

  function NotIsolated(isolated: u32 -> bool): Mutation -> bool {
    (m: Mutation) => !isolated(m.id)
  }

  function DidAll(w: Worker, rows: seq<Record>): Worker {
    if rows == [] then w else Did(DidAll(w, rows[..|rows| - 1]), rows[|rows| - 1])
  }

  /** Each row is one that the worker may write after those before it. */
  predicate MayDoAll(w: Worker, rows: seq<Record>, mutations: set<u32>) {
    rows == [] || (MayDoAll(w, rows[..|rows| - 1], mutations) && MayDo(DidAll(w, rows[..|rows| - 1]), rows[|rows| - 1], mutations))
  }

  function IdsOf(mutations: seq<Mutation>): set<u32> {
    set i | 0 <= i < |mutations| :: mutations[i].id
  }

  predicate DistinctIds(mutations: seq<Mutation>) {
    forall i, j | 0 <= i < j < |mutations| :: mutations[i].id != mutations[j].id
  }

  function Recorders(recorded: Recorded): seq<Mutation> {
    seq(|recorded|, i requires 0 <= i < |recorded| => recorded[i].0)
  }

  lemma IdsOfSnoc(mutations: seq<Mutation>, m: Mutation)
    ensures IdsOf(mutations + [m]) == IdsOf(mutations) + {m.id}
    ensures DistinctIds(mutations) && m.id !in IdsOf(mutations) ==> DistinctIds(mutations + [m])
  {
    forall id
      ensures id in IdsOf(mutations + [m]) <==> id in IdsOf(mutations) + {m.id}
    {
      if id in IdsOf(mutations) {
        var i :| 0 <= i < |mutations| && mutations[i].id == id;
        assert (mutations + [m])[i].id == id;
      }
      assert (mutations + [m])[|mutations|] == m;
    }
  }

  lemma IdsIn(mutations: seq<Mutation>) returns (ids: seq<u32>)
    ensures Ids(ids) == IdsOf(mutations)
  {
    ids := seq(|mutations|, i requires 0 <= i < |mutations| => mutations[i].id);
    assert forall i | 0 <= i < |mutations| :: ids[i] == mutations[i].id && ids[i] in ids;
  }

  /** A row of mutations that start changes no verdict. */
  lemma AgreeStays(recorded: Recorded, held: Contents, ids: seq<u32>)
    requires Agree(recorded, held)
    ensures Agree(recorded, held.(started := held.started + Ids(ids)))
  {}

  class Pass {
    /** What the journal held when this worker started. */
    const earlier: Contents
    const all: set<u32>
    const results: Results
    /** Timed-out mutations that run again at the end. */
    var deferred: seq<Mutation>
    /** The rows this worker wrote. */
    ghost var rows: seq<Record>

    ghost function Worker(): Worker
      reads this
    {
      DidAll(JournalRun.Worker(earlier, {}, {}, true), rows)
    }

    /** The journal as it is once these rows are in it. */
    ghost function Holds(): Result<Contents>
      reads this
    {
      AddAll(earlier, rows)
    }

    /** The recorded results are those that the journal holds, each mutation has at most one, and none of them is deferred. */
    ghost predicate Valid()
      reads this, results
    {
      && results.Valid()
      && MayDoAll(JournalRun.Worker(earlier, {}, {}, true), rows, all)
      && Worker().earlier == earlier
      && Holds().Success?
      && Holds().value.finished.Keys == earlier.finished.Keys + Worker().finished
      && Agree(results.recorded, Holds().value)
      && DistinctIds(deferred)
      && IdsOf(deferred) <= Worker().started - earlier.finished.Keys - Worker().finished
      && Worker().finished <= Worker().started <= all
    }

    constructor (earlier: Contents, all: set<u32>)
      ensures Valid() && fresh(results)
      ensures this.earlier == earlier && this.all == all && rows == [] && deferred == [] && results.recorded == []
    {
      this.earlier, this.all := earlier, all;
      results := new Results();
      deferred, rows := [], [];
    }

    ghost function Recorded(): set<u32>
      reads this, results
    {
      IdsOf(Recorders(results.recorded))
    }

    /** The mutations this worker ran, recorded or deferred. */
    ghost function Ran(): set<u32>
      reads this
    {
      Worker().finished + IdsOf(deferred)
    }

    /** Recorded is what earlier workers finished, and what this one did. */
    ghost predicate CaughtUp()
      reads this, results
    {
      Valid() && Recorded() == all * earlier.finished.Keys + Worker().finished
    }

    method RecordEarlierResults(mutations: seq<Mutation>)
      requires Valid() && rows == [] && results.recorded == [] && deferred == []
      requires DistinctIds(mutations) && IdsOf(mutations) == all
      modifies results
      ensures CaughtUp() && Ran() == {} && deferred == [] && rows == []
    {
      for i := 0 to |mutations|
        invariant Valid() && rows == [] && deferred == []
        invariant Recorded() == IdsOf(mutations[..i]) * earlier.finished.Keys
      {
        var m := mutations[i];
        assert mutations[..i + 1] == mutations[..i] + [m];
        IdsOfSnoc(mutations[..i], m);
        assert m.id !in IdsOf(mutations[..i]);
        if m.id in earlier.finished {
          AgreeSnoc(results.recorded, Holds().value, m);
          results.Record(m, earlier.finished[m.id].result);
        }
      }
      assert mutations[..|mutations|] == mutations;
    }

    method WriteStarted(mutations: seq<Mutation>)
      requires CaughtUp() && IdsOf(mutations) <= all
      modifies this`rows
      ensures CaughtUp() && Worker().started == old(Worker().started) + IdsOf(mutations)
      ensures Worker().finished == old(Worker().finished)
      ensures exists ids :: Ids(ids) == IdsOf(mutations) && rows == old(rows) + [Started(ids)]
    {
      hide Tally, Recorders, DistinctIds, IdsOf, Agree, Journal.Ids;
      ghost var ids := IdsIn(mutations);
      AgreeStays(results.recorded, Holds().value, ids);
      ghost var before := rows;
      rows := before + [Started(ids)];
      assert rows[..|rows| - 1] == before;
    }

    /** Writes the mutation's row, then records it. */
    method RecordFinished(m: Mutation, finished: FinishedMutation)
      requires CaughtUp() && m.id in Worker().started && m.id !in earlier.finished && m.id !in Ran()
      modifies this`rows, results
      ensures CaughtUp() && Worker().finished == old(Worker().finished) + {m.id} && Worker().started == old(Worker().started)
      ensures rows == old(rows) + [Finished(m.id, finished)] && results.recorded == old(results.recorded) + [(m, finished.result)]
    {
      hide IdsOf, Recorders, DistinctIds, Tally, Agree, Journal.Ids;
      ghost var before := rows;
      rows := before + [Finished(m.id, finished)];
      assert rows[..|rows| - 1] == before;
      AgreeGrows(results.recorded, Holds().value, old(Holds().value));
      AgreeSnoc(results.recorded, Holds().value, m);
      results.Record(m, finished.result);
    }

    /** The mutation is either recorded now, with its row in the journal, or deferred until the others are done. */
    method FinishMutation(m: Mutation, outcome: Outcome)
      requires CaughtUp() && m.id in Worker().started && m.id !in earlier.finished && m.id !in Ran()
      modifies this, results
      ensures CaughtUp() && Ran() == old(Ran()) + {m.id} && Worker().started == old(Worker().started)
      ensures deferred == old(deferred) + if IsUnsure(outcome) then [m] else []
      ensures rows == old(rows) + if IsUnsure(outcome) then [] else [Finished(m.id, outcome.finished.(timeoutRerun := false))]
      ensures results.recorded == old(results.recorded) + if IsUnsure(outcome) then [] else [(m, outcome.finished.result)]
      ensures IsSettled(m.id, outcome, deferred, rows) && IsRecordedAs(m, outcome, results.recorded)
    {
      if IsUnsure(outcome) {
        IdsOfSnoc(deferred, m);
        deferred := deferred + [m];
      } else {
        RecordFinished(m, outcome.finished.(timeoutRerun := false));
      }
    }

    /** Runs a mutant, which holds one mutation or a batch of them, unless earlier workers finished all of it. */
    method RunMutant(mutant: seq<Mutation>, outcomes: u32 -> Outcome)
      requires CaughtUp() && DistinctIds(mutant) && IdsOf(mutant) <= all && IdsOf(mutant) !! Ran()
      modifies this, results
      ensures CaughtUp() && Ran() == old(Ran()) + (IdsOf(mutant) - earlier.finished.Keys)
      ensures old(rows) <= rows && old(deferred) <= deferred && old(results.recorded) <= results.recorded
      ensures AllDone(mutant, earlier.finished.Keys, outcomes, deferred, rows, results.recorded)
    {
      hide Valid, DidAll, IdsOf, CaughtUp, IsUnsure, IsSettled, IsRecordedAs, DistinctIds, AllDone;
      if forall m <- mutant :: m.id in earlier.finished {
        AllIn(mutant, earlier.finished.Keys);
        SkippedAreDone(mutant, earlier.finished.Keys, outcomes, deferred, rows, results.recorded);
        return;
      }
      WriteStarted(mutant);
      NoIds();
      NoneDone(earlier.finished.Keys, outcomes, deferred, rows, results.recorded);
      assert mutant[..0] == [];
      for i := 0 to |mutant|
        invariant CaughtUp() && IdsOf(mutant) <= Worker().started
        invariant Ran() == old(Ran()) + (IdsOf(mutant[..i]) - earlier.finished.Keys)
        invariant old(rows) <= rows && old(deferred) <= deferred && old(results.recorded) <= results.recorded
        invariant AllDone(mutant[..i], earlier.finished.Keys, outcomes, deferred, rows, results.recorded)
      {
        var m := mutant[i];
        NextId(mutant, i);
        ghost var deferred0, rows0, recorded0 := deferred, rows, results.recorded;
        if m.id !in earlier.finished {
          FinishMutation(m, outcomes(m.id));
        }
        OneMoreDone(mutant, i, earlier.finished.Keys, outcomes, deferred0, rows0, recorded0, deferred, rows, results.recorded);
      }
      assert mutant[..|mutant|] == mutant;
    }

    /** Runs the deferred mutations again, those that are not isolated first, and records what comes of it. */
    method ConfirmTimeouts(isolated: u32 -> bool, reruns: u32 -> FinishedMutation)
      requires CaughtUp()
      modifies this, results
      ensures CaughtUp() && deferred == [] && Worker().finished == old(Ran())
      ensures var order := Pick(old(deferred), NotIsolated(isolated)) + Pick(old(deferred), Isolated(isolated));
        rows == old(rows) + RerunRows(order, reruns) && results.recorded == old(results.recorded) + RerunResults(order, reruns)
    {
      var order := Pick(deferred, NotIsolated(isolated)) + Pick(deferred, Isolated(isolated));
      PickPartitions(deferred, Isolated(isolated), NotIsolated(isolated));
      deferred := [];
      RerunAll(order, reruns);
    }

    method RerunAll(order: seq<Mutation>, reruns: u32 -> FinishedMutation)
      requires CaughtUp() && DistinctIds(order) && deferred == []
      requires IdsOf(order) <= Worker().started - earlier.finished.Keys - Worker().finished
      modifies this`rows, results
      ensures CaughtUp() && Worker().finished == old(Worker().finished) + IdsOf(order)
      ensures rows == old(rows) + RerunRows(order, reruns) && results.recorded == old(results.recorded) + RerunResults(order, reruns)
    {
      hide Valid, RerunRows, RerunResults;
      NoReruns(reruns);
      assert order[..0] == [] && rows + [] == rows && results.recorded + [] == results.recorded;
      for i := 0 to |order|
        invariant CaughtUp() && IdsOf(order) <= Worker().started
        invariant Worker().finished == old(Worker().finished) + IdsOf(order[..i])
        invariant rows == old(rows) + RerunRows(order[..i], reruns)
        invariant results.recorded == old(results.recorded) + RerunResults(order[..i], reruns)
      {
        NextId(order, i);
        NextRerun(order, i, reruns);
        RecordFinished(order[i], reruns(order[i].id).(timeoutRerun := true));
      }
      assert order[..|order|] == order;
    }

    /** However the tests come out, every mutation ends up recorded exactly once, with the verdict the journal holds, which
        is that of an earlier worker, of its own tests, or of its own rerun if they left it unsure. */
    method Run(mutations: seq<Mutation>, mutants: seq<seq<Mutation>>, outcomes: u32 -> Outcome,
               isolated: u32 -> bool, reruns: u32 -> FinishedMutation)
      requires Valid() && rows == [] && results.recorded == [] && deferred == []
      requires DistinctIds(mutations) && IdsOf(mutations) == all
      requires Partition(mutants, all)
      modifies this, results
      ensures Valid() && deferred == []
      ensures Recorded() == all && |results.recorded| == |all| == results.all.total
      ensures Worker().finished == all - earlier.finished.Keys
      ensures AllFinal(outcomes, reruns)
    {
      hide *;
      RecordEarlierResults(mutations);
      RunMutants(mutants, outcomes);
      ghost var deferred0, rows0 := deferred, rows;
      ConfirmTimeouts(isolated, reruns);
      AllRecorded();
      EachIsFinal(deferred0, rows0, outcomes, reruns, isolated);
    }

    /** Each recorded verdict, and each result that the journal then holds, is the mutation's own. */
    ghost predicate AllFinal(outcomes: u32 -> Outcome, reruns: u32 -> FinishedMutation)
      reads this, results
    {
      && (forall i | 0 <= i < |results.recorded| ::
            results.recorded[i].1 == FinalOf(results.recorded[i].0.id, earlier, outcomes, reruns).result)
      && Holds().Success?
      && forall id <- all :: id in Holds().value.finished && Holds().value.finished[id] == FinalOf(id, earlier, outcomes, reruns)
    }

    method RunMutants(mutants: seq<seq<Mutation>>, outcomes: u32 -> Outcome)
      requires CaughtUp() && Partition(mutants, all) && Ran() == {}
      modifies this, results
      ensures CaughtUp() && Ran() == all - earlier.finished.Keys
      ensures forall id <- Ran() :: IsSettled(id, outcomes(id), deferred, rows)
    {
      hide *;
      NoMutants(mutants);
      for i := 0 to |mutants|
        invariant CaughtUp()
        invariant Ran() == IdsOfAll(mutants[..i]) - earlier.finished.Keys
        invariant forall id <- Ran() :: IsSettled(id, outcomes(id), deferred, rows)
      {
        NextMutant(mutants, i, all);
        ghost var ran, deferred0, rows0 := Ran(), deferred, rows;
        RunMutant(mutants[i], outcomes);
        DoneIds(mutants[i], earlier.finished.Keys, outcomes, deferred, rows, results.recorded);
        StaySettled(ran, outcomes, deferred0, rows0, deferred, rows);
      }
      AllRan(mutants, all);
    }

    /** With all deferred mutations confirmed, every result is the mutation's own. */
    lemma EachIsFinal(deferred0: seq<Mutation>, rows0: seq<Record>, outcomes: u32 -> Outcome, reruns: u32 -> FinishedMutation,
                      isolated: u32 -> bool)
      requires Valid() && Recorded() == all && Worker().finished == all - earlier.finished.Keys
      requires forall id <- all - earlier.finished.Keys :: IsSettled(id, outcomes(id), deferred0, rows0)
      requires var order := Pick(deferred0, NotIsolated(isolated)) + Pick(deferred0, Isolated(isolated));
        rows == rows0 + RerunRows(order, reruns)
      ensures AllFinal(outcomes, reruns)
    {
      hide MayDoAll, DidAll, Pick, IsUnsure, RerunRows, IsSettled, Recorders, FinalOf;
      var held := Holds().value;
      forall id <- all
        ensures id in held.finished && held.finished[id] == FinalOf(id, earlier, outcomes, reruns)
      {
        if id in earlier.finished {
          EarlierStays(earlier, rows, id);
          FinalIsEarlier(id, earlier, outcomes, reruns);
        } else {
          FinalRow(id, earlier, deferred0, rows0, rows, outcomes, reruns, isolated);
          RowIsHeld(earlier, rows, id, FinalOf(id, earlier, outcomes, reruns));
        }
      }
      forall i | 0 <= i < |results.recorded|
        ensures results.recorded[i].1 == FinalOf(results.recorded[i].0.id, earlier, outcomes, reruns).result
      {
        RecorderIn(results.recorded, i);
      }
    }

    /** Mutants that run side by side start in one round and complete in it or in a later one, in whatever order. */
    method RunSideBySide(rounds: seq<(seq<Mutation>, seq<Mutation>)>, outcomes: u32 -> Outcome)
      requires CaughtUp() && Ran() == {} && Rounds(rounds, all - earlier.finished.Keys)
      modifies this, results
      ensures CaughtUp() && Ran() == all - earlier.finished.Keys
      ensures forall id <- Ran() :: IsSettled(id, outcomes(id), deferred, rows)
    {
      hide Valid, DidAll, Begun, Done, Rounds, IdsOf, CaughtUp, IsSettled;
      NoRounds(rounds);
      for i := 0 to |rounds|
        invariant CaughtUp() && Begun(rounds[..i]) <= Worker().started
        invariant Ran() == Done(rounds[..i])
        invariant forall id <- Ran() :: IsSettled(id, outcomes(id), deferred, rows)
      {
        NextRound(rounds, i, all - earlier.finished.Keys);
        ghost var ran, deferred0, rows0 := Ran(), deferred, rows;
        if rounds[i].0 != [] {
          WriteStarted(rounds[i].0);
        } else {
          NoIds();
        }
        StaySettled(ran, outcomes, deferred0, rows0, deferred, rows);
        rows0 := rows;
        FinishAll(rounds[i].1, outcomes);
        DoneIds(rounds[i].1, {}, outcomes, deferred, rows, results.recorded);
        StaySettled(ran, outcomes, deferred0, rows0, deferred, rows);
      }
      AllRounds(rounds, all - earlier.finished.Keys);
    }

    method FinishAll(completed: seq<Mutation>, outcomes: u32 -> Outcome)
      requires CaughtUp() && DistinctIds(completed) && IdsOf(completed) <= Worker().started - earlier.finished.Keys - Ran()
      modifies this, results
      ensures CaughtUp() && Ran() == old(Ran()) + IdsOf(completed) && Worker().started == old(Worker().started)
      ensures old(rows) <= rows && old(deferred) <= deferred && old(results.recorded) <= results.recorded
      ensures AllDone(completed, {}, outcomes, deferred, rows, results.recorded)
    {
      hide Valid, DidAll, IdsOf, CaughtUp, IsUnsure, IsSettled, IsRecordedAs, DistinctIds, AllDone;
      NoIds();
      NoneDone({}, outcomes, deferred, rows, results.recorded);
      assert completed[..0] == [];
      for i := 0 to |completed|
        invariant CaughtUp() && Worker().started == old(Worker().started)
        invariant Ran() == old(Ran()) + IdsOf(completed[..i])
        invariant old(rows) <= rows && old(deferred) <= deferred && old(results.recorded) <= results.recorded
        invariant AllDone(completed[..i], {}, outcomes, deferred, rows, results.recorded)
      {
        NextId(completed, i);
        ghost var deferred0, rows0, recorded0 := deferred, rows, results.recorded;
        FinishMutation(completed[i], outcomes(completed[i].id));
        OneMoreDone(completed, i, {}, outcomes, deferred0, rows0, recorded0, deferred, rows, results.recorded);
      }
      assert completed[..|completed|] == completed;
    }

    /** The same of mutants that the scheduler runs side by side. */
    method RunScheduled(mutations: seq<Mutation>, rounds: seq<(seq<Mutation>, seq<Mutation>)>, outcomes: u32 -> Outcome,
                        isolated: u32 -> bool, reruns: u32 -> FinishedMutation)
      requires Valid() && rows == [] && results.recorded == [] && deferred == []
      requires DistinctIds(mutations) && IdsOf(mutations) == all
      requires Rounds(rounds, all - earlier.finished.Keys)
      modifies this, results
      ensures Valid() && deferred == []
      ensures Recorded() == all && |results.recorded| == |all| == results.all.total
      ensures Worker().finished == all - earlier.finished.Keys
      ensures AllFinal(outcomes, reruns)
    {
      hide *;
      RecordEarlierResults(mutations);
      RunSideBySide(rounds, outcomes);
      ghost var deferred0, rows0 := deferred, rows;
      ConfirmTimeouts(isolated, reruns);
      AllRecorded();
      EachIsFinal(deferred0, rows0, outcomes, reruns, isolated);
    }

    lemma AllRecorded()
      requires CaughtUp() && Worker().finished == all - earlier.finished.Keys
      ensures Valid() && Recorded() == all && |results.recorded| == |all| == results.all.total
    {
      hide Valid, IdsOf, Recorders, MayDoAll, DidAll, AddAll;
      EarlierAndNew(all, earlier.finished.Keys);
      Counted();
    }

    /** With every mutation recorded, the totals count each of them once. */
    lemma Counted()
      requires Valid()
      ensures |results.recorded| == |Recorded()| == results.all.total
    {
      hide IdsOf, Recorders, MayDoAll, DidAll, AddAll;
      CountOnce(results.recorded);
    }
  }

  lemma StaysSettled(id: u32, outcome: Outcome, deferred: seq<Mutation>, rows: seq<Record>, deferred': seq<Mutation>, rows': seq<Record>)
    requires IsSettled(id, outcome, deferred, rows) && deferred <= deferred' && rows <= rows'
    ensures IsSettled(id, outcome, deferred', rows')
  {
    hide IsUnsure;
    assert forall i | 0 <= i < |deferred| :: deferred'[i] == deferred[i];
    assert forall i | 0 <= i < |rows| :: rows'[i] == rows[i];
  }

  lemma StaySettled(ids: set<u32>, outcomes: u32 -> Outcome, deferred: seq<Mutation>, rows: seq<Record>,
                    deferred': seq<Mutation>, rows': seq<Record>)
    requires (forall id <- ids :: IsSettled(id, outcomes(id), deferred, rows)) && deferred <= deferred' && rows <= rows'
    ensures forall id <- ids :: IsSettled(id, outcomes(id), deferred', rows')
  {
    forall id <- ids
      ensures IsSettled(id, outcomes(id), deferred', rows')
    {
      StaysSettled(id, outcomes(id), deferred, rows, deferred', rows');
    }
  }

  lemma NoneDone(skipped: set<u32>, outcomes: u32 -> Outcome, deferred: seq<Mutation>, rows: seq<Record>, recorded: Recorded)
    ensures AllDone([], skipped, outcomes, deferred, rows, recorded)
  {}

  lemma SkippedAreDone(mutations: seq<Mutation>, skipped: set<u32>, outcomes: u32 -> Outcome,
                       deferred: seq<Mutation>, rows: seq<Record>, recorded: Recorded)
    requires forall m <- mutations :: m.id in skipped
    ensures AllDone(mutations, skipped, outcomes, deferred, rows, recorded)
  {}

  lemma StaysRecorded(m: Mutation, outcome: Outcome, recorded: Recorded, recorded': Recorded)
    requires IsRecordedAs(m, outcome, recorded) && recorded <= recorded'
    ensures IsRecordedAs(m, outcome, recorded')
  {
    hide IsUnsure;
    assert forall i | 0 <= i < |recorded| :: recorded'[i] == recorded[i];
  }

  lemma OneMoreDone(mutations: seq<Mutation>, i: nat, skipped: set<u32>, outcomes: u32 -> Outcome,
                    deferred: seq<Mutation>, rows: seq<Record>, recorded: Recorded,
                    deferred': seq<Mutation>, rows': seq<Record>, recorded': Recorded)
    requires i < |mutations| && AllDone(mutations[..i], skipped, outcomes, deferred, rows, recorded)
    requires deferred <= deferred' && rows <= rows' && recorded <= recorded'
    requires mutations[i].id !in skipped ==>
      && IsSettled(mutations[i].id, outcomes(mutations[i].id), deferred', rows')
      && IsRecordedAs(mutations[i], outcomes(mutations[i].id), recorded')
    ensures AllDone(mutations[..i + 1], skipped, outcomes, deferred', rows', recorded')
  {
    hide IsSettled, IsRecordedAs;
    forall k | 0 <= k < i && mutations[k].id !in skipped
      ensures IsSettled(mutations[k].id, outcomes(mutations[k].id), deferred', rows')
      ensures IsRecordedAs(mutations[k], outcomes(mutations[k].id), recorded')
    {
      assert mutations[..i][k] == mutations[k];
      StaysSettled(mutations[k].id, outcomes(mutations[k].id), deferred, rows, deferred', rows');
      StaysRecorded(mutations[k], outcomes(mutations[k].id), recorded, recorded');
    }
  }

  lemma DoneIds(mutations: seq<Mutation>, skipped: set<u32>, outcomes: u32 -> Outcome,
                deferred: seq<Mutation>, rows: seq<Record>, recorded: Recorded)
    requires AllDone(mutations, skipped, outcomes, deferred, rows, recorded)
    ensures forall id <- IdsOf(mutations) - skipped :: IsSettled(id, outcomes(id), deferred, rows)
  {
    hide IsSettled, IsRecordedAs;
    forall id <- IdsOf(mutations) - skipped
      ensures IsSettled(id, outcomes(id), deferred, rows)
    {
      var i :| 0 <= i < |mutations| && mutations[i].id == id;
    }
  }

  lemma NoReruns(reruns: u32 -> FinishedMutation)
    ensures RerunRows([], reruns) == [] && RerunResults([], reruns) == []
  {}

  lemma NextRerun(order: seq<Mutation>, i: nat, reruns: u32 -> FinishedMutation)
    requires i < |order|
    ensures RerunRows(order[..i + 1], reruns) ==
      RerunRows(order[..i], reruns) + [Finished(order[i].id, reruns(order[i].id).(timeoutRerun := true))]
    ensures RerunResults(order[..i + 1], reruns) == RerunResults(order[..i], reruns) + [(order[i], reruns(order[i].id).result)]
  {}

  lemma {:induction false} PickHas(mutations: seq<Mutation>, p: Mutation -> bool, m: Mutation)
    ensures m in Pick(mutations, p) <==> m in mutations && p(m)
  {
    if mutations != [] {
      PickHas(mutations[..|mutations| - 1], p, m);
    }
  }

  /** A row that was added without an error is what the contents hold of its mutation. */
  lemma {:induction false} RowIsHeld(earlier: Contents, rows: seq<Record>, id: u32, finished: FinishedMutation)
    requires AddAll(earlier, rows).Success? && Finished(id, finished) in rows
    ensures id in AddAll(earlier, rows).value.finished && AddAll(earlier, rows).value.finished[id] == finished
  {
    var n := |rows| - 1;
    if rows[n] != Finished(id, finished) {
      assert rows == rows[..n] + [rows[n]];
      RowIsHeld(earlier, rows[..n], id, finished);
    }
  }

  lemma {:induction false} EarlierStays(earlier: Contents, rows: seq<Record>, id: u32)
    requires AddAll(earlier, rows).Success? && id in earlier.finished
    ensures id in AddAll(earlier, rows).value.finished && AddAll(earlier, rows).value.finished[id] == earlier.finished[id]
  {
    if rows != [] {
      EarlierStays(earlier, rows[..|rows| - 1], id);
    }
  }

  lemma FinalIsEarlier(id: u32, earlier: Contents, outcomes: u32 -> Outcome, reruns: u32 -> FinishedMutation)
    requires id in earlier.finished
    ensures FinalOf(id, earlier, outcomes, reruns) == earlier.finished[id]
  {}

  /** A mutation that this worker ran has the row of its own outcome, or of its own rerun. */
  lemma FinalRow(id: u32, earlier: Contents, deferred: seq<Mutation>, rows0: seq<Record>, rows: seq<Record>,
                 outcomes: u32 -> Outcome, reruns: u32 -> FinishedMutation, isolated: u32 -> bool)
    requires id !in earlier.finished && IsSettled(id, outcomes(id), deferred, rows0)
    requires rows == rows0 + RerunRows(Pick(deferred, NotIsolated(isolated)) + Pick(deferred, Isolated(isolated)), reruns)
    ensures Finished(id, FinalOf(id, earlier, outcomes, reruns)) in rows
  {
    hide IsUnsure, Pick;
    var order := Pick(deferred, NotIsolated(isolated)) + Pick(deferred, Isolated(isolated));
    if IsUnsure(outcomes(id)) {
      var i :| 0 <= i < |deferred| && deferred[i].id == id;
      PickHas(deferred, NotIsolated(isolated), deferred[i]);
      PickHas(deferred, Isolated(isolated), deferred[i]);
      assert deferred[i] in deferred && deferred[i] in order;
      var k :| 0 <= k < |order| && order[k] == deferred[i];
      assert RerunRows(order, reruns)[k] in RerunRows(order, reruns);
    }
  }

  lemma RecorderIn(recorded: Recorded, i: nat)
    requires i < |recorded|
    ensures recorded[i].0.id in IdsOf(Recorders(recorded))
  {
    assert Recorders(recorded)[i] == recorded[i].0;
  }

  function Pick(mutations: seq<Mutation>, p: Mutation -> bool): seq<Mutation> {
    if mutations == [] then []
    else
      var last := mutations[|mutations| - 1];
      Pick(mutations[..|mutations| - 1], p) + if p(last) then [last] else []
  }

  lemma {:induction false} PickPartitions(mutations: seq<Mutation>, p: Mutation -> bool, q: Mutation -> bool)
    requires DistinctIds(mutations) && forall m :: p(m) <==> !q(m)
    ensures DistinctIds(Pick(mutations, q) + Pick(mutations, p))
    ensures IdsOf(Pick(mutations, q) + Pick(mutations, p)) == IdsOf(mutations)
  {
    if mutations != [] {
      var rest, last := mutations[..|mutations| - 1], mutations[|mutations| - 1];
      PickPartitions(rest, p, q);
      assert mutations[..|rest| + 1] == mutations;
      NextId(mutations, |rest|);
      var yes, no := Pick(rest, p), Pick(rest, q);
      if p(last) {
        assert no + (yes + [last]) == no + yes + [last];
        IdsOfSnoc(no + yes, last);
        assert Pick(mutations, q) + Pick(mutations, p) == no + yes + [last];
      } else {
        InsertId(no, last, yes);
        assert Pick(mutations, q) + Pick(mutations, p) == no + [last] + yes;
      }
    }
  }

  lemma InsertId(before: seq<Mutation>, m: Mutation, after: seq<Mutation>)
    requires DistinctIds(before + after) && m.id !in IdsOf(before + after)
    ensures DistinctIds(before + [m] + after)
    ensures IdsOf(before + [m] + after) == IdsOf(before + after) + {m.id}
  {
    var all, more, n := before + after, before + [m] + after, |before|;
    forall id
      ensures id in IdsOf(more) <==> id in IdsOf(all) + {m.id}
    {
      if id in IdsOf(all) {
        var i :| 0 <= i < |all| && all[i].id == id;
        assert more[if i < n then i else i + 1].id == id;
      }
      if id in IdsOf(more) {
        var i :| 0 <= i < |more| && more[i].id == id;
        assert i == n || all[if i < n then i else i - 1].id == id;
      }
      assert more[n] == m;
    }
    assert forall i | 0 <= i < |more| :: more[i] == if i == n then m else all[if i < n then i else i - 1];
  }

  /** The next of distinct mutations is not among those before it. */
  lemma NextId(mutations: seq<Mutation>, i: nat)
    requires i < |mutations| && DistinctIds(mutations)
    ensures mutations[i].id in IdsOf(mutations) && mutations[i].id !in IdsOf(mutations[..i])
    ensures IdsOf(mutations[..i + 1]) == IdsOf(mutations[..i]) + {mutations[i].id}
  {
    assert mutations[..i + 1] == mutations[..i] + [mutations[i]];
    IdsOfSnoc(mutations[..i], mutations[i]);
  }

  function IdsOfAll(mutants: seq<seq<Mutation>>): set<u32> {
    set i, j | 0 <= i < |mutants| && 0 <= j < |mutants[i]| :: mutants[i][j].id
  }

  /** Each mutation is in exactly one mutant, at one place. */
  predicate Partition(mutants: seq<seq<Mutation>>, all: set<u32>) {
    && IdsOfAll(mutants) == all
    && (forall i | 0 <= i < |mutants| :: DistinctIds(mutants[i]))
    && (forall i, j | 0 <= i < j < |mutants| :: IdsOf(mutants[i]) !! IdsOf(mutants[j]))
  }

  lemma NextMutant(mutants: seq<seq<Mutation>>, i: nat, all: set<u32>)
    requires i < |mutants| && Partition(mutants, all)
    ensures DistinctIds(mutants[i]) && IdsOf(mutants[i]) <= all && IdsOf(mutants[i]) !! IdsOfAll(mutants[..i])
    ensures IdsOfAll(mutants[..i + 1]) == IdsOfAll(mutants[..i]) + IdsOf(mutants[i])
  {
    forall id | id in IdsOfAll(mutants[..i])
      ensures id !in IdsOf(mutants[i])
    {
      var k, j :| 0 <= k < i && 0 <= j < |mutants[k]| && mutants[k][j].id == id;
      assert id in IdsOf(mutants[k]);
    }
  }

  lemma NoMutants(mutants: seq<seq<Mutation>>)
    ensures IdsOfAll(mutants[..0]) == {}
  {}

  lemma AllRan(mutants: seq<seq<Mutation>>, all: set<u32>)
    requires Partition(mutants, all)
    ensures IdsOfAll(mutants[..|mutants|]) == all
  {
    assert mutants[..|mutants|] == mutants;
  }

  // ---------- Mutants that run side by side ----------

  /** The mutations that start, and those that complete, in any of these rounds. */
  function Begun(rounds: seq<(seq<Mutation>, seq<Mutation>)>): set<u32> {
    set i, j | 0 <= i < |rounds| && 0 <= j < |rounds[i].0| :: rounds[i].0[j].id
  }

  function Done(rounds: seq<(seq<Mutation>, seq<Mutation>)>): set<u32> {
    set i, j | 0 <= i < |rounds| && 0 <= j < |rounds[i].1| :: rounds[i].1[j].id
  }

  /** Each of these mutations starts, and completes once, after it started. */
  predicate Rounds(rounds: seq<(seq<Mutation>, seq<Mutation>)>, todo: set<u32>) {
    && Begun(rounds) == todo == Done(rounds)
    && forall i | 0 <= i < |rounds| ::
         && DistinctIds(rounds[i].1)
         && IdsOf(rounds[i].1) <= Begun(rounds[..i + 1])
         && IdsOf(rounds[i].1) !! Done(rounds[..i])
  }

  lemma NoRounds(rounds: seq<(seq<Mutation>, seq<Mutation>)>)
    ensures Begun(rounds[..0]) == {} == Done(rounds[..0])
  {}

  lemma NextRound(rounds: seq<(seq<Mutation>, seq<Mutation>)>, i: nat, todo: set<u32>)
    requires i < |rounds| && Rounds(rounds, todo)
    ensures Begun(rounds[..i + 1]) == Begun(rounds[..i]) + IdsOf(rounds[i].0) <= todo
    ensures Done(rounds[..i + 1]) == Done(rounds[..i]) + IdsOf(rounds[i].1)
    ensures DistinctIds(rounds[i].1) && IdsOf(rounds[i].1) <= Begun(rounds[..i + 1])
    ensures IdsOf(rounds[i].1) !! Done(rounds[..i])
  {}

  lemma AllRounds(rounds: seq<(seq<Mutation>, seq<Mutation>)>, todo: set<u32>)
    requires Rounds(rounds, todo)
    ensures Done(rounds[..|rounds|]) == todo
  {
    assert rounds[..|rounds|] == rounds;
  }

  lemma AllIn(mutations: seq<Mutation>, ids: set<u32>)
    requires forall m <- mutations :: m.id in ids
    ensures IdsOf(mutations) <= ids
  {
    assert forall i | 0 <= i < |mutations| :: mutations[i] in mutations;
  }

  lemma NoIds()
    ensures IdsOf([]) == {}
  {}

  // ---------- A pass as steps of the supervised run ----------

  lemma {:induction false} DidAllKeeps(w: Worker, rows: seq<Record>)
    ensures DidAll(w, rows).earlier == w.earlier && DidAll(w, rows).healthy == w.healthy
  {
    if rows != [] {
      DidAllKeeps(w, rows[..|rows| - 1]);
    }
  }

  lemma EarlierAndNew(all: set<u32>, earlier: set<u32>)
    ensures all * earlier + (all - earlier) == all
  {}

  /** The rows of a worker whose writes succeed, as steps from the state that it starts in. */
  lemma {:induction false} RowsAreWrites(s: System, rows: seq<Record>, mutations: set<u32>) returns (steps: seq<System>)
    requires s.phase.Running? && s.phase.worker.healthy && MayDoAll(s.phase.worker, rows, mutations)
    ensures |steps| == |rows| && forall i | 0 <= i < |steps| :: Next(([s] + steps)[i], steps[i], mutations)
    ensures ([s] + steps)[|steps|] == s.(disk := s.disk + Rows(rows), phase := Running(DidAll(s.phase.worker, rows)))
  {
    if rows == [] {
      steps := [];
      assert s.disk + Rows([]) == s.disk;
    } else {
      hide Next, MayDo, Did, Row;
      var n := |rows| - 1;
      var before := RowsAreWrites(s, rows[..n], mutations);
      var last, r := ([s] + before)[n], rows[n];
      DidAllKeeps(s.phase.worker, rows[..n]);
      var next := RowIsWrite(last, r, mutations);
      Associative(s.disk, Rows(rows[..n]), Row(r));
      steps := before + [next];
      OneMoreStep(s, before, next, mutations);
      assert ([s] + steps)[n + 1] == next;
    }
  }

  lemma RowIsWrite(s: System, r: Record, mutations: set<u32>) returns (s': System)
    requires s.phase.Running? && s.phase.worker.healthy && MayDo(s.phase.worker, r, mutations)
    ensures s' == s.(disk := s.disk + Row(r), phase := Running(Did(s.phase.worker, r))) && Next(s, s', mutations)
  {
    hide MayDo, Row;
    s' := s.(disk := s.disk + Row(r), phase := Running(Did(s.phase.worker, r)));
    assert Row(r)[..|Row(r)|] == Row(r);
    assert Writes(s, s', r, |Row(r)|, false, mutations);
  }

  lemma OneMoreStep(s: System, before: seq<System>, next: System, mutations: set<u32>)
    requires forall i | 0 <= i < |before| :: Next(([s] + before)[i], before[i], mutations)
    requires Next(([s] + before)[|before|], next, mutations)
    ensures forall i | 0 <= i <= |before| :: Next(([s] + (before + [next]))[i], (before + [next])[i], mutations)
  {
    hide Next;
    var steps := before + [next];
    forall i | 0 <= i <= |before|
      ensures Next(([s] + steps)[i], steps[i], mutations)
    {
      assert ([s] + steps)[i] == ([s] + before)[i];
    }
  }

  /** A worker that starts in a supervised run and gets through its pass completes the run, with a verdict of each mutation. */
  lemma PassCompletesRun(run: seq<System>, rows: seq<Record>, mutations: set<u32>) returns (more: seq<System>)
    requires JournalRun.IsRun(run, mutations) && run[|run| - 1].phase.Running?
    requires var w := run[|run| - 1].phase.worker;
      && w == JournalRun.Worker(w.earlier, {}, {}, true)
      && MayDoAll(w, rows, mutations) && DidAll(w, rows).finished == mutations - w.earlier.finished.Keys
    ensures JournalRun.IsRun(run + more, mutations) && |more| == |rows| + 1 && more[|rows|].phase.Completed?
    ensures more[|rows|].disk == run[|run| - 1].disk + Rows(rows)
    ensures Read(more[|rows|].disk).Success? && Read(more[|rows|].disk).value.finished.Keys == mutations
  {
    hide Next, MayDoAll, DidAll;
    var s := run[|run| - 1];
    var steps := RowsAreWrites(s, rows, mutations);
    var last := ([s] + steps)[|steps|];
    var done := last.(phase := Completed);
    DidAllKeeps(s.phase.worker, rows);
    assert Next(last, done, mutations) by {
      CompletesIsNext(last, done, mutations);
    }
    StepsJoin(run, steps, mutations);
    assert (run + steps)[|run + steps| - 1] == last;
    StepsJoin(run + steps, [done], mutations);
    more := steps + [done];
    Associative(run, steps, [done]);
    CompletedRunHasEveryVerdict(run + more, mutations);
  }

  lemma CompletesIsNext(s: System, s': System, mutations: set<u32>)
    requires Completes(s, s', mutations)
    ensures Next(s, s', mutations)
  {}

  lemma StepsJoin(run: seq<System>, steps: seq<System>, mutations: set<u32>)
    requires JournalRun.IsRun(run, mutations)
    requires forall i | 0 <= i < |steps| :: Next(([run[|run| - 1]] + steps)[i], steps[i], mutations)
    ensures JournalRun.IsRun(run + steps, mutations)
  {
    hide Next;
    var whole := run + steps;
    forall i | 0 <= i < |whole| - 1
      ensures Next(whole[i], whole[i + 1], mutations)
    {
      if i >= |run| - 1 {
        var k := i - (|run| - 1);
        assert whole[i] == ([run[|run| - 1]] + steps)[k] && whole[i + 1] == steps[k];
      }
    }
  }

  // ---------- Counting the mutations once ----------

  lemma {:induction false} IdsOfSize(mutations: seq<Mutation>)
    requires DistinctIds(mutations)
    ensures |IdsOf(mutations)| == |mutations|
  {
    if mutations != [] {
      var n := |mutations| - 1;
      IdsOfSize(mutations[..n]);
      assert mutations == mutations[..n] + [mutations[n]];
      IdsOfSnoc(mutations[..n], mutations[n]);
    }
  }

  lemma {:induction false} TallyTotal(recorded: Recorded)
    ensures Tally(recorded, ALL).total == |recorded|
  {
    if recorded != [] {
      TallyTotal(recorded[..|recorded| - 1]);
    }
  }

  lemma CountOnce(recorded: Recorded)
    requires DistinctIds(Recorders(recorded))
    ensures |recorded| == |IdsOf(Recorders(recorded))| == Tally(recorded, ALL).total
  {
    IdsOfSize(Recorders(recorded));
    TallyTotal(recorded);
  }

  /** Each recorded mutation is there once, with the verdict the journal holds of it. */
  predicate Agree(recorded: Recorded, held: Contents) {
    && DistinctIds(Recorders(recorded))
    && forall i | 0 <= i < |recorded| ::
         recorded[i].0.id in held.finished && recorded[i].1 == held.finished[recorded[i].0.id].result
  }

  lemma AgreeGrows(recorded: Recorded, held: Contents, before: Contents)
    requires Agree(recorded, before) && Grows(before, held)
    ensures Agree(recorded, held)
  {}

  lemma AgreeSnoc(recorded: Recorded, held: Contents, m: Mutation)
    requires Agree(recorded, held) && m.id in held.finished && m.id !in IdsOf(Recorders(recorded))
    ensures var more := recorded + [(m, held.finished[m.id].result)];
      Agree(more, held) && IdsOf(Recorders(more)) == IdsOf(Recorders(recorded)) + {m.id}
  {
    var more := recorded + [(m, held.finished[m.id].result)];
    assert Recorders(more) == Recorders(recorded) + [m];
    IdsOfSnoc(Recorders(recorded), m);
  }
}
