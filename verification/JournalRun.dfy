/** A whole supervised run: workers that may crash at any byte they write, and the supervisor that restarts them. */
module JournalRun {
  import opened Integers
  import opened Collections
  import opened Wrappers
  import opened Journal
  import opened JournalRows
  import opened JournalSays
  import opened JournalFile

  // ---------- What rows that were read without an error say ----------

  predicate Readable(rs: seq<Record>) {
    AddAll(NOTHING, rs).Success?
  }

  function Held(rs: seq<Record>): Contents
    requires Readable(rs)
  {
    AddAll(NOTHING, rs).value
  }

  lemma HeldSnoc(rs: seq<Record>, r: Record)
    requires Readable(rs)
    ensures AddAll(NOTHING, rs + [r]) == Add(Held(rs), r)
  {
    assert (rs + [r])[..|rs|] == rs;
  }

  /** No mutation has two finished rows, and none was marked for isolation twice. */
  predicate OnceEach(rs: seq<Record>) {
    && (forall i, j | 0 <= i < j < |rs| && rs[i].Finished? && rs[j].Finished? :: rs[i].id != rs[j].id)
    && (forall i, j | 0 <= i < j < |rs| && rs[i].Isolate? && rs[j].Isolate? :: Ids(rs[i].isolate) !! Ids(rs[j].isolate))
  }

  /** The contents are those of the rows: each finished row counts with its verdict, and each isolated id. */
  predicate Accounted(rs: seq<Record>)
    requires Readable(rs)
  {
    && (forall i | 0 <= i < |rs| && rs[i].Finished? ::
          rs[i].id in Held(rs).finished && Held(rs).finished[rs[i].id] == rs[i].finished)
    && (forall i | 0 <= i < |rs| && rs[i].Isolate? :: Ids(rs[i].isolate) <= Held(rs).isolated)
  }

  /** Contents that later rows only add to: a verdict neither changes nor disappears. */
  predicate Grows(before: Contents, after: Contents) {
    && before.started <= after.started
    && before.isolated <= after.isolated
    && before.finished.Keys <= after.finished.Keys
    && (forall id <- before.finished :: after.finished[id] == before.finished[id])
    && (before.profile.Some? ==> after.profile == before.profile)
  }

  lemma AddGrows(entries: Contents, r: Record)
    requires Add(entries, r).Success?
    ensures Grows(entries, Add(entries, r).value)
  {}

  lemma {:induction false} RowsGrow(before: seq<Record>, after: seq<Record>)
    requires before <= after && Readable(after)
    ensures Readable(before) && Grows(Held(before), Held(after))
    decreases |after|
  {
    if before != after {
      var shorter := after[..|after| - 1];
      assert before <= shorter;
      RowsGrow(before, shorter);
      AddGrows(Held(shorter), after[|after| - 1]);
    } else {
      assert before == after;
    }
  }

  // ---------- The system ----------

  /** A worker with what it read when it started, and what it did since; `healthy` while its writes succeed. */
  datatype Worker = Worker(earlier: Contents, started: set<u32>, finished: set<u32>, healthy: bool)

  datatype Phase = Starting | Running(worker: Worker) | Down | Completed | GivenUp

  datatype System = System(disk: bytes, phase: Phase, lastFinished: nat, restarts: nat)

  const INITIAL := System([], Starting, 0, 0)

  /** The worker opens the journal; it ends at once if it cannot read it. */
  predicate Starts(s: System, s': System) {
    && s.phase.Starting?
    && s' == match Read(s.disk)
       case Failure(_) => s.(phase := Down)
       case Success(earlier) => s.(phase := Running(Worker(earlier, {}, {}, true)))
  }

  /** The worker after it starts mutations, or finishes one that it started and no worker finished before. */
  function Did(w: Worker, r: Record): Worker {
    match r
    case Started(ids) => w.(started := w.started + Ids(ids))
    case Finished(id, _) => w.(finished := w.finished + {id})
    case _ => w
  }

  predicate MayDo(w: Worker, r: Record, mutations: set<u32>) {
    match r
    case Started(ids) => Ids(ids) <= mutations
    case Finished(id, _) => id in w.started && id !in w.earlier.finished && id !in w.finished
    case Isolate(_) => false
    case Profiled(_) => true
  }

  /** The worker writes a row: the file takes any number of its bytes, and the worker may crash right then. */
  predicate Writes(s: System, s': System, r: Record, accepted: nat, crashes: bool, mutations: set<u32>) {
    && s.phase.Running?
    && MayDo(s.phase.worker, r, mutations)
    && var (disk, healthy) := Written(s.disk, s.phase.worker.healthy, r, accepted);
       s' == s.(disk := disk, phase := if crashes then Down else Running(Did(s.phase.worker, r).(healthy := healthy)))
  }

  predicate Crashes(s: System, s': System) {
    s.phase.Running? && s' == s.(phase := Down)
  }

  /** The worker completes the analysis: every mutation has a verdict, and every write succeeded. */
  predicate Completes(s: System, s': System, mutations: set<u32>) {
    && s.phase.Running?
    && s.phase.worker.healthy
    && mutations <= s.phase.worker.earlier.finished.Keys + s.phase.worker.finished
    && s' == s.(phase := Completed)
  }

  /** The supervisor marks what the crashed worker left unfinished, and restarts while there is any point in it. */
  predicate Supervises(s: System, s': System) {
    && s.phase.Down?
    && s' == match AfterIsolation(s.disk)
       case Failure(_) => s.(disk := Cut(s.disk), phase := GivenUp)
       case Success((disk, crash)) =>
         if crash.isolated != [] || crash.finished > s.lastFinished
         then System(disk, Starting, crash.finished, s.restarts + 1)
         else System(disk, GivenUp, crash.finished, s.restarts)
  }

  /** A stop signal ends the run as it is. */
  predicate Stops(s: System, s': System) {
    s.phase.Down? && s' == s.(phase := GivenUp)
  }

  /** The supervisor writes only the first bytes of its row, and gives up. */
  predicate FailsToIsolate(s: System, s': System, accepted: nat) {
    && s.phase.Down?
    && AfterIsolation(s.disk).Success?
    && var (disk, crash) := AfterIsolation(s.disk).value;
       |Cut(s.disk)| + accepted < |disk| && s' == s.(disk := disk[..|Cut(s.disk)| + accepted], phase := GivenUp)
  }

  ghost predicate Next(s: System, s': System, mutations: set<u32>) {
    || Starts(s, s')
    || (exists r, accepted, crashes :: Writes(s, s', r, accepted, crashes, mutations))
    || Crashes(s, s')
    || Completes(s, s', mutations)
    || Supervises(s, s')
    || Stops(s, s')
    || (exists accepted :: FailsToIsolate(s, s', accepted))
  }

  ghost predicate IsRun(run: seq<System>, mutations: set<u32>) {
    && run != [] && run[0] == INITIAL
    && forall i | 0 <= i < |run| - 1 :: Next(run[i], run[i + 1], mutations)
  }

  // ---------- The invariant, over the rows whose newline was written ----------

  function Torn(s: System, rows: seq<Record>): bytes
    requires Rows(rows) <= s.disk
  {
    s.disk[|Rows(rows)|..]
  }

  predicate DiskHolds(s: System, rows: seq<Record>, mutations: set<u32>) {
    && Rows(rows) <= s.disk && NEWLINE !in Torn(s, rows)
    && Readable(rows) && OnceEach(rows) && Accounted(rows)
    && var held := Held(rows);
       held.finished.Keys <= held.started <= mutations && held.isolated <= held.started
  }

  predicate WorkerKnows(w: Worker, held: Contents, torn: bytes) {
    && Grows(w.earlier, held)
    && held.finished.Keys <= w.earlier.finished.Keys + w.finished
    && (w.healthy ==> torn == [] && w.started <= held.started && held.finished.Keys == w.earlier.finished.Keys + w.finished)
  }

  predicate Inv(s: System, rows: seq<Record>, mutations: set<u32>) {
    && DiskHolds(s, rows, mutations)
    && (s.phase.Starting? ==> Torn(s, rows) == [] && Held(rows).Unfinished() <= Held(rows).isolated)
    && (s.phase.Running? ==> WorkerKnows(s.phase.worker, Held(rows), Torn(s, rows)))
    && (s.phase.Completed? ==> Torn(s, rows) == [] && Held(rows).finished.Keys == mutations)
    && s.lastFinished <= |Held(rows).finished|
    && s.restarts <= |Held(rows).isolated| + s.lastFinished
  }

  /** A row that says nothing twice keeps what the rows say in order. */
  lemma RowKeeps(rows: seq<Record>, r: Record)
    requires Readable(rows) && OnceEach(rows) && Accounted(rows)
    requires r.Finished? ==> r.id !in Held(rows).finished
    requires r.Isolate? ==> Ids(r.isolate) !! Held(rows).isolated
    ensures Readable(rows + [r]) && OnceEach(rows + [r]) && Accounted(rows + [r])
    ensures Held(rows + [r]) == Add(Held(rows), r).value && Grows(Held(rows), Held(rows + [r]))
  {
    HeldSnoc(rows, r);
    AddGrows(Held(rows), r);
    hide Held, Grows;
  }

  lemma WholeDisk(s: System, rows: seq<Record>)
    requires Rows(rows) <= s.disk && NEWLINE !in Torn(s, rows)
    ensures Cut(s.disk) == Rows(rows) && Read(Cut(s.disk)) == AddAll(NOTHING, rows)
  {
    assert s.disk == Rows(rows) + Torn(s, rows);
    CutRows(rows, Torn(s, rows));
    ReadWholeRows(rows);
  }

  /** After a failed write, the worker writes nothing. */
  lemma UnhealthyWriteKeeps(s: System, s': System, rows: seq<Record>, mutations: set<u32>, r: Record, accepted: nat, crashes: bool)
    requires Inv(s, rows, mutations) && Writes(s, s', r, accepted, crashes, mutations) && !s.phase.worker.healthy
    ensures Inv(s', rows, mutations)
  {
    hide DiskHolds, Held, Grows, Row, MayDo;
    assert s'.disk == s.disk;
    SameDisk(s, s', rows, mutations);
  }

  lemma SameDisk(s: System, s': System, rows: seq<Record>, mutations: set<u32>)
    requires DiskHolds(s, rows, mutations) && s'.disk == s.disk
    ensures DiskHolds(s', rows, mutations)
  {}

  lemma TornWriteKeeps(s: System, s': System, rows: seq<Record>, mutations: set<u32>, r: Record, accepted: nat, crashes: bool)
    requires Inv(s, rows, mutations) && Writes(s, s', r, accepted, crashes, mutations)
    requires s.phase.worker.healthy && accepted < |Row(r)|
    ensures Inv(s', rows, mutations)
  {
    hide Held, Readable, OnceEach, Accounted, Grows, Row, MayDo;
    assert s.disk == Rows(rows);
    TornHasNoNewline(r, accepted);
    assert Torn(s', rows) == Row(r)[..accepted];
  }

  lemma WholeWriteKeeps(s: System, s': System, rows: seq<Record>, mutations: set<u32>, r: Record, accepted: nat, crashes: bool)
    requires Inv(s, rows, mutations) && Writes(s, s', r, accepted, crashes, mutations)
    requires s.phase.worker.healthy && accepted >= |Row(r)|
    ensures Inv(s', rows + [r], mutations)
  {
    hide OnceEach, Accounted, Row, Rows, Readable, Held;
    assert s.disk == Rows(rows);
    AppendRow(rows, r);
    WorkerRowKeeps(s.phase.worker, rows, r, mutations);
    var after := Held(rows + [r]);
    assert s'.disk == Rows(rows + [r]) && Torn(s', rows + [r]) == [];
    FinishedCount(Held(rows), after);
    hide Grows;
  }

  /** What a worker's next row adds to those before it, and what the worker then knows. */
  lemma WorkerRowKeeps(w: Worker, rows: seq<Record>, r: Record, mutations: set<u32>)
    requires Readable(rows) && OnceEach(rows) && Accounted(rows) && MayDo(w, r, mutations)
    requires WorkerKnows(w, Held(rows), []) && w.healthy
    requires Held(rows).finished.Keys <= Held(rows).started <= mutations && Held(rows).isolated <= Held(rows).started
    ensures Readable(rows + [r]) && OnceEach(rows + [r]) && Accounted(rows + [r])
    ensures Grows(Held(rows), Held(rows + [r])) && WorkerKnows(Did(w, r), Held(rows + [r]), [])
    ensures var held := Held(rows + [r]); held.finished.Keys <= held.started <= mutations && held.isolated <= held.started
  {
    hide OnceEach, Accounted, Held, Readable;
    RowKeeps(rows, r);
  }

  lemma WriteKeeps(s: System, s': System, rows: seq<Record>, mutations: set<u32>, r: Record, accepted: nat, crashes: bool)
    returns (rows': seq<Record>)
    requires Inv(s, rows, mutations) && Writes(s, s', r, accepted, crashes, mutations)
    ensures Inv(s', rows', mutations) && rows <= rows'
  {
    hide Inv;
    rows' := rows;
    if !s.phase.worker.healthy {
      UnhealthyWriteKeeps(s, s', rows, mutations, r, accepted, crashes);
    } else if accepted < |Row(r)| {
      TornWriteKeeps(s, s', rows, mutations, r, accepted, crashes);
    } else {
      rows' := rows + [r];
      WholeWriteKeeps(s, s', rows, mutations, r, accepted, crashes);
    }
  }

  lemma FinishedCount(before: Contents, after: Contents)
    requires Grows(before, after)
    ensures |before.finished| <= |after.finished| && |before.isolated| <= |after.isolated|
  {
    SubsetSize(before.finished.Keys, after.finished.Keys);
    SubsetSize(before.isolated, after.isolated);
  }

  /** Marking what is unfinished and was not marked before leaves nothing unmarked, and marks nothing twice. */
  lemma IsolateRowKeeps(rows: seq<Record>, ids: seq<u32>)
    requires Readable(rows) && OnceEach(rows) && Accounted(rows)
    requires Ids(ids) == Held(rows).Unfinished() - Held(rows).isolated && |ids| == |Ids(ids)|
    ensures var rows' := rows + [Isolate(ids)];
      && Readable(rows') && OnceEach(rows') && Accounted(rows')
      && Held(rows') == Held(rows).(isolated := Held(rows).isolated + Ids(ids))
      && Held(rows').Unfinished() <= Held(rows').isolated
      && |Held(rows').isolated| == |Held(rows).isolated| + |ids|
  {
    hide OnceEach, Accounted, Grows, Ids;
    RowKeeps(rows, Isolate(ids));
    DisjointSize(Held(rows).isolated, Ids(ids));
  }

  lemma DisjointSize(a: set<u32>, b: set<u32>)
    requires a !! b
    ensures |a + b| == |a| + |b|
  {}

  /** What the supervisor does, in terms of the whole rows. */
  lemma SupervisedIs(s: System, s': System, rows: seq<Record>)
    requires Rows(rows) <= s.disk && NEWLINE !in Torn(s, rows) && Readable(rows) && Supervises(s, s')
    ensures var held := Held(rows);
      var isolated := Ascending(held.Unfinished() - held.isolated);
      && s'.disk == Rows(rows) + (if isolated == [] then [] else Row(Isolate(isolated)))
      && s'.lastFinished == |held.finished|
      && if isolated != [] || |held.finished| > s.lastFinished
         then s'.phase.Starting? && s'.restarts == s.restarts + 1
         else s'.phase.GivenUp? && s'.restarts == s.restarts
  {
    hide Rows, Row, Ascending, Cut, Journal.Read;
    WholeDisk(s, rows);
  }

  lemma IsolatedDisk(s: System, s': System, rows: seq<Record>, mutations: set<u32>, ids: seq<u32>)
    requires DiskHolds(s, rows, mutations) && s'.disk == Rows(rows) + Row(Isolate(ids))
    requires Ids(ids) == Held(rows).Unfinished() - Held(rows).isolated && |ids| == |Ids(ids)|
    ensures var rows' := rows + [Isolate(ids)];
      && DiskHolds(s', rows', mutations) && Torn(s', rows') == []
      && Held(rows').finished == Held(rows).finished && Held(rows').Unfinished() <= Held(rows').isolated
      && |Held(rows').isolated| == |Held(rows).isolated| + |ids|
  {
    hide OnceEach, Accounted, Row, Ids;
    AppendRow(rows, Isolate(ids));
    IsolateRowKeeps(rows, ids);
    hide Rows;
    assert Torn(s', rows + [Isolate(ids)]) == [];
  }

  /** A restart follows mutations newly marked, or newly finished. */
  lemma DownKeeps(s: System, s': System, rows: seq<Record>, rows': seq<Record>, mutations: set<u32>, marked: nat)
    requires Inv(s, rows, mutations) && DiskHolds(s', rows', mutations) && Torn(s', rows') == []
    requires Held(rows').Unfinished() <= Held(rows').isolated
    requires |Held(rows').isolated| == |Held(rows).isolated| + marked
    requires Held(rows').finished == Held(rows).finished && s'.lastFinished == |Held(rows).finished|
    requires if marked > 0 || s'.lastFinished > s.lastFinished
      then s'.phase.Starting? && s'.restarts == s.restarts + 1
      else s'.phase.GivenUp? && s'.restarts == s.restarts
    ensures Inv(s', rows', mutations)
  {
    hide DiskHolds, Rows, Torn;
  }

  lemma SuperviseKeeps(s: System, s': System, rows: seq<Record>, mutations: set<u32>) returns (rows': seq<Record>)
    requires Inv(s, rows, mutations) && Supervises(s, s')
    ensures Inv(s', rows', mutations) && rows <= rows'
  {
    SupervisedIs(s, s', rows);
    var isolated := Ascending(Held(rows).Unfinished() - Held(rows).isolated);
    AscendingLists(Held(rows).Unfinished() - Held(rows).isolated);
    if isolated == [] {
      rows' := rows;
      NoneFresh(Held(rows).Unfinished(), Held(rows).isolated);
      SameRows(s, s', rows, mutations);
    } else {
      rows' := rows + [Isolate(isolated)];
      IsolatedDisk(s, s', rows, mutations, isolated);
    }
    hide Inv, DiskHolds, Contents.Unfinished, Supervises, Ascending, Ascends, Ids, Rows, Torn, Row;
    DownKeeps(s, s', rows, rows', mutations, |isolated|);
  }

  lemma SameRows(s: System, s': System, rows: seq<Record>, mutations: set<u32>)
    requires DiskHolds(s, rows, mutations) && s'.disk == Rows(rows) + []
    ensures DiskHolds(s', rows, mutations) && Torn(s', rows) == []
  {
    assert s'.disk == Rows(rows);
  }

  lemma NoneFresh(unfinished: set<u32>, isolated: set<u32>)
    requires |unfinished - isolated| == 0
    ensures unfinished <= isolated
  {
    forall id <- unfinished
      ensures id in isolated
    {
      assert id !in unfinished - isolated;
    }
  }

  lemma FailedIsolationKeeps(s: System, s': System, rows: seq<Record>, mutations: set<u32>, accepted: nat)
    requires Inv(s, rows, mutations) && FailsToIsolate(s, s', accepted)
    ensures Inv(s', rows, mutations)
  {
    hide Read, AddAll, OnceEach, Accounted;
    WholeDisk(s, rows);
    var (disk, crash) := AfterIsolation(s.disk).value;
    var r := Isolate(crash.isolated);
    TornHasNoNewline(r, accepted);
    assert disk == Rows(rows) + if crash.isolated == [] then [] else Row(r);
    assert s'.disk == Rows(rows) + Row(r)[..accepted];
    assert Torn(s', rows) == Row(r)[..accepted];
  }

  lemma StartKeeps(s: System, s': System, rows: seq<Record>, mutations: set<u32>)
    requires Inv(s, rows, mutations) && Starts(s, s')
    ensures Inv(s', rows, mutations) && s'.phase.Running?
    ensures s'.phase.worker.earlier.Unfinished() <= s'.phase.worker.earlier.isolated
  {
    WholeDisk(s, rows);
    assert s.disk == Rows(rows) + Torn(s, rows) == Rows(rows);
    ReadWholeRows(rows);
    assert Torn(s', rows) == [];
  }

  lemma QuietStepKeeps(s: System, s': System, rows: seq<Record>, mutations: set<u32>)
    requires Inv(s, rows, mutations) && (Crashes(s, s') || Completes(s, s', mutations) || Stops(s, s'))
    ensures Inv(s', rows, mutations)
  {
    assert Torn(s', rows) == Torn(s, rows);
  }

  lemma NextKeeps(s: System, s': System, rows: seq<Record>, mutations: set<u32>) returns (rows': seq<Record>)
    requires Inv(s, rows, mutations) && Next(s, s', mutations)
    ensures Inv(s', rows', mutations) && rows <= rows'
  {
    hide Inv, Starts, Writes, Crashes, Completes, Supervises, Stops, FailsToIsolate;
    rows' := rows;
    if Starts(s, s') {
      StartKeeps(s, s', rows, mutations);
    } else if r, accepted, crashes :| Writes(s, s', r, accepted, crashes, mutations) {
      rows' := WriteKeeps(s, s', rows, mutations, r, accepted, crashes);
    } else if Supervises(s, s') {
      rows' := SuperviseKeeps(s, s', rows, mutations);
    } else if accepted :| FailsToIsolate(s, s', accepted) {
      FailedIsolationKeeps(s, s', rows, mutations, accepted);
    } else {
      QuietStepKeeps(s, s', rows, mutations);
    }
  }

  lemma InitialHolds(mutations: set<u32>)
    ensures Inv(INITIAL, [], mutations)
  {}

  /** In each state of a run, the rows written so far; each state's rows begin with those of the states before it. */
  lemma {:induction false} RunKeeps(run: seq<System>, mutations: set<u32>) returns (history: seq<seq<Record>>)
    requires IsRun(run, mutations)
    ensures |history| == |run| && forall i | 0 <= i < |run| :: Inv(run[i], history[i], mutations)
    ensures forall i, j | 0 <= i <= j < |run| :: history[i] <= history[j]
  {
    hide Inv, Next;
    var n := |run| - 1;
    if n == 0 {
      InitialHolds(mutations);
      history := [[]];
    } else {
      assert IsRun(run[..n], mutations);
      var before := RunKeeps(run[..n], mutations);
      var rows := NextKeeps(run[n - 1], run[n], before[n - 1], mutations);
      history := before + [rows];
      assert forall i | 0 <= i < n :: before[i] <= before[n - 1];
    }
  }

  // ---------- Main results ----------

  /** What a reader that first cuts the torn row finds. */
  function Found(s: System): Result<Contents> {
    Read(Cut(s.disk))
  }

  /** At every point of every run the journal reads without an error, once the torn row is cut: no mutation has two
      finished rows, none is marked for isolation twice, and what was finished before stays as it was. */
  lemma VerdictsAreKept(run: seq<System>, mutations: set<u32>, i: nat, j: nat) returns (rows: seq<Record>)
    requires IsRun(run, mutations) && i <= j < |run|
    ensures Cut(run[j].disk) == Rows(rows) && OnceEach(rows)
    ensures Found(run[i]).Success? && Found(run[j]).Success? && Grows(Found(run[i]).value, Found(run[j]).value)
    ensures SaysTheSame(Found(run[j]).value, rows)
    ensures Found(run[j]).value.finished.Keys <= Found(run[j]).value.started <= mutations
  {
    hide SaysTheSame;
    var history := RunKeeps(run, mutations);
    RowsSay(history[j]);
    WholeDisk(run[i], history[i]);
    WholeDisk(run[j], history[j]);
    RowsGrow(history[i], history[j]);
    rows := history[j];
  }

  /** A completed run has exactly one verdict of every mutation, and leaves no torn row. */
  lemma CompletedRunHasEveryVerdict(run: seq<System>, mutations: set<u32>)
    requires IsRun(run, mutations) && run[|run| - 1].phase.Completed?
    ensures var read := Read(run[|run| - 1].disk);
      && read.Success? && read.value.finished.Keys == mutations && read.value.Unfinished() == {}
      && Records(run[|run| - 1].disk).Success? && forall id :: HasFinished(Records(run[|run| - 1].disk).value, id) <==> id in mutations
  {
    hide HasStarted, HasFinished, IsIsolated, SameResults, SameProfile, Records;
    var history := RunKeeps(run, mutations);
    var s, rows := run[|run| - 1], history[|run| - 1];
    assert s.disk == Rows(rows) + Torn(s, rows) == Rows(rows);
    ReadWholeRows(rows);
    ReadSays(s.disk);
  }

  /** A worker that starts always can read the journal; every mutation that some row names as started, and no row has a
      result of, is listed by a row that isolates it. */
  lemma WorkersStart(run: seq<System>, mutations: set<u32>, i: nat) returns (rows: seq<Record>)
    requires IsRun(run, mutations) && i + 1 < |run| && run[i].phase.Starting?
    ensures run[i].disk == Rows(rows) && run[i + 1].phase.Running?
    ensures SaysTheSame(run[i + 1].phase.worker.earlier, rows)
    ensures forall id | IsUnfinished(rows, id) :: IsIsolated(rows, id)
  {
    hide Inv, IsUnfinished, IsIsolated, SaysTheSame, Contents.Unfinished;
    var history := RunKeeps(run, mutations);
    rows := history[i];
    assert Next(run[i], run[i + 1], mutations);
    StartKeeps(run[i], run[i + 1], rows, mutations);
    StartReads(run[i], run[i + 1], rows, mutations);
    var earlier := run[i + 1].phase.worker.earlier;
    forall id | IsUnfinished(rows, id)
      ensures IsIsolated(rows, id)
    {
      UnfinishedIs(earlier, rows, id);
    }
  }

  lemma StartReads(s: System, s': System, rows: seq<Record>, mutations: set<u32>)
    requires Inv(s, rows, mutations) && Starts(s, s')
    ensures s.disk == Rows(rows) && s'.phase.Running? && SaysTheSame(s'.phase.worker.earlier, rows)
  {
    hide SaysTheSame, OnceEach, Accounted;
    assert s.disk == Rows(rows) + Torn(s, rows) == Rows(rows);
    ReadWholeRows(rows);
    RowsSay(rows);
  }

  /**
   * The supervisor restarts exactly if some mutation is started, has no result and is not isolated yet, or if more
   * mutations are finished than at the last crash; whatever it does, all unfinished ones are isolated then.
   */
  lemma SupervisorRestarts(run: seq<System>, mutations: set<u32>, i: nat) returns (rows: seq<Record>)
    requires IsRun(run, mutations) && i + 1 < |run| && Supervises(run[i], run[i + 1])
    ensures Cut(run[i].disk) == Rows(rows) && run[i + 1].lastFinished == Count(rows, IS_FINISHED)
    ensures run[i + 1].phase.Starting? <==>
      (exists id :: IsUnfinished(rows, id) && !IsIsolated(rows, id)) || Count(rows, IS_FINISHED) > run[i].lastFinished
    ensures Records(run[i + 1].disk).Success?
    ensures forall id | IsUnfinished(rows, id) ::
      IsUnfinished(Records(run[i + 1].disk).value, id) && IsIsolated(Records(run[i + 1].disk).value, id)
  {
    hide Inv, IsUnfinished, IsIsolated, AfterIsolation, Records;
    var history := RunKeeps(run, mutations);
    rows := history[i];
    IsolationOfRows(run[i], rows, mutations);
    var (disk, crash) := AfterIsolation(run[i].disk).value;
    if crash.isolated != [] {
      assert crash.isolated[0] in crash.isolated;
    }
    forall id | IsUnfinished(rows, id)
      ensures IsUnfinished(Records(disk).value, id) && IsIsolated(Records(disk).value, id)
    {
      OneMoreSays(rows, Isolate(crash.isolated), id);
      StaysUnfinished(rows, crash.isolated, id);
    }
  }

  lemma StaysUnfinished(rows: seq<Record>, isolated: seq<u32>, id: u32)
    requires IsUnfinished(rows, id)
    ensures IsUnfinished(rows + [Isolate(isolated)], id)
  {
    OneMoreSays(rows, Isolate(isolated), id);
  }

  /** What the supervisor finds and leaves, row by row. */
  lemma IsolationOfRows(s: System, rows: seq<Record>, mutations: set<u32>)
    requires Inv(s, rows, mutations)
    ensures Cut(s.disk) == Rows(rows) && AfterIsolation(s.disk).Success?
    ensures var (disk, crash) := AfterIsolation(s.disk).value;
      && Marks(rows, crash)
      && Records(disk) == Success(if crash.isolated == [] then rows else rows + [Isolate(crash.isolated)])
  {
    hide OnceEach, Accounted, Marks, Row, Rows, Records, Ascending;
    WholeDisk(s, rows);
    IsolationMarks(s.disk);
    RecordsOfRows(rows);
    var (disk, crash) := AfterIsolation(s.disk).value;
    AppendRow(rows, Isolate(crash.isolated));
    RecordsOfRows(rows + [Isolate(crash.isolated)]);
    assert Rows(rows) + [] == Rows(rows);
  }

  /** Each restart marks a mutation for isolation that no earlier one did, or follows more finished mutations than the
      last, so there are at most two for each mutation. */
  lemma RestartsAreBounded(run: seq<System>, mutations: set<u32>)
    requires IsRun(run, mutations)
    ensures run[|run| - 1].restarts <= 2 * |mutations|
  {
    var history := RunKeeps(run, mutations);
    var held := Held(history[|run| - 1]);
    SubsetSize(held.isolated, mutations);
    SubsetSize(held.finished.Keys, mutations);
  }

  /** Nothing is left to isolate in rows that isolate all that is unfinished. */
  lemma IsolatesNothing(rows: seq<Record>, before: seq<Record>)
    requires Readable(rows) && Readable(before) && Held(rows).Unfinished() <= Held(rows).isolated
    requires Held(rows).Unfinished() == Held(before).Unfinished() && Held(rows).finished == Held(before).finished
    ensures AfterIsolation(Rows(rows)) == Success((Rows(rows), Crash([], |Held(before).Unfinished()|, |Held(before).finished|)))
  {
    assert Rows(rows) + [] == Rows(rows);
    CutRows(rows, []);
    ReadWholeRows(rows);
    assert Held(rows).Unfinished() - Held(rows).isolated == {};
  }

  /** Isolating twice with no worker in between marks nothing more, and leaves the file as it is. */
  lemma IsolatingAgainAddsNothing(s: System, rows: seq<Record>, mutations: set<u32>)
    requires DiskHolds(s, rows, mutations)
    ensures AfterIsolation(s.disk).Success?
    ensures var (disk, crash) := AfterIsolation(s.disk).value;
      AfterIsolation(disk) == Success((disk, crash.(isolated := [])))
  {
    WholeDisk(s, rows);
    var (disk, crash) := AfterIsolation(s.disk).value;
    var held := Held(rows);
    AscendingLists(held.Unfinished() - held.isolated);
    if crash.isolated == [] {
      assert disk == Cut(s.disk) + [] == Rows(rows);
      assert held.Unfinished() - held.isolated == {};
      IsolatesNothing(rows, rows);
    } else {
      AppendRow(rows, Isolate(crash.isolated));
      RowKeeps(rows, Isolate(crash.isolated));
      IsolatesNothing(rows + [Isolate(crash.isolated)], rows);
    }
  }
}
