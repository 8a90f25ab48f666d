/** The thread pool, one atomic step of a thread at a time: submitters, workers, and the handles of jobs. */
module ThreadPool {
  import opened Collections
  import opened Wrappers

  // ---------- The state that threads share ----------

  /** What a job comes to: it returns, or it panics and the panic is caught. */
  datatype Outcome = Returned | Panicked(payload: int)

  datatype Handle = Held | Joined | Dropped

  /** Where a job's message is: with its submitter, in the channel, with a worker, used up, or dropped with the channel. */
  datatype Place = Sending | InQueue | At(worker: nat) | Left | Lost

  /** A job's two packets with their reference counts, its two flags, and each worker that ran it with what came of it. */
  datatype Job = Job(
    threadId: Option<nat>, idRefs: int, started: bool,
    result: Option<Outcome>, resultRefs: int, finished: bool,
    handle: Handle, place: Place, runs: seq<(nat, Outcome)>)

  /** What a worker did last for its job; each step that other threads can tell apart is one. */
  datatype Pc =
    | Received
    | Dequeued
    | Activated
    | IdWritten
    | IdReleased
    | Allocated
    | Ran(outcome: Outcome)
    | ResultWritten
    | ResultReleased
    | Finished

  datatype Worker = Idle | Busy(job: nat, pc: Pc) | Gone

  /** `pools` counts the pool and its clones; the receiver lives as long as one of them or a worker does. */
  datatype System = System(
    jobs: seq<Job>, queue: seq<nat>, workers: seq<Worker>, pools: nat, queuedCount: int, activeCount: int)

  /** A new pool, whose workers are all about to wait for a job. */
  predicate Starts(s: System, size: nat) {
    s == System([], [], seq(size, _ => Idle), 1, 0, 0)
  }

  // ---------- Steps of submitters ----------

  const NEW_JOB := Job(None, 1, false, None, 1, false, Held, Sending, [])

  /** `execute` counts the job before it sends it. */
  predicate Executes(s: System, s': System) {
    s.pools > 0 && s' == s.(jobs := s.jobs + [NEW_JOB], queuedCount := s.queuedCount + 1)
  }

  predicate Sends(s: System, s': System, j: nat) {
    && j < |s.jobs|
    && s.jobs[j].place == Sending
    && var job := s.jobs[j];
       s' == s.(
         jobs := s.jobs[j := job.(place := InQueue, idRefs := job.idRefs + 1, resultRefs := job.resultRefs + 1)],
         queue := s.queue + [j])
  }

  predicate ClonesPool(s: System, s': System) {
    s.pools > 0 && s' == s.(pools := s.pools + 1)
  }

  /** A pool that a submitter still uses cannot be dropped. */
  predicate DropsPool(s: System, s': System) {
    && s.pools > 0
    && (s.pools == 1 ==> forall j | 0 <= j < |s.jobs| :: s.jobs[j].place != Sending)
    && s' == s.(pools := s.pools - 1)
  }

  // ---------- Steps of workers ----------

  /** One worker at a time holds the receiver, and takes the oldest message. */
  predicate Receives(s: System, s': System, w: nat) {
    && w < |s.workers|
    && s.workers[w] == Idle
    && s.queue != []
    && var j := s.queue[0];
       && j < |s.jobs|
       && s' == s.(
         queue := s.queue[1..],
         workers := s.workers[w := Busy(j, Received)],
         jobs := s.jobs[j := s.jobs[j].(place := At(w))])
  }

  /** The channel is empty and has no sender any more, so the worker's loop ends. */
  predicate Leaves(s: System, s': System, w: nat) {
    && w < |s.workers|
    && s.workers[w] == Idle
    && s.queue == []
    && s.pools == 0
    && s' == s.(workers := s.workers[w := Gone])
  }

  /** With neither pools nor workers left, the receiver is dropped, and with it each message in the channel. */
  predicate DropsMessage(s: System, s': System) {
    && s.pools == 0
    && (forall w | 0 <= w < |s.workers| :: s.workers[w] == Gone)
    && s.queue != []
    && var j := s.queue[0];
       && j < |s.jobs|
       && var job := s.jobs[j];
          s' == s.(
            queue := s.queue[1..],
            jobs := s.jobs[j := job.(place := Lost, idRefs := job.idRefs - 1, resultRefs := job.resultRefs - 1)])
  }

  /** The worker's next step changes its job, */
  function NextJob(job: Job, w: nat, pc: Pc, outcome: Outcome): Job {
    match pc
    case Received => job
    case Dequeued => job
    case Activated => job.(threadId := Some(w))
    case IdWritten => job.(idRefs := job.idRefs - 1)
    case IdReleased => job.(started := true)
    case Allocated => job.(runs := job.runs + [(w, outcome)])
    case Ran(ran) => job.(result := Some(ran))
    case ResultWritten => job.(resultRefs := job.resultRefs - 1)
    case ResultReleased => job.(finished := true)
    case Finished => job.(place := Left)
  }

  /** the worker itself, */
  function NextWorker(j: nat, pc: Pc, outcome: Outcome): Worker {
    match pc
    case Received => Busy(j, Dequeued)
    case Dequeued => Busy(j, Activated)
    case Activated => Busy(j, IdWritten)
    case IdWritten => Busy(j, IdReleased)
    case IdReleased => Busy(j, Allocated)
    case Allocated => Busy(j, Ran(outcome))
    case Ran(_) => Busy(j, ResultWritten)
    case ResultWritten => Busy(j, ResultReleased)
    case ResultReleased => Busy(j, Finished)
    case Finished => Idle
  }

  /** and the counts. The job comes to any outcome. */
  predicate Advances(s: System, s': System, w: nat, outcome: Outcome) {
    && w < |s.workers|
    && s.workers[w].Busy?
    && var Busy(j, pc) := s.workers[w];
       && j < |s.jobs|
       && s' == s.(
         jobs := s.jobs[j := NextJob(s.jobs[j], w, pc, outcome)],
         workers := s.workers[w := NextWorker(j, pc, outcome)],
         queuedCount := s.queuedCount - (if pc == Received then 1 else 0),
         activeCount := s.activeCount + (if pc == Dequeued then 1 else 0) - (if pc == Finished then 1 else 0))
  }

  // ---------- Steps of handles ----------

  /** `execute` has returned the handle, and it was neither joined nor dropped. */
  predicate HasHandle(s: System, j: nat) {
    j < |s.jobs| && s.jobs[j].place != Sending && s.jobs[j].handle == Held
  }

  /** `join` waits for the flag, takes the result and gives up the handle. */
  predicate Joins(s: System, s': System, j: nat) {
    && HasHandle(s, j)
    && s.jobs[j].finished
    && var job := s.jobs[j];
       s' == s.(jobs := s.jobs[j := job.(
         handle := Joined, result := None, idRefs := job.idRefs - 1, resultRefs := job.resultRefs - 1)])
  }

  predicate DropsHandle(s: System, s': System, j: nat) {
    && HasHandle(s, j)
    && var job := s.jobs[j];
       s' == s.(jobs := s.jobs[j := job.(handle := Dropped, idRefs := job.idRefs - 1, resultRefs := job.resultRefs - 1)])
  }

  ghost predicate Step(s: System, s': System) {
    || Executes(s, s')
    || (exists j :: Sends(s, s', j))
    || ClonesPool(s, s')
    || DropsPool(s, s')
    || (exists w :: Receives(s, s', w))
    || (exists w :: Leaves(s, s', w))
    || DropsMessage(s, s')
    || (exists w, outcome :: Advances(s, s', w, outcome))
    || (exists j :: Joins(s, s', j))
    || (exists j :: DropsHandle(s, s', j))
  }

  // ---------- What every step keeps ----------

  function Rank(pc: Pc): nat {
    match pc
    case Received => 0
    case Dequeued => 1
    case Activated => 2
    case IdWritten => 3
    case IdReleased => 4
    case Allocated => 5
    case Ran(_) => 6
    case ResultWritten => 7
    case ResultReleased => 8
    case Finished => 9
  }

  const DONE: nat := 10

  /** The references, the packets and the flags of a job after so many of its worker's steps. */
  predicate JobAt(job: Job, rank: nat) {
    var held := if job.handle == Held then 1 else 0;
    && job.idRefs == held + (if rank <= 3 then 1 else 0)
    && (job.threadId.Some? <==> rank >= 3)
    && (job.started <==> rank >= 5)
    && |job.runs| == (if rank >= 6 then 1 else 0)
    && (job.result.Some? <==> rank >= 7 && job.handle != Joined)
    && job.resultRefs == held + (if rank <= 7 then 1 else 0)
    && (job.finished <==> rank >= 9)
    && (job.handle == Joined ==> job.finished)
  }

  /** What the packets hold is what the run came to, and the worker that ran the job. */
  predicate PacketsAreOfRun(job: Job) {
    && (job.result.Some? ==> |job.runs| == 1 && job.result == Some(job.runs[0].1))
    && (job.threadId.Some? && job.runs != [] ==> job.threadId == Some(job.runs[0].0))
  }

  predicate IsRunBy(job: Job, w: nat, pc: Pc) {
    && (job.threadId.Some? ==> job.threadId == Some(w))
    && (pc.Ran? ==> job.runs == [(w, pc.outcome)])
  }

  predicate NotBegun(job: Job, message: nat) {
    var held := if job.handle == Held then 1 else 0;
    && job.idRefs == job.resultRefs == held + message
    && job.threadId.None? && job.result.None? && !job.started && !job.finished && job.runs == []
    && job.handle != Joined
  }

  predicate JobInv(s: System, j: nat)
    requires j < |s.jobs|
  {
    var job := s.jobs[j];
    match job.place
    case Sending => NotBegun(job, 0) && job.handle == Held && s.pools > 0
    case InQueue => NotBegun(job, 1)
    case At(w) =>
      && w < |s.workers| && s.workers[w].Busy? && s.workers[w].job == j
      && JobAt(job, Rank(s.workers[w].pc)) && PacketsAreOfRun(job) && IsRunBy(job, w, s.workers[w].pc)
    case Left => JobAt(job, DONE) && PacketsAreOfRun(job)
    case Lost => NotBegun(job, 0) && s.pools == 0 && |s.workers| == 0
  }

  /** Messages are in the channel once each, and each worker's job is its own. */
  predicate PlaceInv(s: System) {
    && (forall i | 0 <= i < |s.queue| :: s.queue[i] < |s.jobs| && s.jobs[s.queue[i]].place == InQueue)
    && (forall i, k | 0 <= i < k < |s.queue| :: s.queue[i] != s.queue[k])
    && (forall w | 0 <= w < |s.workers| && s.workers[w].Busy? ::
          s.workers[w].job < |s.jobs| && s.jobs[s.workers[w].job].place == At(w))
    && (forall w | 0 <= w < |s.workers| && s.workers[w].Gone? :: s.pools == 0 && s.queue == [])
  }

  /** Not taken by a worker. */
  predicate Waits(job: Job) {
    job.place == Sending || job.place == InQueue || job.place == Lost
  }

  /** Taken, but still counted as queued. */
  predicate Taking(w: Worker) {
    w.Busy? && w.pc == Received
  }

  /** Counted as active. */
  predicate Active(w: Worker) {
    w.Busy? && 2 <= Rank(w.pc)
  }

  predicate CountInv(s: System) {
    && s.queuedCount == Count(s.jobs, Waits) + Count(s.workers, Taking)
    && s.activeCount == Count(s.workers, Active)
  }

  predicate Inv(s: System) {
    (forall j | 0 <= j < |s.jobs| :: JobInv(s, j)) && PlaceInv(s) && CountInv(s)
  }

  lemma StartHolds(s: System, size: nat)
    requires Starts(s, size)
    ensures Inv(s)
  {
    CountNone(s.workers, Taking);
    CountNone(s.workers, Active);
  }

  lemma ExecuteKeeps(s: System, s': System)
    requires Inv(s) && Executes(s, s')
    ensures Inv(s')
  {
    CountPush(s.jobs, NEW_JOB, Waits);
    hide CountInv, Count;
    assert forall j | 0 <= j < |s.jobs| :: s'.jobs[j] == s.jobs[j] && JobInv(s, j);
    CountsAre(s, s');
  }

  lemma CountsAre(s: System, s': System)
    requires CountInv(s)
    requires s'.queuedCount - s.queuedCount ==
      Count(s'.jobs, Waits) - Count(s.jobs, Waits) + Count(s'.workers, Taking) - Count(s.workers, Taking)
    requires s'.activeCount - s.activeCount == Count(s'.workers, Active) - Count(s.workers, Active)
    ensures CountInv(s')
  {}

  lemma SendKeeps(s: System, s': System, j: nat)
    requires Inv(s) && Sends(s, s', j)
    ensures Inv(s')
  {
    hide CountInv, Count;
    CountUpdate(s.jobs, j, s'.jobs[j], Waits);
    assert JobInv(s, j);
    assert forall i | 0 <= i < |s.jobs| :: i != j ==> s'.jobs[i] == s.jobs[i] && JobInv(s, i);
    CountsAre(s, s');
  }

  lemma ReceiveKeeps(s: System, s': System, w: nat)
    requires Inv(s) && Receives(s, s', w)
    ensures Inv(s')
  {
    hide CountInv, Count;
    var j := s.queue[0];
    CountUpdate(s.jobs, j, s'.jobs[j], Waits);
    CountUpdate(s.workers, w, s'.workers[w], Taking);
    CountUpdate(s.workers, w, s'.workers[w], Active);
    assert JobInv(s, j);
    assert forall i | 0 <= i < |s.jobs| :: i != j ==> s'.jobs[i] == s.jobs[i] && JobInv(s, i);
    CountsAre(s, s');
  }

  lemma LeaveKeeps(s: System, s': System, w: nat)
    requires Inv(s) && Leaves(s, s', w)
    ensures Inv(s')
  {
    hide CountInv, Count;
    CountUpdate(s.workers, w, Gone, Taking);
    CountUpdate(s.workers, w, Gone, Active);
    forall i | 0 <= i < |s.jobs|
      ensures JobInv(s', i)
    {
      assert JobInv(s, i);
    }
    CountsAre(s, s');
  }

  function First<T>(xs: seq<T>): T
    requires xs != []
  {
    xs[0]
  }

  /** A worker leaves only an empty channel, so a message that is dropped never had a worker. */
  lemma NoWorkers(s: System)
    requires PlaceInv(s) && s.queue != [] && forall w | 0 <= w < |s.workers| :: s.workers[w] == Gone
    ensures s.workers == []
  {
    if s.workers != [] {
      var first := First(s.workers);
      assert false;
    }
  }

  lemma DropMessageKeeps(s: System, s': System)
    requires Inv(s) && DropsMessage(s, s')
    ensures Inv(s')
  {
    hide CountInv, Count;
    var j := s.queue[0];
    NoWorkers(s);
    CountUpdate(s.jobs, j, s'.jobs[j], Waits);
    assert JobInv(s, j);
    assert forall i | 0 <= i < |s.jobs| :: i != j ==> s'.jobs[i] == s.jobs[i] && JobInv(s, i);
    CountsAre(s, s');
  }

  lemma AdvanceKeeps(s: System, s': System, w: nat, outcome: Outcome)
    requires Inv(s) && Advances(s, s', w, outcome)
    ensures Inv(s')
  {
    hide CountInv, Count, JobInv, PlaceInv, JobAt;
    AdvanceKeepsJobs(s, s', w, outcome);
    AdvanceKeepsPlaces(s, s', w, outcome);
    AdvanceKeepsCounts(s, s', w, outcome);
  }

  /** The worker's step takes its job from one rank to the next, */
  lemma NextRank(job: Job, w: nat, pc: Pc, outcome: Outcome)
    requires JobAt(job, Rank(pc))
    ensures JobAt(NextJob(job, w, pc, outcome), Rank(pc) + 1)
  {}

  /** which is the one that it runs, */
  lemma NextRun(job: Job, j: nat, w: nat, pc: Pc, outcome: Outcome)
    requires JobAt(job, Rank(pc)) && PacketsAreOfRun(job) && IsRunBy(job, w, pc)
    ensures PacketsAreOfRun(NextJob(job, w, pc, outcome))
    ensures pc != Finished ==> IsRunBy(NextJob(job, w, pc, outcome), w, NextWorker(j, pc, outcome).pc)
  {}

  lemma NextWorkerRank(j: nat, pc: Pc, outcome: Outcome)
    ensures pc != Finished ==> NextWorker(j, pc, outcome).Busy? && NextWorker(j, pc, outcome).job == j
    ensures pc != Finished ==> Rank(NextWorker(j, pc, outcome).pc) == Rank(pc) + 1
    ensures pc == Finished ==> NextWorker(j, pc, outcome) == Idle && Rank(pc) + 1 == DONE
  {}

  lemma AdvanceKeepsJobs(s: System, s': System, w: nat, outcome: Outcome)
    requires PlaceInv(s) && (forall j | 0 <= j < |s.jobs| :: JobInv(s, j)) && Advances(s, s', w, outcome)
    ensures forall j | 0 <= j < |s'.jobs| :: JobInv(s', j)
  {
    hide JobAt, Rank, NotBegun, PacketsAreOfRun, IsRunBy;
    var Busy(j, pc) := s.workers[w];
    assert JobInv(s, j);
    NextRank(s.jobs[j], w, pc, outcome);
    NextRun(s.jobs[j], j, w, pc, outcome);
    NextWorkerRank(j, pc, outcome);
    forall i | 0 <= i < |s'.jobs|
      ensures JobInv(s', i)
    {
      if i != j {
        assert JobInv(s, i) && s'.jobs[i] == s.jobs[i];
      }
    }
  }

  /** and leaves it where it is until it is done, */
  lemma AdvanceKeepsPlaces(s: System, s': System, w: nat, outcome: Outcome)
    requires PlaceInv(s) && Advances(s, s', w, outcome)
    ensures PlaceInv(s')
  {}

  /** and the counts move with it. */
  lemma AdvanceKeepsCounts(s: System, s': System, w: nat, outcome: Outcome)
    requires PlaceInv(s) && CountInv(s) && Advances(s, s', w, outcome)
    ensures CountInv(s')
  {
    hide CountInv, Count;
    var j := s.workers[w].job;
    CountUpdate(s.jobs, j, s'.jobs[j], Waits);
    CountUpdate(s.workers, w, s'.workers[w], Taking);
    CountUpdate(s.workers, w, s'.workers[w], Active);
    CountsAre(s, s');
  }

  /** A handle that is given up takes its references with it. */
  lemma HandleKeepsJob(s: System, s': System, j: nat)
    requires j < |s.jobs| && JobInv(s, j) && (Joins(s, s', j) || DropsHandle(s, s', j))
    ensures JobInv(s', j)
  {}

  lemma HandleKeeps(s: System, s': System, j: nat)
    requires Inv(s) && (Joins(s, s', j) || DropsHandle(s, s', j))
    ensures Inv(s')
  {
    hide CountInv, Count, JobAt, NotBegun, PacketsAreOfRun, IsRunBy;
    CountUpdate(s.jobs, j, s'.jobs[j], Waits);
    HandleKeepsJob(s, s', j);
    assert forall i | 0 <= i < |s.jobs| :: i != j ==> s'.jobs[i] == s.jobs[i] && JobInv(s, i);
    CountsAre(s, s');
  }

  lemma PoolsKeep(s: System, s': System)
    requires Inv(s) && (ClonesPool(s, s') || DropsPool(s, s'))
    ensures Inv(s')
  {
    hide Count;
    forall i | 0 <= i < |s.jobs|
      ensures JobInv(s', i)
    {
      assert JobInv(s, i);
    }
  }

  lemma StepKeeps(s: System, s': System)
    requires Inv(s) && Step(s, s')
    ensures Inv(s') && |s'.workers| == |s.workers|
  {
    hide JobInv, PlaceInv, CountInv;
    if Executes(s, s') {
      ExecuteKeeps(s, s');
    } else if j :| Sends(s, s', j) {
      SendKeeps(s, s', j);
    } else if ClonesPool(s, s') || DropsPool(s, s') {
      PoolsKeep(s, s');
    } else if w :| Receives(s, s', w) {
      ReceiveKeeps(s, s', w);
    } else if w :| Leaves(s, s', w) {
      LeaveKeeps(s, s', w);
    } else if DropsMessage(s, s') {
      DropMessageKeeps(s, s');
    } else if w, outcome :| Advances(s, s', w, outcome) {
      AdvanceKeeps(s, s', w, outcome);
    } else if j :| Joins(s, s', j) {
      HandleKeeps(s, s', j);
    } else {
      var j :| DropsHandle(s, s', j);
      HandleKeeps(s, s', j);
    }
  }

  ghost predicate IsRun(run: seq<System>, size: nat) {
    && run != [] && Starts(run[0], size)
    && forall i | 0 <= i < |run| - 1 :: Step(run[i], run[i + 1])
  }

  lemma {:induction false} RunKeeps(run: seq<System>, size: nat)
    requires IsRun(run, size)
    ensures Inv(run[|run| - 1]) && |run[|run| - 1].workers| == size
  {
    hide Inv, Step;
    var n := |run| - 1;
    if n == 0 {
      StartHolds(run[0], size);
    } else {
      assert IsRun(run[..n], size);
      RunKeeps(run[..n], size);
      StepKeeps(run[n - 1], run[n]);
    }
  }

  // ---------- Main results ----------

  /** No job ever runs twice, in any interleaving. */
  lemma JobsRunOnce(run: seq<System>, size: nat, j: nat)
    requires IsRun(run, size) && j < |run[|run| - 1].jobs|
    ensures |run[|run| - 1].jobs[j].runs| <= 1
  {
    RunKeeps(run, size);
    assert JobInv(run[|run| - 1], j);
  }

  /**
   * `queued_count` is the number of jobs that no worker took yet, and of workers about to count theirs off;
   * `active_count` is the number of workers between counting their job in and counting it off, at most the pool's size.
   */
  lemma CountsAreExact(run: seq<System>, size: nat)
    requires IsRun(run, size)
    ensures var s := run[|run| - 1];
      && s.queuedCount == Count(s.jobs, Waits) + Count(s.workers, Taking) >= 0
      && 0 <= s.activeCount == Count(s.workers, Active) <= size
  {
    RunKeeps(run, size);
    CountAtMost(run[|run| - 1].workers, Active);
  }

  /** No count is taken below zero: a step that lowers one finds it at one or more. */
  lemma CountsNeverUnderflow(run: seq<System>, size: nat, s': System, w: nat, outcome: Outcome)
    requires IsRun(run, size) && Advances(run[|run| - 1], s', w, outcome)
    ensures var s := run[|run| - 1];
      (s.workers[w].pc == Received ==> s.queuedCount >= 1) && (s.workers[w].pc == Finished ==> s.activeCount >= 1)
  {
    RunKeeps(run, size);
    var s := run[|run| - 1];
    CountUpdate(s.workers, w, Idle, Taking);
    CountUpdate(s.workers, w, Idle, Active);
  }

  /** `join` and `thread_id` never unwrap nothing: after the wait, the handle holds the only reference to a result. */
  lemma UnwrapsAreSafe(run: seq<System>, size: nat, j: nat)
    requires IsRun(run, size) && HasHandle(run[|run| - 1], j)
    ensures var job := run[|run| - 1].jobs[j];
      && (job.started ==> job.threadId.Some?)
      && (job.finished ==> job.resultRefs == 1 && job.result.Some?)
  {
    RunKeeps(run, size);
    assert JobInv(run[|run| - 1], j);
  }

  /** A job that finished ran once: `join` gives what its run came to, and `thread_id` the worker that ran it. */
  lemma JoinGivesTheOutcome(run: seq<System>, size: nat, j: nat)
    requires IsRun(run, size) && HasHandle(run[|run| - 1], j)
    ensures var job := run[|run| - 1].jobs[j];
      && (job.started ==> job.threadId.Some?)
      && (job.finished ==> job.threadId.Some?)
      && (job.finished ==> exists outcome :: job.runs == [(job.threadId.value, outcome)] && job.result == Some(outcome))
      && (job.started && job.runs != [] ==> job.runs[0].0 == job.threadId.value)
  {
    RunKeeps(run, size);
    assert JobInv(run[|run| - 1], j);
    var job := run[|run| - 1].jobs[j];
    if job.finished {
      assert job.runs == [(job.threadId.value, job.runs[0].1)];
    }
  }

  predicate IsFinished(s: System, j: nat)
    requires HasHandle(s, j)
  {
    s.jobs[j].resultRefs == 1
  }

  /** A finished handle has no result exactly if the job was lost with the channel, which takes a pool of no workers. */
  lemma FinishedMeansWritten(run: seq<System>, size: nat, j: nat)
    requires IsRun(run, size) && HasHandle(run[|run| - 1], j)
    ensures var s := run[|run| - 1];
      && (IsFinished(s, j) && s.jobs[j].result.None? <==> s.jobs[j].place == Lost)
      && (s.jobs[j].place == Lost ==> size == 0 && s.pools == 0)
  {
    RunKeeps(run, size);
    assert JobInv(run[|run| - 1], j);
  }

  /** Such a job counts as finished although it never ran. */
  lemma LostJobLooksFinished() returns (run: seq<System>)
    ensures IsRun(run, 0) && HasHandle(run[|run| - 1], 0)
    ensures IsFinished(run[|run| - 1], 0) && run[|run| - 1].jobs[0].result.None? && run[|run| - 1].jobs[0].runs == []
  {
    var sent := NEW_JOB.(place := InQueue, idRefs := 2, resultRefs := 2);
    var empty := System([], [], [], 1, 0, 0);
    var counted := System([NEW_JOB], [], [], 1, 1, 0);
    var queued := System([sent], [0], [], 1, 1, 0);
    var dropped := queued.(pools := 0);
    var lost := dropped.(queue := [], jobs := [sent.(place := Lost, idRefs := 1, resultRefs := 1)]);
    assert Starts(empty, 0) by {
      assert seq(0, _ => Idle) == [];
    }
    assert Executes(empty, counted);
    assert Sends(counted, queued, 0);
    assert DropsPool(queued, dropped);
    assert DropsMessage(dropped, lost);
    run := [empty, counted, queued, dropped, lost];
  }

  predicate Seals(job: Job, job': Job) {
    && (job.started ==> job'.started && job'.threadId == job.threadId)
    && (job.finished ==> job'.finished && (job'.handle == Joined || job'.result == job.result))
  }

  lemma NextJobSeals(job: Job, w: nat, pc: Pc, outcome: Outcome)
    requires JobAt(job, Rank(pc))
    ensures Seals(job, NextJob(job, w, pc, outcome))
  {}

  /** A packet does not change once its flag is raised, except that `join` takes the result. */
  lemma RaisedFlagsSealPackets(s: System, s': System, j: nat)
    requires Inv(s) && Step(s, s') && j < |s.jobs|
    ensures j < |s'.jobs| && Seals(s.jobs[j], s'.jobs[j])
  {
    hide CountInv, JobAt, NotBegun, PacketsAreOfRun, IsRunBy;
    if w: nat, outcome :| Advances(s, s', w, outcome) {
      assert JobInv(s, s.workers[w].job);
      NextJobSeals(s.jobs[s.workers[w].job], w, s.workers[w].pc, outcome);
    }
  }

  /** The message of one job was sent before that of another, and both are in the channel. */
  predicate IsAhead(queue: seq<nat>, a: nat, b: nat) {
    exists i, k | 0 <= i < k < |queue| :: queue[i] == a && queue[k] == b
  }

  /** The message of this job was in the channel, and left it. */
  predicate HasLeft(s: System, a: nat) {
    a < |s.jobs| && s.jobs[a].place != Sending && a !in s.queue
  }

  lemma StaysAhead(s: System, s': System, a: nat, b: nat)
    requires PlaceInv(s) && IsAhead(s.queue, a, b)
    requires a < |s'.jobs| && s'.jobs[a].place != Sending
    requires s'.queue == s.queue || (s.queue != [] && s'.queue == s.queue[1..]) || (exists j: nat :: s'.queue == s.queue + [j])
    ensures IsAhead(s'.queue, a, b) || HasLeft(s', a)
  {
    var i, k :| 0 <= i < k < |s.queue| && s.queue[i] == a && s.queue[k] == b;
    if s.queue != [] && s'.queue == s.queue[1..] {
      if i > 0 {
        assert s'.queue[i - 1] == a && s'.queue[k - 1] == b;
      }
    } else {
      assert s'.queue[i] == a && s'.queue[k] == b;
    }
  }

  /** Each step leaves the channel as it is, takes its first message, or adds one that was not sent before. */
  lemma QueueSteps(s: System, s': System)
    requires Step(s, s')
    ensures |s.jobs| <= |s'.jobs|
    ensures forall j | 0 <= j < |s.jobs| && s.jobs[j].place != Sending :: s'.jobs[j].place != Sending
    ensures
      || s'.queue == s.queue
      || (s.queue != [] && s'.queue == s.queue[1..])
      || (exists j: nat :: j < |s.jobs| && s.jobs[j].place == Sending && s'.queue == s.queue + [j])
  {
    hide NextJob, NextWorker;
    if w: nat, outcome :| Advances(s, s', w, outcome) {
      NextJobIsSent(s.jobs[s.workers[w].job], w, s.workers[w].pc, outcome);
    }
  }

  lemma NextJobIsSent(job: Job, w: nat, pc: Pc, outcome: Outcome)
    ensures NextJob(job, w, pc, outcome).place == Sending ==> job.place == Sending
  {}

  /** Messages leave the channel in the order in which they were sent into it. */
  lemma {:induction false} FirstSentFirstTaken(run: seq<System>, size: nat, n: nat, a: nat, b: nat)
    requires IsRun(run, size) && n < |run| && IsAhead(run[n].queue, a, b)
    ensures var last := run[|run| - 1]; IsAhead(last.queue, a, b) || HasLeft(last, a)
  {
    hide Step, IsAhead, JobInv, CountInv, PlaceInv;
    var m := |run| - 1;
    if n < m {
      assert IsRun(run[..m], size);
      FirstSentFirstTaken(run[..m], size, n, a, b);
      RunKeeps(run[..m], size);
      QueueSteps(run[m - 1], run[m]);
      if IsAhead(run[m - 1].queue, a, b) {
        AheadWasSent(run[m - 1], a, b);
        StaysAhead(run[m - 1], run[m], a, b);
      }
    }
  }

  lemma AheadWasSent(s: System, a: nat, b: nat)
    requires PlaceInv(s) && IsAhead(s.queue, a, b)
    ensures a < |s.jobs| && s.jobs[a].place != Sending
  {}
}
