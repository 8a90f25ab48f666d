/** One isolated test from start to end: its owner, its monitor, the channel between them, and the time it takes. */
module SubprocessRun {
  import opened Collections
  import opened Integers
  import opened Wrappers
  import opened Subprocess

  // ---------- The system ----------

  /** What the owner writes, or why it writes nothing; the time is not yet known to fit a frame. */
  datatype Outcome = Known(outcome: byte, status: i32, elapsed: nat) | Unknown

  datatype Owner =
    | SettingUp
    | Announcing
    | Executing
    | CleaningUp(result: Outcome)
    | Reporting(report: Report, left: bytes)
    | Exited(reported: Option<Report>)

  /** The monitor between the steps of a poll. */
  datatype Monitoring =
    | Reading(watch: Watch)
    | Cancelling(watch: Watch)
    | Waiting(watch: Watch)
    | Returned(last: Watch, result: Result<(TestResult, u64)>)
  {
    function Watching(): Watch {
      if Returned? then last else watch
    }
  }

  /**
   * `sent` is all that the owner wrote so far; `alive` is whether a descendant of the owner may still run. The monitor
   * started at time `start`, and compared its deadline with the time last at `polled`.
   */
  datatype System = System(
    owner: Owner, sent: bytes, alive: bool, stdout: Pipe, stderr: Pipe,
    monitor: Monitoring, clock: nat, start: nat, polled: nat)

  predicate Starts(s: System) {
    && s.owner.SettingUp? && s.sent == [] && !s.alive && s.stdout.Open? && s.stderr.Open?
    && s.clock == s.start == s.polled && s.monitor == Reading(Started(s.clock))
  }

  // ---------- Steps of the owner ----------

  /** The timeout that the owner takes over from its environment. */
  function OwnerTimeout(timeout: Option<nat>): Option<nat> {
    if timeout.Some? then Some(Min(timeout.value, 0xFFFF_FFFF_FFFF_FFFF)) else None
  }

  /** A test ends on request only if the request was written, or if the monitor is gone. */
  predicate MayEnd(result: Outcome, s: System, timeout: Option<nat>) {
    match result
    case Unknown => true
    case Known(outcome, status, elapsed) =>
      || outcome == EXITED
      || (outcome == TIMED_OUT && OwnerTimeout(timeout).Some? && elapsed >= OwnerTimeout(timeout).value && status == 0)
      || (outcome == CANCELLED && (s.monitor.Returned? || s.monitor.Watching().cancelled) && status == 0)
  }

  /** The owner starts the test and announces it; any step of that may fail. */
  predicate OwnerStarts(s: System, s': System) {
    || (s.owner.SettingUp? && s' == s.(owner := Exited(None)))
    || (s.owner.SettingUp? && s' == s.(owner := CleaningUp(Unknown)))
    || (s.owner.SettingUp? && s' == s.(owner := Announcing, alive := true))
    || (s.owner.Announcing? && s' == s.(owner := CleaningUp(Unknown)))
    || (s.owner.Announcing? && s' == s.(owner := Executing, sent := s.sent + [READY]))
  }

  predicate OwnerEnds(s: System, s': System, result: Outcome, timeout: Option<nat>) {
    s.owner.Executing? && MayEnd(result, s, timeout) && s' == s.(owner := CleaningUp(result))
  }

  /** Nothing is reported unless all descendants are killed, and the outcome is known and fits a frame. */
  predicate OwnerCleansUp(s: System, s': System) {
    && s.owner.CleaningUp?
    && (|| s' == s.(owner := Exited(None))
        || (s.owner.result.Unknown? && s' == s.(owner := Exited(None), alive := false))
        || (&& s.owner.result.Known?
            && var Known(outcome, status, elapsed) := s.owner.result;
               if elapsed > 0xFFFF_FFFF_FFFF_FFFF then s' == s.(owner := Exited(None), alive := false)
               else
                 var report := Report(outcome, status, elapsed);
                 s' == s.(owner := Reporting(report, Frame(report)[1..]), alive := false)))
  }

  /** Any number of the bytes that are left gets written; once all are, the owner exits successfully. */
  predicate OwnerReports(s: System, s': System, n: nat) {
    && s.owner.Reporting?
    && n <= |s.owner.left|
    && s' == s.(owner := s.owner.(left := s.owner.left[n..]), sent := s.sent + s.owner.left[..n])
  }

  predicate OwnerSucceeds(s: System, s': System) {
    s.owner.Reporting? && s.owner.left == [] && s' == s.(owner := Exited(Some(s.owner.report)))
  }

  predicate OwnerFails(s: System, s': System) {
    !s.owner.Exited? && s' == s.(owner := Exited(None))
  }

  // ---------- Steps of the monitor ----------

  function Next(s: System, r: Result<Watch>, then': Watch -> Monitoring): System {
    match r
    case Failure(error) => s.(monitor := Returned(s.monitor.Watching(), Failure(error)))
    case Success(w) => s.(monitor := then'(w))
  }

  /** A read gives bytes that the owner wrote and the monitor has not read yet, in order, but any number of them. */
  predicate MonitorReads(s: System, s': System, arrival: Arrival, timeout: Option<nat>) {
    && s.monitor.Reading?
    && (arrival.Bytes? ==> s.monitor.watch.frame + arrival.data <= s.sent && |arrival.data| <= FRAME_LEN + 1)
    && s' == Next(s, Read(s.monitor.watch, arrival, timeout, s.clock), w => Cancelling(w))
  }

  predicate MonitorCancels(s: System, s': System, requested: bool, fails: bool) {
    && s.monitor.Cancelling?
    && s' == Next(s, ForwardCancellation(s.monitor.watch, requested, fails, s.clock), w => Waiting(w))
  }

  /** Waits for the owner, which may have exited by now, then returns, gives up, or polls again. */
  predicate MonitorWaits(s: System, s': System, sees: bool, timeout: Option<nat>) {
    && s.monitor.Waiting?
    && (sees ==> s.owner.Exited?)
    && s' == (match Waited(s.monitor.watch, if sees then Some(s.owner.reported.Some?) else None, s.clock)
       case Failure(error) => s.(monitor := Returned(s.monitor.watch, Failure(error)))
       case Success(w) =>
         match Checked(w, s.stdout, s.stderr, timeout, s.clock)
         case Returns(result) => s.(monitor := Returned(w, result))
         case Continues(w) => s.(monitor := Reading(w), polled := s.clock))
  }

  /** The monitor's three steps are one poll of `Monitor`, whatever the others do in between. */
  lemma StepsArePoll(s: System, s1: System, t1: System, s2: System, t2: System, s3: System,
                     arrival: Arrival, requested: bool, fails: bool, sees: bool, timeout: Option<nat>)
    requires MonitorReads(s, s1, arrival, timeout) && t1.monitor == s1.monitor
    requires s1.monitor.Cancelling? ==> MonitorCancels(t1, s2, requested, fails) && t2.monitor == s2.monitor
    requires s1.monitor.Cancelling? && s2.monitor.Waiting? ==> MonitorWaits(t2, s3, sees, timeout)
    ensures var exit := if sees then (if t2.owner.Exited? then Some(t2.owner.reported.Some?) else None) else None;
      var poll := Poll(arrival, s.clock, requested, fails, t1.clock, exit, t2.clock, t2.stdout, t2.stderr, t2.clock);
      var last := if s1.monitor.Returned? then s1.monitor else if s2.monitor.Returned? then s2.monitor else s3.monitor;
      match Polled(s.monitor.watch, poll, timeout)
      case Continues(watch) => last == Reading(watch)
      case Returns(result) => last.Returned? && last.result == result
  {
    hide Read, ForwardCancellation, Waited, Checked;
  }

  // ---------- Steps of the rest ----------

  predicate PipesClose(s: System, s': System, stdout: Pipe, stderr: Pipe) {
    && (!s.stdout.Open? ==> stdout == s.stdout)
    && (!s.stderr.Open? ==> stderr == s.stderr)
    && s' == s.(stdout := stdout, stderr := stderr)
  }

  /** Time passes, but a poll takes no longer than `round`, with its pause. */
  predicate TimePasses(s: System, s': System, round: nat) {
    && (s.monitor.Returned? || s.clock < s.polled + round)
    && s' == s.(clock := s.clock + 1)
  }

  ghost predicate Step(s: System, s': System, timeout: Option<nat>, round: nat) {
    || OwnerStarts(s, s')
    || (exists result :: OwnerEnds(s, s', result, timeout))
    || OwnerCleansUp(s, s')
    || (exists n :: OwnerReports(s, s', n))
    || OwnerSucceeds(s, s')
    || OwnerFails(s, s')
    || (exists arrival :: MonitorReads(s, s', arrival, timeout))
    || (exists requested, fails :: MonitorCancels(s, s', requested, fails))
    || (exists sees :: MonitorWaits(s, s', sees, timeout))
    || (exists stdout, stderr :: PipesClose(s, s', stdout, stderr))
    || TimePasses(s, s', round)
  }

  // ---------- What every state keeps ----------

  /** How the bytes that were sent relate to what the owner is doing. */
  predicate OwnerInv(s: System, timeout: Option<nat>) {
    match s.owner
    case SettingUp => s.sent == [] && !s.alive
    case Announcing => s.sent == []
    case Executing => s.sent == [READY]
    case CleaningUp(result) => s.sent in {[], [READY]} && (result.Known? ==> s.sent == [READY] && MayEnd(result, s, timeout))
    case Reporting(report, left) => !s.alive && s.sent + left == Frame(report) && s.sent != [] && Justified(report, s, timeout)
    case Exited(Some(report)) => !s.alive && s.sent == Frame(report) && Justified(report, s, timeout)
    case Exited(None) => |s.sent| > 1 ==> !s.alive
  }

  predicate Justified(report: Report, s: System, timeout: Option<nat>) {
    MayEnd(Known(report.outcome, report.status, report.nanos), s, timeout)
  }

  predicate MonitorInv(s: System) {
    && Sound(s.monitor.Watching())
    && s.monitor.Watching().frame <= s.sent
    && (s.monitor.Watching().exited ==> s.owner.Exited? && s.owner.reported.Some?)
  }

  /**
   * What a monitor that returns a result has: the whole frame of an owner that exited successfully, after it killed all
   * its descendants, the pipes read to their ends, and the result that the frame means.
   */
  predicate ReturnInv(s: System, timeout: Option<nat>) {
    s.monitor.Returned? && s.monitor.result.Success? ==>
      && s.owner.Exited? && s.owner.reported.Some?
      && var report := s.owner.reported.value;
         && s.monitor.last.frame == s.sent == Frame(report)
         && !s.alive
         && s.stdout.Ended? && s.stderr.Ended?
         && s.monitor.result == Meaning(report, timeout)
         && (report.outcome == CANCELLED ==> s.monitor.last.cancelled)
  }

  predicate Inv(s: System, timeout: Option<nat>) {
    OwnerInv(s, timeout) && MonitorInv(s) && ReturnInv(s, timeout)
  }

  lemma OwnerReportsKeeps(s: System, s': System, n: nat, timeout: Option<nat>)
    requires Inv(s, timeout) && OwnerReports(s, s', n)
    ensures Inv(s', timeout)
  {
    var left := s.owner.left;
    SliceInTwo(left, 0, n, |left|);
    assert left[0..|left|] == left && left[0..n] == left[..n] && left[n..|left|] == left[n..];
    Associative(s.sent, left[..n], left[n..]);
    hide Frame, Sound, Meaning;
  }

  lemma OwnerCleansUpKeeps(s: System, s': System, timeout: Option<nat>)
    requires Inv(s, timeout) && OwnerCleansUp(s, s')
    ensures Inv(s', timeout)
  {
    if s'.owner.Reporting? {
      assert [READY] + Frame(s'.owner.report)[1..] == Frame(s'.owner.report);
    }
  }

  lemma OwnerSucceedsKeeps(s: System, s': System, timeout: Option<nat>)
    requires Inv(s, timeout) && OwnerSucceeds(s, s')
    ensures Inv(s', timeout)
  {
    assert s.sent + [] == s.sent;
  }

  lemma OwnerElseKeeps(s: System, s': System, timeout: Option<nat>)
    requires Inv(s, timeout)
    requires OwnerStarts(s, s') || OwnerFails(s, s') || exists result :: OwnerEnds(s, s', result, timeout)
    ensures Inv(s', timeout)
  {}

  lemma MonitorReadsKeeps(s: System, s': System, arrival: Arrival, timeout: Option<nat>)
    requires Inv(s, timeout) && MonitorReads(s, s', arrival, timeout)
    ensures Inv(s', timeout)
  {
    var read := Read(s.monitor.watch, arrival, timeout, s.clock);
    if read.Success? {
      ReadIsSound(s.monitor.watch, arrival, timeout, s.clock);
    }
  }

  lemma MonitorCancelsKeeps(s: System, s': System, requested: bool, fails: bool, timeout: Option<nat>)
    requires Inv(s, timeout) && MonitorCancels(s, s', requested, fails)
    ensures Inv(s', timeout)
  {}

  lemma MonitorWaitsKeeps(s: System, s': System, sees: bool, timeout: Option<nat>)
    requires Inv(s, timeout) && MonitorWaits(s, s', sees, timeout)
    ensures Inv(s', timeout)
  {
    if s'.monitor.Returned? && s'.monitor.result.Success? {
      DecodeWritten(s.owner.reported.value, timeout);
    }
  }

  lemma RestKeeps(s: System, s': System, timeout: Option<nat>, round: nat)
    requires Inv(s, timeout)
    requires TimePasses(s, s', round) || exists stdout, stderr :: PipesClose(s, s', stdout, stderr)
    ensures Inv(s', timeout)
  {}

  lemma StepKeeps(s: System, s': System, timeout: Option<nat>, round: nat)
    requires Inv(s, timeout) && Step(s, s', timeout, round)
    ensures Inv(s', timeout)
  {
    hide OwnerInv, MonitorInv, ReturnInv;
    if
    case OwnerCleansUp(s, s') => OwnerCleansUpKeeps(s, s', timeout);
    case OwnerSucceeds(s, s') => OwnerSucceedsKeeps(s, s', timeout);
    case exists n: nat :: OwnerReports(s, s', n) =>
      var n: nat :| OwnerReports(s, s', n);
      OwnerReportsKeeps(s, s', n, timeout);
    case exists arrival :: MonitorReads(s, s', arrival, timeout) =>
      var arrival :| MonitorReads(s, s', arrival, timeout);
      MonitorReadsKeeps(s, s', arrival, timeout);
    case exists requested, fails :: MonitorCancels(s, s', requested, fails) =>
      var requested, fails :| MonitorCancels(s, s', requested, fails);
      MonitorCancelsKeeps(s, s', requested, fails, timeout);
    case exists sees :: MonitorWaits(s, s', sees, timeout) =>
      var sees :| MonitorWaits(s, s', sees, timeout);
      MonitorWaitsKeeps(s, s', sees, timeout);
    case TimePasses(s, s', round) || exists stdout, stderr :: PipesClose(s, s', stdout, stderr) =>
      RestKeeps(s, s', timeout, round);
    case OwnerStarts(s, s') || OwnerFails(s, s') || exists result :: OwnerEnds(s, s', result, timeout) =>
      OwnerElseKeeps(s, s', timeout);
  }

  ghost predicate IsRun(run: seq<System>, timeout: Option<nat>, round: nat) {
    && run != [] && Starts(run[0])
    && forall i | 0 <= i < |run| - 1 :: Step(run[i], run[i + 1], timeout, round)
  }

  lemma {:induction false} RunKeeps(run: seq<System>, timeout: Option<nat>, round: nat)
    requires IsRun(run, timeout, round)
    ensures Inv(run[|run| - 1], timeout)
  {
    var n := |run| - 1;
    if n > 0 {
      assert IsRun(run[..n], timeout, round);
      RunKeeps(run[..n], timeout, round);
      StepKeeps(run[n - 1], run[n], timeout, round);
    }
  }

  // ---------- Main results ----------

  /**
   * However the steps of owner, monitor and cancellation interleave, and however the channel splits the frame, a result
   * is returned only for a frame that the owner wrote whole, with all its descendants killed, then a successful exit and
   * both pipes read to their ends; and it is the outcome, status and time that the owner reported.
   */
  lemma ResultsAreReported(run: seq<System>, timeout: Option<nat>, round: nat, result: TestResult, nanos: u64)
    requires IsRun(run, timeout, round)
    requires var s := run[|run| - 1]; s.monitor.Returned? && s.monitor.result == Success((result, nanos))
    ensures var s := run[|run| - 1];
      && s.owner.Exited? && s.owner.reported.Some?
      && var report := s.owner.reported.value;
         && s.sent == Frame(report) && !s.alive && s.stdout.Ended? && s.stderr.Ended?
         && nanos == report.nanos
         && (forall end: End | end.Valid() && report.outcome == EXITED && report.status == end.Status() ::
               Tells(result, end, timeout, nanos))
         && (report.outcome == EXITED ==> result == FromExitStatus(report.status, timeout, nanos))
         && (report.outcome == TIMED_OUT ==>
               result == TimedOut && timeout.Some? && nanos >= Min(timeout.value, 0xFFFF_FFFF_FFFF_FFFF))
         && (report.outcome == CANCELLED ==> result == Ignored && s.monitor.last.cancelled)
         && report.outcome in {EXITED, TIMED_OUT, CANCELLED}
  {
    RunKeeps(run, timeout, round);
    EndsAreTold(run[|run| - 1].owner.reported.value, timeout);
  }

  lemma EndsAreTold(report: Report, timeout: Option<nat>)
    ensures forall end: End | end.Valid() && report.status == end.Status() ::
      Tells(FromExitStatus(report.status, timeout, report.nanos), end, timeout, report.nanos)
  {
    hide FromExitStatus, Tells, End.Status;
    forall end: End | end.Valid() && report.status == end.Status()
      ensures Tells(FromExitStatus(report.status, timeout, report.nanos), end, timeout, report.nanos)
    {
      StatusTells(end, timeout, report.nanos);
    }
  }

  /** No byte of a report is written before the descendants are killed. */
  lemma ReportsFollowCleanup(run: seq<System>, timeout: Option<nat>, round: nat)
    requires IsRun(run, timeout, round)
    ensures |run[|run| - 1].sent| > 1 ==> !run[|run| - 1].alive
  {
    RunKeeps(run, timeout, round);
  }

  // ---------- The time that a monitor takes ----------

  /** How much longer the deadline may still move, with a round's delay each time that it does. */
  function Credit(w: Watch, timeout: Option<nat>, round: nat): nat {
    (if w.ready || w.cancelled || timeout.None? then 0 else timeout.value + CLEANUP_TIMEOUT + REPORT_TIMEOUT + round)
    + (if w.cancelled || w.reported || w.exited then 0 else CLEANUP_TIMEOUT + REPORT_TIMEOUT + round)
    + (if w.reported then 0 else REPORT_TIMEOUT + round)
    + (if w.exited then 0 else REPORT_TIMEOUT + round)
  }

  /** The deadline, and all that may move it, stay within the limit; a test with no timeout must have been cancelled. */
  predicate InTime(w: Watch, polled: nat, limit: nat, timeout: Option<nat>, round: nat) {
    && (w.cancelled || (timeout.Some? && limit <= LAST_INSTANT))
    && w.deadline.Some?
    && polled < w.deadline.value
    && w.deadline.value + Credit(w, timeout, round) <= limit
  }

  predicate Paced(s: System, round: nat) {
    !s.monitor.Returned? ==> s.polled <= s.clock <= s.polled + round
  }

  predicate TimeInv(s: System, limit: nat, timeout: Option<nat>, round: nat) {
    Paced(s, round) && (!s.monitor.Returned? ==> InTime(s.monitor.watch, s.polled, limit, timeout, round))
  }

  lemma ReadInTime(w: Watch, polled: nat, now: nat, arrival: Arrival, limit: nat, timeout: Option<nat>, round: nat)
    requires Sound(w) && InTime(w, polled, limit, timeout, round) && polled <= now <= polled + round
    ensures var read := Read(w, arrival, timeout, now); read.Success? ==> InTime(read.value, polled, limit, timeout, round)
  {}

  lemma CancelInTime(w: Watch, polled: nat, now: nat, requested: bool, fails: bool, limit: nat, timeout: Option<nat>, round: nat)
    requires InTime(w, polled, limit, timeout, round) && polled <= now <= polled + round
    ensures var asked := ForwardCancellation(w, requested, fails, now);
      asked.Success? ==> InTime(asked.value, polled, limit, timeout, round)
  {}

  lemma WaitInTime(w: Watch, polled: nat, now: nat, exit: Option<bool>, limit: nat, timeout: Option<nat>, round: nat)
    requires InTime(w, polled, limit, timeout, round) && polled <= now <= polled + round
    ensures var waited := Waited(w, exit, now); waited.Success? ==> InTime(waited.value, polled, limit, timeout, round)
  {}

  lemma StepIsPaced(s: System, s': System, timeout: Option<nat>, round: nat)
    requires Paced(s, round) && Step(s, s', timeout, round)
    ensures Paced(s', round)
  {
    hide Read, ForwardCancellation, Waited, MayEnd;
  }

  lemma StepInTime(s: System, s': System, limit: nat, timeout: Option<nat>, round: nat)
    requires Sound(s.monitor.Watching()) && TimeInv(s, limit, timeout, round) && Step(s, s', timeout, round)
    ensures TimeInv(s', limit, timeout, round)
  {
    StepIsPaced(s, s', timeout, round);
    hide Read, ForwardCancellation, Waited, Credit, Sound, MayEnd, Paced;
    if arrival :| MonitorReads(s, s', arrival, timeout) {
      PacedMeans(s, round);
      ReadInTime(s.monitor.watch, s.polled, s.clock, arrival, limit, timeout, round);
    } else if requested, fails :| MonitorCancels(s, s', requested, fails) {
      PacedMeans(s, round);
      CancelInTime(s.monitor.watch, s.polled, s.clock, requested, fails, limit, timeout, round);
    } else if sees :| MonitorWaits(s, s', sees, timeout) {
      PacedMeans(s, round);
      var exit := if sees then Some(s.owner.reported.Some?) else None;
      WaitInTime(s.monitor.watch, s.polled, s.clock, exit, limit, timeout, round);
    } else {
      OthersLeaveMonitor(s, s', timeout, round);
      hide Step;
    }
  }

  lemma OthersLeaveMonitor(s: System, s': System, timeout: Option<nat>, round: nat)
    requires Step(s, s', timeout, round)
    requires forall arrival :: !MonitorReads(s, s', arrival, timeout)
    requires forall requested, fails :: !MonitorCancels(s, s', requested, fails)
    requires forall sees :: !MonitorWaits(s, s', sees, timeout)
    ensures s'.monitor == s.monitor && s'.polled == s.polled
  {
    hide MonitorReads, MonitorCancels, MonitorWaits, MayEnd;
  }

  lemma PacedMeans(s: System, round: nat)
    requires Paced(s, round) && !s.monitor.Returned?
    ensures s.polled <= s.clock <= s.polled + round
  {}

  lemma {:induction false} RunIsPaced(run: seq<System>, timeout: Option<nat>, round: nat)
    requires IsRun(run, timeout, round)
    ensures Paced(run[|run| - 1], round)
  {
    var n := |run| - 1;
    if n > 0 {
      assert IsRun(run[..n], timeout, round);
      RunIsPaced(run[..n], timeout, round);
      StepIsPaced(run[n - 1], run[n], timeout, round);
    }
  }

  /** From a state in time on, all states of a run are. */
  lemma {:induction false} RunInTime(run: seq<System>, k: nat, limit: nat, timeout: Option<nat>, round: nat)
    requires IsRun(run, timeout, round) && k < |run| && TimeInv(run[k], limit, timeout, round)
    ensures TimeInv(run[|run| - 1], limit, timeout, round)
    decreases |run|
  {
    hide TimeInv, Step;
    var n := |run| - 1;
    if k < n {
      assert IsRun(run[..n], timeout, round);
      RunInTime(run[..n], k, limit, timeout, round);
      RunKeeps(run[..n], timeout, round);
      StepInTime(run[n - 1], run[n], limit, timeout, round);
    }
  }

  /** With a timeout, a monitor that still polls has taken no longer than its stages allow, and five rounds. */
  lemma MonitorIsBounded(run: seq<System>, timeout: nat, round: nat)
    requires IsRun(run, Some(timeout), round) && !run[|run| - 1].monitor.Returned?
    requires run[0].start + STARTUP_TIMEOUT + timeout + 2 * CLEANUP_TIMEOUT + 4 * REPORT_TIMEOUT + 4 * round <= LAST_INSTANT
    ensures run[|run| - 1].clock - run[0].start
      < STARTUP_TIMEOUT + timeout + 2 * CLEANUP_TIMEOUT + 4 * REPORT_TIMEOUT + 5 * round
  {
    var limit := run[0].start + STARTUP_TIMEOUT + timeout + 2 * CLEANUP_TIMEOUT + 4 * REPORT_TIMEOUT + 4 * round;
    RunInTime(run, 0, limit, Some(timeout), round);
  }

  // ---------- Dropping the owner ----------

  /** One look of a wait for the owner: at what time, and whether it has exited by then. */
  datatype Look = Look(at: nat, exited: bool)

  /** A wait looks again within a round, until the owner has exited or the time is up. */
  predicate IsWait(looks: seq<Look>, from: nat, bound: nat, round: nat) {
    && looks != [] && from <= looks[0].at <= from + round
    && (forall i | 0 <= i < |looks| - 1 ::
          && !looks[i].exited && looks[i].at < from + bound
          && looks[i].at <= looks[i + 1].at <= looks[i].at + round)
    && (looks[|looks| - 1].exited || looks[|looks| - 1].at >= from + bound)
  }

  lemma WaitIsBounded(looks: seq<Look>, from: nat, bound: nat, round: nat)
    requires IsWait(looks, from, bound, round)
    ensures looks[|looks| - 1].at <= from + bound + round
  {
    var n := |looks| - 1;
    if n > 0 {
      assert looks[n - 1].at < from + bound && looks[n - 1 + 1].at <= looks[n - 1].at + round;
    }
  }

  /** An owner that has not exited by the last look is killed, and waited for once more. */
  predicate LooksEnd(asked: seq<Look>, killed: seq<Look>, to: nat, round: nat) {
    && asked != []
    && var last := asked[|asked| - 1];
       if last.exited then to == last.at
       else IsWait(killed, last.at, REPORT_TIMEOUT, round) && to == killed[|killed| - 1].at
  }

  /** An owner whose exit was seen is gone; any other is asked to end, with time to clean up and report unless it has
      reported, and killed if it does not. */
  ghost predicate Drops(m: Monitoring, from: nat, to: nat, round: nat)
    requires m.Returned?
  {
    if m.last.exited || m.result == Failure(OWNER_FAILED) then to == from
    else
      exists asked, killed ::
        && IsWait(asked, from, if m.last.reported then 0 else CLEANUP_TIMEOUT + REPORT_TIMEOUT, round)
        && LooksEnd(asked, killed, to, round)
  }

  /** From the start until the owner is gone: only after a failure does dropping it take more than the monitor. */
  lemma RunIsBounded(run: seq<System>, to: nat, timeout: nat, round: nat)
    requires IsRun(run, Some(timeout), round) && |run| > 1
    requires !run[|run| - 2].monitor.Returned? && run[|run| - 1].monitor.Returned?
    requires Drops(run[|run| - 1].monitor, run[|run| - 1].clock, to, round)
    requires run[0].start + STARTUP_TIMEOUT + timeout + 2 * CLEANUP_TIMEOUT + 4 * REPORT_TIMEOUT + 4 * round <= LAST_INSTANT
    ensures to - run[0].start < STARTUP_TIMEOUT + timeout + 2 * CLEANUP_TIMEOUT + 4 * REPORT_TIMEOUT + 5 * round
      + if run[|run| - 1].monitor.result.Success? then 0 else CLEANUP_TIMEOUT + 2 * REPORT_TIMEOUT + 2 * round
  {
    var n := |run| - 1;
    var s, s' := run[n - 1], run[n];
    assert IsRun(run[..n], Some(timeout), round);
    assert Step(s, s', Some(timeout), round);
    hide Step, IsRun, Drops;
    MonitorIsBounded(run[..n], timeout, round);
    ReturningTakesNoTime(s, s', timeout, round);
    DropIsBounded(s'.monitor, s'.clock, to, round);
  }

  lemma ReturningTakesNoTime(s: System, s': System, timeout: nat, round: nat)
    requires Step(s, s', Some(timeout), round) && !s.monitor.Returned? && s'.monitor.Returned?
    ensures s'.clock == s.clock && (s'.monitor.result.Success? ==> s'.monitor.last.exited)
  {
    hide Read, ForwardCancellation, Waited, MayEnd;
  }

  lemma DropIsBounded(m: Monitoring, from: nat, to: nat, round: nat)
    requires m.Returned? && Drops(m, from, to, round)
    ensures to <= from + if m.last.exited then 0 else CLEANUP_TIMEOUT + 2 * REPORT_TIMEOUT + 2 * round
  {
    hide IsWait;
    if !m.last.exited && m.result != Failure(OWNER_FAILED) {
      var asked: seq<Look>, killed: seq<Look> :|
        && IsWait(asked, from, if m.last.reported then 0 else CLEANUP_TIMEOUT + REPORT_TIMEOUT, round)
        && LooksEnd(asked, killed, to, round);
      WaitIsBounded(asked, from, if m.last.reported then 0 else CLEANUP_TIMEOUT + REPORT_TIMEOUT, round);
      if !asked[|asked| - 1].exited {
        WaitIsBounded(killed, asked[|asked| - 1].at, REPORT_TIMEOUT, round);
      }
    }
  }

  /**
   * From a cancellation on, however long the test may run or whether it has a timeout at all, the monitor takes only the
   * time to clean up and report: in particular, a test that starts after it gains none.
   */
  lemma CancellationIsBounded(run: seq<System>, k: nat, timeout: Option<nat>, round: nat)
    requires IsRun(run, timeout, round) && k < |run| - 1
    requires !run[k].monitor.Watching().cancelled && !run[k + 1].monitor.Returned? && run[k + 1].monitor.watch.cancelled
    requires !run[|run| - 1].monitor.Returned?
    ensures run[|run| - 1].clock - run[k].clock < CLEANUP_TIMEOUT + 3 * REPORT_TIMEOUT + 3 * round
  {
    var s, s' := run[k], run[k + 1];
    assert IsRun(run[..k + 1], timeout, round);
    RunIsPaced(run[..k + 1], timeout, round);
    RunKeeps(run[..k + 1], timeout, round);
    CancelStep(s, s', timeout, round);
    var limit := s.clock + CLEANUP_TIMEOUT + 3 * REPORT_TIMEOUT + 2 * round;
    RunInTime(run, k + 1, limit, timeout, round);
  }

  lemma OnlyForwardingCancels(w: Watch, arrival: Arrival, exit: Option<bool>, timeout: Option<nat>, now: nat)
    ensures Read(w, arrival, timeout, now).Success? ==> Read(w, arrival, timeout, now).value.cancelled == w.cancelled
    ensures Waited(w, exit, now).Success? ==> Waited(w, exit, now).value.cancelled == w.cancelled
  {}

  lemma ReadCancelsNothing(s: System, s': System, arrival: Arrival, timeout: Option<nat>)
    requires MonitorReads(s, s', arrival, timeout)
    ensures s'.monitor.Watching().cancelled == s.monitor.Watching().cancelled
  {
    hide Read, Waited;
    OnlyForwardingCancels(s.monitor.watch, arrival, None, timeout, s.clock);
  }

  lemma WaitCancelsNothing(s: System, s': System, sees: bool, timeout: Option<nat>)
    requires MonitorWaits(s, s', sees, timeout)
    ensures s'.monitor.Watching().cancelled == s.monitor.Watching().cancelled
  {
    hide Read, Waited;
    OnlyForwardingCancels(s.monitor.watch, NothingYet, if sees then Some(s.owner.reported.Some?) else None, timeout, s.clock);
  }

  lemma CancelStep(s: System, s': System, timeout: Option<nat>, round: nat)
    requires Paced(s, round) && Step(s, s', timeout, round)
    requires !s.monitor.Watching().cancelled && !s'.monitor.Returned? && s'.monitor.watch.cancelled
    ensures TimeInv(s', s.clock + CLEANUP_TIMEOUT + 3 * REPORT_TIMEOUT + 2 * round, timeout, round)
  {
    StepIsPaced(s, s', timeout, round);
    assert exists requested, fails :: MonitorCancels(s, s', requested, fails) by {
      hide MayEnd, MonitorReads, MonitorCancels, MonitorWaits;
      if arrival :| MonitorReads(s, s', arrival, timeout) {
        ReadCancelsNothing(s, s', arrival, timeout);
      } else if sees :| MonitorWaits(s, s', sees, timeout) {
        WaitCancelsNothing(s, s', sees, timeout);
      }
    }
    var requested, fails :| MonitorCancels(s, s', requested, fails);
    hide Step, MayEnd;
  }
}
