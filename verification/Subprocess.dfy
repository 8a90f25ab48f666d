/** One isolated test: what its owner reports, and how the monitor polls for the report. */
module Subprocess {
  import opened Collections
  import opened Integers
  import opened Wrappers

  // ---------- The completion frame ----------

  const READY: byte := 0xa1
  const EXITED: byte := 0
  const TIMED_OUT: byte := 1
  const CANCELLED: byte := 2
  const FRAME_LEN: nat := 14

  function Power(width: nat): (p: nat)
    ensures p > 0
  {
    if width == 0 then 1 else 256 * Power(width - 1)
  }

  function ToLittleEndian(n: nat, width: nat): (bs: bytes)
    ensures |bs| == width
  {
    if width == 0 then [] else [n % 256] + ToLittleEndian(n / 256, width - 1)
  }

  function FromLittleEndian(bs: bytes): nat {
    if bs == [] then 0 else bs[0] + 256 * FromLittleEndian(bs[1..])
  }

  lemma {:induction false} LittleEndianRoundTrip(n: nat, width: nat)
    requires n < Power(width)
    ensures FromLittleEndian(ToLittleEndian(n, width)) == n
  {
    if width > 0 {
      assert n / 256 < Power(width - 1);
      LittleEndianRoundTrip(n / 256, width - 1);
    }
  }

  /** A signed status has the bytes of its two's complement. */
  function FromStatus(status: i32): nat {
    if status < 0 then status + 0x1_0000_0000 else status
  }

  function ToStatus(n: nat): i32
    requires n <= 0xFFFF_FFFF
  {
    if n > 0x7FFF_FFFF then n - 0x1_0000_0000 else n
  }

  lemma {:induction false} FromLittleEndianBound(bs: bytes)
    ensures FromLittleEndian(bs) < Power(|bs|)
  {
    if bs != [] {
      FromLittleEndianBound(bs[1..]);
    }
  }

  lemma Powers()
    ensures Power(4) == 0x1_0000_0000 && Power(8) == 0x1_0000_0000_0000_0000
  {
    assert Power(1) == 256 && Power(2) == 65536 && Power(3) == 0x100_0000 && Power(4) == 0x1_0000_0000;
    assert Power(5) == 0x100_0000_0000 && Power(6) == 0x1_0000_0000_0000 && Power(7) == 0x100_0000_0000_0000;
  }

  /** How the test ended: by itself with this wait status, at its timeout, or on request. */
  datatype Report = Report(outcome: byte, status: i32, nanos: u64)

  function Frame(report: Report): (frame: bytes)
    ensures |frame| == FRAME_LEN && frame[0] == READY
  {
    [READY, report.outcome] + ToLittleEndian(FromStatus(report.status), 4) + ToLittleEndian(report.nanos, 8)
  }

  // ---------- The result of a test ----------

  datatype TestResult =
    | Ok
    | Failed
    | TimedOut
    | Ignored
    | CrashedBySignal(signal: nat)
    | CrashedUnknown
    | CrashedWithCode(code: nat)

  const TR_OK: nat := 50
  const TR_FAILED: nat := 51

  /** A raw wait status: the lowest seven bits are zero for an exit, and otherwise name the signal, 127 naming none. */
  function FromExitStatus(status: i32, timeout: Option<nat>, nanos: u64): TestResult {
    var low, code := status % 128, status / 256 % 256;
    if low == 127 then CrashedUnknown
    else if low != 0 then CrashedBySignal(low)
    else if code == TR_FAILED then Failed
    else if code != TR_OK then CrashedWithCode(code)
    else if timeout.Some? && nanos > timeout.value then TimedOut
    else Ok
  }

  /** How a process that runs a test ends; a signal may leave a core file. */
  datatype End = Passes | Fails | ExitsWith(code: nat) | IsKilled(signal: nat, core: bool) {
    predicate Valid() {
      match this
      case Passes => true
      case Fails => true
      case ExitsWith(code) => code < 256 && code != TR_OK && code != TR_FAILED
      case IsKilled(signal, _) => 0 < signal < 127
    }

    /** The wait status of the end: an exit has its code in the second byte, a signal its number in the first. */
    function Status(): i32
      requires Valid()
    {
      match this
      case Passes => 256 * TR_OK
      case Fails => 256 * TR_FAILED
      case ExitsWith(code) => 256 * code
      case IsKilled(signal, core) => signal + if core then 128 else 0
    }
  }

  predicate IsInTime(timeout: Option<nat>, nanos: u64) {
    timeout.Some? ==> nanos <= timeout.value
  }

  /** A result that says how the process ended, and of a test that passes, whether it did so in time. */
  predicate Tells(result: TestResult, end: End, timeout: Option<nat>, nanos: u64) {
    && (result.Ok? <==> end.Passes? && IsInTime(timeout, nanos))
    && (result.TimedOut? <==> end.Passes? && !IsInTime(timeout, nanos))
    && (result.Failed? <==> end.Fails?)
    && (result.CrashedWithCode? <==> end.ExitsWith?) && (end.ExitsWith? ==> result.code == end.code)
    && (result.CrashedBySignal? <==> end.IsKilled?) && (end.IsKilled? ==> result.signal == end.signal)
  }

  /** Every end is read back from its wait status, and no two ends that differ in more than a core file are mixed up. */
  lemma StatusTells(end: End, timeout: Option<nat>, nanos: u64)
    requires end.Valid()
    ensures Tells(FromExitStatus(end.Status(), timeout, nanos), end, timeout, nanos)
  {
    if end.ExitsWith? {
      assert 256 * end.code / 256 == end.code;
    }
  }

  function Meaning(report: Report, timeout: Option<nat>): Result<(TestResult, u64)> {
    if report.outcome == EXITED then Success((FromExitStatus(report.status, timeout, report.nanos), report.nanos))
    else if report.outcome == TIMED_OUT then Success((TimedOut, report.nanos))
    else if report.outcome == CANCELLED then Success((Ignored, report.nanos))
    else Failure("invalid isolated owner outcome")
  }

  /** A shorter frame would be a panic, which the loop never gets to. */
  function DecodeFrame(frame: bytes, timeout: Option<nat>): Result<(TestResult, u64)> {
    if |frame| < FRAME_LEN then Failure("index out of range") else DecodeFields(frame, timeout)
  }

  function DecodeFields(frame: bytes, timeout: Option<nat>): Result<(TestResult, u64)>
    requires |frame| >= FRAME_LEN
  {
    FromLittleEndianBound(frame[6..14]);
    FromLittleEndianBound(frame[2..6]);
    Powers();
    var nanos := FromLittleEndian(frame[6..14]);
    if frame[1] == EXITED then
      Success((FromExitStatus(ToStatus(FromLittleEndian(frame[2..6])), timeout, nanos), nanos))
    else if frame[1] == TIMED_OUT then Success((TimedOut, nanos))
    else if frame[1] == CANCELLED then Success((Ignored, nanos))
    else Failure("invalid isolated owner outcome")
  }

  /** The frame of a test that ended by itself is decoded as that end, and the frame of any other test as what it reports. */
  lemma DecodeEnd(end: End, nanos: u64, timeout: Option<nat>)
    requires end.Valid()
    ensures var result := DecodeFrame(Frame(Report(EXITED, end.Status(), nanos)), timeout);
      result.Success? && result.value.1 == nanos && Tells(result.value.0, end, timeout, nanos)
    ensures forall status :: DecodeFrame(Frame(Report(TIMED_OUT, status, nanos)), timeout) == Success((TimedOut, nanos))
    ensures forall status :: DecodeFrame(Frame(Report(CANCELLED, status, nanos)), timeout) == Success((Ignored, nanos))
  {
    hide Frame, DecodeFrame, Tells, End.Status;
    StatusTells(end, timeout, nanos);
    DecodeWritten(Report(EXITED, end.Status(), nanos), timeout);
    forall status, outcome | outcome == TIMED_OUT || outcome == CANCELLED
      ensures DecodeFrame(Frame(Report(outcome, status, nanos)), timeout) == Meaning(Report(outcome, status, nanos), timeout)
    {
      DecodeWritten(Report(outcome, status, nanos), timeout);
    }
  }

  /** Every frame an owner writes is decoded as the outcome, status and time that it reports. */
  lemma DecodeWritten(report: Report, timeout: Option<nat>)
    ensures DecodeFrame(Frame(report), timeout) == Meaning(report, timeout)
  {
    var status, nanos := ToLittleEndian(FromStatus(report.status), 4), ToLittleEndian(report.nanos, 8);
    assert Frame(report)[2..6] == status && Frame(report)[6..14] == nanos;
    Powers();
    LittleEndianRoundTrip(FromStatus(report.status), 4);
    LittleEndianRoundTrip(report.nanos, 8);
  }

  // ---------- What the monitor knows, and what it learns in a poll ----------

  /** Times are in nanoseconds. */
  const SECOND: nat := 1_000_000_000
  const STARTUP_TIMEOUT := 5 * SECOND
  const CLEANUP_TIMEOUT := 10 * SECOND
  const REPORT_TIMEOUT := SECOND

  /** The latest time that the clock can hold. */
  const LAST_INSTANT: nat := 0x7FFF_FFFF_FFFF_FFFF * SECOND + 999_999_999

  function CheckedAdd(now: nat, bound: nat): Option<nat> {
    if now + bound <= LAST_INSTANT then Some(now + bound) else None
  }

  datatype Watch = Watch(
    frame: bytes, deadline: Option<nat>, ready: bool, cancelled: bool, exited: bool, reported: bool)

  function Started(now: nat): Watch {
    Watch([], Some(now + STARTUP_TIMEOUT), false, false, false, false)
  }

  /** What one read of the channel gives: the next bytes, at most one more than a frame has, or an error. */
  datatype Arrival = Bytes(data: bytes) | NothingYet | Reset | ReadError(message: string)

  const CANCEL_FAILED := "cancellation could not be written"
  const OWNER_FAILED := "isolated owner failed"
  const UNREADABLE_OUTPUT := "a pipe could not be read"
  const INVALID_FRAME := "invalid isolated owner completion frame"

  /** Only a complete frame stays valid when the connection is reset. */
  function Received(frame: bytes, arrival: Arrival): Result<bytes> {
    if arrival.ReadError? then Failure(arrival.message)
    else if arrival.Reset? && |frame| != FRAME_LEN then Failure("connection reset")
    else
      var frame := if arrival.Bytes? then frame + arrival.data else frame;
      if |frame| > FRAME_LEN || (frame != [] && frame[0] != READY) then Failure(INVALID_FRAME) else Success(frame)
  }

  /** `READY` starts the test's own time unless the test is cancelled; a whole frame leaves time to report. */
  function Read(w: Watch, arrival: Arrival, timeout: Option<nat>, now: nat): Result<Watch> {
    var frame :- Received(w.frame, arrival);
    var starts, reports := !w.ready && frame != [], !w.reported && |frame| == FRAME_LEN;
    Success(w.(
      frame := frame,
      ready := w.ready || starts,
      reported := w.reported || reports,
      deadline :=
        if reports then Some(now + REPORT_TIMEOUT)
        else if starts && !w.cancelled then
          if timeout.Some? then CheckedAdd(now, timeout.value + CLEANUP_TIMEOUT + REPORT_TIMEOUT) else None
        else w.deadline))
  }

  /** With nothing to forward, the watch stays as it is; otherwise the write fails, or the deadline moves. */
  function ForwardCancellation(w: Watch, requested: bool, fails: bool, now: nat): Result<Watch> {
    if w.cancelled || w.reported || w.exited || !requested then Success(w)
    else if fails then Failure(CANCEL_FAILED)
    else Success(w.(cancelled := true, deadline := Some(now + CLEANUP_TIMEOUT + REPORT_TIMEOUT)))
  }

  /** An exit that was seen is not looked for again; a failed one is an error. */
  function Waited(w: Watch, exit: Option<bool>, now: nat): Result<Watch> {
    if w.exited || exit.None? then Success(w)
    else if !exit.value then Failure(OWNER_FAILED)
    else Success(w.(exited := true, deadline := Some(now + REPORT_TIMEOUT)))
  }

  // ---------- What many polls come to ----------

  /** What may still become, or is, the frame of an owner. */
  predicate IsFrameSoFar(frame: bytes) {
    |frame| <= FRAME_LEN && (frame != [] ==> frame[0] == READY)
  }

  function Joined(pieces: seq<bytes>): bytes {
    if pieces == [] then [] else Joined(pieces[..|pieces| - 1]) + pieces[|pieces| - 1]
  }

  function ReceivedAll(frame: bytes, pieces: seq<bytes>): Result<bytes> {
    if pieces == [] then Success(frame)
    else
      var before :- ReceivedAll(frame, pieces[..|pieces| - 1]);
      Received(before, Bytes(pieces[|pieces| - 1]))
  }

  /** However the channel splits it into pieces, a frame is read or refused as if it came at once. */
  lemma {:induction false} FrameInPieces(frame: bytes, pieces: seq<bytes>)
    requires IsFrameSoFar(frame)
    ensures ReceivedAll(frame, pieces) ==
      if IsFrameSoFar(frame + Joined(pieces)) then Success(frame + Joined(pieces)) else Failure(INVALID_FRAME)
  {
    if pieces == [] {
      assert frame + [] == frame;
    } else {
      var n := |pieces| - 1;
      FrameInPieces(frame, pieces[..n]);
      Associative(frame, Joined(pieces[..n]), pieces[n]);
    }
  }

  /** One thing that a poll does. */
  datatype Action = Reads(arrival: Arrival) | Forwards(requested: bool, fails: bool) | Waits(exit: Option<bool>)

  function After(w: Watch, action: Action, timeout: Option<nat>, now: nat): Result<Watch> {
    match action
    case Reads(arrival) => Read(w, arrival, timeout, now)
    case Forwards(requested, fails) => ForwardCancellation(w, requested, fails, now)
    case Waits(exit) => Waited(w, exit, now)
  }

  /** What the monitor knows after these actions, or when one of them fails. */
  function Last(w: Watch, actions: seq<(Action, nat)>, timeout: Option<nat>): Watch
    decreases |actions|
  {
    if actions == [] then w
    else
      match After(w, actions[0].0, timeout, actions[0].1)
      case Failure(_) => w
      case Success(next) => Last(next, actions[1..], timeout)
  }

  /** How often the deadline moves. */
  function Moves(w: Watch, actions: seq<(Action, nat)>, timeout: Option<nat>): nat
    decreases |actions|
  {
    if actions == [] then 0
    else
      match After(w, actions[0].0, timeout, actions[0].1)
      case Failure(_) => 0
      case Success(next) => (if next.deadline != w.deadline then 1 else 0) + Moves(next, actions[1..], timeout)
  }

  /** How often a request to cancel is written to the owner. */
  function Requests(w: Watch, actions: seq<(Action, nat)>, timeout: Option<nat>): nat
    decreases |actions|
  {
    if actions == [] then 0
    else
      match After(w, actions[0].0, timeout, actions[0].1)
      case Failure(_) => 0
      case Success(next) => (if next.cancelled && !w.cancelled then 1 else 0) + Requests(next, actions[1..], timeout)
  }

  /** The causes to move the deadline that have come up. */
  function Causes(w: Watch): nat {
    (if w.ready then 1 else 0) + (if w.cancelled then 1 else 0) + (if w.reported then 1 else 0) + (if w.exited then 1 else 0)
  }

  /** Nothing that came up is forgotten, and no byte that was read is. */
  predicate Remembers(before: Watch, after: Watch) {
    && (before.ready ==> after.ready) && (before.cancelled ==> after.cancelled)
    && (before.reported ==> after.reported) && (before.exited ==> after.exited)
    && before.frame <= after.frame
  }

  lemma AfterRemembers(w: Watch, action: Action, timeout: Option<nat>, now: nat)
    requires After(w, action, timeout, now).Success?
    ensures var next := After(w, action, timeout, now).value;
      && Remembers(w, next)
      && (next.deadline != w.deadline ==> Causes(next) > Causes(w))
      && (next.cancelled && !w.cancelled ==> !w.reported && !w.exited)
  {}

  /** Ready, cancelled, reported and exited: each moves the deadline at most once, whatever arrives in whatever order. */
  lemma {:induction false} DeadlineMovesOncePerCause(w: Watch, actions: seq<(Action, nat)>, timeout: Option<nat>)
    ensures Remembers(w, Last(w, actions, timeout))
    ensures Causes(w) + Moves(w, actions, timeout) <= Causes(Last(w, actions, timeout)) <= 4
    decreases |actions|
  {
    hide Read, ForwardCancellation, Waited;
    if actions != [] && After(w, actions[0].0, timeout, actions[0].1).Success? {
      AfterRemembers(w, actions[0].0, timeout, actions[0].1);
      DeadlineMovesOncePerCause(After(w, actions[0].0, timeout, actions[0].1).value, actions[1..], timeout);
    }
  }

  /** The owner is asked to cancel at most once, and never after it reported or exited. */
  lemma {:induction false} CancelsAtMostOnce(w: Watch, actions: seq<(Action, nat)>, timeout: Option<nat>)
    ensures Requests(w, actions, timeout) <= if w.cancelled || w.reported || w.exited then 0 else 1
    decreases |actions|
  {
    hide Read, ForwardCancellation, Waited;
    if actions != [] && After(w, actions[0].0, timeout, actions[0].1).Success? {
      AfterRemembers(w, actions[0].0, timeout, actions[0].1);
      CancelsAtMostOnce(After(w, actions[0].0, timeout, actions[0].1).value, actions[1..], timeout);
    }
  }

  /** What the monitor last heard of: the test was spawned, it runs, or is cancelled, its owner reported, or exited. */
  datatype Cause = WasSpawned | IsReady | IsCancelled | HasReported | HasExited

  /** How long it waits from then on; a test without a timeout may run forever. */
  function Allowance(cause: Cause, timeout: Option<nat>): Option<nat> {
    match cause
    case WasSpawned => Some(STARTUP_TIMEOUT)
    case IsReady => if timeout.Some? then Some(timeout.value + CLEANUP_TIMEOUT + REPORT_TIMEOUT) else None
    case IsCancelled => Some(CLEANUP_TIMEOUT + REPORT_TIMEOUT)
    case HasReported => Some(REPORT_TIMEOUT)
    case HasExited => Some(REPORT_TIMEOUT)
  }

  function WaitsUntil(cause: Cause, at: nat, timeout: Option<nat>): Option<nat> {
    match Allowance(cause, timeout)
    case None => None
    case Some(allowance) => if cause.IsReady? then CheckedAdd(at, allowance) else Some(at + allowance)
  }

  /** What the monitor heard of in between; a cancelled test that starts to run is still a cancelled one. */
  function News(before: Watch, after: Watch): Option<Cause> {
    if after.exited && !before.exited then Some(HasExited)
    else if after.reported && !before.reported then Some(HasReported)
    else if after.cancelled && !before.cancelled then Some(IsCancelled)
    else if after.ready && !before.ready && !after.cancelled then Some(IsReady)
    else None
  }

  /** What it heard of last, and when. */
  function LastNews(w: Watch, cause: Cause, at: nat, actions: seq<(Action, nat)>, timeout: Option<nat>): (Cause, nat)
    decreases |actions|
  {
    if actions == [] then (cause, at)
    else
      match After(w, actions[0].0, timeout, actions[0].1)
      case Failure(_) => (cause, at)
      case Success(next) =>
        var news := News(w, next);
        if news.Some? then LastNews(next, news.value, actions[0].1, actions[1..], timeout)
        else LastNews(next, cause, at, actions[1..], timeout)
  }

  lemma NewsMovesDeadline(w: Watch, action: Action, timeout: Option<nat>, now: nat)
    requires After(w, action, timeout, now).Success?
    ensures var next := After(w, action, timeout, now).value;
      next.deadline == match News(w, next) case None => w.deadline case Some(cause) => WaitsUntil(cause, now, timeout)
  {}

  /** At every point, the deadline is what the last news allows for, neither earlier nor later. */
  lemma {:induction false} DeadlineIsOfLastNews(
      w: Watch, cause: Cause, at: nat, actions: seq<(Action, nat)>, timeout: Option<nat>)
    requires w.deadline == WaitsUntil(cause, at, timeout)
    ensures var last := LastNews(w, cause, at, actions, timeout);
      Last(w, actions, timeout).deadline == WaitsUntil(last.0, last.1, timeout)
    decreases |actions|
  {
    if actions != [] && After(w, actions[0].0, timeout, actions[0].1).Success? {
      NewsMovesDeadline(w, actions[0].0, timeout, actions[0].1);
      hide Read, ForwardCancellation, Waited, WaitsUntil, News;
      var next := After(w, actions[0].0, timeout, actions[0].1).value;
      var news := News(w, next);
      if news.Some? {
        DeadlineIsOfLastNews(next, news.value, actions[0].1, actions[1..], timeout);
      } else {
        DeadlineIsOfLastNews(next, cause, at, actions[1..], timeout);
      }
    }
  }

  predicate Overdue(w: Watch, now: nat) {
    w.deadline.Some? && now >= w.deadline.value
  }

  /** What a pipe's reader has come to: still reading, the end of the pipe, or an error. */
  datatype Pipe = Open | Ended | Broken

  predicate Complete(w: Watch, stdout: Pipe, stderr: Pipe) {
    w.exited && w.reported && !stdout.Open? && !stderr.Open?
  }

  function Verdict(w: Watch, stdout: Pipe, stderr: Pipe, timeout: Option<nat>): Result<(TestResult, u64)> {
    var decoded :- DecodeFrame(w.frame, timeout);
    if stdout.Broken? || stderr.Broken? then Failure(UNREADABLE_OUTPUT) else Success(decoded)
  }

  // ---------- Captured output ----------

  const OUTPUT_LIMIT: nat := 1024 * 1024
  const MAX_USIZE: nat := 0xFFFF_FFFF_FFFF_FFFF

  class Capture {
    var kept: bytes
    var discarded: nat
    ghost var received: bytes

    /** However the pipe's bytes were split into reads, the first ones up to the limit are kept, and the rest is counted. */
    ghost predicate Valid()
      reads this
    {
      && kept == received[..Min(|received|, OUTPUT_LIMIT)]
      && discarded == Min(|received| - |kept|, MAX_USIZE)
    }

    constructor ()
      ensures Valid() && received == []
    {
      kept, discarded, received := [], 0, [];
    }

    method Take(buffer: bytes)
      requires Valid()
      modifies this
      ensures Valid() && received == old(received) + buffer
    {
      var keep := Min(|buffer|, OUTPUT_LIMIT - |kept|);
      kept := kept + buffer[..keep];
      discarded := Min(discarded + (|buffer| - keep), MAX_USIZE);
      received := received + buffer;
      assert received[..|kept|] == kept;
    }
  }

  // ---------- The polling loop ----------

  /** All that one poll of the loop meets, each with the time it is met at. */
  datatype Poll = Poll(
    arrival: Arrival, readAt: nat,
    requested: bool, cancelFails: bool, cancelAt: nat,
    exit: Option<bool>, exitAt: nat,
    stdout: Pipe, stderr: Pipe, checkedAt: nat)

  datatype Progress = Continues(watch: Watch) | Returns(result: Result<(TestResult, u64)>)

  const MISSED_DEADLINE := "isolated owner missed its execution or teardown deadline"

  function Checked(w: Watch, stdout: Pipe, stderr: Pipe, timeout: Option<nat>, now: nat): Progress {
    if Complete(w, stdout, stderr) then Returns(Verdict(w, stdout, stderr, timeout))
    else if Overdue(w, now) then Returns(Failure(MISSED_DEADLINE))
    else Continues(w)
  }

  /** The monitor gives up on a test exactly if it is not complete and has used up all of the time that its last news allows. */
  lemma GivesUpWhenTimeIsUp(
      start: nat, actions: seq<(Action, nat)>, stdout: Pipe, stderr: Pipe, timeout: Option<nat>, now: nat)
    ensures var w, last := Last(Started(start), actions, timeout), LastNews(Started(start), WasSpawned, start, actions, timeout);
      Checked(w, stdout, stderr, timeout, now) == Returns(Failure(MISSED_DEADLINE)) <==>
        && !Complete(w, stdout, stderr)
        && WaitsUntil(last.0, last.1, timeout).Some?
        && WaitsUntil(last.0, last.1, timeout).value <= now
  {
    DeadlineIsOfLastNews(Started(start), WasSpawned, start, actions, timeout);
    hide Last, LastNews, WaitsUntil, DecodeFields;
    ErrorsDiffer(Last(Started(start), actions, timeout).frame, timeout);
  }

  lemma ErrorsDiffer(frame: bytes, timeout: Option<nat>)
    ensures DecodeFrame(frame, timeout) != Failure(MISSED_DEADLINE) && UNREADABLE_OUTPUT != MISSED_DEADLINE
  {
    assert |MISSED_DEADLINE| != |UNREADABLE_OUTPUT|;
  }

  /** With the frame that an owner wrote, a result is returned exactly if the owner exited and both pipes ended; and it is
      the one that the owner reported. */
  lemma ReturnsReport(w: Watch, report: Report, stdout: Pipe, stderr: Pipe, timeout: Option<nat>, now: nat)
    requires w.frame == Frame(report) && report.outcome in {EXITED, TIMED_OUT, CANCELLED}
    ensures var progress := Checked(w, stdout, stderr, timeout, now);
      && (progress.Returns? && progress.result.Success? <==> w.exited && w.reported && stdout.Ended? && stderr.Ended?)
      && (progress.Returns? && progress.result.Success? ==> progress.result == Meaning(report, timeout))
      && (progress.Continues? <==> !Complete(w, stdout, stderr) && !Overdue(w, now))
    ensures forall end: End | end.Valid() && report.outcome == EXITED && report.status == end.Status() ::
      var progress := Checked(w, stdout, stderr, timeout, now);
      progress.Returns? && progress.result.Success? ==> Tells(progress.result.value.0, end, timeout, report.nanos)
  {
    hide Frame, DecodeFrame, FromExitStatus, Tells, End.Status;
    DecodeWritten(report, timeout);
    forall end: End | end.Valid() && report.outcome == EXITED && report.status == end.Status()
      ensures Tells(FromExitStatus(report.status, timeout, report.nanos), end, timeout, report.nanos)
    {
      StatusTells(end, timeout, report.nanos);
    }
  }

  predicate Sound(w: Watch) {
    && (w.reported <==> |w.frame| == FRAME_LEN)
    && |w.frame| <= FRAME_LEN
    && (w.ready <==> w.frame != [])
    && (w.frame != [] ==> w.frame[0] == READY)
  }

  lemma ReadIsSound(w: Watch, arrival: Arrival, timeout: Option<nat>, now: nat)
    requires Sound(w) && Read(w, arrival, timeout, now).Success?
    ensures Sound(Read(w, arrival, timeout, now).value)
  {}

  function Polled(w: Watch, p: Poll, timeout: Option<nat>): Progress {
    match Read(w, p.arrival, timeout, p.readAt)
    case Failure(error) => Returns(Failure(error))
    case Success(read) =>
      match ForwardCancellation(read, p.requested, p.cancelFails, p.cancelAt)
      case Failure(error) => Returns(Failure(error))
      case Success(asked) =>
        match Waited(asked, p.exit, p.exitAt)
        case Failure(error) => Returns(Failure(error))
        case Success(waited) =>
          Checked(waited, p.stdout, p.stderr, timeout, p.checkedAt)
  }

  class Monitor {
    const timeout: Option<nat>
    var frame: bytes
    var deadline: Option<nat>
    var ready: bool
    var cancelled: bool
    var exited: bool
    var reported: bool

    ghost function State(): Watch
      reads this
    {
      Watch(frame, deadline, ready, cancelled, exited, reported)
    }

    constructor (timeout: Option<nat>, now: nat)
      ensures this.timeout == timeout && State() == Started(now) && Sound(State())
    {
      this.timeout := timeout;
      frame, deadline := [], Some(now + STARTUP_TIMEOUT);
      ready, cancelled, exited, reported := false, false, false, false;
    }

    method ReadCompletion(arrival: Arrival) returns (error: Option<string>)
      requires Sound(State())
      modifies this`frame
      ensures error.None? ==> IsFrameSoFar(frame) && frame == old(frame) + if arrival.Bytes? then arrival.data else []
      ensures error.None? <==> Received(old(frame), arrival).Success?
      ensures error.None? ==> frame == Received(old(frame), arrival).value
      ensures error.Some? ==> Received(old(frame), arrival) == Failure(error.value)
    {
      match arrival {
        case Bytes(data) => frame := frame + data;
        case NothingYet =>
        case Reset => if |frame| != FRAME_LEN { return Some("connection reset"); }
        case ReadError(message) => return Some(message);
      }
      if |frame| > FRAME_LEN || (frame != [] && frame[0] != READY) {
        return Some(INVALID_FRAME);
      }
      error := None;
    }

    method StartExecuting(now: nat)
      modifies this`ready, this`deadline
      ensures ready && deadline == if cancelled then old(deadline)
        else if timeout.Some? then CheckedAdd(now, timeout.value + CLEANUP_TIMEOUT + REPORT_TIMEOUT) else None
    {
      ready := true;
      if !cancelled {
        deadline := if timeout.Some? then CheckedAdd(now, timeout.value + CLEANUP_TIMEOUT + REPORT_TIMEOUT) else None;
      }
    }

    /** Reads the channel, and moves on to the stage that the frame so far shows. */
    method ReadStage(arrival: Arrival, now: nat) returns (error: Option<string>)
      requires Sound(State())
      modifies this
      ensures match Read(old(State()), arrival, timeout, now)
        case Failure(message) => error == Some(message)
        case Success(w) => error == None && State() == w
    {
      error := ReadCompletion(arrival);
      if error.Some? {
        return;
      }
      if !ready && frame != [] {
        StartExecuting(now);
      }
      if !reported && |frame| == FRAME_LEN {
        reported := true;
        deadline := Some(now + REPORT_TIMEOUT);
      }
    }

    method PassOnCancellation(requested: bool, fails: bool, now: nat) returns (error: Option<string>)
      modifies this`cancelled, this`deadline
      ensures cancelled <==> old(cancelled) || (requested && !fails && !reported && !exited)
      ensures error.Some? <==> fails && requested && !old(cancelled) && !reported && !exited
      ensures cancelled && !old(cancelled) ==> deadline == WaitsUntil(IsCancelled, now, timeout)
      ensures deadline != old(deadline) ==> cancelled && !old(cancelled)
      ensures match ForwardCancellation(old(State()), requested, fails, now)
        case Failure(message) => error == Some(message)
        case Success(w) => error == None && State() == w
    {
      error := None;
      if cancelled || reported || exited || !requested {
        return;
      }
      if fails {
        return Some(CANCEL_FAILED);
      }
      cancelled := true;
      deadline := Some(now + CLEANUP_TIMEOUT + REPORT_TIMEOUT);
    }

    method WaitForOwner(exit: Option<bool>, now: nat) returns (error: Option<string>)
      modifies this`exited, this`deadline
      ensures exited <==> old(exited) || exit == Some(true)
      ensures error.Some? <==> !old(exited) && exit == Some(false)
      ensures exited && !old(exited) ==> deadline == WaitsUntil(HasExited, now, timeout)
      ensures deadline != old(deadline) ==> exited && !old(exited)
      ensures match Waited(old(State()), exit, now)
        case Failure(message) => error == Some(message)
        case Success(w) => error == None && State() == w
    {
      error := None;
      if exited || exit.None? {
        return;
      }
      if !exit.value {
        return Some(OWNER_FAILED);
      }
      exited := true;
      deadline := Some(now + REPORT_TIMEOUT);
    }

    method Finish(stdout: Pipe, stderr: Pipe, now: nat) returns (result: Option<Result<(TestResult, u64)>>)
      requires Sound(State())
      ensures result.Some? && result.value.Success? ==>
        exited && reported && |frame| == FRAME_LEN && stdout.Ended? && stderr.Ended?
      ensures result.None? ==> deadline.Some? ==> now < deadline.value
      ensures Checked(State(), stdout, stderr, timeout, now) == if result.None? then Continues(State()) else Returns(result.value)
    {
      if exited && reported && !stdout.Open? && !stderr.Open? {
        var decoded := DecodeFrame(frame, timeout);
        if decoded.Success? && (stdout.Broken? || stderr.Broken?) {
          return Some(Failure(UNREADABLE_OUTPUT));
        }
        return Some(decoded);
      }
      if deadline.Some? && now >= deadline.value {
        return Some(Failure(MISSED_DEADLINE));
      }
      return None;
    }

    /** One round of the loop: what it returns if it returns, and what the monitor knows after it if it does not. */
    method PollOnce(p: Poll) returns (result: Option<Result<(TestResult, u64)>>)
      requires Sound(State())
      modifies this
      ensures result.None? ==> Sound(State())
      ensures Polled(old(State()), p, timeout) == if result.None? then Continues(State()) else Returns(result.value)
    {
      hide Read, ForwardCancellation, Waited, Checked, WaitsUntil;
      ghost var before := State();
      var error := ReadStage(p.arrival, p.readAt);
      if error.Some? {
        return Some(Failure(error.value));
      }
      ReadIsSound(before, p.arrival, timeout, p.readAt);
      error := PassOnCancellation(p.requested, p.cancelFails, p.cancelAt);
      if error.Some? {
        return Some(Failure(error.value));
      }
      error := WaitForOwner(p.exit, p.exitAt);
      if error.Some? {
        return Some(Failure(error.value));
      }
      result := Finish(p.stdout, p.stderr, p.checkedAt);
    }
  }
}
