/** The progress records of a run, for a caller that watches it: how they are written, and what their sequence means. */
module Progress {
  import opened Integers
  import opened Json
  import opened JsonRoundTrip
  import opened Wrappers

  datatype Event =
    | Header
    | PhaseSet(phase: string)
    | TestStart(during: Option<string>, invocation: nat)
    | TestEnd(ended: nat, result: string, complete: bool)
    | Terminal(completed: bool, code: int)

  /** An event with its sequence number, and when it was written. */
  datatype Record = Record(event: Event, seq': nat, elapsed: nat)

  const RECORD_LIMIT: nat := 16 * 1024
  const FILE_LIMIT: nat := 1024 * 1024 * 1024
  const NEWLINE: byte := 10

  /** The fields of a record; there are none if one of them cannot be serialized. */
  type Encoding = Record -> Option<seq<(string, Value)>>

  function Body(encode: Encoding, r: Record): bytes
    requires encode(r).Some?
  {
    Print(Object(encode(r).value))
  }

  function Line(encode: Encoding, r: Record): bytes
    requires encode(r).Some?
  {
    Body(encode, r) + [NEWLINE]
  }

  /** A record is one line: what is printed of it holds no line break. */
  lemma BodyIsOneLine(encode: Encoding, r: Record)
    requires encode(r).Some?
    ensures NEWLINE !in Body(encode, r)
  {
    PrintIsClean(Object(encode(r).value));
    hide Print;
  }

  predicate Printable(encode: Encoding, rs: seq<Record>) {
    forall i | 0 <= i < |rs| :: encode(rs[i]).Some?
  }

  function Lines(encode: Encoding, rs: seq<Record>): bytes
    requires Printable(encode, rs)
  {
    if rs == [] then [] else Lines(encode, rs[..|rs| - 1]) + Line(encode, rs[|rs| - 1])
  }

  // ---------- What a sequence of records means ----------

  /** What a watcher knows after some records. */
  datatype Seen = Seen(phase: Option<string>, started: nat, active: set<nat>, closed: bool)

  const NOTHING := Seen(None, 0, {}, false)

  /** What it knows after one more; undefined if the record makes no sense there. */
  function Watch(seen: Seen, event: Event): Option<Seen> {
    if seen.closed then None
    else
      match event
      case Header => Some(seen)
      case PhaseSet(phase) => if seen.active == {} then Some(seen.(phase := Some(phase))) else None
      case TestStart(during, invocation) =>
        if during == seen.phase && invocation == seen.started + 1
        then Some(seen.(started := invocation, active := seen.active + {invocation})) else None
      case TestEnd(ended, _, complete) =>
        if ended !in seen.active then None
        else Some(if complete then seen.(active := seen.active - {ended}) else seen)
      case Terminal(completed, _) => if completed && seen.active != {} then None else Some(seen.(closed := true))
  }

  function WatchAll(rs: seq<Record>): Option<Seen> {
    if rs == [] then Some(NOTHING)
    else
      match WatchAll(rs[..|rs| - 1])
      case None => None
      case Some(seen) => Watch(seen, rs[|rs| - 1].event)
  }

  predicate InSequence(rs: seq<Record>) {
    forall i | 0 <= i < |rs| :: rs[i].seq' == i
  }

  lemma WatchPush(rs: seq<Record>, r: Record)
    requires WatchAll(rs).Some?
    ensures WatchAll(rs + [r]) == Watch(WatchAll(rs).value, r.event)
  {
    assert (rs + [r])[..|rs|] == rs;
  }

  predicate StartsAt(rs: seq<Record>, i: nat, invocation: nat) {
    i < |rs| && rs[i].event.TestStart? && rs[i].event.invocation == invocation
  }

  predicate CompletesAt(rs: seq<Record>, i: nat, invocation: nat) {
    i < |rs| && rs[i].event.TestEnd? && rs[i].event.ended == invocation && rs[i].event.complete
  }

  /** The invocations that have a start record, and those that have a complete end. */
  function Started(rs: seq<Record>): set<nat> {
    set i | 0 <= i < |rs| && rs[i].event.TestStart? :: rs[i].event.invocation
  }

  function Ended(rs: seq<Record>): set<nat> {
    set i | 0 <= i < |rs| && rs[i].event.TestEnd? && rs[i].event.complete :: rs[i].event.ended
  }

  predicate OneStartEach(rs: seq<Record>) {
    forall i, j | 0 <= i < j < |rs| && rs[i].event.TestStart? :: !StartsAt(rs, j, rs[i].event.invocation)
  }

  predicate OneCompletionEach(rs: seq<Record>) {
    forall i, j | 0 <= i < j < |rs| && rs[i].event.TestEnd? && rs[i].event.complete :: !CompletesAt(rs, j, rs[i].event.ended)
  }

  /** Since the invocation started, the phase has not changed. */
  predicate StaysInPhase(rs: seq<Record>, invocation: nat) {
    forall i, j | 0 <= i < j < |rs| && StartsAt(rs, i, invocation) :: !rs[j].event.PhaseSet?
  }

  lemma SetsPush(rs: seq<Record>, r: Record)
    ensures Started(rs + [r]) == Started(rs) + if r.event.TestStart? then {r.event.invocation} else {}
    ensures Ended(rs + [r]) == Ended(rs) + if r.event.TestEnd? && r.event.complete then {r.event.ended} else {}
  {
    var more := rs + [r];
    assert forall i | 0 <= i < |rs| :: more[i] == rs[i];
    assert more[|rs|] == r;
  }

  /** Those that are active have started, and not ended. */
  predicate Tracks(seen: Seen, started: set<nat>, ended: set<nat>) {
    seen.active == started - ended && ended <= started && forall k <- started :: k <= seen.started
  }

  lemma WatchTracks(seen: Seen, event: Event, started: set<nat>, ended: set<nat>)
    requires Tracks(seen, started, ended) && Watch(seen, event).Some?
    ensures Tracks(
      Watch(seen, event).value,
      started + (if event.TestStart? then {event.invocation} else {}),
      ended + (if event.TestEnd? && event.complete then {event.ended} else {}))
  {
    assert started + {} == started && ended + {} == ended;
    if event.TestStart? {
      assert event.invocation !in started;
      assert (started + {event.invocation}) - ended == (started - ended) + {event.invocation};
    }
  }

  lemma {:induction false} SeenMeans(rs: seq<Record>)
    requires WatchAll(rs).Some?
    ensures Tracks(WatchAll(rs).value, Started(rs), Ended(rs))
  {
    if rs != [] {
      var n := |rs| - 1;
      assert rs == rs[..n] + [rs[n]];
      SeenMeans(rs[..n]);
      SetsPush(rs[..n], rs[n]);
      WatchTracks(WatchAll(rs[..n]).value, rs[n].event, Started(rs[..n]), Ended(rs[..n]));
      hide Started, Ended, Watch, Tracks;
    }
  }

  lemma {:induction false} OnceEach(rs: seq<Record>)
    requires WatchAll(rs).Some?
    ensures OneStartEach(rs) && OneCompletionEach(rs)
  {
    if rs != [] {
      var n := |rs| - 1;
      OnceEach(rs[..n]);
      SeenMeans(rs[..n]);
      forall i | 0 <= i < n && rs[i].event.TestStart?
        ensures !StartsAt(rs, n, rs[i].event.invocation)
      {
        assert rs[..n][i].event.invocation in Started(rs[..n]);
      }
      forall i | 0 <= i < n && rs[i].event.TestEnd? && rs[i].event.complete
        ensures !CompletesAt(rs, n, rs[i].event.ended)
      {
        assert rs[..n][i].event.ended in Ended(rs[..n]);
      }
      assert forall i, k | 0 <= i < n && 0 <= k :: StartsAt(rs, i, k) == StartsAt(rs[..n], i, k);
      assert forall i, k | 0 <= i < n && 0 <= k :: CompletesAt(rs, i, k) == CompletesAt(rs[..n], i, k);
    }
  }

  lemma {:induction false} ActiveStayInPhase(rs: seq<Record>, k: nat)
    requires WatchAll(rs).Some? && k in WatchAll(rs).value.active
    ensures StaysInPhase(rs, k)
  {
    var n := |rs| - 1;
    var before := WatchAll(rs[..n]).value;
    if k in before.active {
      ActiveStayInPhase(rs[..n], k);
      assert forall i | 0 <= i < n :: StartsAt(rs, i, k) == StartsAt(rs[..n], i, k);
    } else {
      SeenMeans(rs[..n]);
      forall i | 0 <= i < n
        ensures StartsAt(rs, i, k) ==> k in Started(rs[..n])
      {
        assert StartsAt(rs, i, k) ==> rs[..n][i].event.TestStart? && rs[..n][i].event.invocation == k;
      }
    }
  }

  lemma {:induction false} WatchPrefix(rs: seq<Record>, n: nat)
    requires WatchAll(rs).Some? && n <= |rs|
    ensures WatchAll(rs[..n]).Some?
    decreases |rs|
  {
    if n < |rs| {
      WatchPrefix(rs[..|rs| - 1], n);
      assert rs[..|rs| - 1][..n] == rs[..n];
    } else {
      assert rs[..n] == rs;
    }
  }

  /** Every end is of an invocation that started before it in the same phase, and that did not end completely before. */
  lemma EndsMatchStarts(rs: seq<Record>, j: nat) returns (i: nat)
    requires WatchAll(rs).Some? && j < |rs| && rs[j].event.TestEnd?
    ensures i < j && StartsAt(rs, i, rs[j].event.ended)
    ensures forall k | i < k < j :: !rs[k].event.PhaseSet? && !CompletesAt(rs, k, rs[j].event.ended)
  {
    var before, id := rs[..j], rs[j].event.ended;
    WatchPrefix(rs, j + 1);
    assert rs[..j + 1][..j] == before;
    WatchPrefix(rs, j);
    SeenMeans(before);
    assert id in Started(before) && id !in Ended(before);
    i :| 0 <= i < j && before[i].event.TestStart? && before[i].event.invocation == id;
    ActiveStayInPhase(before, id);
    assert StartsAt(before, i, id);
    forall k | i < k < j
      ensures !rs[k].event.PhaseSet? && !CompletesAt(rs, k, id)
    {
      assert before[k] == rs[k];
    }
  }

  /** A completed run's records have exactly one complete end of each invocation that started. */
  lemma CompletedEndsEverything(rs: seq<Record>, i: nat) returns (j: nat)
    requires WatchAll(rs).Some? && rs != [] && rs[|rs| - 1].event.Terminal? && rs[|rs| - 1].event.completed
    requires i < |rs| && rs[i].event.TestStart?
    ensures CompletesAt(rs, j, rs[i].event.invocation)
    ensures forall k: nat | k != j :: !CompletesAt(rs, k, rs[i].event.invocation)
  {
    var n := |rs| - 1;
    var id := rs[i].event.invocation;
    SeenMeans(rs[..n]);
    OnceEach(rs);
    assert rs[..n][i].event.invocation in Started(rs[..n]);
    assert WatchAll(rs[..n]).value.active == {};
    assert id in Started(rs[..n]) && id !in Started(rs[..n]) - Ended(rs[..n]);
    j :| 0 <= j < n && rs[..n][j].event.TestEnd? && rs[..n][j].event.complete && rs[..n][j].event.ended == id;
    assert rs[..n][j] == rs[j];
    forall k: nat | k != j
      ensures !CompletesAt(rs, k, id)
    {
      assert CompletesAt(rs, k, id) ==> CompletesAt(rs, j, rs[k].event.ended);
    }
  }

  /** Nothing follows a terminal record. */
  lemma {:induction false} TerminalIsLast(rs: seq<Record>)
    requires WatchAll(rs).Some?
    ensures WatchAll(rs).value.closed <==> rs != [] && rs[|rs| - 1].event.Terminal?
    ensures forall i | 0 <= i < |rs| - 1 :: !rs[i].event.Terminal?
  {
    if rs != [] {
      TerminalIsLast(rs[..|rs| - 1]);
    }
  }

  // ---------- The writer ----------

  /** The file is the whole records, numbered and within both limits, and after a failure perhaps a part of one more. */
  ghost predicate Kept(encode: Encoding, records: seq<Record>, file: bytes, written: nat, sequence: nat, healthy: bool) {
    && Printable(encode, records)
    && Lines(encode, records) <= file
    && NEWLINE !in file[|Lines(encode, records)|..]
    && (healthy ==> file == Lines(encode, records))
    && written == |Lines(encode, records)| <= FILE_LIMIT
    && (forall i | 0 <= i < |records| :: |Line(encode, records[i])| <= RECORD_LIMIT)
    && InSequence(records) && sequence == |records| <= written
  }

  /** One more record that the limits allow. */
  lemma KeptPush(encode: Encoding, records: seq<Record>, file: bytes, written: nat, sequence: nat, r: Record)
    requires Kept(encode, records, file, written, sequence, true) && r.seq' == sequence
    requires encode(r).Some? && |Line(encode, r)| <= RECORD_LIMIT && written + |Line(encode, r)| <= FILE_LIMIT
    ensures Kept(encode, records + [r], file + Line(encode, r), written + |Line(encode, r)|, sequence + 1, true)
  {
    hide Print;
    LinesPush(encode, records, r);
    assert |Line(encode, r)| > 0;
  }

  /** A record that was written only in part. */
  lemma KeptTorn(encode: Encoding, records: seq<Record>, file: bytes, written: nat, sequence: nat, r: Record, accepted: nat)
    requires Kept(encode, records, file, written, sequence, true)
    requires encode(r).Some? && accepted < |Line(encode, r)|
    ensures Kept(encode, records, file + Line(encode, r)[..accepted], written, sequence, false)
  {
    hide Print;
    BodyIsOneLine(encode, r);
    var torn := Line(encode, r)[..accepted];
    assert torn == Body(encode, r)[..accepted];
    assert (file + torn)[|Lines(encode, records)|..] == torn;
  }

  lemma KeptCounts(encode: Encoding, records: seq<Record>, file: bytes, written: nat, sequence: nat, healthy: bool)
    requires Kept(encode, records, file, written, sequence, healthy)
    ensures sequence == |records| && InSequence(records)
  {}

  lemma NothingMore(file: bytes)
    ensures file + [] == file
  {}

  lemma KeptFailed(encode: Encoding, records: seq<Record>, file: bytes, written: nat, sequence: nat, healthy: bool)
    requires Kept(encode, records, file, written, sequence, healthy)
    ensures Kept(encode, records, file, written, sequence, false)
  {}

  /** The record can be printed, and keeps within both limits, */
  ghost predicate Fits(encode: Encoding, written: nat, r: Record) {
    encode(r).Some? && |Line(encode, r)| <= RECORD_LIMIT && written + |Line(encode, r)| <= FILE_LIMIT
  }

  /** and the file takes all of its bytes. */
  ghost predicate IsWritten(encode: Encoding, written: nat, r: Record, accepted: nat) {
    Fits(encode, written, r) && |Line(encode, r)| <= accepted
  }

  /** What the file gets of a record, which is nothing unless the record fits. */
  ghost function Arrived(encode: Encoding, written: nat, r: Record, accepted: nat): bytes {
    if !Fits(encode, written, r) then []
    else if IsWritten(encode, written, r, accepted) then Line(encode, r)
    else Line(encode, r)[..accepted]
  }

  class Writer {
    const encode: Encoding
    var file: bytes
    var sequence: nat
    var written: nat
    var invocation: nat
    var active: set<nat>
    var phase: Option<string>
    var terminal: bool
    var healthy: bool
    /** The records that were written whole. */
    ghost var records: seq<Record>

    ghost predicate Valid()
      reads this
    {
      && Kept(encode, records, file, written, sequence, healthy)
      && WatchAll(records) == Some(Seen(phase, invocation, active, terminal))
      && invocation <= sequence
    }

    /** The writer is open, and the event's record will be written whole. */
    ghost predicate Takes(event: Event, elapsed: nat, accepted: nat)
      reads this
    {
      healthy && !terminal && IsWritten(encode, written, Record(event, sequence, elapsed), accepted)
    }

    /** The records with one more. */
    ghost function With(event: Event, elapsed: nat): seq<Record>
      reads this
    {
      records + [Record(event, sequence, elapsed)]
    }

    constructor (encode: Encoding)
      ensures Valid() && this.encode == encode && records == [] && healthy && !terminal && file == [] && sequence == 0
      ensures written == 0
    {
      this.encode := encode;
      file, sequence, written, invocation, active, phase, terminal, healthy := [], 0, 0, 0, {}, None, false, true;
      records := [];
    }

    /** Writes one record; the file takes so many of its bytes, and fails if that is not all of them. */
    method WriteRecord(event: Event, elapsed: nat, accepted: nat) returns (ok: bool)
      requires Kept(encode, records, file, written, sequence, true)
      modifies this`file, this`sequence, this`written, this`records
      ensures Kept(encode, records, file, written, sequence, ok)
      ensures ok <==> old(IsWritten(encode, written, Record(event, sequence, elapsed), accepted))
      ensures ok ==> records == old(With(event, elapsed)) && sequence == old(sequence) + 1
      ensures !ok ==> records == old(records)
      ensures file == old(file) + old(Arrived(encode, written, Record(event, sequence, elapsed), accepted))
    {
      hide Kept, Line;
      var record := Record(event, sequence, elapsed);
      NothingMore(file);
      KeptFailed(encode, records, file, written, sequence, true);
      if encode(record).None? {
        return false;
      }
      var line := Line(encode, record);
      if |line| > RECORD_LIMIT || written + |line| > FILE_LIMIT {
        return false;
      }
      if accepted < |line| {
        KeptTorn(encode, records, file, written, sequence, record, accepted);
        file := file + line[..accepted];
        return false;
      }
      KeptPush(encode, records, file, written, sequence, record);
      file := file + line;
      sequence := sequence + 1;
      written := written + |line|;
      records := records + [record];
      return true;
    }

    /** After any failure, and after the terminal record, the writer refuses every record. */
    method Append(event: Event, elapsed: nat, accepted: nat) returns (ok: bool)
      requires Valid() && (!terminal ==> Watch(Seen(phase, invocation, active, false), event).Some?)
      modifies this`file, this`sequence, this`written, this`records, this`healthy
      ensures old(!healthy || terminal) ==> !ok && file == old(file) && records == old(records) && healthy == old(healthy)
      ensures old(healthy && !terminal) ==> healthy == ok
      ensures Kept(encode, records, file, written, sequence, healthy) && old(sequence) <= sequence
      ensures ok <==> old(Takes(event, elapsed, accepted))
      ensures ok ==> records == old(With(event, elapsed)) && sequence == old(sequence) + 1
      ensures old(healthy && !terminal) ==>
        file == old(file) + old(Arrived(encode, written, Record(event, sequence, elapsed), accepted))
      ensures ok ==> WatchAll(records) == Watch(Seen(phase, invocation, active, false), event)
      ensures !ok ==> records == old(records)
    {
      hide Kept, Watch, WatchAll, IsWritten, Arrived;
      if !healthy || terminal {
        return false;
      }
      ghost var before := records;
      ok := WriteRecord(event, elapsed, accepted);
      healthy := ok;
      if ok {
        WatchPush(before, Record(event, old(sequence), elapsed));
      } else {
        assert sequence == old(sequence) by {
          KeptCounts(encode, records, file, written, sequence, false);
          KeptCounts(encode, before, old(file), old(written), old(sequence), true);
        }
      }
    }

    method SetPhase(next: string, elapsed: nat, accepted: nat) returns (ok: bool)
      requires Valid()
      modifies this
      ensures Valid() && old(records) <= records
      ensures ok <==> old(phase == Some(next) || (active == {} && Takes(PhaseSet(next), elapsed, accepted)))
      ensures ok ==> phase == Some(next)
      ensures records == if ok && old(phase) != Some(next) then old(With(PhaseSet(next), elapsed)) else old(records)
    {
      hide Kept, WatchAll, IsWritten, Arrived;
      if phase == Some(next) {
        return true;
      }
      if active != {} {
        return false;
      }
      ok := Append(PhaseSet(next), elapsed, accepted);
      if ok {
        phase := Some(next);
      }
    }

    method StartTest(elapsed: nat, accepted: nat) returns (started: Option<nat>)
      requires Valid()
      modifies this
      ensures Valid() && old(records) <= records
      ensures started.Some? <==> old(Takes(TestStart(phase, invocation + 1), elapsed, accepted))
      ensures started.Some? ==> started.value == old(invocation) + 1 && active == old(active) + {started.value}
      ensures started.Some? ==> records == old(With(TestStart(phase, invocation + 1), elapsed)) && phase == old(phase)
      ensures started.None? ==> records == old(records)
    {
      hide Kept, WatchAll, IsWritten, Arrived;
      var next := invocation + 1;
      var ok := Append(TestStart(phase, next), elapsed, accepted);
      if !ok {
        return None;
      }
      invocation := next;
      active := active + {next};
      return Some(next);
    }

    method EndTest(ended: nat, result: string, complete: bool, elapsed: nat, accepted: nat) returns (ok: bool)
      requires Valid()
      modifies this
      ensures Valid() && old(records) <= records
      ensures ok <==> old(ended in active && Takes(TestEnd(ended, result, complete), elapsed, accepted))
      ensures ok ==> active == if complete then old(active) - {ended} else old(active)
      ensures records == if ok then old(With(TestEnd(ended, result, complete), elapsed)) else old(records)
    {
      hide Kept, WatchAll, IsWritten, Arrived;
      if ended !in active {
        return false;
      }
      ok := Append(TestEnd(ended, result, complete), elapsed, accepted);
      if ok && complete {
        active := active - {ended};
      }
    }

    predicate Ready()
      reads this
    {
      healthy && !terminal && active == {}
    }

    method Finish(complete: bool, code: int, elapsed: nat, accepted: nat) returns (ok: bool)
      requires Valid()
      modifies this
      ensures Valid() && old(records) <= records
      ensures ok <==> old((complete ==> active == {}) && Takes(Terminal(complete, code), elapsed, accepted))
      ensures ok ==> terminal
      ensures records == if ok then old(With(Terminal(complete, code), elapsed)) else old(records)
    {
      hide Kept, WatchAll, IsWritten, Arrived;
      if complete && !Ready() {
        return false;
      }
      ok := Append(Terminal(complete, code), elapsed, accepted);
      if ok {
        terminal := true;
      }
    }
  }

  /** Creates a writer; there is none unless its header was written. */
  method Create(encode: Encoding, elapsed: nat, accepted: nat) returns (created: Option<Writer>)
    ensures created.Some? ==> fresh(created.value) && created.value.Valid() && created.value.healthy
    ensures created.Some? <==> IsWritten(encode, 0, Record(Header, 0, elapsed), accepted)
    ensures created.Some? ==> created.value.records == [Record(Header, 0, elapsed)]
  {
    hide Kept, WatchAll, IsWritten, Arrived;
    var writer := new Writer(encode);
    var ok := writer.Append(Header, elapsed, accepted);
    created := if ok then Some(writer) else None;
  }

  lemma LinesPush(encode: Encoding, rs: seq<Record>, r: Record)
    requires Printable(encode, rs) && encode(r).Some?
    ensures Printable(encode, rs + [r]) && Lines(encode, rs + [r]) == Lines(encode, rs) + Line(encode, r)
  {
    assert (rs + [r])[..|rs|] == rs;
  }
}
