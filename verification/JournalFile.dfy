/** The journal file as its writers and readers work on it, one step at a time. */
module JournalFile {
  import opened Collections
  import opened Integers
  import opened Wrappers
  import opened Utf8
  import opened JsonParser
  import opened Journal
  import opened JournalRows
  import opened JournalSays

  predicate IsLeast(least: u32, ids: set<u32>) {
    least in ids && forall id <- ids :: least <= id
  }

  lemma {:induction false} LeastExists(ids: set<u32>) returns (least: u32)
    requires ids != {}
    ensures IsLeast(least, ids)
  {
    var x :| x in ids;
    least := x;
    if ids != {x} {
      var y := LeastExists(ids - {x});
      least := if x < y then x else y;
      assert forall id <- ids :: id == x || id in ids - {x};
    }
  }

  function Least(ids: set<u32>): (least: u32)
    requires ids != {}
    ensures least in ids && forall id <- ids :: least <= id
  {
    assert exists least :: IsLeast(least, ids) by {
      var least := LeastExists(ids);
    }
    var least :| IsLeast(least, ids);
    least
  }

  /** The ids of a set in ascending order, as a `BTreeSet` gives them. */
  function Ascending(ids: set<u32>): seq<u32> {
    if ids == {} then [] else [Least(ids)] + Ascending(ids - {Least(ids)})
  }

  predicate Ascends(ids: seq<u32>) {
    forall i, j | 0 <= i < j < |ids| :: ids[i] < ids[j]
  }

  lemma {:induction false} AscendingLists(ids: set<u32>)
    ensures |Ascending(ids)| == |ids| && Ids(Ascending(ids)) == ids && Ascends(Ascending(ids))
  {
    if ids != {} {
      var least := Least(ids);
      var rest := Ascending(ids - {least});
      AscendingLists(ids - {least});
      assert Ascending(ids) == [least] + rest;
      WithoutLeast(ids);
      hide *;
      LeastComesFirst(least, rest);
      IdsOfCons(least, rest);
    }
  }

  lemma WithoutLeast(ids: set<u32>)
    requires ids != {}
    ensures var others := ids - {Least(ids)};
      |ids| == 1 + |others| && {Least(ids)} + others == ids && forall id <- others :: Least(ids) < id
  {}

  lemma LeastComesFirst(least: u32, rest: seq<u32>)
    requires Ascends(rest) && forall id <- Ids(rest) :: least < id
    ensures Ascends([least] + rest)
  {
    forall i | 0 <= i < |rest|
      ensures least < rest[i]
    {
      assert rest[i] in Ids(rest);
    }
  }

  lemma IdsOfCons(id: u32, ids: seq<u32>)
    ensures Ids([id] + ids) == {id} + Ids(ids)
  {
    forall x
      ensures x in Ids([id] + ids) <==> x in {id} + Ids(ids)
    {
      assert x in [id] + ids <==> x == id || x in ids;
    }
  }

  /** The rows read so far. */
  class Entries {
    var started: set<u32>
    var finished: map<u32, FinishedMutation>
    var isolated: set<u32>
    var profile: Option<Profile>

    function All(): Contents
      reads this
    {
      Contents(started, finished, isolated, profile)
    }

    constructor ()
      ensures All() == NOTHING
    {
      started, finished, isolated, profile := {}, map[], {}, None;
    }

    method Add(r: Record) returns (error: Option<string>)
      modifies this
      ensures Journal.Add(old(All()), r) == if error.Some? then Failure(error.value) else Success(All())
    {
      error := None;
      match r
      case Started(ids) => started := started + Ids(ids);
      case Finished(id, result) => error := Finish(id, result);
      case Isolate(ids) => isolated := isolated + Ids(ids);
      case Profiled(p) =>
        if profile.None? {
          profile := Some(p);
        }
    }

    method Finish(id: u32, result: FinishedMutation) returns (error: Option<string>)
      modifies this
      ensures error == if id in old(finished) then Some(DUPLICATE) else None
      ensures All() == old(All()).(finished := old(finished)[id := result])
    {
      error := if id in finished then Some(DUPLICATE) else None;
      finished := finished[id := result];
    }
  }

  /** The newly isolated ids, and how many mutations are unfinished and finished by then. */
  datatype Crash = Crash(isolated: seq<u32>, unfinished: nat, finished: nat)

  /** What the supervisor makes of a file a worker left: the file afterwards, and its account of the crash. */
  function AfterIsolation(disk: bytes): Result<(bytes, Crash)> {
    var entries :- Read(Cut(disk));
    var isolated := Ascending(entries.Unfinished() - entries.isolated);
    Success((
      Cut(disk) + if isolated == [] then [] else Row(Isolate(isolated)),
      Crash(isolated, |entries.Unfinished()|, |entries.finished|)))
  }

  ghost predicate AreUnfinished(rs: seq<Record>, ids: set<u32>) {
    forall id: u32 :: id in ids <==> IsUnfinished(rs, id)
  }

  /** The newly isolated mutations are those that a row names as started, no row has a result of, and no row isolates. */
  ghost predicate Marks(rs: seq<Record>, crash: Crash) {
    && Ascends(crash.isolated)
    && (forall id: u32 :: id in crash.isolated <==> IsUnfinished(rs, id) && !IsIsolated(rs, id))
    && (exists ids :: AreUnfinished(rs, ids) && |ids| == crash.unfinished)
    && crash.finished == Count(rs, IS_FINISHED)
  }

  lemma InAscending(ids: set<u32>, id: u32)
    ensures id in Ascending(ids) <==> id in ids
  {
    AscendingLists(ids);
    assert id in Ids(Ascending(ids)) <==> id in Ascending(ids);
  }

  lemma IsolationMarks(disk: bytes)
    requires AfterIsolation(disk).Success?
    ensures Records(Cut(disk)).Success? && Marks(Records(Cut(disk)).value, AfterIsolation(disk).value.1)
  {
    hide Cut, Read, Records, Ascending, Ascends, IsUnfinished, IsIsolated, Contents.Unfinished, SaysTheSame;
    var entries := Read(Cut(disk)).value;
    ReadSays(Cut(disk));
    var rs := Records(Cut(disk)).value;
    AscendingLists(entries.Unfinished() - entries.isolated);
    forall id: u32
      ensures id in entries.Unfinished() <==> IsUnfinished(rs, id)
      ensures id in AfterIsolation(disk).value.1.isolated <==> IsUnfinished(rs, id) && !IsIsolated(rs, id)
    {
      UnfinishedIs(entries, rs, id);
      InAscending(entries.Unfinished() - entries.isolated, id);
    }
    assert AreUnfinished(rs, entries.Unfinished());
    CountsResults(entries, rs);
  }

  lemma CountsResults(entries: Contents, rs: seq<Record>)
    requires SaysTheSame(entries, rs)
    ensures |entries.finished| == Count(rs, IS_FINISHED)
  {}

  lemma ListsUnfinished(disk: bytes)
    requires Read(disk).Success?
    ensures Records(disk).Success? && var ids := Ascending(Read(disk).value.Unfinished());
      Ascends(ids) && forall id: u32 :: id in ids <==> IsUnfinished(Records(disk).value, id)
  {
    hide Read, Records, Ascending, Ascends, IsUnfinished, SaysTheSame, Contents.Unfinished;
    ReadSays(disk);
    var entries := Read(disk).value;
    AscendingLists(entries.Unfinished());
    forall id: u32
      ensures id in Ascending(entries.Unfinished()) <==> IsUnfinished(Records(disk).value, id)
    {
      UnfinishedIs(entries, Records(disk).value, id);
      InAscending(entries.Unfinished(), id);
    }
  }

  lemma NoneStarted(entries: Contents, rs: seq<Record>)
    requires SaysTheSame(entries, rs)
    ensures entries.started == {} <==> forall id: u32 :: !HasStarted(rs, id)
  {
    hide HasStarted, HasFinished, IsIsolated, SameResults, SameProfile;
    if forall id: u32 :: !HasStarted(rs, id) {
      assert forall id :: id !in entries.started;
    }
  }

  class File {
    var disk: bytes

    constructor ()
      ensures disk == []
    {
      disk := [];
    }

    /** Shortens the file to its last newline, byte by byte from the end. */
    method CutTornRow()
      modifies this
      ensures disk == Cut(old(disk))
    {
      var n := |disk|;
      assert disk[..n] == disk;
      while n > 0 && disk[n - 1] != NEWLINE
        invariant n <= |disk| && disk == old(disk)
        invariant WholeRows(disk[..n]) == WholeRows(disk)
      {
        assert disk[..n][..n - 1] == disk[..n - 1];
        n := n - 1;
      }
      disk := disk[..n];
    }

    method Read() returns (error: Option<string>, entries: Entries)
      ensures fresh(entries)
      ensures Journal.Read(disk) == if error.Some? then Failure(error.value) else Success(entries.All())
    {
      entries := new Entries();
      error := None;
      var rest := disk;
      while rest != []
        invariant fresh(entries) && error == None
        invariant ReadFrom(entries.All(), rest) == Journal.Read(disk)
        decreases |rest|
      {
        var line := Line(rest);
        if !IsUtf8(line) {
          return Some("stream did not contain valid UTF-8"), entries;
        }
        var v := FromStr(line);
        if v.Failure? {
          return Some(v.error), entries;
        }
        var r := DecodeRecord(v.value);
        if r.Failure? {
          return Some(r.error), entries;
        }
        error := entries.Add(r.value);
        if error.Some? {
          return;
        }
        rest := AfterLine(rest);
      }
    }

    method Append(r: Record)
      modifies this
      ensures disk == old(disk) + Row(r)
    {
      disk := disk + Row(r);
    }

    /** Leaves the file as `AfterIsolation` has it, cut even if it cannot be read. */
    method IsolateUnfinished() returns (r: Result<Crash>)
      modifies this
      ensures match AfterIsolation(old(disk))
        case Failure(error) => r == Failure(error) && disk == Cut(old(disk))
        case Success((after, crash)) => r == Success(crash) && disk == after
      ensures r.Success? ==> Records(Cut(old(disk))).Success? && Marks(Records(Cut(old(disk))).value, r.value)
      ensures r.Success? ==> disk == Cut(old(disk)) + if r.value.isolated == [] then [] else Row(Isolate(r.value.isolated))
    {
      hide Marks, Records;
      CutTornRow();
      var error, entries := Read();
      if error.Some? {
        return Failure(error.value);
      }
      var unfinished := entries.started - entries.finished.Keys;
      var isolated := Ascending(unfinished - entries.isolated);
      if isolated != [] {
        Append(Isolate(isolated));
      }
      r := Success(Crash(isolated, |unfinished|, |entries.finished|));
      IsolationMarks(old(disk));
    }

    method Unfinished() returns (r: Result<seq<u32>>)
      ensures match Journal.Read(disk)
        case Failure(error) => r == Failure(error)
        case Success(entries) => r == Success(Ascending(entries.Unfinished()))
      ensures r.Success? ==> Records(disk).Success? && Ascends(r.value)
      ensures r.Success? ==> forall id: u32 :: id in r.value <==> IsUnfinished(Records(disk).value, id)
    {
      var error, entries := Read();
      r := if error.Some? then Failure(error.value) else Success(Ascending(entries.started - entries.finished.Keys));
      if error.None? {
        ListsUnfinished(disk);
      }
    }

    /** True for a file whose rows name no started mutation. */
    method IsEmpty() returns (r: Result<bool>)
      ensures match Journal.Read(disk)
        case Failure(error) => r == Failure(error)
        case Success(entries) => r == Success(entries.started == {})
      ensures r.Success? ==> Records(disk).Success? && (r.value <==> forall id: u32 :: !HasStarted(Records(disk).value, id))
    {
      var error, entries := Read();
      r := if error.Some? then Failure(error.value) else Success(entries.started == {});
      if error.None? {
        ReadSays(disk);
        NoneStarted(entries.All(), Records(disk).value);
      }
    }
  }

  /** A worker's end of the journal. */
  class WorkerJournal {
    const file: File
    /** The contents of the file when this worker opened it. */
    const earlier: Contents
    var healthy: bool
    /** The file as it was, and the rows that this worker wrote whole. */
    ghost const found: bytes
    ghost var rows: seq<Record>

    /** The rows stand behind what the file held, in order, and behind them at most a part of one more, after a failure. */
    ghost predicate Valid()
      reads this, file
    {
      && Journal.Read(found) == Success(earlier)
      && found + Rows(rows) <= file.disk
      && NEWLINE !in file.disk[|found + Rows(rows)|..]
      && (healthy ==> file.disk == found + Rows(rows))
    }

    constructor (file: File, earlier: Contents)
      requires Journal.Read(file.disk) == Success(earlier)
      ensures Valid() && this.file == file && this.earlier == earlier && healthy && found == file.disk && rows == []
    {
      this.file, this.earlier, found := file, earlier, file.disk;
      healthy, rows := true, [];
      new;
      assert found + [] == found;
    }

    /** Writes the row, of which the file takes `accepted` bytes: fewer than the row has is a failed write. */
    method Append(r: Record, accepted: nat)
      requires Valid()
      modifies this`healthy, this`rows, file
      ensures Valid()
      ensures old(!healthy) ==> !healthy && rows == old(rows) && file.disk == old(file.disk)
      ensures old(healthy) ==> (healthy <==> accepted >= |Row(r)|) && rows == old(rows) + if healthy then [r] else []
      ensures (file.disk, healthy) == Written(old(file.disk), old(healthy), r, accepted)
    {
      hide Row, Rows, Journal.Read;
      if !healthy {
        return;
      }
      if accepted < |Row(r)| {
        TornHasNoNewline(r, accepted);
        file.disk := file.disk + Row(r)[..accepted];
        healthy := false;
        assert file.disk[|found + Rows(rows)|..] == Row(r)[..accepted] && rows + [] == rows;
      } else {
        AppendRow(rows, r);
        Associative(found, Rows(rows), Row(r));
        file.disk := file.disk + Row(r);
        rows := rows + [r];
      }
    }

    /** Whatever its writes came to, the journal reads as what it held before, and the rows this worker wrote whole. */
    lemma ReadsBack()
      requires Valid() && IsWhole(found)
      ensures Journal.Read(Cut(file.disk)) == AddAll(earlier, rows)
    {
      var whole, torn := found + Rows(rows), file.disk[|found + Rows(rows)|..];
      assert file.disk == whole + torn;
      RowsAreWhole(rows);
      WholeRowsAppend(whole, torn);
      ReadBehind(NOTHING, found, Rows(rows));
      ReadRows(earlier, rows, []);
      assert Rows(rows) + [] == Rows(rows);
    }
  }

  function Written(disk: bytes, healthy: bool, r: Record, accepted: nat): (bytes, bool) {
    if !healthy then (disk, false)
    else if accepted < |Row(r)| then (disk + Row(r)[..accepted], false)
    else (disk + Row(r), true)
  }
}
