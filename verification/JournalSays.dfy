/** What the rows of a journal say of a mutation, row by row, and that a reader knows exactly that. */
module JournalSays {
  import opened Collections
  import opened Integers
  import opened Wrappers
  import opened Journal
  import opened JournalRows

  predicate HasStarted(rs: seq<Record>, id: u32) {
    exists r <- rs :: r.Started? && id in r.started
  }

  predicate HasFinished(rs: seq<Record>, id: u32) {
    exists r <- rs :: r.Finished? && r.id == id
  }

  predicate IsIsolated(rs: seq<Record>, id: u32) {
    exists r <- rs :: r.Isolate? && id in r.isolate
  }

  /** Some row names it as started, and no row has its result. */
  predicate IsUnfinished(rs: seq<Record>, id: u32) {
    HasStarted(rs, id) && !HasFinished(rs, id)
  }

  const IS_FINISHED := (r: Record) => r.Finished?

  /** The rows of profiles, of which only the first counts. */
  function Profiles(rs: seq<Record>): seq<Profile> {
    if rs == [] then []
    else
      var last := rs[|rs| - 1];
      Profiles(rs[..|rs| - 1]) + if last.Profiled? then [last.profile] else []
  }

  ghost predicate SameIds(entries: Contents, rs: seq<Record>) {
    && (forall id: u32 :: id in entries.started <==> HasStarted(rs, id))
    && (forall id: u32 :: id in entries.finished <==> HasFinished(rs, id))
    && (forall id: u32 :: id in entries.isolated <==> IsIsolated(rs, id))
  }

  predicate SameResults(entries: Contents, rs: seq<Record>) {
    && (forall r <- rs | r.Finished? :: r.id in entries.finished && entries.finished[r.id] == r.finished)
    && |entries.finished| == Count(rs, IS_FINISHED)
  }

  predicate SameProfile(entries: Contents, rs: seq<Record>) {
    entries.profile == if Profiles(rs) == [] then None else Some(Profiles(rs)[0])
  }

  /** The contents say of every mutation what the rows say. */
  ghost predicate SaysTheSame(entries: Contents, rs: seq<Record>) {
    SameIds(entries, rs) && SameResults(entries, rs) && SameProfile(entries, rs)
  }

  lemma OneMoreSays(rs: seq<Record>, r: Record, id: u32)
    ensures HasStarted(rs + [r], id) <==> HasStarted(rs, id) || (r.Started? && id in r.started)
    ensures HasFinished(rs + [r], id) <==> HasFinished(rs, id) || (r.Finished? && r.id == id)
    ensures IsIsolated(rs + [r], id) <==> IsIsolated(rs, id) || (r.Isolate? && id in r.isolate)
  {
    assert forall x :: x in rs + [r] <==> x in rs || x == r;
  }

  lemma AddSaysIds(entries: Contents, rs: seq<Record>, r: Record)
    requires SameIds(entries, rs) && Add(entries, r).Success?
    ensures SameIds(Add(entries, r).value, rs + [r])
  {
    hide HasStarted, HasFinished, IsIsolated;
    var after := Add(entries, r).value;
    forall id: u32
      ensures id in after.started <==> HasStarted(rs + [r], id)
      ensures id in after.finished <==> HasFinished(rs + [r], id)
      ensures id in after.isolated <==> IsIsolated(rs + [r], id)
    {
      OneMoreSays(rs, r, id);
    }
  }

  lemma AddSaysResults(entries: Contents, rs: seq<Record>, r: Record)
    requires SameResults(entries, rs) && Add(entries, r).Success?
    ensures SameResults(Add(entries, r).value, rs + [r])
  {
    CountPush(rs, r, IS_FINISHED);
    AddedResult(entries, r);
    hide Count, Add;
    var after := Add(entries, r).value;
    forall x <- rs + [r] | x.Finished?
      ensures x.id in after.finished && after.finished[x.id] == x.finished
    {
      assert x in rs || x == r;
    }
  }

  lemma AddedResult(entries: Contents, r: Record)
    requires Add(entries, r).Success?
    ensures var after := Add(entries, r).value;
      && |after.finished| == |entries.finished| + (if r.Finished? then 1 else 0)
      && (forall id <- entries.finished :: id in after.finished && after.finished[id] == entries.finished[id])
      && (r.Finished? ==> r.id in after.finished && after.finished[r.id] == r.finished)
  {
    if r.Finished? {
      assert Add(entries, r).value.finished.Keys == entries.finished.Keys + {r.id};
    }
  }

  lemma AddSaysProfile(entries: Contents, rs: seq<Record>, r: Record)
    requires SameProfile(entries, rs) && Add(entries, r).Success?
    ensures SameProfile(Add(entries, r).value, rs + [r])
  {
    assert (rs + [r])[..|rs|] == rs;
  }

  lemma AddSays(entries: Contents, rs: seq<Record>, r: Record)
    requires SaysTheSame(entries, rs) && Add(entries, r).Success?
    ensures SaysTheSame(Add(entries, r).value, rs + [r])
  {
    hide SameIds, SameResults, SameProfile, Add;
    AddSaysIds(entries, rs, r);
    AddSaysResults(entries, rs, r);
    AddSaysProfile(entries, rs, r);
  }

  lemma NothingSays()
    ensures SaysTheSame(NOTHING, [])
  {}

  /** Rows that are read without an error: each started, finished or isolated mutation is one that some row names. */
  lemma {:induction false} RowsSay(rs: seq<Record>)
    requires AddAll(NOTHING, rs).Success?
    ensures SaysTheSame(AddAll(NOTHING, rs).value, rs)
  {
    if rs == [] {
      NothingSays();
    } else {
      hide SaysTheSame, Add;
      var n := |rs| - 1;
      RowsSay(rs[..n]);
      AddSays(AddAll(NOTHING, rs[..n]).value, rs[..n], rs[n]);
      assert rs == rs[..n] + [rs[n]];
    }
  }

  // ---------- The rows of a file ----------

  /** One record for each line. */
  function Records(bs: bytes): Result<seq<Record>>
    decreases |bs|
  {
    if bs == [] then Success([])
    else
      var r :- ReadLine(Line(bs));
      var rest :- Records(AfterLine(bs));
      Success([r] + rest)
  }

  lemma {:induction false} AddFirst(entries: Contents, r: Record, rs: seq<Record>)
    requires Add(entries, r).Success?
    ensures AddAll(entries, [r] + rs) == AddAll(Add(entries, r).value, rs)
  {
    if rs == [] {
      assert [r] + rs == [r] && [r][..0] == [];
    } else {
      var n := |rs| - 1;
      assert ([r] + rs)[..n + 1] == [r] + rs[..n];
      AddFirst(entries, r, rs[..n]);
    }
  }

  /** A file that can be read holds what its records add up to. */
  lemma {:induction false} RecordsAddUp(entries: Contents, bs: bytes)
    requires ReadFrom(entries, bs).Success?
    ensures Records(bs).Success? && AddAll(entries, Records(bs).value) == ReadFrom(entries, bs)
    decreases |bs|
  {
    if bs != [] {
      hide ReadLine, Add, Line, AfterLine;
      var r := ReadLine(Line(bs)).value;
      RecordsAddUp(Add(entries, r).value, AfterLine(bs));
      AddFirst(entries, r, Records(AfterLine(bs)).value);
    }
  }

  lemma ReadSays(bs: bytes)
    requires Read(bs).Success?
    ensures Records(bs).Success? && SaysTheSame(Read(bs).value, Records(bs).value)
  {
    hide SaysTheSame, AddAll, ReadFrom, Records;
    RecordsAddUp(NOTHING, bs);
    RowsSay(Records(bs).value);
  }

  /** An id is unfinished exactly if some row names it as started and no row has its result. */
  lemma UnfinishedIs(entries: Contents, rs: seq<Record>, id: u32)
    requires SaysTheSame(entries, rs)
    ensures id in entries.Unfinished() <==> IsUnfinished(rs, id)
    ensures id in entries.Unfinished() - entries.isolated <==> IsUnfinished(rs, id) && !IsIsolated(rs, id)
  {
    hide HasStarted, HasFinished, IsIsolated, SameResults, SameProfile;
  }

  lemma RecordsOfRow(r: Record, more: bytes)
    requires Records(more).Success?
    ensures Records(Row(r) + more) == Success([r] + Records(more).value)
  {
    hide Row, Body, Line, AfterLine, ReadLine;
    BodyIsOneLine(r);
    FirstLine(r, more);
  }

  lemma SameRecords(a: bytes, b: bytes, more: bytes, before: seq<Record>, last: Record, rest: seq<Record>)
    requires Records(a + (b + more)) == Success(before + ([last] + rest))
    ensures Records(a + b + more) == Success(before + [last] + rest)
  {
    hide Records;
    Associative(a, b, more);
    Associative(before, [last], rest);
  }

  lemma NoRecords(more: bytes)
    requires Records(more).Success?
    ensures Records(Rows([]) + more) == Success([] + Records(more).value)
  {
    hide Records;
    assert Rows([]) + more == more && [] + Records(more).value == Records(more).value;
  }

  lemma RecordsOfLast(before: seq<Record>, last: Record, more: bytes)
    requires Records(more).Success? && Records(Row(last) + more).Success?
    requires Records(Rows(before) + (Row(last) + more)) == Success(before + Records(Row(last) + more).value)
    ensures Records(Rows(before + [last]) + more) == Success(before + [last] + Records(more).value)
  {
    hide *;
    RecordsOfRow(last, more);
    AppendRow(before, last);
    SameRecords(Rows(before), Row(last), more, before, last, Records(more).value);
  }

  lemma {:induction false} RecordsOfMore(rs: seq<Record>, more: bytes)
    requires Records(more).Success?
    ensures Records(Rows(rs) + more) == Success(rs + Records(more).value)
    decreases |rs|
  {
    hide *;
    if rs == [] {
      NoRecords(more);
    } else {
      var n := |rs| - 1;
      RecordsOfRow(rs[n], more);
      RecordsOfMore(rs[..n], Row(rs[n]) + more);
      RecordsOfLast(rs[..n], rs[n], more);
      assert rs == rs[..n] + [rs[n]];
    }
  }

  /** Rows have exactly the records that they were written from. */
  lemma RecordsOfRows(rs: seq<Record>)
    ensures Records(Rows(rs)) == Success(rs)
  {
    RecordsOfMore(rs, []);
    assert Rows(rs) + [] == Rows(rs) && rs + [] == rs;
  }
}
