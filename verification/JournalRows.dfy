/** A crash cuts a journal at any byte, and still no row is lost, torn or joined to the next. */
module JournalRows {
  import opened Integers
  import opened Wrappers
  import opened Utf8
  import opened Json
  import opened JsonRoundTrip
  import opened Journal

  // ---------- A record reads back from the object it writes ----------

  lemma {:induction false} DecodeAllEncodeAll<T>(xs: seq<T>, encode: T -> Value, decode: Value -> Result<T>)
    requires forall i | 0 <= i < |xs| :: decode(encode(xs[i])) == Success(xs[i])
    ensures DecodeAll(EncodeAll(xs, encode), decode) == Success(xs)
  {
    if xs != [] {
      assert EncodeAll(xs, encode)[1..] == EncodeAll(xs[1..], encode);
      DecodeAllEncodeAll(xs[1..], encode, decode);
      assert xs == [xs[0]] + xs[1..];
    }
  }

  lemma FinishedIsVariant(fields: Fields, id: u32, finished: FinishedMutation)
    requires EncodeRecord(Finished(id, finished)) == Object(fields)
    ensures !IsVariant(fields, ["started"], [])
    ensures IsVariant(fields, ["finished", "result", "tests"], ["timeout_rerun"])
    ensures Has(fields, "timeout_rerun") <==> finished.timeoutRerun
  {
    hide EncodeAll, EncodeVerdict;
    var required, optional := ["finished", "result", "tests"], ["timeout_rerun"];
    assert fields[0].0 == required[0] && fields[1].0 == required[1] && fields[2].0 == required[2];
    assert |fields| == 4 ==> fields[3].0 == optional[0];
    assert fields[0].0 !in ["started"];
  }

  lemma DecodeVerdictEncode(result: Verdict)
    ensures DecodeVerdict(EncodeVerdict(result)) == Success(result)
  {}

  lemma DecodeTestsEncode(tests: TestVerdicts)
    ensures DecodeArray(Array(EncodeAll(tests, EncodeTest)), DecodeTest) == Success(tests)
  {
    hide EncodeVerdict, DecodeVerdict, ResultName;
    forall i | 0 <= i < |tests|
      ensures DecodeTest(EncodeTest(tests[i])) == Success(tests[i])
    {
      DecodeTestEncode(tests[i]);
    }
    hide EncodeTest, DecodeTest;
    DecodeAllEncodeAll(tests, EncodeTest, DecodeTest);
  }

  lemma DecodeTestEncode(test: (string, Option<Verdict>))
    ensures DecodeTest(EncodeTest(test)) == Success(test)
  {
    if test.1.Some? {
      DecodeVerdictEncode(test.1.value);
    }
    hide EncodeVerdict, DecodeVerdict;
  }

  lemma DecodeFinishedEncode(fields: Fields, id: u32, finished: FinishedMutation)
    requires EncodeRecord(Finished(id, finished)) == Object(fields)
    ensures DecodeRecord(Object(fields)) == Success(Finished(id, finished))
  {
    FinishedIsVariant(fields, id, finished);
    FinishedFields(fields, id, finished);
    hide IsVariant, Has, Lookup, EncodeRecord, EncodeAll, DecodeArray, EncodeVerdict, DecodeVerdict;
    DecodeVerdictEncode(finished.result);
    DecodeTestsEncode(finished.tests);
    assert DecodeRecord(Object(fields)) == DecodeFinished(fields);
  }

  lemma FinishedFields(fields: Fields, id: u32, finished: FinishedMutation)
    requires EncodeRecord(Finished(id, finished)) == Object(fields)
    ensures Has(fields, "finished") && Lookup(fields, "finished") == Number(id)
    ensures Has(fields, "result") && Lookup(fields, "result") == EncodeVerdict(finished.result)
    ensures Has(fields, "tests") && Lookup(fields, "tests") == Array(EncodeAll(finished.tests, EncodeTest))
    ensures finished.timeoutRerun ==> Has(fields, "timeout_rerun") && Lookup(fields, "timeout_rerun") == Bool(true)
  {
    hide Has, Lookup, EncodeAll, EncodeVerdict;
    LookupAt(fields, 0);
    LookupAt(fields, 1);
    LookupAt(fields, 2);
    if finished.timeoutRerun {
      LookupAt(fields, 3);
    }
  }

  lemma {:induction false} LookupAt(fields: Fields, i: nat)
    requires i < |fields|
    requires forall j | 0 <= j < i :: fields[j].0 != fields[i].0
    ensures Has(fields, fields[i].0) && Lookup(fields, fields[i].0) == fields[i].1
  {
    if i > 0 {
      LookupAt(fields[1..], i - 1);
    }
  }

  lemma ProfiledIsVariant(fields: Fields, profile: Profile)
    requires EncodeRecord(Profiled(profile)) == Object(fields)
    ensures !IsVariant(fields, ["started"], []) && !IsVariant(fields, ["isolate"], [])
    ensures !IsVariant(fields, ["finished", "result", "tests"], ["timeout_rerun"])
    ensures IsVariant(fields, ["profiled", "unrepeatable"], [])
  {
    hide EncodeAll;
    var required := ["profiled", "unrepeatable"];
    assert fields[0].0 == required[0] && fields[1].0 == required[1];
    assert fields[0].0 !in ["started"] && fields[0].0 !in ["isolate"];
    assert fields[0].0 !in ["finished", "result", "tests"] && fields[0].0 !in ["timeout_rerun"];
  }

  lemma DecodeProfiledTests(tests: seq<ProfiledTest>)
    ensures DecodeArray(Array(EncodeAll(tests, EncodeProfiled)), DecodeProfiled) == Success(tests)
  {
    DecodeAllEncodeAll(tests, EncodeProfiled, DecodeProfiled);
  }

  lemma DecodeNames(names: seq<string>)
    ensures DecodeArray(Array(EncodeAll(names, EncodeString)), DecodeString) == Success(names)
  {
    DecodeAllEncodeAll(names, EncodeString, DecodeString);
  }

  lemma DecodeProfiledEncode(fields: Fields, profile: Profile)
    requires EncodeRecord(Profiled(profile)) == Object(fields)
    ensures DecodeRecord(Object(fields)) == Success(Profiled(profile))
  {
    ProfiledIsVariant(fields, profile);
    hide IsVariant, Has, Lookup, EncodeAll, DecodeArray;
    DecodeProfiledTests(profile.tests);
    DecodeNames(profile.unrepeatable);
    LookupAt(fields, 0);
    LookupAt(fields, 1);
    assert DecodeRecord(Object(fields)) == DecodeProfile(fields);
  }

  lemma DecodeEncodeRecord(r: Record)
    ensures DecodeRecord(EncodeRecord(r)) == Success(r)
  {
    var fields := EncodeRecord(r).fields;
    LookupAt(fields, 0);
    match r
    case Started(ids) =>
      assert fields[0].0 == ["started"][0];
      DecodeAllEncodeAll(ids, EncodeId, DecodeId);
    case Finished(id, finished) => DecodeFinishedEncode(fields, id, finished);
    case Isolate(ids) =>
      assert fields[0].0 == ["isolate"][0];
      assert fields[0].0 !in ["started"] && fields[0].0 !in ["finished", "result", "tests"] && fields[0].0 !in ["timeout_rerun"];
      DecodeAllEncodeAll(ids, EncodeId, DecodeId);
    case Profiled(profile) => DecodeProfiledEncode(fields, profile);
  }

  // ---------- A row is one line ----------

  function Body(r: Record): bytes {
    Print(EncodeRecord(r))
  }

  lemma BodyIsOneLine(r: Record)
    ensures NEWLINE !in Body(r) && IsUtf8(Body(r))
    ensures |Body(r)| > 0 && Body(r)[|Body(r)| - 1] == CLOSE_BRACE
    ensures ReadLine(Body(r)) == Success(r)
  {
    hide DecodeRecord, FromText, IsUtf8;
    PrintIsClean(EncodeRecord(r));
    RoundTrip(EncodeRecord(r));
    DecodeEncodeRecord(r);
  }

  lemma {:induction false} LineLengthOf(line: bytes, rest: bytes)
    requires NEWLINE !in line && (rest == [] || rest[0] == NEWLINE)
    ensures LineLength(line + rest) == |line|
  {
    if line == [] {
      assert line + rest == rest;
    } else {
      assert (line + rest)[1..] == line[1..] + rest;
      LineLengthOf(line[1..], rest);
    }
  }

  function ReadOn(read: Result<Contents>, more: bytes): Result<Contents> {
    if read.Failure? then read else ReadFrom(read.value, more)
  }

  /** The first line of what starts with a row is that row. */
  lemma FirstLine(r: Record, more: bytes)
    ensures var bs := Row(r) + more; bs != [] && Line(bs) == Body(r) && AfterLine(bs) == more
  {
    hide Print, ReadLine;
    var bs := Row(r) + more;
    BodyIsOneLine(r);
    assert bs == Body(r) + ([NEWLINE] + more);
    LineLengthOf(Body(r), [NEWLINE] + more);
  }

  lemma ReadRow(entries: Contents, r: Record, more: bytes)
    ensures ReadFrom(entries, Row(r) + more) == ReadOn(Add(entries, r), more)
  {
    hide Row, Body, Line, AfterLine, ReadLine, Add;
    BodyIsOneLine(r);
    FirstLine(r, more);
  }

  /** Whole rows read back as their records, in order, whatever follows them. */
  lemma {:induction false} ReadRows(entries: Contents, rs: seq<Record>, more: bytes)
    ensures ReadFrom(entries, Rows(rs) + more) == ReadOn(AddAll(entries, rs), more)
    decreases |rs|
  {
    if rs == [] {
      assert Rows(rs) + more == more;
    } else {
      var before, last := rs[..|rs| - 1], rs[|rs| - 1];
      assert Rows(rs) + more == Rows(before) + (Row(last) + more);
      ReadRows(entries, before, Row(last) + more);
      if AddAll(entries, before).Success? {
        ReadRow(AddAll(entries, before).value, last, more);
      }
    }
  }

  predicate IsWhole(bs: bytes) {
    bs == [] || bs[|bs| - 1] == NEWLINE
  }

  lemma {:induction false} LineEnds(bs: bytes)
    requires bs != [] && bs[|bs| - 1] == NEWLINE
    ensures LineLength(bs) < |bs|
  {
    if bs[0] != NEWLINE {
      LineEnds(bs[1..]);
    }
  }

  lemma NextLine(bs: bytes, more: bytes)
    requires bs != [] && IsWhole(bs)
    ensures Line(bs + more) == Line(bs) && AfterLine(bs + more) == AfterLine(bs) + more && IsWhole(AfterLine(bs))
  {
    var n := LineLength(bs);
    LineEnds(bs);
    SlicesOfBoth(bs, more, n);
    LineLengthOf(bs[..n], bs[n..] + more);
  }

  lemma SlicesOfBoth(bs: bytes, more: bytes, n: nat)
    requires n < |bs|
    ensures bs + more == bs[..n] + (bs[n..] + more)
    ensures (bs + more)[..n] == bs[..n] && (n > 0 ==> (bs + more)[..n - 1] == bs[..n - 1])
    ensures (bs + more)[n + 1..] == bs[n + 1..] + more
  {}

  /** Whatever a file holds, what is appended behind its last newline is read after it. */
  lemma {:induction false} ReadBehind(entries: Contents, bs: bytes, more: bytes)
    requires IsWhole(bs)
    ensures ReadFrom(entries, bs + more) == ReadOn(ReadFrom(entries, bs), more)
    decreases |bs|
  {
    if bs == [] {
      assert bs + more == more;
    } else {
      hide ReadLine, Add, Line, AfterLine, IsWhole;
      NextLine(bs, more);
      if ReadLine(Line(bs)).Success? && Add(entries, ReadLine(Line(bs)).value).Success? {
        ReadBehind(Add(entries, ReadLine(Line(bs)).value).value, AfterLine(bs), more);
      }
    }
  }

  lemma ReadWholeRows(rs: seq<Record>)
    ensures Read(Rows(rs)) == AddAll(NOTHING, rs)
  {
    ReadRows(NOTHING, rs, []);
    assert Rows(rs) + [] == Rows(rs);
  }

  // ---------- Cutting a torn row ----------

  function Cut(bs: bytes): bytes {
    bs[..WholeRows(bs)]
  }

  lemma {:induction false} WholeRowsAppend(bs: bytes, torn: bytes)
    requires NEWLINE !in torn
    requires bs == [] || bs[|bs| - 1] == NEWLINE
    ensures WholeRows(bs + torn) == |bs|
  {
    if torn != [] {
      var n := |torn| - 1;
      assert (bs + torn)[..|bs + torn| - 1] == bs + torn[..n];
      WholeRowsAppend(bs, torn[..n]);
    } else {
      assert bs + torn == bs;
    }
  }

  lemma RowsAreWhole(rs: seq<Record>)
    ensures IsWhole(Rows(rs))
  {}

  lemma CutRows(rs: seq<Record>, torn: bytes)
    requires NEWLINE !in torn
    ensures Cut(Rows(rs) + torn) == Rows(rs)
  {
    WholeRowsAppend(Rows(rs), torn);
  }

  lemma TornHasNoNewline(r: Record, k: nat)
    requires k < |Row(r)|
    ensures NEWLINE !in Row(r)[..k]
  {
    BodyIsOneLine(r);
    assert Row(r)[..k] == Body(r)[..k];
  }

  lemma AppendRow(rs: seq<Record>, r: Record)
    ensures Rows(rs + [r]) == Rows(rs) + Row(r)
  {
    assert (rs + [r])[..|rs|] == rs;
  }

  /** A write that stops after any number of its bytes leaves exactly the rows whose newline was written, and reading
      gives what they add up to; the row that is appended next stands on its own. */
  lemma CrashAtAnyByte(rs: seq<Record>, r: Record, k: nat, next: Record)
    requires k <= |Row(r)|
    ensures var kept := if k == |Row(r)| then rs + [r] else rs; var cut := Cut(Rows(rs) + Row(r)[..k]);
      cut == Rows(kept) && Read(cut) == AddAll(NOTHING, kept) && cut + Row(next) == Rows(kept + [next])
  {
    if k == |Row(r)| {
      assert Row(r)[..k] == Row(r);
      AppendRow(rs, r);
      assert Rows(rs + [r]) + [] == Rows(rs + [r]);
      CutRows(rs + [r], []);
      ReadWholeRows(rs + [r]);
      AppendRow(rs + [r], next);
    } else {
      TornHasNoNewline(r, k);
      CutRows(rs, Row(r)[..k]);
      ReadWholeRows(rs);
      AppendRow(rs, next);
    }
  }

  lemma TornLineFails(r: Record, k: nat)
    requires 0 < k < |Body(r)|
    ensures ReadLine(Body(r)[..k]).Failure?
  {
    NoProperPrefix(EncodeRecord(r), k);
  }

  lemma ReadLastLine(entries: Contents, line: bytes)
    requires line != [] && NEWLINE !in line
    ensures ReadFrom(entries, line) == if ReadLine(line).Failure? then Failure(ReadLine(line).error) else Add(entries, ReadLine(line).value)
  {
    LineLengthOf(line, []);
    assert line + [] == line && line[..|line|] == line;
    assert Line(line) == line && AfterLine(line) == [];
  }

  /** Without the cut, a torn row makes the journal unreadable instead of shorter: it reads only if no byte of the row
      was written, or if all were but the newline, and then the row counts. */
  lemma ReadTornRow(rs: seq<Record>, r: Record, k: nat)
    requires k < |Row(r)| && AddAll(NOTHING, rs + [r]).Success?
    ensures var torn := Read(Rows(rs) + Row(r)[..k]);
      if k == 0 then torn == AddAll(NOTHING, rs)
      else if k == |Body(r)| then torn == AddAll(NOTHING, rs + [r])
      else torn.Failure?
  {
    hide Print, FromText, IsUtf8, EncodeRecord, DecodeRecord, Add;
    assert (rs + [r])[..|rs|] == rs;
    var torn := Row(r)[..k];
    ReadRows(NOTHING, rs, torn);
    TornHasNoNewline(r, k);
    BodyIsOneLine(r);
    assert torn == Body(r)[..k];
    if k > 0 {
      ReadLastLine(AddAll(NOTHING, rs).value, torn);
      if k == |Body(r)| {
        assert torn == Body(r);
      } else {
        TornLineFails(r, k);
      }
    }
  }
}
