/** The rows of the mutation journal: what the worker and the supervisor write, and how a journal is read back. */
module Journal {
  import opened Integers
  import opened Wrappers
  import opened Utf8
  import opened Json

  datatype Verdict = Undetected | Detected | TimedOut | Crashed

  type TestVerdicts = seq<(string, Option<Verdict>)>
  type ProfiledTest = (string, Option<u64>, bool)

  datatype Record =
    | Started(started: seq<u32>)
    | Finished(id: u32, finished: FinishedMutation)
    | Isolate(isolate: seq<u32>)
    | Profiled(profile: Profile)

  datatype FinishedMutation = FinishedMutation(result: Verdict, tests: TestVerdicts, timeoutRerun: bool)

  datatype Profile = Profile(tests: seq<ProfiledTest>, unrepeatable: seq<string>)

  // ---------- Records as JSON ----------

  function ResultName(result: Verdict): string {
    match result
    case Undetected => "undetected"
    case Detected => "detected"
    case TimedOut => "timed_out"
    case Crashed => "crashed"
  }

  function EncodeAll<T>(xs: seq<T>, encode: T -> Value): (vs: seq<Value>)
    ensures |vs| == |xs| && forall i | 0 <= i < |xs| :: vs[i] == encode(xs[i])
  {
    seq(|xs|, i requires 0 <= i < |xs| => encode(xs[i]))
  }

  function EncodeId(id: u32): Value {
    Number(id)
  }

  function EncodeString(s: string): Value {
    String(s)
  }

  function EncodeOption<T>(x: Option<T>, encode: T -> Value): Value {
    if x.None? then Null else encode(x.value)
  }

  function EncodeVerdict(result: Verdict): Value {
    String(ResultName(result))
  }

  function EncodeTest(test: (string, Option<Verdict>)): Value {
    Array([String(test.0), EncodeOption(test.1, EncodeVerdict)])
  }

  function EncodeNanos(nanos: u64): Value {
    Number(nanos)
  }

  function EncodeProfiled(test: ProfiledTest): Value {
    Array([String(test.0), EncodeOption(test.1, EncodeNanos), Bool(test.2)])
  }

  /** The object a row writes, field by field. */
  function EncodeRecord(r: Record): (v: Value)
    ensures v.Object?
  {
    match r
    case Started(ids) => Object([("started", Array(EncodeAll(ids, EncodeId)))])
    case Finished(id, finished) =>
      var fields := [
        ("finished", Number(id)), ("result", EncodeVerdict(finished.result)),
        ("tests", Array(EncodeAll(finished.tests, EncodeTest)))];
      Object(if finished.timeoutRerun then fields + [("timeout_rerun", Bool(true))] else fields)
    case Isolate(ids) => Object([("isolate", Array(EncodeAll(ids, EncodeId)))])
    case Profiled(profile) =>
      Object([
        ("profiled", Array(EncodeAll(profile.tests, EncodeProfiled))),
        ("unrepeatable", Array(EncodeAll(profile.unrepeatable, EncodeString)))])
  }

  // ---------- JSON as records: an untagged enum that denies unknown fields ----------

  const NO_VARIANT := "data did not match any variant"

  function DecodeAll<T>(vs: seq<Value>, decode: Value -> Result<T>): Result<seq<T>> {
    if vs == [] then Success([])
    else
      var first :- decode(vs[0]);
      var rest :- DecodeAll(vs[1..], decode);
      Success([first] + rest)
  }

  function DecodeArray<T>(v: Value, decode: Value -> Result<T>): Result<seq<T>> {
    if v.Array? then DecodeAll(v.items, decode) else Failure("a sequence")
  }

  function DecodeId(v: Value): Result<u32> {
    if v.Number? && v.number <= 0xFFFF_FFFF then Success(v.number) else Failure("u32")
  }

  function DecodeNanos(v: Value): Result<u64> {
    if v.Number? then Success(v.number) else Failure("u64")
  }

  function DecodeString(v: Value): Result<string> {
    if v.String? then Success(v.text) else Failure("a string")
  }

  function DecodeBool(v: Value): Result<bool> {
    if v.Bool? then Success(v.holds) else Failure("a boolean")
  }

  function DecodeOption<T>(v: Value, decode: Value -> Result<T>): Result<Option<T>> {
    if v.Null? then Success(None)
    else
      var x :- decode(v);
      Success(Some(x))
  }

  function DecodeVerdict(v: Value): Result<Verdict> {
    if v == String("undetected") then Success(Undetected)
    else if v == String("detected") then Success(Detected)
    else if v == String("timed_out") then Success(TimedOut)
    else if v == String("crashed") then Success(Crashed)
    else Failure("unknown variant")
  }

  function DecodeTest(v: Value): Result<(string, Option<Verdict>)> {
    if v.Array? && |v.items| == 2 then
      var name :- DecodeString(v.items[0]);
      var result :- DecodeOption(v.items[1], DecodeVerdict);
      Success((name, result))
    else Failure("a tuple of size 2")
  }

  function DecodeProfiled(v: Value): Result<ProfiledTest> {
    if v.Array? && |v.items| == 3 then
      var name :- DecodeString(v.items[0]);
      var nanos :- DecodeOption(v.items[1], DecodeNanos);
      var ignored :- DecodeBool(v.items[2]);
      Success((name, nanos, ignored))
    else Failure("a tuple of size 3")
  }

  type Fields = seq<(string, Value)>

  predicate Has(fields: Fields, key: string) {
    exists i | 0 <= i < |fields| :: fields[i].0 == key
  }

  function Lookup(fields: Fields, key: string): (v: Value)
    requires Has(fields, key)
    ensures exists i | 0 <= i < |fields| :: fields[i] == (key, v)
  {
    if fields[0].0 == key then fields[0].1 else Lookup(fields[1..], key)
  }

  /** Every required field is there, no other than the known ones is, and none is there twice. */
  predicate IsVariant(fields: Fields, required: seq<string>, optional: seq<string>) {
    && (forall i, j | 0 <= i < j < |fields| :: fields[i].0 != fields[j].0)
    && (forall i | 0 <= i < |fields| :: fields[i].0 in required || fields[i].0 in optional)
    && (forall k | 0 <= k < |required| :: Has(fields, required[k]))
  }

  function DecodeFinished(fields: Fields): Result<Record>
    requires Has(fields, "finished") && Has(fields, "result") && Has(fields, "tests")
  {
    var id :- DecodeId(Lookup(fields, "finished"));
    var result :- DecodeVerdict(Lookup(fields, "result"));
    var tests :- DecodeArray(Lookup(fields, "tests"), DecodeTest);
    var timeoutRerun :- if Has(fields, "timeout_rerun") then DecodeBool(Lookup(fields, "timeout_rerun")) else Success(false);
    Success(Finished(id, FinishedMutation(result, tests, timeoutRerun)))
  }

  function DecodeProfile(fields: Fields): Result<Record>
    requires Has(fields, "profiled") && Has(fields, "unrepeatable")
  {
    var tests :- DecodeArray(Lookup(fields, "profiled"), DecodeProfiled);
    var unrepeatable :- DecodeArray(Lookup(fields, "unrepeatable"), DecodeString);
    Success(Profiled(Profile(tests, unrepeatable)))
  }

  function DecodeRecord(v: Value): Result<Record> {
    if !v.Object? then Failure(NO_VARIANT)
    else if IsVariant(v.fields, ["started"], []) then
      assert Has(v.fields, ["started"][0]);
      var ids :- DecodeArray(Lookup(v.fields, "started"), DecodeId);
      Success(Started(ids))
    else if IsVariant(v.fields, ["finished", "result", "tests"], ["timeout_rerun"]) then
      var required := ["finished", "result", "tests"];
      assert Has(v.fields, required[0]) && Has(v.fields, required[1]) && Has(v.fields, required[2]);
      DecodeFinished(v.fields)
    else if IsVariant(v.fields, ["isolate"], []) then
      assert Has(v.fields, ["isolate"][0]);
      var ids :- DecodeArray(Lookup(v.fields, "isolate"), DecodeId);
      Success(Isolate(ids))
    else if IsVariant(v.fields, ["profiled", "unrepeatable"], []) then
      var required := ["profiled", "unrepeatable"];
      assert Has(v.fields, required[0]) && Has(v.fields, required[1]);
      DecodeProfile(v.fields)
    else Failure(NO_VARIANT)
  }

  // ---------- What the rows add up to ----------

  /** What a reader knows of the rows so far. */
  datatype Contents = Contents(
    started: set<u32>,
    finished: map<u32, FinishedMutation>,
    isolated: set<u32>,
    profile: Option<Profile>)
  {
    function Unfinished(): set<u32> {
      started - finished.Keys
    }
  }

  const NOTHING := Contents({}, map[], {}, None)

  function Ids(ids: seq<u32>): set<u32> {
    set id <- ids
  }

  const DUPLICATE := "duplicate finished journal result"

  function Add(entries: Contents, r: Record): Result<Contents> {
    match r
    case Started(ids) => Success(entries.(started := entries.started + Ids(ids)))
    case Finished(id, finished) =>
      if id in entries.finished then Failure(DUPLICATE)
      else Success(entries.(finished := entries.finished[id := finished]))
    case Isolate(ids) => Success(entries.(isolated := entries.isolated + Ids(ids)))
    case Profiled(profile) => Success(if entries.profile.Some? then entries else entries.(profile := Some(profile)))
  }

  function AddAll(entries: Contents, rs: seq<Record>): Result<Contents> {
    if rs == [] then Success(entries)
    else
      var before :- AddAll(entries, rs[..|rs| - 1]);
      Add(before, rs[|rs| - 1])
  }

  // ---------- Rows and lines of the file ----------

  const NEWLINE: byte := 10
  const CARRIAGE_RETURN: byte := 13

  function Row(r: Record): bytes {
    Print(EncodeRecord(r)) + [NEWLINE]
  }

  function Rows(rs: seq<Record>): bytes {
    if rs == [] then [] else Rows(rs[..|rs| - 1]) + Row(rs[|rs| - 1])
  }

  /** Where the last newline ends: all bytes behind it belong to one line that was never finished. */
  function WholeRows(bs: bytes): (n: nat)
    ensures n <= |bs|
    ensures n > 0 ==> bs[n - 1] == NEWLINE
    ensures NEWLINE !in bs[n..]
  {
    if bs == [] then 0
    else if bs[|bs| - 1] == NEWLINE then |bs|
    else
      var n := WholeRows(bs[..|bs| - 1]);
      assert bs[n..] == bs[..|bs| - 1][n..] + [bs[|bs| - 1]];
      n
  }

  function LineLength(bs: bytes): (n: nat)
    ensures n <= |bs|
    ensures NEWLINE !in bs[..n]
    ensures n < |bs| ==> bs[n] == NEWLINE
  {
    if bs == [] || bs[0] == NEWLINE then 0
    else
      var n := LineLength(bs[1..]);
      assert bs[..n + 1] == [bs[0]] + bs[1..][..n];
      n + 1
  }

  /** `BufRead::lines`: the line that ends at the newline, without it and without a carriage return before it. */
  function Line(bs: bytes): bytes {
    var n := LineLength(bs);
    if 0 < n < |bs| && bs[n - 1] == CARRIAGE_RETURN then bs[..n - 1] else bs[..n]
  }

  function AfterLine(bs: bytes): (rest: bytes)
    requires bs != []
    ensures |rest| < |bs|
  {
    var n := LineLength(bs);
    if n < |bs| then bs[n + 1..] else []
  }

  /** One line as a record; a line that is not UTF-8 text cannot be read at all. */
  function ReadLine(line: bytes): Result<Record> {
    if !IsUtf8(line) then Failure("stream did not contain valid UTF-8")
    else
      var v :- FromText(line);
      DecodeRecord(v)
  }

  /** The contents after one line after another; the first error of a line or of what it adds is the result. */
  function ReadFrom(entries: Contents, bs: bytes): Result<Contents>
    decreases |bs|
  {
    if bs == [] then Success(entries)
    else
      var r :- ReadLine(Line(bs));
      var next :- Add(entries, r);
      ReadFrom(next, AfterLine(bs))
  }

  function Read(bs: bytes): Result<Contents> {
    ReadFrom(NOTHING, bs)
  }
}
