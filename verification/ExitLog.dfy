/** The text of the exit-code log: one line for each start and exit, in words and decimal numbers. */
module ExitLog {
  import opened Integers
  import opened Collections
  import opened Wrappers
  import opened Json
  import opened JsonRoundTrip
  import opened ExitCode
  import Journal
  import JournalRows

  const SPACE: byte := 32
  const MINUS: byte := 45
  const STARTED: bytes := [115, 116, 97, 114, 116, 101, 100]
  const EXITED: bytes := [101, 120, 105, 116, 101, 100]

  // ---------- Numbers ----------

  /** `str::parse` of an unsigned number, which may have a plus sign. */
  function ParseDigits(word: bytes): Option<nat> {
    if word == [] || exists i | 0 <= i < |word| :: !IsDigit(word[i]) then None
    else
      assert forall d <- word :: IsDigit(d);
      Some(DigitsValue(word))
  }

  function ParseU32(word: bytes): Option<u32> {
    var n := ParseDigits(if word != [] && word[0] == PLUS then word[1..] else word);
    if n.Some? && n.value <= 0xFFFF_FFFF then Some(n.value) else None
  }

  function ParseI32(word: bytes): Option<i32> {
    if word != [] && word[0] == MINUS then
      var n := ParseDigits(word[1..]);
      if n.Some? && n.value <= 0x8000_0000 then Some(0 - n.value as int) else None
    else
      var n := ParseDigits(if word != [] && word[0] == PLUS then word[1..] else word);
      if n.Some? && n.value <= 0x7FFF_FFFF then Some(n.value) else None
  }

  function Magnitude(code: int): nat {
    if code < 0 then 0 - code else code
  }

  function PrintI32(code: i32): bytes {
    (if code < 0 then [MINUS] else []) + Digits(Magnitude(code))
  }

  lemma ParseDigitsDigits(n: nat)
    ensures ParseDigits(Digits(n)) == Some(n)
    ensures IsDigit(Digits(n)[0]) && SPACE !in Digits(n) && Journal.NEWLINE !in Digits(n) && Journal.CARRIAGE_RETURN !in Digits(n)
  {
    DigitsValueDigits(n);
    assert forall i | 0 <= i < |Digits(n)| :: Digits(n)[i] in Digits(n);
  }

  lemma ParsePrintedU32(n: u32)
    ensures ParseU32(Digits(n)) == Some(n)
  {
    ParseDigitsDigits(n);
  }

  lemma ParsePrintedI32(code: i32)
    ensures ParseI32(PrintI32(code)) == Some(code)
    ensures SPACE !in PrintI32(code) && Journal.NEWLINE !in PrintI32(code) && Journal.CARRIAGE_RETURN !in PrintI32(code)
    ensures PrintI32(code) != []
  {
    var digits := Digits(Magnitude(code));
    ParseDigitsDigits(Magnitude(code));
    hide Digits, ParseDigits;
    if code < 0 {
      assert PrintI32(code)[1..] == digits;
    } else {
      assert PrintI32(code) == digits;
    }
  }

  // ---------- Words ----------

  /** `split(' ')`: the words between the spaces, empty ones included. */
  function Words(line: bytes): (words: seq<bytes>)
    ensures words != []
  {
    if line == [] then [[]]
    else
      var rest := Words(line[1..]);
      if line[0] == SPACE then [[]] + rest else [[line[0]] + rest[0]] + rest[1..]
  }

  lemma {:induction false} OneWord(word: bytes)
    requires SPACE !in word
    ensures Words(word) == [word]
  {
    if word != [] {
      OneWord(word[1..]);
      assert [word[0]] + word[1..] == word;
    }
  }

  lemma {:induction false} FirstWord(word: bytes, rest: bytes)
    requires SPACE !in word
    ensures Words(word + [SPACE] + rest) == [word] + Words(rest)
  {
    var line := word + [SPACE] + rest;
    if word == [] {
      assert line[1..] == rest;
    } else {
      FirstWord(word[1..], rest);
      assert line[1..] == word[1..] + [SPACE] + rest;
      assert [word[0]] + word[1..] == word;
    }
  }

  // ---------- Lines ----------

  function ParseLine(line: bytes): Entry {
    var words := Words(line);
    if |words| == 2 && words[0] == STARTED && ParseU32(words[1]).Some? then Start(ParseU32(words[1]).value)
    else if |words| == 3 && words[0] == EXITED && ParseU32(words[1]).Some? && ParseI32(words[2]).Some? then
      Exit(ParseU32(words[1]).value, ParseI32(words[2]).value)
    else Other
  }

  /** What `record_start` and `record_exit` append, up to the newline. */
  function PrintLine(entry: Entry): bytes
    requires !entry.Other?
  {
    if entry.Start? then STARTED + [SPACE] + Digits(entry.pid)
    else EXITED + [SPACE] + (Digits(entry.pid) + [SPACE] + PrintI32(entry.code))
  }

  predicate IsWord(word: bytes) {
    SPACE !in word && Journal.NEWLINE !in word && Journal.CARRIAGE_RETURN !in word && word != []
  }

  lemma TwoWords(first: bytes, second: bytes)
    requires IsWord(first) && IsWord(second)
    ensures Words(first + [SPACE] + second) == [first, second] && IsLine(first + [SPACE] + second)
  {
    FirstWord(first, second);
    OneWord(second);
  }

  lemma ThreeWords(first: bytes, second: bytes, third: bytes)
    requires IsWord(first) && IsWord(second) && IsWord(third)
    ensures Words(first + [SPACE] + (second + [SPACE] + third)) == [first, second, third]
    ensures IsLine(first + [SPACE] + (second + [SPACE] + third))
  {
    FirstWord(first, second + [SPACE] + third);
    TwoWords(second, third);
  }

  predicate IsLine(line: bytes) {
    Journal.NEWLINE !in line && Journal.CARRIAGE_RETURN !in line && line != []
  }

  lemma ParsePrintedLine(entry: Entry)
    requires !entry.Other?
    ensures ParseLine(PrintLine(entry)) == entry && IsLine(PrintLine(entry))
  {
    var pid := Digits(entry.pid);
    ParseDigitsDigits(entry.pid);
    ParsePrintedU32(entry.pid);
    assert IsWord(pid) && IsWord(STARTED) && IsWord(EXITED);
    hide Digits, Words, ParseU32, ParseI32, IsWord, IsLine, PrintI32;
    if entry.Start? {
      TwoWords(STARTED, pid);
    } else {
      PrintedCodeIsWord(entry.code);
      ParsePrintedI32(entry.code);
      ThreeWords(EXITED, pid, PrintI32(entry.code));
    }
  }

  lemma PrintedCodeIsWord(code: i32)
    ensures IsWord(PrintI32(code))
  {
    ParsePrintedI32(code);
  }

  function ParseText(text: bytes): seq<Entry>
    decreases |text|
  {
    if text == [] then [] else [ParseLine(Journal.Line(text))] + ParseText(Journal.AfterLine(text))
  }

  function PrintText(entries: seq<Entry>): bytes
    requires Printable(entries)
  {
    if entries == [] then [] else PrintLine(entries[0]) + [Journal.NEWLINE] + PrintText(entries[1..])
  }

  /** The first line of a text, when it ends in a newline and in no carriage return. */
  lemma FirstLine(line: bytes, more: bytes)
    requires IsLine(line)
    ensures var text := line + [Journal.NEWLINE] + more; Journal.Line(text) == line && Journal.AfterLine(text) == more
  {
    var rest := [Journal.NEWLINE] + more;
    var text := line + [Journal.NEWLINE] + more;
    assert text == line + rest;
    JournalRows.LineLengthOf(line, rest);
    assert text[..|line|] == line && text[|line| + 1..] == more;
    assert text[|line| - 1] == line[|line| - 1];
  }

  predicate Printable(entries: seq<Entry>) {
    forall i | 0 <= i < |entries| :: !entries[i].Other?
  }

  lemma ParseOne(text: bytes)
    requires text != []
    ensures ParseText(text) == [ParseLine(Journal.Line(text))] + ParseText(Journal.AfterLine(text))
  {}

  lemma PrintOne(entries: seq<Entry>)
    requires entries != [] && Printable(entries)
    ensures !entries[0].Other? && Printable(entries[1..])
    ensures PrintText(entries) == PrintLine(entries[0]) + [Journal.NEWLINE] + PrintText(entries[1..]) != []
  {}

  lemma {:induction false} ParsePrintedText(entries: seq<Entry>)
    requires Printable(entries)
    ensures ParseText(PrintText(entries)) == entries
  {
    if entries != [] {
      PrintOne(entries);
      ParsePrintedLine(entries[0]);
      FirstLine(PrintLine(entries[0]), PrintText(entries[1..]));
      ParseOne(PrintText(entries));
      ParsePrintedText(entries[1..]);
      hide *;
      assert entries == [entries[0]] + entries[1..];
    }
  }

  /** `read`: the codes in the log, in the order the harnesses started. */
  method Read(text: bytes) returns (codes: seq<i32>)
    ensures codes == Codes(ReadAll(ParseText(text)))
  {
    hide ParseText, ParseLine, Journal.Line, LatestRunning, ReadAll;
    var harnesses: Harnesses := [];
    var rest := text;
    NothingRead();
    ghost var read: seq<Entry> := [];
    while rest != []
      invariant harnesses == ReadAll(read) && ParseText(text) == read + ParseText(rest)
      decreases |rest|
    {
      var entry := ParseLine(Journal.Line(rest));
      match entry {
        case Start(pid) => harnesses := harnesses + [(pid, None)];
        case Exit(pid, code) => harnesses := RecordExitOfLatest(harnesses, pid, code);
        case Other =>
      }
      ReadMore(read, rest);
      read := read + [entry];
      rest := Journal.AfterLine(rest);
    }
    assert read + [] == read;
    codes := Codes(harnesses);
  }

  lemma NothingRead()
    ensures ReadAll([]) == [] && ParseText([]) == []
  {}

  lemma ReadPush(read: seq<Entry>, entry: Entry)
    ensures ReadAll(read + [entry]) == ReadOne(ReadAll(read), entry)
  {
    assert (read + [entry])[..|read|] == read;
  }

  lemma ReadMore(read: seq<Entry>, rest: bytes)
    requires rest != []
    ensures var entry := ParseLine(Journal.Line(rest));
      && ReadAll(read + [entry]) == ReadOne(ReadAll(read), entry)
      && read + ParseText(rest) == (read + [entry]) + ParseText(Journal.AfterLine(rest))
  {
    var entry := ParseLine(Journal.Line(rest));
    ReadPush(read, entry);
    ParseOne(rest);
    Associative(read, [entry], ParseText(Journal.AfterLine(rest)));
    hide *;
  }

  lemma {:induction false} LoggedIsPrintable(hs: seq<Happening>)
    requires AllMayHappen(hs)
    ensures Printable(Logged(hs))
  {
    if hs != [] {
      LoggedIsPrintable(hs[..|hs| - 1]);
    }
  }

  /** What the harnesses wrote is read as what they did. */
  lemma LogIsReadBack(hs: seq<Happening>)
    requires AllMayHappen(hs)
    ensures Printable(Logged(hs))
    ensures Codes(ReadAll(ParseText(PrintText(Logged(hs))))) == Codes(Truth(hs))
    ensures AreCodesOf(Codes(Truth(hs)), hs)
  {
    LoggedIsPrintable(hs);
    ParsePrintedText(Logged(hs));
    ReadIsTruth(hs);
    LogTellsCodes(hs);
  }
}
