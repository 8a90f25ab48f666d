/** Whatever the writer prints, the parser reads back, and it reads back nothing shorter. */
module JsonRoundTrip {
  import opened Integers
  import opened Wrappers
  import opened Utf8
  import opened Json

  // ---------- Numbers ----------

  predicate EndsNumber(rest: bytes) {
    rest == [] || !IsDigit(rest[0])
  }

  lemma {:induction false} DigitsValueDigits(n: nat)
    ensures DigitsValue(Digits(n)) == n
  {
    if n >= 10 {
      DigitsValueDigits(n / 10);
      assert Digits(n)[..|Digits(n)| - 1] == Digits(n / 10);
    } else {
      assert Digits(n)[..0] == [];
    }
  }

  lemma {:induction false} DigitRunAppend(ds: bytes, rest: bytes)
    requires forall d <- ds :: IsDigit(d)
    ensures DigitRun(ds + rest) == |ds| + DigitRun(rest)
  {
    if ds == [] {
      assert ds + rest == rest;
    } else {
      assert (ds + rest)[1..] == ds[1..] + rest;
      DigitRunAppend(ds[1..], rest);
    }
  }

  lemma ParsePrintedNumber(n: u64, rest: bytes)
    requires EndsNumber(rest)
    ensures ParseNumber(Digits(n) + rest) == Success((n, rest))
  {
    DigitRunAppend(Digits(n), rest);
    DigitsValueDigits(n);
    var bs := Digits(n) + rest;
    assert DigitRun(bs) == |Digits(n)|;
    assert bs[..DigitRun(bs)] == Digits(n);
    assert bs[DigitRun(bs)..] == rest;
  }

  // ---------- Strings ----------

  predicate IsPlain(c: char) {
    c != '"' && c != '\\' && c >= ' '
  }

  predicate AllPlain(s: string) {
    forall i | 0 <= i < |s| :: IsPlain(s[i])
  }

  function PlainPrefix(s: string): (n: nat)
    ensures n <= |s|
    ensures AllPlain(s[..n])
    ensures n < |s| ==> !IsPlain(s[n])
  {
    if s != [] && IsPlain(s[0]) then
      assert s[..1 + PlainPrefix(s[1..])] == [s[0]] + s[1..][..PlainPrefix(s[1..])];
      1 + PlainPrefix(s[1..])
    else 0
  }

  /** A printed character holds no control byte, and a quote or backslash only where it escapes one. */
  lemma EscapeCharIsSafe(c: char)
    ensures forall b <- EscapeChar(c) :: b >= 32
    ensures IsPlain(c) <==> EscapeChar(c)[0] != BACKSLASH
    ensures IsPlain(c) ==> EscapeChar(c) == EncodeChar(c) && QUOTE !in EscapeChar(c) && BACKSLASH !in EscapeChar(c)
    ensures !IsPlain(c) ==> |EscapeChar(c)| >= 2
  {}

  lemma EscapePlainChar(c: char)
    requires IsPlain(c)
    ensures EscapeChar(c) == EncodeChar(c)
  {}

  lemma {:induction false} EscapePlain(s: string, t: string)
    requires AllPlain(s)
    ensures Escape(s + t) == Encode(s) + Escape(t)
  {
    hide EscapeChar, EncodeChar;
    if s == [] {
      assert s + t == t;
    } else {
      EscapePlain(s[1..], t);
      assert (s + t)[1..] == s[1..] + t;
      EscapePlainChar(s[0]);
    }
  }

  lemma EscapeAllPlain(s: string)
    requires AllPlain(s)
    ensures Escape(s) == Encode(s)
  {
    EscapePlain(s, []);
    assert s + [] == s;
  }

  lemma {:induction false} EncodePlain(s: string)
    requires AllPlain(s)
    ensures QUOTE !in Encode(s) && BACKSLASH !in Encode(s)
  {
    if s != [] {
      EscapeCharIsSafe(s[0]);
      EncodePlain(s[1..]);
    }
  }

  lemma {:induction false} PlainRunAppend(plain: bytes, rest: bytes)
    requires QUOTE !in plain && BACKSLASH !in plain
    ensures PlainRun(plain + rest) == |plain| + PlainRun(rest)
  {
    if plain == [] {
      assert plain + rest == rest;
    } else {
      assert (plain + rest)[1..] == plain[1..] + rest;
      PlainRunAppend(plain[1..], rest);
    }
  }

  lemma HexNumberOfFour(a: byte, b: byte, c: byte, d: byte)
    requires HexValue(a).Some? && HexValue(b).Some? && HexValue(c).Some? && HexValue(d).Some?
    ensures HexNumber([a, b, c, d]) == Some(((HexValue(a).value * 16 + HexValue(b).value) * 16 + HexValue(c).value) * 16 + HexValue(d).value)
  {
    assert [a][..0] == [] && [a, b][..1] == [a] && [a, b, c][..2] == [a, b] && [a, b, c, d][..3] == [a, b, c];
    assert HexNumber([a]) == Some(HexValue(a).value);
    assert HexNumber([a, b]) == Some(HexValue(a).value * 16 + HexValue(b).value);
  }

  lemma ParsePrintedEscape(c: char, rest: bytes)
    requires !IsPlain(c)
    ensures EscapeChar(c)[0] == BACKSLASH
    ensures ParseEscape(EscapeChar(c)[1..] + rest) == Success((c, rest))
  {
    var bs := EscapeChar(c)[1..] + rest;
    if bs[0] == LETTER_U {
      var n := c as int;
      var high, low := HexDigit(n / 16), HexDigit(n % 16);
      assert bs[1..5] == [ZERO, ZERO, high, low];
      HexNumberOfFour(ZERO, ZERO, high, low);
      assert HexNumber(bs[1..5]) == Some(n);
      assert bs[5..] == rest;
    } else {
      assert bs[1..] == rest;
    }
  }

  /** The parser takes the plain characters before a quote or backslash as they are. */
  lemma PlainPart(plain: string, tail: bytes)
    requires AllPlain(plain)
    requires tail != [] && (tail[0] == QUOTE || tail[0] == BACKSLASH)
    ensures var bs := Encode(plain) + tail; var n := PlainRun(bs);
      n < |bs| && Utf8.Decode(bs[..n]) == Some(plain) && bs[n] == tail[0] && bs[n + 1..] == tail[1..]
  {
    EncodePlain(plain);
    PlainRunAppend(Encode(plain), tail);
    DecodeEncode(plain);
    var bs := Encode(plain) + tail;
    assert bs[..|Encode(plain)|] == Encode(plain);
  }

  lemma ParsePlainEnd(plain: string, rest: bytes)
    requires AllPlain(plain)
    ensures ParsePart(Encode(plain) + ([QUOTE] + rest)) == Success(((plain, false), rest))
  {
    var tail := [QUOTE] + rest;
    PlainPart(plain, tail);
    assert tail[1..] == rest;
  }

  lemma ParsePlainThenEscape(plain: string, c: char, after: bytes)
    requires AllPlain(plain) && !IsPlain(c)
    ensures ParsePart(Encode(plain) + (EscapeChar(c) + after)) == Success(((plain + [c], true), after))
  {
    var tail := EscapeChar(c) + after;
    ParsePrintedEscape(c, after);
    assert tail[0] == BACKSLASH;
    assert tail[1..] == EscapeChar(c)[1..] + after;
    PlainPart(plain, tail);
  }

  lemma JoinParts(a: bytes, b: bytes, c: bytes, d: bytes, e: bytes)
    ensures (a + (b + c)) + d + e == a + (b + (c + d + e))
    ensures a + b + c == a + (b + c)
  {}

  lemma EscapeFrom(s: string, k: nat)
    requires k < |s|
    ensures Escape(s[k..]) == EscapeChar(s[k]) + Escape(s[k + 1..])
  {
    assert s[k..][1..] == s[k + 1..];
  }

  lemma {:induction false} ParsePrintedStringBody(s: string, rest: bytes)
    ensures ParseStringBody(Escape(s) + [QUOTE] + rest) == Success((s, rest))
    decreases |s|
  {
    hide Escape, EscapeChar, Encode, EncodeChar, ParsePart;
    var k := PlainPrefix(s);
    var plain := s[..k];
    assert s == plain + s[k..];
    EscapePlain(plain, s[k..]);
    if k == |s| {
      assert s == plain;
      EscapeAllPlain(s);
      JoinParts(Encode(plain), [QUOTE], rest, [], []);
      ParsePlainEnd(plain, rest);
    } else {
      var t := s[k + 1..];
      EscapeFrom(s, k);
      JoinParts(Encode(plain), EscapeChar(s[k]), Escape(t), [QUOTE], rest);
      ParsePrintedStringBody(t, rest);
      ParsePlainThenEscape(plain, s[k], Escape(t) + [QUOTE] + rest);
      assert plain + [s[k]] + t == s;
    }
  }

  // ---------- Values ----------

  lemma PrintStarts(v: Value)
    ensures Print(v) != [] && !IsWhitespace(Print(v)[0])
    ensures Print(v)[0] != CLOSE_BRACKET && Print(v)[0] != CLOSE_BRACE && Print(v)[0] != COMMA
  {
    if v.Number? {
      assert Digits(v.number)[0] in Digits(v.number);
    }
  }

  /** Reading back a printed value stops right after it, unless a number runs on into further digits. */
  lemma {:induction false} ParsePrinted(v: Value, rest: bytes)
    requires v.Number? ==> EndsNumber(rest)
    ensures ParseValue(Print(v) + rest) == Success((v, rest))
    decreases v, 0
  {
    PrintStarts(v);
    var bs := Print(v) + rest;
    assert SkipWhitespace(bs) == bs;
    match v
    case Null => assert bs[|NULL|..] == rest;
    case Bool(b) => assert bs[|Print(v)|..] == rest;
    case Number(n) =>
      assert Digits(n)[0] in Digits(n);
      ParsePrintedNumber(n, rest);
    case String(s) =>
      assert bs[1..] == Escape(s) + [QUOTE] + rest;
      ParsePrintedStringBody(s, rest);
    case Array(items) => ParsePrintedArray(items, rest);
    case Object(fields) => ParsePrintedObject(fields, rest);
  }

  lemma {:induction false} ParsePrintedArray(items: seq<Value>, rest: bytes)
    ensures ParseArray(Print(Array(items)) + rest) == Success((Array(items), rest))
    decreases items, 1
  {
    var t, inner := Print(Array(items)) + rest, PrintItems(items) + [CLOSE_BRACKET] + rest;
    assert t[1..] == inner;
    if items == [] {
      assert inner == [CLOSE_BRACKET] + rest;
    } else {
      PrintStarts(items[0]);
      assert inner[0] == Print(items[0])[0];
      ParsePrintedItems(items, rest);
    }
  }

  lemma {:induction false} ParsePrintedObject(fields: seq<(string, Value)>, rest: bytes)
    ensures ParseObject(Print(Object(fields)) + rest) == Success((Object(fields), rest))
    decreases fields, 1
  {
    var t, inner := Print(Object(fields)) + rest, PrintFields(fields) + [CLOSE_BRACE] + rest;
    assert t[1..] == inner;
    if fields == [] {
      assert inner == [CLOSE_BRACE] + rest;
    } else {
      assert inner[0] == PrintField(fields[0])[0] == QUOTE;
      ParsePrintedFields(fields, rest);
    }
  }

  lemma {:induction false} ParsePrintedItems(items: seq<Value>, rest: bytes)
    requires items != []
    ensures ParseItems(PrintItems(items) + [CLOSE_BRACKET] + rest) == Success((items, rest))
    decreases items, 0
  {
    hide Print, ParseValue;
    var bs := PrintItems(items) + [CLOSE_BRACKET] + rest;
    if |items| == 1 {
      var after := [CLOSE_BRACKET] + rest;
      assert bs == Print(items[0]) + after;
      ParsePrinted(items[0], after);
      assert after[1..] == rest && SkipWhitespace(after) == after;
      assert items == [items[0]];
    } else {
      var tail := PrintItems(items[1..]) + [CLOSE_BRACKET] + rest;
      var after := [COMMA] + tail;
      assert bs == Print(items[0]) + after;
      ParsePrinted(items[0], after);
      assert after[1..] == tail && SkipWhitespace(after) == after;
      ParsePrintedItems(items[1..], rest);
      assert items == [items[0]] + items[1..];
    }
  }

  lemma JoinField(key: bytes, value: bytes, rest: bytes)
    ensures [QUOTE] + key + [QUOTE] + [COLON] + value + rest == [QUOTE] + (key + [QUOTE] + ([COLON] + (value + rest)))
  {}

  lemma {:induction false} ParsePrintedField(field: (string, Value), rest: bytes)
    requires EndsNumber(rest)
    ensures ParseField(PrintField(field) + rest) == Success((field, rest))
    decreases field, 0
  {
    var after := [COLON] + (Print(field.1) + rest);
    var body := Escape(field.0) + [QUOTE] + after;
    JoinField(Escape(field.0), Print(field.1), rest);
    ParsePrintedStringBody(field.0, after);
    ParsePrinted(field.1, rest);
    FieldOfParts(body, after, field, rest);
  }

  lemma FieldOfParts(body: bytes, after: bytes, field: (string, Value), rest: bytes)
    requires ParseStringBody(body) == Success((field.0, after))
    requires Starts(after, COLON) && ParseValue(after[1..]) == Success((field.1, rest))
    ensures ParseField([QUOTE] + body) == Success((field, rest))
  {
    assert ([QUOTE] + body)[1..] == body;
  }

  lemma {:induction false} ParsePrintedFields(fields: seq<(string, Value)>, rest: bytes)
    requires fields != []
    ensures ParseFields(PrintFields(fields) + [CLOSE_BRACE] + rest) == Success((fields, rest))
    decreases fields, 0
  {
    hide PrintField, ParseField, ParseFields;
    if |fields| == 1 {
      var after := [CLOSE_BRACE] + rest;
      JoinParts(PrintField(fields[0]), [CLOSE_BRACE], rest, [], []);
      ParsePrintedField(fields[0], after);
      FieldsOfParts(PrintField(fields[0]) + after, fields[0], after, [], rest);
      assert fields == [fields[0]] + [];
    } else {
      var tail := PrintFields(fields[1..]) + [CLOSE_BRACE] + rest;
      var after := [COMMA] + tail;
      assert PrintFields(fields) + [CLOSE_BRACE] + rest == PrintField(fields[0]) + after;
      ParsePrintedField(fields[0], after);
      ParsePrintedFields(fields[1..], rest);
      FieldsOfParts(PrintField(fields[0]) + after, fields[0], after, fields[1..], rest);
      assert fields == [fields[0]] + fields[1..];
    }
  }

  lemma FieldsOfParts(bs: bytes, field: (string, Value), after: bytes, fields: seq<(string, Value)>, rest: bytes)
    requires ParseField(bs) == Success((field, after))
    requires (after == [CLOSE_BRACE] + rest && fields == []) || (Starts(after, COMMA) && ParseFields(after[1..]) == Success((fields, rest)))
    ensures ParseFields(bs) == Success(([field] + fields, rest))
  {
    if fields == [] && after == [CLOSE_BRACE] + rest {
      assert after[1..] == rest && [field] + fields == [field];
    }
  }

  /** The text of any value reads back as that value. */
  lemma RoundTrip(v: Value)
    ensures FromText(Print(v)) == Success(v)
  {
    ParsePrinted(v, []);
    assert Print(v) + [] == Print(v);
  }

  // ---------- More text after what was read changes nothing ----------

  lemma {:induction false} ExtendWhitespace(bs: bytes, more: bytes)
    requires SkipWhitespace(bs) != []
    ensures SkipWhitespace(bs + more) == SkipWhitespace(bs) + more
  {
    if IsWhitespace(bs[0]) {
      assert (bs + more)[1..] == bs[1..] + more;
      ExtendWhitespace(bs[1..], more);
    }
  }

  lemma {:induction false} ExtendDigitRun(bs: bytes, more: bytes)
    requires DigitRun(bs) < |bs|
    ensures DigitRun(bs + more) == DigitRun(bs)
  {
    if IsDigit(bs[0]) {
      assert (bs + more)[1..] == bs[1..] + more;
      ExtendDigitRun(bs[1..], more);
    }
  }

  lemma {:induction false} ExtendPlainRun(bs: bytes, more: bytes)
    requires PlainRun(bs) < |bs|
    ensures PlainRun(bs + more) == PlainRun(bs)
  {
    if bs[0] != QUOTE && bs[0] != BACKSLASH {
      assert (bs + more)[1..] == bs[1..] + more;
      ExtendPlainRun(bs[1..], more);
    }
  }

  lemma ExtendEscape(bs: bytes, more: bytes)
    requires ParseEscape(bs).Success?
    ensures ParseEscape(bs + more) == Success((ParseEscape(bs).value.0, ParseEscape(bs).value.1 + more))
  {
    if bs[0] == LETTER_U {
      assert (bs + more)[1..5] == bs[1..5] && (bs + more)[5..] == bs[5..] + more;
    } else {
      assert (bs + more)[1..] == bs[1..] + more;
    }
  }

  lemma ExtendPart(bs: bytes, more: bytes)
    requires ParsePart(bs).Success?
    ensures ParsePart(bs + more) == Success((ParsePart(bs).value.0, ParsePart(bs).value.1 + more))
  {
    var n := PlainRun(bs);
    ExtendPlainRun(bs, more);
    assert (bs + more)[..n] == bs[..n] && (bs + more)[n + 1..] == bs[n + 1..] + more;
    if bs[n] != QUOTE {
      ExtendEscape(bs[n + 1..], more);
    }
  }

  lemma {:induction false} ExtendStringBody(bs: bytes, more: bytes)
    requires ParseStringBody(bs).Success?
    ensures ParseStringBody(bs + more) == Success((ParseStringBody(bs).value.0, ParseStringBody(bs).value.1 + more))
    decreases |bs|
  {
    ExtendPart(bs, more);
    if ParsePart(bs).value.0.1 {
      ExtendStringBody(ParsePart(bs).value.1, more);
    }
  }

  /** The value read could not run on, however the text goes on. */
  predicate Closed(bs: bytes)
    requires ParseValue(bs).Success?
  {
    ParseValue(bs).value.0.Number? ==> ParseValue(bs).value.1 != []
  }

  lemma ExtendKeyword(t: bytes, keyword: bytes, name: string, v: Value, more: bytes)
    requires keyword != [] && ParseKeyword(t, keyword, name, v).Success?
    ensures ParseKeyword(t + more, keyword, name, v) == Success((v, ParseKeyword(t, keyword, name, v).value.1 + more))
  {
    assert (t + more)[|keyword|..] == t[|keyword|..] + more;
  }

  lemma ExtendNumber(t: bytes, more: bytes)
    requires t != [] && IsDigit(t[0]) && ParseNumber(t).Success? && ParseNumber(t).value.1 != []
    ensures ParseNumber(t + more) == Success((ParseNumber(t).value.0, ParseNumber(t).value.1 + more))
  {
    ExtendDigitRun(t, more);
    assert (t + more)[..DigitRun(t)] == t[..DigitRun(t)] && (t + more)[DigitRun(t)..] == t[DigitRun(t)..] + more;
  }

  lemma {:induction false} ExtendValue(bs: bytes, more: bytes)
    requires ParseValue(bs).Success? && Closed(bs)
    ensures ParseValue(bs + more) == Success((ParseValue(bs).value.0, ParseValue(bs).value.1 + more))
    decreases |bs|, 1
  {
    var t := SkipWhitespace(bs);
    ExtendWhitespace(bs, more);
    if t[0] == LETTER_N {
      ExtendKeyword(t, NULL, "null", Null, more);
    } else if t[0] == LETTER_T {
      ExtendKeyword(t, TRUE, "true", Bool(true), more);
    } else if t[0] == LETTER_F {
      ExtendKeyword(t, FALSE, "false", Bool(false), more);
    } else if IsDigit(t[0]) {
      ExtendNumber(t, more);
    } else if t[0] == QUOTE {
      assert (t + more)[1..] == t[1..] + more;
      ExtendStringBody(t[1..], more);
    } else if t[0] == OPEN_BRACKET {
      ExtendArray(t, more);
    } else {
      ExtendObject(t, more);
    }
  }

  lemma {:induction false} ExtendArray(t: bytes, more: bytes)
    requires t != [] && ParseArray(t).Success?
    ensures ParseArray(t + more) == Success((ParseArray(t).value.0, ParseArray(t).value.1 + more))
    decreases |t|, 0
  {
    var inner := SkipWhitespace(t[1..]);
    assert (t + more)[1..] == t[1..] + more;
    ExtendWhitespace(t[1..], more);
    if Starts(inner, CLOSE_BRACKET) {
      assert (inner + more)[1..] == inner[1..] + more;
    } else {
      ExtendItems(inner, more);
    }
  }

  lemma {:induction false} ExtendObject(t: bytes, more: bytes)
    requires t != [] && ParseObject(t).Success?
    ensures ParseObject(t + more) == Success((ParseObject(t).value.0, ParseObject(t).value.1 + more))
    decreases |t|, 0
  {
    var inner := SkipWhitespace(t[1..]);
    assert (t + more)[1..] == t[1..] + more;
    ExtendWhitespace(t[1..], more);
    if Starts(inner, CLOSE_BRACE) {
      assert (inner + more)[1..] == inner[1..] + more;
    } else {
      ExtendFields(inner, more);
    }
  }

  lemma {:induction false} ExtendItems(bs: bytes, more: bytes)
    requires ParseItems(bs).Success?
    ensures ParseItems(bs + more) == Success((ParseItems(bs).value.0, ParseItems(bs).value.1 + more))
    decreases |bs|, 2
  {
    var rest := ParseValue(bs).value.1;
    var next := SkipWhitespace(rest);
    ExtendValue(bs, more);
    ExtendWhitespace(rest, more);
    assert (next + more)[1..] == next[1..] + more;
    if Starts(next, COMMA) {
      ExtendItems(next[1..], more);
    }
  }

  lemma ExtendKey(bs: bytes, more: bytes)
    requires ParseKey(bs).Success?
    ensures ParseKey(bs + more) == Success((ParseKey(bs).value.0, ParseKey(bs).value.1 + more))
  {
    hide ParseStringBody;
    var t := SkipWhitespace(bs);
    ExtendWhitespace(bs, more);
    assert (t + more)[1..] == t[1..] + more;
    ExtendStringBody(t[1..], more);
    var rest := ParseStringBody(t[1..]).value.1;
    var next := SkipWhitespace(rest);
    ExtendWhitespace(rest, more);
    assert (next + more)[1..] == next[1..] + more;
  }

  lemma {:induction false} ExtendField(bs: bytes, more: bytes)
    requires ParseField(bs).Success? && ParseField(bs).value.1 != []
    ensures ParseField(bs + more) == Success((ParseField(bs).value.0, ParseField(bs).value.1 + more))
    decreases |bs|, 2
  {
    ExtendKey(bs, more);
    ExtendValue(ParseKey(bs).value.1, more);
  }

  /** The fields of an object, from the first one and what follows it. */
  function FieldsWith(field: (string, Value), next: bytes): Parsed<seq<(string, Value)>> {
    if Starts(next, CLOSE_BRACE) then Success(([field], next[1..]))
    else if !Starts(next, COMMA) then Failure(LIST_END)
    else
      match ParseFields(next[1..])
      case Failure(error) => Failure(error)
      case Success(r) => Success(([field] + r.0, r.1))
  }

  lemma FieldsAre(bs: bytes)
    requires ParseField(bs).Success?
    ensures ParseFields(bs) == FieldsWith(ParseField(bs).value.0, SkipWhitespace(ParseField(bs).value.1))
  {
    hide ParseField, SkipWhitespace;
  }

  lemma FieldIsFirst(bs: bytes)
    requires ParseFields(bs).Success?
    ensures ParseField(bs).Success? && |SkipWhitespace(ParseField(bs).value.1)| < |bs|
  {
    hide ParseField, SkipWhitespace;
  }

  lemma WithExtended(field: (string, Value), next: bytes, more: bytes)
    requires FieldsWith(field, next).Success?
    requires Starts(next, COMMA) && ParseFields(next[1..]).Success? ==>
      ParseFields(next[1..] + more) == Success((ParseFields(next[1..]).value.0, ParseFields(next[1..]).value.1 + more))
    ensures next != [] && FieldsWith(field, next + more) ==
      Success((FieldsWith(field, next).value.0, FieldsWith(field, next).value.1 + more))
  {
    hide ParseFields;
    assert next != [] ==> (next + more)[1..] == next[1..] + more;
  }

  lemma WithNeedsRest(field: (string, Value), next: bytes)
    requires FieldsWith(field, next).Success?
    ensures next != [] && (Starts(next, COMMA) ==> ParseFields(next[1..]).Success?)
  {
    hide ParseFields;
  }

  lemma {:induction false} ExtendFields(bs: bytes, more: bytes)
    requires ParseFields(bs).Success?
    ensures ParseFields(bs + more) == Success((ParseFields(bs).value.0, ParseFields(bs).value.1 + more))
    decreases |bs|, 3
  {
    hide ParseField, ParseFields, SkipWhitespace, FieldsWith;
    FieldIsFirst(bs);
    FieldsAre(bs);
    var field, rest := ParseField(bs).value.0, ParseField(bs).value.1;
    var next := SkipWhitespace(rest);
    WithNeedsRest(field, next);
    ExtendRest(rest, more);
    ExtendField(bs, more);
    FieldsAre(bs + more);
    if Starts(next, COMMA) {
      ExtendFields(next[1..], more);
    }
    WithExtended(field, next, more);
  }

  lemma ExtendRest(rest: bytes, more: bytes)
    requires SkipWhitespace(rest) != []
    ensures rest != [] && SkipWhitespace(rest + more) == SkipWhitespace(rest) + more
  {
    ExtendWhitespace(rest, more);
  }

  /** Cutting the text of a value short, other than of a number, leaves nothing that reads as a value. */
  lemma NoProperPrefix(v: Value, k: nat)
    requires !v.Number? && k < |Print(v)|
    ensures FromText(Print(v)[..k]).Failure?
  {
    var cut, more := Print(v)[..k], Print(v)[k..];
    assert cut + more == Print(v);
    if FromText(cut).Success? {
      ParsePrinted(v, []);
      assert Print(v) + [] == Print(v);
      PrintStarts(v);
      assert cut != [] && cut[0] == Print(v)[0] && !IsDigit(Print(v)[0]);
      assert SkipWhitespace(cut) == cut;
      ExtendValue(cut, more);
    }
  }

  // ---------- What a printed text is made of ----------

  predicate NoControl(bs: bytes) {
    forall b <- bs :: b >= 32
  }

  lemma {:induction false} EscapeHasNoControl(s: string)
    ensures NoControl(Escape(s)) && IsUtf8(Escape(s))
  {
    if s != [] {
      EscapeCharIsSafe(s[0]);
      EscapeHasNoControl(s[1..]);
      EscapeCharIsUtf8(s[0]);
      IsUtf8Append(EscapeChar(s[0]), Escape(s[1..]));
    }
  }

  lemma EscapeCharIsUtf8(c: char)
    ensures IsUtf8(EscapeChar(c))
  {
    if IsPlain(c) {
      DecodeEncode([c]);
      assert EscapeChar(c) == Encode([c]);
    } else {
      AsciiIsUtf8(EscapeChar(c));
    }
  }

  lemma {:induction false} AsciiIsUtf8(bs: bytes)
    requires forall b <- bs :: b < 128
    ensures IsUtf8(bs)
  {
    if bs != [] {
      assert forall b <- bs[1..] :: b in bs;
      AsciiIsUtf8(bs[1..]);
      assert bs[0] in bs && CodePoint(bs[..1]) == bs[0];
      assert EncodeChar(bs[0] as char) == bs[..1];
      assert DecodeChar(bs) == Some(bs[0] as char);
    }
  }

  /** A printed text is UTF-8 and has no control character, so no line break either. */
  lemma {:induction false} PrintIsClean(v: Value)
    ensures NoControl(Print(v)) && IsUtf8(Print(v))
    decreases v, 0
  {
    match v
    case Null => WordIsClean(v);
    case Bool(b) => WordIsClean(v);
    case Number(n) => AsciiIsUtf8(Digits(n));
    case String(s) => PrintStringIsClean(s);
    case Array(items) =>
      hide NoControl, IsUtf8;
      PrintItemsIsClean(items);
      Bracket(OPEN_BRACKET, PrintItems(items), CLOSE_BRACKET);
    case Object(fields) =>
      hide NoControl, IsUtf8;
      PrintFieldsIsClean(fields);
      Bracket(OPEN_BRACE, PrintFields(fields), CLOSE_BRACE);
  }

  lemma WordIsClean(v: Value)
    requires v.Null? || v.Bool?
    ensures NoControl(Print(v)) && IsUtf8(Print(v))
  {
    hide NoControl, IsUtf8;
    LettersAreClean(NULL);
    LettersAreClean(TRUE);
    LettersAreClean(FALSE);
  }

  lemma LettersAreClean(bs: bytes)
    requires forall i | 0 <= i < |bs| :: 97 <= bs[i] < 123
    ensures NoControl(bs) && IsUtf8(bs)
  {
    AsciiIsUtf8(bs);
  }

  lemma Bracket(open: byte, inner: bytes, close: byte)
    requires 32 <= open < 128 && 32 <= close < 128 && NoControl(inner) && IsUtf8(inner)
    ensures NoControl([open] + inner + [close]) && IsUtf8([open] + inner + [close])
  {
    AsciiIsUtf8([open]);
    AsciiIsUtf8([close]);
    hide IsUtf8;
    IsUtf8Append([open], inner);
    IsUtf8Append([open] + inner, [close]);
  }

  lemma PrintStringIsClean(s: string)
    ensures NoControl(PrintString(s)) && IsUtf8(PrintString(s))
  {
    EscapeHasNoControl(s);
    Bracket(QUOTE, Escape(s), QUOTE);
  }

  lemma JoinClean(a: bytes, separator: byte, b: bytes)
    requires NoControl(a) && IsUtf8(a) && NoControl(b) && IsUtf8(b) && 32 <= separator < 128
    ensures NoControl(a + [separator] + b) && IsUtf8(a + [separator] + b)
  {
    AsciiIsUtf8([separator]);
    IsUtf8Append(a, [separator]);
    IsUtf8Append(a + [separator], b);
  }

  lemma {:induction false} PrintItemsIsClean(items: seq<Value>)
    ensures NoControl(PrintItems(items)) && IsUtf8(PrintItems(items))
    decreases items, 0
  {
    if items != [] {
      PrintIsClean(items[0]);
      if |items| > 1 {
        PrintItemsIsClean(items[1..]);
        JoinClean(Print(items[0]), COMMA, PrintItems(items[1..]));
      }
    }
  }

  lemma {:induction false} PrintFieldIsClean(field: (string, Value))
    ensures NoControl(PrintField(field)) && IsUtf8(PrintField(field))
    decreases field, 0
  {
    PrintStringIsClean(field.0);
    PrintIsClean(field.1);
    JoinClean(PrintString(field.0), COLON, Print(field.1));
  }

  lemma {:induction false} PrintFieldsIsClean(fields: seq<(string, Value)>)
    ensures NoControl(PrintFields(fields)) && IsUtf8(PrintFields(fields))
    decreases fields, 0
  {
    if fields != [] {
      PrintFieldIsClean(fields[0]);
      if |fields| > 1 {
        PrintFieldsIsClean(fields[1..]);
        JoinClean(PrintField(fields[0]), COMMA, PrintFields(fields[1..]));
      }
    }
  }
}
