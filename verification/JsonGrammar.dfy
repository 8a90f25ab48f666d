/** Which texts spell a value, whatever whitespace and escapes they use; the parser reads exactly those. */
module JsonGrammar {
  import opened Collections
  import opened Integers
  import opened Wrappers
  import opened Utf8
  import opened Json
  import opened JsonRoundTrip

  // ---------- The grammar ----------

  predicate IsBlank(b: byte) {
    b == ' ' as int || b == '\t' as int || b == '\n' as int || b == '\r' as int
  }

  predicate Blank(bs: bytes) {
    forall i | 0 <= i < |bs| :: IsBlank(bs[i])
  }

  /** A hexadecimal digit in either case. */
  predicate IsHex(b: byte, d: nat) {
    || (d < 10 && b == '0' as int + d)
    || (10 <= d < 16 && (b == 'a' as int + (d - 10) || b == 'A' as int + (d - 10)))
  }

  /** Four digits, or a plus sign and three. */
  predicate AreDigits(hex: bytes, d0: nat, d1: nat, d2: nat, d3: nat) {
    && |hex| == 4
    && (IsHex(hex[0], d0) || (hex[0] == PLUS && d0 == 0)) && IsHex(hex[1], d1) && IsHex(hex[2], d2) && IsHex(hex[3], d3)
  }

  ghost predicate SpellsCode(c: char, hex: bytes) {
    exists d0: nat, d1: nat, d2: nat, d3: nat ::
      AreDigits(hex, d0, d1, d2, d3) && c as int == ((d0 * 16 + d1) * 16 + d2) * 16 + d3
  }

  /** The character as it is, or one of its escapes. */
  ghost predicate SpellsChar(c: char, bs: bytes) {
    || (c != '"' && c != '\\' && bs == EncodeChar(c))
    || (c == '"' && bs == [BACKSLASH, QUOTE])
    || (c == '\\' && bs == [BACKSLASH, BACKSLASH])
    || (c == '/' && bs == [BACKSLASH, SLASH])
    || (c == '\n' && bs == [BACKSLASH, LETTER_N])
    || (c == '\r' && bs == [BACKSLASH, LETTER_R])
    || (c == '\t' && bs == [BACKSLASH, LETTER_T])
    || (|bs| == 6 && bs[..2] == [BACKSLASH, LETTER_U] && SpellsCode(c, bs[2..]))
  }

  ghost predicate SpellsText(s: string, bs: bytes)
    decreases |s|
  {
    if s == [] then bs == []
    else exists first, more :: bs == first + more && SpellsChar(s[0], first) && SpellsText(s[1..], more)
  }

  function Quoted(body: bytes): bytes {
    [QUOTE] + body + [QUOTE]
  }

  ghost predicate Spells(v: Value, bs: bytes)
    decreases v, 0
  {
    match v
    case Null => bs == NULL
    case Bool(b) => bs == if b then TRUE else FALSE
    case Number(n) => bs != [] && (forall d <- bs :: IsDigit(d)) && DigitsValue(bs) == n
    case String(s) => exists body :: bs == Quoted(body) && SpellsText(s, body)
    case Array(items) => exists inner :: bs == [OPEN_BRACKET] + inner + [CLOSE_BRACKET] && SpellsItems(items, inner)
    case Object(fields) => exists inner :: bs == [OPEN_BRACE] + inner + [CLOSE_BRACE] && SpellsFields(fields, inner)
  }

  /** With whitespace around it. */
  ghost predicate SpellsPadded(v: Value, bs: bytes)
    decreases v, 1
  {
    exists a, t, b :: bs == a + t + b && Blank(a) && Spells(v, t) && Blank(b)
  }

  /** Commas stand between the items and nowhere else. */
  ghost predicate SpellsItems(items: seq<Value>, bs: bytes)
    decreases items
  {
    if items == [] then Blank(bs)
    else if |items| == 1 then SpellsPadded(items[0], bs)
    else exists first, more :: bs == first + [COMMA] + more && SpellsPadded(items[0], first) && SpellsItems(items[1..], more)
  }

  ghost predicate SpellsKey(key: string, bs: bytes) {
    exists a, body, b :: bs == a + Quoted(body) + b && Blank(a) && SpellsText(key, body) && Blank(b)
  }

  ghost predicate SpellsField(field: (string, Value), bs: bytes)
    decreases field
  {
    exists key, value :: bs == key + [COLON] + value && SpellsKey(field.0, key) && SpellsPadded(field.1, value)
  }

  ghost predicate SpellsFields(fields: seq<(string, Value)>, bs: bytes)
    decreases fields
  {
    if fields == [] then Blank(bs)
    else if |fields| == 1 then SpellsField(fields[0], bs)
    else exists first, more :: bs == first + [COMMA] + more && SpellsField(fields[0], first) && SpellsFields(fields[1..], more)
  }

  // ---------- Whitespace ----------

  /** The parser skips just the blank bytes. */
  lemma {:induction false} SkipBlank(a: bytes, t: bytes)
    requires Blank(a) && (t == [] || !IsBlank(t[0]))
    ensures SkipWhitespace(a + t) == t
  {
    if a == [] {
      assert a + t == t;
    } else {
      assert (a + t)[1..] == a[1..] + t;
      SkipBlank(a[1..], t);
    }
  }

  lemma {:induction false} Skipped(bs: bytes) returns (a: bytes)
    ensures bs == a + SkipWhitespace(bs) && Blank(a)
    ensures SkipWhitespace(bs) != [] ==> !IsBlank(SkipWhitespace(bs)[0])
  {
    if bs != [] && IsWhitespace(bs[0]) {
      var more := Skipped(bs[1..]);
      a := [bs[0]] + more;
      assert bs == [bs[0]] + bs[1..];
    } else {
      a := [];
      assert bs == a + bs;
    }
  }

  lemma SkipAgain(bs: bytes)
    ensures SkipWhitespace(SkipWhitespace(bs)) == SkipWhitespace(bs)
  {
    var a := Skipped(bs);
    SkipBlank([], SkipWhitespace(bs));
    assert [] + SkipWhitespace(bs) == SkipWhitespace(bs);
  }

  // ---------- Strings ----------

  lemma HexNumberOfThree(a: byte, b: byte, c: byte)
    requires HexValue(a).Some? && HexValue(b).Some? && HexValue(c).Some?
    ensures HexNumber([a, b, c]) == Some((HexValue(a).value * 16 + HexValue(b).value) * 16 + HexValue(c).value)
  {
    HexNumberOfFour(ZERO, a, b, c);
    assert [a][..0] == [] && [a, b][..1] == [a] && [a, b, c][..2] == [a, b];
    assert HexNumber([a]) == Some(HexValue(a).value);
    assert HexNumber([a, b]) == Some(HexValue(a).value * 16 + HexValue(b).value);
  }

  lemma {:induction false} HexNumberNeedsDigits(hex: bytes, i: nat)
    requires i < |hex| && HexNumber(hex).Some?
    ensures HexValue(hex[i]).Some?
  {
    if i < |hex| - 1 {
      HexNumberNeedsDigits(hex[..|hex| - 1], i);
    }
  }

  /** A character code is read as the character it spells. */
  lemma CodeIs(c: char, hex: bytes)
    requires |hex| == 4
    ensures CharOfHex(hex) == Some(c) <==> SpellsCode(c, hex)
  {
    if CharOfHex(hex) == Some(c) {
      var digits := if hex[0] == PLUS then hex[1..] else hex;
      forall i | 0 <= i < |digits|
        ensures HexValue(digits[i]).Some?
      {
        HexNumberNeedsDigits(digits, i);
      }
      assert hex[3] == digits[|digits| - 1] && hex[2] == digits[|digits| - 2] && hex[1] == digits[|digits| - 3];
      var d0 := if hex[0] == PLUS then 0 else HexValue(hex[0]).value;
      var d1, d2, d3 := HexValue(hex[1]).value, HexValue(hex[2]).value, HexValue(hex[3]).value;
      assert AreDigits(hex, d0, d1, d2, d3);
      NumberOfDigits(hex, d0, d1, d2, d3);
    }
    if SpellsCode(c, hex) {
      var d0: nat, d1: nat, d2: nat, d3: nat :|
        AreDigits(hex, d0, d1, d2, d3) && c as int == ((d0 * 16 + d1) * 16 + d2) * 16 + d3;
      NumberOfDigits(hex, d0, d1, d2, d3);
    }
  }

  lemma NumberOfDigits(hex: bytes, d0: nat, d1: nat, d2: nat, d3: nat)
    requires AreDigits(hex, d0, d1, d2, d3)
    ensures HexNumber(if hex[0] == PLUS then hex[1..] else hex) == Some(((d0 * 16 + d1) * 16 + d2) * 16 + d3)
  {
    if hex[0] == PLUS {
      assert hex[1..] == [hex[1], hex[2], hex[3]];
      HexNumberOfThree(hex[1], hex[2], hex[3]);
    } else {
      assert hex == [hex[0], hex[1], hex[2], hex[3]];
      HexNumberOfFour(hex[0], hex[1], hex[2], hex[3]);
    }
  }

  lemma EncodeCharIsPlain(c: char)
    ensures c != '"' && c != '\\' <==> QUOTE !in EncodeChar(c) && BACKSLASH !in EncodeChar(c)
  {
    assert c == '"' || c == '\\' ==> EncodeChar(c)[0] == c as int;
  }

  lemma DecodeThen(c: char, bs: bytes)
    requires Utf8.Decode(bs).Some?
    ensures Utf8.Decode(EncodeChar(c) + bs) == Some([c] + Utf8.Decode(bs).value)
  {
    var s := [c] + Utf8.Decode(bs).value;
    assert s[1..] == Utf8.Decode(bs).value;
    DecodeEncode(s);
  }

  lemma PartThen(c: char, bs: bytes)
    requires c != '"' && c != '\\' && ParsePart(bs).Success?
    ensures var ((part, more), rest) := ParsePart(bs).value;
      ParsePart(EncodeChar(c) + bs) == Success((([c] + part, more), rest))
  {
    EncodeCharIsPlain(c);
    hide EncodeChar, Utf8.Decode, ParseEscape;
    var e, n := EncodeChar(c), PlainRun(bs);
    PlainRunAppend(e, bs);
    InFront(e, bs, n);
    DecodeThen(c, bs[..n]);
    if bs[n] != QUOTE {
      Associative([c], Utf8.Decode(bs[..n]).value, [ParseEscape(bs[n + 1..]).value.0]);
    }
  }

  lemma InFront(e: bytes, bs: bytes, n: nat)
    requires n <= |bs|
    ensures (e + bs)[..|e| + n] == e + bs[..n]
    ensures n < |bs| ==> (e + bs)[|e| + n] == bs[n] && (e + bs)[|e| + n + 1..] == bs[n + 1..]
  {}

  /** A string with one more character in front of it, as it is, */
  lemma PlainThen(c: char, bs: bytes, s: string, rest: bytes)
    requires c != '"' && c != '\\' && ParseStringBody(bs) == Success((s, rest))
    ensures ParseStringBody(EncodeChar(c) + bs) == Success(([c] + s, rest))
  {
    PartThen(c, bs);
    hide EncodeChar, ParsePart;
    var ((part, more), after) := ParsePart(bs).value;
    if more {
      Associative([c], part, ParseStringBody(after).value.0);
    }
  }

  /** or as an escape. */
  lemma EscapeThen(c: char, e: bytes, bs: bytes, s: string, rest: bytes)
    requires ParseEscape(e + bs) == Success((c, bs)) && ParseStringBody(bs) == Success((s, rest))
    ensures ParseStringBody([BACKSLASH] + e + bs) == Success(([c] + s, rest))
  {
    var all := [BACKSLASH] + e + bs;
    assert all[1..] == e + bs && all[..0] == [];
    assert ParsePart(all) == Success((([] + [c], true), bs));
    assert [] + [c] == [c];
  }

  lemma EscapeIs(c: char, e: bytes, bs: bytes)
    requires SpellsChar(c, e) && e != [] && e[0] == BACKSLASH
    ensures e == [BACKSLASH] + e[1..] && ParseEscape(e[1..] + bs) == Success((c, bs))
  {
    var all := e[1..] + bs;
    if |e| == 6 && e[..2] == [BACKSLASH, LETTER_U] && SpellsCode(c, e[2..]) {
      assert all[0] == e[..2][1] && all[1..5] == e[2..] && all[5..] == bs;
      CodeIs(c, e[2..]);
    } else if c != '"' && c != '\\' && e == EncodeChar(c) {
      EncodeCharIsPlain(c);
      assert false;
    } else {
      assert all[1..] == bs;
    }
  }

  /** However its characters are spelled, a string is read as its text. */
  lemma {:induction false} ReadText(s: string, bs: bytes, rest: bytes)
    requires SpellsText(s, bs)
    ensures ParseStringBody(bs + ([QUOTE] + rest)) == Success((s, rest))
    decreases |s|
  {
    hide ParseStringBody, ParseEscape, EncodeChar;
    if s == [] {
      assert bs + ([QUOTE] + rest) == [QUOTE] + rest;
      NoText(rest);
    } else {
      var first, more :| bs == first + more && SpellsChar(s[0], first) && SpellsText(s[1..], more);
      var tail := more + ([QUOTE] + rest);
      ReadText(s[1..], more, rest);
      assert s == [s[0]] + s[1..];
      Associative(first, more, [QUOTE] + rest);
      if s[0] != '"' && s[0] != '\\' && first == EncodeChar(s[0]) {
        PlainThen(s[0], tail, s[1..], rest);
      } else {
        assert first[0] == BACKSLASH by {
          assert |first| == 6 ==> first[0] == first[..2][0];
        }
        EscapeIs(s[0], first, tail);
        EscapeThen(s[0], first[1..], tail, s[1..], rest);
      }
    }
  }

  lemma NoText(rest: bytes)
    ensures ParseStringBody([QUOTE] + rest) == Success(([], rest))
  {
    var bs := [QUOTE] + rest;
    assert bs[1..] == rest && bs[..0] == [];
  }

  lemma {:induction false} SpellsPlain(s: string, bs: bytes)
    requires Encode(s) == bs && QUOTE !in bs && BACKSLASH !in bs
    ensures SpellsText(s, bs)
    decreases |s|
  {
    hide EncodeChar;
    if s != [] {
      var first, more := EncodeChar(s[0]), Encode(s[1..]);
      EncodeCharIsPlain(s[0]);
      assert forall b <- first :: b in bs;
      assert forall b <- more :: b in bs;
      SpellsPlain(s[1..], more);
      assert SpellsChar(s[0], first);
    }
  }

  lemma {:induction false} SpellsAppend(s: string, bs: bytes, t: string, more: bytes)
    requires SpellsText(s, bs) && SpellsText(t, more)
    ensures SpellsText(s + t, bs + more)
    decreases |s|
  {
    hide SpellsChar;
    if s == [] {
      assert s + t == t && bs + more == more;
    } else {
      var first, tail :| bs == first + tail && SpellsChar(s[0], first) && SpellsText(s[1..], tail);
      SpellsAppend(s[1..], tail, t, more);
      assert (s + t)[1..] == s[1..] + t;
      Associative(first, tail, more);
    }
  }

  lemma SpellsOne(c: char, e: bytes)
    requires SpellsChar(c, e)
    ensures SpellsText([c], e)
  {
    hide SpellsChar;
    assert [c][1..] == [] && SpellsText([], []) && e == e + [];
  }

  /** What is read as an escape is an escape of the character. */
  lemma EscapeSpells(bs: bytes, c: char, rest: bytes) returns (e: bytes)
    requires ParseEscape(bs) == Success((c, rest))
    ensures bs == e + rest && SpellsChar(c, [BACKSLASH] + e)
  {
    if bs[0] == LETTER_U {
      e := bs[..5];
      var all := [BACKSLASH] + e;
      assert all[2..] == bs[1..5] && all[..2] == [BACKSLASH, LETTER_U];
      CodeIs(c, bs[1..5]);
    } else {
      e := bs[..1];
      assert [BACKSLASH] + e == [BACKSLASH, bs[0]];
    }
  }

  lemma {:induction false} PlainRunIsPlain(bs: bytes)
    ensures QUOTE !in bs[..PlainRun(bs)] && BACKSLASH !in bs[..PlainRun(bs)]
    ensures PlainRun(bs) < |bs| ==> bs[PlainRun(bs)] == QUOTE || bs[PlainRun(bs)] == BACKSLASH
  {
    if bs != [] && bs[0] != QUOTE && bs[0] != BACKSLASH {
      PlainRunIsPlain(bs[1..]);
      assert bs[..PlainRun(bs)] == [bs[0]] + bs[1..][..PlainRun(bs[1..])];
    }
  }

  lemma CutAt(bs: bytes, n: nat)
    requires n < |bs|
    ensures bs == bs[..n] + ([bs[n]] + bs[n + 1..])
  {}

  lemma PartIsSpelled(bs: bytes, part: string, more: bool, rest: bytes) returns (piece: bytes)
    requires ParsePart(bs) == Success(((part, more), rest))
    ensures bs == piece + (if more then rest else [QUOTE] + rest) && SpellsText(part, piece)
  {
    hide SpellsText, ParseEscape, SpellsChar, Utf8.Decode;
    var n := PlainRun(bs);
    var plain := Utf8.Decode(bs[..n]).value;
    PlainRunIsPlain(bs);
    SpellsPlain(plain, bs[..n]);
    CutAt(bs, n);
    if bs[n] == QUOTE {
      piece := bs[..n];
    } else {
      var (c, after) := ParseEscape(bs[n + 1..]).value;
      var e := EscapeSpells(bs[n + 1..], c, after);
      SpellsOne(c, [BACKSLASH] + e);
      SpellsAppend(plain, bs[..n], [c], [BACKSLASH] + e);
      piece := bs[..n] + ([BACKSLASH] + e);
      Associative([BACKSLASH], e, after);
      Associative(bs[..n], [BACKSLASH] + e, after);
    }
  }

  /** What is read as a string spells its text, up to the closing quote. */
  lemma {:induction false} TextIsSpelled(bs: bytes, s: string, rest: bytes) returns (body: bytes)
    requires ParseStringBody(bs) == Success((s, rest))
    ensures bs == body + ([QUOTE] + rest) && SpellsText(s, body)
    decreases |bs|
  {
    hide SpellsText, ParsePart;
    var ((part, more), after) := ParsePart(bs).value;
    var piece := PartIsSpelled(bs, part, more, after);
    if more {
      var t := ParseStringBody(after).value.0;
      var tail := TextIsSpelled(after, t, rest);
      SpellsAppend(part, piece, t, tail);
      body := piece + tail;
      Associative(piece, tail, [QUOTE] + rest);
    } else {
      body := piece;
    }
  }

  // ---------- Values ----------

  /** What follows a value with whitespace around it. */
  predicate EndsPadded(rest: bytes) {
    rest == [] || (!IsBlank(rest[0]) && !IsDigit(rest[0]))
  }

  lemma ReadNumber(n: u64, bs: bytes, rest: bytes)
    requires bs != [] && (forall d <- bs :: IsDigit(d)) && DigitsValue(bs) == n && EndsNumber(rest)
    ensures IsDigit(bs[0]) && ParseNumber(bs + rest) == Success((n, rest))
  {
    assert bs[0] in bs;
    DigitRunAppend(bs, rest);
    assert (bs + rest)[..|bs|] == bs && (bs + rest)[|bs|..] == rest;
  }

  /** The first byte of a value. */
  lemma SpelledStarts(v: Value, bs: bytes)
    requires Spells(v, bs)
    ensures bs != [] && !IsBlank(bs[0]) && bs[0] !in {CLOSE_BRACKET, CLOSE_BRACE, COMMA, COLON}
    ensures v.Array? <==> bs[0] == OPEN_BRACKET
    ensures v.Object? <==> bs[0] == OPEN_BRACE
    ensures v.String? <==> bs[0] == QUOTE
    ensures v.Number? <==> IsDigit(bs[0])
  {
    if v.Number? {
      assert bs[0] in bs;
    }
  }

  lemma ParseSkips(a: bytes, bs: bytes)
    requires Blank(a) && bs != [] && !IsBlank(bs[0])
    ensures ParseValue(a + bs) == ParseValue(bs)
  {
    SkipBlank(a, bs);
    SkipBlank([], bs);
    assert [] + bs == bs;
  }

  lemma ParseHere(t: bytes)
    requires t != [] && !IsBlank(t[0])
    ensures SkipWhitespace(t) == t
  {}

  /** Keywords, numbers and strings, */
  lemma ReadScalar(v: Value, bs: bytes, rest: bytes)
    requires Spells(v, bs) && !v.Array? && !v.Object? && (v.Number? ==> EndsNumber(rest))
    ensures ParseValue(bs + rest) == Success((v, rest))
  {
    hide ParseStringBody, SpellsText, ParseNumber, ParseArray, ParseObject, SkipWhitespace;
    SpelledStarts(v, bs);
    ParseHere(bs + rest);
    match v
    case Null => assert (bs + rest)[|NULL|..] == rest;
    case Bool(b) => assert (bs + rest)[|bs|..] == rest;
    case Number(n) => ReadNumber(n, bs, rest);
    case String(s) =>
      var body :| bs == Quoted(body) && SpellsText(s, body);
      assert (bs + rest)[1..] == body + ([QUOTE] + rest);
      ReadText(s, body, rest);
  }

  /** and what an opening bracket says is read. */
  lemma ParseBracket(t: bytes)
    requires t != [] && (t[0] == OPEN_BRACKET || t[0] == OPEN_BRACE)
    ensures ParseValue(t) == if t[0] == OPEN_BRACKET then ParseArray(t) else ParseObject(t)
  {
    hide ParseArray, ParseObject, SkipWhitespace, ParseStringBody, ParseNumber;
    ParseHere(t);
  }

  lemma BetweenBrackets(open: byte, inner: bytes, close: byte, rest: bytes)
    ensures var t := [open] + inner + [close] + rest; t != [] && t[0] == open && t[1..] == inner + ([close] + rest)
  {}

  /** However a value is spelled, it is read as that value, unless a number runs on into further digits. */
  lemma {:induction false} ReadValue(v: Value, bs: bytes, rest: bytes)
    requires Spells(v, bs) && (v.Number? ==> EndsNumber(rest))
    ensures ParseValue(bs + rest) == Success((v, rest))
    decreases v, 0
  {
    hide ParseValue, ParseArray, ParseObject, SpellsItems, SpellsFields;
    if v.Array? {
      var inner :| bs == [OPEN_BRACKET] + inner + [CLOSE_BRACKET] && SpellsItems(v.items, inner);
      BetweenBrackets(OPEN_BRACKET, inner, CLOSE_BRACKET, rest);
      ReadArray(v.items, inner, bs + rest, rest);
      ParseBracket(bs + rest);
    } else if v.Object? {
      var inner :| bs == [OPEN_BRACE] + inner + [CLOSE_BRACE] && SpellsFields(v.fields, inner);
      BetweenBrackets(OPEN_BRACE, inner, CLOSE_BRACE, rest);
      ReadObject(v.fields, inner, bs + rest, rest);
      ParseBracket(bs + rest);
    } else {
      ReadScalar(v, bs, rest);
    }
  }

  lemma {:induction false} ReadPadded(v: Value, bs: bytes, rest: bytes)
    requires SpellsPadded(v, bs) && EndsPadded(rest)
    ensures var r := ParseValue(bs + rest); r.Success? && r.value.0 == v && SkipWhitespace(r.value.1) == rest
    ensures SkipWhitespace(bs + rest) != [] && SkipWhitespace(bs + rest)[0] !in {CLOSE_BRACKET, CLOSE_BRACE}
    decreases v, 1
  {
    hide ParseValue, Spells;
    var a, t, b :| bs == a + t + b && Blank(a) && Spells(v, t) && Blank(b);
    SpelledStarts(v, t);
    JoinInward(a, t, b, [], rest);
    assert bs + rest == a + (t + (b + rest));
    ParseSkips(a, t + (b + rest));
    SkipBlank(a, t + (b + rest));
    assert EndsNumber(b + rest);
    ReadValue(v, t, b + rest);
    SkipBlank(b, rest);
  }

  /** The list reads the same without the whitespace in front of it. */
  lemma ItemsSkip(bs: bytes)
    ensures ParseItems(SkipWhitespace(bs)) == ParseItems(bs)
  {
    SkipAgain(bs);
    assert ParseValue(SkipWhitespace(bs)) == ParseValue(bs);
    hide ParseValue, SkipWhitespace;
  }

  lemma CommaParts(first: bytes, more: bytes, rest: bytes)
    ensures first + [COMMA] + more + rest == first + ([COMMA] + (more + rest))
    ensures ([COMMA] + (more + rest))[1..] == more + rest
  {}

  lemma {:induction false} ReadArray(items: seq<Value>, inner: bytes, t: bytes, rest: bytes)
    requires SpellsItems(items, inner) && t != [] && t[1..] == inner + ([CLOSE_BRACKET] + rest)
    ensures ParseArray(t) == Success((Array(items), rest))
    decreases items, 1
  {
    hide ParseValue, ParseItems, SpellsPadded;
    var end := [CLOSE_BRACKET] + rest;
    assert end[1..] == rest;
    if items == [] {
      SkipBlank(inner, end);
    } else {
      ReadItems(items, inner, rest);
      ItemsSkip(t[1..]);
    }
  }

  lemma {:induction false} ReadItems(items: seq<Value>, bs: bytes, rest: bytes)
    requires items != [] && SpellsItems(items, bs)
    ensures ParseItems(bs + ([CLOSE_BRACKET] + rest)) == Success((items, rest))
    ensures !Starts(SkipWhitespace(bs + ([CLOSE_BRACKET] + rest)), CLOSE_BRACKET)
    decreases items, 0
  {
    hide ParseValue, SpellsPadded;
    if |items| == 1 {
      var end := [CLOSE_BRACKET] + rest;
      ReadPadded(items[0], bs, end);
      assert end[1..] == rest && items == [items[0]];
    } else {
      var first, more :| bs == first + [COMMA] + more && SpellsPadded(items[0], first) && SpellsItems(items[1..], more);
      var end := [COMMA] + (more + ([CLOSE_BRACKET] + rest));
      CommaParts(first, more, [CLOSE_BRACKET] + rest);
      ReadPadded(items[0], first, end);
      ReadItems(items[1..], more, rest);
      assert items == [items[0]] + items[1..];
    }
  }

  lemma QuotedStarts(body: bytes, rest: bytes)
    ensures var t := Quoted(body) + rest; t != [] && t[0] == QUOTE && t[1..] == body + ([QUOTE] + rest)
  {}

  lemma ReadKey(key: string, bs: bytes, rest: bytes)
    requires SpellsKey(key, bs)
    ensures ParseKey(bs + ([COLON] + rest)) == Success((key, rest))
    ensures Starts(SkipWhitespace(bs + ([COLON] + rest)), QUOTE)
  {
    hide ParseStringBody, SpellsText, SkipWhitespace, Quoted;
    var a, body, b :| bs == a + Quoted(body) + b && Blank(a) && SpellsText(key, body) && Blank(b);
    var end := [COLON] + rest;
    var t := Quoted(body) + (b + end);
    JoinThree(a, Quoted(body), b, end);
    QuotedStarts(body, b + end);
    SkipBlank(a, t);
    ReadText(key, body, b + end);
    SkipBlank(b, end);
    assert end[1..] == rest;
  }

  lemma JoinThree(a: bytes, b: bytes, c: bytes, rest: bytes)
    ensures a + b + c + rest == a + (b + (c + rest))
  {}

  lemma {:induction false} ReadField(field: (string, Value), bs: bytes, rest: bytes)
    requires SpellsField(field, bs) && EndsPadded(rest)
    ensures var r := ParseField(bs + rest); r.Success? && r.value.0 == field && SkipWhitespace(r.value.1) == rest
    ensures Starts(SkipWhitespace(bs + rest), QUOTE)
    decreases field, 0
  {
    hide ParseKey, ParseValue, SpellsKey, SpellsPadded, SkipWhitespace;
    var key, value :| bs == key + [COLON] + value && SpellsKey(field.0, key) && SpellsPadded(field.1, value);
    assert bs + rest == key + ([COLON] + (value + rest));
    ReadKey(field.0, key, value + rest);
    ReadPadded(field.1, value, rest);
  }

  lemma {:induction false} ReadObject(fields: seq<(string, Value)>, inner: bytes, t: bytes, rest: bytes)
    requires SpellsFields(fields, inner) && t != [] && t[1..] == inner + ([CLOSE_BRACE] + rest)
    ensures ParseObject(t) == Success((Object(fields), rest))
    decreases fields, 1
  {
    hide ParseFields, SpellsField;
    var end := [CLOSE_BRACE] + rest;
    assert end[1..] == rest;
    if fields == [] {
      SkipBlank(inner, end);
    } else {
      ReadFields(fields, inner, rest);
      FieldsSkip(t[1..]);
    }
  }

  lemma FieldsSkip(bs: bytes)
    ensures ParseFields(SkipWhitespace(bs)) == ParseFields(bs)
  {
    SkipAgain(bs);
    assert ParseKey(SkipWhitespace(bs)) == ParseKey(bs);
    hide ParseKey, SkipWhitespace;
    assert ParseField(SkipWhitespace(bs)) == ParseField(bs);
  }

  lemma {:induction false} ReadFields(fields: seq<(string, Value)>, bs: bytes, rest: bytes)
    requires fields != [] && SpellsFields(fields, bs)
    ensures ParseFields(bs + ([CLOSE_BRACE] + rest)) == Success((fields, rest))
    ensures Starts(SkipWhitespace(bs + ([CLOSE_BRACE] + rest)), QUOTE)
    decreases fields, 0
  {
    hide ParseField, SpellsField;
    if |fields| == 1 {
      var end := [CLOSE_BRACE] + rest;
      ReadField(fields[0], bs, end);
      assert end[1..] == rest && fields == [fields[0]];
    } else {
      var first, more :| bs == first + [COMMA] + more && SpellsField(fields[0], first) && SpellsFields(fields[1..], more);
      var end := [COMMA] + (more + ([CLOSE_BRACE] + rest));
      CommaParts(first, more, [CLOSE_BRACE] + rest);
      ReadField(fields[0], first, end);
      ReadFields(fields[1..], more, rest);
      assert fields == [fields[0]] + fields[1..];
    }
  }

  // ---------- What is read is spelled ----------

  lemma KeywordIsSpelled(t: bytes, keyword: bytes, name: string, v: Value)
    requires keyword != [] && ParseKeyword(t, keyword, name, v).Success?
    ensures ParseKeyword(t, keyword, name, v).value.0 == v && t == keyword + ParseKeyword(t, keyword, name, v).value.1
  {}

  lemma NumberIsSpelled(t: bytes, n: u64, rest: bytes) returns (digits: bytes)
    requires t != [] && IsDigit(t[0]) && ParseNumber(t) == Success((n, rest))
    ensures t == digits + rest && Spells(Number(n), digits)
  {
    DigitRunDigits(t);
    digits := t[..DigitRun(t)];
  }

  lemma StringIsSpelled(t: bytes, s: string, rest: bytes) returns (piece: bytes)
    requires Starts(t, QUOTE) && ParseStringBody(t[1..]) == Success((s, rest))
    ensures t == piece + rest && Spells(String(s), piece)
  {
    hide ParseStringBody, SpellsText;
    var body := TextIsSpelled(t[1..], s, rest);
    piece := Quoted(body);
    assert t == [QUOTE] + t[1..];
  }

  /** The first byte tells what is read. */
  lemma ScalarIsSpelled(t: bytes, v: Value, rest: bytes) returns (piece: bytes)
    requires t != [] && !IsBlank(t[0]) && t[0] != OPEN_BRACKET && t[0] != OPEN_BRACE && ParseValue(t) == Success((v, rest))
    ensures t == piece + rest && Spells(v, piece)
  {
    hide ParseStringBody, SpellsText, ParseNumber, ParseArray, ParseObject, SkipWhitespace, ParseKeyword;
    ParseHere(t);
    if t[0] == LETTER_N {
      KeywordIsSpelled(t, NULL, "null", Null);
      piece := NULL;
    } else if t[0] == LETTER_T {
      KeywordIsSpelled(t, TRUE, "true", Bool(true));
      piece := TRUE;
    } else if t[0] == LETTER_F {
      KeywordIsSpelled(t, FALSE, "false", Bool(false));
      piece := FALSE;
    } else if IsDigit(t[0]) {
      piece := NumberIsSpelled(t, v.number, rest);
    } else {
      piece := StringIsSpelled(t, v.text, rest);
    }
  }

  /** What is read as a value spells it, behind some whitespace. */
  lemma {:induction false} ValueIsSpelled(bs: bytes, v: Value, rest: bytes) returns (a: bytes, piece: bytes)
    requires ParseValue(bs) == Success((v, rest))
    ensures bs == a + (piece + rest) && Blank(a) && Spells(v, piece)
    decreases |bs|, 1
  {
    hide ParseArray, ParseObject, SpellsItems, SpellsFields;
    a := Skipped(bs);
    var t := SkipWhitespace(bs);
    ParseSkips(a, t);
    hide SkipWhitespace, ParseValue;
    if t[0] == OPEN_BRACKET {
      ParseBracket(t);
      var inner := ArrayIsSpelled(t, v, rest);
      piece := [OPEN_BRACKET] + inner + [CLOSE_BRACKET];
    } else if t[0] == OPEN_BRACE {
      ParseBracket(t);
      var inner := ObjectIsSpelled(t, v, rest);
      piece := [OPEN_BRACE] + inner + [CLOSE_BRACE];
    } else {
      piece := ScalarIsSpelled(t, v, rest);
    }
  }

  lemma {:induction false} PaddedIsSpelled(bs: bytes, v: Value, rest: bytes) returns (piece: bytes)
    requires ParseValue(bs) == Success((v, rest))
    ensures bs == piece + SkipWhitespace(rest) && SpellsPadded(v, piece)
    decreases |bs|, 2
  {
    hide ParseValue, Spells;
    var a, t := ValueIsSpelled(bs, v, rest);
    var b := Skipped(rest);
    piece := a + t + b;
    assert bs == a + (t + (b + SkipWhitespace(rest)));
    assert a + t + b + SkipWhitespace(rest) == a + (t + (b + SkipWhitespace(rest)));
  }

  lemma {:induction false} ArrayIsSpelled(t: bytes, v: Value, rest: bytes) returns (inner: bytes)
    requires Starts(t, OPEN_BRACKET) && ParseArray(t) == Success((v, rest))
    ensures v.Array? && t == [OPEN_BRACKET] + inner + [CLOSE_BRACKET] + rest && SpellsItems(v.items, inner)
    decreases |t|, 0
  {
    hide ParseItems, SkipWhitespace;
    var next := SkipWhitespace(t[1..]);
    if Starts(next, CLOSE_BRACKET) {
      inner := Skipped(t[1..]);
      assert next == [CLOSE_BRACKET] + rest;
    } else {
      ItemsSkip(t[1..]);
      inner := ItemsAreSpelled(t[1..], v.items, rest);
    }
    hide *;
    assert t[1..] == inner + ([CLOSE_BRACKET] + rest) && t == [OPEN_BRACKET] + t[1..];
  }

  lemma {:induction false} ItemsAreSpelled(bs: bytes, items: seq<Value>, rest: bytes) returns (inner: bytes)
    requires ParseItems(bs) == Success((items, rest))
    ensures items != [] && bs == inner + ([CLOSE_BRACKET] + rest) && SpellsItems(items, inner)
    decreases |bs|, 3
  {
    hide ParseValue, SkipWhitespace, SpellsPadded;
    var (item, after) := ParseValue(bs).value;
    var piece := PaddedIsSpelled(bs, item, after);
    var next := SkipWhitespace(after);
    assert next == [next[0]] + next[1..];
    if Starts(next, CLOSE_BRACKET) {
      inner := piece;
    } else {
      var more := ItemsAreSpelled(next[1..], ParseItems(next[1..]).value.0, rest);
      inner := piece + [COMMA] + more;
      assert items[1..] == ParseItems(next[1..]).value.0;
      assert inner + ([CLOSE_BRACKET] + rest) == piece + ([COMMA] + (more + ([CLOSE_BRACKET] + rest)));
    }
  }

  lemma KeyIsSpelled(bs: bytes, key: string, rest: bytes) returns (piece: bytes)
    requires ParseKey(bs) == Success((key, rest))
    ensures bs == piece + ([COLON] + rest) && SpellsKey(key, piece)
  {
    hide ParseStringBody, SpellsText;
    var a := Skipped(bs);
    var t := SkipWhitespace(bs);
    var after := ParseStringBody(t[1..]).value.1;
    var body := TextIsSpelled(t[1..], key, after);
    var b := Skipped(after);
    var next := SkipWhitespace(after);
    hide SkipWhitespace;
    assert next == [COLON] + rest && t == [QUOTE] + t[1..];
    piece := a + Quoted(body) + b;
    KeyParts(a, body, b, [COLON] + rest);
  }

  lemma KeyParts(a: bytes, body: bytes, b: bytes, rest: bytes)
    ensures a + Quoted(body) + b + rest == a + ([QUOTE] + (body + ([QUOTE] + (b + rest))))
  {}

  lemma {:induction false} FieldIsSpelled(bs: bytes, field: (string, Value), rest: bytes) returns (piece: bytes)
    requires ParseField(bs) == Success((field, rest))
    ensures bs == piece + SkipWhitespace(rest) && SpellsField(field, piece)
    decreases |bs|, 3
  {
    hide ParseKey, ParseValue, SpellsKey, SpellsPadded, SkipWhitespace;
    var after := ParseKey(bs).value.1;
    var key := KeyIsSpelled(bs, field.0, after);
    var value := PaddedIsSpelled(after, field.1, rest);
    piece := key + [COLON] + value;
    assert piece + SkipWhitespace(rest) == key + ([COLON] + (value + SkipWhitespace(rest)));
  }

  lemma {:induction false} ObjectIsSpelled(t: bytes, v: Value, rest: bytes) returns (inner: bytes)
    requires Starts(t, OPEN_BRACE) && ParseObject(t) == Success((v, rest))
    ensures v.Object? && t == [OPEN_BRACE] + inner + [CLOSE_BRACE] + rest && SpellsFields(v.fields, inner)
    decreases |t|, 0
  {
    hide ParseFields, SkipWhitespace;
    var next := SkipWhitespace(t[1..]);
    if Starts(next, CLOSE_BRACE) {
      inner := Skipped(t[1..]);
      assert next == [CLOSE_BRACE] + rest;
    } else {
      FieldsSkip(t[1..]);
      inner := FieldsAreSpelled(t[1..], v.fields, rest);
    }
    hide *;
    assert t[1..] == inner + ([CLOSE_BRACE] + rest) && t == [OPEN_BRACE] + t[1..];
  }

  lemma {:induction false} FieldsAreSpelled(bs: bytes, fields: seq<(string, Value)>, rest: bytes) returns (inner: bytes)
    requires ParseFields(bs) == Success((fields, rest))
    ensures fields != [] && bs == inner + ([CLOSE_BRACE] + rest) && SpellsFields(fields, inner)
    decreases |bs|, 4
  {
    hide ParseField, SkipWhitespace, SpellsField;
    var (field, after) := ParseField(bs).value;
    var piece := FieldIsSpelled(bs, field, after);
    var next := SkipWhitespace(after);
    assert next == [next[0]] + next[1..];
    if Starts(next, CLOSE_BRACE) {
      inner := piece;
    } else {
      var more := FieldsAreSpelled(next[1..], ParseFields(next[1..]).value.0, rest);
      inner := piece + [COMMA] + more;
      assert fields[1..] == ParseFields(next[1..]).value.0;
      assert inner + ([CLOSE_BRACE] + rest) == piece + ([COMMA] + (more + ([CLOSE_BRACE] + rest)));
    }
  }

  // ---------- The main result ----------

  /** A text is read as a value exactly if it spells the value, whatever it is that the parser refuses besides. */
  lemma ReadsWhatIsSpelled(bs: bytes, v: Value)
    ensures FromText(bs) == Success(v) <==> SpellsPadded(v, bs)
  {
    hide ParseValue, SpellsPadded;
    assert bs + [] == bs;
    if SpellsPadded(v, bs) {
      ReadPadded(v, bs, []);
    }
    if FromText(bs) == Success(v) {
      var piece := PaddedIsSpelled(bs, v, ParseValue(bs).value.1);
      assert piece + [] == piece;
    }
  }
}
