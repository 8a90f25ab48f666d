/** The recursive-descent parser: it moves one position over the text, and reads what `Json` specifies. */
module JsonParser {
  import opened Integers
  import opened Wrappers
  import opened Json
  import opened JsonGrammar

  class Parser {
    const text: bytes
    var pos: nat

    constructor (text: bytes)
      ensures this.text == text && pos == 0
    {
      this.text := text;
      pos := 0;
    }

    ghost function Rest(): bytes
      reads this`pos
      requires pos <= |text|
    {
      text[pos..]
    }

    /** The parser did what `spec` says of the text from where it stood: it failed alike, or read the same and stands after it. */
    ghost predicate Did<T(!new)>(spec: Parsed<T>, r: Result<T>)
      reads this`pos
    {
      match spec
      case Failure(error) => r == Failure(error)
      case Success((v, rest)) => r == Success(v) && pos <= |text| && Rest() == rest
    }

    method SkipWhitespace()
      requires pos <= |text|
      modifies this`pos
      ensures old(pos) <= pos <= |text| && Rest() == Json.SkipWhitespace(old(Rest()))
    {
      while pos < |text| && IsWhitespace(text[pos])
        invariant old(pos) <= pos <= |text|
        invariant Json.SkipWhitespace(Rest()) == Json.SkipWhitespace(old(Rest()))
      {
        assert Rest()[1..] == text[pos + 1..];
        pos := pos + 1;
      }
    }

    /** Takes the byte; past the end there is none. */
    method Next() returns (b: Option<byte>)
      requires pos <= |text|
      modifies this`pos
      ensures pos == old(pos) + 1
      ensures b == if old(pos) < |text| then Some(text[old(pos)]) else None
      ensures b == if old(Rest()) != [] then Some(old(Rest())[0]) else None
      ensures b.Some? ==> pos <= |text| && Rest() == old(Rest())[1..]
    {
      b := if pos < |text| then Some(text[pos]) else None;
      pos := pos + 1;
    }

    method Keyword(keyword: bytes, name: string, v: Value) returns (r: Result<Value>)
      requires pos <= |text| && keyword != []
      modifies this`pos
      ensures Did(ParseKeyword(old(Rest()), keyword, name, v), r)
    {
      if !(keyword <= text[pos..]) {
        return Failure(name);
      }
      assert text[pos + |keyword|..] == Rest()[|keyword|..];
      pos := pos + |keyword|;
      r := Success(v);
    }

    method Number() returns (r: Result<u64>)
      requires pos < |text| && IsDigit(text[pos])
      modifies this`pos
      ensures Did(ParseNumber(old(Rest())), r)
    {
      var start := pos;
      while pos < |text| && IsDigit(text[pos])
        invariant start <= pos <= |text|
        invariant DigitRun(text[start..]) == pos - start + DigitRun(text[pos..])
      {
        assert text[pos..][1..] == text[pos + 1..];
        pos := pos + 1;
      }
      DigitRunDigits(text[start..]);
      assert text[start..pos] == text[start..][..pos - start];
      assert text[start..][pos - start..] == text[pos..];
      var n := DigitsValue(text[start..pos]);
      r := if n <= MAX_U64 then Success(n) else Failure("a number that fits 64 bits");
    }

    /** Reads what follows a backslash. */
    method Escape() returns (r: Result<char>)
      requires pos <= |text|
      modifies this`pos
      ensures Did(ParseEscape(old(Rest())), r)
    {
      ghost var start := pos;
      var b := Next();
      if b == Some(LETTER_U) {
        var hex := if pos + 4 <= |text| then Some(text[pos..pos + 4]) else None;
        assert hex.Some? ==> hex.value == text[start..][1..5] && text[start..][5..] == text[start + 5..];
        pos := pos + 4;
        r := if hex.None? || CharOfHex(hex.value).None? then Failure("a character code") else Success(CharOfHex(hex.value).value);
      } else {
        assert start < |text| ==> text[start..][1..] == text[start + 1..];
        r := match b
          case None => Failure("an escape")
          case Some(c) =>
            if c == QUOTE then Success('"')
            else if c == BACKSLASH then Success('\\')
            else if c == SLASH then Success('/')
            else if c == LETTER_N then Success('\n')
            else if c == LETTER_R then Success('\r')
            else if c == LETTER_T then Success('\t')
            else Failure("an escape");
      }
    }

    /** Moves to the first quote or backslash, or to the end. */
    method SkipPlain()
      requires pos <= |text|
      modifies this`pos
      ensures pos == old(pos) + PlainRun(old(Rest())) <= |text|
      ensures pos < |text| ==> text[pos] == QUOTE || text[pos] == BACKSLASH
    {
      while pos < |text| && text[pos] != QUOTE && text[pos] != BACKSLASH
        invariant old(pos) <= pos <= |text|
        invariant PlainRun(old(Rest())) == pos - old(pos) + PlainRun(Rest())
      {
        assert Rest()[1..] == text[pos + 1..];
        pos := pos + 1;
      }
    }

    method Part() returns (r: Result<(string, bool)>)
      requires pos <= |text|
      modifies this`pos
      ensures Did(ParsePart(old(Rest())), r)
    {
      hide Utf8.Decode, ParseEscape, PlainRun;
      var start := pos;
      SkipPlain();
      Slices(text, start, pos);
      ghost var from := old(Rest());
      assert from == text[start..] && pos - start == PlainRun(from);
      var plain := Utf8.Decode(text[start..pos]);
      if plain.None? {
        return Failure("UTF-8 text");
      }
      var b := Next();
      if b == Some(QUOTE) {
        r := Success((plain.value, false));
      } else if b == Some(BACKSLASH) {
        assert Rest() == from[PlainRun(from) + 1..];
        var c := Escape();
        r := if c.Failure? then Failure(c.error) else Success((plain.value + [c.value], true));
      } else {
        r := Failure("the end of the string");
      }
    }

    method String() returns (r: Result<string>)
      requires pos < |text|
      modifies this`pos
      ensures Did(ParseStringBody(old(text[pos + 1..])), r)
    {
      hide ParsePart;
      pos := pos + 1;
      var s, more := "", true;
      ghost var spec := ParseStringBody(Rest());
      After(s, spec);
      while more
        invariant pos <= |text|
        invariant if more then Following(s, ParseStringBody(Rest())) == spec else spec == Success((s, Rest()))
        decreases more, |text| - pos
      {
        ghost var from := Rest();
        var part := Part();
        if part.Failure? {
          return Failure(part.error);
        }
        FollowingPart(s, from);
        s, more := s + part.value.0, part.value.1;
      }
      r := Success(s);
    }

    method End() returns (r: Result<()>)
      requires pos <= |text|
      modifies this`pos
      ensures r == if Json.SkipWhitespace(old(Rest())) == [] then Success(()) else Failure("the end of the text")
    {
      SkipWhitespace();
      r := if pos == |text| then Success(()) else Failure("the end of the text");
    }

    method Value() returns (r: Result<Value>)
      requires pos <= |text|
      modifies this`pos
      ensures Did(ParseValue(old(Rest())), r)
      decreases |text| - pos, 2
    {
      hide ParseValue, ParseToken, Json.SkipWhitespace;
      ValueIsToken(Rest());
      SkipWhitespace();
      if pos == |text| {
        return Failure("a value");
      }
      r := Token();
    }

    /** The value that starts here. */
    method Token() returns (r: Result<Value>)
      requires pos < |text|
      modifies this`pos
      ensures Did(ParseToken(old(Rest())), r)
      decreases |text| - pos, 1
    {
      hide ParseKeyword, ParseNumber, ParseStringBody, ParseArray, ParseObject;
      var b := text[pos];
      Slices(text, pos, pos + 1);
      if b == LETTER_N {
        r := Keyword(NULL, "null", Null);
      } else if b == LETTER_T {
        r := Keyword(TRUE, "true", Bool(true));
      } else if b == LETTER_F {
        r := Keyword(FALSE, "false", Bool(false));
      } else if IsDigit(b) {
        var n := Number();
        r := if n.Failure? then Failure(n.error) else Success(Json.Number(n.value));
      } else if b == QUOTE {
        var s := String();
        r := if s.Failure? then Failure(s.error) else Success(Json.String(s.value));
      } else if b == OPEN_BRACKET {
        r := List();
      } else if b == OPEN_BRACE {
        r := Fields();
      } else {
        r := Failure("a value");
      }
    }

    /** `list` over values. */
    method List() returns (r: Result<Value>)
      requires pos < |text|
      modifies this`pos
      ensures Did(ParseArray(old(Rest())), r)
      decreases |text| - pos, 0
    {
      ArrayAfterBracket(Rest());
      hide ParseArray, ParseItems, Json.SkipWhitespace;
      Slices(text, pos, pos + 1);
      pos := pos + 1;
      SkipWhitespace();
      if pos < |text| && text[pos] == CLOSE_BRACKET {
        Slices(text, pos, pos + 1);
        pos := pos + 1;
        return Success(Array([]));
      }
      var items := Items();
      r := if items.Failure? then Failure(items.error) else Success(Array(items.value));
    }

    method Items() returns (r: Result<seq<Value>>)
      requires pos <= |text|
      modifies this`pos
      ensures Did(ParseItems(old(Rest())), r)
      decreases |text| - pos, 3
    {
      hide ParseValue, ParseItems, Json.SkipWhitespace, Following;
      var items: seq<Value> := [];
      ghost var spec := ParseItems(Rest());
      After(items, spec);
      while true
        invariant old(pos) <= pos <= |text|
        invariant Following(items, ParseItems(Rest())) == spec
        decreases |text| - pos
      {
        FollowingItem(items, Rest());
        var item := Value();
        if item.Failure? {
          return Failure(item.error);
        }
        SkipWhitespace();
        var b := Next();
        if b == Some(COMMA) {
          items := items + [item.value];
        } else if b == Some(CLOSE_BRACKET) {
          return Success(items + [item.value]);
        } else {
          return Failure(LIST_END);
        }
      }
    }

    method Field() returns (r: Result<(string, Value)>)
      requires pos <= |text|
      modifies this`pos
      ensures Did(ParseField(old(Rest())), r)
      decreases |text| - pos, 3
    {
      var key := Key();
      if key.Failure? {
        return Failure(key.error);
      }
      var v := Value();
      r := if v.Failure? then Failure(v.error) else Success((key.value, v.value));
    }

    method Key() returns (r: Result<string>)
      requires pos <= |text|
      modifies this`pos
      ensures Did(ParseKey(old(Rest())), r)
    {
      hide ParseStringBody, Json.SkipWhitespace;
      SkipWhitespace();
      if pos == |text| || text[pos] != QUOTE {
        return Failure("a key");
      }
      Slices(text, pos, pos + 1);
      r := String();
      if r.Failure? {
        return;
      }
      SkipWhitespace();
      Slices(text, pos, if pos < |text| then pos + 1 else pos);
      var b := Next();
      if b != Some(COLON) {
        r := Failure("`:`");
      }
    }

    /** `list` over fields. */
    method Fields() returns (r: Result<Value>)
      requires pos < |text|
      modifies this`pos
      ensures Did(ParseObject(old(Rest())), r)
      decreases |text| - pos, 0
    {
      ObjectAfterBrace(Rest());
      hide ParseObject, ParseFields, Json.SkipWhitespace;
      Slices(text, pos, pos + 1);
      pos := pos + 1;
      SkipWhitespace();
      if pos < |text| && text[pos] == CLOSE_BRACE {
        Slices(text, pos, pos + 1);
        pos := pos + 1;
        return Success(Object([]));
      }
      var fields := FieldsLeft();
      r := if fields.Failure? then Failure(fields.error) else Success(Object(fields.value));
    }

    method FieldsLeft() returns (r: Result<seq<(string, Value)>>)
      requires pos <= |text|
      modifies this`pos
      ensures Did(ParseFields(old(Rest())), r)
      decreases |text| - pos, 4
    {
      hide ParseField, ParseFields, Json.SkipWhitespace, Following;
      var fields: seq<(string, Value)> := [];
      ghost var spec := ParseFields(Rest());
      After(fields, spec);
      while true
        invariant old(pos) <= pos <= |text|
        invariant Following(fields, ParseFields(Rest())) == spec
        decreases |text| - pos
      {
        FollowingField(fields, Rest());
        var field := Field();
        if field.Failure? {
          return Failure(field.error);
        }
        SkipWhitespace();
        var b := Next();
        if b == Some(COMMA) {
          fields := fields + [field.value];
        } else if b == Some(CLOSE_BRACE) {
          return Success(fields + [field.value]);
        } else {
          return Failure(LIST_END);
        }
      }
    }
  }

  lemma Slices(text: bytes, start: nat, pos: nat)
    requires start <= pos <= |text|
    ensures text[start..][..pos - start] == text[start..pos] && text[start..][pos - start..] == text[pos..]
    ensures pos < |text| ==> text[start..][pos - start] == text[pos] && text[start..][pos - start + 1..] == text[pos + 1..]
  {}

  /** The loops of the parser come to what the recursive reading specifies: the value that the text spells, if it spells any. */
  method FromStr(text: bytes) returns (r: Result<Value>)
    ensures r == FromText(text)
    ensures forall v :: r == Success(v) <==> SpellsPadded(v, text)
  {
    forall v
      ensures FromText(text) == Success(v) <==> SpellsPadded(v, text)
    {
      ReadsWhatIsSpelled(text, v);
    }
    hide SpellsPadded;
    var parser := new Parser(text);
    assert text[0..] == text;
    r := parser.Value();
    if r.Success? {
      var end := parser.End();
      if end.Failure? {
        r := Failure(end.error);
      }
    }
  }

  /** What a value reads like from its first byte on. */
  ghost function ParseToken(t: bytes): Parsed<Value>
    requires t != []
  {
    if t[0] == LETTER_N then ParseKeyword(t, NULL, "null", Null)
    else if t[0] == LETTER_T then ParseKeyword(t, TRUE, "true", Bool(true))
    else if t[0] == LETTER_F then ParseKeyword(t, FALSE, "false", Bool(false))
    else if IsDigit(t[0]) then Named(ParseNumber(t), n => Json.Number(n))
    else if t[0] == QUOTE then Named(ParseStringBody(t[1..]), s => Json.String(s))
    else if t[0] == OPEN_BRACKET then ParseArray(t)
    else if t[0] == OPEN_BRACE then ParseObject(t)
    else Failure("a value")
  }

  ghost function Named<T>(parsed: Parsed<T>, name: T -> Value): Parsed<Value> {
    match parsed
    case Failure(error) => Failure(error)
    case Success((x, rest)) => Success((name(x), rest))
  }

  lemma ArrayAfterBracket(t: bytes)
    requires t != []
    ensures var inner := Json.SkipWhitespace(t[1..]);
      ParseArray(t) ==
        if Starts(inner, CLOSE_BRACKET) then Success((Array([]), inner[1..]))
        else Named(ParseItems(inner), items => Array(items))
  {}

  lemma ObjectAfterBrace(t: bytes)
    requires t != []
    ensures var inner := Json.SkipWhitespace(t[1..]);
      ParseObject(t) ==
        if Starts(inner, CLOSE_BRACE) then Success((Object([]), inner[1..]))
        else Named(ParseFields(inner), fields => Object(fields))
  {}

  lemma ValueIsToken(bs: bytes)
    ensures ParseValue(bs) ==
      if Json.SkipWhitespace(bs) == [] then Failure("a value") else ParseToken(Json.SkipWhitespace(bs))
  {}

  /** What the rest of a list or string adds to the part of it already read. */
  ghost function Following<T>(read: seq<T>, spec: Parsed<seq<T>>): Parsed<seq<T>> {
    match spec
    case Failure(error) => Failure(error)
    case Success((items, rest)) => Success((read + items, rest))
  }

  lemma After<T>(none: seq<T>, spec: Parsed<seq<T>>)
    requires none == []
    ensures Following(none, spec) == spec
  {
    if spec.Success? {
      assert none + spec.value.0 == spec.value.0;
    }
  }

  lemma FollowingItem(read: seq<Value>, from: bytes)
    ensures Following(read, ParseItems(from)) ==
      match ParseValue(from)
      case Failure(error) => Failure(error)
      case Success((item, rest)) =>
        var next := Json.SkipWhitespace(rest);
        if Starts(next, CLOSE_BRACKET) then Success((read + [item], next[1..]))
        else if Starts(next, COMMA) then Following(read + [item], ParseItems(next[1..]))
        else Failure(LIST_END)
  {
    if ParseValue(from).Success? {
      var (item, rest) := ParseValue(from).value;
      var next := Json.SkipWhitespace(rest);
      if Starts(next, COMMA) && ParseItems(next[1..]).Success? {
        var tail := ParseItems(next[1..]).value.0;
        assert read + [item] + tail == read + ([item] + tail);
      }
    }
  }

  lemma FollowingField(read: seq<(string, Value)>, from: bytes)
    ensures Following(read, ParseFields(from)) ==
      match ParseField(from)
      case Failure(error) => Failure(error)
      case Success((field, rest)) =>
        var next := Json.SkipWhitespace(rest);
        if Starts(next, CLOSE_BRACE) then Success((read + [field], next[1..]))
        else if Starts(next, COMMA) then Following(read + [field], ParseFields(next[1..]))
        else Failure(LIST_END)
  {
    if ParseField(from).Success? {
      var (field, rest) := ParseField(from).value;
      var next := Json.SkipWhitespace(rest);
      if Starts(next, COMMA) && ParseFields(next[1..]).Success? {
        var tail := ParseFields(next[1..]).value.0;
        assert read + [field] + tail == read + ([field] + tail);
      }
    }
  }

  lemma FollowingPart(read: string, from: bytes)
    requires ParsePart(from).Success?
    ensures var ((part, more), rest) := ParsePart(from).value;
      Following(read, ParseStringBody(from)) == if more then Following(read + part, ParseStringBody(rest)) else Success((read + part, rest))
  {
    var ((part, more), rest) := ParsePart(from).value;
    if more && ParseStringBody(rest).Success? {
      assert read + part + ParseStringBody(rest).value.0 == read + (part + ParseStringBody(rest).value.0);
    }
  }
}
