/** The JSON the runtime writes and reads itself: what its writer prints, and what its parser accepts. */
module Json {
  import opened Integers
  import opened Wrappers
  import opened Utf8

  const MAX_U64: nat := 0xFFFF_FFFF_FFFF_FFFF

  /** What the parser can give, and the printer takes: numbers are natural numbers of 64 bits. */
  datatype Value =
    | Null
    | Bool(holds: bool)
    | Number(number: u64)
    | String(text: string)
    | Array(items: seq<Value>)
    | Object(fields: seq<(string, Value)>)

  const QUOTE: byte := 34
  const PLUS: byte := 43
  const COMMA: byte := 44
  const SLASH: byte := 47
  const ZERO: byte := 48
  const NINE: byte := 57
  const COLON: byte := 58
  const OPEN_BRACKET: byte := 91
  const BACKSLASH: byte := 92
  const CLOSE_BRACKET: byte := 93
  const OPEN_BRACE: byte := 123
  const CLOSE_BRACE: byte := 125
  const LETTER_F: byte := 102
  const LETTER_N: byte := 110
  const LETTER_R: byte := 114
  const LETTER_T: byte := 116
  const LETTER_U: byte := 117

  const NULL: bytes := [110, 117, 108, 108]
  const TRUE: bytes := [116, 114, 117, 101]
  const FALSE: bytes := [102, 97, 108, 115, 101]

  // ---------- Printing ----------

  predicate IsDigit(b: byte) {
    ZERO <= b <= NINE
  }

  function Digits(n: nat): (ds: bytes)
    ensures |ds| > 0
    ensures forall d <- ds :: IsDigit(d)
  {
    if n < 10 then [ZERO + n] else Digits(n / 10) + [ZERO + n % 10]
  }

  function HexDigit(d: nat): byte
    requires d < 16
  {
    if d < 10 then ZERO + d else 87 + d
  }

  /** The escape of a character that a JSON string cannot hold as it is, or its own UTF-8 bytes. */
  function EscapeChar(c: char): (bs: bytes)
    ensures |bs| > 0
  {
    if c == '"' then [BACKSLASH, QUOTE]
    else if c == '\\' then [BACKSLASH, BACKSLASH]
    else if c == '\n' then [BACKSLASH, LETTER_N]
    else if c == '\r' then [BACKSLASH, LETTER_R]
    else if c == '\t' then [BACKSLASH, LETTER_T]
    else if c < ' ' then [BACKSLASH, LETTER_U, ZERO, ZERO, HexDigit(c as int / 16), HexDigit(c as int % 16)]
    else EncodeChar(c)
  }

  function Escape(s: string): bytes {
    if s == [] then [] else EscapeChar(s[0]) + Escape(s[1..])
  }

  function PrintString(s: string): bytes {
    [QUOTE] + Escape(s) + [QUOTE]
  }

  /** The compact JSON of the value. */
  function Print(v: Value): bytes
    decreases v
  {
    match v
    case Null => NULL
    case Bool(b) => if b then TRUE else FALSE
    case Number(n) => Digits(n)
    case String(s) => PrintString(s)
    case Array(items) => [OPEN_BRACKET] + PrintItems(items) + [CLOSE_BRACKET]
    case Object(fields) => [OPEN_BRACE] + PrintFields(fields) + [CLOSE_BRACE]
  }

  function PrintItems(items: seq<Value>): bytes
    decreases items
  {
    if items == [] then []
    else if |items| == 1 then Print(items[0])
    else Print(items[0]) + [COMMA] + PrintItems(items[1..])
  }

  function PrintField(field: (string, Value)): bytes
    decreases field
  {
    PrintString(field.0) + [COLON] + Print(field.1)
  }

  function PrintFields(fields: seq<(string, Value)>): bytes
    decreases fields
  {
    if fields == [] then []
    else if |fields| == 1 then PrintField(fields[0])
    else PrintField(fields[0]) + [COMMA] + PrintFields(fields[1..])
  }

  // ---------- Parsing: what is read, and the bytes that follow it ----------

  type Parsed<T> = Result<(T, bytes)>

  predicate IsWhitespace(b: byte) {
    b == 32 || b == 9 || b == 10 || b == 13
  }

  function SkipWhitespace(bs: bytes): (rest: bytes)
    ensures |rest| <= |bs|
  {
    if bs != [] && IsWhitespace(bs[0]) then SkipWhitespace(bs[1..]) else bs
  }

  predicate Starts(bs: bytes, b: byte) {
    bs != [] && bs[0] == b
  }

  function ParseKeyword(bs: bytes, keyword: bytes, name: string, v: Value): (r: Parsed<Value>)
    requires keyword != []
    ensures r.Success? ==> |r.value.1| < |bs|
  {
    if keyword <= bs then Success((v, bs[|keyword|..])) else Failure(name)
  }

  function DigitRun(bs: bytes): (n: nat)
    ensures n <= |bs|
  {
    if bs != [] && IsDigit(bs[0]) then 1 + DigitRun(bs[1..]) else 0
  }

  function DigitsValue(ds: bytes): nat
    requires forall d <- ds :: IsDigit(d)
  {
    if ds == [] then 0
    else
      var last := ds[|ds| - 1];
      assert IsDigit(last);
      DigitsValue(ds[..|ds| - 1]) * 10 + (last - ZERO)
  }

  lemma DigitRunDigits(bs: bytes)
    ensures forall d <- bs[..DigitRun(bs)] :: IsDigit(d)
  {
    if bs != [] && IsDigit(bs[0]) {
      DigitRunDigits(bs[1..]);
      assert bs[..DigitRun(bs)] == [bs[0]] + bs[1..][..DigitRun(bs[1..])];
    }
  }

  function ParseNumber(bs: bytes): (r: Parsed<u64>)
    requires bs != [] && IsDigit(bs[0])
    ensures r.Success? ==> |r.value.1| < |bs|
  {
    DigitRunDigits(bs);
    var n := DigitsValue(bs[..DigitRun(bs)]);
    if n <= MAX_U64 then Success((n, bs[DigitRun(bs)..])) else Failure("a number that fits 64 bits")
  }

  /** How many bytes come before the first quote or backslash. */
  function PlainRun(bs: bytes): (n: nat)
    ensures n <= |bs|
  {
    if bs == [] || bs[0] == QUOTE || bs[0] == BACKSLASH then 0 else 1 + PlainRun(bs[1..])
  }

  function HexValue(b: byte): Option<nat> {
    if IsDigit(b) then Some(b - ZERO)
    else if 97 <= b <= 102 then Some(b - 87)
    else if 65 <= b <= 70 then Some(b - 55)
    else None
  }

  /** The number that the hexadecimal digits write. */
  function HexNumber(hex: bytes): Option<nat> {
    if hex == [] then Some(0)
    else
      var high := HexNumber(hex[..|hex| - 1]);
      var low := HexValue(hex[|hex| - 1]);
      if high.None? || low.None? then None else Some(high.value * 16 + low.value)
  }

  /** The character of a four-digit code. The library's number parser takes a plus sign for the first digit, too. */
  function CharOfHex(hex: bytes): Option<char>
    requires |hex| == 4
  {
    var code := HexNumber(if hex[0] == PLUS then hex[1..] else hex);
    if code.Some? && IsScalar(code.value) then Some(code.value as char) else None
  }

  /** Reads what follows a backslash. */
  function ParseEscape(bs: bytes): (r: Parsed<char>)
    ensures r.Success? ==> |r.value.1| < |bs|
  {
    if bs == [] then Failure("an escape")
    else if bs[0] == QUOTE then Success(('"', bs[1..]))
    else if bs[0] == BACKSLASH then Success(('\\', bs[1..]))
    else if bs[0] == SLASH then Success(('/', bs[1..]))
    else if bs[0] == LETTER_N then Success(('\n', bs[1..]))
    else if bs[0] == LETTER_R then Success(('\r', bs[1..]))
    else if bs[0] == LETTER_T then Success(('\t', bs[1..]))
    else if bs[0] == LETTER_U then
      if |bs| < 5 || CharOfHex(bs[1..5]).None? then Failure("a character code")
      else Success((CharOfHex(bs[1..5]).value, bs[5..]))
    else Failure("an escape")
  }

  /** Reads plain characters and the escape after them, or the quote that closes the string: then there is no more of it. */
  function ParsePart(bs: bytes): (r: Parsed<(string, bool)>)
    ensures r.Success? ==> |r.value.1| < |bs|
  {
    var n := PlainRun(bs);
    var plain := Utf8.Decode(bs[..n]);
    if plain.None? then Failure("UTF-8 text")
    else if n == |bs| then Failure("the end of the string")
    else if bs[n] == QUOTE then Success(((plain.value, false), bs[n + 1..]))
    else
      var (c, rest) :- ParseEscape(bs[n + 1..]);
      Success(((plain.value + [c], true), rest))
  }

  /** Reads a string from after its opening quote to after its closing one. */
  function ParseStringBody(bs: bytes): (r: Parsed<string>)
    ensures r.Success? ==> |r.value.1| < |bs|
    decreases |bs|
  {
    var ((part, more), rest) :- ParsePart(bs);
    if !more then Success((part, rest))
    else
      var (s, rest') :- ParseStringBody(rest);
      Success((part + s, rest'))
  }

  function ParseValue(bs: bytes): (r: Parsed<Value>)
    ensures r.Success? ==> |r.value.1| < |bs|
    decreases |bs|, 1
  {
    var t := SkipWhitespace(bs);
    if t == [] then Failure("a value")
    else if t[0] == LETTER_N then ParseKeyword(t, NULL, "null", Null)
    else if t[0] == LETTER_T then ParseKeyword(t, TRUE, "true", Bool(true))
    else if t[0] == LETTER_F then ParseKeyword(t, FALSE, "false", Bool(false))
    else if IsDigit(t[0]) then
      var (n, rest) :- ParseNumber(t);
      Success((Number(n), rest))
    else if t[0] == QUOTE then
      var (s, rest) :- ParseStringBody(t[1..]);
      Success((String(s), rest))
    else if t[0] == OPEN_BRACKET then ParseArray(t)
    else if t[0] == OPEN_BRACE then ParseObject(t)
    else Failure("a value")
  }

  function ParseArray(t: bytes): (r: Parsed<Value>)
    requires t != []
    ensures r.Success? ==> r.value.0.Array? && |r.value.1| < |t|
    decreases |t|, 0
  {
    var inner := SkipWhitespace(t[1..]);
    if Starts(inner, CLOSE_BRACKET) then Success((Array([]), inner[1..]))
    else
      var (items, rest) :- ParseItems(inner);
      Success((Array(items), rest))
  }

  function ParseObject(t: bytes): (r: Parsed<Value>)
    requires t != []
    ensures r.Success? ==> r.value.0.Object? && |r.value.1| < |t|
    decreases |t|, 0
  {
    var inner := SkipWhitespace(t[1..]);
    if Starts(inner, CLOSE_BRACE) then Success((Object([]), inner[1..]))
    else
      var (fields, rest) :- ParseFields(inner);
      Success((Object(fields), rest))
  }

  const LIST_END := "`,` or the end of the list"

  /** Reads the items that are left of an array, which are at least one, and its closing byte. */
  function ParseItems(bs: bytes): (r: Parsed<seq<Value>>)
    ensures r.Success? ==> |r.value.1| < |bs|
    decreases |bs|, 2
  {
    var (item, rest) :- ParseValue(bs);
    var next := SkipWhitespace(rest);
    if Starts(next, CLOSE_BRACKET) then Success(([item], next[1..]))
    else if !Starts(next, COMMA) then Failure(LIST_END)
    else
      var (items, rest') :- ParseItems(next[1..]);
      Success(([item] + items, rest'))
  }

  /** Reads a key and the colon after it. */
  function ParseKey(bs: bytes): (r: Parsed<string>)
    ensures r.Success? ==> |r.value.1| < |bs|
  {
    var t := SkipWhitespace(bs);
    if !Starts(t, QUOTE) then Failure("a key")
    else
      var (key, rest) :- ParseStringBody(t[1..]);
      var next := SkipWhitespace(rest);
      if Starts(next, COLON) then Success((key, next[1..])) else Failure("`:`")
  }

  function ParseField(bs: bytes): (r: Parsed<(string, Value)>)
    ensures r.Success? ==> |r.value.1| < |bs|
    decreases |bs|, 2
  {
    var (key, rest) :- ParseKey(bs);
    var (v, rest') :- ParseValue(rest);
    Success(((key, v), rest'))
  }

  function ParseFields(bs: bytes): (r: Parsed<seq<(string, Value)>>)
    ensures r.Success? ==> |r.value.1| < |bs|
    decreases |bs|, 3
  {
    var (field, rest) :- ParseField(bs);
    var next := SkipWhitespace(rest);
    if Starts(next, CLOSE_BRACE) then Success(([field], next[1..]))
    else if !Starts(next, COMMA) then Failure(LIST_END)
    else
      var (fields, rest') :- ParseFields(next[1..]);
      Success(([field] + fields, rest'))
  }

  /** One value, and nothing but whitespace behind it. */
  function FromText(bs: bytes): Result<Value> {
    var (v, rest) :- ParseValue(bs);
    if SkipWhitespace(rest) == [] then Success(v) else Failure("the end of the text")
  }
}
