/** The UTF-8 encoding of Unicode scalar values (RFC 3629), which Rust's `char` and Dafny's `char` both range over. */
module Utf8 {
  import opened Integers
  import opened Wrappers

  function EncodeChar(c: char): (bs: bytes)
    ensures 1 <= |bs| <= 4
  {
    var n := c as int;
    if n < 0x80 then [n]
    else if n < 0x800 then [0xC0 + n / 64, 0x80 + n % 64]
    else if n < 0x1_0000 then [0xE0 + n / 64 / 64, 0x80 + n / 64 % 64, 0x80 + n % 64]
    else [0xF0 + n / 64 / 64 / 64, 0x80 + n / 64 / 64 % 64, 0x80 + n / 64 % 64, 0x80 + n % 64]
  }

  function Encode(s: string): (bs: bytes)
  {
    if s == [] then [] else EncodeChar(s[0]) + Encode(s[1..])
  }

  /** How many bytes the sequence that starts with `first` takes; continuation bytes start none. */
  function SequenceLength(first: byte): (n: nat)
    ensures n <= 4
  {
    if first < 0x80 then 1
    else if first < 0xC0 then 0
    else if first < 0xE0 then 2
    else if first < 0xF0 then 3
    else if first < 0xF8 then 4
    else 0
  }

  /** The number a sequence of the right length carries, before it is known to be well formed. */
  function CodePoint(bs: bytes): int
    requires 1 <= |bs| <= 4
  {
    var lead: int := bs[0];
    match |bs|
    case 1 => lead
    case 2 => (lead - 0xC0) * 64 + Continuation(bs, 1)
    case 3 => ((lead - 0xE0) * 64 + Continuation(bs, 1)) * 64 + Continuation(bs, 2)
    case _ => (((lead - 0xF0) * 64 + Continuation(bs, 1)) * 64 + Continuation(bs, 2)) * 64 + Continuation(bs, 3)
  }

  function Continuation(bs: bytes, i: nat): int
    requires i < |bs|
  {
    var continuation: int := bs[i];
    continuation - 0x80
  }

  predicate IsScalar(n: int) {
    0 <= n < 0xD800 || 0xE000 <= n < 0x11_0000
  }

  /** Decodes the first character, refusing overlong, truncated, surrogate and out-of-range sequences. */
  function DecodeChar(bs: bytes): (r: Option<char>)
    requires bs != []
    ensures r.Some? ==> EncodeChar(r.value) <= bs
  {
    var n := SequenceLength(bs[0]);
    if n == 0 || |bs| < n then None
    else
      var code := CodePoint(bs[..n]);
      if IsScalar(code) && EncodeChar(code as char) == bs[..n] then Some(code as char) else None
  }

  /** `std::str::from_utf8`: the text the bytes encode, if they encode one. */
  function Decode(bs: bytes): (r: Option<string>)
    ensures r.Some? ==> Encode(r.value) == bs
  {
    if bs == [] then Some([])
    else
      var first := DecodeChar(bs);
      if first.None? then None
      else
        var c := first.value;
        var rest := Decode(bs[|EncodeChar(c)|..]);
        if rest.None? then None
        else
          var s := [c] + rest.value;
          assert s[1..] == rest.value;
          Some(s)
  }

  lemma CodePointOfEncodeChar(c: char)
    ensures SequenceLength(EncodeChar(c)[0]) == |EncodeChar(c)|
    ensures CodePoint(EncodeChar(c)) == c as int
  {
    var n := c as int;
    var q := n / 64;
    var p := q / 64;
    assert n == q * 64 + n % 64 && q == p * 64 + q % 64 && p == p / 64 * 64 + p % 64;
  }

  lemma DecodeCharEncodeChar(c: char, rest: bytes)
    ensures DecodeChar(EncodeChar(c) + rest) == Some(c)
  {
    CodePointOfEncodeChar(c);
    var bs := EncodeChar(c) + rest;
    assert bs[..|EncodeChar(c)|] == EncodeChar(c);
  }

  lemma {:induction false} DecodeEncode(s: string)
    ensures Decode(Encode(s)) == Some(s)
  {
    if s != [] {
      DecodeCharEncodeChar(s[0], Encode(s[1..]));
      assert s == [s[0]] + s[1..];
      assert Encode(s)[|EncodeChar(s[0])|..] == Encode(s[1..]);
      DecodeEncode(s[1..]);
    }
  }

  lemma {:induction false} EncodeAppend(s: string, t: string)
    ensures Encode(s + t) == Encode(s) + Encode(t)
  {
    if s == [] {
      assert s + t == t;
    } else {
      assert (s + t)[1..] == s[1..] + t;
      EncodeAppend(s[1..], t);
    }
  }

  predicate IsUtf8(bs: bytes) {
    Decode(bs).Some?
  }

  /** UTF-8 texts join to UTF-8 text. */
  lemma IsUtf8Append(a: bytes, b: bytes)
    requires IsUtf8(a) && IsUtf8(b)
    ensures IsUtf8(a + b)
  {
    EncodeAppend(Decode(a).value, Decode(b).value);
    DecodeEncode(Decode(a).value + Decode(b).value);
  }
}
