/** UTF-8 (RFC 3629): the encoding of Unicode text and the decoder behind `str::from_utf8`. */
module Utf8 {
  import opened Wrappers
  import opened Bytes

  /** The encoding of one scalar value: section 3 of RFC 3629. */
  function EncodeChar(c: char): seq<byte>
  {
    var n := c as int;
    if n < 0x80 then [n]
    else if n < 0x800 then [0xC0 + n / 0x40, 0x80 + n % 0x40]
    else if n < 0x1_0000 then [0xE0 + n / 0x1000, 0x80 + n / 0x40 % 0x40, 0x80 + n % 0x40]
    else [0xF0 + n / 0x4_0000, 0x80 + n / 0x1000 % 0x40, 0x80 + n / 0x40 % 0x40, 0x80 + n % 0x40]
  }

  function Encode(s: string): seq<byte> {
    if s == [] then [] else EncodeChar(s[0]) + Encode(s[1..])
  }

  predicate IsContinuation(b: byte) { 0x80 <= b < 0xC0 }

  // The value carried by a sequence of two, three and four bytes.
  function Two(a: int, b: int): int { (a - 0xC0) * 0x40 + (b - 0x80) }
  function Three(a: int, b: int, c: int): int { (a - 0xE0) * 0x1000 + (b - 0x80) * 0x40 + (c - 0x80) }
  function Four(a: int, b: int, c: int, d: int): int {
    (a - 0xF0) * 0x4_0000 + (b - 0x80) * 0x1000 + (c - 0x80) * 0x40 + (d - 0x80)
  }

  /** The first character of a byte string and the number of bytes it takes; None if no well-formed sequence starts
      there. Over-long forms, surrogates and values above U+10FFFF are not well formed. */
  function DecodeChar(b: seq<byte>): (r: Option<(char, nat)>)
    ensures r.Some? ==> 1 <= r.value.1 <= |b| && r.value.1 <= 4
  {
    if |b| == 0 then None
    else if b[0] < 0x80 then Some((b[0] as char, 1))
    else if 0xC2 <= b[0] < 0xE0 then
      if |b| >= 2 && IsContinuation(b[1]) then Some((Two(b[0], b[1]) as char, 2)) else None
    else if 0xE0 <= b[0] < 0xF0 then
      if |b| >= 3 && IsContinuation(b[1]) && IsContinuation(b[2]) then
        var n := Three(b[0], b[1], b[2]);
        if n < 0x800 || 0xD800 <= n < 0xE000 then None else Some((n as char, 3))
      else None
    else if 0xF0 <= b[0] < 0xF5 then
      if |b| >= 4 && IsContinuation(b[1]) && IsContinuation(b[2]) && IsContinuation(b[3]) then
        var n := Four(b[0], b[1], b[2], b[3]);
        if n < 0x1_0000 || 0x11_0000 <= n then None else Some((n as char, 4))
      else None
    else None
  }

  /** `str::from_utf8`. */
  function Decode(b: seq<byte>): Option<string> {
    if b == [] then Some([])
    else
      match DecodeChar(b)
      case None => None
      case Some((c, n)) =>
        match Decode(b[n..])
        case None => None
        case Some(rest) => Some([c] + rest)
  }

  predicate IsUtf8(b: seq<byte>) {
    Decode(b).Some?
  }

  lemma JoinTwo(n: nat)
    ensures Two(0xC0 + n / 0x40, 0x80 + n % 0x40) == n
  {
  }

  lemma JoinThree(n: nat)
    ensures Three(0xE0 + n / 0x1000, 0x80 + n / 0x40 % 0x40, 0x80 + n % 0x40) == n
  {
    assert n / 0x1000 == n / 0x40 / 0x40;
  }

  lemma JoinFour(n: nat)
    ensures Four(0xF0 + n / 0x4_0000, 0x80 + n / 0x1000 % 0x40, 0x80 + n / 0x40 % 0x40, 0x80 + n % 0x40) == n
  {
    assert n / 0x1000 == n / 0x40 / 0x40 && n / 0x4_0000 == n / 0x1000 / 0x40;
  }

  lemma DecodeEncodedChar(c: char, rest: seq<byte>)
    ensures DecodeChar(EncodeChar(c) + rest) == Some((c, |EncodeChar(c)|))
  {
    var n := c as int;
    JoinTwo(n);
    JoinThree(n);
    JoinFour(n);
    hide Two, Three, Four;
    var e := EncodeChar(c);
    var b := e + rest;
    assert b[0] == e[0];
    if n >= 0x80 { assert b[1] == e[1]; }
    if n >= 0x800 { assert b[2] == e[2]; }
    if n >= 0x1_0000 { assert b[3] == e[3]; }
  }

  lemma SplitFour(a: int, b: int, c: int, d: int)
    requires 0x80 <= b < 0xC0 && 0x80 <= c < 0xC0 && 0x80 <= d < 0xC0
    ensures Four(a, b, c, d) / 0x4_0000 == a - 0xF0 && Four(a, b, c, d) / 0x1000 % 0x40 == b - 0x80
    ensures Four(a, b, c, d) / 0x40 % 0x40 == c - 0x80 && Four(a, b, c, d) % 0x40 == d - 0x80
  {
    var n, x, y, z := Four(a, b, c, d), b - 0x80, c - 0x80, d - 0x80;
    var high := (a - 0xF0) * 0x40 + x;
    assert n == high * 0x1000 + (y * 0x40 + z) == (high * 0x40 + y) * 0x40 + z;
    assert n == (a - 0xF0) * 0x4_0000 + (x * 0x1000 + y * 0x40 + z);
    hide Four;
    LowDigit(high * 0x40 + y, z);
    LowDigit(high, y);
    LowDigit(a - 0xF0, x);
    HighDigits(high, y * 0x40 + z);
    HighestDigit(a - 0xF0, x * 0x1000 + y * 0x40 + z);
  }

  lemma LowDigit(x: int, y: int)
    requires 0 <= y < 0x40
    ensures (x * 0x40 + y) / 0x40 == x && (x * 0x40 + y) % 0x40 == y
  {
  }

  lemma HighDigits(x: int, y: int)
    requires 0 <= y < 0x1000
    ensures (x * 0x1000 + y) / 0x1000 == x
  {
  }

  lemma HighestDigit(x: int, y: int)
    requires 0 <= y < 0x4_0000
    ensures (x * 0x4_0000 + y) / 0x4_0000 == x
  {
  }

  lemma SplitThree(a: int, b: int, c: int)
    requires 0x80 <= b < 0xC0 && 0x80 <= c < 0xC0
    ensures Three(a, b, c) / 0x1000 == a - 0xE0 && Three(a, b, c) / 0x40 % 0x40 == b - 0x80
    ensures Three(a, b, c) % 0x40 == c - 0x80
  {
    assert Three(a, b, c) / 0x40 == (a - 0xE0) * 0x40 + (b - 0x80);
  }

  lemma EncodeDecodedChar(b: seq<byte>)
    requires DecodeChar(b).Some?
    ensures var (c, n) := DecodeChar(b).value; EncodeChar(c) == b[..n]
  {
    var (c, n) := DecodeChar(b).value;
    if n == 3 {
      SplitThree(b[0], b[1], b[2]);
      hide Three;
      assert b[..3] == [b[0], b[1], b[2]];
    } else if n == 4 {
      SplitFour(b[0], b[1], b[2], b[3]);
      hide Four;
      assert b[..4] == [b[0], b[1], b[2], b[3]];
    } else if n == 2 {
      assert b[..2] == [b[0], b[1]];
    }
  }

  /** Decoding undoes encoding. */
  lemma {:induction false} DecodeEncode(s: string)
    ensures Decode(Encode(s)) == Some(s)
  {
    if s != [] {
      DecodeEncodedChar(s[0], Encode(s[1..]));
      DecodeEncode(s[1..]);
      assert s == [s[0]] + s[1..];
      assert Encode(s)[|EncodeChar(s[0])|..] == Encode(s[1..]);
    }
  }

  /** Whatever decodes is the encoding of its text, so text and valid byte strings are in bijection. */
  lemma {:induction false} EncodeDecode(b: seq<byte>)
    requires IsUtf8(b)
    ensures Encode(Decode(b).value) == b
  {
    if b != [] {
      EncodeDecodedChar(b);
      var n := DecodeChar(b).value.1;
      EncodeDecode(b[n..]);
      assert b == b[..n] + b[n..];
    }
  }

  lemma {:induction false} EncodeConcat(s: string, t: string)
    ensures Encode(s + t) == Encode(s) + Encode(t)
  {
    if s == [] {
      assert s + t == t;
    } else {
      assert (s + t)[1..] == s[1..] + t;
      EncodeConcat(s[1..], t);
    }
  }
}
