/** `urlsafe_b64_nopad`: base64url (section 5 of RFC 4648) without padding (section 3.2), and its decoder. */
module Base64Url {
  import opened Wrappers
  import opened Bytes

  type sextet = v: int | 0 <= v < 64

  const UPPER := "ABCDEFGHIJKLMNOPQRSTUVWXYZ"
  const LOWER := "abcdefghijklmnopqrstuvwxyz"
  const DIGITS := "0123456789"
  const TABLE := UPPER + LOWER + DIGITS + "-_"

  /** Table 2 of RFC 4648, the "URL and Filename safe" alphabet. */
  function Letter(v: sextet): char {
    if v < 26 then ('A' as int + v) as char
    else if v < 52 then ('a' as int + (v - 26)) as char
    else if v < 62 then ('0' as int + (v - 52)) as char
    else if v == 62 then '-' else '_'
  }

  function Value(c: char): Option<sextet> {
    if 'A' <= c <= 'Z' then Some(c as int - 'A' as int)
    else if 'a' <= c <= 'z' then Some(c as int - 'a' as int + 26)
    else if '0' <= c <= '9' then Some(c as int - '0' as int + 52)
    else if c == '-' then Some(62) else if c == '_' then Some(63) else None
  }

  lemma LetterHasValue(v: sextet)
    ensures Value(Letter(v)) == Some(v)
  {
  }

  lemma Ranges()
    ensures |UPPER| == 26 && forall i | 0 <= i < 26 :: UPPER[i] as int == 'A' as int + i
    ensures |LOWER| == 26 && forall i | 0 <= i < 26 :: LOWER[i] as int == 'a' as int + i
    ensures |DIGITS| == 10 && forall i | 0 <= i < 10 :: DIGITS[i] as int == '0' as int + i
  {
  }

  /** The table of the source is the alphabet of the standard. */
  lemma TableIsAlphabet(v: sextet)
    ensures |TABLE| == 64 && TABLE[v] == Letter(v)
  {
    hide UPPER, LOWER, DIGITS;
    Ranges();
  }

  /** The 6-bit groups of a byte string: four for every three bytes (section 4 of RFC 4648), and two or three for a
      last one or two bytes, the missing bits being zero. */
  function Sextets(b: seq<byte>): seq<sextet> {
    if |b| == 0 then []
    else if |b| == 1 then Group(b[0], 0, 0)[..2]
    else if |b| == 2 then Group(b[0], b[1], 0)[..3]
    else Group(b[0], b[1], b[2]) + Sextets(b[3..])
  }

  /** The three bytes as one 24-bit number. */
  function Word(b0: byte, b1: byte, b2: byte): nat {
    b0 as int * 0x1_0000 + b1 as int * 0x100 + b2 as int
  }

  /** `(n >> shift) & 63`, the shift given as the power of two it divides by. */
  function Bits(n: nat, power: nat): sextet
    requires power > 0
  {
    n / power % 64
  }

  function Group(b0: byte, b1: byte, b2: byte): (g: seq<sextet>)
    ensures |g| == 4
  {
    var n := Word(b0, b1, b2);
    [Bits(n, 0x4_0000), Bits(n, 0x1000), Bits(n, 64), Bits(n, 1)]
  }

  function Letters(v: seq<sextet>): string {
    seq(|v|, i requires 0 <= i < |v| => Letter(v[i]))
  }

  function Encode(b: seq<byte>): string {
    Letters(Sextets(b))
  }

  // ----- the decoder -----

  /** The values of the characters; None if one is outside the alphabet. */
  function Values(s: string): Option<seq<sextet>> {
    if s == [] then Some([])
    else
      match Value(s[0])
      case None => None
      case Some(v) =>
        match Values(s[1..])
        case None => None
        case Some(rest) => Some([v] + rest)
  }

  // The three bytes that four 6-bit groups hold.
  function Byte0(v0: sextet, v1: sextet): byte { v0 as int * 4 + v1 as int / 16 }
  function Byte1(v1: sextet, v2: sextet): byte { v1 as int % 16 * 16 + v2 as int / 4 }
  function Byte2(v2: sextet, v3: sextet): byte { v2 as int % 4 * 64 + v3 as int }

  function FromSextets(v: seq<sextet>): Option<seq<byte>> {
    if |v| == 0 then Some([])
    else if |v| == 1 then None
    else if |v| == 2 then Some([Byte0(v[0], v[1])])
    else if |v| == 3 then Some([Byte0(v[0], v[1]), Byte1(v[1], v[2])])
    else
      match FromSextets(v[4..])
      case None => None
      case Some(rest) => Some([Byte0(v[0], v[1]), Byte1(v[1], v[2]), Byte2(v[2], v[3])] + rest)
  }

  function Decode(s: string): Option<seq<byte>> {
    match Values(s)
    case None => None
    case Some(v) => FromSextets(v)
  }

  // ----- properties -----

  lemma Divide64(n: int, q: int, r: int)
    requires n == 64 * q + r && 0 <= r < 64
    ensures n / 64 == q && n % 64 == r
  {
  }

  lemma Shifts(n: nat)
    ensures n / 0x1000 == n / 64 / 64 && n / 0x4_0000 == n / 64 / 64 / 64
  {
  }

  // The four groups of 24 bits, each cut from one or two of the three bytes.
  lemma GroupCuts(b0: int, b1: int, b2: int)
    requires 0 <= b0 < 0x100 && 0 <= b1 < 0x100 && 0 <= b2 < 0x100
    ensures Group(b0, b1, b2) == [b0 / 4, b0 % 4 * 16 + b1 / 16, b1 % 16 * 4 + b2 / 64, b2 % 64]
  {
    var n := b0 * 0x1_0000 + b1 * 0x100 + b2;
    var x := b0 * 1024 + b1 * 4 + b2 / 64;
    var y := b0 * 16 + b1 / 16;
    Divide64(n, x, b2 % 64);
    Divide64(x, y, b1 % 16 * 4 + b2 / 64);
    Divide64(y, b0 / 4, b0 % 4 * 16 + b1 / 16);
    Shifts(n);
  }

  lemma GroupHolds(b0: byte, b1: byte, b2: byte)
    ensures var g := Group(b0, b1, b2);
      Byte0(g[0], g[1]) == b0 && Byte1(g[1], g[2]) == b1 && Byte2(g[2], g[3]) == b2
  {
    GroupCuts(b0, b1, b2);
  }

  lemma {:induction false} SextetsHold(b: seq<byte>)
    ensures FromSextets(Sextets(b)) == Some(b)
    ensures |Sextets(b)| == (4 * |b| + 2) / 3
  {
    hide Group, Byte0, Byte1, Byte2;
    if |b| == 1 {
      GroupHolds(b[0], 0, 0);
      assert b == [b[0]];
    } else if |b| == 2 {
      GroupHolds(b[0], b[1], 0);
      assert b == [b[0], b[1]];
    } else if |b| > 2 {
      GroupHolds(b[0], b[1], b[2]);
      SextetsHold(b[3..]);
      assert Sextets(b)[4..] == Sextets(b[3..]);
      assert b == [b[0], b[1], b[2]] + b[3..];
    }
  }

  lemma {:induction false} LettersSpell(v: seq<sextet>)
    ensures Values(Letters(v)) == Some(v)
  {
    if v != [] {
      LetterHasValue(v[0]);
      LettersSpell(v[1..]);
      assert Letters(v)[1..] == Letters(v[1..]);
      assert v == [v[0]] + v[1..];
    }
  }

  /** Decoding undoes the encoding of every byte string, which has ceil(4n/3) characters, all of the alphabet. */
  lemma DecodeEncode(b: seq<byte>)
    ensures Decode(Encode(b)) == Some(b)
    ensures |Encode(b)| == (4 * |b| + 2) / 3
    ensures forall c | c in Encode(b) :: c in TABLE
  {
    SextetsHold(b);
    LettersSpell(Sextets(b));
    forall c | c in Encode(b)
      ensures c in TABLE
    {
      var i :| 0 <= i < |Encode(b)| && Encode(b)[i] == c;
      TableIsAlphabet(Sextets(b)[i]);
    }
  }

  /** Equal encodings are encodings of equal byte strings. */
  lemma EncodeIsInjective(a: seq<byte>, b: seq<byte>)
    requires Encode(a) == Encode(b)
    ensures a == b
  {
    DecodeEncode(a);
    DecodeEncode(b);
  }

  function ByteAt(b: seq<byte>, i: nat): byte { if i < |b| then b[i] else 0 }
  function From(b: seq<byte>, i: nat): seq<byte> { if i <= |b| then b[i..] else [] }

  /** The letters of the first three bytes, or of the last one or two. */
  function FirstLetters(b: seq<byte>): string
    requires b != []
  {
    var g := Group(b[0], ByteAt(b, 1), ByteAt(b, 2));
    if |b| == 1 then [Letter(g[0]), Letter(g[1])]
    else if |b| == 2 then [Letter(g[0]), Letter(g[1]), Letter(g[2])]
    else [Letter(g[0]), Letter(g[1]), Letter(g[2]), Letter(g[3])]
  }

  lemma EncodeGroup(b: seq<byte>)
    requires b != []
    ensures Encode(b) == FirstLetters(b) + Encode(From(b, 3))
  {
    hide Group, Letter;
  }

  lemma FromTwice(b: seq<byte>, i: nat, j: nat)
    ensures From(From(b, i), j) == From(b, i + j)
  {
  }

  lemma Associative(a: string, b: string, c: string)
    ensures (a + b) + c == a + (b + c)
  {
  }

  // One round of the loop adds the letters of one group.
  lemma Round(b: seq<byte>, index: nat, before: string, out: string)
    requires From(b, index) != [] && Encode(b) == before + Encode(From(b, index))
    requires out == before + FirstLetters(From(b, index))
    ensures Encode(b) == out + Encode(From(b, index + 3))
  {
    hide Encode, FirstLetters, From;
    EncodeGroup(From(b, index));
    FromTwice(b, index, 3);
    Associative(before, FirstLetters(From(b, index)), Encode(From(b, index + 3)));
  }

  /** The loop of `urlsafe_b64_nopad`. */
  method UrlsafeB64Nopad(b: seq<byte>) returns (out: string)
    ensures out == Encode(b)
  {
    hide Encode, Letter, TABLE, Word, Bits;
    out := "";
    var index := 0;
    assert From(b, 0) == b;
    while index < |b|
      invariant Encode(b) == out + Encode(From(b, index))
      decreases |b| - index
    {
      var b0 := b[index];
      var b1 := if index + 1 < |b| then b[index + 1] else 0;
      var b2 := if index + 2 < |b| then b[index + 2] else 0;
      var n := Word(b0, b1, b2);
      TableIsAlphabet(Bits(n, 0x4_0000));
      TableIsAlphabet(Bits(n, 0x1000));
      TableIsAlphabet(Bits(n, 64));
      TableIsAlphabet(Bits(n, 1));
      ghost var before := out;
      out := out + [TABLE[Bits(n, 0x4_0000)]];
      out := out + [TABLE[Bits(n, 0x1000)]];
      if index + 1 < |b| { out := out + [TABLE[Bits(n, 64)]]; }
      if index + 2 < |b| { out := out + [TABLE[Bits(n, 1)]]; }
      assert out == before + FirstLetters(From(b, index));
      Round(b, index, before, out);
      index := index + 3;
    }
    EncodeEmpty();
  }

  lemma EncodeEmpty()
    ensures Encode([]) == ""
  {
  }
}
