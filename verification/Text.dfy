/** Text predicates of Rust's `str` that the records rely on. A Dafny `char` is a Unicode scalar value, as a Rust
    `char` is. */
module Text {
  import opened Bytes

  /** `char::is_whitespace`: the Unicode property White_Space. */
  predicate IsWhitespace(c: char) {
    var n := c as int;
    9 <= n <= 13 || n == 0x20 || n == 0x85 || n == 0xA0 || n == 0x1680 || 0x2000 <= n <= 0x200A ||
    n == 0x2028 || n == 0x2029 || n == 0x202F || n == 0x205F || n == 0x3000
  }

  predicate IsTrimmed(s: string) {
    s == [] || (!IsWhitespace(s[0]) && !IsWhitespace(s[|s| - 1]))
  }

  function TrimStart(s: string): string {
    if s != [] && IsWhitespace(s[0]) then TrimStart(s[1..]) else s
  }

  function TrimEnd(s: string): string {
    if s != [] && IsWhitespace(s[|s| - 1]) then TrimEnd(s[..|s| - 1]) else s
  }

  /** `str::trim`. */
  function Trim(s: string): string {
    TrimEnd(TrimStart(s))
  }

  // ----- what these say -----

  const WHITE_SPACE := "\t\n\U{B}\U{C}\r \U{85}\U{A0}\U{1680}\U{2000}\U{2001}\U{2002}\U{2003}\U{2004}\U{2005}" +
    "\U{2006}\U{2007}\U{2008}\U{2009}\U{200A}\U{2028}\U{2029}\U{202F}\U{205F}\U{3000}"

  /** The 25 characters of the property. */
  lemma WhitespaceIff(c: char)
    ensures IsWhitespace(c) <==> c in WHITE_SPACE
  {
  }

  ghost predicate IsBlank(s: string) { forall c | c in s :: IsWhitespace(c) }

  /** Trimming takes white space off both ends, and leaves a text that neither begins nor ends with it. */
  lemma TrimMeans(s: string) returns (before: string, after: string)
    ensures s == before + Trim(s) + after && IsBlank(before) && IsBlank(after) && IsTrimmed(Trim(s))
  {
    before := TrimStartMeans(s);
    after := TrimEndMeans(TrimStart(s));
    assert s == before + (Trim(s) + after);
  }

  lemma {:induction false} TrimStartMeans(s: string) returns (before: string)
    ensures s == before + TrimStart(s) && IsBlank(before)
    ensures TrimStart(s) == [] || !IsWhitespace(TrimStart(s)[0])
  {
    hide IsWhitespace;
    before := [];
    if s != [] && IsWhitespace(s[0]) {
      var more := TrimStartMeans(s[1..]);
      before := [s[0]] + more;
      assert s == [s[0]] + s[1..];
    }
  }

  lemma {:induction false} TrimEndMeans(s: string) returns (after: string)
    ensures s == TrimEnd(s) + after && IsBlank(after)
    ensures TrimEnd(s) == [] || (!IsWhitespace(TrimEnd(s)[|TrimEnd(s)| - 1]) && TrimEnd(s)[0] == s[0])
  {
    hide IsWhitespace;
    after := [];
    if s != [] && IsWhitespace(s[|s| - 1]) {
      var more := TrimEndMeans(s[..|s| - 1]);
      after := more + [s[|s| - 1]];
      assert s == s[..|s| - 1] + [s[|s| - 1]];
    }
  }

  /** A text is trimmed exactly if trimming leaves it alone. */
  lemma TrimmedIff(s: string)
    ensures IsTrimmed(s) <==> Trim(s) == s
  {
    var before, after := TrimMeans(s);
    hide IsWhitespace;
    if IsTrimmed(s) {
      assert TrimStart(s) == s;
    }
  }

  predicate IsDigit(c: char) { '0' <= c <= '9' }
  predicate IsLower(c: char) { 'a' <= c <= 'z' }
  predicate IsUpper(c: char) { 'A' <= c <= 'Z' }
  predicate IsLowerHex(c: char) { IsDigit(c) || 'a' <= c <= 'f' }

  function Codes(s: string): seq<int> { seq(|s|, i requires 0 <= i < |s| => s[i] as int) }

  /** The order of Rust strings: by scalar values, which is also the order of their UTF-8 bytes. */
  predicate StrLess(a: string, b: string) { LexLess(Codes(a), Codes(b)) }

  lemma StrTotal(a: string, b: string)
    ensures a == b || StrLess(a, b) || StrLess(b, a)
    ensures !StrLess(a, a)
  {
    LexTotal(Codes(a), Codes(b));
    if Codes(a) == Codes(b) {
      assert |a| == |Codes(a)| == |Codes(b)| == |b|;
      assert forall i | 0 <= i < |a| :: a[i] as int == Codes(a)[i] == Codes(b)[i] == b[i] as int;
    }
    LexIrreflexive(Codes(a));
  }

  lemma StrTransitive(a: string, b: string, c: string)
    requires StrLess(a, b) && StrLess(b, c)
    ensures StrLess(a, c)
  {
    LexTransitive(Codes(a), Codes(b), Codes(c));
  }

  /** `str::split(sep)`. */
  function SplitOn(s: string, sep: char): (parts: seq<string>)
    ensures parts != []
  {
    if s == [] then [[]]
    else
      var rest := SplitOn(s[1..], sep);
      if s[0] == sep then [[]] + rest else [[s[0]] + rest[0]] + rest[1..]
  }

  function JoinWith(parts: seq<string>, sep: char): string {
    if parts == [] then []
    else if |parts| == 1 then parts[0]
    else parts[0] + [sep] + JoinWith(parts[1..], sep)
  }

  lemma {:induction false} JoinSplit(s: string, sep: char)
    ensures JoinWith(SplitOn(s, sep), sep) == s
  {
    if s != [] {
      JoinSplit(s[1..], sep);
      var rest := SplitOn(s[1..], sep);
      if s[0] == sep {
        assert ([[]] + rest)[1..] == rest;
      } else if |rest| > 1 {
        assert ([[s[0]] + rest[0]] + rest[1..])[1..] == rest[1..];
      }
      assert s == [s[0]] + s[1..];
    }
  }

  lemma {:induction false} SplitHasNoSep(s: string, sep: char)
    ensures forall part | part in SplitOn(s, sep) :: sep !in part
  {
    if s != [] {
      SplitHasNoSep(s[1..], sep);
    }
  }

  lemma {:induction false} SplitSimple(part: string, sep: char)
    requires sep !in part
    ensures SplitOn(part, sep) == [part]
  {
    if part != [] {
      SplitSimple(part[1..], sep);
      assert part == [part[0]] + part[1..];
    }
  }

  lemma {:induction false} SplitAfterSep(part: string, sep: char, rest: string)
    requires sep !in part
    ensures SplitOn(part + [sep] + rest, sep) == [part] + SplitOn(rest, sep)
  {
    var s := part + [sep] + rest;
    if part == [] {
      assert s[1..] == rest;
    } else {
      assert s[1..] == part[1..] + [sep] + rest;
      SplitAfterSep(part[1..], sep, rest);
      assert part == [part[0]] + part[1..];
    }
  }

  lemma {:induction false} SplitJoin(parts: seq<string>, sep: char)
    requires parts != [] && forall part | part in parts :: sep !in part
    ensures SplitOn(JoinWith(parts, sep), sep) == parts
  {
    if |parts| == 1 {
      SplitSimple(parts[0], sep);
    } else {
      SplitJoin(parts[1..], sep);
      SplitAfterSep(parts[0], sep, JoinWith(parts[1..], sep));
    }
  }

  /** `validate_prefixed_id`: a prefix and 32 lower-case hexadecimal digits. */
  predicate IsPrefixedId(value: string, prefix: string) {
    prefix <= value && |value| == |prefix| + 32 && forall c | c in value[|prefix|..] :: IsLowerHex(c)
  }

  /** `validate_sha256`: 64 lower-case hexadecimal digits. */
  predicate IsSha256(value: string) {
    |value| == 64 && forall c | c in value :: IsLowerHex(c)
  }

  function HexDigit(n: nat): char
    requires n < 16
  {
    if n < 10 then ('0' as int + n) as char else ('a' as int + n - 10) as char
  }

  /** The characters of lower-case hexadecimal. */
  lemma HexDigitIs(n: nat)
    requires n < 16
    ensures HexDigit(n) == "0123456789abcdef"[n]
  {
  }

  /** The classes of ASCII characters. */
  lemma ClassesAre(c: char)
    ensures IsDigit(c) <==> c in "0123456789"
    ensures IsLower(c) <==> c in "abcdefghijklmnopqrstuvwxyz"
    ensures IsUpper(c) <==> c in "ABCDEFGHIJKLMNOPQRSTUVWXYZ"
    ensures IsLowerHex(c) <==> c in "0123456789abcdef"
  {
  }

  /** `hex::encode`. */
  function Hex(bytes: seq<byte>): string {
    if bytes == [] then [] else [HexDigit(bytes[0] / 16), HexDigit(bytes[0] % 16)] + Hex(bytes[1..])
  }

  lemma {:induction false} HexIsLower(bytes: seq<byte>)
    ensures |Hex(bytes)| == 2 * |bytes| && forall c | c in Hex(bytes) :: IsLowerHex(c)
  {
    if bytes != [] {
      HexIsLower(bytes[1..]);
    }
  }

  /** Equal texts are texts of equal digests. */
  lemma {:induction false} HexIsInjective(a: seq<byte>, b: seq<byte>)
    requires Hex(a) == Hex(b)
    ensures a == b
  {
    if a != [] && b != [] {
      assert Hex(a)[0] == HexDigit(a[0] / 16) && Hex(a)[1] == HexDigit(a[0] % 16) && Hex(a)[2..] == Hex(a[1..]);
      assert Hex(b)[0] == HexDigit(b[0] / 16) && Hex(b)[1] == HexDigit(b[0] % 16) && Hex(b)[2..] == Hex(b[1..]);
      HexIsInjective(a[1..], b[1..]);
      assert a[0] / 16 == b[0] / 16 && a[0] % 16 == b[0] % 16;
      assert a == [a[0]] + a[1..] && b == [b[0]] + b[1..];
    }
  }

  lemma NibbleOf(c: char) returns (n: nat)
    requires IsLowerHex(c)
    ensures n < 16 && HexDigit(n) == c
  {
    n := if IsDigit(c) then c as int - '0' as int else c as int - 'a' as int + 10;
  }

  /** Every text of an even number of lower-case hexadecimal digits is the text of some bytes. */
  lemma {:induction false} HexDecodes(s: string) returns (bytes: seq<byte>)
    requires |s| % 2 == 0 && forall c | c in s :: IsLowerHex(c)
    ensures Hex(bytes) == s && 2 * |bytes| == |s|
  {
    hide IsLowerHex;
    bytes := [];
    if s != [] {
      var high := NibbleOf(s[0]);
      var low := NibbleOf(s[1]);
      var more := HexDecodes(s[2..]);
      bytes := [16 * high + low] + more;
      assert bytes[1..] == more && bytes[0] / 16 == high && bytes[0] % 16 == low;
      assert s == [s[0], s[1]] + s[2..];
    }
  }

  /** A digest text is the hexadecimal text of 32 bytes. */
  lemma Sha256Iff(value: string)
    ensures IsSha256(value) <==> exists digest: seq<byte> :: |digest| == 32 && value == Hex(digest)
  {
    hide IsLowerHex;
    if IsSha256(value) {
      var digest := HexDecodes(value);
      assert |digest| == 32;
    }
    forall digest: seq<byte> | |digest| == 32 && value == Hex(digest)
      ensures IsSha256(value)
    {
      HexIsLower(digest);
    }
  }

  /** An identifier is its prefix and the hexadecimal text of 16 bytes. */
  lemma PrefixedIdIff(value: string, prefix: string)
    ensures IsPrefixedId(value, prefix) <==> exists id: seq<byte> :: |id| == 16 && value == prefix + Hex(id)
  {
    hide IsLowerHex;
    if IsPrefixedId(value, prefix) {
      var id := HexDecodes(value[|prefix|..]);
      assert |id| == 16 && value == prefix + value[|prefix|..];
    }
    forall id: seq<byte> | |id| == 16 && value == prefix + Hex(id)
      ensures IsPrefixedId(value, prefix)
    {
      HexIsLower(id);
      assert value[|prefix|..] == Hex(id);
    }
  }
}
