/** Decimal integers, as `str::parse::<u64>` and `str::parse::<i64>` read them. */
module Decimal {
  import opened Wrappers
  import opened Bytes
  import Text

  const I64_MAX := 0x7FFF_FFFF_FFFF_FFFF
  const I64_MIN := -0x8000_0000_0000_0000

  function DigitValue(c: char): nat
    requires Text.IsDigit(c)
  {
    c as int - '0' as int
  }

  /** The value of a non-empty string of digits; leading zeros are allowed. */
  function ParseDigits(s: string): Option<nat> {
    if s == [] || !Text.IsDigit(s[|s| - 1]) then None
    else if |s| == 1 then Some(DigitValue(s[0]))
    else
      match ParseDigits(s[..|s| - 1])
      case None => None
      case Some(n) => Some(10 * n + DigitValue(s[|s| - 1]))
  }

  /** `parse::<u64>`: an optional plus sign, then digits, and no overflow. */
  function ParseU64(s: string): Option<nat> {
    match ParseDigits(if s != [] && s[0] == '+' then s[1..] else s)
    case None => None
    case Some(n) => if n <= U64_MAX then Some(n) else None
  }

  /** `parse::<i64>`: an optional sign, then digits, and no overflow. */
  function ParseI64(s: string): Option<int> {
    if s != [] && s[0] == '-' then
      match ParseDigits(s[1..])
      case None => None
      case Some(n) => if n <= -I64_MIN then Some(-(n as int)) else None
    else
      match ParseDigits(if s != [] && s[0] == '+' then s[1..] else s)
      case None => None
      case Some(n) => if n <= I64_MAX then Some(n) else None
  }

  /** The shortest digits of a number. */
  function Digits(n: nat): (s: string)
    ensures s != [] && forall c | c in s :: Text.IsDigit(c)
  {
    var last := ['0' + (n % 10) as char];
    if n < 10 then last else Digits(n / 10) + last
  }

  lemma {:induction false} ParseInvertsDigits(n: nat)
    ensures ParseDigits(Digits(n)) == Some(n)
    ensures n <= U64_MAX ==> ParseU64(Digits(n)) == Some(n)
  {
    var s := Digits(n);
    assert s[|s| - 1] == '0' + (n % 10) as char;
    if n >= 10 {
      ParseInvertsDigits(n / 10);
      assert s[..|s| - 1] == Digits(n / 10);
    }
    assert Text.IsDigit(s[0]);
  }

  // ----- what a text of an integer is -----

  ghost predicate AllZeros(s: string) { forall c | c in s :: c == '0' }

  /** The digits of the number, with any number of zeros before them. */
  ghost predicate Denotes(s: string, n: nat) {
    exists zeros :: AllZeros(zeros) && s == zeros + Digits(n)
  }

  lemma {:induction false} ZerosBefore(zeros: string, n: nat)
    requires AllZeros(zeros)
    ensures ParseDigits(zeros + Digits(n)) == Some(n)
    decreases n
  {
    var s := zeros + Digits(n);
    assert s[|s| - 1] == '0' + (n % 10) as char;
    if n >= 10 {
      ZerosBefore(zeros, n / 10);
      assert s[..|s| - 1] == zeros + Digits(n / 10);
    } else {
      assert s[..|s| - 1] == zeros;
      if zeros != [] { OnlyZeros(zeros); }
    }
  }

  lemma {:induction false} OnlyZeros(zeros: string)
    requires AllZeros(zeros) && zeros != []
    ensures ParseDigits(zeros) == Some(0)
  {
    assert zeros[|zeros| - 1] in zeros && zeros[0] in zeros;
    var front := zeros[..|zeros| - 1];
    assert forall c | c in front :: c in zeros;
    if |zeros| > 1 { OnlyZeros(front); }
  }

  lemma {:induction false} ParsedDenotes(s: string)
    requires ParseDigits(s).Some?
    ensures Denotes(s, ParseDigits(s).value)
  {
    hide Denotes, Digits;
    var front, last := s[..|s| - 1], s[|s| - 1];
    assert s == front + [last];
    if |s| == 1 {
      OneDigit(last);
      assert s == [last];
    } else {
      ParsedDenotes(front);
      OneDigitMore(front, ParseDigits(front).value, last);
    }
  }

  lemma OneDigit(last: char)
    requires Text.IsDigit(last)
    ensures Denotes([last], DigitValue(last))
  {
    var n := DigitValue(last);
    assert ['0' + (n % 10) as char] == [last];
    assert AllZeros([]) && [last] == [] + Digits(n);
  }

  lemma OneDigitMore(front: string, n: nat, last: char)
    requires Denotes(front, n) && Text.IsDigit(last)
    ensures Denotes(front + [last], 10 * n + DigitValue(last))
  {
    var all := 10 * n + DigitValue(last);
    assert all / 10 == n && all % 10 == DigitValue(last);
    assert ['0' + (all % 10) as char] == [last];
    var zeros :| AllZeros(zeros) && front == zeros + Digits(n);
    if all < 10 {
      assert Digits(n) == ['0'] && AllZeros(front);
      assert front + [last] == front + Digits(all);
    } else {
      assert front + [last] == zeros + (Digits(n) + [last]) == zeros + Digits(all);
    }
  }

  lemma ParseDigitsIff(s: string, n: nat)
    ensures ParseDigits(s) == Some(n) <==> Denotes(s, n)
  {
    hide ParseDigits, Digits;
    if ParseDigits(s) == Some(n) { ParsedDenotes(s); }
    if Denotes(s, n) {
      var zeros :| AllZeros(zeros) && s == zeros + Digits(n);
      ZerosBefore(zeros, n);
    }
  }

  // A text of digits begins with a digit, so it has no sign.
  lemma DenotesHasNoSign(s: string, n: nat)
    requires Denotes(s, n)
    ensures s != [] && s[0] != '+' && s[0] != '-'
  {
    hide Digits;
    var zeros :| AllZeros(zeros) && s == zeros + Digits(n);
    if zeros != [] { assert zeros[0] in zeros; } else { assert Digits(n)[0] in Digits(n); }
  }

  /** The texts that `parse::<u64>` reads as `n`. */
  lemma ParseU64Iff(s: string, n: nat)
    ensures ParseU64(s) == Some(n) <==>
            n <= 0xFFFF_FFFF_FFFF_FFFF && exists digits :: Denotes(digits, n) && (s == digits || s == "+" + digits)
  {
    hide ParseDigits, Denotes;
    if s != [] && s[0] == '+' {
      assert s == "+" + s[1..];
      ParseDigitsIff(s[1..], n);
    } else {
      ParseDigitsIff(s, n);
    }
    forall digits | Denotes(digits, n)
      ensures digits != [] && digits[0] != '+' && ("+" + digits)[1..] == digits
    {
      DenotesHasNoSign(digits, n);
    }
  }

  /** The texts that `parse::<i64>` reads as `i`. */
  lemma ParseI64Iff(s: string, i: int)
    ensures ParseI64(s) == Some(i) <==>
            && -0x8000_0000_0000_0000 <= i <= 0x7FFF_FFFF_FFFF_FFFF
            && exists digits ::
                 (i >= 0 && Denotes(digits, i) && (s == digits || s == "+" + digits)) ||
                 (i <= 0 && Denotes(digits, -i) && s == "-" + digits)
  {
    hide ParseDigits, Denotes;
    var tail := if s == [] then [] else s[1..];
    assert s != [] ==> s == [s[0]] + tail;
    if i >= 0 {
      ParseDigitsIff(s, i);
      ParseDigitsIff(tail, i);
      forall digits | Denotes(digits, i)
        ensures digits != [] && digits[0] != '+' && digits[0] != '-' && ("+" + digits)[1..] == digits
      {
        DenotesHasNoSign(digits, i);
      }
    }
    if i <= 0 {
      ParseDigitsIff(tail, -i);
      forall digits | Denotes(digits, -i)
        ensures ("-" + digits)[1..] == digits
      {
      }
    }
  }
}
