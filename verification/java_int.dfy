/**
 Java's `Integer.parseInt(String)` on the decimal radix, as used for the
 quantity column, together with `Integer.toString(int)` as its inverse.
 Only ASCII digits are modelled.
 */
module JavaInt {
  import opened Wrappers

  const MinInt: int := -0x8000_0000
  const MaxInt: int := 0x7FFF_FFFF

  predicate InRange(n: int) {
    MinInt <= n <= MaxInt
  }

  predicate IsDigit(c: char) {
    '0' <= c <= '9'
  }

  predicate AllDigits(s: string) {
    forall i :: 0 <= i < |s| ==> IsDigit(s[i])
  }

  /** The value of a digit string, read most significant digit first. */
  function DigitsValue(s: string): nat
    requires AllDigits(s)
  {
    if |s| == 0 then 0
    else DigitsValue(s[..|s| - 1]) * 10 + (s[|s| - 1] as int - '0' as int)
  }

  function DigitChar(d: nat): (c: char)
    requires d < 10
    ensures IsDigit(c) && c as int - '0' as int == d
  {
    ('0' as int + d) as char
  }

  /** Shortest decimal spelling of a natural number. */
  function Digits(n: nat): (s: string)
    ensures |s| > 0
  {
    if n < 10 then [DigitChar(n)] else Digits(n / 10) + [DigitChar(n % 10)]
  }

  /**
   `Integer.parseInt(s)`: an optional leading `-` or `+`, then at least one
   digit; the signed value must fit in 32 bits. None stands for the
   NumberFormatException the source lets propagate.
   */
  function ParseInt(s: string): Option<int> {
    if |s| == 0 then None
    else
      var signed := s[0] == '-' || s[0] == '+';
      var digits := if signed then s[1..] else s;
      if |digits| == 0 || !AllDigits(digits) then None
      else
        var magnitude: int := DigitsValue(digits);
        var v := if s[0] == '-' then -magnitude else magnitude;
        if InRange(v) then Some(v) else None
  }

  /**
   What an accepted text looks like: a 32-bit value, written as digits with
   at most one leading sign that is followed by at least one digit, and a
   minus sign in front of every negative value.
   */
  lemma ParseIntAccepts(s: string)
    ensures ParseInt(s).Some? ==> InRange(ParseInt(s).value)
    ensures ParseInt(s).Some? ==> |s| > 0 && forall i :: 0 < i < |s| ==> IsDigit(s[i])
    ensures ParseInt(s).Some? ==> IsDigit(s[0]) || ((s[0] == '-' || s[0] == '+') && |s| >= 2)
    ensures ParseInt(s).Some? && ParseInt(s).value < 0 ==> s[0] == '-'
  {
  }

  /**
   The converse of `ParseIntAccepts`: every sign-then-digits text whose
   value fits in 32 bits is accepted with that value, non-canonical
   spellings such as "+5", "007" and "-0" included.
   */
  lemma ParseIntComplete(sign: string, digits: string)
    requires sign == "" || sign == "-" || sign == "+"
    requires |digits| > 0 && AllDigits(digits)
    requires InRange(if sign == "-" then -(DigitsValue(digits) as int) else DigitsValue(digits))
    ensures ParseInt(sign + digits) == Some(if sign == "-" then -(DigitsValue(digits) as int) else DigitsValue(digits))
  {
    var s := sign + digits;
    if sign == "" {
      assert s == digits;
      assert IsDigit(s[0]);
    } else {
      assert s[1..] == digits;
    }
  }

  /** `Integer.toString(n)`: a minus sign for negatives, then the digits of |n|. */
  function FormatInt(n: int): (s: string)
    ensures |s| > 0
  {
    if n < 0 then "-" + Digits(-n) else Digits(n)
  }

  lemma {:induction false} DigitsRoundTrip(n: nat)
    ensures AllDigits(Digits(n))
    ensures DigitsValue(Digits(n)) == n
  {
    var s := Digits(n);
    if n >= 10 {
      DigitsRoundTrip(n / 10);
      assert s[..|s| - 1] == Digits(n / 10);
    }
  }

  /** Every 32-bit value is read back from its own decimal spelling. */
  lemma ParseFormatRoundTrip(n: int)
    requires InRange(n)
    ensures ParseInt(FormatInt(n)) == Some(n)
  {
    var s := FormatInt(n);
    if n < 0 {
      DigitsRoundTrip(-n);
      assert s[1..] == Digits(-n);
    } else {
      DigitsRoundTrip(n);
      assert IsDigit(s[0]);
    }
  }

  /** A value outside 32 bits is rejected even when its spelling is well formed. */
  lemma ParseRejectsOverflow(n: int)
    requires !InRange(n)
    ensures ParseInt(FormatInt(n)) == None
  {
    var s := FormatInt(n);
    if n < 0 {
      DigitsRoundTrip(-n);
      assert s[1..] == Digits(-n);
    } else {
      DigitsRoundTrip(n);
      assert IsDigit(s[0]);
    }
  }

  /** A text with a character that is neither a digit nor a leading sign is rejected. */
  lemma ParseRejectsNonDigit(s: string, k: nat)
    requires k < |s| && !IsDigit(s[k])
    requires k > 0 || (s[0] != '-' && s[0] != '+')
    ensures ParseInt(s) == None
  {
  }
}
