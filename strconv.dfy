/**
 * Decimal integer text: Go's strconv.Atoi on a 64-bit platform, and the
 * zero-padded digit strings that a well-formed time or date is made of.
 */
module Strconv {
  import opened Wrappers

  const MinInt64: int := -0x8000_0000_0000_0000
  const MaxInt64: int := 0x7FFF_FFFF_FFFF_FFFF

  predicate IsDigit(c: char)
  {
    '0' <= c <= '9'
  }

  predicate AllDigits(s: string)
  {
    forall i :: 0 <= i < |s| ==> IsDigit(s[i])
  }

  function Pow10(n: nat): (p: nat)
    ensures p >= 1
  {
    if n == 0 then 1 else 10 * Pow10(n - 1)
  }

  function DigitValue(c: char): nat
    requires IsDigit(c)
  {
    c as int - '0' as int
  }

  function DigitChar(d: nat): (c: char)
    requires d < 10
    ensures IsDigit(c) && DigitValue(c) == d
  {
    ('0' as int + d) as char
  }

  /** The value of a string of decimal digits, read most significant digit first. */
  function DigitsValue(s: string): (v: nat)
    requires AllDigits(s)
    ensures v < Pow10(|s|)
  {
    if s == [] then 0 else 10 * DigitsValue(s[..|s| - 1]) + DigitValue(s[|s| - 1])
  }

  /** `n` written with exactly `width` decimal digits, zero-padded on the left. */
  function PadDigits(n: nat, width: nat): (r: string)
    ensures |r| == width && AllDigits(r)
  {
    if width == 0 then [] else PadDigits(n / 10, width - 1) + [DigitChar(n % 10)]
  }

  /** Reading back a zero-padded number gives the number, when it fits the width. */
  lemma {:induction false} PadDigitsValue(n: nat, width: nat)
    requires n < Pow10(width)
    ensures DigitsValue(PadDigits(n, width)) == n
  {
    if width > 0 {
      var r := PadDigits(n, width);
      assert r[..|r| - 1] == PadDigits(n / 10, width - 1);
      PadDigitsValue(n / 10, width - 1);
    }
  }

  /** Writing back the value of a digit string with its own width gives the string: leading zeros included. */
  lemma {:induction false} DigitsValuePad(s: string)
    requires AllDigits(s)
    ensures PadDigits(DigitsValue(s), |s|) == s
  {
    if s != [] {
      var init := s[..|s| - 1];
      DigitsValuePad(init);
      var v := DigitsValue(s);
      assert v / 10 == DigitsValue(init) && v % 10 == DigitValue(s[|s| - 1]);
      assert DigitChar(DigitValue(s[|s| - 1])) == s[|s| - 1];
      assert init + [s[|s| - 1]] == s;
    }
  }

  /** The value of a two-digit string, digit by digit. */
  lemma DigitsValue2(s: string)
    requires |s| == 2 && AllDigits(s)
    ensures DigitsValue(s) == 10 * DigitValue(s[0]) + DigitValue(s[1])
  {
    assert s[..1][..0] == [];
  }

  /** The value of a four-digit string, digit by digit. */
  lemma DigitsValue4(s: string)
    requires |s| == 4 && AllDigits(s)
    ensures DigitsValue(s) == 1000 * DigitValue(s[0]) + 100 * DigitValue(s[1]) + 10 * DigitValue(s[2]) + DigitValue(s[3])
  {
    DigitsValue2(s[..2]);
    assert s[..3][..2] == s[..2];
  }

  /** The text after an optional leading sign. */
  function Unsigned(s: string): string
  {
    if s != [] && (s[0] == '-' || s[0] == '+') then s[1..] else s
  }

  /**
   * Go's strconv.Atoi(s) on a 64-bit platform: an optional `+` or `-`
   * followed by at least one ASCII digit (leading zeros allowed, nothing
   * else: no spaces, no underscores), whose value fits in 64 bits; `None`
   * stands for the returned error.
   */
  function Atoi(s: string): (r: Option<int>)
    ensures r.Some? ==> s != [] && Unsigned(s) != [] && AllDigits(Unsigned(s))
    ensures r.Some? ==> MinInt64 <= r.value <= MaxInt64
    ensures r.Some? ==> (r.value < 0 ==> s[0] == '-')
  {
    var digits := Unsigned(s);
    if digits == [] || !AllDigits(digits) then None
    else
      var v: int := if s[0] == '-' then -(DigitsValue(digits) as int) else DigitsValue(digits);
      if MinInt64 <= v <= MaxInt64 then Some(v) else None
  }

  /** Every well-formed digit string in range is accepted with its value, with or without a sign. */
  lemma AtoiAccepts(s: string)
    requires s != [] && AllDigits(s) && DigitsValue(s) <= MaxInt64
    ensures Atoi(s) == Some(DigitsValue(s))
    ensures Atoi(['+'] + s) == Some(DigitsValue(s))
    ensures Atoi(['-'] + s) == Some(-(DigitsValue(s) as int))
  {
    assert Unsigned(s) == s;
    assert Atoi(['+'] + s) == Some(DigitsValue(s)) by {
      assert Unsigned(['+'] + s) == s by { assert (['+'] + s)[1..] == s; }
    }
    assert Atoi(['-'] + s) == Some(-(DigitsValue(s) as int)) by {
      assert Unsigned(['-'] + s) == s by { assert (['-'] + s)[1..] == s; }
    }
  }

  /** Atoi reads back any zero-padded rendering of a non-negative 64-bit number. */
  lemma AtoiPadded(n: nat, width: nat)
    requires 1 <= width && n < Pow10(width) && n <= MaxInt64
    ensures Atoi(PadDigits(n, width)) == Some(n)
  {
    PadDigitsValue(n, width);
  }
}
