/**
  The part of Go's `strconv` package that the plugin setup relies on: `Atoi`,
  for a 64-bit `int`, and `FormatInt` (base 10), whose output `Atoi` parses back.
 */
module Strconv {
  import opened Wrappers

  const MinInt64: int := -0x8000_0000_0000_0000
  const MaxInt64: int := 0x7fff_ffff_ffff_ffff

  predicate IsDigit(c: char) {
    '0' <= c <= '9'
  }

  predicate AllDigits(s: string) {
    forall i :: 0 <= i < |s| ==> IsDigit(s[i])
  }

  function DigitValue(c: char): nat
    requires IsDigit(c)
  {
    (c as int - '0' as int) as nat
  }

  function DigitChar(d: nat): (c: char)
    requires d < 10
    ensures IsDigit(c) && DigitValue(c) == d
  {
    ('0' as int + d) as char
  }

  /** The value of a string of decimal digits, most significant first. */
  function DigitsValue(s: string): nat
    requires AllDigits(s)
    decreases |s|
  {
    if s == [] then 0 else DigitsValue(s[..|s| - 1]) * 10 + DigitValue(s[|s| - 1])
  }

  /**
    `strconv.Atoi` on a 64-bit platform: an optional `+` or `-`, then one or more
    ASCII decimal digits, whose value must fit in an int64. Anything else
    (empty string, a lone sign, any other character, out of range) is an error.
   */
  function Atoi(s: string): (r: Option<int>)
    ensures r.Some? ==> MinInt64 <= r.value <= MaxInt64
    ensures r.Some? ==> |s| > 0 && (IsDigit(s[0]) || s[0] == '+' || s[0] == '-')
    ensures r.Some? ==> forall i :: 1 <= i < |s| ==> IsDigit(s[i])
    ensures r.Some? && r.value < 0 ==> s[0] == '-'
    ensures r.Some? && !IsDigit(s[0]) ==> |s| >= 2
  {
    if |s| == 0 then None
    else
      var digits := if s[0] == '+' || s[0] == '-' then s[1..] else s;
      if |digits| == 0 || !AllDigits(digits) then None
      else
        var magnitude: int := DigitsValue(digits);
        var n := if s[0] == '-' then -magnitude else magnitude;
        if n < MinInt64 || MaxInt64 < n then None else Some(n)
  }

  /** The value of a sign and a magnitude. */
  function Signed(negative: bool, magnitude: nat): int {
    if negative then -(magnitude as int) else magnitude
  }

  /**
    Conversely, every optional sign followed by one or more digits parses, to the
    signed value of the digits, exactly when that value fits in an int64.
   */
  lemma AtoiSignedDigits(sign: string, digits: string)
    requires sign == "" || sign == "+" || sign == "-"
    requires digits != [] && AllDigits(digits)
    ensures Atoi(sign + digits) ==
      var n := Signed(sign == "-", DigitsValue(digits));
      if MinInt64 <= n <= MaxInt64 then Some(n) else None
  {
    if sign != "" {
      assert (sign + digits)[1..] == digits;
    } else {
      assert sign + digits == digits;
    }
  }

  lemma {:induction false} DigitsValueZeros(zeros: string)
    requires forall i :: 0 <= i < |zeros| ==> zeros[i] == '0'
    ensures AllDigits(zeros) && DigitsValue(zeros) == 0
    decreases |zeros|
  {
    if zeros != [] {
      DigitsValueZeros(zeros[..|zeros| - 1]);
    }
  }

  /** Leading zeros do not change the value of a string of digits. */
  lemma {:induction false} DigitsValueLeadingZeros(zeros: string, t: string)
    requires forall i :: 0 <= i < |zeros| ==> zeros[i] == '0'
    requires AllDigits(t)
    ensures AllDigits(zeros + t) && DigitsValue(zeros + t) == DigitsValue(t)
    decreases |t|
  {
    var all := zeros + t;
    if t == [] {
      assert all == zeros;
      DigitsValueZeros(zeros);
    } else {
      DigitsValueLeadingZeros(zeros, t[..|t| - 1]);
      assert all[..|all| - 1] == zeros + t[..|t| - 1];
    }
  }

  /** The decimal digits of `n`, without leading zeros. */
  function FormatDigits(n: nat): (s: string)
    ensures s != [] && AllDigits(s)
    ensures n != 0 ==> s[0] != '0'
    decreases n
  {
    if n < 10 then [DigitChar(n)] else FormatDigits(n / 10) + [DigitChar(n % 10)]
  }

  /** `strconv.FormatInt(n, 10)`: a `-` for negative numbers, then the digits. */
  function FormatInt(n: int): (s: string)
    ensures s != []
    ensures n < 0 <==> s[0] == '-'
  {
    if n < 0 then "-" + FormatDigits(-n) else FormatDigits(n)
  }

  lemma {:induction false} DigitsValueFormatDigits(n: nat)
    ensures DigitsValue(FormatDigits(n)) == n
    decreases n
  {
    var s := FormatDigits(n);
    if n >= 10 {
      DigitsValueFormatDigits(n / 10);
      assert s[..|s| - 1] == FormatDigits(n / 10);
    }
  }

  /** Every int64 survives a trip through its decimal text: `Atoi(FormatInt(n)) == n`. */
  lemma AtoiFormatInt(n: int)
    requires MinInt64 <= n <= MaxInt64
    ensures Atoi(FormatInt(n)) == Some(n)
  {
    var s := FormatInt(n);
    if n < 0 {
      DigitsValueFormatDigits(-n);
      assert s[1..] == FormatDigits(-n);
    } else {
      DigitsValueFormatDigits(n);
    }
  }

  /**
    Any spelling of an int64 that Go accepts parses to it: an optional `+` or
    `-`, any number of leading zeros, then the digits (so `+5`, `007` and `-0`).
   */
  lemma AtoiPaddedDigits(sign: string, zeros: string, m: nat)
    requires sign == "" || sign == "+" || sign == "-"
    requires forall i :: 0 <= i < |zeros| ==> zeros[i] == '0'
    requires MinInt64 <= Signed(sign == "-", m) <= MaxInt64
    ensures Atoi(sign + zeros + FormatDigits(m)) == Some(Signed(sign == "-", m))
  {
    var text := FormatDigits(m);
    var digits := zeros + text;
    assert sign + zeros + text == sign + digits;
    DigitsValueFormatDigits(m);
    DigitsValueLeadingZeros(zeros, text);
    assert DigitsValue(digits) == m;
    AtoiSignedDigits(sign, digits);
  }

  lemma AtoiExamples()
    ensures Atoi("+5") == Some(5) && Atoi("007") == Some(7) && Atoi("-0") == Some(0)
    ensures Atoi("") == None && Atoi("-") == None && Atoi("1_000") == None && Atoi(" 1") == None
  {
    AtoiPaddedDigits("+", "", 5);
    assert "+" + "" + FormatDigits(5) == "+5";
    AtoiPaddedDigits("", "00", 7);
    assert "" + "00" + FormatDigits(7) == "007";
    AtoiPaddedDigits("-", "", 0);
    assert "-" + "" + FormatDigits(0) == "-0";
    assert !IsDigit("1_000"[1]) && !IsDigit(" 1"[0]);
  }
}
