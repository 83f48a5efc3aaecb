/**
 * Go's `strconv.Atoi` on 64-bit platforms, and the decimal rendering `%d`
 * that the selectors use in their error messages.
 */
module GoStrconv {
  import opened Wrappers

  const MaxInt64: int := 0x7fff_ffff_ffff_ffff
  const MinInt64: int := -0x8000_0000_0000_0000

  predicate IsDigit(c: char)
  {
    '0' <= c <= '9'
  }

  /** One or more ASCII digits: what the regular expression `^\d+$` accepts. */
  predicate IsDigits(s: string)
  {
    |s| > 0 && forall i :: 0 <= i < |s| ==> IsDigit(s[i])
  }

  /** An optional sign followed by one or more ASCII digits: the syntax Atoi accepts. */
  predicate IsSigned(s: string)
  {
    |s| > 0 && (if s[0] == '+' || s[0] == '-' then IsDigits(s[1..]) else IsDigits(s))
  }

  function DigitValue(c: char): nat
    requires IsDigit(c)
  {
    c as int - '0' as int
  }

  /** The value of a run of decimal digits, most significant first. */
  function DigitsValue(s: string): (n: nat)
    requires forall i :: 0 <= i < |s| ==> IsDigit(s[i])
    decreases |s|
  {
    if |s| == 0 then 0 else DigitsValue(s[..|s| - 1]) * 10 + DigitValue(s[|s| - 1])
  }

  /** The mathematical value of a well-formed signed decimal. */
  function SignedValue(s: string): int
    requires IsSigned(s)
  {
    if s[0] == '-' then -(DigitsValue(s[1..]) as int)
    else if s[0] == '+' then DigitsValue(s[1..])
    else DigitsValue(s)
  }

  /**
   * The quoted input in strconv's error messages. strconv.Quote also escapes
   * control, non-printable and quote characters; this wraps the text only.
   */
  function Quote(s: string): string
  {
    "\"" + s + "\""
  }

  /**
   * strconv.Atoi: a signed decimal that fits in 64 bits, a syntax error, or a
   * range error.
   */
  function Atoi(s: string): (r: Result<int>)
    ensures r.Ok? <==> IsSigned(s) && MinInt64 <= SignedValue(s) <= MaxInt64
    ensures r.Ok? ==> r.value == SignedValue(s)
  {
    if !IsSigned(s) then Err("strconv.Atoi: parsing " + Quote(s) + ": invalid syntax")
    else
      var v := SignedValue(s);
      if v < MinInt64 || MaxInt64 < v then Err("strconv.Atoi: parsing " + Quote(s) + ": value out of range")
      else Ok(v)
  }

  /**
   * The integer Atoi returns next to its error: 0 on a syntax error, the
   * nearest 64-bit bound on a range error.
   */
  function AtoiValue(s: string): (n: int)
    ensures MinInt64 <= n <= MaxInt64
    ensures Atoi(s).Ok? ==> n == Atoi(s).value
    ensures !IsSigned(s) ==> n == 0
  {
    if !IsSigned(s) then 0
    else
      var v := SignedValue(s);
      if v < MinInt64 then MinInt64 else if MaxInt64 < v then MaxInt64 else v
  }

  function DigitChar(d: nat): (c: char)
    requires d < 10
    ensures IsDigit(c) && DigitValue(c) == d
  {
    ('0' as int + d) as char
  }

  /** Decimal digits of a natural number, without leading zeros. */
  function NatDigits(n: nat): (s: string)
    ensures |s| > 0 && forall i :: 0 <= i < |s| ==> IsDigit(s[i])
    decreases n
  {
    if n < 10 then [DigitChar(n)] else NatDigits(n / 10) + [DigitChar(n % 10)]
  }

  /** `%d`: an optional minus sign and the decimal digits. */
  function Itoa(n: int): string
  {
    if n < 0 then "-" + NatDigits(-n) else NatDigits(n)
  }

  lemma {:induction false} NatDigitsValue(n: nat)
    ensures DigitsValue(NatDigits(n)) == n
    decreases n
  {
    if n >= 10 {
      var s := NatDigits(n);
      NatDigitsValue(n / 10);
      assert s[..|s| - 1] == NatDigits(n / 10);
    }
  }

  /** Atoi reads back every 64-bit integer that Itoa renders. */
  lemma {:induction false} AtoiItoa(n: int)
    requires MinInt64 <= n <= MaxInt64
    ensures Atoi(Itoa(n)) == Ok(n)
  {
    var s := Itoa(n);
    if n < 0 {
      NatDigitsValue(-n);
      assert s[1..] == NatDigits(-n);
    } else {
      NatDigitsValue(n);
    }
  }

  lemma {:induction false} AtoiExamples()
    ensures Atoi("-1") == Ok(-1)
    ensures Atoi("+12") == Ok(12)
    ensures Atoi("a").Err?
    ensures Atoi("").Err?
    ensures Atoi("-").Err?
  {
    assert DigitsValue("1") == 1;
    assert DigitsValue("12") == 12 by {
      assert "12"[..1] == "1";
    }
    assert !IsDigit('a');
  }
}
