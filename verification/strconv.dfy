/**
 * The two integer conversions the typed accessors use: Go's strconv.Itoa
 * (decimal text of an int) and strconv.Atoi (an optional sign followed by
 * decimal digits, within the 64-bit range of Go's `int`).
 */
module Strconv {
  import opened Wrappers

  const MinInt64: int := -0x8000_0000_0000_0000
  const MaxInt64: int := 0x7FFF_FFFF_FFFF_FFFF

  /** Go's `int` on a 64-bit platform. */
  type Int64 = x: int | MinInt64 <= x <= MaxInt64

  predicate IsDigit(c: char) {
    '0' <= c <= '9'
  }

  predicate AllDigits(s: string) {
    forall i | 0 <= i < |s| :: IsDigit(s[i])
  }

  function DigitChar(d: nat): (c: char)
    requires d < 10
    ensures IsDigit(c) && (c as int) - ('0' as int) == d
  {
    ('0' as int + d) as char
  }

  /** The value of a run of decimal digits, most significant first. */
  function DigitsValue(s: string): nat
    requires AllDigits(s)
  {
    if s == [] then 0 else DigitsValue(s[..|s| - 1]) * 10 + ((s[|s| - 1] as int) - ('0' as int))
  }

  /** The decimal digits of `n`, most significant first, without leading zeros. */
  function Digits(n: nat): (r: string)
    ensures |r| >= 1 && AllDigits(r)
    ensures r[0] == '0' <==> n == 0
    ensures r[0] == '0' ==> |r| == 1
  {
    if n < 10 then [DigitChar(n)] else Digits(n / 10) + [DigitChar(n % 10)]
  }

  lemma {:induction false} DigitsValueOfDigits(n: nat)
    ensures DigitsValue(Digits(n)) == n
  {
    if n >= 10 {
      var d := Digits(n);
      assert d[..|d| - 1] == Digits(n / 10);
      DigitsValueOfDigits(n / 10);
    }
  }

  /** strconv.Itoa: a '-' for a negative number, then the decimal digits
      of its magnitude without leading zeros. */
  function Itoa(n: int): (r: string)
    ensures |r| >= 1 && (r[0] == '-' <==> n < 0)
    ensures n >= 0 ==> AllDigits(r) && DigitsValue(r) == n && (r[0] == '0' ==> r == "0")
    ensures n < 0 ==> |r| >= 2 && AllDigits(r[1..]) && DigitsValue(r[1..]) == -n && r[1] != '0'
  {
    var m: nat := if n < 0 then -n else n;
    DigitsValueOfDigits(m);
    if n < 0 then
      assert ("-" + Digits(m))[1..] == Digits(m);
      "-" + Digits(m)
    else Digits(m)
  }

  /** strconv.Atoi: None stands for the syntax and range errors.  Digits
      alone, or '+' or '-' followed by at least one digit, are read in base
      10 when the value fits in 64 bits; any other text is rejected. */
  function Atoi(s: string): (r: Option<int>)
    ensures r.Some? ==> MinInt64 <= r.value <= MaxInt64
    ensures s == [] ==> r == None
    ensures s != [] && AllDigits(s) ==>
      r == (if DigitsValue(s) <= MaxInt64 then Some(DigitsValue(s)) else None)
    ensures s != [] && s[0] == '+' ==>
      r == (if |s| > 1 && AllDigits(s[1..]) && DigitsValue(s[1..]) <= MaxInt64
            then Some(DigitsValue(s[1..])) else None)
    ensures s != [] && s[0] == '-' ==>
      r == (if |s| > 1 && AllDigits(s[1..]) && DigitsValue(s[1..]) <= 0 - MinInt64
            then Some(0 - DigitsValue(s[1..])) else None)
    ensures s != [] && s[0] != '+' && s[0] != '-' && !AllDigits(s) ==> r == None
  {
    var signed := |s| > 0 && (s[0] == '+' || s[0] == '-');
    var body := if signed then s[1..] else s;
    if |body| == 0 || !AllDigits(body) then None
    else
      var magnitude := DigitsValue(body);
      var n: int := if s[0] == '-' then 0 - magnitude else magnitude;
      if MinInt64 <= n <= MaxInt64 then Some(n) else None
  }

  /** Reading back what Itoa wrote gives the same integer, for every Go int. */
  lemma AtoiOfItoa(n: Int64)
    ensures Atoi(Itoa(n)) == Some(n)
  {
    var m: nat := if n < 0 then 0 - (n as int) else n as int;
    DigitsValueOfDigits(m);
    var s := Itoa(n);
    if n < 0 {
      assert s[1..] == Digits(m);
    }
  }

  /** Sample readings: a '+' sign and leading zeros are accepted, a sign
      alone and a trailing letter are not. */
  lemma AtoiExamples()
    ensures Atoi("+007") == Some(7)
    ensures Atoi("-12") == Some(-12)
    ensures Atoi("-") == None
    ensures Atoi("1a") == None
  {
    assert "+007"[1..] == "007" && DigitsValue("007") == 7 by {
      assert "007"[..2] == "00" && "00"[..1] == "0";
    }
    assert "-12"[1..] == "12" && DigitsValue("12") == 12 by {
      assert "12"[..1] == "1";
    }
    assert !IsDigit("1a"[1]);
  }
}
