/**
 * Go's fixed-width integers and the `strconv.Atoi` decimal parser, with
 * `strconv.Itoa` as its reference inverse.
 */
module GoStrconv {
  import opened Results

  const MinInt64: int := -0x8000_0000_0000_0000
  const MaxInt64: int := 0x7fff_ffff_ffff_ffff

  /** Go's `int` on a 64-bit platform, and `int64`. */
  type int64 = x: int | MinInt64 <= x <= MaxInt64

  /** Go's `uint` on a 64-bit platform. */
  type uint64 = x: int | 0 <= x < 0x1_0000_0000_0000_0000

  /** Two's-complement wrap-around of an exact product or sum into `int64`. */
  function Wrap64(x: int): (r: int64)
    ensures MinInt64 <= x <= MaxInt64 ==> r == x
    ensures (x - r) % 0x1_0000_0000_0000_0000 == 0
  {
    (x - MinInt64) % 0x1_0000_0000_0000_0000 + MinInt64
  }

  /** The error `strconv.Atoi` reports, naming the rejected input. */
  datatype NumError = NumError(num: string)

  predicate IsDigit(c: char) {
    '0' <= c <= '9'
  }

  predicate AllDigits(s: string) {
    forall i :: 0 <= i < |s| ==> IsDigit(s[i])
  }

  /** The value of a run of decimal digits, most significant first. */
  function DigitsValue(s: string): nat
    requires AllDigits(s)
    decreases |s|
  {
    if |s| == 0 then 0
    else DigitsValue(s[..|s| - 1]) * 10 + (s[|s| - 1] as int - '0' as int)
  }

  /** The sign `Atoi` reads: -1 after a leading `-`, otherwise 1. */
  function Sign(s: string): int {
    if |s| > 0 && s[0] == '-' then -1 else 1
  }

  /** What follows an optional leading `+` or `-`. */
  function Magnitude(s: string): string {
    if |s| > 0 && (s[0] == '+' || s[0] == '-') then s[1..] else s
  }

  /**
   * `strconv.Atoi`: an optional `+` or `-` followed by at least one decimal
   * digit, whose value must fit in a 64-bit `int`.
   */
  function Atoi(s: string): (r: Result<int64, NumError>)
    ensures r.Success? <==>
      && |Magnitude(s)| > 0 && AllDigits(Magnitude(s))
      && MinInt64 <= Sign(s) * DigitsValue(Magnitude(s)) <= MaxInt64
    ensures r.Success? ==> r.value == Sign(s) * DigitsValue(Magnitude(s))
    ensures r.Success? ==> |s| > 0 && forall i :: 0 < i < |s| ==> IsDigit(s[i])
    ensures r.Success? ==> (IsDigit(s[0]) || s[0] == '+' || s[0] == '-')
    ensures r.Failure? ==> r.error == NumError(s)
  {
    var signed := |s| > 0 && (s[0] == '+' || s[0] == '-');
    var digits := if signed then s[1..] else s;
    if |digits| == 0 || !AllDigits(digits) then Failure(NumError(s))
    else
      var v: int := if signed && s[0] == '-' then -(DigitsValue(digits) as int) else DigitsValue(digits);
      if MinInt64 <= v <= MaxInt64 then Success(v) else Failure(NumError(s))
  }

  function DigitChar(d: nat): char
    requires d < 10
  {
    ('0' as int + d) as char
  }

  /** Decimal digits of a natural number, most significant first, no leading zeros. */
  function NatDigits(n: nat): string
    decreases n
  {
    if n < 10 then [DigitChar(n)] else NatDigits(n / 10) + [DigitChar(n % 10)]
  }

  /** `strconv.Itoa`: the canonical decimal rendering of an `int`. */
  function Itoa(n: int64): string {
    if n < 0 then "-" + NatDigits(-(n as int)) else NatDigits(n)
  }

  lemma {:induction false} NatDigitsValue(n: nat)
    ensures |NatDigits(n)| > 0
    ensures AllDigits(NatDigits(n))
    ensures DigitsValue(NatDigits(n)) == n
    decreases n
  {
    var s := NatDigits(n);
    if n >= 10 {
      NatDigitsValue(n / 10);
      assert s[..|s| - 1] == NatDigits(n / 10);
    }
  }

  /** `Atoi` reads an unsigned run of digits as its value. */
  lemma AtoiUnsigned(d: string)
    requires |d| > 0 && AllDigits(d) && DigitsValue(d) <= MaxInt64
    ensures Atoi(d) == Success(DigitsValue(d))
  {
    assert IsDigit(d[0]);
  }

  /** `Atoi` reads a minus sign followed by digits as the negated value. */
  lemma AtoiNegative(d: string)
    requires |d| > 0 && AllDigits(d) && DigitsValue(d) <= -MinInt64
    ensures Atoi("-" + d) == Success(-(DigitsValue(d) as int))
  {
    assert ("-" + d)[1..] == d;
  }

  /** A leading `+` before an unsigned string changes nothing but the error's input. */
  lemma AtoiPlusSign(d: string)
    requires |d| == 0 || (d[0] != '+' && d[0] != '-')
    ensures Atoi("+" + d) == if Atoi(d).Success? then Atoi(d) else Failure(NumError("+" + d))
  {
  }

  /** A leading zero does not change the value of a run of digits. */
  lemma {:induction false} DigitsValueLeadingZero(d: string)
    requires AllDigits(d)
    ensures AllDigits("0" + d) && DigitsValue("0" + d) == DigitsValue(d)
    decreases |d|
  {
    if |d| > 0 {
      var p := d[..|d| - 1];
      DigitsValueLeadingZero(p);
      assert ("0" + d)[..|d|] == "0" + p;
    }
  }

  /** `Atoi` ignores leading zeros. */
  lemma AtoiLeadingZero(d: string)
    requires |d| > 0 && AllDigits(d)
    ensures Atoi("0" + d) == if Atoi(d).Success? then Atoi(d) else Failure(NumError("0" + d))
  {
    DigitsValueLeadingZero(d);
  }

  /** `Atoi` reads back every value `Itoa` writes. */
  lemma AtoiItoa(n: int64)
    ensures Atoi(Itoa(n)) == Success(n)
  {
    if n < 0 {
      NatDigitsValue(-(n as int));
      AtoiNegative(NatDigits(-(n as int)));
    } else {
      NatDigitsValue(n);
      AtoiUnsigned(NatDigits(n));
    }
  }
}
