/** Base-10 formatting and parsing of integers, as Go's `strconv` package
    does it for `FormatInt(i, 10)`, `Itoa` and `ParseInt(s, 10, 64)`. */
module Strconv {
  import opened Wrappers

  const MaxUint64: int := 0xffff_ffff_ffff_ffff

  /** Go's `int64`. */
  newtype int64 = x: int | -0x8000_0000_0000_0000 <= x < 0x8000_0000_0000_0000

  predicate IsDigit(c: char) {
    '0' <= c <= '9'
  }

  predicate AllDigits(s: string) {
    forall i :: 0 <= i < |s| ==> IsDigit(s[i])
  }

  function DigitValue(c: char): (d: nat)
    requires IsDigit(c)
    ensures d < 10
  {
    (c as int) - ('0' as int)
  }

  function DigitChar(d: nat): (c: char)
    requires d < 10
    ensures IsDigit(c) && DigitValue(c) == d
  {
    (('0' as int) + d) as char
  }

  /** The decimal digits of `n`, most significant first, without leading zeros. */
  function Digits(n: nat): (s: string)
    ensures |s| > 0 && AllDigits(s)
    ensures s[0] == '0' ==> s == "0"
    decreases n
  {
    if n < 10 then [DigitChar(n)] else Digits(n / 10) + [DigitChar(n % 10)]
  }

  /** `strconv.FormatInt(n, 10)`: a leading '-' for negative numbers. */
  function FormatInt(n: int): (s: string)
    ensures |s| > 0 && (s[0] == '-' <==> n < 0)
    ensures n >= 0 ==> AllDigits(s)
    ensures n < 0 ==> |s| > 1 && AllDigits(s[1..])
  {
    if n < 0 then "-" + Digits(-n) else Digits(n)
  }

  /** The value of the digit string `s` read left to right, starting from `acc`. */
  function ValueFrom(s: string, acc: nat): nat
    requires AllDigits(s)
  {
    if s == [] then acc else ValueFrom(s[1..], acc * 10 + DigitValue(s[0]))
  }

  lemma {:induction false} ValueFromSnoc(s: string, c: char, acc: nat)
    requires AllDigits(s) && IsDigit(c)
    ensures AllDigits(s + [c])
    ensures ValueFrom(s + [c], acc) == ValueFrom(s, acc) * 10 + DigitValue(c)
  {
    if s != [] {
      assert (s + [c])[1..] == s[1..] + [c];
      ValueFromSnoc(s[1..], c, acc * 10 + DigitValue(s[0]));
    }
  }

  /** Reading back the digits of `n` gives `n`. */
  lemma {:induction false} ValueOfDigits(n: nat)
    ensures ValueFrom(Digits(n), 0) == n
    decreases n
  {
    if n >= 10 {
      ValueOfDigits(n / 10);
      ValueFromSnoc(Digits(n / 10), DigitChar(n % 10), 0);
    }
  }

  lemma {:induction false} ValueFromAtLeast(s: string, acc: nat)
    requires AllDigits(s)
    ensures ValueFrom(s, acc) >= acc
  {
    if s != [] {
      ValueFromAtLeast(s[1..], acc * 10 + DigitValue(s[0]));
    }
  }

  datatype NumError = ErrSyntax | ErrRange

  /** Go returns a value together with an optional error. */
  datatype UintResult = UintResult(value: nat, err: Option<NumError>)
  datatype IntResult = IntResult(value: int64, err: Option<NumError>)

  /** The digit loop of `ParseUint` for base 10 and 64 bits, from accumulator `acc`:
      a non-digit is a syntax error, and the first prefix whose value exceeds
      2^64-1 is a range error reported at once with the value 2^64-1, even if
      a non-digit follows. */
  function ParseUintFrom(s: string, acc: nat): (r: UintResult)
    requires acc <= MaxUint64
    ensures r.value <= MaxUint64
    ensures r.err == Some(ErrRange) ==> r.value == MaxUint64
    ensures r.err.None? ==> AllDigits(s) && r.value == ValueFrom(s, acc)
    ensures AllDigits(s) ==> r.err != Some(ErrSyntax)
    ensures r.err.None? || r.err == Some(ErrSyntax) || r.err == Some(ErrRange)
  {
    if s == [] then UintResult(acc, None)
    else if !IsDigit(s[0]) then UintResult(0, Some(ErrSyntax))
    else
      var n := acc * 10 + DigitValue(s[0]);
      if n > MaxUint64 then UintResult(MaxUint64, Some(ErrRange))
      else ParseUintFrom(s[1..], n)
  }

  /** `strconv.ParseUint(s, 10, 64)`: the empty string is a syntax error. */
  function ParseUint(s: string): (r: UintResult)
    ensures r.value <= MaxUint64
    ensures r.err == Some(ErrRange) ==> r.value == MaxUint64
    ensures r.err.None? ==> |s| > 0 && AllDigits(s) && r.value == ValueFrom(s, 0)
    ensures |s| > 0 && AllDigits(s) ==> r.err != Some(ErrSyntax)
    ensures r.err.None? || r.err == Some(ErrSyntax) || r.err == Some(ErrRange)
  {
    if s == [] then UintResult(0, Some(ErrSyntax)) else ParseUintFrom(s, 0)
  }

  /** The digits after an optional leading sign. */
  function Magnitude(s: string): string
    requires |s| > 0
  {
    if s[0] == '+' || s[0] == '-' then s[1..] else s
  }

  /** `strconv.ParseInt(s, 10, 64)`: an optional sign, then `ParseUint` on the rest;
      a syntax error yields 0, an out-of-range value is clamped to the int64 bound
      on its side and reported as a range error. */
  function ParseInt(s: string): (r: IntResult)
    ensures r.err == Some(ErrSyntax) ==> r.value == 0
    ensures r.err == Some(ErrRange) ==>
      |s| > 0 && r.value == (if s[0] == '-' then -0x8000_0000_0000_0000 else 0x7fff_ffff_ffff_ffff)
    ensures r.err.None? ==>
      && |s| > 0 && |Magnitude(s)| > 0 && AllDigits(Magnitude(s))
      && r.value as int == (if s[0] == '-' then -(ValueFrom(Magnitude(s), 0) as int) else ValueFrom(Magnitude(s), 0))
    ensures |s| > 0 && |Magnitude(s)| > 0 && AllDigits(Magnitude(s)) ==> r.err != Some(ErrSyntax)
  {
    if s == [] then IntResult(0, Some(ErrSyntax))
    else
      var neg := s[0] == '-';
      var u := ParseUint(Magnitude(s));
      if u.err == Some(ErrSyntax) then IntResult(0, Some(ErrSyntax))
      else if !neg && u.value >= 0x8000_0000_0000_0000 then IntResult(0x7fff_ffff_ffff_ffff, Some(ErrRange))
      else if neg && u.value > 0x8000_0000_0000_0000 then IntResult(-0x8000_0000_0000_0000, Some(ErrRange))
      else IntResult((if neg then -(u.value as int) else u.value as int) as int64, None)
  }

  /** A sign and leading zeros are accepted: "+007" and "-0" parse. */
  lemma ParseIntForms()
    ensures ParseInt("+007") == IntResult(7, None)
    ensures ParseInt("-0") == IntResult(0, None)
  {
    assert Magnitude("+007") == "007";
    assert Magnitude("-0") == "0";
    assert ParseUint("007") == UintResult(7, None);
  }

  /** When no prefix overflows, the digit loop returns the value of the digits. */
  lemma {:induction false} ParseUintFromDigits(s: string, acc: nat)
    requires AllDigits(s) && ValueFrom(s, acc) <= MaxUint64
    ensures acc <= MaxUint64
    ensures ParseUintFrom(s, acc) == UintResult(ValueFrom(s, acc), None)
  {
    ValueFromAtLeast(s, acc);
    if s != [] {
      ParseUintFromDigits(s[1..], acc * 10 + DigitValue(s[0]));
    }
  }

  /** Decimal rendering of an unsigned value parses back to it. */
  lemma ParseUintDigits(n: nat)
    requires n <= MaxUint64
    ensures ParseUint(Digits(n)) == UintResult(n, None)
  {
    ValueOfDigits(n);
    ParseUintFromDigits(Digits(n), 0);
  }

  /** `ParseInt` inverts `FormatInt` on every int64. */
  lemma ParseFormatInt(n: int64)
    ensures ParseInt(FormatInt(n as int)) == IntResult(n, None)
  {
    var s := FormatInt(n as int);
    if n < 0 {
      assert s[1..] == Digits(-(n as int));
      ParseUintDigits(-(n as int));
    } else {
      ParseUintDigits(n as int);
    }
  }

  /** Different int64 values have different decimal renderings. */
  lemma FormatIntInjective(a: int64, b: int64)
    requires FormatInt(a as int) == FormatInt(b as int)
    ensures a == b
  {
    ParseFormatInt(a);
    ParseFormatInt(b);
  }
}
