/** Decimal text for integers: Go's `strconv.Itoa` and the base-10, 64-bit
    `strconv.ParseInt` / `strconv.Atoi`, including their error values. */
module Decimal {
  import opened Wrappers
  import opened GoStrings

  const MaxInt64: int := 0x7fff_ffff_ffff_ffff
  const MinInt64: int := -0x8000_0000_0000_0000

  predicate IsInt64(n: int) { MinInt64 <= n <= MaxInt64 }

  function DigitChar(d: nat): char
    requires d < 10
  {
    ('0' as int + d) as char
  }

  function DigitValue(c: char): nat
    requires IsAsciiDigit(c)
  {
    c as int - '0' as int
  }

  predicate AllDigits(s: String) {
    forall i :: 0 <= i < |s| ==> IsAsciiDigit(s[i])
  }

  /** The decimal digits of a natural number, most significant first, without leading zeros. */
  function NatDigits(n: nat): (r: String)
    ensures |r| > 0 && AllDigits(r)
    ensures |r| > 1 ==> r[0] != '0'
    decreases n
  {
    if n < 10 then [DigitChar(n)] else NatDigits(n / 10) + [DigitChar(n % 10)]
  }

  /** `strconv.Itoa`: an optional '-' followed by the digits of the magnitude. */
  function FormatInt(n: int): (r: String)
    ensures |r| > 0
    ensures n < 0 <==> r[0] == '-'
    ensures n >= 0 ==> AllDigits(r)
    ensures n < 0 ==> AllDigits(r[1..]) && |r| > 1
  {
    if n < 0 then "-" + NatDigits(-n) else NatDigits(n)
  }

  /** The value of a non-empty run of digits. */
  function DigitsValue(s: String): nat
    requires AllDigits(s)
    decreases |s|
  {
    if |s| == 0 then 0 else DigitsValue(s[..|s| - 1]) * 10 + DigitValue(s[|s| - 1])
  }

  /** The integer written by `s`: an optional sign and at least one digit. */
  function ParseDecimal(s: String): (r: Option<int>)
    ensures r.Some? <==>
      (|s| > 0 && AllDigits(s) ) ||
      (|s| > 1 && (s[0] == '-' || s[0] == '+') && AllDigits(s[1..]))
    ensures r.Some? && |s| > 0 && s[0] == '-' ==> r.value <= 0
    ensures r.Some? && |s| > 0 && s[0] != '-' ==> r.value >= 0
  {
    if |s| == 0 then None
    else if s[0] == '-' || s[0] == '+' then
      var body := s[1..];
      if |body| > 0 && AllDigits(body) then
        var magnitude: int := DigitsValue(body);
        Some(if s[0] == '-' then -magnitude else magnitude)
      else None
    else if AllDigits(s) then Some(DigitsValue(s))
    else None
  }

  datatype NumError = ErrSyntax | ErrRange

  /** Go's `(value, error)` pair from a numeric conversion. */
  datatype Parsed = Parsed(value: int, err: Option<NumError>)

  /** `strconv.ParseInt(s, 10, 64)`, which `strconv.Atoi` also follows on a
      64-bit platform: a syntax error yields 0, an out-of-range value yields
      the bound of its sign. */
  function ParseInt64(s: String): (r: Parsed)
    ensures IsInt64(r.value)
    ensures r.err == Some(ErrSyntax) <==> ParseDecimal(s).None?
    ensures r.err == Some(ErrSyntax) ==> r.value == 0
    ensures r.err.None? <==> ParseDecimal(s).Some? && IsInt64(ParseDecimal(s).value)
    ensures r.err.None? ==> r.value == ParseDecimal(s).value
    ensures r.err == Some(ErrRange) ==>
      (ParseDecimal(s).value > MaxInt64 && r.value == MaxInt64) ||
      (ParseDecimal(s).value < MinInt64 && r.value == MinInt64)
  {
    match ParseDecimal(s)
    case None => Parsed(0, Some(ErrSyntax))
    case Some(v) =>
      if v > MaxInt64 then Parsed(MaxInt64, Some(ErrRange))
      else if v < MinInt64 then Parsed(MinInt64, Some(ErrRange))
      else Parsed(v, None)
  }

  lemma {:induction false} DigitsValueAppend(s: String, c: char)
    requires AllDigits(s) && IsAsciiDigit(c)
    ensures AllDigits(s + [c])
    ensures DigitsValue(s + [c]) == DigitsValue(s) * 10 + DigitValue(c)
  {
    assert (s + [c])[..|s|] == s;
  }

  lemma {:induction false} NatDigitsValue(n: nat)
    ensures DigitsValue(NatDigits(n)) == n
    decreases n
  {
    if n < 10 {
    } else {
      NatDigitsValue(n / 10);
      DigitsValueAppend(NatDigits(n / 10), DigitChar(n % 10));
    }
  }

  /** Reading back what `FormatInt` wrote gives the original integer. */
  lemma {:induction false} ParseFormatRoundTrip(n: int)
    ensures ParseDecimal(FormatInt(n)) == Some(n)
  {
    if n < 0 {
      NatDigitsValue(-n);
      assert FormatInt(n)[1..] == NatDigits(-n);
    } else {
      NatDigitsValue(n);
    }
  }

  /** On 64-bit values the conversion pair round-trips without error. */
  lemma ParseInt64FormatRoundTrip(n: int)
    requires IsInt64(n)
    ensures ParseInt64(FormatInt(n)) == Parsed(n, None)
  {
    ParseFormatRoundTrip(n);
  }
}
