/** The helpers of the go-logger library (`util.go`): byte comparisons that
    ignore ASCII case, file-size text, the client address of a request and
    boolean environment flags.  A Go string is a sequence of bytes; here each
    `char` of a `String` stands for one byte. */
module LoggerUtil {
  import opened Wrappers
  import opened GoStrings
  import opened Decimal

  /** Go's `uint` arithmetic is modulo 2^64. */
  const UintModulus: int := 0x1_0000_0000_0000_0000

  /** `uint(c) - LowerA` with the wrap-around of unsigned subtraction. */
  function OffsetFromLowerA(c: char): (d: nat)
    ensures d < UintModulus
  {
    (c as int - 'a' as int) % UintModulus
  }

  /** The unsigned test `c - 'a' <= 'z' - 'a'` holds exactly for the lower-case letters:
      below 'a' the subtraction wraps around to a huge value. */
  lemma UnsignedRangeTest(c: char)
    ensures OffsetFromLowerA(c) <= 'z' as int - 'a' as int <==> IsAsciiLower(c)
  {
    if c as int < 'a' as int {
      assert OffsetFromLowerA(c) == c as int - 'a' as int + UintModulus;
    }
  }

  /** A byte with a lower-case letter moved down by 0x20, as the loops compare it. */
  function FoldByte(c: char): (v: int)
    ensures v == UpperChar(c) as int
  {
    UnsignedRangeTest(c);
    if OffsetFromLowerA(c) <= 'z' as int - 'a' as int then c as int - 0x20 else c as int
  }

  /** Two bytes compare equal after folding exactly when they are the same
      byte or the same letter in either case. */
  lemma FoldedBytesEqual(c: char, d: char)
    ensures FoldByte(c) == FoldByte(d) <==>
              c == d || (IsAsciiLetter(c) && IsAsciiLetter(d) && LowerChar(c) == LowerChar(d))
  {
  }

  /** The first `n` positions of `a` and `b` agree after folding. */
  function FoldedAgree(a: String, b: String, n: nat): (r: bool)
    requires n <= |a| && n <= |b|
    ensures r <==> forall k :: 0 <= k < n ==> UpperChar(a[k]) == UpperChar(b[k])
  {
    n == 0 || (FoldedAgree(a, b, n - 1) && FoldByte(a[n - 1]) == FoldByte(b[n - 1]))
  }

  /** `CaseInsensitiveEquals` (the go-util library has the same function):
      equal lengths and the same text after upper-casing the ASCII letters. */
  function CaseInsensitiveEquals(a: String, b: String): (r: bool)
    ensures r <==> |a| == |b| && ToUpper(a) == ToUpper(b)
  {
    if |a| != |b| then false
    else
      var r := FoldedAgree(a, b, |a|);
      assert r ==> ToUpper(a) == ToUpper(b);
      r
  }

  /** The comparison is reflexive and symmetric, and differing lengths never compare equal. */
  lemma CaseInsensitiveEqualsIsEquivalence(a: String, b: String, c: String)
    ensures CaseInsensitiveEquals(a, a)
    ensures CaseInsensitiveEquals(a, b) == CaseInsensitiveEquals(b, a)
    ensures CaseInsensitiveEquals(a, b) && CaseInsensitiveEquals(b, c) ==> CaseInsensitiveEquals(a, c)
    ensures |a| != |b| ==> !CaseInsensitiveEquals(a, b)
  {
  }

  /** `HasPrefixCaseInsensitive`: the corpus is at least as long as the prefix
      and its leading bytes equal the prefix up to case. */
  function HasPrefixCaseInsensitive(corpus: String, prefix: String): (r: bool)
    ensures r <==> |prefix| <= |corpus| && CaseInsensitiveEquals(corpus[..|prefix|], prefix)
  {
    if |corpus| < |prefix| then false
    else
      var r := FoldedAgree(corpus, prefix, |prefix|);
      assert r <==> ToUpper(corpus[..|prefix|]) == ToUpper(prefix);
      r
  }

  /** The last `n` bytes of `a` and of `b` agree after folding, position by
      position from the end. */
  function FoldedAgreeFromEnd(a: String, b: String, n: nat): (r: bool)
    requires n <= |a| && n <= |b|
    ensures r <==> forall k :: |b| - n <= k < |b| ==> UpperChar(a[k + |a| - |b|]) == UpperChar(b[k])
  {
    n == 0 || (FoldedAgreeFromEnd(a, b, n - 1) && FoldByte(a[|a| - n]) == FoldByte(b[|b| - n]))
  }

  /** `HasSuffixCaseInsensitive`: the trailing bytes equal the suffix up to case. */
  function HasSuffixCaseInsensitive(corpus: String, suffix: String): (r: bool)
    ensures r <==> |suffix| <= |corpus| && CaseInsensitiveEquals(corpus[|corpus| - |suffix|..], suffix)
  {
    if |corpus| < |suffix| then false
    else
      var r := FoldedAgreeFromEnd(corpus, suffix, |suffix|);
      var tail := corpus[|corpus| - |suffix|..];
      assert forall k :: 0 <= k < |suffix| ==> tail[k] == corpus[k + |corpus| - |suffix|];
      r
  }

  /** Every corpus has the empty prefix and suffix, and every prefix of a
      corpus, in any case, is found. */
  lemma AffixBoundaries(corpus: String, n: nat)
    requires n <= |corpus|
    ensures HasPrefixCaseInsensitive(corpus, []) && HasSuffixCaseInsensitive(corpus, [])
    ensures HasPrefixCaseInsensitive(corpus, ToLower(corpus[..n]))
    ensures HasSuffixCaseInsensitive(corpus, ToUpper(corpus[n..]))
    ensures n < |corpus| ==> !HasPrefixCaseInsensitive(corpus[..n], corpus)
  {
    var p := ToLower(corpus[..n]);
    assert ToUpper(p) == ToUpper(corpus[..n]) by {
      forall i | 0 <= i < n ensures UpperChar(LowerChar(corpus[i])) == UpperChar(corpus[i]) { }
    }
    var s := ToUpper(corpus[n..]);
    assert ToUpper(s) == ToUpper(corpus[n..]);
  }

  /** The units of the file-size text, largest first. */
  datatype SizeUnit = Bytes | KiloBytes | MegaBytes | GigaBytes

  function UnitSize(u: SizeUnit): nat {
    match u
    case Bytes => 1
    case KiloBytes => 0x400
    case MegaBytes => 0x10_0000
    case GigaBytes => 0x4000_0000
  }

  function UnitSuffix(u: SizeUnit): String {
    match u
    case Bytes => "B"
    case KiloBytes => "kB"
    case MegaBytes => "mB"
    case GigaBytes => "gB"
  }

  /** `FormatFileSize` (and `formatFileSize` of the server's request log): the
      size in the largest unit it reaches, rounded down, followed by the unit. */
  function FormatFileSize(sizeBytes: int): (r: String)
    ensures |r| >= 2 && r[|r| - 1] == 'B'
  {
    if sizeBytes >= 0x4000_0000 then FormatInt(sizeBytes / 0x4000_0000) + "gB"
    else if sizeBytes >= 0x10_0000 then FormatInt(sizeBytes / 0x10_0000) + "mB"
    else if sizeBytes >= 0x400 then FormatInt(sizeBytes / 0x400) + "kB"
    else FormatInt(sizeBytes) + "B"
  }

  /** Reading a file-size text: the unit from the suffix, the count from the digits before it. */
  function ParseFileSize(s: String): Option<(int, SizeUnit)> {
    if |s| == 0 || s[|s| - 1] != 'B' then None
    else
      var body := s[..|s| - 1];
      var unit :=
        if |body| > 0 && body[|body| - 1] == 'g' then GigaBytes
        else if |body| > 0 && body[|body| - 1] == 'm' then MegaBytes
        else if |body| > 0 && body[|body| - 1] == 'k' then KiloBytes
        else Bytes;
      var digits := if unit == Bytes then body else body[..|body| - 1];
      match ParseDecimal(digits)
      case None => None
      case Some(n) => Some((n, unit))
  }

  /** The unit a size is written in: the largest it reaches. */
  function UnitOf(sizeBytes: int): (u: SizeUnit)
    ensures u != Bytes ==> sizeBytes >= UnitSize(u)
    ensures u != GigaBytes ==> sizeBytes < 1024 * UnitSize(u)
  {
    if sizeBytes >= 0x4000_0000 then GigaBytes
    else if sizeBytes >= 0x10_0000 then MegaBytes
    else if sizeBytes >= 0x400 then KiloBytes
    else Bytes
  }

  /** The text reads back as the size in its unit, rounded down, and the unit. */
  lemma FileSizeParses(sizeBytes: int)
    ensures ParseFileSize(FormatFileSize(sizeBytes)) == Some((sizeBytes / UnitSize(UnitOf(sizeBytes)), UnitOf(sizeBytes)))
  {
    var unit := UnitOf(sizeBytes);
    var count := sizeBytes / UnitSize(unit);
    var digits := FormatInt(count);
    ParseFormatRoundTrip(count);
    var r := FormatFileSize(sizeBytes);
    assert r == digits + UnitSuffix(unit);
    var body := r[..|r| - 1];
    assert IsAsciiDigit(digits[|digits| - 1]) by {
      if count < 0 { assert digits[1..][|digits| - 2] == digits[|digits| - 1]; }
    }
    if unit == Bytes {
      assert body == digits;
    } else {
      assert body == digits + [UnitSuffix(unit)[0]];
      assert body[..|body| - 1] == digits;
    }
  }

  /** Division rounds down: the count of units covers the size with less than one unit left. */
  lemma CountBounds(sizeBytes: int, unit: nat)
    requires unit > 0
    ensures (sizeBytes / unit) * unit <= sizeBytes < (sizeBytes / unit + 1) * unit
  {
  }

  /** The text reads back as a count and a unit: the unit is the largest the
      size reaches (bytes below 1024), and the count is the size in that unit
      rounded down, at least one and below 1024 except in gigabytes. */
  lemma FileSizeReadsBack(sizeBytes: int)
    ensures ParseFileSize(FormatFileSize(sizeBytes)).Some?
    ensures var (count, unit) := ParseFileSize(FormatFileSize(sizeBytes)).value;
      count * UnitSize(unit) <= sizeBytes < (count + 1) * UnitSize(unit)
      && (unit != Bytes ==> sizeBytes >= UnitSize(unit) && count >= 1)
      && (unit != GigaBytes ==> sizeBytes < 1024 * UnitSize(unit))
  {
    FileSizeParses(sizeBytes);
    CountBounds(sizeBytes, UnitSize(UnitOf(sizeBytes)));
  }

  /** The client address from the headers: the value of `X-FORWARDED-FOR`,
      then of `X-REAL-IP`, up to its first comma; failing both, the host of
      the remote address (`remoteHost`, the host `net.SplitHostPort` returns). */
  function GetIP(forwardedFor: String, realIP: String, remoteHost: String): (ip: String)
    ensures |forwardedFor| > 0 ==> ip == FirstListed(forwardedFor)
    ensures |forwardedFor| == 0 && |realIP| > 0 ==> ip == FirstListed(realIP)
    ensures |forwardedFor| == 0 && |realIP| == 0 ==> ip == remoteHost
  {
    if |forwardedFor| > 0 then FirstListed(forwardedFor)
    else if |realIP| > 0 then FirstListed(realIP)
    else remoteHost
  }

  /** A header value up to its first comma: the whole value when it has none. */
  function FirstListed(headerVal: String): (r: String)
    ensures ',' !in r
    ensures r <= headerVal
    ensures |r| < |headerVal| ==> headerVal[|r|] == ','
  {
    if ',' !in headerVal then headerVal
    else
      var parts := SplitFirst(headerVal, ",");
      var i := FirstIndex(headerVal, ',');
      assert OccursAt(headerVal, ",", i);
      assert parts[0] == headerVal[..i];
      parts[0]
  }

  /** A list of addresses yields its first entry: "a, b" gives "a" whenever
      "a" holds no comma, whatever the other headers say. */
  lemma ForwardedListFirst(first: String, rest: String, realIP: String, remoteHost: String)
    requires ',' !in first
    ensures GetIP(first + "," + rest, realIP, remoteHost) == first
  {
    var v := first + "," + rest;
    var r := FirstListed(v);
    assert v[|first|] == ',';
    assert forall i :: 0 <= i < |first| ==> v[i] == first[i];
    assert |r| == |first|;
    assert v[..|first|] == first;
  }

  /** `envFlagIsSet` on the variable's value (empty when unset): a non-empty
      value is true exactly when it is "TRUE" in any case or "1". */
  function EnvFlagIsSet(flagValue: String, defaultValue: bool): (r: bool)
  {
    if |flagValue| > 0 then ToUpper(flagValue) == "TRUE" || flagValue == "1" else defaultValue
  }

  /** The flag is set by "true" spelled in any case or "1"; an empty value gives the default. */
  lemma EnvFlagSpellings(flagValue: String, defaultValue: bool)
    ensures EnvFlagIsSet(flagValue, defaultValue) <==>
              if |flagValue| == 0 then defaultValue
              else CaseInsensitiveEquals(flagValue, "true") || flagValue == "1"
    ensures EnvFlagIsSet("True", false) && EnvFlagIsSet("1", false) && !EnvFlagIsSet("yes", true)
  {
    assert ToUpper("true") == "TRUE";
    assert ToUpper("True") == "TRUE";
    assert ToUpper("yes") != "TRUE";
  }
}
