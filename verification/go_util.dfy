/** The string helpers of the go-util library (`string.go`) that the server
    and its libraries use: coalescing, ASCII letter classes, path joining,
    quote stripping, integer lists and ANSI colour codes. */
module GoUtil {
  import opened Wrappers
  import opened GoStrings
  import opened Decimal

  /** `EmptyCoalesce`: the first non-empty input, or the empty string. */
  function EmptyCoalesce(inputs: seq<String>): (r: String)
    ensures r == [] <==> forall k :: 0 <= k < |inputs| ==> inputs[k] == []
    ensures r != [] ==> exists k :: 0 <= k < |inputs| && inputs[k] == r && forall j :: 0 <= j < k ==> inputs[j] == []
  {
    if |inputs| == 0 then []
    else if |inputs[0]| != 0 then inputs[0]
    else
      var r := EmptyCoalesce(inputs[1..]);
      assert forall k :: 1 <= k < |inputs| ==> inputs[k] == inputs[1..][k - 1];
      if r != [] then
        var k :| 0 <= k < |inputs[1..]| && inputs[1..][k] == r && forall j :: 0 <= j < k ==> inputs[1..][j] == [];
        assert inputs[k + 1] == r && forall j :: 0 <= j < k + 1 ==> inputs[j] == [];
        r
      else r
  }

  /** `IsUpper` as written: the bounds are strict, so 'A' and 'Z' are not upper case. */
  predicate IsUpper(c: char) { 'A' < c < 'Z' }

  /** `IsLower` as written: 'a' and 'z' are not lower case. */
  predicate IsLower(c: char) { 'a' < c < 'z' }

  /** `IsLetter` as written. */
  predicate IsLetter(c: char) { IsUpper(c) || IsLower(c) }

  /** The letter test as written misses exactly the four letters at the ends of the two ranges. */
  lemma IsLetterMissesEnds(c: char)
    ensures IsLetter(c) <==> IsAsciiLetter(c) && c !in {'A', 'Z', 'a', 'z'}
    ensures !IsLetter('A') && !IsLetter('Z') && !IsLetter('a') && !IsLetter('z')
  {
  }

  /** The letter classes with inclusive bounds. */
  predicate IsUpperInclusive(c: char) { 'A' <= c <= 'Z' }
  predicate IsLowerInclusive(c: char) { 'a' <= c <= 'z' }
  predicate IsLetterInclusive(c: char) { IsUpperInclusive(c) || IsLowerInclusive(c) }

  /** With inclusive bounds, a character is an upper-case letter exactly when
      lower-casing changes it, a lower-case letter exactly when upper-casing
      changes it, and a letter exactly when one of the two does. */
  lemma InclusiveClassesMatchCaseMaps(c: char)
    ensures IsUpperInclusive(c) <==> LowerChar(c) != c
    ensures IsLowerInclusive(c) <==> UpperChar(c) != c
    ensures IsLetterInclusive(c) <==> LowerChar(c) != c || UpperChar(c) != c
  {
  }

  /** The class as written disagrees with the case maps on 'A'. */
  lemma IsUpperDisagreesWithCaseMap()
    ensures LowerChar('A') != 'A' && !IsUpper('A')
  {
  }

  /** `r` occurs in `s` starting at index `a`. */
  predicate InfixAt(r: String, s: String, a: int) {
    0 <= a && a + |r| <= |s| && s[a..a + |r|] == r
  }

  /** One component with at most one leading and at most one trailing '/' removed. */
  function StripSlashes(component: String): (r: String)
    ensures |component| > 0 && component[0] == '/' ==> InfixAt(r, component, 1) && |component| - |r| <= 2
    ensures (|component| == 0 || component[0] != '/') ==> InfixAt(r, component, 0) && |component| - |r| <= 1
    ensures |r| < |component| - 1 || (|r| == |component| - 1 && component[0] != '/') ==> component[|component| - 1] == '/'
  {
    var w := if |component| > 0 && component[0] == '/' then component[1..] else component;
    if |w| > 0 && w[|w| - 1] == '/' then w[..|w| - 1] else w
  }

  /** The components each stripped of their outer slashes. */
  function StripAll(components: seq<String>): (r: seq<String>)
    ensures |r| == |components|
    ensures forall k :: 0 <= k < |r| ==> r[k] == StripSlashes(components[k])
  {
    seq(|components|, k requires 0 <= k < |components| => StripSlashes(components[k]))
  }

  /** The parts each followed by a '/'. */
  function SlashTerminated(parts: seq<String>): String
    decreases |parts|
  {
    if |parts| == 0 then [] else SlashTerminated(parts[..|parts| - 1]) + parts[|parts| - 1] + "/"
  }

  /** Joining with '/' is the slash-terminated prefix followed by the last part. */
  lemma {:induction false} JoinAsTerminated(parts: seq<String>)
    requires |parts| >= 1
    ensures Join(parts, "/") == SlashTerminated(parts[..|parts| - 1]) + parts[|parts| - 1]
    decreases |parts|
  {
    if |parts| > 1 {
      var rest := parts[1..];
      JoinAsTerminated(rest);
      TerminatedCons(parts[0], rest[..|rest| - 1]);
      assert parts[..|parts| - 1] == [parts[0]] + rest[..|rest| - 1];
    }
  }

  /** Putting one part in front of the slash-terminated list. */
  lemma {:induction false} TerminatedCons(p: String, parts: seq<String>)
    ensures SlashTerminated([p] + parts) == p + "/" + SlashTerminated(parts)
    decreases |parts|
  {
    if |parts| > 0 {
      var q := [p] + parts;
      assert q[..|q| - 1] == [p] + parts[..|parts| - 1];
      TerminatedCons(p, parts[..|parts| - 1]);
    }
  }

  /** `CombinePathComponents`: the components stripped of one leading and one
      trailing '/' each, joined with single slashes. */
  method CombinePathComponents(components: seq<String>) returns (fullPath: String)
    ensures fullPath == Join(StripAll(components), "/")
  {
    var stripped := StripAll(components);
    fullPath := "";
    var index := 0;
    while index < |components|
      invariant 0 <= index <= |components|
      invariant index < |components| || |components| == 0 ==> fullPath == SlashTerminated(stripped[..index])
      invariant index == |components| && |components| > 0 ==> fullPath == Join(stripped, "/")
    {
      var workingComponent := StripSlashes(components[index]);
      assert stripped[..index + 1][..index] == stripped[..index];
      if index != |components| - 1 {
        fullPath := fullPath + workingComponent + "/";
      } else {
        fullPath := fullPath + workingComponent;
        JoinAsTerminated(stripped);
        assert stripped[..|stripped| - 1] == stripped[..index];
      }
      index := index + 1;
    }
  }

  /** Components without outer slashes are joined unchanged. */
  lemma PlainComponentsJoined(components: seq<String>)
    requires forall k :: 0 <= k < |components| ==>
               |components[k]| > 0 && components[k][0] != '/' && components[k][|components[k]| - 1] != '/'
    ensures StripAll(components) == components
  {
  }

  /** Only one slash is stripped at each end: "//a/" and "b" combine to "/a/b". */
  lemma OneSlashStripped()
    ensures Join(StripAll(["//a/", "b"]), "/") == "/a/b"
  {
    assert StripSlashes("//a/") == "/a";
    assert StripSlashes("b") == "b";
    assert StripAll(["//a/", "b"]) == ["/a", "b"];
  }

  predicate IsQuote(c: char) { c == '\'' || c == '"' }

  /** `StripQuotes`: the input without its ' and " characters. */
  function StripQuotes(input: String): (output: String)
    ensures |output| <= |input|
    ensures forall i :: 0 <= i < |output| ==> !IsQuote(output[i])
    ensures (forall i :: 0 <= i < |input| ==> !IsQuote(input[i])) ==> output == input
    decreases |input|
  {
    if |input| == 0 then []
    else
      var rest := StripQuotes(input[..|input| - 1]);
      if IsQuote(input[|input| - 1]) then rest else rest + [input[|input| - 1]]
  }

  /** Stripping distributes over concatenation: the other characters keep their order. */
  lemma {:induction false} StripQuotesAppend(a: String, b: String)
    ensures StripQuotes(a + b) == StripQuotes(a) + StripQuotes(b)
    decreases |b|
  {
    if |b| > 0 {
      var b' := b[..|b| - 1];
      assert (a + b)[..|a + b| - 1] == a + b';
      StripQuotesAppend(a, b');
    } else {
      assert a + b == a;
    }
  }

  /** The number of characters of `s` that are not quotes. */
  function NonQuoteCount(s: String): nat
    decreases |s|
  {
    if |s| == 0 then 0 else NonQuoteCount(s[1..]) + (if IsQuote(s[0]) then 0 else 1)
  }

  /** Exactly the quotes are removed: the output holds every other character. */
  lemma {:induction false} StripQuotesKeepsOthers(s: String)
    ensures |StripQuotes(s)| == NonQuoteCount(s)
    decreases |s|
  {
    if |s| > 0 {
      StripQuotesAppend([s[0]], s[1..]);
      assert [s[0]] + s[1..] == s;
      StripQuotesKeepsOthers(s[1..]);
      assert StripQuotes([s[0]]) == (if IsQuote(s[0]) then [] else [s[0]]);
    }
  }

  /** Stripping twice is stripping once. */
  lemma StripQuotesIdempotent(s: String)
    ensures StripQuotes(StripQuotes(s)) == StripQuotes(s)
  {
  }

  /** `ToCSVOfInt`: the decimal forms of the integers joined with ",". */
  function ToCSVOfInt(input: seq<int>): (r: String)
    ensures |input| == 0 ==> r == []
  {
    Join(seq(|input|, k requires 0 <= k < |input| => FormatInt(input[k])), ",")
  }

  /** A non-empty list is read back by splitting at the commas and parsing each field. */
  lemma CSVOfIntReadsBack(input: seq<int>)
    requires |input| > 0
    ensures var fields := SplitOn(ToCSVOfInt(input), ',');
      |fields| == |input| && forall k :: 0 <= k < |input| ==> ParseDecimal(fields[k]) == Some(input[k])
  {
    var parts := seq(|input|, k requires 0 <= k < |input| => FormatInt(input[k]));
    forall k | 0 <= k < |parts| ensures ',' !in parts[k] && ParseDecimal(parts[k]) == Some(input[k]) {
      ParseFormatRoundTrip(input[k]);
    }
    SplitOnJoin(parts, ',');
  }

  /** `ParseInt`: the value of a decimal integer that fits 64 bits, 0 for anything else. */
  function ParseInt(input: String): (r: int)
    ensures IsInt64(r)
    ensures ParseDecimal(input).Some? && IsInt64(ParseDecimal(input).value) ==> r == ParseDecimal(input).value
    ensures ParseDecimal(input).None? ==> r == 0
    ensures ParseDecimal(input).Some? && !IsInt64(ParseDecimal(input).value) ==> r == 0
  {
    var parsed := ParseInt64(input);
    if parsed.err.Some? then 0 else parsed.value
  }

  /** Formatting then parsing a 64-bit integer gives it back. */
  lemma ParseIntFormatInt(n: int)
    requires IsInt64(n)
    ensures ParseInt(FormatInt(n)) == n
  {
    ParseFormatRoundTrip(n);
  }

  const Esc: char := 27 as char
  const ColorReset: String := "0m"
  const ColorRed: String := "0;31m"
  const ColorGreen: String := "0;32m"
  const ColorYellow: String := "0;33m"
  const ColorBlue: String := "0;34m"
  const ColorLightWhite: String := "1;37m"
  /** The grey of the library is its light white. */
  const ColorGray: String := ColorLightWhite

  /** `AnsiEscapeCode`: ESC and '[' before the code. */
  function AnsiEscapeCode(code: String): (r: String)
    ensures |r| == |code| + 2 && r[0] == Esc && r[1] == '[' && r[2..] == code
  {
    [Esc, '['] + code
  }

  /** `Color`: the input between the escape for the code and the reset escape. */
  function Color(input: String, colorCode: String): (r: String)
    ensures |r| == |colorCode| + |input| + 6
    ensures r[..|colorCode| + 2] == AnsiEscapeCode(colorCode)
    ensures r[|r| - 4..] == AnsiEscapeCode(ColorReset)
  {
    AnsiEscapeCode(colorCode) + input + AnsiEscapeCode(ColorReset)
  }

  /** The coloured text is recovered by dropping the two escapes. */
  lemma UncolorColor(input: String, colorCode: String)
    ensures var r := Color(input, colorCode); r[|colorCode| + 2..|r| - 4] == input
  {
  }
}
