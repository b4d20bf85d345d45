/** The few operations of Go's `strings` package that the modelled code relies
    on, over `seq<char>`.  Case mapping and character classes are restricted
    to ASCII: every other character is left unchanged by the case maps and
    belongs to no class. */
module GoStrings {
  import opened Wrappers

  type String = seq<char>

  /** A Go string is a sequence of bytes: here a `String` whose characters are those bytes. */
  type ByteString = s: String | forall i :: 0 <= i < |s| ==> s[i] as int < 256 witness ""

  predicate IsAsciiUpper(c: char) { 'A' <= c <= 'Z' }
  predicate IsAsciiLower(c: char) { 'a' <= c <= 'z' }
  predicate IsAsciiDigit(c: char) { '0' <= c <= '9' }
  predicate IsAsciiLetter(c: char) { IsAsciiUpper(c) || IsAsciiLower(c) }

  /** The ASCII white space of Go's `unicode.IsSpace`: '\t', '\n', '\v', '\f', '\r' and ' '. */
  predicate IsAsciiSpace(c: char) {
    c == ' ' || c == '\t' || c == '\n' || c == '\r' || c == 11 as char || c == 12 as char
  }

  function LowerChar(c: char): char {
    if IsAsciiUpper(c) then (c as int + 32) as char else c
  }

  function UpperChar(c: char): char {
    if IsAsciiLower(c) then (c as int - 32) as char else c
  }

  /** `strings.ToLower` on the ASCII letters. */
  function ToLower(s: String): (r: String)
    ensures |r| == |s|
    ensures forall i :: 0 <= i < |s| ==> r[i] == LowerChar(s[i])
    ensures forall i :: 0 <= i < |r| ==> !IsAsciiUpper(r[i])
  {
    seq(|s|, i requires 0 <= i < |s| => LowerChar(s[i]))
  }

  /** `strings.ToUpper` on the ASCII letters. */
  function ToUpper(s: String): (r: String)
    ensures |r| == |s|
    ensures forall i :: 0 <= i < |s| ==> r[i] == UpperChar(s[i])
    ensures forall i :: 0 <= i < |r| ==> !IsAsciiLower(r[i])
  {
    seq(|s|, i requires 0 <= i < |s| => UpperChar(s[i]))
  }

  /** Lower-casing changes nothing in a value without upper-case letters. */
  lemma LowerUnchanged(s: String)
    requires forall i :: 0 <= i < |s| ==> !IsAsciiUpper(s[i])
    ensures ToLower(s) == s
  {
  }

  /** Upper-casing changes nothing in a value without lower-case letters. */
  lemma UpperUnchanged(s: String)
    requires forall i :: 0 <= i < |s| ==> !IsAsciiLower(s[i])
    ensures ToUpper(s) == s
  {
  }

  lemma LowerFoo()
    ensures ToLower("Foo") == "foo"
  {
    assert LowerChar('F') == 'f';
    assert ToLower("Foo") == [LowerChar('F'), LowerChar('o'), LowerChar('o')];
  }

  /** `strings.TrimLeft(s, cutset)`: drops the longest prefix made of cutset characters. */
  function TrimLeft(s: String, cutset: set<char>): (r: String)
    ensures |r| <= |s| && r == s[|s| - |r|..]
    ensures forall i :: 0 <= i < |s| - |r| ==> s[i] in cutset
    ensures |r| > 0 ==> r[0] !in cutset
  {
    if |s| > 0 && s[0] in cutset then
      var rest := s[1..];
      var r := TrimLeft(rest, cutset);
      assert rest[|rest| - |r|..] == s[|s| - |r|..];
      assert forall i :: 1 <= i < |s| - |r| ==> s[i] == rest[i - 1];
      r
    else s
  }

  /** `strings.TrimRight(s, cutset)`: drops the longest suffix made of cutset characters. */
  function TrimRight(s: String, cutset: set<char>): (r: String)
    ensures |r| <= |s| && r == s[..|r|]
    ensures forall i :: |r| <= i < |s| ==> s[i] in cutset
    ensures |r| > 0 ==> r[|r| - 1] !in cutset
  {
    if |s| > 0 && s[|s| - 1] in cutset then TrimRight(s[..|s| - 1], cutset) else s
  }

  /** `strings.Trim(s, cutset)`. */
  function Trim(s: String, cutset: set<char>): (r: String)
    ensures |r| <= |s|
    ensures |r| > 0 ==> r[0] !in cutset && r[|r| - 1] !in cutset
    ensures (forall i :: 0 <= i < |s| ==> s[i] in cutset) <==> r == []
  {
    var left := TrimLeft(s, cutset);
    var r := TrimRight(left, cutset);
    assert |r| > 0 ==> r[0] == left[0];
    r
  }

  /** Trimming changes nothing when neither end is in the cutset. */
  lemma TrimUnchanged(s: String, cutset: set<char>)
    requires |s| > 0 ==> s[0] !in cutset && s[|s| - 1] !in cutset
    ensures Trim(s, cutset) == s
  {
  }

  predicate OccursAt(s: String, sep: String, i: int) {
    0 <= i && i + |sep| <= |s| && s[i..i + |sep|] == sep
  }

  /** `strings.Index(s, sep)` for a non-empty separator: the first occurrence, if any. */
  function IndexOf(s: String, sep: String): (r: Option<nat>)
    requires |sep| > 0
    ensures r.Some? ==> OccursAt(s, sep, r.value)
    ensures r.Some? ==> forall j :: 0 <= j < r.value ==> !OccursAt(s, sep, j)
    ensures r.None? ==> forall j :: 0 <= j ==> !OccursAt(s, sep, j)
  {
    IndexFrom(s, sep, 0)
  }

  function IndexFrom(s: String, sep: String, k: nat): (r: Option<nat>)
    requires |sep| > 0
    requires k <= |s|
    ensures r.Some? ==> k <= r.value && OccursAt(s, sep, r.value)
    ensures r.Some? ==> forall j :: k <= j < r.value ==> !OccursAt(s, sep, j)
    ensures r.None? ==> forall j :: k <= j ==> !OccursAt(s, sep, j)
    decreases |s| - k
  {
    if k + |sep| > |s| then None
    else if s[k..k + |sep|] == sep then Some(k)
    else IndexFrom(s, sep, k + 1)
  }

  predicate Contains(s: String, sep: String)
    requires |sep| > 0
  {
    IndexOf(s, sep).Some?
  }

  /** `strings.HasPrefix`. */
  predicate HasPrefix(s: String, prefix: String) {
    |prefix| <= |s| && s[..|prefix|] == prefix
  }

  /** `strings.HasSuffix`. */
  predicate HasSuffix(s: String, suffix: String) {
    |suffix| <= |s| && s[|s| - |suffix|..] == suffix
  }

  /** `strings.SplitN(s, sep, 2)`: the text before the first separator and the
      rest, or the whole string alone when the separator does not occur. */
  function SplitFirst(s: String, sep: String): (parts: seq<String>)
    requires |sep| > 0
    ensures 1 <= |parts| <= 2
    ensures |parts| == 1 <==> IndexOf(s, sep).None?
    ensures |parts| == 1 ==> parts[0] == s
    ensures |parts| == 2 ==> s == parts[0] + sep + parts[1]
    ensures |parts| == 2 ==> forall j :: 0 <= j < |parts[0]| ==> !OccursAt(s, sep, j)
  {
    match IndexOf(s, sep)
    case None => [s]
    case Some(i) =>
      assert s == s[..i] + s[i..i + |sep|] + s[i + |sep|..];
      [s[..i], s[i + |sep|..]]
  }

  /** `strings.Split(s, string(c))`: every maximal run of non-`c` characters. */
  function SplitOn(s: String, c: char): (parts: seq<String>)
    ensures |parts| >= 1
    ensures forall k, j :: 0 <= k < |parts| && 0 <= j < |parts[k]| ==> parts[k][j] != c
    decreases |s|
  {
    if c !in s then [s]
    else
      var i := FirstIndex(s, c);
      [s[..i]] + SplitOn(s[i + 1..], c)
  }

  function FirstIndex(s: String, c: char): (i: nat)
    requires c in s
    ensures i < |s| && s[i] == c && c !in s[..i]
  {
    if s[0] == c then 0 else
      var i := 1 + FirstIndex(s[1..], c);
      assert s[..i] == [s[0]] + s[1..][..i - 1];
      i
  }

  /** `strings.Join(parts, sep)`. */
  function Join(parts: seq<String>, sep: String): (r: String)
    ensures |parts| == 0 ==> r == []
    ensures |parts| == 1 ==> r == parts[0]
    decreases |parts|
  {
    if |parts| == 0 then []
    else if |parts| == 1 then parts[0]
    else parts[0] + sep + Join(parts[1..], sep)
  }

  /** Splitting on a character and joining with it again gives back the input. */
  lemma {:induction false} JoinSplitOn(s: String, c: char)
    ensures Join(SplitOn(s, c), [c]) == s
    decreases |s|
  {
    if c in s {
      var i := FirstIndex(s, c);
      var rest := SplitOn(s[i + 1..], c);
      JoinSplitOn(s[i + 1..], c);
      var parts := [s[..i]] + rest;
      assert SplitOn(s, c) == parts;
      assert parts[0] == s[..i] && parts[1..] == rest && |parts| >= 2;
      assert Join(parts, [c]) == s[..i] + [c] + Join(rest, [c]);
      assert s == s[..i] + [c] + s[i + 1..];
    }
  }

  /** The first `c` of `p + [c] + t` is the one after `p` when `p` has none. */
  lemma FirstIndexAfter(p: String, c: char, t: String)
    requires c !in p
    ensures FirstIndex(p + [c] + t, c) == |p|
    ensures (p + [c] + t)[|p| + 1..] == t
  {
    var s := p + [c] + t;
    assert s[|p|] == c && s[..|p|] == p;
  }

  /** Joining parts that do not contain `c` with `c` and splitting on `c` gives the parts back. */
  lemma {:induction false} SplitOnJoin(parts: seq<String>, c: char)
    requires |parts| >= 1
    requires forall k :: 0 <= k < |parts| ==> c !in parts[k]
    ensures SplitOn(Join(parts, [c]), c) == parts
    decreases |parts|
  {
    if |parts| > 1 {
      var rest := parts[1..];
      var t := Join(rest, [c]);
      var s := Join(parts, [c]);
      assert s == parts[0] + [c] + t;
      FirstIndexAfter(parts[0], c, t);
      assert s[|parts[0]|] == c;
      assert s[..|parts[0]|] == parts[0];
      assert SplitOn(s, c) == [parts[0]] + SplitOn(t, c);
      SplitOnJoin(rest, c);
      assert parts == [parts[0]] + rest;
    }
  }

  /** `strings.Replace(s, target, value, -1)` for a non-empty `target`: every
      occurrence, scanning left to right without overlap, is replaced. */
  function ReplaceAll(s: String, target: String, value: String): (r: String)
    requires |target| > 0
    ensures (forall j :: 0 <= j ==> !OccursAt(s, target, j)) ==> r == s
    decreases |s|
  {
    if |s| < |target| then s
    else if s[..|target|] == target then
      assert OccursAt(s, target, 0);
      value + ReplaceAll(s[|target|..], target, value)
    else
      assert forall j :: 0 <= j ==> OccursAt(s[1..], target, j) ==> OccursAt(s, target, j + 1) by {
        forall j | 0 <= j && OccursAt(s[1..], target, j) ensures OccursAt(s, target, j + 1) {
          assert s[1..][j..j + |target|] == s[j + 1..j + 1 + |target|];
        }
      }
      [s[0]] + ReplaceAll(s[1..], target, value)
  }

  /** A text that lacks one of the characters of `target` is left as it is. */
  lemma ReplaceAbsent(s: String, target: String, value: String, c: char)
    requires |target| > 0 && c in target && c !in s
    ensures ReplaceAll(s, target, value) == s
  {
    var k :| 0 <= k < |target| && target[k] == c;
    forall j | 0 <= j ensures !OccursAt(s, target, j) {
      if j + |target| <= |s| {
        assert s[j..j + |target|][k] == s[j + k];
        assert s[j + k] in s;
      }
    }
  }

  /** An occurrence at the start is replaced and the scan goes on after it. */
  lemma ReplaceLeading(target: String, t: String, value: String)
    requires |target| > 0
    ensures ReplaceAll(target + t, target, value) == value + ReplaceAll(t, target, value)
  {
    assert (target + t)[..|target|] == target && (target + t)[|target|..] == t;
  }

  /** `target` does not occur where the text holds a character other than its first. */
  lemma NotOccursAtFirst(s: String, target: String, j: nat)
    requires |target| > 0 && j < |s| && s[j] != target[0]
    ensures !OccursAt(s, target, j)
  {
    if j + |target| <= |s| {
      assert s[j..j + |target|][0] != target[0];
    }
  }
}
