/** The padded base 64 encoding of section 4 of RFC 4648, as Go's
    `base64.StdEncoding` applies it: every 3 bytes become 4 characters of the
    alphabet A-Z, a-z, 0-9, '+', '/', and a final group of 1 or 2 bytes is
    padded with '='. Go's decoder skips '\r' and '\n' before it reads the
    groups (`DecodeString`). */
module Base64 {
  import opened Wrappers
  import opened GoStrings

  type byte = x: int | 0 <= x < 256
  type sextet = x: int | 0 <= x < 64

  const Pad: char := '='

  /** The character of section 4 of RFC 4648 for a 6-bit value. */
  function SextetChar(v: sextet): (c: char)
    ensures c != Pad && c != '|'
  {
    if v < 26 then ('A' as int + v) as char
    else if v < 52 then ('a' as int + (v - 26)) as char
    else if v < 62 then ('0' as int + (v - 52)) as char
    else if v == 62 then '+'
    else '/'
  }

  /** The 6-bit value of an alphabet character; None for every other character. */
  function CharSextet(c: char): Option<sextet> {
    if 'A' <= c <= 'Z' then Some(c as int - 'A' as int)
    else if 'a' <= c <= 'z' then Some(c as int - 'a' as int + 26)
    else if '0' <= c <= '9' then Some(c as int - '0' as int + 52)
    else if c == '+' then Some(62)
    else if c == '/' then Some(63)
    else None
  }

  lemma CharSextetInverse(v: sextet)
    ensures CharSextet(SextetChar(v)) == Some(v)
  {
  }

  /** Characters that may appear in an encoding. */
  predicate IsEncodingChar(c: char) {
    CharSextet(c).Some? || c == Pad
  }

  /** The four 6-bit values of a 3-byte group, most significant first; a
      missing byte counts as zero. */
  function Hi0(b0: byte): sextet { b0 / 4 }
  function Hi1(b0: byte, b1: byte): sextet { (b0 % 4) * 16 + b1 / 16 }
  function Hi2(b1: byte, b2: byte): sextet { (b1 % 16) * 4 + b2 / 64 }
  function Hi3(b2: byte): sextet { b2 % 64 }

  /** Encodes `bs`: one 4-character group per 3 input bytes, the last group padded. */
  function Encode(bs: seq<byte>): (r: String)
    ensures |r| == 4 * ((|bs| + 2) / 3)
    ensures forall i :: 0 <= i < |r| ==> IsEncodingChar(r[i]) && r[i] != '|'
    decreases |bs|
  {
    if |bs| == 0 then []
    else if |bs| == 1 then
      [SextetChar(Hi0(bs[0])), SextetChar(Hi1(bs[0], 0)), Pad, Pad]
    else if |bs| == 2 then
      [SextetChar(Hi0(bs[0])), SextetChar(Hi1(bs[0], bs[1])), SextetChar(Hi2(bs[1], 0)), Pad]
    else
      [SextetChar(Hi0(bs[0])), SextetChar(Hi1(bs[0], bs[1])),
       SextetChar(Hi2(bs[1], bs[2])), SextetChar(Hi3(bs[2]))]
      + Encode(bs[3..])
  }

  /** The 3 bytes carried by four 6-bit values. */
  function Unpack(v0: sextet, v1: sextet, v2: sextet, v3: sextet): (r: seq<byte>)
    ensures |r| == 3
  {
    [v0 * 4 + v1 / 16, (v1 % 16) * 16 + v2 / 4, (v2 % 4) * 64 + v3]
  }

  /** The byte carried by a group padded with "==". */
  function UnpackOne(v0: sextet, v1: sextet): (r: seq<byte>)
    ensures |r| == 1
  {
    [v0 * 4 + v1 / 16]
  }

  /** The 2 bytes carried by a group padded with "=". */
  function UnpackTwo(v0: sextet, v1: sextet, v2: sextet): (r: seq<byte>)
    ensures |r| == 2
  {
    [v0 * 4 + v1 / 16, (v1 % 16) * 16 + v2 / 4]
  }

  /** The length arithmetic of one full group in front of decodable text. */
  lemma DecodeStepBound(n: int, m: int)
    requires n >= 4 && (n - 4) % 4 == 0
    requires 4 * m <= 3 * (n - 4) <= 4 * m + 8
    ensures n % 4 == 0
    ensures 4 * (3 + m) <= 3 * n <= 4 * (3 + m) + 8
  {
  }

  /** Decodes a sequence of whole 4-character groups, where '=' may only pad
      the last group ("xx==" carries one byte, "xxx=" two); any other
      character, a short group or data after padding is an error (None).
      Like Go's non-strict decoder, unused low bits of a padded group are
      ignored. */
  function Decode(s: String): (r: Option<seq<byte>>)
    ensures r.Some? ==> |s| % 4 == 0
    ensures r.Some? ==> 4 * |r.value| <= 3 * |s| <= 4 * |r.value| + 8
    decreases |s|
  {
    if |s| == 0 then Some([])
    else if |s| < 4 then None
    else
      var c0, c1, c2, c3 := CharSextet(s[0]), CharSextet(s[1]), CharSextet(s[2]), CharSextet(s[3]);
      if c0.None? || c1.None? then None
      else if |s| == 4 && s[2] == Pad && s[3] == Pad then
        Some(UnpackOne(c0.value, c1.value))
      else if |s| == 4 && c2.Some? && s[3] == Pad then
        Some(UnpackTwo(c0.value, c1.value, c2.value))
      else if c2.None? || c3.None? then None
      else
        match Decode(s[4..])
        case None => None
        case Some(rest) =>
          DecodeStepBound(|s|, |rest|);
          Some(Unpack(c0.value, c1.value, c2.value, c3.value) + rest)
  }

  lemma UnpackFull(b0: byte, b1: byte, b2: byte)
    ensures Unpack(Hi0(b0), Hi1(b0, b1), Hi2(b1, b2), Hi3(b2)) == [b0, b1, b2]
  {
    var v1 := Hi1(b0, b1);
    var v2 := Hi2(b1, b2);
    assert v1 / 16 == b0 % 4 && v1 % 16 == b1 / 16;
    assert v2 / 4 == b1 % 16 && v2 % 4 == b2 / 64;
  }

  lemma DecodeEncodeOne(b0: byte)
    ensures Decode(Encode([b0])) == Some([b0])
  {
    CharSextetInverse(Hi0(b0));
    CharSextetInverse(Hi1(b0, 0));
    assert Hi1(b0, 0) / 16 == b0 % 4;
  }

  lemma DecodeEncodeTwo(b0: byte, b1: byte)
    ensures Decode(Encode([b0, b1])) == Some([b0, b1])
  {
    var v1 := Hi1(b0, b1);
    CharSextetInverse(Hi0(b0));
    CharSextetInverse(v1);
    CharSextetInverse(Hi2(b1, 0));
    assert v1 / 16 == b0 % 4 && v1 % 16 == b1 / 16;
    assert Hi2(b1, 0) / 4 == b1 % 16;
  }

  /** A group of four alphabet characters followed by decodable text decodes
      to its three bytes followed by the decoding of the rest. */
  lemma DecodeFullGroup(s: String, v0: sextet, v1: sextet, v2: sextet, v3: sextet, rest: seq<byte>)
    requires |s| >= 4
    requires CharSextet(s[0]) == Some(v0) && CharSextet(s[1]) == Some(v1)
    requires CharSextet(s[2]) == Some(v2) && CharSextet(s[3]) == Some(v3)
    requires Decode(s[4..]) == Some(rest)
    ensures Decode(s) == Some(Unpack(v0, v1, v2, v3) + rest)
  {
  }

  /** The encoding of at least three bytes is one full group followed by the encoding of the rest. */
  lemma EncodeFullGroup(bs: seq<byte>)
    requires |bs| >= 3
    ensures |Encode(bs)| >= 4
    ensures Encode(bs)[0] == SextetChar(Hi0(bs[0]))
    ensures Encode(bs)[1] == SextetChar(Hi1(bs[0], bs[1]))
    ensures Encode(bs)[2] == SextetChar(Hi2(bs[1], bs[2]))
    ensures Encode(bs)[3] == SextetChar(Hi3(bs[2]))
    ensures Encode(bs)[4..] == Encode(bs[3..])
  {
  }

  /** Decoding a text whose first group spells `v0`..`v3` and whose remainder
      decodes to `rest`. */
  lemma DecodeSpelledGroup(e: String, v0: sextet, v1: sextet, v2: sextet, v3: sextet, rest: seq<byte>)
    requires |e| >= 4
    requires e[0] == SextetChar(v0) && e[1] == SextetChar(v1)
    requires e[2] == SextetChar(v2) && e[3] == SextetChar(v3)
    requires Decode(e[4..]) == Some(rest)
    ensures Decode(e) == Some(Unpack(v0, v1, v2, v3) + rest)
  {
    CharSextetInverse(v0);
    CharSextetInverse(v1);
    CharSextetInverse(v2);
    CharSextetInverse(v3);
    DecodeFullGroup(e, v0, v1, v2, v3, rest);
  }

  lemma HeadThree(bs: seq<byte>)
    requires |bs| >= 3
    ensures [bs[0], bs[1], bs[2]] + bs[3..] == bs
  {
  }

  lemma DecodeEncodeGroup(bs: seq<byte>)
    requires |bs| >= 3
    requires Decode(Encode(bs[3..])) == Some(bs[3..])
    ensures Decode(Encode(bs)) == Some(bs)
  {
    var b0, b1, b2 := bs[0], bs[1], bs[2];
    UnpackFull(b0, b1, b2);
    EncodeFullGroup(bs);
    DecodeSpelledGroup(Encode(bs), Hi0(b0), Hi1(b0, b1), Hi2(b1, b2), Hi3(b2), bs[3..]);
    HeadThree(bs);
  }

  /** Decoding an encoding gives back the original bytes. */
  lemma {:induction false} DecodeEncode(bs: seq<byte>)
    ensures Decode(Encode(bs)) == Some(bs)
    decreases |bs|
  {
    if |bs| == 0 {
    } else if |bs| == 1 {
      DecodeEncodeOne(bs[0]);
      assert [bs[0]] == bs;
    } else if |bs| == 2 {
      DecodeEncodeTwo(bs[0], bs[1]);
      assert [bs[0], bs[1]] == bs;
    } else {
      DecodeEncode(bs[3..]);
      DecodeEncodeGroup(bs);
    }
  }

  // ---------------------------------------------------------------------
  // DecodeString: line breaks are skipped
  // ---------------------------------------------------------------------

  predicate IsLineBreak(c: char) { c == '\r' || c == '\n' }

  /** The text without its '\r' and '\n' characters, the others in order. */
  function DropLineBreaks(s: String): (r: String)
    ensures |r| <= |s|
    decreases |s|
  {
    if |s| == 0 then []
    else if IsLineBreak(s[0]) then DropLineBreaks(s[1..])
    else [s[0]] + DropLineBreaks(s[1..])
  }

  lemma {:induction false} DropLineBreaksClean(s: String)
    ensures forall i :: 0 <= i < |DropLineBreaks(s)| ==> !IsLineBreak(DropLineBreaks(s)[i])
    decreases |s|
  {
    if |s| > 0 {
      DropLineBreaksClean(s[1..]);
    }
  }

  lemma {:induction false} DropLineBreaksKeeps(s: String)
    requires forall i :: 0 <= i < |s| ==> !IsLineBreak(s[i])
    ensures DropLineBreaks(s) == s
    decreases |s|
  {
    if |s| > 0 {
      DropLineBreaksKeeps(s[1..]);
      assert [s[0]] + s[1..] == s;
    }
  }

  lemma {:induction false} DropLineBreaksAppend(a: String, b: String)
    ensures DropLineBreaks(a + b) == DropLineBreaks(a) + DropLineBreaks(b)
    decreases |a|
  {
    if |a| > 0 {
      assert (a + b)[1..] == a[1..] + b;
      DropLineBreaksAppend(a[1..], b);
    } else {
      assert a + b == b;
    }
  }

  /** `StdEncoding.DecodeString`: Go's decoder skips '\r' and '\n' wherever
      they stand and decodes the other characters as `Decode` does. */
  function DecodeString(s: String): (r: Option<seq<byte>>)
    ensures r.Some? ==> 4 * |r.value| <= 3 * |s|
  {
    Decode(DropLineBreaks(s))
  }

  /** Text without line breaks decodes exactly as `Decode` reads it. */
  lemma DecodeStringWithoutBreaks(s: String)
    requires forall i :: 0 <= i < |s| ==> !IsLineBreak(s[i])
    ensures DecodeString(s) == Decode(s)
  {
    DropLineBreaksKeeps(s);
  }

  /** A line break anywhere in the text does not change what it decodes to. */
  lemma DecodeStringSkipsLineBreak(a: String, c: char, b: String)
    requires IsLineBreak(c)
    ensures DecodeString(a + [c] + b) == DecodeString(a + b)
  {
    assert [c][1..] == [];
    assert DropLineBreaks([c]) == [];
    DropLineBreaksAppend(a + [c], b);
    DropLineBreaksAppend(a, [c]);
    DropLineBreaksAppend(a, b);
    assert DropLineBreaks(a + [c]) == DropLineBreaks(a) + [];
    assert DropLineBreaks(a) + [] == DropLineBreaks(a);
  }

  /** An encoding holds no line break, so `DecodeString` reads it back too. */
  lemma DecodeStringEncode(bs: seq<byte>)
    ensures DecodeString(Encode(bs)) == Some(bs)
  {
    DecodeStringWithoutBreaks(Encode(bs));
    DecodeEncode(bs);
  }

  /** An encoding with a line break inserted anywhere still decodes to the
      encoded bytes. */
  lemma DecodeStringLineBrokenEncoding(bs: seq<byte>, k: nat, c: char)
    requires k <= |Encode(bs)| && IsLineBreak(c)
    ensures DecodeString(Encode(bs)[..k] + [c] + Encode(bs)[k..]) == Some(bs)
  {
    var e := Encode(bs);
    DecodeStringSkipsLineBreak(e[..k], c, e[k..]);
    assert e[..k] + e[k..] == e;
    DecodeStringEncode(bs);
  }
}
