/** Tag values as server/model/tag.go cleans them: lower-cased, trimmed of
    " \t\n\r", and stripped of everything but letters, digits and white space. */
module TagValues {
  import opened GoStrings
  import opened Rows
  import opened Ilike

  /** The cutset `strings.Trim` is given. */
  const TagTrimSet: set<char> := {' ', '\t', '\n', '\r'}

  /** `unicode.IsLetter(r) || unicode.IsSpace(r) || unicode.IsDigit(r)` on ASCII characters. */
  predicate KeptInTag(c: char) { IsAsciiLetter(c) || IsAsciiSpace(c) || IsAsciiDigit(c) }

  const KeepInTag: char -> bool := (c: char) => KeptInTag(c)

  /** Lower-case, trim " \t\n\r" from both ends, then drop every character
      that is not a letter, a digit or white space. */
  function CleanTagValue(value: String): (r: String)
    ensures |r| <= |value|
    ensures forall i :: 0 <= i < |r| ==> KeptInTag(r[i]) && !IsAsciiUpper(r[i])
  {
    Filter(Trim(ToLower(value), TagTrimSet), KeepInTag)
  }

  /** The kept characters are those of the trimmed lower-case value, in
      order: dropping distributes over concatenation, and a single character
      survives exactly when it is a letter, digit or space. */
  lemma CleanTagValueKeepsOrder(a: String, b: String, c: char)
    ensures Filter(a + b, KeepInTag) == Filter(a, KeepInTag) + Filter(b, KeepInTag)
    ensures Filter([c], KeepInTag) == if KeptInTag(c) then [c] else []
  {
    FilterAppend(a, b, KeepInTag);
  }

  /** A cleaned value holds no wildcard or escape character and no upper-case
      letter, so looking it up with `ilike` finds exactly the values equal to
      it up to case. */
  lemma CleanValueIsPlain(value: String, s: String)
    ensures PlainPattern(CleanTagValue(value)) && ValidLikePattern(CleanTagValue(value))
    ensures ToLower(CleanTagValue(value)) == CleanTagValue(value)
    ensures Like(s, CleanTagValue(value)) <==> ToLower(s) == CleanTagValue(value)
  {
    var c := CleanTagValue(value);
    KeptIsPlain(c);
    LowerUnchanged(c);
    LikePlain(s, c);
  }

  /** Letters, digits and white space are neither wildcards nor the escape character. */
  lemma KeptIsPlain(c: String)
    requires forall i :: 0 <= i < |c| ==> KeptInTag(c[i])
    ensures PlainPattern(c)
  {
  }

  /** Filtering a value made of kept characters around one dropped character. */
  lemma DropOne(a: String, c: char, b: String)
    requires forall i :: 0 <= i < |a| ==> KeptInTag(a[i])
    requires forall i :: 0 <= i < |b| ==> KeptInTag(b[i])
    requires !KeptInTag(c)
    ensures Filter(a + [c] + b, KeepInTag) == a + b
  {
    var fc := Filter([c], KeepInTag);
    assert fc == [] by {
      assert !KeepInTag(c) && [c][1..] == [];
    }
    FilterAll(a, KeepInTag);
    FilterAll(b, KeepInTag);
    FilterAppend(a, [c], KeepInTag);
    FilterAppend(a + [c], b, KeepInTag);
    calc {
      Filter(a + [c] + b, KeepInTag);
      Filter(a + [c], KeepInTag) + Filter(b, KeepInTag);
      a + fc + b;
      { assert a + [] == a; }
      a + b;
    }
  }

  /** Every character is kept and none is an upper-case letter, checked one character at a time. */
  predicate LowerKept(v: String)
    decreases |v|
  {
    |v| == 0 || (KeptInTag(v[0]) && !IsAsciiUpper(v[0]) && LowerKept(v[1..]))
  }

  lemma {:induction false} LowerKeptAll(v: String)
    requires LowerKept(v)
    ensures forall i :: 0 <= i < |v| ==> KeptInTag(v[i]) && !IsAsciiUpper(v[i])
    decreases |v|
  {
    if |v| > 0 {
      LowerKeptAll(v[1..]);
      assert forall i :: 1 <= i < |v| ==> v[i] == v[1..][i - 1];
    }
  }

  /** A value that is already lower-case, untrimmed and made of kept characters cleans to itself. */
  lemma CleanUnchanged(v: String)
    requires LowerKept(v)
    requires |v| > 0 ==> v[0] !in TagTrimSet && v[|v| - 1] !in TagTrimSet
    ensures CleanTagValue(v) == v
  {
    LowerKeptAll(v);
    LowerUnchanged(v);
    TrimUnchanged(v, TagTrimSet);
    FilterAll(v, KeepInTag);
  }

  /** A lower-case value without white space at its ends loses exactly its one punctuation character. */
  lemma CleanDropsOne(a: String, c: char, b: String)
    requires LowerKept(a) && LowerKept(b)
    requires !KeptInTag(c) && !IsAsciiUpper(c)
    requires (a + [c] + b)[0] !in TagTrimSet && (a + [c] + b)[|a| + |b|] !in TagTrimSet
    ensures CleanTagValue(a + [c] + b) == a + b
  {
    var v := a + [c] + b;
    LowerAround(a, c, b);
    CleanOfPlain(v);
    KeptAround(a, c, b);
  }

  /** Lower-casing leaves such a value as it is. */
  lemma LowerAround(a: String, c: char, b: String)
    requires LowerKept(a) && LowerKept(b) && !IsAsciiUpper(c)
    ensures ToLower(a + [c] + b) == a + [c] + b
  {
    LowerKeptAll(a);
    LowerKeptAll(b);
    NoUpperAround(a, c, b);
    LowerUnchanged(a + [c] + b);
  }

  /** The filter drops exactly the one character that is not kept. */
  lemma KeptAround(a: String, c: char, b: String)
    requires LowerKept(a) && LowerKept(b) && !KeptInTag(c)
    ensures Filter(a + [c] + b, KeepInTag) == a + b
  {
    LowerKeptAll(a);
    LowerKeptAll(b);
    DropOne(a, c, b);
  }

  /** A lower-case value without trimmed characters at its ends is cleaned
      by the filter alone. */
  lemma CleanOfPlain(v: String)
    requires ToLower(v) == v
    requires |v| > 0 ==> v[0] !in TagTrimSet && v[|v| - 1] !in TagTrimSet
    ensures CleanTagValue(v) == Filter(v, KeepInTag)
  {
    TrimUnchanged(v, TagTrimSet);
  }

  lemma NoUpperAround(a: String, c: char, b: String)
    requires forall i :: 0 <= i < |a| ==> !IsAsciiUpper(a[i])
    requires forall i :: 0 <= i < |b| ==> !IsAsciiUpper(b[i])
    requires !IsAsciiUpper(c)
    ensures forall i :: 0 <= i < |a + [c] + b| ==> !IsAsciiUpper((a + [c] + b)[i])
  {
    var v := a + [c] + b;
    forall i | 0 <= i < |v| ensures !IsAsciiUpper(v[i]) {
      if i < |a| {
        assert v[i] == a[i];
      } else if i > |a| {
        assert v[i] == b[i - |a| - 1];
      }
    }
  }

  /** The values of the job's test: punctuation is dropped and a clean value
      is left as it is. */
  lemma CleanTheyre()
    ensures CleanTagValue("they're") == "theyre"
  {
    assert "they" + ['\''] + "re" == "they're";
    assert "they" + "re" == "theyre";
    assert LowerKept("they") && LowerKept("re");
    CleanDropsOne("they", '\'', "re");
  }

  lemma CleanWinnings()
    ensures CleanTagValue("winning's") == "winnings"
  {
    assert "winning" + ['\''] + "s" == "winning's";
    assert "winning" + "s" == "winnings";
    assert LowerKept("winning") && LowerKept("s");
    CleanDropsOne("winning", '\'', "s");
  }

  lemma CleanTheyreUnchanged()
    ensures CleanTagValue("theyre") == "theyre"
  {
    assert LowerKept("theyre");
    CleanUnchanged("theyre");
  }

  lemma CleanCrushingItUnchanged()
    ensures CleanTagValue("crushing it") == "crushing it"
  {
    assert LowerKept("crushing it");
    CleanUnchanged("crushing it");
  }

  /** Cleaning lower-cases first, so it does not matter whether the input was lower-cased already. */
  lemma CleanOfLower(v: String)
    ensures CleanTagValue(ToLower(v)) == CleanTagValue(v)
  {
    assert ToLower(ToLower(v)) == ToLower(v);
  }

  /** Upper-case letters are lowered. */
  lemma CleanLowers()
    ensures CleanTagValue("Foo") == "foo"
  {
    assert LowerKept("foo");
    CleanUnchanged("foo");
    LowerFoo();
    CleanOfLower("Foo");
  }

  /** Cleaning is not idempotent: trimming happens before the filter, so
      white space uncovered by dropping punctuation stays. */
  lemma CleanTagValueNotIdempotent()
    ensures CleanTagValue("' a") == " a"
    ensures CleanTagValue(" a") == "a"
  {
    assert [] + ['\''] + " a" == "' a";
    assert LowerKept([]) && LowerKept(" a");
    CleanDropsOne([], '\'', " a");
    LowerUnchanged(" a");
    assert TrimLeft(" a", TagTrimSet) == "a";
    assert Trim(" a", TagTrimSet) == "a";
    FilterAll("a", KeepInTag);
  }

  /** Both values with an apostrophe are plain patterns, and the apostrophe is
      not kept in a tag. */
  lemma ApostropheValuesArePlain()
    ensures PlainPattern("winning's") && "winning's"[7] == '\'' && !KeptInTag("winning's"[7])
    ensures PlainPattern("they're") && "they're"[4] == '\'' && !KeptInTag("they're"[4])
  {
  }
}
