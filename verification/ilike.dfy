/** Postgres `ILIKE` pattern matching, as the tag lookup by value uses it. */
module Ilike {
  import opened GoStrings

  /** Postgres `ILIKE`: '%' matches any run of characters, '_' any one
      character, '\' makes the next pattern character literal, and letters
      compare without regard to case. */
  function Like(s: String, pattern: String): bool
    decreases |s| + |pattern|
  {
    if |pattern| == 0 then |s| == 0
    else if pattern[0] == '%' then Like(s, pattern[1..]) || (|s| > 0 && Like(s[1..], pattern))
    else if |s| == 0 then false
    else if pattern[0] == '_' then Like(s[1..], pattern[1..])
    else if pattern[0] == '\\' then
      |pattern| >= 2 && LowerChar(s[0]) == LowerChar(pattern[1]) && Like(s[1..], pattern[2..])
    else LowerChar(s[0]) == LowerChar(pattern[0]) && Like(s[1..], pattern[1..])
  }

  /** Postgres rejects a pattern that ends with an unpaired escape character. */
  predicate ValidLikePattern(pattern: String)
    decreases |pattern|
  {
    if |pattern| == 0 then true
    else if pattern[0] == '\\' then |pattern| >= 2 && ValidLikePattern(pattern[2..])
    else ValidLikePattern(pattern[1..])
  }

  /** A pattern without wildcard or escape characters. */
  predicate PlainPattern(pattern: String) {
    forall i :: 0 <= i < |pattern| ==> pattern[i] != '%' && pattern[i] != '_' && pattern[i] != '\\'
  }

  /** A plain pattern matches exactly the strings equal to it up to case. */
  lemma {:induction false} LikePlain(s: String, pattern: String)
    requires PlainPattern(pattern)
    ensures ValidLikePattern(pattern)
    ensures Like(s, pattern) <==> ToLower(s) == ToLower(pattern)
    decreases |s| + |pattern|
  {
    if |pattern| > 0 {
      assert PlainPattern(pattern[1..]);
      if |s| > 0 {
        LikePlain(s[1..], pattern[1..]);
        assert ToLower(s) == [LowerChar(s[0])] + ToLower(s[1..]);
        assert ToLower(pattern) == [LowerChar(pattern[0])] + ToLower(pattern[1..]);
      } else {
        LikePlain(s, pattern[1..]);
        assert |ToLower(pattern)| > 0;
      }
    } else if |s| > 0 {
      assert |ToLower(s)| > 0;
    }
  }

  /** A trailing '%' matches any continuation: "a%" finds the value "ab",
      which is not equal to it up to case. */
  lemma TrailingWildcardMatchesLonger()
    ensures ValidLikePattern("a%") && Like("ab", "a%")
    ensures ToLower("ab") != ToLower("a%")
  {
    assert "a%"[1..] == "%" && "ab"[1..] == "b" && "b"[1..] == [];
    assert Like([], "%"[1..]);
    assert Like("b"[1..], "%");
    assert Like("b", "%");
    assert ToLower("ab")[1] == 'b';
  }
}
