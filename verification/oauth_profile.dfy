/** The user name go-google-oauth derives from a Google profile's e-mail
    address: the local part before the '@'. */
module OAuthProfile {
  import opened Wrappers
  import opened GoStrings

  /** `strings.Index` with a one-character separator finds the character's
      first position, and finds nothing exactly when the character is absent. */
  lemma IndexOfChar(s: String, c: char)
    ensures IndexOf(s, [c]).None? <==> c !in s
    ensures c in s ==> IndexOf(s, [c]) == Some(FirstIndex(s, c))
  {
    if c in s {
      var i := FirstIndex(s, c);
      assert s[i..i + 1] == [c];
      assert OccursAt(s, [c], i);
      var j := IndexOf(s, [c]).value;
      assert s[j..j + 1] == [c];
      assert s[j] == c;
      assert forall k :: 0 <= k < i ==> s[..i][k] == s[k];
    } else {
      forall j: nat
        ensures !OccursAt(s, [c], j)
      {
        if j < |s| {
          assert s[j] != c;
          assert s[j..j + 1] == [s[j]];
        }
      }
    }
  }

  /** `Profile.Username`: the empty string for an empty address, the whole
      address when it has no '@', and otherwise the text before the first '@'. */
  function Username(email: String): (r: String)
    ensures '@' !in r
    ensures '@' !in email ==> r == email
    ensures '@' in email ==> r == email[..FirstIndex(email, '@')]
  {
    IndexOfChar(email, '@');
    if |email| == 0 then ""
    else if !Contains(email, "@") then email
    else
      var parts := SplitFirst(email, "@");
      assert |parts| == 2;
      parts[0]
  }

  /** The user name of `local@domain` is `local` whenever the local part has no '@'. */
  lemma UsernameOfAddress(local: String, domain: String)
    requires '@' !in local
    ensures Username(local + "@" + domain) == local
  {
    FirstIndexAfter(local, '@', domain);
    var email := local + "@" + domain;
    assert email == local + ['@'] + domain;
    assert email[..|local|] == local;
  }
}
