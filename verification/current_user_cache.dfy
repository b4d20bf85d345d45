/** The earlier browser client's `currentUser` factory
    (_static/js/directives.js), which keeps the last `/api/session.user`
    answer in the browser's local session store under "__current_user__"
    and asks the server again only when it might be stale. */
module CurrentUserCache {
  import opened Wrappers
  import opened GoStrings
  import opened JsValues

  /** The local session key. */
  const StoreKey: String := "__current_user__"

  /** One `currentUser(cb)` call: the stored user after it, the user handed
      to the callback, and whether the server was asked. */
  datatype Served = Served(stored: Option<Object>, user: Object, fetched: bool)

  /** `currentUser(cb)` with `stored` the user kept under the key (if any)
      and `server` what the server answers when asked: with nothing stored,
      or a stored user who was signed in, the server is asked and its answer
      stored and handed on; a stored signed-out user is handed on as is. */
  function CurrentUser(stored: Option<Object>, server: Object): (r: Served)
    ensures r.fetched <==> (stored.None? || Truthy(Get(stored.value, "is_logged_in")))
    ensures r.fetched ==> r.user == server
    ensures !r.fetched ==> r.user == stored.value
    ensures r.stored == Some(r.user)
  {
    if stored.None? then Served(Some(server), server, true)
    else if Truthy(Get(stored.value, "is_logged_in")) then Served(Some(server), server, true)
    else Served(stored, stored.value, false)
  }

  /** After one call, a signed-out answer is served from the store from then
      on, whatever the server would say, while a signed-in answer is
      checked with the server again on the next call. */
  lemma CurrentUserSettles(stored: Option<Object>, first: Object, second: Object)
    ensures var a := CurrentUser(stored, first);
      var b := CurrentUser(a.stored, second);
      (!Truthy(Get(a.user, "is_logged_in")) ==> !b.fetched && b.user == a.user && b.stored == a.stored)
      && (Truthy(Get(a.user, "is_logged_in")) ==> b.fetched && b.user == second)
  {
  }

  /** Calls in a row, each against what the server answers at that moment. */
  function Calls(stored: Option<Object>, answers: seq<Object>): (r: seq<Served>)
    ensures |r| == |answers|
    decreases |answers|
  {
    if |answers| == 0 then []
    else
      var first := CurrentUser(stored, answers[0]);
      [first] + Calls(first.stored, answers[1..])
  }

  /** Once a signed-out user has been handed on, no later call reaches the
      server and every later call hands on that same user: a visitor who
      signs in elsewhere keeps seeing the signed-out view. */
  lemma {:induction false} SignedOutSticks(stored: Option<Object>, answers: seq<Object>, i: nat, j: nat)
    requires i < j < |answers|
    requires !Truthy(Get(Calls(stored, answers)[i].user, "is_logged_in"))
    ensures !Calls(stored, answers)[j].fetched
    ensures Calls(stored, answers)[j].user == Calls(stored, answers)[i].user
    decreases |answers|
  {
    var first := CurrentUser(stored, answers[0]);
    var rest := Calls(first.stored, answers[1..]);
    assert Calls(stored, answers) == [first] + rest;
    if i == 0 {
      if j == 1 {
        assert rest[0] == CurrentUser(first.stored, answers[1]);
      } else {
        assert rest[0] == CurrentUser(first.stored, answers[1]);
        SignedOutSticks(first.stored, answers[1..], 0, j - 1);
      }
    } else {
      SignedOutSticks(first.stored, answers[1..], i - 1, j - 1);
    }
  }
}
