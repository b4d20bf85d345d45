/** The vote button of the browser client (`voteButtonController` and the
    `voteAPI` factory), in both generations the server ships: the current
    client (_client/src/js/directives.js) and the earlier one
    (_static/js/directives.js).  A button shows an image–tag link's vote
    count, the up and down arrows, and a remove mark. */
module VoteButton {
  import opened Wrappers
  import opened GoStrings
  import opened Ledger
  import opened JsValues
  import opened CurrentUserView

  /** Which client: the current one, or the earlier one. */
  datatype Generation = ClientApp | StaticApp

  /** The directive's bindings: `type`, the current user (`currentUser` in
      the current client, `user` in the earlier one), `link`, `userVote` and
      `object` (the tag on an image page, the image on a tag page). */
  datatype Scope = Scope(kind: JsValue, user: Object, link: Object, userVote: JsValue, item: Object)

  /** A `voteAPI` call, by the link's image and tag uuids as read. */
  datatype Call =
    | Upvote(image: JsValue, tag: JsValue)
    | Downvote(image: JsValue, tag: JsValue)
    | DeleteUserVote(image: JsValue, tag: JsValue)
    | DeleteLink(image: JsValue, tag: JsValue)

  /** The event a call's success handler `onVote` emits to the page. */
  datatype Event = Voted

  /** A click: the one call it makes, and what the call's success emits. */
  datatype Click = Click(call: Call, onSuccess: Event)

  /** The HTTP verb of a call. */
  function Verb(c: Call): (v: String)
    ensures v == "POST" <==> (c.Upvote? || c.Downvote?)
    ensures v == "POST" || v == "DELETE"
  {
    if c.Upvote? || c.Downvote? then "POST" else "DELETE"
  }

  /** The route prefix of a call. */
  function Prefix(c: Call): (p: String)
    ensures |p| > 0 && p[0] == '/'
  {
    match c
    case Upvote(_, _) => "/api/vote.up/"
    case Downvote(_, _) => "/api/vote.down/"
    case DeleteUserVote(_, _) => "/api/user.vote/"
    case DeleteLink(_, _) => "/api/link/"
  }

  /** The request path: the prefix, the image uuid, a slash and the tag
      uuid, each uuid as JavaScript turns it into text. */
  function Path(c: Call): (path: String)
    ensures HasPrefix(path, Prefix(c))
    ensures |path| == |Prefix(c)| + |ToString(c.image)| + 1 + |ToString(c.tag)|
  {
    Prefix(c) + ToString(c.image) + "/" + ToString(c.tag)
  }

  /** The server can read the call back from its request: verb and prefix
      tell the four calls apart, and when the image uuid has no slash the
      rest of the path splits at its first slash into the two uuids. */
  lemma PathReadsBack(c: Call, d: Call)
    requires '/' !in ToString(c.image)
    ensures var rest := Path(c)[|Prefix(c)|..];
      '/' in rest && FirstIndex(rest, '/') == |ToString(c.image)|
      && rest[..FirstIndex(rest, '/')] == ToString(c.image)
      && rest[FirstIndex(rest, '/') + 1..] == ToString(c.tag)
    ensures (Verb(c) == Verb(d) && Prefix(c) == Prefix(d)) <==>
      (c.Upvote? == d.Upvote? && c.Downvote? == d.Downvote?
       && c.DeleteUserVote? == d.DeleteUserVote? && c.DeleteLink? == d.DeleteLink?)
  {
    var img, tag := ToString(c.image), ToString(c.tag);
    var rest := Path(c)[|Prefix(c)|..];
    assert rest == img + "/" + tag;
    FirstIndexAfter(img, '/', tag);
    assert rest[|img|] == '/';
    assert rest[..|img|] == img;
  }

  /** `imageUUID()` and `tagUUID()`: read from the link. */
  function ImageUUID(s: Scope): JsValue { Get(s.link, "image_uuid") }
  function TagUUID(s: Scope): JsValue { Get(s.link, "tag_uuid") }

  /** `hasVote()`: the user has a vote on this link. */
  predicate HasVote(s: Scope) {
    Truthy(s.userVote)
  }

  /** `didUpvote()`: a vote whose `is_upvote` is truthy. */
  predicate DidUpvote(s: Scope) {
    Truthy(s.userVote) && Truthy(Field(s.userVote, "is_upvote"))
  }

  /** `didDownvote()`: a vote whose `is_upvote` is falsy. */
  predicate DidDownvote(s: Scope) {
    Truthy(s.userVote) && !Truthy(Field(s.userVote, "is_upvote"))
  }

  /** `vote(isUpvote)`, the same in both generations: without a vote the
      arrow clicked decides up or down; with one, either arrow removes it
      (a vote is never flipped in one step). */
  function Vote(s: Scope, isUpvote: bool): (r: Click)
    ensures r.call.image == ImageUUID(s) && r.call.tag == TagUUID(s)
    ensures r.call.DeleteUserVote? <==> HasVote(s)
    ensures !HasVote(s) ==> (r.call.Upvote? <==> isUpvote) && (r.call.Downvote? <==> !isUpvote)
    ensures !r.call.DeleteLink? && r.onSuccess == Voted
  {
    var call :=
      if !HasVote(s) then
        (if isUpvote then Upvote(ImageUUID(s), TagUUID(s)) else Downvote(ImageUUID(s), TagUUID(s)))
      else DeleteUserVote(ImageUUID(s), TagUUID(s));
    Click(call, Voted)
  }

  /** `delete()`: removes the link, in both generations. */
  function Delete(s: Scope): (r: Click)
    ensures r.call == DeleteLink(ImageUUID(s), TagUUID(s)) && r.onSuccess == Voted
  {
    Click(DeleteLink(ImageUUID(s), TagUUID(s)), Voted)
  }

  /** The button kind whose signed-out view is the bare count: "image" in
      the current client, "tag" in the earlier one. */
  function CountOnlyKind(gen: Generation): (k: String)
    ensures gen.ClientApp? ==> k == "image"
    ensures gen.StaticApp? ==> k == "tag"
  {
    if gen.ClientApp? then "image" else "tag"
  }

  /** `isOnlyVoteCount()`: a button of that kind (compared with `===`) shown
      to a signed-out user. */
  predicate IsOnlyVoteCount(gen: Generation, s: Scope) {
    StrictEquals(s.kind, Str(CountOnlyKind(gen))) && !Truthy(Get(s.user, "is_logged_in"))
  }

  /** `userIsLoggedIn()`, which shows the arrows: signed in, and in the
      current client also not banned. */
  predicate UserIsLoggedIn(gen: Generation, s: Scope) {
    Truthy(Get(s.user, "is_logged_in"))
    && (gen.ClientApp? ==> !Truthy(Get(s.user, "is_banned")))
  }

  /** The pair `canEdit()` compares with `==`. */
  predicate CreatorComparable(s: Scope) {
    Comparable(Get(s.item, "created_by"), Get(s.user, "uuid"))
  }

  /** `canEdit()`, which shows the remove mark: a moderator, or an object
      whose `created_by` equals the user's `uuid`; in the current client
      also not banned. */
  predicate CanEdit(gen: Generation, s: Scope)
    requires CreatorComparable(s)
  {
    (Truthy(Get(s.user, "is_moderator"))
     || LooseEquals(Get(s.item, "created_by"), Get(s.user, "uuid")))
    && (gen.ClientApp? ==> !Truthy(Get(s.user, "is_banned")))
  }

  /** The arrow marks follow the user's vote alone: never both, neither
      exactly when there is no vote, and whichever is lit, clicking any
      arrow removes the vote. */
  lemma VoteMarks(s: Scope, isUpvote: bool)
    ensures !(DidUpvote(s) && DidDownvote(s))
    ensures !DidUpvote(s) && !DidDownvote(s) <==> !HasVote(s)
    ensures (DidUpvote(s) || DidDownvote(s)) ==> Vote(s, isUpvote).call.DeleteUserVote?
    ensures forall t: Scope :: t.userVote == s.userVote ==>
      (HasVote(t) == HasVote(s) && DidUpvote(t) == DidUpvote(s) && DidDownvote(t) == DidDownvote(s))
  {
  }

  /** A click without a vote followed by a click with the vote the first
      one created removes it again: two clicks undo each other. */
  lemma VoteThenVoteAgain(s: Scope, isUpvote: bool, again: bool, vote: JsValue)
    requires !HasVote(s) && Truthy(vote)
    ensures Vote(s, isUpvote).call.Upvote? || Vote(s, isUpvote).call.Downvote?
    ensures Vote(s.(userVote := vote), again).call == DeleteUserVote(ImageUUID(s), TagUUID(s))
  {
  }

  /** Whenever only the count shows, the arrows are hidden; in the earlier
      client a tag button to which the arrows are hidden shows only the
      count, while in the current client a banned user's image button hides
      the arrows and still lays out the full button. */
  lemma CountOnlyHidesArrows(gen: Generation, s: Scope)
    ensures IsOnlyVoteCount(gen, s) ==> !UserIsLoggedIn(gen, s)
    ensures gen.StaticApp? && s.kind == Str("tag") ==> (IsOnlyVoteCount(gen, s) <==> !UserIsLoggedIn(gen, s))
    ensures gen.ClientApp? && s.kind == Str("image") ==>
      (IsOnlyVoteCount(gen, s) <==> !Truthy(Get(s.user, "is_logged_in")))
  {
  }

  /** As written: with the JSON `/api/session.user` sends, which has no
      `uuid`, a tag's creator who is not a moderator never gets the remove
      mark, and every viewer, signed out included, gets it on an object
      without `created_by`. */
  lemma CreatorCannotRemoveLink(gen: Generation, u: User, loginURL: String, link: Object, userVote: JsValue, other: Object)
    requires !u.isModerator && "created_by" !in other
    ensures var s := Scope(Str("tag"), ToJson(FromUser(u)), link, userVote, map["created_by" := Str(u.uuid)]);
      CreatorComparable(s) && !CanEdit(gen, s)
    ensures var s := Scope(Str("tag"), ToJson(LoggedOut(loginURL)), link, userVote, other);
      CreatorComparable(s) && CanEdit(gen, s)
  {
  }

  /** `canEdit()` comparing with the `user_uuid` the server sends. */
  predicate CanEditIntended(s: Scope)
    requires Comparable(Get(s.item, "created_by"), Get(s.user, "user_uuid"))
  {
    (Truthy(Get(s.user, "is_moderator"))
     || LooseEquals(Get(s.item, "created_by"), Get(s.user, "user_uuid")))
    && !Truthy(Get(s.user, "is_banned"))
  }

  /** The JSON of a tag as the client receives it: `created_by` is the
      creator's uuid, left out when empty. */
  function TagJson(tagUUID: String, tagValue: String, creatorUUID: String): (o: Object)
    ensures ("created_by" in o) <==> creatorUUID != ""
    ensures creatorUUID != "" ==> o["created_by"] == Str(creatorUUID)
  {
    var base := map["uuid" := Str(tagUUID), "tag_value" := Str(tagValue)];
    if creatorUUID == "" then base else base["created_by" := Str(creatorUUID)]
  }

  /** Corrected: on an image page, the remove mark shows exactly to the
      users `deleteLinkAction` accepts: signed in, not banned, and a
      moderator or the tag's creator. */
  lemma CanEditMatchesServer(user: Option<User>, loginURL: String, link: Object, userVote: JsValue,
                             tagUUID: String, tagValue: String, creatorUUID: String)
    ensures var s := Scope(Str("image"), SessionUserJson(user, loginURL), link, userVote,
                           TagJson(tagUUID, tagValue, creatorUUID));
      Comparable(Get(s.item, "created_by"), Get(s.user, "user_uuid"))
      && (CanEditIntended(s) <==>
          (user.Some? && !user.value.isBanned
           && (user.value.isModerator || (creatorUUID != "" && creatorUUID == user.value.uuid))))
  {
    var s := Scope(Str("image"), SessionUserJson(user, loginURL), link, userVote,
                   TagJson(tagUUID, tagValue, creatorUUID));
    if user.None? {
      assert Get(s.user, "user_uuid") == Str("");
    }
  }

  /** As written: a banned user's session JSON carries no ban, so the
      current client shows them the arrows, and the remove mark too when
      they are a moderator. */
  lemma BannedUserSeesVoteControls(u: User, kind: JsValue, link: Object, userVote: JsValue, item: Object)
    requires u.isBanned
    requires Comparable(Get(item, "created_by"), Undefined)
    ensures var s := Scope(kind, ToJson(FromUser(u)), link, userVote, item);
      UserIsLoggedIn(ClientApp, s) && CreatorComparable(s) && (u.isModerator ==> CanEdit(ClientApp, s))
  {
  }

  /** Corrected: with the ban flag in the session JSON, the current client
      shows the arrows exactly to users who are signed in and not banned,
      which are the users the vote routes accept. */
  lemma BannedUserHidden(user: Option<User>, loginURL: String, kind: JsValue, link: Object,
                         userVote: JsValue, item: Object)
    ensures UserIsLoggedIn(ClientApp, Scope(kind, SessionUserJson(user, loginURL), link, userVote, item))
      <==> user.Some? && !user.value.isBanned
  {
  }
}
