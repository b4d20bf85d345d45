/** What `/api/session.user` answers (server/viewmodel/current_user.go and
    `getCurrentUserAction` in server/controller/api.go): the signed-in
    user's public fields, or a signed-out marker with the login URL, and the
    JSON object the browser client decodes from it. */
module CurrentUserView {
  import opened Wrappers
  import opened GoStrings
  import opened Ledger
  import opened JsValues

  /** `viewmodel.CurrentUser`; the user's id is not serialised and is left out. */
  datatype CurrentUser = CurrentUser(isLoggedIn: bool, userUUID: String, username: String,
                                     isAdmin: bool, isModerator: bool, loginURL: String)

  /** The zero `CurrentUser` the action starts from. */
  const Zero := CurrentUser(false, "", "", false, false, "")

  /** `SetFromUser` on a zero view: signed in, with the user's uuid, name and
      roles, and no login URL. */
  function FromUser(u: User): (cu: CurrentUser)
    ensures cu.isLoggedIn && cu.userUUID == u.uuid && cu.username == u.username
    ensures cu.isAdmin == u.isAdmin && cu.isModerator == u.isModerator
    ensures cu.loginURL == ""
  {
    Zero.(isLoggedIn := true, userUUID := u.uuid, username := u.username,
          isAdmin := u.isAdmin, isModerator := u.isModerator)
  }

  /** `SetLoggedOut` on a zero view: signed out, no roles, and the Google
      sign-in URL (built from configuration, so a parameter here). */
  function LoggedOut(loginURL: String): (cu: CurrentUser)
    ensures !cu.isLoggedIn && !cu.isAdmin && !cu.isModerator
    ensures cu.userUUID == "" && cu.loginURL == loginURL
  {
    Zero.(loginURL := loginURL)
  }

  /** `getCurrentUserAction`: signed out without a session, else the
      session's user. */
  function CurrentUserOf(user: Option<User>, loginURL: String): (cu: CurrentUser)
    ensures cu.isLoggedIn <==> user.Some?
    ensures user.Some? ==> cu == FromUser(user.value)
    ensures user.None? ==> cu == LoggedOut(loginURL)
  {
    if user.None? then LoggedOut(loginURL) else FromUser(user.value)
  }

  /** The JSON object: every field is always written, `login_url` included,
      because its tag spells the option `ommitempty`, which encoding/json
      does not know and ignores.  There is no `uuid` and no `is_banned` key. */
  function ToJson(cu: CurrentUser): (o: Object)
    ensures o.Keys == {"is_logged_in", "user_uuid", "username", "is_admin", "is_moderator", "login_url"}
    ensures Truthy(Get(o, "is_logged_in")) <==> cu.isLoggedIn
    ensures Truthy(Get(o, "is_moderator")) <==> cu.isModerator
    ensures Get(o, "user_uuid") == Str(cu.userUUID)
  {
    map["is_logged_in" := Bool(cu.isLoggedIn), "user_uuid" := Str(cu.userUUID),
        "username" := Str(cu.username), "is_admin" := Bool(cu.isAdmin),
        "is_moderator" := Bool(cu.isModerator), "login_url" := Str(cu.loginURL)]
  }

  /** The fields the client reads but the server never writes read as
      `undefined`, whatever the user: in particular a banned user's JSON is
      indistinguishable from an unbanned one's. */
  lemma JsonLacksClientFields(u: User, v: User)
    requires u.uuid == v.uuid && u.username == v.username
    requires u.isAdmin == v.isAdmin && u.isModerator == v.isModerator
    ensures Get(ToJson(FromUser(u)), "uuid") == Undefined
    ensures Get(ToJson(FromUser(u)), "is_banned") == Undefined
    ensures ToJson(FromUser(u)) == ToJson(FromUser(v))
  {
  }

  /** The view with the ban flag added, as the client expects it: the same
      JSON plus `is_banned`. */
  function ToJsonWithBan(cu: CurrentUser, isBanned: bool): (o: Object)
    ensures o.Keys == ToJson(cu).Keys + {"is_banned"}
    ensures forall k :: k in ToJson(cu) ==> k in o && o[k] == ToJson(cu)[k]
    ensures Truthy(Get(o, "is_banned")) <==> isBanned
  {
    ToJson(cu)["is_banned" := Bool(isBanned)]
  }

  /** The view of a session's user with the ban flag. */
  function SessionUserJson(user: Option<User>, loginURL: String): (o: Object)
    ensures Truthy(Get(o, "is_logged_in")) <==> user.Some?
    ensures Truthy(Get(o, "is_banned")) <==> (user.Some? && user.value.isBanned)
    ensures Truthy(Get(o, "is_moderator")) <==> (user.Some? && user.value.isModerator)
    ensures user.Some? ==> Get(o, "user_uuid") == Str(user.value.uuid)
  {
    ToJsonWithBan(CurrentUserOf(user, loginURL), user.Some? && user.value.isBanned)
  }
}
