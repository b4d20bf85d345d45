/** `updateUserAction` in its three versions: an administrator edits another
    user's moderator and banned flags, subject to the rules that nobody is
    made or unmade administrator through the API and that an administrator
    cannot be banned. */
module ApiUsers {
  import opened Wrappers
  import opened GoStrings
  import opened Rows
  import opened Ledger
  import opened ApiTypes

  /** The posted record with the stored user's identity forced onto it: the
      id, uuid and creation time in every version, and the username as well
      in server/controller/api.go. */
  function ForceIdentity(v: Variant, stored: User, posted: User): User {
    posted.(id := stored.id, uuid := stored.uuid, createdUtc := stored.createdUtc,
            username := if v == Controller then stored.username else posted.username)
  }

  /** The entries queued for an edit: one for a change of the moderator flag,
      then one for a change of the banned flag. */
  function UserModerations(actor: int, stored: User, updated: User): (q: seq<Moderation>)
    ensures Moderation(actor, PromoteAsModerator, UserObject, [updated.uuid]) in q
            <==> !stored.isModerator && updated.isModerator
    ensures Moderation(actor, DemoteAsModerator, UserObject, [updated.uuid]) in q
            <==> stored.isModerator && !updated.isModerator
    ensures Moderation(actor, Ban, UserObject, [updated.uuid]) in q <==> !stored.isBanned && updated.isBanned
    ensures Moderation(actor, Unban, UserObject, [updated.uuid]) in q <==> stored.isBanned && !updated.isBanned
    ensures |q| == (if stored.isModerator != updated.isModerator then 1 else 0)
                   + (if stored.isBanned != updated.isBanned then 1 else 0)
    ensures forall k :: 0 <= k < |q| ==> q[k].userId == actor && q[k].kind == UserObject && q[k].nouns == [updated.uuid]
  {
    var role :=
      if !stored.isModerator && updated.isModerator then [Moderation(actor, PromoteAsModerator, UserObject, [updated.uuid])]
      else if stored.isModerator && !updated.isModerator then [Moderation(actor, DemoteAsModerator, UserObject, [updated.uuid])]
      else [];
    var ban :=
      if !stored.isBanned && updated.isBanned then [Moderation(actor, Ban, UserObject, [updated.uuid])]
      else if stored.isBanned && !updated.isBanned then [Moderation(actor, Unban, UserObject, [updated.uuid])]
      else [];
    role + ban
  }

  /** The edit a request may make: the administrator flag unchanged, and no banned administrator. */
  predicate AdminRulesHold(stored: User, posted: User) {
    posted.isAdmin == stored.isAdmin && !(posted.isAdmin && posted.isBanned)
  }

  /** `updateUserAction`: only an administrator may edit; an unknown uuid is
      NotFound, an unreadable body or an edit against the administrator rules
      a BadRequest; otherwise the edited record is written back whole and the
      flag changes are logged. */
  function UpdateUserAction(v: Variant, session: Session, db: Db, userUuid: String, posted: Option<User>): (r: Response<User>)
    ensures r.status == OK <==>
              session.user.isAdmin && !UserByUuid(db, userUuid).IsZero()
              && posted.Some? && AdminRulesHold(UserByUuid(db, userUuid), posted.value)
    ensures !session.user.isAdmin ==> r.status == NotAuthorized
    ensures session.user.isAdmin && UserByUuid(db, userUuid).IsZero() ==> r.status == NotFound
    ensures session.user.isAdmin && !UserByUuid(db, userUuid).IsZero() && r.status != OK ==> r.status == BadRequest
    ensures r.status != OK ==> r.db == db && r.queued == [] && r.body.None?
    ensures r.status == OK ==>
      var stored := UserByUuid(db, userUuid);
      r.body.Some? && r.body.value.id == stored.id && r.body.value.uuid == stored.uuid
      && r.body.value.createdUtc == stored.createdUtc && r.body.value.isAdmin == stored.isAdmin
      && r.body.value.username == (if v == Controller then stored.username else posted.value.username)
      && r.body.value.isModerator == posted.value.isModerator && r.body.value.isBanned == posted.value.isBanned
      && r.db == UpdateUser(db, r.body.value)
      && r.queued == UserModerations(session.userId, stored, r.body.value)
  {
    if !session.user.isAdmin then Refused(NotAuthorized, db)
    else
      var stored := UserByUuid(db, userUuid);
      if stored.IsZero() then Refused(NotFound, db)
      else if posted.None? then Refused(BadRequest, db)
      else
        var updated := ForceIdentity(v, stored, posted.value);
        if !stored.isAdmin && updated.isAdmin then Refused(BadRequest, db)
        else if stored.isAdmin && !updated.isAdmin then Refused(BadRequest, db)
        else if updated.isAdmin && updated.isBanned then Refused(BadRequest, db)
        else Response(OK, Some(updated), UpdateUser(db, updated), UserModerations(session.userId, stored, updated))
  }

  /** Writing a user record back under its own id keeps the constraints. */
  lemma UpdateUserKeepsWf(db: Db, u: User)
    requires Wf(db)
    ensures Wf(UpdateUser(db, u))
    ensures forall x :: HasUser(UpdateUser(db, u), x) <==> HasUser(db, x)
  {
    var r := UpdateUser(db, u);
    assert forall j :: 0 <= j < |db.users| ==> r.users[j].id == db.users[j].id;
    forall x | HasUser(db, x) ensures HasUser(r, x) {
      AnyWitness(r.users, UserIdIs(x), FindIndex(db.users, UserIdIs(x)).value);
    }
    forall x | HasUser(r, x) ensures HasUser(db, x) {
      AnyWitness(db.users, UserIdIs(x), FindIndex(r.users, UserIdIs(x)).value);
    }
  }

  /** With unique ids, rewriting the row with the id of the first row with a
      uuid, by a record that keeps that uuid, is what the uuid reads back. */
  lemma RewriteFirstByUuid(users: seq<User>, uuid: String, u: User)
    requires Pairwise(users, UserIdsDiffer)
    requires Any(users, UserUuidIs(uuid))
    requires u.id == First(users, UserUuidIs(uuid), ZeroUser).id && u.uuid == uuid
    ensures First(Rewrite(users, UserIdIs(u.id), ReplaceUser(u)), UserUuidIs(uuid), ZeroUser) == u
  {
    var k := FindIndex(users, UserUuidIs(uuid)).value;
    FirstAt(users, UserUuidIs(uuid), k, ZeroUser);
    var r := Rewrite(users, UserIdIs(u.id), ReplaceUser(u));
    forall j | 0 <= j < k ensures !UserUuidIs(uuid)(r[j]) {
      assert users[j].id != users[k].id;
      assert r[j] == users[j];
    }
    assert r[k] == u;
    FirstAt(r, UserUuidIs(uuid), k, ZeroUser);
  }

  /** After an accepted edit the uuid reads back the edited record, the
      constraints still hold, and every other user is unchanged. */
  lemma UpdateUserReadsBack(v: Variant, session: Session, db: Db, userUuid: String, posted: Option<User>)
    requires Wf(db)
    requires UpdateUserAction(v, session, db, userUuid, posted).status == OK
    ensures var r := UpdateUserAction(v, session, db, userUuid, posted);
      UserByUuid(r.db, userUuid) == r.body.value && Wf(r.db)
      && |r.db.users| == |db.users|
      && forall j :: 0 <= j < |db.users| && db.users[j].id != r.body.value.id ==> r.db.users[j] == db.users[j]
  {
    var r := UpdateUserAction(v, session, db, userUuid, posted);
    var stored := UserByUuid(db, userUuid);
    assert Any(db.users, UserUuidIs(userUuid));
    RewriteFirstByUuid(db.users, userUuid, r.body.value);
    UpdateUserKeepsWf(db, r.body.value);
  }

  /** No accepted edit changes who is an administrator, and no edit leaves an
      administrator banned who was not banned before. */
  lemma UpdateUserKeepsAdmins(v: Variant, session: Session, db: Db, userUuid: String, posted: Option<User>)
    requires Wf(db)
    requires UpdateUserAction(v, session, db, userUuid, posted).status == OK
    ensures var r := UpdateUserAction(v, session, db, userUuid, posted);
      |r.db.users| == |db.users|
      && (forall j :: 0 <= j < |db.users| ==> r.db.users[j].isAdmin == db.users[j].isAdmin)
      && (forall j :: 0 <= j < |db.users| && r.db.users[j].isAdmin && r.db.users[j].isBanned ==> db.users[j].isBanned)
  {
    var r := UpdateUserAction(v, session, db, userUuid, posted);
    var stored := UserByUuid(db, userUuid);
    var k := FindIndex(db.users, UserUuidIs(userUuid)).value;
    assert db.users[k] == stored;
    forall j | 0 <= j < |db.users| && db.users[j].id == stored.id ensures db.users[j] == stored {
      assert j == k;
    }
  }
}
