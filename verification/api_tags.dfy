/** The tag handlers: `createTagAction` in its three versions, `getTagAction`
    and `deleteTagAction`. */
module ApiTags {
  import opened Wrappers
  import opened GoStrings
  import opened Rows
  import opened Ilike
  import opened Ledger
  import opened Constraints
  import opened Merge
  import opened TagValues
  import opened ApiTypes

  /** The cutset server/api_controller.go trims before its emptiness check. */
  const BlankSet: set<char> := {' ', '\t'}

  /** Whether a version refuses a posted value before any lookup: every
      version refuses the empty value; server/controller/api.go also a value
      that cleans to nothing, and server/api_controller.go one made only of
      spaces and tabs. */
  predicate RejectsValue(v: Variant, raw: String) {
    |raw| == 0
    || (v == Controller && |CleanTagValue(raw)| == 0)
    || (v == ApiController && |Trim(raw, BlankSet)| == 0)
  }

  /** The value a version looks up and stores: cleaned (which lower-cases) in
      server/controller/api.go, lower-cased alone in the older versions. */
  function LookupValue(v: Variant, raw: String): (value: String)
    ensures forall i :: 0 <= i < |value| ==> !IsAsciiUpper(value[i])
    ensures v != Controller ==> |value| == |raw|
  {
    if v == Controller then CleanTagValue(raw) else ToLower(raw)
  }

  /** `createTagAction`: refuse an unusable value; otherwise look the value
      up with `ilike` and answer with the tag found, or create the tag under
      the next id with the request's uuid, the caller as creator and the
      value lower-cased, and log its creation. */
  function CreateTagAction(v: Variant, session: Session, db: Db, posted: Option<String>, uuid: String): (r: Response<Tag>)
    ensures r.status == BadRequest <==> posted.None? || RejectsValue(v, posted.value)
    ensures r.status != OK ==> r.db == db && r.queued == [] && r.body.None?
    ensures r.status == OK && r.queued == [] <==>
              posted.Some? && !RejectsValue(v, posted.value)
              && TagByValue(db, LookupValue(v, posted.value)).Ok?
              && !TagByValue(db, LookupValue(v, posted.value)).value.IsZero()
    ensures r.status == OK && r.queued == [] ==>
      r.db == db && r.body.Some? && r.body.value in db.tags && Like(r.body.value.value, LookupValue(v, posted.value))
    ensures r.queued != [] ==>
      r.status == OK && r.body == Some(Tag(NextTagId(db.tags), uuid, session.userId, LookupValue(v, posted.value)))
      && r.db == db.(tags := db.tags + [r.body.value])
      && r.queued == [Moderation(session.userId, Create, TagObject, [uuid])]
    ensures r.queued != [] <==>
              posted.Some? && !RejectsValue(v, posted.value)
              && TagByValue(db, LookupValue(v, posted.value)).Ok?
              && TagByValue(db, LookupValue(v, posted.value)).value.IsZero()
              && InsertTag(db, Tag(NextTagId(db.tags), uuid, session.userId, LookupValue(v, posted.value))).Ok?
    ensures posted.Some? && !RejectsValue(v, posted.value)
            && TagByValue(db, LookupValue(v, posted.value)).Ok?
            && TagByValue(db, LookupValue(v, posted.value)).value.IsZero()
            && |LookupValue(v, posted.value)| > TagValueMaxLength ==>
              r.status == InternalError && r.db == db
  {
    if posted.None? || RejectsValue(v, posted.value) then Refused(BadRequest, db)
    else
      var value := LookupValue(v, posted.value);
      match TagByValue(db, value)
      case Err(_) => Refused(InternalError, db)
      case Ok(existing) =>
        if !existing.IsZero() then Response(OK, Some(existing), db, [])
        else
          LowerUnchanged(value);
          var t := Tag(NextTagId(db.tags), uuid, session.userId, ToLower(value));
          match InsertTag(db, t)
          case Err(_) => Refused(InternalError, db)
          case Ok(db2) => Response(OK, Some(t), db2, [Moderation(session.userId, Create, TagObject, [uuid])])
  }

  /** Creating a tag through the handler keeps the constraints. */
  lemma CreateTagKeepsWf(v: Variant, session: Session, db: Db, posted: Option<String>, uuid: String)
    requires Wf(db)
    ensures Wf(CreateTagAction(v, session, db, posted, uuid).db)
  {
    var r := CreateTagAction(v, session, db, posted, uuid);
    if r.queued != [] {
      InsertTagKeepsWf(db, r.body.value);
    }
  }

  /** With positive ids, a lookup that reads the zero tag found no row. */
  lemma ZeroLookupFoundNothing(db: Db, value: String)
    requires IdsPositive(db) && TagByValue(db, value).Ok? && TagByValue(db, value).value.IsZero()
    ensures forall j :: 0 <= j < |db.tags| ==> !Like(db.tags[j].value, value)
  {
    forall j | 0 <= j < |db.tags| ensures !TagValueLike(value)(db.tags[j]) {
      var t := First(db.tags, TagValueLike(value), ZeroTag);
      assert !(t in db.tags);
    }
  }

  /** In server/controller/api.go the value is cleaned, which leaves no
      wildcard in it: the tag answered is one whose value equals the cleaned
      value up to case, and a tag is created only when no tag's value does. */
  lemma CleanedLookupIsExact(session: Session, db: Db, raw: String, uuid: String)
    requires IdsPositive(db)
    ensures var r := CreateTagAction(Controller, session, db, Some(raw), uuid);
      (r.status == OK && r.queued == [] ==> ToLower(r.body.value.value) == CleanTagValue(raw))
      && (r.queued != [] ==> forall j :: 0 <= j < |db.tags| ==> ToLower(db.tags[j].value) != CleanTagValue(raw))
  {
    var r := CreateTagAction(Controller, session, db, Some(raw), uuid);
    var clean := CleanTagValue(raw);
    forall s: String ensures Like(s, clean) <==> ToLower(s) == clean {
      CleanValueIsPlain(raw, s);
    }
    if r.queued != [] {
      ZeroLookupFoundNothing(db, clean);
    }
  }

  /** The database of the wildcard example: one user and the tag "ab". */
  const WildcardDb: Db :=
    Db([User(1, "u1", 0, "alice", false, false, false)], [], [Tag(1, "t1", 1, "ab")], [], [])

  /** The two older versions look the lower-cased value up with `ilike`
      unescaped: posting "a%" answers with the existing tag "ab", whose value
      is not "a%" in any case, and creates nothing. */
  lemma WildcardFindsOtherTag(session: Session, uuid: String)
    ensures var r := CreateTagAction(LegacyServer, session, WildcardDb, Some("a%"), uuid);
      r.status == OK && r.queued == [] && r.body == Some(Tag(1, "t1", 1, "ab"))
    ensures var r := CreateTagAction(ApiController, session, WildcardDb, Some("a%"), uuid);
      r.status == OK && r.queued == [] && r.body == Some(Tag(1, "t1", 1, "ab"))
    ensures ToLower("ab") != ToLower("a%")
  {
    TrailingWildcardMatchesLonger();
    LowerUnchanged("a%");
    assert Trim("a%", BlankSet) != [] by {
      assert "a%"[0] !in BlankSet;
    }
    assert TagValueLike("a%")(WildcardDb.tags[0]);
  }

  /** A value of one space: refused by server/controller/api.go (it cleans to
      nothing) and by server/api_controller.go (it trims to nothing), but
      looked up by server/server.go. */
  lemma SpaceOnlyValue(session: Session, db: Db, uuid: String)
    ensures CreateTagAction(Controller, session, db, Some(" "), uuid).status == BadRequest
    ensures CreateTagAction(ApiController, session, db, Some(" "), uuid).status == BadRequest
    ensures CreateTagAction(LegacyServer, session, db, Some(" "), uuid).status != BadRequest
  {
    SpaceOnlyRejections();
    var c := CreateTagAction(Controller, session, db, Some(" "), uuid);
    var a := CreateTagAction(ApiController, session, db, Some(" "), uuid);
    var l := CreateTagAction(LegacyServer, session, db, Some(" "), uuid);
  }

  /** Which versions refuse a value of one space before any lookup. */
  lemma SpaceOnlyRejections()
    ensures RejectsValue(Controller, " ") && RejectsValue(ApiController, " ")
    ensures !RejectsValue(LegacyServer, " ")
  {
    assert " "[0] in TagTrimSet && " "[0] in BlankSet;
  }

  /** `getTagAction`: the tag with the uuid, else the first tag whose value
      matches the key with `ilike`; NotFound when both read the zero tag. */
  function GetTagAction(db: Db, key: String): (r: Response<Tag>)
    ensures r.db == db && r.queued == []
    ensures r.status == OK || r.status == NotFound || r.status == InternalError
    ensures !TagByUuid(db, key).IsZero() ==> r.status == OK && r.body == Some(TagByUuid(db, key))
    ensures r.status == InternalError <==> TagByUuid(db, key).IsZero() && !ValidLikePattern(key)
    ensures r.status == OK ==>
      r.body.Some? && r.body.value in db.tags && !r.body.value.IsZero()
      && (r.body.value.uuid == key || Like(r.body.value.value, key))
  {
    var byUuid := TagByUuid(db, key);
    if !byUuid.IsZero() then Response(OK, Some(byUuid), db, [])
    else
      match TagByValue(db, key)
      case Err(_) => Refused(InternalError, db)
      case Ok(t) => if t.IsZero() then Refused(NotFound, db) else Response(OK, Some(t), db, [])
  }

  /** With positive ids, NotFound means that no tag has the key as its uuid
      and no tag's value matches it. */
  lemma GetTagNotFoundMeansAbsent(db: Db, key: String)
    requires IdsPositive(db) && GetTagAction(db, key).status == NotFound
    ensures forall j :: 0 <= j < |db.tags| ==> db.tags[j].uuid != key && !Like(db.tags[j].value, key)
  {
    ZeroLookupFoundNothing(db, key);
    forall j | 0 <= j < |db.tags| ensures !TagUuidIs(key)(db.tags[j]) {
      assert !(TagByUuid(db, key) in db.tags);
    }
  }

  /** A tag read by a single-row query that is not the zero tag is a row of the table. */
  lemma FoundTagExists(db: Db, t: Tag)
    requires t in db.tags
    ensures HasTag(db, t.id)
  {
    var m :| 0 <= m < |db.tags| && db.tags[m] == t;
    AnyWitness(db.tags, TagIdIs(t.id), m);
  }

  /** `deleteTagAction`, the same in all three versions: the tag must exist
      and the caller must be a moderator or its creator; then the tag row
      alone is deleted, which the foreign keys refuse while a link or vote
      uses the tag. */
  function DeleteTagAction(session: Session, db: Db, tagUuid: String): (r: Response<()>)
    ensures r.status == NotFound <==> TagByUuid(db, tagUuid).IsZero()
    ensures r.status == NotAuthorized <==>
              !TagByUuid(db, tagUuid).IsZero() && !MayDelete(UserById(db, session.userId), TagByUuid(db, tagUuid).createdBy)
    ensures r.status == InternalError <==>
              !TagByUuid(db, tagUuid).IsZero() && MayDelete(UserById(db, session.userId), TagByUuid(db, tagUuid).createdBy)
              && TagReferenced(db, TagByUuid(db, tagUuid).id)
    ensures r.status != OK ==> r.db == db && r.queued == []
    ensures r.status == OK ==>
      !HasTag(r.db, TagByUuid(db, tagUuid).id) && r.db.summaries == db.summaries && r.db.votes == db.votes
      && r.queued == [Moderation(session.userId, Delete, TagObject, [TagByUuid(db, tagUuid).uuid])]
  {
    var currentUser := UserById(db, session.userId);
    var tag := TagByUuid(db, tagUuid);
    if tag.IsZero() then Refused(NotFound, db)
    else if !MayDelete(currentUser, tag.createdBy) then Refused(NotAuthorized, db)
    else
      assert tag in db.tags;
      FoundTagExists(db, tag);
      match DeleteTagByID(db, tag.id)
      case Err(_) => Refused(InternalError, db)
      case Ok(db2) => Response(OK, None, db2, [Moderation(session.userId, Delete, TagObject, [tag.uuid])])
  }

  /** Deleting a tag through the handler keeps the constraints. */
  lemma DeleteTagActionKeepsWf(session: Session, db: Db, tagUuid: String)
    requires Wf(db)
    ensures Wf(DeleteTagAction(session, db, tagUuid).db)
  {
    var r := DeleteTagAction(session, db, tagUuid);
    if r.status == OK {
      DeleteTagByIDKeepsWf(db, TagByUuid(db, tagUuid).id);
    }
  }

  /** The handler with the cascading delete the model layer provides: an
      authorised delete of an existing tag always succeeds, and removes the
      tag's links and votes with it. */
  function DeleteTagActionCascading(session: Session, db: Db, tagUuid: String): (r: Response<()>)
    ensures r.status == NotFound <==> TagByUuid(db, tagUuid).IsZero()
    ensures r.status == NotAuthorized <==>
              !TagByUuid(db, tagUuid).IsZero() && !MayDelete(UserById(db, session.userId), TagByUuid(db, tagUuid).createdBy)
    ensures r.status == OK <==>
              !TagByUuid(db, tagUuid).IsZero() && MayDelete(UserById(db, session.userId), TagByUuid(db, tagUuid).createdBy)
    ensures r.status != OK ==> r.db == db && r.queued == []
    ensures r.status == OK ==>
      var id := TagByUuid(db, tagUuid).id;
      !HasTag(r.db, id) && !TagReferenced(r.db, id)
      && (forall j :: 0 <= j < |db.summaries| && db.summaries[j].tagId != id ==> db.summaries[j] in r.db.summaries)
      && (forall j :: 0 <= j < |db.votes| && db.votes[j].tagId != id ==> db.votes[j] in r.db.votes)
      && r.queued == [Moderation(session.userId, Delete, TagObject, [TagByUuid(db, tagUuid).uuid])]
  {
    var currentUser := UserById(db, session.userId);
    var tag := TagByUuid(db, tagUuid);
    if tag.IsZero() then Refused(NotFound, db)
    else if !MayDelete(currentUser, tag.createdBy) then Refused(NotAuthorized, db)
    else Response(OK, None, DeleteTagAndVotesByID(db, tag.id).value, [Moderation(session.userId, Delete, TagObject, [tag.uuid])])
  }

  /** The cascading handler keeps the constraints. */
  lemma DeleteTagActionCascadingKeepsWf(session: Session, db: Db, tagUuid: String)
    requires Wf(db)
    ensures Wf(DeleteTagActionCascading(session, db, tagUuid).db)
  {
    DeleteTagAndVotesByIDKeepsWf(db, TagByUuid(db, tagUuid).id);
  }
}
