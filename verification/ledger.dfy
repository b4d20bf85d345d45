/** The five tables the vote ledger lives in (users, image, tag,
    vote_summary and vote), their keys and foreign keys, the queries that
    read one row into a zero-initialised record, and the single-table
    statements the model layer issues.

    A table is a sequence of rows in storage order.  A statement that
    violates a primary-key, unique or foreign-key constraint fails and
    changes nothing.  An operation of several statements that fails is
    reported as an error with no resulting state: inside a transaction
    Postgres aborts on the first error; the vote statements, which run
    without one, keep their earlier writes, which the model drops. */
module Ledger {
  import opened Wrappers
  import opened GoStrings
  import opened Rows
  import opened Ilike

  datatype User = User(id: int, uuid: String, createdUtc: int, username: String,
                       isAdmin: bool, isModerator: bool, isBanned: bool) {
    predicate IsZero() { id == 0 }
  }

  datatype Image = Image(id: int, uuid: String, createdBy: int, displayName: String, isCensored: bool) {
    predicate IsZero() { id == 0 }
  }

  datatype Tag = Tag(id: int, uuid: String, createdBy: int, value: String) {
    predicate IsZero() { id == 0 }
  }

  /** A row of vote_summary, the link between an image and a tag. */
  datatype VoteSummary = VoteSummary(imageId: int, tagId: int, lastVoteUtc: int, lastVoteBy: int,
                                     votesFor: int, votesAgainst: int, votesTotal: int) {
    predicate IsZero() { imageId == 0 || tagId == 0 }
  }

  /** A row of vote: one user's vote on one image-tag link. */
  datatype Vote = Vote(userId: int, imageId: int, tagId: int, timestampUtc: int, isUpvote: bool) {
    predicate IsZero() { userId == 0 }
  }

  datatype Db = Db(users: seq<User>, images: seq<Image>, tags: seq<Tag>,
                   summaries: seq<VoteSummary>, votes: seq<Vote>)

  datatype DbError = PrimaryKeyViolation | UniqueViolation | ForeignKeyViolation | InvalidPattern | ValueTooLong

  /** The width of the `tag_value varchar(32)` column. */
  const TagValueMaxLength: nat := 32

  const ZeroUser := User(0, "", 0, "", false, false, false)
  const ZeroImage := Image(0, "", 0, "", false)
  const ZeroTag := Tag(0, "", 0, "")
  const ZeroSummary := VoteSummary(0, 0, 0, 0, 0, 0, 0)
  const ZeroVote := Vote(0, 0, 0, 0, false)

  // ---------------------------------------------------------------------
  // Row conditions
  // ---------------------------------------------------------------------

  function UserIdIs(id: int): User -> bool { (u: User) => u.id == id }
  function UserUuidIs(uuid: String): User -> bool { (u: User) => u.uuid == uuid }
  function ImageIdIs(id: int): Image -> bool { (i: Image) => i.id == id }
  function ImageUuidIs(uuid: String): Image -> bool { (i: Image) => i.uuid == uuid }
  function TagIdIs(id: int): Tag -> bool { (t: Tag) => t.id == id }
  function TagUuidIs(uuid: String): Tag -> bool { (t: Tag) => t.uuid == uuid }
  function TagValueIs(value: String): Tag -> bool { (t: Tag) => t.value == value }
  function TagValueLike(pattern: String): Tag -> bool { (t: Tag) => Like(t.value, pattern) }

  function SummaryKeyIs(imageId: int, tagId: int): VoteSummary -> bool {
    (s: VoteSummary) => s.imageId == imageId && s.tagId == tagId
  }
  function SummaryTagIs(tagId: int): VoteSummary -> bool { (s: VoteSummary) => s.tagId == tagId }
  function SummaryImageIs(imageId: int): VoteSummary -> bool { (s: VoteSummary) => s.imageId == imageId }

  function VoteKeyIs(userId: int, imageId: int, tagId: int): Vote -> bool {
    (v: Vote) => v.userId == userId && v.imageId == imageId && v.tagId == tagId
  }
  function VoteTagIs(tagId: int): Vote -> bool { (v: Vote) => v.tagId == tagId }
  function VoteImageIs(imageId: int): Vote -> bool { (v: Vote) => v.imageId == imageId }
  /** Votes on the link (imageId, tagId) in the given direction. */
  function VoteOn(imageId: int, tagId: int, isUpvote: bool): Vote -> bool {
    (v: Vote) => v.imageId == imageId && v.tagId == tagId && v.isUpvote == isUpvote
  }

  function Not<T>(p: T -> bool): T -> bool { (x: T) => !p(x) }

  // ---------------------------------------------------------------------
  // Single-row queries (a missing row reads as the zero record)
  // ---------------------------------------------------------------------

  function UserById(db: Db, id: int): User { First(db.users, UserIdIs(id), ZeroUser) }
  function UserByUuid(db: Db, uuid: String): User { First(db.users, UserUuidIs(uuid), ZeroUser) }
  function ImageByUuid(db: Db, uuid: String): Image { First(db.images, ImageUuidIs(uuid), ZeroImage) }
  function TagById(db: Db, id: int): Tag { First(db.tags, TagIdIs(id), ZeroTag) }
  function TagByUuid(db: Db, uuid: String): Tag { First(db.tags, TagUuidIs(uuid), ZeroTag) }

  /** `select * from tag where tag_value ilike $1`, read into one record:
      with no ORDER BY the first matching row in storage order. */
  function TagByValue(db: Db, value: String): Result<Tag, DbError> {
    if !ValidLikePattern(value) then Err(InvalidPattern)
    else Ok(First(db.tags, TagValueLike(value), ZeroTag))
  }

  function GetVoteSummary(db: Db, imageId: int, tagId: int): VoteSummary {
    First(db.summaries, SummaryKeyIs(imageId, tagId), ZeroSummary)
  }

  function GetVote(db: Db, userId: int, imageId: int, tagId: int): Vote {
    First(db.votes, VoteKeyIs(userId, imageId, tagId), ZeroVote)
  }

  predicate HasUser(db: Db, id: int) { Any(db.users, UserIdIs(id)) }
  predicate HasImage(db: Db, id: int) { Any(db.images, ImageIdIs(id)) }
  predicate HasTag(db: Db, id: int) { Any(db.tags, TagIdIs(id)) }
  predicate HasSummary(db: Db, imageId: int, tagId: int) { Any(db.summaries, SummaryKeyIs(imageId, tagId)) }
  predicate HasVote(db: Db, userId: int, imageId: int, tagId: int) { Any(db.votes, VoteKeyIs(userId, imageId, tagId)) }

  // ---------------------------------------------------------------------
  // Constraints of database/initialize/initialize.go
  // ---------------------------------------------------------------------

  const UserIdsDiffer: (User, User) -> bool := (a: User, b: User) => a.id != b.id
  const ImageIdsDiffer: (Image, Image) -> bool := (a: Image, b: Image) => a.id != b.id
  /** tag.id is the primary key; tag.tag_uuid and tag.tag_value are unique. */
  const TagsDiffer: (Tag, Tag) -> bool := (a: Tag, b: Tag) => a.id != b.id && a.uuid != b.uuid && a.value != b.value
  const SummaryKeysDiffer: (VoteSummary, VoteSummary) -> bool :=
    (a: VoteSummary, b: VoteSummary) => !(a.imageId == b.imageId && a.tagId == b.tagId)
  const VoteKeysDiffer: (Vote, Vote) -> bool :=
    (a: Vote, b: Vote) => !(a.userId == b.userId && a.imageId == b.imageId && a.tagId == b.tagId)

  /** The primary keys of every table, and the unique uuid and value of tag. */
  predicate KeysUnique(db: Db) {
    Pairwise(db.users, UserIdsDiffer) && Pairwise(db.images, ImageIdsDiffer) && Pairwise(db.tags, TagsDiffer)
    && Pairwise(db.summaries, SummaryKeysDiffer) && Pairwise(db.votes, VoteKeysDiffer)
  }

  /** Foreign keys of vote_summary and vote. */
  predicate ForeignKeysHold(db: Db) {
    (forall j :: 0 <= j < |db.summaries| ==>
       HasImage(db, db.summaries[j].imageId) && HasTag(db, db.summaries[j].tagId))
    && (forall j :: 0 <= j < |db.votes| ==>
       HasUser(db, db.votes[j].userId) && HasImage(db, db.votes[j].imageId) && HasTag(db, db.votes[j].tagId))
  }

  /** Serial ids start at 1. */
  predicate IdsPositive(db: Db) {
    (forall j :: 0 <= j < |db.users| ==> db.users[j].id > 0)
    && (forall j :: 0 <= j < |db.images| ==> db.images[j].id > 0)
    && (forall j :: 0 <= j < |db.tags| ==> db.tags[j].id > 0)
  }

  /** Every stored tag value fits its `varchar(32)` column. */
  predicate ColumnsFit(db: Db) {
    forall j :: 0 <= j < |db.tags| ==> |db.tags[j].value| <= TagValueMaxLength
  }

  predicate Wf(db: Db) {
    KeysUnique(db) && ForeignKeysHold(db) && IdsPositive(db) && ColumnsFit(db)
  }

  // ---------------------------------------------------------------------
  // The agreement between summaries and vote rows
  // ---------------------------------------------------------------------

  function UpCount(db: Db, imageId: int, tagId: int): nat { Count(db.votes, VoteOn(imageId, tagId, true)) }
  function DownCount(db: Db, imageId: int, tagId: int): nat { Count(db.votes, VoteOn(imageId, tagId, false)) }

  /** A summary whose counts are those of its link's vote rows and whose
      total is for minus against. */
  predicate SummaryAgrees(db: Db, s: VoteSummary) {
    s.votesFor == UpCount(db, s.imageId, s.tagId)
    && s.votesAgainst == DownCount(db, s.imageId, s.tagId)
    && s.votesTotal == s.votesFor - s.votesAgainst
  }

  /** Every summary agrees with the vote rows, and every vote row belongs to a link that has a summary. */
  predicate Agreement(db: Db) {
    (forall j :: 0 <= j < |db.summaries| ==> SummaryAgrees(db, db.summaries[j]))
    && (forall j :: 0 <= j < |db.votes| ==> HasSummary(db, db.votes[j].imageId, db.votes[j].tagId))
  }

  // ---------------------------------------------------------------------
  // Statements on vote_summary
  // ---------------------------------------------------------------------

  /** `Create` of a vote_summary row. */
  function InsertSummary(db: Db, s: VoteSummary): (r: Result<Db, DbError>)
    ensures r.Ok? <==> !HasSummary(db, s.imageId, s.tagId) && HasImage(db, s.imageId) && HasTag(db, s.tagId)
    ensures r.Ok? ==> r.value == db.(summaries := db.summaries + [s])
    ensures r.Err? && HasSummary(db, s.imageId, s.tagId) ==> r.error == PrimaryKeyViolation
  {
    if HasSummary(db, s.imageId, s.tagId) then Err(PrimaryKeyViolation)
    else if !HasImage(db, s.imageId) || !HasTag(db, s.tagId) then Err(ForeignKeyViolation)
    else Ok(db.(summaries := db.summaries + [s]))
  }

  function ReplaceSummary(s: VoteSummary): VoteSummary -> VoteSummary { (_: VoteSummary) => s }

  /** `Update` of a vote_summary record: every column of the row with the record's key. */
  function UpdateSummary(db: Db, s: VoteSummary): (r: Db)
    ensures |r.summaries| == |db.summaries|
    ensures forall j :: 0 <= j < |db.summaries| ==>
      r.summaries[j] == if SummaryKeyIs(s.imageId, s.tagId)(db.summaries[j]) then s else db.summaries[j]
    ensures r.votes == db.votes && r.tags == db.tags && r.images == db.images && r.users == db.users
  {
    db.(summaries := Rewrite(db.summaries, SummaryKeyIs(s.imageId, s.tagId), ReplaceSummary(s)))
  }

  function WithCounts(votesFor: int, votesAgainst: int): VoteSummary -> VoteSummary {
    (s: VoteSummary) => s.(votesFor := votesFor, votesAgainst := votesAgainst, votesTotal := votesFor - votesAgainst)
  }

  /** `update vote_summary set votes_for, votes_against, votes_total` for one link. */
  function SetVoteSummaryVoteCounts(db: Db, imageId: int, tagId: int, votesFor: int, votesAgainst: int): (r: Db)
    ensures |r.summaries| == |db.summaries|
    ensures forall j :: 0 <= j < |db.summaries| && SummaryKeyIs(imageId, tagId)(db.summaries[j]) ==>
      r.summaries[j].votesFor == votesFor && r.summaries[j].votesAgainst == votesAgainst
      && r.summaries[j].votesTotal == votesFor - votesAgainst
      && r.summaries[j].imageId == imageId && r.summaries[j].tagId == tagId
      && r.summaries[j].lastVoteBy == db.summaries[j].lastVoteBy
      && r.summaries[j].lastVoteUtc == db.summaries[j].lastVoteUtc
    ensures forall j :: 0 <= j < |db.summaries| && !SummaryKeyIs(imageId, tagId)(db.summaries[j]) ==>
      r.summaries[j] == db.summaries[j]
    ensures r.votes == db.votes && r.tags == db.tags && r.images == db.images && r.users == db.users
  {
    db.(summaries := Rewrite(db.summaries, SummaryKeyIs(imageId, tagId), WithCounts(votesFor, votesAgainst)))
  }

  /** The reconciliation statement: the link's counts recomputed from its
      vote rows; its key and last vote are not among the columns it sets. */
  function ReconcileVoteSummaryTotals(db: Db, imageId: int, tagId: int): (r: Db)
    ensures |r.summaries| == |db.summaries|
    ensures forall j :: 0 <= j < |db.summaries| && SummaryKeyIs(imageId, tagId)(db.summaries[j]) ==>
      SummaryAgrees(r, r.summaries[j])
      && r.summaries[j].imageId == imageId && r.summaries[j].tagId == tagId
      && r.summaries[j].lastVoteBy == db.summaries[j].lastVoteBy
      && r.summaries[j].lastVoteUtc == db.summaries[j].lastVoteUtc
    ensures forall j :: 0 <= j < |db.summaries| && !SummaryKeyIs(imageId, tagId)(db.summaries[j]) ==>
      r.summaries[j] == db.summaries[j]
    ensures r.votes == db.votes && r.tags == db.tags && r.images == db.images && r.users == db.users
  {
    SetVoteSummaryVoteCounts(db, imageId, tagId, UpCount(db, imageId, tagId), DownCount(db, imageId, tagId))
  }

  function WithTag(tagId: int): VoteSummary -> VoteSummary { (s: VoteSummary) => s.(tagId := tagId) }

  /** `update vote_summary set tag_id = new where image_id and tag_id = old`. */
  function SetVoteSummaryTagID(db: Db, imageId: int, oldTagId: int, newTagId: int): (r: Result<Db, DbError>)
    ensures !HasSummary(db, imageId, oldTagId) || oldTagId == newTagId ==> r == Ok(db)
    ensures r.Err? <==> HasSummary(db, imageId, oldTagId) && oldTagId != newTagId
                        && (HasSummary(db, imageId, newTagId) || !HasTag(db, newTagId))
    ensures r.Ok? ==> |r.value.summaries| == |db.summaries|
    ensures r.Ok? ==> forall j :: 0 <= j < |db.summaries| ==>
      r.value.summaries[j] == if SummaryKeyIs(imageId, oldTagId)(db.summaries[j]) then db.summaries[j].(tagId := newTagId)
                              else db.summaries[j]
    ensures r.Ok? ==> r.value.votes == db.votes && r.value.tags == db.tags
                      && r.value.images == db.images && r.value.users == db.users
  {
    if !HasSummary(db, imageId, oldTagId) || oldTagId == newTagId then Ok(db)
    else if HasSummary(db, imageId, newTagId) then Err(PrimaryKeyViolation)
    else if !HasTag(db, newTagId) then Err(ForeignKeyViolation)
    else Ok(db.(summaries := Rewrite(db.summaries, SummaryKeyIs(imageId, oldTagId), WithTag(newTagId))))
  }

  /** `delete from vote_summary where image_id and tag_id`. */
  function DeleteVoteSummary(db: Db, imageId: int, tagId: int): (r: Db)
    ensures !HasSummary(r, imageId, tagId)
    ensures forall j :: 0 <= j < |db.summaries| && !SummaryKeyIs(imageId, tagId)(db.summaries[j]) ==>
      db.summaries[j] in r.summaries
    ensures forall j :: 0 <= j < |r.summaries| ==> r.summaries[j] in db.summaries
    ensures r.votes == db.votes && r.tags == db.tags && r.images == db.images && r.users == db.users
  {
    db.(summaries := Filter(db.summaries, Not(SummaryKeyIs(imageId, tagId))))
  }

  // ---------------------------------------------------------------------
  // Statements on vote
  // ---------------------------------------------------------------------

  /** `Create` of a vote row. */
  function InsertVote(db: Db, v: Vote): (r: Result<Db, DbError>)
    ensures r.Ok? <==> !HasVote(db, v.userId, v.imageId, v.tagId)
                       && HasUser(db, v.userId) && HasImage(db, v.imageId) && HasTag(db, v.tagId)
    ensures r.Ok? ==> r.value == db.(votes := db.votes + [v])
    ensures HasVote(db, v.userId, v.imageId, v.tagId) ==> r == Err(PrimaryKeyViolation)
  {
    if HasVote(db, v.userId, v.imageId, v.tagId) then Err(PrimaryKeyViolation)
    else if !HasUser(db, v.userId) || !HasImage(db, v.imageId) || !HasTag(db, v.tagId) then Err(ForeignKeyViolation)
    else Ok(db.(votes := db.votes + [v]))
  }

  /** `delete from vote where user_id and image_id and tag_id`. */
  function DeleteVote(db: Db, userId: int, imageId: int, tagId: int): (r: Db)
    ensures !HasVote(r, userId, imageId, tagId)
    ensures forall j :: 0 <= j < |db.votes| && !VoteKeyIs(userId, imageId, tagId)(db.votes[j]) ==>
      db.votes[j] in r.votes
    ensures forall j :: 0 <= j < |r.votes| ==> r.votes[j] in db.votes
    ensures r.summaries == db.summaries && r.tags == db.tags && r.images == db.images && r.users == db.users
  {
    db.(votes := Filter(db.votes, Not(VoteKeyIs(userId, imageId, tagId))))
  }

  function WithVoteTag(tagId: int): Vote -> Vote { (v: Vote) => v.(tagId := tagId) }

  /** `update vote set tag_id = new where user_id and image_id and tag_id = old`. */
  function SetVoteTagID(db: Db, userId: int, imageId: int, oldTagId: int, newTagId: int): (r: Result<Db, DbError>)
    ensures !HasVote(db, userId, imageId, oldTagId) || oldTagId == newTagId ==> r == Ok(db)
    ensures r.Err? <==> HasVote(db, userId, imageId, oldTagId) && oldTagId != newTagId
                        && (HasVote(db, userId, imageId, newTagId) || !HasTag(db, newTagId))
    ensures r.Ok? ==> |r.value.votes| == |db.votes|
    ensures r.Ok? ==> forall j :: 0 <= j < |db.votes| ==>
      r.value.votes[j] == if VoteKeyIs(userId, imageId, oldTagId)(db.votes[j]) then db.votes[j].(tagId := newTagId)
                          else db.votes[j]
    ensures r.Ok? ==> r.value.summaries == db.summaries && r.value.tags == db.tags
                      && r.value.images == db.images && r.value.users == db.users
  {
    if !HasVote(db, userId, imageId, oldTagId) || oldTagId == newTagId then Ok(db)
    else if HasVote(db, userId, imageId, newTagId) then Err(PrimaryKeyViolation)
    else if !HasTag(db, newTagId) then Err(ForeignKeyViolation)
    else Ok(db.(votes := Rewrite(db.votes, VoteKeyIs(userId, imageId, oldTagId), WithVoteTag(newTagId))))
  }

  // ---------------------------------------------------------------------
  // Statements on tag and image
  // ---------------------------------------------------------------------

  /** Whether a summary or vote row still references the tag. */
  predicate TagReferenced(db: Db, tagId: int) {
    Any(db.summaries, SummaryTagIs(tagId)) || Any(db.votes, VoteTagIs(tagId))
  }

  predicate ImageReferenced(db: Db, imageId: int) {
    Any(db.summaries, SummaryImageIs(imageId)) || Any(db.votes, VoteImageIs(imageId))
  }

  /** `delete from tag where id`: refused while a summary or vote references the tag. */
  function DeleteTagByID(db: Db, tagId: int): (r: Result<Db, DbError>)
    ensures r.Err? <==> HasTag(db, tagId) && TagReferenced(db, tagId)
    ensures r.Ok? ==> !HasTag(r.value, tagId)
    ensures r.Ok? ==> forall j :: 0 <= j < |db.tags| && db.tags[j].id != tagId ==> db.tags[j] in r.value.tags
    ensures r.Ok? ==> forall j :: 0 <= j < |r.value.tags| ==> r.value.tags[j] in db.tags
    ensures r.Ok? ==> r.value.summaries == db.summaries && r.value.votes == db.votes
                      && r.value.images == db.images && r.value.users == db.users
  {
    if HasTag(db, tagId) && TagReferenced(db, tagId) then Err(ForeignKeyViolation)
    else Ok(db.(tags := Filter(db.tags, Not(TagIdIs(tagId)))))
  }

  /** `delete from image where id`: refused while a summary or vote references the image. */
  function DeleteImageRow(db: Db, imageId: int): (r: Result<Db, DbError>)
    ensures r.Err? <==> HasImage(db, imageId) && ImageReferenced(db, imageId)
    ensures r.Ok? ==> !HasImage(r.value, imageId)
    ensures r.Ok? ==> forall j :: 0 <= j < |db.images| && db.images[j].id != imageId ==> db.images[j] in r.value.images
    ensures r.Ok? ==> forall j :: 0 <= j < |r.value.images| ==> r.value.images[j] in db.images
    ensures r.Ok? ==> r.value.summaries == db.summaries && r.value.votes == db.votes
                      && r.value.tags == db.tags && r.value.users == db.users
  {
    if HasImage(db, imageId) && ImageReferenced(db, imageId) then Err(ForeignKeyViolation)
    else Ok(db.(images := Filter(db.images, Not(ImageIdIs(imageId)))))
  }

  function WithValue(value: String): Tag -> Tag { (t: Tag) => t.(value := value) }

  /** `update tag set tag_value = $1 where id = $2`, subject to the column's
      width and the unique tag_value; an update that matches no row fails on
      neither. */
  function SetTagValue(db: Db, tagId: int, value: String): (r: Result<Db, DbError>)
    ensures r.Err? <==> HasTag(db, tagId) && (|value| > TagValueMaxLength || Any(db.tags, OtherTagWithValue(tagId, value)))
    ensures r == Err(ValueTooLong) <==> HasTag(db, tagId) && |value| > TagValueMaxLength
    ensures r.Ok? ==> |r.value.tags| == |db.tags|
    ensures r.Ok? ==> forall j :: 0 <= j < |db.tags| ==>
      r.value.tags[j] == if db.tags[j].id == tagId then db.tags[j].(value := value) else db.tags[j]
    ensures r.Ok? ==> r.value.summaries == db.summaries && r.value.votes == db.votes
    ensures r.Ok? ==> r.value.images == db.images && r.value.users == db.users
  {
    if HasTag(db, tagId) && |value| > TagValueMaxLength then Err(ValueTooLong)
    else if HasTag(db, tagId) && Any(db.tags, OtherTagWithValue(tagId, value)) then Err(UniqueViolation)
    else Ok(db.(tags := Rewrite(db.tags, TagIdIs(tagId), WithValue(value))))
  }

  function OtherTagWithValue(tagId: int, value: String): Tag -> bool { (t: Tag) => t.id != tagId && t.value == value }

  /** The id the tag sequence hands out next: one more than every id in use. */
  function NextTagId(tags: seq<Tag>): (id: int)
    ensures id > 0
    ensures forall j :: 0 <= j < |tags| ==> tags[j].id < id
    decreases |tags|
  {
    if |tags| == 0 then 1
    else var rest := NextTagId(tags[1..]); if tags[0].id >= rest then tags[0].id + 1 else rest
  }

  /** `Create` of a tag row, subject to the width of tag_value, the unique
      id, uuid and tag_value, and the creator's foreign key. */
  function InsertTag(db: Db, t: Tag): (r: Result<Db, DbError>)
    ensures r.Ok? <==> |t.value| <= TagValueMaxLength
                       && !Any(db.tags, TagIdIs(t.id)) && !Any(db.tags, TagUuidIs(t.uuid))
                       && !Any(db.tags, TagValueIs(t.value)) && HasUser(db, t.createdBy)
    ensures r == Err(ValueTooLong) <==> |t.value| > TagValueMaxLength
    ensures r.Ok? ==> r.value == db.(tags := db.tags + [t])
  {
    if |t.value| > TagValueMaxLength then Err(ValueTooLong)
    else if Any(db.tags, TagIdIs(t.id)) then Err(PrimaryKeyViolation)
    else if Any(db.tags, TagUuidIs(t.uuid)) || Any(db.tags, TagValueIs(t.value)) then Err(UniqueViolation)
    else if !HasUser(db, t.createdBy) then Err(ForeignKeyViolation)
    else Ok(db.(tags := db.tags + [t]))
  }

  function ReplaceUser(u: User): User -> User { (_: User) => u }
  function ReplaceImage(i: Image): Image -> Image { (_: Image) => i }

  /** `Update` of a users record. */
  function UpdateUser(db: Db, u: User): (r: Db)
    ensures |r.users| == |db.users|
    ensures forall j :: 0 <= j < |db.users| ==> r.users[j] == if db.users[j].id == u.id then u else db.users[j]
    ensures r.images == db.images && r.tags == db.tags && r.summaries == db.summaries && r.votes == db.votes
  {
    db.(users := Rewrite(db.users, UserIdIs(u.id), ReplaceUser(u)))
  }

  /** `Update` of an image record. */
  function UpdateImage(db: Db, i: Image): (r: Db)
    ensures |r.images| == |db.images|
    ensures forall j :: 0 <= j < |db.images| ==> r.images[j] == if db.images[j].id == i.id then i else db.images[j]
    ensures r.users == db.users && r.tags == db.tags && r.summaries == db.summaries && r.votes == db.votes
  {
    db.(images := Rewrite(db.images, ImageIdIs(i.id), ReplaceImage(i)))
  }

  // ---------------------------------------------------------------------
  // Zero records
  // ---------------------------------------------------------------------

  /** On a well-formed database a single-row query reads the zero record exactly when no row matches. */
  lemma ZeroMeansAbsent(db: Db, userId: int, imageId: int, tagId: int, uuid: String)
    requires Wf(db)
    ensures GetVoteSummary(db, imageId, tagId).IsZero() <==> !HasSummary(db, imageId, tagId)
    ensures GetVote(db, userId, imageId, tagId).IsZero() <==> !HasVote(db, userId, imageId, tagId)
    ensures TagByUuid(db, uuid).IsZero() <==> !Any(db.tags, TagUuidIs(uuid))
    ensures ImageByUuid(db, uuid).IsZero() <==> !Any(db.images, ImageUuidIs(uuid))
    ensures UserById(db, userId).IsZero() <==> !HasUser(db, userId)
  {
    if HasSummary(db, imageId, tagId) {
      var j := FindIndex(db.summaries, SummaryKeyIs(imageId, tagId)).value;
      assert HasImage(db, db.summaries[j].imageId) && HasTag(db, db.summaries[j].tagId);
      var k := FindIndex(db.images, ImageIdIs(imageId)).value;
      var m := FindIndex(db.tags, TagIdIs(tagId)).value;
      assert db.images[k].id > 0 && db.tags[m].id > 0;
    }
    if HasVote(db, userId, imageId, tagId) {
      var j := FindIndex(db.votes, VoteKeyIs(userId, imageId, tagId)).value;
      assert HasUser(db, db.votes[j].userId);
      var k := FindIndex(db.users, UserIdIs(userId)).value;
      assert db.users[k].id > 0;
    }
  }
}
