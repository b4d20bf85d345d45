/** `voteAction`, `deleteUserVoteAction` and `deleteLinkAction` in their three
    versions: a user votes a tag up or down on an image, withdraws their
    vote, or a moderator or the tag's creator removes the image-tag link. */
module ApiVotes {
  import opened Wrappers
  import opened GoStrings
  import opened Rows
  import opened Ledger
  import opened Constraints
  import opened Voting
  import opened ApiTypes

  /** The entry logging a new image-tag link. */
  function LinkCreated(actor: int, imageUuid: String, tagUuid: String): Moderation {
    Moderation(actor, Create, LinkObject, [imageUuid, tagUuid])
  }

  /** `voteAction` as written. The tag and then the image must exist; a user
      who already voted on the link gets OK and nothing changes; otherwise the
      vote is recorded. server/server.go calls the version of the model layer
      that reports only an error; the two controllers call the one that also
      reports whether a link was created, and queue an entry when it was, but
      that flag is only set together with an error, which returns first. */
  function VoteAction(v: Variant, session: Session, db: Db, imageUuid: String, tagUuid: String,
                      isUpvote: bool, now: int): (r: Response<()>)
    ensures r.status == NotFound <==> TagByUuid(db, tagUuid).IsZero() || ImageByUuid(db, imageUuid).IsZero()
    ensures r.status != OK ==> r.db == db
    ensures r.queued == [] && r.body.None?
    ensures !TagByUuid(db, tagUuid).IsZero() && !ImageByUuid(db, imageUuid).IsZero()
            && !GetVote(db, session.userId, ImageByUuid(db, imageUuid).id, TagByUuid(db, tagUuid).id).IsZero()
            ==> r.status == OK && r.db == db
    ensures r.status == OK && r.db != db ==>
      var i := ImageByUuid(db, imageUuid).id;
      var t := TagByUuid(db, tagUuid).id;
      GetVote(r.db, session.userId, i, t) == Vote(session.userId, i, t, now, isUpvote)
      && GetVoteSummary(r.db, i, t) == VotedSummary(db, session.userId, i, t, isUpvote, now)
  {
    var tag := TagByUuid(db, tagUuid);
    if tag.IsZero() then Refused(NotFound, db)
    else
      var image := ImageByUuid(db, imageUuid);
      if image.IsZero() then Refused(NotFound, db)
      else if !GetVote(db, session.userId, image.id, tag.id).IsZero() then Response(OK, None, db, [])
      else
        SummaryAfterVote(db, session.userId, image.id, tag.id, isUpvote, now);
        var out := CreateOrIncrementVote(db, session.userId, image.id, tag.id, isUpvote, now);
        if v == LegacyServer then
          match CreateOrIncrementVoteErr(db, session.userId, image.id, tag.id, isUpvote, now)
          case Err(_) => Refused(InternalError, db)
          case Ok(db2) => Response(OK, None, db2, [])
        else
          match out.result
          case Err(_) => Refused(InternalError, db)
          case Ok(db2) => Response(OK, None, db2, if out.flag then [LinkCreated(session.userId, imageUuid, tagUuid)] else [])
  }

  /** Under the table constraints, a repeat vote by the same user changes nothing and reports OK. */
  lemma RepeatVoteIsNoOp(v: Variant, session: Session, db: Db, imageUuid: String, tagUuid: String, isUpvote: bool, now: int)
    requires Wf(db)
    requires !TagByUuid(db, tagUuid).IsZero() && !ImageByUuid(db, imageUuid).IsZero()
    requires HasVote(db, session.userId, ImageByUuid(db, imageUuid).id, TagByUuid(db, tagUuid).id)
    ensures var r := VoteAction(v, session, db, imageUuid, tagUuid, isUpvote, now);
      r.status == OK && r.db == db
  {
    ZeroMeansAbsent(db, session.userId, ImageByUuid(db, imageUuid).id, TagByUuid(db, tagUuid).id, tagUuid);
  }

  /** A vote through the handler keeps the table constraints and keeps every
      summary equal to its link's vote rows. */
  lemma VoteActionKeepsInvariants(v: Variant, session: Session, db: Db, imageUuid: String, tagUuid: String,
                                  isUpvote: bool, now: int)
    requires Wf(db) && Agreement(db)
    ensures var r := VoteAction(v, session, db, imageUuid, tagUuid, isUpvote, now);
      Wf(r.db) && Agreement(r.db)
  {
    var r := VoteAction(v, session, db, imageUuid, tagUuid, isUpvote, now);
    var tag := TagByUuid(db, tagUuid);
    var image := ImageByUuid(db, imageUuid);
    if r.db != db {
      VoteKeepsWf(db, session.userId, image.id, tag.id, isUpvote, now);
      CreateOrIncrementVoteKeepsAgreement(db, session.userId, image.id, tag.id, isUpvote, now);
    }
  }

  /** The controllers' handler with the link logged as evidently intended:
      the entry is queued when the vote created the link's summary. */
  function VoteActionLoggingLinks(session: Session, db: Db, imageUuid: String, tagUuid: String,
                                  isUpvote: bool, now: int): (r: Response<()>)
    ensures r.db == VoteAction(ApiController, session, db, imageUuid, tagUuid, isUpvote, now).db
    ensures r.status == VoteAction(ApiController, session, db, imageUuid, tagUuid, isUpvote, now).status
    ensures r.queued == [] || r.queued == [LinkCreated(session.userId, imageUuid, tagUuid)]
  {
    var r := VoteAction(ApiController, session, db, imageUuid, tagUuid, isUpvote, now);
    var created := r.status == OK && r.db != db
                   && GetVoteSummary(db, ImageByUuid(db, imageUuid).id, TagByUuid(db, tagUuid).id).IsZero();
    r.(queued := if created then [LinkCreated(session.userId, imageUuid, tagUuid)] else [])
  }

  /** Under the table constraints the corrected handler logs a link exactly
      when the request created it: the link had no summary before and has one after. */
  lemma LinkLoggedIffCreated(session: Session, db: Db, imageUuid: String, tagUuid: String, isUpvote: bool, now: int)
    requires Wf(db)
    ensures var r := VoteActionLoggingLinks(session, db, imageUuid, tagUuid, isUpvote, now);
      var i := ImageByUuid(db, imageUuid).id;
      var t := TagByUuid(db, tagUuid).id;
      r.queued != [] <==> r.status == OK && !HasSummary(db, i, t) && HasSummary(r.db, i, t)
  {
    var r := VoteActionLoggingLinks(session, db, imageUuid, tagUuid, isUpvote, now);
    var i := ImageByUuid(db, imageUuid).id;
    var t := TagByUuid(db, tagUuid).id;
    ZeroMeansAbsent(db, session.userId, i, t, tagUuid);
    if r.status == OK && r.db != db {
      var s := GetVoteSummary(r.db, i, t);
      assert s == VotedSummary(db, session.userId, i, t, isUpvote, now);
      assert s.imageId == i && s.tagId == t;
      assert HasSummary(r.db, i, t);
    }
  }

  /** A first vote on a link without a summary, by a known user on a known
      image and tag: the summary and the vote row are appended and no flag is raised. */
  lemma FirstVoteAppends(db: Db, userId: int, imageId: int, tagId: int, isUpvote: bool, now: int)
    requires HasUser(db, userId) && HasImage(db, imageId) && HasTag(db, tagId)
    requires !HasSummary(db, imageId, tagId) && !HasVote(db, userId, imageId, tagId)
    ensures CreateOrIncrementVote(db, userId, imageId, tagId, isUpvote, now)
         == VoteOutcome(false, Ok(db.(summaries := db.summaries + [FirstVote(imageId, tagId, userId, now, isUpvote)],
                                      votes := db.votes + [Vote(userId, imageId, tagId, now, isUpvote)])))
  {
    var s := FirstVote(imageId, tagId, userId, now, isUpvote);
    var db1 := db.(summaries := db.summaries + [s]);
    assert GetVoteSummary(db, imageId, tagId).IsZero();
    assert RecordOnSummary(db, userId, imageId, tagId, isUpvote, now) == VoteOutcome(false, Ok(db1));
    assert InsertVote(db1, Vote(userId, imageId, tagId, now, isUpvote)).Ok?;
  }

  /** A first vote on a new link: the controllers as written log nothing, the corrected handler logs the link. */
  lemma FirstVoteOnNewLink(session: Session, db: Db, imageUuid: String, tagUuid: String, isUpvote: bool, now: int)
    requires Wf(db)
    requires !TagByUuid(db, tagUuid).IsZero() && !ImageByUuid(db, imageUuid).IsZero()
    requires HasUser(db, session.userId)
    requires !HasSummary(db, ImageByUuid(db, imageUuid).id, TagByUuid(db, tagUuid).id)
    requires !HasVote(db, session.userId, ImageByUuid(db, imageUuid).id, TagByUuid(db, tagUuid).id)
    ensures VoteAction(ApiController, session, db, imageUuid, tagUuid, isUpvote, now).status == OK
    ensures VoteAction(ApiController, session, db, imageUuid, tagUuid, isUpvote, now).queued == []
    ensures VoteActionLoggingLinks(session, db, imageUuid, tagUuid, isUpvote, now).queued
            == [LinkCreated(session.userId, imageUuid, tagUuid)]
  {
    var image := ImageByUuid(db, imageUuid);
    var tag := TagByUuid(db, tagUuid);
    ZeroMeansAbsent(db, session.userId, image.id, tag.id, tagUuid);
    FirstVoteChangesDb(session, db, imageUuid, tagUuid, isUpvote, now);
  }

  /** The vote of the lemma above is recorded: the handler reports OK and the tables change. */
  lemma FirstVoteChangesDb(session: Session, db: Db, imageUuid: String, tagUuid: String, isUpvote: bool, now: int)
    requires Wf(db)
    requires !TagByUuid(db, tagUuid).IsZero() && !ImageByUuid(db, imageUuid).IsZero()
    requires HasUser(db, session.userId)
    requires !HasSummary(db, ImageByUuid(db, imageUuid).id, TagByUuid(db, tagUuid).id)
    requires !HasVote(db, session.userId, ImageByUuid(db, imageUuid).id, TagByUuid(db, tagUuid).id)
    ensures var r := VoteAction(ApiController, session, db, imageUuid, tagUuid, isUpvote, now);
      r.status == OK && r.db != db
  {
    var image := ImageByUuid(db, imageUuid);
    var tag := TagByUuid(db, tagUuid);
    FirstVoteLookups(session, db, imageUuid, tagUuid);
    FirstVoteAppends(db, session.userId, image.id, tag.id, isUpvote, now);
    var r := VoteAction(ApiController, session, db, imageUuid, tagUuid, isUpvote, now);
    assert |r.db.votes| == |db.votes| + 1;
  }

  /** What the handler reads before a first vote: no link and no vote, and
      the image and tag it found are rows. */
  lemma FirstVoteLookups(session: Session, db: Db, imageUuid: String, tagUuid: String)
    requires Wf(db)
    requires !TagByUuid(db, tagUuid).IsZero() && !ImageByUuid(db, imageUuid).IsZero()
    requires !HasSummary(db, ImageByUuid(db, imageUuid).id, TagByUuid(db, tagUuid).id)
    requires !HasVote(db, session.userId, ImageByUuid(db, imageUuid).id, TagByUuid(db, tagUuid).id)
    ensures GetVoteSummary(db, ImageByUuid(db, imageUuid).id, TagByUuid(db, tagUuid).id).IsZero()
    ensures GetVote(db, session.userId, ImageByUuid(db, imageUuid).id, TagByUuid(db, tagUuid).id).IsZero()
    ensures HasImage(db, ImageByUuid(db, imageUuid).id) && HasTag(db, TagByUuid(db, tagUuid).id)
  {
    var image := ImageByUuid(db, imageUuid);
    var tag := TagByUuid(db, tagUuid);
    ZeroMeansAbsent(db, session.userId, image.id, tag.id, tagUuid);
    var k := FindIndex(db.images, ImageUuidIs(imageUuid)).value;
    AnyWitness(db.images, ImageIdIs(image.id), k);
    var m := FindIndex(db.tags, TagUuidIs(tagUuid)).value;
    AnyWitness(db.tags, TagIdIs(tag.id), m);
  }

  /** `deleteUserVoteAction`, the same in all three versions: the image and
      then the tag must exist and the user must have voted on the link; the
      link's count on the vote's side goes down by one, the total is
      re-derived, and the vote row is deleted. */
  function DeleteUserVoteAction(session: Session, db: Db, imageUuid: String, tagUuid: String): (r: Response<()>)
    ensures r.status == OK <==>
      !ImageByUuid(db, imageUuid).IsZero() && !TagByUuid(db, tagUuid).IsZero()
      && !GetVote(db, session.userId, ImageByUuid(db, imageUuid).id, TagByUuid(db, tagUuid).id).IsZero()
    ensures r.status != OK ==> r.status == NotFound && r.db == db
    ensures r.queued == [] && r.body.None?
    ensures r.status == OK ==>
      var i := ImageByUuid(db, imageUuid).id;
      var t := TagByUuid(db, tagUuid).id;
      !HasVote(r.db, session.userId, i, t)
      && r.db.votes == Filter(db.votes, Not(VoteKeyIs(session.userId, i, t)))
      && |r.db.summaries| == |db.summaries|
      && (forall j :: 0 <= j < |db.summaries| && !SummaryKeyIs(i, t)(db.summaries[j]) ==> r.db.summaries[j] == db.summaries[j])
  {
    var image := ImageByUuid(db, imageUuid);
    if image.IsZero() then Refused(NotFound, db)
    else
      var tag := TagByUuid(db, tagUuid);
      if tag.IsZero() then Refused(NotFound, db)
      else
        var vote := GetVote(db, session.userId, image.id, tag.id);
        if vote.IsZero() then Refused(NotFound, db)
        else
          var summary := GetVoteSummary(db, image.id, tag.id);
          Response(OK, None, WithdrawVote(db, session.userId, image.id, tag.id, vote.isUpvote, summary), [])
  }

  /** The handler's two statements, given the side of the user's vote and
      the link's summary as read: the count on that side lowered by one with
      the total re-derived, then the user's vote row deleted. */
  function WithdrawVote(db: Db, userId: int, imageId: int, tagId: int, wasUpvote: bool, summary: VoteSummary): (r: Db)
    ensures !HasVote(r, userId, imageId, tagId)
    ensures |r.votes| <= |db.votes|
    ensures |r.summaries| == |db.summaries|
    ensures forall j :: 0 <= j < |db.summaries| && !SummaryKeyIs(imageId, tagId)(db.summaries[j]) ==>
      r.summaries[j] == db.summaries[j]
    ensures forall j :: 0 <= j < |db.summaries| && SummaryKeyIs(imageId, tagId)(db.summaries[j]) ==>
      r.summaries[j].imageId == imageId && r.summaries[j].tagId == tagId
      && r.summaries[j].votesFor == summary.votesFor - (if wasUpvote then 1 else 0)
      && r.summaries[j].votesAgainst == summary.votesAgainst - (if wasUpvote then 0 else 1)
      && r.summaries[j].votesTotal == r.summaries[j].votesFor - r.summaries[j].votesAgainst
    ensures r.users == db.users && r.images == db.images && r.tags == db.tags
  {
    var votesFor := if wasUpvote then summary.votesFor - 1 else summary.votesFor;
    var votesAgainst := if wasUpvote then summary.votesAgainst else summary.votesAgainst - 1;
    DeleteVote(SetVoteSummaryVoteCounts(db, imageId, tagId, votesFor, votesAgainst), userId, imageId, tagId)
  }

  /** With unique vote keys, the user's rows on a link in one direction are
      one row when their vote on it has that direction, and none otherwise. */
  lemma {:induction false} CountOfOwnVote(votes: seq<Vote>, userId: int, imageId: int, tagId: int, isUpvote: bool)
    requires Pairwise(votes, VoteKeysDiffer)
    ensures Count(votes, KeyAndDirection(userId, imageId, tagId, isUpvote)) ==
      if Any(votes, VoteKeyIs(userId, imageId, tagId))
         && First(votes, VoteKeyIs(userId, imageId, tagId), ZeroVote).isUpvote == isUpvote then 1 else 0
    decreases |votes|
  {
    if |votes| > 0 {
      var p := VoteKeyIs(userId, imageId, tagId);
      var tail := votes[1..];
      assert Pairwise(tail, VoteKeysDiffer) by {
        forall j, k | 0 <= j < k < |tail| ensures VoteKeysDiffer(tail[j], tail[k]) {
          assert tail[j] == votes[j + 1] && tail[k] == votes[k + 1];
        }
      }
      CountOfOwnVote(tail, userId, imageId, tagId, isUpvote);
      if p(votes[0]) {
        assert FindIndex(votes, p) == Some(0);
        forall j | 0 <= j < |tail| ensures !p(tail[j]) {
          assert VoteKeysDiffer(votes[0], votes[j + 1]);
        }
      } else {
        assert FindIndex(votes, p) == match FindIndex(tail, p) case None => None case Some(n) => Some(n + 1);
      }
    }
  }

  /** Removing the user's rows on one link leaves the counts of every other link unchanged. */
  lemma CountsElsewhereAfterDelete(votes: seq<Vote>, userId: int, imageId: int, tagId: int,
                                   otherImageId: int, otherTagId: int, isUpvote: bool)
    requires otherImageId != imageId || otherTagId != tagId
    ensures Count(Filter(votes, Not(VoteKeyIs(userId, imageId, tagId))), VoteOn(otherImageId, otherTagId, isUpvote))
         == Count(votes, VoteOn(otherImageId, otherTagId, isUpvote))
  {
    var never := (w: Vote) => false;
    CountFilter(votes, Not(VoteKeyIs(userId, imageId, tagId)), VoteOn(otherImageId, otherTagId, isUpvote), never);
  }

  /** Under the table constraints there is one summary per link: every summary with the key is the one read back. */
  lemma SummaryIsUnique(db: Db, imageId: int, tagId: int, j: int)
    requires Pairwise(db.summaries, SummaryKeysDiffer)
    requires 0 <= j < |db.summaries| && SummaryKeyIs(imageId, tagId)(db.summaries[j])
    ensures db.summaries[j] == GetVoteSummary(db, imageId, tagId)
  {
    var k := FindIndex(db.summaries, SummaryKeyIs(imageId, tagId)).value;
    assert forall m :: k < m < |db.summaries| ==> SummaryKeysDiffer(db.summaries[k], db.summaries[m]);
  }

  /** The summary of the link whose vote is withdrawn agrees with the
      remaining rows. */
  lemma WithdrawnSummaryAgrees(db: Db, userId: int, imageId: int, tagId: int, fin: Db, j: int)
    requires Pairwise(db.summaries, SummaryKeysDiffer) && Pairwise(db.votes, VoteKeysDiffer) && Agreement(db)
    requires HasVote(db, userId, imageId, tagId)
    requires fin == WithdrawVote(db, userId, imageId, tagId, GetVote(db, userId, imageId, tagId).isUpvote,
                                 GetVoteSummary(db, imageId, tagId))
    requires 0 <= j < |db.summaries| && SummaryKeyIs(imageId, tagId)(db.summaries[j])
    ensures SummaryAgrees(fin, fin.summaries[j])
  {
    SummaryIsUnique(db, imageId, tagId, j);
    assert SummaryAgrees(db, db.summaries[j]);
    assert fin.votes == Filter(db.votes, Not(VoteKeyIs(userId, imageId, tagId)));
    CountOfOwnVote(db.votes, userId, imageId, tagId, true);
    CountOfOwnVote(db.votes, userId, imageId, tagId, false);
    CountsAfterDelete(db.votes, userId, imageId, tagId, true);
    CountsAfterDelete(db.votes, userId, imageId, tagId, false);
  }

  /** Every other link's summary still agrees: its counts are untouched. */
  lemma UntouchedSummaryAgrees(db: Db, userId: int, imageId: int, tagId: int, fin: Db, j: int)
    requires Agreement(db)
    requires fin == WithdrawVote(db, userId, imageId, tagId, GetVote(db, userId, imageId, tagId).isUpvote,
                                 GetVoteSummary(db, imageId, tagId))
    requires 0 <= j < |db.summaries| && !SummaryKeyIs(imageId, tagId)(db.summaries[j])
    ensures SummaryAgrees(fin, fin.summaries[j])
  {
    var other := db.summaries[j];
    assert fin.votes == Filter(db.votes, Not(VoteKeyIs(userId, imageId, tagId)));
    assert SummaryAgrees(db, other);
    CountsElsewhereAfterDelete(db.votes, userId, imageId, tagId, other.imageId, other.tagId, true);
    CountsElsewhereAfterDelete(db.votes, userId, imageId, tagId, other.imageId, other.tagId, false);
  }

  /** The summaries still agree after the handler's two statements. */
  lemma SummariesAgreeAfterWithdrawal(db: Db, userId: int, imageId: int, tagId: int, fin: Db)
    requires Wf(db) && Agreement(db)
    requires HasVote(db, userId, imageId, tagId)
    requires fin == WithdrawVote(db, userId, imageId, tagId, GetVote(db, userId, imageId, tagId).isUpvote,
                                 GetVoteSummary(db, imageId, tagId))
    ensures forall j :: 0 <= j < |fin.summaries| ==> SummaryAgrees(fin, fin.summaries[j])
  {
    forall j | 0 <= j < |fin.summaries|
      ensures SummaryAgrees(fin, fin.summaries[j])
    {
      if SummaryKeyIs(imageId, tagId)(db.summaries[j]) {
        WithdrawnSummaryAgrees(db, userId, imageId, tagId, fin, j);
      } else {
        UntouchedSummaryAgrees(db, userId, imageId, tagId, fin, j);
      }
    }
  }

  /** The two statements the handler issues. */
  lemma WithdrawVoteStatements(db: Db, userId: int, imageId: int, tagId: int, wasUpvote: bool, summary: VoteSummary)
    ensures var f := if wasUpvote then summary.votesFor - 1 else summary.votesFor;
      var a := if wasUpvote then summary.votesAgainst else summary.votesAgainst - 1;
      WithdrawVote(db, userId, imageId, tagId, wasUpvote, summary)
        == DeleteVote(SetVoteSummaryVoteCounts(db, imageId, tagId, f, a), userId, imageId, tagId)
  {
  }

  /** Setting a link's counts and then deleting a vote row keeps the table constraints. */
  lemma CountsThenDeleteKeepWf(db: Db, userId: int, imageId: int, tagId: int, votesFor: int, votesAgainst: int)
    requires Wf(db)
    ensures Wf(DeleteVote(SetVoteSummaryVoteCounts(db, imageId, tagId, votesFor, votesAgainst), userId, imageId, tagId))
  {
    SetVoteSummaryVoteCountsKeepsWf(db, imageId, tagId, votesFor, votesAgainst);
    DeleteVoteKeepsWf(SetVoteSummaryVoteCounts(db, imageId, tagId, votesFor, votesAgainst), userId, imageId, tagId);
  }

  /** Withdrawing a vote keeps the table constraints, whatever counts were read. */
  lemma WithdrawVoteKeepsWf(db: Db, userId: int, imageId: int, tagId: int, wasUpvote: bool, summary: VoteSummary)
    requires Wf(db)
    ensures Wf(WithdrawVote(db, userId, imageId, tagId, wasUpvote, summary))
  {
    var f := if wasUpvote then summary.votesFor - 1 else summary.votesFor;
    var a := if wasUpvote then summary.votesAgainst else summary.votesAgainst - 1;
    CountsThenDeleteKeepWf(db, userId, imageId, tagId, f, a);
    WithdrawVoteStatements(db, userId, imageId, tagId, wasUpvote, summary);
  }

  /** Every remaining vote row still belongs to a link with a summary. */
  lemma VotesLinkedAfterWithdrawal(db: Db, userId: int, imageId: int, tagId: int, wasUpvote: bool, summary: VoteSummary)
    requires forall j :: 0 <= j < |db.votes| ==> HasSummary(db, db.votes[j].imageId, db.votes[j].tagId)
    ensures var fin := WithdrawVote(db, userId, imageId, tagId, wasUpvote, summary);
      forall j :: 0 <= j < |fin.votes| ==> HasSummary(fin, fin.votes[j].imageId, fin.votes[j].tagId)
  {
    var fin := WithdrawVote(db, userId, imageId, tagId, wasUpvote, summary);
    forall j | 0 <= j < |fin.votes|
      ensures HasSummary(fin, fin.votes[j].imageId, fin.votes[j].tagId)
    {
      var w := fin.votes[j];
      assert w in db.votes;
      var m :| 0 <= m < |db.votes| && db.votes[m] == w;
      assert HasSummary(db, w.imageId, w.tagId);
      var k := FindIndex(db.summaries, SummaryKeyIs(w.imageId, w.tagId)).value;
      assert fin.summaries[k].imageId == w.imageId && fin.summaries[k].tagId == w.tagId;
      AnyWitness(fin.summaries, SummaryKeyIs(w.imageId, w.tagId), k);
    }
  }

  /** Withdrawing a vote with the side and counts as read keeps the table
      constraints and keeps every summary equal to its link's vote rows. */
  lemma WithdrawVoteKeepsInvariants(db: Db, userId: int, imageId: int, tagId: int)
    requires Wf(db) && Agreement(db)
    requires HasVote(db, userId, imageId, tagId)
    ensures var fin := WithdrawVote(db, userId, imageId, tagId, GetVote(db, userId, imageId, tagId).isUpvote,
                                    GetVoteSummary(db, imageId, tagId));
      Wf(fin) && Agreement(fin)
  {
    var up := GetVote(db, userId, imageId, tagId).isUpvote;
    var s := GetVoteSummary(db, imageId, tagId);
    WithdrawVoteKeepsWf(db, userId, imageId, tagId, up, s);
    SummariesAgreeAfterWithdrawal(db, userId, imageId, tagId, WithdrawVote(db, userId, imageId, tagId, up, s));
    VotesLinkedAfterWithdrawal(db, userId, imageId, tagId, up, s);
  }

  /** Withdrawing a vote through the handler keeps the table constraints and
      keeps every summary equal to its link's vote rows. */
  lemma DeleteUserVoteKeepsInvariants(session: Session, db: Db, imageUuid: String, tagUuid: String)
    requires Wf(db) && Agreement(db)
    ensures var r := DeleteUserVoteAction(session, db, imageUuid, tagUuid);
      Wf(r.db) && Agreement(r.db)
  {
    var r := DeleteUserVoteAction(session, db, imageUuid, tagUuid);
    if r.status == OK {
      var i := ImageByUuid(db, imageUuid).id;
      var t := TagByUuid(db, tagUuid).id;
      ZeroMeansAbsent(db, session.userId, i, t, tagUuid);
      WithdrawVoteKeepsInvariants(db, session.userId, i, t);
    }
  }

  /** The link's summary read back after a withdrawal has the counts read
      before, with one fewer on the side of the withdrawn vote, and a
      re-derived total. */
  lemma WithdrawalLowersCount(db: Db, userId: int, imageId: int, tagId: int, wasUpvote: bool, summary: VoteSummary)
    requires HasSummary(db, imageId, tagId)
    ensures var after := GetVoteSummary(WithdrawVote(db, userId, imageId, tagId, wasUpvote, summary), imageId, tagId);
      after.imageId == imageId && after.tagId == tagId
      && after.votesFor == summary.votesFor - (if wasUpvote then 1 else 0)
      && after.votesAgainst == summary.votesAgainst - (if wasUpvote then 0 else 1)
      && after.votesTotal == after.votesFor - after.votesAgainst
  {
    var fin := WithdrawVote(db, userId, imageId, tagId, wasUpvote, summary);
    var p := SummaryKeyIs(imageId, tagId);
    var k := FindIndex(db.summaries, p).value;
    assert forall j :: 0 <= j < k ==> fin.summaries[j] == db.summaries[j];
    FirstAt(fin.summaries, p, k, ZeroSummary);
  }

  /** Through the handler, under the constraints and the agreement: the
      link's summary loses exactly the withdrawn vote. */
  lemma DeleteUserVoteLowersCount(session: Session, db: Db, imageUuid: String, tagUuid: String)
    requires Wf(db) && Agreement(db)
    requires DeleteUserVoteAction(session, db, imageUuid, tagUuid).status == OK
    ensures var r := DeleteUserVoteAction(session, db, imageUuid, tagUuid);
      var i := ImageByUuid(db, imageUuid).id;
      var t := TagByUuid(db, tagUuid).id;
      var before := GetVoteSummary(db, i, t);
      var after := GetVoteSummary(r.db, i, t);
      var up := GetVote(db, session.userId, i, t).isUpvote;
      after.votesFor == before.votesFor - (if up then 1 else 0)
      && after.votesAgainst == before.votesAgainst - (if up then 0 else 1)
      && after.votesTotal == after.votesFor - after.votesAgainst
      && SummaryAgrees(r.db, after)
  {
    var i := ImageByUuid(db, imageUuid).id;
    var t := TagByUuid(db, tagUuid).id;
    var u := session.userId;
    ZeroMeansAbsent(db, u, i, t, tagUuid);
    var w := FindIndex(db.votes, VoteKeyIs(u, i, t)).value;
    assert HasSummary(db, db.votes[w].imageId, db.votes[w].tagId);
    WithdrawalLowersCount(db, u, i, t, GetVote(db, u, i, t).isUpvote, GetVoteSummary(db, i, t));
    WithdrawVoteKeepsInvariants(db, u, i, t);
    var fin := DeleteUserVoteAction(session, db, imageUuid, tagUuid).db;
    var k := FindIndex(fin.summaries, SummaryKeyIs(i, t)).value;
    assert SummaryAgrees(fin, fin.summaries[k]);
  }

  /** The moderation nouns of a deleted link: the two uuids in the
      controllers, one formatted sentence in server/server.go. */
  function LinkNouns(v: Variant, imageUuid: String, tagUuid: String): (nouns: seq<String>)
    ensures v != LegacyServer ==> nouns == [imageUuid, tagUuid]
    ensures v == LegacyServer ==> |nouns| == 1
  {
    if v == LegacyServer then ["image: " + imageUuid + " tag: " + tagUuid] else [imageUuid, tagUuid]
  }

  /** `deleteLinkAction`: the image and then the tag must exist, and the
      caller must be a moderator or the tag's creator; the link's summary is
      deleted and the deletion logged. Its vote rows are left in place. */
  function DeleteLinkAction(v: Variant, session: Session, db: Db, imageUuid: String, tagUuid: String): (r: Response<()>)
    ensures r.status == NotFound <==> ImageByUuid(db, imageUuid).IsZero() || TagByUuid(db, tagUuid).IsZero()
    ensures r.status == OK <==>
      !ImageByUuid(db, imageUuid).IsZero() && !TagByUuid(db, tagUuid).IsZero()
      && MayDelete(UserById(db, session.userId), TagByUuid(db, tagUuid).createdBy)
    ensures r.status != OK ==> r.status in {NotFound, NotAuthorized} && r.db == db && r.queued == []
    ensures r.body.None?
    ensures r.status == OK ==>
      var i := ImageByUuid(db, imageUuid).id;
      var t := TagByUuid(db, tagUuid).id;
      !HasSummary(r.db, i, t) && r.db.votes == db.votes
      && r.db.users == db.users && r.db.images == db.images && r.db.tags == db.tags
      && (forall j :: 0 <= j < |db.summaries| && !SummaryKeyIs(i, t)(db.summaries[j]) ==> db.summaries[j] in r.db.summaries)
      && r.queued == [Moderation(session.userId, Delete, LinkObject, LinkNouns(v, imageUuid, tagUuid))]
  {
    var currentUser := UserById(db, session.userId);
    var image := ImageByUuid(db, imageUuid);
    if image.IsZero() then Refused(NotFound, db)
    else
      var tag := TagByUuid(db, tagUuid);
      if tag.IsZero() then Refused(NotFound, db)
      else if !MayDelete(currentUser, tag.createdBy) then Refused(NotAuthorized, db)
      else
        Response(OK, None, DeleteVoteSummary(db, image.id, tag.id),
                 [Moderation(session.userId, Delete, LinkObject, LinkNouns(v, imageUuid, tagUuid))])
  }

  /** Deleting a link keeps the table constraints. */
  lemma DeleteLinkKeepsWf(v: Variant, session: Session, db: Db, imageUuid: String, tagUuid: String)
    requires Wf(db)
    ensures Wf(DeleteLinkAction(v, session, db, imageUuid, tagUuid).db)
  {
    DeleteVoteSummaryKeepsWf(db, ImageByUuid(db, imageUuid).id, TagByUuid(db, tagUuid).id);
  }

  /** Deleting a link that still has votes leaves those vote rows without a
      summary, so the summaries no longer account for every vote. */
  lemma DeleteLinkOrphansVotes(v: Variant, session: Session, db: Db, imageUuid: String, tagUuid: String, voter: int)
    requires DeleteLinkAction(v, session, db, imageUuid, tagUuid).status == OK
    requires HasVote(db, voter, ImageByUuid(db, imageUuid).id, TagByUuid(db, tagUuid).id)
    ensures !Agreement(DeleteLinkAction(v, session, db, imageUuid, tagUuid).db)
  {
    var r := DeleteLinkAction(v, session, db, imageUuid, tagUuid);
    var i := ImageByUuid(db, imageUuid).id;
    var t := TagByUuid(db, tagUuid).id;
    var w := FindIndex(db.votes, VoteKeyIs(voter, i, t)).value;
    assert r.db.votes[w].imageId == i && r.db.votes[w].tagId == t;
  }
}
