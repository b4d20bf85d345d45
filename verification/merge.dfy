/** Merging one tag into another, the cascading deletes of a tag or an
    image, and the removal of orphaned tags (server/model/manager.go and its
    older copy server/model/tag.go, which issue the same statements). */
module Merge {
  import opened Wrappers
  import opened Rows
  import opened Ledger
  import opened Constraints

  // ---------------------------------------------------------------------
  // MergeTags
  // ---------------------------------------------------------------------

  /** One vote row of the from-tag: moved to the to-tag when the user has no
      vote on the image under the to-tag, deleted otherwise. */
  function MoveVote(db: Db, v: Vote, fromTagId: int, toTagId: int): (r: Result<Db, DbError>)
    ensures r.Ok? ==> r.value.summaries == db.summaries && r.value.tags == db.tags
                      && r.value.images == db.images && r.value.users == db.users
  {
    if GetVote(db, v.userId, v.imageId, toTagId).IsZero() then
      SetVoteTagID(db, v.userId, v.imageId, fromTagId, toTagId)
    else
      Ok(DeleteVote(db, v.userId, v.imageId, fromTagId))
  }

  /** The first loop of MergeTags, over the from-tag's vote rows as read before the loop. */
  function MergeVotes(db: Db, votes: seq<Vote>, fromTagId: int, toTagId: int): (r: Result<Db, DbError>)
    ensures r.Ok? ==> r.value.summaries == db.summaries && r.value.tags == db.tags
                      && r.value.images == db.images && r.value.users == db.users
    decreases |votes|
  {
    if |votes| == 0 then Ok(db)
    else
      var db1 :- MoveVote(db, votes[0], fromTagId, toTagId);
      MergeVotes(db1, votes[1..], fromTagId, toTagId)
  }

  /** One summary of the from-tag: moved to the to-tag when the image has no
      link with the to-tag; otherwise the to-tag's link is recounted from
      the (already moved) vote rows and the from-tag's link is deleted. */
  function MoveLink(db: Db, link: VoteSummary, fromTagId: int, toTagId: int): (r: Result<Db, DbError>)
    ensures r.Ok? ==> r.value.votes == db.votes && r.value.tags == db.tags
                      && r.value.images == db.images && r.value.users == db.users
  {
    if GetVoteSummary(db, link.imageId, toTagId).IsZero() then
      SetVoteSummaryTagID(db, link.imageId, fromTagId, toTagId)
    else
      Ok(DeleteVoteSummary(ReconcileVoteSummaryTotals(db, link.imageId, toTagId), link.imageId, fromTagId))
  }

  /** The second loop of MergeTags, over the from-tag's summaries as read after the first loop. */
  function MergeLinks(db: Db, links: seq<VoteSummary>, fromTagId: int, toTagId: int): (r: Result<Db, DbError>)
    ensures r.Ok? ==> r.value.votes == db.votes && r.value.tags == db.tags
                      && r.value.images == db.images && r.value.users == db.users
    decreases |links|
  {
    if |links| == 0 then Ok(db)
    else
      var db1 :- MoveLink(db, links[0], fromTagId, toTagId);
      MergeLinks(db1, links[1..], fromTagId, toTagId)
  }

  /** `MergeTags(from, to)`: move or drop every vote, then every summary, of
      the from-tag, then delete the from-tag.  The row lists the loops walk
      are read in storage order; the source orders the votes by time, which
      does not change the outcome because their (user, image) pairs differ. */
  function MergeTags(db: Db, fromTagId: int, toTagId: int): (r: Result<Db, DbError>)
    ensures r.Ok? ==> !HasTag(r.value, fromTagId) && r.value.users == db.users && r.value.images == db.images
    ensures r.Ok? ==> forall j :: 0 <= j < |r.value.tags| ==> r.value.tags[j] in db.tags && r.value.tags[j].id != fromTagId
    ensures r.Ok? ==> forall j :: 0 <= j < |db.tags| && db.tags[j].id != fromTagId ==> db.tags[j] in r.value.tags
  {
    var db1 :- MergeVotes(db, Filter(db.votes, VoteTagIs(fromTagId)), fromTagId, toTagId);
    var db2 :- MergeLinks(db1, Filter(db1.summaries, SummaryTagIs(fromTagId)), fromTagId, toTagId);
    DeleteTagByID(db2, fromTagId)
  }

  /** Every vote row of the tag has its (user, image) pair in `votes`. */
  predicate VotesCovered(votes: seq<Vote>, rows: seq<Vote>, tagId: int) {
    forall j :: 0 <= j < |rows| && rows[j].tagId == tagId ==>
      exists k :: 0 <= k < |votes| && votes[k].userId == rows[j].userId && votes[k].imageId == rows[j].imageId
  }

  /** Every summary of the tag has its image in `links`. */
  predicate LinksCovered(links: seq<VoteSummary>, rows: seq<VoteSummary>, tagId: int) {
    forall j :: 0 <= j < |rows| && rows[j].tagId == tagId ==>
      exists k :: 0 <= k < |links| && links[k].imageId == rows[j].imageId
  }

  /** Moving a vote onto a to-tag the user has not voted with yet retags its
      row; no from-tag row of that (user, image) pair remains. */
  lemma RetagVoteStep(db: Db, v: Vote, fromTagId: int, toTagId: int)
    requires Wf(db) && HasTag(db, toTagId) && !HasVote(db, v.userId, v.imageId, toTagId)
    ensures SetVoteTagID(db, v.userId, v.imageId, fromTagId, toTagId).Ok?
    ensures Wf(SetVoteTagID(db, v.userId, v.imageId, fromTagId, toTagId).value)
    ensures forall j :: 0 <= j < |SetVoteTagID(db, v.userId, v.imageId, fromTagId, toTagId).value.votes| ==>
      var w := SetVoteTagID(db, v.userId, v.imageId, fromTagId, toTagId).value.votes[j];
      w.tagId == fromTagId ==> w in db.votes && !(w.userId == v.userId && w.imageId == v.imageId)
  {
    SetVoteTagIDKeepsWf(db, v.userId, v.imageId, fromTagId, toTagId);
  }

  /** Dropping the from-tag vote of a (user, image) pair leaves none of that pair. */
  lemma DropVoteStep(db: Db, v: Vote, fromTagId: int)
    requires Wf(db)
    ensures Wf(DeleteVote(db, v.userId, v.imageId, fromTagId))
    ensures forall j :: 0 <= j < |DeleteVote(db, v.userId, v.imageId, fromTagId).votes| ==>
      var w := DeleteVote(db, v.userId, v.imageId, fromTagId).votes[j];
      w.tagId == fromTagId ==> w in db.votes && !(w.userId == v.userId && w.imageId == v.imageId)
  {
    DeleteVoteKeepsWf(db, v.userId, v.imageId, fromTagId);
    var rows := DeleteVote(db, v.userId, v.imageId, fromTagId).votes;
    assert forall j :: 0 <= j < |rows| ==> Not(VoteKeyIs(v.userId, v.imageId, fromTagId))(rows[j]);
  }

  /** Once a step has removed the first pair from the from-tag's rows, the
      rest of the list covers what remains. */
  lemma VotesCoveredTail(votes: seq<Vote>, before: seq<Vote>, after: seq<Vote>, fromTagId: int)
    requires |votes| > 0 && VotesCovered(votes, before, fromTagId)
    requires forall j :: 0 <= j < |after| && after[j].tagId == fromTagId ==>
      after[j] in before && !(after[j].userId == votes[0].userId && after[j].imageId == votes[0].imageId)
    ensures VotesCovered(votes[1..], after, fromTagId)
  {
    forall j | 0 <= j < |after| && after[j].tagId == fromTagId
      ensures exists k :: 0 <= k < |votes[1..]| && votes[1..][k].userId == after[j].userId
                          && votes[1..][k].imageId == after[j].imageId
    {
      var m :| 0 <= m < |before| && before[m] == after[j];
      var k :| 0 <= k < |votes| && votes[k].userId == before[m].userId && votes[k].imageId == before[m].imageId;
      assert votes[1..][k - 1] == votes[k];
    }
  }

  /** On a well-formed database whose to-tag exists, moving one vote succeeds,
      keeps the constraints, and leaves no from-tag row of that (user, image)
      pair, so the rest of the list still covers the remaining rows. */
  lemma MoveVoteStep(db: Db, votes: seq<Vote>, fromTagId: int, toTagId: int)
    requires Wf(db) && HasTag(db, toTagId) && |votes| > 0
    requires VotesCovered(votes, db.votes, fromTagId)
    ensures MoveVote(db, votes[0], fromTagId, toTagId).Ok?
    ensures Wf(MoveVote(db, votes[0], fromTagId, toTagId).value)
    ensures VotesCovered(votes[1..], MoveVote(db, votes[0], fromTagId, toTagId).value.votes, fromTagId)
  {
    var v := votes[0];
    ZeroMeansAbsent(db, v.userId, v.imageId, toTagId, []);
    if GetVote(db, v.userId, v.imageId, toTagId).IsZero() {
      RetagVoteStep(db, v, fromTagId, toTagId);
    } else {
      DropVoteStep(db, v, fromTagId);
    }
    VotesCoveredTail(votes, db.votes, MoveVote(db, v, fromTagId, toTagId).value.votes, fromTagId);
  }

  /** The first loop moves every covered vote row off the from-tag. */
  lemma {:induction false} MergeVotesClears(db: Db, votes: seq<Vote>, fromTagId: int, toTagId: int)
    requires Wf(db) && HasTag(db, toTagId)
    requires VotesCovered(votes, db.votes, fromTagId)
    ensures MergeVotes(db, votes, fromTagId, toTagId).Ok?
    ensures Wf(MergeVotes(db, votes, fromTagId, toTagId).value)
    ensures !Any(MergeVotes(db, votes, fromTagId, toTagId).value.votes, VoteTagIs(fromTagId))
    decreases |votes|
  {
    if |votes| == 0 {
      assert forall j :: 0 <= j < |db.votes| ==> !VoteTagIs(fromTagId)(db.votes[j]);
    } else {
      MoveVoteStep(db, votes, fromTagId, toTagId);
      var db1 := MoveVote(db, votes[0], fromTagId, toTagId).value;
      assert MergeVotes(db, votes, fromTagId, toTagId) == MergeVotes(db1, votes[1..], fromTagId, toTagId);
      MergeVotesClears(db1, votes[1..], fromTagId, toTagId);
    }
  }

  /** Some summary of the rows has the tag and the image. */
  predicate LinkIn(rows: seq<VoteSummary>, imageId: int, tagId: int) {
    exists m :: 0 <= m < |rows| && rows[m].imageId == imageId && rows[m].tagId == tagId
  }

  /** Moving a summary onto a to-tag the image is not linked with yet retags
      it; no from-tag summary of that image remains. */
  lemma RetagLinkStep(db: Db, l: VoteSummary, fromTagId: int, toTagId: int)
    requires Wf(db) && HasTag(db, toTagId) && !HasSummary(db, l.imageId, toTagId)
    ensures SetVoteSummaryTagID(db, l.imageId, fromTagId, toTagId).Ok?
    ensures Wf(SetVoteSummaryTagID(db, l.imageId, fromTagId, toTagId).value)
    ensures forall j :: 0 <= j < |SetVoteSummaryTagID(db, l.imageId, fromTagId, toTagId).value.summaries| ==>
      var s := SetVoteSummaryTagID(db, l.imageId, fromTagId, toTagId).value.summaries[j];
      s.tagId == fromTagId ==> LinkIn(db.summaries, s.imageId, fromTagId) && s.imageId != l.imageId
  {
    SetVoteSummaryTagIDKeepsWf(db, l.imageId, fromTagId, toTagId);
    var rows := SetVoteSummaryTagID(db, l.imageId, fromTagId, toTagId).value.summaries;
    forall j | 0 <= j < |rows| && rows[j].tagId == fromTagId
      ensures LinkIn(db.summaries, rows[j].imageId, fromTagId) && rows[j].imageId != l.imageId
    {
      assert rows[j] == db.summaries[j];
    }
  }

  /** Recounting the to-tag's summary and dropping the from-tag's leaves no
      from-tag summary of that image. */
  lemma FoldLinkStep(db: Db, l: VoteSummary, fromTagId: int, toTagId: int)
    requires Wf(db)
    ensures Wf(DeleteVoteSummary(ReconcileVoteSummaryTotals(db, l.imageId, toTagId), l.imageId, fromTagId))
    ensures forall j :: 0 <= j < |DeleteVoteSummary(ReconcileVoteSummaryTotals(db, l.imageId, toTagId), l.imageId, fromTagId).summaries| ==>
      var s := DeleteVoteSummary(ReconcileVoteSummaryTotals(db, l.imageId, toTagId), l.imageId, fromTagId).summaries[j];
      s.tagId == fromTagId ==> LinkIn(db.summaries, s.imageId, fromTagId) && s.imageId != l.imageId
  {
    var rec := ReconcileVoteSummaryTotals(db, l.imageId, toTagId);
    SetVoteSummaryVoteCountsKeepsWf(db, l.imageId, toTagId, UpCount(db, l.imageId, toTagId), DownCount(db, l.imageId, toTagId));
    DeleteVoteSummaryKeepsWf(rec, l.imageId, fromTagId);
    FoldRowsCovered(db.summaries, rec.summaries, l.imageId, fromTagId, toTagId);
  }

  /** The rows left after recounting one link and deleting another of the same
      image: a from-tag row among them is a from-tag row of the original
      table, and of another image. */
  lemma FoldRowsCovered(before: seq<VoteSummary>, mid: seq<VoteSummary>, imageId: int, fromTagId: int, toTagId: int)
    requires |mid| == |before|
    requires forall j :: 0 <= j < |before| && SummaryKeyIs(imageId, toTagId)(before[j]) ==>
      mid[j].imageId == imageId && mid[j].tagId == toTagId
    requires forall j :: 0 <= j < |before| && !SummaryKeyIs(imageId, toTagId)(before[j]) ==> mid[j] == before[j]
    ensures var after := Filter(mid, Not(SummaryKeyIs(imageId, fromTagId)));
      forall j :: 0 <= j < |after| && after[j].tagId == fromTagId ==>
        LinkIn(before, after[j].imageId, fromTagId) && after[j].imageId != imageId
  {
    var after := Filter(mid, Not(SummaryKeyIs(imageId, fromTagId)));
    forall j | 0 <= j < |after| && after[j].tagId == fromTagId
      ensures LinkIn(before, after[j].imageId, fromTagId) && after[j].imageId != imageId
    {
      assert Not(SummaryKeyIs(imageId, fromTagId))(after[j]);
      var m :| 0 <= m < |mid| && mid[m] == after[j];
      assert before[m].imageId == after[j].imageId && before[m].tagId == fromTagId;
    }
  }

  /** Once a step has removed the first image from the from-tag's summaries,
      the rest of the list covers what remains. */
  lemma LinksCoveredTail(links: seq<VoteSummary>, before: seq<VoteSummary>, after: seq<VoteSummary>, fromTagId: int)
    requires |links| > 0 && LinksCovered(links, before, fromTagId)
    requires forall j :: 0 <= j < |after| && after[j].tagId == fromTagId ==>
      LinkIn(before, after[j].imageId, fromTagId) && after[j].imageId != links[0].imageId
    ensures LinksCovered(links[1..], after, fromTagId)
  {
    forall j | 0 <= j < |after| && after[j].tagId == fromTagId
      ensures exists k :: 0 <= k < |links[1..]| && links[1..][k].imageId == after[j].imageId
    {
      var m :| 0 <= m < |before| && before[m].imageId == after[j].imageId && before[m].tagId == fromTagId;
      var k :| 0 <= k < |links| && links[k].imageId == before[m].imageId;
      assert links[1..][k - 1] == links[k];
    }
  }

  /** On a well-formed database whose to-tag exists, moving one summary
      succeeds, keeps the constraints, and leaves no from-tag summary of that
      image, so the rest of the list still covers the remaining summaries. */
  lemma MoveLinkStep(db: Db, links: seq<VoteSummary>, fromTagId: int, toTagId: int)
    requires Wf(db) && HasTag(db, toTagId) && |links| > 0
    requires LinksCovered(links, db.summaries, fromTagId)
    ensures MoveLink(db, links[0], fromTagId, toTagId).Ok?
    ensures Wf(MoveLink(db, links[0], fromTagId, toTagId).value)
    ensures LinksCovered(links[1..], MoveLink(db, links[0], fromTagId, toTagId).value.summaries, fromTagId)
  {
    var l := links[0];
    ZeroMeansAbsent(db, 0, l.imageId, toTagId, []);
    if GetVoteSummary(db, l.imageId, toTagId).IsZero() {
      RetagLinkStep(db, l, fromTagId, toTagId);
    } else {
      FoldLinkStep(db, l, fromTagId, toTagId);
    }
    LinksCoveredTail(links, db.summaries, MoveLink(db, l, fromTagId, toTagId).value.summaries, fromTagId);
  }

  /** The second loop moves every covered summary off the from-tag. */
  lemma {:induction false} MergeLinksClears(db: Db, links: seq<VoteSummary>, fromTagId: int, toTagId: int)
    requires Wf(db) && HasTag(db, toTagId)
    requires LinksCovered(links, db.summaries, fromTagId)
    ensures MergeLinks(db, links, fromTagId, toTagId).Ok?
    ensures Wf(MergeLinks(db, links, fromTagId, toTagId).value)
    ensures !Any(MergeLinks(db, links, fromTagId, toTagId).value.summaries, SummaryTagIs(fromTagId))
    decreases |links|
  {
    if |links| == 0 {
      assert forall j :: 0 <= j < |db.summaries| ==> !SummaryTagIs(fromTagId)(db.summaries[j]);
    } else {
      MoveLinkStep(db, links, fromTagId, toTagId);
      var db1 := MoveLink(db, links[0], fromTagId, toTagId).value;
      assert MergeLinks(db, links, fromTagId, toTagId) == MergeLinks(db1, links[1..], fromTagId, toTagId);
      MergeLinksClears(db1, links[1..], fromTagId, toTagId);
    }
  }

  /** The from-tag's vote rows cover themselves. */
  lemma VotesCoveredByFilter(rows: seq<Vote>, fromTagId: int)
    ensures VotesCovered(Filter(rows, VoteTagIs(fromTagId)), rows, fromTagId)
  {
    var votes := Filter(rows, VoteTagIs(fromTagId));
    forall j | 0 <= j < |rows| && rows[j].tagId == fromTagId
      ensures exists k :: 0 <= k < |votes| && votes[k].userId == rows[j].userId && votes[k].imageId == rows[j].imageId
    {
      assert VoteTagIs(fromTagId)(rows[j]);
      var k :| 0 <= k < |votes| && votes[k] == rows[j];
    }
  }

  /** The from-tag's summaries cover themselves. */
  lemma LinksCoveredByFilter(rows: seq<VoteSummary>, fromTagId: int)
    ensures LinksCovered(Filter(rows, SummaryTagIs(fromTagId)), rows, fromTagId)
  {
    var links := Filter(rows, SummaryTagIs(fromTagId));
    forall j | 0 <= j < |rows| && rows[j].tagId == fromTagId
      ensures exists k :: 0 <= k < |links| && links[k].imageId == rows[j].imageId
    {
      assert SummaryTagIs(fromTagId)(rows[j]);
      var k :| 0 <= k < |links| && links[k] == rows[j];
    }
  }

  /** Both loops together: no summary or vote row is left on the from-tag. */
  lemma MergeLoopsClear(db: Db, fromTagId: int, toTagId: int)
    requires Wf(db) && HasTag(db, toTagId)
    ensures MergeVotes(db, Filter(db.votes, VoteTagIs(fromTagId)), fromTagId, toTagId).Ok?
    ensures
      var db1 := MergeVotes(db, Filter(db.votes, VoteTagIs(fromTagId)), fromTagId, toTagId).value;
      var r := MergeLinks(db1, Filter(db1.summaries, SummaryTagIs(fromTagId)), fromTagId, toTagId);
      r.Ok? && Wf(r.value) && !TagReferenced(r.value, fromTagId) && HasTag(r.value, toTagId)
  {
    VotesCoveredByFilter(db.votes, fromTagId);
    MergeVotesClears(db, Filter(db.votes, VoteTagIs(fromTagId)), fromTagId, toTagId);
    var db1 := MergeVotes(db, Filter(db.votes, VoteTagIs(fromTagId)), fromTagId, toTagId).value;
    assert HasTag(db1, toTagId);
    LinksCoveredByFilter(db1.summaries, fromTagId);
    MergeLinksClears(db1, Filter(db1.summaries, SummaryTagIs(fromTagId)), fromTagId, toTagId);
  }

  /** On a well-formed database whose to-tag exists, MergeTags succeeds, keeps
      the constraints, leaves no vote or summary on the from-tag and deletes
      it; the to-tag survives unless it is the from-tag itself. */
  lemma MergeTagsClears(db: Db, fromTagId: int, toTagId: int)
    requires Wf(db) && HasTag(db, toTagId)
    ensures MergeTags(db, fromTagId, toTagId).Ok?
    ensures Wf(MergeTags(db, fromTagId, toTagId).value)
    ensures !TagReferenced(MergeTags(db, fromTagId, toTagId).value, fromTagId)
    ensures fromTagId != toTagId ==> HasTag(MergeTags(db, fromTagId, toTagId).value, toTagId)
  {
    MergeLoopsClear(db, fromTagId, toTagId);
    var db1 := MergeVotes(db, Filter(db.votes, VoteTagIs(fromTagId)), fromTagId, toTagId).value;
    var db2 := MergeLinks(db1, Filter(db1.summaries, SummaryTagIs(fromTagId)), fromTagId, toTagId).value;
    DeleteTagByIDKeepsWf(db2, fromTagId);
    if fromTagId != toTagId {
      AnyFilter(db2.tags, Not(TagIdIs(fromTagId)), TagIdIs(toTagId));
    }
  }

  // ---------------------------------------------------------------------
  // What a merge keeps
  // ---------------------------------------------------------------------

  /** A statement that keeps every summary's key keeps every link. */
  lemma SummaryKeysKept(db: Db, r: Db)
    requires |r.summaries| == |db.summaries|
    requires forall j :: 0 <= j < |db.summaries| ==>
      r.summaries[j].imageId == db.summaries[j].imageId && r.summaries[j].tagId == db.summaries[j].tagId
    ensures forall i, k :: HasSummary(db, i, k) ==> HasSummary(r, i, k)
  {
    forall i, k | HasSummary(db, i, k) ensures HasSummary(r, i, k) {
      var j := FindIndex(db.summaries, SummaryKeyIs(i, k)).value;
      AnyWitness(r.summaries, SummaryKeyIs(i, k), j);
    }
  }

  /** Moving a vote to a different tag keeps every to-tag vote and every
      other from-tag vote, and leaves the moved pair voted under the to-tag. */
  lemma MoveVoteKeeps(db: Db, v: Vote, fromTagId: int, toTagId: int)
    requires Wf(db) && HasTag(db, toTagId) && fromTagId != toTagId
    ensures MoveVote(db, v, fromTagId, toTagId).Ok?
    ensures forall u, i :: HasVote(db, u, i, toTagId) ==> HasVote(MoveVote(db, v, fromTagId, toTagId).value, u, i, toTagId)
    ensures forall u, i :: HasVote(db, u, i, fromTagId) && !(u == v.userId && i == v.imageId) ==>
      HasVote(MoveVote(db, v, fromTagId, toTagId).value, u, i, fromTagId)
    ensures HasVote(db, v.userId, v.imageId, fromTagId) ==>
      HasVote(MoveVote(db, v, fromTagId, toTagId).value, v.userId, v.imageId, toTagId)
  {
    ZeroMeansAbsent(db, v.userId, v.imageId, toTagId, []);
    if GetVote(db, v.userId, v.imageId, toTagId).IsZero() {
      RetagVoteKeeps(db, v.userId, v.imageId, fromTagId, toTagId);
    } else {
      DropVoteKeeps(db, v.userId, v.imageId, fromTagId);
    }
  }

  /** Retagging a vote keeps every to-tag vote and every other from-tag vote,
      and leaves the pair voted under the to-tag. */
  lemma RetagVoteKeeps(db: Db, userId: int, imageId: int, fromTagId: int, toTagId: int)
    requires SetVoteTagID(db, userId, imageId, fromTagId, toTagId).Ok?
    ensures forall u, i, k :: HasVote(db, u, i, k) && (k == toTagId || k == fromTagId) ==>
      HasVote(SetVoteTagID(db, userId, imageId, fromTagId, toTagId).value, u, i,
              if k == fromTagId && u == userId && i == imageId then toTagId else k)
  {
    var r := SetVoteTagID(db, userId, imageId, fromTagId, toTagId).value;
    forall u, i, k | HasVote(db, u, i, k) && (k == toTagId || k == fromTagId)
      ensures HasVote(r, u, i, if k == fromTagId && u == userId && i == imageId then toTagId else k)
    {
      var j := FindIndex(db.votes, VoteKeyIs(u, i, k)).value;
      AnyWitness(r.votes, VoteKeyIs(u, i, if k == fromTagId && u == userId && i == imageId then toTagId else k), j);
    }
  }

  /** Dropping a from-tag vote keeps every other vote. */
  lemma DropVoteKeeps(db: Db, userId: int, imageId: int, fromTagId: int)
    ensures forall u, i, k :: HasVote(db, u, i, k) && !(u == userId && i == imageId && k == fromTagId) ==>
      HasVote(DeleteVote(db, userId, imageId, fromTagId), u, i, k)
  {
    forall u, i, k | HasVote(db, u, i, k) && !(u == userId && i == imageId && k == fromTagId)
      ensures HasVote(DeleteVote(db, userId, imageId, fromTagId), u, i, k)
    {
      AnyFilter(db.votes, Not(VoteKeyIs(userId, imageId, fromTagId)), VoteKeyIs(u, i, k));
    }
  }

  /** The first loop leaves every covered from-tag pair, and every to-tag
      pair, voted under the to-tag. */
  lemma {:induction false} MergeVotesMoves(db: Db, votes: seq<Vote>, fromTagId: int, toTagId: int)
    requires Wf(db) && HasTag(db, toTagId) && fromTagId != toTagId
    requires VotesCovered(votes, db.votes, fromTagId)
    ensures MergeVotes(db, votes, fromTagId, toTagId).Ok?
    ensures forall u, i :: HasVote(db, u, i, fromTagId) || HasVote(db, u, i, toTagId) ==>
      HasVote(MergeVotes(db, votes, fromTagId, toTagId).value, u, i, toTagId)
    decreases |votes|
  {
    if |votes| > 0 {
      MoveVoteStep(db, votes, fromTagId, toTagId);
      MoveVoteKeeps(db, votes[0], fromTagId, toTagId);
      var db1 := MoveVote(db, votes[0], fromTagId, toTagId).value;
      assert HasTag(db1, toTagId);
      assert MergeVotes(db, votes, fromTagId, toTagId) == MergeVotes(db1, votes[1..], fromTagId, toTagId);
      MergeVotesMoves(db1, votes[1..], fromTagId, toTagId);
    }
  }

  /** Retagging a summary keeps every to-tag link and every other from-tag
      link, and leaves the image linked with the to-tag. */
  lemma RetagLinkKeeps(db: Db, imageId: int, fromTagId: int, toTagId: int)
    requires SetVoteSummaryTagID(db, imageId, fromTagId, toTagId).Ok? && fromTagId != toTagId
    ensures forall i, k :: HasSummary(db, i, k) && (k == toTagId || k == fromTagId) ==>
      HasSummary(SetVoteSummaryTagID(db, imageId, fromTagId, toTagId).value, i, if k == fromTagId && i == imageId then toTagId else k)
  {
    var r := SetVoteSummaryTagID(db, imageId, fromTagId, toTagId).value;
    forall i, k | HasSummary(db, i, k) && (k == toTagId || k == fromTagId)
      ensures HasSummary(r, i, if k == fromTagId && i == imageId then toTagId else k)
    {
      var j := FindIndex(db.summaries, SummaryKeyIs(i, k)).value;
      AnyWitness(r.summaries, SummaryKeyIs(i, if k == fromTagId && i == imageId then toTagId else k), j);
    }
  }

  /** Recounting the to-tag's summary and dropping the from-tag's keeps every other link. */
  lemma FoldLinkKeeps(db: Db, imageId: int, fromTagId: int, toTagId: int)
    ensures forall i, k :: HasSummary(db, i, k) && !(i == imageId && k == fromTagId) ==>
      HasSummary(DeleteVoteSummary(ReconcileVoteSummaryTotals(db, imageId, toTagId), imageId, fromTagId), i, k)
  {
    var rec := ReconcileVoteSummaryTotals(db, imageId, toTagId);
    SummaryKeysKept(db, rec);
    forall i, k | HasSummary(rec, i, k) && !(i == imageId && k == fromTagId)
      ensures HasSummary(DeleteVoteSummary(rec, imageId, fromTagId), i, k)
    {
      AnyFilter(rec.summaries, Not(SummaryKeyIs(imageId, fromTagId)), SummaryKeyIs(i, k));
    }
  }

  /** Moving a summary to a different tag keeps every to-tag link and every
      other from-tag link, and leaves the moved image linked with the to-tag. */
  lemma MoveLinkKeeps(db: Db, l: VoteSummary, fromTagId: int, toTagId: int)
    requires Wf(db) && HasTag(db, toTagId) && fromTagId != toTagId
    ensures MoveLink(db, l, fromTagId, toTagId).Ok?
    ensures forall i :: HasSummary(db, i, toTagId) ==> HasSummary(MoveLink(db, l, fromTagId, toTagId).value, i, toTagId)
    ensures forall i :: HasSummary(db, i, fromTagId) && i != l.imageId ==>
      HasSummary(MoveLink(db, l, fromTagId, toTagId).value, i, fromTagId)
    ensures HasSummary(db, l.imageId, fromTagId) ==> HasSummary(MoveLink(db, l, fromTagId, toTagId).value, l.imageId, toTagId)
  {
    ZeroMeansAbsent(db, 0, l.imageId, toTagId, []);
    if GetVoteSummary(db, l.imageId, toTagId).IsZero() {
      RetagLinkKeeps(db, l.imageId, fromTagId, toTagId);
    } else {
      FoldLinkKeeps(db, l.imageId, fromTagId, toTagId);
    }
  }

  /** The second loop leaves every covered from-tag image, and every to-tag
      image, linked with the to-tag. */
  lemma {:induction false} MergeLinksMoves(db: Db, links: seq<VoteSummary>, fromTagId: int, toTagId: int)
    requires Wf(db) && HasTag(db, toTagId) && fromTagId != toTagId
    requires LinksCovered(links, db.summaries, fromTagId)
    ensures MergeLinks(db, links, fromTagId, toTagId).Ok?
    ensures forall i :: HasSummary(db, i, fromTagId) || HasSummary(db, i, toTagId) ==>
      HasSummary(MergeLinks(db, links, fromTagId, toTagId).value, i, toTagId)
    decreases |links|
  {
    if |links| > 0 {
      MoveLinkStep(db, links, fromTagId, toTagId);
      MoveLinkKeeps(db, links[0], fromTagId, toTagId);
      var db1 := MoveLink(db, links[0], fromTagId, toTagId).value;
      assert HasTag(db1, toTagId);
      assert MergeLinks(db, links, fromTagId, toTagId) == MergeLinks(db1, links[1..], fromTagId, toTagId);
      MergeLinksMoves(db1, links[1..], fromTagId, toTagId);
    }
  }

  /** Merging into a different tag loses no vote and no link: every pair that
      voted with the from-tag, and every image linked with it, ends up
      voted and linked with the to-tag. */
  lemma MergeTagsMoves(db: Db, fromTagId: int, toTagId: int)
    requires Wf(db) && HasTag(db, toTagId) && fromTagId != toTagId
    ensures MergeTags(db, fromTagId, toTagId).Ok?
    ensures forall u, i :: HasVote(db, u, i, fromTagId) ==> HasVote(MergeTags(db, fromTagId, toTagId).value, u, i, toTagId)
    ensures forall i :: HasSummary(db, i, fromTagId) ==> HasSummary(MergeTags(db, fromTagId, toTagId).value, i, toTagId)
  {
    MergeLoopsClear(db, fromTagId, toTagId);
    var votes := Filter(db.votes, VoteTagIs(fromTagId));
    VotesCoveredByFilter(db.votes, fromTagId);
    MergeVotesMoves(db, votes, fromTagId, toTagId);
    var db1 := MergeVotes(db, votes, fromTagId, toTagId).value;
    assert Wf(db1) && HasTag(db1, toTagId) by {
      MergeVotesClears(db, votes, fromTagId, toTagId);
    }
    var links := Filter(db1.summaries, SummaryTagIs(fromTagId));
    LinksCoveredByFilter(db1.summaries, fromTagId);
    MergeLinksMoves(db1, links, fromTagId, toTagId);
    var db2 := MergeLinks(db1, links, fromTagId, toTagId).value;
    var r := DeleteTagByID(db2, fromTagId);
    assert r == MergeTags(db, fromTagId, toTagId);
    assert r.Ok? && r.value.votes == db2.votes == db1.votes && r.value.summaries == db2.summaries;
    forall i | HasSummary(db, i, fromTagId) ensures HasSummary(r.value, i, toTagId) {
      assert HasSummary(db1, i, fromTagId);
      assert HasSummary(db2, i, toTagId);
    }
  }

  // ---------------------------------------------------------------------
  // Cascading deletes
  // ---------------------------------------------------------------------

  /** `DeleteTagAndVotesByID`: the tag's summaries, then its votes, then the tag. */
  function DeleteTagAndVotesByID(db: Db, tagId: int): (r: Result<Db, DbError>)
    ensures r.Ok?
    ensures !HasTag(r.value, tagId) && !TagReferenced(r.value, tagId)
    ensures forall j :: 0 <= j < |db.summaries| && db.summaries[j].tagId != tagId ==> db.summaries[j] in r.value.summaries
    ensures forall j :: 0 <= j < |db.votes| && db.votes[j].tagId != tagId ==> db.votes[j] in r.value.votes
    ensures forall j :: 0 <= j < |db.tags| && db.tags[j].id != tagId ==> db.tags[j] in r.value.tags
    ensures r.value.users == db.users && r.value.images == db.images
  {
    var db1 := db.(summaries := Filter(db.summaries, Not(SummaryTagIs(tagId))));
    var db2 := db1.(votes := Filter(db1.votes, Not(VoteTagIs(tagId))));
    assert !Any(db2.summaries, SummaryTagIs(tagId));
    assert !Any(db2.votes, VoteTagIs(tagId));
    DeleteTagByID(db2, tagId)
  }

  /** `DeleteImageByID`: the image's summaries, then its votes, then the image. */
  function DeleteImageByID(db: Db, imageId: int): (r: Result<Db, DbError>)
    ensures r.Ok?
    ensures !HasImage(r.value, imageId) && !ImageReferenced(r.value, imageId)
    ensures forall j :: 0 <= j < |db.summaries| && db.summaries[j].imageId != imageId ==> db.summaries[j] in r.value.summaries
    ensures forall j :: 0 <= j < |db.votes| && db.votes[j].imageId != imageId ==> db.votes[j] in r.value.votes
    ensures forall j :: 0 <= j < |db.images| && db.images[j].id != imageId ==> db.images[j] in r.value.images
    ensures r.value.users == db.users && r.value.tags == db.tags
  {
    var db1 := db.(summaries := Filter(db.summaries, Not(SummaryImageIs(imageId))));
    var db2 := db1.(votes := Filter(db1.votes, Not(VoteImageIs(imageId))));
    assert !Any(db2.summaries, SummaryImageIs(imageId));
    assert !Any(db2.votes, VoteImageIs(imageId));
    DeleteImageRow(db2, imageId)
  }

  /** Deleting a tag with its summaries and votes keeps the constraints. */
  lemma DeleteTagAndVotesByIDKeepsWf(db: Db, tagId: int)
    requires Wf(db)
    ensures Wf(DeleteTagAndVotesByID(db, tagId).value)
  {
    var db1 := db.(summaries := Filter(db.summaries, Not(SummaryTagIs(tagId))));
    var db2 := db1.(votes := Filter(db1.votes, Not(VoteTagIs(tagId))));
    DeleteVoteSummariesKeepWf(db, Not(SummaryTagIs(tagId)));
    DeleteVotesKeepWf(db1, Not(VoteTagIs(tagId)));
    assert DeleteTagAndVotesByID(db, tagId) == DeleteTagByID(db2, tagId);
    DeleteTagByIDKeepsWf(db2, tagId);
  }

  /** Deleting an image with its summaries and votes keeps the constraints. */
  lemma DeleteImageByIDKeepsWf(db: Db, imageId: int)
    requires Wf(db)
    ensures Wf(DeleteImageByID(db, imageId).value)
  {
    var db1 := db.(summaries := Filter(db.summaries, Not(SummaryImageIs(imageId))));
    var db2 := db1.(votes := Filter(db1.votes, Not(VoteImageIs(imageId))));
    DeleteVoteSummariesKeepWf(db, Not(SummaryImageIs(imageId)));
    DeleteVotesKeepWf(db1, Not(VoteImageIs(imageId)));
    assert DeleteImageByID(db, imageId) == DeleteImageRow(db2, imageId);
    DeleteImageRowKeepsWf(db2, imageId);
  }

  /** Deleting any set of summaries keeps the constraints. */
  lemma DeleteVoteSummariesKeepWf(db: Db, keep: VoteSummary -> bool)
    requires Wf(db)
    ensures Wf(db.(summaries := Filter(db.summaries, keep)))
  {
    FilterPairwise(db.summaries, keep, SummaryKeysDiffer);
    SomeSummariesResolve(db, Filter(db.summaries, keep));
  }

  /** Deleting any set of votes keeps the constraints. */
  lemma DeleteVotesKeepWf(db: Db, keep: Vote -> bool)
    requires Wf(db)
    ensures Wf(db.(votes := Filter(db.votes, keep)))
  {
    FilterPairwise(db.votes, keep, VoteKeysDiffer);
    SomeVotesResolve(db, Filter(db.votes, keep));
  }

  // ---------------------------------------------------------------------
  // DeleteOrphanedTags
  // ---------------------------------------------------------------------

  /** A vote whose tag has a summary with some image. */
  function VoteTagLinked(summaries: seq<VoteSummary>): Vote -> bool {
    (v: Vote) => Any(summaries, SummaryTagIs(v.tagId))
  }

  /** A tag with a summary for some image. */
  function TagLinked(summaries: seq<VoteSummary>): Tag -> bool {
    (t: Tag) => Any(summaries, SummaryTagIs(t.id))
  }

  /** `DeleteOrphanedTags`: first the votes whose tag has no summary, then the
      tags with no summary; the second statement would fail on a vote still
      referencing a deleted tag, which the first statement rules out. */
  function DeleteOrphanedTags(db: Db): (r: Result<Db, DbError>)
    ensures r.Ok?
    ensures forall j :: 0 <= j < |db.votes| ==> (db.votes[j] in r.value.votes <==> VoteTagLinked(db.summaries)(db.votes[j]))
    ensures forall j :: 0 <= j < |db.tags| ==> (db.tags[j] in r.value.tags <==> TagLinked(db.summaries)(db.tags[j]))
    ensures r.value.summaries == db.summaries && r.value.images == db.images && r.value.users == db.users
  {
    var db1 := db.(votes := Filter(db.votes, VoteTagLinked(db.summaries)));
    if Any(db1.votes, Not(VoteTagLinked(db1.summaries))) then Err(ForeignKeyViolation)
    else Ok(db1.(tags := Filter(db1.tags, TagLinked(db1.summaries))))
  }
}
