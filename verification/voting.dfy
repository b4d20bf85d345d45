/** Recording a vote on an image-tag link, in the three historical versions
    of the model layer:
    - `CreateOrUpdateVote` (server/model/manager.go) deletes the user's
      previous vote row before inserting the new one;
    - `CreateOrIncrementVote` (server/model/vote_summary.go) only inserts,
      and returns a flag with the error;
    - `CreateOrIncrementVoteErr` (server/model/image_tag_votes.go) only
      inserts, and returns the error alone.
    All three first create the link's summary with one vote, or add one vote
    to the existing summary. */
module Voting {
  import opened Wrappers
  import opened Rows
  import opened Ledger
  import opened Constraints

  /** `NewVoteSummary` / `NewImageTagVote`: a link record with no votes yet. */
  function NewVoteSummary(imageId: int, tagId: int, lastVoteBy: int, lastVoteUtc: int): (s: VoteSummary)
    ensures s.imageId == imageId && s.tagId == tagId && s.lastVoteBy == lastVoteBy && s.lastVoteUtc == lastVoteUtc
    ensures s.votesFor == 0 && s.votesAgainst == 0 && s.votesTotal == 0
    ensures s.IsZero() <==> imageId == 0 || tagId == 0
  {
    VoteSummary(imageId, tagId, lastVoteUtc, lastVoteBy, 0, 0, 0)
  }

  /** The summary a link's first vote creates. */
  function FirstVote(imageId: int, tagId: int, userId: int, now: int, isUpvote: bool): (s: VoteSummary)
    ensures s.imageId == imageId && s.tagId == tagId && s.lastVoteBy == userId && s.lastVoteUtc == now
    ensures s.votesFor == (if isUpvote then 1 else 0) && s.votesAgainst == (if isUpvote then 0 else 1)
    ensures s.votesTotal == s.votesFor - s.votesAgainst
  {
    var s := NewVoteSummary(imageId, tagId, userId, now);
    if isUpvote then s.(votesFor := 1, votesAgainst := 0, votesTotal := 1)
    else s.(votesFor := 0, votesAgainst := 1, votesTotal := -1)
  }

  /** An existing summary with one more vote on one side, the voter recorded and the total re-derived. */
  function AddVote(existing: VoteSummary, userId: int, now: int, isUpvote: bool): (s: VoteSummary)
    ensures s.imageId == existing.imageId && s.tagId == existing.tagId
    ensures s.lastVoteBy == userId && s.lastVoteUtc == now
    ensures s.votesFor == existing.votesFor + (if isUpvote then 1 else 0)
    ensures s.votesAgainst == existing.votesAgainst + (if isUpvote then 0 else 1)
    ensures s.votesTotal == s.votesFor - s.votesAgainst
  {
    var bumped := if isUpvote then existing.(votesFor := existing.votesFor + 1)
                  else existing.(votesAgainst := existing.votesAgainst + 1);
    bumped.(lastVoteBy := userId, lastVoteUtc := now, votesTotal := bumped.votesFor - bumped.votesAgainst)
  }

  /** Go's `(bool, error)` pair, with the state the statements leave behind on success. */
  datatype VoteOutcome = VoteOutcome(flag: bool, result: Result<Db, DbError>)

  /** The summary half shared by all three versions: insert the first-vote
      summary when the link has none (a failed insert reports the flag),
      otherwise update it with one more vote. */
  function RecordOnSummary(db: Db, userId: int, imageId: int, tagId: int, isUpvote: bool, now: int): (r: VoteOutcome)
    ensures r.flag <==> GetVoteSummary(db, imageId, tagId).IsZero()
                        && InsertSummary(db, FirstVote(imageId, tagId, userId, now, isUpvote)).Err?
    ensures r.flag ==> r.result.Err?
    ensures r.result.Ok? ==>
      r.result.value.votes == db.votes && r.result.value.tags == db.tags
      && r.result.value.images == db.images && r.result.value.users == db.users
  {
    var existing := GetVoteSummary(db, imageId, tagId);
    if existing.IsZero() then
      match InsertSummary(db, FirstVote(imageId, tagId, userId, now, isUpvote))
      case Err(e) => VoteOutcome(true, Err(e))
      case Ok(db1) => VoteOutcome(false, Ok(db1))
    else
      VoteOutcome(false, Ok(UpdateSummary(db, AddVote(existing, userId, now, isUpvote))))
  }

  /** server/model/manager.go: the summary step, then the user's previous vote
      row deleted and the new one inserted. */
  function CreateOrUpdateVote(db: Db, userId: int, imageId: int, tagId: int, isUpvote: bool, now: int): (r: VoteOutcome)
    ensures r.flag <==> GetVoteSummary(db, imageId, tagId).IsZero()
                        && InsertSummary(db, FirstVote(imageId, tagId, userId, now, isUpvote)).Err?
    ensures r.flag ==> r.result.Err?
    ensures r.result.Ok? ==> GetVote(r.result.value, userId, imageId, tagId) == Vote(userId, imageId, tagId, now, isUpvote)
    ensures r.result.Ok? ==> Count(r.result.value.votes, VoteKeyIs(userId, imageId, tagId)) == 1
  {
    var step := RecordOnSummary(db, userId, imageId, tagId, isUpvote, now);
    match step.result
    case Err(e) => step
    case Ok(db1) =>
      var db2 := DeleteVote(db1, userId, imageId, tagId);
      var r := VoteOutcome(false, InsertVote(db2, Vote(userId, imageId, tagId, now, isUpvote)));
      if r.result.Ok? then
        NewRowIsOnlyOne(db2.votes, Vote(userId, imageId, tagId, now, isUpvote));
        r
      else r
  }

  /** server/model/vote_summary.go: the summary step, then the new vote row
      inserted without removing an earlier one. */
  function CreateOrIncrementVote(db: Db, userId: int, imageId: int, tagId: int, isUpvote: bool, now: int): (r: VoteOutcome)
    ensures r.flag <==> GetVoteSummary(db, imageId, tagId).IsZero()
                        && InsertSummary(db, FirstVote(imageId, tagId, userId, now, isUpvote)).Err?
    ensures r.flag ==> r.result.Err?
    ensures HasVote(db, userId, imageId, tagId) ==> r.result.Err?
    ensures HasVote(db, userId, imageId, tagId) && !r.flag ==> r.result == Err(PrimaryKeyViolation)
    ensures r.result.Ok? ==> GetVote(r.result.value, userId, imageId, tagId) == Vote(userId, imageId, tagId, now, isUpvote)
  {
    var step := RecordOnSummary(db, userId, imageId, tagId, isUpvote, now);
    match step.result
    case Err(e) => step
    case Ok(db1) =>
      var r := VoteOutcome(false, InsertVote(db1, Vote(userId, imageId, tagId, now, isUpvote)));
      if r.result.Ok? then
        NewRowIsOnlyOne(db1.votes, Vote(userId, imageId, tagId, now, isUpvote));
        r
      else r
  }

  /** server/model/image_tag_votes.go: the same statements, reporting only the error. */
  function CreateOrIncrementVoteErr(db: Db, userId: int, imageId: int, tagId: int, isUpvote: bool, now: int): (r: Result<Db, DbError>)
    ensures HasVote(db, userId, imageId, tagId) ==> r.Err?
    ensures r.Ok? ==> HasVote(r.value, userId, imageId, tagId)
    ensures r.Ok? ==> GetVoteSummary(r.value, imageId, tagId) == VotedSummary(db, userId, imageId, tagId, isUpvote, now)
                      && GetVote(r.value, userId, imageId, tagId) == Vote(userId, imageId, tagId, now, isUpvote)
  {
    SummaryAfterVote(db, userId, imageId, tagId, isUpvote, now);
    CreateOrIncrementVote(db, userId, imageId, tagId, isUpvote, now).result
  }

  // ---------------------------------------------------------------------
  // Lemmas
  // ---------------------------------------------------------------------

  /** A row appended to rows that have no row with its key is the only row with that key, and the first. */
  lemma NewRowIsOnlyOne(votes: seq<Vote>, v: Vote)
    requires !Any(votes, VoteKeyIs(v.userId, v.imageId, v.tagId))
    ensures Count(votes + [v], VoteKeyIs(v.userId, v.imageId, v.tagId)) == 1
    ensures First(votes + [v], VoteKeyIs(v.userId, v.imageId, v.tagId), ZeroVote) == v
  {
    var p := VoteKeyIs(v.userId, v.imageId, v.tagId);
    CountAppend(votes, v, p);
    var all := votes + [v];
    assert forall j :: 0 <= j < |votes| ==> !p(votes[j]);
    assert forall j :: 0 <= j < |all| && p(all[j]) ==> j == |votes|;
  }

  /** Without an earlier vote by the user on the link, deleting it first changes nothing:
      the manager.go and vote_summary.go versions then leave the same state. */
  lemma FreshVoteVersionsAgree(db: Db, userId: int, imageId: int, tagId: int, isUpvote: bool, now: int)
    requires !HasVote(db, userId, imageId, tagId)
    ensures CreateOrUpdateVote(db, userId, imageId, tagId, isUpvote, now)
         == CreateOrIncrementVote(db, userId, imageId, tagId, isUpvote, now)
  {
    var step := RecordOnSummary(db, userId, imageId, tagId, isUpvote, now);
    if step.result.Ok? {
      var db1 := step.result.value;
      FilterAll(db1.votes, Not(VoteKeyIs(userId, imageId, tagId)));
      assert DeleteVote(db1, userId, imageId, tagId) == db1;
    }
  }

  /** Appending a vote changes only the counts of its own link and direction. */
  lemma CountsAfterAppend(votes: seq<Vote>, v: Vote, imageId: int, tagId: int, isUpvote: bool)
    ensures Count(votes + [v], VoteOn(imageId, tagId, isUpvote))
         == Count(votes, VoteOn(imageId, tagId, isUpvote))
            + if v.imageId == imageId && v.tagId == tagId && v.isUpvote == isUpvote then 1 else 0
  {
    CountAppend(votes, v, VoteOn(imageId, tagId, isUpvote));
  }

  lemma CountsAfterAppendAll(votes: seq<Vote>, v: Vote)
    ensures forall a, b, d ::
      Count(votes + [v], VoteOn(a, b, d)) ==
      Count(votes, VoteOn(a, b, d)) + (if v.imageId == a && v.tagId == b && v.isUpvote == d then 1 else 0)
  {
    forall a, b, d
      ensures Count(votes + [v], VoteOn(a, b, d))
           == Count(votes, VoteOn(a, b, d)) + if v.imageId == a && v.tagId == b && v.isUpvote == d then 1 else 0
    {
      CountsAfterAppend(votes, v, a, b, d);
    }
  }

  /** The link had no summary: the new summary and the new vote row agree, and so does every other summary. */
  lemma AgreementAfterFirstVote(db: Db, v: Vote, fin: Db)
    requires Agreement(db)
    requires !HasSummary(db, v.imageId, v.tagId)
    requires fin == db.(summaries := db.summaries + [FirstVote(v.imageId, v.tagId, v.userId, v.timestampUtc, v.isUpvote)],
                        votes := db.votes + [v])
    ensures Agreement(fin)
  {
    CountsAfterAppendAll(db.votes, v);
    assert UpCount(db, v.imageId, v.tagId) == 0 && DownCount(db, v.imageId, v.tagId) == 0 by {
      forall j | 0 <= j < |db.votes|
        ensures !(db.votes[j].imageId == v.imageId && db.votes[j].tagId == v.tagId)
      {
        assert HasSummary(db, db.votes[j].imageId, db.votes[j].tagId);
      }
    }
    forall j | 0 <= j < |fin.summaries|
      ensures SummaryAgrees(fin, fin.summaries[j])
    {
      if j < |db.summaries| {
        var s := db.summaries[j];
        assert SummaryAgrees(db, s);
        assert !SummaryKeyIs(v.imageId, v.tagId)(db.summaries[j]);
      }
    }
    VotesLinkedAfterAppend(db, fin, FirstVote(v.imageId, v.tagId, v.userId, v.timestampUtc, v.isUpvote), v);
  }

  /** Appending a vote row together with a summary of its link keeps every vote row linked. */
  lemma VotesLinkedAfterAppend(db: Db, fin: Db, s: VoteSummary, v: Vote)
    requires forall j :: 0 <= j < |db.votes| ==> HasSummary(db, db.votes[j].imageId, db.votes[j].tagId)
    requires fin == db.(summaries := db.summaries + [s], votes := db.votes + [v])
    requires s.imageId == v.imageId && s.tagId == v.tagId
    ensures forall j :: 0 <= j < |fin.votes| ==> HasSummary(fin, fin.votes[j].imageId, fin.votes[j].tagId)
  {
    forall j | 0 <= j < |fin.votes|
      ensures HasSummary(fin, fin.votes[j].imageId, fin.votes[j].tagId)
    {
      var w := fin.votes[j];
      if j < |db.votes| {
        assert HasSummary(db, w.imageId, w.tagId);
        var k := FindIndex(db.summaries, SummaryKeyIs(w.imageId, w.tagId)).value;
        assert fin.summaries[k] == db.summaries[k];
        AnyWitness(fin.summaries, SummaryKeyIs(w.imageId, w.tagId), k);
      } else {
        AnyWitness(fin.summaries, SummaryKeyIs(w.imageId, w.tagId), |db.summaries|);
      }
    }
  }

  /** The link had a summary that agreed: with one more vote on one side it agrees with the new row. */
  lemma AgreementAfterAddedVote(db: Db, v: Vote, existing: VoteSummary, fin: Db)
    requires Agreement(db)
    requires existing in db.summaries && existing.imageId == v.imageId && existing.tagId == v.tagId
    requires fin == UpdateSummary(db, AddVote(existing, v.userId, v.timestampUtc, v.isUpvote)).(votes := db.votes + [v])
    ensures Agreement(fin)
  {
    SummariesAgreeAfterAddedVote(db, v, existing, fin);
    var e := FindIndex(db.summaries, SummaryKeyIs(v.imageId, v.tagId));
    assert e.Some? by {
      var i :| 0 <= i < |db.summaries| && db.summaries[i] == existing;
      AnyWitness(db.summaries, SummaryKeyIs(v.imageId, v.tagId), i);
    }
    forall j | 0 <= j < |fin.votes|
      ensures HasSummary(fin, fin.votes[j].imageId, fin.votes[j].tagId)
    {
      var w := fin.votes[j];
      var k: nat;
      if j < |db.votes| {
        assert HasSummary(db, w.imageId, w.tagId);
        k := FindIndex(db.summaries, SummaryKeyIs(w.imageId, w.tagId)).value;
      } else {
        k := e.value;
      }
      assert fin.summaries[k].imageId == w.imageId && fin.summaries[k].tagId == w.tagId;
      AnyWitness(fin.summaries, SummaryKeyIs(w.imageId, w.tagId), k);
    }
  }

  lemma SummariesAgreeAfterAddedVote(db: Db, v: Vote, existing: VoteSummary, fin: Db)
    requires Agreement(db)
    requires existing in db.summaries && existing.imageId == v.imageId && existing.tagId == v.tagId
    requires fin == UpdateSummary(db, AddVote(existing, v.userId, v.timestampUtc, v.isUpvote)).(votes := db.votes + [v])
    ensures forall j :: 0 <= j < |fin.summaries| ==> SummaryAgrees(fin, fin.summaries[j])
  {
    CountsAfterAppendAll(db.votes, v);
    assert SummaryAgrees(db, existing);
    forall j | 0 <= j < |fin.summaries|
      ensures SummaryAgrees(fin, fin.summaries[j])
    {
      assert SummaryAgrees(db, db.summaries[j]);
    }
  }

  /** A first vote by the user keeps every summary equal to its link's vote rows. */
  lemma CreateOrIncrementVoteKeepsAgreement(db: Db, userId: int, imageId: int, tagId: int, isUpvote: bool, now: int)
    requires Agreement(db)
    requires CreateOrIncrementVote(db, userId, imageId, tagId, isUpvote, now).result.Ok?
    ensures Agreement(CreateOrIncrementVote(db, userId, imageId, tagId, isUpvote, now).result.value)
  {
    var v := Vote(userId, imageId, tagId, now, isUpvote);
    var existing := GetVoteSummary(db, imageId, tagId);
    var fin := CreateOrIncrementVote(db, userId, imageId, tagId, isUpvote, now).result.value;
    if existing.IsZero() {
      assert !HasSummary(db, imageId, tagId);
      AgreementAfterFirstVote(db, v, fin);
    } else {
      assert HasSummary(db, imageId, tagId);
      AgreementAfterAddedVote(db, v, existing, fin);
    }
  }

  /** The same for the manager.go version, whose delete of an earlier row is then a no-op. */
  lemma CreateOrUpdateVoteKeepsAgreement(db: Db, userId: int, imageId: int, tagId: int, isUpvote: bool, now: int)
    requires Agreement(db)
    requires !HasVote(db, userId, imageId, tagId)
    requires CreateOrUpdateVote(db, userId, imageId, tagId, isUpvote, now).result.Ok?
    ensures Agreement(CreateOrUpdateVote(db, userId, imageId, tagId, isUpvote, now).result.value)
  {
    FreshVoteVersionsAgree(db, userId, imageId, tagId, isUpvote, now);
    CreateOrIncrementVoteKeepsAgreement(db, userId, imageId, tagId, isUpvote, now);
  }

  /** The summary a vote leaves on its link: the first-vote summary when the
      link read as the zero record, otherwise the existing one with one more vote. */
  function VotedSummary(db: Db, userId: int, imageId: int, tagId: int, isUpvote: bool, now: int): VoteSummary {
    var existing := GetVoteSummary(db, imageId, tagId);
    if existing.IsZero() then FirstVote(imageId, tagId, userId, now, isUpvote)
    else AddVote(existing, userId, now, isUpvote)
  }

  /** After a successful vote, in any version, reading the link's summary back gives the voted summary. */
  lemma SummaryAfterVote(db: Db, userId: int, imageId: int, tagId: int, isUpvote: bool, now: int)
    ensures RecordOnSummary(db, userId, imageId, tagId, isUpvote, now).result.Ok? ==>
      GetVoteSummary(RecordOnSummary(db, userId, imageId, tagId, isUpvote, now).result.value, imageId, tagId)
        == VotedSummary(db, userId, imageId, tagId, isUpvote, now)
    ensures CreateOrUpdateVote(db, userId, imageId, tagId, isUpvote, now).result.Ok? ==>
      GetVoteSummary(CreateOrUpdateVote(db, userId, imageId, tagId, isUpvote, now).result.value, imageId, tagId)
        == VotedSummary(db, userId, imageId, tagId, isUpvote, now)
    ensures CreateOrIncrementVote(db, userId, imageId, tagId, isUpvote, now).result.Ok? ==>
      GetVoteSummary(CreateOrIncrementVote(db, userId, imageId, tagId, isUpvote, now).result.value, imageId, tagId)
        == VotedSummary(db, userId, imageId, tagId, isUpvote, now)
  {
    var step := RecordOnSummary(db, userId, imageId, tagId, isUpvote, now);
    var existing := GetVoteSummary(db, imageId, tagId);
    var key := SummaryKeyIs(imageId, tagId);
    if step.result.Ok? {
      if existing.IsZero() {
        FirstAppend(db.summaries, FirstVote(imageId, tagId, userId, now, isUpvote), key, ZeroSummary);
      } else {
        assert Any(db.summaries, key);
        var s := AddVote(existing, userId, now, isUpvote);
        FirstRewrite(db.summaries, key, ReplaceSummary(s), ZeroSummary);
      }
    }
  }

  /** A vote row of the link in the given direction, cast by the user. */
  function KeyAndDirection(userId: int, imageId: int, tagId: int, isUpvote: bool): Vote -> bool {
    (w: Vote) => VoteKeyIs(userId, imageId, tagId)(w) && w.isUpvote == isUpvote
  }

  /** Removing the user's rows from the link lowers its count in each direction by the user's rows in that direction. */
  lemma CountsAfterDelete(votes: seq<Vote>, userId: int, imageId: int, tagId: int, isUpvote: bool)
    ensures Count(Filter(votes, Not(VoteKeyIs(userId, imageId, tagId))), VoteOn(imageId, tagId, isUpvote))
         == Count(votes, VoteOn(imageId, tagId, isUpvote)) - Count(votes, KeyAndDirection(userId, imageId, tagId, isUpvote))
  {
    CountFilter(votes, Not(VoteKeyIs(userId, imageId, tagId)), VoteOn(imageId, tagId, isUpvote),
                KeyAndDirection(userId, imageId, tagId, isUpvote));
  }

  /** A repeat vote by the same user in the manager.go version breaks the
      agreement: the summary gains a vote while the link's rows only trade the
      user's old row for the new one. */
  lemma RepeatVoteBreaksAgreement(db: Db, userId: int, imageId: int, tagId: int, isUpvote: bool, now: int)
    requires Agreement(db)
    requires HasVote(db, userId, imageId, tagId)
    requires CreateOrUpdateVote(db, userId, imageId, tagId, isUpvote, now).result.Ok?
    ensures !Agreement(CreateOrUpdateVote(db, userId, imageId, tagId, isUpvote, now).result.value)
  {
    var fin := CreateOrUpdateVote(db, userId, imageId, tagId, isUpvote, now).result.value;
    var v := Vote(userId, imageId, tagId, now, isUpvote);
    var j := FindIndex(db.votes, VoteKeyIs(userId, imageId, tagId)).value;
    assert HasSummary(db, db.votes[j].imageId, db.votes[j].tagId);
    var k := FindIndex(db.summaries, SummaryKeyIs(imageId, tagId)).value;
    var existing := db.summaries[k];
    assert existing == GetVoteSummary(db, imageId, tagId);
    assert SummaryAgrees(db, existing);
    assert !existing.IsZero();
    var db1 := RecordOnSummary(db, userId, imageId, tagId, isUpvote, now).result.value;
    assert fin.summaries == db1.summaries;
    assert fin.summaries[k] == AddVote(existing, userId, now, isUpvote);
    var kept := Filter(db.votes, Not(VoteKeyIs(userId, imageId, tagId)));
    assert fin.votes == kept + [v];
    CountsAfterAppend(kept, v, imageId, tagId, true);
    CountsAfterAppend(kept, v, imageId, tagId, false);
    CountsAfterDelete(db.votes, userId, imageId, tagId, true);
    CountsAfterDelete(db.votes, userId, imageId, tagId, false);
    var up := Count(db.votes, KeyAndDirection(userId, imageId, tagId, true));
    var down := Count(db.votes, KeyAndDirection(userId, imageId, tagId, false));
    assert up > 0 || down > 0 by {
      assert KeyAndDirection(userId, imageId, tagId, db.votes[j].isUpvote)(db.votes[j]);
    }
    assert !SummaryAgrees(fin, fin.summaries[k]);
  }

  /** Every version of the vote keeps the table constraints: in particular at most one vote row per key. */
  lemma VoteKeepsWf(db: Db, userId: int, imageId: int, tagId: int, isUpvote: bool, now: int)
    requires Wf(db)
    ensures CreateOrUpdateVote(db, userId, imageId, tagId, isUpvote, now).result.Ok? ==>
      Wf(CreateOrUpdateVote(db, userId, imageId, tagId, isUpvote, now).result.value)
    ensures CreateOrIncrementVote(db, userId, imageId, tagId, isUpvote, now).result.Ok? ==>
      Wf(CreateOrIncrementVote(db, userId, imageId, tagId, isUpvote, now).result.value)
  {
    var step := RecordOnSummary(db, userId, imageId, tagId, isUpvote, now);
    var v := Vote(userId, imageId, tagId, now, isUpvote);
    if step.result.Ok? {
      var existing := GetVoteSummary(db, imageId, tagId);
      if existing.IsZero() {
        InsertSummaryKeepsWf(db, FirstVote(imageId, tagId, userId, now, isUpvote));
      } else {
        UpdateSummaryKeepsWf(db, AddVote(existing, userId, now, isUpvote));
      }
      var db1 := step.result.value;
      var db2 := DeleteVote(db1, userId, imageId, tagId);
      DeleteVoteKeepsWf(db1, userId, imageId, tagId);
      if InsertVote(db2, v).Ok? {
        InsertVoteKeepsWf(db2, v);
      }
      if InsertVote(db1, v).Ok? {
        InsertVoteKeepsWf(db1, v);
      }
    }
  }
}
