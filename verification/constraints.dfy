/** Every single-table statement of the ledger that succeeds keeps the
    constraints of database/initialize/initialize.go that `Wf` carries: the
    primary keys, tag's unique uuid and value, the foreign keys of links and
    votes, the width of a tag's value, and positive serial ids. */
module Constraints {
  import opened Wrappers
  import opened GoStrings
  import opened Rows
  import opened Ledger

  /** A tag id still resolves after the tag table is filtered by a condition the tag meets. */
  lemma TagKept(db: Db, tags: seq<Tag>, keep: Tag -> bool, tagId: int)
    requires HasTag(db, tagId) && tags == Filter(db.tags, keep)
    requires forall j :: 0 <= j < |db.tags| && db.tags[j].id == tagId ==> keep(db.tags[j])
    ensures Any(tags, TagIdIs(tagId))
  {
    AnyFilter(db.tags, keep, TagIdIs(tagId));
  }

  lemma InsertSummaryKeepsWf(db: Db, s: VoteSummary)
    requires Wf(db) && InsertSummary(db, s).Ok?
    ensures Wf(InsertSummary(db, s).value)
  {
    var r := InsertSummary(db, s).value;
    assert forall j :: 0 <= j < |db.summaries| ==> !SummaryKeyIs(s.imageId, s.tagId)(db.summaries[j]);
    AppendPairwise(db.summaries, s, SummaryKeysDiffer);
    assert KeysUnique(r);
    forall j | 0 <= j < |r.summaries|
      ensures HasImage(r, r.summaries[j].imageId) && HasTag(r, r.summaries[j].tagId)
    {
      if j < |db.summaries| {
        assert r.summaries[j] == db.summaries[j];
      }
    }
  }

  lemma UpdateSummaryKeepsWf(db: Db, s: VoteSummary)
    requires Wf(db)
    ensures Wf(UpdateSummary(db, s))
  {
    RewritePairwise(db.summaries, SummaryKeyIs(s.imageId, s.tagId), ReplaceSummary(s), SummaryKeysDiffer);
  }

  lemma SetVoteSummaryVoteCountsKeepsWf(db: Db, imageId: int, tagId: int, votesFor: int, votesAgainst: int)
    requires Wf(db)
    ensures Wf(SetVoteSummaryVoteCounts(db, imageId, tagId, votesFor, votesAgainst))
  {
    RewritePairwise(db.summaries, SummaryKeyIs(imageId, tagId), WithCounts(votesFor, votesAgainst), SummaryKeysDiffer);
  }

  lemma DeleteVoteSummaryKeepsWf(db: Db, imageId: int, tagId: int)
    requires Wf(db)
    ensures Wf(DeleteVoteSummary(db, imageId, tagId))
  {
    var summaries := Filter(db.summaries, Not(SummaryKeyIs(imageId, tagId)));
    FilterPairwise(db.summaries, Not(SummaryKeyIs(imageId, tagId)), SummaryKeysDiffer);
    SomeSummariesResolve(db, summaries);
  }

  lemma InsertVoteKeepsWf(db: Db, v: Vote)
    requires Wf(db) && InsertVote(db, v).Ok?
    ensures Wf(InsertVote(db, v).value)
  {
    var r := InsertVote(db, v).value;
    assert r == db.(votes := db.votes + [v]);
    assert IdsPositive(r);
    assert KeysUnique(r) by {
      assert forall j :: 0 <= j < |db.votes| ==> !VoteKeyIs(v.userId, v.imageId, v.tagId)(db.votes[j]);
      AppendPairwise(db.votes, v, VoteKeysDiffer);
    }
    forall j | 0 <= j < |r.votes|
      ensures HasUser(r, r.votes[j].userId) && HasImage(r, r.votes[j].imageId) && HasTag(r, r.votes[j].tagId)
    {
      if j < |db.votes| {
        assert r.votes[j] == db.votes[j];
      }
    }
  }

  lemma DeleteVoteKeepsWf(db: Db, userId: int, imageId: int, tagId: int)
    requires Wf(db)
    ensures Wf(DeleteVote(db, userId, imageId, tagId))
  {
    var votes := Filter(db.votes, Not(VoteKeyIs(userId, imageId, tagId)));
    FilterPairwise(db.votes, Not(VoteKeyIs(userId, imageId, tagId)), VoteKeysDiffer);
    SomeVotesResolve(db, votes);
  }

  /** Moving the rows of one link to a tag the image has no link with keeps link keys unique. */
  lemma RetagSummariesUnique(ss: seq<VoteSummary>, imageId: int, oldTagId: int, newTagId: int)
    requires Pairwise(ss, SummaryKeysDiffer)
    requires !Any(ss, SummaryKeyIs(imageId, newTagId))
    ensures Pairwise(Rewrite(ss, SummaryKeyIs(imageId, oldTagId), WithTag(newTagId)), SummaryKeysDiffer)
  {
    var r := Rewrite(ss, SummaryKeyIs(imageId, oldTagId), WithTag(newTagId));
    assert forall j :: 0 <= j < |ss| ==> !SummaryKeyIs(imageId, newTagId)(ss[j]);
    forall j, k | 0 <= j < k < |r| ensures SummaryKeysDiffer(r[j], r[k]) {
      assert SummaryKeysDiffer(ss[j], ss[k]);
    }
  }

  lemma SetVoteSummaryTagIDKeepsWf(db: Db, imageId: int, oldTagId: int, newTagId: int)
    requires Wf(db) && SetVoteSummaryTagID(db, imageId, oldTagId, newTagId).Ok?
    ensures Wf(SetVoteSummaryTagID(db, imageId, oldTagId, newTagId).value)
  {
    if HasSummary(db, imageId, oldTagId) && oldTagId != newTagId {
      var summaries := Rewrite(db.summaries, SummaryKeyIs(imageId, oldTagId), WithTag(newTagId));
      assert SetVoteSummaryTagID(db, imageId, oldTagId, newTagId).value == db.(summaries := summaries);
      RetagSummariesUnique(db.summaries, imageId, oldTagId, newTagId);
      RetagSummariesResolve(db, summaries, newTagId);
    }
  }

  /** Summary rows that are those of the table, some moved to an existing tag, still resolve. */
  lemma RetagSummariesResolve(db: Db, summaries: seq<VoteSummary>, newTagId: int)
    requires ForeignKeysHold(db) && HasTag(db, newTagId) && |summaries| == |db.summaries|
    requires forall j :: 0 <= j < |summaries| ==>
      summaries[j] == db.summaries[j] || summaries[j] == db.summaries[j].(tagId := newTagId)
    ensures ForeignKeysHold(db.(summaries := summaries))
  {
    var r := db.(summaries := summaries);
    forall j | 0 <= j < |summaries|
      ensures HasImage(r, summaries[j].imageId) && HasTag(r, summaries[j].tagId)
    {
      assert HasImage(db, db.summaries[j].imageId) && HasTag(db, db.summaries[j].tagId);
    }
  }

  /** Moving a user's vote to a tag they have no vote on for the image keeps vote keys unique. */
  lemma RetagVotesUnique(vs: seq<Vote>, userId: int, imageId: int, oldTagId: int, newTagId: int)
    requires Pairwise(vs, VoteKeysDiffer)
    requires !Any(vs, VoteKeyIs(userId, imageId, newTagId))
    ensures Pairwise(Rewrite(vs, VoteKeyIs(userId, imageId, oldTagId), WithVoteTag(newTagId)), VoteKeysDiffer)
  {
    var r := Rewrite(vs, VoteKeyIs(userId, imageId, oldTagId), WithVoteTag(newTagId));
    assert forall j :: 0 <= j < |vs| ==> !VoteKeyIs(userId, imageId, newTagId)(vs[j]);
    forall j, k | 0 <= j < k < |r| ensures VoteKeysDiffer(r[j], r[k]) {
      assert VoteKeysDiffer(vs[j], vs[k]);
    }
  }

  lemma SetVoteTagIDKeepsWf(db: Db, userId: int, imageId: int, oldTagId: int, newTagId: int)
    requires Wf(db) && SetVoteTagID(db, userId, imageId, oldTagId, newTagId).Ok?
    ensures Wf(SetVoteTagID(db, userId, imageId, oldTagId, newTagId).value)
  {
    if HasVote(db, userId, imageId, oldTagId) && oldTagId != newTagId {
      var votes := Rewrite(db.votes, VoteKeyIs(userId, imageId, oldTagId), WithVoteTag(newTagId));
      assert SetVoteTagID(db, userId, imageId, oldTagId, newTagId).value == db.(votes := votes);
      RetagVotesUnique(db.votes, userId, imageId, oldTagId, newTagId);
      RetagVotesResolve(db, votes, newTagId);
    }
  }

  /** Vote rows that are those of the table, some moved to an existing tag, still resolve. */
  lemma RetagVotesResolve(db: Db, votes: seq<Vote>, newTagId: int)
    requires ForeignKeysHold(db) && HasTag(db, newTagId) && |votes| == |db.votes|
    requires forall j :: 0 <= j < |votes| ==> votes[j] == db.votes[j] || votes[j] == db.votes[j].(tagId := newTagId)
    ensures ForeignKeysHold(db.(votes := votes))
  {
    var r := db.(votes := votes);
    forall j | 0 <= j < |votes|
      ensures HasUser(r, votes[j].userId) && HasImage(r, votes[j].imageId) && HasTag(r, votes[j].tagId)
    {
      assert HasUser(db, db.votes[j].userId) && HasImage(db, db.votes[j].imageId) && HasTag(db, db.votes[j].tagId);
    }
  }

  /** Some of the table's vote rows, in any order, still resolve. */
  lemma SomeVotesResolve(db: Db, votes: seq<Vote>)
    requires ForeignKeysHold(db)
    requires forall j :: 0 <= j < |votes| ==> votes[j] in db.votes
    ensures ForeignKeysHold(db.(votes := votes))
  {
    var r := db.(votes := votes);
    forall j | 0 <= j < |votes|
      ensures HasUser(r, votes[j].userId) && HasImage(r, votes[j].imageId) && HasTag(r, votes[j].tagId)
    {
      var m :| 0 <= m < |db.votes| && db.votes[m] == votes[j];
    }
  }

  /** Some of the table's summary rows, in any order, still resolve. */
  lemma SomeSummariesResolve(db: Db, summaries: seq<VoteSummary>)
    requires ForeignKeysHold(db)
    requires forall j :: 0 <= j < |summaries| ==> summaries[j] in db.summaries
    ensures ForeignKeysHold(db.(summaries := summaries))
  {
    var r := db.(summaries := summaries);
    forall j | 0 <= j < |summaries|
      ensures HasImage(r, summaries[j].imageId) && HasTag(r, summaries[j].tagId)
    {
      var m :| 0 <= m < |db.summaries| && db.summaries[m] == summaries[j];
    }
  }

  lemma DeleteTagByIDKeepsWf(db: Db, tagId: int)
    requires Wf(db) && DeleteTagByID(db, tagId).Ok?
    ensures Wf(DeleteTagByID(db, tagId).value)
  {
    var r := DeleteTagByID(db, tagId).value;
    var keep := Not(TagIdIs(tagId));
    FilterPairwise(db.tags, keep, TagsDiffer);
    forall j | 0 <= j < |r.tags| ensures r.tags[j].id > 0 {
      var m :| 0 <= m < |db.tags| && db.tags[m] == r.tags[j];
    }
    forall j | 0 <= j < |r.summaries| ensures HasTag(r, r.summaries[j].tagId) {
      var x := r.summaries[j].tagId;
      assert HasTag(db, x);
      assert SummaryTagIs(x)(r.summaries[j]);
      TagKept(db, r.tags, keep, x);
    }
    forall j | 0 <= j < |r.votes| ensures HasTag(r, r.votes[j].tagId) {
      var x := r.votes[j].tagId;
      assert HasTag(db, x);
      assert VoteTagIs(x)(r.votes[j]);
      TagKept(db, r.tags, keep, x);
    }
  }

  lemma DeleteImageRowKeepsWf(db: Db, imageId: int)
    requires Wf(db) && DeleteImageRow(db, imageId).Ok?
    ensures Wf(DeleteImageRow(db, imageId).value)
  {
    var r := DeleteImageRow(db, imageId).value;
    var keep := Not(ImageIdIs(imageId));
    FilterPairwise(db.images, keep, ImageIdsDiffer);
    forall j | 0 <= j < |r.images| ensures r.images[j].id > 0 {
      var m :| 0 <= m < |db.images| && db.images[m] == r.images[j];
    }
    forall j | 0 <= j < |r.summaries| ensures HasImage(r, r.summaries[j].imageId) {
      var x := r.summaries[j].imageId;
      assert HasImage(db, x);
      AnyFilter(db.images, keep, ImageIdIs(x));
    }
    forall j | 0 <= j < |r.votes| ensures HasImage(r, r.votes[j].imageId) {
      var x := r.votes[j].imageId;
      assert HasImage(db, x);
      AnyFilter(db.images, keep, ImageIdIs(x));
    }
  }

  /** Rewriting tags without changing ids keeps every tag id resolving. */
  lemma TagIdsKept(db: Db, tags: seq<Tag>, tagId: int)
    requires |tags| == |db.tags| && forall j :: 0 <= j < |tags| ==> tags[j].id == db.tags[j].id
    requires HasTag(db, tagId)
    ensures Any(tags, TagIdIs(tagId))
  {
    AnyWitness(tags, TagIdIs(tagId), FindIndex(db.tags, TagIdIs(tagId)).value);
  }

  /** Renaming a tag to a value no other tag holds keeps ids, uuids and values unique. */
  lemma RenameTagUnique(tags: seq<Tag>, tagId: int, value: String)
    requires Pairwise(tags, TagsDiffer)
    requires !Any(tags, OtherTagWithValue(tagId, value))
    ensures Pairwise(Rewrite(tags, TagIdIs(tagId), WithValue(value)), TagsDiffer)
  {
    var r := Rewrite(tags, TagIdIs(tagId), WithValue(value));
    assert forall j :: 0 <= j < |tags| ==> !OtherTagWithValue(tagId, value)(tags[j]);
    forall j, k | 0 <= j < k < |r| ensures TagsDiffer(r[j], r[k]) {
      assert TagsDiffer(tags[j], tags[k]);
    }
  }

  /** Replacing the tag rows by rows with the same ids, in the same places, keeps the positive ids and foreign keys. */
  lemma SameTagIdsKeepReferences(db: Db, tags: seq<Tag>)
    requires ForeignKeysHold(db) && IdsPositive(db)
    requires |tags| == |db.tags| && forall j :: 0 <= j < |tags| ==> tags[j].id == db.tags[j].id
    ensures ForeignKeysHold(db.(tags := tags)) && IdsPositive(db.(tags := tags))
  {
    var r := db.(tags := tags);
    forall j | 0 <= j < |r.summaries| ensures HasTag(r, r.summaries[j].tagId) {
      TagIdsKept(db, r.tags, r.summaries[j].tagId);
    }
    forall j | 0 <= j < |r.votes| ensures HasTag(r, r.votes[j].tagId) {
      TagIdsKept(db, r.tags, r.votes[j].tagId);
    }
  }

  lemma SetTagValueKeepsWf(db: Db, tagId: int, value: String)
    requires Wf(db) && SetTagValue(db, tagId, value).Ok?
    ensures Wf(SetTagValue(db, tagId, value).value)
  {
    var tags := Rewrite(db.tags, TagIdIs(tagId), WithValue(value));
    assert SetTagValue(db, tagId, value).value == db.(tags := tags);
    if HasTag(db, tagId) {
      RenameTagUnique(db.tags, tagId, value);
    } else {
      RewriteNone(db.tags, TagIdIs(tagId), WithValue(value));
    }
    SameTagIdsKeepReferences(db, tags);
  }

  lemma InsertTagKeepsWf(db: Db, t: Tag)
    requires Wf(db) && InsertTag(db, t).Ok? && t.id > 0
    ensures Wf(InsertTag(db, t).value)
  {
    var r := InsertTag(db, t).value;
    assert forall j :: 0 <= j < |db.tags| ==>
      !TagIdIs(t.id)(db.tags[j]) && !TagUuidIs(t.uuid)(db.tags[j]) && !TagValueIs(t.value)(db.tags[j]);
    AppendPairwise(db.tags, t, TagsDiffer);
    forall x | HasTag(db, x) ensures HasTag(r, x) {
      AnyWitness(r.tags, TagIdIs(x), FindIndex(db.tags, TagIdIs(x)).value);
    }
  }
}
