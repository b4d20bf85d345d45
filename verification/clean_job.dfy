/** The hourly `clean_tag_values` job of server/jobs/clean_tag_values.go:
    every tag whose value is not already clean is renamed to its cleaned
    value, or, when a tag with that value exists, merged into it. */
module CleanJob {
  import opened Wrappers
  import opened GoStrings
  import opened Rows
  import opened Ilike
  import opened Ledger
  import opened Constraints
  import opened Merge
  import opened TagValues

  /** How the job finds the tag that already carries the cleaned value. */
  datatype Lookup =
    | FirstMatch  // `GetTagByValue`: the first tag whose value is ilike the cleaned value, possibly the tag itself
    | OtherMatch  // the first such tag other than the one being cleaned

  function OtherTagLike(tagId: int, pattern: String): Tag -> bool {
    (t: Tag) => t.id != tagId && Like(t.value, pattern)
  }

  /** The existing tag for the cleaned value, or the zero tag. */
  function ExistingTag(db: Db, t: Tag, clean: String, lookup: Lookup): (r: Result<Tag, DbError>)
    ensures r.Err? <==> !ValidLikePattern(clean)
    ensures r.Ok? && !r.value.IsZero() ==> r.value in db.tags && Like(r.value.value, clean)
    ensures r.Ok? && !r.value.IsZero() && lookup == OtherMatch ==> r.value.id != t.id
    ensures r.Ok? && r.value.IsZero() && IdsPositive(db) ==>
      forall j :: 0 <= j < |db.tags| && (lookup == FirstMatch || db.tags[j].id != t.id) ==> !Like(db.tags[j].value, clean)
  {
    if !ValidLikePattern(clean) then Err(InvalidPattern)
    else match lookup
      case FirstMatch => TagByValue(db, clean)
      case OtherMatch => Ok(First(db.tags, OtherTagLike(t.id, clean), ZeroTag))
  }

  /** One iteration of the job's loop. */
  function CleanStep(db: Db, t: Tag, lookup: Lookup): (r: Result<Db, DbError>)
  {
    var clean := CleanTagValue(t.value);
    if clean == t.value then Ok(db)
    else
      var existing :- ExistingTag(db, t, clean, lookup);
      if existing.IsZero() then SetTagValue(db, t.id, clean)
      else MergeTags(db, t.id, existing.id)
  }

  /** The loop over the tags as read before it starts. */
  function CleanTags(db: Db, ts: seq<Tag>, lookup: Lookup): (r: Result<Db, DbError>)
    decreases |ts|
  {
    if |ts| == 0 then Ok(db)
    else
      var db1 :- CleanStep(db, ts[0], lookup);
      CleanTags(db1, ts[1..], lookup)
  }

  /** `ExecuteInTx`: read every tag, then clean each one in turn. */
  function ExecuteInTx(db: Db, lookup: Lookup): (r: Result<Db, DbError>)
  {
    CleanTags(db, db.tags, lookup)
  }

  // ---------------------------------------------------------------------
  // What one step does
  // ---------------------------------------------------------------------

  /** Every row with the tag's id carries the cleaned value. */
  predicate Cleaned(tags: seq<Tag>, t: Tag) {
    forall m :: 0 <= m < |tags| && tags[m].id == t.id ==> tags[m].value == CleanTagValue(t.value)
  }

  predicate IdOutside(ts: seq<Tag>, id: int) {
    forall j :: 0 <= j < |ts| ==> ts[j].id != id
  }

  predicate IdsDistinct(ts: seq<Tag>) {
    forall j, k :: 0 <= j < k < |ts| ==> ts[j].id != ts[k].id
  }

  /** The rows of tags other than `id` are the same before and after. */
  predicate OthersKept(before: seq<Tag>, after: seq<Tag>, id: int) {
    (forall m :: 0 <= m < |after| && after[m].id != id ==> after[m] in before)
    && (forall m :: 0 <= m < |before| && before[m].id != id ==> before[m] in after)
  }

  /** A tag is renamed when no tag matches its cleaned value. */
  lemma RenameStep(db: Db, t: Tag, lookup: Lookup)
    requires Wf(db) && t in db.tags && CleanTagValue(t.value) != t.value
    requires ExistingTag(db, t, CleanTagValue(t.value), lookup).Ok?
    requires ExistingTag(db, t, CleanTagValue(t.value), lookup).value.IsZero()
    ensures CleanStep(db, t, lookup) == SetTagValue(db, t.id, CleanTagValue(t.value))
    ensures CleanStep(db, t, lookup).Ok?
    ensures Wf(CleanStep(db, t, lookup).value)
    ensures Cleaned(CleanStep(db, t, lookup).value.tags, t)
    ensures OthersKept(db.tags, CleanStep(db, t, lookup).value.tags, t.id)
  {
    var clean := CleanTagValue(t.value);
    assert CleanStep(db, t, lookup) == SetTagValue(db, t.id, clean);
    assert |clean| <= TagValueMaxLength by {
      var j :| 0 <= j < |db.tags| && db.tags[j] == t;
    }
    NoOtherTagWithValue(db, t, lookup);
    SetTagValueKeepsWf(db, t.id, clean);
    RenamedRows(db, t.id, clean);
  }

  /** When the lookup finds nothing, no other tag carries the cleaned value
      exactly, so renaming cannot violate the unique tag_value. */
  lemma NoOtherTagWithValue(db: Db, t: Tag, lookup: Lookup)
    requires IdsPositive(db)
    requires ExistingTag(db, t, CleanTagValue(t.value), lookup).Ok?
    requires ExistingTag(db, t, CleanTagValue(t.value), lookup).value.IsZero()
    ensures !Any(db.tags, OtherTagWithValue(t.id, CleanTagValue(t.value)))
  {
    var clean := CleanTagValue(t.value);
    forall j | 0 <= j < |db.tags| && OtherTagWithValue(t.id, clean)(db.tags[j]) ensures false {
      CleanValueIsPlain(t.value, clean);
    }
  }

  /** Renaming a tag gives its rows the new value and keeps every other row. */
  lemma RenamedRows(db: Db, tagId: int, value: String)
    requires SetTagValue(db, tagId, value).Ok?
    ensures forall m :: 0 <= m < |SetTagValue(db, tagId, value).value.tags| && SetTagValue(db, tagId, value).value.tags[m].id == tagId ==>
      SetTagValue(db, tagId, value).value.tags[m].value == value
    ensures OthersKept(db.tags, SetTagValue(db, tagId, value).value.tags, tagId)
  {
    var after := SetTagValue(db, tagId, value).value.tags;
    assert forall m :: 0 <= m < |db.tags| && db.tags[m].id != tagId ==> after[m] == db.tags[m];
  }

  /** A tag is merged into the tag that matches its cleaned value. */
  lemma MergeStep(db: Db, t: Tag, lookup: Lookup)
    requires Wf(db) && CleanTagValue(t.value) != t.value
    requires ExistingTag(db, t, CleanTagValue(t.value), lookup).Ok?
    requires !ExistingTag(db, t, CleanTagValue(t.value), lookup).value.IsZero()
    ensures CleanStep(db, t, lookup) == MergeTags(db, t.id, ExistingTag(db, t, CleanTagValue(t.value), lookup).value.id)
    ensures CleanStep(db, t, lookup).Ok?
    ensures Wf(CleanStep(db, t, lookup).value)
    ensures Cleaned(CleanStep(db, t, lookup).value.tags, t)
    ensures OthersKept(db.tags, CleanStep(db, t, lookup).value.tags, t.id)
  {
    var existing := ExistingTag(db, t, CleanTagValue(t.value), lookup).value;
    var k :| 0 <= k < |db.tags| && db.tags[k] == existing;
    AnyWitness(db.tags, TagIdIs(existing.id), k);
    MergeTagsClears(db, t.id, existing.id);
  }

  /** A tag whose value is already clean is not touched. */
  lemma UntouchedStep(db: Db, t: Tag, lookup: Lookup)
    requires Wf(db) && t in db.tags && CleanTagValue(t.value) == t.value
    ensures CleanStep(db, t, lookup) == Ok(db)
    ensures Cleaned(db.tags, t) && OthersKept(db.tags, db.tags, t.id)
  {
    forall m | 0 <= m < |db.tags| && db.tags[m].id == t.id ensures db.tags[m] == t {
      var n :| 0 <= n < |db.tags| && db.tags[n] == t;
      assert TagsDiffer(db.tags[n], db.tags[m]) || TagsDiffer(db.tags[m], db.tags[n]) || n == m;
    }
  }

  /** On a well-formed database one step succeeds, keeps the constraints,
      leaves the tag either gone or carrying its cleaned value, and keeps
      every other tag's row as it was; a tag whose value is already clean is
      not touched. */
  lemma CleanStepFacts(db: Db, t: Tag, lookup: Lookup)
    requires Wf(db) && t in db.tags
    ensures CleanStep(db, t, lookup).Ok?
    ensures Wf(CleanStep(db, t, lookup).value)
    ensures Cleaned(CleanStep(db, t, lookup).value.tags, t)
    ensures OthersKept(db.tags, CleanStep(db, t, lookup).value.tags, t.id)
    ensures CleanTagValue(t.value) == t.value ==> CleanStep(db, t, lookup) == Ok(db)
  {
    var clean := CleanTagValue(t.value);
    CleanValueIsPlain(t.value, clean);
    if clean == t.value {
      UntouchedStep(db, t, lookup);
    } else if ExistingTag(db, t, clean, lookup).value.IsZero() {
      RenameStep(db, t, lookup);
    } else {
      MergeStep(db, t, lookup);
    }
  }

  // ---------------------------------------------------------------------
  // The whole job
  // ---------------------------------------------------------------------

  /** The rows of tags whose id is not among `ts` are the same before and after. */
  predicate KeptOutside(before: seq<Tag>, after: seq<Tag>, ts: seq<Tag>) {
    (forall m :: 0 <= m < |after| && IdOutside(ts, after[m].id) ==> after[m] in before)
    && (forall m :: 0 <= m < |before| && IdOutside(ts, before[m].id) ==> before[m] in after)
  }

  lemma FramesCompose(ts: seq<Tag>, tags0: seq<Tag>, tags1: seq<Tag>, tags2: seq<Tag>)
    requires |ts| > 0
    requires OthersKept(tags0, tags1, ts[0].id) && KeptOutside(tags1, tags2, ts[1..])
    ensures KeptOutside(tags0, tags2, ts)
  {
    forall m | 0 <= m < |tags2| && IdOutside(ts, tags2[m].id) ensures tags2[m] in tags0 {
      assert IdOutside(ts[1..], tags2[m].id) && tags2[m].id != ts[0].id;
      var n :| 0 <= n < |tags1| && tags1[n] == tags2[m];
    }
    forall m | 0 <= m < |tags0| && IdOutside(ts, tags0[m].id) ensures tags0[m] in tags2 {
      assert tags0[m].id != ts[0].id;
      var n :| 0 <= n < |tags1| && tags1[n] == tags0[m];
      assert IdOutside(ts[1..], tags1[n].id);
    }
  }

  lemma CleanedCarries(ts: seq<Tag>, tags1: seq<Tag>, tags2: seq<Tag>)
    requires |ts| > 0 && IdOutside(ts[1..], ts[0].id)
    requires Cleaned(tags1, ts[0]) && KeptOutside(tags1, tags2, ts[1..])
    ensures Cleaned(tags2, ts[0])
  {
    forall m | 0 <= m < |tags2| && tags2[m].id == ts[0].id ensures tags2[m].value == CleanTagValue(ts[0].value) {
      var n :| 0 <= n < |tags1| && tags1[n] == tags2[m];
    }
  }

  lemma SurvivorCarries(ts: seq<Tag>, tags1: seq<Tag>, tags2: seq<Tag>)
    requires |ts| > 0 && IdOutside(ts[1..], ts[0].id)
    requires ts[0] in tags1 && KeptOutside(tags1, tags2, ts[1..])
    ensures ts[0] in tags2
  {
    var n :| 0 <= n < |tags1| && tags1[n] == ts[0];
  }

  /** The loop succeeds and keeps the constraints; each visited tag ends up
      gone or carrying its cleaned value, a visited tag whose value was
      already clean survives as it was, and the rows of the tags the loop
      does not visit are left alone. */
  lemma {:induction false} CleanTagsFacts(db: Db, ts: seq<Tag>, lookup: Lookup)
    requires Wf(db) && IdsDistinct(ts)
    requires forall j :: 0 <= j < |ts| ==> ts[j] in db.tags
    ensures CleanTags(db, ts, lookup).Ok?
    ensures Wf(CleanTags(db, ts, lookup).value)
    ensures forall j :: 0 <= j < |ts| ==> Cleaned(CleanTags(db, ts, lookup).value.tags, ts[j])
    ensures forall j :: 0 <= j < |ts| && CleanTagValue(ts[j].value) == ts[j].value ==>
      ts[j] in CleanTags(db, ts, lookup).value.tags
    ensures KeptOutside(db.tags, CleanTags(db, ts, lookup).value.tags, ts)
    decreases |ts|
  {
    if |ts| > 0 {
      var t := ts[0];
      var rest := ts[1..];
      CleanStepFacts(db, t, lookup);
      var db1 := CleanStep(db, t, lookup).value;
      RestStillThere(ts, db.tags, db1.tags);
      CleanTagsFacts(db1, rest, lookup);
      var r := CleanTags(db1, rest, lookup).value;
      assert CleanTags(db, ts, lookup) == CleanTags(db1, rest, lookup);
      assert CleanTagValue(t.value) == t.value ==> t in db1.tags;
      LoopCombine(ts, db.tags, db1.tags, r.tags);
    }
  }

  /** The tags the loop has still to visit are untouched by the current step. */
  lemma RestStillThere(ts: seq<Tag>, tags0: seq<Tag>, tags1: seq<Tag>)
    requires |ts| > 0 && IdsDistinct(ts)
    requires forall j :: 0 <= j < |ts| ==> ts[j] in tags0
    requires OthersKept(tags0, tags1, ts[0].id)
    ensures IdsDistinct(ts[1..])
    ensures forall j :: 0 <= j < |ts[1..]| ==> ts[1..][j] in tags1
  {
    forall j | 0 <= j < |ts[1..]| ensures ts[1..][j] in tags1 {
      assert ts[1..][j] == ts[j + 1] && ts[j + 1].id != ts[0].id;
      assert ts[j + 1] in tags0;
    }
  }

  /** The facts of one step and of the rest of the loop give the facts of the whole loop. */
  lemma LoopCombine(ts: seq<Tag>, tags0: seq<Tag>, tags1: seq<Tag>, tags2: seq<Tag>)
    requires |ts| > 0 && IdsDistinct(ts)
    requires Cleaned(tags1, ts[0]) && OthersKept(tags0, tags1, ts[0].id)
    requires CleanTagValue(ts[0].value) == ts[0].value ==> ts[0] in tags1
    requires forall j :: 0 <= j < |ts[1..]| ==> Cleaned(tags2, ts[1..][j])
    requires forall j :: 0 <= j < |ts[1..]| && CleanTagValue(ts[1..][j].value) == ts[1..][j].value ==> ts[1..][j] in tags2
    requires KeptOutside(tags1, tags2, ts[1..])
    ensures forall j :: 0 <= j < |ts| ==> Cleaned(tags2, ts[j])
    ensures forall j :: 0 <= j < |ts| && CleanTagValue(ts[j].value) == ts[j].value ==> ts[j] in tags2
    ensures KeptOutside(tags0, tags2, ts)
  {
    var rest := ts[1..];
    assert IdOutside(rest, ts[0].id);
    FramesCompose(ts, tags0, tags1, tags2);
    CleanedCarries(ts, tags1, tags2);
    forall j | 0 <= j < |ts| ensures Cleaned(tags2, ts[j]) {
      if j > 0 {
        assert rest[j - 1] == ts[j];
      }
    }
    forall j | 0 <= j < |ts| && CleanTagValue(ts[j].value) == ts[j].value ensures ts[j] in tags2 {
      if j == 0 {
        SurvivorCarries(ts, tags1, tags2);
      } else {
        assert rest[j - 1] == ts[j];
      }
    }
  }

  /** On a well-formed database the job succeeds and keeps the constraints;
      afterwards every tag carries the cleaned value of the tag with its id
      as the job read it, and every tag whose value was already clean is
      still there. */
  lemma ExecuteInTxCleans(db: Db, lookup: Lookup)
    requires Wf(db)
    ensures ExecuteInTx(db, lookup).Ok?
    ensures Wf(ExecuteInTx(db, lookup).value)
    ensures forall m :: 0 <= m < |ExecuteInTx(db, lookup).value.tags| ==>
      CleanedFrom(db.tags, ExecuteInTx(db, lookup).value.tags[m])
    ensures forall j :: 0 <= j < |db.tags| && CleanTagValue(db.tags[j].value) == db.tags[j].value ==>
      db.tags[j] in ExecuteInTx(db, lookup).value.tags
  {
    TagIdsDistinct(db);
    CleanTagsFacts(db, db.tags, lookup);
    var r := ExecuteInTx(db, lookup).value;
    EveryRowCleaned(db.tags, r.tags);
  }

  /** `row` carries the cleaned value of the tag in `ts` with its id. */
  predicate CleanedFrom(ts: seq<Tag>, row: Tag) {
    exists j :: 0 <= j < |ts| && ts[j].id == row.id && row.value == CleanTagValue(ts[j].value)
  }

  /** When the loop visits every tag, every remaining row carries the cleaned
      value of the tag with its id. */
  lemma EveryRowCleaned(ts: seq<Tag>, after: seq<Tag>)
    requires KeptOutside(ts, after, ts)
    requires forall j :: 0 <= j < |ts| ==> Cleaned(after, ts[j])
    ensures forall m :: 0 <= m < |after| ==> CleanedFrom(ts, after[m])
  {
    forall m | 0 <= m < |after| ensures CleanedFrom(ts, after[m]) {
      assert !IdOutside(ts, after[m].id);
      var j :| 0 <= j < |ts| && ts[j].id == after[m].id;
      assert Cleaned(after, ts[j]);
    }
  }

  /** Tag ids are unique in a well-formed database. */
  lemma TagIdsDistinct(db: Db)
    requires Wf(db)
    ensures IdsDistinct(db.tags)
  {
    forall j, k | 0 <= j < k < |db.tags| ensures db.tags[j].id != db.tags[k].id {
      assert TagsDiffer(db.tags[j], db.tags[k]);
    }
  }

  // ---------------------------------------------------------------------
  // What happens to an image's links
  // ---------------------------------------------------------------------

  /** Image `imageId` is linked with a tag whose value, lower-cased, is `value`. */
  predicate LinkedWithValue(db: Db, imageId: int, value: String) {
    exists j, k :: 0 <= j < |db.summaries| && 0 <= k < |db.tags|
      && db.summaries[j].imageId == imageId && db.summaries[j].tagId == db.tags[k].id
      && ToLower(db.tags[k].value) == value
  }

  lemma LinkedVia(db: Db, imageId: int, tag: Tag, value: String)
    requires HasSummary(db, imageId, tag.id) && tag in db.tags && ToLower(tag.value) == value
    ensures LinkedWithValue(db, imageId, value)
  {
    var j := FindIndex(db.summaries, SummaryKeyIs(imageId, tag.id)).value;
    var k :| 0 <= k < |db.tags| && db.tags[k] == tag;
    assert db.summaries[j].imageId == imageId && db.summaries[j].tagId == db.tags[k].id;
  }

  /** With `OtherMatch`, every image linked with a tag is afterwards linked
      with a tag carrying the tag's cleaned value: cleaning never loses a
      link. */
  lemma CleanStepKeepsLinks(db: Db, t: Tag, imageId: int)
    requires Wf(db) && t in db.tags && HasSummary(db, imageId, t.id)
    ensures CleanStep(db, t, OtherMatch).Ok?
    ensures LinkedWithValue(CleanStep(db, t, OtherMatch).value, imageId, CleanTagValue(t.value))
  {
    var clean := CleanTagValue(t.value);
    CleanValueIsPlain(t.value, t.value);
    CleanStepFacts(db, t, OtherMatch);
    if clean == t.value {
      LinkedVia(db, imageId, t, clean);
    } else if ExistingTag(db, t, clean, OtherMatch).value.IsZero() {
      RenameKeepsLink(db, t, imageId);
    } else {
      MergeKeepsLink(db, t, imageId);
    }
  }

  lemma RenameKeepsLink(db: Db, t: Tag, imageId: int)
    requires Wf(db) && t in db.tags && HasSummary(db, imageId, t.id)
    requires CleanTagValue(t.value) != t.value
    requires ExistingTag(db, t, CleanTagValue(t.value), OtherMatch).Ok?
    requires ExistingTag(db, t, CleanTagValue(t.value), OtherMatch).value.IsZero()
    ensures CleanStep(db, t, OtherMatch).Ok?
    ensures LinkedWithValue(CleanStep(db, t, OtherMatch).value, imageId, CleanTagValue(t.value))
  {
    var clean := CleanTagValue(t.value);
    RenameStep(db, t, OtherMatch);
    CleanValueIsPlain(t.value, clean);
    var r := CleanStep(db, t, OtherMatch).value;
    var n :| 0 <= n < |db.tags| && db.tags[n] == t;
    assert r.tags[n] == t.(value := clean);
    LinkedVia(r, imageId, r.tags[n], clean);
  }

  lemma MergeKeepsLink(db: Db, t: Tag, imageId: int)
    requires Wf(db) && t in db.tags && HasSummary(db, imageId, t.id)
    requires CleanTagValue(t.value) != t.value
    requires ExistingTag(db, t, CleanTagValue(t.value), OtherMatch).Ok?
    requires !ExistingTag(db, t, CleanTagValue(t.value), OtherMatch).value.IsZero()
    ensures CleanStep(db, t, OtherMatch).Ok?
    ensures LinkedWithValue(CleanStep(db, t, OtherMatch).value, imageId, CleanTagValue(t.value))
  {
    var clean := CleanTagValue(t.value);
    var existing := ExistingTag(db, t, clean, OtherMatch).value;
    MergeStep(db, t, OtherMatch);
    var k :| 0 <= k < |db.tags| && db.tags[k] == existing;
    AnyWitness(db.tags, TagIdIs(existing.id), k);
    MergeTagsMoves(db, t.id, existing.id);
    CleanValueIsPlain(t.value, existing.value);
    LinkedVia(CleanStep(db, t, OtherMatch).value, imageId, existing, clean);
  }

  // ---------------------------------------------------------------------
  // The job as written: a tag that differs from its cleaned value only in
  // case finds itself and is merged into itself
  // ---------------------------------------------------------------------

  const SelfUser := User(1, "u1", 0, "alice", false, false, false)
  const SelfImage := Image(1, "i1", 1, "cat", false)
  const SelfTag := Tag(1, "t1", 1, "Foo")
  const SelfLink := VoteSummary(1, 1, 0, 1, 1, 0, 1)
  const SelfVote := Vote(1, 1, 1, 0, true)
  const SelfDb := Db([SelfUser], [SelfImage], [SelfTag], [SelfLink], [SelfVote])

  lemma SelfDbWf()
    ensures Wf(SelfDb)
  {
    AnyWitness(SelfDb.users, UserIdIs(1), 0);
    AnyWitness(SelfDb.images, ImageIdIs(1), 0);
    AnyWitness(SelfDb.tags, TagIdIs(1), 0);
  }

  /** With `FirstMatch`, cleaning the tag "Foo" of an image linked only with
      it leaves no tag and no link at all: the image loses the link that
      should have become "foo". */
  lemma FirstMatchLosesLink()
    ensures HasSummary(SelfDb, 1, SelfTag.id) && CleanTagValue(SelfTag.value) == "foo"
    ensures CleanStep(SelfDb, SelfTag, FirstMatch).Ok?
    ensures CleanStep(SelfDb, SelfTag, FirstMatch).value.tags == []
    ensures CleanStep(SelfDb, SelfTag, FirstMatch).value.summaries == []
    ensures !LinkedWithValue(CleanStep(SelfDb, SelfTag, FirstMatch).value, 1, "foo")
  {
    AnyWitness(SelfDb.summaries, SummaryKeyIs(1, 1), 0);
    SelfLookup();
    SelfStepIsMerge();
    SelfMergeEmpties();
  }

  /** Since the lookup finds the tag itself, the step merges it into itself. */
  lemma SelfStepIsMerge()
    ensures CleanStep(SelfDb, SelfTag, FirstMatch) == MergeTags(SelfDb, 1, 1)
  {
    SelfLookup();
  }

  /** The lookup for "foo" finds "Foo" itself. */
  lemma SelfLookup()
    ensures CleanTagValue(SelfTag.value) == "foo"
    ensures ExistingTag(SelfDb, SelfTag, "foo", FirstMatch) == Ok(SelfTag)
  {
    CleanLowers();
    CleanValueIsPlain(SelfTag.value, SelfTag.value);
    LowerFoo();
  }

  lemma SelfMergeEmpties()
    ensures MergeTags(SelfDb, 1, 1).Ok?
    ensures MergeTags(SelfDb, 1, 1).value.tags == []
    ensures MergeTags(SelfDb, 1, 1).value.summaries == []
  {
    SelfDbWf();
    AnyWitness(SelfDb.tags, TagIdIs(1), 0);
    MergeTagsClears(SelfDb, 1, 1);
    var r := MergeTags(SelfDb, 1, 1).value;
    assert r.tags == [];
    assert !HasTag(r, SelfLink.tagId);
  }

  // ---------------------------------------------------------------------
  // Looking tags up after the job
  // ---------------------------------------------------------------------

  /** After the job, no tag matches a plain value holding a character that a
      cleaned value cannot hold. */
  lemma NoTagHoldsUncleanValue(db: Db, lookup: Lookup, v: String, c: nat)
    requires Wf(db) && PlainPattern(v)
    requires c < |v| && !KeptInTag(v[c])
    ensures ExecuteInTx(db, lookup).Ok?
    ensures TagByValue(ExecuteInTx(db, lookup).value, v) == Ok(ZeroTag)
  {
    ExecuteInTxCleans(db, lookup);
    LikePlain(v, v);
    FirstLikeAbsent(db.tags, ExecuteInTx(db, lookup).value.tags, v, c);
  }

  lemma FirstLikeAbsent(before: seq<Tag>, after: seq<Tag>, v: String, c: nat)
    requires PlainPattern(v) && c < |v| && !KeptInTag(v[c])
    requires forall m :: 0 <= m < |after| ==> CleanedFrom(before, after[m])
    ensures First(after, TagValueLike(v), ZeroTag) == ZeroTag
  {
    forall m | 0 <= m < |after| ensures !TagValueLike(v)(after[m]) {
      LikePlain(after[m].value, v);
      var j :| 0 <= j < |before| && before[j].id == after[m].id && after[m].value == CleanTagValue(before[j].value);
      if c < |after[m].value| {
        assert KeptInTag(after[m].value[c]);
        assert ToLower(after[m].value)[c] != ToLower(v)[c];
      }
    }
  }

  /** After the job, a tag whose value was already clean is found by that value. */
  lemma CleanTagFound(db: Db, lookup: Lookup, j: nat)
    requires Wf(db) && j < |db.tags| && CleanTagValue(db.tags[j].value) == db.tags[j].value
    ensures ExecuteInTx(db, lookup).Ok?
    ensures TagByValue(ExecuteInTx(db, lookup).value, db.tags[j].value).Ok?
    ensures !TagByValue(ExecuteInTx(db, lookup).value, db.tags[j].value).value.IsZero()
  {
    ExecuteInTxCleans(db, lookup);
    CleanValueIsPlain(db.tags[j].value, db.tags[j].value);
    FirstLikeFound(ExecuteInTx(db, lookup).value, db.tags[j]);
  }

  lemma FirstLikeFound(r: Db, t: Tag)
    requires IdsPositive(r) && t in r.tags && PlainPattern(t.value)
    ensures !First(r.tags, TagValueLike(t.value), ZeroTag).IsZero()
  {
    LikePlain(t.value, t.value);
    var m :| 0 <= m < |r.tags| && r.tags[m] == t;
    assert TagValueLike(t.value)(r.tags[m]);
  }

  /** The job's own scenario: an image tagged "winning's", "they're", "theyre"
      and "crushing it".  Afterwards neither "winning's" nor "they're" finds a
      tag ... */
  lemma ScenarioApostrophesGone(db: Db, lookup: Lookup)
    requires Wf(db)
    ensures ExecuteInTx(db, lookup).Ok?
    ensures TagByValue(ExecuteInTx(db, lookup).value, "winning's") == Ok(ZeroTag)
    ensures TagByValue(ExecuteInTx(db, lookup).value, "they're") == Ok(ZeroTag)
  {
    ApostropheValuesArePlain();
    NoTagHoldsUncleanValue(db, lookup, "winning's", 7);
    NoTagHoldsUncleanValue(db, lookup, "they're", 4);
  }

  /** ... while "theyre" and "crushing it" still do. */
  lemma ScenarioCleanValuesFound(db: Db, lookup: Lookup, j: nat, k: nat)
    requires Wf(db)
    requires j < |db.tags| && db.tags[j].value == "theyre"
    requires k < |db.tags| && db.tags[k].value == "crushing it"
    ensures ExecuteInTx(db, lookup).Ok?
    ensures TagByValue(ExecuteInTx(db, lookup).value, "theyre").Ok?
    ensures !TagByValue(ExecuteInTx(db, lookup).value, "theyre").value.IsZero()
    ensures TagByValue(ExecuteInTx(db, lookup).value, "crushing it").Ok?
    ensures !TagByValue(ExecuteInTx(db, lookup).value, "crushing it").value.IsZero()
  {
    CleanTheyreUnchanged();
    CleanTagFound(db, lookup, j);
    CleanCrushingItUnchanged();
    CleanTagFound(db, lookup, k);
  }

  // ---------------------------------------------------------------------
  // The transaction around the job
  // ---------------------------------------------------------------------

  /** What `Execute` leaves behind: the committed database and the error it
      returns, if any. */
  datatype Outcome = Outcome(db: Db, err: Option<DbError>)

  /** `Execute` as written: begin, run the job, roll back on failure and
      return what the rollback returned, otherwise commit.  The outcomes of
      `Begin`, `Rollback` and `Commit` are parameters. */
  function ExecuteAsWritten(db: Db, beginErr: Option<DbError>, job: Result<Db, DbError>,
                            rollbackErr: Option<DbError>, commitErr: Option<DbError>): (r: Outcome)
    ensures r.db == db || (job.Ok? && r.db == job.value)
  {
    if beginErr.Some? then Outcome(db, beginErr)
    else if job.Err? then Outcome(db, rollbackErr)
    else if commitErr.Some? then Outcome(db, commitErr)
    else Outcome(job.value, None)
  }

  /** As written, a job that fails and is rolled back cleanly reports success
      although nothing was committed. */
  lemma ExecuteAsWrittenHidesFailure(db: Db, e: DbError)
    ensures ExecuteAsWritten(db, None, Err(e), None, None) == Outcome(db, None)
  {
  }

  /** `Execute` returning the job's own error when it fails. */
  function Execute(db: Db, beginErr: Option<DbError>, job: Result<Db, DbError>,
                   rollbackErr: Option<DbError>, commitErr: Option<DbError>): (r: Outcome)
  {
    if beginErr.Some? then Outcome(db, beginErr)
    else if job.Err? then Outcome(db, Some(job.error))
    else if commitErr.Some? then Outcome(db, commitErr)
    else Outcome(job.value, None)
  }

  /** `Execute` reports success exactly when the transaction began, the job
      succeeded and the commit succeeded, and then the job's database is the
      result; on any failure nothing changes. */
  lemma ExecuteReportsFailure(db: Db, beginErr: Option<DbError>, job: Result<Db, DbError>,
                              rollbackErr: Option<DbError>, commitErr: Option<DbError>)
    ensures Execute(db, beginErr, job, rollbackErr, commitErr).err.None? <==>
      beginErr.None? && job.Ok? && commitErr.None?
    ensures Execute(db, beginErr, job, rollbackErr, commitErr).err.None? ==>
      Execute(db, beginErr, job, rollbackErr, commitErr).db == job.value
    ensures Execute(db, beginErr, job, rollbackErr, commitErr).err.Some? ==>
      Execute(db, beginErr, job, rollbackErr, commitErr).db == db
    ensures beginErr.None? && job.Err? ==>
      Execute(db, beginErr, job, rollbackErr, commitErr).err == Some(job.error)
  {
  }
}
