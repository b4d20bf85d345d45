# Giffy in Dafny

A model of the deterministic core of Giffy, a site where users upload
reaction GIFs, tag them and vote on image–tag links.  The model covers:

- the vote ledger kept in Postgres: the `users`, `image`, `tag`,
  `vote_summary` ("links", keyed by image and tag, with for / against /
  total counts) and `vote` (keyed by user, image and tag) tables, every
  statement the model layer issues against them, and the three historical
  versions of recording a vote;
- tag maintenance: `MergeTags`, the cascading deletes, `DeleteOrphanedTags`
  and the hourly `clean_tag_values` job that renames or merges tags;
- the JSON API handlers that change the ledger, in the three versions the
  repository keeps (`server/controller/api.go`, `server/api_controller.go`
  and the older `server/server.go`): editing users and images, creating,
  reading and deleting tags, voting, withdrawing a vote and deleting a
  link, with the status each answers and the moderation entries each queues;
- `CleanTagValue`, Postgres `ILIKE` on the patterns the code uses, the
  padded base 64 encoding of section 4 of RFC 4648 (with Go's decoder
  skipping line breaks) and Go's decimal
  integer formatting and parsing;
- the Slack integration: the callback id that carries a search from one
  button click to the next, and the replies to the slash command, to the
  Shuffle, Post and Cancel buttons and to URL verification;
- the helpers Giffy takes from the vendored `go-util` (string helpers) and
  `go-logger` (file sizes, client addresses, case-insensitive comparison
  and the event flags that choose what is logged);
- the image helpers (ordering images by the ids asked for, checking an
  upload), go-util's string sets and environment variables, the SQL text
  the vendored database layer generates and its connection strings;
- go-web's routing table, its answers to unrouted paths and its
  configuration, and the job schedules of go-chronometer and go-sdk/cron;
- sign-in and sessions: the Google profile's user name, the session
  cache, the session managers of the two vendored go-web versions and of
  Giffy's own `server/auth`, their session-aware and session-required
  middleware, and how the user rides on a session and is stored in the
  `user_session` table;
- the browser client in both generations the server ships (the current
  `_client` and the earlier `_static`): what `/api/session.user` sends
  it, the cached current user, the vote button, the image and tag pages'
  vote lookups, the moderation log pager, search, the moderator actions
  and the tag typeahead.

Tables are sequences of rows in storage order.  A statement returns either
the new database or the constraint it violates (primary key, unique or
foreign key of `database/initialize/initialize.go`); a query that reads a
single row without `ORDER BY` returns the first matching row, or the zero
record that Go leaves behind when no row matches.  The well-formedness
invariant `Ledger.Wf` carries these constraints of the schema:
- the primary keys of users, image, tag, vote_summary and vote;
- tag's unique uuid and tag_value;
- the foreign keys of vote_summary and vote to users, image and tag;
- the width of tag's `varchar(32)` tag_value;
- serial ids starting at 1.

It does not carry the unique uuid and username of users, the unique uuid
and md5 of image, or the created_by foreign keys of image and tag.
`Ledger.InsertTag` does check its creator and refuses a too-long value.
The model never inserts a user or an image, and only rewrites them under
their own ids.

Modules, in dependency order: `Wrappers`, `GoStrings`, `Rows`, `Ilike`,
`Decimal`, `Base64`, `Ledger`, `Constraints`, `Voting`, `Merge`,
`TagValues`, `CleanJob`, `ApiTypes`, `ApiUsers`, `ApiImages`, `ApiTags`,
`ApiVotes`, `GoUtil`, `LoggerUtil`, `EventFlags`, `EventNameLaws`,
`Integrations`, `WebLog`, `KeySort`, `ImageModel`, `StringSets`, `EnvVars`, `SqlGen`, `ConnString`, `GoWeb`, `GoTime`, `Weekdays`, `Chronometer`, `Cron`, `OAuthProfile`,
`WebSession`, `SessionUser`, `AuthManager`, `SessionManager`,
`ServerAuth`, `JsValues`, `CurrentUserView`, `VoteButton`,
`CurrentUserCache`, `ClientPages`, `ModerationPager`, `ClientActions`.

The browser client is modelled on the JavaScript values its controllers
read (`JsValues`): truthiness, property reads that give `undefined`, and
loose equality.  Each controller function is a Dafny function of the
scope it reads, and each HTTP call is a request value; answers arrive as
separate steps.

## Model

| member | source | states |
|---|---|---|
| GoStrings.ToLower | server/model/tag.go:203 | lower-cases every ASCII letter and keeps everything else, position by position; no upper-case letter remains |
| GoStrings.Trim | server/model/tag.go:204 | drops the longest prefix and suffix made of cutset characters: the result is empty iff every character is in the cutset, and otherwise starts and ends outside it |
| GoStrings.TrimUnchanged | server/model/tag.go:204 | a value whose ends are outside the cutset is not changed by trimming |
| GoStrings.SplitFirst | server/controller/integrations.go:343 | splits at the first occurrence of the separator: one part (the input) iff it does not occur, else the two parts rejoin with the separator to the input and the first holds no occurrence |
| GoStrings.JoinSplitOn | server/controller/integrations.go:343 | splitting on a character and joining with it again gives back the input |
| GoStrings.ToUpper | vendor/github.com/blendlabs/go-logger/event_flag.go:128 | upper-cases every ASCII letter and keeps everything else, position by position; no lower-case letter remains |
| GoStrings.UpperUnchanged | vendor/github.com/blendlabs/go-logger/event_flag.go:128 | a value without lower-case letters is its own upper-case form |
| GoStrings.SplitOnJoin | vendor/github.com/blendlabs/go-logger/event_flag.go:114 | joining parts that do not contain the separator and splitting again gives back the parts |
| Rows.First | server/model/tag.go:90-95 | a single-row query: a matching row of the table when one exists, the zero record otherwise |
| Rows.Filter | server/model/manager.go:596-599 | a `delete ... where`: every row left is a kept input row and every kept input row is left, a single row survives exactly when it is kept, and with `Rows.FilterAppend` the kept rows stay in order, each once |
| Rows.FilterAppend | server/model/manager.go:596-599 | deleting from a concatenation deletes from each part |
| Rows.RewriteCount | server/model/manager.go:428-431 | an `update ... where` neither adds nor removes rows: every count whose condition the update keeps on the rows it touches is unchanged |
| Rows.CountFilter | server/model/manager.go:1045-1047 | deleting rows lowers a count by the number of deleted rows it counted |
| Rows.FirstRewrite | server/model/manager.go:422-425 | reading the row an update rewrote returns the rewritten row |
| Ilike.LikePlain | server/model/tag.go:90-95 | an `ILIKE` pattern without `%`, `_` or `\` matches exactly the values equal to it up to case |
| Decimal.ParseFormatRoundTrip | vendor/github.com/blendlabs/go-util/string.go:269-275 | parsing the decimal text of any integer gives the integer back |
| Decimal.ParseInt64 | vendor/github.com/blendlabs/go-util/string.go:231-237 | 64-bit parsing: a syntax error gives 0, an out-of-range value gives the clamped bound, otherwise the parsed value |
| Decimal.ParseInt64FormatRoundTrip | vendor/github.com/blendlabs/go-util/string.go:231-237 | every 64-bit integer survives formatting and parsing without error |
| Base64.Encode | server/controller/integrations.go:336 | four characters per three bytes, rounded up, none of them '\|' |
| Base64.DecodeEncode | server/controller/integrations.go:335-352 | decoding an encoding gives back the bytes |
| Base64.DecodeString | vendor/github.com/blendlabs/go-util/string.go:316-319 | what `StdEncoding.DecodeString` reads is never more than three bytes per four characters of the text |
| Base64.DecodeStringWithoutBreaks | vendor/github.com/blendlabs/go-util/string.go:316-319 | text without '\r' or '\n' decodes exactly as the strict group decoder reads it |
| Base64.DecodeStringSkipsLineBreak | server/controller/integrations.go:348 | a '\r' or '\n' anywhere in the text does not change what it decodes to, or whether it decodes |
| Base64.DecodeStringEncode | server/controller/integrations.go:336-348 | decoding an encoding with Go's decoder gives back the bytes |
| Base64.DecodeStringLineBrokenEncoding | server/controller/integrations.go:336-348 | an encoding with a line break inserted at any position still decodes to the encoded bytes |
| Ledger.InsertSummary | database/initialize/initialize.go:196-198 | inserting a link succeeds iff its key is free and its image and tag exist; a taken key is a primary-key violation |
| Ledger.SetVoteSummaryVoteCounts | server/model/manager.go:422-425 | the link of the pair gets the given for and against and total = for − against; every other row is unchanged |
| Ledger.ReconcileVoteSummaryTotals | server/model/manager.go:563-593 | the link of the pair gets the number of its up and down vote rows and their difference, and keeps its image, tag and last vote, which the statement does not set; every other row is unchanged |
| Ledger.SetVoteSummaryTagID | server/model/manager.go:428-431 | moving a link to another tag fails iff a link with the new key exists; otherwise exactly that link is retagged |
| Ledger.DeleteVoteSummary | server/model/manager.go:596-599 | the link is gone, every other link is kept, no link is added, and no other table changes |
| Ledger.InsertVote | database/initialize/initialize.go:214-217 | inserting a vote row succeeds iff its key is free; otherwise it is a primary-key violation |
| Ledger.DeleteVote | server/model/manager.go:1045-1047 | the vote row is gone, every other vote row is kept, none is added, and no other table changes |
| Ledger.SetVoteTagID | server/model/manager.go:1040-1043 | moving a vote to another tag fails iff the user already voted on the new pair; otherwise exactly that row is retagged |
| Ledger.DeleteTagByID | server/model/manager.go:655-658 | deleting a tag fails with a foreign-key violation iff a link or vote still references it; on success the tag is gone, every other tag is kept, none is added, and the other tables are unchanged |
| Ledger.DeleteImageRow | server/model/manager.go:137 | deleting an image fails iff a link or vote still references it; on success the image is gone, every other image is kept, none is added, and the other tables are unchanged |
| Ledger.SetTagValue | server/model/manager.go:650-653 | renaming an existing tag fails iff the value is wider than the 32-character column (`ValueTooLong`) or another tag already has it (unique `tag_value`); otherwise only that tag's value changes |
| Ledger.InsertTag | database/initialize/initialize.go:166-176 | inserting a tag succeeds iff its value fits the 32-character column, its id, uuid and value are free, and its creator is a user; a too-long value is `ValueTooLong`; success appends the row |
| Ledger.NextTagId | database/initialize/initialize.go:166-173 | a serial id is positive and larger than every id in use |
| Ledger.ZeroMeansAbsent | server/model/vote_summary.go:26-28 | on a well-formed database a query returns the zero record iff no row matches |
| Constraints.InsertSummaryKeepsWf | database/initialize/initialize.go:196-198 | a successful link insert keeps the constraints `Ledger.Wf` carries |
| Constraints.SetVoteSummaryVoteCountsKeepsWf | server/model/manager.go:422-425 | setting the counts keeps the constraints |
| Constraints.DeleteVoteSummaryKeepsWf | server/model/manager.go:596-599 | deleting a link keeps the constraints |
| Constraints.InsertVoteKeepsWf | database/initialize/initialize.go:214-217 | a successful vote insert keeps the constraints `Ledger.Wf` carries |
| Constraints.DeleteVoteKeepsWf | server/model/manager.go:1045-1047 | deleting a vote keeps the constraints |
| Constraints.SetVoteSummaryTagIDKeepsWf | server/model/manager.go:428-431 | a successful retag of a link keeps the keys unique |
| Constraints.SetVoteTagIDKeepsWf | server/model/manager.go:1040-1043 | a successful retag of a vote keeps the keys unique |
| Constraints.DeleteTagByIDKeepsWf | server/model/manager.go:655-658 | a successful tag delete keeps the constraints |
| Constraints.DeleteImageRowKeepsWf | server/model/manager.go:137 | a successful image delete keeps the constraints |
| Constraints.SetTagValueKeepsWf | server/model/manager.go:650-653 | a successful rename keeps tag values unique and within their column |
| Constraints.InsertTagKeepsWf | database/initialize/initialize.go:173-176 | a successful tag insert keeps the constraints |
| Voting.NewVoteSummary | server/model/vote_summary.go:36-44 | a new link carries the ids and last vote and zero counts, and is zero iff an id is 0 |
| Voting.FirstVote | server/model/manager.go:439-449 | the first vote on a pair creates (1, 0, 1) for an upvote and (0, 1, −1) for a downvote |
| Voting.AddVote | server/model/manager.go:454-462 | a later vote increments exactly one side, records the voter and re-derives the total |
| Voting.CreateOrUpdateVote | server/model/manager.go:433-478 | the flag is set exactly when the pair had no link yet and inserting the new link fails, and then the answer is an error; after success exactly one vote row exists for the key and it carries the new direction |
| Voting.CreateOrIncrementVote | server/model/vote_summary.go:52-92 | the flag is set exactly when the pair had no link yet and inserting the new link fails, and then the answer is an error; a second vote by the same user on the pair is a primary-key violation |
| Voting.CreateOrIncrementVoteErr | server/model/image_tag_votes.go:48-88 | a second vote by the same user on the pair fails; on success the link reads back as the first-vote link (1, 0, 1) or (0, 1, -1), or as the previous link with one side incremented and the voter recorded, and the user's vote reads back with the new direction |
| Voting.FreshVoteVersionsAgree | server/model/vote_summary.go:52-92 | when the user has no vote on the pair, the two versions produce the same database |
| Voting.SummaryAfterVote | server/model/manager.go:439-469 | after a successful vote the pair's link is the first-vote link or the previous link with one side incremented |
| Voting.CreateOrUpdateVoteKeepsAgreement | server/model/manager.go:433-478 | when the user has no vote on the pair, recording one keeps every link's counts equal to its vote rows |
| Voting.CreateOrIncrementVoteKeepsAgreement | server/model/vote_summary.go:52-92 | the same for the version that only inserts |
| Voting.RepeatVoteBreaksAgreement | server/model/manager.go:454-477 | a repeat vote by the same user breaks the agreement: the link grows while the vote rows do not |
| Voting.VoteKeepsWf | server/model/manager.go:433-478 | a successful vote keeps the constraints |
| Merge.MergeTags | server/model/manager.go:673-728 | after a merge the source tag is gone, users and images are unchanged and every other tag row is kept |
| Merge.MergeVotesClears | server/model/manager.go:673-694 | moving the source tag's votes succeeds on a well-formed database, keeps it well formed and leaves no vote on the source tag |
| Merge.MergeLinksClears | server/model/manager.go:696-722 | moving the source tag's links does the same for links |
| Merge.MergeTagsClears | server/model/manager.go:673-728 | a merge into an existing tag succeeds, keeps the constraints, leaves nothing referencing the source tag and keeps the target |
| Merge.MoveVoteKeeps | server/model/manager.go:679-692 | one vote step keeps every target vote and moves the stepped vote's key to the target |
| Merge.MergeVotesMoves | server/model/manager.go:673-694 | every (user, image) that voted on the source or the target has a vote on the target afterwards |
| Merge.MoveLinkKeeps | server/model/manager.go:701-720 | one link step keeps every target link and moves the stepped link's image to the target |
| Merge.MergeLinksMoves | server/model/manager.go:696-722 | every image linked with the source or the target is linked with the target afterwards |
| Merge.MergeTagsMoves | server/model/manager.go:673-728 | merging two distinct tags moves every vote and every link of the source onto the target |
| Merge.DeleteTagAndVotesByID | server/model/manager.go:660-670 | deleting a tag with its links and votes always succeeds, leaves nothing referencing it and keeps every other link and vote |
| Merge.DeleteTagAndVotesByIDKeepsWf | server/model/manager.go:660-670 | the cascade keeps the constraints |
| Merge.DeleteImageByID | server/model/manager.go:128-138 | deleting an image with its links and votes always succeeds, leaves nothing referencing it and keeps every other link and vote |
| Merge.DeleteImageByIDKeepsWf | server/model/manager.go:128-138 | the cascade keeps the constraints |
| Merge.DeleteOrphanedTags | server/model/tag.go:193-199 | a vote survives iff some link has its tag, and a tag survives iff some link has it; links are unchanged |
| TagValues.CleanTagValue | server/model/tag.go:202-213 | the cleaned value is no longer than the input and holds only lower-case letters, digits and white space |
| TagValues.CleanTagValueKeepsOrder | server/model/tag.go:206-210 | filtering keeps the kept characters in their original order |
| TagValues.CleanValueIsPlain | server/model/tag.go:202-213 | a cleaned value is a plain `ILIKE` pattern, is its own lower case, and matches exactly the values that lower-case to it |
| TagValues.CleanUnchanged | server/model/tag.go:202-213 | a lower-case value made of kept characters with no white space at its ends is already clean |
| TagValues.CleanDropsOne | server/model/tag.go:206-210 | cleaning drops a single punctuation character and keeps the rest |
| TagValues.CleanTheyre | server/jobs/clean_tag_values_test.go:29 | "they're" cleans to "theyre" |
| TagValues.CleanWinnings | server/jobs/clean_tag_values_test.go:26 | "winning's" cleans to "winnings" |
| TagValues.CleanLowers | server/model/tag.go:203 | "Foo" cleans to "foo" |
| TagValues.CleanTagValueNotIdempotent | server/model/tag.go:203-212 | trimming before filtering makes cleaning not idempotent: "' a" cleans to " a", which cleans to "a" |
| CleanJob.ExistingTag | server/jobs/clean_tag_values.go:48-51 | the lookup fails only on an invalid pattern; a found tag is a row matching the cleaned value, and the zero tag means no row matches |
| CleanJob.CleanStepFacts | server/jobs/clean_tag_values.go:45-63 | one iteration succeeds on a well-formed database, keeps it well formed, gives every row with the tag's id the cleaned value, keeps every other tag row and leaves an already clean tag untouched |
| CleanJob.RenameStep | server/jobs/clean_tag_values.go:52-56 | when no tag matches the cleaned value the tag is renamed to it |
| CleanJob.MergeStep | server/jobs/clean_tag_values.go:57-62 | when a tag matches the cleaned value the tag is merged into it |
| CleanJob.UntouchedStep | server/jobs/clean_tag_values.go:46-47 | a tag whose value is already clean is not touched |
| CleanJob.CleanTagsFacts | server/jobs/clean_tag_values.go:45-64 | the loop succeeds, keeps the constraints, cleans every visited tag, keeps clean tags and leaves the rows of other tags alone |
| CleanJob.ExecuteInTxCleans | server/jobs/clean_tag_values.go:39-66 | the job succeeds on a well-formed database; afterwards every tag carries the cleaned value of the tag it came from and every tag that was already clean is still there |
| CleanJob.NoTagHoldsUncleanValue | server/jobs/clean_tag_values.go:39-66 | after the job no tag matches a value holding a character cleaning removes |
| CleanJob.CleanTagFound | server/jobs/clean_tag_values.go:39-66 | after the job a tag that was already clean is still found by its value |
| CleanJob.ScenarioApostrophesGone | server/jobs/clean_tag_values_test.go:43-49 | after the job "winning's" and "they're" find no tag |
| CleanJob.ScenarioCleanValuesFound | server/jobs/clean_tag_values_test.go:51-57 | after the job "theyre" and "crushing it" are still found |
| CleanJob.CleanStepKeepsLinks | server/jobs/clean_tag_values.go:45-63 | with the corrected lookup, every image linked with a tag stays linked with a tag carrying its cleaned value |
| CleanJob.FirstMatchLosesLink | server/jobs/clean_tag_values.go:48-62 | as written, cleaning "Foo" finds "Foo" itself, merges it into itself and deletes the tag and its only link |
| CleanJob.ExecuteAsWrittenHidesFailure | server/jobs/clean_tag_values.go:31-35 | as written, a failed job whose rollback succeeds reports no error |
| CleanJob.ExecuteReportsFailure | server/jobs/clean_tag_values.go:26-36 | corrected: the run reports success iff begin, job and commit all succeed, the job's database is committed only then, and a failed job returns its own error |
| Rows.FirstAt | server/model/tag.go:90-95 | a row satisfying the predicate with none before it is what a single-row query reads |
| ApiUsers.UserModerations | server/controller/api.go:150-164 | one entry for a change of the moderator flag (promote or demote), one for a change of the banned flag (ban or unban), each naming the edited user, and nothing else |
| ApiUsers.UpdateUserAction | server/controller/api.go:112-168 | OK iff the caller is an administrator, the user exists, the body reads and the edit keeps the administrator flag and bans no administrator; NotAuthorized, NotFound, BadRequest otherwise with nothing written; an accepted edit keeps id, uuid, creation time and the administrator flag, takes the posted moderator and banned flags, keeps the stored username only in server/controller/api.go, writes the record back and queues the flag changes |
| ApiUsers.UpdateUserKeepsWf | server/controller/api.go:162 | writing a user back under its own id keeps every constraint `Ledger.Wf` carries and the set of user ids |
| ApiUsers.RewriteFirstByUuid | server/model/user.go:67-72 | with unique ids, rewriting the first row with a uuid by a record keeping that uuid is what the uuid reads back |
| ApiUsers.UpdateUserReadsBack | server/api_controller.go:49-104 | after an accepted edit the uuid reads back the edited record, the constraints hold and every other user row is unchanged |
| ApiUsers.UpdateUserKeepsAdmins | server/server.go:57-112 | no accepted edit changes any user's administrator flag or leaves an administrator banned who was not banned before |
| ApiImages.EditImage | server/controller/api.go:266-274 | the stored image keeps its identity, takes the posted display name only when it is not empty, and always takes the posted censored flag |
| ApiImages.CensorModerations | server/controller/api.go:276-283 | a censor or uncensor entry naming the image exactly when the censored flag changes |
| ApiImages.UpdateImageAction | server/controller/api.go:248-286 | OK iff the caller is a moderator and the image exists (NotAuthorized, NotFound otherwise, nothing written); an accepted edit is written back and the flag change queued, with an unreadable body edited as the zero image |
| ApiImages.UnreadableBodyUncensors | server/controller/api.go:264-265 | as written: an unreadable body sent for a censored image uncensors it and logs the uncensoring |
| ApiImages.UpdateImageActionChecked | server/controller/api.go:264-265 | corrected: an unreadable body is refused and changes nothing; an accepted edit's censored flag is the posted one and its change is logged |
| ApiImages.UpdateImageKeepsWf | server/controller/api.go:280 | writing an image back under its own id keeps every constraint `Ledger.Wf` carries |
| ApiImages.UpdateImageReadsBack | server/controller/api.go:266-285 | after an accepted edit the uuid reads back the edited image and the constraints hold |
| ApiImages.DeleteImageAction | server/controller/api.go:448-478 | NotFound iff no image has the uuid, NotAuthorized iff the caller is neither a moderator nor its creator, OK iff also the stored file is deleted; an OK delete removes the image with every link and vote on it, keeps users and tags and every other image, link and vote, and queues nothing |
| ApiImages.DeleteImageActionKeepsWf | server/api_controller.go:344-374 | deleting an image through the handler keeps every constraint `Ledger.Wf` carries |
| ApiTags.LookupValue | server/controller/api.go:419-425 | the value looked up holds no upper-case letter, and in the older versions has the posted value's length |
| ApiTags.CreateTagAction | server/controller/api.go:408-446 | BadRequest iff the body is unreadable or the version refuses the value; an existing matching tag is answered without a write; otherwise a tag is created exactly when the insert succeeds, appended under the next id with the request's uuid, the caller as creator and the lower-cased value, with its creation queued; a value wider than the 32-character column is an InternalError; a refusal writes nothing |
| ApiTags.CreateTagKeepsWf | server/api_controller.go:304-342 | creating a tag through the handler keeps every constraint `Ledger.Wf` carries |
| ApiTags.ZeroLookupFoundNothing | server/model/tag.go:90-95 | with positive ids, a value lookup that reads the zero tag means no tag's value matches |
| ApiTags.CleanedLookupIsExact | server/controller/api.go:419-437 | corrected lookup: the tag answered has the cleaned value up to case, and a tag is created only when no tag has it |
| ApiTags.WildcardFindsOtherTag | server/server.go:323-337 | as written: posting "a%" to the older versions answers with the tag "ab" and creates nothing |
| ApiTags.SpaceOnlyValue | server/api_controller.go:306-319 | a single space is refused by the two controllers and looked up by server/server.go |
| ApiTags.GetTagAction | server/controller/api.go:305-323 | the tag with the uuid when there is one, else a tag whose value matches the key; NotFound or InternalError otherwise; nothing is written |
| ApiTags.GetTagNotFoundMeansAbsent | server/api_controller.go:201-219 | with positive ids, NotFound means no tag has the key as uuid or a value matching it |
| ApiTags.DeleteTagAction | server/controller/api.go:480-506 | as written: NotFound iff no tag has the uuid, NotAuthorized iff the caller may not delete it, InternalError iff the tag is still used by a link or vote; OK deletes the tag alone and queues the deletion |
| ApiTags.DeleteTagActionKeepsWf | server/server.go:380-407 | deleting a tag through the handler keeps every constraint `Ledger.Wf` carries |
| ApiTags.DeleteTagActionCascading | server/controller/api.go:499 | corrected: an authorised delete of an existing tag succeeds and removes the tag with its links and votes, keeping every other link and vote |
| ApiTags.DeleteTagActionCascadingKeepsWf | server/controller/api.go:499 | the cascading delete keeps every constraint `Ledger.Wf` carries |
| ApiVotes.VoteAction | server/controller/api.go:580-620 | NotFound iff the tag or image is unknown; an existing vote answers OK without a write; a refusal writes nothing; a recorded vote reads back as the caller's vote and the link's summary as the vote recorded on it; nothing is ever queued |
| ApiVotes.RepeatVoteIsNoOp | server/api_controller.go:477-517 | a second vote by the same user on the same link changes nothing and answers OK |
| ApiVotes.VoteActionKeepsInvariants | server/server.go:481-516 | voting keeps every constraint `Ledger.Wf` carries and the agreement of the summaries with the vote rows |
| ApiVotes.VoteActionLoggingLinks | server/api_controller.go:507-514 | corrected: the vote handler's status and writes, queuing the link-created entry only for a vote that created the link |
| ApiVotes.LinkLoggedIffCreated | server/controller/api.go:610-617 | corrected: the link-created entry is queued iff the vote succeeded and the link had no summary before and has one after |
| ApiVotes.FirstVoteAppends | server/model/vote_summary.go:52-92 | a first vote on a link without a summary appends the summary and the vote row and raises no flag |
| ApiVotes.FirstVoteOnNewLink | server/controller/api.go:610-617 | as written: the first vote on a new link is OK and queues nothing, where the corrected handler logs the link |
| ApiVotes.DeleteUserVoteAction | server/controller/api.go:622-685 | OK iff the image, tag and caller's vote exist, NotFound otherwise with nothing written; OK removes exactly the caller's vote on the link, keeps every other link and queues nothing |
| ApiVotes.WithdrawVote | server/controller/api.go:655-681 | the vote row is gone, the link's counts lose one on the withdrawn side with the total kept as for minus against, and users, images, tags and other links are unchanged |
| ApiVotes.CountOfOwnVote | server/model/vote.go:89-93 | with unique vote keys, a user's vote on a link is counted once on its own side and never on the other |
| ApiVotes.WithdrawVoteKeepsInvariants | server/api_controller.go:519-582 | withdrawing a vote keeps the table constraints, every vote linked to a summary and the summaries' agreement with the votes |
| ApiVotes.DeleteUserVoteKeepsInvariants | server/server.go:518-581 | the handler keeps the table constraints and the summaries' agreement with the votes |
| ApiVotes.WithdrawalLowersCount | server/controller/api.go:665-675 | the link's summary reads back with one fewer vote on the withdrawn side |
| ApiVotes.DeleteUserVoteLowersCount | server/controller/api.go:622-685 | after the handler the link's counts are one lower on the withdrawn vote's side and still agree with the vote rows |
| ApiVotes.LinkNouns | server/server.go:616 | the controllers log the two uuids; server/server.go one formatted sentence |
| ApiVotes.DeleteLinkAction | server/controller/api.go:687-723 | NotFound iff the image or tag is unknown, OK iff also the caller may delete the tag; OK deletes the link's summary only, keeps every vote row and every other link, and queues the deletion |
| ApiVotes.DeleteLinkKeepsWf | server/api_controller.go:584-620 | deleting a link keeps every constraint `Ledger.Wf` carries |
| ApiVotes.DeleteLinkOrphansVotes | server/server.go:583-619 | deleting a link that still has votes leaves vote rows no summary accounts for |
| GoUtil.EmptyCoalesce | vendor/github.com/blendlabs/go-util/string.go:92-100 | the result is empty iff every input is; otherwise it is an input preceded only by empty ones |
| GoUtil.IsLetterMissesEnds | vendor/github.com/blendlabs/go-util/string.go:128-141 | the letter test as written holds exactly for the ASCII letters other than 'A', 'Z', 'a' and 'z' |
| GoUtil.IsUpperDisagreesWithCaseMap | vendor/github.com/blendlabs/go-util/string.go:133-136 | 'A' is changed by lower-casing but is not upper case by the test as written |
| GoUtil.InclusiveClassesMatchCaseMaps | vendor/github.com/blendlabs/go-util/string.go:128-141 | with inclusive bounds a character is upper case iff lower-casing changes it, lower case iff upper-casing changes it, and a letter iff either does |
| GoUtil.StripSlashes | vendor/github.com/blendlabs/go-util/string.go:148-154 | one component loses at most one leading and at most one trailing '/', and what is left is the rest of it in place |
| GoUtil.CombinePathComponents | vendor/github.com/blendlabs/go-util/string.go:143-164 | the components, each stripped of one outer slash at each end, joined with single '/' separators and no trailing '/' |
| GoUtil.PlainComponentsJoined | vendor/github.com/blendlabs/go-util/string.go:143-164 | components without outer slashes are joined unchanged |
| GoUtil.OneSlashStripped | vendor/github.com/blendlabs/go-util/string.go:143-164 | only one slash is stripped at each end: "//a/" and "b" combine to "/a/b" |
| GoUtil.StripQuotes | vendor/github.com/blendlabs/go-util/string.go:277-286 | no ' or " is left, and a value without quotes comes back unchanged |
| GoUtil.StripQuotesAppend | vendor/github.com/blendlabs/go-util/string.go:277-286 | stripping distributes over concatenation, so the other characters keep their order |
| GoUtil.StripQuotesKeepsOthers | vendor/github.com/blendlabs/go-util/string.go:277-286 | the output is as long as the number of non-quote characters of the input: exactly the quotes are removed |
| GoUtil.StripQuotesIdempotent | vendor/github.com/blendlabs/go-util/string.go:277-286 | stripping twice is stripping once |
| GoUtil.CSVOfIntReadsBack | vendor/github.com/blendlabs/go-util/string.go:268-275 | splitting the text at its commas gives one field per integer, each parsing back to that integer |
| GoUtil.ParseInt | vendor/github.com/blendlabs/go-util/string.go:230-237 | the value of a decimal integer that fits 64 bits; 0 for a syntax error or an out-of-range value |
| GoUtil.ParseIntFormatInt | vendor/github.com/blendlabs/go-util/string.go:230-251 | every 64-bit integer comes back from its decimal text |
| GoUtil.AnsiEscapeCode | vendor/github.com/blendlabs/go-util/string.go:321-324 | ESC and '[' followed by the code |
| GoUtil.Color | vendor/github.com/blendlabs/go-util/string.go:326-329 | the escape for the code, then the input, then the reset escape |
| GoUtil.UncolorColor | vendor/github.com/blendlabs/go-util/string.go:326-329 | dropping the two escapes recovers the input |
| LoggerUtil.UnsignedRangeTest | vendor/github.com/blendlabs/go-logger/util.go:127-134 | the unsigned test `c - 'a' <= 'z' - 'a'`, with the wrap-around of `uint`, holds exactly for 'a'..'z' |
| LoggerUtil.FoldedBytesEqual | vendor/github.com/blendlabs/go-logger/util.go:198-210 | two bytes compare equal after folding exactly when they are equal or the same letter in either case |
| LoggerUtil.CaseInsensitiveEquals | vendor/github.com/blendlabs/go-logger/util.go:190-214 | true iff the lengths are equal and the upper-case forms are equal; the go-util copy at vendor/github.com/blendlabs/go-util/string.go:102-126 is the same |
| LoggerUtil.CaseInsensitiveEqualsIsEquivalence | vendor/github.com/blendlabs/go-logger/util.go:190-214 | the comparison is reflexive, symmetric and transitive, and strings of different length never compare equal |
| LoggerUtil.HasPrefixCaseInsensitive | vendor/github.com/blendlabs/go-logger/util.go:136-161 | true iff the prefix is no longer than the corpus and equals the corpus's leading bytes up to case |
| LoggerUtil.HasSuffixCaseInsensitive | vendor/github.com/blendlabs/go-logger/util.go:163-188 | true iff the suffix is no longer than the corpus and equals the corpus's trailing bytes up to case |
| LoggerUtil.AffixBoundaries | vendor/github.com/blendlabs/go-logger/util.go:136-188 | the empty prefix and suffix always match, a leading or trailing part in another case matches, and no string has a longer string as prefix |
| LoggerUtil.UnitOf | vendor/github.com/blendlabs/go-logger/util.go:13-23 | the unit is the largest of gB, mB and kB the size reaches, bytes below 1024 |
| LoggerUtil.FileSizeParses | vendor/github.com/blendlabs/go-logger/util.go:13-23 | the text is the decimal count of units, rounded down, followed by the unit's suffix |
| LoggerUtil.FileSizeReadsBack | vendor/github.com/blendlabs/go-logger/util.go:13-23 | the text reads back as a count and a unit that bracket the size to within one unit, with the count at least 1 and below 1024 except in gigabytes; server/core/web/log.go:78-87 does the same |
| LoggerUtil.GetIP | vendor/github.com/blendlabs/go-logger/util.go:25-49 | X-FORWARDED-FOR when non-empty, else X-REAL-IP when non-empty, each up to its first comma; else the remote host |
| LoggerUtil.FirstListed | vendor/github.com/blendlabs/go-logger/util.go:31-39 | a prefix of the header value without a comma, followed in the value by a comma or by nothing |
| LoggerUtil.ForwardedListFirst | vendor/github.com/blendlabs/go-logger/util.go:25-49 | a forwarded list "a,b" gives "a" whatever the other headers hold |
| LoggerUtil.EnvFlagSpellings | vendor/github.com/blendlabs/go-logger/util.go:116-125 | a non-empty value sets the flag iff it is "true" in any case or "1"; an empty value gives the default |
| EventFlags.NamedFlagsAreDistinctBits | vendor/github.com/blendlabs/go-logger/event_flag.go:9-40 | the ten named flags are the single bits 2 to 11, one per name of the table, no two alike |
| EventFlags.EventFlagAll | vendor/github.com/blendlabs/go-logger/event_flag.go:76-79 | true iff every bit of the value is set in the reference |
| EventFlags.EventFlagAny | vendor/github.com/blendlabs/go-logger/event_flag.go:81-84 | true iff some bit is set in both |
| EventFlags.AllImpliesAny | vendor/github.com/blendlabs/go-logger/event_flag.go:76-84 | a non-empty value all of whose bits are set shares a bit; the empty value is contained in everything and shares nothing |
| EventFlags.CombineBits | vendor/github.com/blendlabs/go-logger/event_flag.go:86-93 | a bit is set in the combination iff it is set in one of the values |
| EventFlags.CombineIgnoresOrder | vendor/github.com/blendlabs/go-logger/event_flag.go:86-93 | the combination depends only on which values are given, not on their order or repetitions |
| EventFlags.CombineExamples | vendor/github.com/blendlabs/go-logger/event_flag.go:86-93 | no values combine to no flags; two values combine to their union in either order |
| EventFlags.ZeroTogglesFlag | vendor/github.com/blendlabs/go-logger/event_flag.go:95-98 | as written: a set flag is cleared, an unset flag is set, and applying it twice restores the flag set |
| EventFlags.ZeroSetsUnsetFlag | vendor/github.com/blendlabs/go-logger/event_flag.go:95-98 | as written: zeroing INFO in the empty flag set turns INFO on |
| EventFlags.EventFlagClear | vendor/github.com/blendlabs/go-logger/event_flag.go:95-98 | corrected: a bit is in the result iff it is in the flag set and not in the flag |
| EventFlags.ClearIsIdempotent | vendor/github.com/blendlabs/go-logger/event_flag.go:95-98 | clearing only removes bits, is idempotent, leaves an unset flag alone, and agrees with the XOR when the flag is set |
| EventFlags.CreateEventFlagConstant | vendor/github.com/blendlabs/go-logger/event_flag.go:48-51 | offset i gives the single bit 12 + i for i below 52, and no bit once the shift leaves the 64-bit word |
| EventFlags.CreatedConstantsAreNew | vendor/github.com/blendlabs/go-logger/event_flag.go:48-51 | a created constant shares no bit with the named flags nor with a constant created at another offset |
| EventFlags.ParseEventName | vendor/github.com/blendlabs/go-logger/event_flag.go:126-140 | a value that cleans to "ALL" sets every bit; an unknown cleaned value sets none; any other result is within the named bits |
| EventFlags.ParseEventNamesIsCombine | vendor/github.com/blendlabs/go-logger/event_flag.go:117-124 | parsing a list is combining its names' flags |
| EventFlags.ParsedBits | vendor/github.com/blendlabs/go-logger/event_flag.go:117-124 | a bit is set by a list iff one of its names sets it |
| EventFlags.AllAmongNamesIsAll | vendor/github.com/blendlabs/go-logger/event_flag.go:117-140 | one "ALL" among the names sets every bit |
| EventFlags.ParseEventFlagNameSet | vendor/github.com/blendlabs/go-logger/event_flag.go:100-115 | the empty value sets nothing; a whole value that cleans to "ALL" sets everything and one that cleans to "NONE" nothing |
| EventFlags.ExpandEventNames | vendor/github.com/blendlabs/go-logger/event_flag.go:142-150 | every bit set gives "ALL" and no bit set gives "NONE" |
| EventFlags.EventsFromEnvironment | vendor/github.com/blendlabs/go-logger/event_flag.go:160-167 | a non-empty variable is parsed as a name set; otherwise the defaults are combined |
| EventNameLaws.NamesShaped | vendor/github.com/blendlabs/go-logger/event_flag.go:62-73 | every name of the table is upper-case letters and '_', starts and ends with a letter, and is at least four long |
| EventNameLaws.AllOrNothing | vendor/github.com/blendlabs/go-logger/event_flag.go:81-84 | a named flag either lies inside a flag set or shares no bit with it |
| EventNameLaws.ShapedNameIsClean | vendor/github.com/blendlabs/go-logger/event_flag.go:126-131 | a name of that shape is unchanged by cleaning, holds no comma and is neither "ALL" nor "NONE" |
| EventNameLaws.NamesParse | vendor/github.com/blendlabs/go-logger/event_flag.go:62-73 | every name of the table parses to its own flag |
| EventNameLaws.CleanedNameParses | vendor/github.com/blendlabs/go-logger/event_flag.go:126-140 | a value that cleans to a name of the table parses to that name's flag |
| EventNameLaws.MaskBits | vendor/github.com/blendlabs/go-logger/event_flag.go:62-73 | a bit is among the flags of a list of names iff one of the names has it |
| EventNameLaws.OrderMask | vendor/github.com/blendlabs/go-logger/event_flag.go:62-73 | the names of the table together have exactly bits 2 to 11, in whatever order they are visited |
| EventNameLaws.ParseNamesOf | vendor/github.com/blendlabs/go-logger/event_flag.go:117-124 | parsing the names whose flags meet a flag set gives the set restricted to those names' bits |
| EventNameLaws.JoinedText | vendor/github.com/blendlabs/go-logger/event_flag.go:157 | names of the table joined with commas split back into the names and are neither "ALL" nor "NONE" |
| EventNameLaws.ListParses | vendor/github.com/blendlabs/go-logger/event_flag.go:100-115 | a text that does not clean to "ALL" or "NONE" parses as the list of its comma-separated parts |
| EventNameLaws.JoinedListParses | vendor/github.com/blendlabs/go-logger/event_flag.go:100-115 | a non-empty list of table names, joined with commas, parses name by name |
| EventNameLaws.AllParses | vendor/github.com/blendlabs/go-logger/event_flag.go:100-109 | "ALL" parses to every bit |
| EventNameLaws.NoneParses | vendor/github.com/blendlabs/go-logger/event_flag.go:100-111 | "NONE" parses to no bit |
| EventNameLaws.NamedRoundTrip | vendor/github.com/blendlabs/go-logger/event_flag.go:142-158 | the comma-joined names of a flag set other than all or none parse back to the set's named bits |
| EventNameLaws.ParseExpandRoundTrip | vendor/github.com/blendlabs/go-logger/event_flag.go:142-158 | expanding and parsing back gives every bit for all bits, and otherwise the flag set restricted to the named bits |
| EventNameLaws.ExpandOrderDoesNotMatter | vendor/github.com/blendlabs/go-logger/event_flag.go:151-157 | whatever order the map is visited in, the expanded text parses back to the same flags |
| Integrations.CreateCallbackID | server/controller/integrations.go:335-337 | the callback id is the base 64 of the query, "||" and the uuid, and its first "||" is the one after the encoding |
| Integrations.ParseCallbackID | server/controller/integrations.go:339-352 | a state without "||" (the empty state among them) gives an empty query and uuid; otherwise the uuid is everything after the first "||" and the query the part before it decoded with line breaks skipped, or what the failed decoder left |
| Integrations.CallbackRoundTrip | server/controller/integrations.go:335-352 | a callback id reads back as exactly the query and uuid it was made from, whatever the uuid holds |
| Integrations.Action | server/controller/integrations.go:381-387 | the action of a click is the value of its first action, and empty when it has none |
| Integrations.ContentRatingForTeam | server/controller/integrations.go:229-240 | a failed team lookup fails; a missing team gets the NR filter (5); a team on file gets its own filter |
| Integrations.SlackLookup | server/controller/integrations.go:273-278 | "img:" followed by a uuid looks that image up; any other query asks for the best search result under the team's filter, excluding nothing |
| Integrations.Slack | server/controller/integrations.go:50-88 | a query under 3 bytes is refused whatever else holds; a failed filter or lookup is an internal error, no image the no-results text; an "img:" query posts the image to the channel as the user, a search answers privately with the image and buttons for this query and image |
| Integrations.SlackActionReply | server/controller/integrations.go:90-117 | an unreadable payload is a bad payload; Cancel deletes the message; any action other than shuffle, post and cancel is invalid; only a found image produces attachments |
| Integrations.SlackShuffle | server/controller/integrations.go:123-161 | an empty query or uuid in the callback state is refused; a found image replaces the message with the image and fresh buttons for the same query |
| Integrations.SlackPost | server/controller/integrations.go:163-208 | an empty uuid in the callback state is refused; a found image is posted to the channel under the clicking user's name |
| Integrations.ButtonClickActsOnSearch | server/controller/integrations.go:305-352 | clicking Shuffle on a search reply searches the same query again without the image shown, Post reads the image shown, Cancel asks for nothing and deletes the reply |
| Integrations.SlackEvent | server/controller/integrations.go:210-223 | an event answers its challenge exactly when it is a URL verification |
| GoStrings.ReplaceAll | server/core/web/log.go:93 | replacing a text that never occurs changes nothing |
| GoStrings.ReplaceAbsent | server/core/web/log.go:89-149 | a text that lacks one of the characters of the replaced text is left as it is |
| GoStrings.ReplaceLeading | server/core/web/log.go:89-149 | an occurrence at the start is replaced and the scan continues after it |
| WebLog.ReplaceItemAbsent | server/core/web/log.go:119-123 | a text that lacks a character of an item is untouched by the item's prefixed and bare spellings |
| WebLog.ReplaceBareItem | server/core/web/log.go:119-123 | a bare item is matched by none of its prefixed spellings and becomes the value |
| WebLog.LeadingItemsAbsent | server/core/web/log.go:89-111 | a text without 'd', 'k', 'b', 'h' and 'p' is untouched by the time stamp, time, size, cache and address items |
| WebLog.StatusTextLacks | server/core/web/log.go:113-118 | the coloured status code holds no lower-case letter but 'm', so later items cannot match inside it |
| WebLog.UrlItemsAbsent | server/core/web/log.go:131-147 | a text without 'u' is untouched by the URL items, in either order |
| WebLog.StatusItemRendered | server/core/web/log.go:113-123 | the status item is logged as the status code in green for 200, red for 500 and yellow otherwise, whatever the other fields hold |
| WebLog.BytesItemRendered | server/core/web/log.go:78-102 | the bytes item is logged as the content length in its largest unit ("B", "kB", "mB", "gB") |
| WebLog.UriStemAsWritten | server/core/web/log.go:131-141 | "cs-uri-stem" is logged as the whole URI followed by "-stem", because the "uri" items are replaced first |
| WebLog.UriStemOrdered | server/core/web/log.go:131-147 | with the URL items replaced longest first, "cs-uri-stem" is logged as the path |
| WebLog.UriOrdered | server/core/web/log.go:131-135 | the reordering still logs "cs-uri" as the whole URI |
| KeySort.Insert | server/model/image.go:535-537 | the result holds the input's elements and the new one, one more than before |
| KeySort.InsertSorted | server/model/image.go:535-537 | inserting into a sequence sorted by key leaves it sorted |
| KeySort.InsertKeys | server/model/image.go:535-537 | the keys after inserting are the keys before together with the new element's key |
| KeySort.SortBy | server/model/image.go:535-537 | the result is a permutation of the input, sorted by key, with the same multiset of keys |
| KeySort.SortedByDistinctPositions | server/model/image.go:535-537 | when the keys differ pairwise and lie in 0 .. n-1, sorting puts every element at the position its key names |
| ImageModel.ConvertMD5 | server/model/image.go:42-48 | the result has 16 bytes, each equal to the digest's byte at the same place |
| ImageModel.Ext | server/model/image.go:157 | the extension is empty or starts with '.', ends the path, and holds no other '.' or '/' |
| ImageModel.ExtOfSuffix | server/model/image.go:157 | a name ending in '.' and a suffix without '.' or '/' has "." plus that suffix as extension |
| ImageModel.ExtOfPlain | server/model/image.go:157 | a path without '.' has an empty extension |
| ImageModel.NewImageFromPostedFile | server/model/image.go:141-180 | an undecodable file fails; an accepted image is rated G, named after the file, sized by the contents, owned by the uploader, carries the digest, the decoded dimensions and the lower-cased extension; only validation rejects a decodable file |
| ImageModel.UploadAcceptedIff | server/model/image.go:162-177 | a decodable upload is accepted iff validation is off or width and height reach 200, one of them reaches 300 and the size is at most 1 << 25 bytes |
| ImageModel.UploadFirstBrokenRule | server/model/image.go:163-177 | the width rule is checked first, then the height rule, and the size only once all dimension rules hold |
| ImageModel.UploadedTestImage | server/controller/upload_image_test.go:70-74 | a 275 x 364 gif of 58285 bytes named "image.gif" is accepted with those dimensions, that size and the extension ".gif" |
| ImageModel.SummaryEntry | server/model/image.go:93 | an entry starts with "(" |
| ImageModel.SummaryNotAvailableIff | server/model/image.go:86-96 | the tags summary is "N/A" exactly when the image has no tags |
| ImageModel.SummaryCons | server/model/image.go:86-96 | one tag gives its "(votes) value" entry, and each further tag is its entry, ", " and the summary of the rest |
| ImageModel.IndexIn | server/model/image.go:546-553 | a requested id gets the last position it holds in the list and no later one holds it; an id not requested gets 0 |
| ImageModel.OrderByRequest | server/model/image.go:535-570 | the images are permuted, and sorted by requested position when more than one id was asked for |
| ImageModel.DistinctPositions | server/model/image.go:546-574 | images with distinct requested ids get distinct positions below their number |
| ImageModel.RequestedOrder | server/model/image.go:535-574 | images answering a list of distinct ids, one per id, come back with the i-th image carrying the i-th id |
| ImageModel.AsInt64s | server/model/image.go:595-601 | one id per signature, in the signatures' order |
| ImageModel.SignatureIdsReadBack | server/model/image.go:576-582 | the comma-separated ids of a non-empty signature list split and parse back to the signatures' ids, in order |
| ImageModel.WeightedRandom | server/model/image.go:633-635 | asking for at least as many signatures as there are returns them unchanged |
| ImageModel.WeightedRandomKeepsAll | server/model/image.go:633-635 | in that case the ids handed on are the input's ids, in order |
| StringSets.Add | vendor/github.com/blendlabs/go-util/collections/string_set.go:9-13 | the entry becomes a member and every other membership stays as it was |
| StringSets.AddLength | vendor/github.com/blendlabs/go-util/collections/string_set.go:9-33 | adding grows the length by one exactly when the entry is new, and a repeated add changes nothing |
| StringSets.Remove | vendor/github.com/blendlabs/go-util/collections/string_set.go:22-28 | reports whether the entry was a member; afterwards it is not, and every other membership stays |
| StringSets.RemoveAfterAdd | vendor/github.com/blendlabs/go-util/collections/string_set.go:9-28 | removing an entry just added reports it and leaves the set without it |
| StringSets.AddAll | vendor/github.com/blendlabs/go-util/collections/string_set.go:9-13 | adding a list of entries makes exactly the old members and the listed entries members |
| StringSets.LengthCountsDistinct | vendor/github.com/blendlabs/go-util/collections/string_set.go:31-33 | a set filled from a list has as many members as the list has distinct entries |
| StringSets.Copy | vendor/github.com/blendlabs/go-util/collections/string_set.go:36-42 | the copy, built by adding the members in any order Go may visit them, has exactly the original's members |
| StringSets.ToArray | vendor/github.com/blendlabs/go-util/collections/string_set.go:45-51 | the array has one element per member, and its elements are exactly the members |
| StringSets.SetString | vendor/github.com/blendlabs/go-util/collections/string_set.go:54-56 | an empty set prints as "" and a one-member set as that member |
| EnvVars.EnvEntry | vendor/github.com/blendlabs/go-util/env/env.go:82-85 | an entry without '=' is skipped; otherwise the name is the text before the first '=' and the value the text after it |
| EnvVars.FromEnvironment | vendor/github.com/blendlabs/go-util/env/env.go:78-88 | no name read from the environment contains '=' |
| EnvVars.EnvironmentNames | vendor/github.com/blendlabs/go-util/env/env.go:78-88 | a name is set exactly when some entry carrying a '=' names it |
| EnvVars.EnvironmentLastWins | vendor/github.com/blendlabs/go-util/env/env.go:78-88 | a name takes the value of the last entry that names it |
| EnvVars.GetAfterSet | vendor/github.com/blendlabs/go-util/env/env.go:104-112 | a present key's value is read back even when empty, whatever the defaults; other keys read as before |
| EnvVars.BoolSpellings | vendor/github.com/blendlabs/go-util/env/env.go:117-127 | a present non-empty value is true iff it is "true" or "yes" in any case, or "1", and then the defaults are ignored; an absent or empty value gives the first default, or false |
| EnvVars.Int | vendor/github.com/blendlabs/go-util/env/env.go:130-138 | a present value is parsed as go-util's `ParseInt` does, 0 when it does not parse |
| EnvVars.HasKeys | vendor/github.com/blendlabs/go-util/env/env.go:181-188 | true iff every listed key is present, and so for no keys at all |
| EnvVars.Union | vendor/github.com/blendlabs/go-util/env/env.go:191-200 | the union holds the keys of both; the other's value wins a conflict and otherwise the receiver's value is kept |
| EnvVars.UnionIdentities | vendor/github.com/blendlabs/go-util/env/env.go:191-200 | union with the empty set on either side, or with itself, gives the set back |
| EnvVars.Keys | vendor/github.com/blendlabs/go-util/env/env.go:203-211 | one entry per key, and exactly the keys |
| EnvVars.ProductionIff | vendor/github.com/blendlabs/go-util/env/env.go:220-230 | production iff SERVICE_ENV is set to "preprod" or "prod"; production is prod-like, and the only other prod-like value is "beta" |
| SqlGen.ParamListParams | vendor/github.com/blend/go-sdk/db/invocation.go:588-593 | a value list of n placeholders numbers them `$from` to `$from+n-1`, in order |
| SqlGen.AssignmentsParams | vendor/github.com/blend/go-sdk/db/invocation.go:530-538 | a list of `name = $i` assignments numbers its placeholders consecutively from the first |
| SqlGen.AssignmentsRender | vendor/github.com/blend/go-sdk/db/invocation.go:530-538 | the assignments read as `name = $i` terms joined by the separator |
| SqlGen.GenerateGet | vendor/github.com/blend/go-sdk/db/invocation.go:506-514 | fails with no primary key exactly when the readable columns have no key |
| SqlGen.GetRendered | vendor/github.com/blend/go-sdk/db/invocation.go:516-543 | a get selects the readable columns of the table and tests each key against `$1`, `$2`, ... joined by AND |
| SqlGen.GenerateGetAll | vendor/github.com/blend/go-sdk/db/invocation.go:546-567 | a get-all selects the readable columns of the table with no placeholder |
| SqlGen.InsertValuesFacts | vendor/github.com/blend/go-sdk/db/invocation.go:578-594 | the insert lists its values as `$1` to `$n` for the n write columns and holds no ON CONFLICT clause |
| SqlGen.CreateFacts | vendor/github.com/blend/go-sdk/db/invocation.go:569-605 | a create numbers the write columns from 1 and ends in RETURNING exactly when the table has auto columns |
| SqlGen.CreateIfNotExistsParams | vendor/github.com/blend/go-sdk/db/invocation.go:607-657 | an insert-if-absent numbers the write columns from 1 |
| SqlGen.CreateIfNotExistsClauses | vendor/github.com/blend/go-sdk/db/invocation.go:636-652 | the ON CONFLICT DO NOTHING clause is present exactly when the table has primary keys, RETURNING exactly when it has auto columns |
| SqlGen.TuplesParams | vendor/github.com/blend/go-sdk/db/invocation.go:681-695 | the tuples number their placeholders 1 to rows times width, row after row |
| SqlGen.TuplesOpened | vendor/github.com/blend/go-sdk/db/invocation.go:682-695 | one tuple per row |
| SqlGen.CreateManyFacts | vendor/github.com/blend/go-sdk/db/invocation.go:659-700 | a bulk insert has one tuple per object and numbers its placeholders 1 to rows times write columns |
| SqlGen.UpdateParams | vendor/github.com/blend/go-sdk/db/invocation.go:702-742 | SET numbers the write columns 1 to w and WHERE numbers the keys w+1 to w+m |
| SqlGen.UpdateRendered | vendor/github.com/blend/go-sdk/db/invocation.go:711-736 | the update reads `col = $i` joined by commas after SET and `pk = $j` joined by AND after WHERE |
| SqlGen.TokenMap | vendor/github.com/blend/go-sdk/db/invocation.go:780-783 | the token map holds exactly the write column names |
| SqlGen.TokenMapPositions | vendor/github.com/blend/go-sdk/db/invocation.go:780-783 | with distinct names, a write column's token is its 1-based position in the insert list |
| SqlGen.UpdateSetParams | vendor/github.com/blend/go-sdk/db/invocation.go:795-800 | the update list's placeholders are the tokens of the updated columns, in order |
| SqlGen.UpdatesAreWritten | vendor/github.com/blend/go-sdk/db/invocation.go:747-750 | every column the conflict updates is one of the columns inserted |
| SqlGen.UpsertParams | vendor/github.com/blend/go-sdk/db/invocation.go:744-811 | an upsert numbers its offered values from 1 and, with keys, its update list reuses their tokens |
| SqlGen.UpsertSetsOfferedValues | vendor/github.com/blend/go-sdk/db/invocation.go:779-800 | each updated column is set to the placeholder of its own value in the insert list |
| SqlGen.UpsertClauses | vendor/github.com/blend/go-sdk/db/invocation.go:779-805 | the ON CONFLICT clause is present exactly when there are keys, RETURNING exactly when there are auto columns |
| SqlGen.GenerateExists | vendor/github.com/blend/go-sdk/db/invocation.go:813-819 | fails with no primary key exactly when there is none |
| SqlGen.ExistsRendered | vendor/github.com/blend/go-sdk/db/invocation.go:813-837 | an existence check selects 1 from the table, testing each key against `$1`, `$2`, ... joined by AND |
| SqlGen.GenerateDelete | vendor/github.com/blend/go-sdk/db/invocation.go:839-845 | fails with no primary key exactly when there is none |
| SqlGen.DeleteRendered | vendor/github.com/blend/go-sdk/db/invocation.go:839-863 | a delete removes from the table, testing each key against `$1`, `$2`, ... joined by AND |
| SqlGen.GenerateTruncate | vendor/github.com/blend/go-sdk/db/invocation.go:865-876 | a truncate names the table and has no placeholder |
| ConnString.ConnectionString | vendor/github.com/blendlabs/spiffy/db_connection.go:193-200 | a set DSN is returned verbatim; the only error is no DSN together with no database name |
| ConnString.QueryEscape | vendor/github.com/blendlabs/spiffy/db_connection.go:204-216 | the escaped user name, password and SSL mode consist of unreserved characters, '+' and '%' only |
| ConnString.EscapeRoundTrip | vendor/github.com/blendlabs/spiffy/db_connection.go:204-216 | unescaping an escaped user name, password or SSL mode gives it back |
| ConnString.EscapedHasNoSeparators | vendor/github.com/blendlabs/spiffy/db_connection.go:212-216 | no ':', '@', '/' or '?' survives escaping, so escaped credentials cannot be confused with the separators around them |
| ConnString.PathReads | vendor/github.com/blendlabs/spiffy/db_connection.go:202-205 | the text after the host reads as the database and the SSL mode, which is "disable" when none is set |
| ConnString.HostPortReads | vendor/github.com/blendlabs/spiffy/db_connection.go:207-210 | the ":port" segment is there exactly when a port is set |
| ConnString.AuthorityReads | vendor/github.com/blendlabs/spiffy/db_connection.go:212-218 | "user:password@" when both are set, "user@" when only the user name is, and no credentials (and no password) without a user name |
| ConnString.ConnectionStringReadsBack | vendor/github.com/blendlabs/spiffy/db_connection.go:193-218 | without a DSN the connection string reads back as the user name, password (with a user name), host, port, database and SSL mode or "disable" |
| GoWeb.Handle | vendor/github.com/blendlabs/go-web/app.go:716-734 | an empty path, a path not starting with '/' and a path already registered for the method are refused, and nothing else is; otherwise the path routes for its method and every other route is kept |
| GoWeb.HandleCommutes | vendor/github.com/blendlabs/go-web/app.go:716-734 | registering the same route a second time is refused, and two different registrations that each succeed give the same table in either order |
| GoWeb.StaticMountRoute | vendor/github.com/blendlabs/go-web/app.go:859-869 | a static mount route starts with the given route and ends in the `*filepath` wildcard |
| GoWeb.StaticMountRouteShape | vendor/github.com/blendlabs/go-web/app.go:859-869 | a route already ending in the wildcard is kept; otherwise a '/' and the wildcard are appended, sharing a trailing '/'; mounting twice is mounting once |
| GoWeb.FinalMiddleware | vendor/github.com/blendlabs/go-web/app.go:1064-1076 | filling the array from its end puts the route's middleware first and the app's defaults after them, each in its own order |
| GoWeb.MiddlewarePipeline | vendor/github.com/blendlabs/go-web/app.go:1059-1077 | with no middleware the action is used bare; otherwise it is nested in the route's middleware followed by the defaults |
| GoWeb.ToggleTrailingSlash | vendor/github.com/blendlabs/go-web/app.go:763-767 | the redirect target drops a trailing '/' from a path longer than one character, and otherwise adds one |
| GoWeb.ToggleTwice | vendor/github.com/blendlabs/go-web/app.go:763-767 | toggling twice gives back any path longer than "/" that does not end in two slashes |
| GoWeb.RedirectCodeIff | vendor/github.com/blendlabs/go-web/app.go:756-759 | the trailing-slash redirect is 301 exactly for GET and 307 for every other method |
| GoWeb.Serve | vendor/github.com/blendlabs/go-web/app.go:745-797 | a registered route is served; a redirect goes to a registered route with the method's code, only when enabled and never for CONNECT or "/"; an OPTIONS or 405 answer needs its switch and a non-empty Allow list |
| GoWeb.AllowedMethodsIff | vendor/github.com/blendlabs/go-web/app.go:1079-1115 | a method is listed exactly when it has routes, is not OPTIONS, and for a path other than "*" is not the requested method and routes the path; none is listed twice |
| GoWeb.AccumulateIsJoin | vendor/github.com/blendlabs/go-web/app.go:1087-1091 | the Allow accumulation is the methods joined with ", " |
| GoWeb.AllowedHeader | vendor/github.com/blendlabs/go-web/app.go:1079-1115 | the Allow header is the listed methods joined with ", ", followed by OPTIONS for a path other than "*" when any is listed |
| GoWeb.AllowedEmptyIff | vendor/github.com/blendlabs/go-web/app.go:1079-1115 | the Allow header is empty exactly when no method other than OPTIONS (and, for a path other than "*", the requested one) routes the path |
| GoWeb.WithDefaultHeader | vendor/github.com/blendlabs/go-web/app.go:172-178 | the key takes the value, a nil map becoming empty first, and every other header is kept |
| GoWeb.HstsOrder | vendor/github.com/blendlabs/go-web/app.go:971-980 | the HSTS header starts with the max-age directive, then includeSubDomains when set and preload last when set, joined by "; " |
| GoWeb.CreateCtxState | vendor/github.com/blendlabs/go-web/app.go:1047-1054 | a context's state holds its own keys and the app's, the app's value winning |
| GoWeb.BindAddrPort | vendor/github.com/blendlabs/go-web/config.go:74-85 | a set bind address wins; else a positive port gives ":" and a number that reads back as the port; else the first default or go-web's default |
| GoWeb.GetDefaultHeaders | vendor/github.com/blendlabs/go-web/config.go:127-140 | the default headers are the inherited ones and the config's own, and the config's value wins |
| GoWeb.LastInheritedWins | vendor/github.com/blendlabs/go-web/config.go:127-140 | a header the config does not set takes the value of the last inherited set that has it |
| GoWeb.SecureSchemeIgnoresCase | vendor/github.com/blendlabs/go-web/config.go:148-159 | the secure-scheme test ignores the case of the base URL, and a base URL starting with a lower-case secure scheme makes the config secure |
| Weekdays.DayBit | vendor/github.com/blendlabs/go-chronometer/schedule.go:103 | a day's bit in a 64-bit word: the day itself below 64, no bit for a negative day or one of 64 and over |
| Weekdays.MasksPartition | vendor/github.com/blendlabs/go-chronometer/schedule.go:39-46 | the weekday and weekend masks share no day and together make every day |
| Weekdays.MaskWords | vendor/github.com/blendlabs/go-chronometer/schedule.go:39-46 | as words the weekday, weekend and all-days masks are 62, 65 and 127 |
| Weekdays.WeekDayIff | vendor/github.com/blendlabs/go-chronometer/schedule.go:48-56 | a day of the week is a weekday exactly when it is in the weekday mask and a weekend day exactly when it is Saturday or Sunday, and never both |
| Weekdays.ListsMatchMasks | vendor/github.com/blend/go-sdk/cron/util.go:57-99 | the day lists hold exactly the days of the matching masks, the week in order, weekdays only in the weekday list and weekend days only in the weekend list |
| Chronometer.TimeOfDay | vendor/github.com/blendlabs/go-chronometer/schedule.go:106 | the time of day differs from hours, minutes and seconds given by a whole number of days, as `time.Date` normalises it |
| Chronometer.WeeklyMask | vendor/github.com/blendlabs/go-chronometer/schedule.go:100-104 | the mask holds the listed days that fit in a 64-bit word, and nothing else |
| Chronometer.WeeklyAtDays | vendor/github.com/blendlabs/go-chronometer/schedule.go:99-107 | a weekly schedule accepts a day of the week exactly when it was listed |
| Chronometer.CheckDayIff | vendor/github.com/blendlabs/go-chronometer/schedule.go:172-176 | the mask test holds exactly when the day's bit is set |
| Chronometer.DailySearch | vendor/github.com/blendlabs/go-chronometer/schedule.go:186-192 | the search answers the first of days 0 to 7 whose candidate is on a masked weekday and after `after`, or none when no day qualifies |
| Chronometer.NextRunTime | vendor/github.com/blendlabs/go-chronometer/schedule.go:128-241 | only the on-demand schedule gives no next run time |
| Chronometer.OnDemandNever | vendor/github.com/blendlabs/go-chronometer/schedule.go:128-143 | the on-demand schedule never fires and the immediate one fires now |
| Chronometer.IntervalNext | vendor/github.com/blendlabs/go-chronometer/schedule.go:152-164 | after a run the next is `every` later; before the first it is `every` after now, plus the start delay when there is one |
| Chronometer.DailyNext | vendor/github.com/blendlabs/go-chronometer/schedule.go:179-195 | with a masked weekday the next run is after `after`, on a masked weekday, at the time of day, and no earlier instant has all three |
| Chronometer.DailyEmptyMask | vendor/github.com/blendlabs/go-chronometer/schedule.go:179-195 | a mask without a day of the week gives the epoch |
| Chronometer.QuarterHourNext | vendor/github.com/blendlabs/go-chronometer/schedule.go:201-226 | the next run is a quarter-hour boundary strictly after `after` and at most 15 minutes later |
| Chronometer.OnTheHourNext | vendor/github.com/blendlabs/go-chronometer/schedule.go:232-241 | the next run is the start of the following hour |
| Cron.Min | vendor/github.com/blend/go-sdk/cron/util.go:27-41 | the minimum is one of the two, zero only when both are, and otherwise no later than either set time |
| Cron.Max | vendor/github.com/blend/go-sdk/cron/util.go:44-49 | the maximum is one of the two and no earlier than either, zero counting as an ordinary instant |
| Cron.MinMaxLaws | vendor/github.com/blend/go-sdk/cron/util.go:27-49 | both are symmetric; an unset time leaves the other as the minimum; with two set times minimum and maximum are the two |
| Cron.Const | vendor/github.com/blend/go-sdk/cron/util.go:112-137 | a constant provider always gives back its value |
| Cron.Times | vendor/github.com/blend/go-sdk/cron/times_schedule.go:24-30 | a countdown starts with all its runs left |
| Cron.TimesCountdown | vendor/github.com/blend/go-sdk/cron/times_schedule.go:44-53 | while runs are left each call is the inner schedule's and counts down; once none are left every call answers zero |
| Cron.TimesExhausted | vendor/github.com/blend/go-sdk/cron/times_schedule.go:44-53 | after n calls every call of `Times(n, _)` answers zero |
| Cron.TimesStringReadsBack | vendor/github.com/blend/go-sdk/cron/times_schedule.go:56-61 | the text reads back as the number of runs left, a '/', and the number of runs |
| Cron.OnceAtNext | vendor/github.com/blend/go-sdk/cron/once_at.go:38-46 | the answer is the schedule's time or zero: its time for a first run or while it lies ahead, zero once `after` reaches it |
| Cron.OnceAtFiresOnce | vendor/github.com/blend/go-sdk/cron/once_at.go:38-46 | fed its own answer, a one-shot schedule answers its time and then zero |
| Cron.Then | vendor/github.com/blend/go-sdk/cron/immediate_schedule.go:26-29 | the continuation is stored and whether the schedule ran is unchanged |
| Cron.ImmediateNext | vendor/github.com/blend/go-sdk/cron/immediate_schedule.go:32-41 | the first call answers now and marks the schedule as run; later calls defer to the continuation, or answer zero without one |
| Cron.ImmediatelyThen | vendor/github.com/blend/go-sdk/cron/immediate_schedule.go:15-41 | `Immediately().Then(s)` answers now once and then exactly what `s` answers |
| OAuthProfile.Username | vendor/github.com/blendlabs/go-google-oauth/profile.go:21-34 | the user name holds no '@': it is the address before its first '@', the whole address when there is none, and "" for an empty address |
| OAuthProfile.UsernameOfAddress | vendor/github.com/blendlabs/go-google-oauth/profile.go:21-34 | the user name of "local@domain" is the local part |
| WebSession.Put | vendor/github.com/wcharczuk/go-web/session_cache.go:16-18 | after adding, the id is active and answers the session; every other id is active and answers as before |
| WebSession.Expire | vendor/github.com/wcharczuk/go-web/session_cache.go:21-23 | after expiring, the id is not active and every other id is active and answers as before |
| WebSession.Get | vendor/github.com/wcharczuk/go-web/session_cache.go:32-34 | the cached session for an active id, nil exactly for an id that is not active |
| WebSession.CacheLaws | vendor/github.com/wcharczuk/go-web/session_cache.go:16-34 | a new cache holds nothing; adding an id twice keeps the second session; expiring an id just added restores the cache; expiring twice is expiring once |
| WebSession.NewSession | vendor/github.com/wcharczuk/go-web/session.go:9-17 | the new session has the given ids and time and an empty, non-nil state |
| WebSession.Param | vendor/github.com/wcharczuk/go-web/request_context.go:95-116 | one of the query, header, form and cookie values, the query's whenever it is non-empty, and "" exactly when all four are empty |
| SessionUser.SetUser | server/webutil/auth.go:32-37 | the ids and the time are kept, the state becomes non-nil, and every key but the user key keeps its value |
| SessionUser.SetThenGetUser | server/webutil/auth.go:19-37 | reading the user back after storing it gives the same user, nil included |
| SessionUser.GetUserNil | server/webutil/auth.go:19-29 | no user exactly for a nil session, a missing key, a value of another type or a nil user |
| SessionUser.LoginRedirectReadsBack | server/webutil/auth.go:42-52 | the login redirect goes to "/" with an empty query exactly when coming from "/", and otherwise its `redirect` value unescapes to the page the visitor came from |
| SessionUser.FetchSession | server/webutil/auth.go:57-86 | a lookup error is passed on; a zero row is no session; a session found comes from a non-zero row of a non-zero user and carries the row's ids and time |
| SessionUser.PersistSession | server/webutil/auth.go:91-99 | the session's row is inserted unless its id has one; no other row changes |
| SessionUser.PersistThenFetch | server/webutil/auth.go:57-99 | a session persisted under a new id fetches back with its ids, its time and its user |
| SessionUser.ParseIntLenient | server/controller/util.go:34-42 | the answer always fits in 64 bits; malformed text gives 0 and any value that fits gives that value |
| SessionUser.ParseIntLenientReadsFormat | server/controller/util.go:34-42 | the decimal text of a 64-bit integer parses back to it |
| AuthManager.NewAuthManager | vendor/github.com/blendlabs/go-web/auth_manager.go:34-40 | a new manager has an empty cache, session-bound cookies, the default parameter name, no handlers and no secure flag |
| AuthManager.SetCookieAsSecure | vendor/github.com/blendlabs/go-web/auth_manager.go:71-73 | the secure flag is set to the value given and nothing else of the manager changes |
| AuthManager.CookieSecureOnlyWhenSet | vendor/github.com/blendlabs/go-web/auth_manager.go:146-148 | cookies are secure only once the flag is set, and then exactly as set |
| AuthManager.CookieModeToggles | vendor/github.com/blendlabs/go-web/auth_manager.go:58-67 | after `SetCookiesAsSessionBound` the session cookie written carries no expiry; after `SetCookieTimeout` it carries the provider's expiry for the context |
| AuthManager.InjectSessionCookie | vendor/github.com/blendlabs/go-web/auth_manager.go:135-143 | a cookie named by the parameter with the session id, path "/" and the secure flag is appended unless cookies are neither session-bound nor timed; nothing else changes |
| AuthManager.Login | vendor/github.com/blendlabs/go-web/auth_manager.go:117-132 | a failing persist handler fails the login and changes nothing; otherwise the new session is cached and its cookie written |
| AuthManager.Logout | vendor/github.com/blendlabs/go-web/auth_manager.go:151-168 | without a session nothing changes; otherwise the id leaves the cache, the cookie is expired, and the answer is exactly the remove handler's answer for that id, none without a handler |
| AuthManager.ReadSessionID | vendor/github.com/blendlabs/go-web/auth_manager.go:171-181 | a non-empty header wins, then the cookie, then "" |
| AuthManager.VerifySession | vendor/github.com/blendlabs/go-web/auth_manager.go:184-215 | a cached id answers from the cache; no fetch handler, a nil or a zero session give no session and expire the cookie; a fetch error is passed on; a fetched session is cached |
| AuthManager.Redirect | vendor/github.com/blendlabs/go-web/auth_manager.go:235-243 | the answer is the redirect handler's URL when it gives one and otherwise not authorized |
| AuthManager.SessionRequired | vendor/github.com/blendlabs/go-web/session_middleware.go:64-122 | the action runs exactly when a session is verified and not rejected by the validate handler, on a context carrying it; no id, no session or a rejected one redirect; a verify error is an internal error |
| AuthManager.RequiredRunsAsAware | vendor/github.com/blendlabs/go-web/session_middleware.go:18-122 | whenever the required middleware runs the action, the aware one runs it on the same context with the same cache |
| AuthManager.LoginVerifyLogout | vendor/github.com/blendlabs/go-web/auth_manager.go:117-215 | a signed-in session verifies from the cache, and after signing out it is no longer cached |
| AuthManager.LoginCookieReadsBack | vendor/github.com/blendlabs/go-web/auth_manager.go:117-181 | the cookie a login writes, sent back without a header, reads as the session id |
| SessionManager.NewSessionManager | vendor/github.com/wcharczuk/go-web/session_manager.go:29-34 | a new manager has an empty cache, session-bound cookies and no handlers |
| SessionManager.SetCookieTimeout | vendor/github.com/wcharczuk/go-web/session_manager.go:56-59 | setting a timeout makes cookies timed and changes nothing else |
| SessionManager.InjectThenGet | vendor/github.com/wcharczuk/go-web/session_manager.go:87-110 | getting the session after injecting it gives it back, nil included |
| SessionManager.GetSession | vendor/github.com/wcharczuk/go-web/session_manager.go:103-110 | nil when the state key is missing or holds another type |
| SessionManager.Login | vendor/github.com/wcharczuk/go-web/session_manager.go:113-134 | a failing persist handler fails the login and changes nothing; otherwise the session is cached, and given a context its cookie is written, without expiry or with the timeout's |
| SessionManager.Logout | vendor/github.com/wcharczuk/go-web/session_manager.go:137-150 | the id leaves the cache, the cookie is expired given a context, and the answer is exactly the remove handler's answer for that id, none without a handler |
| SessionManager.VerifySession | vendor/github.com/wcharczuk/go-web/session_manager.go:153-176 | a cached id answers from the cache; no fetch handler is an error; any non-nil fetched session, a zero one included, is cached |
| SessionManager.SessionAware | vendor/github.com/wcharczuk/go-web/session_middleware.go:18-47 | without an id the action runs on the context unchanged; with one a verify error is an internal error and otherwise the session, nil included, is injected |
| SessionManager.RequiredRunsAsAware | vendor/github.com/wcharczuk/go-web/session_middleware.go:18-123 | whenever the required middleware runs the action, the aware one runs it alike, and the action finds a session |
| SessionManager.LoginVerifyLogout | vendor/github.com/wcharczuk/go-web/session_manager.go:113-176 | a signed-in session verifies from the cache without a fetch, and after signing out it is no longer cached |
| ServerAuth.NewSession | server/core/auth/session_cache.go:53-60 | a new session has the given ids and time, no user and an empty state |
| ServerAuth.Add | server/core/auth/session_cache.go:23-34 | a failed user lookup answers its error and leaves the cache; otherwise the session carries the user and is cached under its id |
| ServerAuth.InjectThenGet | server/auth/auth.go:41-53 | getting the session after injecting it gives it back, nil included |
| ServerAuth.VerifySession | server/auth/auth.go:86-103 | a cached id answers from the cache; a read error is passed on; a zero row is no session; any other row is added to the cache through the user lookup, whose error is passed on |
| ServerAuth.VerifyCaches | server/auth/auth.go:86-103 | a session verified from the table answers the same on the next verify, whatever the table then holds |
| ServerAuth.SessionAware | server/auth/auth.go:120-154 | no result provider panics; without an id the action runs unchanged; otherwise a verify error is an internal error and the session, nil included, is injected |
| ServerAuth.SessionRequired | server/auth/auth.go:172-211 | the action runs exactly when a session of a user who is not banned is verified; no id, no session and a banned user are not authorized |
| ServerAuth.RequiredSessionIsUsable | server/auth/auth.go:120-211 | an action behind the required middleware always finds a session of a user who is not banned, as the aware middleware would hand it |
| ServerAuth.Login | server/auth/auth.go:61-74 | a failed row insert fails the login and changes nothing; otherwise the session is cached and a secure cookie for the id expiring a month later is written |
| ServerAuth.Logout | server/auth/auth.go:77-83 | the id leaves the cache, the cookie is expired given a context, and the answer is the row deletion's |
| ServerAuth.LoginVerifyLogout | server/auth/auth.go:61-103 | after a login whose user lookup succeeds the id verifies from the cache as a session of that user, and after logging out it is no longer cached |
| JsValues.LooseEquals | _client/src/js/directives.js:197-199 | `==` holds for equal strings, between `undefined` and `null`, and whenever `===` holds |
| JsValues.LooseEqualsLaws | _static/js/directives.js:182-184 | `==` is symmetric and reflexive, a value equals `undefined` only when nullish, and an object equals a string only when it reads "[object Object]" |
| CurrentUserView.CurrentUserOf | server/controller/api.go:725-733 | signed in exactly with a session, then the user's view, else the signed-out view |
| CurrentUserView.FromUser | server/viewmodel/current_user.go:24-31 | the view carries the user's uuid, name and roles, signed in, with no login URL |
| CurrentUserView.LoggedOut | server/viewmodel/current_user.go:34-37 | the view is signed out, without roles or uuid, with the login URL |
| CurrentUserView.ToJson | server/viewmodel/current_user.go:13-21 | the JSON has exactly the six keys of the view, `login_url` included; `is_logged_in` and `is_moderator` read as the view's flags and `user_uuid` is its uuid |
| CurrentUserView.JsonLacksClientFields | server/viewmodel/current_user.go:13-21 | `uuid` and `is_banned` read as `undefined`, so a banned user's JSON equals that of the same user unbanned |
| VoteButton.Vote | _client/src/js/directives.js:148-158 | one call per click, on the link's image and tag: without a vote the arrow decides up or down, with one either arrow removes it; its success emits `voted` |
| VoteButton.Delete | _client/src/js/directives.js:160-162 | the remove mark deletes the link and its success emits `voted` |
| VoteButton.PathReadsBack | _client/src/js/directives.js:7-27 | verb and prefix tell the four calls apart, and the rest of the path splits back into the image and tag uuids |
| VoteButton.VoteMarks | _client/src/js/directives.js:201-211 | the up and down marks are never both lit, are both dark exactly without a vote, depend on the vote alone, and while one is lit a click removes the vote |
| VoteButton.VoteThenVoteAgain | _static/js/directives.js:133-143 | a click without a vote casts one and the next click on the resulting vote removes it |
| VoteButton.CountOnlyHidesArrows | _client/src/js/directives.js:164-175 | the bare count is shown only while the arrows are hidden; an earlier client tag button shows it exactly when the arrows are hidden, a current client image button exactly when the user is signed out |
| VoteButton.CreatorCannotRemoveLink | _client/src/js/directives.js:197-199 | with the server's JSON a tag's creator who is not a moderator gets no remove mark, and any viewer gets it on an object without `created_by` |
| VoteButton.CanEditMatchesServer | server/controller/api.go:687-713 | with `user_uuid` and the ban flag, the remove mark shows exactly to signed-in, unbanned moderators and tag creators, the users the link deletion accepts |
| VoteButton.BannedUserSeesVoteControls | _client/src/js/directives.js:173-175 | a banned user's JSON shows the arrows, and the remove mark to a banned moderator |
| VoteButton.BannedUserHidden | _client/src/js/directives.js:173-175 | with the ban flag sent, the arrows show exactly to signed-in users who are not banned |
| CurrentUserCache.CurrentUser | _static/js/directives.js:42-53 | the server is asked exactly when nothing is stored or the stored user is signed in; the user handed on is its answer or the stored one, and is stored |
| CurrentUserCache.CurrentUserSettles | _static/js/directives.js:33-53 | after a signed-out answer the next call uses the store without asking; after a signed-in one it asks again |
| CurrentUserCache.SignedOutSticks | _static/js/directives.js:33-53 | once a signed-out user is handed on, every later call hands on that user without asking the server |
| ClientPages.BuildLookup | _client/src/js/controllers.js:145-152 | the loop builds the lookup of the reference definition |
| ClientPages.LookupLastWins | _client/src/js/controllers.js:145-163 | a key is in the lookup exactly when some item has it, and then maps to the last such item |
| ClientPages.Refetch | _client/src/js/controllers.js:136-164 | both lookups are deleted, the tag list too on an image page only; the list and links are requested, and the user's votes exactly when signed in (and, on this image page, not banned) |
| ClientPages.Receive | _static/js/controllers.js:155-176 | the list is taken as is, links and votes become lookups keyed by `tag_uuid` on an image page and `image_uuid` on a tag page |
| ClientPages.LinksComeFromAnswers | _client/src/js/controllers.js:145-152 | every link the page shows after a refetch was carried by an answer, under its own key |
| ClientPages.VotedRebuilds | _client/src/js/controllers.js:199-201 | after a vote the same answers give the same page whatever it held before (a tag page's list aside), and every link shown came with an answer |
| ClientPages.GenerationsDifferOnBans | _client/src/js/controllers.js:154-163 | the two clients clear alike, and differ on asking for the user's votes exactly on an image page of a signed-in, banned user |
| ModerationPager.NextPage | _client/src/js/controllers.js:315-322 | the page moves on, with a request for its offset, exactly when a full page arrived |
| ModerationPager.PreviousPage | _client/src/js/controllers.js:324-331 | the page moves back, with a request for its offset, exactly from a page after the first |
| ModerationPager.PagerStaysInRange | _static/js/controllers.js:296-325 | whatever the clicks and answers, the page stays at or above 0 and every request is a whole page at a non-negative multiple of 50 |
| ModerationPager.PagerButtonsInverse | _client/src/js/controllers.js:307-331 | previous and next are enabled exactly when they send a request, and undo each other |
| ClientActions.SearchImages | _client/src/js/controllers.js:27-33 | the results are emptied exactly for a query that is not a non-empty string; otherwise the search route of the query (the earlier client searching first) |
| ClientActions.SearchSlack | _client/src/js/controllers.js:48-54 | the results are emptied exactly for a query that is not a non-empty string; otherwise the Slack search route of the query |
| ClientActions.SearchRouteReadsBack | _static/js/controllers.js:31-41 | both clients clear on the same queries, and the route reads back as the query |
| ClientActions.Moderate | _static/js/controllers.js:74-102 | a request is made exactly for a moderator who confirmed (the content rating asks no confirmation), for the image, with the edit the button names |
| ClientActions.ModerationNeedsModerator | _client/src/js/controllers.js:97-113 | with the server's JSON only a signed-in moderator's clicks send a request, and delete is the same request in both clients |
| ClientActions.Typeahead | _static/js/controllers.js:117-135 | no callback for a `null` answer; otherwise the usable tag values, or `[""]` when there are none |
| ClientActions.TagValuesExact | _static/js/controllers.js:120-126 | the collected values are truthy, each comes from a usable result, and each usable result's value is collected |
| ClientActions.TypeaheadPlaceholder | _static/js/controllers.js:117-135 | the placeholder is offered exactly when no result is usable |

## Left out

- Connection failures and driver errors: every statement can fail for reasons outside the model (network, timeouts); only constraint violations are modelled.
- Concurrency between requests and transaction isolation: each statement runs alone.
- Ledger.InsertTag: PostgreSQL stores a value that is too long only by trailing spaces by cutting the spaces off; the model refuses every value wider than 32 characters with `ValueTooLong`, the same as `Ledger.SetTagValue`.
- Ledger: column widths other than tag_value's are not modelled; the other `varchar` columns hold generated uuids, provider profile fields and image metadata that the modelled operations do not write.
- TagValues.CleanTagValue: letters, digits, white space and case mapping are ASCII only; Go's `unicode` classes and `strings.ToLower` also cover the rest of Unicode.
- Clock values (`time.Now()`) are parameters.
- Rows.First: a query without `ORDER BY` returns whichever matching row Postgres reads first; the model takes the first in storage order.
- Request handling around the handlers: routing, reading route parameters, session lookup and the JSON encoding of responses; a handler takes the session, the parsed parameters and the decoded body (`None` when it does not decode).
- Server-generated uuids and the S3 file deletion in `deleteImageAction` are parameters (`uuid`, `fileDeleteFails`).
- Errors of the single-row reads in the handlers (InternalError on a failed `GetImageByUUID` and the like) are not modelled; only constraint violations and `ILIKE` pattern errors fail.
- ApiVotes.DeleteUserVoteAction: the count update runs in a transaction and the vote deletion outside it; the model applies both together, as they do when neither fails.
- Voting.CreateOrUpdateVote: its statements (the summary insert or update, the vote delete, the vote insert) run without a transaction, each committed on its own, so when a later one fails the earlier writes stay; the model's error carries no database and drops them. With the handler's check for an existing vote this happens only when the vote insert fails its users foreign key, and sessions reference users by a foreign key and no user is ever deleted.
- Voting.CreateOrIncrementVote: the same for its summary write followed by the vote insert: a failed insert leaves the summary written, which the model drops.
- Voting.CreateOrIncrementVoteErr: the same as `Voting.CreateOrIncrementVote`, whose statements it issues.
- ApiVotes.VoteAction: the vote handlers pass no transaction (server/controller/api.go:610), so a vote whose row insert fails leaves the link's summary counting a vote that has no row; the model answers the error with the database unchanged, and `ApiVotes.VoteActionKeepsInvariants` holds for the model only because of that. The insert fails only for a voter with no users row, which the app does not produce.
- Merge.MergeTags: the source reads the from-tag's links through a query that also joins `users` on `last_vote_by` (server/model/manager.go:480-507), and vote_summary has no foreign key on that column, so a link whose last voter has no users row is skipped and the final tag delete then fails its foreign key; the model moves every link, so `Merge.MergeTagsClears` claims success where the source fails. A last voter without a users row arises only from the partial vote write of the `ApiVotes.VoteAction` line above.
- ApiUsers.UpdateUserAction and ApiImages.UpdateImageAction: the moderation entries are queued before the update, so a failed update still logs them; the model's update does not fail.
- The moderation queue is the list of entries a handler queues; writing them to the moderation table is not modelled.
- LoggerUtil: strings are byte strings in Go; the model uses `char` and the ASCII letter ranges, which is what the byte loops compare.
- LoggerUtil.GetIP: the headers' values and the host `net.SplitHostPort` takes from the remote address are parameters; a remote address that does not split gives an empty host in Go.
- LoggerUtil.EnvFlagIsSet and EventFlags.EventsFromEnvironment: the variable's value is a parameter (empty when unset).
- The `stateAs*` conversions of vendor/github.com/blendlabs/go-logger/util.go:53-114 are type assertions on `interface{}` values and are not modelled.
- EventFlags: a `uint64` flag word is modelled as the set of its bit positions below 64, so `&` is intersection, `|` union and `^` symmetric difference.
- EventFlags.ExpandEventNames: Go visits a map in an unspecified order; the order is a parameter, any order of the table's names, and the round trip is proved for every order.
- EventFlags.EventFlagAny: the test `reference&value > 0` on an unsigned word is read as "not zero".
- The go-util functions RandomString, RandomStringWithNumbers and RandomNumbers (randomness), ParseFloat32/64 and Float32/64ToString (floating point), RegexMatch (regular expressions), IsCamelCase (Unicode classes), ColorFixedWidth and ColorFixedWidthLeftAligned (`fmt` width formatting) are not modelled; Base64Encode is `Base64.Encode` and Base64Decode is `Base64.DecodeString`, which skips '\r' and '\n' as Go's decoder does, IntToString and Int64ToString are `Decimal.FormatInt`.
- Integrations: Go strings are byte strings; the model's `ByteString` holds characters below 256, one per byte, and a query's length is counted in those bytes.
- Integrations.ParseCallbackID: Go's base 64 decoder returns the bytes it decoded before an error, which the handler keeps; those bytes are the parameter `undecodable`, used only when `Base64.DecodeString` finds a character outside the alphabet, a short group or data after padding.
- Integrations: the team, image and search lookups (`GetSlackTeamByTeamID`, `GetImageByUUID`, `SearchImagesBestResult`) are parameters; `SlackLookup` and `ActionLookup` say which lookup each handler asks for.
- Integrations: reading and URL-unescaping the payload and decoding its JSON are one `Option` (None when any of them fails); a failed JSON encoding of a reply, and the search-history logging, are not modelled, and the team-disabled message is never used by the handlers.
- WebLog: the time stamp (`time.Now`), the elapsed time as `%v` prints it, the server's address (`core.ConfigLocalIP`) and the request's URL, path and query are fields of `RequestFields`; `Log`, `Logf` and `LogError` only print and are not modelled.
- WebLog: the lemmas about a rendered item assume URL texts without the letter 'u', so that no item can match inside a replaced value; the substitution itself is defined for every format and request.
- KeySort.SortBy: Go's `sort.Sort` is not stable, so images with equal positions (ids not requested, or requested twice) may come back in another order than the model's insertion sort gives; with distinct requested ids the order is fully determined and the model's result is Go's.
- ImageModel.NewImageFromPostedFile: decoding the image header (`image.DecodeConfig`), the MD5 digest and `NewImage`'s uuid and clock are parameters; the error messages are not modelled, only which rule failed; the S3 fields are filled elsewhere and are not part of the record.
- ImageModel: the database reads of `GetImagesByID` and the other queries are not modelled; `OrderByRequest` takes the images they return.
- ImageModel.WeightedRandom: the random shuffles and the score-weighted selection run on floating-point scores and a random source; the selection is the parameter `sampled`, and the signature scores, `TotalScore`, `NormalizeScores` and `String` are not modelled.
- StringSets and EnvVars: Go maps are shared references and the model's sets and maps are values, so "the copy is independent" and "neither input is mutated" hold by construction; where Go's map order shows (`Copy`, `ToArray`, `String`, `Keys`) it is a parameter, any order that visits each key once.
- EnvVars: `os.Environ`, `os.Getenv` (`Restore`) and the package-level cached set with its lock are not modelled; `FromEnvironment` takes the entries. `Int64`, `Bytes`, `Base64` and `ServiceSecret` convert to byte slices or 64-bit integers and are not modelled; `Int` stands for the integer readers.
- SqlGen: go-sdk's `column_collection.go` is not part of this model; the column filters (`NotReadOnly`, `NotAutos`, `PrimaryKeys`, ...) are modelled from their names and flags, `WriteColumns` is taken to be the non-read-only, non-auto columns (the filters `generateUpsert` spells out), and `ColumnNamesCSV` a comma join of the names.
- SqlGen: the table-name lookup, reflection over the Go struct, the buffer pool and the statement cache are not modelled; a statement is its label and its body, a list of text pieces and numbered placeholders.
- SqlGen.GenerateUpdate: with no primary key the Go code still emits " WHERE " with nothing after it; the model does the same and proves nothing about how the database takes it.
- ConnString: Go's `net/url` is not part of this model; `QueryEscape` and `QueryUnescape` follow its documented query-component rules (unreserved letters, digits and `-_.~` kept, a space as '+', every other byte as "%XY"). The user name, password and SSL mode are byte strings; the error's message text is not modelled.
- ConnString.ConnectionStringReadsBack: holds for a host without '@', ':' or '/', a port without '@' or '/' and a database name without '?'; the Go code does not escape those settings, so other values can make the string ambiguous.
- GoWeb: go-web's `tree.go` (the radix tree, its route parameters and wildcards), `NestMiddleware` and its constants file are not part of this model; a path routes when it was registered as it is, a second registration of a path for the same method is refused as the route tree's `addRoute` panics on it (conflicts between different wildcard paths are not modelled), `getValue`'s trailing-slash recommendation is "the path with its trailing '/' toggled is registered", and the HSTS directive texts and the secure schemes are parameters.
- GoWeb: handlers, rendering, the view cache, logging, panics recovery, TLS and the listener are not modelled; `Handle`'s panics are the errors `EmptyPath`, `NoLeadingSlash` and `DuplicatePath`, and `ServeHTTP`'s outcome is which answer it gives, not the response written.
- GoWeb.Serve: Go visits the route table in an unspecified order; the order is a parameter, and the Allow lemmas hold for every order.
- GoWeb.AllowedHeader: stated for non-empty method names; `Handle` does not check the method, and a route registered under "" would be skipped by the accumulation.
- GoTime: instants are nanoseconds since the Unix epoch in UTC; go-chronometer reads the calendar fields of `after` in its own location, and only UTC is modelled, where a day is always 24 hours.
- Weekdays: go-sdk's `cron/util.go:92-109` repeats go-chronometer's masks, `IsWeekDay` and `IsWeekendDay` with the same values, and one module models both.
- Chronometer and Cron: the current time is the parameter `now`; the job managers, their goroutines, the mutex of `TimesSchedule` and the atomic flag of `ImmediateSchedule` are not modelled.
- Cron: the interval, daily and delay schedules of go-sdk are not part of this model; `Other` stands for any schedule without state, given by its next-run function. `FormatTime`, `OnceAtUTCSchedule.String` (RFC 3339 formatting), `Now` and `Since` are not modelled.
- OAuthProfile: Go's `strings` functions work on bytes; the model's strings are characters.
- WebSession, AuthManager, SessionManager, ServerAuth: the session mutexes, the middleware's lock policies and the package-level session cache with its lock are not modelled; every request runs alone.
- WebSession: blendlabs go-web's `session.go` and `ctx.go` are not part of this model; a session whose `IsZero` holds is the case `FetchedZero`, a header counts for `ReadSessionID` when it is non-empty, and `Param` is taken to read the query, headers, form and cookies as wcharczuk go-web's does.
- Session ids come from a random source and creation times from the clock; both are parameters, as are the "month later" cookie expiry and the persist, fetch, remove, validate and login-redirect handlers, which are functions of their inputs.
- The `*sql.Tx` arguments are dropped; every lookup a handler makes is a function from key to row or error.
- AuthManager: the nil-context paths of `Login`, `InjectSessionCookie`, `VerifySession` and `Logout` are not modelled; the context is always there.
- SessionManager.Login: with a nil context and a persist handler the Go code dereferences the nil context; the model only covers a nil context without that path.
- SessionUser.SetUser: on a nil session the Go code panics; the model takes a session.
- SessionUser.ParseIntLenient: a value outside the 64-bit range gives the bound of its sign, as `strconv` does, and the model states it only through `Decimal.ParseInt64`.
- ServerAuth.Add: server/auth/auth.go calls a three-argument `Add` with a transaction, while server/core/auth/session_cache.go declares two arguments; the model follows the declaration, and `Login` ignores its error as the call does.
- JsValues.LooseEquals: a boolean compared with a string goes through numeric conversion of the string, which is not modelled; the comparison requires the two not to be such a pair. Numbers and arrays are not JavaScript values of the model.
- JsValues: reading a property of `undefined` or `null` throws; the model's readers take objects, and a controller that would throw (a link not yet loaded, the current user not yet answered) is not modelled.
- The `_client` `currentUser` service always asks the server and sets the scope; it is a single request and is not modelled apart from `CurrentUserView`.
- The controllers' other handlers (adding tags, image and stats reads, promoting and banning users, the user and search-history pages, `formatFileSize`, the `_client` tag search) and every template are not modelled; Angular's digest, routing and `$location` encoding are not modelled, and a route is the text the controller builds.
- ClientPages: answers may arrive in any order and failures change nothing; the model takes the answers in the order given and leaves failed ones out.
- ModerationPager: before the first answer `page` is `undefined`; the model starts at 0 with no log, which answers every test the same.

## Findings

| source | as written | input that shows it | evidently intended | confidence | as-written member | corrected member |
|---|---|---|---|---|---|---|
| server/jobs/clean_tag_values.go:48-62 | the existing tag is looked up with `ILIKE` on the cleaned value, which also matches the tag being cleaned when its value differs from the cleaned value only in case; the tag is then merged into itself, which deletes its votes, its links and the tag | one image linked only with the tag "Foo" | rename "Foo" to "foo" and keep the link | high; not executed | CleanJob.FirstMatchLosesLink | CleanJob.CleanStepKeepsLinks |
| server/jobs/clean_tag_values.go:31-35 | when the job fails, `Execute` returns the result of the rollback, which is nil when the rollback succeeds | a job that fails with a unique violation and a rollback that succeeds | return the job's error | high; not executed | CleanJob.ExecuteAsWrittenHidesFailure | CleanJob.ExecuteReportsFailure |
| server/controller/api.go:610-617 | `CreateOrIncrementVote` returns its flag as true only together with an error, so the `if didCreate` branch that logs a new link never runs when the vote succeeds (the same at server/api_controller.go:507-514) | a first vote on an image and tag with no link yet | log the link's creation when the vote created it | high; not executed | ApiVotes.FirstVoteOnNewLink | ApiVotes.LinkLoggedIffCreated |
| server/controller/api.go:264-265 | the error from reading the body is dropped, so an unreadable body edits the image as the zero image would: the censored flag is cleared | a moderator posting a body that is not JSON for a censored image | refuse the request and change nothing | high; not executed | ApiImages.UnreadableBodyUncensors | ApiImages.UpdateImageActionChecked |
| server/controller/api.go:499 | `deleteTagAction` deletes the tag row alone, which the foreign keys of `vote_summary` and `vote` refuse while the tag is used, so a used tag can never be deleted (the same at server/api_controller.go:395 and server/server.go:399) | a moderator deleting a tag that is linked to one image | delete the tag with its links and votes, as `DeleteTagAndVotesByID` does | medium; not executed | ApiTags.DeleteTagAction | ApiTags.DeleteTagActionCascading |
| server/server.go:323-326 | the posted value is lower-cased but not escaped before the `ILIKE` lookup, so `%` and `_` in it are wildcards and an existing different tag is answered instead of creating the new one (the same at server/api_controller.go:319-322) | the tag "ab" exists and "a%" is posted | look the value up literally, as server/controller/api.go does after cleaning | high; not executed | ApiTags.WildcardFindsOtherTag | ApiTags.CleanedLookupIsExact |
| vendor/github.com/blendlabs/go-util/string.go:133-141 | `IsUpper` and `IsLower` compare with strict bounds, so 'A', 'Z', 'a' and 'z' are not letters | `IsLetter('A')` is false | the inclusive ranges 'A'..'Z' and 'a'..'z' | high; not executed | GoUtil.IsLetterMissesEnds | GoUtil.InclusiveClassesMatchCaseMaps |
| vendor/github.com/blendlabs/go-logger/event_flag.go:95-98 | `EventFlagZero`, documented as turning a flag off, is an exclusive or, so it turns an unset flag on | zeroing INFO in a flag set without INFO | clear the flag's bits (`flagSet &^ flag`) | medium; not executed | EventFlags.ZeroSetsUnsetFlag | EventFlags.EventFlagClear |
| server/core/web/log.go:131-141 | the "uri" items are replaced before "uri-stem" and "uri-query", so every prefixed path or query item loses its start to the whole URI | the format "cs-uri-stem" for a request to "/images?q=1" gives "/images?q=1-stem" | log the path for "uri-stem" and the raw query for "uri-query", by replacing the longer items first | high; not executed | WebLog.UriStemAsWritten | WebLog.UriStemOrdered |
| _client/src/js/directives.js:197-199 | `canEdit` compares `created_by` with `currentUser.uuid`, a key `/api/session.user` never sends (the same at _static/js/directives.js:182-184), so it compares with `undefined` | a signed-in user who is not a moderator, on the image page of a tag they created | compare with `user_uuid`, as `deleteLinkAction` compares with the creator | high; not executed | VoteButton.CreatorCannotRemoveLink | VoteButton.CanEditMatchesServer |
| _client/src/js/directives.js:173-175 | `userIsLoggedIn`, `canEdit` and `fetchTagData` test `currentUser.is_banned`, which server/viewmodel/current_user.go:13-21 never sends, so a banned user sees the vote arrows the server then refuses | a banned user opening an image page | send the ban flag with the current user and hide the controls | medium; not executed | VoteButton.BannedUserSeesVoteControls | VoteButton.BannedUserHidden |
