/** The Slack integration of server/controller/integrations.go: the callback
    id that carries a search from one button click to the next, the replies
    to a slash command and to a button click, and the content-rating filter
    of a team.  Database lookups are parameters: each handler is given the
    answer to the lookup it asks for. */
module Integrations {
  import opened Wrappers
  import opened GoStrings
  import opened Base64

  function BytesOf(s: ByteString): (b: seq<byte>)
    ensures |b| == |s| && forall i :: 0 <= i < |s| ==> b[i] == s[i] as int
  {
    seq(|s|, i requires 0 <= i < |s| => s[i] as int)
  }

  function StringOf(b: seq<byte>): (s: ByteString)
    ensures |s| == |b| && forall i :: 0 <= i < |b| ==> s[i] as int == b[i]
  {
    seq(|b|, i requires 0 <= i < |b| => b[i] as char)
  }

  /** The two conversions are inverse. */
  lemma StringBytesRoundTrip(s: ByteString)
    ensures StringOf(BytesOf(s)) == s
  {
  }

  const Separator: String := "||"

  const SlackErrorInvalidQuery: String := "Please type at least (3) characters."
  const SlackErrorBadPayload: String := "There was an error processing a payload from slack. Saddness."
  const SlackErrorInvalidAction: String := "An invalid action was passed to the button handler."
  const SlackErrorInvalidCallbackState: String := "An invalid callback state was passed to the button handler."
  const SlackErrorInternal: String := "There was an error processing your request. Sadness."

  const SlackActionShuffle: String := "shuffle"
  const SlackActionPost: String := "post"
  const SlackActionCancel: String := "cancel"

  /** `model.ContentRatingNR`, the filter of a team that is not on file. */
  const ContentRatingNR: int := 5

  /** The text answered when no image is found. */
  function SlackErrorNoResults(baseURL: String): String {
    "Giffy couldn't find what you were looking for; maybe add it here? " + baseURL + "/add_image"
  }

  // ---------------------------------------------------------------------
  // Callback ids
  // ---------------------------------------------------------------------

  /** The first "||" of a text without '|' followed by "||" is the one after it. */
  lemma FirstSeparator(e: String, rest: String)
    requires forall i :: 0 <= i < |e| ==> e[i] != '|'
    ensures IndexOf(e + Separator + rest, Separator) == Some(|e|)
  {
    var s := e + Separator + rest;
    assert s[|e|..|e| + 2] == Separator;
    forall j | 0 <= j < |e| ensures !OccursAt(s, Separator, j) {
      assert s[j] == e[j];
    }
    assert OccursAt(s, Separator, |e|);
    var r := IndexOf(s, Separator);
    assert r.Some?;
    assert !(r.value > |e|);
    assert !(r.value < |e|);
  }

  /** `createCallbackID`: the query's bytes in base 64, "||", then the image uuid;
      the first "||" is the one after the encoding. */
  function CreateCallbackID(query: ByteString, uuid: String): (r: String)
    ensures IndexOf(r, Separator) == Some(|Encode(BytesOf(query))|)
    ensures r[|Encode(BytesOf(query))| + 2..] == uuid
  {
    var e := Encode(BytesOf(query));
    FirstSeparator(e, uuid);
    e + Separator + uuid
  }

  /** `parseCallbackID`: empty query and uuid when there is no "||"; otherwise
      the first part decoded from base 64 and the rest.  `undecodable` stands
      for the bytes Go's decoder returns together with its error, which the
      handler ignores. */
  function ParseCallbackID(callbackState: String, undecodable: seq<byte>): (r: (ByteString, String))
    ensures IndexOf(callbackState, Separator).None? ==> r == ("", "")
    ensures IndexOf(callbackState, Separator).Some? ==>
      var i := IndexOf(callbackState, Separator).value;
      r.1 == callbackState[i + 2..]
      && (DecodeString(callbackState[..i]).Some? ==> BytesOf(r.0) == DecodeString(callbackState[..i]).value)
      && (DecodeString(callbackState[..i]).None? ==> BytesOf(r.0) == undecodable)
  {
    if |callbackState| == 0 then ("", "")
    else
      var parts := SplitFirst(callbackState, Separator);
      if |parts| < 2 then ("", "")
      else
        var i := IndexOf(callbackState, Separator).value;
        assert parts[0] == callbackState[..i] && parts[1] == callbackState[i + 2..] by {
          assert callbackState == parts[0] + Separator + parts[1];
          assert OccursAt(callbackState, Separator, |parts[0]|);
        }
        var decoded := match DecodeString(parts[0]) case Some(b) => b case None => undecodable;
        (StringOf(decoded), parts[1])
  }

  /** A callback id reads back as the query and the uuid it was made from,
      whatever the uuid holds. */
  lemma CallbackRoundTrip(query: ByteString, uuid: String, undecodable: seq<byte>)
    ensures ParseCallbackID(CreateCallbackID(query, uuid), undecodable) == (query, uuid)
  {
    var e := Encode(BytesOf(query));
    var id := CreateCallbackID(query, uuid);
    assert id[..|e|] == e;
    DecodeStringEncode(BytesOf(query));
    StringBytesRoundTrip(query);
  }

  /** A state without "||", the empty state among them, gives an empty query and uuid. */
  lemma MissingSeparatorIsEmpty(callbackState: String, undecodable: seq<byte>)
    requires forall j :: 0 <= j ==> !OccursAt(callbackState, Separator, j)
    ensures ParseCallbackID(callbackState, undecodable) == ("", "")
    ensures ParseCallbackID("", undecodable) == ("", "")
  {
    assert forall j :: 0 <= j ==> !OccursAt("", Separator, j);
  }

  // ---------------------------------------------------------------------
  // Slack payloads and replies
  // ---------------------------------------------------------------------

  datatype SlackAction = SlackAction(name: String, text: String, style: String, kind: String, value: String)

  datatype ActionAttachment = ActionAttachment(text: String, fallback: String, callbackId: String,
                                               attachmentType: String, actions: seq<SlackAction>)

  /** A button click: the clicked actions, the callback id of the message and the team. */
  datatype ActionPayload = ActionPayload(actions: seq<SlackAction>, callbackId: String, teamId: String, userName: String)

  /** The view of an image a reply shows: its uuid, display name, the value of its first tag if any, and its URL. */
  datatype ImageView = ImageView(uuid: String, displayName: String, firstTag: Option<String>, s3ReadURL: String)

  datatype Attachment = ImageAttachment(title: String, imageURL: String) | Buttons(buttons: ActionAttachment)

  datatype SlackReply =
    | PlainText(text: String)
    | Message(deleteOriginal: bool, replaceOriginal: bool, asUser: bool, responseType: String,
              authorName: String, attachments: seq<Attachment>)

  /** What a handler asks the model layer for. */
  datatype ImageQuery =
    | ByUuid(uuid: String)
    | BestResult(query: String, excludeUuids: seq<String>, contentRatingFilter: int)

  /** `slackActionPayload.Action`: the value of the first action, or "" when there is none. */
  function Action(payload: ActionPayload): (action: String)
    ensures |payload.actions| == 0 ==> action == ""
    ensures |payload.actions| > 0 ==> action == payload.actions[0].value
  {
    if |payload.actions| == 0 then "" else payload.actions[0].value
  }

  /** `buttonActions`: Shuffle, Post and Cancel buttons carrying the callback id of the query and image. */
  function ButtonActions(query: ByteString, imageUuid: String): ActionAttachment {
    ActionAttachment("Hit either `Post` or `Shuffle` (for a new image).", "Unable to do image things.",
                     CreateCallbackID(query, imageUuid), "default",
                     [SlackAction("action", "Shuffle", "", "button", SlackActionShuffle),
                      SlackAction("action", "Post", "primary", "button", SlackActionPost),
                      SlackAction("action", "Cancel", "", "button", SlackActionCancel)])
  }

  /** `getContentRatingForTeamID` on the answer of the team lookup: an error
      is passed on; no team (or the zero team) gives NR; otherwise the team's filter. */
  function ContentRatingForTeam<E>(team: Result<Option<int>, E>): (r: Result<int, E>)
    ensures team.Err? <==> r.Err?
    ensures team == Ok(None) ==> r == Ok(ContentRatingNR)
    ensures team.Ok? && team.value.Some? ==> r == Ok(team.value.value)
  {
    match team
    case Err(e) => Err(e)
    case Ok(None) => Ok(ContentRatingNR)
    case Ok(Some(filter)) => Ok(filter)
  }

  const ImagePrefix: String := "img:"

  predicate HasImagePrefix(query: String) {
    |query| >= 4 && query[..4] == ImagePrefix
  }

  /** The lookup of the slash command: "img:" and a uuid asks for that image,
      anything else for the best search result under the team's filter. */
  function SlackLookup(query: ByteString, contentRatingFilter: int): (q: ImageQuery)
    ensures HasImagePrefix(query) ==> q == ByUuid(query[4..])
    ensures !HasImagePrefix(query) ==> q == BestResult(query, [], contentRatingFilter)
  {
    if HasImagePrefix(query) then ByUuid(query[4..]) else BestResult(query, [], contentRatingFilter)
  }

  /** `slack`, the slash command: queries shorter than 3 bytes are refused;
      then the team's filter is read and the image looked up (`found`
      answers `SlackLookup`); "img:" posts the image to the channel, a
      search offers it with buttons.  The error value of a failed lookup does
      not matter. */
  function Slack(query: ByteString, userName: String, filter: Result<int, ()>,
                 found: Result<Option<ImageView>, ()>, baseURL: String): (r: SlackReply)
    ensures |query| < 3 ==> r == PlainText(SlackErrorInvalidQuery)
    ensures |query| >= 3 && (filter.Err? || found.Err?) ==> r == PlainText(SlackErrorInternal)
    ensures |query| >= 3 && filter.Ok? && found == Ok(None) ==> r == PlainText(SlackErrorNoResults(baseURL))
    ensures r.Message? ==> found.Ok? && found.value.Some?
    ensures r.Message? && !HasImagePrefix(query) ==>
      r.replaceOriginal && !r.deleteOriginal && r.responseType == "ephemeral"
      && |r.attachments| == 2 && r.attachments[1] == Buttons(ButtonActions(query, found.value.value.uuid))
    ensures r.Message? && HasImagePrefix(query) ==>
      r.deleteOriginal && r.asUser && r.responseType == "in_channel" && r.authorName == userName
      && r.attachments == [ImageAttachment(query, found.value.value.s3ReadURL)]
  {
    if |query| < 3 then PlainText(SlackErrorInvalidQuery)
    else if filter.Err? || found.Err? then PlainText(SlackErrorInternal)
    else if found.value.None? then PlainText(SlackErrorNoResults(baseURL))
    else
      var image := found.value.value;
      if HasImagePrefix(query) then
        Message(true, false, true, "in_channel", userName, [ImageAttachment(query, image.s3ReadURL)])
      else
        var title := match image.firstTag case Some(t) => t case None => "search: `" + query + "`";
        Message(false, true, false, "ephemeral", "",
                [ImageAttachment(title, image.s3ReadURL), Buttons(ButtonActions(query, image.uuid))])
  }

  /** The title of an image in a button reply: its first tag, or its display name. */
  function ImageTitle(image: ImageView): String {
    match image.firstTag case Some(t) => t case None => image.displayName
  }

  /** The lookup a button click asks for: Shuffle searches for the query
      again without the image shown; Post reads the image shown; a click
      whose callback state is unusable asks for nothing. */
  function ActionLookup(payload: ActionPayload, contentRatingFilter: int, undecodable: seq<byte>): (q: Option<ImageQuery>)
  {
    var (query, uuid) := ParseCallbackID(payload.callbackId, undecodable);
    if Action(payload) == SlackActionShuffle && query != "" && uuid != "" then
      Some(BestResult(query, [uuid], contentRatingFilter))
    else if Action(payload) == SlackActionPost && uuid != "" then Some(ByUuid(uuid))
    else None
  }

  /** `slackAction` on a payload (None when the body, its unescaping or its
      JSON cannot be read), the team's filter and the answer to `ActionLookup`. */
  function SlackActionReply(payload: Option<ActionPayload>, filter: Result<int, ()>,
                            found: Result<Option<ImageView>, ()>, baseURL: String, undecodable: seq<byte>): (r: SlackReply)
    ensures payload.None? ==> r == PlainText(SlackErrorBadPayload)
    ensures payload.Some? && Action(payload.value) !in {SlackActionShuffle, SlackActionPost, SlackActionCancel} ==>
              r == PlainText(SlackErrorInvalidAction)
    ensures payload.Some? && Action(payload.value) == SlackActionCancel ==> r == Message(true, false, false, "", "", [])
    ensures r.Message? && r.attachments != [] ==> found.Ok? && found.value.Some?
  {
    if payload.None? then PlainText(SlackErrorBadPayload)
    else
      var p := payload.value;
      var action := Action(p);
      if action == SlackActionShuffle then SlackShuffle(p, filter, found, baseURL, undecodable)
      else if action == SlackActionPost then SlackPost(p, found, baseURL, undecodable)
      else if action == SlackActionCancel then Message(true, false, false, "", "", [])
      else PlainText(SlackErrorInvalidAction)
  }

  /** `slackShuffle`: another image for the same query, shown with fresh buttons. */
  function SlackShuffle(payload: ActionPayload, filter: Result<int, ()>, found: Result<Option<ImageView>, ()>,
                        baseURL: String, undecodable: seq<byte>): (r: SlackReply)
    ensures var (query, uuid) := ParseCallbackID(payload.callbackId, undecodable);
      (query == "" || uuid == "" ==> r == PlainText(SlackErrorInvalidCallbackState))
      && (r.Message? ==>
            found.Ok? && found.value.Some? && r.replaceOriginal && r.responseType == "ephemeral"
            && r.attachments == [ImageAttachment(ImageTitle(found.value.value), found.value.value.s3ReadURL),
                                 Buttons(ButtonActions(query, found.value.value.uuid))])
  {
    var (query, uuid) := ParseCallbackID(payload.callbackId, undecodable);
    if query == "" || uuid == "" then PlainText(SlackErrorInvalidCallbackState)
    else if filter.Err? || found.Err? then PlainText(SlackErrorInternal)
    else if found.value.None? then PlainText(SlackErrorNoResults(baseURL))
    else
      var image := found.value.value;
      Message(false, true, false, "ephemeral", "",
              [ImageAttachment(ImageTitle(image), image.s3ReadURL), Buttons(ButtonActions(query, image.uuid))])
  }

  /** `slackPost`: the image shown is posted to the channel as the user. */
  function SlackPost(payload: ActionPayload, found: Result<Option<ImageView>, ()>,
                     baseURL: String, undecodable: seq<byte>): (r: SlackReply)
    ensures ParseCallbackID(payload.callbackId, undecodable).1 == "" ==> r == PlainText(SlackErrorInvalidCallbackState)
    ensures r.Message? ==> found.Ok? && found.value.Some? && r.deleteOriginal && r.asUser
                           && r.responseType == "in_channel" && r.authorName == payload.userName
                           && r.attachments == [ImageAttachment(ImageTitle(found.value.value), found.value.value.s3ReadURL)]
  {
    var (_, uuid) := ParseCallbackID(payload.callbackId, undecodable);
    if uuid == "" then PlainText(SlackErrorInvalidCallbackState)
    else if found.Err? then PlainText(SlackErrorInternal)
    else if found.value.None? then PlainText(SlackErrorNoResults(baseURL))
    else
      var image := found.value.value;
      Message(true, false, true, "in_channel", payload.userName, [ImageAttachment(ImageTitle(image), image.s3ReadURL)])
  }

  /** Clicking a button of a search reply acts on that search: Shuffle
      searches the query again leaving out the image shown, Post reads the
      image shown, Cancel deletes the reply. */
  lemma ButtonClickActsOnSearch(query: ByteString, imageUuid: String, k: nat, teamId: String, userName: String,
                                contentRatingFilter: int, undecodable: seq<byte>)
    requires query != "" && imageUuid != "" && k < 3
    ensures var buttons := ButtonActions(query, imageUuid);
      var payload := ActionPayload([buttons.actions[k]], buttons.callbackId, teamId, userName);
      (k == 0 ==> ActionLookup(payload, contentRatingFilter, undecodable)
                   == Some(BestResult(query, [imageUuid], contentRatingFilter)))
      && (k == 1 ==> ActionLookup(payload, contentRatingFilter, undecodable) == Some(ByUuid(imageUuid)))
      && (k == 2 ==>
            ActionLookup(payload, contentRatingFilter, undecodable) == None
            && SlackActionReply(Some(payload), Err(()), Err(()), "", undecodable) == Message(true, false, false, "", "", []))
  {
    CallbackRoundTrip(query, imageUuid, undecodable);
  }

  datatype EventReply = Challenge(challenge: String) | NoContent

  /** `slackEvent` on a readable event: a URL verification answers its challenge, anything else has no content. */
  function SlackEvent(eventType: String, challenge: String): (r: EventReply)
    ensures r.Challenge? <==> eventType == "url_verification"
    ensures r.Challenge? ==> r.challenge == challenge
  {
    if eventType == "url_verification" then Challenge(challenge) else NoContent
  }
}
