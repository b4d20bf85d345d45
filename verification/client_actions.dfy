/** The smaller actions of the browser client's controllers: the image
    search box, the moderator-only image actions of the image page, and the
    earlier client's tag typeahead. */
module ClientActions {
  import opened Wrappers
  import opened GoStrings
  import opened Ledger
  import opened JsValues
  import opened CurrentUserView
  import opened VoteButton

  /** `q && q.length > 0`: only a non-empty string passes (a boolean or an
      object has no length). */
  predicate NonEmptyText(q: JsValue) {
    q.Str? && |q.s| > 0
  }

  /** What a search submission does. */
  datatype SearchStep =
    | Navigate(path: String)
    | SearchThenNavigate(request: String, path: String)
    | ClearImages

  /** The search page's route prefix. */
  const SearchRoute: String := "/search/"
  /** The current client's Slack preview search route prefix. */
  const SlackSearchRoute: String := "/search.slack/"

  /** `searchImages`: with a non-empty query the current client moves to the
      query's search route and the earlier one first asks the search API
      and moves there on its answer; anything else empties the results. */
  function SearchImages(gen: Generation, query: JsValue): (r: SearchStep)
    ensures r.ClearImages? <==> !NonEmptyText(query)
    ensures gen.ClientApp? && NonEmptyText(query) ==> r == Navigate(SearchRoute + query.s)
    ensures gen.StaticApp? && NonEmptyText(query) ==>
      r == SearchThenNavigate("/api/images.search?query=" + query.s, SearchRoute + query.s)
  {
    if !NonEmptyText(query) then ClearImages
    else if gen.ClientApp? then Navigate(SearchRoute + query.s)
    else SearchThenNavigate("/api/images.search?query=" + query.s, SearchRoute + query.s)
  }

  /** `searchSlackController.searchImages` of the current client. */
  function SearchSlack(query: JsValue): (r: SearchStep)
    ensures r.ClearImages? <==> !NonEmptyText(query)
    ensures NonEmptyText(query) ==> r == Navigate(SlackSearchRoute + query.s)
  {
    if NonEmptyText(query) then Navigate(SlackSearchRoute + query.s) else ClearImages
  }

  /** The page a search moves to reads its query back from the route, and
      both generations clear on the same inputs. */
  lemma SearchRouteReadsBack(gen: Generation, other: Generation, query: JsValue)
    ensures SearchImages(gen, query).ClearImages? == SearchImages(other, query).ClearImages?
    ensures !SearchImages(gen, query).ClearImages? ==>
      var path := SearchImages(gen, query).path;
      HasPrefix(path, SearchRoute) && path[|SearchRoute|..] == query.s
    ensures !SearchSlack(query).ClearImages? ==>
      HasPrefix(SearchSlack(query).path, SlackSearchRoute) && SearchSlack(query).path[|SlackSearchRoute|..] == query.s
  {
    if NonEmptyText(query) {
      assert (SearchRoute + query.s)[|SearchRoute|..] == query.s;
      assert (SlackSearchRoute + query.s)[|SlackSearchRoute|..] == query.s;
    }
  }

  /** A change the image page asks of `/api/image/<uuid>`. */
  datatype ImageEdit = SetCensored(censored: bool) | SetContentRating(rating: JsValue)

  /** An image request. */
  datatype ImageRequest = DeleteImage(uuid: JsValue) | PutImage(uuid: JsValue, edit: ImageEdit)

  /** The moderator buttons of the image page. */
  datatype ModAction = DeleteAction | CensorAction | UncensorAction | RatingAction(rating: JsValue)

  /** The buttons each client has: delete and content rating in the current
      one, delete, censor and uncensor in the earlier one. */
  predicate Offered(gen: Generation, a: ModAction) {
    if gen.ClientApp? then a.DeleteAction? || a.RatingAction? else !a.RatingAction?
  }

  /** `deleteImage`, `censorImage`, `uncensorImage`, `updateImageContentRating`:
      nothing unless the user is a moderator, and then, except for the
      content rating, nothing unless the "are you sure?" dialog is confirmed. */
  function Moderate(gen: Generation, user: Object, imageUUID: JsValue, a: ModAction, confirmed: bool): (r: Option<ImageRequest>)
    requires Offered(gen, a)
    ensures r.Some? <==> Truthy(Get(user, "is_moderator")) && (confirmed || a.RatingAction?)
    ensures r.Some? ==> r.value.uuid == imageUUID
    ensures r.Some? ==> (r.value.DeleteImage? <==> a.DeleteAction?)
    ensures r.Some? && a.CensorAction? ==> r.value.edit == SetCensored(true)
    ensures r.Some? && a.UncensorAction? ==> r.value.edit == SetCensored(false)
    ensures r.Some? && a.RatingAction? ==> r.value.edit == SetContentRating(a.rating)
  {
    if !Truthy(Get(user, "is_moderator")) then None
    else
      match a
      case RatingAction(rating) => Some(PutImage(imageUUID, SetContentRating(rating)))
      case _ =>
        if !confirmed then None
        else
          match a
          case DeleteAction => Some(DeleteImage(imageUUID))
          case CensorAction => Some(PutImage(imageUUID, SetCensored(true)))
          case UncensorAction => Some(PutImage(imageUUID, SetCensored(false)))
  }

  /** With the session JSON the server sends, only a signed-in moderator's
      clicks reach the server, and a moderator's delete is the same request
      in both clients. */
  lemma ModerationNeedsModerator(gen: Generation, user: Option<User>, loginURL: String,
                                 imageUUID: JsValue, a: ModAction, confirmed: bool)
    requires Offered(gen, a)
    ensures Moderate(gen, ToJson(CurrentUserOf(user, loginURL)), imageUUID, a, confirmed).Some? ==>
      user.Some? && user.value.isModerator
    ensures user.Some? && user.value.isModerator && confirmed ==>
      Moderate(gen, ToJson(CurrentUserOf(user, loginURL)), imageUUID, a, confirmed).Some?
    ensures Moderate(ClientApp, ToJson(CurrentUserOf(user, loginURL)), imageUUID, DeleteAction, confirmed)
         == Moderate(StaticApp, ToJson(CurrentUserOf(user, loginURL)), imageUUID, DeleteAction, confirmed)
  {
  }

  /** What `datums.response` of `/api/tags.search/` is: no list (undefined,
      or a value without a length), `null` (whose length the handler
      reads, which throws), or a list. */
  datatype TagsAnswer = NotAList | NullAnswer | List(items: seq<JsValue>)

  /** The typeahead's test on one result, `!!tag && !!tag.tag_value` (its
      third conjunct, `!typeof(x) !== 'undefined'`, compares `false` with a
      string and always holds). */
  predicate Usable(tag: JsValue) {
    Truthy(tag) && Truthy(Field(tag, "tag_value"))
  }

  /** The values the loop collects: each usable result's `tag_value`, in order. */
  function TagValues(items: seq<JsValue>): (r: seq<JsValue>)
    ensures |r| <= |items|
    decreases |items|
  {
    if |items| == 0 then []
    else
      var last := items[|items| - 1];
      TagValues(items[..|items| - 1]) + (if Usable(last) then [Field(last, "tag_value")] else [])
  }

  /** The typeahead `source`: `None` when the handler throws before calling
      back; otherwise the tag values, or `[""]` when there are none. */
  method Typeahead(answer: TagsAnswer) returns (r: Option<seq<JsValue>>)
    ensures answer.NullAnswer? <==> r.None?
    ensures r.Some? && answer.List? && |TagValues(answer.items)| > 0 ==> r.value == TagValues(answer.items)
    ensures r.Some? && !(answer.List? && |TagValues(answer.items)| > 0) ==> r.value == [Str("")]
  {
    match answer
    case NullAnswer => return None;
    case NotAList => return Some([Str("")]);
    case List(items) =>
      if |items| == 0 {
        return Some([Str("")]);
      }
      var values: seq<JsValue> := [];
      var x := 0;
      while x < |items|
        invariant 0 <= x <= |items|
        invariant values == TagValues(items[..x])
      {
        assert items[..x + 1][..x] == items[..x];
        if Usable(items[x]) {
          values := values + [Field(items[x], "tag_value")];
        }
        x := x + 1;
      }
      assert items[..x] == items;
      if |values| == 0 {
        values := [Str("")];
      }
      return Some(values);
  }

  /** The collected values are exactly the usable results' tag values: each
      is truthy and comes from a usable result, and each usable result's
      value is among them. */
  lemma {:induction false} TagValuesExact(items: seq<JsValue>)
    ensures forall v :: v in TagValues(items) ==> Truthy(v)
    ensures forall v :: v in TagValues(items) ==>
      exists i :: 0 <= i < |items| && Usable(items[i]) && v == Field(items[i], "tag_value")
    ensures forall i :: 0 <= i < |items| && Usable(items[i]) ==> Field(items[i], "tag_value") in TagValues(items)
    decreases |items|
  {
    if |items| > 0 {
      var n := |items| - 1;
      var init := items[..n];
      TagValuesExact(init);
      assert forall i :: 0 <= i < n ==> init[i] == items[i];
    }
  }

  /** The typeahead always offers something when it calls back, and offers
      the empty placeholder exactly when no result is usable. */
  lemma TypeaheadPlaceholder(items: seq<JsValue>)
    ensures |TagValues(items)| == 0 <==> forall i :: 0 <= i < |items| ==> !Usable(items[i])
  {
    TagValuesExact(items);
    if |TagValues(items)| > 0 {
      assert TagValues(items)[0] in TagValues(items);
    }
  }
}
