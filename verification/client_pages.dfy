/** The image page and the tag page of the browser client
    (`imageController.fetchTagData` and `tagController.fetchVoteData` in
    both generations): each lists the other side's objects and keeps two
    lookups for its vote buttons, the link (vote totals) per object and the
    signed-in user's own vote per object, rebuilt from scratch whenever a
    vote button reports a vote. */
module ClientPages {
  import opened Wrappers
  import opened GoStrings
  import opened JsValues
  import opened VoteButton

  /** The page: an image page lists the image's tags, a tag page the tag's images. */
  datatype PageKind = ImagePage | TagPage

  /** The property a page keys its lookups by: the other side's uuid. */
  function KeyField(kind: PageKind): (f: String)
    ensures kind.ImagePage? ==> f == "tag_uuid"
    ensures kind.TagPage? ==> f == "image_uuid"
  {
    if kind.ImagePage? then "tag_uuid" else "image_uuid"
  }

  /** A lookup key: the property as JavaScript turns it into a property name. */
  function KeyOf(o: Object, field: String): String {
    ToString(Get(o, field))
  }

  /** `lookup[item[field]] = item` for each item in order: the reference
      definition the loops build. */
  function LookupOf(items: seq<Object>, field: String): (m: map<String, Object>)
    decreases |items|
  {
    if |items| == 0 then map[]
    else LookupOf(items[..|items| - 1], field)[KeyOf(items[|items| - 1], field) := items[|items| - 1]]
  }

  /** The loop of both pages' response handlers. */
  method BuildLookup(items: seq<Object>, field: String) returns (lookup: map<String, Object>)
    ensures lookup == LookupOf(items, field)
  {
    lookup := map[];
    var x := 0;
    while x < |items|
      invariant 0 <= x <= |items|
      invariant lookup == LookupOf(items[..x], field)
    {
      assert items[..x + 1][..x] == items[..x];
      lookup := lookup[KeyOf(items[x], field) := items[x]];
      x := x + 1;
    }
    assert items[..x] == items;
  }

  /** The index of the last item whose key is `k`, or -1 when there is none. */
  function LastWith(items: seq<Object>, field: String, k: String): (i: int)
    ensures -1 <= i < |items|
    ensures i >= 0 ==> KeyOf(items[i], field) == k
    ensures forall j :: i < j < |items| ==> KeyOf(items[j], field) != k
    decreases |items|
  {
    if |items| == 0 then -1
    else if KeyOf(items[|items| - 1], field) == k then |items| - 1
    else
      var i := LastWith(items[..|items| - 1], field, k);
      assert forall j :: i < j < |items| - 1 ==> items[..|items| - 1][j] == items[j];
      i
  }

  /** A lookup holds a key exactly when some item has it, and then the last
      such item: on duplicate keys the last write wins. */
  lemma {:induction false} LookupLastWins(items: seq<Object>, field: String, k: String)
    ensures k in LookupOf(items, field) <==> LastWith(items, field, k) >= 0
    ensures k in LookupOf(items, field) ==> LookupOf(items, field)[k] == items[LastWith(items, field, k)]
    ensures LastWith(items, field, k) >= 0 <==> exists i :: 0 <= i < |items| && KeyOf(items[i], field) == k
    decreases |items|
  {
    if |items| > 0 {
      var n := |items| - 1;
      var init := items[..n];
      LookupLastWins(init, field, k);
      if KeyOf(items[n], field) != k && LastWith(init, field, k) >= 0 {
        assert init[LastWith(init, field, k)] == items[LastWith(init, field, k)];
      }
    }
  }

  /** What a page shows: its list and its two lookups, each missing (deleted
      from the scope, or not yet answered) or present. */
  datatype Page = Page(listing: Option<seq<Object>>, linkLookup: Option<map<String, Object>>,
                       userVoteLookup: Option<map<String, Object>>)

  /** A page's requests, by the id of the image or tag it shows. */
  datatype Request =
    | Listing(kind: PageKind, id: String)
    | Links(kind: PageKind, id: String)
    | UserVotes(kind: PageKind, id: String)

  /** The request path. */
  function RequestPath(r: Request): (p: String)
    ensures HasPrefix(p, "/api/")
  {
    var prefix := match r
      case Listing(ImagePage, _) => "/api/image.tags/"
      case Links(ImagePage, _) => "/api/image.votes/"
      case UserVotes(ImagePage, _) => "/api/user.votes.image/"
      case Listing(TagPage, _) => "/api/tag.images/"
      case Links(TagPage, _) => "/api/tag.votes/"
      case UserVotes(TagPage, _) => "/api/user.votes.tag/";
    prefix + r.id
  }

  /** Whether a refetch asks for the user's own votes: signed in, and on the
      current client's image page also not banned. */
  predicate AsksUserVotes(gen: Generation, kind: PageKind, user: Object) {
    Truthy(Get(user, "is_logged_in"))
    && (gen.ClientApp? && kind.ImagePage? ==> !Truthy(Get(user, "is_banned")))
  }

  /** `fetchTagData` / `fetchVoteData`: both lookups are deleted, and on an
      image page the tag list too (a tag page keeps its images showing);
      then the list and the links are requested, and the user's votes when
      `AsksUserVotes`. */
  function Refetch(gen: Generation, kind: PageKind, page: Page, id: String, user: Object): (r: (Page, seq<Request>))
    ensures r.0.linkLookup.None? && r.0.userVoteLookup.None?
    ensures kind.ImagePage? ==> r.0.listing.None?
    ensures kind.TagPage? ==> r.0.listing == page.listing
    ensures forall q :: q in r.1 <==>
      (q == Listing(kind, id) || q == Links(kind, id) || (q == UserVotes(kind, id) && AsksUserVotes(gen, kind, user)))
  {
    var cleared := Page(if kind.ImagePage? then None else page.listing, None, None);
    (cleared, [Listing(kind, id), Links(kind, id)] + (if AsksUserVotes(gen, kind, user) then [UserVotes(kind, id)] else []))
  }

  /** A successful answer to one of the page's requests (a failed one
      changes nothing). */
  datatype Response =
    | ListingArrived(items: seq<Object>)
    | LinksArrived(links: seq<Object>)
    | UserVotesArrived(votes: seq<Object>)

  /** The success handlers: the list is taken as is, links and votes are
      turned into lookups by the page's key. */
  function Receive(kind: PageKind, page: Page, resp: Response): (r: Page)
    ensures resp.ListingArrived? ==> r == page.(listing := Some(resp.items))
    ensures resp.LinksArrived? ==> r == page.(linkLookup := Some(LookupOf(resp.links, KeyField(kind))))
    ensures resp.UserVotesArrived? ==> r == page.(userVoteLookup := Some(LookupOf(resp.votes, KeyField(kind))))
  {
    match resp
    case ListingArrived(items) => page.(listing := Some(items))
    case LinksArrived(links) => page.(linkLookup := Some(LookupOf(links, KeyField(kind))))
    case UserVotesArrived(votes) => page.(userVoteLookup := Some(LookupOf(votes, KeyField(kind))))
  }

  /** Answers arriving one after another. */
  function ReceiveAll(kind: PageKind, page: Page, resps: seq<Response>): Page
    decreases |resps|
  {
    if |resps| == 0 then page
    else ReceiveAll(kind, Receive(kind, page, resps[0]), resps[1..])
  }

  /** The page's `voted` handler: a full refetch. */
  function OnVoted(gen: Generation, kind: PageKind, page: Page, id: String, user: Object, e: Event): (r: (Page, seq<Request>))
    ensures r == Refetch(gen, kind, page, id, user)
  {
    Refetch(gen, kind, page, id, user)
  }

  /** Every lookup entry of a page came from an answer: an entry of the
      link lookup is a link some `LinksArrived` carried, keyed by its own
      key, unless the entry was already there before. */
  lemma {:induction false} LinksComeFromAnswers(kind: PageKind, page: Page, resps: seq<Response>, k: String)
    requires page.linkLookup.None?
    ensures var p := ReceiveAll(kind, page, resps);
      p.linkLookup.Some? ==> (k in p.linkLookup.value ==>
        exists i, j :: 0 <= i < |resps| && resps[i].LinksArrived? && 0 <= j < |resps[i].links|
          && p.linkLookup.value[k] == resps[i].links[j] && KeyOf(resps[i].links[j], KeyField(kind)) == k)
    decreases |resps|
  {
    if |resps| > 0 {
      var next := Receive(kind, page, resps[0]);
      var p := ReceiveAll(kind, page, resps);
      assert p == ReceiveAll(kind, next, resps[1..]);
      if next.linkLookup.None? {
        LinksComeFromAnswers(kind, next, resps[1..], k);
        if p.linkLookup.Some? && k in p.linkLookup.value {
          var i, j :| 0 <= i < |resps[1..]| && resps[1..][i].LinksArrived? && 0 <= j < |resps[1..][i].links|
            && p.linkLookup.value[k] == resps[1..][i].links[j] && KeyOf(resps[1..][i].links[j], KeyField(kind)) == k;
          assert resps[i + 1] == resps[1..][i];
        }
      } else {
        LinksFromLater(kind, next, resps[1..], resps[0].links, k);
        if p.linkLookup.Some? && k in p.linkLookup.value {
          if k in LookupOf(resps[0].links, KeyField(kind)) && p.linkLookup.value[k] == LookupOf(resps[0].links, KeyField(kind))[k] {
            LookupLastWins(resps[0].links, KeyField(kind), k);
          } else {
            var i, j :| 0 <= i < |resps[1..]| && resps[1..][i].LinksArrived? && 0 <= j < |resps[1..][i].links|
              && p.linkLookup.value[k] == resps[1..][i].links[j] && KeyOf(resps[1..][i].links[j], KeyField(kind)) == k;
            assert resps[i + 1] == resps[1..][i];
          }
        }
      }
    }
  }

  /** Once a link lookup built from `first` is present, each of its entries
      later either is still `first`'s or came with a later answer. */
  lemma {:induction false} LinksFromLater(kind: PageKind, page: Page, resps: seq<Response>, first: seq<Object>, k: String)
    requires page.linkLookup == Some(LookupOf(first, KeyField(kind)))
    ensures var p := ReceiveAll(kind, page, resps);
      p.linkLookup.Some? && (k in p.linkLookup.value ==>
        (k in LookupOf(first, KeyField(kind)) && p.linkLookup.value[k] == LookupOf(first, KeyField(kind))[k])
        || exists i, j :: 0 <= i < |resps| && resps[i].LinksArrived? && 0 <= j < |resps[i].links|
             && p.linkLookup.value[k] == resps[i].links[j] && KeyOf(resps[i].links[j], KeyField(kind)) == k)
    decreases |resps|
  {
    if |resps| > 0 {
      var next := Receive(kind, page, resps[0]);
      var p := ReceiveAll(kind, page, resps);
      assert p == ReceiveAll(kind, next, resps[1..]);
      if resps[0].LinksArrived? {
        LinksFromLater(kind, next, resps[1..], resps[0].links, k);
        if k in p.linkLookup.value {
          if k in LookupOf(resps[0].links, KeyField(kind)) && p.linkLookup.value[k] == LookupOf(resps[0].links, KeyField(kind))[k] {
            LookupLastWins(resps[0].links, KeyField(kind), k);
          } else {
            var i, j :| 0 <= i < |resps[1..]| && resps[1..][i].LinksArrived? && 0 <= j < |resps[1..][i].links|
              && p.linkLookup.value[k] == resps[1..][i].links[j] && KeyOf(resps[1..][i].links[j], KeyField(kind)) == k;
            assert resps[i + 1] == resps[1..][i];
          }
        }
      } else {
        LinksFromLater(kind, next, resps[1..], first, k);
        if k in p.linkLookup.value && !(k in LookupOf(first, KeyField(kind)) && p.linkLookup.value[k] == LookupOf(first, KeyField(kind))[k]) {
          var i, j :| 0 <= i < |resps[1..]| && resps[1..][i].LinksArrived? && 0 <= j < |resps[1..][i].links|
            && p.linkLookup.value[k] == resps[1..][i].links[j] && KeyOf(resps[1..][i].links[j], KeyField(kind)) == k;
          assert resps[i + 1] == resps[1..][i];
        }
      }
    }
  }

  /** A vote rebuilds the page from scratch: whatever the page held before,
      the same answers give the same page, and no link shown afterwards is
      one from before the vote. */
  lemma VotedRebuilds(gen: Generation, kind: PageKind, p: Page, q: Page, id: String, user: Object,
                      resps: seq<Response>, k: String)
    requires kind.ImagePage? || p.listing == q.listing
    ensures ReceiveAll(kind, OnVoted(gen, kind, p, id, user, Voted).0, resps)
         == ReceiveAll(kind, OnVoted(gen, kind, q, id, user, Voted).0, resps)
    ensures var after := ReceiveAll(kind, OnVoted(gen, kind, p, id, user, Voted).0, resps);
      after.linkLookup.Some? ==> (k in after.linkLookup.value ==>
        exists i, j :: 0 <= i < |resps| && resps[i].LinksArrived? && 0 <= j < |resps[i].links|
          && after.linkLookup.value[k] == resps[i].links[j])
  {
    LinksComeFromAnswers(kind, OnVoted(gen, kind, p, id, user, Voted).0, resps, k);
  }

  /** The two generations differ in one place only: the current client's
      image page does not ask a banned user's votes; the tag pages, and the
      earlier client everywhere, ask whenever the user is signed in. */
  lemma GenerationsDifferOnBans(kind: PageKind, page: Page, id: String, user: Object)
    ensures Refetch(ClientApp, kind, page, id, user).0 == Refetch(StaticApp, kind, page, id, user).0
    ensures ((UserVotes(kind, id) in Refetch(ClientApp, kind, page, id, user).1)
             != (UserVotes(kind, id) in Refetch(StaticApp, kind, page, id, user).1))
      <==> kind.ImagePage? && Truthy(Get(user, "is_logged_in")) && Truthy(Get(user, "is_banned"))
  {
  }
}
