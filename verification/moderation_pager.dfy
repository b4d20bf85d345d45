/** The moderation log page of the browser client
    (`moderationLogController`, the same in both generations): the log is
    read 50 entries at a time, and the previous and next buttons move one
    page while a page in that direction can exist. */
module ModerationPager {
  import opened Wrappers
  import opened JsValues

  /** `pageSize`. */
  const PageSize: int := 50

  /** A request for `/api/moderation.log/pages/<count>/<offset>`. */
  datatype Request = Request(count: int, offset: int)

  /** The scope: the page number and the log last received (`None` while
      nothing, or `null`, arrived).  Before the first answer the page is
      `undefined`, which every test below treats as 0 would be with no log. */
  datatype Pager = Pager(page: int, log: Option<seq<JsValue>>)

  /** The scope when the controller starts, and its first request. */
  const Start: Pager := Pager(0, None)
  const FirstRequest: Request := Request(PageSize, 0)

  /** `hasPreviousPage()`. */
  predicate HasPreviousPage(p: Pager) {
    p.page > 0
  }

  /** `hasNextPage()`: a full page arrived, so another may follow. */
  predicate HasNextPage(p: Pager) {
    p.log.Some? && |p.log.value| >= PageSize
  }

  /** `nextPage()`: one page on, and a request for it, only when a next
      page may exist. */
  function NextPage(p: Pager): (r: (Pager, Option<Request>))
    ensures HasNextPage(p) ==> r.0 == p.(page := p.page + 1) && r.1 == Some(Request(PageSize, r.0.page * PageSize))
    ensures !HasNextPage(p) ==> r.0 == p && r.1.None?
  {
    if HasNextPage(p) then
      var q := p.(page := p.page + 1);
      (q, Some(Request(PageSize, q.page * PageSize)))
    else (p, None)
  }

  /** `previousPage()`: one page back, and a request for it, only from a
      page after the first. */
  function PreviousPage(p: Pager): (r: (Pager, Option<Request>))
    ensures p.page > 0 ==> r.0 == p.(page := p.page - 1) && r.1 == Some(Request(PageSize, r.0.page * PageSize))
    ensures p.page <= 0 ==> r.0 == p && r.1.None?
  {
    if p.page > 0 then
      var q := p.(page := p.page - 1);
      (q, Some(Request(PageSize, q.page * PageSize)))
    else (p, None)
  }

  /** What can happen on the page: a button click, or an answer (the first
      one also sets the page to 0). */
  datatype Step = Next | Previous | FirstAnswer(log: Option<seq<JsValue>>) | Answer(log: Option<seq<JsValue>>)

  /** One step: the new scope and the request it sends, if any. */
  function Apply(p: Pager, s: Step): (r: (Pager, Option<Request>)) {
    match s
    case Next => NextPage(p)
    case Previous => PreviousPage(p)
    case FirstAnswer(log) => (Pager(0, log), None)
    case Answer(log) => (p.(log := log), None)
  }

  /** Steps in order: the final scope and every request sent. */
  function Run(p: Pager, steps: seq<Step>): (r: (Pager, seq<Request>))
    decreases |steps|
  {
    if |steps| == 0 then (p, [])
    else
      var (q, req) := Apply(p, steps[0]);
      var (last, reqs) := Run(q, steps[1..]);
      (last, (if req.Some? then [req.value] else []) + reqs)
  }

  /** A request for the page `k` (counting from 0) of the log. */
  predicate PageRequest(r: Request) {
    r.count == PageSize && r.offset >= 0 && r.offset % PageSize == 0
  }

  /** Whatever the clicks and answers, the page never goes below 0 and every
      request asks for a whole page at a non-negative multiple of 50. */
  lemma {:induction false} PagerStaysInRange(p: Pager, steps: seq<Step>)
    requires p.page >= 0
    ensures Run(p, steps).0.page >= 0
    ensures forall r :: r in Run(p, steps).1 ==> PageRequest(r)
    decreases |steps|
  {
    if |steps| > 0 {
      var (q, req) := Apply(p, steps[0]);
      assert q.page >= 0;
      assert req.Some? ==> req.value.offset == q.page * PageSize;
      PagerStaysInRange(q, steps[1..]);
    }
  }

  /** Each request asks for the page the scope then shows, and the two
      buttons undo each other: back after forward returns to the same page,
      and forward after back does too while the log is still full. */
  lemma PagerButtonsInverse(p: Pager)
    requires p.page >= 0
    ensures NextPage(p).1.Some? ==> NextPage(p).1.value.offset == NextPage(p).0.page * PageSize
    ensures HasNextPage(p) ==> PreviousPage(NextPage(p).0).0 == p
    ensures HasPreviousPage(p) && HasNextPage(p) ==> NextPage(PreviousPage(p).0).0 == p
    ensures HasPreviousPage(p) <==> PreviousPage(p).1.Some?
    ensures HasNextPage(p) <==> NextPage(p).1.Some?
  {
  }
}
