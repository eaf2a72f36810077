/** The job-history page's pagination: the offset of the page shown, the
    jobs fetched for it, whether a fetch is in flight, and whether a further
    page may exist. Changing the offset starts a fetch of 20 jobs from it;
    each fetch ends in the jobs it returned or in an error. */
module JobsPage {
  import opened Wrappers
  import opened Json
  import Text
  import ApiClient

  /** The number of jobs asked for per page. */
  const PageSize: int := 20

  datatype Page = Page(jobs: seq<JsValue>, offset: int, loading: bool, hasMore: bool)

  /** The page as first rendered, before its first fetch returns. */
  const Initial := Page([], 0, true, true)

  /** The request a fetch of the current page sends. */
  function FetchCall(p: Page): ApiClient.Call {
    ApiClient.GetJobs(Some(PageSize), Some(p.offset), None)
  }

  /** A fetch starting: the loading row is shown. */
  function Started(p: Page): (r: Page)
    ensures r.loading && r.jobs == p.jobs && r.offset == p.offset && r.hasMore == p.hasMore
  {
    p.(loading := true)
  }

  /** A fetch ending. On success the jobs are replaced by the ones returned
      and a further page is assumed exactly when a full page came back; on
      failure the error is dropped and the jobs stay as they were. Either way
      the loading row goes away. */
  function Completed(p: Page, outcome: Result<seq<JsValue>>): (r: Page)
    ensures !r.loading && r.offset == p.offset
    ensures outcome.Ok? ==> r.jobs == outcome.value && (r.hasMore <==> |outcome.value| == PageSize)
    ensures outcome.Err? ==> r == p.(loading := false)
  {
    match outcome
    case Ok(data) => p.(jobs := data, hasMore := |data| == PageSize, loading := false)
    case Err(_) => p.(loading := false)
  }

  predicate PreviousEnabled(p: Page) {
    p.offset != 0
  }

  predicate NextEnabled(p: Page) {
    p.hasMore
  }

  /** The offset Previous moves to: one page back, never below 0. */
  function PreviousOffset(offset: int): (r: int)
    ensures r >= 0
    ensures offset >= PageSize ==> r == offset - PageSize
    ensures offset < PageSize ==> r == 0
  {
    if offset - PageSize > 0 then offset - PageSize else 0
  }

  /** The page number shown between the buttons, counting from 1. */
  function PageNumber(p: Page): int {
    p.offset / PageSize + 1
  }

  /** What the user or the network does to the page. */
  datatype Event =
    | PressPrevious
    | PressNext
    | FetchDone(outcome: Result<seq<JsValue>>)

  /** One event. A disabled button does nothing; an enabled one moves the
      offset, and the new offset starts a fetch. */
  function Step(p: Page, e: Event): (r: Page) {
    match e
    case PressPrevious =>
      if PreviousEnabled(p) then Started(p.(offset := PreviousOffset(p.offset))) else p
    case PressNext =>
      if NextEnabled(p) then Started(p.(offset := p.offset + PageSize)) else p
    case FetchDone(outcome) => Completed(p, outcome)
  }

  function Run(p: Page, es: seq<Event>): Page
    decreases |es|
  {
    if es == [] then p else Run(Step(p, es[0]), es[1..])
  }

  /** The offset is a whole number of pages from the start. */
  predicate Aligned(p: Page) {
    p.offset >= 0 && p.offset % PageSize == 0
  }

  /** Every event keeps the offset a non-negative multiple of the page size,
      and every enabled press moves it by exactly one page. */
  lemma StepKeepsAligned(p: Page, e: Event)
    requires Aligned(p)
    ensures Aligned(Step(p, e))
    ensures e.PressPrevious? && PreviousEnabled(p) ==> Step(p, e).offset == p.offset - PageSize && Step(p, e).loading
    ensures e.PressNext? && NextEnabled(p) ==> Step(p, e).offset == p.offset + PageSize && Step(p, e).loading
    ensures e.PressPrevious? && !PreviousEnabled(p) ==> Step(p, e) == p
    ensures e.PressNext? && !NextEnabled(p) ==> Step(p, e) == p
  {
    if e.PressPrevious? && PreviousEnabled(p) {
      assert p.offset >= PageSize;
    }
  }

  /** From the first render on, whatever happens, the offset stays a
      non-negative multiple of 20 and the page number is at least 1 and
      names the offset's page. */
  lemma {:induction false} RunKeepsAligned(p: Page, es: seq<Event>)
    requires Aligned(p)
    ensures Aligned(Run(p, es))
    ensures PageNumber(Run(p, es)) >= 1
    ensures (PageNumber(Run(p, es)) - 1) * PageSize == Run(p, es).offset
    decreases |es|
  {
    if es == [] {
    } else {
      StepKeepsAligned(p, es[0]);
      RunKeepsAligned(Step(p, es[0]), es[1..]);
    }
  }

  lemma ReachableAligned(es: seq<Event>)
    ensures Aligned(Run(Initial, es)) && PageNumber(Run(Initial, es)) >= 1
  {
    RunKeepsAligned(Initial, es);
  }

  /** Next followed by Previous comes back to the same offset. From any
      later page, Previous followed by Next does too once the earlier page
      has come back full (until then Next keeps the state it had). */
  lemma NextPreviousInverse(p: Page, data: seq<JsValue>)
    requires Aligned(p)
    ensures NextEnabled(p) ==> Step(Step(p, PressNext), PressPrevious).offset == p.offset
    ensures PreviousEnabled(p) && |data| == PageSize ==>
      Step(Step(Step(p, PressPrevious), FetchDone(Ok(data))), PressNext).offset == p.offset
  {
    if PreviousEnabled(p) {
      StepKeepsAligned(p, PressPrevious);
    }
  }

  /** A failed fetch neither clears nor replaces the jobs on show. */
  lemma FailedFetchKeepsJobs(p: Page, es: seq<Event>, msg: string)
    ensures var r := Step(Run(p, es), FetchDone(Err(msg)));
      r.jobs == Run(p, es).jobs && r.hasMore == Run(p, es).hasMore && !r.loading
  {
  }

  /** The fetch of a page asks the server for 20 jobs from the
      page's offset and no source filter. */
  lemma FetchAsksForPage(p: Page)
    ensures var q := ApiClient.Query(FetchCall(p).path);
      && FetchCall(p).verb == "GET"
      && ApiClient.Param(q, "limit").Some? && Text.ParseInt(ApiClient.Param(q, "limit").value) == Some(PageSize)
      && ApiClient.Param(q, "offset").Some? && Text.ParseInt(ApiClient.Param(q, "offset").value) == Some(p.offset)
      && ApiClient.Param(q, "source_type") == None
  {
    ApiClient.GetJobsNumbers(Some(PageSize), Some(p.offset), None);
    ApiClient.GetJobsParams(Some(PageSize), Some(p.offset), None);
  }
}
