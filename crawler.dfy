/**
 * Model of LinkedinJobCrawler (integrations/linkedin/crawler.py).
 *
 * The browser is input data: the result pages of one search are a finite
 * sequence `pages`, page `i` being what the search shows at offset
 * `25 * i`; every page past the end is empty. BeautifulSoup's
 * HTML-to-text step is the parameter `htmlText`.
 */
module Crawler {
  import opened Wrappers
  import opened Interfaces
  import opened Constants
  import opened Strings

  /** The offset step between two result pages (`checkpoint += 25`). */
  const PAGE_SIZE: nat := 25

  /** The marker text whose presence in an entry's footer makes it promoted. */
  const PROMOTED_MARKER: string := "Promoted"

  /** The attributes extract_job_data reads from a result entry's element. */
  datatype JobCard = JobCard(
    occludableJobId: string,   // the entry's data-occludable-job-id attribute
    linkAriaLabel: string,     // the aria-label of the entry's first <a>
    companyText: string,       // text of span.job-card-container__primary-description
    locationText: string)      // text of li.job-card-container__metadata-item

  /** What running crawl_job (focus, settle, extract) on an entry does. */
  datatype Extraction =
    | Extracted(card: JobCard, detailsHtml: string)  // detailsHtml: innerHTML of the job-details pane
    | StaleElement                                   // StaleElementReferenceException was raised
    | OtherError                                     // any other exception was raised

  /**
   * One result entry. `footerHtml` is the innerHTML of its footer list, or
   * None when looking it up (or reading it) raised.
   */
  datatype Entry = Entry(footerHtml: Option<string>, extraction: Extraction)

  /** The outcome of one crawl_job call, as the crawl loop sees it. */
  datatype JobOutcome = Ok(job: LinkedinJob) | Stale | Failed

  /** extract_job_data: the five record fields from the entry and the details pane. */
  function ExtractJobData(card: JobCard, detailsHtml: string, htmlText: string -> string): (job: LinkedinJob)
    ensures job.id == card.occludableJobId && job.title == card.linkAriaLabel
    ensures job.company == card.companyText && job.location == card.locationText
    ensures job.description == htmlText(detailsHtml)
  {
    LinkedinJob(card.occludableJobId, card.linkAriaLabel, card.companyText, card.locationText, htmlText(detailsHtml))
  }

  /** crawl_job: a record, or the exception that escaped it. */
  function CrawlJob(e: Entry, htmlText: string -> string): (o: JobOutcome)
    ensures o.Ok? <==> e.extraction.Extracted?
    ensures o.Stale? <==> e.extraction.StaleElement?
    ensures o.Ok? ==> o.job.id == e.extraction.card.occludableJobId
  {
    match e.extraction
    case Extracted(card, html) => Ok(ExtractJobData(card, html, htmlText))
    case StaleElement => Stale
    case OtherError => Failed
  }

  /**
   * __is_job_promoted: fails open. A footer that could not be read means
   * "not promoted"; otherwise the footer's text is searched for the marker.
   */
  predicate IsJobPromoted(e: Entry, htmlText: string -> string) {
    match e.footerHtml
    case None => false
    case Some(html) => Contains(htmlText(html), PROMOTED_MARKER)
  }

  /** An entry is promoted iff its footer was read and its text contains "Promoted". */
  lemma IsJobPromotedMeaning(e: Entry, htmlText: string -> string)
    ensures IsJobPromoted(e, htmlText) <==> e.footerHtml.Some? && IsSubstring(PROMOTED_MARKER, htmlText(e.footerHtml.value))
  {
  }

  /** The condition `all([is_job_promoted(job) for job in jobs])`: true of the empty page. */
  predicate AllPromoted(page: seq<Entry>, htmlText: string -> string) {
    forall k :: 0 <= k < |page| ==> IsJobPromoted(page[k], htmlText)
  }

  /** The search URL up to the keyword: the fixed filters and the date range token. */
  function UrlHead(range: LinkedinPostDateRange): string {
    SEARCH_BASE_URL + "?f_JT=F&f_TPR=" + range.Value() + "&f_WT=2&geoId=91000000&keywords="
  }

  /** The search URL between the keyword and the checkpoint. */
  const URL_TAIL: string := "&origin=JOB_SEARCH_PAGE_JOB_FILTER&refresh=true&sortBy=DD&start="

  /** The URL navigate_to_search_page opens; the keyword is inserted verbatim, without escaping. */
  function SearchUrl(keyword: string, checkpoint: nat, range: LinkedinPostDateRange): string {
    UrlHead(range) + keyword + URL_TAIL + DecimalString(checkpoint)
  }

  /** What get_jobs_list returns after navigating to page `i`. */
  function PageAt(pages: seq<seq<Entry>>, i: nat): seq<Entry> {
    if i < |pages| then pages[i] else []
  }

  /**
   * The observable steps of a crawl: a navigate_to_search_page call with
   * its checkpoint (it opens SearchUrl(keyword, checkpoint, range)), a
   * crawl_job call on the entry at a list position of the current page,
   * an append to the result list, a call of the callback.
   */
  datatype Event =
    | Navigate(checkpoint: nat)
    | Attempt(index: nat)
    | Append(job: LinkedinJob)
    | Callback(job: LinkedinJob)

  /** How crawl_jobs ends: it returns its list, or an exception other than a stale one escapes. */
  datatype Outcome = Returned(jobs: seq<LinkedinJob>) | Raised

  /** The inner `for job in jobs` loop so far: its events, its appended records, and whether it raised. */
  datatype PageRun = PageRun(events: seq<Event>, jobs: seq<LinkedinJob>, raised: bool)

  datatype CrawlRun = CrawlRun(trace: seq<Event>, outcome: Outcome)

  /** One iteration of the inner loop, on the entry at position `k`. */
  function AttemptEntry(e: Entry, k: nat, htmlText: string -> string): PageRun {
    match CrawlJob(e, htmlText)
    case Ok(job) => PageRun([Attempt(k), Append(job), Callback(job)], [job], false)
    case Stale => PageRun([Attempt(k)], [], false)
    case Failed => PageRun([Attempt(k)], [], true)
  }

  /** The inner loop over `entries`, in list order, up to the first exception that is not stale. */
  function RunEntries(entries: seq<Entry>, htmlText: string -> string): PageRun
    decreases |entries|
  {
    if entries == [] then
      PageRun([], [], false)
    else
      var before := RunEntries(entries[..|entries| - 1], htmlText);
      if before.raised then
        before
      else
        var step := AttemptEntry(entries[|entries| - 1], |entries| - 1, htmlText);
        PageRun(before.events + step.events, before.jobs + step.jobs, step.raised)
  }

  /** A crawl whose earlier part produced `trace` and `jobs`, continued by `rest`. */
  function Continue(trace: seq<Event>, jobs: seq<LinkedinJob>, rest: CrawlRun): CrawlRun {
    CrawlRun(trace + rest.trace, if rest.outcome.Returned? then Returned(jobs + rest.outcome.jobs) else Raised)
  }

  /** The crawl from page `i` on: the specification crawl_jobs is proved against. */
  function CrawlFrom(pages: seq<seq<Entry>>, i: nat, htmlText: string -> string): CrawlRun
    decreases |pages| - i
  {
    var page := PageAt(pages, i);
    var nav := [Navigate(PAGE_SIZE * i)];
    if AllPromoted(page, htmlText) then
      CrawlRun(nav, Returned([]))
    else
      var run := RunEntries(page, htmlText);
      if run.raised then CrawlRun(nav + run.events, Raised)
      else Continue(nav + run.events, run.jobs, CrawlFrom(pages, i + 1, htmlText))
  }

  /**
   * The loop of crawl_jobs seen from its state: the crawl from page `i`
   * when the trace and result list so far are `trace` and `data`.
   */
  function CrawlLoop(pages: seq<seq<Entry>>, i: nat,
                     htmlText: string -> string, trace: seq<Event>, data: seq<LinkedinJob>): CrawlRun
    decreases |pages| - i
  {
    var page := PageAt(pages, i);
    var navTrace := trace + [Navigate(PAGE_SIZE * i)];
    if AllPromoted(page, htmlText) then
      CrawlRun(navTrace, Returned(data))
    else
      var run := RunEntries(page, htmlText);
      if run.raised then CrawlRun(navTrace + run.events, Raised)
      else CrawlLoop(pages, i + 1, htmlText, navTrace + run.events, data + run.jobs)
  }

  /** Once the inner loop has raised, later entries change nothing. */
  lemma {:induction false} RaisedIsFinal(entries: seq<Entry>, n: nat, htmlText: string -> string)
    requires n <= |entries| && RunEntries(entries[..n], htmlText).raised
    ensures RunEntries(entries, htmlText) == RunEntries(entries[..n], htmlText)
    decreases |entries|
  {
    if n < |entries| {
      var init := entries[..|entries| - 1];
      assert init[..n] == entries[..n];
      RaisedIsFinal(init, n, htmlText);
    } else {
      assert entries[..n] == entries;
    }
  }

  /** One more entry of the inner loop, while it has not raised. */
  lemma RunEntriesStep(entries: seq<Entry>, k: nat, htmlText: string -> string)
    requires k < |entries| && !RunEntries(entries[..k], htmlText).raised
    ensures var before, step := RunEntries(entries[..k], htmlText), AttemptEntry(entries[k], k, htmlText);
      RunEntries(entries[..k + 1], htmlText) == PageRun(before.events + step.events, before.jobs + step.jobs, step.raised)
  {
    assert entries[..k + 1][..k] == entries[..k];
  }

  /** Continuing nothing changes nothing. */
  lemma ContinueNothing(run: CrawlRun)
    ensures Continue([], [], run) == run
  {
    assert [] + run.trace == run.trace;
    if run.outcome.Returned? {
      assert [] + run.outcome.jobs == run.outcome.jobs;
    }
  }

  lemma PageOfCheckpoint(page: nat)
    ensures (PAGE_SIZE * page) / PAGE_SIZE == page
  {
  }

  /** Continuing in two steps is continuing once with both parts. */
  lemma ContinueTwice(trace1: seq<Event>, jobs1: seq<LinkedinJob>, trace2: seq<Event>, jobs2: seq<LinkedinJob>,
                      rest: CrawlRun)
    ensures Continue(trace1, jobs1, Continue(trace2, jobs2, rest)) == Continue(trace1 + trace2, jobs1 + jobs2, rest)
  {
    assert trace1 + (trace2 + rest.trace) == trace1 + trace2 + rest.trace;
    if rest.outcome.Returned? {
      assert jobs1 + (jobs2 + rest.outcome.jobs) == jobs1 + jobs2 + rest.outcome.jobs;
    }
  }

  /** The loop's view of the crawl and the compositional one agree. */
  lemma {:induction false} CrawlLoopIsCrawlFrom(pages: seq<seq<Entry>>, i: nat, htmlText: string -> string,
                                                trace: seq<Event>, data: seq<LinkedinJob>)
    ensures CrawlLoop(pages, i, htmlText, trace, data) == Continue(trace, data, CrawlFrom(pages, i, htmlText))
    decreases |pages| - i
  {
    var page := PageAt(pages, i);
    var nav := [Navigate(PAGE_SIZE * i)];
    if AllPromoted(page, htmlText) {
      assert data + [] == data;
    } else {
      var run := RunEntries(page, htmlText);
      if run.raised {
        assert trace + (nav + run.events) == trace + nav + run.events;
      } else {
        CrawlLoopIsCrawlFrom(pages, i + 1, htmlText, trace + nav + run.events, data + run.jobs);
        ContinueTwice(trace, data, nav + run.events, run.jobs, CrawlFrom(pages, i + 1, htmlText));
        assert trace + (nav + run.events) == trace + nav + run.events;
      }
    }
  }

  /**
   * The `for job in jobs` loop of crawl_jobs: every entry of the page is
   * attempted in list order, promoted or not. A record is appended to the
   * result list and then handed to the callback; a stale entry is skipped;
   * any other exception ends the loop and escapes (`raised`). The loop
   * extends the trace and result list it is given.
   */
  method CrawlPageEntries(jobs: seq<Entry>, htmlText: string -> string, trace0: seq<Event>, data0: seq<LinkedinJob>)
    returns (trace: seq<Event>, returnData: seq<LinkedinJob>, raised: bool)
    ensures var run := RunEntries(jobs, htmlText);
      trace == trace0 + run.events && returnData == data0 + run.jobs && raised == run.raised
  {
    trace, returnData, raised := trace0, data0, false;
    ghost var done := RunEntries([], htmlText);
    var k := 0;
    while k < |jobs|
      invariant 0 <= k <= |jobs| && done == RunEntries(jobs[..k], htmlText) && !done.raised
      invariant trace == trace0 + done.events && returnData == data0 + done.jobs
    {
      RunEntriesStep(jobs, k, htmlText);
      ghost var step := AttemptEntry(jobs[k], k, htmlText);
      match CrawlJob(jobs[k], htmlText) {
        case Ok(job) =>
          trace := trace + [Attempt(k), Append(job)];
          returnData := returnData + [job];
          trace := trace + [Callback(job)];
        case Stale =>
          trace := trace + [Attempt(k)];
        case Failed =>
          // any exception other than a stale element escapes crawl_jobs
          trace := trace + [Attempt(k)];
          assert trace == trace0 + (done.events + step.events);
          RaisedIsFinal(jobs, k + 1, htmlText);
          raised := true;
          return;
      }
      assert trace == trace0 + (done.events + step.events);
      assert returnData == data0 + (done.jobs + step.jobs);
      done := RunEntries(jobs[..k + 1], htmlText);
      k := k + 1;
    }
    assert jobs[..k] == jobs;
  }

  /**
   * crawl_jobs. The returned trace is what a caller observes: the URLs
   * navigated to, the crawl_job calls, the appends and the callback
   * calls, in order; `outcome` is the returned list or the escaping
   * exception.
   */
  method CrawlJobs(pages: seq<seq<Entry>>,
                   htmlText: string -> string)
    returns (trace: seq<Event>, outcome: Outcome)
    ensures CrawlRun(trace, outcome) == CrawlFrom(pages, 0, htmlText)
  {
    var checkpoint: nat := 0;
    var returnData: seq<LinkedinJob> := [];
    ghost var page: nat := 0;
    trace := [];
    CrawlLoopIsCrawlFrom(pages, 0, htmlText, [], []);
    ContinueNothing(CrawlFrom(pages, 0, htmlText));
    while true
      invariant checkpoint == PAGE_SIZE * page && page <= |pages|
      invariant CrawlLoop(pages, page, htmlText, trace, returnData)
                == CrawlFrom(pages, 0, htmlText)
      decreases |pages| - page
    {
      PageOfCheckpoint(page);
      var i := checkpoint / PAGE_SIZE;
      trace := trace + [Navigate(checkpoint)];
      var jobs := PageAt(pages, i);
      if AllPromoted(jobs, htmlText) {
        outcome := Returned(returnData);
        return;
      }
      var raised;
      trace, returnData, raised := CrawlPageEntries(jobs, htmlText, trace, returnData);
      if raised {
        outcome := Raised;
        return;
      }
      checkpoint := checkpoint + PAGE_SIZE;
      page := page + 1;
    }
  }
}
