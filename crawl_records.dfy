/**
 * Where the records of a crawl come from: each one is what
 * extract_job_data assembles for an entry of a page the crawl navigated
 * to, so its id is that entry's data-occludable-job-id; and a crawl that
 * returns returns the record of every successfully extracted entry of
 * the pages it crawled completely.
 */
module CrawlRecords {
  import opened Interfaces
  import opened Crawler
  import opened CrawlProperties

  /** `job` is the record extract_job_data assembles for entry `e`. */
  predicate ExtractedAs(e: Entry, htmlText: string -> string, job: LinkedinJob) {
    e.extraction.Extracted? && job == ExtractJobData(e.extraction.card, e.extraction.detailsHtml, htmlText)
  }

  /** `job` is the record of some entry on pages `from` up to (not including) `to`. */
  ghost predicate ExtractedOn(pages: seq<seq<Entry>>, from: nat, to: nat, htmlText: string -> string, job: LinkedinJob) {
    exists j, k :: from <= j < to && 0 <= k < |PageAt(pages, j)| && ExtractedAs(PageAt(pages, j)[k], htmlText, job)
  }

  /** The records OkJobs collects are exactly the records of the page's extracted entries. */
  lemma {:induction false} OkJobsMember(entries: seq<Entry>, htmlText: string -> string, job: LinkedinJob)
    ensures job in OkJobs(entries, htmlText) <==> exists k :: 0 <= k < |entries| && ExtractedAs(entries[k], htmlText, job)
    decreases |entries|
  {
    if entries != [] {
      var e, rest := entries[0], entries[1..];
      OkJobsMember(rest, htmlText, job);
      assert job in OkJob(e, htmlText) <==> ExtractedAs(e, htmlText, job);
      if job in OkJobs(entries, htmlText) && !ExtractedAs(e, htmlText, job) {
        var k :| 0 <= k < |rest| && ExtractedAs(rest[k], htmlText, job);
        assert entries[k + 1] == rest[k];
      }
      if k :| 0 <= k < |entries| && ExtractedAs(entries[k], htmlText, job) {
        if k > 0 {
          assert rest[k - 1] == entries[k];
        }
      }
    }
  }

  /** The records OkJobsOfPages collects are exactly the records of the extracted entries of those pages. */
  lemma {:induction false} OkJobsOfPagesMember(pages: seq<seq<Entry>>, from: nat, to: nat, htmlText: string -> string,
                                               job: LinkedinJob)
    ensures job in OkJobsOfPages(pages, from, to, htmlText) <==> ExtractedOn(pages, from, to, htmlText, job)
    decreases (to as int) - (from as int)
  {
    if from < to {
      var page := PageAt(pages, from);
      OkJobsOfPagesMember(pages, from + 1, to, htmlText, job);
      OkJobsMember(page, htmlText, job);
      if job in OkJobs(page, htmlText) {
        var k :| 0 <= k < |page| && ExtractedAs(page[k], htmlText, job);
        assert ExtractedOn(pages, from, to, htmlText, job);
      }
      if ExtractedOn(pages, from + 1, to, htmlText, job) {
        var j, k :| from + 1 <= j < to && 0 <= k < |PageAt(pages, j)| && ExtractedAs(PageAt(pages, j)[k], htmlText, job);
        assert ExtractedOn(pages, from, to, htmlText, job);
      }
      if ExtractedOn(pages, from, to, htmlText, job) {
        var j, k :| from <= j < to && 0 <= k < |PageAt(pages, j)| && ExtractedAs(PageAt(pages, j)[k], htmlText, job);
        if j > from {
          assert ExtractedOn(pages, from + 1, to, htmlText, job);
        }
      }
    }
  }

  /**
   * A crawl that returns returns a record iff it is what extract_job_data
   * assembles for an entry of a page before the last checkpoint's page.
   */
  lemma CrawlReturnsExtracted(pages: seq<seq<Entry>>, i: nat, htmlText: string -> string, job: LinkedinJob)
    ensures var run := CrawlFrom(pages, i, htmlText);
      run.outcome.Returned? ==>
        |Checkpoints(run.trace)| >= 1
        && (job in run.outcome.jobs <==> ExtractedOn(pages, i, i + |Checkpoints(run.trace)| - 1, htmlText, job))
  {
    var run := CrawlFrom(pages, i, htmlText);
    CrawlResult(pages, i, htmlText);
    if run.outcome.Returned? {
      OkJobsOfPagesMember(pages, i, i + |Checkpoints(run.trace)| - 1, htmlText, job);
    }
  }

  /** Every record a run from page `i` hands to the callback comes from an entry of a page it navigated to. */
  ghost predicate CallbacksExtracted(pages: seq<seq<Entry>>, i: nat, htmlText: string -> string, run: CrawlRun) {
    forall job :: job in CalledBack(run.trace) ==> ExtractedOn(pages, i, i + |Checkpoints(run.trace)|, htmlText, job)
  }

  /**
   * Every record a crawl hands to the callback, whether the crawl returns
   * or raises, is what extract_job_data assembles for an entry of a page
   * the crawl navigated to; in particular its id is that entry's
   * data-occludable-job-id.
   */
  lemma {:induction false} CrawlCallbacksExtracted(pages: seq<seq<Entry>>, i: nat, htmlText: string -> string)
    ensures CallbacksExtracted(pages, i, htmlText, CrawlFrom(pages, i, htmlText))
    decreases |pages| - i
  {
    var page := PageAt(pages, i);
    if AllPromoted(page, htmlText) {
      CallbacksLast(pages, i, htmlText);
    } else if RunEntries(page, htmlText).raised {
      CallbacksRaised(pages, i, htmlText);
    } else {
      CrawlCallbacksExtracted(pages, i + 1, htmlText);
      CallbacksStep(pages, i, htmlText);
    }
  }

  lemma CallbacksLast(pages: seq<seq<Entry>>, i: nat, htmlText: string -> string)
    requires AllPromoted(PageAt(pages, i), htmlText)
    ensures CallbacksExtracted(pages, i, htmlText, CrawlFrom(pages, i, htmlText))
  {
    CrawlFromUnfold(pages, i, htmlText);
    PickOne(Navigate(PAGE_SIZE * i), CalledBackWith);
  }

  lemma CallbacksRaised(pages: seq<seq<Entry>>, i: nat, htmlText: string -> string)
    requires !AllPromoted(PageAt(pages, i), htmlText) && RunEntries(PageAt(pages, i), htmlText).raised
    ensures CallbacksExtracted(pages, i, htmlText, CrawlFrom(pages, i, htmlText))
  {
    CrawlFromUnfold(pages, i, htmlText);
    PageTraceShape(pages, i, htmlText);
    PageRecordsExtracted(pages, i, htmlText);
    assert CrawlFrom(pages, i, htmlText).trace == PageTrace(pages, i, htmlText);
  }

  lemma CallbacksStep(pages: seq<seq<Entry>>, i: nat, htmlText: string -> string)
    requires !AllPromoted(PageAt(pages, i), htmlText) && !RunEntries(PageAt(pages, i), htmlText).raised
    requires CallbacksExtracted(pages, i + 1, htmlText, CrawlFrom(pages, i + 1, htmlText))
    ensures CallbacksExtracted(pages, i, htmlText, CrawlFrom(pages, i, htmlText))
  {
    var run, rest := CrawlFrom(pages, i, htmlText), CrawlFrom(pages, i + 1, htmlText);
    var t, pageJobs := PageTrace(pages, i, htmlText), RunEntries(PageAt(pages, i), htmlText).jobs;
    CrawlFromContinues(pages, i, htmlText);
    CheckpointsStep(pages, i, htmlText);
    PageTraceShape(pages, i, htmlText);
    PickConcat(t, rest.trace, CalledBackWith);
    PageRecordsExtracted(pages, i, htmlText);
    CallbacksOneMore(pages, i, htmlText, run, rest, pageJobs);
  }

  /** CallbacksExtracted for a run that crawls page `i` completely and then goes on as `rest`. */
  lemma CallbacksOneMore(pages: seq<seq<Entry>>, i: nat, htmlText: string -> string, run: CrawlRun, rest: CrawlRun,
                         pageJobs: seq<LinkedinJob>)
    requires forall job :: job in pageJobs ==> ExtractedOn(pages, i, i + 1, htmlText, job)
    requires CalledBack(run.trace) == pageJobs + CalledBack(rest.trace)
    requires |Checkpoints(run.trace)| == 1 + |Checkpoints(rest.trace)|
    requires CallbacksExtracted(pages, i + 1, htmlText, rest)
    ensures CallbacksExtracted(pages, i, htmlText, run)
  {
    var to := i + |Checkpoints(run.trace)|;
    forall job | job in CalledBack(run.trace) ensures ExtractedOn(pages, i, to, htmlText, job) {
      if job in pageJobs {
        var j, k :| i <= j < i + 1 && 0 <= k < |PageAt(pages, j)| && ExtractedAs(PageAt(pages, j)[k], htmlText, job);
        assert j < to;
      } else {
        assert job in CalledBack(rest.trace);
        var j, k :| i + 1 <= j < to && 0 <= k < |PageAt(pages, j)| && ExtractedAs(PageAt(pages, j)[k], htmlText, job);
        assert i <= j;
      }
    }
  }

  /** The records of page `i`'s inner loop come from that page's entries. */
  lemma PageRecordsExtracted(pages: seq<seq<Entry>>, i: nat, htmlText: string -> string)
    ensures forall job :: job in RunEntries(PageAt(pages, i), htmlText).jobs ==> ExtractedOn(pages, i, i + 1, htmlText, job)
  {
    var page := PageAt(pages, i);
    var run := RunEntries(page, htmlText);
    var n := |Attempts(run.events)|;
    PageJobs(page, htmlText);
    forall job | job in run.jobs ensures ExtractedOn(pages, i, i + 1, htmlText, job) {
      OkJobsMember(page[..n], htmlText, job);
      var k :| 0 <= k < n && ExtractedAs(page[..n][k], htmlText, job);
      assert page[..n][k] == page[k];
      assert i <= i < i + 1 && 0 <= k < |PageAt(pages, i)| && ExtractedAs(PageAt(pages, i)[k], htmlText, job);
    }
  }

  /**
   * In a crawl from the first page that returns, every successfully
   * extracted entry of a page before the last one yields its record.
   */
  lemma ReturnsEntryRecord(pages: seq<seq<Entry>>, htmlText: string -> string, j: nat, k: nat)
    requires var run := CrawlFrom(pages, 0, htmlText);
      run.outcome.Returned? && j + 1 < |Checkpoints(run.trace)|
    requires k < |PageAt(pages, j)| && PageAt(pages, j)[k].extraction.Extracted?
    ensures var e := PageAt(pages, j)[k];
      ExtractJobData(e.extraction.card, e.extraction.detailsHtml, htmlText) in CrawlFrom(pages, 0, htmlText).outcome.jobs
  {
    var run, e := CrawlFrom(pages, 0, htmlText), PageAt(pages, j)[k];
    var job := ExtractJobData(e.extraction.card, e.extraction.detailsHtml, htmlText);
    CrawlReturnsExtracted(pages, 0, htmlText, job);
    assert ExtractedAs(PageAt(pages, j)[k], htmlText, job);
    assert ExtractedOn(pages, 0, |Checkpoints(run.trace)| - 1, htmlText, job);
  }

  /**
   * In every crawl from the first page, returning or raising, the callback
   * receives the record of each successfully extracted entry that was
   * attempted: every such entry of a page before the last one, and, when
   * an exception escaped on the last page, every such entry before it.
   */
  lemma EntryRecordCalledBack(pages: seq<seq<Entry>>, htmlText: string -> string, j: nat, k: nat)
    requires var run := CrawlFrom(pages, 0, htmlText); var n := |Checkpoints(run.trace)|;
      j + 1 < n
      || (j + 1 == n && run.outcome.Raised? && k < |Attempts(RunEntries(PageAt(pages, j), htmlText).events)|)
    requires k < |PageAt(pages, j)| && PageAt(pages, j)[k].extraction.Extracted?
    ensures var e := PageAt(pages, j)[k];
      ExtractJobData(e.extraction.card, e.extraction.detailsHtml, htmlText) in CalledBack(CrawlFrom(pages, 0, htmlText).trace)
  {
    var run, e := CrawlFrom(pages, 0, htmlText), PageAt(pages, j)[k];
    var n := |Checkpoints(run.trace)|;
    var job := ExtractJobData(e.extraction.card, e.extraction.detailsHtml, htmlText);
    CrawlCallbacks(pages, 0, htmlText);
    if j + 1 < n {
      RecordOnPages(pages, n - 1, htmlText, j, k);
    } else {
      RecordAttempted(PageAt(pages, j), htmlText, k);
    }
  }

  /** The record of an extracted entry on one of the pages `0` up to (not including) `to` is among their records. */
  lemma RecordOnPages(pages: seq<seq<Entry>>, to: nat, htmlText: string -> string, j: nat, k: nat)
    requires j < to && k < |PageAt(pages, j)| && PageAt(pages, j)[k].extraction.Extracted?
    ensures var e := PageAt(pages, j)[k];
      ExtractJobData(e.extraction.card, e.extraction.detailsHtml, htmlText) in OkJobsOfPages(pages, 0, to, htmlText)
  {
    var e := PageAt(pages, j)[k];
    var job := ExtractJobData(e.extraction.card, e.extraction.detailsHtml, htmlText);
    OkJobsOfPagesMember(pages, 0, to, htmlText, job);
    assert ExtractedAs(PageAt(pages, j)[k], htmlText, job);
  }

  /** The record of an extracted entry that the inner loop attempted is among the page's records. */
  lemma RecordAttempted(page: seq<Entry>, htmlText: string -> string, k: nat)
    requires k < |Attempts(RunEntries(page, htmlText).events)| && k < |page| && page[k].extraction.Extracted?
    ensures ExtractJobData(page[k].extraction.card, page[k].extraction.detailsHtml, htmlText)
            in RunEntries(page, htmlText).jobs
  {
    var m := |Attempts(RunEntries(page, htmlText).events)|;
    var job := ExtractJobData(page[k].extraction.card, page[k].extraction.detailsHtml, htmlText);
    PageJobs(page, htmlText);
    OkJobsMember(page[..m], htmlText, job);
    assert page[..m][k] == page[k];
  }
}
