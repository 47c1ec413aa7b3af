/**
 * What crawl_jobs promises, stated over its specification CrawlFrom
 * (CrawlJobs is proved equal to it): the checkpoints it navigates to,
 * when it stops, which entries it attempts, and what it returns and
 * hands to the callback.
 */
module CrawlProperties {
  import opened Wrappers
  import opened Interfaces
  import opened Crawler

  function AsSeq<T>(o: Option<T>): seq<T> {
    match o
    case Some(x) => [x]
    case None => []
  }

  /** The values `f` picks out of a trace, in trace order. */
  function Pick<T>(trace: seq<Event>, f: Event -> Option<T>): seq<T>
    decreases |trace|
  {
    if trace == [] then [] else AsSeq(f(trace[0])) + Pick(trace[1..], f)
  }

  lemma PickOne<T>(e: Event, f: Event -> Option<T>)
    ensures Pick([e], f) == AsSeq(f(e))
  {
    assert [e][1..] == [];
  }

  lemma PickThree<T>(a: Event, b: Event, c: Event, f: Event -> Option<T>)
    ensures Pick([a, b, c], f) == AsSeq(f(a)) + AsSeq(f(b)) + AsSeq(f(c))
  {
    assert [a, b, c][1..] == [b, c];
    assert [b, c][1..] == [c];
    PickOne(c, f);
  }

  lemma {:induction false} PickConcat<T>(a: seq<Event>, b: seq<Event>, f: Event -> Option<T>)
    ensures Pick(a + b, f) == Pick(a, f) + Pick(b, f)
    decreases |a|
  {
    if a == [] {
      assert a + b == b;
    } else {
      assert (a + b)[1..] == a[1..] + b;
      PickConcat(a[1..], b, f);
    }
  }

  function NavigatedTo(e: Event): Option<nat> {
    if e.Navigate? then Some(e.checkpoint) else None
  }

  function AttemptedAt(e: Event): Option<nat> {
    if e.Attempt? then Some(e.index) else None
  }

  function AppendedJob(e: Event): Option<LinkedinJob> {
    if e.Append? then Some(e.job) else None
  }

  function CalledBackWith(e: Event): Option<LinkedinJob> {
    if e.Callback? then Some(e.job) else None
  }

  /** The checkpoints navigated to. */
  function Checkpoints(trace: seq<Event>): seq<nat> {
    Pick(trace, NavigatedTo)
  }

  /** The list positions crawl_job was called on. */
  function Attempts(trace: seq<Event>): seq<nat> {
    Pick(trace, AttemptedAt)
  }

  /** The records appended to the result list. */
  function Appended(trace: seq<Event>): seq<LinkedinJob> {
    Pick(trace, AppendedJob)
  }

  /** The records the callback received. */
  function CalledBack(trace: seq<Event>): seq<LinkedinJob> {
    Pick(trace, CalledBackWith)
  }

  /** Every append is followed at once by the callback on the same record, and every callback call follows such an append. */
  ghost predicate AppendThenCallback(trace: seq<Event>) {
    (forall i :: 0 <= i < |trace| && trace[i].Append? ==> i + 1 < |trace| && trace[i + 1] == Callback(trace[i].job))
    && (forall i :: 0 <= i < |trace| && trace[i].Callback? ==> i >= 1 && trace[i - 1] == Append(trace[i].job))
  }

  lemma AppendThenCallbackConcat(a: seq<Event>, b: seq<Event>)
    requires AppendThenCallback(a) && AppendThenCallback(b)
    ensures AppendThenCallback(a + b)
  {
    var t := a + b;
    forall i | 0 <= i < |t| && t[i].Append?
      ensures i + 1 < |t| && t[i + 1] == Callback(t[i].job)
    {
      if i < |a| {
        assert a[i].Append?;
      } else {
        assert b[i - |a|].Append?;
      }
    }
    forall i | 0 <= i < |t| && t[i].Callback?
      ensures i >= 1 && t[i - 1] == Append(t[i].job)
    {
      if i < |a| {
        assert a[i].Callback?;
      } else {
        assert b[i - |a|].Callback?;
      }
    }
  }

  /** The positions 0, 1, ..., n - 1 in order. */
  function Indices(n: nat): (r: seq<nat>)
    ensures |r| == n && forall k :: 0 <= k < n ==> r[k] == k
  {
    if n == 0 then [] else Indices(n - 1) + [n - 1]
  }

  /** The record crawl_job yields for an entry, if it yields one. */
  function OkJob(e: Entry, htmlText: string -> string): seq<LinkedinJob> {
    match CrawlJob(e, htmlText)
    case Ok(job) => [job]
    case _ => []
  }

  /** The records of the entries whose extraction succeeds, in list order. */
  function OkJobs(entries: seq<Entry>, htmlText: string -> string): seq<LinkedinJob>
    decreases |entries|
  {
    if entries == [] then [] else OkJob(entries[0], htmlText) + OkJobs(entries[1..], htmlText)
  }

  lemma {:induction false} OkJobsSnoc(entries: seq<Entry>, e: Entry, htmlText: string -> string)
    ensures OkJobs(entries + [e], htmlText) == OkJobs(entries, htmlText) + OkJob(e, htmlText)
    decreases |entries|
  {
    if entries == [] {
      assert entries + [e] == [e];
      assert OkJobs([e], htmlText) == OkJob(e, htmlText) + OkJobs([], htmlText);
    } else {
      assert (entries + [e])[1..] == entries[1..] + [e];
      OkJobsSnoc(entries[1..], e, htmlText);
    }
  }

  /** What one attempted entry contributes: one attempt, no navigation, its record if any. */
  lemma AttemptEntryShape(e: Entry, k: nat, htmlText: string -> string)
    ensures var step := AttemptEntry(e, k, htmlText);
      Attempts(step.events) == [k] && Checkpoints(step.events) == []
      && step.jobs == OkJob(e, htmlText) && (step.raised <==> e.extraction.OtherError?)
  {
    match CrawlJob(e, htmlText)
    case Ok(job) => SuccessEvents(k, job);
    case _ => AttemptOnlyEvents(k);
  }

  /** An attempt appends its record and then hands it to the callback. */
  lemma AttemptEntryDelivers(e: Entry, k: nat, htmlText: string -> string)
    ensures var step := AttemptEntry(e, k, htmlText);
      Checkpoints(step.events) == [] && Appended(step.events) == step.jobs && CalledBack(step.events) == step.jobs
      && AppendThenCallback(step.events)
  {
    match CrawlJob(e, htmlText)
    case Ok(job) => SuccessEvents(k, job);
    case _ => AttemptOnlyEvents(k);
  }

  /** The events of a successful attempt. */
  lemma SuccessEvents(k: nat, job: LinkedinJob)
    ensures var events := [Attempt(k), Append(job), Callback(job)];
      Attempts(events) == [k] && Checkpoints(events) == []
      && Appended(events) == [job] && CalledBack(events) == [job] && AppendThenCallback(events)
  {
    PickThree(Attempt(k), Append(job), Callback(job), AttemptedAt);
    PickThree(Attempt(k), Append(job), Callback(job), NavigatedTo);
    PickThree(Attempt(k), Append(job), Callback(job), AppendedJob);
    PickThree(Attempt(k), Append(job), Callback(job), CalledBackWith);
  }

  /** The events of an attempt that yields no record. */
  lemma AttemptOnlyEvents(k: nat)
    ensures var events := [Attempt(k)];
      Attempts(events) == [k] && Checkpoints(events) == []
      && Appended(events) == [] && CalledBack(events) == [] && AppendThenCallback(events)
  {
    PickOne(Attempt(k), AttemptedAt);
    PickOne(Attempt(k), NavigatedTo);
    PickOne(Attempt(k), AppendedJob);
    PickOne(Attempt(k), CalledBackWith);
  }

  /**
   * The inner loop on one page attempts the entries 0, 1, ..., n - 1 in
   * list order, promoted or not, where n is the whole page unless an
   * entry raised an exception other than a stale one; then that entry is
   * the last one attempted. Stale entries do not stop the loop.
   */
  lemma {:induction false} PageAttempts(entries: seq<Entry>, htmlText: string -> string)
    ensures var run := RunEntries(entries, htmlText); var n := |Attempts(run.events)|;
      n <= |entries| && Attempts(run.events) == Indices(n)
      && (!run.raised ==> n == |entries|)
      && (run.raised ==> n >= 1 && entries[n - 1].extraction.OtherError?)
    decreases |entries|
  {
    if entries != [] {
      var init, last := entries[..|entries| - 1], entries[|entries| - 1];
      var before := RunEntries(init, htmlText);
      PageAttempts(init, htmlText);
      if before.raised {
        RunEntriesAfterRaise(entries, htmlText);
        var n := |Attempts(before.events)|;
        assert entries[n - 1] == init[n - 1];
      } else {
        var step := AttemptEntry(last, |init|, htmlText);
        RunEntriesAppend(entries, htmlText);
        AttemptEntryShape(last, |init|, htmlText);
        AttemptsOneMore(before.events, step.events, |init|);
        assert Attempts(before.events + step.events) == Indices(|init|) + [|init|];
      }
    }
  }

  /** The loop stops at the FIRST entry that raises an exception other than a stale one. */
  lemma {:induction false} PageStopsAtFirstError(entries: seq<Entry>, htmlText: string -> string, k: nat)
    requires k < |entries| && entries[k].extraction.OtherError?
    ensures var run := RunEntries(entries, htmlText);
      run.raised && |Attempts(run.events)| <= k + 1
    decreases |entries|
  {
    var init, last := entries[..|entries| - 1], entries[|entries| - 1];
    var before := RunEntries(init, htmlText);
    if k < |init| {
      assert init[k] == entries[k];
      PageStopsAtFirstError(init, htmlText, k);
      RunEntriesAfterRaise(entries, htmlText);
    } else if before.raised {
      RunEntriesAfterRaise(entries, htmlText);
      PageAttempts(init, htmlText);
    } else {
      var step := AttemptEntry(last, |init|, htmlText);
      RunEntriesAppend(entries, htmlText);
      AttemptEntryShape(last, |init|, htmlText);
      PageAttempts(init, htmlText);
      AttemptsOneMore(before.events, step.events, |init|);
    }
  }

  /** A trace followed by the events of one attempt has one attempt more. */
  lemma AttemptsOneMore(a: seq<Event>, b: seq<Event>, k: nat)
    requires Attempts(b) == [k]
    ensures Attempts(a + b) == Attempts(a) + [k]
  {
    PickConcat(a, b, AttemptedAt);
  }

  /**
   * On one page, every record is appended and then handed at once to the
   * callback, the appended records are the page's result, and nothing is
   * navigated to.
   */
  lemma {:induction false} PageEvents(entries: seq<Entry>, htmlText: string -> string)
    ensures var run := RunEntries(entries, htmlText);
      Appended(run.events) == run.jobs && CalledBack(run.events) == run.jobs
      && Checkpoints(run.events) == [] && AppendThenCallback(run.events)
    decreases |entries|
  {
    if entries != [] {
      var init, last := entries[..|entries| - 1], entries[|entries| - 1];
      var before := RunEntries(init, htmlText);
      PageEvents(init, htmlText);
      if before.raised {
        RunEntriesAfterRaise(entries, htmlText);
      } else {
        var step := AttemptEntry(last, |init|, htmlText);
        RunEntriesAppend(entries, htmlText);
        AttemptEntryDelivers(last, |init|, htmlText);
        DeliversConcat(before.events, before.jobs, step.events, step.jobs);
      }
    }
  }

  lemma RunEntriesAfterRaise(entries: seq<Entry>, htmlText: string -> string)
    requires entries != [] && RunEntries(entries[..|entries| - 1], htmlText).raised
    ensures RunEntries(entries, htmlText) == RunEntries(entries[..|entries| - 1], htmlText)
  {
  }

  /** Two parts of a trace that each deliver their records deliver them together. */
  lemma DeliversConcat(a: seq<Event>, jobsA: seq<LinkedinJob>, b: seq<Event>, jobsB: seq<LinkedinJob>)
    requires Appended(a) == jobsA && CalledBack(a) == jobsA && Checkpoints(a) == [] && AppendThenCallback(a)
    requires Appended(b) == jobsB && CalledBack(b) == jobsB && Checkpoints(b) == [] && AppendThenCallback(b)
    ensures Appended(a + b) == jobsA + jobsB && CalledBack(a + b) == jobsA + jobsB
    ensures Checkpoints(a + b) == [] && AppendThenCallback(a + b)
  {
    PickConcat(a, b, AppendedJob);
    PickConcat(a, b, CalledBackWith);
    PickConcat(a, b, NavigatedTo);
    AppendThenCallbackConcat(a, b);
  }

  /**
   * The records one page yields are those of the attempted entries whose
   * extraction succeeded, in list order: a stale entry yields nothing.
   */
  lemma {:induction false} PageJobs(entries: seq<Entry>, htmlText: string -> string)
    ensures var run := RunEntries(entries, htmlText); var n := |Attempts(run.events)|;
      n <= |entries| && run.jobs == OkJobs(entries[..n], htmlText)
    decreases |entries|
  {
    if entries == [] {
      assert entries[..0] == [];
    } else {
      var init := entries[..|entries| - 1];
      var before := RunEntries(init, htmlText);
      PageJobs(init, htmlText);
      PageAttempts(init, htmlText);
      var m := |Attempts(before.events)|;
      if before.raised {
        RunEntriesAfterRaise(entries, htmlText);
        assert init[..m] == entries[..m];
      } else {
        assert init[..m] == init;
        PageJobsStep(entries, htmlText);
        assert entries[..|entries|] == entries;
      }
    }
  }

  /** PageJobs for a page whose last entry is attempted. */
  lemma PageJobsStep(entries: seq<Entry>, htmlText: string -> string)
    requires entries != []
    requires var before := RunEntries(entries[..|entries| - 1], htmlText);
      !before.raised && before.jobs == OkJobs(entries[..|entries| - 1], htmlText)
      && |Attempts(before.events)| == |entries| - 1
    ensures var run := RunEntries(entries, htmlText);
      |Attempts(run.events)| == |entries| && run.jobs == OkJobs(entries, htmlText)
  {
    var init, last := entries[..|entries| - 1], entries[|entries| - 1];
    var before := RunEntries(init, htmlText);
    var step := AttemptEntry(last, |init|, htmlText);
    assert entries == init + [last];
    RunEntriesAppend(entries, htmlText);
    AttemptEntryShape(last, |init|, htmlText);
    JobsOneMore(init, last, before, step, htmlText);
  }

  /** The attempts and records of the entries before `last`, then those of `last`. */
  lemma JobsOneMore(init: seq<Entry>, last: Entry, before: PageRun, step: PageRun, htmlText: string -> string)
    requires before.jobs == OkJobs(init, htmlText) && |Attempts(before.events)| == |init|
    requires Attempts(step.events) == [|init|] && step.jobs == OkJob(last, htmlText)
    ensures |Attempts(before.events + step.events)| == |init| + 1
    ensures before.jobs + step.jobs == OkJobs(init + [last], htmlText)
  {
    AttemptsOneMore(before.events, step.events, |init|);
    OkJobsSnoc(init, last, htmlText);
  }

  /** The last entry of a page is attempted when the ones before it did not raise. */
  lemma RunEntriesAppend(entries: seq<Entry>, htmlText: string -> string)
    requires entries != [] && !RunEntries(entries[..|entries| - 1], htmlText).raised
    ensures var init := entries[..|entries| - 1];
      var before, step := RunEntries(init, htmlText), AttemptEntry(entries[|entries| - 1], |init|, htmlText);
      RunEntries(entries, htmlText) == PageRun(before.events + step.events, before.jobs + step.jobs, step.raised)
  {
  }

  /** The inner loop raises iff some entry of the page raises an exception other than a stale one. */
  lemma PageRaisesIff(entries: seq<Entry>, htmlText: string -> string)
    ensures RunEntries(entries, htmlText).raised <==> exists k :: 0 <= k < |entries| && entries[k].extraction.OtherError?
  {
    PageAttempts(entries, htmlText);
    var run := RunEntries(entries, htmlText);
    if run.raised {
      var n := |Attempts(run.events)|;
      assert entries[n - 1].extraction.OtherError?;
    }
    if k :| 0 <= k < |entries| && entries[k].extraction.OtherError? {
      PageStopsAtFirstError(entries, htmlText, k);
    }
  }
  /** The records of the successfully extracted entries of pages `from` up to (not including) `to`. */
  function OkJobsOfPages(pages: seq<seq<Entry>>, from: nat, to: nat, htmlText: string -> string): seq<LinkedinJob>
    decreases to - from
  {
    if from >= to then [] else OkJobs(PageAt(pages, from), htmlText) + OkJobsOfPages(pages, from + 1, to, htmlText)
  }

  /** The three shapes of a crawl from page `i`, one per way its first page ends. */
  lemma CrawlFromUnfold(pages: seq<seq<Entry>>, i: nat, htmlText: string -> string)
    ensures var page, nav := PageAt(pages, i), [Navigate(PAGE_SIZE * i)];
      var run := RunEntries(page, htmlText);
      CrawlFrom(pages, i, htmlText)
      == if AllPromoted(page, htmlText) then CrawlRun(nav, Returned([]))
         else if run.raised then CrawlRun(nav + run.events, Raised)
         else Continue(nav + run.events, run.jobs, CrawlFrom(pages, i + 1, htmlText))
  {
  }

  /** A crawl from a page that is crawled completely goes on with the next page. */
  lemma CrawlFromContinues(pages: seq<seq<Entry>>, i: nat, htmlText: string -> string)
    requires !AllPromoted(PageAt(pages, i), htmlText) && !RunEntries(PageAt(pages, i), htmlText).raised
    ensures CrawlFrom(pages, i, htmlText)
            == Continue(PageTrace(pages, i, htmlText), RunEntries(PageAt(pages, i), htmlText).jobs,
                        CrawlFrom(pages, i + 1, htmlText))
  {
  }

  /** The events of page `i`: its navigation, then its inner loop. */
  function PageTrace(pages: seq<seq<Entry>>, i: nat, htmlText: string -> string): seq<Event> {
    [Navigate(PAGE_SIZE * i)] + RunEntries(PageAt(pages, i), htmlText).events
  }

  lemma PageTraceShape(pages: seq<seq<Entry>>, i: nat, htmlText: string -> string)
    ensures var t, run := PageTrace(pages, i, htmlText), RunEntries(PageAt(pages, i), htmlText);
      Checkpoints(t) == [PAGE_SIZE * i] && Appended(t) == run.jobs && CalledBack(t) == run.jobs
      && AppendThenCallback(t)
  {
    var run := RunEntries(PageAt(pages, i), htmlText);
    PageEvents(PageAt(pages, i), htmlText);
    NavigationFirst(PAGE_SIZE * i, run.events, run.jobs);
  }

  /** A navigation followed by the events of one page. */
  lemma NavigationFirst(checkpoint: nat, events: seq<Event>, jobs: seq<LinkedinJob>)
    requires Appended(events) == jobs && CalledBack(events) == jobs
    requires Checkpoints(events) == [] && AppendThenCallback(events)
    ensures var t := [Navigate(checkpoint)] + events;
      Checkpoints(t) == [checkpoint] && Appended(t) == jobs && CalledBack(t) == jobs
      && AppendThenCallback(t)
  {
    NavigateThen(Navigate(checkpoint), events, NavigatedTo);
    NavigateThen(Navigate(checkpoint), events, AppendedJob);
    NavigateThen(Navigate(checkpoint), events, CalledBackWith);
    NavigationAlone(checkpoint);
    AppendThenCallbackConcat([Navigate(checkpoint)], events);
  }

  lemma NavigationAlone(checkpoint: nat)
    ensures AppendThenCallback([Navigate(checkpoint)])
  {
  }

  /** Picking from a trace that starts with one more event. */
  lemma NavigateThen<T>(e: Event, events: seq<Event>, f: Event -> Option<T>)
    ensures Pick([e] + events, f) == AsSeq(f(e)) + Pick(events, f)
  {
    PickOne(e, f);
    PickConcat([e], events, f);
  }

  /** The checkpoints of a continued crawl are those of its first part, then those of the rest. */
  lemma ContinueCheckpoints(trace: seq<Event>, jobs: seq<LinkedinJob>, rest: CrawlRun)
    ensures Checkpoints(Continue(trace, jobs, rest).trace) == Checkpoints(trace) + Checkpoints(rest.trace)
    ensures Continue(trace, jobs, rest).outcome.Returned? == rest.outcome.Returned?
  {
    PickConcat(trace, rest.trace, NavigatedTo);
  }

  /** Page `j` does not stop the crawl: it is not all promoted and its inner loop does not raise. */
  predicate CrawledCompletely(pages: seq<seq<Entry>>, j: nat, htmlText: string -> string) {
    !AllPromoted(PageAt(pages, j), htmlText) && !RunEntries(PageAt(pages, j), htmlText).raised
  }

  /**
   * How a crawl from page `i` goes through the pages: it navigates to the
   * checkpoints 25 * i, 25 * (i + 1), ... in order, one per page; every
   * page before the last one is crawled completely and is not all
   * promoted; it returns iff the last page is all promoted, and otherwise
   * an exception escaped on that last page.
   */
  ghost predicate VisitsPages(pages: seq<seq<Entry>>, i: nat, htmlText: string -> string, run: CrawlRun) {
    var cps := Checkpoints(run.trace); var n := |cps|;
    n >= 1 && (forall j :: 0 <= j < n ==> cps[j] == PAGE_SIZE * (i + j))
    && (forall j :: i <= j < i + n - 1 ==> CrawledCompletely(pages, j, htmlText))
    && (run.outcome.Returned? <==> AllPromoted(PageAt(pages, i + n - 1), htmlText))
    && (run.outcome.Raised? ==> RunEntries(PageAt(pages, i + n - 1), htmlText).raised)
  }

  /**
   * The pages of a crawl from page `i` (VisitsPages). The crawl stops on
   * the first page that is all promoted (an empty page is), without
   * advancing the checkpoint, so its last checkpoint is 25 times the
   * number of pages crawled before that one.
   */
  lemma {:induction false} CrawlPages(pages: seq<seq<Entry>>, i: nat, htmlText: string -> string)
    ensures VisitsPages(pages, i, htmlText, CrawlFrom(pages, i, htmlText))
    decreases |pages| - i
  {
    var page := PageAt(pages, i);
    if AllPromoted(page, htmlText) || RunEntries(page, htmlText).raised {
      CrawlPagesLast(pages, i, htmlText);
    } else {
      CrawlPages(pages, i + 1, htmlText);
      CrawlPagesStep(pages, i, htmlText);
    }
  }

  /** VisitsPages when page `i` is the last one crawled. */
  lemma CrawlPagesLast(pages: seq<seq<Entry>>, i: nat, htmlText: string -> string)
    requires AllPromoted(PageAt(pages, i), htmlText) || RunEntries(PageAt(pages, i), htmlText).raised
    ensures VisitsPages(pages, i, htmlText, CrawlFrom(pages, i, htmlText))
  {
    CrawlFromUnfold(pages, i, htmlText);
    if AllPromoted(PageAt(pages, i), htmlText) {
      PickOne(Navigate(PAGE_SIZE * i), NavigatedTo);
    } else {
      PageTraceShape(pages, i, htmlText);
    }
  }

  /** VisitsPages for a page that is crawled completely, given VisitsPages for the next one. */
  lemma CrawlPagesStep(pages: seq<seq<Entry>>, i: nat, htmlText: string -> string)
    requires !AllPromoted(PageAt(pages, i), htmlText) && !RunEntries(PageAt(pages, i), htmlText).raised
    requires VisitsPages(pages, i + 1, htmlText, CrawlFrom(pages, i + 1, htmlText))
    ensures VisitsPages(pages, i, htmlText, CrawlFrom(pages, i, htmlText))
  {
    CheckpointsStep(pages, i, htmlText);
    VisitsOneMore(pages, i, htmlText, CrawlFrom(pages, i, htmlText), CrawlFrom(pages, i + 1, htmlText));
  }

  /** VisitsPages from page `i`, for a run that visits page `i` and then goes on as `rest`. */
  lemma VisitsOneMore(pages: seq<seq<Entry>>, i: nat, htmlText: string -> string, run: CrawlRun, rest: CrawlRun)
    requires CrawledCompletely(pages, i, htmlText) && VisitsPages(pages, i + 1, htmlText, rest)
    requires Checkpoints(run.trace) == [PAGE_SIZE * i] + Checkpoints(rest.trace)
    requires run.outcome.Returned? == rest.outcome.Returned?
    ensures VisitsPages(pages, i, htmlText, run)
  {
    var restCps, cps := Checkpoints(rest.trace), Checkpoints(run.trace);
    forall j | 1 <= j < |cps| ensures cps[j] == PAGE_SIZE * (i + j) {
      assert cps[j] == restCps[j - 1];
    }
  }

  /** The checkpoints of a page crawled completely, then those of the crawl from the next page. */
  lemma CheckpointsStep(pages: seq<seq<Entry>>, i: nat, htmlText: string -> string)
    requires !AllPromoted(PageAt(pages, i), htmlText) && !RunEntries(PageAt(pages, i), htmlText).raised
    ensures var run, rest := CrawlFrom(pages, i, htmlText), CrawlFrom(pages, i + 1, htmlText);
      Checkpoints(run.trace) == [PAGE_SIZE * i] + Checkpoints(rest.trace)
      && run.outcome.Returned? == rest.outcome.Returned?
  {
    var rest := CrawlFrom(pages, i + 1, htmlText);
    var t := PageTrace(pages, i, htmlText);
    CrawlFromContinues(pages, i, htmlText);
    PageTraceShape(pages, i, htmlText);
    ContinueCheckpoints(t, RunEntries(PageAt(pages, i), htmlText).jobs, rest);
  }

  /** The callback receives the appended records, each right after its append, and a returning crawl returns them. */
  ghost predicate DeliversInOrder(run: CrawlRun) {
    AppendThenCallback(run.trace) && Appended(run.trace) == CalledBack(run.trace)
    && (run.outcome.Returned? ==> run.outcome.jobs == CalledBack(run.trace))
  }

  lemma ContinueDelivers(trace: seq<Event>, jobs: seq<LinkedinJob>, rest: CrawlRun)
    requires AppendThenCallback(trace) && Appended(trace) == jobs && CalledBack(trace) == jobs
    requires DeliversInOrder(rest)
    ensures DeliversInOrder(Continue(trace, jobs, rest))
  {
    PickConcat(trace, rest.trace, AppendedJob);
    PickConcat(trace, rest.trace, CalledBackWith);
    AppendThenCallbackConcat(trace, rest.trace);
  }

  /**
   * Every record of a crawl is appended and then handed at once to the
   * callback, so the callback receives exactly the appended records, in
   * the same order; a crawl that returns returns exactly those records.
   */
  lemma {:induction false} CrawlDeliveries(pages: seq<seq<Entry>>, i: nat, htmlText: string -> string)
    ensures DeliversInOrder(CrawlFrom(pages, i, htmlText))
    decreases |pages| - i
  {
    var page := PageAt(pages, i);
    CrawlFromUnfold(pages, i, htmlText);
    PageTraceShape(pages, i, htmlText);
    if AllPromoted(page, htmlText) {
      PickOne(Navigate(PAGE_SIZE * i), AppendedJob);
      PickOne(Navigate(PAGE_SIZE * i), CalledBackWith);
      NavigationAlone(PAGE_SIZE * i);
    } else if !RunEntries(page, htmlText).raised {
      CrawlDeliveries(pages, i + 1, htmlText);
      ContinueDelivers(PageTrace(pages, i, htmlText), RunEntries(page, htmlText).jobs, CrawlFrom(pages, i + 1, htmlText));
    }
  }

  /**
   * A run from page `i` that returns returns the records of the
   * successfully extracted entries of the pages before its last
   * checkpoint's page: page order, then list order.
   */
  ghost predicate ReturnsOkJobs(pages: seq<seq<Entry>>, i: nat, htmlText: string -> string, run: CrawlRun) {
    run.outcome.Returned? ==>
      |Checkpoints(run.trace)| >= 1
      && run.outcome.jobs == OkJobsOfPages(pages, i, i + |Checkpoints(run.trace)| - 1, htmlText)
  }

  /**
   * A crawl that returns returns the records of the successfully
   * extracted entries of the pages it crawled completely: page order,
   * then list order, stale entries left out (ReturnsOkJobs).
   */
  lemma {:induction false} CrawlResult(pages: seq<seq<Entry>>, i: nat, htmlText: string -> string)
    ensures ReturnsOkJobs(pages, i, htmlText, CrawlFrom(pages, i, htmlText))
    decreases |pages| - i
  {
    var page := PageAt(pages, i);
    if AllPromoted(page, htmlText) {
      CrawlResultLast(pages, i, htmlText);
    } else if !RunEntries(page, htmlText).raised {
      CrawlResult(pages, i + 1, htmlText);
      CrawlResultStep(pages, i, htmlText);
    } else {
      CrawlRaisesOnPage(pages, i, htmlText);
    }
  }

  /** A crawl whose first page raises raises. */
  lemma CrawlRaisesOnPage(pages: seq<seq<Entry>>, i: nat, htmlText: string -> string)
    requires !AllPromoted(PageAt(pages, i), htmlText) && RunEntries(PageAt(pages, i), htmlText).raised
    ensures CrawlFrom(pages, i, htmlText).outcome.Raised?
  {
  }

  lemma CrawlResultLast(pages: seq<seq<Entry>>, i: nat, htmlText: string -> string)
    requires AllPromoted(PageAt(pages, i), htmlText)
    ensures var run := CrawlFrom(pages, i, htmlText);
      run.outcome.Returned? && run.outcome.jobs == [] && |Checkpoints(run.trace)| == 1
  {
    CrawlFromUnfold(pages, i, htmlText);
    PickOne(Navigate(PAGE_SIZE * i), NavigatedTo);
  }

  lemma CrawlResultStep(pages: seq<seq<Entry>>, i: nat, htmlText: string -> string)
    requires !AllPromoted(PageAt(pages, i), htmlText) && !RunEntries(PageAt(pages, i), htmlText).raised
    requires ReturnsOkJobs(pages, i + 1, htmlText, CrawlFrom(pages, i + 1, htmlText))
    ensures ReturnsOkJobs(pages, i, htmlText, CrawlFrom(pages, i, htmlText))
  {
    ContinueResult(pages, i, htmlText);
    CrawlNavigates(pages, i + 1, htmlText);
    ResultOneMore(pages, i, htmlText, CrawlFrom(pages, i, htmlText), CrawlFrom(pages, i + 1, htmlText),
                  OkJobs(PageAt(pages, i), htmlText));
  }

  /** A crawl from a page crawled completely: one checkpoint more than the next crawl, and that page's records first. */
  lemma ContinueResult(pages: seq<seq<Entry>>, i: nat, htmlText: string -> string)
    requires !AllPromoted(PageAt(pages, i), htmlText) && !RunEntries(PageAt(pages, i), htmlText).raised
    ensures var run, rest := CrawlFrom(pages, i, htmlText), CrawlFrom(pages, i + 1, htmlText);
      |Checkpoints(run.trace)| == 1 + |Checkpoints(rest.trace)|
      && (run.outcome.Returned? ==>
            rest.outcome.Returned? && run.outcome.jobs == OkJobs(PageAt(pages, i), htmlText) + rest.outcome.jobs)
  {
    CrawlFromContinues(pages, i, htmlText);
    CheckpointsStep(pages, i, htmlText);
    PageJobsComplete(PageAt(pages, i), htmlText);
  }

  /** The result of a run that crawls page `i` completely and then goes on as `rest`. */
  lemma ResultOneMore(pages: seq<seq<Entry>>, i: nat, htmlText: string -> string, run: CrawlRun, rest: CrawlRun,
                      pageJobs: seq<LinkedinJob>)
    requires pageJobs == OkJobs(PageAt(pages, i), htmlText)
    requires |Checkpoints(run.trace)| == 1 + |Checkpoints(rest.trace)| && |Checkpoints(rest.trace)| >= 1
    requires run.outcome.Returned? ==> rest.outcome.Returned? && run.outcome.jobs == pageJobs + rest.outcome.jobs
    requires ReturnsOkJobs(pages, i + 1, htmlText, rest)
    ensures ReturnsOkJobs(pages, i, htmlText, run)
  {
    var n := |Checkpoints(rest.trace)|;
    assert OkJobsOfPages(pages, i, i + n, htmlText)
           == OkJobs(PageAt(pages, i), htmlText) + OkJobsOfPages(pages, i + 1, i + n, htmlText);
  }

  /**
   * The records a run from page `i` hands to the callback: those of the
   * successfully extracted entries of the pages before its last
   * checkpoint's page, page order then list order, followed, when an
   * exception escaped on that last page, by the records its inner loop
   * produced before the exception (PageJobs says which).
   */
  ghost predicate CallsBackOkJobs(pages: seq<seq<Entry>>, i: nat, htmlText: string -> string, run: CrawlRun) {
    |Checkpoints(run.trace)| >= 1
    && CalledBack(run.trace) == OkCallbacks(pages, i, |Checkpoints(run.trace)|, htmlText, run.outcome.Raised?)
  }

  /** The records of a crawl from page `i` over `n` pages, by CallsBackOkJobs; `raised` says how it ended. */
  function OkCallbacks(pages: seq<seq<Entry>>, i: nat, n: nat, htmlText: string -> string, raised: bool): seq<LinkedinJob>
    requires n >= 1
  {
    OkJobsOfPages(pages, i, i + n - 1, htmlText) + (if raised then RunEntries(PageAt(pages, i + n - 1), htmlText).jobs else [])
  }

  /** OkCallbacks over one more page starts with that page's records. */
  lemma OkCallbacksStep(pages: seq<seq<Entry>>, i: nat, n: nat, htmlText: string -> string, raised: bool)
    requires n >= 1
    ensures OkCallbacks(pages, i, n + 1, htmlText, raised)
            == OkJobs(PageAt(pages, i), htmlText) + OkCallbacks(pages, i + 1, n, htmlText, raised)
  {
    var page, later := OkJobs(PageAt(pages, i), htmlText), OkJobsOfPages(pages, i + 1, i + n, htmlText);
    var last := if raised then RunEntries(PageAt(pages, i + n), htmlText).jobs else [];
    assert OkJobsOfPages(pages, i, i + n, htmlText) == page + later;
    assert page + (later + last) == (page + later) + last;
  }

  /**
   * What every crawl, returning or raising, hands to the callback
   * (CallsBackOkJobs): a crawl that raises has already delivered each
   * record extracted before the exception.
   */
  lemma {:induction false} CrawlCallbacks(pages: seq<seq<Entry>>, i: nat, htmlText: string -> string)
    ensures CallsBackOkJobs(pages, i, htmlText, CrawlFrom(pages, i, htmlText))
    decreases |pages| - i
  {
    var page := PageAt(pages, i);
    if AllPromoted(page, htmlText) || RunEntries(page, htmlText).raised {
      CalledBackLast(pages, i, htmlText);
    } else {
      CrawlCallbacks(pages, i + 1, htmlText);
      CalledBackStep(pages, i, htmlText);
    }
  }

  /** CallsBackOkJobs when page `i` is the last one crawled. */
  lemma CalledBackLast(pages: seq<seq<Entry>>, i: nat, htmlText: string -> string)
    requires AllPromoted(PageAt(pages, i), htmlText) || RunEntries(PageAt(pages, i), htmlText).raised
    ensures CallsBackOkJobs(pages, i, htmlText, CrawlFrom(pages, i, htmlText))
  {
    CrawlFromUnfold(pages, i, htmlText);
    if AllPromoted(PageAt(pages, i), htmlText) {
      PickOne(Navigate(PAGE_SIZE * i), NavigatedTo);
      PickOne(Navigate(PAGE_SIZE * i), CalledBackWith);
    } else {
      PageTraceShape(pages, i, htmlText);
      assert CrawlFrom(pages, i, htmlText).trace == PageTrace(pages, i, htmlText);
    }
  }

  /** CallsBackOkJobs for a page that is crawled completely, given it for the next one. */
  lemma CalledBackStep(pages: seq<seq<Entry>>, i: nat, htmlText: string -> string)
    requires !AllPromoted(PageAt(pages, i), htmlText) && !RunEntries(PageAt(pages, i), htmlText).raised
    requires CallsBackOkJobs(pages, i + 1, htmlText, CrawlFrom(pages, i + 1, htmlText))
    ensures CallsBackOkJobs(pages, i, htmlText, CrawlFrom(pages, i, htmlText))
  {
    var run, rest := CrawlFrom(pages, i, htmlText), CrawlFrom(pages, i + 1, htmlText);
    CrawlFromContinues(pages, i, htmlText);
    CheckpointsStep(pages, i, htmlText);
    PageTraceShape(pages, i, htmlText);
    PickConcat(PageTrace(pages, i, htmlText), rest.trace, CalledBackWith);
    PageJobsComplete(PageAt(pages, i), htmlText);
    CalledBackOneMore(pages, i, htmlText, run, rest);
  }

  /** CallsBackOkJobs of a run that crawls page `i` completely and then goes on as `rest`. */
  lemma CalledBackOneMore(pages: seq<seq<Entry>>, i: nat, htmlText: string -> string, run: CrawlRun, rest: CrawlRun)
    requires CalledBack(run.trace) == OkJobs(PageAt(pages, i), htmlText) + CalledBack(rest.trace)
    requires |Checkpoints(run.trace)| == 1 + |Checkpoints(rest.trace)|
    requires run.outcome.Returned? == rest.outcome.Returned?
    requires CallsBackOkJobs(pages, i + 1, htmlText, rest)
    ensures CallsBackOkJobs(pages, i, htmlText, run)
  {
    OkCallbacksStep(pages, i, |Checkpoints(rest.trace)|, htmlText, rest.outcome.Raised?);
  }

  /** Every crawl navigates at least once. */
  lemma CrawlNavigates(pages: seq<seq<Entry>>, i: nat, htmlText: string -> string)
    ensures |Checkpoints(CrawlFrom(pages, i, htmlText).trace)| >= 1
  {
    CrawlPages(pages, i, htmlText);
  }

  /** A page whose inner loop does not raise yields the records of all its successful entries. */
  lemma PageJobsComplete(page: seq<Entry>, htmlText: string -> string)
    requires !RunEntries(page, htmlText).raised
    ensures RunEntries(page, htmlText).jobs == OkJobs(page, htmlText)
  {
    PageJobs(page, htmlText);
    PageAttempts(page, htmlText);
    assert page[..|page|] == page;
  }

  /**
   * A page that is all promoted (in particular an empty page, or any page
   * past the last) ends the crawl there at the latest.
   */
  lemma CrawlEndsBy(pages: seq<seq<Entry>>, i: nat, j: nat, htmlText: string -> string)
    requires i <= j && AllPromoted(PageAt(pages, j), htmlText)
    ensures |Checkpoints(CrawlFrom(pages, i, htmlText).trace)| <= j - i + 1
  {
    CrawlPages(pages, i, htmlText);
    var n := |Checkpoints(CrawlFrom(pages, i, htmlText).trace)|;
    forall k | i <= k < i + n - 1 ensures !AllPromoted(PageAt(pages, k), htmlText) {
      assert CrawledCompletely(pages, k, htmlText);
    }
  }
}
