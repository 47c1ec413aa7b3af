/**
 * The job finder: crawls LinkedIn for a fixed list of keywords and stores
 * every record the crawler hands to its callback in the "linkedin"
 * collection, unless a record with the same id is stored already.
 *
 * The collection is a sequence of records in insertion order; find_one
 * answers the first record with the wanted id.
 */
module App {
  import opened Wrappers
  import opened Interfaces
  import opened Constants
  import opened Crawler
  import opened CrawlProperties
  import opened CrawlRecords
  import opened SearchUrls

  /** The keywords fetch_jobs crawls, in this order. */
  const FETCH_FOR: seq<string> := ["Software Engineer", "Software Developer"]

  ghost predicate HasId(coll: seq<LinkedinJob>, id: string) {
    exists k :: 0 <= k < |coll| && coll[k].id == id
  }

  /** No two records of the collection share an id. */
  ghost predicate UniqueIds(coll: seq<LinkedinJob>) {
    forall i, j :: 0 <= i < j < |coll| ==> coll[i].id != coll[j].id
  }

  /** find_one({"id": id}): the first stored record with that id, if any. */
  function FindOne(coll: seq<LinkedinJob>, id: string): (r: Option<LinkedinJob>)
    ensures r.None? <==> !HasId(coll, id)
    ensures r.Some? ==>
              r.value.id == id
              && exists k :: 0 <= k < |coll| && coll[k] == r.value && forall j :: 0 <= j < k ==> coll[j].id != id
    decreases |coll|
  {
    if coll == [] then None
    else if coll[0].id == id then Some(coll[0])
    else
      var r := FindOne(coll[1..], id);
      assert HasId(coll, id) ==> HasId(coll[1..], id) by {
        if HasId(coll, id) {
          var k :| 0 <= k < |coll| && coll[k].id == id;
          assert coll[1..][k - 1] == coll[k];
        }
      }
      assert r.Some? ==> exists k :: 0 <= k < |coll| && coll[k] == r.value && forall j :: 0 <= j < k ==> coll[j].id != id by {
        if r.Some? {
          var k :| 0 <= k < |coll[1..]| && coll[1..][k] == r.value && forall j :: 0 <= j < k ==> coll[1..][j].id != id;
          assert coll[k + 1] == r.value;
          forall j | 0 <= j < k + 1 ensures coll[j].id != id {
            if j > 0 { assert coll[j] == coll[1..][j - 1]; }
          }
        }
      }
      r
  }

  /**
   * The collection after __save_job_if_new(job): unchanged when a record
   * with the job's id is stored already, the job inserted at the end
   * otherwise. A stored record is never overwritten, and a collection
   * whose ids are unique keeps them unique.
   */
  function SavedIfNew(coll: seq<LinkedinJob>, job: LinkedinJob): (r: seq<LinkedinJob>)
    ensures HasId(coll, job.id) ==> r == coll
    ensures !HasId(coll, job.id) ==> r == coll + [job]
    ensures HasId(r, job.id)
    ensures UniqueIds(coll) ==> UniqueIds(r)
  {
    if FindOne(coll, job.id).Some? then coll
    else
      var r := coll + [job];
      assert r[|coll|].id == job.id;
      r
  }

  /** Saving the same record twice is saving it once. */
  lemma SaveIdempotent(coll: seq<LinkedinJob>, job: LinkedinJob)
    ensures SavedIfNew(SavedIfNew(coll, job), job) == SavedIfNew(coll, job)
  {
    var once := SavedIfNew(coll, job);
    assert HasId(once, job.id);
  }

  /**
   * The collection after saving `jobs` one after the other: what was
   * stored stays where it was, every id saved is stored, and every record
   * added is one of `jobs`.
   */
  function SaveAll(coll: seq<LinkedinJob>, jobs: seq<LinkedinJob>): (r: seq<LinkedinJob>)
    ensures coll <= r
    ensures forall job :: job in jobs ==> HasId(r, job.id)
    ensures forall k :: |coll| <= k < |r| ==> r[k] in jobs
    decreases |jobs|
  {
    if jobs == [] then coll
    else
      var init, last := jobs[..|jobs| - 1], jobs[|jobs| - 1];
      var before := SaveAll(coll, init);
      var r := SavedIfNew(before, last);
      assert jobs == init + [last];
      StoredStaysStored(before, r);
      r
  }

  /** A record id stored in a prefix of a collection is stored in the collection. */
  lemma StoredStaysStored(coll: seq<LinkedinJob>, r: seq<LinkedinJob>)
    requires coll <= r
    ensures forall id :: HasId(coll, id) ==> HasId(r, id)
  {
    forall id | HasId(coll, id) ensures HasId(r, id) {
      var k :| 0 <= k < |coll| && coll[k].id == id;
      assert r[k] == coll[k];
    }
  }

  lemma SaveAllStep(coll: seq<LinkedinJob>, jobs: seq<LinkedinJob>, m: nat)
    requires m < |jobs|
    ensures SaveAll(coll, jobs[..m + 1]) == SavedIfNew(SaveAll(coll, jobs[..m]), jobs[m])
  {
    assert jobs[..m + 1][..m] == jobs[..m];
  }

  /** Saving keeps the ids of a collection unique. */
  lemma {:induction false} SaveAllUnique(coll: seq<LinkedinJob>, jobs: seq<LinkedinJob>)
    requires UniqueIds(coll)
    ensures UniqueIds(SaveAll(coll, jobs))
    decreases |jobs|
  {
    if jobs != [] {
      SaveAllUnique(coll, jobs[..|jobs| - 1]);
    }
  }

  /** Saving records whose ids are all stored already changes nothing. */
  lemma {:induction false} SaveAllNothingNew(coll: seq<LinkedinJob>, jobs: seq<LinkedinJob>)
    requires forall job :: job in jobs ==> HasId(coll, job.id)
    ensures SaveAll(coll, jobs) == coll
    decreases |jobs|
  {
    if jobs != [] {
      var init := jobs[..|jobs| - 1];
      assert forall job :: job in init ==> job in jobs;
      SaveAllNothingNew(coll, init);
    }
  }

  /**
   * `r` extends `coll` by insertions only, and each inserted record's id
   * was not stored when it was inserted: no id is inserted twice, and
   * none that `coll` held (InsertedWereAbsent).
   */
  ghost predicate InsertsOnlyNew(coll: seq<LinkedinJob>, r: seq<LinkedinJob>) {
    coll <= r && forall m :: |coll| <= m < |r| ==> !HasId(r[..m], r[m].id)
  }

  /** __save_job_if_new, one record after the other, inserts only records whose id is not stored yet. */
  lemma {:induction false} SaveAllOnlyNew(coll: seq<LinkedinJob>, jobs: seq<LinkedinJob>)
    ensures InsertsOnlyNew(coll, SaveAll(coll, jobs))
    decreases |jobs|
  {
    if jobs != [] {
      var init, last := jobs[..|jobs| - 1], jobs[|jobs| - 1];
      var before := SaveAll(coll, init);
      SaveAllOnlyNew(coll, init);
      assert SaveAll(coll, jobs) == SavedIfNew(before, last);
      if !HasId(before, last.id) {
        var r := before + [last];
        forall m | |coll| <= m < |r| ensures !HasId(r[..m], r[m].id) {
          if m < |before| {
            assert r[..m] == before[..m];
          } else {
            assert r[..m] == before;
          }
        }
      }
    }
  }

  /** Insertions that were new at the time chain up. */
  lemma InsertsOnlyNewTrans(a: seq<LinkedinJob>, b: seq<LinkedinJob>, c: seq<LinkedinJob>)
    requires InsertsOnlyNew(a, b) && InsertsOnlyNew(b, c)
    ensures InsertsOnlyNew(a, c)
  {
    forall m | |a| <= m < |b| ensures !HasId(c[..m], c[m].id) {
      assert c[..m] == b[..m];
    }
  }

  /** No record inserted beyond `coll` has an id `coll` held. */
  lemma InsertedWereAbsent(coll: seq<LinkedinJob>, r: seq<LinkedinJob>)
    requires InsertsOnlyNew(coll, r)
    ensures forall m :: |coll| <= m < |r| ==> !HasId(coll, r[m].id)
  {
    forall m | |coll| <= m < |r| ensures !HasId(coll, r[m].id) {
      assert coll <= r[..m];
      StoredStaysStored(coll, r[..m]);
    }
  }

  /** A call fetch_jobs makes on the crawler. */
  datatype CrawlerCall = SetupDriver | Login | CrawlJobsFor(keyword: string, range: LinkedinPostDateRange) | CloseDriver

  /** The calls made, the collection afterwards, and whether an exception escaped. */
  datatype FetchRun = FetchRun(calls: seq<CrawlerCall>, collection: seq<LinkedinJob>, raised: bool)

  /**
   * The crawl of one keyword: `search(keyword, range)` are the pages the
   * browser shows for the search, page i at checkpoint 25 i.
   */
  function KeywordCrawl(search: (string, LinkedinPostDateRange) -> seq<seq<Entry>>, keyword: string,
                        htmlText: string -> string): CrawlRun {
    CrawlFrom(search(keyword, LastWeek), 0, htmlText)
  }

  /**
   * The crawler as fetch_jobs sees it: what crawl_jobs does for a keyword.
   * The keyword loop below is stated for any such function.
   */
  function SearchCrawl(search: (string, LinkedinPostDateRange) -> seq<seq<Entry>>,
                       htmlText: string -> string): string -> CrawlRun {
    keyword => KeywordCrawl(search, keyword, htmlText)
  }

  /**
   * The loop of fetch_jobs over `keywords`: one crawl for the past week
   * per keyword, every record handed to the callback saved if new, and
   * an exception from a crawl ending the loop.
   */
  function CrawlKeywords(keywords: seq<string>, coll: seq<LinkedinJob>,
                         crawl: string -> CrawlRun): FetchRun
    decreases |keywords|
  {
    if keywords == [] then FetchRun([], coll, false)
    else
      var before := CrawlKeywords(keywords[..|keywords| - 1], coll, crawl);
      if before.raised then before
      else
        var keyword := keywords[|keywords| - 1];
        var run := crawl(keyword);
        FetchRun(before.calls + [CrawlJobsFor(keyword, LastWeek)],
                 SaveAll(before.collection, CalledBack(run.trace)),
                 run.outcome.Raised?)
  }

  /** Once a crawl raised, the keywords after it are not crawled. */
  lemma {:induction false} RaisedStopsKeywords(keywords: seq<string>, n: nat, coll: seq<LinkedinJob>,
                                               crawl: string -> CrawlRun)
    requires n <= |keywords| && CrawlKeywords(keywords[..n], coll, crawl).raised
    ensures CrawlKeywords(keywords, coll, crawl) == CrawlKeywords(keywords[..n], coll, crawl)
    decreases |keywords|
  {
    if n < |keywords| {
      var init := keywords[..|keywords| - 1];
      assert init[..n] == keywords[..n];
      RaisedStopsKeywords(init, n, coll, crawl);
    } else {
      assert keywords[..n] == keywords;
    }
  }

  /**
   * fetch_jobs: set the driver up and log in, crawl every keyword, close
   * the driver. Nothing catches an exception, so one from the login or a
   * crawl ends fetch_jobs without closing the driver.
   */
  function Fetch(coll: seq<LinkedinJob>, crawl: string -> CrawlRun, loginSucceeds: bool): FetchRun
  {
    if !loginSucceeds then FetchRun([SetupDriver, Login], coll, true)
    else
      var r := CrawlKeywords(FETCH_FOR, coll, crawl);
      FetchRun([SetupDriver, Login] + r.calls + (if r.raised then [] else [CloseDriver]), r.collection, r.raised)
  }

  /** The crawl of `keyword` raises an exception that escapes crawl_jobs. */
  predicate CrawlRaises(crawl: string -> CrawlRun, keyword: string) {
    crawl(keyword).outcome.Raised?
  }

  /** The records the crawl of `keyword` hands to the callback. */
  function SavedBy(crawl: string -> CrawlRun, keyword: string): seq<LinkedinJob> {
    CalledBack(crawl(keyword).trace)
  }

  /**
   * The keywords are crawled in list order, each for the past week, up to
   * and including the first whose crawl raises; the loop raises iff a
   * crawl raised.
   */
  ghost predicate CallsInOrder(keywords: seq<string>, r: FetchRun,
                               crawl: string -> CrawlRun) {
    var n := |r.calls|;
    n <= |keywords| && (forall k :: 0 <= k < n ==> r.calls[k] == CrawlJobsFor(keywords[k], LastWeek))
    && (forall k :: 0 <= k < n && (k < n - 1 || !r.raised) ==> !CrawlRaises(crawl, keywords[k]))
    && (!r.raised ==> n == |keywords|)
    && (r.raised ==> n >= 1 && CrawlRaises(crawl, keywords[n - 1]))
  }

  lemma {:induction false} KeywordCalls(keywords: seq<string>, coll: seq<LinkedinJob>,
                                        crawl: string -> CrawlRun)
    ensures CallsInOrder(keywords, CrawlKeywords(keywords, coll, crawl), crawl)
    decreases |keywords|
  {
    if keywords != [] {
      var init := keywords[..|keywords| - 1];
      KeywordCalls(init, coll, crawl);
      KeywordCallsStep(keywords, coll, crawl);
    }
  }

  lemma KeywordCallsStep(keywords: seq<string>, coll: seq<LinkedinJob>, crawl: string -> CrawlRun)
    requires keywords != []
    requires var init := keywords[..|keywords| - 1];
      CallsInOrder(init, CrawlKeywords(init, coll, crawl), crawl)
    ensures CallsInOrder(keywords, CrawlKeywords(keywords, coll, crawl), crawl)
  {
    var init := keywords[..|keywords| - 1];
    var before := CrawlKeywords(init, coll, crawl);
    if before.raised {
      KeywordCallsAfterRaise(keywords, before, crawl);
    } else {
      KeywordCallsOneMore(keywords, before, crawl);
    }
  }

  /** A loop that raised on the keywords before the last is the loop on all of them. */
  lemma KeywordCallsAfterRaise(keywords: seq<string>, before: FetchRun, crawl: string -> CrawlRun)
    requires keywords != [] && before.raised && CallsInOrder(keywords[..|keywords| - 1], before, crawl)
    ensures CallsInOrder(keywords, before, crawl)
  {
    var init, n := keywords[..|keywords| - 1], |before.calls|;
    forall k | 0 <= k < n ensures keywords[k] == init[k] { }
  }

  /** The last keyword crawled after the others did not raise. */
  lemma KeywordCallsOneMore(keywords: seq<string>, before: FetchRun, crawl: string -> CrawlRun)
    requires keywords != [] && !before.raised && CallsInOrder(keywords[..|keywords| - 1], before, crawl)
    ensures var last := keywords[|keywords| - 1];
      CallsInOrder(keywords, FetchRun(before.calls + [CrawlJobsFor(last, LastWeek)], [], CrawlRaises(crawl, last)), crawl)
  {
    var init, n := keywords[..|keywords| - 1], |before.calls|;
    forall k | 0 <= k < n ensures keywords[k] == init[k] { }
  }

  /** The length of the calls of a loop that did not raise. */
  lemma KeywordCallsLength(keywords: seq<string>, coll: seq<LinkedinJob>,
                           crawl: string -> CrawlRun)
    ensures var r := CrawlKeywords(keywords, coll, crawl);
      |r.calls| <= |keywords| && (!r.raised ==> |r.calls| == |keywords|)
  {
    KeywordCalls(keywords, coll, crawl);
  }

  /** The loop raises iff the crawl of some keyword raises. */
  lemma KeywordsRaiseIff(keywords: seq<string>, coll: seq<LinkedinJob>,
                         crawl: string -> CrawlRun)
    ensures CrawlKeywords(keywords, coll, crawl).raised
            <==> exists k :: 0 <= k < |keywords| && CrawlRaises(crawl, keywords[k])
  {
    KeywordCalls(keywords, coll, crawl);
    var r := CrawlKeywords(keywords, coll, crawl);
    if r.raised {
      assert CrawlRaises(crawl, keywords[|r.calls| - 1]);
    }
  }

  /** One more keyword, after keywords whose crawls did not raise. */
  lemma KeywordsStep(keywords: seq<string>, coll: seq<LinkedinJob>,
                     crawl: string -> CrawlRun)
    requires keywords != [] && !CrawlKeywords(keywords[..|keywords| - 1], coll, crawl).raised
    ensures var before := CrawlKeywords(keywords[..|keywords| - 1], coll, crawl);
      var keyword := keywords[|keywords| - 1];
      var r := CrawlKeywords(keywords, coll, crawl);
      r.calls == before.calls + [CrawlJobsFor(keyword, LastWeek)]
      && r.collection == SaveAll(before.collection, SavedBy(crawl, keyword))
      && |before.calls| == |keywords| - 1
  {
    KeywordCallsLength(keywords[..|keywords| - 1], coll, crawl);
  }

  /** The loop never removes, reorders or overwrites a stored record, and keeps ids unique. */
  lemma {:induction false} KeywordsKeep(keywords: seq<string>, coll: seq<LinkedinJob>,
                                        crawl: string -> CrawlRun)
    ensures var r := CrawlKeywords(keywords, coll, crawl);
      coll <= r.collection && (UniqueIds(coll) ==> UniqueIds(r.collection))
    decreases |keywords|
  {
    if keywords != [] {
      var init := keywords[..|keywords| - 1];
      KeywordsKeep(init, coll, crawl);
      var before := CrawlKeywords(init, coll, crawl);
      if !before.raised {
        KeywordsStep(keywords, coll, crawl);
        if UniqueIds(coll) {
          SaveAllUnique(before.collection, SavedBy(crawl, keywords[|keywords| - 1]));
        }
      }
    }
  }

  /** `job` is one of the records handed to the callback by the crawls of the first `n` keywords. */
  ghost predicate SavedByFirst(keywords: seq<string>, n: nat, crawl: string -> CrawlRun, job: LinkedinJob) {
    exists k :: 0 <= k < n && k < |keywords| && job in SavedBy(crawl, keywords[k])
  }

  /** Every record handed to the callback by a crawl the loop ran is stored. */
  lemma {:induction false} KeywordsStore(keywords: seq<string>, coll: seq<LinkedinJob>,
                                         crawl: string -> CrawlRun)
    ensures var r := CrawlKeywords(keywords, coll, crawl);
      forall job :: SavedByFirst(keywords, |r.calls|, crawl, job) ==> HasId(r.collection, job.id)
    decreases |keywords|
  {
    if keywords != [] {
      var init := keywords[..|keywords| - 1];
      KeywordsStore(init, coll, crawl);
      if CrawlKeywords(init, coll, crawl).raised {
        KeywordsStoreRaised(keywords, coll, crawl);
      } else {
        KeywordsStoreStep(keywords, coll, crawl);
      }
    }
  }

  lemma KeywordsStoreRaised(keywords: seq<string>, coll: seq<LinkedinJob>,
                            crawl: string -> CrawlRun)
    requires keywords != []
    requires var before := CrawlKeywords(keywords[..|keywords| - 1], coll, crawl);
      before.raised
      && forall job :: SavedByFirst(keywords[..|keywords| - 1], |before.calls|, crawl, job)
                       ==> HasId(before.collection, job.id)
    ensures var r := CrawlKeywords(keywords, coll, crawl);
      forall job :: SavedByFirst(keywords, |r.calls|, crawl, job) ==> HasId(r.collection, job.id)
  {
    var before := CrawlKeywords(keywords[..|keywords| - 1], coll, crawl);
    KeywordCalls(keywords[..|keywords| - 1], coll, crawl);
    SavedByFirstInit(keywords, |before.calls|, crawl);
  }

  lemma KeywordsStoreStep(keywords: seq<string>, coll: seq<LinkedinJob>,
                          crawl: string -> CrawlRun)
    requires keywords != []
    requires var before := CrawlKeywords(keywords[..|keywords| - 1], coll, crawl);
      !before.raised
      && forall job :: SavedByFirst(keywords[..|keywords| - 1], |before.calls|, crawl, job)
                       ==> HasId(before.collection, job.id)
    ensures var r := CrawlKeywords(keywords, coll, crawl);
      forall job :: SavedByFirst(keywords, |r.calls|, crawl, job) ==> HasId(r.collection, job.id)
  {
    var last := |keywords| - 1;
    var before := CrawlKeywords(keywords[..last], coll, crawl);
    var r := CrawlKeywords(keywords, coll, crawl);
    var jobs := SavedBy(crawl, keywords[last]);
    KeywordsStep(keywords, coll, crawl);
    SavedByFirstInit(keywords, last, crawl);
    StoredStaysStored(before.collection, r.collection);
    forall job | SavedByFirst(keywords, |r.calls|, crawl, job) ensures HasId(r.collection, job.id) {
      var k :| 0 <= k < |r.calls| && k < |keywords| && job in SavedBy(crawl, keywords[k]);
      if k < last {
        assert SavedByFirst(keywords, last, crawl, job);
      } else {
        assert k == last;
        assert job in jobs;
      }
    }
  }

  lemma SavedByFirstInit(keywords: seq<string>, n: nat, crawl: string -> CrawlRun)
    requires n < |keywords|
    ensures forall job :: SavedByFirst(keywords, n, crawl, job)
                          <==> SavedByFirst(keywords[..|keywords| - 1], n, crawl, job)
  {
    var init := keywords[..|keywords| - 1];
    forall job ensures SavedByFirst(keywords, n, crawl, job) ==> SavedByFirst(init, n, crawl, job) {
      if SavedByFirst(keywords, n, crawl, job) {
        var k :| 0 <= k < n && k < |keywords| && job in SavedBy(crawl, keywords[k]);
        assert keywords[k] == init[k];
      }
    }
    forall job ensures SavedByFirst(init, n, crawl, job) ==> SavedByFirst(keywords, n, crawl, job) {
      if SavedByFirst(init, n, crawl, job) {
        var k :| 0 <= k < n && k < |init| && job in SavedBy(crawl, init[k]);
        assert keywords[k] == init[k];
      }
    }
  }

  /**
   * The loop inserts a record only when no record with its id is stored:
   * a called-back record whose id was stored before, in the collection
   * it started from or by an earlier insertion, is not inserted again.
   */
  lemma {:induction false} KeywordsOnlyNew(keywords: seq<string>, coll: seq<LinkedinJob>,
                                           crawl: string -> CrawlRun)
    ensures var r := CrawlKeywords(keywords, coll, crawl);
      InsertsOnlyNew(coll, r.collection)
      && forall m :: |coll| <= m < |r.collection| ==> !HasId(coll, r.collection[m].id)
    decreases |keywords|
  {
    var r := CrawlKeywords(keywords, coll, crawl);
    if keywords != [] {
      var init := keywords[..|keywords| - 1];
      var before := CrawlKeywords(init, coll, crawl);
      KeywordsOnlyNew(init, coll, crawl);
      if !before.raised {
        KeywordsStep(keywords, coll, crawl);
        SaveAllOnlyNew(before.collection, SavedBy(crawl, keywords[|keywords| - 1]));
        InsertsOnlyNewTrans(coll, before.collection, r.collection);
      }
    }
    InsertedWereAbsent(coll, r.collection);
  }

  /** Every record the loop adds was handed to the callback by a crawl it ran. */
  ghost predicate OnlySaved(keywords: seq<string>, coll: seq<LinkedinJob>, r: FetchRun,
                            crawl: string -> CrawlRun) {
    forall m :: |coll| <= m < |r.collection| ==> SavedByFirst(keywords, |r.calls|, crawl, r.collection[m])
  }

  lemma {:induction false} KeywordsOnlySaved(keywords: seq<string>, coll: seq<LinkedinJob>,
                                             crawl: string -> CrawlRun)
    ensures OnlySaved(keywords, coll, CrawlKeywords(keywords, coll, crawl), crawl)
    decreases |keywords|
  {
    if keywords != [] {
      var init := keywords[..|keywords| - 1];
      KeywordsOnlySaved(init, coll, crawl);
      KeywordsOnlySavedStep(keywords, coll, crawl);
    }
  }

  lemma KeywordsOnlySavedStep(keywords: seq<string>, coll: seq<LinkedinJob>,
                              crawl: string -> CrawlRun)
    requires keywords != []
    requires var init := keywords[..|keywords| - 1];
      OnlySaved(init, coll, CrawlKeywords(init, coll, crawl), crawl)
    ensures OnlySaved(keywords, coll, CrawlKeywords(keywords, coll, crawl), crawl)
  {
    var init, last := keywords[..|keywords| - 1], |keywords| - 1;
    var before := CrawlKeywords(init, coll, crawl);
    var r := CrawlKeywords(keywords, coll, crawl);
    KeywordCallsLength(init, coll, crawl);
    SavedByFirstInit(keywords, |before.calls|, crawl);
    if !before.raised {
      KeywordsStep(keywords, coll, crawl);
      KeywordsKeep(init, coll, crawl);
      forall m | |coll| <= m < |r.collection| ensures SavedByFirst(keywords, |r.calls|, crawl, r.collection[m]) {
        if m < |before.collection| {
          assert r.collection[m] == before.collection[m];
          assert SavedByFirst(keywords, |before.calls|, crawl, r.collection[m]);
        } else {
          assert r.collection[m] in SavedBy(crawl, keywords[last]);
        }
      }
    }
  }

  /**
   * Crawling keywords whose records are all stored already leaves the
   * collection as it is: which calls are made and whether they raise does
   * not depend on the collection.
   */
  lemma {:induction false} KeywordsNothingNew(keywords: seq<string>, coll: seq<LinkedinJob>,
                                              crawl: string -> CrawlRun)
    requires forall k, job :: 0 <= k < |keywords| && job in SavedBy(crawl, keywords[k]) ==> HasId(coll, job.id)
    ensures CrawlKeywords(keywords, coll, crawl).collection == coll
    decreases |keywords|
  {
    if keywords != [] {
      var init := keywords[..|keywords| - 1];
      forall k, job | 0 <= k < |init| && job in SavedBy(crawl, init[k]) ensures HasId(coll, job.id) {
        assert init[k] == keywords[k];
      }
      KeywordsNothingNew(init, coll, crawl);
      SaveAllNothingNew(coll, SavedBy(crawl, keywords[|keywords| - 1]));
    }
  }

  /**
   * fetch_jobs raises iff the login fails or the crawl of one of its
   * keywords raises.
   */
  lemma FetchRaises(coll: seq<LinkedinJob>, crawl: string -> CrawlRun, loginSucceeds: bool)
    ensures Fetch(coll, crawl, loginSucceeds).raised
            <==> !loginSucceeds || CrawlRaises(crawl, FETCH_FOR[0]) || CrawlRaises(crawl, FETCH_FOR[1])
  {
    var keywords := FETCH_FOR;
    KeywordsRaiseIff(keywords, coll, crawl);
    if CrawlRaises(crawl, keywords[0]) {
      assert 0 < |keywords|;
    }
    if CrawlRaises(crawl, keywords[1]) {
      assert 1 < |keywords|;
    }
  }

  /**
   * fetch_jobs sets the driver up and logs in, crawls FETCH_FOR[0]
   * ("Software Engineer") and then FETCH_FOR[1] ("Software Developer"),
   * both for the past week, and closes the driver; an exception from the
   * login or a crawl ends it at once, so the driver is closed iff nothing
   * raised.
   */
  lemma FetchCalls(coll: seq<LinkedinJob>, crawl: string -> CrawlRun, loginSucceeds: bool)
    ensures var r := Fetch(coll, crawl, loginSucceeds);
      var engineer, developer := CrawlJobsFor(FETCH_FOR[0], LastWeek), CrawlJobsFor(FETCH_FOR[1], LastWeek);
      var engineerRaises, developerRaises := CrawlRaises(crawl, FETCH_FOR[0]), CrawlRaises(crawl, FETCH_FOR[1]);
      (!loginSucceeds ==> r.calls == [SetupDriver, Login])
      && (loginSucceeds && engineerRaises ==> r.calls == [SetupDriver, Login, engineer])
      && (loginSucceeds && !engineerRaises && developerRaises ==> r.calls == [SetupDriver, Login, engineer, developer])
      && (loginSucceeds && !engineerRaises && !developerRaises
          ==> r.calls == [SetupDriver, Login, engineer, developer, CloseDriver])
  {
    if loginSucceeds {
      var keywords := FETCH_FOR;
      KeywordCalls(keywords, coll, crawl);
      var r := CrawlKeywords(keywords, coll, crawl);
      if CrawlRaises(crawl, keywords[0]) {
        assert |r.calls| == 1;
      } else if CrawlRaises(crawl, keywords[1]) {
        assert |r.calls| == 2;
      } else {
        assert !r.raised;
      }
    }
  }

  /**
   * fetch_jobs never removes, reorders or overwrites a stored record and
   * keeps ids unique; it stores every record a crawl it ran handed to
   * the callback (including those handed over before a crawl raised) and
   * no other record; it inserts a record only when its id is not stored
   * yet (InsertsOnlyNew), so none whose id was stored before it ran.
   */
  lemma FetchCollection(coll: seq<LinkedinJob>, crawl: string -> CrawlRun, loginSucceeds: bool)
    ensures var r := Fetch(coll, crawl, loginSucceeds);
      var engineer, developer := SavedBy(crawl, FETCH_FOR[0]), SavedBy(crawl, FETCH_FOR[1]);
      var developerCrawled := loginSucceeds && !CrawlRaises(crawl, FETCH_FOR[0]);
      coll <= r.collection && (UniqueIds(coll) ==> UniqueIds(r.collection))
      && (!loginSucceeds ==> r.collection == coll)
      && (loginSucceeds ==> forall job :: job in engineer ==> HasId(r.collection, job.id))
      && (developerCrawled ==> forall job :: job in developer ==> HasId(r.collection, job.id))
      && (forall m :: |coll| <= m < |r.collection| ==>
            r.collection[m] in engineer || (developerCrawled && r.collection[m] in developer))
      && InsertsOnlyNew(coll, r.collection)
      && (forall m :: |coll| <= m < |r.collection| ==> !HasId(coll, r.collection[m].id))
  {
    if loginSucceeds {
      var keywords := FETCH_FOR;
      var r := CrawlKeywords(keywords, coll, crawl);
      KeywordsOnlyNew(keywords, coll, crawl);
      KeywordCalls(keywords, coll, crawl);
      KeywordsKeep(keywords, coll, crawl);
      KeywordsStore(keywords, coll, crawl);
      KeywordsOnlySaved(keywords, coll, crawl);
      forall job | job in SavedBy(crawl, keywords[0]) ensures HasId(r.collection, job.id) {
        assert SavedByFirst(keywords, |r.calls|, crawl, job);
      }
      if !CrawlRaises(crawl, keywords[0]) {
        assert |r.calls| == 2;
        forall job | job in SavedBy(crawl, keywords[1]) ensures HasId(r.collection, job.id) {
          assert SavedByFirst(keywords, |r.calls|, crawl, job);
        }
      }
    }
  }

  /**
   * Running fetch_jobs again over the same pages after a run that raised
   * nothing makes the same calls and stores nothing new.
   */
  lemma FetchTwice(coll: seq<LinkedinJob>, crawl: string -> CrawlRun, loginSucceeds: bool)
    requires !Fetch(coll, crawl, loginSucceeds).raised
    ensures var r := Fetch(coll, crawl, loginSucceeds);
      Fetch(r.collection, crawl, true) == r
  {
    var keywords := FETCH_FOR;
    var r := CrawlKeywords(keywords, coll, crawl);
    KeywordCalls(keywords, coll, crawl);
    KeywordsStore(keywords, coll, crawl);
    forall k, job | 0 <= k < |keywords| && job in SavedBy(crawl, keywords[k]) ensures HasId(r.collection, job.id) {
      assert SavedByFirst(keywords, |r.calls|, crawl, job);
    }
    KeywordsNothingNew(keywords, r.collection, crawl);
    KeywordsSameCalls(keywords, coll, r.collection, crawl);
  }

  /** Which crawls the loop runs and whether it raises does not depend on the collection. */
  lemma {:induction false} KeywordsSameCalls(keywords: seq<string>, coll1: seq<LinkedinJob>, coll2: seq<LinkedinJob>,
                                             crawl: string -> CrawlRun)
    ensures var r1, r2 := CrawlKeywords(keywords, coll1, crawl), CrawlKeywords(keywords, coll2, crawl);
      r1.calls == r2.calls && r1.raised == r2.raised
    decreases |keywords|
  {
    if keywords != [] {
      KeywordsSameCalls(keywords[..|keywords| - 1], coll1, coll2, crawl);
    }
  }

  /** What a crawl hands to the callback is what it returns, when it returns. */
  lemma SavedByIsReturned(search: (string, LinkedinPostDateRange) -> seq<seq<Entry>>, keyword: string,
                          htmlText: string -> string)
    ensures var run := KeywordCrawl(search, keyword, htmlText);
      run.outcome.Returned? ==> SavedBy(SearchCrawl(search, htmlText), keyword) == run.outcome.jobs
  {
    CrawlDeliveries(search(keyword, LastWeek), 0, htmlText);
  }

  /**
   * A successfully extracted entry that the crawl of a keyword fetch_jobs
   * ran attempted has its data-occludable-job-id stored afterwards, whether
   * that crawl returned or raised: every entry of a page it crawled
   * completely, and every entry before the exception on the page where one
   * escaped. The id is the only dedup key.
   */
  lemma FetchStoresEntryIds(coll: seq<LinkedinJob>, search: (string, LinkedinPostDateRange) -> seq<seq<Entry>>,
                            htmlText: string -> string, n: nat, j: nat, k: nat)
    requires n < |FETCH_FOR| && (n == 1 ==> !CrawlRaises(SearchCrawl(search, htmlText), FETCH_FOR[0]))
    requires var run := KeywordCrawl(search, FETCH_FOR[n], htmlText); var pages := search(FETCH_FOR[n], LastWeek);
      j + 1 < |Checkpoints(run.trace)|
      || (j + 1 == |Checkpoints(run.trace)| && run.outcome.Raised?
          && k < |Attempts(RunEntries(PageAt(pages, j), htmlText).events)|)
    requires var page := PageAt(search(FETCH_FOR[n], LastWeek), j);
      k < |page| && page[k].extraction.Extracted?
    ensures var e := PageAt(search(FETCH_FOR[n], LastWeek), j)[k];
      HasId(Fetch(coll, SearchCrawl(search, htmlText), true).collection, e.extraction.card.occludableJobId)
  {
    var keyword := FETCH_FOR[n];
    var pages := search(keyword, LastWeek);
    var e := PageAt(pages, j)[k];
    var job := ExtractJobData(e.extraction.card, e.extraction.detailsHtml, htmlText);
    EntryRecordCalledBack(pages, htmlText, j, k);
    assert job in SavedBy(SearchCrawl(search, htmlText), keyword);
    FetchStoresSaved(coll, SearchCrawl(search, htmlText), n, job);
  }

  /** A record handed to the callback by a crawl fetch_jobs ran is stored afterwards. */
  lemma FetchStoresSaved(coll: seq<LinkedinJob>, crawl: string -> CrawlRun, n: nat, job: LinkedinJob)
    requires n < |FETCH_FOR| && (n == 1 ==> !CrawlRaises(crawl, FETCH_FOR[0]))
    requires job in SavedBy(crawl, FETCH_FOR[n])
    ensures HasId(Fetch(coll, crawl, true).collection, job.id)
  {
    FetchCollection(coll, crawl, true);
  }

  /** fetch_jobs starts with the search for "Software Engineer" over the past week at checkpoint 0. */
  lemma FetchFirstUrl(search: (string, LinkedinPostDateRange) -> seq<seq<Entry>>, htmlText: string -> string)
    ensures var urls := OpenedUrls(FETCH_FOR[0], LastWeek, KeywordCrawl(search, FETCH_FOR[0], htmlText).trace);
      |urls| >= 1 && urls[0] == SearchUrl("Software Engineer", 0, LastWeek)
  {
    CrawlOpensUrls(search(FETCH_FOR[0], LastWeek), FETCH_FOR[0], LastWeek, htmlText);
  }

  class JobFinder {
    /** The "linkedin" collection, in insertion order. */
    var collection: seq<LinkedinJob>

    constructor(initial: seq<LinkedinJob>)
      ensures collection == initial
    {
      collection := initial;
    }

    /** __save_job_if_new */
    method SaveJobIfNew(job: LinkedinJob)
      modifies this
      ensures collection == SavedIfNew(old(collection), job)
    {
      var found := FindOne(collection, job.id);
      if found.Some? {
        return;
      }
      collection := collection + [job];
    }

    /** Hands the records of a crawl's callback events to SaveJobIfNew, in order. */
    method SaveCalledBack(trace: seq<Event>)
      modifies this
      ensures collection == SaveAll(old(collection), CalledBack(trace))
    {
      var jobs := CalledBack(trace);
      var m := 0;
      while m < |jobs|
        invariant m <= |jobs|
        invariant collection == SaveAll(old(collection), jobs[..m])
      {
        SaveAllStep(old(collection), jobs, m);
        SaveJobIfNew(jobs[m]);
        m := m + 1;
      }
      assert jobs[..m] == jobs;
    }

    /** The loop of fetch_jobs over `keywords`, each crawled for the past week. */
    method CrawlKeywordsLoop(keywords: seq<string>, search: (string, LinkedinPostDateRange) -> seq<seq<Entry>>,
                             htmlText: string -> string)
      returns (crawled: seq<CrawlerCall>, raised: bool)
      modifies this
      ensures FetchRun(crawled, collection, raised) == CrawlKeywords(keywords, old(collection), SearchCrawl(search, htmlText))
    {
      crawled := [];
      var k := 0;
      while k < |keywords|
        invariant k <= |keywords|
        invariant CrawlKeywords(keywords[..k], old(collection), SearchCrawl(search, htmlText)) == FetchRun(crawled, collection, false)
      {
        var keyword := keywords[k];
        assert keywords[..k + 1][..k] == keywords[..k];
        crawled := crawled + [CrawlJobsFor(keyword, LastWeek)];
        var trace, outcome := CrawlJobs(search(keyword, LastWeek), htmlText);
        SaveCalledBack(trace);
        if outcome.Raised? {
          RaisedStopsKeywords(keywords, k + 1, old(collection), SearchCrawl(search, htmlText));
          raised := true;
          return;
        }
        k := k + 1;
      }
      assert keywords[..k] == keywords;
      raised := false;
    }

    /**
     * fetch_jobs. `search` gives the pages the browser shows for each
     * search, `loginSucceeds` whether the login reaches a page other than
     * the login page in time.
     */
    method FetchJobs(search: (string, LinkedinPostDateRange) -> seq<seq<Entry>>, htmlText: string -> string,
                     loginSucceeds: bool)
      returns (calls: seq<CrawlerCall>, raised: bool)
      modifies this
      ensures FetchRun(calls, collection, raised) == Fetch(old(collection), SearchCrawl(search, htmlText), loginSucceeds)
    {
      calls := [SetupDriver, Login];
      if !loginSucceeds {
        raised := true;
        return;
      }
      var crawled;
      crawled, raised := CrawlKeywordsLoop(FETCH_FOR, search, htmlText);
      calls := calls + crawled;
      if !raised {
        calls := calls + [CloseDriver];
      }
    }
  }
}
