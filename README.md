# LinkedIn job crawler and job finder, modelled in Dafny

This project models the LinkedIn crawling core of the resumer repository and proves what it does. There are two parts:

- **`LinkedinJobCrawler.crawl_jobs`** (`integrations/linkedin/crawler.py`). It opens the job search for one keyword at checkpoint 0, 25, 50, … and scans the result entries of each page. It stops on the first page whose entries are all promoted; an empty page counts as all promoted. Otherwise it runs `crawl_job` on every entry in list order. Each extracted record is appended to the result list and then handed to a callback. A `StaleElementReferenceException` skips the entry; any other exception escapes.
- **`JobFinder.fetch_jobs`** (`app/job_finder.py`). It sets the driver up and logs in, then crawls "Software Engineer" and "Software Developer" for the past week, and finally closes the driver. Its callback, `__save_job_if_new`, inserts a record into the "linkedin" collection unless a record with the same id is stored already.

Modules:

| module | file | contents |
|---|---|---|
| `Wrappers` | `wrappers.dfy` | `Option` |
| `Interfaces` | `interfaces.dfy` | the `LinkedinJob` record (five strings) |
| `Constants` | `constants.dfy` | `SEARCH_BASE_URL`; `LinkedinPostDateRange` with its tokens `r86400` and `r2592000` |
| `Strings` | `strings.dfy` | the substring test behind Python's `in`; decimal rendering of the checkpoint and its inverse |
| `Crawler` | `crawler.dfy` | the crawler |
| `SearchUrls` | `search_url.dfy` | the search URL determines its keyword, date range and checkpoint |
| `CrawlProperties` | `crawl_properties.dfy` | what a crawl does, stated over `CrawlFrom` |
| `CrawlRecords` | `crawl_records.dfy` | where a crawl's records come from: the entries extract_job_data read them from |
| `App` | `app.dfy` | the job finder |

### The crawler

The browser is input data. The pages of one search are `pages: seq<seq<Entry>>`: page `i` is what the search shows at offset `25 * i`, and every page past the end is empty. An `Entry` carries two things:

- the HTML of its footer, or `None` when reading the footer raised;
- what `crawl_job` does on it: `Extracted(card, detailsHtml)`, `StaleElement` or `OtherError`.

BeautifulSoup's `get_text` is the function parameter `htmlText`.

A crawl is observed through a trace of events: `Navigate(checkpoint)`, `Attempt(index)`, `Append(job)`, `Callback(job)`. It ends with an outcome, `Returned(jobs)` or `Raised`.

The loop is the method `Crawler.CrawlJobs`, with its inner loop in `Crawler.CrawlPageEntries`. `CrawlJobs` is proved equal to the recursive specification `CrawlFrom(pages, 0, htmlText)`, and the `CrawlProperties` lemmas state what `CrawlFrom` does:

- which checkpoints it visits and when it stops;
- which entries it attempts;
- which records it returns and hands to the callback.

### The job finder

The collection is `seq<LinkedinJob>` in insertion order. The model's `find_one` answers the first record with the wanted id; only whether it finds one matters to `__save_job_if_new`.

The class `App.JobFinder` keeps the collection in a field:

- `SaveJobIfNew` updates that field;
- `FetchJobs` runs the keyword loop;
- `CrawlKeywordsLoop` runs `CrawlJobs` for each keyword and replays the records it handed to the callback onto the collection.

Their specification is the function `Fetch`, which gets the crawler as a parameter `crawl: string -> CrawlRun`. Its lemmas therefore hold for every crawler behaviour. `SearchCrawl` instantiates that parameter with the crawl modelled above.

### Notes on the source's behaviour

- **Promoted entries are crawled.** Once a page is not all promoted, every entry on it goes to `crawl_job`, promoted or not (crawler.py:166-174). A page `[organic, organic, promoted]` yields three extractions.
- **Only stale-element exceptions are caught.** The `except` clause names `StaleElementReferenceException` only (crawler.py:173). Any other exception from `crawl_job` escapes `crawl_jobs`, and then `fetch_jobs` too, since that has no handler (job_finder.py:38-44). `close_driver` is then not called.
- **Fields may be empty.** `LinkedinJob` declares plain `str` fields (app/interfaces/linkedin_job.py:5-9), so a record's fields may be empty.
- **The `LAST_WEEK` token.** `r86400` is kept exactly as written (constants.py:18). Read as seconds it is 86400, one day rather than one week. The source itself counts seconds in this enum: `LAST_MONTH`'s `r2592000` (constants.py:19) is 30 × 86400, the seconds of 30 days.

## Model

| member | source | states |
|---|---|---|
| Strings.Contains | integrations/linkedin/crawler.py:42 | `"Promoted" in text` is true iff the marker occurs as a contiguous substring of the text |
| Strings.DecimalString | integrations/linkedin/crawler.py:80 | the checkpoint is rendered as a non-empty string of digits, with a leading `0` only for 0 |
| Strings.ParseDecimalString | integrations/linkedin/crawler.py:80 | reading the rendered checkpoint back gives the checkpoint (round trip) |
| Strings.DecimalStringInjective | integrations/linkedin/crawler.py:80 | different checkpoints render differently |
| Strings.DigitSuffixUnique | integrations/linkedin/crawler.py:80 | a string ending in a non-digit followed by digits splits into those two parts in only one way |
| SearchUrls.UrlHeadShape | integrations/linkedin/constants.py:17-19 | the URL prefix before the keyword is longer than 51 characters; its character 51 is `8` for `r86400` (LAST_WEEK) and `2` for `r2592000` (LAST_MONTH), so it tells the two ranges apart |
| SearchUrls.ReadSearchUrl | integrations/linkedin/crawler.py:80 | from the URL navigate_to_search_page opens, the date range and the checkpoint can be read back |
| SearchUrls.SearchUrlInjective | integrations/linkedin/crawler.py:80 | equal search URLs have equal keyword, checkpoint and date range |
| SearchUrls.UrlsOfCheckpoints | integrations/linkedin/crawler.py:80 | the URLs opened at checkpoints 0, 25, 50, … each ask for the search's date range and their own checkpoint, and are pairwise distinct |
| SearchUrls.CrawlOpensUrls | integrations/linkedin/crawler.py:159-175 | crawl_jobs opens the search first at checkpoint 0 and then at 25, 50, … in order; every URL asks for the date range and its own checkpoint, and no search page is opened twice |
| Crawler.IsJobPromotedMeaning | integrations/linkedin/crawler.py:36-44 | an entry is promoted iff its footer could be read and its text contains "Promoted"; an unreadable footer means not promoted |
| Crawler.RaisedIsFinal | integrations/linkedin/crawler.py:168-174 | once an entry raised a non-stale exception, the entries after it change nothing |
| Crawler.CrawlLoopIsCrawlFrom | integrations/linkedin/crawler.py:159-177 | the loop's state after some pages (trace, result list), continued from page `i`, is the crawl from page `i` appended to that state |
| Crawler.CrawlPageEntries | integrations/linkedin/crawler.py:168-174 | the inner loop extends the trace and the result list by exactly the events and records of the page's run, and raises iff that run raises |
| Crawler.CrawlJobs | integrations/linkedin/crawler.py:142-177 | crawl_jobs produces exactly the trace and outcome of the specification `CrawlFrom(pages, 0)` |
| CrawlProperties.AttemptEntryShape | integrations/linkedin/crawler.py:128-140 | one crawl_job call, as the loop at crawler.py:169-174 sees it, is one attempt with no navigation; it yields the entry's record iff extraction succeeds, and raises iff the exception is not a stale one |
| CrawlProperties.PageAttempts | integrations/linkedin/crawler.py:168-174 | on a page the entries 0, 1, …, n-1 are attempted in list order, promoted or not; n is the whole page unless the loop raised, and then entry n-1 is the one that raised |
| CrawlProperties.PageStopsAtFirstError | integrations/linkedin/crawler.py:168-174 | an entry that raises a non-stale exception makes the page raise, and no entry after it is attempted |
| CrawlProperties.PageRaisesIff | integrations/linkedin/crawler.py:168-174 | a page raises iff one of its entries raises a non-stale exception |
| CrawlProperties.PageEvents | integrations/linkedin/crawler.py:170-172 | on a page each record is appended and then handed at once to the callback; the appended and called-back records are both the page's records; the page navigates nowhere |
| CrawlProperties.PageJobs | integrations/linkedin/crawler.py:168-174 | a page's records are those of its attempted entries whose extraction succeeded, in list order; stale entries yield nothing |
| CrawlProperties.PageJobsComplete | integrations/linkedin/crawler.py:168-174 | a page that does not raise yields the records of all its successfully extracted entries |
| CrawlProperties.CrawlPages | integrations/linkedin/crawler.py:159-175 | the crawl navigates to checkpoints 25i, 25(i+1), … in order, one per page; every page before the last is not all promoted and does not raise; the crawl returns iff the last page is all promoted, and otherwise that page raised |
| CrawlProperties.CrawlNavigates | integrations/linkedin/crawler.py:162-163 | every crawl navigates at least once |
| CrawlProperties.CrawlEndsBy | integrations/linkedin/crawler.py:165-167 | a page that is all promoted (an empty page, any page past the end) ends the crawl there at the latest |
| CrawlProperties.CrawlDeliveries | integrations/linkedin/crawler.py:170-177 | every append is followed at once by the callback on the same record; the callback gets exactly the appended records, in order; a crawl that returns returns exactly those records |
| CrawlRecords.OkJobsMember | integrations/linkedin/crawler.py:115-126 | a record is among a page's successful extractions iff it is what extract_job_data assembles for one of the page's entries whose extraction succeeds |
| CrawlRecords.OkJobsOfPagesMember | integrations/linkedin/crawler.py:115-126 | the same for a range of pages: a record is among their successful extractions iff it is extract_job_data's record for an extracted entry on one of those pages |
| CrawlRecords.CrawlCallbacksExtracted | integrations/linkedin/crawler.py:115-126 | every record a crawl hands to the callback, whether the crawl returns or raises, is what extract_job_data assembles for an entry of a page the crawl navigated to, so its id is that entry's data-occludable-job-id and its description the details pane's text |
| CrawlRecords.CrawlReturnsExtracted | integrations/linkedin/crawler.py:115-126 | a crawl that returns returns a record iff it is extract_job_data's record for an extracted entry of a page before its last checkpoint's page (both directions) |
| CrawlRecords.ReturnsEntryRecord | integrations/linkedin/crawler.py:115-126 | in a crawl that returns, every successfully extracted entry of a page before the last one yields its record in the returned list |
| CrawlProperties.CrawlCallbacks | integrations/linkedin/crawler.py:159-177 | in every crawl, returning or raising, the callback receives the records of the successfully extracted entries of the completely crawled pages, page order then list order, followed, when an exception escaped, by the records that page's loop delivered before it |
| CrawlRecords.EntryRecordCalledBack | integrations/linkedin/crawler.py:168-174 | in every crawl, returning or raising, each successfully extracted entry that was attempted has its record handed to the callback: on a completely crawled page, or before the exception on the page where one escaped |
| CrawlProperties.CrawlResult | integrations/linkedin/crawler.py:159-177 | a crawl that returns returns the records of the successfully extracted entries of the pages before its last checkpoint: page order, then list order |
| App.FindOne | app/job_finder.py:28 | find_one finds nothing iff no stored record has the id; otherwise it answers the first record with that id |
| App.SavedIfNew | app/job_finder.py:21-30 | the collection is unchanged if the id is stored already, else the record is inserted at the end; afterwards the id is stored; unique ids stay unique |
| App.SaveIdempotent | app/job_finder.py:21-30 | saving the same record twice is the same as saving it once |
| App.SaveAll | app/job_finder.py:21-30 | saving a sequence of records keeps the old collection as a prefix, stores every record's id, and adds only records from the sequence |
| App.SaveAllOnlyNew | app/job_finder.py:28-30 | saving records one after the other extends the collection by insertions only, each of a record whose id was not stored at that moment |
| App.SaveAllUnique | app/job_finder.py:21-30 | saving a sequence of records keeps ids unique |
| App.SaveAllNothingNew | app/job_finder.py:21-30 | saving records whose ids are all stored changes nothing |
| App.RaisedStopsKeywords | app/job_finder.py:40-43 | once a keyword's crawl raised, the keywords after it are not crawled |
| App.KeywordCalls | app/job_finder.py:40-43 | the keywords are crawled in list order for the past week, up to and including the first crawl that raises; the loop raises iff such a crawl exists among those run |
| App.KeywordCallsLength | app/job_finder.py:40-43 | the loop crawls at most every keyword, and every keyword when nothing raised |
| App.KeywordsRaiseIff | app/job_finder.py:40-43 | the keyword loop raises iff the crawl of some keyword raises |
| App.KeywordsKeep | app/job_finder.py:40-43 | the loop never removes, reorders or overwrites a stored record, and keeps ids unique |
| App.KeywordsStore | app/job_finder.py:40-43 | every record handed to the callback by a crawl the loop ran has its id stored afterwards, including records handed over before a crawl raised |
| App.KeywordsOnlyNew | app/job_finder.py:28-30 | the keyword loop inserts a called-back record only when its id is stored neither in the collection it started from nor by an earlier insertion; a record whose id was already stored is not inserted again |
| App.KeywordsOnlySaved | app/job_finder.py:40-43 | every record the loop adds was handed to the callback by a crawl it ran |
| App.KeywordsNothingNew | app/job_finder.py:40-43 | crawling keywords whose records are all stored already leaves the collection as it is |
| App.KeywordsSameCalls | app/job_finder.py:40-43 | which crawls the loop runs, and whether it raises, does not depend on the collection |
| App.FetchRaises | app/job_finder.py:32-44 | fetch_jobs raises iff the login fails or the crawl of "Software Engineer" or of "Software Developer" raises |
| App.FetchCalls | app/job_finder.py:36-44 | the exact calls: setup and login, then "Software Engineer" and "Software Developer" for the past week, then close_driver; an exception ends the sequence at once, so the driver is closed iff nothing raised |
| App.FetchCollection | app/job_finder.py:32-44 | fetch_jobs keeps the stored records as a prefix and ids unique; a failed login changes nothing; every record a crawl it ran handed over has its id stored, and no other record is added; a record is inserted only when its id is not stored yet, so no record whose id was stored before fetch_jobs ran is inserted |
| App.FetchTwice | app/job_finder.py:32-44 | after a run that raised nothing, a second run over the same pages makes the same calls and stores nothing new |
| App.SavedByIsReturned | app/job_finder.py:41-43 | for a crawl that returns, the records handed to `__save_job_if_new` are exactly the records crawl_jobs returns |
| App.FetchStoresSaved | app/job_finder.py:40-43 | a record handed to `__save_job_if_new` by a crawl that fetch_jobs ran has its id stored afterwards |
| App.FetchStoresEntryIds | app/job_finder.py:21-44 | after fetch_jobs, the data-occludable-job-id of every successfully extracted entry that a keyword's crawl attempted is stored, whether that crawl returned or raised: the entries of the completely crawled pages, and those before the exception on the page where one escaped |
| App.FetchFirstUrl | app/job_finder.py:40-42 | the first page fetch_jobs opens is the search for "Software Engineer" over the past week at checkpoint 0 |
| App.JobFinder.constructor | app/job_finder.py:14-19 | the finder starts from the given collection |
| App.JobFinder.SaveJobIfNew | app/job_finder.py:21-30 | __save_job_if_new updates the collection as `SavedIfNew` says |
| App.JobFinder.SaveCalledBack | app/job_finder.py:41-43 | saving every record of a trace's callback calls, in order, updates the collection as `SaveAll` says |
| App.JobFinder.CrawlKeywordsLoop | app/job_finder.py:40-43 | the loop over the keywords makes the calls, leaves the collection and raises as `CrawlKeywords` says |
| App.JobFinder.FetchJobs | app/job_finder.py:32-44 | fetch_jobs makes the calls, leaves the collection and raises as `Fetch` says |

## Left out

- Selenium is not modelled: driver setup, `chromedriver_autoinstaller`, `WebDriverWait`, element lookup, clicks and focus. The pages and entries a search shows are input data.
- The login details (the form fields, the credentials, waiting for the URL to change) are reduced to one parameter: whether the login succeeds. A failure is an exception that escapes `fetch_jobs`.
- The `time.sleep` settle delays are not modelled; they do not affect results.
- BeautifulSoup HTML parsing is not modelled. It is the parameter `htmlText` (HTML to text).
- The driver navigation of `navigate_to_search_page` is not modelled beyond the URL. The trace records `Navigate(checkpoint)`; `SearchUrls.OpenedUrls` maps those checkpoints to the URLs `SearchUrl(keyword, checkpoint, range)` that are opened, and `CrawlOpensUrls` states which URLs those are.
- The crawl is assumed to end. The source's `while True` (crawler.py:162) has no page bound and leaves only at crawler.py:166-167. If every page the site serves has an entry that is not promoted, crawl_jobs never returns. The model takes the results of a search as a finite list of pages, empty past the end, so every crawl ends; the source does not guarantee this.
- The callback is modelled as never failing. In the source it runs inside the `try` (crawler.py:169-174), so an exception from `find_one` or `insert_one` in `__save_job_if_new` (job_finder.py:28-30) is not a stale-element exception. It would escape crawl_jobs after the record was appended, and fetch_jobs would end without `close_driver`. The model has no such exception.
- The callback is not modelled as interleaved with the crawl. `CrawlKeywordsLoop` saves a crawl's called-back records after that crawl, in the order they were handed over. This gives the same collection because nothing else touches the collection while a crawl runs.
- MongoDB's natural order is taken to be insertion order, which MongoDB does not promise: `App.FindOne` answers the first stored record with the id. Only whether a record is found is used (job_finder.py:28), so no result of the model depends on which one.
- MongoDB is not modelled: the connection, the `_id` field it adds, and `model_dump`. The collection is a sequence of records.
- Pydantic validation is not modelled. A record failing validation is an exception from `crawl_job` like any other, i.e. `OtherError`.
- `__get_selected_job_description` is not modelled separately. The text of the details pane is part of the entry's `Extracted` outcome.
- The OpenAI client and the configuration are not part of this model.
