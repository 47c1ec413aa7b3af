/**
 * What the search URL of navigate_to_search_page determines: the date
 * range token sits at a fixed place, and the checkpoint is the run of
 * digits the URL ends with. Hence distinct searches open distinct URLs,
 * even though the keyword is inserted without escaping.
 */
module SearchUrls {
  import opened Constants
  import opened Strings
  import opened Crawler
  import opened CrawlProperties

  /** Where the date range token's first digit sits in the search URL. */
  const RANGE_DIGIT: nat := 51

  lemma UrlHeadShape(range: LinkedinPostDateRange)
    ensures |UrlHead(range)| > RANGE_DIGIT
    ensures UrlHead(range)[RANGE_DIGIT] == (if range == LastWeek then '8' else '2')
  {
  }

  /** The date range a search URL asks for, read from the token's first digit. */
  function ReadRange(url: string): LinkedinPostDateRange
    requires |url| > RANGE_DIGIT
  {
    if url[RANGE_DIGIT] == '8' then LastWeek else LastMonth
  }

  /** The checkpoint a search URL asks for, read from the digits it ends with. */
  function ReadCheckpoint(url: string): nat
    requires TrailingDigits(url) <= |url|
  {
    var digits := url[|url| - TrailingDigits(url)..];
    TrailingDigitsAreDigits(url);
    ParseDecimal(digits)
  }

  lemma {:induction false} TrailingDigitsAreDigits(s: string)
    ensures TrailingDigits(s) <= |s| && AllDigits(s[|s| - TrailingDigits(s)..])
    decreases |s|
  {
    if s != [] && IsDigit(s[|s| - 1]) {
      var init := s[..|s| - 1];
      TrailingDigitsAreDigits(init);
      assert s[|s| - TrailingDigits(s)..] == init[|init| - TrailingDigits(init)..] + [s[|s| - 1]];
    }
  }

  /** The search URL with its checkpoint digits split off. */
  lemma SearchUrlSplit(keyword: string, checkpoint: nat, range: LinkedinPostDateRange)
    ensures var url, head := SearchUrl(keyword, checkpoint, range), UrlHead(range) + keyword + URL_TAIL;
      url == head + DecimalString(checkpoint) && head != [] && !IsDigit(head[|head| - 1])
  {
    var head := UrlHead(range) + keyword + URL_TAIL;
    assert head[|head| - 1] == URL_TAIL[|URL_TAIL| - 1] == '=';
  }

  /** The URL asks for the date range and the checkpoint it was built from. */
  lemma ReadSearchUrl(keyword: string, checkpoint: nat, range: LinkedinPostDateRange)
    ensures var url := SearchUrl(keyword, checkpoint, range);
      |url| > RANGE_DIGIT && ReadRange(url) == range
      && TrailingDigits(url) <= |url| && ReadCheckpoint(url) == checkpoint
  {
    var url, head := SearchUrl(keyword, checkpoint, range), UrlHead(range) + keyword + URL_TAIL;
    var digits := DecimalString(checkpoint);
    UrlHeadShape(range);
    SearchUrlSplit(keyword, checkpoint, range);
    assert url[RANGE_DIGIT] == UrlHead(range)[RANGE_DIGIT];
    TrailingDigitsOf(head, digits);
    assert url[|url| - |digits|..] == digits;
    ParseDecimalString(checkpoint);
  }

  /**
   * Distinct searches open distinct URLs: keyword, checkpoint and date
   * range are all determined by the URL.
   */
  lemma SearchUrlInjective(keyword1: string, checkpoint1: nat, range1: LinkedinPostDateRange,
                           keyword2: string, checkpoint2: nat, range2: LinkedinPostDateRange)
    requires SearchUrl(keyword1, checkpoint1, range1) == SearchUrl(keyword2, checkpoint2, range2)
    ensures keyword1 == keyword2 && checkpoint1 == checkpoint2 && range1 == range2
  {
    ReadSearchUrl(keyword1, checkpoint1, range1);
    ReadSearchUrl(keyword2, checkpoint2, range2);
    var head1, head2 := UrlHead(range1) + keyword1 + URL_TAIL, UrlHead(range2) + keyword2 + URL_TAIL;
    SearchUrlSplit(keyword1, checkpoint1, range1);
    SearchUrlSplit(keyword2, checkpoint2, range2);
    DigitSuffixUnique(head1, DecimalString(checkpoint1), head2, DecimalString(checkpoint2));
    assert head1[..|head1| - |URL_TAIL|] == UrlHead(range1) + keyword1;
    assert head2[..|head2| - |URL_TAIL|] == UrlHead(range2) + keyword2;
    var prefix := UrlHead(range1) + keyword1;
    assert keyword1 == prefix[|UrlHead(range1)|..];
    assert keyword2 == prefix[|UrlHead(range2)|..];
  }

  /**
   * The URLs a crawl for `keyword` and `range` opens: navigate_to_search_page
   * at each checkpoint of its trace, in order.
   */
  function OpenedUrls(keyword: string, range: LinkedinPostDateRange, trace: seq<Event>): seq<string> {
    var cps := Checkpoints(trace);
    seq(|cps|, j requires 0 <= j < |cps| => SearchUrl(keyword, cps[j], range))
  }

  /**
   * `urls` open the search for `keyword` and `range` at checkpoint 0, 25,
   * 50, ... in order: every URL asks for the date range and its own
   * checkpoint, and no URL occurs twice.
   */
  ghost predicate PagedSearch(keyword: string, range: LinkedinPostDateRange, urls: seq<string>) {
    |urls| >= 1 && urls[0] == SearchUrl(keyword, 0, range)
    && (forall j :: 0 <= j < |urls| ==>
          urls[j] == SearchUrl(keyword, PAGE_SIZE * j, range)
          && |urls[j]| > RANGE_DIGIT && ReadRange(urls[j]) == range
          && TrailingDigits(urls[j]) <= |urls[j]| && ReadCheckpoint(urls[j]) == PAGE_SIZE * j)
    && (forall j1, j2 :: 0 <= j1 < j2 < |urls| ==> urls[j1] != urls[j2])
  }

  /** crawl_jobs opens the search pages in order from checkpoint 0 (PagedSearch). */
  lemma CrawlOpensUrls(pages: seq<seq<Entry>>, keyword: string, range: LinkedinPostDateRange, htmlText: string -> string)
    ensures PagedSearch(keyword, range, OpenedUrls(keyword, range, CrawlFrom(pages, 0, htmlText).trace))
  {
    CrawlPages(pages, 0, htmlText);
    UrlsOfCheckpoints(keyword, range, CrawlFrom(pages, 0, htmlText).trace);
  }

  /** The URLs of a trace whose checkpoints are 0, 25, 50, ... */
  lemma UrlsOfCheckpoints(keyword: string, range: LinkedinPostDateRange, trace: seq<Event>)
    requires var cps := Checkpoints(trace);
      |cps| >= 1 && forall j :: 0 <= j < |cps| ==> cps[j] == PAGE_SIZE * (0 + j)
    ensures PagedSearch(keyword, range, OpenedUrls(keyword, range, trace))
  {
    var urls := OpenedUrls(keyword, range, trace);
    forall j | 0 <= j < |urls|
      ensures urls[j] == SearchUrl(keyword, PAGE_SIZE * j, range)
      ensures |urls[j]| > RANGE_DIGIT && ReadRange(urls[j]) == range
      ensures TrailingDigits(urls[j]) <= |urls[j]| && ReadCheckpoint(urls[j]) == PAGE_SIZE * j
    {
      ReadSearchUrl(keyword, PAGE_SIZE * j, range);
    }
    forall j1, j2 | 0 <= j1 < j2 < |urls| ensures urls[j1] != urls[j2] {
      assert ReadCheckpoint(urls[j1]) != ReadCheckpoint(urls[j2]);
    }
  }
}
