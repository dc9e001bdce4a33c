/** The browser pipeline of the entry point: pages 1 to 5 are loaded in turn,
    each page's rows go through the row extractor starting at the running
    `global_rank`, the page's records are appended to the output file, and
    `global_rank` grows by the number of records the page produced. */
module BrowserPipeline {
  import opened Wrappers
  import opened Decimal
  import opened Listing
  import opened RowExtractor

  const BASE_URL: string := "https://coinmarketcap.com/"
  const PAGE_COUNT := 5
  const FIRST_RANK := 1

  /** The address loaded for a page: the base URL for page 1, the base URL
      followed by `?page=N` for a later page. */
  function PageUrl(baseUrl: string, pageNum: int): string
  {
    baseUrl + (if pageNum > 1 then "?page=" + Str(pageNum) else "")
  }

  /** Every page address extends the base URL, and only page 1 loads the base URL itself. */
  lemma PageUrlShape(baseUrl: string, pageNum: int)
    ensures |PageUrl(baseUrl, pageNum)| >= |baseUrl| && PageUrl(baseUrl, pageNum)[..|baseUrl|] == baseUrl
    ensures PageUrl(baseUrl, pageNum) == baseUrl <==> pageNum <= 1
  {
  }

  /** The five pages are five different addresses. */
  lemma PageUrlsDistinct(baseUrl: string, m: int, n: int)
    requires 1 <= m < n
    ensures PageUrl(baseUrl, m) != PageUrl(baseUrl, n)
  {
    if m > 1 && PageUrl(baseUrl, m) == PageUrl(baseUrl, n) {
      var k := |baseUrl| + |"?page="|;
      assert PageUrl(baseUrl, m)[k..] == Str(m);
      assert PageUrl(baseUrl, n)[k..] == Str(n);
      StrInjective(m, n);
    }
  }

  /** The rows written to the output file so far, and the counter. */
  datatype Progress = Progress(written: seq<Record>, globalRank: int)

  /** The progress once pages 1..n are done; `load` stands for the browser:
      the rows it shows for an address. */
  function Crawl(load: string -> seq<Row>, baseUrl: string, n: nat): Progress
  {
    if n == 0 then Progress([], FIRST_RANK)
    else
      var before := Crawl(load, baseUrl, n - 1);
      var page := PageRecords(load(PageUrl(baseUrl, n)), before.globalRank);
      Progress(before.written + page, before.globalRank + |page|)
  }

  /** The loop over `range(1, 6)` in the entry point, with the CSV file as the
      sequence of rows written so far. */
  method ScrapeBrowser(load: string -> seq<Row>) returns (written: seq<Record>, globalRank: int)
    ensures Crawl(load, BASE_URL, PAGE_COUNT) == Progress(written, globalRank)
    ensures globalRank == FIRST_RANK + |written|
  {
    written := [];
    globalRank := FIRST_RANK;
    for pageNum := 1 to PAGE_COUNT + 1
      invariant written == Crawl(load, BASE_URL, pageNum - 1).written
      invariant globalRank == Crawl(load, BASE_URL, pageNum - 1).globalRank
    {
      var pageRecords := ScrapePage(load(PageUrl(BASE_URL, pageNum)), globalRank);
      written := written + pageRecords;
      globalRank := globalRank + |pageRecords|;
    }
    CrawlRank(load, BASE_URL, PAGE_COUNT);
  }

  /** Page n appends its own records, ranked from the counter left by the
      pages before it, and advances the counter by their number. */
  lemma CrawlStep(load: string -> seq<Row>, baseUrl: string, n: nat)
    requires n > 0
    ensures var page := PageRecords(load(PageUrl(baseUrl, n)), Crawl(load, baseUrl, n - 1).globalRank);
      Crawl(load, baseUrl, n).written == Crawl(load, baseUrl, n - 1).written + page &&
      Crawl(load, baseUrl, n).globalRank == Crawl(load, baseUrl, n - 1).globalRank + |page|
  {
  }

  /** `global_rank` is always one more than the number of rows written. */
  lemma {:induction false} CrawlRank(load: string -> seq<Row>, baseUrl: string, n: nat)
    ensures Crawl(load, baseUrl, n).globalRank == FIRST_RANK + |Crawl(load, baseUrl, n).written|
  {
    if n > 0 {
      CrawlRank(load, baseUrl, n - 1);
      CrawlStep(load, baseUrl, n);
    }
  }

  lemma PrefixTrans<T>(a: seq<T>, b: seq<T>, c: seq<T>)
    requires |a| <= |b| && b[..|a|] == a
    requires |b| <= |c| && c[..|b|] == b
    ensures |a| <= |c| && c[..|a|] == a
  {
    assert c[..|a|] == c[..|b|][..|a|];
  }

  /** One page never takes back what the earlier pages wrote. */
  lemma CrawlGrows(load: string -> seq<Row>, baseUrl: string, n: nat)
    requires n > 0
    ensures |Crawl(load, baseUrl, n - 1).written| <= |Crawl(load, baseUrl, n).written|
    ensures Crawl(load, baseUrl, n).written[..|Crawl(load, baseUrl, n - 1).written|] == Crawl(load, baseUrl, n - 1).written
  {
    CrawlStep(load, baseUrl, n);
    var prev := Crawl(load, baseUrl, n - 1).written;
    var page := PageRecords(load(PageUrl(baseUrl, n)), Crawl(load, baseUrl, n - 1).globalRank);
    assert (prev + page)[..|prev|] == prev;
  }

  /** The output only grows: what pages 1..m wrote is a prefix of what pages
      1..n write. */
  lemma {:induction false} CrawlAppendOnly(load: string -> seq<Row>, baseUrl: string, m: nat, n: nat)
    requires m <= n
    ensures |Crawl(load, baseUrl, m).written| <= |Crawl(load, baseUrl, n).written|
    ensures Crawl(load, baseUrl, n).written[..|Crawl(load, baseUrl, m).written|] == Crawl(load, baseUrl, m).written
  {
    if m < n {
      CrawlAppendOnly(load, baseUrl, m, n - 1);
      CrawlGrows(load, baseUrl, n);
      PrefixTrans(Crawl(load, baseUrl, m).written, Crawl(load, baseUrl, n - 1).written, Crawl(load, baseUrl, n).written);
    } else {
      var w := Crawl(load, baseUrl, n).written;
      assert w[..|w|] == w;
    }
  }

  /** A page with no malformed row. */
  predicate WellFormedPage(rows: seq<Row>) {
    forall i :: 0 <= i < |rows| ==> Kept(rows[i])
  }

  /** When no page has a malformed row, the written ranks are exactly
      1, 2, ..., total: no gap and no repetition. */
  lemma NoSkipRanksAreOneToTotal(load: string -> seq<Row>, baseUrl: string, n: nat)
    requires forall p :: 1 <= p <= n ==> WellFormedPage(load(PageUrl(baseUrl, p)))
    ensures forall k :: 0 <= k < |Crawl(load, baseUrl, n).written| ==> Crawl(load, baseUrl, n).written[k].rank == Str(k + 1)
  {
    forall k | 0 <= k < |Crawl(load, baseUrl, n).written|
      ensures Crawl(load, baseUrl, n).written[k].rank == Str(k + 1)
    {
      NoSkipRankAt(load, baseUrl, n, k);
    }
  }

  /** The pointwise form: written row k has rank k + 1. */
  lemma {:induction false} NoSkipRankAt(load: string -> seq<Row>, baseUrl: string, n: nat, k: nat)
    requires forall p :: 1 <= p <= n ==> WellFormedPage(load(PageUrl(baseUrl, p)))
    requires k < |Crawl(load, baseUrl, n).written|
    ensures Crawl(load, baseUrl, n).written[k].rank == Str(k + 1)
  {
    CrawlStep(load, baseUrl, n);
    var written := Crawl(load, baseUrl, n - 1).written;
    var rank := Crawl(load, baseUrl, n - 1).globalRank;
    var rows := load(PageUrl(baseUrl, n));
    var all := Crawl(load, baseUrl, n).written;
    if k < |written| {
      NoSkipRankAt(load, baseUrl, n - 1, k);
      assert all[k] == written[k];
    } else {
      CrawlRank(load, baseUrl, n - 1);
      assert WellFormedPage(rows);
      NoSkipConsecutiveRanks(rows, rank);
      var j := k - |written|;
      assert all[k] == PageRecords(rows, rank)[j];
      assert PageRecords(rows, rank)[j].rank == Str(rank + j);
      assert rank + j == k + 1;
    }
  }

  /** A page whose only malformed row is its first ends on the rank that the
      counter then hands to the next page. */
  lemma LastRankIsNextStart(load: string -> seq<Row>, baseUrl: string, p: nat)
    requires p >= 1 && OnlyFirstMalformed(load(PageUrl(baseUrl, p)))
    ensures var w := Crawl(load, baseUrl, p).written;
      |w| > 0 && w[|w| - 1].rank == Str(Crawl(load, baseUrl, p).globalRank)
  {
    var g0 := Crawl(load, baseUrl, p - 1).globalRank;
    var r := load(PageUrl(baseUrl, p));
    OnlyFirstSkippedLastRank(r, g0);
    CrawlStep(load, baseUrl, p);
    var w1 := Crawl(load, baseUrl, p).written;
    assert w1[|w1| - 1] == PageRecords(r, g0)[|r| - 2];
  }

  /** A page whose first row is good writes, as its first row, the counter
      left by the pages before it. */
  lemma FirstRankIsCounter(load: string -> seq<Row>, baseUrl: string, n: nat)
    requires n >= 1 && |load(PageUrl(baseUrl, n))| > 0 && Kept(load(PageUrl(baseUrl, n))[0])
    ensures var k := |Crawl(load, baseUrl, n - 1).written|;
      k < |Crawl(load, baseUrl, n).written| &&
      Crawl(load, baseUrl, n).written[k].rank == Str(Crawl(load, baseUrl, n - 1).globalRank)
  {
    var g := Crawl(load, baseUrl, n - 1).globalRank;
    var q := load(PageUrl(baseUrl, n));
    FirstRowKeepsStartRank(q, g);
    CrawlStep(load, baseUrl, n);
    var w := Crawl(load, baseUrl, n - 1).written;
    assert Crawl(load, baseUrl, n).written[|w|] == PageRecords(q, g)[0];
  }

  /** Ranks can repeat across pages. If page p (before the last) has a
      malformed first row and good rows after it, and page p + 1 starts with a
      good row, then the last record of page p and the first record of page
      p + 1 carry the same rank in the output file. */
  lemma CrossPageRankCollision(load: string -> seq<Row>, baseUrl: string, p: nat)
    requires 1 <= p < PAGE_COUNT
    requires OnlyFirstMalformed(load(PageUrl(baseUrl, p)))
    requires |load(PageUrl(baseUrl, p + 1))| > 0 && Kept(load(PageUrl(baseUrl, p + 1))[0])
    ensures var written := Crawl(load, baseUrl, PAGE_COUNT).written;
      var k := |Crawl(load, baseUrl, p).written|;
      0 < k < |written| && written[k - 1].rank == written[k].rank
  {
    LastRankIsNextStart(load, baseUrl, p);
    FirstRankIsCounter(load, baseUrl, p + 1);
    CrawlAppendOnly(load, baseUrl, p, PAGE_COUNT);
    CrawlAppendOnly(load, baseUrl, p + 1, PAGE_COUNT);
    var w1 := Crawl(load, baseUrl, p).written;
    var w2 := Crawl(load, baseUrl, p + 1).written;
    var all := Crawl(load, baseUrl, PAGE_COUNT).written;
    assert all[|w1| - 1] == all[..|w1|][|w1| - 1] == w1[|w1| - 1];
    assert all[|w1|] == all[..|w2|][|w1|] == w2[|w1|];
  }

  /** A malformed row followed by one good row on the first page, and a
      single good row on every later page. */
  function CollidingSite(baseUrl: string): string -> seq<Row> {
    var c := Cell("", None, None, None);
    var good := [c, c, c, c, c, c, c];
    url => if url == baseUrl then [[], good] else [good]
  }

  /** On that site the first two rows of the output file both carry rank "2". */
  lemma CollisionExample(baseUrl: string)
    ensures |Crawl(CollidingSite(baseUrl), baseUrl, PAGE_COUNT).written| >= 2
    ensures Crawl(CollidingSite(baseUrl), baseUrl, PAGE_COUNT).written[0].rank == "2"
    ensures Crawl(CollidingSite(baseUrl), baseUrl, PAGE_COUNT).written[1].rank == "2"
  {
    var load := CollidingSite(baseUrl);
    PageUrlShape(baseUrl, 1);
    PageUrlShape(baseUrl, 2);
    var page := load(PageUrl(baseUrl, 1));
    assert OnlyFirstMalformed(page);
    assert Kept(load(PageUrl(baseUrl, 2))[0]);
    CrossPageRankCollision(load, baseUrl, 1);
    LastRankIsNextStart(load, baseUrl, 1);
    var c1 := Crawl(load, baseUrl, 1);
    assert |c1.written| == 1 by {
      CrawlStep(load, baseUrl, 1);
      OnlyFirstSkippedLastRank(page, FIRST_RANK);
    }
    CrawlRank(load, baseUrl, 1);
    assert c1.written[0].rank == Str(2);
    assert Str(2) == "2";
    CrawlAppendOnly(load, baseUrl, 1, PAGE_COUNT);
    var all := Crawl(load, baseUrl, PAGE_COUNT).written;
    assert all[0] == all[..1][0] == c1.written[0];
  }
}
