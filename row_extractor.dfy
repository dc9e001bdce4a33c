/** The row extractor of the browser pipeline (`scrape_page`): every matched
    table row is a sequence of `td` cells; rows with fewer than seven cells are
    skipped, every other row yields one record whose rank is the page's
    starting rank plus the row's position among ALL matched rows. */
module RowExtractor {
  import opened Wrappers
  import opened Decimal
  import opened Listing

  /** One `td` cell: its stripped text, and the stripped text of its first
      `a.cmc-link`, `p.coin-item-symbol` and `span` descendants when present. */
  datatype Cell = Cell(text: string, link: Option<string>, symbol: Option<string>, span: Option<string>)

  type Row = seq<Cell>

  /** Rows with fewer cells than this are malformed and skipped. */
  const MIN_CELLS := 7
  const NAME_COL := 2
  const PRICE_COL := 3
  const CHANGE_COL := 4
  const MARKET_CAP_COL := 7

  predicate Kept(row: Row) {
    |row| >= MIN_CELLS
  }

  /** The record built for a row of at least seven cells at the given rank:
      the body of the per-row `try`. No exception can arise in it once the row
      has seven cells, so the `except` branch is unreachable. */
  function RecordOf(row: Row, rank: int): (r: Record)
    requires Kept(row)
    ensures r.rank == Str(rank)
    ensures r.price == row[PRICE_COL].text && r.change24h == row[CHANGE_COL].text
    ensures r.name == row[NAME_COL].link.GetOr(NA) && r.symbol == row[NAME_COL].symbol.GetOr(NA)
    ensures |row| == MIN_CELLS || row[MARKET_CAP_COL].span.None? ==> r.marketCap == NA
    ensures |row| > MARKET_CAP_COL && row[MARKET_CAP_COL].span.Some? ==> r.marketCap == row[MARKET_CAP_COL].span.value
  {
    var nameCol := row[NAME_COL];
    var marketCapTag := if |row| > MARKET_CAP_COL then row[MARKET_CAP_COL].span else None;
    Record(
      rank := Str(rank),
      name := nameCol.link.GetOr(NA),
      symbol := nameCol.symbol.GetOr(NA),
      price := row[PRICE_COL].text,
      change24h := row[CHANGE_COL].text,
      marketCap := marketCapTag.GetOr(NA))
  }

  /** One iteration of the loop: a record for a kept row, nothing (and no
      exception) for a row the length guard skips. */
  function ExtractRow(row: Row, rank: int): (r: Option<Record>)
    ensures r.Some? <==> Kept(row)
  {
    if Kept(row) then Some(RecordOf(row, rank)) else None
  }

  function Emitted(r: Option<Record>): seq<Record> {
    if r.Some? then [r.value] else []
  }

  /** What `scrape_page` returns for the given rows and starting rank
      (defined over the prefix processed so far, as the loop runs). */
  function PageRecords(rows: seq<Row>, start: int): seq<Record>
  {
    if |rows| == 0 then []
    else
      var last := |rows| - 1;
      PageRecords(rows[..last], start) + Emitted(ExtractRow(rows[last], start + last))
  }

  /** The positions of the rows that yield a record, in page order. */
  function KeptIndices(rows: seq<Row>): seq<nat>
  {
    if |rows| == 0 then []
    else
      var last := |rows| - 1;
      KeptIndices(rows[..last]) + (if Kept(rows[last]) then [last] else [])
  }

  /** `scrape_page` over abstract rows: the loop of `enumerate(rows)`. */
  method ScrapePage(rows: seq<Row>, globalRankStart: int) returns (records: seq<Record>)
    ensures records == PageRecords(rows, globalRankStart)
    ensures |records| <= |rows|
  {
    records := [];
    var idx := 0;
    while idx < |rows|
      invariant 0 <= idx <= |rows|
      invariant records == PageRecords(rows[..idx], globalRankStart)
    {
      var cols := rows[idx];
      if |cols| >= MIN_CELLS {
        var record := RecordOf(cols, globalRankStart + idx);
        records := records + [record];
      }
      assert rows[..idx + 1][..idx] == rows[..idx];
      idx := idx + 1;
    }
    assert rows[..idx] == rows;
    PageRecordsLength(rows, globalRankStart);
  }

  /** The kept positions are exactly the in-range positions of rows with at
      least seven cells. */
  lemma {:induction false} KeptIndicesExact(rows: seq<Row>)
    ensures forall k :: 0 <= k < |KeptIndices(rows)| ==>
              KeptIndices(rows)[k] < |rows| && Kept(rows[KeptIndices(rows)[k]])
    ensures forall i :: 0 <= i < |rows| && Kept(rows[i]) ==> i in KeptIndices(rows)
  {
    if |rows| > 0 {
      var last := |rows| - 1;
      var prefix := rows[..last];
      KeptIndicesExact(prefix);
      assert forall i :: 0 <= i < last ==> prefix[i] == rows[i];
    }
  }

  /** One step of the kept positions: the last row adds its position exactly
      when it has seven cells. */
  lemma KeptStep(rows: seq<Row>)
    requires |rows| > 0
    ensures var last := |rows| - 1;
      KeptIndices(rows) == KeptIndices(rows[..last]) + (if Kept(rows[last]) then [last] else [])
  {
  }

  /** At most one kept position per row. */
  lemma {:induction false} KeptIndicesLength(rows: seq<Row>)
    ensures |KeptIndices(rows)| <= |rows|
  {
    if |rows| > 0 {
      KeptStep(rows);
      KeptIndicesLength(rows[..|rows| - 1]);
    }
  }

  /** The kept positions are listed strictly increasing: later records come
      from later rows. */
  lemma {:induction false} KeptIndicesIncrease(rows: seq<Row>, k: nat, l: nat)
    requires k < l < |KeptIndices(rows)|
    ensures KeptIndices(rows)[k] < KeptIndices(rows)[l]
  {
    var last := |rows| - 1;
    var prefix := rows[..last];
    KeptStep(rows);
    var ids' := KeptIndices(prefix);
    if l < |ids'| {
      KeptIndicesIncrease(prefix, k, l);
    } else {
      KeptIndicesExact(prefix);
      assert ids'[k] < |prefix|;
    }
  }

  /** One step of both definitions: the last row adds its record and its
      position exactly when it has seven cells. */
  lemma PageStep(rows: seq<Row>, start: int)
    requires |rows| > 0
    ensures var last := |rows| - 1;
      if Kept(rows[last]) then
        PageRecords(rows, start) == PageRecords(rows[..last], start) + [RecordOf(rows[last], start + last)] &&
        KeptIndices(rows) == KeptIndices(rows[..last]) + [last]
      else
        PageRecords(rows, start) == PageRecords(rows[..last], start) &&
        KeptIndices(rows) == KeptIndices(rows[..last])
  {
  }

  /** One record per kept row and none for a skipped one. */
  lemma {:induction false} PageRecordsLength(rows: seq<Row>, start: int)
    ensures |PageRecords(rows, start)| == |KeptIndices(rows)| <= |rows|
  {
    if |rows| > 0 {
      PageStep(rows, start);
      PageRecordsLength(rows[..|rows| - 1], start);
    }
  }

  /** The k-th record is the record of the k-th kept row, ranked by that row's
      position: records keep row order, and a skipped row leaves its rank unused. */
  lemma {:induction false} PageRecordAt(rows: seq<Row>, start: int, k: nat)
    requires k < |KeptIndices(rows)|
    ensures KeptIndices(rows)[k] < |rows| && Kept(rows[KeptIndices(rows)[k]])
    ensures k < |PageRecords(rows, start)|
    ensures PageRecords(rows, start)[k] == RecordOf(rows[KeptIndices(rows)[k]], start + KeptIndices(rows)[k])
  {
    var last := |rows| - 1;
    var prefix := rows[..last];
    var recs, ids := PageRecords(rows, start), KeptIndices(rows);
    var recs', ids' := PageRecords(prefix, start), KeptIndices(prefix);
    PageStep(rows, start);
    PageRecordsLength(prefix, start);
    if k < |ids'| {
      PageRecordAt(prefix, start, k);
      assert ids[k] == ids'[k];
      assert recs[k] == recs'[k];
      assert prefix[ids'[k]] == rows[ids[k]];
    } else {
      assert Kept(rows[last]) && ids[k] == last;
      assert recs[k] == RecordOf(rows[last], start + last);
    }
  }

  /** A skipped row costs one record: fewer records than rows. */
  lemma {:induction false} SkippedRowShortens(rows: seq<Row>, i: nat)
    requires i < |rows| && !Kept(rows[i])
    ensures |KeptIndices(rows)| < |rows|
  {
    var last := |rows| - 1;
    KeptStep(rows);
    KeptIndicesLength(rows[..last]);
    if i < last {
      SkippedRowShortens(rows[..last], i);
    }
  }

  /** With no malformed row, the k-th record comes from the k-th row. */
  lemma {:induction false} AllKeptIndices(rows: seq<Row>)
    requires forall i :: 0 <= i < |rows| ==> Kept(rows[i])
    ensures |KeptIndices(rows)| == |rows|
    ensures forall k :: 0 <= k < |rows| ==> KeptIndices(rows)[k] == k
  {
    if |rows| > 0 {
      var last := |rows| - 1;
      KeptStep(rows);
      AllKeptIndices(rows[..last]);
    }
  }

  /** Every record's rank is the page's starting rank plus the position of its
      row among all matched rows, and that row had at least seven cells. */
  lemma PageRanks(rows: seq<Row>, start: int, k: nat)
    requires k < |PageRecords(rows, start)|
    ensures k < |KeptIndices(rows)| && KeptIndices(rows)[k] < |rows| && Kept(rows[KeptIndices(rows)[k]])
    ensures PageRecords(rows, start)[k].rank == Str(start + KeptIndices(rows)[k])
  {
    PageRecordsLength(rows, start);
    PageRecordAt(rows, start, k);
  }

  /** The number of records equals the number of rows exactly when no row is
      malformed (the `except` branch never drops a row). */
  lemma CountMatchesRowsIff(rows: seq<Row>, start: int)
    ensures |PageRecords(rows, start)| <= |rows|
    ensures |PageRecords(rows, start)| == |rows| <==> forall i :: 0 <= i < |rows| ==> Kept(rows[i])
  {
    PageRecordsLength(rows, start);
    if forall i :: 0 <= i < |rows| ==> Kept(rows[i]) {
      AllKeptIndices(rows);
    } else {
      var i :| 0 <= i < |rows| && !Kept(rows[i]);
      SkippedRowShortens(rows, i);
    }
  }

  /** A skipped row leaves a gap: no record carries the rank of its position. */
  lemma SkippedRankUnused(rows: seq<Row>, start: int, i: nat)
    requires i < |rows| && !Kept(rows[i])
    ensures forall k :: 0 <= k < |PageRecords(rows, start)| ==> PageRecords(rows, start)[k].rank != Str(start + i)
  {
    forall k | 0 <= k < |PageRecords(rows, start)|
      ensures PageRecords(rows, start)[k].rank != Str(start + i)
    {
      PageRanks(rows, start, k);
      var j := KeptIndices(rows)[k];
      assert j != i by {
        assert Kept(rows[j]);
      }
      StrDistinct(start + j, start + i);
    }
  }

  /** Within one page no two records share a rank, and ranks grow in row order. */
  lemma PageRanksDistinct(rows: seq<Row>, start: int, k: nat, l: nat)
    requires k < l < |PageRecords(rows, start)|
    ensures PageRecords(rows, start)[k].rank != PageRecords(rows, start)[l].rank
  {
    PageRanks(rows, start, k);
    PageRanks(rows, start, l);
    KeptIndicesIncrease(rows, k, l);
    var recs := PageRecords(rows, start);
    var a, b := start + KeptIndices(rows)[k], start + KeptIndices(rows)[l];
    assert recs[k].rank == Str(a) && recs[l].rank == Str(b);
    StrDistinct(a, b);
  }

  /** Without malformed rows the ranks are start, start + 1, ... with no gap. */
  lemma NoSkipConsecutiveRanks(rows: seq<Row>, start: int)
    requires forall i :: 0 <= i < |rows| ==> Kept(rows[i])
    ensures |PageRecords(rows, start)| == |rows|
    ensures forall k :: 0 <= k < |rows| ==> PageRecords(rows, start)[k].rank == Str(start + k)
  {
    AllKeptIndices(rows);
    PageRecordsLength(rows, start);
    forall k | 0 <= k < |rows|
      ensures PageRecords(rows, start)[k].rank == Str(start + k)
    {
      PageRanks(rows, start, k);
    }
  }

  /** A malformed row followed later by a good one pushes the page's last rank
      to at least `start + count`, the starting rank the caller hands to the
      next page: the rank ranges of consecutive pages then overlap. */
  lemma {:induction false} SkipBeforeKeptOverlaps(rows: seq<Row>, i: nat, j: nat)
    requires i < j < |rows| && !Kept(rows[i]) && Kept(rows[j])
    ensures |KeptIndices(rows)| > 0
    ensures KeptIndices(rows)[|KeptIndices(rows)| - 1] >= |KeptIndices(rows)|
  {
    var last := |rows| - 1;
    var prefix := rows[..last];
    KeptStep(rows);
    if j < last {
      SkipBeforeKeptOverlaps(prefix, i, j);
      if Kept(rows[last]) {
        SkippedRowShortens(prefix, i);
      }
    } else {
      SkippedRowShortens(prefix, i);
    }
  }

  /** When the first row is kept, the first record comes from it and carries
      the starting rank. */
  lemma FirstRowKeepsStartRank(rows: seq<Row>, start: int)
    requires |rows| > 0 && Kept(rows[0])
    ensures |PageRecords(rows, start)| > 0 && PageRecords(rows, start)[0].rank == Str(start)
  {
    KeptIndicesExact(rows);
    PageRecordsLength(rows, start);
    var ids := KeptIndices(rows);
    assert 0 in ids;
    var j :| 0 <= j < |ids| && ids[j] == 0;
    if j > 0 {
      KeptIndicesIncrease(rows, 0, j);
    }
    PageRanks(rows, start, 0);
  }

  /** When only the first row is malformed, record k comes from row k + 1. */
  lemma {:induction false} OnlyFirstSkipped(rows: seq<Row>)
    requires |rows| > 0 && !Kept(rows[0])
    requires forall i :: 1 <= i < |rows| ==> Kept(rows[i])
    ensures |KeptIndices(rows)| == |rows| - 1
    ensures forall k :: 0 <= k < |rows| - 1 ==> KeptIndices(rows)[k] == k + 1
  {
    var last := |rows| - 1;
    KeptStep(rows);
    if last > 0 {
      OnlyFirstSkipped(rows[..last]);
    }
  }

  /** At least two rows, of which exactly the first is malformed. */
  predicate OnlyFirstMalformed(rows: seq<Row>) {
    |rows| >= 2 && !Kept(rows[0]) && forall i :: 1 <= i < |rows| ==> Kept(rows[i])
  }

  /** When only the first of n >= 2 rows is malformed, the page yields n - 1
      records and the last of them is ranked start + n - 1, one more than the
      count suggests. */
  lemma OnlyFirstSkippedLastRank(rows: seq<Row>, start: int)
    requires OnlyFirstMalformed(rows)
    ensures |PageRecords(rows, start)| == |rows| - 1
    ensures PageRecords(rows, start)[|rows| - 2].rank == Str(start + |rows| - 1)
  {
    OnlyFirstSkipped(rows);
    PageRecordsLength(rows, start);
    PageRanks(rows, start, |rows| - 2);
  }
}
