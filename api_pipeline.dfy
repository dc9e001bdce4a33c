/** The API pipeline of the entry point: five batches of twenty listings are
    fetched at the offsets of `range(1, 101, 20)`, and every coin entry of a
    batch is mapped to a record and written at once. Any error (a failed
    request, a `quotes` list that is present but empty, a missing `cmcRank`,
    `name` or `symbol` key) aborts the whole run; rows written before it stay
    written. */
module ApiPipeline {
  import opened Wrappers
  import opened Decimal
  import opened Listing

  /** A quote object: each numeric key may be absent. */
  datatype Quote = Quote(price: Option<real>, percentChange24h: Option<real>, marketCap: Option<real>)

  /** The `{}` that stands in for the quote when the `quotes` key is absent. */
  const EMPTY_QUOTE := Quote(None, None, None)

  /** A listing entry of `data.cryptoCurrencyList`: each key may be absent. */
  datatype Coin = Coin(cmcRank: Option<int>, name: Option<string>, symbol: Option<string>, quotes: Option<seq<Quote>>)

  /** Why a run stops: the request failed (`raise_for_status`), `[0]` on an
      empty list, or a missing key (of an entry, or `data` and
      `cryptoCurrencyList` in the answer). */
  datatype ApiError = FetchFailed | IndexError | KeyError(key: string)

  /** The number formatting, kept abstract: `fixed2` renders `:.2f`,
      `grouped2` renders `:,.2f`. */
  datatype Formats = Formats(fixed2: real -> string, grouped2: real -> string)

  const BATCH_START := 1
  const BATCH_STOP := 101
  const BATCH_SIZE := 20

  /** Python's `range(start, stop, step)` for a positive step. */
  function Range(start: int, stop: int, step: int): (r: seq<int>)
    requires step > 0
    ensures forall i :: 0 <= i < |r| ==> r[i] == start + i * step && r[i] < stop
    ensures start + |r| * step >= stop
    decreases stop - start
  {
    if start >= stop then []
    else
      var rest := Range(start + step, stop, step);
      assert start + step + |rest| * step == start + (|rest| + 1) * step;
      assert forall i :: 1 <= i < |rest| + 1 ==> start + step + (i - 1) * step == start + i * step;
      [start] + rest
  }

  /** The batch offsets are exactly 1, 21, 41, 61 and 81. */
  lemma BatchOffsets()
    ensures Range(BATCH_START, BATCH_STOP, BATCH_SIZE) == [1, 21, 41, 61, 81]
  {
    var r := Range(BATCH_START, BATCH_STOP, BATCH_SIZE);
    assert |r| == 5;
  }

  /** `coin.get('quotes', [{}])[0]`: it fails exactly on an empty `quotes`
      list; an absent key gives a quote with every key absent. */
  function QuoteOf(coin: Coin): (r: Result<Quote, ApiError>)
    ensures r.Failure? <==> coin.quotes == Some([])
    ensures r.Failure? ==> r.error == IndexError
    ensures coin.quotes.None? ==> r.Success? && r.value.price.None? && r.value.percentChange24h.None? && r.value.marketCap.None?
  {
    match coin.quotes
    case None => Success(EMPTY_QUOTE)
    case Some(qs) => if |qs| == 0 then Failure(IndexError) else Success(qs[0])
  }

  /** The entry has everything the mapping indexes without a default. */
  predicate WellFormed(coin: Coin) {
    coin.quotes != Some([]) && coin.cmcRank.Some? && coin.name.Some? && coin.symbol.Some?
  }

  /** The dictionary literal passed to `writerow`, evaluated in Python's order:
      the quote first, then the keys `cmcRank`, `name` and `symbol`. */
  function MapCoin(coin: Coin, fmt: Formats): (r: Result<Record, ApiError>)
    ensures r.Success? <==> WellFormed(coin)
  {
    match QuoteOf(coin)
    case Failure(e) => Failure(e)
    case Success(quote) =>
      if coin.cmcRank.None? then Failure(KeyError("cmcRank"))
      else if coin.name.None? then Failure(KeyError("name"))
      else if coin.symbol.None? then Failure(KeyError("symbol"))
      else Success(Record(
        rank := Str(coin.cmcRank.value),
        name := coin.name.value,
        symbol := coin.symbol.value,
        price := fmt.fixed2(quote.price.GetOr(0.0)),
        change24h := fmt.fixed2(quote.percentChange24h.GetOr(0.0)),
        marketCap := "$" + fmt.grouped2(quote.marketCap.GetOr(0.0))))
  }

  /** The error is the first failure in evaluation order; on success rank, name
      and symbol are copied and the numbers come from the first quote, 0 where a
      key is absent. */
  lemma MapCoinContract(coin: Coin, fmt: Formats)
    ensures coin.quotes == Some([]) ==> MapCoin(coin, fmt) == Failure(IndexError)
    ensures coin.quotes != Some([]) && coin.cmcRank.None? ==> MapCoin(coin, fmt) == Failure(KeyError("cmcRank"))
    ensures coin.quotes != Some([]) && coin.cmcRank.Some? && coin.name.None? ==> MapCoin(coin, fmt) == Failure(KeyError("name"))
    ensures coin.quotes != Some([]) && coin.cmcRank.Some? && coin.name.Some? && coin.symbol.None? ==>
              MapCoin(coin, fmt) == Failure(KeyError("symbol"))
    ensures MapCoin(coin, fmt).Success? ==>
              MapCoin(coin, fmt).value.rank == Str(coin.cmcRank.value) && MapCoin(coin, fmt).value.name == coin.name.value && MapCoin(coin, fmt).value.symbol == coin.symbol.value
    ensures MapCoin(coin, fmt).Success? ==>
              var q := if coin.quotes.None? then EMPTY_QUOTE else coin.quotes.value[0];
              MapCoin(coin, fmt).value.price == fmt.fixed2(q.price.GetOr(0.0)) &&
              MapCoin(coin, fmt).value.change24h == fmt.fixed2(q.percentChange24h.GetOr(0.0)) &&
              MapCoin(coin, fmt).value.marketCap == "$" + fmt.grouped2(q.marketCap.GetOr(0.0))
  {
  }

  /** An entry without a `quotes` key is written with every number defaulted to 0. */
  lemma MissingQuotesDefaultToZero(coin: Coin, fmt: Formats)
    requires coin.quotes.None? && coin.cmcRank.Some? && coin.name.Some? && coin.symbol.Some?
    ensures MapCoin(coin, fmt).Success?
    ensures MapCoin(coin, fmt).value.price == fmt.fixed2(0.0)
    ensures MapCoin(coin, fmt).value.change24h == fmt.fixed2(0.0)
    ensures MapCoin(coin, fmt).value.marketCap == "$" + fmt.grouped2(0.0)
  {
  }

  /** What a loop has written, and the error that stopped it, if any. */
  datatype Outcome = Outcome(rows: seq<Record>, err: Option<ApiError>)

  /** The rows one batch writes, and the error that stops it, if any. */
  function MapBatch(coins: seq<Coin>, fmt: Formats): Outcome
  {
    if |coins| == 0 then Outcome([], None)
    else
      match MapCoin(coins[0], fmt)
      case Failure(e) => Outcome([], Some(e))
      case Success(record) =>
        var rest := MapBatch(coins[1..], fmt);
        Outcome([record] + rest.rows, rest.err)
  }

  /** The rows the whole run writes, and the error that aborts it, if any;
      `fetch` stands for the request: the coin list returned for an offset. */
  function ApiRun(fetch: int -> Result<seq<Coin>, ApiError>, fmt: Formats, offsets: seq<int>): Outcome
  {
    if |offsets| == 0 then Outcome([], None)
    else
      match fetch(offsets[0])
      case Failure(e) => Outcome([], Some(e))
      case Success(coins) =>
        var batch := MapBatch(coins, fmt);
        if batch.err.Some? then batch
        else
          var rest := ApiRun(fetch, fmt, offsets[1..]);
          Outcome(batch.rows + rest.rows, rest.err)
  }

  /** One entry of the batch from position i on: a failure ends it, a record
      is followed by the rest. */
  lemma MapBatchStep(coins: seq<Coin>, fmt: Formats, i: nat)
    requires i < |coins|
    ensures MapCoin(coins[i], fmt).Failure? ==> MapBatch(coins[i..], fmt) == Outcome([], Some(MapCoin(coins[i], fmt).error))
    ensures MapCoin(coins[i], fmt).Success? ==>
              MapBatch(coins[i..], fmt).rows == [MapCoin(coins[i], fmt).value] + MapBatch(coins[i + 1..], fmt).rows &&
              MapBatch(coins[i..], fmt).err == MapBatch(coins[i + 1..], fmt).err
  {
    assert coins[i..][0] == coins[i];
    assert coins[i..][1..] == coins[i + 1..];
  }

  /** The inner loop: write each coin of the batch, stopping at the first error. */
  method WriteBatch(coins: seq<Coin>, fmt: Formats) returns (rows: seq<Record>, err: Option<ApiError>)
    ensures Outcome(rows, err) == MapBatch(coins, fmt)
  {
    rows := [];
    var i := 0;
    while i < |coins|
      invariant 0 <= i <= |coins|
      invariant MapBatch(coins, fmt).rows == rows + MapBatch(coins[i..], fmt).rows
      invariant MapBatch(coins, fmt).err == MapBatch(coins[i..], fmt).err
    {
      MapBatchStep(coins, fmt, i);
      var record := MapCoin(coins[i], fmt);
      if record.Failure? {
        assert rows + [] == rows;
        return rows, Some(record.error);
      }
      assert rows + [record.value] + MapBatch(coins[i + 1..], fmt).rows
          == rows + ([record.value] + MapBatch(coins[i + 1..], fmt).rows);
      rows := rows + [record.value];
      i := i + 1;
    }
    assert coins[i..] == [];
    assert rows + [] == rows;
    err := None;
  }

  /** The outcome of a run that has already written `written` and then goes
      on as `rest`. */
  function Then(written: seq<Record>, rest: Outcome): (r: Outcome)
    ensures |r.rows| == |written| + |rest.rows|
    ensures r.rows[..|written|] == written && r.rows[|written|..] == rest.rows && r.err == rest.err
  {
    Outcome(written + rest.rows, rest.err)
  }

  /** One batch of the run from position b on: a failed request or a failed
      entry ends it, a complete batch is followed by the rest. */
  lemma ApiRunStep(fetch: int -> Result<seq<Coin>, ApiError>, fmt: Formats, offsets: seq<int>, b: nat)
    requires b < |offsets|
    ensures fetch(offsets[b]).Failure? ==> ApiRun(fetch, fmt, offsets[b..]) == Outcome([], Some(fetch(offsets[b]).error))
    ensures fetch(offsets[b]).Success? && MapBatch(fetch(offsets[b]).value, fmt).err.Some? ==>
              ApiRun(fetch, fmt, offsets[b..]) == MapBatch(fetch(offsets[b]).value, fmt)
    ensures fetch(offsets[b]).Success? && MapBatch(fetch(offsets[b]).value, fmt).err.None? ==>
              ApiRun(fetch, fmt, offsets[b..]) ==
                Then(MapBatch(fetch(offsets[b]).value, fmt).rows, ApiRun(fetch, fmt, offsets[b + 1..]))
  {
    assert offsets[b..][0] == offsets[b];
    assert offsets[b..][1..] == offsets[b + 1..];
  }

  /** Writing `first` and then `second` before `rest` is writing both at once. */
  lemma ThenThen(first: seq<Record>, second: seq<Record>, rest: Outcome)
    ensures Then(first, Then(second, rest)) == Then(first + second, rest)
  {
    assert first + (second + rest.rows) == first + second + rest.rows;
  }

  /** The outer loop: one request per offset, in order, stopping at the first
      error. */
  method WriteBatches(fetch: int -> Result<seq<Coin>, ApiError>, fmt: Formats, offsets: seq<int>)
    returns (written: seq<Record>, err: Option<ApiError>)
    ensures Outcome(written, err) == ApiRun(fetch, fmt, offsets)
  {
    written := [];
    err := None;
    var b := 0;
    while b < |offsets| && err.None?
      invariant 0 <= b <= |offsets|
      invariant err.None? ==> ApiRun(fetch, fmt, offsets) == Then(written, ApiRun(fetch, fmt, offsets[b..]))
      invariant err.Some? ==> ApiRun(fetch, fmt, offsets) == Outcome(written, err)
    {
      ApiRunStep(fetch, fmt, offsets, b);
      var data := fetch(offsets[b]);
      if data.Failure? {
        err := Some(data.error);
        assert written + [] == written;
      } else {
        var rows, batchErr := WriteBatch(data.value, fmt);
        ThenThen(written, rows, ApiRun(fetch, fmt, offsets[b + 1..]));
        written := written + rows;
        err := batchErr;
      }
      b := b + 1;
    }
    if err.None? {
      assert offsets[b..] == [];
      assert written + [] == written;
    }
  }

  /** The API half of `main`: the batch loop over `range(1, 101, 20)`. */
  method ScrapeApi(fetch: int -> Result<seq<Coin>, ApiError>, fmt: Formats) returns (written: seq<Record>, err: Option<ApiError>)
    ensures written == ApiRun(fetch, fmt, [1, 21, 41, 61, 81]).rows
    ensures err == ApiRun(fetch, fmt, [1, 21, 41, 61, 81]).err
  {
    BatchOffsets();
    written, err := WriteBatches(fetch, fmt, Range(BATCH_START, BATCH_STOP, BATCH_SIZE));
  }

  /** A batch ends without error exactly when every entry is well formed, and
      then it writes one record per entry, in order. */
  lemma {:induction false} MapBatchAllWellFormed(coins: seq<Coin>, fmt: Formats)
    ensures MapBatch(coins, fmt).err.None? <==> forall i :: 0 <= i < |coins| ==> WellFormed(coins[i])
    ensures MapBatch(coins, fmt).err.None? ==>
              |MapBatch(coins, fmt).rows| == |coins| &&
              forall i :: 0 <= i < |coins| ==> MapBatch(coins, fmt).rows[i] == MapCoin(coins[i], fmt).value
  {
    if |coins| > 0 {
      MapBatchAllWellFormed(coins[1..], fmt);
      if WellFormed(coins[0]) {
        assert forall i :: 1 <= i < |coins| ==> coins[1..][i - 1] == coins[i];
      }
    }
  }

  /** The first malformed entry aborts the batch with its error; the entries
      before it have been written, and nothing after it is. */
  lemma {:induction false} MapBatchStopsAtFirstError(coins: seq<Coin>, fmt: Formats, j: nat)
    requires j < |coins| && !WellFormed(coins[j])
    requires forall i :: 0 <= i < j ==> WellFormed(coins[i])
    ensures MapBatch(coins, fmt).err == Some(MapCoin(coins[j], fmt).error)
    ensures |MapBatch(coins, fmt).rows| == j
    ensures forall i :: 0 <= i < j ==> MapBatch(coins, fmt).rows[i] == MapCoin(coins[i], fmt).value
  {
    if j > 0 {
      MapBatchStopsAtFirstError(coins[1..], fmt, j - 1);
      assert forall i :: 1 <= i < j ==> coins[1..][i - 1] == coins[i];
    }
  }

  /** A batch that succeeded: the request returned entries and all were written. */
  predicate BatchOk(fetch: int -> Result<seq<Coin>, ApiError>, fmt: Formats, offset: int) {
    fetch(offset).Success? && MapBatch(fetch(offset).value, fmt).err.None?
  }

  /** When every request returns a full batch of well-formed entries, the run
      ends without error and writes BATCH_SIZE records per offset. */
  lemma {:induction false} ApiRunAllSucceed(fetch: int -> Result<seq<Coin>, ApiError>, fmt: Formats, offsets: seq<int>)
    requires forall b :: 0 <= b < |offsets| ==>
               fetch(offsets[b]).Success? && |fetch(offsets[b]).value| == BATCH_SIZE &&
               forall i :: 0 <= i < BATCH_SIZE ==> WellFormed(fetch(offsets[b]).value[i])
    ensures ApiRun(fetch, fmt, offsets).err.None?
    ensures |ApiRun(fetch, fmt, offsets).rows| == BATCH_SIZE * |offsets|
  {
    if |offsets| > 0 {
      MapBatchAllWellFormed(fetch(offsets[0]).value, fmt);
      ApiRunAllSucceed(fetch, fmt, offsets[1..]);
    }
  }

  /** The five fixed batches of twenty, all well formed, give exactly 100 records. */
  lemma HundredRecords(fetch: int -> Result<seq<Coin>, ApiError>, fmt: Formats)
    requires forall o :: o in [1, 21, 41, 61, 81] ==>
               fetch(o).Success? && |fetch(o).value| == BATCH_SIZE &&
               forall i :: 0 <= i < BATCH_SIZE ==> WellFormed(fetch(o).value[i])
    ensures ApiRun(fetch, fmt, Range(BATCH_START, BATCH_STOP, BATCH_SIZE)).err.None?
    ensures |ApiRun(fetch, fmt, Range(BATCH_START, BATCH_STOP, BATCH_SIZE)).rows| == 100
  {
    BatchOffsets();
    ApiRunAllSucceed(fetch, fmt, [1, 21, 41, 61, 81]);
  }

  /** A failed request aborts the run: the output holds the rows of the earlier
      batches and no row is written afterwards. */
  lemma {:induction false} ApiRunStopsAtFailedFetch(
    fetch: int -> Result<seq<Coin>, ApiError>, fmt: Formats, offsets: seq<int>, b: nat)
    requires b < |offsets| && fetch(offsets[b]).Failure?
    requires forall i :: 0 <= i < b ==> BatchOk(fetch, fmt, offsets[i])
    ensures ApiRun(fetch, fmt, offsets).rows == ApiRun(fetch, fmt, offsets[..b]).rows
    ensures ApiRun(fetch, fmt, offsets).err == Some(fetch(offsets[b]).error)
  {
    if b > 0 {
      ApiRunStopsAtFailedFetch(fetch, fmt, offsets[1..], b - 1);
      assert offsets[..b][1..] == offsets[1..][..b - 1];
      assert offsets[..b][0] == offsets[0];
    }
  }

  /** A malformed entry aborts the run, not only its batch: the output holds the
      rows of the earlier batches and the entries of this batch before it, and
      the run ends with that entry's error. */
  lemma {:induction false} ApiRunStopsAtBadEntry(
    fetch: int -> Result<seq<Coin>, ApiError>, fmt: Formats, offsets: seq<int>, b: nat)
    requires b < |offsets| && fetch(offsets[b]).Success? && MapBatch(fetch(offsets[b]).value, fmt).err.Some?
    requires forall i :: 0 <= i < b ==> BatchOk(fetch, fmt, offsets[i])
    ensures ApiRun(fetch, fmt, offsets).rows ==
              ApiRun(fetch, fmt, offsets[..b]).rows + MapBatch(fetch(offsets[b]).value, fmt).rows
    ensures ApiRun(fetch, fmt, offsets).err == MapBatch(fetch(offsets[b]).value, fmt).err
  {
    if b > 0 {
      ApiRunStopsAtBadEntry(fetch, fmt, offsets[1..], b - 1);
      assert offsets[..b][1..] == offsets[1..][..b - 1];
      assert offsets[..b][0] == offsets[0];
      var first := MapBatch(fetch(offsets[0]).value, fmt).rows;
      var before := ApiRun(fetch, fmt, offsets[1..][..b - 1]).rows;
      assert first + (before + MapBatch(fetch(offsets[b]).value, fmt).rows)
          == first + before + MapBatch(fetch(offsets[b]).value, fmt).rows;
    } else {
      assert ApiRun(fetch, fmt, offsets[..0]).rows == [];
    }
  }
}
