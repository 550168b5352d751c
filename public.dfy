/** The downloader of `public.py`: the check that decides whether a partition
    file is fetched, the paging loop over an exchange endpoint, the window
    filter and the meta columns of a saved partition, the task lists of the
    three data types, and the run over all tasks of a download. */
module Public {
  import opened Wrappers
  import opened Strings
  import opened Calendar
  import opened Tables
  import opened Utilities

  // ---------------------------------------------------------------------
  // The download directory

  /** The files of the download directory, by path, with their tables. */
  class Disk {
    var files: map<string, seq<Row>>

    constructor (initial: map<string, seq<Row>>)
      ensures files == initial
    {
      files := initial;
    }

    /** `os.remove(name)`. */
    method Remove(name: string)
      requires name in files
      modifies this
      ensures files == old(files) - {name}
    {
      files := files - {name};
    }

    /** `df.to_parquet(name)`: the file is created or overwritten. */
    method Write(name: string, rows: seq<Row>)
      modifies this
      ensures files == old(files)[name := rows]
    {
      files := files[name := rows];
    }
  }

  // ---------------------------------------------------------------------
  // _check_to_proceed

  const Incomplete := "incomplete"
  const ParquetExt := ".parquet"
  const IncompleteExt := "_incomplete.parquet"

  /** `"_incomplete.parquet".join(filename.split(".parquet"))`. */
  function IncompleteSibling(filename: string): string
  {
    Join(IncompleteExt, Split(filename, ParquetExt))
  }

  /** Whether `_check_to_proceed` answers True: the file is missing, or its
      name says it is incomplete. */
  predicate Proceeds(files: map<string, seq<Row>>, filename: string)
  {
    filename !in files || Contains(filename, Incomplete)
  }

  /** The directory after `_check_to_proceed`: the incomplete sibling is gone. */
  function AfterCheck(files: map<string, seq<Row>>, filename: string): map<string, seq<Row>>
  {
    files - {IncompleteSibling(filename)}
  }

  /** `_check_to_proceed(filename)`. */
  method CheckToProceed(disk: Disk, filename: string) returns (proceed: bool)
    modifies disk
    ensures proceed == Proceeds(old(disk.files), filename)
    ensures disk.files == AfterCheck(old(disk.files), filename)
  {
    proceed := true;
    if filename in disk.files && !Contains(filename, Incomplete) {
      proceed := false;
    }
    var sibling := IncompleteSibling(filename);
    if sibling in disk.files {
      disk.Remove(sibling);
    }
  }

  /** The sibling is the name with every ".parquet" turned into
      "_incomplete.parquet"; a name without ".parquet" is its own sibling. */
  lemma IncompleteSiblingIsReplace(filename: string)
    ensures IncompleteSibling(filename) == Replace(filename, ParquetExt, IncompleteExt)
    ensures !Contains(filename, ParquetExt) ==> IncompleteSibling(filename) == filename
  {
    JoinSplitIsReplace(filename, ParquetExt, IncompleteExt);
  }

  /** The intended pairing: the sibling of "stem.parquet" is
      "stem_incomplete.parquet" when the stem has no ".". */
  lemma IncompleteSiblingOfParquet(stem: string)
    requires '.' !in stem
    ensures IncompleteSibling(stem + ParquetExt) == stem + IncompleteExt
  {
    IncompleteSiblingIsReplace(stem + ParquetExt);
    ReplacePastPrefix(stem, ParquetExt, ParquetExt, IncompleteExt);
    ReplaceHead(ParquetExt, "", IncompleteExt);
    assert ParquetExt + "" == ParquetExt;
  }

  /** For a name without ".parquet" that exists and is not marked incomplete,
      the check answers False and deletes that very file, so the next check
      of the same name answers True. */
  lemma CheckRemovesCompleteFile(files: map<string, seq<Row>>, filename: string)
    requires !Contains(filename, ParquetExt)
    requires filename in files && !Contains(filename, Incomplete)
    ensures !Proceeds(files, filename)
    ensures AfterCheck(files, filename) == files - {filename}
    ensures Proceeds(AfterCheck(files, filename), filename)
  {
    IncompleteSiblingIsReplace(filename);
  }

  /** Gluing parts without ".parquet" with "_" seams and the ".csv.gz" ending
      cannot complete one, when the type id part is empty or ends in "_". */
  lemma NamePartsNoParquet(ex: string, tip: string, dataType: string, text: string, symbol: string)
    requires !Contains(ex, ParquetExt) && !Contains(tip, ParquetExt) && !Contains(dataType, ParquetExt)
    requires !Contains(text, ParquetExt) && !Contains(symbol, ParquetExt)
    requires tip == "" || tip[|tip| - 1] == '_'
    ensures !Contains(ex + "_" + tip + dataType + "_" + text + "_" + symbol + ".csv.gz", ParquetExt)
  {
    var w := ParquetExt;
    if tip != "" {
      NotContainsAcross(tip, dataType, w);
    } else {
      assert tip + dataType == dataType;
    }
    NotContainsAroundSep(ex, '_', tip + dataType, w);
    var head := ex + "_" + tip + dataType;
    assert head == ex + ['_'] + (tip + dataType);
    NotContainsAroundSep(head, '_', text, w);
    NotContainsAroundSep(head + "_" + text, '_', symbol, w);
    NotContainsBeforeShort(head + "_" + text + "_" + symbol, ".csv.gz", w);
  }

  /** The raw name has no ".parquet" when none of its parts has one. */
  lemma RawNameNoParquet(exchange: string, start: StartArg, symbol: string, dataType: string,
                         dataTypeId: Option<string>)
    requires !Contains(Lower(exchange), ParquetExt) && !Contains(symbol, ParquetExt)
    requires !Contains(dataType, ParquetExt)
    requires dataTypeId.Some? ==> !Contains(dataTypeId.value, ParquetExt)
    requires start.Verbatim? ==> !Contains(start.text, ParquetExt)
    ensures !Contains(RawName(exchange, start, symbol, dataType, dataTypeId), ParquetExt)
  {
    var w := ParquetExt;
    var tip := TypeIdPrefix(dataTypeId);
    NoFirstCharNoMatch("", w);
    if tip != "" {
      NotContainsAroundSep(dataTypeId.value, '_', "", w);
      assert dataTypeId.value + ['_'] + "" == tip;
    }
    var text := StartLabel(start);
    if start.At? {
      DateLabelIsSafe(start.instant);
      NoFirstCharNoMatch(text, w);
    }
    NamePartsNoParquet(Lower(exchange), tip, dataType, text, symbol);
  }

  /** Joining a name below a directory adds no ".parquet" across the seam. */
  lemma DirPrefixNoParquet(directory: string, name: string)
    requires !Contains(directory, ParquetExt) && !Contains(name, ParquetExt)
    ensures !Contains(DirPrefix(directory) + name, ParquetExt)
  {
    var prefix := DirPrefix(directory);
    if directory != [] && directory[|directory| - 1] != '/' {
      NotContainsAcross(directory, "/", ParquetExt);
    }
    if prefix != [] {
      assert prefix[|prefix| - 1] == '/';
      NotContainsAcross(prefix, name, ParquetExt);
    } else {
      assert prefix + name == name;
    }
  }

  /** Escaping a raw name and placing it in a directory adds no ".parquet". */
  lemma PlacedNameNoParquet(directory: string, body: string)
    requires !Contains(directory, ParquetExt) && !Contains(body + ".csv.gz", ParquetExt)
    ensures !Contains(PathJoin(directory, Escape(body + ".csv.gz")), ParquetExt)
  {
    FlatName(directory, body);
    EscapeMatchIsOriginal(body + ".csv.gz", ParquetExt);
    DirPrefixNoParquet(directory, Escape(body + ".csv.gz"));
  }

  /** No name the builder produces contains ".parquet", provided none of the
      lower-cased exchange, the symbol, the data type, the type id, a verbatim
      start and the directory has one. */
  lemma BuiltNameHasNoParquet(exchange: string, start: StartArg, directory: string,
                              symbol: string, dataType: string, dataTypeId: Option<string>)
    requires !Contains(Lower(exchange), ParquetExt) && !Contains(symbol, ParquetExt)
    requires !Contains(dataType, ParquetExt)
    requires dataTypeId.Some? ==> !Contains(dataTypeId.value, ParquetExt)
    requires start.Verbatim? ==> !Contains(start.text, ParquetExt)
    requires !Contains(directory, ParquetExt)
    ensures !Contains(FileName(exchange, start, directory, symbol, dataType, dataTypeId), ParquetExt)
  {
    var body := NameHead(exchange, dataType, dataTypeId) + "_" + StartLabel(start) + "_" + symbol;
    assert RawName(exchange, start, symbol, dataType, dataTypeId) == body + ".csv.gz";
    RawNameNoParquet(exchange, start, symbol, dataType, dataTypeId);
    PlacedNameNoParquet(directory, body);
  }

  // ---------------------------------------------------------------------
  // Paging over an exchange endpoint

  /** The three fetch calls: `fetch_ohlcv` with its timeframe (and its length
      in milliseconds), `fetch_trades` and `fetch_funding_rate_history`. */
  datatype Endpoint = Ohlcv(timeframe: string, timeframeMs: int) | TradeHistory | FundingHistory

  /** One call: endpoint, symbol, `since` and the optional `limit`. */
  datatype Request = Request(endpoint: Endpoint, symbol: string, since: int, limit: Option<int>)

  /** A candle length must be positive: the limit divides by it. */
  predicate ValidEndpoint(endpoint: Endpoint)
  {
    endpoint.Ohlcv? ==> endpoint.timeframeMs > 0
  }

  /** The exchange's answers, modelled as a function of the request. The last
      record of a non-empty page is never before `since`, so the cursor moves
      forward after every page. */
  ghost predicate Progressing(provider: Request -> seq<Row>)
  {
    forall r :: |provider(r)| > 0 ==> provider(r)[|provider(r)| - 1].ts >= r.since
  }

  /** The `limit` of a request made at `current` with `end` still ahead:
      enough candles to reach `end`, 1000 trades, and none for funding. */
  function PageLimit(endpoint: Endpoint, current: int, end: int): Option<int>
    requires ValidEndpoint(endpoint) && current < end
  {
    match endpoint
    case Ohlcv(_, ms) => Some((end - current) / ms + 1)
    case TradeHistory => Some(1000)
    case FundingHistory => None
  }

  /** A candle request asks for just enough candles of the timeframe to span
      what is left of the window. */
  lemma PageLimitSpansWindow(timeframe: string, ms: int, current: int, end: int)
    requires ms > 0 && current < end
    ensures var limit := PageLimit(Ohlcv(timeframe, ms), current, end);
      && limit.Some? && limit.value >= 1
      && (limit.value - 1) * ms <= end - current < limit.value * ms
  {
    var q := (end - current) / ms;
    assert q * ms <= end - current < (q + 1) * ms;
  }

  /** The request the loop makes at `current`. */
  function PageRequest(endpoint: Endpoint, symbol: string, current: int, end: int): (req: Request)
    requires ValidEndpoint(endpoint) && current < end
    ensures req.since == current
  {
    Request(endpoint, symbol, current, PageLimit(endpoint, current, end))
  }

  /** `data[-1][0] + 1`: the cursor after a non-empty page. */
  function NextCursor(page: seq<Row>): int
    requires |page| > 0
  {
    page[|page| - 1].ts + 1
  }

  /** The requests sent and the records gathered by the paging loop. */
  datatype Fetched = Fetched(requests: seq<Request>, rows: seq<Row>)

  /** The paging loop from `current` up to `end`: each page is appended and
      the cursor moves past its last record; an empty page ends the loop. */
  function Paged(provider: Request -> seq<Row>, endpoint: Endpoint, symbol: string,
                 current: int, end: int): Fetched
    requires Progressing(provider) && ValidEndpoint(endpoint)
    decreases end - current
  {
    if current >= end then Fetched([], [])
    else
      var req := PageRequest(endpoint, symbol, current, end);
      var page := provider(req);
      if |page| == 0 then Fetched([req], [])
      else
        var rest := Paged(provider, endpoint, symbol, NextCursor(page), end);
        Fetched([req] + rest.requests, page + rest.rows)
  }

  /** One turn of the paging loop. */
  lemma PagedStep(provider: Request -> seq<Row>, endpoint: Endpoint, symbol: string,
                  current: int, end: int)
    requires Progressing(provider) && ValidEndpoint(endpoint) && current < end
    ensures var req := PageRequest(endpoint, symbol, current, end);
      var page := provider(req);
      var here := Paged(provider, endpoint, symbol, current, end);
      && (|page| == 0 ==> here == Fetched([req], []))
      && (|page| > 0 ==>
            var rest := Paged(provider, endpoint, symbol, NextCursor(page), end);
            NextCursor(page) > current && here == Fetched([req] + rest.requests, page + rest.rows))
  {
  }

  /** Every request of the loop is the one built at its own cursor, and the
      cursors lie in [current, end); the first cursor is `current`, and there
      is a request exactly when the window is not empty. */
  lemma {:induction false} PagedRequestsInWindow(provider: Request -> seq<Row>, endpoint: Endpoint,
                                                 symbol: string, current: int, end: int)
    requires Progressing(provider) && ValidEndpoint(endpoint)
    ensures var reqs := Paged(provider, endpoint, symbol, current, end).requests;
      && (|reqs| > 0 <==> current < end)
      && (|reqs| > 0 ==> reqs[0].since == current)
      && forall i :: 0 <= i < |reqs| ==>
           current <= reqs[i].since < end && reqs[i] == PageRequest(endpoint, symbol, reqs[i].since, end)
    decreases end - current
  {
    if current < end {
      PagedStep(provider, endpoint, symbol, current, end);
      var page := provider(PageRequest(endpoint, symbol, current, end));
      if |page| > 0 {
        var reqs := Paged(provider, endpoint, symbol, current, end).requests;
        var rest := Paged(provider, endpoint, symbol, NextCursor(page), end).requests;
        PagedRequestsInWindow(provider, endpoint, symbol, NextCursor(page), end);
        forall i | 0 <= i < |reqs|
          ensures current <= reqs[i].since < end
          ensures reqs[i] == PageRequest(endpoint, symbol, reqs[i].since, end)
        {
          if i > 0 {
            assert reqs[i] == rest[i - 1];
          }
        }
      }
    }
  }

  /** Each request after the first starts one millisecond past the last
      record of the page before it, which was not empty; after the last
      request the page was empty or the cursor reached `end`. */
  lemma {:induction false} PagedRequestsChained(provider: Request -> seq<Row>, endpoint: Endpoint,
                                                symbol: string, current: int, end: int)
    requires Progressing(provider) && ValidEndpoint(endpoint)
    ensures var reqs := Paged(provider, endpoint, symbol, current, end).requests;
      && (forall i :: 0 <= i < |reqs| - 1 ==>
            |provider(reqs[i])| > 0 && reqs[i + 1].since == NextCursor(provider(reqs[i])))
      && (|reqs| > 0 ==> var last := provider(reqs[|reqs| - 1]);
            |last| == 0 || NextCursor(last) >= end)
    decreases end - current
  {
    if current < end {
      PagedStep(provider, endpoint, symbol, current, end);
      var req := PageRequest(endpoint, symbol, current, end);
      var page := provider(req);
      if |page| > 0 {
        var next := NextCursor(page);
        var reqs := Paged(provider, endpoint, symbol, current, end).requests;
        var rest := Paged(provider, endpoint, symbol, next, end).requests;
        PagedRequestsChained(provider, endpoint, symbol, next, end);
        PagedRequestsInWindow(provider, endpoint, symbol, next, end);
        assert reqs == [req] + rest;
        forall i | 0 <= i < |reqs| - 1
          ensures |provider(reqs[i])| > 0 && reqs[i + 1].since == NextCursor(provider(reqs[i]))
        {
          if i > 0 {
            assert reqs[i] == rest[i - 1] && reqs[i + 1] == rest[i];
          }
        }
        if rest != [] {
          assert reqs[|reqs| - 1] == rest[|rest| - 1];
        }
      }
    }
  }

  /** The pages the exchange returns for the given requests, one after the other. */
  function Responses(provider: Request -> seq<Row>, reqs: seq<Request>): seq<Row>
  {
    if reqs == [] then [] else provider(reqs[0]) + Responses(provider, reqs[1..])
  }

  /** The records gathered are exactly the answers to the requests sent, in order. */
  lemma {:induction false} PagedRowsAreResponses(provider: Request -> seq<Row>, endpoint: Endpoint,
                                                 symbol: string, current: int, end: int)
    requires Progressing(provider) && ValidEndpoint(endpoint)
    ensures var f := Paged(provider, endpoint, symbol, current, end);
      f.rows == Responses(provider, f.requests)
    decreases end - current
  {
    if current < end {
      PagedStep(provider, endpoint, symbol, current, end);
      var req := PageRequest(endpoint, symbol, current, end);
      var page := provider(req);
      if |page| > 0 {
        var rest := Paged(provider, endpoint, symbol, NextCursor(page), end);
        PagedRowsAreResponses(provider, endpoint, symbol, NextCursor(page), end);
        assert ([req] + rest.requests)[1..] == rest.requests;
      } else {
        assert [req][1..] == [];
      }
    }
  }

  /** One turn of the paging loop keeps "gathered so far, then the rest of
      the loop" equal to the whole loop. */
  lemma PagedAdvance(provider: Request -> seq<Row>, endpoint: Endpoint, symbol: string,
                     current: int, end: int, sent: seq<Request>, data: seq<Row>, all: Fetched)
    requires Progressing(provider) && ValidEndpoint(endpoint) && current < end
    requires sent + Paged(provider, endpoint, symbol, current, end).requests == all.requests
    requires data + Paged(provider, endpoint, symbol, current, end).rows == all.rows
    ensures var req := PageRequest(endpoint, symbol, current, end);
      var page := provider(req);
      && (|page| == 0 ==> sent + [req] == all.requests && data == all.rows)
      && (|page| > 0 ==>
            var rest := Paged(provider, endpoint, symbol, NextCursor(page), end);
            && NextCursor(page) > current
            && (sent + [req]) + rest.requests == all.requests
            && (data + page) + rest.rows == all.rows)
  {
    PagedStep(provider, endpoint, symbol, current, end);
    var req := PageRequest(endpoint, symbol, current, end);
    var page := provider(req);
    if |page| > 0 {
      var rest := Paged(provider, endpoint, symbol, NextCursor(page), end);
      ConcatAssoc(sent, [req], rest.requests);
      ConcatAssoc(data, page, rest.rows);
    }
  }

  /** A ccxt exchange: its name, its answers and the log of calls made to it. */
  class Exchange {
    const name: string
    const provider: Request -> seq<Row>
    var log: seq<Request>

    constructor (name: string, provider: Request -> seq<Row>)
      ensures this.name == name && this.provider == provider && log == []
    {
      this.name := name;
      this.provider := provider;
      log := [];
    }

    /** One awaited fetch call. */
    method Fetch(req: Request) returns (page: seq<Row>)
      modifies this
      ensures page == provider(req)
      ensures log == old(log) + [req]
    {
      page := provider(req);
      log := log + [req];
    }
  }

  /** The `while current_ts < end_ts` loop of the three helpers. */
  method Paginate(ex: Exchange, endpoint: Endpoint, symbol: string, startTs: int, endTs: int)
    returns (data: seq<Row>)
    requires Progressing(ex.provider) && ValidEndpoint(endpoint)
    modifies ex
    ensures data == Paged(ex.provider, endpoint, symbol, startTs, endTs).rows
    ensures ex.log == old(ex.log) + Paged(ex.provider, endpoint, symbol, startTs, endTs).requests
  {
    ghost var p := ex.provider;
    ghost var all := Paged(p, endpoint, symbol, startTs, endTs);
    data := [];
    var current := startTs;
    ghost var sent: seq<Request> := [];
    while current < endTs
      invariant ex.log == old(ex.log) + sent
      invariant sent + Paged(p, endpoint, symbol, current, endTs).requests == all.requests
      invariant data + Paged(p, endpoint, symbol, current, endTs).rows == all.rows
      decreases endTs - current
    {
      var req := PageRequest(endpoint, symbol, current, endTs);
      var page := ex.Fetch(req);
      PagedAdvance(p, endpoint, symbol, current, endTs, sent, data, all);
      sent := sent + [req];
      if |page| < 1 {
        break;
      }
      data := data + page;
      current := NextCursor(page);
    }
  }

  // ---------------------------------------------------------------------
  // One partition: _candle_helper, _trades_helper, _funding_helper

  /** `df.loc[(start_ts <= ts) & (ts < end_ts)]`: the records inside the window,
      in their order. */
  function InWindow(rows: seq<Row>, startTs: int, endTs: int): seq<Row>
  {
    if rows == [] then []
    else (if startTs <= rows[0].ts < endTs then [rows[0]] else []) + InWindow(rows[1..], startTs, endTs)
  }

  /** A record is kept exactly when it was fetched and lies in the window. */
  lemma {:induction false} InWindowMembership(rows: seq<Row>, startTs: int, endTs: int, y: Row)
    ensures y in InWindow(rows, startTs, endTs) <==> y in rows && startTs <= y.ts < endTs
    decreases |rows|
  {
    if rows != [] {
      InWindowMembership(rows[1..], startTs, endTs, y);
      assert rows == [rows[0]] + rows[1..];
    }
  }

  /** The filter works record by record, so it keeps the order of the pages. */
  lemma {:induction false} InWindowConcat(a: seq<Row>, b: seq<Row>, startTs: int, endTs: int)
    ensures InWindow(a + b, startTs, endTs) == InWindow(a, startTs, endTs) + InWindow(b, startTs, endTs)
    decreases |a|
  {
    if a == [] {
      assert a + b == b;
    } else {
      assert (a + b)[0] == a[0];
      assert (a + b)[1..] == a[1..] + b;
      InWindowConcat(a[1..], b, startTs, endTs);
      var head := if startTs <= a[0].ts < endTs then [a[0]] else [];
      ConcatAssoc(head, InWindow(a[1..], startTs, endTs), InWindow(b, startTs, endTs));
    }
  }

  /** The meta columns appended to every record of a table. */
  function WithMeta(rows: seq<Row>, meta: seq<string>): seq<Row>
  {
    seq(|rows|, i requires 0 <= i < |rows| => Row(rows[i].ts, rows[i].cols + meta))
  }

  /** A partition task: the endpoint, the symbol, and the window
      [start, start + window) in milliseconds. */
  datatype Job = Job(endpoint: Endpoint, symbol: string, start: int, window: int)

  /** The `data_type` of the file name: `CANDLES`, `TRADES` or `FUNDING`. */
  function DataTypeName(endpoint: Endpoint): string
  {
    match endpoint
    case Ohlcv(_, _) => "candles"
    case TradeHistory => "trades"
    case FundingHistory => "funding"
  }

  /** The `data_type_id` of the file name: the timeframe for candles. */
  function DataTypeId(endpoint: Endpoint): Option<string>
  {
    if endpoint.Ohlcv? then Some(endpoint.timeframe) else None
  }

  /** The file of a partition: the helpers pass `exchange.name.lower()`. */
  function JobFile(exchangeName: string, directory: string, job: Job): string
  {
    FileName(Lower(exchangeName), At(job.start), directory, job.symbol,
             DataTypeName(job.endpoint), DataTypeId(job.endpoint))
  }

  /** The meta columns: the lower-case exchange name, and the symbol for candles. */
  function MetaColumns(exchangeName: string, job: Job): seq<string>
  {
    if job.endpoint.Ohlcv? then [Lower(exchangeName), job.symbol] else [Lower(exchangeName)]
  }

  /** What became of a partition: skipped by the check, nothing in the
      window, or saved with these records. */
  datatype Outcome = Skipped | NoData | Saved(rows: seq<Row>)

  /** The outcome of a partition, the directory after it and the requests it sent. */
  datatype Step = Step(outcome: Outcome, files: map<string, seq<Row>>, requests: seq<Request>)

  /** One helper run on the partition file `name`. */
  function Partition(files: map<string, seq<Row>>, provider: Request -> seq<Row>,
                     exchangeName: string, name: string, job: Job): Step
    requires Progressing(provider) && ValidEndpoint(job.endpoint)
  {
    var after := AfterCheck(files, name);
    if !Proceeds(files, name) then Step(Skipped, after, [])
    else
      var end := job.start + job.window;
      var fetched := Paged(provider, job.endpoint, job.symbol, job.start, end);
      var kept := InWindow(fetched.rows, job.start, end);
      if |kept| == 0 then Step(NoData, after, fetched.requests)
      else
        var rows := WithMeta(kept, MetaColumns(exchangeName, job));
        Step(Saved(rows), after[name := rows], fetched.requests)
  }

  /** The body shared by the three helpers, once the file name is built. */
  method FetchPartition(disk: Disk, ex: Exchange, filename: string, job: Job)
    returns (outcome: Outcome)
    requires Progressing(ex.provider) && ValidEndpoint(job.endpoint)
    modifies disk, ex
    ensures var step := Partition(old(disk.files), ex.provider, ex.name, filename, job);
      && outcome == step.outcome && disk.files == step.files
      && ex.log == old(ex.log) + step.requests
  {
    var proceed := CheckToProceed(disk, filename);
    if !proceed {
      return Skipped;
    }
    var startTs := job.start;
    var endTs := job.start + job.window;
    var data := Paginate(ex, job.endpoint, job.symbol, startTs, endTs);
    var kept := InWindow(data, startTs, endTs);
    if |kept| == 0 {
      return NoData;
    }
    var rows := WithMeta(kept, MetaColumns(ex.name, job));
    disk.Write(filename, rows);
    return Saved(rows);
  }

  /** A partition is skipped exactly when its file exists and is not marked
      incomplete; a skipped partition sends no request. */
  lemma PartitionSkips(files: map<string, seq<Row>>, provider: Request -> seq<Row>,
                       exchangeName: string, name: string, job: Job)
    requires Progressing(provider) && ValidEndpoint(job.endpoint)
    ensures var step := Partition(files, provider, exchangeName, name, job);
      && (step.outcome.Skipped? <==> name in files && !Contains(name, Incomplete))
      && (step.outcome.Skipped? ==> step.requests == [] && step.files == AfterCheck(files, name))
      && (!step.outcome.Skipped? ==>
            step.requests == Paged(provider, job.endpoint, job.symbol, job.start,
                                   job.start + job.window).requests)
      && (step.outcome.NoData? ==> step.files == AfterCheck(files, name))
  {
  }

  /** A saved partition is not empty; each of its records lies in the window
      and is a record the exchange returned, with the meta columns appended. */
  lemma PartitionSavedRows(files: map<string, seq<Row>>, provider: Request -> seq<Row>,
                           exchangeName: string, name: string, job: Job)
    requires Progressing(provider) && ValidEndpoint(job.endpoint)
    ensures var step := Partition(files, provider, exchangeName, name, job);
      step.outcome.Saved? ==>
        var rows := step.outcome.rows;
        && |rows| > 0
        && step.files == AfterCheck(files, name)[name := rows]
        && forall i :: 0 <= i < |rows| ==>
             && job.start <= rows[i].ts < job.start + job.window
             && exists x :: x in Responses(provider, step.requests)
                  && rows[i] == Row(x.ts, x.cols + MetaColumns(exchangeName, job))
  {
    var step := Partition(files, provider, exchangeName, name, job);
    if step.outcome.Saved? {
      var end := job.start + job.window;
      var fetched := Paged(provider, job.endpoint, job.symbol, job.start, end);
      var kept := InWindow(fetched.rows, job.start, end);
      var rows := step.outcome.rows;
      PagedRowsAreResponses(provider, job.endpoint, job.symbol, job.start, end);
      forall i | 0 <= i < |rows|
        ensures job.start <= rows[i].ts < end
        ensures exists x :: x in Responses(provider, step.requests)
                  && rows[i] == Row(x.ts, x.cols + MetaColumns(exchangeName, job))
      {
        InWindowMembership(fetched.rows, job.start, end, kept[i]);
        assert kept[i] in kept;
      }
    }
  }

  /** A partition touches only its own file and that file's incomplete sibling. */
  lemma PartitionFrame(files: map<string, seq<Row>>, provider: Request -> seq<Row>,
                       exchangeName: string, name: string, job: Job, other: string)
    requires Progressing(provider) && ValidEndpoint(job.endpoint)
    requires other != name
    ensures var after := Partition(files, provider, exchangeName, name, job).files;
      && (other in after ==> other in files)
      && (other != IncompleteSibling(name) ==>
            && (other in after <==> other in files)
            && (other in files ==> after[other] == files[other]))
  {
  }

  /** Whether a task is one the three helpers can be called with: a positive
      candle length, and a one-day window for trades and funding. */
  predicate WellFormedJob(job: Job)
  {
    ValidEndpoint(job.endpoint) && (!job.endpoint.Ohlcv? ==> job.window == DayMs)
  }

  /** `_candle_helper`: one window of `windowLength` candles from `start`. */
  method CandleHelper(disk: Disk, ex: Exchange, directory: string, symbol: string, start: int,
                      windowLength: int, timeframe: string, timeframeMs: int)
    returns (outcome: Outcome)
    requires Progressing(ex.provider) && timeframeMs > 0
    modifies disk, ex
    ensures var job := Job(Ohlcv(timeframe, timeframeMs), symbol, start, windowLength);
      var step := Partition(old(disk.files), ex.provider, ex.name, JobFile(ex.name, directory, job), job);
      && outcome == step.outcome && disk.files == step.files
      && ex.log == old(ex.log) + step.requests
  {
    var job := Job(Ohlcv(timeframe, timeframeMs), symbol, start, windowLength);
    outcome := FetchPartition(disk, ex, JobFile(ex.name, directory, job), job);
  }

  /** `_trades_helper`: the trades of the day from `start`. */
  method TradesHelper(disk: Disk, ex: Exchange, directory: string, symbol: string, start: int)
    returns (outcome: Outcome)
    requires Progressing(ex.provider)
    modifies disk, ex
    ensures var job := Job(TradeHistory, symbol, start, DayMs);
      var step := Partition(old(disk.files), ex.provider, ex.name, JobFile(ex.name, directory, job), job);
      && outcome == step.outcome && disk.files == step.files
      && ex.log == old(ex.log) + step.requests
  {
    var job := Job(TradeHistory, symbol, start, DayMs);
    outcome := FetchPartition(disk, ex, JobFile(ex.name, directory, job), job);
  }

  /** `_funding_helper`: the funding rates of the day from `start`. */
  method FundingHelper(disk: Disk, ex: Exchange, directory: string, symbol: string, start: int)
    returns (outcome: Outcome)
    requires Progressing(ex.provider)
    modifies disk, ex
    ensures var job := Job(FundingHistory, symbol, start, DayMs);
      var step := Partition(old(disk.files), ex.provider, ex.name, JobFile(ex.name, directory, job), job);
      && outcome == step.outcome && disk.files == step.files
      && ex.log == old(ex.log) + step.requests
  {
    var job := Job(FundingHistory, symbol, start, DayMs);
    outcome := FetchPartition(disk, ex, JobFile(ex.name, directory, job), job);
  }

  /** For names the downloader builds from "."-free parts, an existing
      complete partition is skipped and its file deleted, so the next run
      fetches it again. */
  lemma CompletePartitionIsDeleted(files: map<string, seq<Row>>, provider: Request -> seq<Row>,
                                   exchangeName: string, directory: string, job: Job)
    requires Progressing(provider) && ValidEndpoint(job.endpoint)
    requires !Contains(Lower(exchangeName), ParquetExt) && !Contains(job.symbol, ParquetExt)
    requires job.endpoint.Ohlcv? ==> !Contains(job.endpoint.timeframe, ParquetExt)
    requires !Contains(directory, ParquetExt)
    requires var name := JobFile(exchangeName, directory, job);
      name in files && !Contains(name, Incomplete)
    ensures var name := JobFile(exchangeName, directory, job);
      var step := Partition(files, provider, exchangeName, name, job);
      && step.outcome == Skipped && step.requests == []
      && step.files == files - {name}
      && !Partition(step.files, provider, exchangeName, name, job).outcome.Skipped?
  {
    var name := JobFile(exchangeName, directory, job);
    LowerIdempotent(exchangeName);
    NoFirstCharNoMatch(DataTypeName(job.endpoint), ParquetExt);
    BuiltNameHasNoParquet(Lower(exchangeName), At(job.start), directory, job.symbol,
                          DataTypeName(job.endpoint), DataTypeId(job.endpoint));
    CheckRemovesCompleteFile(files, name);
  }

  // ---------------------------------------------------------------------
  // Task lists: candles, trades, funding

  /** A candle timeframe: its name (such as "1m"), its length in
      milliseconds, the window of one partition (`_timestep_from_timedelta`)
      and the alignment of an instant to a period (`_period_start`). */
  datatype Timeframe = Timeframe(name: string, ms: int, step: int, periodStart: int -> int)

  /** The alignment moves an instant back by less than one window. */
  ghost predicate ValidTimeframe(tf: Timeframe)
  {
    && tf.ms > 0 && tf.step > 0
    && forall t :: t - tf.step < tf.periodStart(t) <= t
  }

  /** The window starts of the candle loop from `current`: each next start is
      the aligned instant one window later. */
  function AlignedStarts(tf: Timeframe, current: int, end: int): seq<int>
    requires ValidTimeframe(tf)
    decreases end - current
  {
    if current < end then [current] + AlignedStarts(tf, tf.periodStart(current + tf.step), end)
    else []
  }

  /** f applied to the window starts of the candle loop. */
  function AlignedSteps<T>(f: int -> T, tf: Timeframe, current: int, end: int): seq<T>
    requires ValidTimeframe(tf)
    decreases end - current
  {
    if current < end then [f(current)] + AlignedSteps(f, tf, tf.periodStart(current + tf.step), end)
    else []
  }

  lemma {:induction false} AlignedStepsAt<T>(f: int -> T, tf: Timeframe, current: int, end: int)
    requires ValidTimeframe(tf)
    ensures var starts := AlignedStarts(tf, current, end);
      var steps := AlignedSteps(f, tf, current, end);
      |steps| == |starts| && forall i :: 0 <= i < |steps| ==> steps[i] == f(starts[i])
    decreases end - current
  {
    if current < end {
      var next := tf.periodStart(current + tf.step);
      AlignedStepsAt(f, tf, next, end);
      var starts := AlignedStarts(tf, current, end);
      var steps := AlignedSteps(f, tf, current, end);
      forall i | 0 <= i < |steps|
        ensures steps[i] == f(starts[i])
      {
        if i > 0 {
          assert steps[i] == AlignedSteps(f, tf, next, end)[i - 1];
          assert starts[i] == AlignedStarts(tf, next, end)[i - 1];
        }
      }
    }
  }

  /** The window starts begin at `current`, lie before `end`, increase, and
      each window reaches at least the next start; the last window reaches
      `end`. */
  lemma {:induction false} AlignedStartsShape(tf: Timeframe, current: int, end: int)
    requires ValidTimeframe(tf)
    ensures var s := AlignedStarts(tf, current, end);
      && (|s| > 0 <==> current < end)
      && (|s| > 0 ==> s[0] == current && s[|s| - 1] + tf.step >= end)
      && (forall i :: 0 <= i < |s| ==> current <= s[i] < end)
      && (forall i :: 0 <= i < |s| - 1 ==> s[i] < s[i + 1] <= s[i] + tf.step)
    decreases end - current
  {
    if current < end {
      var next := tf.periodStart(current + tf.step);
      var s := AlignedStarts(tf, current, end);
      var rest := AlignedStarts(tf, next, end);
      AlignedStartsShape(tf, next, end);
      assert s == [current] + rest;
      forall i | 0 <= i < |s| - 1
        ensures s[i] < s[i + 1] <= s[i] + tf.step
      {
        if i > 0 {
          assert s[i] == rest[i - 1];
        }
      }
      if rest != [] {
        assert s[|s| - 1] == rest[|rest| - 1];
      }
    }
  }

  /** The candle windows cover [current, end): every instant in it lies in
      the window of some start. */
  lemma {:induction false} AlignedWindowsCover(tf: Timeframe, current: int, end: int, t: int)
    requires ValidTimeframe(tf) && current <= t < end
    ensures var s := AlignedStarts(tf, current, end);
      exists i :: 0 <= i < |s| && s[i] <= t < s[i] + tf.step
    decreases end - current
  {
    var s := AlignedStarts(tf, current, end);
    if t < current + tf.step {
      AlignedStartsShape(tf, current, end);
      assert 0 < |s| && s[0] <= t < s[0] + tf.step;
    } else {
      var next := tf.periodStart(current + tf.step);
      AlignedWindowsCover(tf, next, end, t);
      var rest := AlignedStarts(tf, next, end);
      var i :| 0 <= i < |rest| && rest[i] <= t < rest[i] + tf.step;
      assert s == [current] + rest;
      assert s[i + 1] == rest[i];
    }
  }

  /** The candle task of the window from `start`. */
  function CandleJob(tf: Timeframe, symbol: string, start: int): Job
  {
    Job(Ohlcv(tf.name, tf.ms), symbol, start, tf.step)
  }

  /** The candle tasks of `candles(symbol, start_dt, end_dt)`. */
  function CandleJobs(tf: Timeframe, symbol: string, startDt: int, endDt: int): seq<Job>
    requires ValidTimeframe(tf)
  {
    AlignedSteps(t => CandleJob(tf, symbol, t), tf, tf.periodStart(startDt), endDt)
  }

  /** `candles(..., tasks=tasks)`: one task per aligned window, appended. */
  method CandleTasks(tasks: seq<Job>, tf: Timeframe, symbol: string, startDt: int, endDt: int)
    returns (out: seq<Job>)
    requires ValidTimeframe(tf)
    ensures out == tasks + CandleJobs(tf, symbol, startDt, endDt)
  {
    var f := t => CandleJob(tf, symbol, t);
    out := tasks;
    var current := tf.periodStart(startDt);
    while current < endDt
      invariant out + AlignedSteps(f, tf, current, endDt) == tasks + CandleJobs(tf, symbol, startDt, endDt)
      decreases endDt - current
    {
      var next := tf.periodStart(current + tf.step);
      assert AlignedSteps(f, tf, current, endDt) == [f(current)] + AlignedSteps(f, tf, next, endDt);
      ConcatAssoc(out, [f(current)], AlignedSteps(f, tf, next, endDt));
      out := out + [CandleJob(tf, symbol, current)];
      current := next;
    }
  }

  /** The daily task of a trades or funding endpoint from `start`. */
  function DailyJob(endpoint: Endpoint, symbol: string, start: int): Job
  {
    Job(endpoint, symbol, start, DayMs)
  }

  function DailyJobs(endpoint: Endpoint, symbol: string, startDt: int, endDt: int): seq<Job>
  {
    DaySteps(t => DailyJob(endpoint, symbol, t), startDt, endDt)
  }

  /** The day loop of `trades` and `funding`: one task per day, appended. */
  method DailyTasks(tasks: seq<Job>, endpoint: Endpoint, symbol: string, startDt: int, endDt: int)
    returns (out: seq<Job>)
    ensures out == tasks + DailyJobs(endpoint, symbol, startDt, endDt)
  {
    var f := t => DailyJob(endpoint, symbol, t);
    out := tasks;
    var current := startDt;
    while current < endDt
      invariant out + DaySteps(f, current, endDt) == tasks + DailyJobs(endpoint, symbol, startDt, endDt)
      decreases endDt - current
    {
      assert DaySteps(f, current, endDt) == [f(current)] + DaySteps(f, current + DayMs, endDt);
      ConcatAssoc(out, [f(current)], DaySteps(f, current + DayMs, endDt));
      out := out + [DailyJob(endpoint, symbol, current)];
      current := current + DayMs;
    }
  }

  /** The day tasks start at start + k days for each k with that instant
      before the end, in increasing order, one day long each. */
  lemma DailyJobsAt(endpoint: Endpoint, symbol: string, startDt: int, endDt: int, k: nat)
    requires k < DayCount(startDt, endDt)
    ensures |DailyJobs(endpoint, symbol, startDt, endDt)| == DayCount(startDt, endDt)
    ensures startDt + k * DayMs < endDt
    ensures DailyJobs(endpoint, symbol, startDt, endDt)[k] == Job(endpoint, symbol, startDt + k * DayMs, DayMs)
  {
    DayStepsAt(t => DailyJob(endpoint, symbol, t), startDt, endDt, k);
  }

  /** `trades(..., tasks=tasks)`. */
  method TradeTasks(tasks: seq<Job>, symbol: string, startDt: int, endDt: int)
    returns (out: seq<Job>)
    ensures out == tasks + DailyJobs(TradeHistory, symbol, startDt, endDt)
  {
    out := DailyTasks(tasks, TradeHistory, symbol, startDt, endDt);
  }

  /** `funding(..., tasks=tasks)`. */
  method FundingTasks(tasks: seq<Job>, symbol: string, startDt: int, endDt: int)
    returns (out: seq<Job>)
    ensures out == tasks + DailyJobs(FundingHistory, symbol, startDt, endDt)
  {
    out := DailyTasks(tasks, FundingHistory, symbol, startDt, endDt);
  }

  // ---------------------------------------------------------------------
  // download_async: collecting the tasks and running them

  /** The data types `candles`, `trades` and `funding`. */
  datatype DataType = Candles | Trades | Funding

  /** The data type an endpoint serves. */
  function KindOf(endpoint: Endpoint): DataType
  {
    match endpoint
    case Ohlcv(_, _) => Candles
    case TradeHistory => Trades
    case FundingHistory => Funding
  }

  /** The tasks one `method(symbol=symbol, ...)` call appends. */
  function JobsFor(dataType: DataType, tf: Timeframe, symbol: string, startDt: int, endDt: int): seq<Job>
    requires ValidTimeframe(tf)
  {
    match dataType
    case Candles => CandleJobs(tf, symbol, startDt, endDt)
    case Trades => DailyJobs(TradeHistory, symbol, startDt, endDt)
    case Funding => DailyJobs(FundingHistory, symbol, startDt, endDt)
  }

  /** f(x) for each x of xs, concatenated in order. */
  function ConcatMap<A, B>(f: A -> seq<B>, xs: seq<A>): seq<B>
  {
    if xs == [] then [] else ConcatMap(f, xs[..|xs| - 1]) + f(xs[|xs| - 1])
  }

  lemma {:induction false} ConcatMapMembership<A, B>(f: A -> seq<B>, xs: seq<A>, y: B)
    ensures y in ConcatMap(f, xs) <==> exists x :: x in xs && y in f(x)
    decreases |xs|
  {
    if xs != [] {
      var init, last := xs[..|xs| - 1], xs[|xs| - 1];
      ConcatMapMembership(f, init, y);
      assert xs == init + [last];
      if y in ConcatMap(f, xs) {
        if y in f(last) {
          assert last in xs;
        } else {
          var x :| x in init && y in f(x);
          assert x in xs;
        }
      }
    }
  }

  lemma {:induction false} ConcatMapConcat<A, B>(f: A -> seq<B>, a: seq<A>, b: seq<A>)
    ensures ConcatMap(f, a + b) == ConcatMap(f, a) + ConcatMap(f, b)
    decreases |b|
  {
    if b == [] {
      assert a + b == a;
    } else {
      var n := |b| - 1;
      ConcatMapConcat(f, a, b[..n]);
      assert (a + b)[..|a + b| - 1] == a + b[..n];
      assert (a + b)[|a + b| - 1] == b[n];
      ConcatAssoc(ConcatMap(f, a), ConcatMap(f, b[..n]), f(b[n]));
    }
  }

  /** The tasks of one data type, symbol by symbol. */
  function SymbolJobs(dataType: DataType, tf: Timeframe, symbols: seq<string>, startDt: int, endDt: int)
    : seq<Job>
    requires ValidTimeframe(tf)
  {
    ConcatMap(symbol => JobsFor(dataType, tf, symbol, startDt, endDt), symbols)
  }

  /** The task list of a download: data type by data type, then symbol by symbol. */
  function AllJobs(dataTypes: seq<DataType>, tf: Timeframe, symbols: seq<string>, startDt: int, endDt: int)
    : seq<Job>
    requires ValidTimeframe(tf)
  {
    ConcatMap(dataType => SymbolJobs(dataType, tf, symbols, startDt, endDt), dataTypes)
  }

  /** The `for datatype ... for symbol ...` loop of `download_async`. */
  method CollectTasks(dataTypes: seq<DataType>, tf: Timeframe, symbols: seq<string>,
                      startDt: int, endDt: int)
    returns (tasks: seq<Job>)
    requires ValidTimeframe(tf)
    ensures tasks == AllJobs(dataTypes, tf, symbols, startDt, endDt)
  {
    tasks := [];
    for a := 0 to |dataTypes|
      invariant tasks == AllJobs(dataTypes[..a], tf, symbols, startDt, endDt)
    {
      var dataType := dataTypes[a];
      ghost var before := tasks;
      for b := 0 to |symbols|
        invariant tasks == before + SymbolJobs(dataType, tf, symbols[..b], startDt, endDt)
      {
        ghost var mid := tasks;
        match dataType {
          case Candles => tasks := CandleTasks(tasks, tf, symbols[b], startDt, endDt);
          case Trades => tasks := TradeTasks(tasks, symbols[b], startDt, endDt);
          case Funding => tasks := FundingTasks(tasks, symbols[b], startDt, endDt);
        }
        assert symbols[..b + 1][..b] == symbols[..b];
        ConcatAssoc(before, SymbolJobs(dataType, tf, symbols[..b], startDt, endDt),
                    JobsFor(dataType, tf, symbols[b], startDt, endDt));
      }
      assert symbols[..|symbols|] == symbols;
      assert dataTypes[..a + 1][..a] == dataTypes[..a];
    }
    assert dataTypes[..|dataTypes|] == dataTypes;
  }

  /** Every task for one symbol is well formed, for that symbol and data type,
      and starts before the end date. */
  lemma JobsForShape(dataType: DataType, tf: Timeframe, symbol: string, startDt: int, endDt: int)
    requires ValidTimeframe(tf)
    ensures var jobs := JobsFor(dataType, tf, symbol, startDt, endDt);
      forall i :: 0 <= i < |jobs| ==>
        && WellFormedJob(jobs[i]) && jobs[i].symbol == symbol
        && KindOf(jobs[i].endpoint) == dataType && jobs[i].start < endDt
  {
    var jobs := JobsFor(dataType, tf, symbol, startDt, endDt);
    match dataType {
      case Candles =>
        var f := t => CandleJob(tf, symbol, t);
        var current := tf.periodStart(startDt);
        AlignedStepsAt(f, tf, current, endDt);
        AlignedStartsShape(tf, current, endDt);
      case Trades =>
        DayStepsLength(t => DailyJob(TradeHistory, symbol, t), startDt, endDt);
        forall i | 0 <= i < |jobs|
          ensures WellFormedJob(jobs[i]) && jobs[i].symbol == symbol
          ensures KindOf(jobs[i].endpoint) == dataType && jobs[i].start < endDt
        {
          DayStepsAt(t => DailyJob(TradeHistory, symbol, t), startDt, endDt, i);
        }
      case Funding =>
        DayStepsLength(t => DailyJob(FundingHistory, symbol, t), startDt, endDt);
        forall i | 0 <= i < |jobs|
          ensures WellFormedJob(jobs[i]) && jobs[i].symbol == symbol
          ensures KindOf(jobs[i].endpoint) == dataType && jobs[i].start < endDt
        {
          DayStepsAt(t => DailyJob(FundingHistory, symbol, t), startDt, endDt, i);
        }
    }
  }

  /** A task of one data type is in its list exactly when it is a task of one
      of the symbols. */
  lemma SymbolJobsMembership(dataType: DataType, tf: Timeframe, symbols: seq<string>,
                             startDt: int, endDt: int, job: Job)
    requires ValidTimeframe(tf)
    ensures job in SymbolJobs(dataType, tf, symbols, startDt, endDt) <==>
      exists symbol :: symbol in symbols && job in JobsFor(dataType, tf, symbol, startDt, endDt)
  {
    ConcatMapMembership(symbol => JobsFor(dataType, tf, symbol, startDt, endDt), symbols, job);
  }

  /** A task is in the download's list exactly when it is a task of one of
      the data types for one of the symbols. */
  lemma AllJobsMembership(dataTypes: seq<DataType>, tf: Timeframe, symbols: seq<string>,
                          startDt: int, endDt: int, job: Job)
    requires ValidTimeframe(tf)
    ensures job in AllJobs(dataTypes, tf, symbols, startDt, endDt) <==>
      exists dataType :: dataType in dataTypes && job in SymbolJobs(dataType, tf, symbols, startDt, endDt)
  {
    ConcatMapMembership(dataType => SymbolJobs(dataType, tf, symbols, startDt, endDt), dataTypes, job);
  }

  /** The tasks are grouped by data type, in the order the data types are
      given. */
  lemma AllJobsConcat(a: seq<DataType>, b: seq<DataType>, tf: Timeframe,
                      symbols: seq<string>, startDt: int, endDt: int)
    requires ValidTimeframe(tf)
    ensures AllJobs(a + b, tf, symbols, startDt, endDt)
      == AllJobs(a, tf, symbols, startDt, endDt) + AllJobs(b, tf, symbols, startDt, endDt)
  {
    ConcatMapConcat(dataType => SymbolJobs(dataType, tf, symbols, startDt, endDt), a, b);
  }

  /** Every task of a download is well formed, for one of the requested
      symbols and data types, and starts before the end date. */
  lemma AllJobsShape(dataTypes: seq<DataType>, tf: Timeframe, symbols: seq<string>,
                     startDt: int, endDt: int)
    requires ValidTimeframe(tf)
    ensures var jobs := AllJobs(dataTypes, tf, symbols, startDt, endDt);
      forall i :: 0 <= i < |jobs| ==>
        && WellFormedJob(jobs[i]) && jobs[i].symbol in symbols
        && KindOf(jobs[i].endpoint) in dataTypes && jobs[i].start < endDt
  {
    var jobs := AllJobs(dataTypes, tf, symbols, startDt, endDt);
    forall i | 0 <= i < |jobs|
      ensures WellFormedJob(jobs[i]) && jobs[i].symbol in symbols
      ensures KindOf(jobs[i].endpoint) in dataTypes && jobs[i].start < endDt
    {
      var job := jobs[i];
      AllJobsMembership(dataTypes, tf, symbols, startDt, endDt, job);
      var dataType :| dataType in dataTypes && job in SymbolJobs(dataType, tf, symbols, startDt, endDt);
      SymbolJobsMembership(dataType, tf, symbols, startDt, endDt, job);
      var symbol :| symbol in symbols && job in JobsFor(dataType, tf, symbol, startDt, endDt);
      var own := JobsFor(dataType, tf, symbol, startDt, endDt);
      JobsForShape(dataType, tf, symbol, startDt, endDt);
      var k :| 0 <= k < |own| && own[k] == job;
    }
  }

  /** The outcomes, the directory and the requests after running tasks in order. */
  datatype Run = Run(outcomes: seq<Outcome>, files: map<string, seq<Row>>, requests: seq<Request>)

  predicate AllWellFormed(jobs: seq<Job>)
  {
    forall i :: 0 <= i < |jobs| ==> WellFormedJob(jobs[i])
  }

  /** The tasks run one after the other, each on the directory the one
      before it left. */
  function RunJobs(files: map<string, seq<Row>>, provider: Request -> seq<Row>, exchangeName: string,
                   directory: string, jobs: seq<Job>): Run
    requires Progressing(provider) && AllWellFormed(jobs)
  {
    if jobs == [] then Run([], files, [])
    else
      var before := RunJobs(files, provider, exchangeName, directory, jobs[..|jobs| - 1]);
      var job := jobs[|jobs| - 1];
      var step := Partition(before.files, provider, exchangeName, JobFile(exchangeName, directory, job), job);
      Run(before.outcomes + [step.outcome], step.files, before.requests + step.requests)
  }

  /** One task: the helper its endpoint names. */
  method RunJob(disk: Disk, ex: Exchange, directory: string, job: Job) returns (outcome: Outcome)
    requires Progressing(ex.provider) && WellFormedJob(job)
    modifies disk, ex
    ensures var step := Partition(old(disk.files), ex.provider, ex.name, JobFile(ex.name, directory, job), job);
      && outcome == step.outcome && disk.files == step.files
      && ex.log == old(ex.log) + step.requests
  {
    match job.endpoint {
      case Ohlcv(timeframe, ms) =>
        outcome := CandleHelper(disk, ex, directory, job.symbol, job.start, job.window, timeframe, ms);
      case TradeHistory =>
        outcome := TradesHelper(disk, ex, directory, job.symbol, job.start);
      case FundingHistory =>
        outcome := FundingHelper(disk, ex, directory, job.symbol, job.start);
    }
  }

  /** `asyncio.gather(*tasks)`, with the tasks run one after the other in
      the order of the list. */
  method RunTasks(disk: Disk, ex: Exchange, directory: string, tasks: seq<Job>)
    returns (outcomes: seq<Outcome>)
    requires Progressing(ex.provider) && AllWellFormed(tasks)
    modifies disk, ex
    ensures var run := RunJobs(old(disk.files), ex.provider, ex.name, directory, tasks);
      && outcomes == run.outcomes && disk.files == run.files
      && ex.log == old(ex.log) + run.requests
  {
    outcomes := [];
    for i := 0 to |tasks|
      invariant AllWellFormed(tasks[..i])
      invariant var run := RunJobs(old(disk.files), ex.provider, ex.name, directory, tasks[..i]);
        && outcomes == run.outcomes && disk.files == run.files
        && ex.log == old(ex.log) + run.requests
    {
      ghost var run := RunJobs(old(disk.files), ex.provider, ex.name, directory, tasks[..i]);
      ghost var step := Partition(run.files, ex.provider, ex.name, JobFile(ex.name, directory, tasks[i]), tasks[i]);
      RunJobsSnoc(old(disk.files), ex.provider, ex.name, directory, tasks, i);
      var outcome := RunJob(disk, ex, directory, tasks[i]);
      outcomes := outcomes + [outcome];
      ConcatAssoc(old(ex.log), run.requests, step.requests);
    }
    assert tasks[..|tasks|] == tasks;
  }

  /** Running one more task extends the run by that task's partition. */
  lemma RunJobsSnoc(files: map<string, seq<Row>>, provider: Request -> seq<Row>, exchangeName: string,
                    directory: string, tasks: seq<Job>, i: nat)
    requires Progressing(provider) && AllWellFormed(tasks) && i < |tasks|
    ensures AllWellFormed(tasks[..i]) && AllWellFormed(tasks[..i + 1])
    ensures var before := RunJobs(files, provider, exchangeName, directory, tasks[..i]);
      var step := Partition(before.files, provider, exchangeName, JobFile(exchangeName, directory, tasks[i]), tasks[i]);
      RunJobs(files, provider, exchangeName, directory, tasks[..i + 1])
        == Run(before.outcomes + [step.outcome], step.files, before.requests + step.requests)
  {
    assert tasks[..i + 1][..i] == tasks[..i];
  }

  /** `download_async`: collect the tasks of every data type and symbol,
      then run them all. */
  method DownloadAsync(disk: Disk, ex: Exchange, dataTypes: seq<DataType>, symbols: seq<string>,
                       startDt: int, endDt: int, tf: Timeframe, directory: string)
    returns (outcomes: seq<Outcome>)
    requires Progressing(ex.provider) && ValidTimeframe(tf)
    modifies disk, ex
    ensures var jobs := AllJobs(dataTypes, tf, symbols, startDt, endDt);
      AllWellFormed(jobs) &&
      var run := RunJobs(old(disk.files), ex.provider, ex.name, directory, jobs);
      && outcomes == run.outcomes && disk.files == run.files
      && ex.log == old(ex.log) + run.requests
  {
    var tasks := CollectTasks(dataTypes, tf, symbols, startDt, endDt);
    AllJobsShape(dataTypes, tf, symbols, startDt, endDt);
    outcomes := RunTasks(disk, ex, directory, tasks);
  }

  /** A run reports one outcome per task. */
  lemma {:induction false} RunJobsOutcomes(files: map<string, seq<Row>>, provider: Request -> seq<Row>,
                                           exchangeName: string, directory: string, jobs: seq<Job>)
    requires Progressing(provider) && AllWellFormed(jobs)
    ensures |RunJobs(files, provider, exchangeName, directory, jobs).outcomes| == |jobs|
  {
    if jobs != [] {
      RunJobsOutcomes(files, provider, exchangeName, directory, jobs[..|jobs| - 1]);
    }
  }

  /** A run leaves alone every file that is neither a task's file nor the
      incomplete sibling of one. */
  lemma {:induction false} RunJobsFrame(files: map<string, seq<Row>>, provider: Request -> seq<Row>,
                                        exchangeName: string, directory: string, jobs: seq<Job>, other: string)
    requires Progressing(provider) && AllWellFormed(jobs)
    requires forall i :: 0 <= i < |jobs| ==>
      var name := JobFile(exchangeName, directory, jobs[i]);
      other != name && other != IncompleteSibling(name)
    ensures var after := RunJobs(files, provider, exchangeName, directory, jobs).files;
      && (other in after <==> other in files)
      && (other in files ==> after[other] == files[other])
  {
    if jobs != [] {
      var init := jobs[..|jobs| - 1];
      var job := jobs[|jobs| - 1];
      assert forall i :: 0 <= i < |init| ==> init[i] == jobs[i];
      RunJobsFrame(files, provider, exchangeName, directory, init, other);
      var before := RunJobs(files, provider, exchangeName, directory, init);
      PartitionFrame(before.files, provider, exchangeName, JobFile(exchangeName, directory, job), job, other);
    }
  }

  /** Every file present after a run was there before it or is the file of
      one of the tasks. */
  lemma {:induction false} RunJobsOrigin(files: map<string, seq<Row>>, provider: Request -> seq<Row>,
                                         exchangeName: string, directory: string, jobs: seq<Job>, name: string)
    requires Progressing(provider) && AllWellFormed(jobs)
    requires name in RunJobs(files, provider, exchangeName, directory, jobs).files
    ensures name in files || exists i :: 0 <= i < |jobs| && name == JobFile(exchangeName, directory, jobs[i])
  {
    if jobs != [] {
      var init := jobs[..|jobs| - 1];
      var job := jobs[|jobs| - 1];
      assert forall i :: 0 <= i < |init| ==> init[i] == jobs[i];
      var before := RunJobs(files, provider, exchangeName, directory, init);
      var own := JobFile(exchangeName, directory, job);
      if name == own {
        assert jobs[|jobs| - 1] == job;
      } else {
        PartitionFrame(before.files, provider, exchangeName, own, job, name);
        RunJobsOrigin(files, provider, exchangeName, directory, init, name);
      }
    }
  }

  /** Run one after the other, a task listed twice saves its file and then,
      on the second run, finds that complete file, skips and deletes it. */
  lemma DuplicateJobDeletes(files: map<string, seq<Row>>, provider: Request -> seq<Row>,
                            exchangeName: string, directory: string, job: Job)
    requires Progressing(provider) && WellFormedJob(job)
    requires !Contains(Lower(exchangeName), ParquetExt) && !Contains(job.symbol, ParquetExt)
    requires job.endpoint.Ohlcv? ==> !Contains(job.endpoint.timeframe, ParquetExt)
    requires !Contains(directory, ParquetExt)
    requires !Contains(JobFile(exchangeName, directory, job), Incomplete)
    requires Partition(files, provider, exchangeName, JobFile(exchangeName, directory, job), job).outcome.Saved?
    ensures AllWellFormed([job, job])
    ensures JobFile(exchangeName, directory, job) !in RunJobs(files, provider, exchangeName, directory, [job, job]).files
  {
    var name := JobFile(exchangeName, directory, job);
    var first := Partition(files, provider, exchangeName, name, job);
    var jobs := [job, job];
    assert AllWellFormed(jobs);
    assert jobs[..0] == [] && jobs[..2] == jobs && jobs[0] == job && jobs[1] == job;
    RunJobsSnoc(files, provider, exchangeName, directory, jobs, 0);
    RunJobsSnoc(files, provider, exchangeName, directory, jobs, 1);
    PartitionSavedHasFile(files, provider, exchangeName, name, job);
    CompletePartitionIsDeleted(first.files, provider, exchangeName, directory, job);
  }

  /** A saved partition leaves its file in the directory. */
  lemma PartitionSavedHasFile(files: map<string, seq<Row>>, provider: Request -> seq<Row>,
                              exchangeName: string, name: string, job: Job)
    requires Progressing(provider) && ValidEndpoint(job.endpoint)
    ensures Partition(files, provider, exchangeName, name, job).outcome.Saved? ==>
            name in Partition(files, provider, exchangeName, name, job).files
  {
  }
}
