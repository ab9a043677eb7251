/**
 * `parse_tokens`, `fetch_trades` and the script's entry point: for every
 * token, in the order listed, the date range is walked in weekly windows, one
 * `listtrades` call per window, each batch appended to the one output file of
 * the run.
 */
module Fetch {
  import opened Outcomes
  import opened Text
  import opened EnvFile
  import opened DateRange
  import opened Weekly
  import opened LunoApi
  import opened CsvOutput

  /** `parse_tokens(s)`: `[token.strip() for token in s.split(",")]`. */
  function ParseTokens(s: string): (tokens: seq<string>)
    ensures |tokens| == Count(s, ',') + 1 == |Split(s, ',')|
    ensures forall k :: 0 <= k < |tokens| ==> tokens[k] == Strip(Split(s, ',')[k])
  {
    var pieces := Split(s, ',');
    SplitCount(s, ',');
    seq(|pieces|, k requires 0 <= k < |pieces| => Strip(pieces[k]))
  }

  /** No token has whitespace at either end. */
  lemma TokensStripped(s: string)
    ensures forall k :: 0 <= k < |ParseTokens(s)| ==> IsStripped(ParseTokens(s)[k])
  {
    var pieces := Split(s, ',');
    forall k | 0 <= k < |pieces| ensures IsStripped(Strip(pieces[k])) {
      StripSpec(pieces[k]);
    }
  }

  /**
   * Tokens written comma-separated are read back as the same list, in the same
   * order, empty entries included.
   */
  lemma ParseTokensJoin(tokens: seq<string>)
    requires |tokens| > 0
    requires forall k :: 0 <= k < |tokens| ==> IsStripped(tokens[k]) && ',' !in tokens[k]
    ensures ParseTokens(Join(tokens, ',')) == tokens
  {
    SplitJoin(tokens, ',');
    forall k | 0 <= k < |tokens| ensures Strip(tokens[k]) == tokens[k] {
      StripKeepsStripped(tokens[k]);
    }
  }

  /** An empty entry between two commas is kept, not dropped. */
  lemma EmptyTokenKept()
    ensures ParseTokens("A,,B") == ["A", "", "B"]
  {
    assert Join(["A", "", "B"], ',') == "A,,B";
    ParseTokensJoin(["A", "", "B"]);
  }

  /** What `fetch_trades` reads from the environment and validates before its loops. */
  datatype Config = Config(tokens: seq<string>, currency: string, start: int, end: int)

  const NoneSplitMessage := "'NoneType' object has no attribute 'split'"

  /**
   * The first lines of `fetch_trades`, in their order: the token list (an unset
   * `TOKENS` raises), the currency (an unset one is formatted as "None"), then
   * the start date and the end date, each parsed and range-checked.
   */
  function Configure(env: Env, parse: string -> Option<int>, now: int, earliest: int)
    : (r: Result<Config, Failure>)
    ensures r.Ok? ==> "TOKENS" in env && r.value.tokens == ParseTokens(env["TOKENS"])
    ensures r.Ok? ==> ParseDate(Lookup(env, "START_DATE"), parse, now, earliest) == Ok(r.value.start)
    ensures r.Ok? ==> ParseDate(Lookup(env, "END_DATE"), parse, now, earliest) == Ok(r.value.end)
    ensures r.Ok? ==> earliest < r.value.start <= now && earliest < r.value.end <= now
    ensures r.Ok? ==> r.value.currency == (if "CURRENCY" in env then env["CURRENCY"] else "None")
    ensures "TOKENS" !in env ==> r == Err(Raised(NoneSplitMessage))
    ensures r.Ok? <==> "TOKENS" in env && ParseDate(Lookup(env, "START_DATE"), parse, now, earliest).Ok?
                                       && ParseDate(Lookup(env, "END_DATE"), parse, now, earliest).Ok?
    ensures "TOKENS" in env && ParseDate(Lookup(env, "START_DATE"), parse, now, earliest).Err?
            ==> r == Err(ParseDate(Lookup(env, "START_DATE"), parse, now, earliest).error)
    ensures "TOKENS" in env && ParseDate(Lookup(env, "START_DATE"), parse, now, earliest).Ok?
            && ParseDate(Lookup(env, "END_DATE"), parse, now, earliest).Err?
            ==> r == Err(ParseDate(Lookup(env, "END_DATE"), parse, now, earliest).error)
  {
    match Lookup(env, "TOKENS")
    case None => Err(Raised(NoneSplitMessage))
    case Some(tokensText) =>
      var tokens := ParseTokens(tokensText);
      var currency := if "CURRENCY" in env then env["CURRENCY"] else "None";
      match ParseDate(Lookup(env, "START_DATE"), parse, now, earliest)
      case Err(e) => Err(e)
      case Ok(start) =>
        match ParseDate(Lookup(env, "END_DATE"), parse, now, earliest)
        case Err(e) => Err(e)
        case Ok(end) => Ok(Config(tokens, currency, start, end))
  }

  /** `f"luno_trades_{current_time}.csv"`. */
  function FileName(runId: nat): string {
    "luno_trades_" + Decimal(runId) + ".csv"
  }

  /** Runs started at different seconds write different files. */
  lemma FileNamesDistinct(a: nat, b: nat)
    requires a != b
    ensures FileName(a) != FileName(b)
  {
    if FileName(a) == FileName(b) {
      var n := |"luno_trades_"|;
      assert |Decimal(a)| == |Decimal(b)|;
      assert Decimal(a) == FileName(a)[n..n + |Decimal(a)|];
      assert Decimal(b) == FileName(b)[n..n + |Decimal(b)|];
      DecimalInjective(a, b);
    }
  }

  /** The calls made for one token, one per window, in window order. */
  function TokenRequests(token: string, currency: string, ws: seq<(int, int)>): (ps: seq<Params>)
    ensures |ps| == |ws|
  {
    if ws == [] then []
    else
      var w := ws[|ws| - 1];
      TokenRequests(token, currency, ws[..|ws| - 1]) + [TradeParams(token, currency, w.0, w.1)]
  }

  /**
   * Every call of a run: the tokens in list order, each walking the same
   * windows (the walk restarts at `start` for every token).
   */
  function Requests(tokens: seq<string>, currency: string, ws: seq<(int, int)>): seq<Params> {
    if tokens == [] then []
    else Requests(tokens[..|tokens| - 1], currency, ws) + TokenRequests(tokens[|tokens| - 1], currency, ws)
  }

  lemma {:induction false} RequestsAppend(a: seq<string>, b: seq<string>, currency: string, ws: seq<(int, int)>)
    ensures Requests(a + b, currency, ws) == Requests(a, currency, ws) + Requests(b, currency, ws)
  {
    if b == [] {
      assert a + b == a;
    } else {
      var n := |b| - 1;
      var last := TokenRequests(b[n], currency, ws);
      assert (a + b)[..|a + b| - 1] == a + b[..n];
      assert (a + b)[|a + b| - 1] == b[n];
      calc {
        Requests(a + b, currency, ws);
        Requests(a + b[..n], currency, ws) + last;
        { RequestsAppend(a, b[..n], currency, ws); }
        Requests(a, currency, ws) + Requests(b[..n], currency, ws) + last;
        Requests(a, currency, ws) + (Requests(b[..n], currency, ws) + last);
      }
    }
  }

  /**
   * The `j`-th call for the `i`-th token is call number `i * |ws| + j`:
   * pair `token + currency`, the `j`-th window's bounds, limit 1000.
   */
  lemma {:induction false} RequestAt(tokens: seq<string>, currency: string, ws: seq<(int, int)>, i: nat, j: nat)
    requires i < |tokens| && j < |ws|
    ensures |Requests(tokens, currency, ws)| == |tokens| * |ws|
    ensures i * |ws| + j < |Requests(tokens, currency, ws)|
    ensures Requests(tokens, currency, ws)[i * |ws| + j] == Params(tokens[i] + currency, ws[j].0, ws[j].1, 1000)
  {
    var n := |tokens| - 1;
    var w := |ws|;
    var pre := Requests(tokens[..n], currency, ws);
    var last := TokenRequests(tokens[n], currency, ws);
    assert Requests(tokens, currency, ws) == pre + last;
    RequestsLength(tokens[..n], currency, ws);
    MulSucc(n, w);
    MulSucc(i, w);
    if i < n {
      RequestAt(tokens[..n], currency, ws, i, j);
      assert tokens[..n][i] == tokens[i];
      assert i * w + j < |pre| by {
        MulMonotone(i + 1, n, w);
      }
      ConcatAt(pre, last, i * w + j);
    } else {
      TokenRequestAt(tokens[i], currency, ws, j);
      assert (pre + last)[n * w + j] == last[j];
    }
  }

  lemma ConcatAt(a: seq<Params>, b: seq<Params>, k: nat)
    requires k < |a|
    ensures (a + b)[k] == a[k]
  {
  }

  lemma MulSucc(a: nat, b: nat)
    ensures (a + 1) * b == a * b + b
  {
  }

  lemma {:induction false} RequestsLength(tokens: seq<string>, currency: string, ws: seq<(int, int)>)
    ensures |Requests(tokens, currency, ws)| == |tokens| * |ws|
  {
    if tokens != [] {
      var n := |tokens| - 1;
      RequestsLength(tokens[..n], currency, ws);
      assert |tokens| * |ws| == n * |ws| + |ws|;
    }
  }

  lemma MulMonotone(a: nat, b: nat, c: nat)
    requires a <= b
    ensures a * c <= b * c
  {
  }

  /** Without windows no token yields any call. */
  lemma {:induction false} NoWindowsNoRequests(tokens: seq<string>, currency: string)
    ensures Requests(tokens, currency, []) == []
  {
    if tokens != [] {
      NoWindowsNoRequests(tokens[..|tokens| - 1], currency);
    }
  }

  /** Where a run stands: the output file's rows (`None`: not created) and the failure that stopped it, if any. */
  datatype Progress = Progress(file: Option<seq<Row>>, failure: Option<Failure>)

  /**
   * The calls made in order, each batch appended to the file; the first
   * failing call stops the run, leaving what was appended before it.
   */
  function Run(reqs: seq<Params>, api: Api, file: Option<seq<Row>>): Progress {
    if reqs == [] then Progress(file, None)
    else
      var p := Run(reqs[..|reqs| - 1], api, file);
      if p.failure.Some? then p else Step(p.file, TradesOf(api(reqs[|reqs| - 1])))
  }

  /** One call's effect on a run that has not failed: append its batch, or stop with its error. */
  function Step(file: Option<seq<Row>>, batch: Result<seq<Trade>, Failure>): Progress {
    match batch
    case Err(e) => Progress(file, Some(e))
    case Ok(trades) => Progress(Some(Appended(file, trades)), None)
  }

  lemma RunSnoc(reqs: seq<Params>, p: Params, api: Api, file: Option<seq<Row>>)
    requires Run(reqs, api, file).failure.None?
    ensures Run(reqs + [p], api, file) == Step(Run(reqs, api, file).file, TradesOf(api(p)))
  {
    assert (reqs + [p])[..|reqs|] == reqs;
  }

  /** Once a call has failed, nothing after it is sent or written. */
  lemma {:induction false} RunAfterFailure(a: seq<Params>, b: seq<Params>, api: Api, file: Option<seq<Row>>)
    requires Run(a, api, file).failure.Some?
    ensures Run(a + b, api, file) == Run(a, api, file)
  {
    if b == [] {
      assert a + b == a;
    } else {
      var n := |b| - 1;
      assert (a + b)[..|a + b| - 1] == a + b[..n];
      RunAfterFailure(a, b[..n], api, file);
    }
  }

  /** The batches a sequence of successful calls returns. */
  function Batches(reqs: seq<Params>, api: Api): seq<seq<Trade>>
    requires forall k :: 0 <= k < |reqs| ==> TradesOf(api(reqs[k])).Ok?
  {
    if reqs == [] then []
    else Batches(reqs[..|reqs| - 1], api) + [TradesOf(api(reqs[|reqs| - 1])).value]
  }

  /** When every call succeeds, the file receives every batch, in call order. */
  lemma {:induction false} RunAllSucceed(reqs: seq<Params>, api: Api, file: Option<seq<Row>>)
    requires forall k :: 0 <= k < |reqs| ==> TradesOf(api(reqs[k])).Ok?
    ensures Run(reqs, api, file) == Progress(AppendAll(file, Batches(reqs, api)), None)
  {
    if reqs != [] {
      var n := |reqs| - 1;
      var init := reqs[..n];
      assert forall k :: 0 <= k < n ==> init[k] == reqs[k];
      RunAllSucceed(init, api, file);
      var bs := Batches(reqs, api);
      assert bs[..|bs| - 1] == Batches(init, api);
    }
  }

  /**
   * The first failing call ends the run with its error; the file holds exactly
   * what the calls before it appended.
   */
  lemma RunStopsAtFirstFailure(reqs: seq<Params>, api: Api, file: Option<seq<Row>>, k: nat)
    requires k < |reqs| && TradesOf(api(reqs[k])).Err?
    requires forall k' :: 0 <= k' < k ==> TradesOf(api(reqs[k'])).Ok?
    ensures Run(reqs, api, file)
            == Progress(AppendAll(file, Batches(reqs[..k], api)), Some(TradesOf(api(reqs[k])).error))
  {
    var done := reqs[..k];
    assert forall k' :: 0 <= k' < k ==> done[k'] == reqs[k'];
    RunAllSucceed(done, api, file);
    assert reqs[..k + 1][..k] == done;
    assert reqs == reqs[..k + 1] + reqs[k + 1..];
    RunAfterFailure(reqs[..k + 1], reqs[k + 1..], api, file);
  }

  /** The files after the script's run of `fetch_trades`, and the failure that ended it, if any. */
  function FetchOutcome(env: Env, parse: string -> Option<int>, now: int, earliest: int, runId: nat,
                        api: Api, files: map<string, seq<Row>>): (map<string, seq<Row>>, Option<Failure>)
  {
    match Configure(env, parse, now, earliest)
    case Err(e) => (files, Some(e))
    case Ok(cfg) => RunOutcome(cfg, FileName(runId), api, files)
  }

  /** The files after the loops of `fetch_trades` with output file `name`, and the failure that ended them, if any. */
  function RunOutcome(cfg: Config, name: string, api: Api, files: map<string, seq<Row>>)
    : (map<string, seq<Row>>, Option<Failure>)
  {
    var p := Run(Requests(cfg.tokens, cfg.currency, Windows(cfg.start, cfg.end)), api, Lookup(files, name));
    (if p.file.Some? then files[name := p.file.value] else files, p.failure)
  }

  /** A run only ever touches its own output file. */
  lemma OnlyOwnFileChanges(env: Env, parse: string -> Option<int>, now: int, earliest: int, runId: nat,
                           api: Api, files: map<string, seq<Row>>)
    ensures FetchOutcome(env, parse, now, earliest, runId, api, files).0 - {FileName(runId)}
            == files - {FileName(runId)}
  {
  }

  /**
   * A configuration with `start >= end` makes no call: the run succeeds and no
   * file is created or changed.
   */
  lemma EmptyRangeChangesNothing(env: Env, parse: string -> Option<int>, now: int, earliest: int, runId: nat,
                                 api: Api, files: map<string, seq<Row>>)
    requires Configure(env, parse, now, earliest).Ok?
    requires Configure(env, parse, now, earliest).value.start >= Configure(env, parse, now, earliest).value.end
    ensures FetchOutcome(env, parse, now, earliest, runId, api, files) == (files, None)
  {
    var cfg := Configure(env, parse, now, earliest).value;
    WindowsChained(cfg.start, cfg.end);
    NoWindowsNoRequests(cfg.tokens, cfg.currency);
    var name := FileName(runId);
    if name in files {
      assert files[name := files[name]] == files;
    }
  }

  /**
   * When every call succeeds and the output file did not exist, it ends up
   * with exactly one header followed by every batch's rows, in call order.
   */
  lemma FreshRunOneHeader(env: Env, parse: string -> Option<int>, now: int, earliest: int, runId: nat,
                          api: Api, files: map<string, seq<Row>>)
    requires Configure(env, parse, now, earliest).Ok?
    requires FileName(runId) !in files
    requires var cfg := Configure(env, parse, now, earliest).value;
             var reqs := Requests(cfg.tokens, cfg.currency, Windows(cfg.start, cfg.end));
             reqs != [] && forall k :: 0 <= k < |reqs| ==> TradesOf(api(reqs[k])).Ok?
    ensures var cfg := Configure(env, parse, now, earliest).value;
            var reqs := Requests(cfg.tokens, cfg.currency, Windows(cfg.start, cfg.end));
            var out := FetchOutcome(env, parse, now, earliest, runId, api, files);
            && out.1 == None
            && FileName(runId) in out.0
            && out.0[FileName(runId)] == [Header] + AllRows(Batches(reqs, api))
  {
    var cfg := Configure(env, parse, now, earliest).value;
    var reqs := Requests(cfg.tokens, cfg.currency, Windows(cfg.start, cfg.end));
    RunAllSucceed(reqs, api, None);
    assert |Batches(reqs, api)| == |reqs| by { BatchesLength(reqs, api); }
    AppendAllFromNothing(Batches(reqs, api));
  }

  lemma {:induction false} BatchesLength(reqs: seq<Params>, api: Api)
    requires forall k :: 0 <= k < |reqs| ==> TradesOf(api(reqs[k])).Ok?
    ensures |Batches(reqs, api)| == |reqs|
  {
    if reqs != [] {
      var init := reqs[..|reqs| - 1];
      assert forall k :: 0 <= k < |init| ==> init[k] == reqs[k];
      BatchesLength(init, api);
    }
  }

  /** Call `j` of a token asks for window `j`. */
  lemma {:induction false} TokenRequestAt(token: string, currency: string, ws: seq<(int, int)>, j: nat)
    requires j < |ws|
    ensures TokenRequests(token, currency, ws)[j] == TradeParams(token, currency, ws[j].0, ws[j].1)
  {
    if j < |ws| - 1 {
      TokenRequestAt(token, currency, ws[..|ws| - 1], j);
    }
  }

  lemma {:induction false} TokenRequestsAppend(token: string, currency: string, a: seq<(int, int)>, b: seq<(int, int)>)
    ensures TokenRequests(token, currency, a + b) == TokenRequests(token, currency, a) + TokenRequests(token, currency, b)
  {
    var l := TokenRequests(token, currency, a + b);
    var r := TokenRequests(token, currency, a) + TokenRequests(token, currency, b);
    assert |l| == |r|;
    forall k | 0 <= k < |l| ensures l[k] == r[k] {
      TokenRequestAt(token, currency, a + b, k);
      if k < |a| {
        TokenRequestAt(token, currency, a, k);
        assert (a + b)[k] == a[k];
      } else {
        TokenRequestAt(token, currency, b, k - |a|);
        assert (a + b)[k] == b[k - |a|];
      }
    }
  }

  /**
   * The walk of one token from window start `since`, as the `while` loop of
   * `fetch_trades` performs it on a run that has not failed and whose file is
   * `file`: request the window `(since, min(since + week, end))`, stop on an
   * error, or append its batch and go on one millisecond past the window.
   */
  function Walk(token: string, currency: string, since: int, end: int, api: Api, file: Option<seq<Row>>): Progress
    decreases end - since
  {
    if since >= end then Progress(file, None)
    else
      var before := Min(since + WeekMs, end);
      match TradesOf(api(TradeParams(token, currency, since, before)))
      case Err(e) => Progress(file, Some(e))
      case Ok(trades) => Walk(token, currency, before + 1, end, api, Some(Appended(file, trades)))
  }

  /**
   * The walk makes exactly the token's calls, one per window in window order,
   * after the calls already made: the loop is the run of those calls.
   */
  lemma {:induction false} WalkIsRun(earlier: seq<Params>, token: string, currency: string, since: int, end: int,
                                     api: Api, prior: Option<seq<Row>>)
    requires Run(earlier, api, prior).failure.None?
    ensures Run(earlier + TokenRequests(token, currency, Windows(since, end)), api, prior)
            == Walk(token, currency, since, end, api, Run(earlier, api, prior).file)
    decreases end - since
  {
    if since >= end {
      assert earlier + TokenRequests(token, currency, Windows(since, end)) == earlier;
    } else {
      var before := Min(since + WeekMs, end);
      var p := TradeParams(token, currency, since, before);
      var rest := TokenRequests(token, currency, Windows(before + 1, end));
      FirstWindowCall(earlier, token, currency, since, end);
      RunSnoc(earlier, p, api, prior);
      if TradesOf(api(p)).Err? {
        RunAfterFailure(earlier + [p], rest, api, prior);
      } else {
        WalkIsRun(earlier + [p], token, currency, before + 1, end, api, prior);
      }
    }
  }

  /** A token's calls start with the call for its first window. */
  lemma FirstWindowCall(earlier: seq<Params>, token: string, currency: string, since: int, end: int)
    requires since < end
    ensures var before := Min(since + WeekMs, end);
            earlier + TokenRequests(token, currency, Windows(since, end))
            == (earlier + [TradeParams(token, currency, since, before)])
               + TokenRequests(token, currency, Windows(before + 1, end))
  {
    var before := Min(since + WeekMs, end);
    WindowsStep(since, end);
    TokenRequestsAppend(token, currency, [(since, before)], Windows(before + 1, end));
    assert TokenRequests(token, currency, [(since, before)]) == [TradeParams(token, currency, since, before)];
  }

  /**
   * The `while` loop of `fetch_trades` for one token: the window start is reset
   * to `start`; each window's batch is requested and appended to the file
   * `name` before the start moves one millisecond past the window. An error
   * ends the walk. Only the file `name` changes.
   */
  method FetchToken(fs: FileSystem, name: string, token: string, currency: string, start: int, end: int, api: Api)
    returns (failure: Option<Failure>)
    modifies fs
    ensures fs.files - {name} == old(fs.files) - {name}
    ensures name in old(fs.files) ==> name in fs.files
    ensures Walk(token, currency, start, end, api, Lookup(old(fs.files), name))
            == Progress(Lookup(fs.files, name), failure)
  {
    var since := start;
    while since < end
      invariant fs.files - {name} == old(fs.files) - {name}
      invariant name in old(fs.files) ==> name in fs.files
      invariant Walk(token, currency, start, end, api, Lookup(old(fs.files), name))
                == Walk(token, currency, since, end, api, Lookup(fs.files, name))
      decreases end - since
    {
      var before := Min(since + WeekMs, end);
      var batch := RequestTrades(token, currency, since, before, api);
      if batch.Err? {
        return Some(batch.error);
      }
      fs.Append(name, batch.value);
      since := before + 1;
    }
    failure := None;
  }

  /**
   * `fetch_trades`: the run identifier is taken once, before the loops, so
   * every batch of every token goes to the same file; the tokens are walked
   * one after the other, in list order. The first error ends the run.
   */
  method FetchTrades(fs: FileSystem, env: Env, parse: string -> Option<int>, now: int, earliest: int,
                     runId: nat, api: Api)
    returns (failure: Option<Failure>)
    modifies fs
    ensures (fs.files, failure) == FetchOutcome(env, parse, now, earliest, runId, api, old(fs.files))
  {
    var config := Configure(env, parse, now, earliest);
    if config.Err? {
      return Some(config.error);
    }
    failure := FetchAll(fs, config.value, FileName(runId), api);
  }

  /**
   * The tokens walked one after the other, in list order, each from the
   * configured start, all appending to the same file; a failed walk ends the run.
   */
  function WalkTokens(tokens: seq<string>, currency: string, start: int, end: int, api: Api,
                      file: Option<seq<Row>>): Progress
    decreases |tokens|
  {
    if tokens == [] then Progress(file, None)
    else
      var p := Walk(tokens[0], currency, start, end, api, file);
      if p.failure.Some? then p else WalkTokens(tokens[1..], currency, start, end, api, p.file)
  }

  /** Walking the tokens in turn is the run of every call of `Requests`, in order. */
  lemma {:induction false} WalkTokensIsRun(earlier: seq<Params>, tokens: seq<string>, currency: string,
                                           start: int, end: int, api: Api, prior: Option<seq<Row>>)
    requires Run(earlier, api, prior).failure.None?
    ensures Run(earlier + Requests(tokens, currency, Windows(start, end)), api, prior)
            == WalkTokens(tokens, currency, start, end, api, Run(earlier, api, prior).file)
    decreases |tokens|
  {
    var ws := Windows(start, end);
    if tokens == [] {
      assert earlier + Requests(tokens, currency, ws) == earlier;
    } else {
      var first := TokenRequests(tokens[0], currency, ws);
      var rest := Requests(tokens[1..], currency, ws);
      FirstTokenCalls(earlier, tokens, currency, ws);
      WalkIsRun(earlier, tokens[0], currency, start, end, api, prior);
      if Run(earlier + first, api, prior).failure.Some? {
        RunAfterFailure(earlier + first, rest, api, prior);
      } else {
        WalkTokensIsRun(earlier + first, tokens[1..], currency, start, end, api, prior);
      }
    }
  }

  /** The calls of a run start with those of its first token. */
  lemma FirstTokenCalls(earlier: seq<Params>, tokens: seq<string>, currency: string, ws: seq<(int, int)>)
    requires tokens != []
    ensures earlier + Requests(tokens, currency, ws)
            == (earlier + TokenRequests(tokens[0], currency, ws)) + Requests(tokens[1..], currency, ws)
  {
    assert tokens == [tokens[0]] + tokens[1..];
    RequestsAppend([tokens[0]], tokens[1..], currency, ws);
    assert [tokens[0]][..0] == [];
    assert Requests([tokens[0]], currency, ws) == TokenRequests(tokens[0], currency, ws);
  }

  /**
   * The two loops of `fetch_trades`, writing to the file `name`: the tokens
   * in list order, each walking the windows of the configured range.
   */
  method FetchAll(fs: FileSystem, cfg: Config, name: string, api: Api) returns (failure: Option<Failure>)
    modifies fs
    ensures (fs.files, failure) == RunOutcome(cfg, name, api, old(fs.files))
  {
    var tokens := cfg.tokens;
    ghost var prior := Lookup(fs.files, name);
    WalkTokensIsRun([], tokens, cfg.currency, cfg.start, cfg.end, api, prior);
    assert [] + Requests(tokens, cfg.currency, Windows(cfg.start, cfg.end))
           == Requests(tokens, cfg.currency, Windows(cfg.start, cfg.end));
    var i := 0;
    while i < |tokens|
      invariant 0 <= i <= |tokens|
      invariant fs.files - {name} == old(fs.files) - {name}
      invariant name in old(fs.files) ==> name in fs.files
      invariant WalkTokens(tokens, cfg.currency, cfg.start, cfg.end, api, prior)
                == WalkTokens(tokens[i..], cfg.currency, cfg.start, cfg.end, api, Lookup(fs.files, name))
    {
      assert tokens[i..][0] == tokens[i] && tokens[i..][1..] == tokens[i + 1..];
      failure := FetchToken(fs, name, tokens[i], cfg.currency, cfg.start, cfg.end, api);
      if failure.Some? {
        StoreBack(old(fs.files), fs.files, name);
        return;
      }
      i := i + 1;
    }
    failure := None;
    StoreBack(old(fs.files), fs.files, name);
  }

  /** Two directories that differ at most in `name` are related by storing `name`'s content. */
  lemma StoreBack(before: map<string, seq<Row>>, after: map<string, seq<Row>>, name: string)
    requires after - {name} == before - {name}
    requires name in before ==> name in after
    ensures after == (if name in after then before[name := after[name]] else before)
  {
    if name in after {
      var stored := before[name := after[name]];
      forall k | k in after ensures k in stored && stored[k] == after[k] {
        if k != name {
          assert k in after - {name};
        }
      }
      forall k | k in stored ensures k in after {
        if k != name {
          assert k in before - {name};
        }
      }
    } else {
      forall k | k in after ensures k in before && before[k] == after[k] {
        assert k in after - {name};
      }
      forall k | k in before ensures k in after {
        assert k in before - {name};
      }
    }
  }

  /**
   * The script: `load_env_file(".env")`, then `fetch_trades()` with the
   * environment it leaves. A missing `.env` skips validation, so an unset
   * variable is then only noticed by `fetch_trades` itself.
   */
  method RunScript(environ: Environ, fs: FileSystem, file: Option<seq<string>>, parse: string -> Option<int>,
                   now: int, earliest: int, runId: nat, api: Api)
    returns (failure: Option<Failure>)
    modifies environ, fs
    ensures LoadEnv(old(environ.vars), file).Err? ==>
              failure == Some(LoadEnv(old(environ.vars), file).error) && fs.files == old(fs.files)
    ensures LoadEnv(old(environ.vars), file).Ok? ==>
              environ.vars == LoadEnv(old(environ.vars), file).value
              && (fs.files, failure) == FetchOutcome(environ.vars, parse, now, earliest, runId, api, old(fs.files))
  {
    failure := environ.LoadEnvFile(file);
    if failure.Some? {
      return;
    }
    failure := FetchTrades(fs, environ.vars, parse, now, earliest, runId, api);
  }
}
