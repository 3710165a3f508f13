/** The two-source fallback chain of src/data/fallback_loader.py: range chunking and the per-ticker skip cache. */
module FallbackLoader {
  import opened Common
  import opened MoexLoader

  type Ticker = string

  /** A name in the chain's order; the chain resolves only the first two. */
  datatype Source = TinkoffGrpc | MoexIss | Unknown

  function SourceMaxLookback(source: Source): Option<nat> {
    if source.MoexIss? then Some(MAX_LOOKBACK) else None
  }

  // ------------------------------------------------------------------ chunking

  datatype Range = Range(lo: int, hi: int)

  /** The sub-ranges a window is split into, for a cap in days. */
  function Chunks(start: int, end: int, cap: nat): seq<Range>
    decreases end - start + 1
  {
    if start > end then []
    else var hi := IntMin(start + cap, end); [Range(start, hi)] + Chunks(hi + 1, end, cap)
  }

  function Before(bars: seq<Bar>, rest: Answer): Answer {
    if rest.Ok? then Ok(bars + rest.value) else rest
  }

  /** The answers for some ranges, joined in order; the first error wins. */
  function AskAll(ask: (int, int) -> Answer, ranges: seq<Range>): Answer {
    if ranges == [] then Ok([])
    else
      match ask(ranges[0].lo, ranges[0].hi)
      case Err(e) => Err(e)
      case Ok(bars) => Before(bars, AskAll(ask, ranges[1..]))
  }

  /** The ranges one source is asked for: the window itself if it is short enough for the source, backwards ones too. */
  function Ranges(start: int, end: int, cap: Option<nat>): seq<Range> {
    if cap.None? || end - start <= cap.value then [Range(start, end)] else Chunks(start, end, cap.value)
  }

  lemma BeforeSteps(a: seq<Bar>, b: seq<Bar>, rest: Answer)
    ensures Before(a, Before(b, rest)) == Before(a + b, rest)
    ensures rest.Err? ==> Before(a, rest) == rest
    ensures Before([], rest) == rest && Before(a, Ok([])) == Ok(a)
  {
    assert a + [] == a;
    assert rest.Ok? ==> a + (b + rest.value) == (a + b) + rest.value && [] + rest.value == rest.value;
  }

  lemma AskStep(ask: (int, int) -> Answer, lo: int, hi: int, ranges: seq<Range>)
    ensures AskAll(ask, [Range(lo, hi)] + ranges)
            == if ask(lo, hi).Ok? then Before(ask(lo, hi).value, AskAll(ask, ranges)) else ask(lo, hi)
  {
  }

  lemma AskOne(ask: (int, int) -> Answer, lo: int, hi: int)
    ensures AskAll(ask, [Range(lo, hi)]) == ask(lo, hi)
  {
    AskStep(ask, lo, hi, []);
    assert [Range(lo, hi)] + [] == [Range(lo, hi)];
    if ask(lo, hi).Ok? {
      BeforeSteps(ask(lo, hi).value, [], Ok([]));
    }
  }

  method IterSource(ask: (int, int) -> Answer, start: int, end: int, cap: Option<nat>) returns (answer: Answer)
    ensures answer == AskAll(ask, Ranges(start, end, cap))
  {
    if cap.None? || end - start <= cap.value {
      answer := ask(start, end);
      AskOne(ask, start, end);
      return;
    }
    var chunkStart := start;
    var bars: seq<Bar> := [];
    ghost var whole := AskAll(ask, Chunks(start, end, cap.value));
    BeforeSteps([], [], whole);
    while chunkStart <= end
      invariant whole == Before(bars, AskAll(ask, Chunks(chunkStart, end, cap.value)))
    {
      hide Before;
      var chunkEnd := IntMin(chunkStart + cap.value, end);
      var chunk := ask(chunkStart, chunkEnd);
      AskStep(ask, chunkStart, chunkEnd, Chunks(chunkEnd + 1, end, cap.value));
      if chunk.Err? {
        BeforeSteps(bars, [], chunk);
        return chunk;
      }
      BeforeSteps(bars, chunk.value, AskAll(ask, Chunks(chunkEnd + 1, end, cap.value)));
      bars := bars + chunk.value;
      chunkStart := chunkEnd + 1;
    }
    BeforeSteps(bars, [], Ok([]));
    return Ok(bars);
  }

  /**
   The chunks tile the window: they start at its start, end at its end, each begins the day after the one before,
   all but the last are as long as the cap allows, and none is longer. So each day of the window is in exactly one.
   */
  lemma {:induction false} ChunksTileTheWindow(start: int, end: int, cap: nat)
    requires start <= end
    ensures var c := Chunks(start, end, cap);
            && c != [] && c[0].lo == start && c[|c| - 1].hi == end
            && (forall i | 0 <= i < |c| :: c[i].lo <= c[i].hi && c[i].hi - c[i].lo <= cap)
            && (forall i | 0 <= i < |c| - 1 :: c[i + 1].lo == c[i].hi + 1 && c[i].hi - c[i].lo == cap)
    decreases end - start
  {
    var hi := IntMin(start + cap, end);
    if hi < end {
      ChunksTileTheWindow(hi + 1, end, cap);
    } else {
      assert Chunks(hi + 1, end, cap) == [];
    }
  }

  /** How many of the ranges a day falls into. */
  function Holding(ranges: seq<Range>, day: int): nat {
    if ranges == [] then 0
    else (if ranges[0].lo <= day <= ranges[0].hi then 1 else 0) + Holding(ranges[1..], day)
  }

  lemma {:induction false} EachDayIsInOneChunk(start: int, end: int, cap: nat, day: int)
    ensures Holding(Chunks(start, end, cap), day) == if start <= day <= end then 1 else 0
    decreases end - start + 1
  {
    if start <= end {
      var hi := IntMin(start + cap, end);
      EachDayIsInOneChunk(hi + 1, end, cap, day);
      assert Chunks(start, end, cap)[1..] == Chunks(hi + 1, end, cap);
    }
  }

  /** The exchange sends the bars in date order. */
  predicate DateOrdered(rows: seq<Row>) {
    forall i, j | 0 <= i < j < |rows| && rows[i].bar.Some? && rows[j].bar.Some? ::
      rows[i].bar.value.ts <= rows[j].bar.value.ts
  }

  lemma {:induction false} NoneEarlier(rows: seq<Row>, start: int, cut: int)
    requires forall i | 0 <= i < |rows| && rows[i].bar.Some? :: cut < rows[i].bar.value.ts
    ensures InWindow(rows, start, cut) == []
  {
    if rows != [] {
      NoneEarlier(rows[1..], start, cut);
    }
  }

  /** A window cut after a day is the two parts one after the other. */
  lemma {:induction false} WindowSplits(rows: seq<Row>, start: int, cut: int, end: int)
    requires DateOrdered(rows) && start <= cut + 1 && cut <= end
    ensures InWindow(rows, start, cut) + InWindow(rows, cut + 1, end) == InWindow(rows, start, end)
  {
    if rows != [] {
      var row, rest := rows[0], rows[1..];
      WindowSplits(rest, start, cut, end);
      var before, after := InWindow(rest, start, cut), InWindow(rest, cut + 1, end);
      if Picked(row, cut + 1, end) == [] {
        assert Picked(row, start, cut) == Picked(row, start, end);
        assert (Picked(row, start, cut) + before) + ([] + after) == Picked(row, start, cut) + (before + after);
      } else {
        NoneEarlier(rest, start, cut);
        assert Picked(row, start, cut) == [] && before == [];
        assert ([] + []) + (Picked(row, start, end) + after) == Picked(row, start, end) + ([] + after);
      }
    }
  }

  /** What the chain asks of the exchange's loader. */
  function AskMoex(server: Server, pageSize: nat): (int, int) -> Answer
    requires pageSize > 0
  {
    (lo, hi) => Bars(server, pageSize, lo, hi)
  }

  lemma {:induction false} EmptyWindow(rows: seq<Row>, start: int, end: int)
    requires start > end
    ensures InWindow(rows, start, end) == []
  {
    if rows != [] {
      EmptyWindow(rows[1..], start, end);
    }
  }

  lemma {:induction false} ChunksOfAFlatQuery(server: Server, start: int, end: int)
    requires server.cap > 0 && Honest(server) && DateOrdered(server.history)
    requires forall from, till :: AllUp(server, from, till)
    requires start <= end + 1
    ensures AskAll(AskMoex(server, server.cap), Chunks(start, end, MAX_LOOKBACK))
            == Ok(InWindow(server.history, start, end))
    decreases end - start + 1
  {
    var ask := AskMoex(server, server.cap);
    if start > end {
      EmptyWindow(server.history, start, end);
    } else {
      var hi := IntMin(start + MAX_LOOKBACK, end);
      assert AllUp(server, start, hi);
      RangeIsAFlatQuery(server, start, hi);
      ChunksOfAFlatQuery(server, hi + 1, end);
      AskStep(ask, start, hi, Chunks(hi + 1, end, MAX_LOOKBACK));
      WindowSplits(server.history, start, hi, end);
    }
  }

  /**
   Chunks times pages is one flat query: for every window that does not run backwards, however long, the chain gets
   from the exchange exactly its well-formed bars of the window, once each and in order.
   */
  lemma ChunkedPagingIsAFlatQuery(server: Server, start: int, end: int)
    requires server.cap > 0 && Honest(server) && DateOrdered(server.history)
    requires forall from, till :: AllUp(server, from, till)
    ensures AskAll(AskMoex(server, server.cap), Ranges(start, end, SourceMaxLookback(MoexIss)))
            == if start <= end then Ok(InWindow(server.history, start, end)) else Err(BadRange)
  {
    if end - start <= MAX_LOOKBACK {
      AskOne(AskMoex(server, server.cap), start, end);
      RangeIsAFlatQuery(server, start, end);
    } else {
      ChunksOfAFlatQuery(server, start, end);
    }
  }

  // ------------------------------------------------------------- the skip cache

  predicate HasBars(answer: Answer) {
    answer.Ok? && answer.value != []
  }

  predicate Tries(source: Source, skipped: set<Source>) {
    source != Unknown && source !in skipped
  }

  /** The first source in order, not skipped, that has bars; a source that has none is skipped from then on. */
  function Winner(order: seq<Source>, answers: Source -> Answer, skipped: set<Source>): (w: Option<Source>)
    ensures w.Some? ==> w.value !in skipped && w.value in order && HasBars(answers(w.value))
  {
    if order == [] then None
    else if !Tries(order[0], skipped) then Winner(order[1..], answers, skipped)
    else if HasBars(answers(order[0])) then Some(order[0])
    else Winner(order[1..], answers, skipped + {order[0]})
  }

  /** The sources that were tried and raised or had no bars. */
  function Failed(order: seq<Source>, answers: Source -> Answer, skipped: set<Source>): (f: set<Source>)
    ensures f !! skipped && Unknown !in f && forall s <- f :: !HasBars(answers(s))
  {
    if order == [] then {}
    else if !Tries(order[0], skipped) then Failed(order[1..], answers, skipped)
    else if HasBars(answers(order[0])) then {}
    else {order[0]} + Failed(order[1..], answers, skipped + {order[0]})
  }

  /** `source` would serve a call. */
  predicate Serves(source: Source, answers: Source -> Answer, skipped: set<Source>) {
    Tries(source, skipped) && HasBars(answers(source))
  }

  /** The chain reaches position `i`: no source before it would serve. */
  predicate Reaches(order: seq<Source>, i: nat, answers: Source -> Answer, skipped: set<Source>)
    requires i < |order|
  {
    forall j | 0 <= j < i :: !Serves(order[j], answers, skipped)
  }

  lemma ReachesTail(order: seq<Source>, i: nat, answers: Source -> Answer, skipped: set<Source>)
    requires 0 < i < |order|
    ensures Reaches(order, i, answers, skipped)
       <==> !Serves(order[0], answers, skipped) && Reaches(order[1..], i - 1, answers, skipped)
  {
    assert forall j | 0 < j < |order| :: order[j] == order[1..][j - 1];
  }

  lemma ReachesDespite(order: seq<Source>, i: nat, answers: Source -> Answer, skipped: set<Source>, failed: Source)
    requires i < |order| && !HasBars(answers(failed))
    ensures Reaches(order, i, answers, skipped + {failed}) <==> Reaches(order, i, answers, skipped)
  {
    assert forall s :: Serves(s, answers, skipped + {failed}) <==> Serves(s, answers, skipped);
  }

  /** The first source of the chain, not skipped, that has bars serves the call; nobody does if there is none. */
  lemma {:induction false} WinnerIsFirst(order: seq<Source>, answers: Source -> Answer, skipped: set<Source>, i: nat)
    requires i < |order|
    ensures Serves(order[i], answers, skipped) && Reaches(order, i, answers, skipped) ==>
              Winner(order, answers, skipped) == Some(order[i])
    ensures Winner(order, answers, skipped) == None ==> !Serves(order[i], answers, skipped)
  {
    hide Reaches;
    if i > 0 {
      ReachesTail(order, i, answers, skipped);
      WinnerIsFirst(order[1..], answers, skipped, i - 1);
      if !HasBars(answers(order[0])) {
        ReachesDespite(order[1..], i - 1, answers, skipped, order[0]);
        WinnerIsFirst(order[1..], answers, skipped + {order[0]}, i - 1);
      }
    }
  }

  /** A call marks exactly the sources it reached and tried that raised or had no bars. */
  lemma {:induction false} FailedMeans(order: seq<Source>, answers: Source -> Answer, skipped: set<Source>, s: Source)
    ensures s in Failed(order, answers, skipped) <==>
              && Tries(s, skipped) && !HasBars(answers(s))
              && exists i | 0 <= i < |order| :: order[i] == s && Reaches(order, i, answers, skipped)
  {
    if order != [] {
      var rest := order[1..];
      FailedMeans(rest, answers, skipped, s);
      FailedMeans(rest, answers, skipped + {order[0]}, s);
      assert Reaches(order, 0, answers, skipped);
      forall i | 0 < i < |order|
        ensures Reaches(order, i, answers, skipped)
           <==> !Serves(order[0], answers, skipped) && Reaches(rest, i - 1, answers, skipped)
        ensures !HasBars(answers(order[0])) ==>
                  (Reaches(rest, i - 1, answers, skipped + {order[0]}) <==> Reaches(rest, i - 1, answers, skipped))
      {
        ReachesTail(order, i, answers, skipped);
        if !HasBars(answers(order[0])) {
          ReachesDespite(rest, i - 1, answers, skipped, order[0]);
        }
      }
      assert forall i | 0 < i < |order| :: order[i] == rest[i - 1];
    }
  }

  type Feeds = (Source, Ticker, int, int) -> Answer

  function Ask(feeds: Feeds, source: Source, ticker: Ticker): (int, int) -> Answer {
    (lo, hi) => feeds(source, ticker, lo, hi)
  }

  function Answers(feeds: Feeds, ticker: Ticker, start: int, end: int): Source -> Answer {
    source => AskAll(Ask(feeds, source, ticker), Ranges(start, end, SourceMaxLookback(source)))
  }

  lemma OneSource(order: seq<Source>, i: nat, answers: Source -> Answer, skipped: set<Source>)
    requires i < |order|
    ensures var s, won, failed := order[i], Winner(order[i..], answers, skipped), Failed(order[i..], answers, skipped);
            if !Tries(s, skipped) then
              won == Winner(order[i + 1..], answers, skipped) && failed == Failed(order[i + 1..], answers, skipped)
            else if HasBars(answers(s)) then won == Some(s) && failed == {}
            else won == Winner(order[i + 1..], answers, skipped + {s})
                 && failed == {s} + Failed(order[i + 1..], answers, skipped + {s})
  {
  }

  datatype Stats = Stats(ok: nat, fallback: nat, error: nat)

  function Counted(stats: Stats, won: bool, failed: bool, raised: bool): Stats {
    Stats(stats.ok + (if won then 1 else 0), stats.fallback + (if failed then 1 else 0),
          stats.error + (if failed && raised then 1 else 0))
  }

  /**
   The counters after a call: one `ok` for the winner, one `fallback` for each source that failed, one `error` if it
   raised.
   */
  predicate Tallied(now: map<Source, Stats>, before: map<Source, Stats>, answers: Source -> Answer,
                    won: Option<Source>, failed: set<Source>)
  {
    forall s <- {TinkoffGrpc, MoexIss} ::
      && s in now && s in before
      && now[s].ok == before[s].ok + (if won == Some(s) then 1 else 0)
      && now[s].fallback == before[s].fallback + (if s in failed then 1 else 0)
      && now[s].error == before[s].error + (if s in failed && answers(s).Err? then 1 else 0)
  }

  lemma TallyStart(stats: map<Source, Stats>, answers: Source -> Answer)
    requires TinkoffGrpc in stats && MoexIss in stats
    ensures Tallied(stats, stats, answers, None, {})
  {
  }

  lemma TallyStep(now: map<Source, Stats>, before: map<Source, Stats>, answers: Source -> Answer,
                  failed: set<Source>, source: Source, won: bool)
    requires Tallied(now, before, answers, None, failed) && source !in failed && source != Unknown
    ensures source in now
    ensures Tallied(now[source := Counted(now[source], won, !won, answers(source).Err?)], before, answers,
                    if won then Some(source) else None, if won then failed else failed + {source})
  {
  }

  /** Before position `i` the chain has met no winner and the sources in `failed` came up short. */
  predicate Progress(order: seq<Source>, i: nat, answers: Source -> Answer, skipped: set<Source>, failed: set<Source>)
    requires i <= |order|
  {
    && failed !! skipped && Unknown !in failed
    && Winner(order, answers, skipped) == Winner(order[i..], answers, skipped + failed)
    && Failed(order, answers, skipped) == failed + Failed(order[i..], answers, skipped + failed)
  }

  lemma ProgressStart(order: seq<Source>, answers: Source -> Answer, skipped: set<Source>)
    ensures Progress(order, 0, answers, skipped, {})
  {
    assert order[0..] == order && skipped + {} == skipped;
  }

  lemma ProgressEnd(order: seq<Source>, answers: Source -> Answer, skipped: set<Source>, failed: set<Source>)
    requires Progress(order, |order|, answers, skipped, failed)
    ensures Winner(order, answers, skipped) == None && Failed(order, answers, skipped) == failed
  {
  }

  lemma ProgressStep(order: seq<Source>, i: nat, answers: Source -> Answer, skipped: set<Source>, failed: set<Source>)
    requires i < |order| && Progress(order, i, answers, skipped, failed)
    ensures var s := order[i];
            if !Tries(s, skipped + failed) then Progress(order, i + 1, answers, skipped, failed)
            else if HasBars(answers(s)) then
              Winner(order, answers, skipped) == Some(s) && Failed(order, answers, skipped) == failed && s !in failed
            else Progress(order, i + 1, answers, skipped, failed + {s}) && s !in failed
  {
    OneSource(order, i, answers, skipped + failed);
    assert skipped + failed + {order[i]} == skipped + (failed + {order[i]});
  }

  lemma BarsOf(answer: Answer)
    requires HasBars(answer)
    ensures answer.Ok?
  {
  }

  class FallbackDataLoader {
    const order: seq<Source>
    var stats: map<Source, Stats>
    var skip: map<Ticker, set<Source>>

    constructor (order: seq<Source>)
      ensures this.order == order && Valid() && forall t :: Skipped(t) == {}
      ensures forall s <- {TinkoffGrpc, MoexIss} :: stats[s] == Stats(0, 0, 0)
    {
      this.order := order;
      stats := map[TinkoffGrpc := Stats(0, 0, 0), MoexIss := Stats(0, 0, 0)];
      skip := map[];
    }

    predicate Valid()
      reads this`stats
    {
      TinkoffGrpc in stats && MoexIss in stats
    }

    function Skipped(ticker: Ticker): set<Source>
      reads this`skip
    {
      if ticker in skip then skip[ticker] else {}
    }

    method IterOhlcv(feeds: Feeds, ticker: Ticker, start: int, end: int) returns (bars: seq<Bar>)
      requires Valid()
      modifies this
      ensures Valid()
      ensures var winner := Winner(order, Answers(feeds, ticker, start, end), old(Skipped(ticker)));
              bars == if winner.Some? then Answers(feeds, ticker, start, end)(winner.value).value else []
      ensures Skipped(ticker)
              == old(Skipped(ticker)) + Failed(order, Answers(feeds, ticker, start, end), old(Skipped(ticker)))
      ensures forall t | t != ticker :: Skipped(t) == old(Skipped(t))
      ensures Tallied(stats, old(stats), Answers(feeds, ticker, start, end),
                Winner(order, Answers(feeds, ticker, start, end), old(Skipped(ticker))),
                Failed(order, Answers(feeds, ticker, start, end), old(Skipped(ticker))))
    {
      hide Answers, Progress, Tallied, Counted, Skipped, HasBars;
      ghost var answers, skipped, failed: set<Source> := Answers(feeds, ticker, start, end), Skipped(ticker), {};
      var i := 0;
      ProgressStart(order, answers, skipped);
      TallyStart(stats, answers);
      while i < |order|
        invariant 0 <= i <= |order| && Valid() && Skipped(ticker) == skipped + failed
        invariant forall t | t != ticker :: Skipped(t) == old(Skipped(t))
        invariant Progress(order, i, answers, skipped, failed) && Tallied(stats, old(stats), answers, None, failed)
      {
        var source := order[i];
        ProgressStep(order, i, answers, skipped, failed);
        i := i + 1;
        if source.Unknown? || source in Skipped(ticker) {
          continue;
        }
        TallyStep(stats, old(stats), answers, failed, source, HasBars(answers(source)));
        var answer := TrySource(feeds, ticker, start, end, source);
        if HasBars(answer) {
          BarsOf(answer);
          return answer.value;
        }
        failed := failed + {source};
      }
      ProgressEnd(order, answers, skipped, failed);
      return [];
    }

    /** One source of the chain, with its bookkeeping. */
    method TrySource(feeds: Feeds, ticker: Ticker, start: int, end: int, source: Source) returns (answer: Answer)
      requires Valid() && source in stats
      modifies this
      ensures Valid() && answer == Answers(feeds, ticker, start, end)(source)
      ensures stats == old(stats)[source := Counted(old(stats[source]), HasBars(answer), !HasBars(answer), answer.Err?)]
      ensures Skipped(ticker) == old(Skipped(ticker)) + if HasBars(answer) then {} else {source}
      ensures forall t | t != ticker :: Skipped(t) == old(Skipped(t))
    {
      answer := IterSource(Ask(feeds, source, ticker), start, end, SourceMaxLookback(source));
      if answer.Ok? && answer.value != [] {
        stats := stats[source := stats[source].(ok := stats[source].ok + 1)];
      } else {
        RecordFailure(ticker, source, answer.Err?);
      }
    }

    /** The bookkeeping of both failing branches. */
    method RecordFailure(ticker: Ticker, source: Source, raised: bool)
      requires Valid() && source in stats
      modifies this
      ensures Valid() && stats == old(stats)[source := Counted(old(stats[source]), false, true, raised)]
      ensures Skipped(ticker) == old(Skipped(ticker)) + {source}
      ensures forall t | t != ticker :: Skipped(t) == old(Skipped(t))
    {
      if raised {
        stats := stats[source := stats[source].(error := stats[source].error + 1)];
      }
      stats := stats[source := stats[source].(fallback := stats[source].fallback + 1)];
      skip := skip[ticker := Skipped(ticker) + {source}];
    }
  }

  /** One `iter_ohlcv` call of a run, with what each source would answer to it. */
  datatype Call = Call(ticker: Ticker, answers: Source -> Answer)

  /** The skip cache's entry for a ticker after a run, from an empty cache. */
  function SkippedAfter(order: seq<Source>, calls: seq<Call>, ticker: Ticker): set<Source> {
    if calls == [] then {}
    else
      var before, last := SkippedAfter(order, calls[..|calls| - 1], ticker), calls[|calls| - 1];
      if last.ticker == ticker then before + Failed(order, last.answers, before) else before
  }

  function ServedBy(order: seq<Source>, history: seq<Call>, call: Call): Option<Source> {
    Winner(order, call.answers, SkippedAfter(order, history, call.ticker))
  }

  /** The source that serves the call without a cache, and those that come up short before it. */
  function FreshWinner(order: seq<Source>, call: Call): Option<Source> {
    Winner(order, call.answers, {})
  }

  function FreshFailed(order: seq<Source>, call: Call): set<Source> {
    Failed(order, call.answers, {})
  }

  /** Every call of the run is served by the source that would serve it without the cache. */
  ghost predicate CacheIsInvisible(order: seq<Source>, calls: seq<Call>) {
    forall j | 0 <= j < |calls| :: ServedBy(order, calls[..j], calls[j]) == FreshWinner(order, calls[j])
  }

  function EverFailed(order: seq<Source>, calls: seq<Call>, ticker: Ticker): set<Source> {
    if calls == [] then {}
    else
      var before, last := EverFailed(order, calls[..|calls| - 1], ticker), calls[|calls| - 1];
      if last.ticker == ticker then before + FreshFailed(order, last) else before
  }

  ghost predicate Recovers(order: seq<Source>, history: seq<Call>, call: Call) {
    var winner := FreshWinner(order, call);
    winner.Some? && winner.value in EverFailed(order, history, call.ticker)
  }

  /** No call is served by a source that came up short in an earlier call for the same ticker. */
  ghost predicate NoSourceRecovers(order: seq<Source>, calls: seq<Call>) {
    forall j | 0 <= j < |calls| :: !Recovers(order, calls[..j], calls[j])
  }

  lemma {:induction false} EverFailedMeans(order: seq<Source>, calls: seq<Call>, ticker: Ticker, source: Source)
    ensures source in EverFailed(order, calls, ticker)
            <==> exists i :: 0 <= i < |calls| && calls[i].ticker == ticker && source in FreshFailed(order, calls[i])
  {
    if calls != [] {
      EverFailedMeans(order, calls[..|calls| - 1], ticker, source);
      assert calls[..|calls| - 1] + [calls[|calls| - 1]] == calls;
    }
  }

  /** A skip set changes who serves a call exactly when it holds the source that would have. */
  lemma {:induction false} SkippingMattersIff(order: seq<Source>, answers: Source -> Answer, fewer: set<Source>,
                                              more: set<Source>)
    requires fewer <= more
    ensures var winner := Winner(order, answers, fewer);
            && (Winner(order, answers, more) == winner <==> winner.None? || winner.value !in more)
            && (Winner(order, answers, more) == winner ==>
                  more + Failed(order, answers, more) == more + Failed(order, answers, fewer))
  {
    if order != [] {
      var s, rest := order[0], order[1..];
      if Tries(s, fewer) && !HasBars(answers(s)) {
        SkippingMattersIff(rest, answers, fewer + {s}, more + {s});
        if s in more {
          assert more + {s} == more;
        }
      } else if !Tries(s, fewer) {
        SkippingMattersIff(rest, answers, fewer, more);
      }
    }
  }

  lemma InvisibleFront(order: seq<Source>, calls: seq<Call>)
    requires calls != []
    ensures var front, last := calls[..|calls| - 1], calls[|calls| - 1];
            CacheIsInvisible(order, calls)
            <==> CacheIsInvisible(order, front) && ServedBy(order, front, last) == FreshWinner(order, last)
  {
    hide ServedBy, FreshWinner;
    var front := calls[..|calls| - 1];
    assert forall j | 0 <= j < |front| :: front[..j] == calls[..j] && front[j] == calls[j];
    assert calls[..|front|] == front;
  }

  lemma {:induction false} SkippedIsEverFailed(order: seq<Source>, calls: seq<Call>, ticker: Ticker)
    requires CacheIsInvisible(order, calls)
    ensures SkippedAfter(order, calls, ticker) == EverFailed(order, calls, ticker)
  {
    if calls != [] {
      var front, last := calls[..|calls| - 1], calls[|calls| - 1];
      InvisibleFront(order, calls);
      SkippedIsEverFailed(order, front, ticker);
      SkippingMattersIff(order, last.answers, {}, SkippedAfter(order, front, last.ticker));
    }
  }

  lemma RecoversFront(order: seq<Source>, calls: seq<Call>)
    requires calls != []
    ensures var front, last := calls[..|calls| - 1], calls[|calls| - 1];
            NoSourceRecovers(order, calls) <==> NoSourceRecovers(order, front) && !Recovers(order, front, last)
  {
    hide Recovers;
    var front := calls[..|calls| - 1];
    assert forall j | 0 <= j < |front| :: front[..j] == calls[..j] && front[j] == calls[j];
    assert calls[..|front|] == front;
  }

  /**
   Over any run of calls, from an empty cache, the skip cache changes who serves no call if and only if no source comes
   up short for a ticker and would later have served that ticker.
   */
  lemma {:induction false} CacheIsInvisibleIff(order: seq<Source>, calls: seq<Call>)
    ensures CacheIsInvisible(order, calls) <==> NoSourceRecovers(order, calls)
  {
    if calls != [] {
      var front, last := calls[..|calls| - 1], calls[|calls| - 1];
      InvisibleFront(order, calls);
      RecoversFront(order, calls);
      CacheIsInvisibleIff(order, front);
      if CacheIsInvisible(order, front) {
        SkippedIsEverFailed(order, front, last.ticker);
        SkippingMattersIff(order, last.answers, {}, SkippedAfter(order, front, last.ticker));
      }
    }
  }

  // --------------------------------------------------- the cache and the answers

  function BarsFrom(call: Call, source: Option<Source>): seq<Bar>
    requires source.Some? ==> HasBars(call.answers(source.value))
  {
    if source.Some? then call.answers(source.value).value else []
  }

  /** Every call of the run is answered with the bars it would get without the cache. */
  ghost predicate AnswersUnchanged(order: seq<Source>, calls: seq<Call>) {
    forall j | 0 <= j < |calls| ::
      BarsFrom(calls[j], ServedBy(order, calls[..j], calls[j])) == BarsFrom(calls[j], FreshWinner(order, calls[j]))
  }

  ghost predicate SameSources(a: Source -> Answer, b: Source -> Answer) {
    forall s :: HasBars(a(s)) == HasBars(b(s))
  }

  /** Two runs that differ only in which bars are sent, not in which source has any. */
  ghost predicate SamePattern(x: seq<Call>, y: seq<Call>) {
    |x| == |y| && forall i | 0 <= i < |x| :: x[i].ticker == y[i].ticker && SameSources(x[i].answers, y[i].answers)
  }

  lemma {:induction false} PatternDecides(order: seq<Source>, a: Source -> Answer, b: Source -> Answer,
                                          skipped: set<Source>)
    requires SameSources(a, b)
    ensures Winner(order, a, skipped) == Winner(order, b, skipped)
            && Failed(order, a, skipped) == Failed(order, b, skipped)
  {
    if order != [] {
      assert HasBars(a(order[0])) == HasBars(b(order[0]));
      PatternDecides(order[1..], a, b, skipped);
      PatternDecides(order[1..], a, b, skipped + {order[0]});
    }
  }

  lemma {:induction false} PatternDecidesEverFailed(order: seq<Source>, x: seq<Call>, y: seq<Call>, ticker: Ticker)
    requires SamePattern(x, y)
    ensures EverFailed(order, x, ticker) == EverFailed(order, y, ticker)
  {
    if x != [] {
      var k := |x| - 1;
      PatternDecidesEverFailed(order, x[..k], y[..k], ticker);
      PatternDecides(order, x[k].answers, y[k].answers, {});
    }
  }

  lemma PatternDecidesRecovery(order: seq<Source>, x: seq<Call>, y: seq<Call>)
    requires SamePattern(x, y)
    ensures NoSourceRecovers(order, x) <==> NoSourceRecovers(order, y)
  {
    forall j | 0 <= j < |x|
      ensures Recovers(order, x[..j], x[j]) <==> Recovers(order, y[..j], y[j])
    {
      PatternDecides(order, x[j].answers, y[j].answers, {});
      PatternDecidesEverFailed(order, x[..j], y[..j], x[j].ticker);
    }
  }

  function Tag(source: Source): Bar {
    Bar(match source case TinkoffGrpc => 0 case MoexIss => 1 case Unknown => 2, 0.0)
  }

  /** The same call with every source's bars replaced by one that tells the source apart. */
  function TaggedCall(call: Call): Call {
    Call(call.ticker, s => if HasBars(call.answers(s)) then Ok([Tag(s)]) else call.answers(s))
  }

  lemma {:induction false} TaggedRun(calls: seq<Call>) returns (tagged: seq<Call>)
    ensures SamePattern(calls, tagged) && forall i | 0 <= i < |calls| :: tagged[i] == TaggedCall(calls[i])
  {
    tagged := seq(|calls|, i requires 0 <= i < |calls| => TaggedCall(calls[i]));
  }

  /** Tagged bars give their source away. */
  lemma TagsTellSourcesApart(order: seq<Source>, history: seq<Call>, call: Call)
    requires exists from :: call == TaggedCall(from)
    ensures BarsFrom(call, ServedBy(order, history, call)) == BarsFrom(call, FreshWinner(order, call))
       <==> ServedBy(order, history, call) == FreshWinner(order, call)
  {
    var served, direct := ServedBy(order, history, call), FreshWinner(order, call);
    assert served.Some? ==> BarsFrom(call, served) == [Tag(served.value)];
    assert direct.Some? ==> BarsFrom(call, direct) == [Tag(direct.value)];
  }

  lemma SameServersSameAnswers(order: seq<Source>, calls: seq<Call>)
    requires NoSourceRecovers(order, calls)
    ensures AnswersUnchanged(order, calls)
  {
    hide ServedBy, FreshWinner;
    CacheIsInvisibleIff(order, calls);
  }

  /**
   So the cache changes no answer, whatever bars the sources send, exactly when no source recovers: after a recovery
   it is only a coincidence of the bars that can hide the change.
   */
  lemma CacheChangesNoAnswerIff(order: seq<Source>, calls: seq<Call>)
    ensures (forall run | SamePattern(calls, run) :: AnswersUnchanged(order, run)) <==> NoSourceRecovers(order, calls)
  {
    hide ServedBy, FreshWinner, BarsFrom, Recovers;
    if NoSourceRecovers(order, calls) {
      forall run | SamePattern(calls, run)
        ensures AnswersUnchanged(order, run)
      {
        PatternDecidesRecovery(order, calls, run);
        SameServersSameAnswers(order, run);
      }
    } else {
      var run := TaggedRun(calls);
      PatternDecidesRecovery(order, calls, run);
      CacheIsInvisibleIff(order, run);
      var j :| 0 <= j < |run| && ServedBy(order, run[..j], run[j]) != FreshWinner(order, run[j]);
      assert run[j] == TaggedCall(calls[j]);
      TagsTellSourcesApart(order, run[..j], run[j]);
      assert !AnswersUnchanged(order, run);
    }
  }

  /** Such a coincidence: the first source recovers and is passed over, but the second sends the same bar. */
  lemma RecoveryHiddenByEqualBars(ticker: Ticker, bar: Bar)
    ensures var order := [TinkoffGrpc, MoexIss];
            var early := Call(ticker, s => if s == MoexIss then Ok([bar]) else Ok([]));
            var later := Call(ticker, _ => Ok([bar]));
            && Recovers(order, [early], later)
            && FreshWinner(order, later) == Some(TinkoffGrpc) && ServedBy(order, [early], later) == Some(MoexIss)
            && BarsFrom(later, Some(TinkoffGrpc)) == BarsFrom(later, Some(MoexIss)) == [bar]
  {
    var order := [TinkoffGrpc, MoexIss];
    var early := Call(ticker, s => if s == MoexIss then Ok([bar]) else Ok([]));
    var later := Call(ticker, _ => Ok([bar]));
    assert Failed(order[1..], early.answers, {TinkoffGrpc}) == {};
    assert Failed(order, early.answers, {}) == {TinkoffGrpc};
    assert [early][..0] == [];
    assert SkippedAfter(order, [early], ticker) == EverFailed(order, [early], ticker) == {TinkoffGrpc};
    assert Winner(order[1..], later.answers, {TinkoffGrpc}) == Some(MoexIss);
  }

  /** The cache is kept per ticker, not per window: one empty window hides every bar of the next. */
  lemma EmptyWindowHidesLaterBars(ticker: Ticker, bar: Bar)
    ensures var order := [TinkoffGrpc, MoexIss];
            var early, later := Call(ticker, _ => Ok([])), Call(ticker, _ => Ok([bar]));
            FreshWinner(order, later) == Some(TinkoffGrpc) && ServedBy(order, [early], later) == None
  {
    var order := [TinkoffGrpc, MoexIss];
    var early, later := Call(ticker, _ => Ok([])), Call(ticker, _ => Ok([bar]));
    assert SkippedAfter(order, [early][..0], ticker) == {};
    assert Failed(order[1..][1..], early.answers, {TinkoffGrpc, MoexIss}) == {};
    assert Failed(order[1..], early.answers, {TinkoffGrpc}) == {MoexIss};
    assert Failed(order, early.answers, {}) == {TinkoffGrpc, MoexIss};
    assert SkippedAfter(order, [early], ticker) == {TinkoffGrpc, MoexIss};
  }
}
