/** Paging through the exchange's candles: `iter_ohlcv` and `_iter_ohlcv_shares` of src/data/moex_loader.py. */
module MoexLoader {
  import opened Common

  const MAX_LOOKBACK := 1825

  /** Dates are day numbers. */
  datatype Bar = Bar(ts: int, close: real)

  /** A row of the exchange; `bar` is what the row maps to, None when it is malformed. */
  datatype Row = Row(bar: Option<Bar>)

  datatype LoaderError = BadRange | Network

  type Answer = Result<seq<Bar>, LoaderError>

  /**
   The exchange: the candles it holds, in its own order, how many it puts on a page, which rows it takes to match a
   range, and which requests fail.
   */
  datatype Server = Server(history: seq<Row>, cap: nat, matches: (Row, int, int) -> bool, down: (int, int, nat) -> bool)

  /** It may send rows outside the range, but it leaves out no bar inside. */
  ghost predicate Honest(server: Server) {
    forall row, from, till ::
      row in server.history && row.bar.Some? && from <= row.bar.value.ts <= till ==> server.matches(row, from, till)
  }

  function Matching(server: Server, rows: seq<Row>, from: int, till: int): seq<Row> {
    if rows == [] then []
    else (if server.matches(rows[0], from, till) then [rows[0]] else []) + Matching(server, rows[1..], from, till)
  }

  function Slice(rows: seq<Row>, offset: nat, size: nat): (page: seq<Row>)
    ensures |page| <= size
  {
    if offset >= |rows| then [] else rows[offset..IntMin(offset + size, |rows|)]
  }

  /** One request: at most `cap` of the matching rows from `offset` on. */
  function Fetch(server: Server, from: int, till: int, offset: nat): Result<seq<Row>, LoaderError> {
    var rows := Matching(server, server.history, from, till);
    if server.down(from, till, offset) then Err(Network)
    else Ok(Slice(rows, offset, server.cap))
  }

  function Picked(row: Row, start: int, end: int): seq<Bar> {
    match row.bar
    case Some(bar) => if start <= bar.ts <= end then [bar] else []
    case None => []
  }

  /** The bars of the rows that map to one dated inside the range, in order. */
  function InWindow(rows: seq<Row>, start: int, end: int): seq<Bar> {
    if rows == [] then [] else Picked(rows[0], start, end) + InWindow(rows[1..], start, end)
  }

  function Then(rows: seq<Row>, rest: Result<seq<Row>, LoaderError>): Result<seq<Row>, LoaderError> {
    if rest.Ok? then Ok(rows + rest.value) else rest
  }

  /** The rows of the pages from `offset` on, up to the first page that is not full. */
  function Paged(server: Server, pageSize: nat, from: int, till: int, offset: nat): Result<seq<Row>, LoaderError>
    requires pageSize > 0
    decreases |Matching(server, server.history, from, till)| - offset
  {
    match Fetch(server, from, till, offset)
    case Err(e) => Err(e)
    case Ok(page) =>
      if |page| < pageSize then Ok(page) else Then(page, Paged(server, pageSize, from, till, offset + pageSize))
  }

  lemma PagedStep(server: Server, pageSize: nat, from: int, till: int, offset: nat)
    requires pageSize > 0
    ensures Fetch(server, from, till, offset).Err?
            ==> Paged(server, pageSize, from, till, offset) == Fetch(server, from, till, offset)
    ensures Fetch(server, from, till, offset).Ok? ==>
            var page := Fetch(server, from, till, offset).value;
            && (|page| < pageSize ==> Paged(server, pageSize, from, till, offset) == Ok(page))
            && (|page| >= pageSize ==> Paged(server, pageSize, from, till, offset)
                                       == Then(page, Paged(server, pageSize, from, till, offset + pageSize)))
            && (|page| >= pageSize ==> offset + pageSize <= |Matching(server, server.history, from, till)|)
  {
  }

  predicate ValidRange(start: int, end: int) {
    start <= end && end - start <= MAX_LOOKBACK
  }

  /** Bars already yielded, followed by those of the remaining rows. */
  function Joined(bars: seq<Bar>, rest: Result<seq<Row>, LoaderError>, start: int, end: int): Answer {
    if rest.Ok? then Ok(bars + InWindow(rest.value, start, end)) else Err(rest.error)
  }

  /** The request at `offset` is the last one. */
  predicate Stops(server: Server, pageSize: nat, from: int, till: int, offset: nat) {
    var fetched := Fetch(server, from, till, offset);
    fetched.Err? || fetched.value == [] || |fetched.value| < pageSize
  }

  /** The call returns: with a page size of 0 only if the range is refused or the first request is the last. */
  predicate Returns(server: Server, pageSize: nat, start: int, end: int) {
    pageSize > 0 || !ValidRange(start, end) || Stops(server, 0, start, end, 0)
  }

  /** What `iter_ohlcv` yields for a share, or the error it raises on the way. */
  function Bars(server: Server, pageSize: nat, start: int, end: int): Answer
    requires Returns(server, pageSize, start, end)
  {
    if !ValidRange(start, end) then Err(BadRange)
    else if pageSize == 0 then if Fetch(server, start, end, 0).Err? then Err(Network) else Ok([])
    else Joined([], Paged(server, pageSize, start, end, 0), start, end)
  }

  /** The `start` parameter of a page's request. */
  function Offset(page: nat, pageSize: nat): nat {
    page * pageSize
  }

  /** The rows of the pages from `page` on, and how many of the matching rows lie there. */
  function Remaining(server: Server, pageSize: nat, from: int, till: int, page: nat): Result<seq<Row>, LoaderError>
    requires pageSize > 0
  {
    Paged(server, pageSize, from, till, Offset(page, pageSize))
  }

  ghost function Unread(server: Server, pageSize: nat, from: int, till: int, page: nat): int {
    |Matching(server, server.history, from, till)| - Offset(page, pageSize)
  }

  lemma RemainingStep(server: Server, pageSize: nat, from: int, till: int, page: nat)
    requires pageSize > 0
    ensures var fetched, all := Fetch(server, from, till, Offset(page, pageSize)),
            Remaining(server, pageSize, from, till, page);
            if fetched.Err? then all == fetched
            else if |fetched.value| < pageSize then all == Ok(fetched.value)
            else all == Then(fetched.value, Remaining(server, pageSize, from, till, page + 1))
                 && 0 <= Unread(server, pageSize, from, till, page + 1) < Unread(server, pageSize, from, till, page)
  {
  }

  lemma {:induction false} InWindowAppend(a: seq<Row>, b: seq<Row>, start: int, end: int)
    ensures InWindow(a + b, start, end) == InWindow(a, start, end) + InWindow(b, start, end)
  {
    if a == [] {
      assert a + b == b;
    } else {
      assert (a + b)[1..] == a[1..] + b;
      InWindowAppend(a[1..], b, start, end);
    }
  }

  /** The row loop of one page. */
  method KeepInWindow(before: seq<Bar>, data: seq<Row>, start: int, end: int) returns (bars: seq<Bar>)
    ensures bars == before + InWindow(data, start, end)
  {
    bars := before;
    for i := 0 to |data|
      invariant bars == before + InWindow(data[..i], start, end)
    {
      InWindowAppend(data[..i], [data[i]], start, end);
      assert data[..i + 1] == data[..i] + [data[i]];
      match data[i].bar {
        case Some(bar) =>
          if start <= bar.ts <= end {
            bars := bars + [bar];
          }
        case None =>
      }
    }
    assert data[..|data|] == data;
  }

  lemma JoinedSteps(bars: seq<Bar>, data: seq<Row>, rest: Result<seq<Row>, LoaderError>, start: int, end: int)
    ensures Joined(bars, Then(data, rest), start, end) == Joined(bars + InWindow(data, start, end), rest, start, end)
    ensures Joined(bars, Ok(data), start, end) == Ok(bars + InWindow(data, start, end))
    ensures rest.Err? ==> Joined(bars, rest, start, end) == Err(rest.error)
    ensures data == [] ==> bars + InWindow(data, start, end) == bars
  {
    if rest.Ok? {
      InWindowAppend(data, rest.value, start, end);
      var a, b := InWindow(data, start, end), InWindow(rest.value, start, end);
      assert bars + (a + b) == (bars + a) + b;
    }
  }

  lemma FirstIsLast(server: Server, start: int, end: int)
    requires Stops(server, 0, start, end, 0)
    ensures Offset(0, 0) == 0
    ensures var fetched := Fetch(server, start, end, 0);
            fetched == Err(Network) || (fetched.Ok? && fetched.value == [])
  {
  }

  class MoexDataLoader {
    const pageSize: nat

    constructor (pageSize: nat)
      ensures this.pageSize == pageSize
    {
      this.pageSize := pageSize;
    }

    /** With a page size of 0, which the constructor accepts, the call need not return; see PagingEndsIff. */
    method IterOhlcvShares(server: Server, start: int, end: int) returns (answer: Answer)
      requires Returns(server, pageSize, start, end)
      ensures answer == Bars(server, pageSize, start, end)
    {
      if start > end || end - start > MAX_LOOKBACK {
        return Err(BadRange);
      }
      var bars: seq<Bar> := [];
      var page: nat := 0;
      while true
        invariant pageSize == 0 ==> page == 0 && bars == []
        invariant pageSize > 0 ==>
                    Bars(server, pageSize, start, end)
                      == Joined(bars, Remaining(server, pageSize, start, end, page), start, end)
        decreases if pageSize == 0 then 0 else Unread(server, pageSize, start, end, page)
      {
        hide Then, Fetch, Slice, Offset, Joined, Remaining, Unread;
        var fetched := Fetch(server, start, end, Offset(page, pageSize));
        if pageSize == 0 {
          FirstIsLast(server, start, end);
        } else {
          RemainingStep(server, pageSize, start, end, page);
        }
        if fetched.Err? {
          JoinedSteps(bars, [], fetched, start, end);
          return Err(fetched.error);
        }
        var data := fetched.value;
        if pageSize > 0 {
          JoinedSteps(bars, data, Remaining(server, pageSize, start, end, page + 1), start, end);
        }
        if data == [] {
          return Ok(bars);
        }
        bars := KeepInWindow(bars, data, start, end);
        if |data| < pageSize {
          return Ok(bars);
        }
        page := page + 1;
      }
    }
  }

  // ----------------------------------------------- the bars, row by row

  /** The positions of the rows that map to a bar dated inside the range. */
  function WantedRows(rows: seq<Row>, start: int, end: int): (at: seq<nat>)
    ensures forall i :: i in at <==> 0 <= i < |rows| && rows[i].bar.Some? && start <= rows[i].bar.value.ts <= end
    ensures forall k | 0 <= k < |at| :: at[k] < |rows|
    ensures forall j, k | 0 <= j < k < |at| :: at[j] < at[k]
  {
    if rows == [] then []
    else
      var n := |rows| - 1;
      var front := WantedRows(rows[..n], start, end);
      if rows[n].bar.Some? && start <= rows[n].bar.value.ts <= end then front + [n] else front
  }

  /** `bars` are the bars of the rows at these positions. */
  predicate AreBarsAt(bars: seq<Bar>, rows: seq<Row>, at: seq<nat>) {
    |bars| == |at| && forall k | 0 <= k < |at| :: at[k] < |rows| && rows[at[k]].bar == Some(bars[k])
  }

  lemma BarsAtSnoc(bars: seq<Bar>, front: seq<Row>, at: seq<nat>, row: Row)
    requires AreBarsAt(bars, front, at)
    ensures AreBarsAt(bars, front + [row], at)
    ensures row.bar.Some? ==> AreBarsAt(bars + [row.bar.value], front + [row], at + [|front|])
  {
  }

  lemma InWindowSnoc(front: seq<Row>, row: Row, start: int, end: int)
    ensures InWindow(front + [row], start, end) == InWindow(front, start, end) + Picked(row, start, end)
  {
    InWindowAppend(front, [row], start, end);
    assert [row][1..] == [];
  }

  lemma WantedRowsSnoc(front: seq<Row>, row: Row, start: int, end: int)
    ensures WantedRows(front + [row], start, end)
         == if Picked(row, start, end) == [] then WantedRows(front, start, end)
            else WantedRows(front, start, end) + [|front|]
  {
    assert (front + [row])[..|front|] == front;
  }

  lemma BarsAtPicked(bars: seq<Bar>, front: seq<Row>, at: seq<nat>, row: Row, start: int, end: int)
    requires AreBarsAt(bars, front, at)
    ensures AreBarsAt(bars + Picked(row, start, end), front + [row],
                      if Picked(row, start, end) == [] then at else at + [|front|])
  {
    BarsAtSnoc(bars, front, at, row);
    hide AreBarsAt;
    assert bars + [] == bars;
  }

  /** The bars kept are those of exactly the wanted rows, in their order. */
  predicate KeepsTheWanted(rows: seq<Row>, start: int, end: int) {
    AreBarsAt(InWindow(rows, start, end), rows, WantedRows(rows, start, end))
  }

  lemma KeepsTheWantedSnoc(front: seq<Row>, row: Row, start: int, end: int)
    requires KeepsTheWanted(front, start, end)
    ensures KeepsTheWanted(front + [row], start, end)
  {
    hide AreBarsAt, Picked;
    InWindowSnoc(front, row, start, end);
    WantedRowsSnoc(front, row, start, end);
    BarsAtPicked(InWindow(front, start, end), front, WantedRows(front, start, end), row, start, end);
  }

  lemma {:induction false} InWindowMeans(rows: seq<Row>, start: int, end: int)
    ensures KeepsTheWanted(rows, start, end)
  {
    if rows != [] {
      hide KeepsTheWanted;
      var n := |rows| - 1;
      InWindowMeans(rows[..n], start, end);
      KeepsTheWantedSnoc(rows[..n], rows[n], start, end);
      assert rows == rows[..n] + [rows[n]];
    }
  }

  // ------------------------------------------------------------- paging ends

  predicate EndsWithin(server: Server, pageSize: nat, from: int, till: int, offset: nat, pages: nat)
    decreases pages
  {
    pages > 0 && (Stops(server, pageSize, from, till, offset)
                  || EndsWithin(server, pageSize, from, till, offset + pageSize, pages - 1))
  }

  lemma {:induction false} EndsAfterTheRows(server: Server, pageSize: nat, from: int, till: int, offset: nat,
                                            pages: nat)
    requires pageSize > 0 && offset + pages > |Matching(server, server.history, from, till)| && pages > 0
    ensures EndsWithin(server, pageSize, from, till, offset, pages)
    decreases pages
  {
    if !Stops(server, pageSize, from, till, offset) {
      assert offset + pageSize <= |Matching(server, server.history, from, till)|;
      EndsAfterTheRows(server, pageSize, from, till, offset + pageSize, pages - 1);
    }
  }

  lemma {:induction false} NeverEndsInPlace(server: Server, from: int, till: int, pages: nat)
    requires !Stops(server, 0, from, till, 0)
    ensures !EndsWithin(server, 0, from, till, 0, pages)
  {
    if pages > 0 {
      NeverEndsInPlace(server, from, till, pages - 1);
    }
  }

  ghost predicate Ends(server: Server, pageSize: nat, from: int, till: int) {
    exists pages: nat :: EndsWithin(server, pageSize, from, till, 0, pages)
  }

  /** The loop ends exactly when the page size is positive, or the very first request fails or finds nothing. */
  lemma PagingEndsIff(server: Server, pageSize: nat, from: int, till: int)
    ensures Ends(server, pageSize, from, till) <==> pageSize > 0 || Stops(server, 0, from, till, 0)
  {
    hide Stops;
    var pages: nat := |Matching(server, server.history, from, till)| + 1;
    if pageSize > 0 {
      EndsAfterTheRows(server, pageSize, from, till, 0, pages);
    } else if Stops(server, pageSize, from, till, 0) {
      assert EndsWithin(server, pageSize, from, till, 0, pages);
    } else {
      forall n: nat
        ensures !EndsWithin(server, pageSize, from, till, 0, n)
      {
        NeverEndsInPlace(server, from, till, n);
      }
    }
  }

  // ------------------------------------------------------------ paging is exact

  ghost predicate AllUp(server: Server, from: int, till: int) {
    forall offset: nat :: !server.down(from, till, offset)
  }

  function From(rows: seq<Row>, offset: nat): seq<Row> {
    if offset >= |rows| then [] else rows[offset..]
  }

  lemma SliceThenRest(rows: seq<Row>, offset: nat, size: nat)
    ensures offset + size <= |rows| ==> |Slice(rows, offset, size)| == size
                                        && Slice(rows, offset, size) + From(rows, offset + size) == From(rows, offset)
    ensures offset + size > |rows| ==> |Slice(rows, offset, size)| < size || size == 0
    ensures offset + size > |rows| ==> Slice(rows, offset, size) == From(rows, offset)
  {
  }

  /** With equal page sizes the pages from an offset are the rest of the rows. */
  lemma {:induction false} PagesFromOffset(server: Server, pageSize: nat, from: int, till: int, offset: nat)
    requires pageSize > 0 && AllUp(server, from, till) && pageSize == server.cap
    ensures Paged(server, pageSize, from, till, offset)
            == Ok(From(Matching(server, server.history, from, till), offset))
    decreases |Matching(server, server.history, from, till)| - offset
  {
    hide From, Slice;
    var rows := Matching(server, server.history, from, till);
    PagedStep(server, pageSize, from, till, offset);
    SliceThenRest(rows, offset, pageSize);
    if offset + pageSize <= |rows| {
      PagesFromOffset(server, pageSize, from, till, offset + pageSize);
    }
  }

  lemma {:induction false} PagesCover(server: Server, pageSize: nat, from: int, till: int, offset: nat)
    requires pageSize > 0 && AllUp(server, from, till) && pageSize < server.cap
    ensures Paged(server, pageSize, from, till, offset).Ok?
    ensures |Paged(server, pageSize, from, till, offset).value|
            >= |Matching(server, server.history, from, till)| - offset
    decreases |Matching(server, server.history, from, till)| - offset
  {
    var rows := Matching(server, server.history, from, till);
    if offset + pageSize <= |rows| {
      PagesCover(server, pageSize, from, till, offset + pageSize);
    }
  }

  lemma PagesOverlap(server: Server, pageSize: nat, from: int, till: int)
    requires pageSize > 0 && AllUp(server, from, till) && pageSize < server.cap
    requires |Matching(server, server.history, from, till)| >= pageSize
    ensures var rows := Matching(server, server.history, from, till);
            Paged(server, pageSize, from, till, 0) == Ok(rows) <==> |rows| == pageSize
  {
    var rows := Matching(server, server.history, from, till);
    var page := Slice(rows, 0, server.cap);
    PagesCover(server, pageSize, from, till, pageSize);
    PagedStep(server, pageSize, from, till, 0);
    var rest := Paged(server, pageSize, from, till, pageSize).value;
    assert Paged(server, pageSize, from, till, 0) == Ok(page + rest);
    if |rows| == pageSize {
      PagedStep(server, pageSize, from, till, pageSize);
      assert rest == [] && page + [] == page;
      assert rows[0..|rows|] == rows;
    } else {
      assert |page| > pageSize;
      assert |page + rest| > |rows|;
    }
  }

  /**
   The pages joined are the matching rows, once each and in order, exactly when the loader's page size is the
   exchange's, or everything fits on a page of either size: a larger one stops after the first page, a smaller one
   reads the rows past its own size twice.
   */
  lemma {:induction false} PagingIsExactIff(server: Server, pageSize: nat, from: int, till: int)
    requires pageSize > 0 && AllUp(server, from, till)
    ensures var rows := Matching(server, server.history, from, till);
            Paged(server, pageSize, from, till, 0) == Ok(rows)
            <==> pageSize == server.cap || |rows| <= IntMin(pageSize, server.cap)
  {
    var rows := Matching(server, server.history, from, till);
    var n, cap := |rows|, server.cap;
    if pageSize == cap {
      PagesFromOffset(server, pageSize, from, till, 0);
      assert From(rows, 0) == rows;
    } else if pageSize > cap {
      assert Paged(server, pageSize, from, till, 0) == Ok(Slice(rows, 0, cap));
      if n <= cap {
        assert Slice(rows, 0, cap) == rows;
      }
    } else if n < pageSize {
      assert Slice(rows, 0, cap) == rows;
    } else {
      PagesOverlap(server, pageSize, from, till);
    }
  }

  /** The client's own date check makes up for an exchange that sends too much. */
  lemma {:induction false} MatchingKeepsTheWindow(server: Server, rows: seq<Row>, start: int, end: int)
    requires Honest(server) && forall i | 0 <= i < |rows| :: rows[i] in server.history
    ensures InWindow(Matching(server, rows, start, end), start, end) == InWindow(rows, start, end)
  {
    if rows != [] {
      assert rows[0] in server.history;
      assert forall i | 0 <= i < |rows| - 1 :: rows[1..][i] == rows[i + 1];
      MatchingKeepsTheWindow(server, rows[1..], start, end);
      var rest := Matching(server, rows[1..], start, end);
      if server.matches(rows[0], start, end) {
        assert Matching(server, rows, start, end) == [rows[0]] + rest;
        InWindowAppend([rows[0]], rest, start, end);
        InWindowAppend([rows[0]], rows[1..], start, end);
        assert [rows[0]] + rows[1..] == rows;
      } else {
        assert Matching(server, rows, start, end) == rest;
      }
    }
  }

  /** One call over a valid range is the flat query: every well-formed bar of the range, once each and in order. */
  lemma RangeIsAFlatQuery(server: Server, start: int, end: int)
    requires server.cap > 0 && Honest(server) && AllUp(server, start, end)
    ensures Bars(server, server.cap, start, end)
            == if ValidRange(start, end) then Ok(InWindow(server.history, start, end)) else Err(BadRange)
  {
    if ValidRange(start, end) {
      PagingIsExactIff(server, server.cap, start, end);
      var bars := InWindow(Matching(server, server.history, start, end), start, end);
      assert [] + bars == bars;
      MatchingKeepsTheWindow(server, server.history, start, end);
    }
  }
}
