/** Slicing and submission of an approved order: src/broker/slicer.py and src/broker/integration.py. */
module OrderFlow {
  import opened Algebra
  import opened Common
  import RiskGate

  /** One slice of a parent order; times are milliseconds after the start of the run. */
  datatype SliceBatch = SliceBatch(quantity: real, cumulativePct: real, startAt: real, endAt: real)

  const MAX_DURATION_MS := 1800000.0
  const MIN_INTERVAL_MS := 16.0
  const MAX_CHUNKS := 112500

  // ---------------------------------------------------------------- the slicer

  /** 5% of ADV. */
  function ChunkSize(adv: real): real {
    adv * 5.0 / 100.0
  }

  /** The wanted number of chunks before the rate cap: nearest integer, ties to even, at least one. */
  function WantedChunks(adv: real, parent: real): (n: int)
    requires adv > 0.0
    ensures n >= 1
  {
    IntMax(1, RoundHalfEven(Div(parent, ChunkSize(adv))))
  }

  lemma FewerThanCapped(parent: real, n: int)
    requires parent > 0.0 && n >= 1
    ensures Div(parent, n as real) < 1.0 ==> parent < n as real && parent.Floor < n
  {
    hide Mul, Div;
    DivMul(parent, n as real);
    if Div(parent, n as real) < 1.0 {
      MulDistributes(1.0, Div(parent, n as real), n as real);
      MulSigns(1.0 - Div(parent, n as real), n as real);
      MulSigns(1.0, n as real);
    }
  }

  /** The number of slices of an order that does not fit one chunk: the rate cap, then the one-share floor. */
  function NumChunks(adv: real, parent: real): (n: int)
    requires adv > 0.0 && parent > 0.0
    ensures 1 <= n <= MAX_CHUNKS
  {
    var capped := IntMax(1, IntMin(WantedChunks(adv, parent), MAX_CHUNKS));
    FewerThanCapped(parent, capped);
    if Div(parent, capped as real) < 1.0 then IntMax(1, parent.Floor) else capped
  }

  /** Slice `i` of `n` equal ones. */
  function Batch(parent: real, n: int, i: int): SliceBatch
    requires parent > 0.0 && n >= 1
  {
    SliceBatch(Div(parent, n as real), Mul(Div((i + 1) as real, n as real), 100.0),
               Mul(i as real, Div(MAX_DURATION_MS, n as real)), Mul((i + 1) as real, Div(MAX_DURATION_MS, n as real)))
  }

  function Slices(adv: real, parent: real): (out: seq<SliceBatch>)
    requires adv > 0.0 && parent > 0.0
    ensures out != []
  {
    if parent <= ChunkSize(adv) then [SliceBatch(parent, 100.0, 0.0, 0.0)]
    else
      var n := NumChunks(adv, parent);
      seq(n, i => Batch(parent, n, i))
  }

  lemma ShareOf(parent: real, n: int, i: int)
    requires parent > 0.0 && n >= 1 && 0 <= i < n
    ensures Mul((i + 1) as real, Div(parent, n as real)) <= parent
    ensures i == n - 1 ==> Mul((i + 1) as real, Div(parent, n as real)) == parent
    ensures Div(Mul((i + 1) as real, Div(parent, n as real)), parent) == Div((i + 1) as real, n as real)
  {
    hide Mul, Div;
    var chunk, m, k := Div(parent, n as real), n as real, (i + 1) as real;
    DivMul(parent, m);
    DivSigns(parent, m);
    MulCommutes(chunk, m);
    MulOrder(k, m, chunk);
    var share := Div(k, m);
    DivMul(k, m);
    MulCommutes(chunk, k);
    // share * parent = share * (chunk * m) = k * chunk
    MulCommutes(share, parent);
    MulAssociates(share, m, chunk);
    DivUnique(Mul(k, chunk), parent, share);
  }

  class OrderSlicer {
    const advShares: real
    const parentQty: real

    constructor (advShares: real, parentQty: real)
      requires advShares > 0.0 && parentQty > 0.0
      ensures this.advShares == advShares && this.parentQty == parentQty
    {
      this.advShares, this.parentQty := advShares, parentQty;
    }

    method Slice() returns (chunks: seq<SliceBatch>)
      requires advShares > 0.0 && parentQty > 0.0
      ensures chunks == Slices(advShares, parentQty)
    {
      hide Mul, Div, RoundHalfEven;
      chunks := [];
      if parentQty <= ChunkSize(advShares) {
        chunks := chunks + [SliceBatch(parentQty, 100.0, 0.0, 0.0)];
        return;
      }
      var nChunks := IntMax(1, RoundHalfEven(Div(parentQty, ChunkSize(advShares))));
      nChunks := IntMax(1, IntMin(nChunks, MAX_CHUNKS));
      var actualChunkSize := Div(parentQty, nChunks as real);
      if actualChunkSize < 1.0 {
        nChunks := IntMax(1, parentQty.Floor);
        actualChunkSize := Div(parentQty, nChunks as real);
      }
      assert nChunks == NumChunks(advShares, parentQty);
      var interval := Div(MAX_DURATION_MS, nChunks as real);
      for i := 0 to nChunks
        invariant |chunks| == i && forall k | 0 <= k < i :: chunks[k] == Batch(parentQty, nChunks, k)
      {
        ShareOf(parentQty, nChunks, i);
        var cumulative := Min(parentQty, Mul((i + 1) as real, actualChunkSize));
        var chunkQty := Min(actualChunkSize, parentQty - cumulative + actualChunkSize);
        chunks := chunks + [SliceBatch(chunkQty, Mul(Div(cumulative, parentQty), 100.0),
                                       Mul(i as real, interval), Mul((i + 1) as real, interval))];
      }
    }
  }

  // --------------------------------------------------------- what slicing keeps

  function TotalQuantity(chunks: seq<SliceBatch>): real {
    if chunks == [] then 0.0 else TotalQuantity(chunks[..|chunks| - 1]) + chunks[|chunks| - 1].quantity
  }

  lemma {:induction false} TotalOfEqual(chunks: seq<SliceBatch>, quantity: real)
    requires forall i | 0 <= i < |chunks| :: chunks[i].quantity == quantity
    ensures TotalQuantity(chunks) == Mul(|chunks| as real, quantity)
  {
    hide Mul;
    if chunks == [] {
      MulSigns(0.0, quantity);
    } else {
      TotalOfEqual(chunks[..|chunks| - 1], quantity);
      MulDistributes((|chunks| - 1) as real, 1.0, quantity);
      MulSigns(1.0, quantity);
    }
  }

  lemma ChunkAtLeastOneShare(adv: real, parent: real)
    requires adv > 0.0 && parent > 0.0
    ensures Div(parent, NumChunks(adv, parent) as real) >= Min(1.0, parent)
  {
    hide Mul, Div, RoundHalfEven;
    var n := NumChunks(adv, parent) as real;
    if n <= parent {
      DivOrder(n, parent, n);
      MulSigns(1.0, n);
      DivUnique(n, n, 1.0);
    } else {
      MulSigns(parent, 1.0);
      DivUnique(parent, 1.0, parent);
    }
  }

  /** The slices are positive, none is below min(1, parent), and together they are exactly the parent order. */
  lemma SlicingConserves(adv: real, parent: real)
    requires adv > 0.0 && parent > 0.0
    ensures var out := Slices(adv, parent);
            && (forall i | 0 <= i < |out| :: out[i].quantity >= Min(1.0, parent) && out[i].quantity > 0.0)
            && TotalQuantity(out) == parent
  {
    hide Mul, Div, NumChunks;
    var out := Slices(adv, parent);
    if parent > ChunkSize(adv) {
      var n := NumChunks(adv, parent);
      ChunkAtLeastOneShare(adv, parent);
      TotalOfEqual(out, Div(parent, n as real));
      DivMul(parent, n as real);
      MulCommutes(n as real, Div(parent, n as real));
    }
  }

  lemma IntervalLongEnough(n: int)
    requires 1 <= n <= MAX_CHUNKS
    ensures Div(MAX_DURATION_MS, n as real) >= MIN_INTERVAL_MS
    ensures Mul(n as real, Div(MAX_DURATION_MS, n as real)) == MAX_DURATION_MS
  {
  }

  lemma PctRises(i: int, n: int)
    requires 0 <= i < n
    ensures Mul(Div((i + 1) as real, n as real), 100.0) < Mul(Div((i + 2) as real, n as real), 100.0)
  {
  }

  /** `cumulative_pct` rises strictly to 100; several slices tile the 30 minutes with starts at least 16 ms apart. */
  lemma SlicingPaces(adv: real, parent: real)
    requires adv > 0.0 && parent > 0.0
    ensures var out := Slices(adv, parent);
            && (forall i | 0 <= i < |out| - 1 :: out[i].cumulativePct < out[i + 1].cumulativePct)
            && out[|out| - 1].cumulativePct == 100.0
            && out[0].startAt == 0.0
            && (forall i | 0 <= i < |out| - 1 ::
                  out[i].endAt == out[i + 1].startAt && out[i + 1].startAt - out[i].startAt >= MIN_INTERVAL_MS)
            && (parent > ChunkSize(adv) ==> out[|out| - 1].endAt == MAX_DURATION_MS)
  {
    hide Mul, Div, NumChunks, RoundHalfEven;
    var out := Slices(adv, parent);
    if parent > ChunkSize(adv) {
      var n := NumChunks(adv, parent);
      var m, interval := n as real, Div(MAX_DURATION_MS, n as real);
      IntervalLongEnough(n);
      MulSigns(0.0, interval);
      MulSigns(1.0, m);
      DivUnique(m, m, 1.0);
      MulSigns(1.0, 100.0);
      forall i | 0 <= i < n - 1
        ensures out[i].cumulativePct < out[i + 1].cumulativePct
        ensures out[i].endAt == out[i + 1].startAt && out[i + 1].startAt - out[i].startAt >= MIN_INTERVAL_MS
      {
        PctRises(i, n);
        MulDistributes(i as real, 1.0, interval);
        MulSigns(1.0, interval);
      }
    }
  }

  lemma SameProduct(m: real, chunk: real)
    ensures Mul(1.5 * m, chunk) == Mul(1.5 * chunk, m)
  {
  }

  /** Unless the rate cap or the one-share floor applies, a slice stays below one and a half chunks. */
  lemma SliceStaysNearChunk(adv: real, parent: real)
    requires adv > 0.0 && parent > ChunkSize(adv)
    requires WantedChunks(adv, parent) == NumChunks(adv, parent)
    ensures forall i | 0 <= i < |Slices(adv, parent)| :: Slices(adv, parent)[i].quantity < 1.5 * ChunkSize(adv)
  {
    hide Mul, Div, NumChunks;
    var chunk, n := ChunkSize(adv), NumChunks(adv, parent);
    var ratio, m := Div(parent, chunk), n as real;
    DivMul(parent, chunk);
    if ratio <= 1.0 {
      MulOrder(ratio, 1.0, chunk);
      MulSigns(1.0, chunk);
    }
    assert m <= ratio + 0.5 && ratio - 0.5 <= m;
    assert ratio < 1.5 * m;
    // parent = ratio * chunk < 1.5 m chunk, so parent / m < 1.5 chunk
    var bound := 1.5 * chunk;
    var q := Div(parent, m);
    DivMul(parent, m);
    MulDistributes(1.5 * m, ratio, chunk);
    MulSigns(1.5 * m - ratio, chunk);
    SameProduct(m, chunk);
    if q >= bound {
      MulOrder(bound, q, m);
    }
  }

  predicate SlicesFit(adv: real, parent: real)
    requires adv > 0.0 && parent > 0.0
  {
    forall i | 0 <= i < |Slices(adv, parent)| :: Slices(adv, parent)[i].quantity <= ChunkSize(adv)
  }

  /** Half-even rounding does not go down. */
  predicate RoundsUp(r: real) {
    var part := r - r.Floor as real;
    part == 0.0 || part > 0.5 || (part == 0.5 && r.Floor % 2 == 1)
  }

  lemma RoundsUpMeans(r: real)
    ensures RoundsUp(r) <==> r <= RoundHalfEven(r) as real
  {
  }

  lemma ShareFitsIff(parent: real, n: int, chunk: real)
    requires n >= 1 && chunk > 0.0
    ensures Div(parent, n as real) <= chunk <==> parent <= Mul(n as real, chunk)
    ensures Div(parent, chunk) <= n as real <==> parent <= Mul(n as real, chunk)
  {
    hide Mul, Div;
    QuotientAtMostIff(parent, n as real, chunk);
    QuotientAtMostIff(parent, chunk, n as real);
    MulCommutes(n as real, chunk);
  }

  lemma CountIs(adv: real, parent: real)
    requires adv > 0.0 && parent > 0.0
    ensures var capped := IntMin(WantedChunks(adv, parent), MAX_CHUNKS);
            NumChunks(adv, parent) == if parent < capped as real then IntMax(1, parent.Floor) else capped
  {
    hide Mul, Div, WantedChunks;
    var capped := IntMin(WantedChunks(adv, parent), MAX_CHUNKS);
    assert WantedChunks(adv, parent) >= 1;
    FewerThanCapped(parent, capped);
    if Div(parent, capped as real) >= 1.0 {
      DivMul(parent, capped as real);
      MulOrder(1.0, Div(parent, capped as real), capped as real);
      MulSigns(1.0, capped as real);
    }
  }

  /**
   Exactly when no slice exceeds 5% of ADV. If neither bound touches the count, when the number of chunks the order
   fills rounds up; never once the rate cap has cut the count; and once the one-share floor has, when the whole shares
   of the order, one chunk each, cover it.
   */
  lemma SlicesFitTheirChunkIff(adv: real, parent: real)
    requires adv > 0.0 && parent > ChunkSize(adv)
    ensures SlicesFit(adv, parent) <==>
              if parent < IntMin(WantedChunks(adv, parent), MAX_CHUNKS) as real then
                parent <= Mul(IntMax(1, parent.Floor) as real, ChunkSize(adv))
              else WantedChunks(adv, parent) <= MAX_CHUNKS && RoundsUp(Div(parent, ChunkSize(adv)))
  {
    hide Mul, Div, RoundsUp, RoundHalfEven, NumChunks;
    var chunk, n := ChunkSize(adv), NumChunks(adv, parent);
    var r, wanted := Div(parent, chunk), WantedChunks(adv, parent);
    var capped := IntMin(wanted, MAX_CHUNKS);
    assert |Slices(adv, parent)| == n && Slices(adv, parent)[0].quantity == Div(parent, n as real);
    assert SlicesFit(adv, parent) <==> Div(parent, n as real) <= chunk;
    ShareFitsIff(parent, n, chunk);
    CountIs(adv, parent);
    RoundsUpMeans(r);
    MulSigns(1.0, chunk);
    ShareFitsIff(parent, 1, chunk);
    assert r > 1.0 && RoundHalfEven(r) >= 1;
  }

  /** 120 shares against a chunk of 50 round to two slices of 60. */
  lemma SliceOverItsChunk()
    ensures ChunkSize(1000.0) == 50.0 && |Slices(1000.0, 120.0)| == 2
    ensures Slices(1000.0, 120.0)[0].quantity == Slices(1000.0, 120.0)[1].quantity == 60.0
  {
    assert Div(120.0, 50.0) == 2.4;
    RoundHalfEvenIsUnique(2.4, 2);
    assert Div(120.0, 2.0) == 60.0;
  }

  /** `n` chunks come closest to the order; of two equally close counts, the even one. */
  predicate IsNearestCount(parent: real, chunk: real, n: int) {
    var miss := 2.0 * (parent - Mul(n as real, chunk));
    -chunk <= miss <= chunk && (miss == chunk || miss == -chunk ==> n % 2 == 0)
  }

  lemma HalfOfChunk(d: real, chunk: real)
    requires chunk > 0.0
    ensures -chunk <= 2.0 * Mul(d, chunk) <= chunk <==> -0.5 <= d <= 0.5
    ensures 2.0 * Mul(d, chunk) == chunk <==> d == 0.5
    ensures 2.0 * Mul(d, chunk) == -chunk <==> d == -0.5
  {
  }

  lemma NearestCountIsRounding(parent: real, chunk: real, n: int)
    requires chunk > 0.0 && IsNearestCount(parent, chunk, n)
    ensures RoundHalfEven(Div(parent, chunk)) == n
  {
    hide Mul, Div;
    var x := Div(parent, chunk);
    var d := x - n as real;
    DivMul(parent, chunk);
    MulDistributes(x, n as real, chunk);
    assert 2.0 * Mul(d, chunk) == 2.0 * (parent - Mul(n as real, chunk));
    HalfOfChunk(d, chunk);
    RoundHalfEvenIsUnique(x, n);
  }

  lemma BatchMeans(parent: real, n: int, i: int)
    requires parent > 0.0 && 0 <= i < n
    ensures var b := Batch(parent, n, i);
            && Mul(b.quantity, n as real) == parent && Mul(b.cumulativePct, n as real) == 100.0 * (i + 1) as real
            && Mul(b.startAt, n as real) == 1800000.0 * i as real
            && Mul(b.endAt, n as real) == 1800000.0 * (i + 1) as real
  {
  }

  /** An order within 5% of ADV goes out as one slice at once. */
  lemma SmallOrderIsOneSlice(adv: real, parent: real)
    requires adv > 0.0 && 0.0 < 20.0 * parent <= adv
    ensures Slices(adv, parent) == [SliceBatch(parent, 100.0, 0.0, 0.0)]
  {
  }

  /**
   A larger one goes out in `k` equal slices of equal length over half an hour, where `k` is the count that comes
   closest to chunks of 5% of ADV, at least 1 and at most 112500; or as many slices as it has whole shares if that is
   fewer.
   */
  lemma SliceCountMeans(adv: real, parent: real, nearest: int)
    requires adv > 0.0 && 20.0 * parent > adv && IsNearestCount(parent, adv / 20.0, nearest)
    ensures var out, wanted := Slices(adv, parent), IntMin(IntMax(1, nearest), 112500);
            && |out| == (if parent < wanted as real then IntMax(1, parent.Floor) else wanted)
            && forall i | 0 <= i < |out| ::
                 && Mul(out[i].quantity, |out| as real) == parent
                 && Mul(out[i].cumulativePct, |out| as real) == 100.0 * (i + 1) as real
                 && Mul(out[i].startAt, |out| as real) == 1800000.0 * i as real
                 && Mul(out[i].endAt, |out| as real) == 1800000.0 * (i + 1) as real
  {
    assert ChunkSize(adv) == adv / 20.0;
    hide Mul, Div, Batch, NumChunks, IsNearestCount;
    NearestCountIsRounding(parent, adv / 20.0, nearest);
    CountIs(adv, parent);
    var out, n := Slices(adv, parent), NumChunks(adv, parent);
    forall i | 0 <= i < n
      ensures out[i] == Batch(parent, n, i)
      ensures Mul(out[i].quantity, n as real) == parent
      ensures Mul(out[i].cumulativePct, n as real) == 100.0 * (i + 1) as real
      ensures Mul(out[i].startAt, n as real) == 1800000.0 * i as real
      ensures Mul(out[i].endAt, n as real) == 1800000.0 * (i + 1) as real
    {
      BatchMeans(parent, n, i);
    }
  }

  // ------------------------------------------------------------ the order flow

  datatype OrderStatus = Pending | Submitted | Filled | Rejected | Cancelled

  /** One `place_order`: a status, or a BrokerError. */
  datatype BrokerReply = Status(status: OrderStatus) | BrokerError

  /** How the ADV of the ticker was obtained. */
  datatype AdvReply = NotConfigured | Unavailable | Adv(shares: real)

  datatype Refusal = AdvUnavailable | AdvInvalid

  datatype OrderFlowResult = OrderFlowResult(refusal: Option<Refusal>, sent: seq<real>, submitted: seq<OrderStatus>,
                                             finalStatus: OrderStatus, filledCount: nat, rejectedCount: nat)

  function Outcome(reply: BrokerReply): OrderStatus {
    if reply.Status? then reply.status else Rejected
  }

  function Count(statuses: seq<OrderStatus>, wanted: OrderStatus): nat {
    if statuses == [] then 0
    else Count(statuses[..|statuses| - 1], wanted) + if statuses[|statuses| - 1] == wanted then 1 else 0
  }

  predicate All(statuses: seq<OrderStatus>, wanted: OrderStatus) {
    forall i | 0 <= i < |statuses| :: statuses[i] == wanted
  }

  lemma {:induction false} CountAll(statuses: seq<OrderStatus>, wanted: OrderStatus)
    ensures Count(statuses, wanted) <= |statuses|
    ensures Count(statuses, wanted) == |statuses| <==> All(statuses, wanted)
  {
    if statuses != [] {
      var front := statuses[..|statuses| - 1];
      CountAll(front, wanted);
      assert All(statuses, wanted) <==> All(front, wanted) && statuses[|statuses| - 1] == wanted by {
        assert statuses == front + [statuses[|statuses| - 1]];
      }
    }
  }

  /** The intent `submit_market` puts before the gate: no sector. */
  function GateIntent(symbol: string, side: RiskGate.Side, quantity: real, price: real): RiskGate.TradeIntent {
    RiskGate.TradeIntent(symbol, side, quantity, price, None)
  }

  /** One position of the broker's snapshot. */
  datatype Holding = Holding(ticker: string, quantity: real, avgPrice: real)

  predicate ValidHoldings(holdings: seq<Holding>) {
    forall i | 0 <= i < |holdings| :: holdings[i].quantity >= 0.0 && holdings[i].avgPrice > 0.0
  }

  /** `_portfolio_to_state_impl`: positions without a sector, and a peak that is never below the NAV. */
  function GateState(nav: real, holdings: seq<Holding>, peak: Option<real>, dailyPnl: real): RiskGate.PortfolioState {
    RiskGate.PortfolioState(
      nav,
      seq(|holdings|, i requires 0 <= i < |holdings| =>
        RiskGate.Position(holdings[i].ticker, holdings[i].quantity, holdings[i].avgPrice, None)),
      dailyPnl, if peak.Some? then Max(peak.value, nav) else nav)
  }

  /**
   On this path the sector limit never acts. Tagging the order alone would change the verdict exactly for allowed
   orders whose own notional is over the sector cap: never for a BUY if a name may not take more than a sector, but for
   a large SELL even of shares that are held, which the sector check would count as new exposure.
   */
  lemma FlowIgnoresTheSectorLimit(l: RiskGate.Limits, s: RiskGate.PortfolioState, nav: real, holdings: seq<Holding>,
                                  peak: Option<real>, dailyPnl: real, sent: RiskGate.TradeIntent, sector: string)
    requires nav > 0.0 && ValidHoldings(holdings) && s == GateState(nav, holdings, peak, dailyPnl)
    requires RiskGate.ValidLimits(l) && RiskGate.ValidIntent(sent)
    requires sent == GateIntent(sent.symbol, sent.side, sent.quantity, sent.price)
    ensures RiskGate.ValidState(s)
    ensures var tagged := sent.(sector := Some(sector));
            && RiskGate.SectorExposure !in RiskGate.Violations(l, sent, s)
            && (RiskGate.Allowed(l, sent, s) != RiskGate.Allowed(l, tagged, s) <==>
                  && RiskGate.Allowed(l, sent, s)
                  && RiskGate.PctOf(Mul(sent.quantity, sent.price), s.totalEquity) > l.maxSectorPct)
            && (sent.side.Buy? && l.maxPositionPct <= l.maxSectorPct ==>
                  RiskGate.Allowed(l, sent, s) == RiskGate.Allowed(l, tagged, s))
            && (sent.side.Sell? && sent.quantity <= RiskGate.Held(s.positions, sent.symbol) ==>
                  RiskGate.PositionLevel(sent, s) == 0.0 && RiskGate.SectorLevel(tagged, s) == sent.quantity)
  {
    hide RiskGate.Violations, RiskGate.Allowed, RiskGate.PctOf, Mul;
    var tagged := sent.(sector := Some(sector));
    assert tagged.(sector := None) == sent;
    RiskGate.DroppingTheSectorMattersIff(l, tagged, s);
    RiskGate.UntaggedTagMattersIff(l, tagged, s);
    RiskGate.UntaggedSectorLevel(tagged, s);
    if sent.side.Buy? && l.maxPositionPct <= l.maxSectorPct {
      RiskGate.UntaggedBuyNeedsNoTag(l, tagged, s);
    }
  }

  lemma OneHolding(ps: seq<RiskGate.Position>, symbol: string, quantity: real, price: real, sector: string)
    requires ps == [RiskGate.Position(symbol, quantity, price, None)]
    ensures RiskGate.Held(ps, symbol) == quantity && RiskGate.SectorQuantity(ps, Some(sector)) == 0.0
    ensures RiskGate.HeldInSector(ps, symbol, Some(sector)) == 0.0
  {
    assert ps[..0] == [];
    RiskGate.UntaggedHoldsNothing(ps, symbol, Some(sector));
  }

  /** With the switches quiet, selling what is held can only break the sector limit, and only if it is tagged. */
  lemma HeldSale(l: RiskGate.Limits, t: RiskGate.TradeIntent, s: RiskGate.PortfolioState)
    requires RiskGate.ValidLimits(l) && s.totalEquity > 0.0 && s.dailyPnl >= 0.0 && s.peakEquity == s.totalEquity
    requires t.side.Sell? && t.quantity <= RiskGate.Held(s.positions, t.symbol) && t.price != 1.0
    requires t.sector.Some? ==>
            RiskGate.HeldInSector(s.positions, t.symbol, t.sector) == RiskGate.SectorQuantity(s.positions, t.sector)
              == 0.0
    requires t.quantity > 0.0
    ensures forall v :: RiskGate.Breaks(v, l, t, s) <==>
              v == RiskGate.SectorExposure && t.sector.Some?
              && RiskGate.Exceeds(t.quantity, t.price, l.maxSectorPct, s.totalEquity)
  {
    MulSigns(0.0, 1.0);
    MulSigns(0.0, 100.0);
    MulSigns(l.maxDdPct, s.totalEquity);
  }

  /**
   Selling a whole holding worth 40% of equity: allowed here, stopped by a 30% sector cap if the order were tagged.
   */
  lemma TagWouldStopASale()
    ensures var l, s := RiskGate.Limits(10.0, 10.0, 30.0, 3.0),
            GateState(1000.0, [Holding("A", 4.0, 100.0)], None, 0.0);
            var sent := GateIntent("A", RiskGate.Sell, 4.0, 100.0);
            && RiskGate.ValidState(s) && RiskGate.Allowed(l, sent, s)
            && RiskGate.Violations(l, sent.(sector := Some("x")), s) == [RiskGate.SectorExposure]
  {
    hide RiskGate.Breaks, RiskGate.Violations, RiskGate.Allowed;
    var l, s := RiskGate.Limits(10.0, 10.0, 30.0, 3.0), GateState(1000.0, [Holding("A", 4.0, 100.0)], None, 0.0);
    var sent := GateIntent("A", RiskGate.Sell, 4.0, 100.0);
    var tagged := sent.(sector := Some("x"));
    OneHolding(s.positions, "A", 4.0, 100.0, "x");
    assert RiskGate.Exceeds(4.0, 100.0, 30.0, 1000.0);
    HeldSale(l, sent, s);
    HeldSale(l, tagged, s);
    RiskGate.GateMeans(l, sent, s);
    RiskGate.SoleViolation(l, tagged, s, RiskGate.SectorExposure);
  }

  /** The ADV the slicer is given: the configured value, or the documented one-chunk placeholder. */
  function EffectiveAdv(adv: AdvReply, quantity: real): real {
    if adv.Adv? then adv.shares else Max(quantity * 20.0, 100.0)
  }

  /** The placeholder ADV always leads to a single slice. */
  lemma PlaceholderIsOneSlice(quantity: real)
    requires quantity > 0.0
    ensures |Slices(EffectiveAdv(NotConfigured, quantity), quantity)| == 1
  {
  }

  /** The status of the whole order, from those of its slices. */
  method Conclude(submitted: seq<OrderStatus>) returns (final: OrderStatus, filledCount: nat, rejectedCount: nat)
    ensures final == Filled <==> submitted != [] && All(submitted, Filled)
    ensures final == Rejected <==> All(submitted, Rejected)
    ensures final == Submitted <==> submitted != [] && !All(submitted, Filled) && !All(submitted, Rejected)
    ensures filledCount == Count(submitted, Filled) && rejectedCount == Count(submitted, Rejected)
  {
    filledCount, rejectedCount := Count(submitted, Filled), Count(submitted, Rejected);
    CountAll(submitted, Filled);
    CountAll(submitted, Rejected);
    if submitted == [] {
      final := Rejected;
    } else if rejectedCount == |submitted| {
      final := Rejected;
    } else if filledCount == |submitted| {
      final := Filled;
    } else {
      final := Submitted;
    }
    assert submitted != [] && All(submitted, Filled) ==> submitted[0] == Filled;
  }

  /**
   `submit_market` from gate approval on. What is sent to the broker adds up to the approved quantity; the final
   status is FILLED exactly when every slice filled, REJECTED exactly when nothing was sent or every slice was
   refused, and SUBMITTED otherwise.
   */
  method SubmitApproved(quantity: real, adv: AdvReply, replies: seq<BrokerReply>) returns (r: OrderFlowResult)
    requires quantity >= 0.0
    requires quantity > 0.0 && EffectiveAdv(adv, quantity) > 0.0 ==>
            |replies| >= |Slices(EffectiveAdv(adv, quantity), quantity)|
    ensures r.refusal == Some(AdvUnavailable) <==> adv.Unavailable?
    ensures r.refusal == Some(AdvInvalid) <==> adv.Adv? && adv.shares <= 0.0
    ensures r.refusal.Some? || quantity == 0.0 ==> r.sent == []
    ensures r.refusal.None? && quantity > 0.0 ==> r.sent != [] && Sum(r.sent) == quantity
    ensures |r.submitted| == |r.sent| && forall i | 0 <= i < |r.sent| :: r.sent[i] > 0.0
    ensures r.refusal.None? && quantity > 0.0 ==>
              && |r.sent| == |Slices(EffectiveAdv(adv, quantity), quantity)|
              && forall i | 0 <= i < |r.sent| :: r.sent[i] == Slices(EffectiveAdv(adv, quantity), quantity)[i].quantity
    ensures r.refusal.None? && quantity > 0.0 ==>
              |r.sent| <= |replies| && forall i | 0 <= i < |r.sent| :: r.submitted[i] == Outcome(replies[i])
    ensures r.finalStatus == Filled <==> r.submitted != [] && All(r.submitted, Filled)
    ensures r.finalStatus == Rejected <==> All(r.submitted, Rejected)
    ensures r.finalStatus == Submitted <==>
              r.submitted != [] && !All(r.submitted, Filled) && !All(r.submitted, Rejected)
    ensures r.filledCount == Count(r.submitted, Filled) && r.rejectedCount == Count(r.submitted, Rejected)
  {
    hide Mul, Div, Slices, NumChunks, WantedChunks, Batch;
    if adv.Unavailable? {
      return OrderFlowResult(Some(AdvUnavailable), [], [], Rejected, 0, 0);
    }
    var advShares := EffectiveAdv(adv, quantity);
    if adv.Adv? && advShares <= 0.0 {
      return OrderFlowResult(Some(AdvInvalid), [], [], Rejected, 0, 0);
    }
    var slices: seq<SliceBatch> := [];
    if advShares > 0.0 && quantity > 0.0 {
      var slicer := new OrderSlicer(advShares, quantity);
      slices := slicer.Slice();
      SlicingConserves(advShares, quantity);
    }
    var sent, submitted := [], [];
    for i := 0 to |slices|
      invariant |sent| == |submitted| == i
      invariant Sum(sent) == TotalQuantity(slices[..i])
      invariant forall k | 0 <= k < i :: sent[k] == slices[k].quantity && submitted[k] == Outcome(replies[k])
    {
      assert slices[..i + 1][..i] == slices[..i];
      var status := if replies[i].Status? then replies[i].status else Rejected;
      assert (sent + [slices[i].quantity])[..i] == sent;
      sent := sent + [slices[i].quantity];
      submitted := submitted + [status];
    }
    assert slices[..|slices|] == slices;
    var final, filledCount, rejectedCount := Conclude(submitted);
    r := OrderFlowResult(None, sent, submitted, final, filledCount, rejectedCount);
  }
}
