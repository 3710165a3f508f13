/** The hard-limit gate every order passes: src/risk/gate.py. */
module RiskGate {
  import opened Algebra
  import opened Common

  datatype Side = Buy | Sell

  datatype Position = Position(symbol: string, quantity: real, avgPrice: real, sector: Option<string>)

  datatype TradeIntent = TradeIntent(symbol: string, side: Side, quantity: real, price: real, sector: Option<string>)

  datatype PortfolioState = PortfolioState(totalEquity: real, positions: seq<Position>, dailyPnl: real,
    peakEquity: real)

  datatype Limits = Limits(maxDdPct: real, maxPositionPct: real, maxSectorPct: real, maxDailyLossPct: real)

  datatype Violation = MarketOrderNoQuote | PositionSize | SectorExposure | DailyLoss | Drawdown

  /** What the pydantic models validate on construction. */
  predicate ValidState(s: PortfolioState) {
    && 0.0 < s.totalEquity <= s.peakEquity
    && forall i | 0 <= i < |s.positions| :: s.positions[i].quantity >= 0.0 && s.positions[i].avgPrice > 0.0
  }

  predicate ValidIntent(t: TradeIntent) {
    t.quantity >= 0.0 && t.price > 0.0
  }

  predicate ValidLimits(l: Limits) {
    && 0.0 < l.maxDdPct <= 100.0 && 0.0 < l.maxPositionPct <= 100.0
    && 0.0 < l.maxSectorPct <= 100.0 && 0.0 < l.maxDailyLossPct <= 100.0
  }

  // --------------------------------------------------------------- quantities

  function Held(ps: seq<Position>, symbol: string): real {
    if ps == [] then 0.0
    else Held(ps[..|ps| - 1], symbol) + if ps[|ps| - 1].symbol == symbol then ps[|ps| - 1].quantity else 0.0
  }

  function HeldInSector(ps: seq<Position>, symbol: string, sector: Option<string>): real {
    if ps == [] then 0.0
    else
      HeldInSector(ps[..|ps| - 1], symbol, sector)
      + if ps[|ps| - 1].symbol == symbol && ps[|ps| - 1].sector == sector then ps[|ps| - 1].quantity else 0.0
  }

  function SectorQuantity(ps: seq<Position>, sector: Option<string>): real {
    if ps == [] then 0.0
    else SectorQuantity(ps[..|ps| - 1], sector) + if ps[|ps| - 1].sector == sector then ps[|ps| - 1].quantity else 0.0
  }

  /** `value / equity * 100`. */
  function PctOf(value: real, equity: real): real
    requires equity > 0.0
  {
    Mul(Div(value, equity), 100.0)
  }

  /** The quantity whose notional the position check marks: what a BUY leads to, or what a SELL opens short. */
  function PositionLevel(t: TradeIntent, s: PortfolioState): real {
    var held := Held(s.positions, t.symbol);
    if t.side.Sell? then t.quantity - Min(t.quantity, held) else held + t.quantity
  }

  /** The sector quantity after the trade. */
  function SectorLevel(t: TradeIntent, s: PortfolioState): real {
    var sector := SectorQuantity(s.positions, t.sector);
    if t.side.Sell? then
      var trim := Min(t.quantity, HeldInSector(s.positions, t.symbol, t.sector));
      sector - trim + (t.quantity - trim)
    else sector + t.quantity
  }

  // ----------------------------------------------------------- the four limits

  predicate NoQuote(t: TradeIntent) {
    t.price == 1.0 && t.quantity > 1.0
  }

  predicate PositionOk(l: Limits, level: real, price: real, equity: real)
    requires equity > 0.0
  {
    Mul(level, price) <= 0.0 || PctOf(Mul(level, price), equity) <= l.maxPositionPct
  }

  predicate SectorOk(l: Limits, level: real, price: real, equity: real, sector: Option<string>)
    requires equity > 0.0
  {
    sector.None? || PctOf(Mul(level, price), equity) <= l.maxSectorPct
  }

  predicate DailyLossOk(l: Limits, s: PortfolioState)
    requires s.totalEquity > 0.0
  {
    s.dailyPnl >= 0.0 || PctOf(-s.dailyPnl, s.totalEquity) <= l.maxDailyLossPct
  }

  predicate DrawdownOk(l: Limits, s: PortfolioState)
    requires s.peakEquity > 0.0
  {
    PctOf(s.peakEquity - s.totalEquity, s.peakEquity) <= l.maxDdPct
  }

  function With(vs: seq<Violation>, v: Violation, broken: bool): seq<Violation> {
    if broken then vs + [v] else vs
  }

  /** Every limit the intent would break, in the order the gate reports them. */
  function Violations(l: Limits, t: TradeIntent, s: PortfolioState): seq<Violation>
    requires ValidState(s)
  {
    var quoted := With([], MarketOrderNoQuote, NoQuote(t));
    var sized := With(quoted, PositionSize, !PositionOk(l, PositionLevel(t, s), t.price, s.totalEquity));
    var placed := With(sized, SectorExposure, !SectorOk(l, SectorLevel(t, s), t.price, s.totalEquity, t.sector));
    With(With(placed, DailyLoss, !DailyLossOk(l, s)), Drawdown, !DrawdownOk(l, s))
  }

  predicate Allowed(l: Limits, t: TradeIntent, s: PortfolioState)
    requires ValidState(s)
  {
    && !NoQuote(t)
    && PositionOk(l, PositionLevel(t, s), t.price, s.totalEquity)
    && SectorOk(l, SectorLevel(t, s), t.price, s.totalEquity, t.sector)
    && DailyLossOk(l, s) && DrawdownOk(l, s)
  }

  class Gate {
    const limits: Limits

    constructor (limits: Limits)
      ensures this.limits == limits
    {
      this.limits := limits;
    }

    /** `evaluate`: reports every broken limit, and allows exactly when there is none. */
    method Evaluate(t: TradeIntent, s: PortfolioState) returns (allowed: bool, violations: seq<Violation>)
      requires ValidState(s) && ValidIntent(t)
      ensures violations == Violations(limits, t, s)
      ensures allowed <==> violations == []
      ensures allowed <==> Allowed(limits, t, s)
    {
      violations := [];
      if t.price == 1.0 && t.quantity > 1.0 {
        violations := violations + [MarketOrderNoQuote];
      }
      violations := CheckPositionSize(t, s, violations);
      violations := CheckSectorExposure(t, s, violations);
      violations := CheckDailyLoss(s, violations);
      violations := CheckDrawdown(s, violations);
      allowed := violations == [];
    }

    method CheckPositionSize(t: TradeIntent, s: PortfolioState, before: seq<Violation>)
      returns (violations: seq<Violation>)
      requires ValidState(s)
      ensures violations
           == With(before, PositionSize, !PositionOk(limits, PositionLevel(t, s), t.price, s.totalEquity))
    {
      hide Mul, Div;
      violations := before;
      var existing := 0.0;
      for i := 0 to |s.positions|
        invariant existing == Held(s.positions[..i], t.symbol)
      {
        assert s.positions[..i + 1][..i] == s.positions[..i];
        if s.positions[i].symbol == t.symbol {
          existing := existing + s.positions[i].quantity;
        }
      }
      assert s.positions[..|s.positions|] == s.positions;
      var effective;
      if t.side.Sell? {
        var trim := Min(t.quantity, existing);
        effective := Mul(t.quantity - trim, t.price);
      } else {
        effective := Mul(existing + t.quantity, t.price);
      }
      if effective <= 0.0 {
        return;
      }
      if PctOf(effective, s.totalEquity) > limits.maxPositionPct {
        violations := violations + [PositionSize];
      }
    }

    method CheckSectorExposure(t: TradeIntent, s: PortfolioState, before: seq<Violation>)
      returns (violations: seq<Violation>)
      requires ValidState(s)
      ensures violations
           == With(before, SectorExposure, !SectorOk(limits, SectorLevel(t, s), t.price, s.totalEquity, t.sector))
    {
      hide Mul, Div;
      violations := before;
      if t.sector.None? {
        return;
      }
      var value, own := 0.0, 0.0;
      MulSigns(0.0, t.price);
      for i := 0 to |s.positions|
        invariant value == Mul(SectorQuantity(s.positions[..i], t.sector), t.price)
        invariant own == HeldInSector(s.positions[..i], t.symbol, t.sector)
      {
        assert s.positions[..i + 1][..i] == s.positions[..i];
        var p := s.positions[i];
        MulDistributes(SectorQuantity(s.positions[..i], t.sector), p.quantity, t.price);
        if p.sector == t.sector {
          value := value + Mul(p.quantity, t.price);
          if p.symbol == t.symbol {
            own := own + p.quantity;
          }
        }
      }
      assert s.positions[..|s.positions|] == s.positions;
      var sector := SectorQuantity(s.positions, t.sector);
      var projected;
      if t.side.Sell? {
        var trim := Min(t.quantity, own);
        projected := value - Mul(trim, t.price) + Mul(t.quantity - trim, t.price);
        MulDistributes(sector, trim, t.price);
        MulDistributes(sector - trim, t.quantity - trim, t.price);
      } else {
        projected := value + Mul(t.quantity, t.price);
        MulDistributes(sector, t.quantity, t.price);
      }
      assert projected == Mul(SectorLevel(t, s), t.price);
      if PctOf(projected, s.totalEquity) > limits.maxSectorPct {
        violations := violations + [SectorExposure];
      }
    }

    method CheckDailyLoss(s: PortfolioState, before: seq<Violation>) returns (violations: seq<Violation>)
      requires ValidState(s)
      ensures violations == With(before, DailyLoss, !DailyLossOk(limits, s))
    {
      violations := before;
      if s.dailyPnl >= 0.0 {
        return;
      }
      if PctOf(-s.dailyPnl, s.totalEquity) > limits.maxDailyLossPct {
        violations := violations + [DailyLoss];
      }
    }

    method CheckDrawdown(s: PortfolioState, before: seq<Violation>) returns (violations: seq<Violation>)
      requires ValidState(s)
      ensures violations == With(before, Drawdown, !DrawdownOk(limits, s))
    {
      violations := before;
      if PctOf(s.peakEquity - s.totalEquity, s.peakEquity) > limits.maxDdPct {
        violations := violations + [Drawdown];
      }
    }
  }

  // ------------------------------------------------------------- monotonicity

  /** A smaller level never breaks a limit a larger one keeps. */
  lemma SmallerLevelStaysOk(l: Limits, a: real, b: real, price: real, equity: real, sector: Option<string>)
    requires 0.0 <= a <= b && price > 0.0 && equity > 0.0
    ensures PositionOk(l, b, price, equity) ==> PositionOk(l, a, price, equity)
    ensures SectorOk(l, b, price, equity, sector) ==> SectorOk(l, a, price, equity, sector)
  {
  }

  lemma {:induction false} QuantitiesNonNegative(ps: seq<Position>, symbol: string, sector: Option<string>)
    requires forall i | 0 <= i < |ps| :: ps[i].quantity >= 0.0
    ensures Held(ps, symbol) >= 0.0 && 0.0 <= HeldInSector(ps, symbol, sector) <= SectorQuantity(ps, sector)
  {
    if ps != [] {
      QuantitiesNonNegative(ps[..|ps| - 1], symbol, sector);
    }
  }

  // ------------------------------------------------ the limits as plain inequalities

  /** The quantities of the positions that `chosen` picks, 0 for the others. */
  function QuantitiesOf(ps: seq<Position>, chosen: Position -> bool): (out: seq<real>)
    ensures |out| == |ps| && forall i | 0 <= i < |ps| :: out[i] == if chosen(ps[i]) then ps[i].quantity else 0.0
  {
    seq(|ps|, i requires 0 <= i < |ps| => if chosen(ps[i]) then ps[i].quantity else 0.0)
  }

  /** Every position counts once: of the symbol, of the symbol in the sector, and of the sector. */
  lemma {:induction false} HoldingsAreSums(ps: seq<Position>, symbol: string, sector: Option<string>,
                                           named: Position -> bool, tagged: Position -> bool, both: Position -> bool)
    requires forall p: Position ::
            && (named(p) <==> p.symbol == symbol) && (tagged(p) <==> p.sector == sector)
            && (both(p) <==> named(p) && tagged(p))
    ensures Held(ps, symbol) == Sum(QuantitiesOf(ps, named))
    ensures HeldInSector(ps, symbol, sector) == Sum(QuantitiesOf(ps, both))
    ensures SectorQuantity(ps, sector) == Sum(QuantitiesOf(ps, tagged))
  {
    if ps != [] {
      var n := |ps| - 1;
      HoldingsAreSums(ps[..n], symbol, sector, named, tagged, both);
      assert QuantitiesOf(ps, named)[..n] == QuantitiesOf(ps[..n], named);
      assert QuantitiesOf(ps, tagged)[..n] == QuantitiesOf(ps[..n], tagged);
      assert QuantitiesOf(ps, both)[..n] == QuantitiesOf(ps[..n], both);
    }
  }

  /** `quantity` shares at `price` are more than `pct` percent of `equity`. */
  predicate Exceeds(quantity: real, price: real, pct: real, equity: real) {
    Mul(Mul(quantity, price), 100.0) > Mul(pct, equity)
  }

  /**
   What each limit forbids, without dividing. A BUY is judged by the position it leads to, a SELL by what it sells
   beyond the holding; in the sector a SELL first takes the symbol's own shares out and then adds the rest as a short.
   */
  predicate Breaks(v: Violation, l: Limits, t: TradeIntent, s: PortfolioState) {
    var q, held, sector := t.quantity, Held(s.positions, t.symbol), SectorQuantity(s.positions, t.sector);
    var own := HeldInSector(s.positions, t.symbol, t.sector);
    match v
    case MarketOrderNoQuote => t.price == 1.0 && q > 1.0
    case PositionSize =>
      if t.side.Buy? then held + q > 0.0 && Exceeds(held + q, t.price, l.maxPositionPct, s.totalEquity)
      else q > held && Exceeds(q - held, t.price, l.maxPositionPct, s.totalEquity)
    case SectorExposure =>
      t.sector.Some? && Exceeds(if t.side.Buy? then sector + q else if q <= own then sector - q
                                else (sector - own) + (q - own), t.price, l.maxSectorPct, s.totalEquity)
    case DailyLoss => s.dailyPnl < 0.0 && Exceeds(-s.dailyPnl, 1.0, l.maxDailyLossPct, s.totalEquity)
    case Drawdown => Exceeds(s.peakEquity - s.totalEquity, 1.0, l.maxDdPct, s.peakEquity)
  }

  function Rank(v: Violation): int {
    match v
    case MarketOrderNoQuote => 0
    case PositionSize => 1
    case SectorExposure => 2
    case DailyLoss => 3
    case Drawdown => 4
  }

  lemma PctExceedsIff(quantity: real, price: real, pct: real, equity: real)
    requires equity > 0.0
    ensures PctOf(Mul(quantity, price), equity) > pct <==> Exceeds(quantity, price, pct, equity)
  {
  }

  lemma TradeBreaksIff(l: Limits, t: TradeIntent, s: PortfolioState)
    requires ValidState(s) && ValidIntent(t)
    ensures PositionOk(l, PositionLevel(t, s), t.price, s.totalEquity) <==> !Breaks(PositionSize, l, t, s)
    ensures SectorOk(l, SectorLevel(t, s), t.price, s.totalEquity, t.sector) <==> !Breaks(SectorExposure, l, t, s)
  {
    hide Mul, Div, PctOf, Exceeds;
    var level := PositionLevel(t, s);
    QuantitiesNonNegative(s.positions, t.symbol, t.sector);
    MulSigns(level, t.price);
    PctExceedsIff(level, t.price, l.maxPositionPct, s.totalEquity);
    PctExceedsIff(SectorLevel(t, s), t.price, l.maxSectorPct, s.totalEquity);
  }

  lemma SwitchBreaksIff(l: Limits, t: TradeIntent, s: PortfolioState)
    requires ValidState(s)
    ensures DailyLossOk(l, s) <==> !Breaks(DailyLoss, l, t, s)
    ensures DrawdownOk(l, s) <==> !Breaks(Drawdown, l, t, s)
  {
    hide Mul, Div, PctOf, Exceeds;
    MulSigns(-s.dailyPnl, 1.0);
    MulSigns(s.peakEquity - s.totalEquity, 1.0);
    PctExceedsIff(-s.dailyPnl, 1.0, l.maxDailyLossPct, s.totalEquity);
    PctExceedsIff(s.peakEquity - s.totalEquity, 1.0, l.maxDdPct, s.peakEquity);
  }

  predicate InOrder(vs: seq<Violation>) {
    forall i, j | 0 <= i < j < |vs| :: Rank(vs[i]) < Rank(vs[j])
  }

  lemma WithInOrder(vs: seq<Violation>, v: Violation, broken: bool)
    requires InOrder(vs) && forall w | w in vs :: Rank(w) < Rank(v)
    ensures InOrder(With(vs, v, broken))
    ensures forall w :: w in With(vs, v, broken) <==> w in vs || (broken && w == v)
    ensures With(vs, v, broken) == [] <==> vs == [] && !broken
  {
  }

  lemma FiveInOrder(a: bool, b: bool, c: bool, d: bool, e: bool)
    ensures var v2 := With(With([], MarketOrderNoQuote, a), PositionSize, b);
            var vs := With(With(With(v2, SectorExposure, c), DailyLoss, d), Drawdown, e);
            && InOrder(vs)
            && (MarketOrderNoQuote in vs <==> a) && (PositionSize in vs <==> b) && (SectorExposure in vs <==> c)
            && (DailyLoss in vs <==> d) && (Drawdown in vs <==> e)
            && (vs == [] <==> !a && !b && !c && !d && !e)
  {
    hide With;
    assert InOrder([]);
    hide InOrder;
    var v1 := With([], MarketOrderNoQuote, a);
    WithInOrder([], MarketOrderNoQuote, a);
    var v2 := With(v1, PositionSize, b);
    WithInOrder(v1, PositionSize, b);
    var v3 := With(v2, SectorExposure, c);
    WithInOrder(v2, SectorExposure, c);
    var v4 := With(v3, DailyLoss, d);
    WithInOrder(v3, DailyLoss, d);
    WithInOrder(v4, Drawdown, e);
  }

  /** The gate reports exactly the limits the trade breaks, each once and in order. */
  lemma GateMeans(l: Limits, t: TradeIntent, s: PortfolioState)
    requires ValidState(s) && ValidIntent(t)
    ensures InOrder(Violations(l, t, s)) && forall v :: v in Violations(l, t, s) <==> Breaks(v, l, t, s)
    ensures Allowed(l, t, s) <==> forall v :: !Breaks(v, l, t, s)
  {
    hide PositionOk, SectorOk, DailyLossOk, DrawdownOk, PositionLevel, SectorLevel, InOrder, With;
    var a, b := Breaks(MarketOrderNoQuote, l, t, s), Breaks(PositionSize, l, t, s);
    var c, d, e := Breaks(SectorExposure, l, t, s), Breaks(DailyLoss, l, t, s), Breaks(Drawdown, l, t, s);
    assert NoQuote(t) <==> a;
    hide Breaks, NoQuote;
    TradeBreaksIff(l, t, s);
    SwitchBreaksIff(l, t, s);
    FiveInOrder(a, b, c, d, e);
    forall v
      ensures v in Violations(l, t, s) <==> Breaks(v, l, t, s)
    {
      match v
      case MarketOrderNoQuote =>
      case PositionSize =>
      case SectorExposure =>
      case DailyLoss =>
      case Drawdown =>
    }
  }

  lemma FirstTwoDiffer(vs: seq<Violation>)
    requires InOrder(vs) && |vs| > 1
    ensures vs[0] in vs && vs[1] in vs && vs[0] != vs[1]
  {
    assert Rank(vs[0]) < Rank(vs[1]);
  }

  lemma SoleInOrder(vs: seq<Violation>, v: Violation)
    requires InOrder(vs) && forall w :: w in vs <==> w == v
    ensures vs == [v]
  {
    assert v in vs;
    if |vs| > 1 {
      FirstTwoDiffer(vs);
    }
  }

  lemma SoleViolation(l: Limits, t: TradeIntent, s: PortfolioState, v: Violation)
    requires ValidState(s) && ValidIntent(t) && forall w :: Breaks(w, l, t, s) <==> w == v
    ensures Violations(l, t, s) == [v]
  {
    GateMeans(l, t, s);
    hide Violations, Breaks, Allowed, InOrder;
    SoleInOrder(Violations(l, t, s), v);
  }

  /** Selling short 1000 shares at 100 on an equity of 1000 is refused for its size. */
  lemma NakedShortIsRefused()
    ensures var l, s := Limits(15.0, 10.0, 25.0, 3.0), PortfolioState(1000.0, [], 0.0, 1000.0);
            Violations(l, TradeIntent("X", Sell, 1000.0, 100.0, None), s) == [PositionSize]
  {
    var l, s := Limits(15.0, 10.0, 25.0, 3.0), PortfolioState(1000.0, [], 0.0, 1000.0);
    var t := TradeIntent("X", Sell, 1000.0, 100.0, None);
    assert Held([], "X") == 0.0;
    assert Exceeds(1000.0, 100.0, 10.0, 1000.0) && !Exceeds(0.0, 1.0, 15.0, 1000.0);
    hide Mul, Exceeds;
    assert Breaks(PositionSize, l, t, s);
    assert !Breaks(SectorExposure, l, t, s) && !Breaks(DailyLoss, l, t, s) && !Breaks(Drawdown, l, t, s);
    hide Breaks, Violations;
    SoleViolation(l, t, s, PositionSize);
  }

  // ----------------------------------------------------------- no ratcheting

  function Buying(t: TradeIntent, quantity: real): TradeIntent {
    t.(side := Buy, quantity := quantity)
  }

  /** The portfolio once an approved BUY has filled at the intent's price; equity, peak and P&L unchanged. */
  function Filled(s: PortfolioState, t: TradeIntent, quantity: real): PortfolioState {
    s.(positions := s.positions + [Position(t.symbol, quantity, t.price, t.sector)])
  }

  /** Each BUY of the run is approved against the portfolio left by the ones before it. */
  predicate RunApproved(l: Limits, s: PortfolioState, t: TradeIntent, quantities: seq<real>)
    requires ValidState(s) && t.price > 0.0 && forall i | 0 <= i < |quantities| :: quantities[i] >= 0.0
    decreases |quantities|
  {
    quantities == [] ||
    (Allowed(l, Buying(t, quantities[0]), s) && RunApproved(l, Filled(s, t, quantities[0]), t, quantities[1..]))
  }

  function Total(quantities: seq<real>): real {
    if quantities == [] then 0.0 else quantities[0] + Total(quantities[1..])
  }

  /** Every limit but the missing-quote sentinel, for a BUY of `quantity`. */
  predicate WithinLimits(l: Limits, s: PortfolioState, t: TradeIntent, quantity: real)
    requires ValidState(s)
  {
    && PositionOk(l, Held(s.positions, t.symbol) + quantity, t.price, s.totalEquity)
    && SectorOk(l, SectorQuantity(s.positions, t.sector) + quantity, t.price, s.totalEquity, t.sector)
    && DailyLossOk(l, s) && DrawdownOk(l, s)
  }

  lemma AllowedIff(l: Limits, s: PortfolioState, t: TradeIntent, quantity: real)
    requires ValidState(s)
    ensures Allowed(l, Buying(t, quantity), s) <==>
              WithinLimits(l, s, t, quantity) && (t.price == 1.0 ==> quantity <= 1.0)
  {
  }

  lemma FillShiftsLevels(l: Limits, s: PortfolioState, t: TradeIntent, first: real, rest: real)
    requires ValidState(s) && first >= 0.0 && t.price > 0.0
    ensures ValidState(Filled(s, t, first))
    ensures WithinLimits(l, Filled(s, t, first), t, rest) <==> WithinLimits(l, s, t, first + rest)
  {
  }

  lemma SmallerBuyStaysWithin(l: Limits, s: PortfolioState, t: TradeIntent, small: real, large: real)
    requires ValidState(s) && t.price > 0.0 && 0.0 <= small <= large
    ensures WithinLimits(l, s, t, large) ==> WithinLimits(l, s, t, small)
  {
    hide PositionOk, SectorOk, DailyLossOk, DrawdownOk;
    QuantitiesNonNegative(s.positions, t.symbol, t.sector);
    var held, sector := Held(s.positions, t.symbol), SectorQuantity(s.positions, t.sector);
    SmallerLevelStaysOk(l, held + small, held + large, t.price, s.totalEquity, t.sector);
    SmallerLevelStaysOk(l, sector + small, sector + large, t.price, s.totalEquity, t.sector);
  }

  lemma {:induction false} TotalNonNegative(quantities: seq<real>)
    requires forall i | 0 <= i < |quantities| :: quantities[i] >= 0.0
    ensures Total(quantities) >= 0.0
  {
    if quantities != [] {
      TotalNonNegative(quantities[1..]);
    }
  }

  /**
   Exactly when a run of BUYs passes step by step: the total fits, and at the sentinel price no step exceeds one
   share.
   */
  lemma {:induction false} RunApprovedIff(l: Limits, s: PortfolioState, t: TradeIntent, quantities: seq<real>)
    requires ValidState(s) && t.price > 0.0 && quantities != []
    requires forall i | 0 <= i < |quantities| :: quantities[i] >= 0.0
    ensures RunApproved(l, s, t, quantities) <==>
              && WithinLimits(l, s, t, Total(quantities))
              && (t.price == 1.0 ==> forall i | 0 <= i < |quantities| :: quantities[i] <= 1.0)
    decreases |quantities|
  {
    hide WithinLimits, Allowed;
    var first, rest := quantities[0], quantities[1..];
    AllowedIff(l, s, t, first);
    assert quantities == [first] + rest;
    if rest == [] {
      assert Total(quantities) == first;
    } else {
      FillShiftsLevels(l, s, t, first, Total(rest));
      TotalNonNegative(rest);
      RunApprovedIff(l, Filled(s, t, first), t, rest);
      SmallerBuyStaysWithin(l, s, t, first, first + Total(rest));
    }
  }

  /**
   No ratcheting of one symbol: at one price other than the sentinel 1, a run of BUYs of the symbol is approved step by
   step iff one BUY of the total is.
   */
  lemma NoRatcheting(l: Limits, s: PortfolioState, t: TradeIntent, quantities: seq<real>)
    requires ValidState(s) && t.price > 0.0 && t.price != 1.0 && quantities != []
    requires forall i | 0 <= i < |quantities| :: quantities[i] >= 0.0
    ensures RunApproved(l, s, t, quantities) <==> Allowed(l, Buying(t, Total(quantities)), s)
  {
    RunApprovedIff(l, s, t, quantities);
    AllowedIff(l, s, t, Total(quantities));
  }

  /** At price 1 the equivalence fails exactly when unit-sized steps add up to more than one share within the limits. */
  lemma SentinelPriceSplitsIff(l: Limits, s: PortfolioState, t: TradeIntent, quantities: seq<real>)
    requires ValidState(s) && t.price == 1.0 && quantities != []
    requires forall i | 0 <= i < |quantities| :: quantities[i] >= 0.0
    ensures (RunApproved(l, s, t, quantities) && !Allowed(l, Buying(t, Total(quantities)), s)) <==>
              && WithinLimits(l, s, t, Total(quantities)) && Total(quantities) > 1.0
              && forall i | 0 <= i < |quantities| :: quantities[i] <= 1.0
  {
    RunApprovedIff(l, s, t, quantities);
    AllowedIff(l, s, t, Total(quantities));
  }

  lemma BuyTwoAtOne(l: Limits, s: PortfolioState, t: TradeIntent)
    requires l == Limits(15.0, 10.0, 25.0, 3.0) && s == PortfolioState(1000.0, [], 0.0, 1000.0)
    requires t == TradeIntent("X", Buy, 2.0, 1.0, None)
    ensures WithinLimits(l, s, t, 2.0) && Violations(l, t, s) == [MarketOrderNoQuote]
  {
    assert Held(s.positions, "X") == 0.0;
    assert !Exceeds(2.0, 1.0, 10.0, 1000.0) && !Exceeds(0.0, 1.0, 15.0, 1000.0);
    hide Mul, Exceeds;
    assert forall v :: Breaks(v, l, t, s) <==> v == MarketOrderNoQuote;
    hide Breaks, Violations, PositionOk, SectorOk, DailyLossOk, DrawdownOk;
    SoleViolation(l, t, s, MarketOrderNoQuote);
    TradeBreaksIff(l, t, s);
    SwitchBreaksIff(l, t, s);
  }

  /** Two BUYs of one share at price 1 pass where one BUY of two is refused. */
  lemma TwoHalvesPassTheSentinel()
    ensures var l, s := Limits(15.0, 10.0, 25.0, 3.0), PortfolioState(1000.0, [], 0.0, 1000.0);
            var t := TradeIntent("X", Buy, 2.0, 1.0, None);
            && ValidState(s) && ValidLimits(l) && RunApproved(l, s, t, [1.0, 1.0]) && !Allowed(l, t, s)
            && Violations(l, t, s) == [MarketOrderNoQuote]
  {
    hide WithinLimits, Allowed, Violations;
    var l, s := Limits(15.0, 10.0, 25.0, 3.0), PortfolioState(1000.0, [], 0.0, 1000.0);
    var t := TradeIntent("X", Buy, 2.0, 1.0, None);
    assert Total([1.0, 1.0]) == 2.0 by {
      assert [1.0, 1.0][1..] == [1.0] && [1.0][1..] == [];
    }
    BuyTwoAtOne(l, s, t);
    SentinelPriceSplitsIff(l, s, t, [1.0, 1.0]);
  }

  lemma WithinMeansUnderCaps(l: Limits, s: PortfolioState, t: TradeIntent, quantity: real)
    requires ValidState(s) && ValidLimits(l) && WithinLimits(l, s, t, quantity)
    ensures PctOf(Mul(Held(s.positions, t.symbol) + quantity, t.price), s.totalEquity) <= l.maxPositionPct
    ensures t.sector.Some? ==>
              PctOf(Mul(SectorQuantity(s.positions, t.sector) + quantity, t.price), s.totalEquity) <= l.maxSectorPct
  {
  }

  /**
   After an approved run of one symbol, it and its sector are under their caps, all names marked at the trade price.
   */
  lemma {:induction false} NeverPushedOverTheCap(l: Limits, s: PortfolioState, t: TradeIntent, quantities: seq<real>)
    requires ValidState(s) && t.price > 0.0 && quantities != [] && ValidLimits(l)
    requires forall i | 0 <= i < |quantities| :: quantities[i] >= 0.0
    requires RunApproved(l, s, t, quantities)
    ensures PctOf(Mul(Held(s.positions, t.symbol) + Total(quantities), t.price), s.totalEquity) <= l.maxPositionPct
    ensures t.sector.Some? ==>
              PctOf(Mul(SectorQuantity(s.positions, t.sector) + Total(quantities), t.price), s.totalEquity)
                <= l.maxSectorPct
  {
    hide Allowed, WithinLimits, PctOf, Mul;
    RunApprovedIff(l, s, t, quantities);
    WithinMeansUnderCaps(l, s, t, Total(quantities));
  }

  // -------------------------------------------- the sector at each name's own mark

  function ValueAtMarks(ps: seq<Position>, sector: Option<string>, mark: string -> real): real {
    if ps == [] then 0.0
    else
      var last := ps[|ps| - 1];
      ValueAtMarks(ps[..|ps| - 1], sector, mark) + if last.sector == sector then
        Mul(last.quantity, mark(last.symbol)) else 0.0
  }

  /** What the names of the sector are worth at their own marks beyond what they are worth at the trade price. */
  function MarkSpread(ps: seq<Position>, sector: Option<string>, mark: string -> real, price: real): real {
    if ps == [] then 0.0
    else
      var last := ps[|ps| - 1];
      MarkSpread(ps[..|ps| - 1], sector, mark, price)
      + if last.sector == sector then Mul(last.quantity, mark(last.symbol) - price) else 0.0
  }

  /** The sector after the trade with every holding at its own mark and the trade at its price. */
  function SectorAtMarks(t: TradeIntent, s: PortfolioState, mark: string -> real): real {
    ValueAtMarks(s.positions, t.sector, mark) + Mul(SectorLevel(t, s) - SectorQuantity(s.positions, t.sector), t.price)
  }

  /** The room the gate sees under the sector cap. */
  function SectorSlack(l: Limits, t: TradeIntent, s: PortfolioState): real {
    Div(Mul(l.maxSectorPct, s.totalEquity), 100.0) - Mul(SectorLevel(t, s), t.price)
  }

  lemma {:induction false} SpreadIsTheDifference(ps: seq<Position>, sector: Option<string>, mark: string -> real,
                                                 price: real)
    ensures ValueAtMarks(ps, sector, mark)
            == Mul(SectorQuantity(ps, sector), price) + MarkSpread(ps, sector, mark, price)
  {
    hide Mul;
    MulSigns(0.0, price);
    if ps != [] {
      var last := ps[|ps| - 1];
      SpreadIsTheDifference(ps[..|ps| - 1], sector, mark, price);
      var q, m := last.quantity, mark(last.symbol);
      MulDistributes(SectorQuantity(ps[..|ps| - 1], sector), -q, price);
      assert SectorQuantity(ps[..|ps| - 1], sector) - -q == SectorQuantity(ps[..|ps| - 1], sector) + q;
      MulDistributes(q, q, price);
      MulDistributes(m, price, q);
      MulCommutes(m - price, q);
      MulCommutes(m, q);
      MulCommutes(price, q);
    }
  }

  lemma PctAtMostIff(value: real, equity: real, limit: real)
    requires equity > 0.0
    ensures PctOf(value, equity) <= limit <==> value <= Div(Mul(limit, equity), 100.0)
  {
  }

  /**
   The gate marks the whole sector at the price of the trade. What it approves is under the cap with every name at its
   own mark exactly when the names trade above that price by no more, in total, than the room the gate saw.
   */
  lemma SectorAtOwnMarksIff(l: Limits, t: TradeIntent, s: PortfolioState, mark: string -> real)
    requires ValidState(s) && t.sector.Some?
    ensures SectorOk(l, SectorLevel(t, s), t.price, s.totalEquity, t.sector) <==> SectorSlack(l, t, s) >= 0.0
    ensures PctOf(SectorAtMarks(t, s, mark), s.totalEquity) <= l.maxSectorPct
       <==> MarkSpread(s.positions, t.sector, mark, t.price) <= SectorSlack(l, t, s)
  {
    hide Mul, Div, PctOf;
    var level, held := SectorLevel(t, s), SectorQuantity(s.positions, t.sector);
    PctAtMostIff(Mul(level, t.price), s.totalEquity, l.maxSectorPct);
    PctAtMostIff(SectorAtMarks(t, s, mark), s.totalEquity, l.maxSectorPct);
    SpreadIsTheDifference(s.positions, t.sector, mark, t.price);
    MulDistributes(level, held, t.price);
  }

  lemma {:induction false} CheaperNamesAddNothing(ps: seq<Position>, sector: Option<string>, mark: string -> real,
                                                  price: real)
    requires forall i | 0 <= i < |ps| ::
            ps[i].quantity >= 0.0 && (ps[i].sector == sector ==> mark(ps[i].symbol) <= price)
    ensures MarkSpread(ps, sector, mark, price) <= 0.0
  {
    hide Mul;
    if ps != [] {
      var last := ps[|ps| - 1];
      CheaperNamesAddNothing(ps[..|ps| - 1], sector, mark, price);
      if last.sector == sector {
        MulOrder(mark(last.symbol) - price, 0.0, last.quantity);
        MulSigns(0.0, last.quantity);
        MulSigns(last.quantity, 0.0);
      }
    }
  }

  /** So an approval is good at own marks whenever no name of the sector trades above the price of the trade. */
  lemma ApprovalHoldsAtOwnMarks(l: Limits, t: TradeIntent, s: PortfolioState, mark: string -> real)
    requires ValidState(s) && t.sector.Some? && SectorOk(l, SectorLevel(t, s), t.price, s.totalEquity, t.sector)
    requires forall i | 0 <= i < |s.positions| && s.positions[i].sector == t.sector ::
            mark(s.positions[i].symbol) <= t.price
    ensures PctOf(SectorAtMarks(t, s, mark), s.totalEquity) <= l.maxSectorPct
  {
    hide SectorOk, PctOf;
    CheaperNamesAddNothing(s.positions, t.sector, mark, t.price);
    SectorAtOwnMarksIff(l, t, s, mark);
  }

  /** 200 shares at 1000 count as 400 when B is bought at 2: the BUY passes a 25% cap and leaves the sector at 40%. */
  lemma ApprovedOverTheSectorCap()
    ensures var l := Limits(15.0, 100.0, 25.0, 3.0);
            var s := PortfolioState(1000000.0, [Position("A", 200.0, 1000.0, Some("x"))], 0.0, 1000000.0);
            var t := TradeIntent("B", Buy, 100000.0, 2.0, Some("x"));
            && ValidState(s) && ValidLimits(l) && ValidIntent(t) && Allowed(l, t, s)
            && PctOf(SectorAtMarks(t, s, symbol => if symbol == "A" then 1000.0 else 2.0), s.totalEquity) == 40.0
  {
    var a := Position("A", 200.0, 1000.0, Some("x"));
    assert [a][..0] == [];
    assert SectorQuantity([a], Some("x")) == 200.0 && Held([a], "B") == 0.0;
    assert ValueAtMarks([a], Some("x"), symbol => if symbol == "A" then 1000.0 else 2.0) == 200000.0;
  }

  // --------------------------------------------------------- leaving the sector out

  /**
   Without a sector the sector limit is never reported; dropping it changes the verdict iff that limit alone is
   broken.
   */
  lemma DroppingTheSectorMattersIff(l: Limits, t: TradeIntent, s: PortfolioState)
    requires ValidState(s)
    ensures SectorExposure !in Violations(l, t.(sector := None), s)
    ensures Allowed(l, t.(sector := None), s) != Allowed(l, t, s) <==> Violations(l, t, s) == [SectorExposure]
  {
    hide PositionOk, DailyLossOk, DrawdownOk;
    assert PositionLevel(t.(sector := None), s) == PositionLevel(t, s);
  }

  /** No position carries a sector. */
  predicate Untagged(ps: seq<Position>) {
    forall i | 0 <= i < |ps| :: ps[i].sector == None
  }

  lemma {:induction false} UntaggedHoldsNothing(ps: seq<Position>, symbol: string, sector: Option<string>)
    requires Untagged(ps) && sector.Some?
    ensures SectorQuantity(ps, sector) == 0.0 && HeldInSector(ps, symbol, sector) == 0.0
  {
    if ps != [] {
      UntaggedHoldsNothing(ps[..|ps| - 1], symbol, sector);
    }
  }

  /** Against untagged positions a sector sees the traded quantity alone, a SELL's as well as a BUY's. */
  lemma UntaggedSectorLevel(t: TradeIntent, s: PortfolioState)
    requires ValidIntent(t) && Untagged(s.positions) && t.sector.Some?
    ensures SectorLevel(t, s) == t.quantity
  {
    UntaggedHoldsNothing(s.positions, t.symbol, t.sector);
  }

  /** So leaving the tag out matters exactly for allowed trades whose own notional is over the sector cap. */
  lemma UntaggedTagMattersIff(l: Limits, t: TradeIntent, s: PortfolioState)
    requires ValidState(s) && ValidIntent(t) && Untagged(s.positions) && t.sector.Some?
    ensures Allowed(l, t.(sector := None), s) != Allowed(l, t, s) <==>
              && Allowed(l, t.(sector := None), s)
              && PctOf(Mul(t.quantity, t.price), s.totalEquity) > l.maxSectorPct
  {
    hide PositionOk, DailyLossOk, DrawdownOk, PctOf, Mul;
    assert PositionLevel(t.(sector := None), s) == PositionLevel(t, s);
    UntaggedSectorLevel(t, s);
  }

  /** Never for a BUY, if a name may not take more than a sector. */
  lemma UntaggedBuyNeedsNoTag(l: Limits, t: TradeIntent, s: PortfolioState)
    requires ValidState(s) && ValidIntent(t) && ValidLimits(l) && Untagged(s.positions) && t.sector.Some? && t.side.Buy?
    requires l.maxPositionPct <= l.maxSectorPct
    ensures Allowed(l, t.(sector := None), s) == Allowed(l, t, s)
  {
    hide Mul, Div;
    UntaggedTagMattersIff(l, t, s);
    QuantitiesNonNegative(s.positions, t.symbol, t.sector);
    MulOrder(t.quantity, PositionLevel(t, s), t.price);
    MulSigns(t.quantity, t.price);
    PctAtMostIff(Mul(t.quantity, t.price), s.totalEquity, l.maxSectorPct);
    PctAtMostIff(Mul(PositionLevel(t, s), t.price), s.totalEquity, l.maxPositionPct);
    MulOrder(l.maxPositionPct, l.maxSectorPct, s.totalEquity);
    DivOrder(Mul(l.maxPositionPct, s.totalEquity), Mul(l.maxSectorPct, s.totalEquity), 100.0);
    MulSigns(l.maxSectorPct, s.totalEquity);
    DivSigns(Mul(l.maxSectorPct, s.totalEquity), 100.0);
  }

  // --------------------------------------------------------- the kill switches

  /**
   The two kill switches are floors on equity: the day's P&L may not fall below -max_daily_loss_pct of equity, nor
   equity below (100 - max_dd_pct) percent of the peak. So a larger peak never clears a refusal.
   */
  lemma KillSwitchesAreFloors(l: Limits, s: PortfolioState)
    requires ValidState(s) && ValidLimits(l)
    ensures DailyLossOk(l, s) <==> Mul(s.dailyPnl, 100.0) >= -Mul(l.maxDailyLossPct, s.totalEquity)
    ensures DrawdownOk(l, s) <==> Mul(s.totalEquity, 100.0) >= Mul(100.0 - l.maxDdPct, s.peakEquity)
  {
  }

  /**
   The drawdown check is only as good as the stored peak: forgetting part of it can clear a refusal, never cause one.
   */
  lemma ForgettingThePeakDisarms(l: Limits, s: PortfolioState, forgotten: PortfolioState)
    requires ValidState(s) && ValidLimits(l) && ValidState(forgotten)
    requires forgotten == s.(peakEquity := forgotten.peakEquity) && forgotten.peakEquity <= s.peakEquity
    ensures DrawdownOk(l, s) ==> DrawdownOk(l, forgotten)
    ensures forgotten.peakEquity == forgotten.totalEquity ==> DrawdownOk(l, forgotten)
  {
    hide Mul, Div;
    KillSwitchesAreFloors(l, s);
    KillSwitchesAreFloors(l, forgotten);
    MulOrder(forgotten.peakEquity, s.peakEquity, 100.0 - l.maxDdPct);
    MulOrder(100.0 - l.maxDdPct, 100.0, s.totalEquity);
    MulCommutes(100.0, s.totalEquity);
  }

  // --------------------------------------------------------------------- sells

  /** A SELL never projects a negative sector value, so the check needs no clamp. */
  lemma SellNeverProjectsNegative(t: TradeIntent, s: PortfolioState)
    requires ValidState(s) && ValidIntent(t) && t.side.Sell?
    ensures Mul(SectorLevel(t, s), t.price) >= 0.0
  {
    hide Mul;
    QuantitiesNonNegative(s.positions, t.symbol, t.sector);
    MulSigns(SectorLevel(t, s), t.price);
  }

  /** A SELL of no more than is held never breaks the position limit, however large the position. */
  lemma TrimNeverBreaksPosition(l: Limits, t: TradeIntent, s: PortfolioState)
    requires ValidState(s) && ValidIntent(t) && t.side.Sell? && t.quantity <= Held(s.positions, t.symbol)
    ensures PositionSize !in Violations(l, t, s)
  {
  }
}
