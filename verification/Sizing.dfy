/** Position sizing and its square root: src/broker/sizing.py. */
module Sizing {
  import opened Algebra
  import opened Common

  datatype Config = Config(riskPct: real, targetAtr: real, minAtr: real, maxVol: real, maxLiq: real, maxAdvPct: real,
                           ddFloor: real, ddKnee: real, minLots: int, maxSizePct: real, lotSize: int)

  /** The shipped defaults. */
  const DEFAULT_CONFIG := Config(0.01, 0.02, 0.0001, 3.0, 2.0, 0.05, 0.25, 50.0, 1, 0.10, 1)

  predicate ValidConfig(c: Config) {
    && c.riskPct > 0.0 && c.targetAtr > 0.0 && c.minAtr > 0.0 && c.maxVol >= 0.0 && c.maxLiq >= 0.0 && c.maxAdvPct > 0.0
    && 0.0 <= c.ddFloor <= 1.0 && c.ddKnee > 0.0 && c.minLots >= 1 && c.maxSizePct >= 0.0 && c.lotSize >= 1
  }

  /** Everything a sizing decision reads; `hasBars` is false for an empty window. */
  datatype Inputs = Inputs(hasBars: bool, cash: real, drawdownPct: real, atr: real, adv: real, price: real,
                           regime: real, confidence: real)

  predicate ValidInputs(i: Inputs) {
    i.cash >= 0.0 && i.price > 0.0 && 0.0 <= i.regime <= 1.0 && 0.0 <= i.confidence <= 1.0
  }

  datatype SkipReason = NoMarketData | NoCash | BelowMinLots

  datatype OrderSpec = OrderSpec(quantity: int, price: real, skip: Option<SkipReason>)

  // ------------------------------------------------------------------ scalars

  /** `drawdown_reduction_curve`. */
  function DrawdownScalar(dd: real, c: Config): real
    requires ValidConfig(c)
  {
    if dd <= 0.0 then 1.0
    else if dd >= c.ddKnee then c.ddFloor
    else 1.0 - Mul(1.0 - c.ddFloor, Div(dd, c.ddKnee))
  }

  function VolScalar(atr: real, c: Config): real
    requires ValidConfig(c)
  {
    Max(Min(Div(c.targetAtr, Max(atr, c.minAtr)), c.maxVol), 0.0)
  }

  /** `_liquidity_scalar`. */
  function LiquidityScalar(adv: real, cash: real, price: real, c: Config): real
    requires ValidConfig(c)
  {
    if adv <= 0.0 then c.maxLiq
    else if price <= 0.0 || cash <= 0.0 then 1.0
    else
      var positionShares := Div(Mul(cash, c.riskPct), price);
      if positionShares <= 0.0 then 1.0
      else
        var targetShares := Mul(positionShares, c.maxAdvPct);
        if targetShares <= 0.0 then c.maxLiq else Min(Div(adv, targetShares), c.maxLiq)
  }

  function RawSize(i: Inputs, c: Config): real
    requires ValidConfig(c)
  {
    var base := Mul(i.cash, c.riskPct);
    var scaled := Mul(Mul(base, VolScalar(i.atr, c)), LiquidityScalar(i.adv, i.cash, i.price, c));
    Mul(Mul(Mul(scaled, DrawdownScalar(i.drawdownPct, c)), i.regime), i.confidence)
  }

  /** `_cap_against_cash`. */
  function Capped(raw: real, cash: real, c: Config): real {
    var cap := Mul(cash, c.maxSizePct);
    if raw > cap then cap else raw
  }

  /** `_quantize_lots`: whole lots, rounded towards zero. */
  function Lots(rawShares: real, lotSize: int): int {
    if rawShares <= 0.0 || lotSize <= 0 then 0 else Div(rawShares, lotSize as real).Floor
  }

  /** The quantity of a notional, and whether it is too small to trade. */
  function Sized(notional: real, price: real, c: Config): OrderSpec
    requires price > 0.0
  {
    var lots := Lots(Div(notional, price), c.lotSize);
    if lots < c.minLots then OrderSpec(0, price, Some(BelowMinLots)) else OrderSpec(lots * c.lotSize, price, None)
  }

  /** `compute_position_size`. */
  function ComputePositionSize(i: Inputs, c: Config): OrderSpec
    requires ValidConfig(c) && ValidInputs(i)
  {
    if !i.hasBars then OrderSpec(0, i.price, Some(NoMarketData))
    else if i.cash <= 0.0 then OrderSpec(0, i.price, Some(NoCash))
    else Sized(Capped(RawSize(i, c), i.cash, c), i.price, c)
  }

  // ------------------------------------------------------------ scalar bounds

  lemma DrawdownScalarBounds(dd: real, c: Config)
    requires ValidConfig(c)
    ensures 0.0 <= c.ddFloor <= DrawdownScalar(dd, c) <= 1.0
  {
    hide Mul, Div;
    if 0.0 < dd < c.ddKnee {
      var share := Div(dd, c.ddKnee);
      DivSigns(dd, c.ddKnee);
      DivOrder(dd, c.ddKnee, c.ddKnee);
      MulSigns(1.0, c.ddKnee);
      DivUnique(c.ddKnee, c.ddKnee, 1.0);
      MulSigns(1.0 - c.ddFloor, share);
      MulOrder(share, 1.0, 1.0 - c.ddFloor);
      MulSigns(1.0 - c.ddFloor, 1.0);
    }
  }

  /** A deeper drawdown never keeps more. */
  lemma DrawdownScalarFalls(dd1: real, dd2: real, c: Config)
    requires ValidConfig(c) && dd1 <= dd2
    ensures DrawdownScalar(dd2, c) <= DrawdownScalar(dd1, c)
  {
    hide Mul, Div;
    DrawdownScalarBounds(dd1, c);
    DrawdownScalarBounds(dd2, c);
    if 0.0 < dd1 && dd2 < c.ddKnee {
      DivOrder(dd1, dd2, c.ddKnee);
      MulOrder(Div(dd1, c.ddKnee), Div(dd2, c.ddKnee), 1.0 - c.ddFloor);
    }
  }

  lemma DivByLarger(x: real, a: real, b: real)
    requires x >= 0.0 && 0.0 < a <= b
    ensures 0.0 <= Div(x, b) <= Div(x, a)
  {
  }

  lemma VolScalarFalls(atr1: real, atr2: real, c: Config)
    requires ValidConfig(c) && atr1 <= atr2
    ensures 0.0 <= VolScalar(atr2, c) <= VolScalar(atr1, c) <= c.maxVol
  {
    hide Mul, Div;
    var a, b := Max(atr1, c.minAtr), Max(atr2, c.minAtr);
    DivByLarger(c.targetAtr, a, b);
  }

  /** 1 without a drawdown, the floor from the knee on, and on the straight line between them in the middle. */
  predicate IsDrawdownScalar(s: real, dd: real, c: Config) {
    if dd <= 0.0 then s == 1.0
    else if dd >= c.ddKnee then s == c.ddFloor
    else (1.0 - s) * c.ddKnee == (1.0 - c.ddFloor) * dd
  }

  lemma DrawdownScalarMeans(s: real, dd: real, c: Config)
    requires ValidConfig(c)
    ensures IsDrawdownScalar(s, dd, c) <==> s == DrawdownScalar(dd, c)
  {
    if 0.0 < dd < c.ddKnee {
      var line := (1.0 - c.ddFloor) * dd;
      assert (1.0 - DrawdownScalar(dd, c)) * c.ddKnee == line;
      if (1.0 - s) * c.ddKnee == line {
        DivUnique(line, c.ddKnee, 1.0 - s);
        DivUnique(line, c.ddKnee, 1.0 - DrawdownScalar(dd, c));
      }
    }
  }

  /** The scalar brings the ATR, but no less than its minimum, to the target; or it stops at its maximum. */
  predicate IsVolScalar(s: real, atr: real, c: Config) {
    var seen := if atr >= c.minAtr then atr else c.minAtr;
    s <= c.maxVol && s * seen <= c.targetAtr && (s == c.maxVol || s * seen == c.targetAtr)
  }

  lemma SameProductSameFactor(a: real, b: real, k: real)
    requires k > 0.0
    ensures a * k <= b * k <==> a <= b
  {
  }

  lemma VolScalarMeans(s: real, atr: real, c: Config)
    requires ValidConfig(c)
    ensures IsVolScalar(s, atr, c) <==> s == VolScalar(atr, c)
  {
    var seen := Max(atr, c.minAtr);
    var q := Div(c.targetAtr, seen);
    DivMul(c.targetAtr, seen);
    DivSigns(c.targetAtr, seen);
    assert q * seen == c.targetAtr;
    hide Div;
    SameProductSameFactor(s, q, seen);
    SameProductSameFactor(q, s, seen);
    SameProductSameFactor(VolScalar(atr, c), q, seen);
  }

  // --------------------------------------------------- base size times liquidity

  /**
   The liquidity scalar falls with cash, but base size times liquidity is min(adv * price / max_adv, base * max_liq),
   in which cash only helps.
   */
  lemma BaseTimesLiquidity(cash: real, adv: real, price: real, c: Config)
    requires ValidConfig(c) && cash > 0.0 && price > 0.0
    ensures var base := Mul(cash, c.riskPct);
            && base > 0.0
            && Mul(base, LiquidityScalar(adv, cash, price, c)) ==
                 if adv <= 0.0 then Mul(base, c.maxLiq)
                 else Min(Div(Mul(adv, price), c.maxAdvPct), Mul(base, c.maxLiq))
  {
  }

  // ----------------------------------------------------------- the raw notional

  /** The product regrouped: cash and liquidity first, then the four independent scalars. */
  function Composed(g: real, vol: real, dd: real, regime: real, confidence: real): real {
    Mul(Mul(Mul(Mul(g, vol), dd), regime), confidence)
  }

  lemma RawIsComposed(i: Inputs, c: Config)
    requires ValidConfig(c)
    ensures RawSize(i, c) == Composed(Mul(Mul(i.cash, c.riskPct), LiquidityScalar(i.adv, i.cash, i.price, c)),
                                      VolScalar(i.atr, c), DrawdownScalar(i.drawdownPct, c), i.regime, i.confidence)
  {
    hide Mul, Div, VolScalar, LiquidityScalar, DrawdownScalar;
    var base, vol, liq := Mul(i.cash, c.riskPct), VolScalar(i.atr, c), LiquidityScalar(i.adv, i.cash, i.price, c);
    MulAssociates(base, vol, liq);
    MulCommutes(vol, liq);
    MulAssociates(base, liq, vol);
  }

  lemma MulBoth(a: real, a': real, b: real, b': real)
    requires 0.0 <= a <= a' && 0.0 <= b <= b'
    ensures 0.0 <= Mul(a, b) <= Mul(a', b')
  {
  }

  lemma ComposedMonotone(g: real, vol: real, dd: real, regime: real, conf: real,
                         g': real, vol': real, dd': real, regime': real, conf': real)
    requires 0.0 <= g <= g' && 0.0 <= vol <= vol' && 0.0 <= dd <= dd' && 0.0 <= regime <= regime'
            && 0.0 <= conf <= conf'
    ensures 0.0 <= Composed(g, vol, dd, regime, conf) <= Composed(g', vol', dd', regime', conf')
  {
    hide Mul;
    MulBoth(g, g', vol, vol');
    MulBoth(Mul(g, vol), Mul(g', vol'), dd, dd');
    MulBoth(Mul(Mul(g, vol), dd), Mul(Mul(g', vol'), dd'), regime, regime');
    MulBoth(Mul(Mul(Mul(g, vol), dd), regime), Mul(Mul(Mul(g', vol'), dd'), regime'), conf, conf');
  }

  lemma GrossRises(cash1: real, cash2: real, adv: real, price: real, c: Config)
    requires ValidConfig(c) && 0.0 < cash1 <= cash2 && price > 0.0
    ensures 0.0 <= Mul(Mul(cash1, c.riskPct), LiquidityScalar(adv, cash1, price, c))
                <= Mul(Mul(cash2, c.riskPct), LiquidityScalar(adv, cash2, price, c))
  {
    hide Mul, Div, LiquidityScalar;
    BaseTimesLiquidity(cash1, adv, price, c);
    BaseTimesLiquidity(cash2, adv, price, c);
    MulOrder(cash1, cash2, c.riskPct);
    MulOrder(Mul(cash1, c.riskPct), Mul(cash2, c.riskPct), c.maxLiq);
    MulSigns(Mul(cash1, c.riskPct), c.maxLiq);
    MulSigns(adv, price);
    if adv > 0.0 {
      DivSigns(Mul(adv, price), c.maxAdvPct);
    }
  }

  /** `i` asks for no more risk than `j`: less cash, deeper drawdown, wider ATR, weaker regime or confidence. */
  predicate NoBolder(i: Inputs, j: Inputs) {
    && i.cash <= j.cash && i.drawdownPct >= j.drawdownPct && i.atr >= j.atr
    && i.regime <= j.regime && i.confidence <= j.confidence
    && i.adv == j.adv && i.price == j.price && i.hasBars == j.hasBars
  }

  lemma RawSizeMonotone(i: Inputs, j: Inputs, c: Config)
    requires ValidConfig(c) && ValidInputs(i) && ValidInputs(j) && NoBolder(i, j) && i.cash > 0.0
    ensures 0.0 <= RawSize(i, c) <= RawSize(j, c)
  {
    hide Mul, Div, VolScalar, LiquidityScalar, DrawdownScalar, Composed, RawSize;
    RawIsComposed(i, c);
    RawIsComposed(j, c);
    GrossRises(i.cash, j.cash, i.adv, i.price, c);
    VolScalarFalls(j.atr, i.atr, c);
    DrawdownScalarFalls(j.drawdownPct, i.drawdownPct, c);
    DrawdownScalarBounds(i.drawdownPct, c);
    ComposedMonotone(
      Mul(Mul(i.cash, c.riskPct), LiquidityScalar(i.adv, i.cash, i.price, c)), VolScalar(i.atr, c),
      DrawdownScalar(i.drawdownPct, c), i.regime, i.confidence,
      Mul(Mul(j.cash, c.riskPct), LiquidityScalar(j.adv, j.cash, j.price, c)), VolScalar(j.atr, c),
      DrawdownScalar(j.drawdownPct, c), j.regime, j.confidence);
  }

  // ---------------------------------------------------------------- quantities

  lemma FloorMonotone(x: real, y: real)
    requires x <= y
    ensures x.Floor <= y.Floor
  {
  }

  lemma LotsTimes(a: int, b: int, lot: int)
    requires a <= b && lot >= 1
    ensures a * lot <= b * lot
    ensures b >= 0 ==> b * lot >= 0
  {
  }

  lemma SizedMonotone(a: real, b: real, price: real, c: Config)
    requires ValidConfig(c) && price > 0.0 && a <= b
    ensures Sized(a, price, c).quantity <= Sized(b, price, c).quantity
  {
    hide Mul, Div;
    var m := c.lotSize as real;
    var x, y := Div(a, price), Div(b, price);
    DivOrder(a, b, price);
    DivOrder(x, y, m);
    FloorMonotone(Div(x, m), Div(y, m));
    if y > 0.0 {
      DivSigns(y, m);
    }
    LotsTimes(Lots(x, c.lotSize), Lots(y, c.lotSize), c.lotSize);
  }

  lemma SizedNonNegative(notional: real, price: real, c: Config)
    requires ValidConfig(c) && price > 0.0
    ensures Sized(notional, price, c).quantity >= 0
  {
  }

  /**
   Sizing is monotone: more cash, a shallower drawdown, a calmer ATR, a kinder regime or more confidence never shrink
   the order.
   */
  lemma SizingIsMonotone(i: Inputs, j: Inputs, c: Config)
    requires ValidConfig(c) && ValidInputs(i) && ValidInputs(j) && NoBolder(i, j)
    ensures ComputePositionSize(i, c).quantity <= ComputePositionSize(j, c).quantity
  {
    hide Mul, RawSize, Sized;
    if i.hasBars && j.cash > 0.0 {
      if i.cash > 0.0 {
        RawSizeMonotone(i, j, c);
        MulOrder(i.cash, j.cash, c.maxSizePct);
        SizedMonotone(Capped(RawSize(i, c), i.cash, c), Capped(RawSize(j, c), j.cash, c), i.price, c);
      } else {
        SizedNonNegative(Capped(RawSize(j, c), j.cash, c), j.price, c);
      }
    }
  }

  lemma MultipleGap(d: int, lot: int, r: int)
    requires 0 <= r < lot && d * lot == r
    ensures r == 0
  {
  }

  lemma ModOfMultiple(k: int, lot: int)
    requires k >= 0 && lot >= 1
    ensures (k * lot) % lot == 0
  {
    var x := k * lot;
    var q, r := x / lot, x % lot;
    assert x == lot * q + r;
    MultipleGap(k - q, lot, r);
  }

  lemma LotProduct(lots: int, lot: int)
    requires lots >= 0 && lot >= 1
    ensures Mul(lots as real, lot as real) == (lots * lot) as real
    ensures (lots * lot) % lot == 0
  {
    ModOfMultiple(lots, lot);
  }

  /** A tradable size is a whole number of lots, at least the minimum, and worth no more than its notional. */
  lemma SizedFits(notional: real, price: real, c: Config)
    requires ValidConfig(c) && price > 0.0 && notional >= 0.0
    ensures var s := Sized(notional, price, c);
            && s.quantity % c.lotSize == 0 && s.price == price
            && 0.0 <= Mul(s.quantity as real, price) <= notional
            && (s.skip.None? ==> s.quantity >= c.minLots * c.lotSize)
            && (s.skip.Some? ==> s.quantity == 0)
  {
    hide Mul, Div;
    var shares, m := Div(notional, price), c.lotSize as real;
    var lots := Lots(shares, c.lotSize);
    DivMul(notional, price);
    MulSigns(0.0, price);
    if lots >= c.minLots {
      DivSigns(shares, m);
      DivMul(shares, m);
      assert lots as real <= Div(shares, m);
      MulOrder(lots as real, Div(shares, m), m);
      LotProduct(lots, c.lotSize);
      LotsTimes(c.minLots, lots, c.lotSize);
      MulOrder((lots * c.lotSize) as real, shares, price);
      MulSigns((lots * c.lotSize) as real, price);
    }
  }

  /** The notional in closed form: the ADV term does not contain cash, and the cap on cash is outermost. */
  function Notional(i: Inputs, c: Config): real
    requires ValidConfig(c)
  {
    var base := Mul(i.cash, c.riskPct);
    var gross := if i.adv <= 0.0 then Mul(base, c.maxLiq)
                 else Min(Div(Mul(i.adv, i.price), c.maxAdvPct), Mul(base, c.maxLiq));
    Min(Mul(i.cash, c.maxSizePct),
        Composed(gross, VolScalar(i.atr, c), DrawdownScalar(i.drawdownPct, c), i.regime, i.confidence))
  }

  /** The most whole lots a notional buys, or none if that is fewer than the minimum. */
  predicate LargestFit(quantity: int, notional: real, price: real, c: Config)
    requires ValidConfig(c)
  {
    && quantity % c.lotSize == 0 && (quantity == 0 || quantity >= c.minLots * c.lotSize)
    && 0.0 <= Mul(quantity as real, price) <= notional
    && notional < Mul((if quantity == 0 then c.minLots * c.lotSize else quantity + c.lotSize) as real, price)
  }

  lemma MultiplesApart(p: int, q: int, lot: int)
    requires lot >= 1 && p % lot == 0 && q % lot == 0 && p < q
    ensures p + lot <= q
  {
    var a, b := p / lot, q / lot;
    assert p == a * lot && q == b * lot;
    if b <= a {
      LotsTimes(b, a, lot);
    } else {
      LotsTimes(a + 1, b, lot);
    }
  }

  lemma FitsBelow(p: int, q: int, notional: real, price: real, c: Config)
    requires ValidConfig(c) && price > 0.0 && p >= 0 && q >= 0
    requires LargestFit(p, notional, price, c) && LargestFit(q, notional, price, c)
    ensures q <= p
  {
    hide Mul;
    if q > p {
      var next := if p == 0 then c.minLots * c.lotSize else p + c.lotSize;
      MultiplesApart(p, q, c.lotSize);
      MulOrder(next as real, q as real, price);
    }
  }

  lemma LargestFitIsUnique(p: int, q: int, notional: real, price: real, c: Config)
    requires ValidConfig(c) && price > 0.0 && p >= 0 && q >= 0
    requires LargestFit(p, notional, price, c) && LargestFit(q, notional, price, c)
    ensures p == q
  {
    FitsBelow(p, q, notional, price, c);
    FitsBelow(q, p, notional, price, c);
  }

  lemma MulStrict(a: real, b: real, k: real)
    requires a < b && k > 0.0
    ensures Mul(a, k) < Mul(b, k)
  {
  }

  lemma SizedIsLargestFit(notional: real, price: real, c: Config)
    requires ValidConfig(c) && price > 0.0 && notional >= 0.0
    ensures var s := Sized(notional, price, c);
            LargestFit(s.quantity, notional, price, c) && s.skip == if s.quantity == 0 then Some(BelowMinLots) else None
  {
    hide Mul, Div;
    var shares, m := Div(notional, price), c.lotSize as real;
    var lots := Lots(shares, c.lotSize);
    SizedFits(notional, price, c);
    DivMul(notional, price);
    DivSigns(notional, price);
    DivMul(shares, m);
    DivSigns(shares, m);
    MulSigns(0.0, m);
    MulSigns(0.0, price);
    LotsTimes(1, c.minLots, c.lotSize);
    if shares == 0.0 {
      DivUnique(shares, m, 0.0);
    }
    assert Div(shares, m) < (lots + 1) as real;
    MulStrict(Div(shares, m), (lots + 1) as real, m);
    LotProduct(lots + 1, c.lotSize);
    if lots < c.minLots {
      LotsTimes(lots + 1, c.minLots, c.lotSize);
      MulStrict(shares, (c.minLots * c.lotSize) as real, price);
    } else {
      LotsTimes(1, lots, c.lotSize);
      MulStrict(shares, (lots * c.lotSize + c.lotSize) as real, price);
    }
  }

  /**
   The order is exactly the most whole lots the closed-form notional buys, and it is skipped exactly when that is
   none.
   */
  lemma SizingIsExact(i: Inputs, c: Config)
    requires ValidConfig(c) && ValidInputs(i) && i.hasBars && i.cash > 0.0
    ensures var s := ComputePositionSize(i, c);
            && LargestFit(s.quantity, Notional(i, c), i.price, c)
            && s.skip == if s.quantity == 0 then Some(BelowMinLots) else None
  {
    hide Mul, Div, RawSize, Sized, VolScalar, LiquidityScalar, DrawdownScalar, Composed, LargestFit;
    RawIsComposed(i, c);
    BaseTimesLiquidity(i.cash, i.adv, i.price, c);
    RawSizeMonotone(i, i, c);
    MulSigns(i.cash, c.maxSizePct);
    SizedIsLargestFit(Notional(i, c), i.price, c);
  }

  lemma ComposedIsProduct(g: real, vol: real, dd: real, regime: real, confidence: real)
    ensures Composed(g, vol, dd, regime, confidence) == g * vol * dd * regime * confidence
  {
  }

  lemma AmountsAreProducts(i: Inputs, c: Config)
    requires ValidConfig(c)
    ensures Mul(Mul(i.cash, c.riskPct), c.maxLiq) == i.cash * c.riskPct * c.maxLiq
    ensures Div(Mul(i.adv, i.price), c.maxAdvPct) == i.adv * i.price / c.maxAdvPct
    ensures Mul(i.cash, c.maxSizePct) == i.cash * c.maxSizePct
  {
  }

  lemma NotionalMeans(i: Inputs, c: Config, vol: real, dd: real, gross: real)
    requires ValidConfig(c) && vol == VolScalar(i.atr, c) && dd == DrawdownScalar(i.drawdownPct, c)
    requires gross == Min(if i.adv > 0.0 then i.adv * i.price / c.maxAdvPct else i.cash * c.riskPct * c.maxLiq,
                          i.cash * c.riskPct * c.maxLiq)
    ensures Notional(i, c) == Min(i.cash * c.maxSizePct, gross * vol * dd * i.regime * i.confidence)
  {
    hide Mul, Div, Composed, VolScalar, DrawdownScalar;
    AmountsAreProducts(i, c);
    ComposedIsProduct(gross, vol, dd, i.regime, i.confidence);
  }

  lemma RawSizeCeiling(i: Inputs, c: Config)
    requires ValidConfig(c) && ValidInputs(i) && i.cash > 0.0
    ensures RawSize(i, c) <= Mul(Mul(Mul(i.cash, c.riskPct), c.maxLiq), c.maxVol)
  {
    hide Mul, Div, VolScalar, LiquidityScalar, DrawdownScalar, RawSize;
    RawIsComposed(i, c);
    var base := Mul(i.cash, c.riskPct);
    var g := Mul(base, LiquidityScalar(i.adv, i.cash, i.price, c));
    GrossRises(i.cash, i.cash, i.adv, i.price, c);
    BaseTimesLiquidity(i.cash, i.adv, i.price, c);
    VolScalarFalls(i.atr, i.atr, c);
    DrawdownScalarBounds(i.drawdownPct, c);
    ComposedMonotone(g, VolScalar(i.atr, c), DrawdownScalar(i.drawdownPct, c), i.regime, i.confidence,
                     Mul(base, c.maxLiq), c.maxVol, 1.0, 1.0, 1.0);
    var top := Mul(Mul(base, c.maxLiq), c.maxVol);
    MulSigns(top, 1.0);
  }

  /** The order's notional never exceeds min(max_size_pct, risk * max_vol * max_liq) of cash. */
  lemma SizingIsBounded(i: Inputs, c: Config)
    requires ValidConfig(c) && ValidInputs(i)
    ensures var s := ComputePositionSize(i, c);
            && 0 <= s.quantity && s.quantity % c.lotSize == 0 && s.price == i.price
            && (s.skip.Some? <==> s.quantity == 0)
            && Mul(s.quantity as real, i.price) <= Mul(i.cash, c.maxSizePct)
            && Mul(s.quantity as real, i.price) <= Mul(Mul(Mul(i.cash, c.riskPct), c.maxLiq), c.maxVol)
  {
    hide Mul, Div, RawSize, Sized;
    MulSigns(i.cash, c.maxSizePct);
    MulSigns(i.cash, c.riskPct);
    MulSigns(Mul(i.cash, c.riskPct), c.maxLiq);
    MulSigns(Mul(Mul(i.cash, c.riskPct), c.maxLiq), c.maxVol);
    MulSigns(0.0, i.price);
    if i.hasBars && i.cash > 0.0 {
      RawSizeMonotone(i, i, c);
      RawSizeCeiling(i, c);
      var notional := Capped(RawSize(i, c), i.cash, c);
      SizedFits(notional, i.price, c);
      SizedNonNegative(notional, i.price, c);
      LotsTimes(1, c.minLots, c.lotSize);
    }
  }

  /**
   The whole formula, without the scalars' definitions: an order with bars and cash is the most whole lots that
   min(max_size_pct of cash, gross * vol * dd * regime * confidence) buys, where gross is the risked cash at the full
   liquidity scalar or, if that is less, what the ADV limit allows.
   */
  lemma SizingMeans(i: Inputs, c: Config, vol: real, dd: real, gross: real, quantity: int)
    requires ValidConfig(c) && ValidInputs(i) && i.hasBars && i.cash > 0.0 && quantity >= 0
    requires IsVolScalar(vol, i.atr, c) && IsDrawdownScalar(dd, i.drawdownPct, c)
    requires gross == Min(if i.adv > 0.0 then i.adv * i.price / c.maxAdvPct else i.cash * c.riskPct * c.maxLiq,
                          i.cash * c.riskPct * c.maxLiq)
    ensures ComputePositionSize(i, c).quantity == quantity <==>
              LargestFit(quantity, Min(i.cash * c.maxSizePct, gross * vol * dd * i.regime * i.confidence), i.price, c)
  {
    VolScalarMeans(vol, i.atr, c);
    DrawdownScalarMeans(dd, i.drawdownPct, c);
    NotionalMeans(i, c, vol, dd, gross);
    SizingIsExact(i, c);
    hide Notional, LargestFit, IsVolScalar, IsDrawdownScalar, ComputePositionSize;
    SizingIsBounded(i, c);
    var s, notional := ComputePositionSize(i, c), Notional(i, c);
    if LargestFit(quantity, notional, i.price, c) {
      LargestFitIsUnique(quantity, s.quantity, notional, i.price, c);
    }
  }

  /** Which reason skips an order, and that a skipped order is empty. */
  lemma SkipsMean(i: Inputs, c: Config)
    requires ValidConfig(c) && ValidInputs(i)
    ensures var s := ComputePositionSize(i, c);
            && s.price == i.price && (s.skip.Some? <==> s.quantity == 0)
            && (s.skip == Some(NoMarketData) <==> !i.hasBars)
            && (s.skip == Some(NoCash) <==> i.hasBars && i.cash == 0.0)
  {
    SizingIsBounded(i, c);
    hide RawSize;
  }

  // ------------------------------------------------------------ ADV is different

  /** The ADV from which the scalar is at its maximum: max_adv_pct of the base size in shares, max_liq times over. */
  function SaturatingAdv(cash: real, price: real, c: Config): real
    requires price > 0.0
  {
    Mul(c.maxLiq, Mul(Div(Mul(cash, c.riskPct), price), c.maxAdvPct))
  }

  lemma QuotientAtLeastIff(a: real, b: real, q: real)
    requires b > 0.0
    ensures q <= Div(a, b) <==> Mul(q, b) <= a
  {
    hide Mul, Div;
    DivMul(a, b);
    if q <= Div(a, b) {
      MulOrder(q, Div(a, b), b);
    } else {
      MulStrict(Div(a, b), q, b);
    }
  }

  /**
   Exactly when a larger ADV cannot lower the scalar. An absent ADV counts as unlimited, so a first known volume lowers
   it unless that volume saturates; without cash or price it lowers it whenever the maximum is above 1.
   */
  lemma LiquidityRisesWithAdvIff(adv1: real, adv2: real, cash: real, price: real, c: Config)
    requires ValidConfig(c) && adv1 <= adv2
    ensures LiquidityScalar(adv1, cash, price, c) <= LiquidityScalar(adv2, cash, price, c)
       <==> adv1 > 0.0 || adv2 <= 0.0
            || (if cash > 0.0 && price > 0.0 then adv2 >= SaturatingAdv(cash, price, c) else c.maxLiq <= 1.0)
  {
    hide Mul, Div;
    if cash > 0.0 && price > 0.0 {
      MulSigns(cash, c.riskPct);
      var shares := Div(Mul(cash, c.riskPct), price);
      DivSigns(Mul(cash, c.riskPct), price);
      MulSigns(shares, c.maxAdvPct);
      var target := Mul(shares, c.maxAdvPct);
      DivOrder(adv1, adv2, target);
      QuotientAtLeastIff(adv2, target, c.maxLiq);
    }
  }

  lemma DefaultsAreValid()
    ensures ValidConfig(DEFAULT_CONFIG)
  {
  }

  /** With the shipped settings the first half share of volume cuts an order from 200 shares to 10. */
  lemma FirstVolumeShrinksTheOrder()
    ensures var i := Inputs(true, 1000000.0, 0.0, 0.02, 0.0, 100.0, 1.0, 1.0);
            && ComputePositionSize(i, DEFAULT_CONFIG) == OrderSpec(200, 100.0, None)
            && ComputePositionSize(i.(adv := 0.5), DEFAULT_CONFIG) == OrderSpec(10, 100.0, None)
  {
    assert VolScalar(0.02, DEFAULT_CONFIG) == 1.0;
    assert LiquidityScalar(0.0, 1000000.0, 100.0, DEFAULT_CONFIG) == 2.0;
    assert LiquidityScalar(0.5, 1000000.0, 100.0, DEFAULT_CONFIG) == 0.1;
  }

  // -------------------------------------------------------- Newton's square root

  function NewtonStep(v: real, x: real): real
    requires x > 0.0
  {
    Div(x + Div(v, x), 2.0)
  }

  lemma StepIsPositive(v: real, x: real)
    requires v > 0.0 && x > 0.0
    ensures NewtonStep(v, x) > 0.0
  {
  }

  function Newton(v: real, guess: real, n: nat): (x: real)
    requires v > 0.0 && guess > 0.0
    ensures x > 0.0
  {
    if n == 0 then guess
    else
      var x := Newton(v, guess, n - 1);
      StepIsPositive(v, x);
      NewtonStep(v, x)
  }

  /** `_decimal_sqrt`; `floatRoot` is the float estimate it starts from, 0 when that underflows. */
  method DecimalSqrt(value: real, floatRoot: real, iters: nat) returns (root: real)
    requires floatRoot >= 0.0
    ensures value <= 0.0 ==> root == 0.0
    ensures value > 0.0 ==> root == Newton(value, if floatRoot == 0.0 then value else floatRoot, iters)
  {
    hide Div, NewtonStep;
    if value <= 0.0 {
      return 0.0;
    }
    var guess := if floatRoot == 0.0 then value else floatRoot;
    root := guess;
    for k := 0 to iters
      invariant root == Newton(value, guess, k)
    {
      StepIsPositive(value, root);
      root := NewtonStep(value, root);
    }
  }

  /** With e = x^2 - v, one step leaves the error e^2 / (4 x^2). */
  lemma StepErrorIs(v: real, x: real)
    requires v > 0.0 && x > 0.0
    ensures Mul(4.0 * Mul(x, x), Mul(NewtonStep(v, x), NewtonStep(v, x)) - v) == Mul(Mul(x, x) - v, Mul(x, x) - v)
  {
    hide Div;
    var y, q := NewtonStep(v, x), Div(v, x);
    DivMul(v, x);
    DivUnique(x + q, 2.0, (x + q) / 2.0);
    assert y == (x + q) / 2.0;
    var xy := x * y;
    assert 2.0 * xy == x * x + v;
    assert (x * x) * (y * y) == xy * xy;
  }

  /** That error is never negative, and at most a quarter of e if e was not. */
  lemma StepError(v: real, x: real)
    requires v > 0.0 && x > 0.0
    ensures var e, y := Mul(x, x) - v, NewtonStep(v, x);
            && Mul(y, y) - v >= 0.0
            && (e >= 0.0 ==> y <= x && 4.0 * (Mul(y, y) - v) <= e)
  {
  }

  /** The iterates start at the guess, stay positive, and each step turns the error e of x into e^2 / (4 x^2). */
  lemma NewtonSteps(v: real, guess: real, n: nat)
    requires v > 0.0 && guess > 0.0
    ensures Newton(v, guess, 0) == guess
    ensures var x, y := Newton(v, guess, n), Newton(v, guess, n + 1);
            y > 0.0 && Mul(4.0 * Mul(x, x), Mul(y, y) - v) == Mul(Mul(x, x) - v, Mul(x, x) - v)
  {
    hide Mul, NewtonStep;
    StepErrorIs(v, Newton(v, guess, n));
    assert Newton(v, guess, n + 1) == NewtonStep(v, Newton(v, guess, n));
  }

  function Power4(k: nat): (p: real)
    ensures p > 0.0
  {
    if k == 0 then 1.0 else 4.0 * Power4(k - 1)
  }

  lemma FourTimes(e: real, p: real)
    ensures Mul(e, 4.0 * p) == Mul(4.0 * e, p)
  {
  }

  /**
   Every iterate after the first overshoots, the iterates never increase, and k more steps divide the error by 4^k.
   */
  lemma {:induction false} NewtonConverges(v: real, guess: real, k: nat)
    requires v > 0.0 && guess > 0.0
    ensures var first, x, next := Newton(v, guess, 1), Newton(v, guess, 1 + k), Newton(v, guess, 2 + k);
            && Mul(x, x) >= v && next <= x
            && Mul(Mul(x, x) - v, Power4(k)) <= Mul(first, first) - v
  {
    hide Mul, Div, NewtonStep;
    var x := Newton(v, guess, 1 + k);
    if k == 0 {
      StepError(v, guess);
      assert x == NewtonStep(v, Newton(v, guess, 0));
      MulSigns(Mul(x, x) - v, 1.0);
    } else {
      NewtonConverges(v, guess, k - 1);
      var before := Newton(v, guess, k);
      StepError(v, before);
      assert x == NewtonStep(v, before);
      var e, e' := Mul(before, before) - v, Mul(x, x) - v;
      FourTimes(e', Power4(k - 1));
      MulOrder(4.0 * e', e, Power4(k - 1));
    }
    StepError(v, x);
    assert Newton(v, guess, 2 + k) == NewtonStep(v, x);
  }
}
