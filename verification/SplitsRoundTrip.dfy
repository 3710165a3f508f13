/** Injecting one split into a quiet series, detecting it and repairing it gives the series back. */
module SplitsRoundTrip {
  import opened Common
  import opened Sorting
  import opened Splits

  /** The unadjusted feed of a split on `day`: every earlier price is `c` times what it should be. */
  function InjectBar(b: Bar, day: int, c: real): Bar {
    if b.date < day then Scaled(b, c) else b
  }

  function Injector(day: int, c: real): Bar -> Bar {
    b => InjectBar(b, day, c)
  }

  function Injected(bars: seq<Bar>, day: int, c: real): (out: seq<Bar>)
    ensures |out| == |bars| && forall i | 0 <= i < |bars| :: out[i] == InjectBar(bars[i], day, c)
  {
    Map(Injector(day, c), bars)
  }

  /** The true move of `f` is within the tolerance, on the side the detector measures. */
  predicate Moved(prev: Bar, cur: Bar, f: Field, forward: bool) {
    Get(prev, f) > 0.0 && Get(cur, f) > 0.0 &&
    Abs((if forward then Get(prev, f) / Get(cur, f) else Get(cur, f) / Get(prev, f)) - 1.0) <= TOLERANCE
  }

  function Multiplier(n: int, forward: bool): (c: real)
    requires n >= 2
    ensures c > 0.0
  {
    if forward then n as real else 1.0 / n as real
  }

  function Signed(n: int, forward: bool): int {
    if forward then n else -n
  }

  // ------------------------------------------------------- one field's ratio

  lemma RoundsTo(x: real, n: int)
    requires 2 <= n <= 10 && 0.98 * n as real <= x <= 1.02 * n as real
    ensures RoundHalfEven(x) == n && Abs(x - n as real) / n as real <= TOLERANCE
  {
    var m := n as real;
    RoundHalfEvenIsUnique(x, n);
    DivMonotone(Abs(x - m), 0.02 * m, m);
    DivisionIsUnique(0.02 * m, m, 0.02);
  }

  lemma ForwardRead(ratio: real, inv: real, n: int)
    requires 2 <= n <= 10 && ratio > 0.0 && inv == 1.0 / ratio
    requires 0.98 * n as real <= inv <= 1.02 * n as real
    ensures NearestInteger(ratio) == Some(n)
  {
    RoundsTo(inv, n);
    if ratio >= 1.0 {
      MulMonotone(1.0, ratio, inv, inv, 1.0) by { Inverse(ratio); }
      assert false;
    }
  }

  lemma ReverseRead(ratio: real, n: int)
    requires 2 <= n <= 10 && 0.98 * n as real <= ratio <= 1.02 * n as real
    ensures NearestInteger(ratio) == Some(-n)
  {
    RoundsTo(ratio, n);
  }

  /** 1 / (b / (a m)) = (a / b) m. */
  lemma ForwardRatio(a: real, b: real, m: real)
    requires a > 0.0 && b > 0.0 && m > 0.0
    ensures a * m > 0.0 && b / (a * m) > 0.0 && 1.0 / (b / (a * m)) == (a / b) * m
  {
  }

  /** b / (a / m) = (b / a) m. */
  lemma ReverseRatio(a: real, b: real, m: real)
    requires a > 0.0 && b > 0.0 && m > 0.0
    ensures a * (1.0 / m) > 0.0 && b / (a * (1.0 / m)) > 0.0 && b / (a * (1.0 / m)) == (b / a) * m
  {
  }

  lemma NearOneScaled(x: real, m: real, xm: real)
    requires Abs(x - 1.0) <= TOLERANCE && m > 0.0 && xm == x * m
    ensures 0.98 * m <= xm <= 1.02 * m
  {
    MulMonotone(0.98, x, m, 0.98 * m, xm);
    MulMonotone(x, 1.02, m, xm, 1.02 * m);
  }

  lemma ForwardFieldRead(a: real, b: real, n: int, a': real)
    requires a > 0.0 && b > 0.0 && 2 <= n <= 10 && a' == a * n as real && Abs(a / b - 1.0) <= TOLERANCE
    ensures a' > 0.0 && NearestInteger(b / a') == Some(n)
  {
    hide NearestInteger;
    ForwardRatio(a, b, n as real);
    NearOneScaled(a / b, n as real, 1.0 / (b / a'));
    ForwardRead(b / a', 1.0 / (b / a'), n);
  }

  lemma ReverseFieldRead(a: real, b: real, n: int, a': real)
    requires a > 0.0 && b > 0.0 && 2 <= n <= 10 && a' == a * (1.0 / n as real) && Abs(b / a - 1.0) <= TOLERANCE
    ensures a' > 0.0 && NearestInteger(b / a') == Some(-n)
  {
    hide NearestInteger;
    ReverseRatio(a, b, n as real);
    NearOneScaled(b / a, n as real, b / a');
    ReverseRead(b / a', n);
  }

  /** The detector reads the injected jump of every field that moved within tolerance as exactly that integer. */
  lemma FieldRead(a: real, b: real, n: int, forward: bool, a': real)
    requires a > 0.0 && b > 0.0 && 2 <= n <= 10 && a' == a * Multiplier(n, forward)
    requires Abs((if forward then a / b else b / a) - 1.0) <= TOLERANCE
    ensures a' > 0.0 && NearestInteger(b / a') == Some(Signed(n, forward))
  {
    hide NearestInteger;
    if forward {
      ForwardFieldRead(a, b, n, a');
    } else {
      ReverseFieldRead(a, b, n, a');
    }
  }

  // --------------------------------------------------------- the injected pair

  function MovedFields(prev: Bar, cur: Bar, forward: bool): set<Field> {
    set f | f in {Open, High, Low} && Moved(prev, cur, f, forward)
  }

  lemma MovedFieldAgrees(prev: Bar, cur: Bar, n: int, forward: bool, f: Field)
    requires 2 <= n <= 10 && Moved(prev, cur, f, forward)
    ensures var prev' := Scaled(prev, Multiplier(n, forward));
            Agrees(prev', cur, f, n) && NearestInteger(Get(cur, f) / Get(prev', f)) == Some(Signed(n, forward))
  {
    hide NearestInteger, Multiplier;
    FieldRead(Get(prev, f), Get(cur, f), n, forward, Get(Scaled(prev, Multiplier(n, forward)), f));
  }

  lemma SubsetSize<T>(a: set<T>, b: set<T>)
    requires a <= b
    ensures |a| <= |b|
  {
    var rest := b - a;
    assert b == a + rest;
  }

  lemma InjectedPairIsDetected(prev: Bar, cur: Bar, n: int, forward: bool, p: Params)
    requires 2 <= n <= 10 && p.minRatio <= n as real <= p.maxRatio
    requires Moved(prev, cur, Close, forward) && |MovedFields(prev, cur, forward)| >= p.minAgreeing
    ensures var event := PairEvent(Scaled(prev, Multiplier(n, forward)), cur, p);
            && event.Some? && event.value.date == cur.date && event.value.ratio == Multiplier(n, forward)
            && event.value.confirmed && event.value.agreeing >= MovedFields(prev, cur, forward) + {Close}
  {
    var prev' := Scaled(prev, Multiplier(n, forward));
    hide NearestInteger;
    MovedFieldAgrees(prev, cur, n, forward, Close);
    forall f | f in MovedFields(prev, cur, forward)
      ensures f in Agreeing(prev', cur, n)
    {
      MovedFieldAgrees(prev, cur, n, forward, f);
    }
    SubsetSize(MovedFields(prev, cur, forward), Agreeing(prev', cur, n));
    assert IntAbs(Signed(n, forward)) == n;
    assert prev'.close > 0.0 by { assert Get(prev', Close) > 0.0; }
    assert Get(cur, Close) / Get(prev', Close) == cur.close / prev'.close;
  }

  // ---------------------------------------------------------- the whole series

  lemma {:induction false} NoEventsNoPairs(bars: seq<Bar>, k: nat, p: Params)
    requires Events(bars, p) == [] && k + 1 < |bars|
    ensures PairEvent(bars[k], bars[k + 1], p).None?
  {
    hide PairEvent;
    var front := bars[..|bars| - 1];
    assert Events(front, p) == [];
    if k + 1 < |front| {
      NoEventsNoPairs(front, k, p);
    }
  }

  lemma {:induction false} OnePairOneEvent(bars: seq<Bar>, d: nat, p: Params)
    requires 0 < d < |bars| && PairEvent(bars[d - 1], bars[d], p).Some?
    requires forall k | 0 <= k < |bars| - 1 && k != d - 1 :: PairEvent(bars[k], bars[k + 1], p).None?
    ensures Events(bars, p) == [PairEvent(bars[d - 1], bars[d], p).value]
  {
    hide PairEvent;
    var front := bars[..|bars| - 1];
    assert PairEvent(bars[|bars| - 2], bars[|bars| - 2 + 1], p) == PairEvent(bars[|bars| - 2], bars[|bars| - 1], p);
    forall k | 0 <= k < |front| - 1 && k != d - 1
      ensures PairEvent(front[k], front[k + 1], p).None?
    {
      assert PairEvent(bars[k], bars[k + 1], p).None?;
    }
    if d == |bars| - 1 {
      NoPairsNoEvents(front, p);
    } else {
      OnePairOneEvent(front, d, p);
    }
  }

  /** What it takes for an injected split to be recognised: a quiet series, and an ordinary day at the injection. */
  predicate Injectable(sorted: seq<Bar>, d: nat, n: int, forward: bool, p: Params) {
    && 0 < d < |sorted| && Events(sorted, p) == []
    && 2 <= n <= 10 && p.minRatio <= n as real <= p.maxRatio
    && Moved(sorted[d - 1], sorted[d], Close, forward)
    && |MovedFields(sorted[d - 1], sorted[d], forward)| >= p.minAgreeing
  }

  /** With the shipped settings: any N from 2 to 10, and two of open, high and low moving with the close. */
  lemma InjectableByDefault(sorted: seq<Bar>, d: nat, n: int, forward: bool)
    ensures Injectable(sorted, d, n, forward, DEFAULT_PARAMS) <==>
              && 0 < d < |sorted| && Events(sorted, DEFAULT_PARAMS) == [] && 2 <= n <= 10
              && Moved(sorted[d - 1], sorted[d], Close, forward)
                && |MovedFields(sorted[d - 1], sorted[d], forward)| >= 2
  {
  }

  lemma InjectedSeriesHasOneEvent(sorted: seq<Bar>, d: nat, n: int, forward: bool, p: Params)
    requires Strict(sorted, DateOf) && AllPositive(sorted) && Injectable(sorted, d, n, forward, p)
    ensures var c := Multiplier(n, forward);
            var out := Injected(sorted, sorted[d].date, c);
            && PairEvent(Scaled(sorted[d - 1], c), sorted[d], p).Some?
            && Events(out, p) == [PairEvent(Scaled(sorted[d - 1], c), sorted[d], p).value]
  {
    hide PairEvent, Multiplier, Events, Moved;
    var c, day := Multiplier(n, forward), sorted[d].date;
    var out := Injected(sorted, day, c);
    InjectedPairIsDetected(sorted[d - 1], sorted[d], n, forward, p);
    assert DateOf(sorted[d - 1]) < DateOf(sorted[d]);
    assert out[d - 1] == Scaled(sorted[d - 1], c) && out[d] == sorted[d];
    forall k | 0 <= k < |out| - 1 && k != d - 1
      ensures PairEvent(out[k], out[k + 1], p).None?
    {
      NoEventsNoPairs(sorted, k, p);
      if k < d - 1 {
        assert DateOf(sorted[k]) < DateOf(sorted[k + 1]) && DateOf(sorted[k + 1]) < DateOf(sorted[d]);
        SameScaleSameEvent(sorted[k], sorted[k + 1], c, p);
      } else {
        assert DateOf(sorted[k]) >= DateOf(sorted[d]) && DateOf(sorted[k + 1]) >= DateOf(sorted[d]);
      }
    }
    OnePairOneEvent(out, d, p);
  }

  lemma RepairUndoesInjection(b: Bar, e: SplitEvent)
    requires e.ratio > 0.0
    ensures AdjustBar(InjectBar(b, e.date, e.ratio), [e])
         == if b.date < e.date then b.(volume := SplitVolume(b.volume, e.ratio)) else b
  {
  }

  /**
   Round trip: scaling all prices before a day by N or 1/N makes `detect_splits` return exactly that event, and
   `apply_split_adjustment` then restores every original price. (The repair also converts earlier volumes.)
   */
  lemma InjectDetectRepair(bars: seq<Bar>, d: nat, n: int, forward: bool, p: Params)
    requires DistinctKeys(bars, DateOf) && AllPositive(bars) && d < |SortBy(bars, DateOf)|
    requires Injectable(SortBy(bars, DateOf), d, n, forward, p)
    ensures var sorted, c := SortBy(bars, DateOf), Multiplier(n, forward);
            var injected := Injected(bars, sorted[d].date, c);
            var events := Events(SortBy(injected, DateOf), p);
            && |events| == 1 && events[0].date == sorted[d].date && events[0].ratio == c && events[0].confirmed
            && events[0].agreeing >= MovedFields(sorted[d - 1], sorted[d], forward) + {Close}
            && forall i | 0 <= i < |bars| ::
                 Adjusted(injected, events)[i] ==
                   if bars[i].date < sorted[d].date then bars[i].(volume := SplitVolume(bars[i].volume, c))
                   else bars[i]
  {
    hide PairEvent, Multiplier, Events, Moved, SortBy, AdjustBar, SplitVolume;
    var sorted, c := SortBy(bars, DateOf), Multiplier(n, forward);
    var day := sorted[d].date;
    SortedBars(bars);
    assert forall b: Bar :: DateOf(Injector(day, c)(b)) == DateOf(b);
    SortOfMap(Injector(day, c), bars, DateOf);
    InjectedSeriesHasOneEvent(sorted, d, n, forward, p);
    InjectedPairIsDetected(sorted[d - 1], sorted[d], n, forward, p);
    var injected := Injected(bars, day, c);
    var event := PairEvent(Scaled(sorted[d - 1], c), sorted[d], p).value;
    assert Events(SortBy(injected, DateOf), p) == [event];
    forall i | 0 <= i < |bars|
      ensures Adjusted(injected, [event])[i] ==
              if bars[i].date < day then bars[i].(volume := SplitVolume(bars[i].volume, c)) else bars[i]
    {
      RepairUndoesInjection(bars[i], event);
    }
  }
}
