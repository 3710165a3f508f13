/** Split detection and repair: src/data/quality/historical.py. */
module Splits {
  import Algebra
  import opened Common
  import opened Sorting

  datatype Bar = Bar(date: int, open: real, high: real, low: real, close: real, volume: int)

  datatype Field = Open | High | Low | Close

  datatype SplitEvent = SplitEvent(date: int, ratio: real, confirmed: bool, agreeing: set<Field>)

  datatype Params = Params(minRatio: real, maxRatio: real, minAgreeing: int)

  /** The shipped defaults. */
  const DEFAULT_PARAMS := Params(2.0, 10.0, 2)

  const TOLERANCE := 0.02

  predicate PositivePrices(b: Bar) {
    b.open > 0.0 && b.high > 0.0 && b.low > 0.0 && b.close > 0.0
  }

  function DateOf(b: Bar): int {
    b.date
  }

  function EventDate(e: SplitEvent): int {
    e.date
  }

  function Get(b: Bar, f: Field): real {
    match f
    case Open => b.open
    case High => b.high
    case Low => b.low
    case Close => b.close
  }

  // ------------------------------------------------------------- detection

  /** `_nearest_integer`: +N for a fall to 1/N, -N for a rise to N, nothing when N < 2 or the deviation exceeds 2%. */
  function NearestInteger(ratio: real): (r: Option<int>)
    ensures r.Some? ==> r.value >= 2 || r.value <= -2
  {
    if ratio <= 0.0 then None
    else
      var magnitude := if ratio < 1.0 then 1.0 / ratio else ratio;
      var n := RoundHalfEven(magnitude);
      if n < 2 || Abs(magnitude - n as real) / n as real > TOLERANCE then None
      else Some(if ratio < 1.0 then n else -n)
  }

  function IntAbs(n: int): nat {
    if n >= 0 then n else -n
  }

  /** Does `f` move by the same factor as the close? */
  predicate Agrees(prev: Bar, cur: Bar, f: Field, nAbs: nat) {
    Get(prev, f) > 0.0 && Get(cur, f) > 0.0 &&
    var n := NearestInteger(Get(cur, f) / Get(prev, f));
    n.Some? && IntAbs(n.value) == nAbs
  }

  function Agreeing(prev: Bar, cur: Bar, nAbs: nat): set<Field> {
    set f | f in {Open, High, Low} && Agrees(prev, cur, f, nAbs)
  }

  method AgreeingFields(prev: Bar, cur: Bar, nAbs: nat) returns (agreeing: set<Field>)
    ensures agreeing == Agreeing(prev, cur, nAbs)
  {
    hide NearestInteger;
    var fields := [Open, High, Low];
    agreeing := {};
    for i := 0 to 3
      invariant agreeing == set f | f in fields[..i] && Agrees(prev, cur, f, nAbs)
    {
      var prevValue, curValue := Get(prev, fields[i]), Get(cur, fields[i]);
      if prevValue > 0.0 && curValue > 0.0 {
        var fieldN := NearestInteger(curValue / prevValue);
        if fieldN.Some? && IntAbs(fieldN.value) == nAbs {
          agreeing := agreeing + {fields[i]};
        }
      }
    }
    assert fields[..3] == fields;
  }

  function StoredRatio(n: int): real
    requires n != 0
  {
    if n > 0 then n as real else 1.0 / (-n) as real
  }

  /** The event, if any, at one consecutive pair. */
  function PairEvent(prev: Bar, cur: Bar, p: Params): Option<SplitEvent> {
    if prev.close <= 0.0 || cur.close <= 0.0 then None
    else
      match NearestInteger(cur.close / prev.close)
      case None => None
      case Some(n) =>
        var agreeing := Agreeing(prev, cur, IntAbs(n));
        if p.minRatio <= IntAbs(n) as real <= p.maxRatio && |agreeing| >= p.minAgreeing
        then Some(SplitEvent(cur.date, StoredRatio(n), true, agreeing + {Close}))
        else None
  }

  /** The events of a sorted series, in order. */
  function Events(bars: seq<Bar>, p: Params): seq<SplitEvent> {
    if |bars| < 2 then []
    else
      var front := Events(bars[..|bars| - 1], p);
      match PairEvent(bars[|bars| - 2], bars[|bars| - 1], p)
      case Some(e) => front + [e]
      case None => front
  }

  // ---------------------------------------------------------------- repair

  function Scaled(b: Bar, k: real): Bar {
    b.(open := b.open * k, high := b.high * k, low := b.low * k, close := b.close * k)
  }

  function SplitVolume(volume: int, ratio: real): int {
    RoundHalfEven(volume as real * ratio)
  }

  function AdjustOnce(b: Bar, s: SplitEvent): Bar
    requires s.ratio > 0.0
  {
    if b.date < s.date then Scaled(b, 1.0 / s.ratio).(volume := SplitVolume(b.volume, s.ratio)) else b
  }

  predicate PositiveRatios(splits: seq<SplitEvent>) {
    forall i | 0 <= i < |splits| :: splits[i].ratio > 0.0
  }

  function AdjustBar(b: Bar, splits: seq<SplitEvent>): Bar
    requires PositiveRatios(splits)
  {
    if splits == [] then b else AdjustOnce(AdjustBar(b, splits[..|splits| - 1]), splits[|splits| - 1])
  }

  function Adjuster(splits: seq<SplitEvent>): Bar -> Bar
    requires PositiveRatios(splits)
  {
    b => AdjustBar(b, splits)
  }

  function Adjusted(bars: seq<Bar>, splits: seq<SplitEvent>): (out: seq<Bar>)
    requires PositiveRatios(splits)
    ensures |out| == |bars| && forall i | 0 <= i < |bars| :: out[i] == AdjustBar(bars[i], splits)
  {
    Map(Adjuster(splits), bars)
  }

  /** The inner loop of `apply_split_adjustment`: one bar through every split, oldest split first. */
  method AdjustThrough(b: Bar, sorted: seq<SplitEvent>) returns (adjusted: Bar)
    requires PositiveRatios(sorted)
    ensures adjusted == AdjustBar(b, sorted)
  {
    hide AdjustOnce;
    adjusted := b;
    for j := 0 to |sorted|
      invariant adjusted == AdjustBar(b, sorted[..j])
    {
      assert sorted[..j + 1][..j] == sorted[..j];
      adjusted := AdjustOnce(adjusted, sorted[j]);
    }
    assert sorted[..|sorted|] == sorted;
  }

  lemma SortKeepsRatios(splits: seq<SplitEvent>)
    requires PositiveRatios(splits)
    ensures PositiveRatios(SortBy(splits, EventDate))
  {
    var sorted := SortBy(splits, EventDate);
    SortIsSorted(splits, EventDate);
    forall i | 0 <= i < |sorted|
      ensures sorted[i].ratio > 0.0
    {
      assert sorted[i] in multiset(sorted);
      assert sorted[i] in splits;
    }
  }

  method ApplySplitAdjustment(bars: seq<Bar>, splits: seq<SplitEvent>) returns (out: seq<Bar>)
    requires PositiveRatios(splits)
    ensures PositiveRatios(SortBy(splits, EventDate))
    ensures out == Adjusted(bars, SortBy(splits, EventDate))
  {
    hide SortBy, AdjustOnce;
    var sorted := SortBy(splits, EventDate);
    SortKeepsRatios(splits);
    if splits == [] {
      SortIsSorted(splits, EventDate);
      return bars;
    }
    out := [];
    for i := 0 to |bars|
      invariant |out| == i && forall k | 0 <= k < i :: out[k] == AdjustBar(bars[k], sorted)
    {
      var adjusted := AdjustThrough(bars[i], sorted);
      out := out + [adjusted];
    }
  }

  function TimesInverse(f: real, ratio: real): (g: real)
    requires f > 0.0 && ratio > 0.0
    ensures g > 0.0
  {
    f * (1.0 / ratio)
  }

  /** The product of 1/ratio over the splits strictly after `date`. */
  function Factor(date: int, splits: seq<SplitEvent>): (f: real)
    requires PositiveRatios(splits)
    ensures f > 0.0
  {
    if splits == [] then 1.0
    else
      var s := splits[|splits| - 1];
      var front := Factor(date, splits[..|splits| - 1]);
      if date < s.date then TimesInverse(front, s.ratio) else front
  }

  lemma MulAssoc(a: real, b: real, c: real)
    ensures (a * b) * c == a * (b * c)
  {
  }

  lemma ScaledOnce(a: Bar, b: Bar, f: real, s: SplitEvent)
    requires f > 0.0 && s.ratio > 0.0 && a.(volume := b.volume) == Scaled(b, f)
    ensures AdjustOnce(a, s).(volume := b.volume) == Scaled(b, if b.date < s.date then TimesInverse(f, s.ratio) else f)
  {
    hide SplitVolume;
    var k := 1.0 / s.ratio;
    MulAssoc(b.open, f, k);
    MulAssoc(b.high, f, k);
    MulAssoc(b.low, f, k);
    MulAssoc(b.close, f, k);
  }

  /** Adjusting a bar scales its four prices by one factor and keeps its date. */
  lemma {:induction false} AdjustBarScales(b: Bar, splits: seq<SplitEvent>)
    requires PositiveRatios(splits)
    ensures var a := AdjustBar(b, splits);
            a.(volume := b.volume) == Scaled(b, Factor(b.date, splits))
  {
    hide AdjustOnce, TimesInverse;
    if splits != [] {
      var front, s := splits[..|splits| - 1], splits[|splits| - 1];
      AdjustBarScales(b, front);
      ScaledOnce(AdjustBar(b, front), b, Factor(b.date, front), s);
    }
  }

  predicate IsNearest(x: real, n: int) {
    -0.5 <= x - n as real <= 0.5 && ((x - n as real == 0.5 || x - n as real == -0.5) ==> n % 2 == 0)
  }

  /** One later split leaves the volume the integer nearest to its exact multiple, a tie going to the even one. */
  lemma OneSplitRoundsTheVolume(b: Bar, s: SplitEvent)
    requires s.ratio > 0.0
    ensures b.date >= s.date ==> AdjustBar(b, [s]) == b
    ensures b.date < s.date ==> IsNearest(b.volume as real * s.ratio, AdjustBar(b, [s]).volume)
  {
    assert [s][..0] == [];
    assert AdjustBar(b, [s]) == AdjustOnce(b, s);
  }

  // ---------------------------------------------- reapplying the same splits

  lemma TimesChangesNothingIff(x: real, f: real, once: real, twice: real)
    requires x > 0.0 && f > 0.0 && once == x * f && twice == once * f
    ensures twice == once <==> f == 1.0
  {
    assert once > 0.0;
    if twice == once {
      assert once * (f - 1.0) == 0.0;
    }
  }

  lemma ScaledTwiceIff(b: Bar, f: real)
    requires f > 0.0 && PositivePrices(b)
    ensures Scaled(Scaled(b, f), f) == Scaled(b, f) <==> f == 1.0
  {
    var once := Scaled(b, f);
    TimesChangesNothingIff(b.close, f, once.close, Scaled(once, f).close);
    if f == 1.0 {
      assert Scaled(once, f) == once;
    }
  }

  /** Repairing a repaired bar once more leaves date and prices alone exactly when its factor is 1. */
  lemma RepairingAgainKeepsPricesIff(b: Bar, splits: seq<SplitEvent>)
    requires PositiveRatios(splits) && PositivePrices(b)
    ensures var once := AdjustBar(b, splits);
            var twice := AdjustBar(once, splits);
            && twice.date == once.date == b.date
            && (twice.(volume := once.volume) == once <==> Factor(b.date, splits) == 1.0)
  {
    hide AdjustBar, Factor;
    AdjustBarScales(b, splits);
    var once := AdjustBar(b, splits);
    AdjustBarScales(once, splits);
    ScaledTwiceIff(b, Factor(b.date, splits));
  }

  /** Scaling the volume rounds nothing. */
  predicate Whole(volume: int, ratio: real) {
    SplitVolume(volume, ratio) as real == volume as real * ratio
  }

  /** No volume the fold meets on its way is rounded. */
  predicate WholeVolumes(b: Bar, splits: seq<SplitEvent>)
    requires PositiveRatios(splits)
    decreases |splits|
  {
    splits == [] ||
    (var front, s := splits[..|splits| - 1], splits[|splits| - 1];
     WholeVolumes(b, front) && (b.date < s.date ==> Whole(AdjustBar(b, front).volume, s.ratio)))
  }

  lemma VolumeStep(volume: int, ratio: real, f: real, product: real)
    requires ratio > 0.0 && f > 0.0 && Whole(volume, ratio) && volume as real * f == product
    ensures SplitVolume(volume, ratio) as real * TimesInverse(f, ratio) == product
  {
    hide SplitVolume;
    var v, inverse := volume as real, 1.0 / ratio;
    assert ratio * inverse == 1.0;
    assert (v * ratio) * (f * inverse) == (v * f) * (ratio * inverse);
  }

  /** Where nothing is rounded the volume moves inversely to the prices. */
  lemma {:induction false} WholeVolumesScale(b: Bar, splits: seq<SplitEvent>)
    requires PositiveRatios(splits) && WholeVolumes(b, splits)
    ensures AdjustBar(b, splits).volume as real * Factor(b.date, splits) == b.volume as real
    decreases |splits|
  {
    hide SplitVolume, TimesInverse, Whole;
    if splits != [] {
      var front, s := splits[..|splits| - 1], splits[|splits| - 1];
      WholeVolumesScale(b, front);
      AdjustBarScales(b, front);
      if b.date < s.date {
        VolumeStep(AdjustBar(b, front).volume, s.ratio, Factor(b.date, front), b.volume as real);
      }
    }
  }

  /** So a second repair is a no-op on the whole bar if the factor is 1 and the second pass rounds nothing. */
  lemma RepairingAgainIsANoOp(b: Bar, splits: seq<SplitEvent>)
    requires PositiveRatios(splits) && PositivePrices(b) && Factor(b.date, splits) == 1.0
    requires WholeVolumes(AdjustBar(b, splits), splits)
    ensures AdjustBar(AdjustBar(b, splits), splits) == AdjustBar(b, splits)
  {
    hide AdjustBar, Factor, WholeVolumes;
    RepairingAgainKeepsPricesIff(b, splits);
    var once := AdjustBar(b, splits);
    WholeVolumesScale(once, splits);
  }

  /** One 2:1 split applied twice halves twice. */
  lemma RepairingAgainHalvesAgain()
    ensures var b := Bar(0, 8.0, 8.0, 8.0, 8.0, 1);
            var split := [SplitEvent(1, 2.0, true, {Close})];
            AdjustBar(b, split).close == 4.0 && AdjustBar(AdjustBar(b, split), split).close == 2.0
  {
    var b := Bar(0, 8.0, 8.0, 8.0, 8.0, 1);
    var split := [SplitEvent(1, 2.0, true, {Close})];
    assert split[..0] == [];
    assert AdjustBar(b, split) == AdjustOnce(b, split[0]);
    var once := AdjustBar(b, split);
    assert AdjustBar(once, split) == AdjustOnce(once, split[0]);
  }

  function UnitSplits(): seq<SplitEvent> {
    [SplitEvent(1, 0.5, true, {Close}), SplitEvent(2, 1.5, true, {Close}), SplitEvent(3, 4.0 / 3.0, true, {Close})]
  }

  lemma {:induction false} ThreeSplits(b: Bar, s0: SplitEvent, s1: SplitEvent, s2: SplitEvent)
    requires s0.ratio > 0.0 && s1.ratio > 0.0 && s2.ratio > 0.0
    requires b.date < s0.date && b.date < s1.date && b.date < s2.date
    ensures AdjustBar(b, [s0, s1, s2]).volume
            == SplitVolume(SplitVolume(SplitVolume(b.volume, s0.ratio), s1.ratio), s2.ratio)
    ensures Factor(b.date, [s0, s1, s2]) == TimesInverse(TimesInverse(TimesInverse(1.0, s0.ratio), s1.ratio), s2.ratio)
  {
    hide SplitVolume, TimesInverse;
    assert [s0, s1, s2][..2] == [s0, s1] && [s0, s1][..1] == [s0] && [s0][..0] == [];
    assert AdjustBar(b, []) == b && AdjustBar(b, [s0]) == AdjustOnce(b, s0);
    assert AdjustBar(b, [s0, s1]) == AdjustOnce(AdjustBar(b, [s0]), s1);
    assert Factor(b.date, []) == 1.0 && Factor(b.date, [s0]) == TimesInverse(1.0, s0.ratio);
    assert Factor(b.date, [s0, s1]) == TimesInverse(Factor(b.date, [s0]), s1.ratio);
  }

  /** A factor of 1 is not enough for the volume: these three splits multiply to 1, yet 2 shares become 3 and then 4. */
  lemma RoundingKeepsDrifting(b: Bar)
    requires b.date <= 0 && b.volume == 2
    ensures PositiveRatios(UnitSplits()) && Factor(b.date, UnitSplits()) == 1.0
    ensures AdjustBar(b, UnitSplits()).volume == 3 && AdjustBar(AdjustBar(b, UnitSplits()), UnitSplits()).volume == 4
  {
    var s := UnitSplits();
    ThreeSplits(b, s[0], s[1], s[2]);
    AdjustBarScales(b, s);
    ThreeSplits(AdjustBar(b, s), s[0], s[1], s[2]);
  }

  // ------------------------------------------------- events of a sorted series

  lemma EventDateAndRatio(prev: Bar, cur: Bar, p: Params)
    ensures PairEvent(prev, cur, p).Some? ==>
            PairEvent(prev, cur, p).value.date == cur.date && PairEvent(prev, cur, p).value.ratio > 0.0
  {
  }

  lemma {:induction false} EventsAreLater(bars: seq<Bar>, p: Params)
    requires Ascending(bars, DateOf)
    ensures PositiveRatios(Events(bars, p))
    ensures forall i | 0 <= i < |Events(bars, p)| :: |bars| > 0 && Events(bars, p)[i].date <= bars[|bars| - 1].date
  {
    hide PairEvent;
    if |bars| >= 2 {
      var front := bars[..|bars| - 1];
      EventsAreLater(front, p);
      EventDateAndRatio(bars[|bars| - 2], bars[|bars| - 1], p);
      assert DateOf(front[|front| - 1]) <= DateOf(bars[|bars| - 1]);
    }
  }

  lemma {:induction false} EventsAscend(bars: seq<Bar>, p: Params)
    requires Ascending(bars, DateOf)
    ensures Ascending(Events(bars, p), EventDate) && PositiveRatios(Events(bars, p))
  {
    hide PairEvent;
    EventsAreLater(bars, p);
    if |bars| >= 2 {
      var front := bars[..|bars| - 1];
      EventsAscend(front, p);
      EventsAreLater(front, p);
      EventDateAndRatio(bars[|bars| - 2], bars[|bars| - 1], p);
      assert DateOf(front[|front| - 1]) <= DateOf(bars[|bars| - 1]);
    }
  }

  // --------------------------------------------------- what counts as an event

  /** From `a` to `b` a positive price fell to 1/n or rose to n, up to 2%, and no other integer is nearer. */
  predicate MovedBy(a: real, b: real, n: int) {
    && a > 0.0 && b > 0.0 && n >= 2
    && var factor := if b < a then a / b else b / a;
       IsNearest(factor, n) && 0.98 * n as real <= factor <= 1.02 * n as real
  }

  function MovedTogether(prev: Bar, cur: Bar, n: int): set<Field> {
    (if MovedBy(prev.open, cur.open, n) then {Open} else {})
    + (if MovedBy(prev.high, cur.high, n) then {High} else {})
    + (if MovedBy(prev.low, cur.low, n) then {Low} else {})
  }

  /**
   What `detect_splits` is to report, on the prices: the close moved by an integer in range, and enough fields too.
   */
  predicate IsSplit(prev: Bar, cur: Bar, p: Params, n: int) {
    && n >= 2 && MovedBy(prev.close, cur.close, n) && p.minRatio <= n as real <= p.maxRatio
    && |MovedTogether(prev, cur, n)| >= p.minAgreeing
  }

  function SplitBy(prev: Bar, cur: Bar, n: int): SplitEvent
    requires n >= 2
  {
    SplitEvent(cur.date, if cur.close < prev.close then n as real else 1.0 / n as real, true,
               MovedTogether(prev, cur, n) + {Close})
  }

  lemma FlippedQuotient(a: real, b: real)
    requires a > 0.0 && b > 0.0
    ensures b / a > 0.0 && (b / a < 1.0 <==> b < a) && 1.0 / (b / a) == a / b
  {
    var q := b / a;
    assert q * a == b;
    assert (a / b) * q == 1.0 by {
      assert (a / b) * b == a;
    }
  }

  lemma DeviationIff(x: real, n: int)
    requires n >= 2
    ensures Abs(x - n as real) / n as real <= TOLERANCE <==> 0.98 * n as real <= x <= 1.02 * n as real
  {
    Algebra.QuotientAtMostIff(Abs(x - n as real), n as real, TOLERANCE);
  }

  /** The detector reads a price move as an integer exactly when it is one. */
  lemma ReadsMoves(a: real, b: real, n: int)
    requires a > 0.0 && b > 0.0 && n >= 2
    ensures MovedBy(a, b, n) <==> NearestInteger(b / a) == Some(if b < a then n else -n)
    ensures NearestInteger(b / a).Some? && IntAbs(NearestInteger(b / a).value) == n ==> MovedBy(a, b, n)
  {
    hide RoundHalfEven;
    FlippedQuotient(a, b);
    var factor := if b < a then a / b else b / a;
    DeviationIff(factor, n);
    if IsNearest(factor, n) {
      RoundHalfEvenIsUnique(factor, n);
    }
  }

  lemma AgreesIff(prev: Bar, cur: Bar, f: Field, n: int)
    requires n >= 2
    ensures Agrees(prev, cur, f, n) <==> MovedBy(Get(prev, f), Get(cur, f), n)
  {
    hide NearestInteger, IsNearest;
    if Get(prev, f) > 0.0 && Get(cur, f) > 0.0 {
      ReadsMoves(Get(prev, f), Get(cur, f), n);
    }
  }

  lemma AgreeingIsMovedTogether(prev: Bar, cur: Bar, n: int)
    requires n >= 2
    ensures Agreeing(prev, cur, n) == MovedTogether(prev, cur, n)
  {
    hide Agrees, MovedBy;
    AgreesIff(prev, cur, Open, n);
    AgreesIff(prev, cur, High, n);
    AgreesIff(prev, cur, Low, n);
  }

  lemma EventOfSplit(prev: Bar, cur: Bar, p: Params, n: int)
    requires IsSplit(prev, cur, p, n)
    ensures n >= 2 && PairEvent(prev, cur, p) == Some(SplitBy(prev, cur, n))
  {
    assert prev.close > 0.0 && cur.close > 0.0 && n >= 2;
    hide NearestInteger, Agreeing, MovedBy, MovedTogether;
    ReadsMoves(prev.close, cur.close, n);
    AgreeingIsMovedTogether(prev, cur, n);
  }

  /** A pair has an event exactly when its prices make one, and then that one. */
  lemma PairHasEventIff(prev: Bar, cur: Bar, p: Params)
    ensures PairEvent(prev, cur, p).Some? <==> exists n :: IsSplit(prev, cur, p, n)
    ensures forall n | IsSplit(prev, cur, p, n) :: PairEvent(prev, cur, p) == Some(SplitBy(prev, cur, n))
  {
    hide NearestInteger, Agreeing, MovedBy, MovedTogether;
    forall n | IsSplit(prev, cur, p, n)
      ensures PairEvent(prev, cur, p) == Some(SplitBy(prev, cur, n))
    {
      EventOfSplit(prev, cur, p, n);
    }
    if PairEvent(prev, cur, p).Some? {
      var n := IntAbs(NearestInteger(cur.close / prev.close).value);
      ReadsMoves(prev.close, cur.close, n);
      AgreeingIsMovedTogether(prev, cur, n);
      assert IsSplit(prev, cur, p, n);
    }
  }

  predicate IsSplitEvent(prev: Bar, cur: Bar, p: Params, n: int, e: SplitEvent) {
    IsSplit(prev, cur, p, n) && e == SplitBy(prev, cur, n)
  }

  ghost predicate MakesSplit(prev: Bar, cur: Bar, p: Params, e: SplitEvent) {
    exists n :: IsSplitEvent(prev, cur, p, n, e)
  }

  /** The split, if any, between bar `k` and the next. */
  ghost predicate SplitAt(bars: seq<Bar>, k: nat, p: Params, e: SplitEvent)
    requires k + 1 < |bars|
  {
    MakesSplit(bars[k], bars[k + 1], p, e)
  }

  lemma SplitAtIff(bars: seq<Bar>, k: nat, p: Params, e: SplitEvent)
    requires k + 1 < |bars|
    ensures SplitAt(bars, k, p, e) <==> PairEvent(bars[k], bars[k + 1], p) == Some(e)
  {
    hide IsSplit, PairEvent, SplitBy;
    PairHasEventIff(bars[k], bars[k + 1], p);
    if PairEvent(bars[k], bars[k + 1], p) == Some(e) {
      var n :| IsSplit(bars[k], bars[k + 1], p, n);
      EventOfSplit(bars[k], bars[k + 1], p, n);
      assert IsSplitEvent(bars[k], bars[k + 1], p, n, e);
    }
  }

  /** The events of a series are the splits of its prices. */
  lemma {:induction false} EventsAreTheSplits(bars: seq<Bar>, p: Params, e: SplitEvent)
    ensures e in Events(bars, p) <==> exists k: nat :: k + 1 < |bars| && SplitAt(bars, k, p, e)
  {
    hide SplitAt, PairEvent;
    if |bars| >= 2 {
      var front := bars[..|bars| - 1];
      EventsAreTheSplits(front, p, e);
      SplitAtIff(bars, |bars| - 2, p, e);
      forall k: nat | k + 1 < |front|
        ensures SplitAt(front, k, p, e) <==> SplitAt(bars, k, p, e)
      {
        SplitAtIff(front, k, p, e);
        SplitAtIff(bars, k, p, e);
      }
    }
  }

  /** A close that halves with the low while open and high stay is no split under the shipped parameters. */
  lemma OneFieldIsNotEnough()
    ensures var a, b := Bar(1, 100.0, 100.0, 100.0, 100.0, 5), Bar(2, 100.0, 100.0, 50.0, 50.0, 5);
            MovedBy(a.close, b.close, 2) && MovedTogether(a, b, 2) == {Low} && Events([a, b], DEFAULT_PARAMS) == []
  {
    var a, b := Bar(1, 100.0, 100.0, 100.0, 100.0, 5), Bar(2, 100.0, 100.0, 50.0, 50.0, 5);
    assert MovedBy(100.0, 50.0, 2) && !MovedBy(100.0, 100.0, 2);
    forall n | n >= 2 && MovedBy(a.close, b.close, n)
      ensures n == 2
    {
    }
    PairHasEventIff(a, b, DEFAULT_PARAMS);
    assert [a, b][..1] == [a];
  }

  /** The body of the detection loop: one consecutive pair. */
  method DetectPair(prev: Bar, cur: Bar, p: Params) returns (event: Option<SplitEvent>)
    ensures event == PairEvent(prev, cur, p)
  {
    hide NearestInteger, Agreeing, StoredRatio;
    if prev.close <= 0.0 || cur.close <= 0.0 {
      return None;
    }
    var nSigned := NearestInteger(cur.close / prev.close);
    if nSigned.None? {
      return None;
    }
    var nAbs := IntAbs(nSigned.value);
    if !(p.minRatio <= nAbs as real <= p.maxRatio) {
      return None;
    }
    var agreeing := AgreeingFields(prev, cur, nAbs);
    if |agreeing| < p.minAgreeing {
      return None;
    }
    return Some(SplitEvent(cur.date, StoredRatio(nSigned.value), true, agreeing + {Close}));
  }

  method DetectSplits(bars: seq<Bar>, p: Params) returns (events: seq<SplitEvent>)
    ensures events == Events(SortBy(bars, DateOf), p)
    ensures var sorted := SortBy(bars, DateOf);
            forall e :: e in events <==> exists k: nat :: k + 1 < |sorted| && SplitAt(sorted, k, p, e)
  {
    hide PairEvent, SortBy, SplitAt;
    var sorted := SortBy(bars, DateOf);
    SortIsSorted(bars, DateOf);
    events := [];
    var i := 1;
    while i < |sorted|
      invariant 1 <= i <= IntMax(1, |sorted|)
      invariant events == Events(sorted[..IntMin(i, |sorted|)], p)
    {
      assert sorted[..i + 1][..i] == sorted[..i];
      var event := DetectPair(sorted[i - 1], sorted[i], p);
      if event.Some? {
        events := events + [event.value];
      }
      i := i + 1;
    }
    assert sorted[..|sorted|] == sorted;
    EventsAscend(sorted, p);
    SortOfSorted(events, EventDate);
    events := SortBy(events, EventDate);
    forall e
      ensures e in events <==> exists k: nat :: k + 1 < |sorted| && SplitAt(sorted, k, p, e)
    {
      EventsAreTheSplits(sorted, p, e);
    }
  }

  // ----------------------------------------------- factors along the series

  /** What the factor gains across one pair: the inverse ratio of the event between them, if any. */
  function PairFactor(prev: Bar, cur: Bar, p: Params): (s: real)
    ensures s > 0.0
  {
    match PairEvent(prev, cur, p)
    case Some(e) => 1.0 / e.ratio
    case None => 1.0
  }

  lemma {:induction false} FactorBeyondEvents(date: int, splits: seq<SplitEvent>)
    requires PositiveRatios(splits) && forall i | 0 <= i < |splits| :: splits[i].date <= date
    ensures Factor(date, splits) == 1.0
  {
    if splits != [] {
      FactorBeyondEvents(date, splits[..|splits| - 1]);
    }
  }

  lemma FactorAppend(date: int, splits: seq<SplitEvent>, s: SplitEvent)
    requires PositiveRatios(splits) && s.ratio > 0.0
    ensures PositiveRatios(splits + [s])
    ensures Factor(date, splits + [s]) == Factor(date, splits) * if date < s.date then 1.0 / s.ratio else 1.0
  {
    assert (splits + [s])[..|splits|] == splits;
  }

  lemma Swap(a: real, b: real, c: real)
    ensures (a * b) * c == (a * c) * b
  {
  }

  /** Consecutive bars differ in their factor only by the event detected between them. */
  lemma {:induction false} FactorStep(bars: seq<Bar>, k: nat, p: Params)
    requires Strict(bars, DateOf) && k + 1 < |bars|
    ensures PositiveRatios(Events(bars, p))
    ensures Factor(bars[k].date, Events(bars, p))
            == Factor(bars[k + 1].date, Events(bars, p)) * PairFactor(bars[k], bars[k + 1], p)
  {
    hide PairEvent, Factor;
    var front, last := bars[..|bars| - 1], |bars| - 1;
    var a, b := bars[k].date, bars[k + 1].date;
    assert DateOf(bars[k]) < DateOf(bars[k + 1]) && DateOf(bars[k + 1]) <= DateOf(bars[last]);
    EventsAreLater(front, p);
    EventsAreLater(bars, p);
    var before := Events(front, p);
    var s := PairFactor(bars[k], bars[k + 1], p);
    var event := PairEvent(bars[last - 1], bars[last], p);
    if k + 1 < last {
      FactorStep(front, k, p);
    } else {
      FactorBeyondEvents(a, before);
      FactorBeyondEvents(b, before);
    }
    EventDateAndRatio(bars[last - 1], bars[last], p);
    if event.Some? {
      FactorAppend(a, before, event.value);
      FactorAppend(b, before, event.value);
      if k + 1 < last {
        assert DateOf(bars[k + 1]) < DateOf(bars[last]);
        Swap(Factor(b, before), s, 1.0 / event.value.ratio);
      }
    }
  }

  // ------------------------------------------------------- arithmetic of one pair

  lemma CancelScale(a: real, b: real, k: real)
    requires b > 0.0 && k > 0.0
    ensures (a * k) / (b * k) == a / b
  {
  }

  lemma SameFieldRatio(prev: Bar, cur: Bar, k: real, f: Field)
    requires k > 0.0 && PositivePrices(prev) && PositivePrices(cur)
    ensures Get(Scaled(prev, k), f) == Get(prev, f) * k > 0.0 && Get(Scaled(cur, k), f) == Get(cur, f) * k > 0.0
    ensures Get(Scaled(cur, k), f) / Get(Scaled(prev, k), f) == Get(cur, f) / Get(prev, f)
  {
  }

  /** The detector sees only the four ratios and the later date. */
  lemma SameRatiosSameEvent(prev: Bar, cur: Bar, prev': Bar, cur': Bar, p: Params)
    requires forall f: Field :: Get(prev, f) > 0.0 && Get(cur, f) > 0.0 && Get(prev', f) > 0.0 && Get(cur', f) > 0.0
    requires forall f: Field :: Get(cur, f) / Get(prev, f) == Get(cur', f) / Get(prev', f)
    requires cur.date == cur'.date
    ensures PairEvent(prev', cur', p) == PairEvent(prev, cur, p)
  {
    hide NearestInteger, StoredRatio;
    assert Get(prev, Close) == prev.close && Get(cur, Close) == cur.close;
    assert Get(prev', Close) == prev'.close && Get(cur', Close) == cur'.close;
    var n := NearestInteger(cur.close / prev.close);
    if n.Some? {
      forall f: Field
        ensures Agrees(prev', cur', f, IntAbs(n.value)) <==> Agrees(prev, cur, f, IntAbs(n.value))
      {
        assert Get(cur, f) / Get(prev, f) == Get(cur', f) / Get(prev', f);
      }
      assert Agreeing(prev', cur', IntAbs(n.value)) == Agreeing(prev, cur, IntAbs(n.value));
    }
  }

  /** Scaling both bars of a pair alike changes nothing the detector sees. */
  lemma SameScaleSameEvent(prev: Bar, cur: Bar, k: real, p: Params)
    requires k > 0.0 && PositivePrices(prev) && PositivePrices(cur)
    ensures PairEvent(Scaled(prev, k), Scaled(cur, k), p) == PairEvent(prev, cur, p)
  {
    SameFieldRatio(prev, cur, k, Open);
    SameFieldRatio(prev, cur, k, High);
    SameFieldRatio(prev, cur, k, Low);
    SameFieldRatio(prev, cur, k, Close);
    SameRatiosSameEvent(prev, cur, Scaled(prev, k), Scaled(cur, k), p);
  }

  lemma NearestIntegerNearOne(r: real)
    requires 0.9 <= r <= 1.1
    ensures NearestInteger(r).None?
  {
    if r < 1.0 {
      assert 1.0 <= 1.0 / r <= 1.2;
      RoundHalfEvenIsUnique(1.0 / r, 1);
    } else {
      RoundHalfEvenIsUnique(r, 1);
    }
  }

  lemma DeviationBounds(x: real, m: real)
    requires m > 0.0 && Abs(x - m) / m <= TOLERANCE
    ensures 0.98 * m <= x <= 1.02 * m
  {
  }

  /** What a positive answer of `NearestInteger` says about the ratio. */
  lemma NearestIntegerBounds(r: real)
    requires NearestInteger(r).Some?
    ensures var n := NearestInteger(r).value;
            && 0.0 < r
            && (n > 0 <==> r < 1.0)
            && (n > 0 ==> 0.98 * n as real <= 1.0 / r <= 1.02 * n as real)
            && (n < 0 ==> 0.98 * (-n) as real <= r <= 1.02 * (-n) as real)
  {
    hide RoundHalfEven;
    var magnitude := if r < 1.0 then 1.0 / r else r;
    var n := RoundHalfEven(magnitude);
    DeviationBounds(magnitude, n as real);
  }

  lemma ForwardRepair(r: real, m: real)
    requires r > 0.0 && m > 0.0 && 0.98 * m <= 1.0 / r <= 1.02 * m
    ensures 0.9 <= r * m <= 1.1
  {
  }

  lemma Inverse(r: real)
    requires r > 0.0
    ensures r * (1.0 / r) == 1.0
  {
  }

  lemma QuotientOfNear(r: real, m: real, k: real)
    requires m > 0.0 && 0.98 * m <= r <= 1.02 * m && k == 1.0 / m
    ensures 0.9 <= r * k <= 1.1
  {
    Inverse(m);
    MulMonotone(0.98 * m, r, k, 0.98, r * k) by { MulAssoc(0.98, m, k); }
    MulMonotone(r, 1.02 * m, k, r * k, 1.02) by { MulAssoc(1.02, m, k); }
  }

  /** Dividing the detected jump back out leaves an ordinary move. */
  lemma OrdinaryAfter(r: real, n: int)
    requires n != 0 && r > 0.0
    requires n > 0 ==> 0.98 * n as real <= 1.0 / r <= 1.02 * n as real
    requires n < 0 ==> 0.98 * (-n) as real <= r <= 1.02 * (-n) as real
    ensures NearestInteger(r * StoredRatio(n)).None?
  {
    hide NearestInteger;
    if n > 0 {
      ForwardRepair(r, n as real);
    } else {
      QuotientOfNear(r, -(n as real), StoredRatio(n));
    }
    NearestIntegerNearOne(r * StoredRatio(n));
  }

  // ------------------------------------- detection after repair finds nothing

  lemma DivisionIsUnique(x: real, y: real, q: real)
    requires y != 0.0 && q * y == x
    ensures x / y == q
  {
  }

  lemma QuietPair(prev: Bar, cur: Bar, p: Params)
    requires prev.close > 0.0 && cur.close > 0.0 && NearestInteger(cur.close / prev.close).None?
    ensures PairEvent(prev, cur, p).None?
  {
  }

  lemma EventMeaning(prev: Bar, cur: Bar, p: Params)
    requires PairEvent(prev, cur, p).Some?
    ensures var n := NearestInteger(cur.close / prev.close);
            n.Some? && PairEvent(prev, cur, p).value.ratio == StoredRatio(n.value) > 0.0
  {
  }

  lemma OrdinaryMove(r: real, n: int, ratio: real, repaired: real)
    requires NearestInteger(r) == Some(n) && ratio == StoredRatio(n) && repaired == r * ratio
    ensures NearestInteger(repaired).None?
  {
    NearestIntegerBounds(r);
    hide NearestInteger, StoredRatio;
    OrdinaryAfter(r, n);
  }

  lemma QuotientAfterRepair(a: real, b: real, f: real, ratio: real, a': real, b': real)
    requires a > 0.0 && b > 0.0 && f > 0.0 && ratio > 0.0
    requires b' == b * f && a' == a * (f * (1.0 / ratio))
    ensures a' > 0.0 && b' > 0.0 && b' / a' == (b / a) * ratio
  {
  }

  lemma RepairedCloseIsQuiet(a: real, b: real, f: real, n: int, a': real, b': real)
    requires a > 0.0 && b > 0.0 && f > 0.0 && NearestInteger(b / a) == Some(n) && StoredRatio(n) > 0.0
    requires b' == b * f && a' == a * (f * (1.0 / StoredRatio(n)))
    ensures a' > 0.0 && b' > 0.0 && NearestInteger(b' / a').None?
  {
    hide NearestInteger, StoredRatio;
    QuotientAfterRepair(a, b, f, StoredRatio(n), a', b');
    OrdinaryMove(b / a, n, StoredRatio(n), b' / a');
  }

  /** A pair with an event, repaired by that event and scaled by a common factor, has none. */
  lemma RepairedPairIsQuiet(prev: Bar, cur: Bar, prev': Bar, cur': Bar, f: real, p: Params)
    requires PositivePrices(prev) && PositivePrices(cur) && f > 0.0 && PairEvent(prev, cur, p).Some?
    requires cur'.close == cur.close * f
    requires prev'.close == prev.close * (f * (1.0 / PairEvent(prev, cur, p).value.ratio))
    ensures PairEvent(prev', cur', p).None?
  {
    hide PairEvent, NearestInteger, StoredRatio;
    EventMeaning(prev, cur, p);
    RepairedCloseIsQuiet(prev.close, cur.close, f, NearestInteger(cur.close / prev.close).value, prev'.close,
      cur'.close);
    QuietPair(prev', cur', p);
  }

  lemma {:induction false} NoPairsNoEvents(bars: seq<Bar>, p: Params)
    requires forall k | 0 <= k < |bars| - 1 :: PairEvent(bars[k], bars[k + 1], p).None?
    ensures Events(bars, p) == []
  {
    hide PairEvent;
    if |bars| >= 2 {
      var front := bars[..|bars| - 1];
      forall k | 0 <= k < |front| - 1
        ensures PairEvent(front[k], front[k + 1], p).None?
      {
        assert PairEvent(bars[k], bars[k + 1], p).None?;
      }
      NoPairsNoEvents(front, p);
      assert PairEvent(bars[|bars| - 2], bars[|bars| - 2 + 1], p).None?;
    }
  }

  predicate AllPositive(bars: seq<Bar>) {
    forall i | 0 <= i < |bars| :: PositivePrices(bars[i])
  }

  lemma SortedBars(bars: seq<Bar>)
    requires DistinctKeys(bars, DateOf) && AllPositive(bars)
    ensures Strict(SortBy(bars, DateOf), DateOf) && AllPositive(SortBy(bars, DateOf))
    ensures |SortBy(bars, DateOf)| == |bars|
  {
    hide SortBy;
    var sorted := SortBy(bars, DateOf);
    SortOfDistinctIsStrict(bars, DateOf);
    SortIsSorted(bars, DateOf);
    forall i | 0 <= i < |sorted|
      ensures PositivePrices(sorted[i])
    {
      assert sorted[i] in multiset(sorted);
      assert sorted[i] in bars;
    }
    assert |multiset(sorted)| == |multiset(bars)|;
  }

  /** Detection never looks at volume. */
  lemma VolumeIsInvisible(prev: Bar, cur: Bar, prev': Bar, cur': Bar, p: Params)
    requires prev' == prev.(volume := prev'.volume) && cur' == cur.(volume := cur'.volume)
    ensures PairEvent(prev', cur', p) == PairEvent(prev, cur, p)
  {
    hide NearestInteger, StoredRatio;
    assert forall f: Field :: Get(prev', f) == Get(prev, f) && Get(cur', f) == Get(cur, f);
    assert forall n: nat :: Agreeing(prev', cur', n) == Agreeing(prev, cur, n);
  }

  lemma QuietEitherWay(prev: Bar, cur: Bar, prev': Bar, cur': Bar, g: real, f: real, p: Params)
    requires PositivePrices(prev) && PositivePrices(cur) && f > 0.0
    requires prev'.(volume := prev.volume) == Scaled(prev, g) && cur'.(volume := cur.volume) == Scaled(cur, f)
    requires g == f * PairFactor(prev, cur, p)
    ensures PairEvent(prev', cur', p).None?
  {
    EventDateAndRatio(prev, cur, p);
    hide PairEvent;
    if PairEvent(prev, cur, p).Some? {
      RepairedPairIsQuiet(prev, cur, prev', cur', f, p);
    } else {
      SameScaleSameEvent(prev, cur, f, p);
      VolumeIsInvisible(Scaled(prev, f), Scaled(cur, f), prev', cur', p);
    }
  }

  lemma RepairedSeriesIsQuiet(bars: seq<Bar>, k: nat, p: Params)
    requires Strict(bars, DateOf) && AllPositive(bars) && k + 1 < |bars|
    ensures PositiveRatios(Events(bars, p))
    ensures PairEvent(AdjustBar(bars[k], Events(bars, p)), AdjustBar(bars[k + 1], Events(bars, p)), p).None?
  {
    hide AdjustBar, Events, Factor, PairEvent, PairFactor, Scaled;
    EventsAscend(bars, p);
    var es := Events(bars, p);
    var prev, cur := bars[k], bars[k + 1];
    FactorStep(bars, k, p);
    AdjustBarScales(prev, es);
    AdjustBarScales(cur, es);
    QuietEitherWay(prev, cur, AdjustBar(prev, es), AdjustBar(cur, es), Factor(prev.date, es), Factor(cur.date, es), p);
  }

  lemma KeepsDates(splits: seq<SplitEvent>)
    requires PositiveRatios(splits)
    ensures forall b :: DateOf(Adjuster(splits)(b)) == DateOf(b)
  {
    hide Factor, AdjustBar;
    forall b: Bar
      ensures DateOf(Adjuster(splits)(b)) == DateOf(b)
    {
      AdjustBarScales(b, splits);
    }
  }

  /**
   For bars with distinct dates, in any order and with any number of forward and reverse splits, running the
   detector on the repaired series reports nothing.
   */
  lemma DetectAfterRepairFindsNothing(bars: seq<Bar>, p: Params)
    requires DistinctKeys(bars, DateOf) && AllPositive(bars)
    ensures var events := Events(SortBy(bars, DateOf), p);
            && Ascending(events, EventDate) && PositiveRatios(events)
            && Events(SortBy(Adjusted(bars, events), DateOf), p) == []
  {
    hide Events, SortBy, AdjustBar, PairEvent;
    var sorted := SortBy(bars, DateOf);
    SortedBars(bars);
    EventsAscend(sorted, p);
    var events := Events(sorted, p);
    KeepsDates(events);
    SortOfMap(Adjuster(events), bars, DateOf);
    var repaired := Adjusted(sorted, events);
    assert SortBy(Adjusted(bars, events), DateOf) == repaired;
    forall k | 0 <= k < |repaired| - 1
      ensures PairEvent(repaired[k], repaired[k + 1], p).None?
    {
      RepairedSeriesIsQuiet(sorted, k, p);
    }
    NoPairsNoEvents(repaired, p);
  }
}
