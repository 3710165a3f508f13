/** Split and dividend adjustment of stored rows: src/data/adjustment.py. */
module Adjustment {
  import opened Algebra
  import opened Common
  import opened Sorting
  import Splits

  datatype Row = Row(ts: int, open: real, high: real, low: real, close: real, volume: real, adjClose: real)

  datatype Kind = Split | Dividend | Change

  datatype Action = Action(ts: int, kind: Kind, value: real)

  /** Either stage's ValueError. */
  datatype BadAction = BadAction

  type Rows = Result<seq<Row>, BadAction>

  function ActionTs(a: Action): int {
    a.ts
  }

  function OfKind(actions: seq<Action>, kind: Kind): seq<Action> {
    if actions == [] then []
    else
      var front := OfKind(actions[..|actions| - 1], kind);
      if actions[|actions| - 1].kind == kind then front + [actions[|actions| - 1]] else front
  }

  // ------------------------------------------------------------ split stage

  /** No split strictly after `ts` has a non-positive ratio. */
  predicate SplitsValidAfter(ts: int, actions: seq<Action>) {
    forall i | 0 <= i < |actions| :: actions[i].ts > ts ==> actions[i].value > 0.0
  }

  function Times(a: real, b: real): (c: real)
    requires a > 0.0 && b > 0.0
    ensures c > 0.0
  {
    a * b
  }

  /** The product of the ratios of the splits strictly after `ts`. */
  function Ratio(ts: int, actions: seq<Action>): (f: real)
    requires SplitsValidAfter(ts, actions)
    ensures f > 0.0
  {
    if actions == [] then 1.0
    else
      var last := actions[|actions| - 1];
      var f := Ratio(ts, actions[..|actions| - 1]);
      if last.ts > ts then Times(f, last.value) else f
  }

  function Rescaled(row: Row, ratio: real): Row
    requires ratio > 0.0
  {
    row.(open := row.open / ratio, high := row.high / ratio, low := row.low / ratio, close := row.close / ratio,
    adjClose := row.adjClose / ratio, volume := row.volume * ratio)
  }

  function SplitRow(row: Row, actions: seq<Action>): Result<Row, BadAction> {
    if SplitsValidAfter(row.ts, actions) then Ok(Rescaled(row, Ratio(row.ts, actions))) else Err(BadAction)
  }

  // --------------------------------------------------------- dividend stage

  predicate DividendsValidAfter(ts: int, actions: seq<Action>) {
    forall i | 0 <= i < |actions| :: actions[i].ts > ts ==> actions[i].value >= 0.0
  }

  function Payout(ts: int, actions: seq<Action>): real {
    if actions == [] then 0.0
    else Payout(ts, actions[..|actions| - 1]) + if actions[|actions| - 1].ts > ts then
      actions[|actions| - 1].value else 0.0
  }

  function DividendRow(row: Row, actions: seq<Action>): Result<Row, BadAction> {
    var paid := Payout(row.ts, actions);
    if !DividendsValidAfter(row.ts, actions) || (paid != 0.0 && row.adjClose < paid) then Err(BadAction)
    else Ok(row.(adjClose := row.adjClose - paid))
  }

  // ------------------------------------------------------- over a whole list

  /** Every row through `f`, or the first failure. */
  function Each(rows: seq<Row>, f: Row -> Result<Row, BadAction>): Rows {
    if rows == [] then Ok([])
    else
      match Each(rows[..|rows| - 1], f)
      case Err(e) => Err(e)
      case Ok(done) =>
        match f(rows[|rows| - 1])
        case Err(e) => Err(e)
        case Ok(row) => Ok(done + [row])
  }

  function SplitWith(actions: seq<Action>): Row -> Result<Row, BadAction> {
    row => SplitRow(row, actions)
  }

  function DividendWith(actions: seq<Action>): Row -> Result<Row, BadAction> {
    row => DividendRow(row, actions)
  }

  function Splitted(rows: seq<Row>, actions: seq<Action>): Rows {
    Each(rows, SplitWith(OfKind(actions, Split)))
  }

  function Discounted(rows: seq<Row>, actions: seq<Action>): Rows {
    Each(rows, DividendWith(OfKind(actions, Dividend)))
  }

  // --------------------------------------------- one row through the splits

  lemma FactorsStayInverse(p: real, v: real, f: real)
    requires p * v == 1.0 && v > 0.0 && f > 0.0
    ensures (p / f) * (v * f) == 1.0 && v * f == Times(v, f)
  {
  }

  lemma TimesInverse(x: real, p: real, v: real)
    requires p * v == 1.0 && v > 0.0
    ensures x * p == x / v
  {
  }

  lemma RescaledByInverse(row: Row, p: real, v: real)
    requires p * v == 1.0 && v > 0.0
    ensures Rescaled(row, v) == row.(open := row.open * p, high := row.high * p, low := row.low * p,
                                     close := row.close * p, adjClose := row.adjClose * p, volume := row.volume * v)
    ensures p == 1.0 ==> Rescaled(row, v) == row
  {
    TimesInverse(row.open, p, v);
    TimesInverse(row.high, p, v);
    TimesInverse(row.low, p, v);
    TimesInverse(row.close, p, v);
    TimesInverse(row.adjClose, p, v);
  }

  /** The inner loop over splits: the price factor divides, the volume factor multiplies, and a bad ratio raises. */
  method SplitOne(row: Row, splits: seq<Action>) returns (result: Result<Row, BadAction>)
    ensures result == SplitRow(row, splits)
  {
    hide Rescaled, Times;
    var priceFactor, volumeFactor := 1.0, 1.0;
    for j := 0 to |splits|
      invariant SplitsValidAfter(row.ts, splits[..j])
      invariant volumeFactor == Ratio(row.ts, splits[..j]) && priceFactor * volumeFactor == 1.0
    {
      assert splits[..j + 1][..j] == splits[..j];
      if splits[j].ts > row.ts {
        var factor := splits[j].value;
        if factor <= 0.0 {
          return Err(BadAction);
        }
        FactorsStayInverse(priceFactor, volumeFactor, factor);
        priceFactor := priceFactor / factor;
        volumeFactor := volumeFactor * factor;
      }
    }
    assert splits[..|splits|] == splits;
    RescaledByInverse(row, priceFactor, volumeFactor);
    if priceFactor == 1.0 {
      return Ok(row);
    }
    result := Ok(row.(open := row.open * priceFactor, high := row.high * priceFactor, low := row.low * priceFactor,
      close := row.close * priceFactor, adjClose := row.adjClose * priceFactor, volume := row.volume * volumeFactor));
  }

  lemma {:induction false} NoActionsNoChange(rows: seq<Row>)
    ensures Each(rows, SplitWith([])) == Ok(rows) && Each(rows, DividendWith([])) == Ok(rows)
  {
    if rows != [] {
      var row := rows[|rows| - 1];
      NoActionsNoChange(rows[..|rows| - 1]);
      RescaledByInverse(row, 1.0, 1.0);
      assert rows == rows[..|rows| - 1] + [row];
    }
  }

  lemma {:induction false} EachFailsEarly(rows: seq<Row>, i: nat, f: Row -> Result<Row, BadAction>)
    requires i <= |rows| && Each(rows[..i], f).Err?
    ensures Each(rows, f) == Err(BadAction)
    decreases |rows|
  {
    if i < |rows| {
      assert rows[..|rows| - 1][..i] == rows[..i];
      EachFailsEarly(rows[..|rows| - 1], i, f);
    } else {
      assert rows[..i] == rows;
      assert Each(rows, f).error.BadAction?;
    }
  }

  // ---------------------------------- the two loops, and the order of actions

  lemma TimesSwap(a: real, b: real, c: real)
    requires a > 0.0 && b > 0.0 && c > 0.0
    ensures Times(Times(a, b), c) == Times(Times(a, c), b)
  {
  }

  lemma TimesAssociates(a: real, b: real, c: real)
    requires a > 0.0 && b > 0.0 && c > 0.0
    ensures Times(Times(a, b), c) == Times(a, Times(b, c))
  {
  }

  lemma {:induction false} RatioAppend(ts: int, a: seq<Action>, b: seq<Action>)
    requires SplitsValidAfter(ts, a) && SplitsValidAfter(ts, b)
    ensures SplitsValidAfter(ts, a + b) && Ratio(ts, a + b) == Times(Ratio(ts, a), Ratio(ts, b))
  {
    assert SplitsValidAfter(ts, a + b);
    if b == [] {
      assert a + b == a;
    } else {
      var front, last := b[..|b| - 1], b[|b| - 1];
      assert (a + b)[..|a + b| - 1] == a + front;
      RatioAppend(ts, a, front);
      if last.ts > ts {
        TimesAssociates(Ratio(ts, a), Ratio(ts, front), last.value);
      }
    }
  }

  lemma ValidityAppend(ts: int, a: seq<Action>, b: seq<Action>)
    ensures SplitsValidAfter(ts, a + b) <==> SplitsValidAfter(ts, a) && SplitsValidAfter(ts, b)
    ensures DividendsValidAfter(ts, a + b) <==> DividendsValidAfter(ts, a) && DividendsValidAfter(ts, b)
  {
    assert forall i | 0 <= i < |b| :: (a + b)[|a| + i] == b[i];
    assert forall i | 0 <= i < |a| :: (a + b)[i] == a[i];
  }

  lemma RatioOfOne(ts: int, a: Action)
    requires a.ts > ts ==> a.value > 0.0
    ensures SplitsValidAfter(ts, [a]) && Ratio(ts, [a]) == if a.ts > ts then a.value else 1.0
  {
    assert [a][..0] == [];
  }

  lemma TimesOne(a: real)
    requires a > 0.0
    ensures Times(1.0, a) == a && Times(a, 1.0) == a && Mul(a, 1.0) == a
  {
  }

  lemma RatioRemove(ts: int, actions: seq<Action>, k: nat)
    requires k < |actions| && SplitsValidAfter(ts, actions)
    ensures var rest := actions[..k] + actions[k + 1..];
            && SplitsValidAfter(ts, rest)
            && Ratio(ts, actions) == if actions[k].ts > ts then
              Times(Ratio(ts, rest), actions[k].value) else Ratio(ts, rest)
  {
    var before, a, after := actions[..k], actions[k], actions[k + 1..];
    assert actions == (before + [a]) + after;
    ValidityAppend(ts, before + [a], after);
    ValidityAppend(ts, before, [a]);
    assert [a][0] == a;
    hide Times, SplitsValidAfter;
    RatioOfOne(ts, a);
    RatioAppend(ts, before + [a], after);
    RatioAppend(ts, before, [a]);
    RatioAppend(ts, before, after);
    TimesOne(Ratio(ts, before));
    if a.ts > ts {
      TimesSwap(Ratio(ts, before), a.value, Ratio(ts, after));
    }
  }

  lemma {:induction false} PayoutRemove(ts: int, actions: seq<Action>, k: nat)
    requires k < |actions|
    ensures Payout(ts, actions) ==
              Payout(ts, actions[..k] + actions[k + 1..]) + if actions[k].ts > ts then actions[k].value else 0.0
  {
    var rest := actions[..k] + actions[k + 1..];
    var n := |actions|;
    if k == n - 1 {
      assert rest == actions[..n - 1];
    } else {
      var front := actions[..n - 1];
      PayoutRemove(ts, front, k);
      assert rest[..n - 2] == front[..k] + front[k + 1..];
      assert rest[n - 2] == actions[n - 1];
    }
  }

  lemma WithoutOne(b: seq<Action>, k: nat)
    requires k < |b|
    ensures multiset(b[..k] + b[k + 1..]) == multiset(b) - multiset{b[k]}
  {
    assert b == b[..k] + ([b[k]] + b[k + 1..]);
  }

  /** Where the last action of `a` sits in a rearrangement `b`, and what is left of `b` without it. */
  lemma LastElsewhere(a: seq<Action>, b: seq<Action>) returns (k: nat)
    requires a != [] && multiset(a) == multiset(b)
    ensures k < |b| && b[k] == a[|a| - 1]
    ensures multiset(a[..|a| - 1]) == multiset(b[..k] + b[k + 1..])
  {
    var last := a[|a| - 1];
    assert last in multiset(a);
    assert last in b;
    k :| 0 <= k < |b| && b[k] == last;
    WithoutOne(b, k);
    WithoutOne(a, |a| - 1);
    assert a[..|a| - 1] + a[|a|..] == a[..|a| - 1];
  }

  lemma ValidityIsOrderFree(ts: int, a: seq<Action>, b: seq<Action>)
    requires multiset(a) == multiset(b)
    ensures SplitsValidAfter(ts, a) ==> SplitsValidAfter(ts, b)
    ensures DividendsValidAfter(ts, a) ==> DividendsValidAfter(ts, b)
  {
    forall i | 0 <= i < |b|
      ensures b[i] in a
    {
      assert b[i] in multiset(b);
    }
  }

  lemma {:induction false} RatioIsOrderFree(ts: int, a: seq<Action>, b: seq<Action>)
    requires multiset(a) == multiset(b) && SplitsValidAfter(ts, a) && SplitsValidAfter(ts, b)
    ensures Ratio(ts, a) == Ratio(ts, b)
  {
    hide Times;
    if a == [] {
      assert |multiset(b)| == 0;
    } else {
      var k := LastElsewhere(a, b);
      RatioRemove(ts, b, k);
      RatioIsOrderFree(ts, a[..|a| - 1], b[..k] + b[k + 1..]);
    }
  }

  lemma {:induction false} PayoutIsOrderFree(ts: int, a: seq<Action>, b: seq<Action>)
    requires multiset(a) == multiset(b)
    ensures Payout(ts, a) == Payout(ts, b)
  {
    if a == [] {
      assert |multiset(b)| == 0;
    } else {
      var k := LastElsewhere(a, b);
      PayoutRemove(ts, b, k);
      PayoutIsOrderFree(ts, a[..|a| - 1], b[..k] + b[k + 1..]);
    }
  }

  lemma SplitOrderIsIrrelevant(row: Row, a: seq<Action>, b: seq<Action>)
    requires multiset(a) == multiset(b)
    ensures SplitRow(row, a) == SplitRow(row, b)
  {
    ValidityIsOrderFree(row.ts, a, b);
    ValidityIsOrderFree(row.ts, b, a);
    if SplitsValidAfter(row.ts, a) {
      RatioIsOrderFree(row.ts, a, b);
    }
  }

  method ApplySplitAdjustment(rows: seq<Row>, actions: seq<Action>) returns (result: Rows)
    ensures result == Splitted(rows, actions)
  {
    hide SortBy, Rescaled;
    var wanted := OfKind(actions, Split);
    var splits := SortBy(wanted, ActionTs);
    SortKeepsContents(wanted, ActionTs);
    if splits == [] {
      assert wanted == [];
      NoActionsNoChange(rows);
      return Ok(rows);
    }
    var out := [];
    for i := 0 to |rows|
      invariant Each(rows[..i], SplitWith(wanted)) == Ok(out)
    {
      var row := rows[i];
      assert rows[..i + 1][..i] == rows[..i];
      var adjusted := SplitOne(row, splits);
      SplitOrderIsIrrelevant(row, splits, wanted);
      if adjusted.Err? {
        EachFailsEarly(rows, i + 1, SplitWith(wanted));
        return Err(BadAction);
      }
      out := out + [adjusted.value];
    }
    assert rows[..|rows|] == rows;
    return Ok(out);
  }

  lemma DividendOrderIsIrrelevant(row: Row, a: seq<Action>, b: seq<Action>)
    requires multiset(a) == multiset(b)
    ensures DividendRow(row, a) == DividendRow(row, b)
  {
    ValidityIsOrderFree(row.ts, a, b);
    ValidityIsOrderFree(row.ts, b, a);
    PayoutIsOrderFree(row.ts, a, b);
  }

  method ApplyDividendAdjustment(rows: seq<Row>, actions: seq<Action>) returns (result: Rows)
    ensures result == Discounted(rows, actions)
  {
    hide SortBy;
    var wanted := OfKind(actions, Dividend);
    var dividends := SortBy(wanted, ActionTs);
    SortKeepsContents(wanted, ActionTs);
    if dividends == [] {
      assert wanted == [];
      NoActionsNoChange(rows);
      return Ok(rows);
    }
    var out := [];
    for i := 0 to |rows|
      invariant Each(rows[..i], DividendWith(wanted)) == Ok(out)
    {
      var row := rows[i];
      assert rows[..i + 1][..i] == rows[..i];
      DividendOrderIsIrrelevant(row, dividends, wanted);
      var paid := 0.0;
      for j := 0 to |dividends|
        invariant DividendsValidAfter(row.ts, dividends[..j]) && paid == Payout(row.ts, dividends[..j])
      {
        assert dividends[..j + 1][..j] == dividends[..j];
        if dividends[j].ts > row.ts {
          if dividends[j].value < 0.0 {
            EachFailsEarly(rows, i + 1, DividendWith(wanted));
            return Err(BadAction);
          }
          paid := paid + dividends[j].value;
        }
      }
      assert dividends[..|dividends|] == dividends;
      if paid == 0.0 {
        out := out + [row];
      } else {
        var newAdjClose := row.adjClose - paid;
        if newAdjClose < 0.0 {
          EachFailsEarly(rows, i + 1, DividendWith(wanted));
          return Err(BadAction);
        }
        out := out + [row.(adjClose := newAdjClose)];
      }
    }
    assert rows[..|rows|] == rows;
    return Ok(out);
  }

  /** `apply_adjustment`: splits, then dividends. */
  method ApplyAdjustment(rows: seq<Row>, actions: seq<Action>) returns (result: Rows)
    ensures result == match Splitted(rows, actions) case Err(e) => Err(e) case Ok(after) => Discounted(after, actions)
  {
    var afterSplits := ApplySplitAdjustment(rows, actions);
    if afterSplits.Err? {
      return afterSplits;
    }
    result := ApplyDividendAdjustment(afterSplits.value, actions);
  }

  lemma {:induction false} OfKindAppend(a: seq<Action>, b: seq<Action>, kind: Kind)
    ensures OfKind(a + b, kind) == OfKind(a, kind) + OfKind(b, kind)
  {
    if b == [] {
      assert a + b == a;
    } else {
      assert (a + b)[..|a + b| - 1] == a + b[..|b| - 1];
      OfKindAppend(a, b[..|b| - 1], kind);
    }
  }

  lemma {:induction false} OfKindContents(a: seq<Action>, kind: Kind)
    ensures forall x :: multiset(OfKind(a, kind))[x] == if x.kind == kind then multiset(a)[x] else 0
  {
    if a != [] {
      OfKindContents(a[..|a| - 1], kind);
      assert a == a[..|a| - 1] + [a[|a| - 1]];
    }
  }

  lemma {:induction false} EachAgrees(rows: seq<Row>, f: Row -> Result<Row, BadAction>,
                                      g: Row -> Result<Row, BadAction>)
    requires forall row :: f(row) == g(row)
    ensures Each(rows, f) == Each(rows, g)
  {
    if rows != [] {
      EachAgrees(rows[..|rows| - 1], f, g);
    }
  }

  /** Neither stage cares how the action list is ordered. */
  lemma ActionOrderIsIrrelevant(rows: seq<Row>, a: seq<Action>, b: seq<Action>)
    requires multiset(a) == multiset(b)
    ensures Splitted(rows, a) == Splitted(rows, b) && Discounted(rows, a) == Discounted(rows, b)
  {
    OfKindContents(a, Split);
    OfKindContents(b, Split);
    OfKindContents(a, Dividend);
    OfKindContents(b, Dividend);
    forall row: Row
      ensures SplitRow(row, OfKind(a, Split)) == SplitRow(row, OfKind(b, Split))
      ensures DividendRow(row, OfKind(a, Dividend)) == DividendRow(row, OfKind(b, Dividend))
    {
      SplitOrderIsIrrelevant(row, OfKind(a, Split), OfKind(b, Split));
      DividendOrderIsIrrelevant(row, OfKind(a, Dividend), OfKind(b, Dividend));
    }
    EachAgrees(rows, SplitWith(OfKind(a, Split)), SplitWith(OfKind(b, Split)));
    EachAgrees(rows, DividendWith(OfKind(a, Dividend)), DividendWith(OfKind(b, Dividend)));
  }

  // -------------------------------------------------------- lists compose

  lemma {:induction false} PayoutAppend(ts: int, a: seq<Action>, b: seq<Action>)
    ensures Payout(ts, a + b) == Payout(ts, a) + Payout(ts, b)
  {
    if b == [] {
      assert a + b == a;
    } else {
      assert (a + b)[..|a + b| - 1] == a + b[..|b| - 1];
      PayoutAppend(ts, a, b[..|b| - 1]);
    }
  }

  lemma {:induction false} PayoutNonNegative(ts: int, a: seq<Action>)
    requires DividendsValidAfter(ts, a)
    ensures Payout(ts, a) >= 0.0
  {
    if a != [] {
      PayoutNonNegative(ts, a[..|a| - 1]);
    }
  }

  lemma DivTwice(x: real, a: real, b: real)
    requires a > 0.0 && b > 0.0
    ensures (x / a) / b == x / Times(a, b)
  {
  }

  lemma RescaledTwice(row: Row, x: real, y: real)
    requires x > 0.0 && y > 0.0
    ensures Rescaled(Rescaled(row, x), y) == Rescaled(row, Times(x, y))
  {
    DivTwice(row.open, x, y);
    DivTwice(row.high, x, y);
    DivTwice(row.low, x, y);
    DivTwice(row.close, x, y);
    DivTwice(row.adjClose, x, y);
    assert (row.volume * x) * y == row.volume * (x * y);
  }

  lemma SplitRowAppend(row: Row, a: seq<Action>, b: seq<Action>)
    ensures SplitRow(row, a + b) ==
              match SplitRow(row, a) case Err(e) => Err(e) case Ok(mid) => SplitRow(mid, b)
  {
    ValidityAppend(row.ts, a, b);
    if SplitsValidAfter(row.ts, a + b) {
      RatioAppend(row.ts, a, b);
      RescaledTwice(row, Ratio(row.ts, a), Ratio(row.ts, b));
    }
  }

  lemma DividendRowAppend(row: Row, a: seq<Action>, b: seq<Action>)
    ensures DividendRow(row, a + b) ==
              match DividendRow(row, a) case Err(e) => Err(e) case Ok(mid) => DividendRow(mid, b)
  {
    PayoutAppend(row.ts, a, b);
    ValidityAppend(row.ts, a, b);
    if DividendsValidAfter(row.ts, a + b) {
      PayoutNonNegative(row.ts, a);
      PayoutNonNegative(row.ts, b);
    }
  }

  function Then(first: Rows, g: Row -> Result<Row, BadAction>): Rows {
    match first
    case Err(e) => Err(e)
    case Ok(rows) => Each(rows, g)
  }

  lemma {:induction false} EachThen(rows: seq<Row>, f: Row -> Result<Row, BadAction>, g: Row -> Result<Row, BadAction>,
                                    h: Row -> Result<Row, BadAction>)
    requires forall row :: h(row) == match f(row) case Err(e) => Err(e) case Ok(mid) => g(mid)
    ensures Each(rows, h) == Then(Each(rows, f), g)
  {
    if rows != [] {
      var front, last := rows[..|rows| - 1], rows[|rows| - 1];
      EachThen(front, f, g, h);
      assert Each(front, h).Err? ==> Each(front, h).error.BadAction?;
      if Each(front, f).Ok? && f(last).Ok? {
        var done := Each(front, f).value;
        assert (done + [f(last).value])[..|done|] == done;
      } else {
        assert Each(rows, f).error.BadAction? && Each(rows, h).error.BadAction?;
      }
    }
  }

  /** Adjusting by `a` and then by `b` is adjusting by both at once, for splits and for dividends, refusals included. */
  lemma AdjustmentComposes(rows: seq<Row>, a: seq<Action>, b: seq<Action>)
    ensures Splitted(rows, a + b) == match Splitted(rows, a) case Err(e) => Err(e) case Ok(mid) => Splitted(mid, b)
    ensures Discounted(rows, a + b) ==
            match Discounted(rows, a) case Err(e) => Err(e) case Ok(mid) => Discounted(mid, b)
  {
    hide SplitRow, DividendRow;
    OfKindAppend(a, b, Split);
    OfKindAppend(a, b, Dividend);
    var sa, sb, da, db := OfKind(a, Split), OfKind(b, Split), OfKind(a, Dividend), OfKind(b, Dividend);
    forall row: Row
      ensures SplitRow(row, sa + sb) == match SplitRow(row, sa) case Err(e) => Err(e) case Ok(mid) => SplitRow(mid, sb)
      ensures DividendRow(row, da + db) ==
              match DividendRow(row, da) case Err(e) => Err(e) case Ok(mid) => DividendRow(mid, db)
    {
      SplitRowAppend(row, sa, sb);
      DividendRowAppend(row, da, db);
    }
    EachThen(rows, SplitWith(sa), SplitWith(sb), SplitWith(sa + sb));
    EachThen(rows, DividendWith(da), DividendWith(db), DividendWith(da + db));
  }

  // ---------------------------------------------------- what a split keeps

  lemma OrderKept(low: real, mid: real, high: real, r: real)
    requires r > 0.0
    ensures low <= mid <= high ==> low / r <= mid / r <= high / r
  {
  }

  lemma ValueKept(x: real, v: real, r: real)
    requires r > 0.0
    ensures (x / r) * (v * r) == x * v
  {
  }

  /** Traded value and the ordering of the four prices survive any splits. */
  lemma SplitsKeepValueAndOrder(row: Row, actions: seq<Action>)
    requires SplitRow(row, actions).Ok?
    ensures var out := SplitRow(row, actions).value;
            && out.open * out.volume == row.open * row.volume && out.high * out.volume == row.high * row.volume
            && out.low * out.volume == row.low * row.volume && out.close * out.volume == row.close * row.volume
            && (row.low <= row.open <= row.high ==> out.low <= out.open <= out.high)
            && (row.low <= row.close <= row.high ==> out.low <= out.close <= out.high)
  {
    hide Ratio;
    var r := Ratio(row.ts, actions);
    ValueKept(row.open, row.volume, r);
    ValueKept(row.high, row.volume, r);
    ValueKept(row.low, row.volume, r);
    ValueKept(row.close, row.volume, r);
    OrderKept(row.low, row.open, row.high, r);
    OrderKept(row.low, row.close, row.high, r);
  }

  // ---------------------------------------------- reapplying the same list

  predicate AllZero(row: Row) {
    row.open == 0.0 && row.high == 0.0 && row.low == 0.0 && row.close == 0.0 && row.adjClose == 0.0 && row.volume == 0.0
  }

  lemma ScalingChangesNothingIff(x: real, r: real)
    requires r > 0.0
    ensures (x / r) / r == x / r <==> r == 1.0 || x == 0.0
    ensures (x * r) * r == x * r <==> r == 1.0 || x == 0.0
  {
    var q := x / r;
    assert q * r == x;
    var back := q / r;
    assert back * r == q;
    if back == q {
      assert q * (r - 1.0) == 0.0;
    }
    if (x * r) * r == x * r {
      assert (x * r) * (r - 1.0) == 0.0;
    }
  }

  lemma RescalingTwiceIff(row: Row, r: real)
    requires r > 0.0
    ensures Rescaled(Rescaled(row, r), r) == Rescaled(row, r) <==> r == 1.0 || AllZero(row)
  {
    ScalingChangesNothingIff(row.open, r);
    ScalingChangesNothingIff(row.high, r);
    ScalingChangesNothingIff(row.low, r);
    ScalingChangesNothingIff(row.close, r);
    ScalingChangesNothingIff(row.adjClose, r);
    ScalingChangesNothingIff(row.volume, r);
  }

  lemma RescaledKeepsTs(row: Row, r: real)
    requires r > 0.0
    ensures Rescaled(row, r).ts == row.ts
  {
  }

  /**
   The docstrings call applying the same list twice a no-op. On a row that was already adjusted the split stage is one
   exactly when the splits after the row multiply to 1, or there is nothing to scale.
   */
  lemma ReapplyingSplitsIff(row: Row, actions: seq<Action>)
    requires SplitRow(row, actions).Ok?
    ensures SplitRow(SplitRow(row, actions).value, actions) == SplitRow(row, actions)
       <==> Ratio(row.ts, actions) == 1.0 || AllZero(row)
  {
    hide Rescaled, AllZero;
    var r := Ratio(row.ts, actions);
    RescaledKeepsTs(row, r);
    RescalingTwiceIff(row, r);
    assert SplitRow(Rescaled(row, r), actions) == Ok(Rescaled(Rescaled(row, r), r));
  }

  /** The dividend stage is one exactly when nothing is paid after the row; otherwise it discounts again, or refuses. */
  lemma ReapplyingDividendsIff(row: Row, actions: seq<Action>)
    requires DividendRow(row, actions).Ok?
    ensures DividendRow(DividendRow(row, actions).value, actions) == DividendRow(row, actions)
       <==> Payout(row.ts, actions) == 0.0
  {
  }

  lemma EachOfSnoc(rows: seq<Row>, last: Row, f: Row -> Result<Row, BadAction>)
    ensures Each(rows + [last], f) ==
              if Each(rows, f).Ok? && f(last).Ok? then Ok(Each(rows, f).value + [f(last).value]) else Err(BadAction)
  {
    assert (rows + [last])[..|rows|] == rows;
    assert Each(rows + [last], f).Err? ==> Each(rows + [last], f).error.BadAction?;
  }

  lemma SameSnoc<T>(a: seq<T>, x: T, b: seq<T>, y: T)
    requires |a| == |b|
    ensures a + [x] == b + [y] <==> a == b && x == y
  {
    assert (a + [x])[..|a|] == a && (b + [y])[..|b|] == b;
    assert (a + [x])[|a|] == x && (b + [y])[|b|] == y;
  }

  lemma {:induction false} EachKeepsLength(rows: seq<Row>, f: Row -> Result<Row, BadAction>)
    ensures Each(rows, f).Ok? ==> |Each(rows, f).value| == |rows|
  {
    if rows != [] {
      EachKeepsLength(rows[..|rows| - 1], f);
    }
  }

  lemma {:induction false} EachTwiceIff(rows: seq<Row>, f: Row -> Result<Row, BadAction>)
    requires Each(rows, f).Ok?
    ensures forall i | 0 <= i < |rows| :: f(rows[i]).Ok?
    ensures Each(Each(rows, f).value, f) == Each(rows, f)
            <==> forall i | 0 <= i < |rows| :: f(f(rows[i]).value) == f(rows[i])
  {
    if rows != [] {
      var front, last := rows[..|rows| - 1], rows[|rows| - 1];
      assert rows == front + [last];
      EachOfSnoc(front, last, f);
      EachTwiceIff(front, f);
      var done, out := Each(front, f).value, f(last).value;
      EachOfSnoc(done, out, f);
      EachKeepsLength(done, f);
      if Each(done, f).Ok? && f(out).Ok? {
        SameSnoc(Each(done, f).value, f(out).value, done, out);
      }
      assert Each(Each(rows, f).value, f) == Each(rows, f) <==> Each(done, f) == Ok(done) && f(out) == Ok(out);
      assert forall i | 0 <= i < |rows| :: rows[i] == if i < |front| then front[i] else last;
    }
  }

  predicate SplitsMultiplyToOne(ts: int, splits: seq<Action>) {
    SplitsValidAfter(ts, splits) && Ratio(ts, splits) == 1.0
  }

  lemma ValidWhenOk(row: Row, splits: seq<Action>)
    ensures SplitRow(row, splits).Ok? <==> SplitsValidAfter(row.ts, splits)
  {
  }

  /**
   Both conditions over whole lists: running a stage on its own output is a no-op exactly when it is for every row.
   */
  lemma ReapplyingIsANoOpIff(rows: seq<Row>, actions: seq<Action>)
    ensures Splitted(rows, actions).Ok? ==>
              (Splitted(Splitted(rows, actions).value, actions) == Splitted(rows, actions) <==>
               forall i | 0 <= i < |rows| ::
                 SplitsMultiplyToOne(rows[i].ts, OfKind(actions, Split)) || AllZero(rows[i]))
    ensures Discounted(rows, actions).Ok? ==>
              (Discounted(Discounted(rows, actions).value, actions) == Discounted(rows, actions) <==>
               forall i | 0 <= i < |rows| :: Payout(rows[i].ts, OfKind(actions, Dividend)) == 0.0)
  {
    hide SplitRow, DividendRow;
    var splits, dividends := OfKind(actions, Split), OfKind(actions, Dividend);
    if Splitted(rows, actions).Ok? {
      EachTwiceIff(rows, SplitWith(splits));
      forall i | 0 <= i < |rows|
        ensures SplitRow(SplitRow(rows[i], splits).value, splits) == SplitRow(rows[i], splits)
           <==> SplitsMultiplyToOne(rows[i].ts, splits) || AllZero(rows[i])
      {
        assert SplitWith(splits)(rows[i]).Ok?;
        ValidWhenOk(rows[i], splits);
        ReapplyingSplitsIff(rows[i], splits);
      }
    }
    if Discounted(rows, actions).Ok? {
      EachTwiceIff(rows, DividendWith(dividends));
      forall i | 0 <= i < |rows|
        ensures DividendRow(DividendRow(rows[i], dividends).value, dividends) == DividendRow(rows[i], dividends)
           <==> Payout(rows[i].ts, dividends) == 0.0
      {
        assert DividendWith(dividends)(rows[i]).Ok?;
        ReapplyingDividendsIff(rows[i], dividends);
      }
    }
  }

  /** One 2:1 split, applied twice, halves twice; one dividend of 1 is taken off twice. */
  lemma ReapplyingAdjustsAgain()
    ensures var row := Row(0, 10.0, 10.0, 10.0, 10.0, 1.0, 10.0);
            var split, dividend := [Action(1, Split, 2.0)], [Action(1, Dividend, 1.0)];
            && SplitRow(row, split).Ok? && SplitRow(row, split).value.close == 5.0
            && SplitRow(SplitRow(row, split).value, split).Ok?
              && SplitRow(SplitRow(row, split).value, split).value.close == 2.5
            && DividendRow(row, dividend).Ok? && DividendRow(row, dividend).value.adjClose == 9.0
            && DividendRow(DividendRow(row, dividend).value, dividend).Ok?
            && DividendRow(DividendRow(row, dividend).value, dividend).value.adjClose == 8.0
  {
    assert Ratio(0, []) == 1.0;
    assert Ratio(0, [Action(1, Split, 2.0)]) == 2.0;
    assert Payout(0, [Action(1, Dividend, 1.0)]) == 1.0;
  }

  // ----------------------------------------- both stages, read off the inputs

  /** The ratio of each split after `ts`, and 1 for every other action. */
  function SplitRatios(ts: int, actions: seq<Action>): (out: seq<real>)
    ensures |out| == |actions|
    ensures forall i | 0 <= i < |out| ::
              out[i] == if actions[i].kind == Split && actions[i].ts > ts then actions[i].value else 1.0
  {
    seq(|actions|, i requires 0 <= i < |actions| =>
      if actions[i].kind == Split && actions[i].ts > ts then actions[i].value else 1.0)
  }

  /** The amount of each dividend after `ts`, and 0 for every other action. */
  function DividendAmounts(ts: int, actions: seq<Action>): (out: seq<real>)
    ensures |out| == |actions|
    ensures forall i | 0 <= i < |out| ::
              out[i] == if actions[i].kind == Dividend && actions[i].ts > ts then actions[i].value else 0.0
  {
    seq(|actions|, i requires 0 <= i < |actions| =>
      if actions[i].kind == Dividend && actions[i].ts > ts then actions[i].value else 0.0)
  }

  function Product(xs: seq<real>): real {
    if xs == [] then 1.0 else Mul(Product(xs[..|xs| - 1]), xs[|xs| - 1])
  }

  predicate SplitsUsable(ts: int, actions: seq<Action>) {
    forall i | 0 <= i < |actions| :: actions[i].kind == Split && actions[i].ts > ts ==> actions[i].value > 0.0
  }

  predicate DividendsUsable(ts: int, actions: seq<Action>) {
    forall i | 0 <= i < |actions| :: actions[i].kind == Dividend && actions[i].ts > ts ==> actions[i].value >= 0.0
  }

  lemma UsableFront(ts: int, actions: seq<Action>)
    requires actions != []
    ensures var front, last := actions[..|actions| - 1], actions[|actions| - 1];
            && (SplitsUsable(ts, actions) <==>
                  SplitsUsable(ts, front) && (last.kind == Split && last.ts > ts ==> last.value > 0.0))
            && (DividendsUsable(ts, actions) <==>
                  DividendsUsable(ts, front) && (last.kind == Dividend && last.ts > ts ==> last.value >= 0.0))
  {
    assert actions == actions[..|actions| - 1] + [actions[|actions| - 1]];
  }

  lemma ValidSnoc(ts: int, front: seq<Action>, last: Action)
    ensures SplitsValidAfter(ts, front + [last]) <==> SplitsValidAfter(ts, front) && (last.ts > ts ==> last.value > 0.0)
    ensures DividendsValidAfter(ts, front + [last]) <==>
              DividendsValidAfter(ts, front) && (last.ts > ts ==> last.value >= 0.0)
  {
    ValidityAppend(ts, front, [last]);
    assert [last][0] == last;
  }

  lemma TimesIsMul(a: real, b: real)
    requires a > 0.0 && b > 0.0
    ensures Times(a, b) == Mul(a, b)
  {
  }

  lemma RatioSnoc(ts: int, front: seq<Action>, last: Action)
    requires SplitsValidAfter(ts, front) && (last.ts > ts ==> last.value > 0.0)
    ensures SplitsValidAfter(ts, front + [last])
    ensures Ratio(ts, front + [last]) == Mul(Ratio(ts, front), if last.ts > ts then last.value else 1.0)
  {
    hide Times, Mul;
    assert SplitsValidAfter(ts, [last]);
    RatioAppend(ts, front, [last]);
    assert [last][..0] == [];
    var v := if last.ts > ts then last.value else 1.0;
    if last.ts > ts {
      TimesOne(last.value);
    }
    assert Ratio(ts, [last]) == v;
    TimesIsMul(Ratio(ts, front), v);
  }

  lemma PayoutSnoc(ts: int, front: seq<Action>, last: Action)
    ensures Payout(ts, front + [last]) == Payout(ts, front) + if last.ts > ts then last.value else 0.0
  {
    assert (front + [last])[..|front|] == front;
  }

  lemma FactorsSnoc(ts: int, actions: seq<Action>)
    requires actions != []
    ensures var front, last := actions[..|actions| - 1], actions[|actions| - 1];
            && Product(SplitRatios(ts, actions)) == Mul(Product(SplitRatios(ts, front)),
                 if last.kind == Split && last.ts > ts then last.value else 1.0)
            && Sum(DividendAmounts(ts, actions)) == Sum(DividendAmounts(ts, front))
                 + if last.kind == Dividend && last.ts > ts then last.value else 0.0
  {
    hide Mul;
    var n := |actions| - 1;
    assert SplitRatios(ts, actions)[..n] == SplitRatios(ts, actions[..n]);
    assert DividendAmounts(ts, actions)[..n] == DividendAmounts(ts, actions[..n]);
  }

  lemma {:induction false} LaterSplits(ts: int, actions: seq<Action>)
    ensures SplitsValidAfter(ts, OfKind(actions, Split)) <==> SplitsUsable(ts, actions)
    ensures SplitsUsable(ts, actions) ==> Ratio(ts, OfKind(actions, Split)) == Product(SplitRatios(ts, actions))
  {
    if actions != [] {
      hide SplitsValidAfter, SplitsUsable, DividendsUsable, DividendsValidAfter, SplitRatios, DividendAmounts, Mul,
        Times;
      var front, last := actions[..|actions| - 1], actions[|actions| - 1];
      LaterSplits(ts, front);
      UsableFront(ts, actions);
      FactorsSnoc(ts, actions);
      ValidSnoc(ts, OfKind(front, Split), last);
      if SplitsUsable(ts, actions) {
        if last.kind == Split {
          RatioSnoc(ts, OfKind(front, Split), last);
        } else {
          TimesOne(Ratio(ts, OfKind(front, Split)));
        }
      }
    }
  }

  lemma {:induction false} LaterDividends(ts: int, actions: seq<Action>)
    ensures DividendsValidAfter(ts, OfKind(actions, Dividend)) <==> DividendsUsable(ts, actions)
    ensures Payout(ts, OfKind(actions, Dividend)) == Sum(DividendAmounts(ts, actions))
  {
    if actions != [] {
      hide SplitsValidAfter, SplitsUsable, DividendsUsable, DividendsValidAfter, SplitRatios, DividendAmounts;
      var front, last := actions[..|actions| - 1], actions[|actions| - 1];
      LaterDividends(ts, front);
      UsableFront(ts, actions);
      FactorsSnoc(ts, actions);
      ValidSnoc(ts, OfKind(front, Dividend), last);
      PayoutSnoc(ts, OfKind(front, Dividend), last);
    }
  }

  lemma {:induction false} EachMeans(rows: seq<Row>, f: Row -> Result<Row, BadAction>)
    ensures Each(rows, f).Ok? <==> forall i | 0 <= i < |rows| :: f(rows[i]).Ok?
    ensures Each(rows, f).Ok? ==>
              && |Each(rows, f).value| == |rows|
              && forall i | 0 <= i < |rows| :: f(rows[i]) == Ok(Each(rows, f).value[i])
  {
    if rows != [] {
      var front, last := rows[..|rows| - 1], rows[|rows| - 1];
      assert rows == front + [last];
      EachMeans(front, f);
      EachOfSnoc(front, last, f);
      assert forall i | 0 <= i < |rows| :: rows[i] == if i < |front| then front[i] else last;
    }
  }

  /** `out` is `row` restated for `ratio` new shares to an old one. */
  predicate IsRestated(out: Row, row: Row, ratio: real) {
    && out.ts == row.ts && out.volume == row.volume * ratio
    && out.open * ratio == row.open && out.high * ratio == row.high && out.low * ratio == row.low
    && out.close * ratio == row.close && out.adjClose * ratio == row.adjClose
  }

  lemma RescaledIsRestated(row: Row, ratio: real)
    requires ratio > 0.0
    ensures IsRestated(Rescaled(row, ratio), row, ratio)
  {
  }

  /**
   The split stage refuses exactly when some split later than some row has a non-positive ratio; otherwise every row is
   restated by the product of the ratios of all later splits, itself excluded.
   */
  lemma SplitStageMeans(rows: seq<Row>, actions: seq<Action>)
    ensures Splitted(rows, actions).Ok? <==> forall i | 0 <= i < |rows| :: SplitsUsable(rows[i].ts, actions)
    ensures Splitted(rows, actions).Ok? ==>
              var out := Splitted(rows, actions).value;
              && |out| == |rows|
              && forall i | 0 <= i < |rows| :: IsRestated(out[i], rows[i], Product(SplitRatios(rows[i].ts, actions)))
  {
    hide SplitsValidAfter, SplitsUsable, Rescaled, IsRestated;
    var splits := OfKind(actions, Split);
    EachMeans(rows, SplitWith(splits));
    forall i | 0 <= i < |rows|
      ensures SplitWith(splits)(rows[i]).Ok? <==> SplitsUsable(rows[i].ts, actions)
      ensures SplitsUsable(rows[i].ts, actions) ==>
                IsRestated(SplitWith(splits)(rows[i]).value, rows[i], Product(SplitRatios(rows[i].ts, actions)))
    {
      LaterSplits(rows[i].ts, actions);
      if SplitsUsable(rows[i].ts, actions) {
        RescaledIsRestated(rows[i], Ratio(rows[i].ts, splits));
      }
    }
  }

  /** A row can lose `paid`: nothing is paid, or the adjusted close covers it. */
  predicate Covered(row: Row, paid: real) {
    paid == 0.0 || row.adjClose >= paid
  }

  /**
   The dividend stage refuses exactly when a later dividend is negative or the later dividends exceed a row's adjusted
   close; otherwise their sum comes off that close and nothing else changes.
   */
  lemma DividendStageMeans(rows: seq<Row>, actions: seq<Action>)
    ensures Discounted(rows, actions).Ok? <==>
              forall i | 0 <= i < |rows| ::
                DividendsUsable(rows[i].ts, actions) && Covered(rows[i], Sum(DividendAmounts(rows[i].ts, actions)))
    ensures Discounted(rows, actions).Ok? ==>
              var out := Discounted(rows, actions).value;
              && |out| == |rows|
              && forall i | 0 <= i < |rows| ::
                   && out[i] == rows[i].(adjClose := rows[i].adjClose - Sum(DividendAmounts(rows[i].ts, actions)))
                   && (rows[i].adjClose >= 0.0 ==> out[i].adjClose >= 0.0)
  {
    hide DividendsValidAfter, DividendsUsable;
    var dividends := OfKind(actions, Dividend);
    EachMeans(rows, DividendWith(dividends));
    forall i | 0 <= i < |rows|
      ensures DividendWith(dividends)(rows[i]).Ok? <==>
                DividendsUsable(rows[i].ts, actions) && Covered(rows[i], Sum(DividendAmounts(rows[i].ts, actions)))
      ensures DividendWith(dividends)(rows[i]).Ok? ==>
                DividendWith(dividends)(rows[i]).value
                == rows[i].(adjClose := rows[i].adjClose - Sum(DividendAmounts(rows[i].ts, actions)))
    {
      LaterDividends(rows[i].ts, actions);
    }
  }

  // --------------------------------------- agreement with the other module

  function EventsOf(actions: seq<Action>): (events: seq<Splits.SplitEvent>)
    ensures |events| == |actions|
    ensures forall i | 0 <= i < |actions| :: events[i].date == actions[i].ts && events[i].ratio == actions[i].value
  {
    seq(|actions|, i requires 0 <= i < |actions| => Splits.SplitEvent(actions[i].ts, actions[i].value, true, {}))
  }

  function BarOf(row: Row, volume: int): Splits.Bar {
    Splits.Bar(row.ts, row.open, row.high, row.low, row.close, volume)
  }

  lemma InverseStep(f: real, r: real, v: real)
    requires f > 0.0 && r > 0.0 && v > 0.0 && f * r == 1.0
    ensures Splits.TimesInverse(f, v) * Times(r, v) == 1.0
  {
  }

  lemma {:induction false} FactorIsInverseRatio(ts: int, actions: seq<Action>)
    requires forall i | 0 <= i < |actions| :: actions[i].value > 0.0
    ensures Splits.PositiveRatios(EventsOf(actions))
    ensures Splits.Factor(ts, EventsOf(actions)) * Ratio(ts, actions) == 1.0
  {
    hide Splits.TimesInverse, Times;
    if actions != [] {
      var front, last := actions[..|actions| - 1], actions[|actions| - 1];
      FactorIsInverseRatio(ts, front);
      assert EventsOf(actions)[..|actions| - 1] == EventsOf(front);
      var f, r := Splits.Factor(ts, EventsOf(front)), Ratio(ts, front);
      if last.ts > ts {
        InverseStep(f, r, last.value);
        assert Splits.Factor(ts, EventsOf(actions)) == Splits.TimesInverse(f, last.value);
        assert Ratio(ts, actions) == Times(r, last.value);
      }
    }
  }

  /**
   The cumulative factor here and the one-split-at-a-time fold of src/data/quality/historical.py give the same four
   prices.
   */
  lemma BothImplementationsAgreeOnPrices(row: Row, actions: seq<Action>, volume: int)
    requires forall i | 0 <= i < |actions| :: actions[i].value > 0.0
    ensures Splits.PositiveRatios(EventsOf(actions)) && SplitRow(row, actions).Ok?
    ensures var bar := Splits.AdjustBar(BarOf(row, volume), EventsOf(actions));
            bar == BarOf(SplitRow(row, actions).value, bar.volume)
  {
    hide Splits.AdjustBar, Splits.Factor, Ratio;
    FactorIsInverseRatio(row.ts, actions);
    var f, r := Splits.Factor(row.ts, EventsOf(actions)), Ratio(row.ts, actions);
    Splits.AdjustBarScales(BarOf(row, volume), EventsOf(actions));
    RescaledByInverse(row, f, r);
  }
}
