/** Gap-aware returns and the hand-written Pearson correlation: src/data/quality/cross_source.py. */
module CrossSource {
  import opened Algebra
  import opened Common
  import opened Sorting

  /** A float close: a number, or NaN / an infinity. */
  datatype Close = Finite(value: real) | NotFinite

  /** A log-return, or the NaN that marks a gap. */
  type Return = Option<real>

  predicate Valid(c: Close) {
    c.Finite? && c.value > 0.0
  }

  // ---------------------------------------------------------------- returns

  /** The most recent valid close. */
  function LastValid(closes: seq<Close>): (last: Option<real>)
    ensures last.Some? ==> last.value > 0.0
    ensures last.None? <==> forall i | 0 <= i < |closes| :: !Valid(closes[i])
  {
    if closes == [] then None
    else if Valid(closes[|closes| - 1]) then Some(closes[|closes| - 1].value)
    else LastValid(closes[..|closes| - 1])
  }

  /** The return of bar `i`: measured from the most recent valid close before it, a gap if either is missing. */
  function ReturnAt(closes: seq<Close>, i: nat, log: real -> real): Return
    requires 0 < i < |closes|
  {
    var base := LastValid(closes[..i]);
    if Valid(closes[i]) && base.Some? then Some(log(Div(closes[i].value, base.value))) else None
  }

  function Returns(closes: seq<Close>, log: real -> real): (out: seq<Return>)
    ensures |out| == if closes == [] then 0 else |closes| - 1
    ensures forall i | 0 <= i < |out| :: out[i] == ReturnAt(closes, i + 1, log)
  {
    seq(if closes == [] then 0 else |closes| - 1, i requires 0 <= i < |closes| - 1 => ReturnAt(closes, i + 1, log))
  }

  lemma {:induction false} LastValidIs(closes: seq<Close>, k: nat)
    requires k < |closes| && Valid(closes[k]) && forall j | k < j < |closes| :: !Valid(closes[j])
    ensures LastValid(closes) == Some(closes[k].value)
  {
    if k < |closes| - 1 {
      LastValidIs(closes[..|closes| - 1], k);
    }
  }

  /**
   Each return compares a valid close with the nearest valid one before it; there is a gap exactly where the close is
   bad or no valid one precedes it.
   */
  lemma ReturnsMean(closes: seq<Close>, i: nat, k: nat, log: real -> real)
    requires k < i < |closes| && forall j | k < j < i :: !Valid(closes[j])
    ensures Valid(closes[k]) && Valid(closes[i]) ==>
              Returns(closes, log)[i - 1] == Some(log(Div(closes[i].value, closes[k].value)))
    ensures Returns(closes, log)[i - 1] == None
       <==> !Valid(closes[i]) || forall j | 0 <= j < i :: !Valid(closes[j])
  {
    hide Div;
    assert Returns(closes, log)[i - 1] == ReturnAt(closes, i, log);
    assert forall j | 0 <= j < i :: closes[..i][j] == closes[j];
    if Valid(closes[k]) {
      LastValidIs(closes[..i], k);
    }
  }

  /** `_log_returns`, with its two-state baseline machine. */
  method LogReturns(closes: seq<Close>, log: real -> real) returns (out: seq<Return>)
    ensures out == Returns(closes, log)
  {
    out := [];
    if |closes| < 2 {
      return;
    }
    var lastValid: Option<real> := None;
    for i := 0 to |closes|
      invariant lastValid == LastValid(closes[..i])
      invariant |out| == IntMax(0, i - 1)
      invariant forall k | 0 <= k < |out| :: out[k] == ReturnAt(closes, k + 1, log)
    {
      var cur := closes[i];
      assert closes[..i + 1][..i] == closes[..i];
      if !Valid(cur) {
        if lastValid.None? {
          if i >= 1 {
            out := out + [None];
          }
        } else {
          out := out + [None];
        }
        continue;
      }
      if lastValid.None? {
        if i != 0 {
          out := out + [None];
        }
        lastValid := Some(cur.value);
        continue;
      }
      out := out + [Some(log(Div(cur.value, lastValid.value)))];
      lastValid := Some(cur.value);
    }
    assert closes[..|closes|] == closes;
  }

  ghost predicate IsLog(log: real -> real) {
    forall x: real, y: real | x > 0.0 && y > 0.0 :: log(Mul(x, y)) == log(x) + log(y)
  }

  function SumOfFinite(rs: seq<Return>): real {
    if rs == [] then 0.0
    else SumOfFinite(rs[..|rs| - 1]) + match rs[|rs| - 1] case Some(x) => x case None => 0.0
  }

  function FirstValid(closes: seq<Close>): (first: Option<real>)
    ensures first.Some? ==> first.value > 0.0
    ensures first.None? <==> LastValid(closes).None?
  {
    if closes == [] then None
    else if Valid(closes[0]) then Some(closes[0].value)
    else
      assert closes == [closes[0]] + closes[1..];
      FirstValid(closes[1..])
  }

  lemma {:induction false} FirstValidOfPrefix(closes: seq<Close>, k: nat)
    requires k <= |closes| && LastValid(closes[..k]).Some?
    ensures FirstValid(closes[..k]) == FirstValid(closes)
  {
    if k > 0 && !Valid(closes[0]) {
      assert closes[..k][1..] == closes[1..][..k - 1];
      assert closes[..k] == [closes[0]] + closes[1..][..k - 1];
      FirstValidOfPrefix(closes[1..], k - 1);
    }
  }

  lemma LogChain(log: real -> real, first: real, base: real, cur: real)
    requires IsLog(log) && first > 0.0 && base > 0.0 && cur > 0.0
    ensures log(Div(first, first)) == 0.0
    ensures log(Div(base, first)) + log(Div(cur, base)) == log(Div(cur, first))
  {
    hide Mul, Div;
    MulSigns(1.0, 1.0);
    MulSigns(1.0, first);
    DivUnique(first, first, 1.0);
    assert log(Mul(1.0, 1.0)) == log(1.0) + log(1.0);
    DivSigns(base, first);
    DivSigns(cur, base);
    var x, y := Div(cur, base), Div(base, first);
    DivMul(cur, base);
    DivMul(base, first);
    MulAssociates(x, y, first);
    DivUnique(cur, first, Mul(x, y));
    assert log(Mul(x, y)) == log(x) + log(y);
  }

  lemma ReturnsOfPrefix(closes: seq<Close>, log: real -> real)
    requires |closes| > 1
    ensures Returns(closes, log)[..|closes| - 2] == Returns(closes[..|closes| - 1], log)
  {
    hide Div;
    var front := closes[..|closes| - 1];
    var long, short := Returns(closes, log), Returns(front, log);
    forall i | 0 <= i < |short|
      ensures short[i] == long[i]
    {
      assert front[..i + 1] == closes[..i + 1];
    }
  }

  lemma {:induction false} OnlyLastValid(closes: seq<Close>)
    requires closes != [] && LastValid(closes[..|closes| - 1]).None? && Valid(closes[|closes| - 1])
    ensures FirstValid(closes) == Some(closes[|closes| - 1].value)
  {
    if |closes| > 1 {
      assert closes[1..][..|closes| - 2] == closes[..|closes| - 1][1..];
      assert !Valid(closes[..|closes| - 1][0]);
      OnlyLastValid(closes[1..]);
    }
  }

  /** For every pattern of bad closes the finite returns telescope to log(last valid / first valid). */
  lemma {:induction false} FiniteReturnsTelescope(closes: seq<Close>, log: real -> real)
    requires IsLog(log)
    ensures SumOfFinite(Returns(closes, log)) ==
              match LastValid(closes)
              case None => 0.0
              case Some(last) => log(Div(last, FirstValid(closes).value))
  {
    hide Mul, Div, IsLog;
    if closes != [] {
      var front, cur := closes[..|closes| - 1], closes[|closes| - 1];
      var base := LastValid(front);
      assert closes[..|closes| - 1] == front;
      if base.Some? {
        FirstValidOfPrefix(closes, |closes| - 1);
        if Valid(cur) {
          LogChain(log, FirstValid(closes).value, base.value, cur.value);
        }
      } else if Valid(cur) {
        OnlyLastValid(closes);
        LogChain(log, cur.value, cur.value, cur.value);
      }
      if |closes| > 1 {
        FiniteReturnsTelescope(front, log);
        ReturnsOfPrefix(closes, log);
      }
    }
  }

  function ScaledClose(c: Close, k: real): Close {
    if c.Finite? then Finite(Mul(c.value, k)) else NotFinite
  }

  function ScaledCloses(closes: seq<Close>, k: real): (out: seq<Close>)
    ensures |out| == |closes| && forall i | 0 <= i < |closes| :: out[i] == ScaledClose(closes[i], k)
  {
    seq(|closes|, i requires 0 <= i < |closes| => ScaledClose(closes[i], k))
  }

  lemma ScalingKeepsValidity(c: Close, k: real)
    requires k > 0.0
    ensures Valid(ScaledClose(c, k)) <==> Valid(c)
  {
  }

  lemma {:induction false} LastValidScales(closes: seq<Close>, k: real)
    requires k > 0.0
    ensures LastValid(ScaledCloses(closes, k)) ==
              match LastValid(closes) case None => None case Some(v) => Some(Mul(v, k))
  {
    hide Mul;
    if closes != [] {
      var front := closes[..|closes| - 1];
      assert ScaledCloses(closes, k)[..|closes| - 1] == ScaledCloses(front, k);
      ScalingKeepsValidity(closes[|closes| - 1], k);
      LastValidScales(front, k);
    }
  }

  lemma CancelScale(a: real, b: real, k: real)
    requires b > 0.0 && k > 0.0
    ensures Mul(b, k) > 0.0 && Div(Mul(a, k), Mul(b, k)) == Div(a, b)
  {
  }

  /** Multiplying a source by a positive constant changes none of its returns. */
  lemma ScalingChangesNoReturn(closes: seq<Close>, k: real, log: real -> real)
    requires k > 0.0
    ensures Returns(ScaledCloses(closes, k), log) == Returns(closes, log)
  {
    hide Mul, Div;
    var scaled := ScaledCloses(closes, k);
    forall i | 0 < i < |closes|
      ensures ReturnAt(scaled, i, log) == ReturnAt(closes, i, log)
    {
      assert scaled[..i] == ScaledCloses(closes[..i], k);
      LastValidScales(closes[..i], k);
      ScalingKeepsValidity(closes[i], k);
      if Valid(closes[i]) && LastValid(closes[..i]).Some? {
        CancelScale(closes[i].value, LastValid(closes[..i]).value, k);
      }
    }
  }

  // ---------------------------------------------------------------- pearson

  /** The reason codes of `_pearson_with_reason`; a gap lists the offending indices, a flat side is named. */
  datatype Pearson = LengthMismatch | NanGap(indices: seq<nat>) | ZeroVariance(xsIsFlat: bool) | Correlation(r: real)

  ghost predicate IsSqrt(sqrt: real -> real) {
    forall x: real | x >= 0.0 :: sqrt(x) >= 0.0 && Mul(sqrt(x), sqrt(x)) == x
  }

  function Mean(xs: seq<real>): real
    requires xs != []
  {
    Div(Sum(xs), |xs| as real)
  }

  /** The co-moment of two series about the given centres. */
  function CoMoment(xs: seq<real>, ys: seq<real>, mx: real, my: real): real
    requires |xs| == |ys|
  {
    if xs == [] then 0.0
    else
      var n := |xs| - 1;
      CoMoment(xs[..n], ys[..n], mx, my) + Mul(xs[n] - mx, ys[n] - my)
  }

  predicate Flat(xs: seq<real>) {
    forall i, j | 0 <= i < |xs| && 0 <= j < |xs| :: xs[i] == xs[j]
  }

  lemma SquareOfProduct(a: real, b: real)
    ensures Mul(Mul(a, b), Mul(a, b)) == Mul(Mul(a, a), Mul(b, b))
  {
  }

  lemma ProductOfSums(a: real, b: real, c: real, d: real)
    ensures Mul(a + b, c + d) == Mul(a, c) + Mul(a, d) + Mul(c, b) + Mul(b, d)
  {
  }

  lemma ProductOfPairs(a: real, b: real, c: real, d: real)
    ensures Mul(Mul(a, b), Mul(c, d)) == Mul(Mul(a, c), Mul(b, d))
  {
  }

  lemma TimesCross(k: real, x: real, y: real, z: real)
    ensures Mul(k, x + y - 2.0 * z) == Mul(k, x) + Mul(k, y) - 2.0 * Mul(k, z)
  {
  }

  /** varx * (varx dy^2 + vary dx^2 - 2 cov dx dy) is (varx dy - cov dx)^2 + (varx vary - cov^2) dx^2. */
  lemma CrossTermNonNegative(cov: real, varx: real, vary: real, dx: real, dy: real)
    requires varx >= 0.0 && vary >= 0.0 && Mul(cov, cov) <= Mul(varx, vary)
    ensures Mul(varx, Mul(dy, dy)) + Mul(vary, Mul(dx, dx)) - 2.0 * Mul(cov, Mul(dx, dy)) >= 0.0
  {
    hide Mul;
    var p, xx, yy := Mul(dx, dy), Mul(dx, dx), Mul(dy, dy);
    var cross := Mul(varx, yy) + Mul(vary, xx) - 2.0 * Mul(cov, p);
    Square(dx);
    Square(cov);
    if varx == 0.0 {
      MulSigns(varx, vary);
      MulSigns(varx, yy);
      MulSigns(cov, p);
      MulSigns(vary, xx);
    } else {
      var a, b := Mul(varx, dy), Mul(cov, dx);
      Square(a - b);
      SquareOfSum(a, b);
      SquareOfProduct(varx, dy);
      SquareOfProduct(cov, dx);
      MulAssociates(varx, varx, yy);
      ProductOfPairs(varx, dy, cov, dx);
      MulCommutes(dy, dx);
      MulAssociates(varx, vary, xx);
      MulDistributes(Mul(varx, vary), Mul(cov, cov), xx);
      MulSigns(Mul(varx, vary) - Mul(cov, cov), xx);
      TimesCross(varx, Mul(varx, yy), Mul(vary, xx), Mul(cov, p));
      MulAssociates(varx, cov, p);
      assert Mul(varx, cross) >= 0.0;
      if cross < 0.0 {
        MulSigns(varx, -cross);
        MulDistributes(cross, 0.0, varx);
        MulCommutes(varx, cross);
        MulCommutes(varx, -cross);
      }
    }
  }

  /** One step of the accumulating loop keeps cov^2 <= varx * vary. */
  lemma CauchySchwarzStep(cov: real, varx: real, vary: real, dx: real, dy: real)
    requires varx >= 0.0 && vary >= 0.0 && Mul(cov, cov) <= Mul(varx, vary)
    ensures var c, x, y := cov + Mul(dx, dy), varx + Mul(dx, dx), vary + Mul(dy, dy);
            x >= 0.0 && y >= 0.0 && Mul(c, c) <= Mul(x, y)
  {
    hide Mul;
    var p, xx, yy := Mul(dx, dy), Mul(dx, dx), Mul(dy, dy);
    Square(dx);
    Square(dy);
    SquareOfProduct(dx, dy);
    CrossTermNonNegative(cov, varx, vary, dx, dy);
    SquareOfSum(cov, p);
    ProductOfSums(varx, xx, vary, yy);
  }

  /** Cauchy-Schwarz for the accumulators, by induction over the loop. */
  lemma {:induction false} CauchySchwarz(xs: seq<real>, ys: seq<real>, mx: real, my: real)
    requires |xs| == |ys|
    ensures var cov, varx, vary := CoMoment(xs, ys, mx, my), CoMoment(xs, xs, mx, mx), CoMoment(ys, ys, my, my);
            varx >= 0.0 && vary >= 0.0 && Mul(cov, cov) <= Mul(varx, vary)
  {
    hide Mul;
    if xs == [] {
      MulSigns(0.0, 0.0);
    } else {
      var n := |xs| - 1;
      CauchySchwarz(xs[..n], ys[..n], mx, my);
      CauchySchwarzStep(CoMoment(xs[..n], ys[..n], mx, my), CoMoment(xs[..n], xs[..n], mx, mx),
                        CoMoment(ys[..n], ys[..n], my, my), xs[n] - mx, ys[n] - my);
    }
  }

  lemma {:induction false} ZeroMomentMeansConstant(xs: seq<real>, m: real)
    ensures CoMoment(xs, xs, m, m) == 0.0 <==> forall i | 0 <= i < |xs| :: xs[i] == m
    ensures CoMoment(xs, xs, m, m) >= 0.0
  {
    hide Mul;
    if xs != [] {
      var n := |xs| - 1;
      ZeroMomentMeansConstant(xs[..n], m);
      Square(xs[n] - m);
      MulSigns(xs[n] - m, 0.0);
      assert (forall i | 0 <= i < |xs| :: xs[i] == m) <==> (forall i | 0 <= i < n :: xs[..n][i] == m) && xs[n] == m;
    }
  }

  lemma {:induction false} SumOfConstant(xs: seq<real>, c: real)
    requires forall i | 0 <= i < |xs| :: xs[i] == c
    ensures Sum(xs) == Mul(c, |xs| as real)
  {
    hide Mul;
    if xs == [] {
      MulSigns(c, 0.0);
    } else {
      var n := (|xs| - 1) as real;
      SumOfConstant(xs[..|xs| - 1], c);
      MulDistributes(n, 1.0, c);
      MulCommutes(c, n);
      MulCommutes(c, n + 1.0);
      MulSigns(1.0, c);
    }
  }

  /** The variance guard fires exactly on constant series. */
  lemma ZeroVarianceIffFlat(xs: seq<real>)
    requires xs != []
    ensures CoMoment(xs, xs, Mean(xs), Mean(xs)) == 0.0 <==> Flat(xs)
    ensures CoMoment(xs, xs, Mean(xs), Mean(xs)) >= 0.0
  {
    ZeroMomentMeansConstant(xs, Mean(xs));
    hide CoMoment;
    if Flat(xs) {
      SumOfConstant(xs, xs[0]);
      DivUnique(Sum(xs), |xs| as real, xs[0]);
    }
  }

  lemma BoundedQuotient(cov: real, root: real)
    requires root > 0.0 && Mul(cov, cov) <= Mul(root, root)
    ensures -1.0 <= Div(cov, root) <= 1.0
  {
    hide Mul, Div;
    SquareRootOrder(cov, root);
    DivOrder(cov, root, root);
    DivOrder(-root, cov, root);
    MulSigns(1.0, root);
    MulDistributes(1.0, 0.0, root);
    DivUnique(root, root, 1.0);
    DivUnique(-root, root, -1.0);
  }

  predicate AllFinite(rs: seq<Return>) {
    forall i | 0 <= i < |rs| :: rs[i].Some?
  }

  function Values(rs: seq<Return>): (out: seq<real>)
    requires AllFinite(rs)
    ensures |out| == |rs| && forall i | 0 <= i < |rs| :: out[i] == rs[i].value
  {
    seq(|rs|, i requires 0 <= i < |rs| => rs[i].value)
  }

  /** The indices at which either series has a gap, ascending. */
  function Gaps(xs: seq<Return>, ys: seq<Return>): (out: seq<nat>)
    requires |xs| == |ys|
    ensures forall i :: i in out <==> 0 <= i < |xs| && (xs[i].None? || ys[i].None?)
    ensures forall i, j | 0 <= i < j < |out| :: out[i] < out[j]
  {
    if xs == [] then []
    else
      var n := |xs| - 1;
      var front := Gaps(xs[..n], ys[..n]);
      assert forall i | 0 <= i < |front| :: front[i] in front;
      if xs[n].None? || ys[n].None? then front + [n] else front
  }

  /** The three accumulators of the loop. */
  datatype Moments = Moments(cov: real, varx: real, vary: real)

  function MomentsOf(xs: seq<real>, ys: seq<real>): Moments
    requires |xs| == |ys| && xs != []
  {
    var mx, my := Mean(xs), Mean(ys);
    Moments(CoMoment(xs, ys, mx, my), CoMoment(xs, xs, mx, mx), CoMoment(ys, ys, my, my))
  }

  /** The value the code returns: cov / sqrt(varx * vary). */
  function Coefficient(xs: seq<real>, ys: seq<real>, sqrt: real -> real): real
    requires |xs| == |ys| && xs != []
  {
    var m := MomentsOf(xs, ys);
    var root := sqrt(Mul(m.varx, m.vary));
    if root == 0.0 then 0.0 else Div(m.cov, root)
  }

  /** What `_pearson_with_reason` answers, guard by guard. */
  function PearsonOf(xs: seq<Return>, ys: seq<Return>, sqrt: real -> real): Pearson {
    if |xs| < 2 || |xs| != |ys| then LengthMismatch
    else if !(AllFinite(xs) && AllFinite(ys)) then NanGap(Gaps(xs, ys))
    else if Flat(Values(xs)) || Flat(Values(ys)) then ZeroVariance(Flat(Values(xs)))
    else Correlation(Coefficient(Values(xs), Values(ys), sqrt))
  }

  lemma RootIsPositive(sqrt: real -> real, x: real)
    requires IsSqrt(sqrt) && x > 0.0
    ensures sqrt(x) > 0.0 && Mul(sqrt(x), sqrt(x)) == x
  {
  }

  /** With positive variances the root is positive and the correlation lies in [-1, 1]. */
  lemma CoefficientIsBounded(xs: seq<real>, ys: seq<real>, sqrt: real -> real)
    requires IsSqrt(sqrt) && |xs| == |ys| && xs != [] && !Flat(xs) && !Flat(ys)
    ensures sqrt(Mul(MomentsOf(xs, ys).varx, MomentsOf(xs, ys).vary)) > 0.0
    ensures -1.0 <= Coefficient(xs, ys, sqrt) <= 1.0
  {
    hide Mul, Div, CoMoment, Flat;
    var m := MomentsOf(xs, ys);
    CauchySchwarz(xs, ys, Mean(xs), Mean(ys));
    ZeroVarianceIffFlat(xs);
    ZeroVarianceIffFlat(ys);
    MulSigns(m.varx, m.vary);
    RootIsPositive(sqrt, Mul(m.varx, m.vary));
    BoundedQuotient(m.cov, sqrt(Mul(m.varx, m.vary)));
  }

  method Correlate(xs: seq<real>, ys: seq<real>, sqrt: real -> real) returns (result: Pearson)
    requires IsSqrt(sqrt) && |xs| == |ys| >= 2
    ensures result.ZeroVariance? || result.Correlation?
    ensures result.ZeroVariance? <==> Flat(xs) || Flat(ys)
    ensures result.ZeroVariance? ==> (result.xsIsFlat <==> Flat(xs))
    ensures result.Correlation? ==> result.r == Coefficient(xs, ys, sqrt) && -1.0 <= result.r <= 1.0
  {
    hide Mul, Div, IsSqrt, Mean, Flat;
    var n := |xs|;
    var mx, my := Mean(xs), Mean(ys);
    var cov, varx, vary := 0.0, 0.0, 0.0;
    for i := 0 to n
      invariant cov == CoMoment(xs[..i], ys[..i], mx, my)
      invariant varx == CoMoment(xs[..i], xs[..i], mx, mx) && vary == CoMoment(ys[..i], ys[..i], my, my)
    {
      assert xs[..i + 1][..i] == xs[..i] && ys[..i + 1][..i] == ys[..i];
      var dx, dy := xs[i] - mx, ys[i] - my;
      cov := cov + Mul(dx, dy);
      varx := varx + Mul(dx, dx);
      vary := vary + Mul(dy, dy);
    }
    assert xs[..n] == xs && ys[..n] == ys;
    assert Moments(cov, varx, vary) == MomentsOf(xs, ys);
    ZeroVarianceIffFlat(xs);
    ZeroVarianceIffFlat(ys);
    if varx == 0.0 || vary == 0.0 {
      return ZeroVariance(varx == 0.0);
    }
    CoefficientIsBounded(xs, ys, sqrt);
    result := Correlation(Div(cov, sqrt(Mul(varx, vary))));
  }

  /** A varying series correlates with itself exactly 1. */
  lemma SelfCorrelationIsOne(xs: seq<real>, sqrt: real -> real)
    requires IsSqrt(sqrt) && xs != [] && !Flat(xs)
    ensures Coefficient(xs, xs, sqrt) == 1.0
  {
    hide Mul, Div, CoMoment, Flat;
    var v := MomentsOf(xs, xs).varx;
    CoefficientIsBounded(xs, xs, sqrt);
    ZeroVarianceIffFlat(xs);
    MulSigns(v, v);
    RootIsPositive(sqrt, Mul(v, v));
    SquareRootOrder(sqrt(Mul(v, v)), v);
    SquareRootOrder(v, sqrt(Mul(v, v)));
    MulSigns(1.0, v);
    DivUnique(v, v, 1.0);
  }

  // ------------------------------------------- what the coefficient measures

  function Products(xs: seq<real>, ys: seq<real>): (out: seq<real>)
    requires |xs| == |ys|
    ensures |out| == |xs| && forall i | 0 <= i < |xs| :: out[i] == Mul(xs[i], ys[i])
  {
    seq(|xs|, i requires 0 <= i < |xs| == |ys| => Mul(xs[i], ys[i]))
  }

  /** n * sum(x y) - sum(x) * sum(y): the textbook numerator, from plain sums and without any mean. */
  function Spread(xs: seq<real>, ys: seq<real>): real
    requires |xs| == |ys|
  {
    Mul(|xs| as real, Sum(Products(xs, ys))) - Mul(Sum(xs), Sum(ys))
  }

  lemma ProductOfDeviations(x: real, y: real, a: real, b: real)
    ensures Mul(x - a, y - b) == Mul(x, y) - Mul(a, y) - Mul(b, x) + Mul(a, b)
  {
  }

  lemma TimesSum(k: real, x: real, y: real)
    ensures Mul(k, x + y) == Mul(k, x) + Mul(k, y)
  {
  }

  /** The loop's accumulator about any two centres, multiplied out. */
  lemma {:induction false} CoMomentExpands(xs: seq<real>, ys: seq<real>, a: real, b: real)
    requires |xs| == |ys|
    ensures CoMoment(xs, ys, a, b) ==
              Sum(Products(xs, ys)) - Mul(a, Sum(ys)) - Mul(b, Sum(xs)) + Mul(Mul(a, b), |xs| as real)
  {
    hide Mul;
    if xs == [] {
      MulSigns(a, 0.0);
      MulSigns(b, 0.0);
      MulSigns(Mul(a, b), 0.0);
    } else {
      var n := |xs| - 1;
      var fx, fy, x, y := xs[..n], ys[..n], xs[n], ys[n];
      CoMomentExpands(fx, fy, a, b);
      assert Products(xs, ys)[..n] == Products(fx, fy);
      ProductOfDeviations(x, y, a, b);
      TimesSum(a, Sum(fy), y);
      TimesSum(b, Sum(fx), x);
      TimesSum(Mul(a, b), n as real, 1.0);
      MulSigns(Mul(a, b), 1.0);
    }
  }

  lemma CentredSum(n: real, p: real, sx: real, sy: real, mx: real, my: real)
    requires Mul(mx, n) == sx && Mul(my, n) == sy
    ensures Mul(n, p - Mul(mx, sy) - Mul(my, sx) + Mul(Mul(mx, my), n)) == Mul(n, p) - Mul(sx, sy)
  {
    var mxy, xy := Mul(mx, sy), Mul(my, sx);
    assert Mul(n, mxy) == Mul(sx, sy);
    assert Mul(n, xy) == Mul(sx, sy);
    assert Mul(Mul(mx, my), n) == mxy;
    hide Mul;
    assert p - mxy - xy + mxy == p - xy;
    TimesSum(n, p, -xy);
    MulDistributes(xy, 0.0, n);
    MulCommutes(n, xy);
    MulCommutes(n, -xy);
  }

  /** The accumulator about the two means is the spread over n. */
  lemma MomentIsSpread(xs: seq<real>, ys: seq<real>)
    requires |xs| == |ys| && xs != []
    ensures Mul(|xs| as real, CoMoment(xs, ys, Mean(xs), Mean(ys))) == Spread(xs, ys)
  {
    hide Mul, Div;
    var n := |xs| as real;
    CoMomentExpands(xs, ys, Mean(xs), Mean(ys));
    DivMul(Sum(xs), n);
    DivMul(Sum(ys), n);
    CentredSum(n, Sum(Products(xs, ys)), Sum(xs), Sum(ys), Mean(xs), Mean(ys));
  }

  /** A root r of r^2 v == c^2 with the sign of c; there is one. */
  predicate IsRatio(r: real, c: real, v: real) {
    && Mul(Mul(r, r), v) == Mul(c, c)
    && (r > 0.0 <==> c > 0.0) && (r < 0.0 <==> c < 0.0)
  }

  lemma RatioIsUnique(r: real, q: real, c: real, v: real)
    requires v > 0.0 && IsRatio(r, c, v) && IsRatio(q, c, v)
    ensures r == q
  {
    hide Mul;
    DivUnique(Mul(c, c), v, Mul(r, r));
    DivUnique(Mul(c, c), v, Mul(q, q));
    MulDistributes(r, 0.0, -r);
    MulDistributes(r, 0.0, r);
    MulCommutes(r, -r);
    MulDistributes(q, 0.0, -q);
    MulDistributes(q, 0.0, q);
    MulCommutes(q, -q);
    SquareRootOrder(r, if q >= 0.0 then q else -q);
    SquareRootOrder(q, if r >= 0.0 then r else -r);
  }

  lemma QuotientIsRatio(c: real, v: real, root: real)
    requires root > 0.0 && Mul(root, root) == v
    ensures IsRatio(Div(c, root), c, v)
  {
    hide Mul, Div;
    var r := Div(c, root);
    DivMul(c, root);
    SquareOfProduct(r, root);
    MulSigns(r, root);
    MulSigns(-r, root);
    MulDistributes(r, 0.0, root);
  }

  lemma RatioScales(r: real, c: real, vx: real, vy: real, n: real)
    requires n > 0.0 && IsRatio(r, c, Mul(vx, vy))
    ensures IsRatio(r, Mul(n, c), Mul(Mul(n, vx), Mul(n, vy)))
  {
    hide Mul;
    ProductOfPairs(n, vx, n, vy);
    SquareOfProduct(n, c);
    var nn, rr, v := Mul(n, n), Mul(r, r), Mul(vx, vy);
    MulAssociates(rr, nn, v);
    MulAssociates(nn, rr, v);
    MulCommutes(rr, nn);
    MulSigns(n, c);
    MulSigns(n, -c);
    MulDistributes(c, 0.0, n);
    MulCommutes(n, c);
    MulCommutes(n, -c);
  }

  /**
   Pearson's coefficient, stated on plain sums: for two varying series r is the one number with the sign of
   n sum(x y) - sum(x) sum(y) whose square times both spreads is the square of that.
   */
  lemma CoefficientIsPearson(xs: seq<real>, ys: seq<real>, sqrt: real -> real)
    requires IsSqrt(sqrt) && |xs| == |ys| && xs != [] && !Flat(xs) && !Flat(ys)
    ensures Spread(xs, xs) > 0.0 && Spread(ys, ys) > 0.0
    ensures IsRatio(Coefficient(xs, ys, sqrt), Spread(xs, ys), Mul(Spread(xs, xs), Spread(ys, ys)))
  {
    hide Mul, Div, CoMoment, Flat, Spread, IsRatio;
    var m, n := MomentsOf(xs, ys), |xs| as real;
    CoefficientIsBounded(xs, ys, sqrt);
    ZeroVarianceIffFlat(xs);
    ZeroVarianceIffFlat(ys);
    MulSigns(m.varx, m.vary);
    RootIsPositive(sqrt, Mul(m.varx, m.vary));
    QuotientIsRatio(m.cov, Mul(m.varx, m.vary), sqrt(Mul(m.varx, m.vary)));
    RatioScales(Coefficient(xs, ys, sqrt), m.cov, m.varx, m.vary, n);
    MomentIsSpread(xs, ys);
    MomentIsSpread(xs, xs);
    MomentIsSpread(ys, ys);
    MulSigns(n, m.varx);
    MulSigns(n, m.vary);
  }

  /** `_pearson_with_reason`: the reason code is right, and a correlation lies in [-1, 1]. */
  method PearsonWithReason(xs: seq<Return>, ys: seq<Return>, sqrt: real -> real) returns (result: Pearson)
    requires IsSqrt(sqrt)
    ensures result == PearsonOf(xs, ys, sqrt)
    ensures result.LengthMismatch? <==> |xs| < 2 || |xs| != |ys|
    ensures result.NanGap? <==> |xs| == |ys| >= 2 && !(AllFinite(xs) && AllFinite(ys))
    ensures result.NanGap? ==>
              && (forall i :: i in result.indices <==> 0 <= i < |xs| && (xs[i].None? || ys[i].None?))
              && (forall i, j | 0 <= i < j < |result.indices| :: result.indices[i] < result.indices[j])
    ensures result.ZeroVariance? <==>
              && |xs| == |ys| >= 2 && AllFinite(xs) && AllFinite(ys)
              && (Flat(Values(xs)) || Flat(Values(ys)))
    ensures result.ZeroVariance? ==> (result.xsIsFlat <==> Flat(Values(xs)))
    ensures result.Correlation? ==>
              var u, v := Values(xs), Values(ys);
              -1.0 <= result.r <= 1.0 && IsRatio(result.r, Spread(u, v), Mul(Spread(u, u), Spread(v, v)))
  {
    var n := |xs|;
    if n < 2 || n != |ys| {
      return LengthMismatch;
    }
    var badIdx: seq<nat> := [];
    for i := 0 to n
      invariant badIdx == Gaps(xs[..i], ys[..i])
    {
      assert xs[..i + 1][..i] == xs[..i] && ys[..i + 1][..i] == ys[..i];
      if xs[i].None? || ys[i].None? {
        badIdx := badIdx + [i];
      }
    }
    assert xs[..n] == xs && ys[..n] == ys;
    if badIdx != [] {
      assert badIdx[0] in badIdx;
      return NanGap(badIdx);
    }
    assert forall i | 0 <= i < n :: i !in badIdx;
    result := Correlate(Values(xs), Values(ys), sqrt);
    if result.Correlation? {
      CoefficientIsPearson(Values(xs), Values(ys), sqrt);
    }
  }

  /** ys is k times xs plus c. */
  predicate IsAffineImage(ys: seq<real>, xs: seq<real>, k: real, c: real) {
    |ys| == |xs| && forall i | 0 <= i < |xs| :: ys[i] == Mul(k, xs[i]) + c
  }

  lemma TimesAffine(x: real, k: real, y: real, c: real)
    ensures Mul(x, Mul(k, y) + c) == Mul(k, Mul(x, y)) + Mul(c, x)
  {
  }

  lemma {:induction false} AffineSums(xs: seq<real>, ys: seq<real>, zs: seq<real>, k: real, c: real)
    requires |xs| == |ys| && IsAffineImage(zs, ys, k, c)
    ensures Sum(zs) == Mul(k, Sum(ys)) + Mul(c, |ys| as real)
    ensures Sum(Products(xs, zs)) == Mul(k, Sum(Products(xs, ys))) + Mul(c, Sum(xs))
  {
    hide Mul;
    if xs == [] {
      MulSigns(k, 0.0);
      MulSigns(c, 0.0);
    } else {
      var n := |xs| - 1;
      var fx, fy, fz := xs[..n], ys[..n], zs[..n];
      AffineSums(fx, fy, fz, k, c);
      assert Products(xs, ys)[..n] == Products(fx, fy) && Products(xs, zs)[..n] == Products(fx, fz);
      TimesAffine(xs[n], k, ys[n], c);
      TimesSum(k, Sum(fy), ys[n]);
      TimesSum(k, Sum(Products(fx, fy)), Mul(xs[n], ys[n]));
      TimesSum(c, Sum(fx), xs[n]);
      TimesSum(c, n as real, 1.0);
      MulSigns(c, 1.0);
    }
  }

  lemma SpreadOfAffine(n: real, p: real, sx: real, sy: real, k: real, c: real)
    ensures Mul(n, Mul(k, p) + Mul(c, sx)) - Mul(sx, Mul(k, sy) + Mul(c, n)) == Mul(k, Mul(n, p) - Mul(sx, sy))
  {
  }

  lemma AffineSpread(xs: seq<real>, ys: seq<real>, zs: seq<real>, k: real, c: real)
    requires |xs| == |ys| && IsAffineImage(zs, ys, k, c)
    ensures Spread(xs, zs) == Mul(k, Spread(xs, ys))
  {
    hide Mul, Products;
    AffineSums(xs, ys, zs, k, c);
    SpreadOfAffine(|xs| as real, Sum(Products(xs, ys)), Sum(xs), Sum(ys), k, c);
  }

  lemma SpreadCommutes(xs: seq<real>, ys: seq<real>)
    requires |xs| == |ys|
    ensures Spread(xs, ys) == Spread(ys, xs)
  {
    hide Mul;
    forall i | 0 <= i < |xs|
      ensures Products(xs, ys)[i] == Products(ys, xs)[i]
    {
      MulCommutes(xs[i], ys[i]);
    }
    assert Products(xs, ys) == Products(ys, xs);
    MulCommutes(Sum(xs), Sum(ys));
  }

  lemma AffineStaysVarying(xs: seq<real>, ys: seq<real>, k: real, c: real)
    requires IsAffineImage(ys, xs, k, c) && k != 0.0
    ensures Flat(ys) <==> Flat(xs)
  {
    forall i, j | 0 <= i < |xs| && 0 <= j < |xs|
      ensures ys[i] == ys[j] <==> xs[i] == xs[j]
    {
    }
  }

  lemma SignOfProduct(k: real, c: real)
    requires k != 0.0
    ensures k > 0.0 ==> (Mul(k, c) > 0.0 <==> c > 0.0) && (Mul(k, c) < 0.0 <==> c < 0.0)
    ensures k < 0.0 ==> (Mul(k, c) > 0.0 <==> c < 0.0) && (Mul(k, c) < 0.0 <==> c > 0.0)
  {
  }

  lemma RatioOfImage(r: real, c: real, vx: real, vy: real, k: real)
    requires k != 0.0 && IsRatio(r, c, Mul(vx, vy))
    ensures IsRatio(if k > 0.0 then r else -r, Mul(k, c), Mul(vx, Mul(k, Mul(k, vy))))
  {
    hide Mul;
    var kk, rr, v := Mul(k, k), Mul(r, r), Mul(vx, vy);
    MulAssociates(k, k, vy);
    MulAssociates(vx, kk, vy);
    MulAssociates(kk, vx, vy);
    MulCommutes(vx, kk);
    SquareOfProduct(k, c);
    MulAssociates(rr, kk, v);
    MulAssociates(kk, rr, v);
    MulCommutes(rr, kk);
    MulDistributes(r, 0.0, -r);
    MulDistributes(r, 0.0, r);
    MulCommutes(r, -r);
    SignOfProduct(k, c);
  }

  /** Re-scaling and shifting one series keeps the coefficient, turning its sign over when the scale is negative. */
  lemma AffineInvariance(xs: seq<real>, ys: seq<real>, zs: seq<real>, k: real, c: real, sqrt: real -> real)
    requires IsSqrt(sqrt) && |xs| == |ys| && xs != [] && !Flat(xs) && !Flat(ys)
    requires IsAffineImage(zs, ys, k, c) && k != 0.0
    ensures Coefficient(xs, zs, sqrt) == if k > 0.0 then Coefficient(xs, ys, sqrt) else -Coefficient(xs, ys, sqrt)
  {
    hide Mul, Flat, Spread, IsRatio, Coefficient;
    AffineStaysVarying(ys, zs, k, c);
    CoefficientIsPearson(xs, ys, sqrt);
    CoefficientIsPearson(xs, zs, sqrt);
    AffineSpread(xs, ys, zs, k, c);
    AffineSpread(zs, ys, zs, k, c);
    AffineSpread(ys, ys, zs, k, c);
    SpreadCommutes(zs, ys);
    RatioOfImage(Coefficient(xs, ys, sqrt), Spread(xs, ys), Spread(xs, xs), Spread(ys, ys), k);
    MulSigns(Spread(xs, xs), Spread(zs, zs));
    RatioIsUnique(if k > 0.0 then Coefficient(xs, ys, sqrt) else -Coefficient(xs, ys, sqrt),
                  Coefficient(xs, zs, sqrt), Spread(xs, zs), Mul(Spread(xs, xs), Spread(zs, zs)));
  }

  /** sum of (p dy - q dx)^2: how far ys is from the line of slope q / p through the two centres. */
  function Residue(xs: seq<real>, ys: seq<real>, mx: real, my: real, p: real, q: real): real
    requires |xs| == |ys|
  {
    if xs == [] then 0.0
    else
      var n := |xs| - 1;
      var off := Mul(p, ys[n] - my) - Mul(q, xs[n] - mx);
      Residue(xs[..n], ys[..n], mx, my, p, q) + Mul(off, off)
  }

  lemma {:induction false} ResidueExpands(xs: seq<real>, ys: seq<real>, mx: real, my: real, p: real, q: real)
    requires |xs| == |ys|
    ensures Residue(xs, ys, mx, my, p, q) ==
              Mul(Mul(p, p), CoMoment(ys, ys, my, my)) - 2.0 * Mul(Mul(p, q), CoMoment(xs, ys, mx, my))
              + Mul(Mul(q, q), CoMoment(xs, xs, mx, mx))
  {
    hide Mul;
    if xs == [] {
      MulSigns(Mul(p, p), 0.0);
      MulSigns(Mul(p, q), 0.0);
      MulSigns(Mul(q, q), 0.0);
    } else {
      var n := |xs| - 1;
      var fx, fy, dx, dy := xs[..n], ys[..n], xs[n] - mx, ys[n] - my;
      ResidueExpands(fx, fy, mx, my, p, q);
      SquareOfSum(Mul(p, dy), Mul(q, dx));
      SquareOfProduct(p, dy);
      SquareOfProduct(q, dx);
      ProductOfPairs(p, dy, q, dx);
      MulCommutes(dy, dx);
      TimesSum(Mul(p, p), CoMoment(fy, fy, my, my), Mul(dy, dy));
      TimesSum(Mul(q, q), CoMoment(fx, fx, mx, mx), Mul(dx, dx));
      TimesSum(Mul(p, q), CoMoment(fx, fy, mx, my), Mul(dx, dy));
    }
  }

  lemma {:induction false} NoResidueMeansOnTheLine(xs: seq<real>, ys: seq<real>, mx: real, my: real, p: real, q: real)
    requires |xs| == |ys|
    ensures Residue(xs, ys, mx, my, p, q) >= 0.0
    ensures Residue(xs, ys, mx, my, p, q) == 0.0 ==>
              forall i | 0 <= i < |xs| :: Mul(p, ys[i] - my) == Mul(q, xs[i] - mx)
  {
    hide Mul;
    if xs != [] {
      var n := |xs| - 1;
      var fx, fy := xs[..n], ys[..n];
      NoResidueMeansOnTheLine(fx, fy, mx, my, p, q);
      Square(Mul(p, ys[n] - my) - Mul(q, xs[n] - mx));
      if Residue(xs, ys, mx, my, p, q) == 0.0 {
        forall i | 0 <= i < |xs|
          ensures Mul(p, ys[i] - my) == Mul(q, xs[i] - mx)
        {
          if i < n {
            assert fx[i] == xs[i] && fy[i] == ys[i];
          }
        }
      }
    }
  }

  lemma FullSquareHasNoResidue(cov: real, varx: real, vary: real)
    requires Mul(cov, cov) == Mul(varx, vary)
    ensures Mul(Mul(varx, varx), vary) - 2.0 * Mul(Mul(varx, cov), cov) + Mul(Mul(cov, cov), varx) == 0.0
  {
    hide Mul;
    MulAssociates(varx, varx, vary);
    MulAssociates(varx, cov, cov);
    MulCommutes(Mul(cov, cov), varx);
  }

  lemma LineThroughCentres(p: real, q: real, x: real, y: real, mx: real, my: real)
    requires p > 0.0 && Mul(p, y - my) == Mul(q, x - mx)
    ensures y == Mul(Div(q, p), x) + (my - Mul(Div(q, p), mx))
  {
    var k := Div(q, p);
    assert k * p == q;
    assert p * (y - my) == p * (k * (x - mx));
  }

  lemma QuotientSign(q: real, p: real)
    requires p > 0.0
    ensures (Div(q, p) > 0.0 <==> q > 0.0) && (Div(q, p) < 0.0 <==> q < 0.0)
  {
  }

  /** A coefficient of 1 or -1 puts ys on a line over xs, with the slope's sign. */
  lemma FullCorrelationIsALine(xs: seq<real>, ys: seq<real>, sqrt: real -> real) returns (k: real, c: real)
    requires IsSqrt(sqrt) && |xs| == |ys| && xs != [] && !Flat(xs) && !Flat(ys)
    requires Coefficient(xs, ys, sqrt) == 1.0 || Coefficient(xs, ys, sqrt) == -1.0
    ensures IsAffineImage(ys, xs, k, c)
    ensures if Coefficient(xs, ys, sqrt) == 1.0 then k > 0.0 else k < 0.0
  {
    hide Mul, Div, CoMoment, Flat;
    var m, r := MomentsOf(xs, ys), Coefficient(xs, ys, sqrt);
    CoefficientIsBounded(xs, ys, sqrt);
    ZeroVarianceIffFlat(xs);
    ZeroVarianceIffFlat(ys);
    var v := Mul(m.varx, m.vary);
    MulSigns(m.varx, m.vary);
    RootIsPositive(sqrt, v);
    QuotientIsRatio(m.cov, v, sqrt(v));
    MulSigns(1.0, 1.0);
    MulDistributes(1.0, 0.0, -1.0);
    MulSigns(1.0, -1.0);
    MulSigns(1.0, v);
    assert Mul(m.cov, m.cov) == v;
    ResidueExpands(xs, ys, Mean(xs), Mean(ys), m.varx, m.cov);
    FullSquareHasNoResidue(m.cov, m.varx, m.vary);
    NoResidueMeansOnTheLine(xs, ys, Mean(xs), Mean(ys), m.varx, m.cov);
    k := Div(m.cov, m.varx);
    c := Mean(ys) - Mul(k, Mean(xs));
    QuotientSign(m.cov, m.varx);
    forall i | 0 <= i < |xs|
      ensures ys[i] == Mul(k, xs[i]) + c
    {
      LineThroughCentres(m.varx, m.cov, xs[i], ys[i], Mean(xs), Mean(ys));
    }
  }

  ghost predicate IsRisingImage(ys: seq<real>, xs: seq<real>) {
    exists k, c :: k > 0.0 && IsAffineImage(ys, xs, k, c)
  }

  ghost predicate IsFallingImage(ys: seq<real>, xs: seq<real>) {
    exists k, c :: k < 0.0 && IsAffineImage(ys, xs, k, c)
  }

  /** Two varying series score 1 exactly when one is a rising affine image of the other, -1 when a falling one. */
  lemma FullCorrelationIff(xs: seq<real>, ys: seq<real>, sqrt: real -> real)
    requires IsSqrt(sqrt) && |xs| == |ys| && xs != [] && !Flat(xs) && !Flat(ys)
    ensures Coefficient(xs, ys, sqrt) == 1.0 <==> IsRisingImage(ys, xs)
    ensures Coefficient(xs, ys, sqrt) == -1.0 <==> IsFallingImage(ys, xs)
  {
    hide Coefficient, Flat, IsAffineImage;
    SelfCorrelationIsOne(xs, sqrt);
    if Coefficient(xs, ys, sqrt) == 1.0 || Coefficient(xs, ys, sqrt) == -1.0 {
      var k, c := FullCorrelationIsALine(xs, ys, sqrt);
    }
    if IsRisingImage(ys, xs) {
      var k, c :| k > 0.0 && IsAffineImage(ys, xs, k, c);
      AffineInvariance(xs, xs, ys, k, c, sqrt);
    }
    if IsFallingImage(ys, xs) {
      var k, c :| k < 0.0 && IsAffineImage(ys, xs, k, c);
      AffineInvariance(xs, xs, ys, k, c, sqrt);
    }
  }

  /** Mirror-image returns score -1, not 1. */
  lemma MirrorImageScoresMinusOne(sqrt: real -> real)
    requires IsSqrt(sqrt)
    ensures PearsonOf([Some(1.0), Some(-1.0)], [Some(-1.0), Some(1.0)], sqrt) == Correlation(-1.0)
  {
    hide Coefficient, Sum;
    var xs, ys := [Some(1.0), Some(-1.0)], [Some(-1.0), Some(1.0)];
    assert Values(xs)[0] != Values(xs)[1] && Values(ys)[0] != Values(ys)[1];
    assert IsAffineImage(Values(ys), Values(xs), -1.0, 0.0);
    FullCorrelationIff(Values(xs), Values(ys), sqrt);
  }

  // -------------------------------------------------------------- alignment

  /** (date, close) pairs as a feed delivers them. */
  type Series = seq<(int, Close)>

  datatype Params = Params(correlationMin: real, minAligned: int, window: int, maxDivergence: real)

  /** The shipped defaults. */
  const DEFAULT_PARAMS := Params(0.99, 5, 5, 0.01)

  datatype Issue = Dropped(fromA: nat, fromB: nat) | TooFewDates(n: nat) | NotComparable(reason: Pearson)
                 | LowCorrelation(r: real) | DivergenceHigh(mean: real, end: Option<int>)

  /** A rolling window of 0 days divides by zero. */
  datatype Crash = ZeroDivisionError

  type Report = Result<seq<Issue>, Crash>

  /** `{d: c for d, c in bars}`: the last pair of a date wins. */
  function ByDate(bars: Series): map<int, Close> {
    if bars == [] then map[] else ByDate(bars[..|bars| - 1])[bars[|bars| - 1].0 := bars[|bars| - 1].1]
  }

  lemma {:induction false} DatesComeFromPairs(bars: Series)
    ensures forall d :: d in ByDate(bars) ==> exists j | 0 <= j < |bars| :: bars[j].0 == d
  {
    if bars != [] {
      DatesComeFromPairs(bars[..|bars| - 1]);
      assert forall j | 0 <= j < |bars| - 1 :: bars[..|bars| - 1][j] == bars[j];
    }
  }

  /** Of several pairs with one date the last one counts. */
  lemma {:induction false} ByDateMeans(bars: Series, i: nat)
    requires i < |bars| && forall j | i < j < |bars| :: bars[j].0 != bars[i].0
    ensures bars[i].0 in ByDate(bars) && ByDate(bars)[bars[i].0] == bars[i].1
    ensures forall d :: d in ByDate(bars) ==> exists j | 0 <= j < |bars| :: bars[j].0 == d
  {
    DatesComeFromPairs(bars);
    if i < |bars| - 1 {
      var front := bars[..|bars| - 1];
      assert forall j | 0 <= j < |front| :: front[j] == bars[j];
      ByDateMeans(front, i);
    }
  }

  /** The dates a feed has, each once. */
  function Dates(bars: Series): (out: seq<int>)
    ensures forall d :: d in out <==> d in ByDate(bars)
  {
    if bars == [] then []
    else
      var front, d := Dates(bars[..|bars| - 1]), bars[|bars| - 1].0;
      if d in front then front else front + [d]
  }

  function Shared(dates: seq<int>, b: Series): (out: seq<int>)
    ensures forall d :: d in out <==> d in dates && d in ByDate(b)
  {
    if dates == [] then []
    else
      var front, d := Shared(dates[..|dates| - 1], b), dates[|dates| - 1];
      assert forall x :: x in dates <==> x in dates[..|dates| - 1] || x == d;
      if d in ByDate(b) then front + [d] else front
  }

  function Itself(d: int): int {
    d
  }

  /** `sorted(set(by_a) & set(by_b))`. */
  function CommonDates(a: Series, b: Series): seq<int> {
    SortBy(Shared(Dates(a), b), Itself)
  }

  lemma {:induction false} DatesAreDistinct(bars: Series)
    ensures DistinctKeys(Dates(bars), Itself) && |ByDate(bars)| == |Dates(bars)|
  {
    if bars != [] {
      var front, d := bars[..|bars| - 1], bars[|bars| - 1].0;
      DatesAreDistinct(front);
      var dates := Dates(front);
      forall i | 0 <= i < |dates|
        ensures dates[i] in dates
      {
      }
      assert d in dates <==> d in ByDate(front);
    }
  }

  lemma {:induction false} SharedIsDistinct(dates: seq<int>, b: Series)
    requires DistinctKeys(dates, Itself)
    ensures DistinctKeys(Shared(dates, b), Itself)
  {
    hide ByDate;
    if dates != [] {
      var front, d := dates[..|dates| - 1], dates[|dates| - 1];
      SharedIsDistinct(front, b);
      var shared := Shared(front, b);
      forall i | 0 <= i < |shared|
        ensures shared[i] != d
      {
        assert shared[i] in front;
        var j :| 0 <= j < |front| && front[j] == shared[i];
        assert Itself(dates[j]) != Itself(dates[|dates| - 1]);
      }
    }
  }

  lemma {:induction false} SharedSize(dates: seq<int>, b: Series)
    ensures |Shared(dates, b)| <= |dates|
  {
    if dates != [] {
      SharedSize(dates[..|dates| - 1], b);
    }
  }

  lemma {:induction false} SharedByAll(dates: seq<int>, b: Series)
    requires forall i | 0 <= i < |dates| :: dates[i] in ByDate(b)
    ensures Shared(dates, b) == dates
  {
    if dates != [] {
      SharedByAll(dates[..|dates| - 1], b);
      assert dates == dates[..|dates| - 1] + [dates[|dates| - 1]];
    }
  }

  lemma SortedMembers(xs: seq<int>)
    ensures |SortBy(xs, Itself)| == |xs|
    ensures forall d :: d in SortBy(xs, Itself) <==> d in xs
    ensures DistinctKeys(xs, Itself) ==> Strict(SortBy(xs, Itself), Itself)
  {
    hide SortBy;
    var sorted := SortBy(xs, Itself);
    SortKeepsContents(xs, Itself);
    assert |multiset(sorted)| == |multiset(xs)|;
    forall d
      ensures d in sorted <==> d in xs
    {
      assert d in sorted <==> d in multiset(sorted);
      assert d in xs <==> d in multiset(xs);
    }
    if DistinctKeys(xs, Itself) {
      SortOfDistinctIsStrict(xs, Itself);
    }
  }

  /** Distinct dates that all occur in `ys` are no more than `ys` has. */
  lemma {:induction false} DistinctFitIn(xs: seq<int>, ys: seq<int>)
    requires DistinctKeys(xs, Itself) && forall i | 0 <= i < |xs| :: xs[i] in ys
    ensures |xs| <= |ys|
  {
    if xs != [] {
      var front, d := xs[..|xs| - 1], xs[|xs| - 1];
      var k :| 0 <= k < |ys| && ys[k] == d;
      var rest := ys[..k] + ys[k + 1..];
      forall i | 0 <= i < |front|
        ensures front[i] in rest
      {
        assert Itself(xs[i]) != Itself(xs[|xs| - 1]);
        var j :| 0 <= j < |ys| && ys[j] == front[i];
        assert rest[if j < k then j else j - 1] == front[i];
      }
      DistinctFitIn(front, rest);
    }
  }

  /** The aligned dates: every date both feeds have, once each, ascending. */
  lemma AlignmentIsTheSortedIntersection(a: Series, b: Series)
    ensures forall d :: d in CommonDates(a, b) <==> d in ByDate(a) && d in ByDate(b)
    ensures Strict(CommonDates(a, b), Itself)
    ensures |CommonDates(a, b)| <= |ByDate(a)| && |CommonDates(a, b)| <= |ByDate(b)|
  {
    hide SortBy, ByDate, Dates, Shared, Strict, DistinctKeys;
    var shared := Shared(Dates(a), b);
    DatesAreDistinct(a);
    DatesAreDistinct(b);
    SharedIsDistinct(Dates(a), b);
    SharedSize(Dates(a), b);
    SortedMembers(shared);
    assert forall i | 0 <= i < |shared| :: shared[i] in shared;
    DistinctFitIn(shared, Dates(b));
  }

  predicate Covers(bars: Series, dates: seq<int>) {
    forall i | 0 <= i < |dates| :: dates[i] in ByDate(bars)
  }

  function ClosesOn(dates: seq<int>, bars: Series): (out: seq<Close>)
    requires Covers(bars, dates)
    ensures |out| == |dates| && forall i | 0 <= i < |dates| :: out[i] == ByDate(bars)[dates[i]]
  {
    seq(|dates|, i requires 0 <= i < |dates| => ByDate(bars)[dates[i]])
  }

  lemma CommonDatesAreInBoth(a: Series, b: Series)
    ensures Covers(a, CommonDates(a, b)) && Covers(b, CommonDates(a, b))
    ensures |CommonDates(a, b)| <= |ByDate(a)| && |CommonDates(a, b)| <= |ByDate(b)|
  {
    hide CommonDates;
    AlignmentIsTheSortedIntersection(a, b);
    assert forall i | 0 <= i < |CommonDates(a, b)| :: CommonDates(a, b)[i] in CommonDates(a, b);
  }

  /** The issues raised for `n` aligned dates, given what was dropped and how the correlation came out. */
  function IssuesFor(droppedA: nat, droppedB: nat, n: nat, pearson: Pearson, p: Params): seq<Issue> {
    var dropped := if droppedA != 0 || droppedB != 0 then [Dropped(droppedA, droppedB)] else [];
    if n < p.minAligned then dropped + [TooFewDates(n)]
    else if !pearson.Correlation? then dropped + [NotComparable(pearson)]
    else if pearson.r < p.correlationMin then dropped + [LowCorrelation(pearson.r)]
    else dropped
  }

  function PearsonOn(dates: seq<int>, a: Series, b: Series, log: real -> real, sqrt: real -> real): Pearson
    requires Covers(a, dates) && Covers(b, dates)
  {
    PearsonOf(Returns(ClosesOn(dates, a), log), Returns(ClosesOn(dates, b), log), sqrt)
  }

  /** The correlation part is through without an early return. */
  predicate Proceeds(a: Series, b: Series, p: Params, log: real -> real, sqrt: real -> real) {
    CommonDatesAreInBoth(a, b);
    var dates := CommonDates(a, b);
    |dates| >= p.minAligned && PearsonOn(dates, a, b, log, sqrt).Correlation?
  }

  /** The correlation part of `check_cross_source`, as the list of issues it raises. */
  function CorrelationIssues(a: Series, b: Series, p: Params, log: real -> real, sqrt: real -> real): seq<Issue> {
    CommonDatesAreInBoth(a, b);
    var dates := CommonDates(a, b);
    IssuesFor(|ByDate(a)| - |dates|, |ByDate(b)| - |dates|, |dates|, PearsonOn(dates, a, b, log, sqrt), p)
  }

  /** When each issue of the correlation part is raised, read off the two feeds. */
  lemma CorrelationIssuesMean(a: Series, b: Series, p: Params, log: real -> real, sqrt: real -> real)
    ensures Covers(a, CommonDates(a, b)) && Covers(b, CommonDates(a, b))
    ensures var issues, dates := CorrelationIssues(a, b, p, log, sqrt), CommonDates(a, b);
            var pearson := PearsonOf(Returns(ClosesOn(dates, a), log), Returns(ClosesOn(dates, b), log), sqrt);
            && (forall x: nat, y: nat :: Dropped(x, y) in issues <==>
                 x == |ByDate(a)| - |dates| && y == |ByDate(b)| - |dates| && (x > 0 || y > 0))
            && (forall n: nat :: TooFewDates(n) in issues <==> n == |dates| && n < p.minAligned)
            && (forall reason :: NotComparable(reason) in issues <==>
                 reason == pearson && !reason.Correlation? && |dates| >= p.minAligned)
            && (forall r :: LowCorrelation(r) in issues <==>
                 pearson == Correlation(r) && r < p.correlationMin && |dates| >= p.minAligned)
            && (Proceeds(a, b, p, log, sqrt) <==> |dates| >= p.minAligned && pearson.Correlation?)
  {
    hide PearsonOf, Returns, ByDate, CommonDates;
    CommonDatesAreInBoth(a, b);
  }

  /** The correlation part; `proceeds` is false where the gate returns early. */
  method CheckCorrelation(a: Series, b: Series, p: Params, log: real -> real, sqrt: real -> real)
    returns (issues: seq<Issue>, proceeds: bool)
    requires IsSqrt(sqrt)
    ensures issues == CorrelationIssues(a, b, p, log, sqrt)
    ensures proceeds <==> Proceeds(a, b, p, log, sqrt)
  {
    hide PearsonOf, Returns, ByDate, IsRatio, Spread, Flat, Values, AllFinite, CommonDates;
    CommonDatesAreInBoth(a, b);
    var dates := CommonDates(a, b);
    var closesA, closesB := ClosesOn(dates, a), ClosesOn(dates, b);
    var droppedA, droppedB := |ByDate(a)| - |dates|, |ByDate(b)| - |dates|;
    issues := [];
    if droppedA != 0 || droppedB != 0 {
      issues := issues + [Dropped(droppedA, droppedB)];
    }
    if |dates| < p.minAligned {
      return issues + [TooFewDates(|dates|)], false;
    }
    var retsA := LogReturns(closesA, log);
    var retsB := LogReturns(closesB, log);
    var corr := PearsonWithReason(retsA, retsB, sqrt);
    if !corr.Correlation? {
      return issues + [NotComparable(corr)], false;
    }
    if corr.r < p.correlationMin {
      issues := issues + [LowCorrelation(corr.r)];
    }
    proceeds := true;
  }

  // ------------------------------------------------------- rolling divergence

  /** Python's `xs[lo:hi]` for a non-negative `lo`; a negative `hi` counts from the end. */
  function Slice(xs: seq<Close>, lo: nat, hi: int): seq<Close> {
    var end := if hi < 0 then IntMax(0, |xs| + hi) else IntMin(hi, |xs|);
    if lo >= end then [] else xs[lo..end]
  }

  predicate AllValid(xs: seq<Close>) {
    forall i | 0 <= i < |xs| :: Valid(xs[i])
  }

  /** `sum(abs(log(a) - log(b)) for a, b in zip(as, bs))`. */
  function DivergenceSum(xs: seq<Close>, ys: seq<Close>, log: real -> real): (sum: real)
    requires |xs| == |ys| && AllValid(xs) && AllValid(ys)
    ensures sum >= 0.0
  {
    if xs == [] then 0.0
    else
      var k := |xs| - 1;
      DivergenceSum(xs[..k], ys[..k], log) + Abs(log(xs[k].value) - log(ys[k].value))
  }

  /** The largest mean so far, and the date its window ends on. */
  datatype Peak = Peak(mean: real, end: Option<int>)

  function DateAt(dates: seq<int>, k: int): Option<int> {
    if 0 <= k < |dates| then Some(dates[k]) else None
  }

  method WindowSum(xs: seq<Close>, ys: seq<Close>, log: real -> real) returns (sum: real)
    requires |xs| == |ys| && AllValid(xs) && AllValid(ys)
    ensures sum == DivergenceSum(xs, ys, log)
  {
    sum := 0.0;
    for i := 0 to |xs|
      invariant sum == DivergenceSum(xs[..i], ys[..i], log)
    {
      assert xs[..i + 1][..i] == xs[..i] && ys[..i + 1][..i] == ys[..i];
      sum := sum + Abs(log(xs[i].value) - log(ys[i].value));
    }
    assert xs[..|xs|] == xs && ys[..|ys|] == ys;
  }

  lemma SlicesMatch(xs: seq<Close>, ys: seq<Close>, lo: nat, hi: int)
    requires |xs| == |ys|
    ensures |Slice(xs, lo, hi)| == |Slice(ys, lo, hi)|
  {
  }

  /** The mean divergence of the window at `i`; nothing if a close in it is bad. */
  function MeanAt(xs: seq<Close>, ys: seq<Close>, i: nat, win: int, log: real -> real): Option<real>
    requires |xs| == |ys| && win != 0
  {
    SlicesMatch(xs, ys, i, i + win);
    var wx, wy := Slice(xs, i, i + win), Slice(ys, i, i + win);
    if AllValid(wx) && AllValid(wy) then Some(Div(DivergenceSum(wx, wy, log), win as real)) else None
  }

  /** The running maximum over the first `count` windows, starting from 0; the first of equal ones stays. */
  function PeakOf(dates: seq<int>, xs: seq<Close>, ys: seq<Close>, win: int, log: real -> real, count: nat): Peak
    requires |xs| == |ys| && win != 0
  {
    if count == 0 then Peak(0.0, None)
    else
      var before, mean := PeakOf(dates, xs, ys, win, log, count - 1), MeanAt(xs, ys, count - 1, win, log);
      if mean.Some? && mean.value > before.mean then Peak(mean.value, DateAt(dates, count - 1 + win - 1)) else before
  }

  /** The peak is the maximum of 0 and the window means. */
  lemma {:induction false} PeakIsTheMaximum(dates: seq<int>, xs: seq<Close>, ys: seq<Close>, win: int,
                                            log: real -> real, count: nat)
    requires |xs| == |ys| && win != 0
    ensures var peak := PeakOf(dates, xs, ys, win, log, count);
            && peak.mean >= 0.0
            && (forall i | 0 <= i < count && MeanAt(xs, ys, i, win, log).Some? ::
              MeanAt(xs, ys, i, win, log).value <= peak.mean)
            && (peak.mean == 0.0 || exists i | 0 <= i < count :: MeanAt(xs, ys, i, win, log) == Some(peak.mean))
    decreases count
  {
    hide MeanAt;
    if count > 0 {
      PeakIsTheMaximum(dates, xs, ys, win, log, count - 1);
    }
  }

  /** What the rolling loop adds. */
  function RollingIssues(dates: seq<int>, xs: seq<Close>, ys: seq<Close>, p: Params, log: real -> real): Report
    requires |xs| == |ys|
  {
    if |xs| < p.window then Ok([])
    else if p.window == 0 then Err(ZeroDivisionError)
    else
      var peak := PeakOf(dates, xs, ys, p.window, log, |xs| - p.window + 1);
      if peak.mean > p.maxDivergence then Ok([DivergenceHigh(peak.mean, peak.end)]) else Ok([])
  }

  /** The distances |log x - log y| of the closes from `i` to `i + win`. */
  function LogGaps(xs: seq<Close>, ys: seq<Close>, log: real -> real): (out: seq<real>)
    requires |xs| == |ys| && AllValid(xs) && AllValid(ys)
    ensures |out| == |xs|
    ensures forall j | 0 <= j < |out| :: out[j] == Abs(log(xs[j].value) - log(ys[j].value))
  {
    seq(|xs|, j requires 0 <= j < |xs| == |ys| && AllValid(xs) && AllValid(ys) =>
      Abs(log(xs[j].value) - log(ys[j].value)))
  }

  lemma {:induction false} DivergenceIsASum(xs: seq<Close>, ys: seq<Close>, log: real -> real)
    requires |xs| == |ys| && AllValid(xs) && AllValid(ys)
    ensures DivergenceSum(xs, ys, log) == Sum(LogGaps(xs, ys, log))
  {
    if xs != [] {
      var k := |xs| - 1;
      DivergenceIsASum(xs[..k], ys[..k], log);
      assert LogGaps(xs, ys, log)[..k] == LogGaps(xs[..k], ys[..k], log);
    }
  }

  /** Over a full window the mean is the average distance of the two logs; a bad close in either leaves none. */
  lemma MeanIsTheAverage(xs: seq<Close>, ys: seq<Close>, i: nat, win: int, log: real -> real)
    requires |xs| == |ys| && 0 < win && i + win <= |xs|
    ensures var wx, wy, mean := xs[i..i + win], ys[i..i + win], MeanAt(xs, ys, i, win, log);
            && (mean.Some? <==> AllValid(wx) && AllValid(wy))
            && (mean.Some? ==> Mul(mean.value, win as real) == Sum(LogGaps(wx, wy, log)))
  {
    hide Mul, Div;
    var wx, wy := xs[i..i + win], ys[i..i + win];
    assert Slice(xs, i, i + win) == wx && Slice(ys, i, i + win) == wy;
    if AllValid(wx) && AllValid(wy) {
      DivergenceIsASum(wx, wy, log);
      DivMul(DivergenceSum(wx, wy, log), win as real);
    }
  }

  /** A window whose mean is above the threshold. */
  predicate Diverges(xs: seq<Close>, ys: seq<Close>, i: nat, win: int, limit: real, log: real -> real)
    requires |xs| == |ys| && win != 0
  {
    var mean := MeanAt(xs, ys, i, win, log);
    mean.Some? && mean.value > limit
  }

  /** A divergence is raised exactly when some window is above a threshold of at least 0. */
  lemma RollingRaisesIff(dates: seq<int>, xs: seq<Close>, ys: seq<Close>, p: Params, log: real -> real)
    requires |xs| == |ys| && 0 < p.window && 0.0 <= p.maxDivergence
    ensures RollingIssues(dates, xs, ys, p, log).Ok?
    ensures RollingIssues(dates, xs, ys, p, log) != Ok([]) <==>
              exists i | 0 <= i <= |xs| - p.window :: Diverges(xs, ys, i, p.window, p.maxDivergence, log)
  {
    hide MeanAt;
    if |xs| >= p.window {
      var count := |xs| - p.window + 1;
      PeakIsTheMaximum(dates, xs, ys, p.window, log, count);
      var peak := PeakOf(dates, xs, ys, p.window, log, count);
      if peak.mean > p.maxDivergence {
        var i :| 0 <= i < count && MeanAt(xs, ys, i, p.window, log) == Some(peak.mean);
        assert Diverges(xs, ys, i, p.window, p.maxDivergence, log);
      }
    }
  }

  /** One window of the loop; nothing if it is skipped. */
  method WindowMean(xs: seq<Close>, ys: seq<Close>, i: nat, win: int, log: real -> real) returns (mean: Option<real>)
    requires |xs| == |ys| && win != 0
    ensures mean == MeanAt(xs, ys, i, win, log)
  {
    hide Div;
    SlicesMatch(xs, ys, i, i + win);
    var windowA, windowB := Slice(xs, i, i + win), Slice(ys, i, i + win);
    if !AllValid(windowA) || !AllValid(windowB) {
      return None;
    }
    var sum := WindowSum(windowA, windowB, log);
    return Some(Div(sum, win as real));
  }

  method RollingDivergence(dates: seq<int>, xs: seq<Close>, ys: seq<Close>, p: Params, log: real -> real)
    returns (report: Report)
    requires |xs| == |ys|
    ensures report == RollingIssues(dates, xs, ys, p, log)
  {
    hide MeanAt, DateAt;
    var win := p.window;
    if |xs| < win {
      return Ok([]);
    }
    if win == 0 {
      return Err(ZeroDivisionError);
    }
    var maxMeanDiv, maxWindowEnd := 0.0, None;
    for i := 0 to |xs| - win + 1
      invariant Peak(maxMeanDiv, maxWindowEnd) == PeakOf(dates, xs, ys, win, log, i)
    {
      var meanDiv := WindowMean(xs, ys, i, win, log);
      if meanDiv.Some? && meanDiv.value > maxMeanDiv {
        maxMeanDiv, maxWindowEnd := meanDiv.value, DateAt(dates, i + win - 1);
      }
    }
    report := Ok(if maxMeanDiv > p.maxDivergence then [DivergenceHigh(maxMeanDiv, maxWindowEnd)] else []);
  }

  /** `check_cross_source`: the correlation part, and if that does not return early the rolling divergence. */
  function GateReport(a: Series, b: Series, p: Params, log: real -> real, sqrt: real -> real): Report {
    CommonDatesAreInBoth(a, b);
    var dates, issues := CommonDates(a, b), CorrelationIssues(a, b, p, log, sqrt);
    if !Proceeds(a, b, p, log, sqrt) then Ok(issues)
    else
      match RollingIssues(dates, ClosesOn(dates, a), ClosesOn(dates, b), p, log)
      case Err(e) => Err(e)
      case Ok(more) => Ok(issues + more)
  }

  method CheckCrossSource(a: Series, b: Series, p: Params, log: real -> real, sqrt: real -> real)
    returns (report: Report)
    requires IsSqrt(sqrt)
    ensures report == GateReport(a, b, p, log, sqrt)
  {
    hide CorrelationIssues, Proceeds, RollingIssues, CommonDates;
    var issues, proceeds := CheckCorrelation(a, b, p, log, sqrt);
    if !proceeds {
      return Ok(issues);
    }
    CommonDatesAreInBoth(a, b);
    var dates := CommonDates(a, b);
    var rolling := RollingDivergence(dates, ClosesOn(dates, a), ClosesOn(dates, b), p, log);
    if rolling.Err? {
      return rolling;
    }
    return Ok(issues + rolling.value);
  }

  function ScaledSeries(a: Series, k: real): (out: Series)
    ensures |out| == |a| && forall i | 0 <= i < |a| :: out[i] == (a[i].0, ScaledClose(a[i].1, k))
  {
    seq(|a|, i requires 0 <= i < |a| => (a[i].0, ScaledClose(a[i].1, k)))
  }

  lemma {:induction false} ByDateScales(a: Series, k: real)
    ensures ByDate(ScaledSeries(a, k)).Keys == ByDate(a).Keys
    ensures forall d | d in ByDate(a) :: ByDate(ScaledSeries(a, k))[d] == ScaledClose(ByDate(a)[d], k)
    ensures |ByDate(ScaledSeries(a, k))| == |ByDate(a)|
  {
    if a != [] {
      assert ScaledSeries(a, k)[..|a| - 1] == ScaledSeries(a[..|a| - 1], k);
      ByDateScales(a[..|a| - 1], k);
    }
  }

  /** A return series has a gap exactly when some close is bad. */
  lemma GapIffBadClose(closes: seq<Close>, log: real -> real)
    requires |closes| >= 2
    ensures AllFinite(Returns(closes, log)) <==> forall i | 0 <= i < |closes| :: Valid(closes[i])
  {
    hide Div;
    var out := Returns(closes, log);
    if AllFinite(out) {
      assert out[0] == ReturnAt(closes, 1, log) && out[0].Some?;
      forall i | 0 <= i < |closes|
        ensures Valid(closes[i])
      {
        if i > 0 {
          assert out[i - 1] == ReturnAt(closes, i, log) && out[i - 1].Some?;
        } else {
          assert LastValid(closes[..1]).Some?;
        }
      }
    }
    if forall i | 0 <= i < |closes| :: Valid(closes[i]) {
      forall i | 0 <= i < |out|
        ensures out[i].Some?
      {
        assert Valid(closes[..i + 1][0]);
      }
    }
  }

  lemma AlignedDatesOfMultiple(a: Series, k: real)
    ensures var b, dates := ScaledSeries(a, k), CommonDates(a, a);
            && CommonDates(a, b) == dates && |ByDate(a)| == |ByDate(b)| == |dates|
            && Covers(a, dates) && Covers(b, dates)
            && (forall d | d in ByDate(a) :: d in dates)
  {
    hide ScaledClose, SortBy;
    var b := ScaledSeries(a, k);
    ByDateScales(a, k);
    hide DistinctKeys;
    DatesAreDistinct(a);
    assert forall i | 0 <= i < |Dates(a)| :: Dates(a)[i] in Dates(a);
    SharedByAll(Dates(a), a);
    SharedByAll(Dates(a), b);
    SortedMembers(Dates(a));
    CommonDatesAreInBoth(a, b);
  }

  lemma ClosesOfMultiple(a: Series, k: real, dates: seq<int>)
    requires Covers(a, dates)
    ensures Covers(ScaledSeries(a, k), dates)
    ensures ClosesOn(dates, ScaledSeries(a, k)) == ScaledCloses(ClosesOn(dates, a), k)
  {
    hide ScaledClose;
    var b := ScaledSeries(a, k);
    ByDateScales(a, k);
    forall i | 0 <= i < |dates|
      ensures dates[i] in ByDate(b) && ByDate(b)[dates[i]] == ScaledClose(ByDate(a)[dates[i]], k)
    {
      var d := dates[i];
      assert d in ByDate(a);
    }
  }

  /** Aligning a source with a positive multiple of itself drops nothing and compares equal returns. */
  lemma AlignedWithMultiple(a: Series, k: real, log: real -> real)
    requires k > 0.0
    ensures var b, dates := ScaledSeries(a, k), CommonDates(a, a);
            && CommonDates(a, b) == dates && |ByDate(a)| == |ByDate(b)| == |dates|
            && Covers(a, dates) && Covers(b, dates)
            && (forall d | d in ByDate(a) :: d in dates)
            && Returns(ClosesOn(dates, b), log) == Returns(ClosesOn(dates, a), log)
  {
    AlignedDatesOfMultiple(a, k);
    hide Returns, CommonDates;
    var dates := CommonDates(a, a);
    ClosesOfMultiple(a, k, dates);
    ScalingChangesNoReturn(ClosesOn(dates, a), k, log);
  }

  predicate EveryCloseValid(a: Series) {
    forall d | d in ByDate(a) :: Valid(ByDate(a)[d])
  }

  lemma EveryCloseValidOnDates(a: Series, dates: seq<int>)
    requires Covers(a, dates) && forall d | d in ByDate(a) :: d in dates
    ensures EveryCloseValid(a) <==> forall i | 0 <= i < |dates| :: Valid(ClosesOn(dates, a)[i])
  {
    var closes := ClosesOn(dates, a);
    if EveryCloseValid(a) {
      forall i | 0 <= i < |dates|
        ensures Valid(closes[i])
      {
        var d := dates[i];
        assert d in ByDate(a);
        assert closes[i] == ByDate(a)[d];
      }
    }
    if forall i | 0 <= i < |dates| :: Valid(closes[i]) {
      forall d | d in ByDate(a)
        ensures Valid(ByDate(a)[d])
      {
        var i :| 0 <= i < |dates| && dates[i] == d;
        assert closes[i] == ByDate(a)[d];
      }
    }
  }

  /** The finite returns of the aligned series are all the same number. */
  predicate NeverVaries(rs: seq<Return>) {
    AllFinite(rs) && Flat(Values(rs))
  }

  lemma ReturnsLength(closes: seq<Close>, log: real -> real)
    ensures |Returns(closes, log)| == if closes == [] then 0 else |closes| - 1
  {
  }

  lemma PearsonWithItself(rs: seq<Return>, sqrt: real -> real)
    requires IsSqrt(sqrt)
    ensures PearsonOf(rs, rs, sqrt).Correlation? <==> |rs| >= 2 && AllFinite(rs) && !NeverVaries(rs)
    ensures PearsonOf(rs, rs, sqrt).Correlation? ==> PearsonOf(rs, rs, sqrt).r == 1.0
  {
    if |rs| >= 2 && AllFinite(rs) && !Flat(Values(rs)) {
      SelfCorrelationIsOne(Values(rs), sqrt);
    }
  }

  /** The correlation part raises nothing on a source and a positive multiple of itself. */
  predicate CorrelatesWithItself(a: Series, p: Params, log: real -> real) {
    CommonDatesAreInBoth(a, a);
    var dates := CommonDates(a, a);
    && p.correlationMin <= 1.0 && |dates| >= p.minAligned && |dates| >= 3 && EveryCloseValid(a)
    && !NeverVaries(Returns(ClosesOn(dates, a), log))
  }

  /**
   On a source and a positive multiple of itself the correlation part raises nothing exactly when the threshold can be
   met, there are enough dates, every close is usable and the returns vary; the correlation is then exactly 1.
   */
  lemma MultipleOfItselfCorrelates(a: Series, k: real, p: Params, log: real -> real, sqrt: real -> real)
    requires k > 0.0 && IsSqrt(sqrt)
    ensures CorrelationIssues(a, ScaledSeries(a, k), p, log, sqrt) == [] <==> CorrelatesWithItself(a, p, log)
    ensures CorrelatesWithItself(a, p, log) ==> Proceeds(a, ScaledSeries(a, k), p, log, sqrt)
  {
    hide PearsonOf, Returns, Valid, Flat, Values, ByDate, EveryCloseValid, CommonDates;
    var dates := CommonDates(a, a);
    AlignedWithMultiple(a, k, log);
    var closes := ClosesOn(dates, a);
    PearsonWithItself(Returns(closes, log), sqrt);
    EveryCloseValidOnDates(a, dates);
    ReturnsLength(closes, log);
    if |closes| >= 2 {
      GapIffBadClose(closes, log);
    }
  }

  lemma LogOfMultiple(x: real, k: real, log: real -> real)
    requires IsLog(log) && x > 0.0 && k > 0.0
    ensures Abs(log(x) - log(Mul(x, k))) == Abs(log(k))
  {
  }

  lemma {:induction false} DivergenceOfMultiple(xs: seq<Close>, k: real, log: real -> real)
    requires IsLog(log) && k > 0.0 && AllValid(xs)
    ensures AllValid(ScaledCloses(xs, k))
    ensures DivergenceSum(xs, ScaledCloses(xs, k), log) == Mul(|xs| as real, Abs(log(k)))
  {
    hide Mul, IsLog;
    var ys := ScaledCloses(xs, k);
    forall i | 0 <= i < |xs|
      ensures Valid(ys[i]) && ys[i] == Finite(Mul(xs[i].value, k))
    {
      ScalingKeepsValidity(xs[i], k);
    }
    MulSigns(0.0, Abs(log(k)));
    if xs != [] {
      var n := |xs| - 1;
      DivergenceOfMultiple(xs[..n], k, log);
      assert ys[..n] == ScaledCloses(xs[..n], k);
      LogOfMultiple(xs[n].value, k, log);
      MulDistributes(n as real, -1.0, Abs(log(k)));
      MulSigns(1.0, Abs(log(k)));
      MulDistributes(1.0, 0.0, Abs(log(k)));
      assert (n as real) - (-1.0) == |xs| as real;
    }
  }

  lemma SliceOfScaled(xs: seq<Close>, k: real, lo: nat, hi: int)
    ensures Slice(ScaledCloses(xs, k), lo, hi) == ScaledCloses(Slice(xs, lo, hi), k)
  {
  }

  /** Every full window over a source and its multiple has the same mean. */
  lemma MeanOfMultiple(xs: seq<Close>, k: real, i: nat, win: int, log: real -> real)
    requires IsLog(log) && k > 0.0 && AllValid(xs) && 0 < win && i + win <= |xs|
    ensures MeanAt(xs, ScaledCloses(xs, k), i, win, log) == Some(Abs(log(k)))
  {
    hide Mul, Div, IsLog;
    var wx := Slice(xs, i, i + win);
    assert |wx| == win && AllValid(wx);
    SliceOfScaled(xs, k, i, i + win);
    DivergenceOfMultiple(wx, k, log);
    MulCommutes(win as real, Abs(log(k)));
    DivUnique(Mul(win as real, Abs(log(k))), win as real, Abs(log(k)));
  }

  lemma {:induction false} PeakOfMultiple(dates: seq<int>, xs: seq<Close>, k: real, win: int, log: real -> real,
                                          count: nat)
    requires IsLog(log) && k > 0.0 && AllValid(xs) && |dates| == |xs| && 0 < win && 0 < count && count - 1 + win <= |xs|
    ensures PeakOf(dates, xs, ScaledCloses(xs, k), win, log, count)
         == Peak(Abs(log(k)), if log(k) == 0.0 then None else Some(dates[win - 1]))
    decreases count
  {
    hide MeanAt, IsLog;
    MeanOfMultiple(xs, k, count - 1, win, log);
    if count > 1 {
      PeakOfMultiple(dates, xs, k, win, log, count - 1);
    } else {
      assert PeakOf(dates, xs, ScaledCloses(xs, k), win, log, 0) == Peak(0.0, None);
    }
  }

  lemma NegativeMean(sum: real, win: real)
    requires sum >= 0.0 && win < 0.0
    ensures Div(sum, win) <= 0.0
  {
  }

  /** A negative window is never above 0. */
  lemma {:induction false} PeakOfNegativeWindow(dates: seq<int>, xs: seq<Close>, ys: seq<Close>, win: int,
                                                log: real -> real, count: nat)
    requires |xs| == |ys| && win < 0
    ensures PeakOf(dates, xs, ys, win, log, count) == Peak(0.0, None)
  {
    if count > 0 {
      PeakOfNegativeWindow(dates, xs, ys, win, log, count - 1);
      SlicesMatch(xs, ys, count - 1, count - 1 + win);
      var wx, wy := Slice(xs, count - 1, count - 1 + win), Slice(ys, count - 1, count - 1 + win);
      if AllValid(wx) && AllValid(wy) {
        NegativeMean(DivergenceSum(wx, wy, log), win as real);
      }
    }
  }

  /** What the rolling part makes of a source with only valid closes and its multiple. */
  lemma RollingOfMultiple(dates: seq<int>, xs: seq<Close>, k: real, p: Params, log: real -> real)
    requires IsLog(log) && k > 0.0 && AllValid(xs) && |dates| == |xs|
    ensures RollingIssues(dates, xs, ScaledCloses(xs, k), p, log) ==
              if |xs| < p.window then Ok([])
              else if p.window == 0 then Err(ZeroDivisionError)
              else
                var peak := if p.window < 0 || log(k) == 0.0 then Peak(0.0, None)
                            else Peak(Abs(log(k)), Some(dates[p.window - 1]));
                Ok(if peak.mean > p.maxDivergence then [DivergenceHigh(peak.mean, peak.end)] else [])
  {
    hide PeakOf, IsLog;
    if p.window < 0 {
      PeakOfNegativeWindow(dates, xs, ScaledCloses(xs, k), p.window, log, |xs| - p.window + 1);
    } else if 0 < p.window <= |xs| {
      PeakOfMultiple(dates, xs, k, p.window, log, |xs| - p.window + 1);
    }
  }

  lemma EmptyReportIff(a: Series, b: Series, p: Params, log: real -> real, sqrt: real -> real)
    ensures Covers(a, CommonDates(a, b)) && Covers(b, CommonDates(a, b))
    ensures var dates := CommonDates(a, b);
            GateReport(a, b, p, log, sqrt) == Ok([]) <==>
              && CorrelationIssues(a, b, p, log, sqrt) == []
              && (Proceeds(a, b, p, log, sqrt) ==>
                    RollingIssues(dates, ClosesOn(dates, a), ClosesOn(dates, b), p, log) == Ok([]))
  {
    hide CorrelationIssues, Proceeds, RollingIssues, CommonDates, ByDate, Covers;
    CommonDatesAreInBoth(a, b);
    var dates, issues := CommonDates(a, b), CorrelationIssues(a, b, p, log, sqrt);
    var rolling := RollingIssues(dates, ClosesOn(dates, a), ClosesOn(dates, b), p, log);
    assert rolling.Ok? ==> (issues + rolling.value == [] <==> issues == [] && rolling.value == []);
    assert Proceeds(a, b, p, log, sqrt) && rolling.Ok? ==>
        GateReport(a, b, p, log, sqrt).Ok? && GateReport(a, b, p, log, sqrt).value == issues + rolling.value;
    assert Proceeds(a, b, p, log, sqrt) && rolling.Err? ==> GateReport(a, b, p, log, sqrt).Err?;
  }

  /** Once the correlation is through, every aligned close is valid: the rolling loop never skips a window. */
  lemma NoWindowIsSkipped(a: Series, b: Series, p: Params, log: real -> real, sqrt: real -> real)
    requires Proceeds(a, b, p, log, sqrt)
    ensures var dates := CommonDates(a, b);
            && Covers(a, dates) && Covers(b, dates)
            && AllValid(ClosesOn(dates, a)) && AllValid(ClosesOn(dates, b))
  {
    hide CommonDates, ByDate, Coefficient, Flat, Valid, Returns;
    CommonDatesAreInBoth(a, b);
    var dates := CommonDates(a, b);
    var closesA, closesB := ClosesOn(dates, a), ClosesOn(dates, b);
    ReturnsLength(closesA, log);
    GapIffBadClose(closesA, log);
    GapIffBadClose(closesB, log);
  }

  /**
   The gate says that a constant factor between sources cancels out. It does in the correlation, but the rolling
   divergence sees it: the whole gate raises nothing on a source and its multiple exactly when the correlation part
   does not and there are fewer dates than the window, or |log k| is within the divergence threshold.
   */
  lemma MultipleOfItselfPassesIff(a: Series, k: real, p: Params, log: real -> real, sqrt: real -> real)
    requires k > 0.0 && IsSqrt(sqrt) && IsLog(log)
    ensures GateReport(a, ScaledSeries(a, k), p, log, sqrt) == Ok([]) <==>
              && CorrelatesWithItself(a, p, log)
              && (|CommonDates(a, a)| < p.window ||
                  (p.window != 0 && (if p.window < 0 then 0.0 else Abs(log(k))) <= p.maxDivergence))
  {
    hide Returns, Valid, ByDate, EveryCloseValid, CommonDates, RollingIssues, IsLog, CorrelationIssues, Proceeds,
      NeverVaries;
    var b, dates := ScaledSeries(a, k), CommonDates(a, a);
    MultipleOfItselfCorrelates(a, k, p, log, sqrt);
    AlignedWithMultiple(a, k, log);
    EmptyReportIff(a, b, p, log, sqrt);
    var closes := ClosesOn(dates, a);
    if CorrelatesWithItself(a, p, log) {
      EveryCloseValidOnDates(a, dates);
      ClosesOfMultiple(a, k, dates);
      RollingOfMultiple(dates, closes, k, p, log);
    }
  }

  /** With the shipped parameters a feed that differs by a factor of 2 is reported, however well it correlates. */
  lemma DoubledFeedIsReported(a: Series, log: real -> real, sqrt: real -> real)
    requires IsSqrt(sqrt) && IsLog(log) && log(2.0) > 0.01
    requires CorrelatesWithItself(a, DEFAULT_PARAMS, log)
    ensures |CommonDates(a, a)| >= 5
    ensures GateReport(a, ScaledSeries(a, 2.0), DEFAULT_PARAMS, log, sqrt)
         == Ok([DivergenceHigh(log(2.0), Some(CommonDates(a, a)[4]))])
  {
    hide Returns, Valid, ByDate, EveryCloseValid, CommonDates, RollingIssues, IsLog, CorrelationIssues, Proceeds,
      NeverVaries;
    var b, dates := ScaledSeries(a, 2.0), CommonDates(a, a);
    MultipleOfItselfCorrelates(a, 2.0, DEFAULT_PARAMS, log, sqrt);
    AlignedWithMultiple(a, 2.0, log);
    var closes := ClosesOn(dates, a);
    EveryCloseValidOnDates(a, dates);
    ClosesOfMultiple(a, 2.0, dates);
    RollingOfMultiple(dates, closes, 2.0, DEFAULT_PARAMS, log);
    assert Abs(log(2.0)) == log(2.0);
    var raised := [DivergenceHigh(log(2.0), Some(dates[4]))];
    assert [] + raised == raised;
  }

  predicate InDateOrder(a: Series) {
    forall i, j | 0 <= i < j < |a| :: a[i].0 < a[j].0
  }

  lemma {:induction false} OrderedCloses(a: Series)
    requires InDateOrder(a)
    ensures forall i | 0 <= i < |a| :: a[i].0 in ByDate(a) && ByDate(a)[a[i].0] == a[i].1
  {
    if a != [] {
      var front, last := a[..|a| - 1], a[|a| - 1];
      OrderedCloses(front);
      assert forall i | 0 <= i < |front| :: front[i] == a[i] && front[i].0 < last.0;
    }
  }

  lemma {:induction false} OrderedDates(a: Series)
    requires InDateOrder(a)
    ensures |Dates(a)| == |a| && forall i | 0 <= i < |a| :: Dates(a)[i] == a[i].0
  {
    hide ByDate;
    if a != [] {
      var front, last := a[..|a| - 1], a[|a| - 1];
      OrderedDates(front);
      assert forall i | 0 <= i < |front| :: front[i].0 < last.0;
      assert last.0 !in Dates(front);
    }
  }

  /** A feed in date order is aligned with itself as it stands. */
  lemma OrderedFeedAligns(a: Series)
    requires InDateOrder(a)
    ensures |CommonDates(a, a)| == |a| && forall i | 0 <= i < |a| :: CommonDates(a, a)[i] == a[i].0
  {
    OrderedDates(a);
    OrderedCloses(a);
    SharedByAll(Dates(a), a);
    SortOfSorted(Dates(a), Itself);
  }

  lemma AlternatingReturnsVary(closes: seq<Close>, log: real -> real)
    requires IsLog(log) && log(2.0) > 0.0
    requires |closes| >= 3 && closes[0] == closes[2] == Finite(1.0) && closes[1] == Finite(2.0)
    ensures !NeverVaries(Returns(closes, log))
  {
    hide IsLog, Div;
    var moves := Returns(closes, log);
    assert closes[..1] == [Finite(1.0)] && closes[..2] == [Finite(1.0), Finite(2.0)];
    assert [Finite(1.0), Finite(2.0)][..1] == [Finite(1.0)];
    assert moves[0] == ReturnAt(closes, 1, log) == Some(log(Div(2.0, 1.0)));
    assert moves[1] == ReturnAt(closes, 2, log) == Some(log(Div(1.0, 2.0)));
    LogChain(log, 1.0, 2.0, 1.0);
    MulSigns(2.0, 1.0);
    MulSigns(1.0, 1.0);
    DivUnique(2.0, 1.0, 2.0);
    assert AllFinite(moves) ==> Values(moves)[0] != Values(moves)[1];
  }

  lemma ValidFeed(a: Series)
    requires InDateOrder(a)
    requires forall i | 0 <= i < |a| :: Valid(a[i].1)
    ensures EveryCloseValid(a)
    ensures Covers(a, CommonDates(a, a)) && |CommonDates(a, a)| == |a|
    ensures forall i | 0 <= i < |a| :: ClosesOn(CommonDates(a, a), a)[i] == a[i].1
  {
    hide CommonDates, Valid;
    OrderedDates(a);
    OrderedCloses(a);
    OrderedFeedAligns(a);
    forall d | d in ByDate(a)
      ensures Valid(ByDate(a)[d])
    {
      assert d in Dates(a);
    }
  }

  function AlternatingFeed(): Series {
    [(1, Finite(1.0)), (2, Finite(2.0)), (3, Finite(1.0)), (4, Finite(2.0)), (5, Finite(1.0))]
  }

  /** Such a feed: five days alternating between 1 and 2. */
  lemma AlternatingFeedCorrelates(log: real -> real)
    requires IsLog(log) && log(2.0) > 0.0
    ensures CorrelatesWithItself(AlternatingFeed(), DEFAULT_PARAMS, log)
  {
    hide ByDate, CommonDates, IsLog, NeverVaries, EveryCloseValid;
    ValidFeed(AlternatingFeed());
    AlternatingReturnsVary(ClosesOn(CommonDates(AlternatingFeed(), AlternatingFeed()), AlternatingFeed()), log);
  }
}
