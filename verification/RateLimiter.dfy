/** The token bucket every loader and the broker share: src/data/token_bucket.py. */
module RateLimiter {
  import opened Algebra
  import opened Common

  datatype Limits = Limits(capacity: real, perSecond: real)

  /** `_tokens` and `_last_refill`. */
  datatype Level = Level(tokens: real, last: real)

  predicate ValidLimits(p: Limits) {
    p.capacity >= 1.0 && p.perSecond > 0.0
  }

  predicate InRange(p: Limits, s: Level) {
    0.0 <= s.tokens <= p.capacity
  }

  // ------------------------------------------------------- the bucket as values

  /** `_refill_locked`. */
  function Refill(p: Limits, s: Level, now: real): Level {
    if now <= s.last then s
    else Level(Min(p.capacity, s.tokens + Mul(now - s.last, p.perSecond)), now)
  }

  /** One critical section: a pass of `acquire` or an `acquire_nowait`, or an observer call. */
  datatype Op = Try(now: real) | Look(now: real)

  predicate Grants(p: Limits, s: Level, op: Op) {
    op.Try? && Refill(p, s, op.now).tokens >= 1.0
  }

  function Step(p: Limits, s: Level, op: Op): Level {
    var r := Refill(p, s, op.now);
    if Grants(p, s, op) then r.(tokens := r.tokens - 1.0) else r
  }

  /** The times at which tokens were handed out. */
  function GrantTimes(p: Limits, s: Level, ops: seq<Op>): seq<real>
    decreases |ops|
  {
    if ops == [] then []
    else (if Grants(p, s, ops[0]) then [ops[0].now] else []) + GrantTimes(p, Step(p, s, ops[0]), ops[1..])
  }

  function CountIn(times: seq<real>, a: real, b: real): nat {
    if times == [] then 0 else (if a <= times[0] <= b then 1 else 0) + CountIn(times[1..], a, b)
  }

  /** The clock never runs backwards, from `from` on. */
  predicate Clocked(from: real, ops: seq<Op>)
    decreases |ops|
  {
    ops == [] || (from <= ops[0].now && Clocked(ops[0].now, ops[1..]))
  }

  // ---------------------------------------------------------------- invariants

  lemma RefillBounds(p: Limits, s: Level, now: real)
    requires ValidLimits(p) && InRange(p, s) && s.last <= now
    ensures var r := Refill(p, s, now);
            InRange(p, r) && r.last == now && s.tokens <= r.tokens <= s.tokens + Mul(now - s.last, p.perSecond)
  {
  }

  /** Tokens stay in [0, capacity] through every operation of every run. */
  lemma StepStaysInRange(p: Limits, s: Level, op: Op)
    requires ValidLimits(p) && InRange(p, s) && s.last <= op.now
    ensures InRange(p, Step(p, s, op)) && Step(p, s, op).last == op.now
  {
    hide Refill;
    RefillBounds(p, s, op.now);
  }

  // ------------------------------------------------------------- the rate bound

  lemma CountOfStep(p: Limits, s: Level, ops: seq<Op>, a: real, b: real)
    requires ops != []
    ensures var rest := CountIn(GrantTimes(p, Step(p, s, ops[0]), ops[1..]), a, b);
            CountIn(GrantTimes(p, s, ops), a, b) ==
              rest + if Grants(p, s, ops[0]) && a <= ops[0].now <= b then 1 else 0
  {
    hide Step, Grants;
    var rest := GrantTimes(p, Step(p, s, ops[0]), ops[1..]);
    if Grants(p, s, ops[0]) {
      assert ([ops[0].now] + rest)[1..] == rest;
    } else {
      assert [] + rest == rest;
    }
  }

  lemma {:induction false} NoGrantsAfter(p: Limits, s: Level, ops: seq<Op>, from: real, a: real, b: real)
    requires Clocked(from, ops) && b < from
    ensures CountIn(GrantTimes(p, s, ops), a, b) == 0
    decreases |ops|
  {
    if ops != [] {
      hide Grants, Step;
      CountOfStep(p, s, ops, a, b);
      NoGrantsAfter(p, Step(p, s, ops[0]), ops[1..], ops[0].now, a, b);
    }
  }

  /** Tokens in hand plus what can still drip in by `b` pay for every grant up to `b`. */
  lemma {:induction false} GrantsArePaidFor(p: Limits, s: Level, ops: seq<Op>, a: real, b: real)
    requires ValidLimits(p) && InRange(p, s) && Clocked(s.last, ops) && s.last <= b
    ensures CountIn(GrantTimes(p, s, ops), a, b) as real <= s.tokens + Mul(b - s.last, p.perSecond)
    decreases |ops|
  {
    hide Mul, Refill;
    MulSigns(b - s.last, p.perSecond);
    if ops != [] {
      var t, next := ops[0].now, Step(p, s, ops[0]);
      RefillBounds(p, s, t);
      StepStaysInRange(p, s, ops[0]);
      if t <= b {
        GrantsArePaidFor(p, next, ops[1..], a, b);
        MulDistributes(t - s.last, -(b - t), p.perSecond);
        assert (t - s.last) - -(b - t) == b - s.last;
        MulDistributes(b - t, 0.0, p.perSecond);
        assert Mul(b - s.last, p.perSecond) == Mul(t - s.last, p.perSecond) + Mul(b - t, p.perSecond);
        CountOfStep(p, s, ops, a, b);
      } else {
        NoGrantsAfter(p, s, ops, t, a, b);
      }
    }
  }

  /**
   The rate bound over every window: for any interleaving of callers and observers with a clock that does not run
   backwards, at most capacity + (b - a) * rate / window tokens are granted between times a and b.
   */
  lemma {:induction false} RateBoundOverEveryWindow(p: Limits, s: Level, ops: seq<Op>, a: real, b: real)
    requires ValidLimits(p) && InRange(p, s) && Clocked(s.last, ops) && a <= b
    ensures CountIn(GrantTimes(p, s, ops), a, b) as real <= p.capacity + Mul(b - a, p.perSecond)
    decreases |ops|
  {
    hide Mul, Refill;
    MulSigns(b - a, p.perSecond);
    if ops != [] {
      var t, next := ops[0].now, Step(p, s, ops[0]);
      RefillBounds(p, s, t);
      StepStaysInRange(p, s, ops[0]);
      CountOfStep(p, s, ops, a, b);
      if t < a {
        RateBoundOverEveryWindow(p, next, ops[1..], a, b);
      } else if t <= b {
        GrantsArePaidFor(p, next, ops[1..], a, b);
        MulOrder(b - t, b - a, p.perSecond);
      } else {
        NoGrantsAfter(p, s, ops, t, a, b);
      }
    }
  }

  // -------------------------------------------------- the matching lower bound

  /** The level after a run. */
  function After(p: Limits, s: Level, ops: seq<Op>): Level
    decreases |ops|
  {
    if ops == [] then s else After(p, Step(p, s, ops[0]), ops[1..])
  }

  predicate EndsBy(ops: seq<Op>, t: real) {
    forall i | 0 <= i < |ops| :: ops[i].now <= t
  }

  lemma {:induction false} EveryGrantIsCounted(p: Limits, s: Level, ops: seq<Op>, from: real, a: real, t: real)
    requires a <= from && Clocked(from, ops) && EndsBy(ops, t)
    ensures CountIn(GrantTimes(p, s, ops), a, t) == |GrantTimes(p, s, ops)|
    decreases |ops|
  {
    if ops != [] {
      hide Grants, Step;
      CountOfStep(p, s, ops, a, t);
      EveryGrantIsCounted(p, Step(p, s, ops[0]), ops[1..], ops[0].now, a, t);
    }
  }

  lemma SplitDrip(a: real, b: real, t: real, rate: real)
    ensures Mul(t - a, rate) == Mul(b - a, rate) + Mul(t - b, rate)
  {
    hide Mul;
    MulDistributes(b - a, t - b, rate);
    assert (b - a) + (t - b) == t - a;
  }

  /** What one operation leaves of its level: the cap or the drip, whichever is less, minus the token it hands out. */
  lemma StepIsExact(p: Limits, s: Level, op: Op)
    requires s.last <= op.now
    ensures var g := if Grants(p, s, op) then 1.0 else 0.0;
            var full := s.tokens + Mul(op.now - s.last, p.perSecond);
            && Step(p, s, op).tokens <= full - g && (InRange(p, s) ==> Step(p, s, op).tokens <= p.capacity - g)
            && (Step(p, s, op).tokens == full - g || Step(p, s, op).tokens == p.capacity - g)
  {
    hide Mul;
    MulSigns(0.0, p.perSecond);
  }

  /** No window, and not the whole run, hands out more than leaves the level at `t`. */
  lemma {:induction false} LevelIsWithinEveryWindow(p: Limits, s: Level, ops: seq<Op>, t: real, a: real)
    requires ValidLimits(p) && InRange(p, s) && Clocked(s.last, ops) && EndsBy(ops, t) && s.last <= t
    ensures var times, level := GrantTimes(p, s, ops), Refill(p, After(p, s, ops), t).tokens;
            && level <= s.tokens + Mul(t - s.last, p.perSecond) - |times| as real
            && (s.last <= a <= t ==> level <= p.capacity + Mul(t - a, p.perSecond) - CountIn(times, a, t) as real)
    decreases |ops|
  {
    hide Mul, Refill, Grants;
    MulSigns(t - a, p.perSecond);
    if ops == [] {
      RefillBounds(p, s, t);
    } else {
      hide Step;
      var op, next := ops[0], Step(p, s, ops[0]);
      StepStaysInRange(p, s, op);
      StepIsExact(p, s, op);
      LevelIsWithinEveryWindow(p, next, ops[1..], t, a);
      SplitDrip(s.last, op.now, t, p.perSecond);
      CountOfStep(p, s, ops, a, t);
      if a <= op.now {
        MulSigns(op.now - a, p.perSecond);
        SplitDrip(a, op.now, t, p.perSecond);
        EveryGrantIsCounted(p, next, ops[1..], op.now, a, t);
      }
    }
  }

  /** The whole run, or some window, leaves no more than the level at `t`. */
  lemma {:induction false} SomeWindowIsTight(p: Limits, s: Level, ops: seq<Op>, t: real) returns (a: real)
    requires ValidLimits(p) && InRange(p, s) && Clocked(s.last, ops) && EndsBy(ops, t) && s.last <= t
    ensures s.last <= a <= t
    ensures var times, level := GrantTimes(p, s, ops), Refill(p, After(p, s, ops), t).tokens;
            || level >= s.tokens + Mul(t - s.last, p.perSecond) - |times| as real
            || level >= p.capacity + Mul(t - a, p.perSecond) - CountIn(times, a, t) as real
    decreases |ops|
  {
    hide Mul, Grants;
    MulSigns(t - t, p.perSecond);
    if ops == [] {
      a := t;
      MulSigns(0.0, p.perSecond);
    } else {
      hide Step, Refill;
      var op, next := ops[0], Step(p, s, ops[0]);
      StepStaysInRange(p, s, op);
      StepIsExact(p, s, op);
      a := SomeWindowIsTight(p, next, ops[1..], t);
      CountOfStep(p, s, ops, a, t);
      var level, rest := Refill(p, After(p, s, ops), t).tokens, GrantTimes(p, next, ops[1..]);
      if level >= next.tokens + Mul(t - op.now, p.perSecond) - |rest| as real {
        SplitDrip(s.last, op.now, t, p.perSecond);
        a := op.now;
        CountOfStep(p, s, ops, a, t);
        EveryGrantIsCounted(p, next, ops[1..], op.now, a, t);
      }
    }
  }

  /**
   The rate bound is all the bucket enforces. After any run a caller at time `t` is granted exactly when the tokens in
   hand at the start and the drip since pay for one more, and no window ending at `t` is already at
   capacity + (t - a) * rate / window.
   */
  lemma GrantedIffNoWindowIsFull(p: Limits, s: Level, ops: seq<Op>, t: real)
    requires ValidLimits(p) && InRange(p, s) && Clocked(s.last, ops) && EndsBy(ops, t) && s.last <= t
    ensures var times := GrantTimes(p, s, ops);
            Grants(p, After(p, s, ops), Try(t)) <==>
              && |times| as real + 1.0 <= s.tokens + Mul(t - s.last, p.perSecond)
              && (forall a: real | s.last <= a <= t ::
                   CountIn(times, a, t) as real + 1.0 <= p.capacity + Mul(t - a, p.perSecond))
  {
    hide Mul, Refill;
    var tight := SomeWindowIsTight(p, s, ops, t);
    LevelIsWithinEveryWindow(p, s, ops, t, t);
    forall a: real | s.last <= a <= t
      ensures Refill(p, After(p, s, ops), t).tokens
           <= p.capacity + Mul(t - a, p.perSecond) - CountIn(GrantTimes(p, s, ops), a, t) as real
    {
      LevelIsWithinEveryWindow(p, s, ops, t, a);
    }
  }

  /** `k` callers at the same moment. */
  function Burst(t: real, k: nat): (ops: seq<Op>)
    ensures |ops| == k && forall i | 0 <= i < k :: ops[i] == Try(t)
  {
    seq(k, _ => Try(t))
  }

  lemma {:induction false} BurstOnFreshLevel(p: Limits, s: Level, t: real, k: nat)
    requires InRange(p, s) && s.last == t
    ensures CountIn(GrantTimes(p, s, Burst(t, k)), t, t) == k <==> k as real <= s.tokens
    ensures CountIn(GrantTimes(p, s, Burst(t, k)), t, t) <= k
    decreases k
  {
    if k > 0 {
      CountOfStep(p, s, Burst(t, k), t, t);
      assert Burst(t, k)[1..] == Burst(t, k - 1);
      BurstOnFreshLevel(p, Step(p, s, Try(t)), t, k - 1);
    }
  }

  /** After any pause, `k` callers at once are all granted exactly when both the cap and the drip cover `k`. */
  lemma BurstIsGrantedIff(p: Limits, s: Level, t: real, k: nat)
    requires ValidLimits(p) && InRange(p, s) && s.last <= t
    ensures CountIn(GrantTimes(p, s, Burst(t, k)), t, t) == k <==>
              k as real <= p.capacity && k as real <= s.tokens + Mul(t - s.last, p.perSecond)
  {
    hide Mul;
    MulSigns(t - s.last, p.perSecond);
    if k > 0 {
      CountOfStep(p, s, Burst(t, k), t, t);
      assert Burst(t, k)[1..] == Burst(t, k - 1);
      BurstOnFreshLevel(p, Step(p, s, Try(t)), t, k - 1);
    }
  }

  /**
   After an idle minute an empty bucket of capacity 10 and one token a second grants ten callers at once, not eleven.
   */
  lemma IdleMinuteRefillsTen()
    ensures var p, s := Limits(10.0, 1.0), Level(0.0, 0.0);
            && CountIn(GrantTimes(p, s, Burst(60.0, 10)), 60.0, 60.0) == 10
            && CountIn(GrantTimes(p, s, Burst(60.0, 11)), 60.0, 60.0) != 11
  {
    var p, s := Limits(10.0, 1.0), Level(0.0, 0.0);
    BurstIsGrantedIff(p, s, 60.0, 10);
    BurstIsGrantedIff(p, s, 60.0, 11);
  }

  // ---------------------------------------------------- observers are invisible

  /** Refilling on the way changes nothing: the cap and the drip commute. */
  lemma RefillTwice(p: Limits, s: Level, t1: real, t2: real)
    requires ValidLimits(p) && InRange(p, s) && s.last <= t1 <= t2
    ensures Refill(p, Refill(p, s, t1), t2) == Refill(p, s, t2)
  {
    hide Mul;
    MulSigns(t1 - s.last, p.perSecond);
    MulSigns(t2 - t1, p.perSecond);
    MulDistributes(t1 - s.last, t2 - t1, p.perSecond);
    assert (t1 - s.last) + (t2 - t1) == t2 - s.last;
  }

  function OnlyTries(ops: seq<Op>): seq<Op> {
    if ops == [] then [] else (if ops[0].Try? then [ops[0]] else []) + OnlyTries(ops[1..])
  }

  lemma RefillAtLast(p: Limits, s: Level)
    ensures Refill(p, s, s.last) == s
  {
  }

  lemma {:induction false} ObserversAreInvisibleFrom(p: Limits, s: Level, seen: real, ops: seq<Op>)
    requires ValidLimits(p) && InRange(p, s) && s.last <= seen && Clocked(seen, ops)
    ensures GrantTimes(p, Refill(p, s, seen), ops) == GrantTimes(p, s, OnlyTries(ops))
    decreases |ops|
  {
    if ops != [] {
      hide Refill;
      var op, looked := ops[0], Refill(p, s, seen);
      RefillTwice(p, s, seen, op.now);
      RefillBounds(p, s, op.now);
      if op.Try? {
        StepStaysInRange(p, s, op);
        var next := Step(p, s, op);
        assert Step(p, looked, op) == next;
        RefillAtLast(p, next);
        ObserversAreInvisibleFrom(p, next, op.now, ops[1..]);
        assert ([op] + OnlyTries(ops[1..]))[1..] == OnlyTries(ops[1..]);
      } else {
        ObserversAreInvisibleFrom(p, s, op.now, ops[1..]);
        assert Step(p, looked, op) == Refill(p, s, op.now) && !Grants(p, looked, op);
        assert GrantTimes(p, looked, ops) == GrantTimes(p, Refill(p, s, op.now), ops[1..]);
        assert OnlyTries(ops) == OnlyTries(ops[1..]);
      }
    }
  }

  /** Dropping every `wait_time` and `tokens_available` call from a run changes no grant. */
  lemma ObserversAreInvisible(p: Limits, s: Level, ops: seq<Op>)
    requires ValidLimits(p) && InRange(p, s) && Clocked(s.last, ops)
    ensures GrantTimes(p, s, ops) == GrantTimes(p, s, OnlyTries(ops))
  {
    RefillAtLast(p, s);
    ObserversAreInvisibleFrom(p, s, s.last, ops);
  }

  // ------------------------------------------------------------------- progress

  /** What `wait_time` returns on a refilled bucket. */
  function Delay(p: Limits, s: Level): real
    requires p.perSecond > 0.0
  {
    if s.tokens >= 1.0 then 0.0 else Div(1.0 - s.tokens, p.perSecond)
  }

  /** The announced delay is exact: a token is there after a pause precisely when the pause is at least that long. */
  lemma DelayIsExact(p: Limits, s: Level, pause: real)
    requires ValidLimits(p) && InRange(p, s) && pause >= 0.0
    ensures Refill(p, s, s.last + pause).tokens >= 1.0 <==> pause >= Delay(p, s)
    ensures Delay(p, s) >= 0.0
  {
    hide Mul, Div;
    var d, missing := Delay(p, s), 1.0 - s.tokens;
    MulSigns(pause, p.perSecond);
    if s.tokens < 1.0 {
      DivMul(missing, p.perSecond);
      DivSigns(missing, p.perSecond);
      if pause >= d {
        MulOrder(d, pause, p.perSecond);
      } else {
        MulDistributes(d, pause, p.perSecond);
        MulSigns(d - pause, p.perSecond);
      }
    }
  }

  /**
   Below a capacity of one token no run ever grants anything: the floor in the constructor is what makes progress
   possible.
   */
  lemma {:induction false} NoProgressBelowOneToken(p: Limits, s: Level, ops: seq<Op>)
    requires p.capacity < 1.0 && s.tokens <= p.capacity
    ensures GrantTimes(p, s, ops) == []
    decreases |ops|
  {
    hide Mul;
    if ops != [] {
      NoProgressBelowOneToken(p, Step(p, s, ops[0]), ops[1..]);
    }
  }

  // -------------------------------------------------------------------- objects

  /**
   `time.monotonic()` and `time.sleep()`: any amount of time may pass, but a sleep lasts at least as long as asked.
   */
  class Clock {
    var now: real

    constructor ()
    {
      now := 0.0;
    }

    method Monotonic() returns (t: real)
      modifies this
      ensures now >= old(now) && t == now
    {
      var passed: real :| passed >= 0.0;
      now := now + passed;
      t := now;
    }

    method Sleep(delay: real)
      requires delay >= 0.0
      modifies this
      ensures now >= old(now) + delay
    {
      var passed: real :| passed >= 0.0;
      now := now + delay + passed;
    }
  }

  datatype BadConfig = BadRate | BadWindow | BadCapacity

  /** The checks of `__post_init__`, and the capacity it settles on. */
  function Settle(rate: real, window: real, capacity: Option<real>): Result<Limits, BadConfig> {
    if rate <= 0.0 then Err(BadRate)
    else if window <= 0.0 then Err(BadWindow)
    else
      var asked := if capacity.Some? then capacity.value else rate;
      if asked <= 0.0 then Err(BadCapacity) else Ok(Limits(Max(asked, 1.0), Div(rate, window)))
  }

  /** Every bucket that can be constructed can make progress: the asked capacity, or the rate, but at least a token. */
  lemma SettledLimitsAreValid(rate: real, window: real, capacity: Option<real>)
    ensures Settle(rate, window, capacity).Ok? ==> ValidLimits(Settle(rate, window, capacity).value)
    ensures Settle(rate, window, capacity).Ok? <==>
              rate > 0.0 && window > 0.0 && (capacity.Some? ==> capacity.value > 0.0)
    ensures Settle(rate, window, capacity).Ok? ==>
              var p, asked := Settle(rate, window, capacity).value, if capacity.Some? then capacity.value else rate;
              && p.capacity >= asked && (p.capacity == asked || p.capacity == 1.0)
              && Mul(p.perSecond, window) == rate
  {
  }

  class TokenBucket {
    const limits: Limits
    var tokens: real
    var lastRefill: real

    ghost predicate Valid()
      reads this
    {
      ValidLimits(limits) && InRange(limits, View())
    }

    function View(): Level
      reads this
    {
      Level(tokens, lastRefill)
    }

    /** Starts full. */
    constructor (limits: Limits, now: real)
      requires ValidLimits(limits)
      ensures Valid() && this.limits == limits && View() == Level(limits.capacity, now)
    {
      this.limits := limits;
      tokens, lastRefill := limits.capacity, now;
    }

    method RefillLocked(now: real)
      requires Valid()
      modifies this
      ensures Valid() && View() == Refill(limits, old(View()), now)
    {
      var elapsed := now - lastRefill;
      if elapsed <= 0.0 {
        return;
      }
      ghost var before := View();
      RefillBounds(limits, before, now);
      tokens := Min(limits.capacity, tokens + Mul(elapsed, limits.perSecond));
      lastRefill := now;
    }

    method WaitTime(now: real) returns (delay: real)
      requires Valid()
      modifies this
      ensures Valid() && View() == Step(limits, old(View()), Look(now)) && delay == Delay(limits, View())
    {
      RefillLocked(now);
      if tokens >= 1.0 {
        return 0.0;
      }
      delay := Div(1.0 - tokens, limits.perSecond);
    }

    method TokensAvailable(now: real) returns (n: real)
      requires Valid()
      modifies this
      ensures Valid() && View() == Step(limits, old(View()), Look(now)) && n == tokens
    {
      RefillLocked(now);
      n := tokens;
    }

    /** A token, or `RateLimitError`. */
    method AcquireNowait(now: real) returns (granted: bool)
      requires Valid()
      modifies this
      ensures Valid() && View() == Step(limits, old(View()), Try(now))
      ensures granted <==> Grants(limits, old(View()), Try(now))
    {
      RefillLocked(now);
      if tokens < 1.0 {
        return false;
      }
      tokens := tokens - 1.0;
      granted := true;
    }

    /** A caller alone on the bucket gets its token by the second pass, and the sleep costs it no refill. */
    method Acquire(clock: Clock) returns (passes: nat)
      requires Valid() && lastRefill <= clock.now
      modifies this, clock
      ensures Valid() && 1 <= passes <= 2 && clock.now >= old(clock.now)
      ensures View() == Step(limits, old(View()), Try(clock.now)) && Grants(limits, old(View()), Try(clock.now))
    {
      ghost var before := View();
      passes := 0;
      var slept := false;
      while true
        invariant Valid() && lastRefill <= clock.now && clock.now >= old(clock.now)
        invariant before == old(View()) && before.last <= clock.now
        invariant View() == Refill(limits, before, lastRefill) && before.last <= lastRefill
        invariant InRange(limits, before) && passes == if slept then 1 else 0
        invariant slept ==> clock.now - lastRefill >= Delay(limits, View())
        decreases if slept then 0 else 1
      {
        var t := clock.Monotonic();
        ghost var level := View();
        RefillTwice(limits, before, lastRefill, t);
        DelayIsExact(limits, level, t - lastRefill);
        RefillBounds(limits, before, t);
        RefillLocked(t);
        passes := passes + 1;
        if tokens >= 1.0 {
          tokens := tokens - 1.0;
          return;
        }
        var delay := Div(1.0 - tokens, limits.perSecond);
        DivSigns(1.0 - tokens, limits.perSecond);
        clock.Sleep(delay);
        slept := true;
      }
    }
  }
}
