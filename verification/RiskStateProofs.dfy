/** What the durable risk state promises over whole runs of saves, deaths and restarts. */
module RiskStateProofs {
  import opened Common
  import opened AtomicFiles
  import opened RiskState

  // ------------------------------------------------------- the peak store

  const MOVED := Moves(true, true, true)

  /** What a load would answer; no rename changes that. */
  function DurablePeak(d: Files<real>): (peak: real)
    ensures forall m :: RecoverPeak(d, m).result == peak == RecoverPeak(RecoverPeak(d, m).files, m).result
  {
    RecoverPeak(d, MOVED).result
  }

  /**
   A save that did not publish leaves the recoverable peak alone, unless the primary was damaged under a live process.
   */
  lemma InterruptedSaveKeepsPeakIff(d: Files<real>, v: real)
    ensures (forall e, end | MayLeave(d, v, e, end) && end != Published :: DurablePeak(e) == DurablePeak(d))
       <==> !(d.primary.Torn? && d.bak.Good? && d.bak.value > 0.0)
  {
    if d.primary.Torn? && d.bak.Good? && d.bak.value > 0.0 {
      var e := AfterCalls(d, v, 2);
      assert MayLeave(d, v, e, Died) && DurablePeak(e) == 0.0;
    }
  }

  /** One damaged primary under a live process, and a kill after the mirror call copied it: the peak is gone. */
  lemma KilledMirrorForgetsThePeak()
    ensures var d := Files(Torn, Good(5.0), Missing);
            DurablePeak(d) == 5.0 && MayLeave(d, 7.0, AfterCalls(d, 7.0, 2), Died)
              && DurablePeak(AfterCalls(d, 7.0, 2)) == 0.0
  {
  }

  /** From a good primary and a good mirror, no single kill and no single undecodable file loses the peak. */
  lemma PeakSurvivesOneFault(current: real, previous: real, next: real, tmp: File<real>)
    requires 0.0 < previous <= current < next
    ensures var d := Files(Good(current), Good(previous), tmp);
            && (forall e, end | MayLeave(d, next, e, end) ::
                  DurablePeak(e) == if end == Published then next else current)
            && (forall n: nat | n < 5 :: DurablePeak(AfterCalls(d, next, n)) == current)
            && DurablePeak(AfterCalls(d, next, 5)) == next
            && DurablePeak(d.(primary := Torn)) == previous
            && DurablePeak(d.(primary := Missing)) == previous
            && DurablePeak(d.(bak := Torn)) == current
            && DurablePeak(d.(tmp := Torn)) == current
  {
  }

  /**
   After a load no interrupted save can lose the recovered peak if and only if the load moved a damaged primary
   aside: left in place, it would be copied over the mirror that was just recovered.
   */
  lemma RecoveredPeakSurvivesKilledSaveIff(d: Files<real>, m: Moves, v: real)
    ensures (forall e, end | MayLeave(RecoverPeak(d, m).files, v, e, end) && end != Published ::
            DurablePeak(e) == DurablePeak(d))
       <==> m.peakPrimary || !(d.primary.Torn? && d.bak.Good? && d.bak.value > 0.0)
  {
    InterruptedSaveKeepsPeakIff(RecoverPeak(d, m).files, v);
  }

  /** The peak half of the running account: its files and its in-memory high-water mark. */
  datatype PeakSystem = PeakSystem(files: Files<real>, memory: real)

  function Rebooted(files: Files<real>, m: Moves): PeakSystem {
    PeakSystem(RecoverPeak(files, m).files, RecoverPeak(files, m).result)
  }

  /** A restart, or a new high whose save may fail or die anywhere; a death is followed by a restart. */
  datatype PeakEvent = Reboot(m: Moves) | NewHigh(nav: real, after: Files<real>, end: SaveEnd, m: Moves)

  /** One step of a run without outside damage. */
  ghost predicate PeakStep(s: PeakSystem, event: PeakEvent, t: PeakSystem) {
    match event
    case Reboot(m) => t == Rebooted(s.files, m)
    case NewHigh(nav, after, end, m) =>
      && nav > s.memory && MayLeave(s.files, nav, after, end)
      && t == if end == Died then Rebooted(after, m) else PeakSystem(after, nav)
  }

  ghost predicate PeakInvariant(s: PeakSystem) {
    !s.files.primary.Torn? && DurablePeak(s.files) <= s.memory
  }

  lemma PeakStepKeepsInvariant(s: PeakSystem, event: PeakEvent, t: PeakSystem)
    requires PeakInvariant(s) && PeakStep(s, event, t)
    ensures PeakInvariant(t)
    ensures DurablePeak(s.files) <= DurablePeak(t.files)
    ensures DurablePeak(t.files) == if event.NewHigh? && event.end == Published then event.nav else DurablePeak(s.files)
  {
  }

  /** Over any run of highs, failing saves, deaths and restarts the recoverable peak never falls. */
  lemma {:induction false} DurablePeakNeverFalls(run: seq<PeakSystem>, events: seq<PeakEvent>, i: nat, j: nat)
    requires i <= j < |run| && |events| == |run| - 1
    requires forall k | 0 <= k < |events| :: PeakStep(run[k], events[k], run[k + 1])
    requires PeakInvariant(run[0])
    ensures PeakInvariant(run[j]) && DurablePeak(run[i].files) <= DurablePeak(run[j].files) <= run[j].memory
    decreases j
  {
    if j > 0 {
      DurablePeakNeverFalls(run[..j], events[..j - 1], IntMin(i, j - 1), j - 1);
      PeakStepKeepsInvariant(run[j - 1], events[j - 1], run[j]);
    }
  }

  // ------------------------------------------------------ the basis store

  function DurableAnchor(d: Files<Basis>): (anchor: Anchor)
    ensures forall m :: RecoverBasis(d, m).result == anchor == RecoverBasis(RecoverBasis(d, m).files, m).result
  {
    RecoverBasis(d, MOVED).result
  }

  /** The basis an interrupted save leaves recoverable, and exactly when it can be lost. */
  lemma InterruptedSaveKeepsBasisIff(d: Files<Basis>, b: Basis)
    ensures (forall e, end | MayLeave(d, b, e, end) && end != Published :: DurableAnchor(e) == DurableAnchor(d))
       <==> !(d.primary.Torn? && d.bak.Good? && AnchorOf(d.bak.value) != COLD)
  {
    if d.primary.Torn? && d.bak.Good? && AnchorOf(d.bak.value) != COLD {
      var e := AfterCalls(d, b, 2);
      assert MayLeave(d, b, e, Died) && DurableAnchor(e) == COLD;
    }
  }

  /**
   Unlike the peak loader, the basis loader leaves a damaged primary in place. So one damaged file, a load
   that recovers from the mirror, and a kill during the next save together forget a trusted basis.
   */
  lemma DamagedBasisThenKilledSaveStartsCold(d: Files<Basis>, b: Basis, m: Moves)
    requires d.primary.Torn? && d.bak.Good?
    ensures var loaded := RecoverBasis(d, m);
            && loaded.result == AnchorOf(d.bak.value)
            && loaded.files.primary.Torn?
            && DurableAnchor(AfterCalls(loaded.files, b, 2)) == COLD
  {
  }

  /** The basis half of the running account. */
  datatype BasisSystem = BasisSystem(files: Files<Basis>, memory: Anchor)

  function RebootedBasis(files: Files<Basis>, m: Moves): BasisSystem {
    BasisSystem(RecoverBasis(files, m).files, RecoverBasis(files, m).result)
  }

  /** A restart, or the first reading of a day, which stamps a new basis and saves it. */
  datatype BasisEvent = RebootBasis(m: Moves) | OpenDay(nav: real, day: int, after: Files<Basis>, end: SaveEnd,
    m: Moves)

  function Stamped(nav: real, day: int): Basis {
    Basis(nav, Some(day), true, true)
  }

  /** One step of a run without outside damage; a day is opened only on a cold or trusted basis of another day. */
  ghost predicate BasisStep(s: BasisSystem, event: BasisEvent, t: BasisSystem) {
    match event
    case RebootBasis(m) => t == RebootedBasis(s.files, m)
    case OpenDay(nav, day, after, end, m) =>
      && nav > 0.0 && s.memory.lastDay != Some(day) && (s.memory.trusted || s.memory.lastDay.None?)
      && MayLeave(s.files, Stamped(nav, day), after, end)
      && t == if end == Died then RebootedBasis(after, m) else BasisSystem(after, AnchorOf(Stamped(nav, day)))
  }

  /** The anchor of the last day opening whose save was published, else the initial one. */
  function LastPublished(initial: Anchor, events: seq<BasisEvent>): Anchor {
    if events == [] then initial
    else
      var last := events[|events| - 1];
      if last.OpenDay? && last.end == Published then AnchorOf(Stamped(last.nav, last.day))
      else LastPublished(initial, events[..|events| - 1])
  }

  /**
   Over any run of day openings with failing saves, deaths and restarts, the recoverable anchor is the last one
   published, or the initial one. So a trusted anchor stays trusted and is never forgotten.
   */
  lemma {:induction false} DurableAnchorIsLastPublished(run: seq<BasisSystem>, events: seq<BasisEvent>)
    requires |run| == |events| + 1
    requires forall k | 0 <= k < |events| :: BasisStep(run[k], events[k], run[k + 1])
    requires !run[0].files.primary.Torn?
    ensures var now := run[|events|];
            && !now.files.primary.Torn?
            && DurableAnchor(now.files) == LastPublished(DurableAnchor(run[0].files), events)
            && (DurableAnchor(run[0].files).trusted ==>
              DurableAnchor(now.files).trusted && DurableAnchor(now.files) != COLD)
  {
    if events != [] {
      var k := |events| - 1;
      DurableAnchorIsLastPublished(run[..|events|], events[..k]);
      assert BasisStep(run[k], events[k], run[k + 1]);
    }
  }

  // ------------------------------------------------- restart transparency

  /** Memory agrees with what a fresh process would read back, however often it reads and whatever it can rename. */
  ghost predicate Synced(m: Memory, d: Disk) {
    forall moves :: Restart(d, moves).memory == m
  }

  lemma RestartIsSynced(d: Disk, moves: Moves)
    ensures Synced(Restart(d, moves).memory, Restart(d, moves).disk)
  {
  }

  lemma FetchStaysSynced(a: Account, r: Reading)
    requires Synced(a.memory, a.disk)
    ensures Synced(Fetch(a, r).0.memory, Fetch(a, r).0.disk)
  {
    forall moves
      ensures Restart(Fetch(a, r).0.disk, moves).memory == Fetch(a, r).0.memory
    {
      assert Restart(a.disk, moves).memory == a.memory;
    }
  }

  /** The answer and the next memory depend on memory alone. */
  lemma FetchIgnoresDisk(a: Account, b: Account, r: Reading)
    requires a.memory == b.memory
    ensures Fetch(a, r).1 == Fetch(b, r).1 && Fetch(a, r).0.memory == Fetch(b, r).0.memory
  {
  }

  datatype Event = Call(reading: Reading) | Restarted(moves: Moves)

  function After(a: Account, events: seq<Event>): Account {
    if events == [] then a
    else
      var before := After(a, events[..|events| - 1]);
      match events[|events| - 1]
      case Call(r) => Fetch(before, r).0
      case Restarted(moves) => Restart(before.disk, moves)
  }

  function Answers(a: Account, events: seq<Event>): seq<Answer> {
    if events == [] then []
    else
      var front := events[..|events| - 1];
      match events[|events| - 1]
      case Call(r) => Answers(a, front) + [Fetch(After(a, front), r).1]
      case Restarted(_) => Answers(a, front)
  }

  function CallsOnly(events: seq<Event>): seq<Event> {
    if events == [] then []
    else
      var front := CallsOnly(events[..|events| - 1]);
      if events[|events| - 1].Call? then front + [events[|events| - 1]] else front
  }

  lemma RestartReadsMemory(a: Account, moves: Moves)
    requires Synced(a.memory, a.disk)
    ensures Restart(a.disk, moves).memory == a.memory
  {
  }

  /** Rebuilding the account from disk between any two calls, any number of times, changes no answer and no refusal. */
  lemma {:induction false} RestartsAreInvisible(d: Disk, moves: Moves, events: seq<Event>)
    ensures var a := Restart(d, moves);
            && Answers(a, events) == Answers(a, CallsOnly(events))
            && After(a, events).memory == After(a, CallsOnly(events)).memory
            && Synced(After(a, events).memory, After(a, events).disk)
  {
    hide Fetch, Restart, Synced;
    var a := Restart(d, moves);
    if events == [] {
      RestartIsSynced(d, moves);
    } else {
      var front := events[..|events| - 1];
      RestartsAreInvisible(d, moves, front);
      match events[|events| - 1]
      case Call(r) =>
        var calls := CallsOnly(front);
        assert (calls + [Call(r)])[..|calls|] == calls;
        FetchIgnoresDisk(After(a, front), After(a, calls), r);
        FetchStaysSynced(After(a, front), r);
      case Restarted(again) =>
        RestartReadsMemory(After(a, front), again);
        RestartIsSynced(After(a, front).disk, again);
    }
  }

  // ------------------------------------------------- what an answer says

  function AfterReadings(a: Account, rs: seq<Reading>): Account {
    if rs == [] then a else Fetch(AfterReadings(a, rs[..|rs| - 1]), rs[|rs| - 1]).0
  }

  function AnswerTo(a: Account, rs: seq<Reading>, k: nat): Answer
    requires k < |rs|
  {
    Fetch(AfterReadings(a, rs[..k]), rs[k]).1
  }

  function HighestNav(floor: real, rs: seq<Reading>): real {
    if rs == [] then floor else Max(HighestNav(floor, rs[..|rs| - 1]), rs[|rs| - 1].nav)
  }

  lemma {:induction false} HighestNavAtLeastFloor(floor: real, rs: seq<Reading>)
    ensures HighestNav(floor, rs) >= floor
  {
    if rs != [] {
      HighestNavAtLeastFloor(floor, rs[..|rs| - 1]);
    }
  }

  /**
   The reported peak is the maximum of the loaded peak and every NAV seen, and the gate's own state validators hold.
   */
  lemma {:induction false} PeakIsRunningMaximum(a: Account, rs: seq<Reading>)
    requires a.memory.peak >= 0.0
    ensures AfterReadings(a, rs).memory.peak == HighestNav(a.memory.peak, rs)
    ensures forall k | 0 <= k < |rs| && AnswerTo(a, rs, k).Ok? ::
              var s := AnswerTo(a, rs, k).value;
              s.peakEquity == HighestNav(a.memory.peak, rs[..k + 1]) >= s.totalEquity == rs[k].nav > 0.0
                && s.cash >= 0.0
  {
    if rs != [] {
      var front := rs[..|rs| - 1];
      PeakIsRunningMaximum(a, front);
      HighestNavAtLeastFloor(a.memory.peak, front);
      forall k | 0 <= k < |rs| && AnswerTo(a, rs, k).Ok?
        ensures var s := AnswerTo(a, rs, k).value;
                s.peakEquity == HighestNav(a.memory.peak, rs[..k + 1]) >= s.totalEquity == rs[k].nav > 0.0
                  && s.cash >= 0.0
      {
        if k < |front| {
          assert front[..k] == rs[..k] && front[..k + 1] == rs[..k + 1];
          assert AnswerTo(a, front, k) == AnswerTo(a, rs, k);
        } else {
          assert rs[..k + 1] == rs && rs[..k] == front;
        }
      }
    }
  }

  /**
   Of a reading that is answered, cash and positions make up the NAV exactly when the positions are worth no more than
   it; otherwise there is no cash.
   */
  lemma CashIsWhatPositionsLeave(a: Account, rs: seq<Reading>, k: nat)
    requires k < |rs| && AnswerTo(a, rs, k).Ok?
    ensures var s := AnswerTo(a, rs, k).value;
            && s.totalEquity == rs[k].nav
            && (rs[k].nav >= rs[k].positionsValue ==> s.cash + rs[k].positionsValue == rs[k].nav)
            && (rs[k].nav < rs[k].positionsValue ==> s.cash == 0.0)
  {
  }

  /** Of 100 with 30 in positions, 70 are free. */
  lemma ThirtyOfAHundredInvested(disk: Disk)
    ensures var answer := Fetch(Account(Memory(0.0, 0.0, None, false), disk), Reading(100.0, 30.0, 1)).1;
            answer == Ok(PortfolioState(100.0, 70.0, 100.0, 0.0))
  {
  }

  /**
   A process started on a readable basis file refuses a positive NAV exactly when the file names another day without
   both markers and a positive amount; on the file's own day the P&L is measured from its amount, a negative one
   counting as 0; on any other day the day is opened.
   */
  lemma StoredBasisDecides(d: Disk, moves: Moves, b: Basis, r: Reading)
    requires d.basis.primary == Good(b) && r.nav > 0.0
    ensures var answer := Fetch(Restart(d, moves), r).1;
            && (answer.Err? <==>
                  && b.day.Some? && b.day.value != r.today
                  && !(b.schemaAtLeastOne && b.basisValid && b.value > 0.0))
            && (answer.Err? ==> answer.error == UntrustedBasis)
            && (b.day == Some(r.today) ==> answer.value.dailyPnl == r.nav - (if b.value < 0.0 then 0.0 else b.value))
            && (answer.Ok? && b.day != Some(r.today) ==> answer.value.dailyPnl == 0.0)
  {
  }

  /** A payload from before the markers is refused on the next day. */
  lemma LegacyBasisIsRefused(d: Disk, moves: Moves)
    requires d.basis.primary == Good(Basis(100.0, Some(1), false, false))
    ensures Fetch(Restart(d, moves), Reading(90.0, 0.0, 2)).1 == Err(UntrustedBasis)
  {
  }

  /** No stored basis, or one that passed the trust gate. */
  predicate Clean(m: Memory) {
    m.trusted || m.lastDay.None?
  }

  /** Reading `i` is the first of its day with a positive NAV. */
  predicate OpensDay(rs: seq<Reading>, i: nat)
    requires i < |rs|
  {
    rs[i].nav > 0.0 && forall j | 0 <= j < i :: !(rs[j].nav > 0.0 && rs[j].today == rs[i].today)
  }

  lemma {:induction false} StaysClean(a: Account, rs: seq<Reading>, day: int)
    requires Clean(a.memory) && a.memory.lastDay != Some(day)
    requires forall j | 0 <= j < |rs| :: !(rs[j].nav > 0.0 && rs[j].today == day)
    ensures Clean(AfterReadings(a, rs).memory) && AfterReadings(a, rs).memory.lastDay != Some(day)
  {
    if rs != [] {
      StaysClean(a, rs[..|rs| - 1], day);
    }
  }

  lemma {:induction false} AnchorHoldsAllDay(a: Account, rs: seq<Reading>, i: nat)
    requires Clean(a.memory) && i < |rs| && OpensDay(rs, i) && a.memory.lastDay != Some(rs[i].today)
    requires forall j | i <= j < |rs| :: rs[j].today == rs[i].today
    ensures var m := AfterReadings(a, rs).memory;
            m.previousClose == rs[i].nav && m.lastDay == Some(rs[i].today) && m.trusted
  {
    var front := rs[..|rs| - 1];
    if |rs| == i + 1 {
      StaysClean(a, front, rs[i].today);
    } else {
      AnchorHoldsAllDay(a, front, i);
    }
  }

  /**
   Within a day `daily_pnl` is the NAV minus the first NAV of that day, and no call of the day is refused for its
   basis.
   */
  lemma DailyPnlIsMeasuredFromTheOpen(a: Account, rs: seq<Reading>, i: nat, k: nat)
    requires Clean(a.memory) && i <= k < |rs| && OpensDay(rs, i) && a.memory.lastDay != Some(rs[i].today)
    requires forall p, q | 0 <= p <= q < |rs| :: rs[p].today <= rs[q].today
    requires rs[k].today == rs[i].today
    ensures AnswerTo(a, rs, k) == Err(NavNotPositive) <==> rs[k].nav <= 0.0
    ensures rs[k].nav > 0.0 ==> AnswerTo(a, rs, k).Ok? && AnswerTo(a, rs, k).value.dailyPnl == rs[k].nav - rs[i].nav
  {
    if i == k {
      StaysClean(a, rs[..k], rs[i].today);
    } else {
      AnchorHoldsAllDay(a, rs[..k], i);
    }
  }

  function ReadingsOf(events: seq<Event>): seq<Reading> {
    if events == [] then []
    else
      var front := ReadingsOf(events[..|events| - 1]);
      match events[|events| - 1]
      case Call(r) => front + [r]
      case Restarted(_) => front
  }

  /** A run with restarts answers reading by reading as one process would. */
  lemma {:induction false} EventsAnswerAsReadings(d: Disk, moves: Moves, events: seq<Event>)
    ensures var a, rs := Restart(d, moves), ReadingsOf(events);
            && After(a, events).memory == AfterReadings(a, rs).memory
            && |Answers(a, events)| == |rs| && forall k | 0 <= k < |rs| :: Answers(a, events)[k] == AnswerTo(a, rs, k)
  {
    hide Fetch, Restart, Synced;
    var a := Restart(d, moves);
    if events != [] {
      var front := events[..|events| - 1];
      var rs := ReadingsOf(front);
      EventsAnswerAsReadings(d, moves, front);
      RestartsAreInvisible(d, moves, front);
      match events[|events| - 1]
      case Call(r) =>
        FetchIgnoresDisk(After(a, front), AfterReadings(a, rs), r);
        assert (rs + [r])[..|rs|] == rs;
        assert forall k | 0 <= k < |rs| :: (rs + [r])[..k] == rs[..k];
      case Restarted(again) =>
        RestartReadsMemory(After(a, front), again);
    }
  }

  /** The same for a process restarted at any point of the day, on any files whose basis is clean. */
  lemma DailyPnlSurvivesRestarts(d: Disk, moves: Moves, events: seq<Event>, i: nat, k: nat)
    requires var a, rs := Restart(d, moves), ReadingsOf(events);
             && Clean(a.memory) && i <= k < |rs| && OpensDay(rs, i) && a.memory.lastDay != Some(rs[i].today)
             && (forall p, q | 0 <= p <= q < |rs| :: rs[p].today <= rs[q].today) && rs[k].today == rs[i].today
    ensures var a, rs := Restart(d, moves), ReadingsOf(events);
            && |Answers(a, events)| == |rs|
            && (rs[k].nav <= 0.0 ==> Answers(a, events)[k] == Err(NavNotPositive))
            && (rs[k].nav > 0.0 ==>
              Answers(a, events)[k].Ok? && Answers(a, events)[k].value.dailyPnl == rs[k].nav - rs[i].nav)
  {
    EventsAnswerAsReadings(d, moves, events);
    DailyPnlIsMeasuredFromTheOpen(Restart(d, moves), ReadingsOf(events), i, k);
  }

  /** A basis that fails the trust gate refuses every call on any other day, and never changes. */
  lemma {:induction false} UntrustedBasisRefuses(a: Account, rs: seq<Reading>, k: nat)
    requires !Clean(a.memory) && k < |rs|
    ensures var m := AfterReadings(a, rs[..k]).memory;
            m.lastDay == a.memory.lastDay && m.previousClose == a.memory.previousClose && !m.trusted
    ensures rs[k].nav > 0.0 ==>
              (AnswerTo(a, rs, k) == Err(UntrustedBasis) <==> Some(rs[k].today) != a.memory.lastDay)
  {
    if k > 0 {
      assert rs[..k][..k - 1] == rs[..k - 1];
      UntrustedBasisRefuses(a, rs, k - 1);
    }
  }
}
