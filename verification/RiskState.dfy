/**
 The durable risk state of src/broker/tinkoff_account.py: the peak-equity and
 daily-P&L basis files, the file-by-file save protocol, recovery on load, and
 the account whose answers are computed from both.
 */
module AtomicFiles {

  /** One JSON file as the next reader finds it; Torn is present but undecodable. */
  datatype File<+V> = Missing | Torn | Good(value: V)

  /** The three sibling files of one store. */
  datatype Files<+V> = Files(primary: File<V>, bak: File<V>, tmp: File<V>)

  /** What happens at one file call: it completes, it raises OSError, or the process is killed at it. */
  datatype Call = Done | Fails | Kill

  /**
   The file calls of a save: make the directory, open .bak, write .bak, open .tmp, write .tmp, replace, and, after a
   failure of the last three, remove .tmp.
   */
  datatype Calls = Calls(makeDir: Call, openBak: Call, writeBak: Call, openTmp: Call, writeTmp: Call, publish: Call,
                         removeTmp: Call)

  const ALL_DONE := Calls(Done, Done, Done, Done, Done, Done, Done)

  /** How a save ended: killed part way, refused by the file system, or published. */
  datatype SaveEnd = Died | Warned | Published

  /**
   The schedule in which the first `n` of the five calls that touch files complete and the process dies at the next.
   */
  function KilledAt(n: nat): Calls {
    match n
    case 0 => ALL_DONE.(openBak := Kill)
    case 1 => ALL_DONE.(writeBak := Kill)
    case 2 => ALL_DONE.(openTmp := Kill)
    case 3 => ALL_DONE.(writeTmp := Kill)
    case _ => ALL_DONE.(publish := Kill)
  }

  /** No call of the schedule kills the process. */
  predicate Survives(calls: Calls) {
    Kill !in {calls.makeDir, calls.openBak, calls.writeBak, calls.openTmp, calls.writeTmp, calls.publish,
      calls.removeTmp}
  }

  /** Everything a save of `v` can leave behind, whichever calls fail and wherever the process dies. */
  ghost predicate MayLeave<V>(d: Files<V>, v: V, e: Files<V>, end: SaveEnd) {
    && (e.bak == d.bak || (!d.primary.Missing? && (e.bak == Torn || e.bak == d.primary)))
    && if end == Published then e.primary == Good(v) && e.tmp == Missing else e.primary == d.primary
  }

  /** The files after a save in which every call completed. */
  function Saved<V>(d: Files<V>, v: V): Files<V> {
    Files(Good(v), if d.primary.Missing? then d.bak else d.primary, Missing)
  }

  /** The files after the first `n` calls of a save of `v` completed. */
  function AfterCalls<V>(d: Files<V>, v: V, n: nat): Files<V> {
    var bak := if d.primary.Missing? || n == 0 then d.bak else if n == 1 then Torn else d.primary;
    var tmp := if n <= 2 then d.tmp else if n == 3 then Torn else if n == 4 then Good(v) else Missing;
    Files(if n < 5 then d.primary else Good(v), bak, tmp)
  }

  /** The handler that removes an unpublished .tmp; a removal that fails is ignored. */
  method RemoveTmp<V(==)>(d: Files<V>, removeTmp: Call) returns (e: Files<V>, end: SaveEnd)
    ensures e == if removeTmp.Done? then d.(tmp := Missing) else d
    ensures end == if removeTmp.Kill? && !d.tmp.Missing? then Died else Warned
  {
    if d.tmp.Missing? { return d, Warned; }
    if removeTmp.Kill? { return d, Died; }
    return if removeTmp.Done? then d.(tmp := Missing) else d, Warned;
  }

  /** The save protocol both stores follow, under any pattern of failing calls and any point of death. */
  method Save<V(==)>(d: Files<V>, v: V, calls: Calls) returns (e: Files<V>, end: SaveEnd)
    ensures MayLeave(d, v, e, end)
    ensures Survives(calls) ==> end != Died
    ensures calls == ALL_DONE ==> end == Published && e == Saved(d, v)
    ensures calls.makeDir != Done ==> e == d
    ensures forall n: nat :: n < 5 && calls == KilledAt(n) && (n >= 2 || !d.primary.Missing?) ==>
              end == Died && e == AfterCalls(d, v, n)
    ensures end == Published ==> calls.makeDir == calls.openTmp == calls.writeTmp == calls.publish == Done
    ensures end == Warned && calls.removeTmp.Done? && calls.makeDir.Done? ==> e.tmp.Missing?
  {
    e := d;
    if calls.makeDir.Kill? { return e, Died; }
    if calls.makeDir.Fails? { return e, Warned; }
    if !e.primary.Missing? {
      // mirror the current primary; a failing mirror is logged and ignored
      if calls.openBak.Kill? { return e, Died; }
      if calls.openBak.Done? {
        e := e.(bak := Torn);
        if calls.writeBak.Kill? { return e, Died; }
        if calls.writeBak.Done? {
          e := e.(bak := e.primary);
        }
      }
    }
    if calls.openTmp.Kill? { return e, Died; }
    if calls.openTmp.Fails? {
      e, end := RemoveTmp(e, calls.removeTmp);
      return;
    }
    e := e.(tmp := Torn);
    if calls.writeTmp.Kill? { return e, Died; }
    if calls.writeTmp.Fails? {
      e, end := RemoveTmp(e, calls.removeTmp);
      return;
    }
    e := e.(tmp := Good(v));
    if calls.publish.Kill? { return e, Died; }
    if calls.publish.Fails? {
      e, end := RemoveTmp(e, calls.removeTmp);
      return;
    }
    return e.(primary := e.tmp, tmp := Missing), Published;
  }
}

module RiskState {
  import opened Common
  import opened AtomicFiles

  /** A basis payload: the NAV it stores, the day if readable, and its two trust markers. */
  datatype Basis = Basis(value: real, day: Option<int>, schemaAtLeastOne: bool, basisValid: bool)

  datatype Memory = Memory(peak: real, previousClose: real, lastDay: Option<int>, trusted: bool)

  datatype Disk = Disk(peak: Files<real>, basis: Files<Basis>)

  /** One portfolio reading: the NAV, the book value of the positions, and the Moscow date. */
  datatype Reading = Reading(nav: real, positionsValue: real, today: int)

  datatype PortfolioState = PortfolioState(totalEquity: real, cash: real, peakEquity: real, dailyPnl: real)

  datatype Refusal = NavNotPositive | UntrustedBasis

  type Answer = Result<PortfolioState, Refusal>

  datatype Loaded<+T, +V> = Loaded(result: T, files: Files<V>)

  datatype Account = Account(memory: Memory, disk: Disk)

  /** Which of the attempts to rename an undecodable file aside succeed while loading. */
  datatype Moves = Moves(peakPrimary: bool, peakBak: bool, basisBak: bool)

  // ---------------------------------------------------------------- loading

  /** `_load_peak_equity`: the primary, else the mirror, else 0; an undecodable file is moved aside if it can be. */
  function RecoverPeak(d: Files<real>, m: Moves): Loaded<real, real> {
    match d.primary
    case Good(v) => Loaded(Max(v, 0.0), d)
    case _ =>
      var moved := if m.peakPrimary then d.(primary := Missing) else d;
      match d.bak
      case Good(v) => Loaded(Max(v, 0.0), moved)
      case _ => Loaded(0.0, if m.peakBak then moved.(bak := Missing) else moved)
  }

  predicate Trustworthy(b: Basis) {
    b.schemaAtLeastOne && b.basisValid && b.day.Some? && Max(b.value, 0.0) > 0.0
  }

  /** The basis fields of the account: previous close, last trading day, trusted. */
  datatype Anchor = Anchor(previousClose: real, lastDay: Option<int>, trusted: bool)

  function AnchorOf(b: Basis): Anchor {
    Anchor(Max(b.value, 0.0), b.day, Trustworthy(b))
  }

  const COLD := Anchor(0.0, None, false)

  /** `_load_daily_pnl_basis`: a missing primary is a cold start; only an undecodable one consults the mirror. */
  function RecoverBasis(d: Files<Basis>, m: Moves): Loaded<Anchor, Basis> {
    match d.primary
    case Good(b) => Loaded(AnchorOf(b), d)
    case Missing => Loaded(COLD, d)
    case Torn =>
      match d.bak
      case Good(b) => Loaded(AnchorOf(b), d)
      case _ => Loaded(COLD, if m.basisBak then d.(bak := Missing) else d)
  }

  /** A fresh process on the files `d`. */
  function Restart(d: Disk, m: Moves): Account {
    var p, b := RecoverPeak(d.peak, m), RecoverBasis(d.basis, m);
    Account(Memory(p.result, b.result.previousClose, b.result.lastDay, b.result.trusted), Disk(p.files, b.files))
  }

  // ------------------------------------------------ one call, writes succeed

  function Fetch(a: Account, r: Reading): (Account, Answer) {
    if r.nav <= 0.0 then (a, Err(NavNotPositive))
    else
      var m, d := a.memory, a.disk;
      var higher := r.nav > m.peak;
      var m1 := if higher then m.(peak := r.nav) else m;
      var d1 := if higher then d.(peak := Saved(d.peak, r.nav)) else d;
      var cash := Max(r.nav - r.positionsValue, 0.0);
      if m.lastDay == Some(r.today) then
        (Account(m1, d1), Ok(PortfolioState(r.nav, cash, m1.peak, r.nav - m.previousClose)))
      else if !m.trusted && m.lastDay.Some? then
        (Account(m1, d1), Err(UntrustedBasis))
      else
        var m2 := Memory(m1.peak, r.nav, Some(r.today), true);
        var d2 := d1.(basis := Saved(d.basis, Basis(r.nav, Some(r.today), true, true)));
        (Account(m2, d2), Ok(PortfolioState(r.nav, cash, m2.peak, 0.0)))
  }

  // ----------------------------------------------------- the account object

  class TinkoffAccount {
    var peakFiles: Files<real>
    var basisFiles: Files<Basis>
    var peakEquity: real
    var previousCloseEquity: real
    var lastTradingDay: Option<int>
    var basisTrusted: bool

    ghost function View(): Account
      reads this
    {
      Account(Memory(peakEquity, previousCloseEquity, lastTradingDay, basisTrusted), Disk(peakFiles, basisFiles))
    }

    constructor (peakFiles: Files<real>, basisFiles: Files<Basis>, m: Moves)
      ensures View() == Restart(Disk(peakFiles, basisFiles), m)
    {
      this.peakFiles, this.basisFiles := peakFiles, basisFiles;
      peakEquity, previousCloseEquity, lastTradingDay, basisTrusted := 0.0, 0.0, None, false;
      new;
      LoadPeakEquity(m);
      LoadDailyPnlBasis(m);
    }

    method LoadPeakEquity(m: Moves)
      modifies this`peakFiles, this`peakEquity
      ensures peakEquity == RecoverPeak(old(peakFiles), m).result
      ensures peakFiles == RecoverPeak(old(peakFiles), m).files
    {
      if peakFiles.primary.Good? {
        peakEquity := Max(peakFiles.primary.value, 0.0);
        return;
      }
      if m.peakPrimary {
        peakFiles := peakFiles.(primary := Missing);
      }
      if peakFiles.bak.Good? {
        peakEquity := Max(peakFiles.bak.value, 0.0);
        return;
      }
      if m.peakBak {
        peakFiles := peakFiles.(bak := Missing);
      }
      peakEquity := 0.0;
    }

    method LoadDailyPnlBasis(m: Moves)
      requires previousCloseEquity == 0.0 && lastTradingDay == None && !basisTrusted
      modifies this`basisFiles, this`previousCloseEquity, this`lastTradingDay, this`basisTrusted
      ensures Anchor(previousCloseEquity, lastTradingDay, basisTrusted) == RecoverBasis(old(basisFiles), m).result
      ensures basisFiles == RecoverBasis(old(basisFiles), m).files
    {
      if basisFiles.primary.Missing? {
        return;
      }
      if basisFiles.primary.Torn? {
        if !basisFiles.bak.Good? {
          if m.basisBak {
            basisFiles := basisFiles.(bak := Missing);
          }
          return;
        }
      }
      var b := if basisFiles.primary.Torn? then basisFiles.bak.value else basisFiles.primary.value;
      previousCloseEquity := Max(b.value, 0.0);
      lastTradingDay := b.day;
      basisTrusted := b.schemaAtLeastOne && b.basisValid && b.day.Some? && previousCloseEquity > 0.0;
    }

    /** `_save_peak_equity`. */
    method SavePeakEquity(calls: Calls) returns (end: SaveEnd)
      modifies this`peakFiles
      ensures MayLeave(old(peakFiles), peakEquity, peakFiles, end)
      ensures calls == ALL_DONE ==> end == Published && peakFiles == Saved(old(peakFiles), peakEquity)
    {
      peakFiles, end := Save(peakFiles, peakEquity, calls);
    }

    /** `_save_daily_pnl_basis`, which stamps the payload as a valid version-1 record. */
    method SaveDailyPnlBasis(calls: Calls) returns (end: SaveEnd)
      modifies this`basisFiles
      ensures MayLeave(old(basisFiles), Basis(previousCloseEquity, lastTradingDay, true, true), basisFiles, end)
      ensures calls == ALL_DONE ==>
                basisFiles == Saved(old(basisFiles), Basis(previousCloseEquity, lastTradingDay, true, true))
    {
      basisFiles, end := Save(basisFiles, Basis(previousCloseEquity, lastTradingDay, true, true), calls);
    }

    /**
     `_fetch_real_portfolio_state` on one broker reading. File errors are only logged: answer and memory do not depend
     on them.
     */
    method FetchRealPortfolioState(r: Reading, peakCalls: Calls, basisCalls: Calls) returns (answer: Answer)
      requires Survives(peakCalls) && Survives(basisCalls)
      modifies this
      ensures answer == Fetch(old(View()), r).1
      ensures View().memory == Fetch(old(View()), r).0.memory
      ensures peakCalls == basisCalls == ALL_DONE ==> View() == Fetch(old(View()), r).0
    {
      if r.nav <= 0.0 {
        return Err(NavNotPositive);
      }
      if r.nav > peakEquity {
        peakEquity := r.nav;
        var _ := SavePeakEquity(peakCalls);
      }
      var freeCash := r.nav - r.positionsValue;
      if freeCash < 0.0 {
        freeCash := 0.0;
      }
      var dailyPnl;
      if lastTradingDay != Some(r.today) {
        if !basisTrusted && lastTradingDay != None {
          return Err(UntrustedBasis);
        }
        previousCloseEquity, lastTradingDay, basisTrusted := r.nav, Some(r.today), true;
        var _ := SaveDailyPnlBasis(basisCalls);
        dailyPnl := 0.0;
      } else {
        dailyPnl := r.nav - previousCloseEquity;
      }
      answer := Ok(PortfolioState(r.nav, freeCash, peakEquity, dailyPnl));
    }
  }
}
