/** The count of a running timer that software reads after a clock jump. */
module ClockCounts {
  import opened ClockSkip
  import opened Common

  /** The timer after each of the next n clocks. */
  function TickEach(t: Timer, clock: nat, n: nat): (r: Timer)
    requires WellFormed(t) && t.start <= clock
    ensures WellFormed(r) && r.start <= clock + n
  {
    if n == 0 then t else Tick(TickEach(t, clock, n - 1), clock + n).0
  }

  function Periods(t: Timer, clock: nat): nat
    requires t.fd > 0 && t.start <= clock
  {
    (clock - t.start) / t.fd
  }

  /** The counts shown are those of this clock: upwards from the start, and downwards to the compare
      value. */
  predicate Counted(t: Timer, clock: nat)
    requires t.fd > 0 && t.start <= clock
  {
    t.cnt == Periods(t, clock) && t.regCnt == (t.compare - t.cnt) % 0x1_0000_0000
  }

  /** A new period begins at counting clocks only. */
  lemma PeriodsStep(t: Timer, clock: nat)
    requires t.fd > 0 && t.start % t.fd == 0 && t.start <= clock && (clock + 1) % t.fd != 0
    ensures Periods(t, clock + 1) == Periods(t, clock)
  {
    PeriodsFrom(t, clock);
    PeriodsFrom(t, clock + 1);
    SamePeriod(clock, t.fd);
  }

  /** Counted from a start on a counting clock the periods are those of the clock itself. */
  lemma PeriodsFrom(t: Timer, clock: nat)
    requires t.fd > 0 && t.start % t.fd == 0 && t.start <= clock
    ensures Periods(t, clock) == clock / t.fd - t.start / t.fd
  {
    var q, p := clock / t.fd, t.start / t.fd;
    QuotientOrder(t.start, clock, t.fd);
    assert t.start == p * t.fd && clock == q * t.fd + clock % t.fd;
    assert q * t.fd - p * t.fd == (q - p) * t.fd;
    QuotientFits(clock - t.start, q - p, clock % t.fd, t.fd);
  }

  lemma SamePeriod(clock: nat, fd: nat)
    requires fd > 0 && (clock + 1) % fd != 0
    ensures (clock + 1) / fd == clock / fd
  {
    var q, r := (clock + 1) / fd, (clock + 1) % fd;
    assert clock + 1 == q * fd + r;
    QuotientFits(clock, q, r - 1, fd);
  }

  /** A tick of a running timer that is not due yet. */
  lemma TickCounts(t: Timer, u: nat)
    requires WellFormed(t) && t.mode.Interval? && t.state.Running? && t.start <= u < Due(t)
    ensures Tick(t, u).0 ==
            if u % t.fd == 0 then t.(cnt := Periods(t, u), regCnt := (t.compare - Periods(t, u)) % 0x1_0000_0000) else t
  {
    if u % t.fd == 0 {
      QuotientBelow(u - t.start, t.compare, t.fd);
      CountFits(u - t.start, t.compare, t.fd);
    }
  }

  lemma TickKeepsCounted(t: Timer, p: Timer, u: nat)
    requires WellFormed(t) && t.mode.Interval? && t.state.Running? && t.start % t.fd == 0 && t.start < u < Due(t)
    requires p == t.(cnt := p.cnt, regCnt := p.regCnt) && Counted(p, u - 1)
    ensures var r := Tick(p, u).0; r == t.(cnt := r.cnt, regCnt := r.regCnt) && Counted(r, u)
  {
    TickCounts(p, u);
    if u % t.fd != 0 {
      PeriodsStep(p, u - 1);
    }
  }

  /** Visiting every clock keeps the counts right. */
  lemma {:induction false} WalkCounts(t: Timer, clock: nat, n: nat)
    requires Settled(t, clock) && t.state.Running? && Counted(t, clock) && clock + n < Due(t)
    ensures var r := TickEach(t, clock, n);
            r == t.(cnt := r.cnt, regCnt := r.regCnt) && Counted(r, clock + n)
  {
    if n > 0 {
      WalkCounts(t, clock, n - 1);
      TickKeepsCounted(t, TickEach(t, clock, n - 1), clock + n);
    }
  }

  /** A jump leaves the same counts as visiting every clock if and only if it ends at a counting clock, or
      passes over none. */
  lemma CountsAgree(t: Timer, clock: nat, n: nat)
    requires Settled(t, clock) && t.state.Running? && Counted(t, clock) && n > 0 && clock + n < Due(t)
    ensures Tick(t, clock + n).0 == TickEach(t, clock, n) <==>
            (clock + n) % t.fd == 0 || (clock + n) / t.fd == clock / t.fd
  {
    var u := clock + n;
    var w := TickEach(t, clock, n);
    WalkCounts(t, clock, n);
    TickCounts(t, u);
    PeriodsFrom(t, clock);
    PeriodsFrom(t, u);
  }

  /** At the clock at which the timer is due jump and walk agree entirely. */
  lemma DueAgrees(t: Timer, clock: nat, n: nat)
    requires Settled(t, clock) && t.state.Running? && Counted(t, clock) && n > 0 && clock + n == Due(t)
    ensures Tick(t, clock + n).0 == TickEach(t, clock, n)
  {
    var p := TickEach(t, clock, n - 1);
    WalkCounts(t, clock, n - 1);
    DueIsCounting(t);
  }

  /** A jump of 25 clocks with 10 clocks to a count: the count should be at 98, and still shows 100. */
  lemma StaleCount(t: Timer, n: nat)
    requires t == Timer(0, 100, Running, Interval, 100, 0, 10) && n == 25
    ensures Settled(t, 0) && Counted(t, 0)
    ensures Tick(t, n).0.regCnt == 100 && TickEach(t, 0, n).regCnt == 98
  {
    TickCounts(t, n);
    assert Due(t) == 1000;
    WalkCounts(t, 0, n);
    assert Periods(t, n) == 2;
  }
}
