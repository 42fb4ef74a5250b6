/** The interval timers and the CAN poll, and how far the clock may jump while the processor is halted. */
module ClockSkip {
  import opened Common
  import R = ClockRuns

  datatype State = Stop | Ready | Running
  datatype Mode = Freerun | Interval

  /** A 32-bit interval timer that counts once every fd clocks. */
  datatype Timer = Timer(cnt: nat, regCnt: nat, state: State, mode: Mode, compare: nat, start: nat, fd: nat)

  predicate WellFormed(t: Timer) {
    t.fd > 0 && t.compare < 0x1_0000_0000
  }

  function Start(t: Timer, clock: nat): Timer {
    if t.state.Ready? then
      if t.start == 0 || t.mode.Interval? then t.(state := Running, start := clock) else t.(state := Running)
    else t
  }

  /** The update at a counting clock, and whether it raises the interrupt. */
  function Update(t: Timer, clock: nat): (Timer, bool)
    requires WellFormed(t) && t.start <= clock
  {
    var u := Start(t, clock);
    var cnt := (clock - u.start) / u.fd % 0x1_0000_0000;
    var v := u.(cnt := cnt);
    if v.state.Running? && v.mode.Interval? then
      var w := v.(regCnt := (v.compare - cnt) % 0x1_0000_0000);
      if cnt >= w.compare then (w.(state := Ready), true) else (w, false)
    else (v, false)
  }

  /** One clock of a timer. */
  function Tick(t: Timer, clock: nat): (r: (Timer, bool))
    requires WellFormed(t) && t.start <= clock
    ensures WellFormed(r.0) && r.0.start <= clock
  {
    if clock % t.fd == 0 then Update(t, clock) else (t, false)
  }

  /** The clock at which a running timer is due. */
  function Due(t: Timer): nat {
    t.start + t.compare * t.fd
  }

  /** The interval that one timer asks for. */
  function Wish(t: Timer, clock: nat): nat
    requires t.start <= clock
  {
    if clock <= Due(t) then Due(t) - clock else 1
  }

  /** The smaller of a wish and the interval so far.  It is never zero. */
  function Shorter(wish: nat, min: nat): nat {
    if wish < min then (if wish == 0 then 1 else wish) else min
  }

  function AskTimer(t: Timer, clock: nat, min: nat): nat
    requires t.start <= clock
  {
    if t.state.Stop? then min else Shorter(Wish(t, clock), min)
  }

  /** The interval with the CAN poll taken into account.  At a poll clock itself it adds nothing. */
  function AskCan(canFd: nat, clock: nat, min: nat): nat {
    if canFd == 0 || clock % canFd == 0 then min
    else Shorter((clock + (canFd - 1)) / canFd * canFd - clock, min)
  }

  // ---------- one timer ----------

  /** A timer as it is left by a tick at this clock: a running one started on a counting clock and is not
      due yet, and a ready one has just been due, so that it asks for single steps. */
  predicate Settled(t: Timer, clock: nat) {
    && WellFormed(t) && t.mode.Interval? && t.start <= clock
    && (t.state.Running? ==> t.start % t.fd == 0 && clock < Due(t))
    && (t.state.Ready? ==> Due(t) <= clock)
  }

  /** A timer without the count that it shows. */
  function Essence(t: Timer): Timer {
    t.(cnt := 0, regCnt := 0)
  }

  lemma TickAlike(a: Timer, b: Timer, clock: nat)
    requires WellFormed(a) && WellFormed(b) && a.start <= clock && Essence(a) == Essence(b)
    ensures Essence(Tick(a, clock).0) == Essence(Tick(b, clock).0) && Tick(a, clock).1 == Tick(b, clock).1
  {}

  /** A tick keeps a timer settled when no counting clock at which it was due has been passed. */
  lemma TickSettles(t: Timer, clock: nat, u: nat)
    requires Settled(t, clock) && clock < u && (t.state.Running? ==> u <= Due(t))
    ensures Settled(Tick(t, u).0, u)
  {
    if u % t.fd == 0 {
      var s := Start(t, u);
      QuotientBelow(u - s.start, s.compare, s.fd);
      if !t.state.Stop? {
        CountFits(u - s.start, s.compare, s.fd);
      }
    } else if t.state.Running? {
      DueIsCounting(t);
    }
  }

  lemma CountFits(x: nat, k: nat, fd: nat)
    requires fd > 0 && x <= k * fd && k < 0x1_0000_0000
    ensures x / fd <= k && x / fd % 0x1_0000_0000 == x / fd
  {
    QuotientBelow(x, k + 1, fd);
    assert (k + 1) * fd == k * fd + fd;
  }

  /** A timer that started on a counting clock is due on one. */
  lemma DueIsCounting(t: Timer)
    requires WellFormed(t) && t.start % t.fd == 0
    ensures Due(t) % t.fd == 0
  {
    var q := t.start / t.fd;
    assert t.start == q * t.fd;
    assert Due(t) == (q + t.compare) * t.fd;
    MultipleOf(q + t.compare, t.fd);
  }

  lemma {:induction false} MultipleOf(k: nat, fd: nat)
    requires fd > 0
    ensures k * fd % fd == 0
  {
    if k > 0 {
      MultipleOf(k - 1, fd);
      assert k * fd == (k - 1) * fd + fd;
      AddPeriod((k - 1) * fd, fd);
    }
  }

  lemma AddPeriod(x: nat, fd: nat)
    requires fd > 0
    ensures (x + fd) % fd == x % fd
  {
    var q, r := x / fd, x % fd;
    assert x + fd == (q + 1) * fd + r by { assert (q + 1) * fd == q * fd + fd; }
    QuotientBelow(x + fd, q + 2, fd);
    QuotientBelow(x + fd, q + 1, fd);
    assert (q + 2) * fd == (q + 1) * fd + fd;
    assert (x + fd) / fd == q + 1;
  }

  /** Before it is due a running timer raises nothing and only its count changes; a stopped one likewise. */
  lemma QuietTimer(t: Timer, clock: nat, u: nat)
    requires Settled(t, clock) && clock < u && (t.state.Running? ==> u < Due(t)) && !t.state.Ready?
    ensures Essence(Tick(t, u).0) == Essence(t) && !Tick(t, u).1
  {
    if u % t.fd == 0 {
      QuotientBelow(u - t.start, t.compare, t.fd);
      if t.state.Running? {
        CountFits(u - t.start, t.compare, t.fd);
      }
    }
  }

  /** At the clock at which it is due a running timer raises its interrupt. */
  lemma FiresWhenDue(t: Timer, clock: nat)
    requires Settled(t, clock) && t.state.Running?
    ensures Tick(t, Due(t)).1
  {
    DueIsCounting(t);
    QuotientBelow(Due(t) - t.start, t.compare, t.fd);
    CountFits(Due(t) - t.start, t.compare, t.fd);
  }

  // ---------- the devices together ----------

  /** The two timers in use, and the polling period of the CAN controller, 0 when it is not enabled. */
  datatype Devices = Devices(t0: Timer, t1: Timer, canFd: nat)

  /** What happens at a clock: the two timer interrupts and the CAN poll. */
  datatype Happening = Happening(fire0: bool, fire1: bool, poll: bool)

  const NOTHING := Happening(false, false, false)

  predicate Usable(d: Devices, clock: nat) {
    WellFormed(d.t0) && WellFormed(d.t1) && d.t0.start <= clock && d.t1.start <= clock
  }

  function Supply(d: Devices, clock: nat): (r: (Devices, Happening))
    requires Usable(d, clock)
    ensures Usable(r.0, clock) && r.0.canFd == d.canFd
  {
    var a := Tick(d.t0, clock);
    var b := Tick(d.t1, clock);
    (Devices(a.0, b.0, d.canFd), Happening(a.1, b.1, d.canFd > 0 && clock % d.canFd == 0))
  }

  /** The interval to the next clock that must be visited, while the processor is halted. */
  function Jump(d: Devices, clock: nat, max: nat): nat
    requires Usable(d, clock)
  {
    AskCan(d.canFd, clock, AskTimer(d.t1, clock, AskTimer(d.t0, clock, max)))
  }

  predicate SettledAll(d: Devices, clock: nat) {
    Settled(d.t0, clock) && Settled(d.t1, clock)
  }

  function EssenceAll(d: Devices): Devices {
    Devices(Essence(d.t0), Essence(d.t1), d.canFd)
  }

  /** The interval is at least 1 and does not reach beyond the wish of either timer. */
  lemma JumpBounds(d: Devices, clock: nat, max: nat)
    requires SettledAll(d, clock) && max >= 1
    ensures 1 <= Jump(d, clock, max) <= max
    ensures d.t0.state.Ready? || d.t1.state.Ready? ==> Jump(d, clock, max) == 1
    ensures d.t0.state.Running? ==> clock + Jump(d, clock, max) <= Due(d.t0)
    ensures d.t1.state.Running? ==> clock + Jump(d, clock, max) <= Due(d.t1)
  {}

  /** The next poll after a clock that is not one. */
  lemma NextPoll(clock: nat, fd: nat)
    requires fd > 0 && clock % fd != 0
    ensures var next := (clock + (fd - 1)) / fd * fd;
            clock < next && next % fd == 0 && forall u :: clock < u < next ==> u % fd != 0
  {
    var q, r := clock / fd, clock % fd;
    assert clock == q * fd + r;
    assert (q + 1) * fd == q * fd + fd && (q + 2) * fd == q * fd + 2 * fd;
    QuotientBelow(clock + (fd - 1), q + 2, fd);
    QuotientBelow(clock + (fd - 1), q + 1, fd);
    MultipleOf(q + 1, fd);
    forall u | clock < u < (q + 1) * fd ensures u % fd != 0 {
      NotMultiple(u, q, fd);
    }
  }

  lemma NotMultiple(u: nat, q: nat, fd: nat)
    requires fd > 0 && q * fd < u < (q + 1) * fd
    ensures u % fd != 0
  {
    QuotientBelow(u, q + 1, fd);
    if u / fd < q {
      QuotientBelow(u, q, fd);
    }
    assert u == u / fd * fd + u % fd;
  }

  /** Is no clock strictly between this one and the end of the jump a poll? */
  predicate NoPollJumped(d: Devices, clock: nat, m: nat) {
    d.canFd > 0 ==> forall u :: clock < u < clock + m ==> u % d.canFd != 0
  }

  /** Does a timer ask for an interval of n or less? */
  predicate AsksWithin(t: Timer, clock: nat, n: nat)
    requires t.start <= clock
  {
    !t.state.Stop? && Wish(t, clock) <= n
  }

  /** At a poll clock something else asks for an interval no longer than the polling period. */
  predicate PollKept(d: Devices, clock: nat, max: nat)
    requires Usable(d, clock)
  {
    && d.canFd > 0 && clock % d.canFd == 0
    ==> max <= d.canFd || AsksWithin(d.t0, clock, d.canFd) || AsksWithin(d.t1, clock, d.canFd)
  }

  /** A jump passes over a poll exactly when it starts on a poll clock and neither a timer nor the longest
      interval keeps it within the polling period: at a poll clock the poll itself asks for nothing. */
  lemma PollJumped(d: Devices, clock: nat, max: nat)
    requires Usable(d, clock) && max >= 1
    ensures NoPollJumped(d, clock, Jump(d, clock, max)) <==> PollKept(d, clock, max)
  {
    var m := Jump(d, clock, max);
    if d.canFd > 0 {
      if clock % d.canFd != 0 {
        NextPoll(clock, d.canFd);
      } else {
        NextMultiple(clock, d.canFd);
        assert m <= d.canFd <==> PollKept(d, clock, max);
        if m > d.canFd {
          assert clock < clock + d.canFd < clock + m;
        }
      }
    }
  }

  /** The next multiple after a clock, multiple or not. */
  function After(clock: nat, fd: nat): nat
    requires fd > 0
  {
    clock / fd * fd + fd
  }

  lemma NextMultiple(clock: nat, fd: nat)
    requires fd > 0
    ensures clock < After(clock, fd) <= clock + fd && After(clock, fd) % fd == 0
    ensures clock % fd == 0 ==> After(clock, fd) == clock + fd
    ensures forall u :: clock < u < After(clock, fd) ==> u % fd != 0
  {
    var q := clock / fd;
    assert clock == q * fd + clock % fd && (q + 1) * fd == q * fd + fd;
    MultipleOf(q + 1, fd);
    forall u | clock < u < After(clock, fd) ensures u % fd != 0 {
      NotMultiple(u, q, fd);
    }
  }

  // ---------- a timer with an old start ----------

  /** Is the n-th next clock beyond reach of the wishes of the other timer, the poll and the longest interval? */
  predicate NothingWithin(d: Devices, other: Timer, clock: nat, max: nat, n: nat)
    requires other.start <= clock
  {
    && max > n && !AsksWithin(other, clock, n)
    && (d.canFd > 0 && clock % d.canFd != 0 ==> (clock + (d.canFd - 1)) / d.canFd * d.canFd - clock > n)
  }

  /** A timer that software has made ready ought to start at the next counting clock.  The jump passes over that
      clock if and only if the due clock of its old start lies beyond it, and so does all that the other timer,
      the poll and the longest interval ask for. */
  lemma StaleStart(d: Devices, clock: nat, max: nat)
    requires Usable(d, clock) && max >= 1 && d.t0.state.Ready?
    ensures var next := After(clock, d.t0.fd);
            next < clock + Jump(d, clock, max) <==>
            next < Due(d.t0) && NothingWithin(d, d.t1, clock, max, next - clock)
  {
    NextMultiple(clock, d.t0.fd);
    if d.canFd > 0 && clock % d.canFd != 0 {
      NextPoll(clock, d.canFd);
    }
  }

  /** Both timers have the same part in the interval, so this holds for either of them. */
  lemma TimersAlike(d: Devices, clock: nat, max: nat)
    requires Usable(d, clock) && max >= 1
    ensures Jump(d, clock, max) == Jump(Devices(d.t1, d.t0, d.canFd), clock, max)
  {}

  /** The timer starts when that clock is visited. */
  lemma StartsWhenVisited(t: Timer, clock: nat)
    requires WellFormed(t) && t.start <= clock && t.state.Ready? && t.mode.Interval? && t.compare > 0
    ensures var next := After(clock, t.fd);
            Tick(t, next).0.state.Running? && Tick(t, next).0.start == next
  {
    NextMultiple(clock, t.fd);
    StartsAt(t, After(clock, t.fd));
  }

  lemma StartsAt(t: Timer, u: nat)
    requires WellFormed(t) && t.start <= u && t.state.Ready? && t.mode.Interval? && t.compare > 0 && u % t.fd == 0
    ensures Tick(t, u).0.state.Running? && Tick(t, u).0.start == u
  {}

  /** A case of a late start: made ready at clock 5 with start 0, a count of 100 and 10 clocks to a count, the
      timer should start at clock 10, but the processor is given clock 1000 next. */
  lemma LateStart()
    ensures var t := Timer(0, 0, Ready, Interval, 100, 0, 10);
            var d := Devices(t, Timer(0, 0, Stop, Interval, 0, 0, 10), 0);
            && Jump(d, 5, 1_000_000) == 995
            && Tick(t, 10).0.start == 10 && Due(Tick(t, 10).0) == 1010
            && Tick(t, 1000).0.start == 1000 && Due(Tick(t, 1000).0) == 2000
  {}

  // ---------- jumping against visiting every clock ----------

  /** A clock that the devices are given, for use as a function value. */
  function SupplyAt(d: Devices, clock: nat): (Devices, Happening) {
    if Usable(d, clock) then Supply(d, clock) else (d, NOTHING)
  }

  function System(max: nat): R.System<Devices, Happening> {
    R.System(SupplyAt, (d, clock) => JumpAt(d, clock, max), EssenceAll, SettledAll, NOTHING)
  }

  function JumpAt(d: Devices, clock: nat, max: nat): nat {
    if Usable(d, clock) then Jump(d, clock, max) else 1
  }

  lemma SupplyAlike(a: Devices, b: Devices, clock: nat)
    requires EssenceAll(a) == EssenceAll(b)
    ensures EssenceAll(SupplyAt(a, clock).0) == EssenceAll(SupplyAt(b, clock).0)
    ensures SupplyAt(a, clock).1 == SupplyAt(b, clock).1
  {
    assert a.t0 == b.t0.(cnt := a.t0.cnt, regCnt := a.t0.regCnt) &&
           a.t1 == b.t1.(cnt := a.t1.cnt, regCnt := a.t1.regCnt);
    if Usable(a, clock) {
      TickAlike(a.t0, b.t0, clock);
      TickAlike(a.t1, b.t1, clock);
    }
  }

  /** Inside a jump the timers raise nothing and keep what matters; a poll is all that can happen. */
  lemma SupplyInside(d: Devices, clock: nat, max: nat, u: nat)
    requires SettledAll(d, clock) && max >= 1 && clock < u < clock + Jump(d, clock, max)
    ensures EssenceAll(SupplyAt(d, u).0) == EssenceAll(d)
    ensures SupplyAt(d, u).1 == Happening(false, false, d.canFd > 0 && u % d.canFd == 0)
  {
    JumpBounds(d, clock, max);
    QuietTimer(d.t0, clock, u);
    QuietTimer(d.t1, clock, u);
  }

  lemma SupplySettles(d: Devices, clock: nat, max: nat)
    requires SettledAll(d, clock) && max >= 1
    ensures var u := clock + Jump(d, clock, max);
            u > clock && SettledAll(SupplyAt(d, u).0, u)
  {
    JumpBounds(d, clock, max);
    TickSettles(d.t0, clock, clock + Jump(d, clock, max));
    TickSettles(d.t1, clock, clock + Jump(d, clock, max));
  }

  lemma SystemLawful(max: nat)
    requires max >= 1
    ensures R.Lawful(System(max))
  {
    var y := System(max);
    forall a, b, clock: nat ensures R.SameFate(y, a, b, clock) {
      if EssenceAll(a) == EssenceAll(b) {
        SupplyAlike(a, b, clock);
      }
    }
    forall d, clock: nat, u: nat ensures R.KeepsEssence(y, d, clock, u) {
      if SettledAll(d, clock) && clock < u < clock + Jump(d, clock, max) {
        SupplyInside(d, clock, max, u);
      }
    }
    forall d, clock: nat ensures R.Lands(y, d, clock) {
      if SettledAll(d, clock) {
        SupplySettles(d, clock, max);
      }
    }
  }

  lemma CalmIsPollKept(d: Devices, clock: nat, max: nat)
    requires SettledAll(d, clock) && max >= 1
    ensures R.Calm(System(max), d, clock) <==> PollKept(d, clock, max)
  {
    var y := System(max);
    PollJumped(d, clock, max);
    forall u | clock < u < clock + Jump(d, clock, max)
      ensures R.QuietAt(y, d, u) <==> !(d.canFd > 0 && u % d.canFd == 0)
    {
      SupplyInside(d, clock, max, u);
    }
    if d.canFd > 0 && !NoPollJumped(d, clock, Jump(d, clock, max)) {
      var u :| clock < u < clock + Jump(d, clock, max) && u % d.canFd == 0;
      assert !R.QuietAt(y, d, u);
    }
  }

  type Ticking = R.Run<Devices, Happening>

  /** The test that PollKept makes, for use as a function value. */
  function KeepsPoll(max: nat): (Devices, nat) -> bool {
    (d: Devices, clock: nat) => Usable(d, clock) ==> PollKept(d, clock, max)
  }

  lemma KeepsPollTests(max: nat)
    requires max >= 1
    ensures R.Test(System(max), KeepsPoll(max))
  {
    forall d, clock: nat ensures R.Judged(System(max), KeepsPoll(max), d, clock) {
      if SettledAll(d, clock) {
        CalmIsPollKept(d, clock, max);
      }
    }
  }

  /** For every longest interval and over any number of jumps: jumping raises the same interrupts and makes the
      same polls at the same clocks as visiting every clock, if and only if no jump starts on a poll clock with
      nothing to keep it within the polling period. */
  lemma JumpsAreWalks(r: Ticking, max: nat, k: nat)
    requires SettledAll(r.d, r.clock) && max >= 1
    ensures R.JumpsAgree(System(max), r, k) <==>
            forall i :: 0 <= i < k ==> R.CalmAt(System(max), KeepsPoll(max), r, i)
  {
    SystemLawful(max);
    KeepsPollTests(max);
    R.AgreeByTest(System(max), KeepsPoll(max), r, k);
  }

  /** A jump that does makes the log shorter: polls are missing from it. */
  lemma PollsMissing(r: Ticking, max: nat, k: nat, i: nat)
    requires SettledAll(r.d, r.clock) && max >= 1 && i < k && !R.CalmAt(System(max), KeepsPoll(max), r, i)
    ensures R.LogLacks(System(max), r, k)
  {
    SystemLawful(max);
    KeepsPollTests(max);
    R.LostByTest(System(max), KeepsPoll(max), r, k, i);
  }

  /** A case of missing polls: with both timers stopped, a jump from a poll clock that may be longer than the
      polling period leaves out the next poll. */
  lemma PollMissed(max: nat, fd: nat)
    requires 0 < fd < max
    ensures var t := Timer(0, 0, Stop, Interval, 0, 0, fd);
            var r := R.Run(Devices(t, t, fd), 0, []);
            SettledAll(r.d, 0) && Jump(r.d, 0, max) == max && !R.JumpsAgree(System(max), r, 1)
  {
    var t := Timer(0, 0, Stop, Interval, 0, 0, fd);
    var r := R.Run(Devices(t, t, fd), 0, []);
    assert R.Jumps(System(max), r, 0) == r;
    assert !R.CalmAt(System(max), KeepsPoll(max), r, 0);
    JumpsAreWalks(r, max, 1);
  }

  // ---------- the interrupts alone ----------

  function InterruptsAt(d: Devices, clock: nat): (Devices, Happening) {
    var s := SupplyAt(d, clock);
    (s.0, s.1.(poll := false))
  }

  /** The same devices with the polls left out of the log. */
  function Interrupts(max: nat): R.System<Devices, Happening> {
    R.System(InterruptsAt, (d, clock) => JumpAt(d, clock, max), EssenceAll, SettledAll, NOTHING)
  }

  lemma InterruptsLawful(max: nat)
    requires max >= 1
    ensures R.Lawful(Interrupts(max))
  {
    var y := Interrupts(max);
    forall a, b, clock: nat ensures R.SameFate(y, a, b, clock) {
      if EssenceAll(a) == EssenceAll(b) {
        SupplyAlike(a, b, clock);
      }
    }
    forall d, clock: nat, u: nat ensures R.KeepsEssence(y, d, clock, u) {
      if SettledAll(d, clock) && clock < u < clock + Jump(d, clock, max) {
        SupplyInside(d, clock, max, u);
      }
    }
    forall d, clock: nat ensures R.Lands(y, d, clock) {
      if SettledAll(d, clock) {
        SupplySettles(d, clock, max);
      }
    }
  }

  predicate Always(d: Devices, clock: nat) {
    true
  }

  lemma InterruptsTest(max: nat)
    requires max >= 1
    ensures R.Test(Interrupts(max), Always)
  {
    forall d, clock: nat ensures R.Judged(Interrupts(max), Always, d, clock) {
      if SettledAll(d, clock) {
        forall u | clock < u < clock + Jump(d, clock, max) ensures R.QuietAt(Interrupts(max), d, u) {
          SupplyInside(d, clock, max, u);
        }
      }
    }
  }

  /** Timer interrupts are never missed: without any condition, jumping raises them at the same clocks as visiting
      every clock. */
  lemma InterruptsAgree(r: Ticking, max: nat, k: nat)
    requires SettledAll(r.d, r.clock) && max >= 1
    ensures R.JumpsAgree(Interrupts(max), r, k)
  {
    InterruptsLawful(max);
    InterruptsTest(max);
    R.AgreeByTest(Interrupts(max), Always, r, k);
  }
}
