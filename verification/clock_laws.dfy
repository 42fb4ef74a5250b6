/** What the interval timers do in the long run, and the interval that the clock is given, said in clocks. */
module ClockLaws {
  import opened ClockSkip
  import opened ClockCounts
  import opened Common

  /** The clocks among the next n at which a timer raises its interrupt, when every clock is visited. */
  function Interrupts(t: Timer, clock: nat, n: nat): seq<nat>
    requires WellFormed(t) && t.start <= clock
  {
    if n == 0 then []
    else Interrupts(t, clock, n - 1) + if Tick(TickEach(t, clock, n - 1), clock + n).1 then [clock + n] else []
  }

  /** A timer of the settings of t after clock c, with its next interrupt at clock due: it runs towards it,
      or it has fired and waits for the next counting clock to start again. */
  predicate Phase(t: Timer, r: Timer, c: nat, due: nat) {
    && WellFormed(t) && t.mode.Interval? && t.compare > 0
    && r.fd == t.fd && r.compare == t.compare && r.mode == t.mode && r.start <= c
    && due % t.fd == 0 && due >= t.compare * t.fd
    && (if r.state.Running? then r.start == due - t.compare * t.fd && c < due
        else r.state.Ready? && due - t.compare * t.fd - t.fd <= c < due - t.compare * t.fd)
  }

  lemma {:induction false} LessPeriods(x: nat, k: nat, fd: nat)
    requires fd > 0 && x % fd == 0 && k * fd <= x
    ensures (x - k * fd) % fd == 0
  {
    if k > 0 {
      assert k * fd == (k - 1) * fd + fd;
      LessPeriods(x, k - 1, fd);
      AddPeriod(x - k * fd, fd);
    }
  }

  lemma RunningStep(t: Timer, r: Timer, c: nat, due: nat)
    requires Phase(t, r, c, due) && r.state.Running?
    ensures var p := Tick(r, c + 1);
            (p.1 <==> c + 1 == due) && (!p.1 ==> Phase(t, p.0, c + 1, due)) &&
            (p.1 ==> p.0.state.Ready? && p.0.fd == t.fd && p.0.compare == t.compare && p.0.mode == t.mode)
  {
    var u := c + 1;
    if u % t.fd == 0 {
      QuotientBelow(u - r.start, t.compare, t.fd);
      CountFits(u - r.start, t.compare, t.fd);
    }
  }

  lemma OnlyMultiple(u: nat, m: nat, fd: nat)
    requires fd > 0 && m % fd == 0 && m >= fd && m - fd < u <= m && u % fd == 0
    ensures u == m
  {
    var q := m / fd;
    assert m == q * fd && m - fd == (q - 1) * fd;
    if u < m {
      NotMultiple(u, q - 1, fd);
    }
  }

  lemma ReadyStep(t: Timer, r: Timer, c: nat, due: nat)
    requires Phase(t, r, c, due) && r.state.Ready? && due >= t.compare * t.fd + t.fd
    ensures var p := Tick(r, c + 1); !p.1 && Phase(t, p.0, c + 1, due)
  {
    var u, m := c + 1, due - t.compare * t.fd;
    LessPeriods(due, t.compare, t.fd);
    if u % t.fd == 0 {
      OnlyMultiple(u, m, t.fd);
      assert (u - u) / t.fd == 0;
    } else {
      assert u != m;
    }
  }

  /** One period from an interrupt to the next. */
  function Period(t: Timer): nat { (t.compare + 1) * t.fd }

  lemma NextPhase(t: Timer, due: nat)
    requires WellFormed(t) && due % t.fd == 0 && due >= t.compare * t.fd
    ensures (due + Period(t)) % t.fd == 0 && due + Period(t) - t.compare * t.fd - t.fd == due
  {
    assert Period(t) == t.compare * t.fd + t.fd;
    MultiplesAdd(due, t.compare + 1, t.fd);
  }

  lemma {:induction false} MultiplesAdd(x: nat, k: nat, fd: nat)
    requires fd > 0 && x % fd == 0
    ensures (x + k * fd) % fd == 0
  {
    if k > 0 {
      MultiplesAdd(x, k - 1, fd);
      assert k * fd == (k - 1) * fd + fd;
      AddPeriod(x + (k - 1) * fd, fd);
    }
  }

  lemma PhaseStep(t: Timer, r: Timer, c: nat, due: nat)
    requires Phase(t, r, c, due) && (r.state.Ready? ==> due >= Period(t))
    ensures Tick(r, c + 1).1 <==> c + 1 == due
    ensures Phase(t, Tick(r, c + 1).0, c + 1, if c + 1 == due then due + Period(t) else due)
  {
    assert Period(t) == t.compare * t.fd + t.fd;
    if r.state.Running? {
      RunningStep(t, r, c, due);
      NextPhase(t, due);
    } else {
      ReadyStep(t, r, c, due);
    }
  }

  /** The k-th interrupt, from 0. */
  function DueAt(t: Timer, k: nat): nat {
    t.start + t.compare * t.fd + k * ((t.compare + 1) * t.fd)
  }

  lemma DueNext(t: Timer, k: nat)
    ensures DueAt(t, k + 1) == DueAt(t, k) + Period(t)
    ensures DueAt(t, k) >= t.compare * t.fd && (k > 0 ==> DueAt(t, k) >= Period(t))
  {
    var p := (t.compare + 1) * t.fd;
    assert (k + 1) * p == k * p + p;
    if k > 0 {
      assert k * p == (k - 1) * p + p;
    }
  }

  /** After n clocks k interrupts have come, and the next is the k-th. */
  ghost predicate Reached(t: Timer, clock: nat, n: nat, k: nat)
    requires WellFormed(t) && t.start <= clock
  {
    && Phase(t, TickEach(t, clock, n), clock + n, DueAt(t, k))
    && (k == 0 ==> TickEach(t, clock, n).state.Running?)
    && Interrupts(t, clock, n) == seq(k, i requires 0 <= i < k => DueAt(t, i))
    && (k > 0 ==> DueAt(t, k - 1) <= clock + n)
  }

  lemma ReachedNext(t: Timer, clock: nat, n: nat, k: nat) returns (j: nat)
    requires WellFormed(t) && t.start <= clock && Reached(t, clock, n, k)
    ensures Reached(t, clock, n + 1, j)
  {
    var r := TickEach(t, clock, n);
    DueNext(t, k);
    PhaseStep(t, r, clock + n, DueAt(t, k));
    j := if clock + n + 1 == DueAt(t, k) then k + 1 else k;
    assert TickEach(t, clock, n + 1) == Tick(r, clock + (n + 1)).0;
    assert seq(k + 1, i requires 0 <= i < k + 1 => DueAt(t, i)) ==
           seq(k, i requires 0 <= i < k => DueAt(t, i)) + [DueAt(t, k)];
  }

  lemma {:induction false} ReachedAfter(t: Timer, clock: nat, n: nat) returns (k: nat)
    requires Settled(t, clock) && t.state.Running?
    ensures Reached(t, clock, n, k)
  {
    if n == 0 {
      k := 0;
      DueIsCounting(t);
    } else {
      k := ReachedAfter(t, clock, n - 1);
      k := ReachedNext(t, clock, n - 1, k);
    }
  }

  lemma {:induction false} DueGrows(t: Timer, i: nat, j: nat)
    requires t.fd > 0 && i <= j
    ensures DueAt(t, i) + (j - i) <= DueAt(t, j)
    decreases j
  {
    if i < j {
      DueGrows(t, i, j - 1);
      DueNext(t, j - 1);
      assert Period(t) == t.compare * t.fd + t.fd;
    }
  }

  /** An interval timer goes on: from a running timer the interrupts come at the first due clock and then
      every compare + 1 counting periods, for ever, and at no other clock. */
  lemma FiresPeriodically(t: Timer, clock: nat, n: nat, u: nat)
    requires Settled(t, clock) && t.state.Running?
    ensures u in Interrupts(t, clock, n) <==>
            clock < u <= clock + n &&
            exists k: nat :: u == DueAt(t, k)
  {
    var k := ReachedAfter(t, clock, n);
    var s := Interrupts(t, clock, n);
    if u in s {
      var i :| 0 <= i < |s| && s[i] == u;
      assert u == DueAt(t, i);
      DueGrows(t, 0, i);
      DueGrows(t, i, k - 1);
    }
    if i: nat :| u == DueAt(t, i) {
      if u <= clock + n && i >= k {
        DueGrows(t, k, i);
        assert false;
      }
      if i < k {
        assert s[i] == u;
      }
    }
  }

  /** A case: 10 clocks to a count and a compare value of 100, started at clock 0, fires at clocks 1000,
      2010, 3020 and so on. */
  lemma FiresAgain(t: Timer, n: nat, k: nat)
    requires t == Timer(0, 100, Running, Interval, 100, 0, 10) && n >= 1000 + 1010 * k
    ensures 1000 + 1010 * k in Interrupts(t, 0, n)
  {
    assert Settled(t, 0);
    assert 1000 + 1010 * k == DueAt(t, k);
    FiresPeriodically(t, 0, n, 1000 + 1010 * k);
  }

  // ---------- the interval ----------

  /** How many clocks a settled timer can do without being visited: up to its due clock when it runs, one
      when it waits to start again, and any number when it is stopped. */
  function Patience(t: Timer, clock: nat, max: nat): int {
    if t.state.Running? then t.start + t.compare * t.fd - clock else if t.state.Ready? then 1 else max
  }

  /** How many clocks there are to the next poll, when this clock is not one. */
  function PollPatience(d: Devices, clock: nat, max: nat): int {
    if d.canFd > 0 && clock % d.canFd != 0 then d.canFd - clock % d.canFd else max
  }

  lemma RoundedUp(clock: nat, fd: nat)
    requires fd > 0 && clock % fd != 0
    ensures (clock + (fd - 1)) / fd * fd - clock == fd - clock % fd
  {
    var q, r := clock / fd, clock % fd;
    assert clock == q * fd + r && (q + 1) * fd == q * fd + fd;
    QuotientFits(clock + (fd - 1), q + 1, r - 1, fd);
  }

  /** The interval is the least of the longest interval, the patience of either timer and that of the
      poll. */
  lemma IntervalIs(d: Devices, clock: nat, max: nat)
    requires SettledAll(d, clock) && max >= 1
    ensures var j := Jump(d, clock, max);
            var a, b, c := Patience(d.t0, clock, max), Patience(d.t1, clock, max), PollPatience(d, clock, max);
            j <= max && j <= a && j <= b && j <= c && (j == max || j == a || j == b || j == c)
  {
    if d.canFd > 0 && clock % d.canFd != 0 {
      RoundedUp(clock, d.canFd);
    }
  }
}
