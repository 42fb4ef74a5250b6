/** The timers and the clock supply as they run. */
module ClockDevices {
  import S = ClockSkip

  class TimerDevice {
    var cnt: nat
    var regCnt: nat
    var state: S.State
    var mode: S.Mode
    var compare: nat
    var start: nat
    const fd: nat

    ghost function View(): S.Timer
      reads this
    {
      S.Timer(cnt, regCnt, state, mode, compare, start, fd)
    }

    constructor (fd: nat)
      requires fd > 0
      ensures View() == S.Timer(0, 0xFFFF_FFFF, S.Stop, S.Interval, 0, 0, fd) && S.WellFormed(View())
    {
      this.fd := fd;
      cnt, regCnt, state, mode, compare, start := 0, 0xFFFF_FFFF, S.Stop, S.Interval, 0, 0;
    }

    method DoUpdate(clock: nat) returns (raised: bool)
      requires S.WellFormed(View()) && start <= clock
      modifies this
      ensures (View(), raised) == S.Update(old(View()), clock)
    {
      raised := false;
      if state == S.Ready {
        state := S.Running;
        if start == 0 || mode == S.Interval {
          start := clock;
        }
      }
      cnt := (clock - start) / fd % 0x1_0000_0000;
      if state == S.Running {
        if mode == S.Interval {
          regCnt := (compare - cnt) % 0x1_0000_0000;
          if cnt >= compare {
            raised := true;
            state := S.Ready;
          }
        }
      }
    }

    method CalcMinInterval(clock: nat, min0: nat) returns (min: nat)
      requires start <= clock
      ensures min == S.Shorter(S.Wish(View(), clock), min0)
    {
      var cnt1 := clock - start;
      var compareValue := compare * fd;
      var interval := 1;
      if cnt1 <= compareValue {
        interval := compareValue - cnt1;
      }
      min := min0;
      if interval < min {
        if interval == 0 { interval := 1; }
        min := interval;
      }
    }

    method SupplyClock(clock: nat, halted: bool, min0: nat) returns (raised: bool, min: nat)
      requires S.WellFormed(View()) && start <= clock
      modifies this
      ensures (View(), raised) == S.Tick(old(View()), clock)
      ensures min == if halted then S.AskTimer(View(), clock, min0) else min0
    {
      raised, min := false, min0;
      if clock % fd == 0 {
        raised := DoUpdate(clock);
      }
      if halted && state != S.Stop {
        min := CalcMinInterval(clock, min0);
      }
    }
  }

  /** The CAN poll and the interval to the next one. */
  method SupplyCan(canFd: nat, clock: nat, min0: nat) returns (poll: bool, min: nat)
    requires canFd > 0
    ensures poll == (clock % canFd == 0) && min == S.AskCan(canFd, clock, min0)
  {
    poll, min := false, min0;
    if clock % canFd == 0 {
      poll := true;
    } else {
      var next := (clock + (canFd - 1)) / canFd * canFd;
      S.NextPoll(clock, canFd);
      var interval := next - clock;
      if interval < min {
        if interval == 0 { interval := 1; }
        min := interval;
      }
    }
  }

  class DeviceClock {
    const timer0: TimerDevice
    const timer1: TimerDevice
    const canFd: nat
    const max: nat
    var min: nat

    ghost predicate Apart() {
      timer0 != timer1
    }

    ghost function View(): S.Devices
      reads timer0, timer1
    {
      S.Devices(timer0.View(), timer1.View(), canFd)
    }

    constructor (timer0: TimerDevice, timer1: TimerDevice, canFd: nat, max: nat)
      requires timer0 != timer1
      ensures Apart() && this.timer0 == timer0 && this.timer1 == timer1 && this.canFd == canFd && this.max == max
    {
      this.timer0, this.timer1, this.canFd, this.max, min := timer0, timer1, canFd, max, max;
    }

    /** The timers and the CAN controller get a clock.  While the processor is halted the interval left
        behind is the one that ClockSkip calls the jump. */
    method SupplyClock(clock: nat, halted: bool) returns (what: S.Happening)
      requires Apart() && S.Usable(View(), clock)
      modifies this`min, timer0, timer1
      ensures (View(), what) == S.Supply(old(View()), clock)
      ensures halted ==> min == S.Jump(View(), clock, max)
    {
      var fire0, fire1, poll := false, false, false;
      min := max;
      fire0, min := timer0.SupplyClock(clock, halted, min);
      fire1, min := timer1.SupplyClock(clock, halted, min);
      if canFd != 0 {
        poll, min := SupplyCan(canFd, clock, min);
      }
      what := S.Happening(fire0, fire1, poll);
    }
  }
}
