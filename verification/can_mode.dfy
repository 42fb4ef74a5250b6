/** The mode machine of one CAN channel. */
module CanMode {

  datatype Mode = Stop | Reset | Wait | Comm
  datatype Transfer = Idle | Rx | Tx
  datatype Select = SelComm | SelReset | SelWait

  datatype Event =
    | ClrStop | SetStop | SetComm | SetReset | SetWait
    | TxStart | TxDone | RxStart | RxDone

  datatype Channel = Channel(mode: Mode, transfer: Transfer, stop: bool, select: Select)

  /** The six flags software reads back. */
  datatype Flags = Flags(canComm: bool, receiving: bool, sending: bool, modeStop: bool, modeWait: bool, modeReset: bool)

  /** What the flags say in each mode. */
  function FlagsOf(mode: Mode, transfer: Transfer): Flags {
    match mode
    case Stop  => Flags(false, false, false, true, false, true)
    case Reset => Flags(false, false, false, false, false, true)
    case Wait  => Flags(false, false, false, false, true, false)
    case Comm  => Flags(true, transfer.Rx?, transfer.Tx?, false, false, false)
  }

  const MCU_RESET := Channel(Stop, Idle, true, SelReset)

  function Finish(c: Channel): Channel {
    c.(transfer := Idle, mode := if c.select.SelWait? then Wait else Comm)
  }

  function Step(c: Channel, e: Event): Channel {
    match (c.mode, e)
    case (Stop, ClrStop)  => c.(mode := Reset, stop := false, select := SelReset)
    case (Reset, SetStop) => c.(mode := Stop, stop := true)
    case (Reset, SetComm) => c.(mode := Comm, select := SelComm, transfer := Idle)
    case (Wait, SetComm)  => c.(mode := Comm, select := SelComm, transfer := Idle)
    case (Reset, SetWait) => c.(select := SelWait, mode := if c.transfer.Idle? then Wait else Reset)
    case (Comm, SetWait)  => c.(select := SelWait, mode := if c.transfer.Idle? then Wait else Comm)
    case (Comm, SetReset) => c.(mode := Reset, select := SelReset, transfer := Idle)
    case (Wait, SetReset) => c.(mode := Reset, select := SelReset, transfer := Idle)
    case (Comm, TxStart)  => if c.transfer.Idle? then c.(transfer := Tx) else c
    case (Comm, RxStart)  => if c.transfer.Idle? then c.(transfer := Rx) else c
    case (Comm, TxDone)   => if c.transfer.Tx? then Finish(c) else c
    case (Comm, RxDone)   => if c.transfer.Rx? then Finish(c) else c
    case _ => c
  }

  function Run(c: Channel, es: seq<Event>): Channel
    decreases |es|
  {
    if es == [] then c else Run(Step(c, es[0]), es[1..])
  }

  /** Transfers happen in COMM mode only, and the requested mode can differ from the actual one only
      as a WAIT that a transfer still holds off. */
  predicate Sound(c: Channel) {
    && (c.transfer != Idle ==> c.mode.Comm?)
    && (c.mode.Stop? <==> c.stop)
    && (match c.mode
        case Stop => c.select.SelReset?
        case Reset => c.select.SelReset?
        case Wait => c.select.SelWait?
        case Comm => c.select.SelComm? || (c.select.SelWait? && c.transfer != Idle))
  }

  lemma {:induction false} SoundOverRuns(c: Channel, es: seq<Event>)
    requires Sound(c)
    ensures Sound(Run(c, es))
    decreases |es|
  {
    if es != [] {
      SoundOverRuns(Step(c, es[0]), es[1..]);
    }
  }

  function DoneOf(t: Transfer): Event
    requires t != Idle
  {
    if t.Tx? then TxDone else RxDone
  }

  lemma {:induction false} NothingCancels(c: Channel, es: seq<Event>)
    requires Sound(c) && c.select.SelWait? && c.transfer != Idle
    requires SetReset !in es && DoneOf(c.transfer) !in es
    ensures Run(c, es) == c
    decreases |es|
  {
    if es != [] {
      assert es[0] in es;
      assert Step(c, es[0]) == c;
      NothingCancels(c, es[1..]);
    }
  }

  /** A WAIT requested during a transfer survives every later event but a reset, even a request for
      COMM, and takes effect exactly when that transfer is done. */
  lemma WaitDeferred(c: Channel, es: seq<Event>)
    requires Sound(c) && c.transfer != Idle
    requires SetReset !in es && DoneOf(c.transfer) !in es
    ensures var d := Run(Step(c, SetWait), es);
            && d == c.(select := SelWait)
            && Step(d, DoneOf(c.transfer)) == Channel(Wait, Idle, c.stop, SelWait)
  {
    NothingCancels(Step(c, SetWait), es);
  }

  lemma {:induction false} RunAppend(c: Channel, a: seq<Event>, b: seq<Event>)
    ensures Run(c, a + b) == Run(Run(c, a), b)
    decreases |a|
  {
    if a == [] {
      assert a + b == b;
    } else {
      assert (a + b)[0] == a[0] && (a + b)[1..] == a[1..] + b;
      RunAppend(Step(c, a[0]), a[1..], b);
    }
  }

  /** As long as the transfer has not finished, the pending WAIT is cancelled by a reset and by nothing
      else: the transfer goes on in COMM mode if and only if no prefix of the events contains one. */
  lemma OnlyResetCancels(c: Channel, es: seq<Event>)
    requires Sound(c) && c.select.SelWait? && c.transfer != Idle
    requires DoneOf(c.transfer) !in es
    ensures (forall n :: 0 <= n <= |es| ==> Run(c, es[..n]) == c) <==> SetReset !in es
  {
    if SetReset in es {
      var n :| 0 <= n < |es| && es[n] == SetReset;
      assert es[..n + 1] == es[..n] + [SetReset];
      RunAppend(c, es[..n], [SetReset]);
      assert Run(Run(c, es[..n]), [SetReset]) == Run(Step(Run(c, es[..n]), SetReset), []);
      assert es[..n] == es[..n];
    } else {
      forall n | 0 <= n <= |es| ensures Run(c, es[..n]) == c {
        NothingCancels(c, es[..n]);
      }
    }
  }

  class ModeChannel {
    var mode: Mode
    var transfer: Transfer
    var stop: bool
    var select: Select
    var status: Flags

    ghost function View(): Channel
      reads this
    {
      Channel(mode, transfer, stop, select)
    }

    /** The flags are a function of mode and transfer. */
    ghost predicate Valid()
      reads this
    {
      Sound(View()) && status == FlagsOf(mode, transfer)
    }

    constructor ()
      ensures Valid() && View() == MCU_RESET
    {
      mode, transfer, stop, select := Stop, Idle, true, SelReset;
      status := Flags(false, false, false, true, false, true);
    }

    method SetTransfer(t: Transfer)
      modifies this`transfer, this`status
      ensures transfer == t && status == Flags(true, t.Rx?, t.Tx?, false, false, false)
    {
      transfer := t;
      status := status.(canComm := true, modeStop := false, modeWait := false, modeReset := false);
      status := status.(receiving := t.Rx?, sending := t.Tx?);
    }

    method EnterWait()
      modifies this`mode, this`status
      ensures mode == Wait && status == Flags(false, false, false, false, true, false)
    {
      mode := Wait;
      status := Flags(false, false, false, false, true, false);
    }

    method ResetRegisters()
      modifies this`mode, this`select, this`status
      ensures mode == Stop && select == SelReset
      ensures status == old(status).(canComm := false, receiving := false, sending := false, modeWait := false)
    {
      mode, select := Stop, SelReset;
      status := status.(canComm := false, receiving := false, sending := false, modeWait := false);
    }

    method Handle(e: Event)
      requires Valid()
      modifies this
      ensures Valid() && View() == Step(old(View()), e)
    {
      match e {
        case ClrStop =>
          if mode == Stop {
            stop := false;
            ResetRegisters();
            status := status.(modeStop := false, modeReset := true, modeWait := false);
            mode := Reset;
          }
        case SetStop =>
          if mode == Reset {
            stop := true;
            mode := Stop;
            status := Flags(false, false, false, true, false, true);
          }
        case SetComm =>
          if mode == Reset || mode == Wait {
            mode, select := Comm, SelComm;
            SetTransfer(Idle);
          }
        case SetWait =>
          if mode == Reset || mode == Comm {
            select := SelWait;
            if transfer == Idle { EnterWait(); }
          }
        case SetReset =>
          if mode == Comm || mode == Wait {
            select := SelReset;
            ResetRegisters();
            mode := Reset;
            SetTransfer(Idle);
            status := Flags(false, false, false, false, false, true);
          }
        case TxStart =>
          if mode == Comm && transfer == Idle { SetTransfer(Tx); }
        case RxStart =>
          if mode == Comm && transfer == Idle { SetTransfer(Rx); }
        case TxDone =>
          if mode == Comm && transfer == Tx {
            SetTransfer(Idle);
            if select == SelWait { EnterWait(); }
          }
        case RxDone =>
          if mode == Comm && transfer == Rx {
            SetTransfer(Idle);
            if select == SelWait { EnterWait(); }
          }
      }
    }
  }
}
