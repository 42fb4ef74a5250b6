/** The ring FIFOs of the CAN controller, proved to be bounded queues. */
module CanFifo {
  import opened CanTypes

  /** The frames held in a ring, oldest first. */
  function Ring(buffer: seq<Frame>, roff: nat, count: nat, depth: nat): (r: seq<Frame>)
    requires count <= depth <= |buffer| && (depth > 0 ==> roff < depth) && (depth == 0 ==> count == 0)
    ensures |r| == count
  {
    seq(count, i requires 0 <= i < count => buffer[if roff + i < depth then roff + i else roff + i - depth])
  }

  /** The write offset is where the next frame of the ring belongs. */
  predicate Offsets(roff: nat, woff: nat, count: nat, depth: nat) {
    && count <= depth
    && (depth > 0 ==> roff < depth && woff < depth)
    && (depth > 0 ==> woff == if roff + count < depth then roff + count else roff + count - depth)
  }

  function Advance(off: nat, depth: nat): nat {
    if off + 1 >= depth then 0 else off + 1
  }

  lemma RingPut(buffer: seq<Frame>, roff: nat, woff: nat, count: nat, depth: nat, f: Frame)
    requires depth <= |buffer| && Offsets(roff, woff, count, depth) && count < depth
    ensures Offsets(roff, Advance(woff, depth), count + 1, depth)
    ensures Ring(buffer[woff := f], roff, count + 1, depth) == Ring(buffer, roff, count, depth) + [f]
  {}

  lemma RingGet(buffer: seq<Frame>, roff: nat, woff: nat, count: nat, depth: nat)
    requires depth <= |buffer| && Offsets(roff, woff, count, depth) && count > 0
    ensures Offsets(Advance(roff, depth), woff, count - 1, depth)
    ensures buffer[roff] == Ring(buffer, roff, count, depth)[0]
    ensures Ring(buffer, Advance(roff, depth), count - 1, depth) == Ring(buffer, roff, count, depth)[1..]
  {}

  /** Does a put raise the receive interrupt?  With the per-frame option it always does, and otherwise
      once the fill level reaches the configured share of the depth. */
  predicate IntrDue(everytime: bool, timing: nat, count: nat, depth: nat) {
    everytime || count >= if timing == 7 then depth else depth * (timing + 1) / 8
  }

  // ---------- the bounded queue they refine ----------

  /** What a receiving FIFO holds.  It takes frames while it is open. */
  datatype RxState = RxState(open: bool, depth: nat, everytime: bool, timing: nat,
                             frames: seq<Frame>, lost: bool, intr: bool)

  /** A received frame is offered. */
  function Offered(q: RxState, f: Frame): RxState {
    if !q.open then q
    else if |q.frames| >= q.depth then q.(lost := true)
    else q.(frames := q.frames + [f], intr := q.intr || IntrDue(q.everytime, q.timing, |q.frames| + 1, q.depth))
  }

  datatype Op = Push(f: Frame) | Pop

  /** Frames accepted, frames given out and frames left by operations on a queue. */
  datatype Traffic = Traffic(accepted: seq<Frame>, given: seq<Frame>, left: seq<Frame>)

  function Single(q: seq<Frame>, depth: nat, op: Op): Traffic {
    match op
    case Push(f) => if |q| >= depth then Traffic([], [], q) else Traffic([f], [], q + [f])
    case Pop => if q == [] then Traffic([], [], q) else Traffic([], [q[0]], q[1..])
  }

  function Play(q: seq<Frame>, depth: nat, ops: seq<Op>): Traffic
    decreases |ops|
  {
    if ops == [] then Traffic([], [], q)
    else
      var o := Single(q, depth, ops[0]);
      var r := Play(o.left, depth, ops[1..]);
      Traffic(o.accepted + r.accepted, o.given + r.given, r.left)
  }

  lemma Chained(q: seq<Frame>, a: seq<Frame>, b: seq<Frame>, g: seq<Frame>, h: seq<Frame>, l: seq<Frame>, m: seq<Frame>)
    requires q + a == g + l && l + b == h + m
    ensures q + (a + b) == g + h + m
  {
    assert q + (a + b) == q + a + b;
    assert g + l + b == g + (l + b);
    assert g + (h + m) == g + h + m;
  }

  /** Under any interleaving of puts and gets, what went in comes out in the same order, nothing is
      lost between an accepted put and its get, and the fill level stays within the depth. */
  lemma {:induction false} OrderKept(q: seq<Frame>, depth: nat, ops: seq<Op>)
    requires |q| <= depth
    ensures var r := Play(q, depth, ops);
            q + r.accepted == r.given + r.left && |r.left| <= depth
    decreases |ops|
  {
    if ops != [] {
      var o := Single(q, depth, ops[0]);
      var r := Play(o.left, depth, ops[1..]);
      OrderKept(o.left, depth, ops[1..]);
      Chained(q, o.accepted, r.accepted, o.given, r.given, o.left, r.left);
    }
  }

  /** The number of frames offered. */
  function Offers(ops: seq<Op>): nat
    decreases |ops|
  {
    if ops == [] then 0 else (if ops[0].Push? then 1 else 0) + Offers(ops[1..])
  }

  /** The traffic of operation i and all that follow, after some frames were accepted and given out. */
  function Rest(accepted: seq<Frame>, given: seq<Frame>, q: seq<Frame>, depth: nat, ops: seq<Op>, i: nat): Traffic
    requires i <= |ops|
  {
    var r := Play(q, depth, ops[i..]);
    Traffic(accepted + r.accepted, given + r.given, r.left)
  }

  lemma RestStep(accepted: seq<Frame>, given: seq<Frame>, q: seq<Frame>, depth: nat, ops: seq<Op>, i: nat)
    requires i < |ops|
    ensures var o := Single(q, depth, ops[i]);
            Rest(accepted, given, q, depth, ops, i) ==
                Rest(accepted + o.accepted, given + o.given, o.left, depth, ops, i + 1)
    ensures Offers(ops[i..]) == (if ops[i].Push? then 1 else 0) + Offers(ops[i + 1..])
  {
    assert ops[i..][1..] == ops[i + 1..];
    var o := Single(q, depth, ops[i]);
    var r := Play(o.left, depth, ops[i + 1..]);
    assert accepted + (o.accepted + r.accepted) == accepted + o.accepted + r.accepted;
    assert given + (o.given + r.given) == given + o.given + r.given;
  }

  lemma RestEnds(q: seq<Frame>, depth: nat, ops: seq<Op>, t: Traffic)
    requires Rest([], [], q, depth, ops, 0) == Rest(t.accepted, t.given, t.left, depth, ops, |ops|)
    ensures t == Play(q, depth, ops)
  {
    assert ops[0..] == ops && ops[|ops|..] == [];
    var r := Play(q, depth, ops);
    assert [] + r.accepted == r.accepted && [] + r.given == r.given;
    assert t.accepted + [] == t.accepted && t.given + [] == t.given;
  }

  class RxFifo {
    // configuration
    var enable: bool
    var quelen: nat
    var everytime: bool
    var timing: nat
    // status
    var intr: bool
    var lost: bool
    var full: bool
    var empty: bool
    // ring
    var count: nat
    var roff: nat
    var woff: nat
    const buffer: array<Frame>

    ghost predicate Shape()
      reads this
    {
      buffer.Length == FIFO_MAX && quelen < 8 && Offsets(roff, woff, count, Depth(quelen))
    }

    ghost function Contents(): (s: seq<Frame>)
      reads this, buffer
      requires Shape()
      ensures |s| == count
    {
      Ring(buffer[..], roff, count, Depth(quelen))
    }

    ghost function View(): RxState
      reads this, buffer
      requires Shape()
    {
      RxState(enable, Depth(quelen), everytime, timing, Contents(), lost, intr)
    }

    /** The flags agree with the fill level. */
    ghost predicate Valid()
      reads this, buffer
    {
      && Shape()
      && (full <==> Depth(quelen) > 0 && count == Depth(quelen))
      && (empty <==> count == 0)
      && (!enable ==> count == 0)
    }

    constructor (quelen: nat, frame: Frame)
      requires quelen < 8
      ensures Valid() && Contents() == [] && !enable && this.quelen == quelen && fresh(buffer)
    {
      buffer := new Frame[FIFO_MAX](_ => frame);
      this.quelen := quelen;
      enable, everytime, timing := false, false, 0;
      intr, lost, full, empty := false, false, false, true;
      count, roff, woff := 0, 0, 0;
    }

    method Store(f: Frame)
      requires Valid() && enable && count < Depth(quelen)
      modifies this`full, this`empty, this`count, this`woff, buffer
      ensures Valid() && Contents() == old(Contents()) + [f]
    {
      RingPut(buffer[..], roff, woff, count, Depth(quelen), f);
      buffer[woff] := f;
      count := count + 1;
      woff := woff + 1;
      if woff >= Depth(quelen) { woff := 0; }
      if count >= Depth(quelen) { full := true; }
      empty := false;
    }

    method Put(f: Frame) returns (code: Code)
      requires Valid()
      modifies this`intr, this`lost, this`full, this`empty, this`count, this`woff, buffer
      ensures Valid()
      ensures code == if !enable then Perm else if |old(Contents())| >= Depth(quelen) then Limit else Ok
      ensures View() == Offered(old(View()), f)
    {
      if !enable { return Perm; }
      if count >= Depth(quelen) {
        lost := true;
        return Limit;
      }
      Store(f);
      if everytime || count >= (if timing == 7 then Depth(quelen) else Depth(quelen) * (timing + 1) / 8) {
        intr := true;
      }
      return Ok;
    }

    method Next() returns (code: Code)
      requires Valid()
      modifies this`full, this`empty, this`count, this`roff
      ensures Valid()
      ensures code == if !enable then Perm else if old(Contents()) == [] then NoEnt else Ok
      ensures Contents() == if code == Ok then old(Contents())[1..] else old(Contents())
    {
      if !enable { return Perm; }
      if count == 0 { return NoEnt; }
      RingGet(buffer[..], roff, woff, count, Depth(quelen));
      count := count - 1;
      roff := roff + 1;
      if roff >= Depth(quelen) { roff := 0; }
      if count < Depth(quelen) { full := false; }
      if count <= 0 { empty := true; }
      return Ok;
    }

    method Peek(out: Frame) returns (code: Code, f: Frame)
      requires Valid()
      ensures code == if !enable then Perm else if Contents() == [] then NoEnt else Ok
      ensures f == if code == Ok then Contents()[0] else out
    {
      if !enable { return Perm, out; }
      if count == 0 { return NoEnt, out; }
      return Ok, buffer[roff];
    }

    /** Software reads the oldest frame and moves on. */
    method Read(out: Frame) returns (code: Code, f: Frame)
      requires Valid()
      modifies this`full, this`empty, this`count, this`roff
      ensures Valid()
      ensures code == if !enable then Perm else if old(Contents()) == [] then NoEnt else Ok
      ensures f == if code == Ok then old(Contents())[0] else out
      ensures Contents() == if code == Ok then old(Contents())[1..] else old(Contents())
    {
      code, f := Peek(out);
      var _ := Next();
    }

    method ServeOne(op: Op, out: Frame) returns (accepted: seq<Frame>, given: seq<Frame>)
      requires Valid() && enable
      modifies this`intr, this`lost, this`full, this`empty, this`count, this`roff, this`woff, buffer
      ensures Valid()
      ensures Traffic(accepted, given, Contents()) == Single(old(Contents()), Depth(quelen), op)
      ensures lost == (old(lost) || (op.Push? && accepted == []))
    {
      accepted, given := [], [];
      match op {
        case Push(f) =>
          var code := Put(f);
          if code == Ok { accepted := [f]; }
        case Pop =>
          var code, f := Read(out);
          if code == Ok { given := [f]; }
      }
    }

    /** Any sequence of receptions and of reads by software.  Frames leave in the order in which they were
        accepted, and the lost flag tells whether one was refused. */
    method Serve(ops: seq<Op>, out: Frame) returns (accepted: seq<Frame>, given: seq<Frame>)
      requires Valid() && enable
      modifies this`intr, this`lost, this`full, this`empty, this`count, this`roff, this`woff, buffer
      ensures Valid()
      ensures Traffic(accepted, given, Contents()) == Play(old(Contents()), Depth(quelen), ops)
      ensures old(Contents()) + accepted == given + Contents()
      ensures lost == (old(lost) || |accepted| < Offers(ops))
    {
      ghost var q := Contents();
      accepted, given := [], [];
      ghost var offers := 0;
      for i := 0 to |ops|
        invariant Valid() && |accepted| <= offers
        invariant Rest([], [], q, Depth(quelen), ops, 0) == Rest(accepted, given, Contents(), Depth(quelen), ops, i)
        invariant Offers(ops[0..]) == offers + Offers(ops[i..])
        invariant lost == (old(lost) || |accepted| < offers)
      {
        RestStep(accepted, given, Contents(), Depth(quelen), ops, i);
        offers := offers + if ops[i].Push? then 1 else 0;
        var a, g := ServeOne(ops[i], out);
        accepted, given := accepted + a, given + g;
      }
      assert ops[0..] == ops;
      RestEnds(q, Depth(quelen), ops, Traffic(accepted, given, Contents()));
      OrderKept(q, Depth(quelen), ops);
    }

    /** Software writes the enable bit; disabling empties the FIFO. */
    method Configure(on: bool)
      requires Valid()
      modifies this`enable, this`count, this`roff, this`woff, this`full, this`empty
      ensures Valid() && enable == on && Contents() == if on then old(Contents()) else []
    {
      enable := on;
      if !on {
        count, roff, woff := 0, 0, 0;
        empty, full := true, false;
      }
    }
  }

  datatype FifoMode = Receive | Transmit | Gateway

  class TxRxFifo {
    // configuration
    var mode: FifoMode
    var enable: bool
    var quelen: nat
    var everytime: bool
    var timing: nat
    // status
    var rxIntr: bool
    var txIntr: bool
    var lost: bool
    var full: bool
    var empty: bool
    // ring
    var count: nat
    var roff: nat
    var woff: nat
    const buffer: array<Frame>

    ghost predicate Shape()
      reads this
    {
      buffer.Length == FIFO_MAX && quelen < 8 && Offsets(roff, woff, count, Depth(quelen))
    }

    ghost function Contents(): (s: seq<Frame>)
      reads this, buffer
      requires Shape()
      ensures |s| == count
    {
      Ring(buffer[..], roff, count, Depth(quelen))
    }

    ghost function View(): RxState
      reads this, buffer
      requires Shape()
    {
      RxState(mode != Transmit && enable, Depth(quelen), everytime, timing, Contents(), lost, rxIntr)
    }

    /** In transmit mode the empty flag waits for the end of the last transmission, so it only
        implies that nothing is left. */
    ghost predicate Valid()
      reads this, buffer
    {
      && Shape()
      && (full <==> Depth(quelen) > 0 && count == Depth(quelen))
      && (empty ==> count == 0)
      && (mode != Transmit && count == 0 ==> empty)
      && (!enable ==> count == 0)
    }

    constructor (mode: FifoMode, quelen: nat, frame: Frame)
      requires quelen < 8
      ensures Valid() && Contents() == [] && !enable && this.mode == mode && this.quelen == quelen && fresh(buffer)
    {
      buffer := new Frame[FIFO_MAX](_ => frame);
      this.mode, this.quelen := mode, quelen;
      enable, everytime, timing := false, false, 0;
      rxIntr, txIntr, lost, full, empty := false, false, false, false, true;
      count, roff, woff := 0, 0, 0;
    }

    /** The part shared by receive and transmit puts. */
    method Store(f: Frame)
      requires Valid() && enable && count < Depth(quelen)
      modifies this`full, this`empty, this`count, this`woff, buffer
      ensures Valid() && Contents() == old(Contents()) + [f] && !empty
    {
      RingPut(buffer[..], roff, woff, count, Depth(quelen), f);
      buffer[woff] := f;
      count := count + 1;
      woff := woff + 1;
      if woff >= Depth(quelen) { woff := 0; }
      if count >= Depth(quelen) { full := true; }
      empty := false;
    }

    method PutReceived(f: Frame) returns (code: Code)
      requires Valid()
      modifies this`rxIntr, this`lost, this`full, this`empty, this`count, this`woff, buffer
      ensures Valid()
      ensures code == if mode == Transmit || !enable then Perm
                      else if |old(Contents())| >= Depth(quelen) then Limit else Ok
      ensures View() == Offered(old(View()), f)
    {
      if mode == Transmit { return Perm; }
      if !enable { return Perm; }
      if count >= Depth(quelen) {
        lost := true;
        return Limit;
      }
      Store(f);
      if everytime || count >= (if timing == 7 then Depth(quelen) else Depth(quelen) * (timing + 1) / 8) {
        rxIntr := true;
      }
      return Ok;
    }

    /** The part shared by receive next and transmit get; the empty flag is left alone. */
    method Drop() returns (f: Frame)
      requires Valid() && count > 0
      modifies this`full, this`count, this`roff
      ensures Shape() && (full <==> Depth(quelen) > 0 && count == Depth(quelen))
      ensures [f] + Contents() == old(Contents())
    {
      RingGet(buffer[..], roff, woff, count, Depth(quelen));
      f := buffer[roff];
      count := count - 1;
      roff := roff + 1;
      if roff >= Depth(quelen) { roff := 0; }
      if count < Depth(quelen) { full := false; }
    }

    method NextReceived() returns (code: Code)
      requires Valid()
      modifies this`full, this`empty, this`count, this`roff
      ensures Valid()
      ensures code == if mode == Transmit || !enable then Perm else if old(Contents()) == [] then NoEnt else Ok
      ensures Contents() == if code == Ok then old(Contents())[1..] else old(Contents())
    {
      if mode == Transmit { return Perm; }
      if !enable { return Perm; }
      if count == 0 { return NoEnt; }
      var _ := Drop();
      if count <= 0 { empty := true; }
      return Ok;
    }

    method PutToSend(f: Frame) returns (code: Code)
      requires Valid()
      modifies this`lost, this`full, this`empty, this`count, this`woff, buffer
      ensures Valid()
      ensures code == if mode != Transmit || !enable then Perm
                      else if |old(Contents())| >= Depth(quelen) then Limit else Ok
      ensures Contents() == if code == Ok then old(Contents()) + [f] else old(Contents())
      ensures lost == (old(lost) || code == Limit)
    {
      if mode != Transmit { return Perm; }
      if !enable { return Perm; }
      if count >= Depth(quelen) {
        lost := true;
        return Limit;
      }
      Store(f);
      return Ok;
    }

    /** Hands the oldest frame to the sender; the empty flag is left alone. */
    method GetToSend(out: Frame) returns (code: Code, f: Frame)
      requires Valid()
      modifies this`full, this`count, this`roff
      ensures Valid()
      ensures code == if mode != Transmit || !enable then Perm else if old(Contents()) == [] then NoEnt else Ok
      ensures code == Ok ==> [f] + Contents() == old(Contents())
      ensures code != Ok ==> f == out && Contents() == old(Contents())
    {
      if mode != Transmit { return Perm, out; }
      if !enable { return Perm, out; }
      if count == 0 { return NoEnt, out; }
      f := Drop();
      code := Ok;
    }

    method PeekToSend(out: Frame) returns (code: Code, f: Frame)
      requires Valid()
      ensures code == if mode != Transmit || !enable then Perm else if Contents() == [] then NoEnt else Ok
      ensures f == if code == Ok then Contents()[0] else out
    {
      if mode != Transmit { return Perm, out; }
      if !enable { return Perm, out; }
      if count == 0 { return NoEnt, out; }
      return Ok, buffer[roff];
    }

    method ServeOne(op: Op, out: Frame) returns (accepted: seq<Frame>, given: seq<Frame>)
      requires Valid() && enable && mode == Transmit
      modifies this`lost, this`full, this`empty, this`count, this`roff, this`woff, buffer
      ensures Valid()
      ensures Traffic(accepted, given, Contents()) == Single(old(Contents()), Depth(quelen), op)
      ensures lost == (old(lost) || (op.Push? && accepted == []))
    {
      accepted, given := [], [];
      match op {
        case Push(f) =>
          var code := PutToSend(f);
          if code == Ok { accepted := [f]; }
        case Pop =>
          ghost var before := Contents();
          var code, f := GetToSend(out);
          if code == Ok {
            assert before[0] == f && before[1..] == Contents();
            given := [f];
          }
      }
    }

    /** Any sequence of frames put by software and frames fetched by the sender. */
    method Serve(ops: seq<Op>, out: Frame) returns (accepted: seq<Frame>, given: seq<Frame>)
      requires Valid() && enable && mode == Transmit
      modifies this`lost, this`full, this`empty, this`count, this`roff, this`woff, buffer
      ensures Valid()
      ensures Traffic(accepted, given, Contents()) == Play(old(Contents()), Depth(quelen), ops)
      ensures old(Contents()) + accepted == given + Contents()
      ensures lost == (old(lost) || |accepted| < Offers(ops))
    {
      ghost var q := Contents();
      accepted, given := [], [];
      ghost var offers := 0;
      for i := 0 to |ops|
        invariant Valid() && |accepted| <= offers
        invariant Rest([], [], q, Depth(quelen), ops, 0) == Rest(accepted, given, Contents(), Depth(quelen), ops, i)
        invariant Offers(ops[0..]) == offers + Offers(ops[i..])
        invariant lost == (old(lost) || |accepted| < offers)
      {
        RestStep(accepted, given, Contents(), Depth(quelen), ops, i);
        offers := offers + if ops[i].Push? then 1 else 0;
        var a, g := ServeOne(ops[i], out);
        accepted, given := accepted + a, given + g;
      }
      assert ops[0..] == ops;
      RestEnds(q, Depth(quelen), ops, Traffic(accepted, given, Contents()));
      OrderKept(q, Depth(quelen), ops);
    }

    /** A transmission has ended.  Only here does a transmit FIFO become flagged empty. */
    method NotifySent()
      requires Valid()
      modifies this`txIntr, this`count, this`roff, this`woff, this`empty
      ensures Valid() && Contents() == old(Contents())
      ensures empty == (old(empty) || Contents() == [])
      ensures txIntr == (old(txIntr) || everytime || Contents() == [])
    {
      if everytime {
        txIntr := true;
      } else if count <= 0 {
        txIntr := true;
      }
      if !enable {
        count, roff, woff := 0, 0, 0;
      }
      if count <= 0 { empty := true; }
    }

    /** Software writes the enable bit; disabling empties the FIFO. */
    method Configure(on: bool)
      requires Valid()
      modifies this`enable, this`count, this`roff, this`woff, this`full, this`empty
      ensures Valid() && enable == on && Contents() == if on then old(Contents()) else []
    {
      enable := on;
      if !on {
        count, roff, woff := 0, 0, 0;
        empty, full := true, false;
      }
    }
  }
}
