/** The transmit side of one channel as it runs: buffers, FIFO objects, the queue object and the mode
    object, proved to do what CanTxSpec says. */
module CanTx {
  import opened Common
  import opened CanTypes
  import opened CanTxMerge
  import opened CanTxSpec
  import CanMode
  import F = CanFifo
  import Q = CanTxQueue

  /** The candidate after scanning the first n lines: none while they are all empty, and otherwise the
      first of the least heads. */
  predicate BestSoFar(lines: Lines, n: nat, w: Option<nat>, min: nat)
    requires n <= |lines|
  {
    match w
    case None => min == 0xFFFF_FFFF && forall k :: 0 <= k < n ==> lines[k] == []
    case Some(b) =>
      && b < n && lines[b] != [] && min == Rank(lines[b][0])
      && forall k :: 0 <= k < n && lines[k] != [] && k != b ==>
           min < Rank(lines[k][0]) || (min == Rank(lines[k][0]) && b < k)
  }

  /** One line further: a head of strictly smaller rank takes over. */
  lemma BestAdvances(lines: Lines, n: nat, w: Option<nat>, min: nat)
    requires n < |lines| && BestSoFar(lines, n, w, min)
    ensures lines[n] == [] ==> BestSoFar(lines, n + 1, w, min)
    ensures lines[n] != [] && Rank(lines[n][0]) < min ==> BestSoFar(lines, n + 1, Some(n), Rank(lines[n][0]))
    ensures lines[n] != [] && Rank(lines[n][0]) >= min ==> BestSoFar(lines, n + 1, w, min)
  {}

  lemma BestAtEnd(lines: Lines, w: Option<nat>, min: nat)
    requires BestSoFar(lines, |lines|, w, min)
    ensures w == Best(lines, 0)
  {
    BestIsFirst(lines, 0);
  }

  /** A line's head, if it has one. */
  predicate IsHead(line: seq<Frame>, f: Option<Frame>) {
    if line == [] then f.None? else f == Some(line[0])
  }

  /** The comparison made for every source in turn. */
  method Consider(ghost lines: Lines, n: nat, best0: Option<nat>, min0: nat, f: Option<Frame>)
    returns (best: Option<nat>, min: nat)
    requires n < |lines| && BestSoFar(lines, n, best0, min0) && IsHead(lines[n], f)
    ensures BestSoFar(lines, n + 1, best, min)
  {
    BestAdvances(lines, n, best0, min0);
    best, min := best0, min0;
    if f.Some? {
      var id := Rank(f.value);
      if id < min { min, best := id, Some(n); }
    }
  }

  /** What the peek functions return for a source. */
  function Head(st: Store, src: Source): Option<Frame>
    requires Shaped(st) && Exists(src)
  {
    match src
    case Buffer(n) => if st.buffers[n].req then Some(st.buffers[n].frame) else None
    case Fifo(n) => if st.fifos[n].on && st.fifos[n].frames != [] then Some(st.fifos[n].frames[0]) else None
    case Slot(n) => Q.Peek(st.queue, n)
  }

  lemma HeadOfLine(st: Store, src: Source)
    requires Shaped(st) && Exists(src)
    ensures IsHead(LinesOf(st)[Index(src)], Head(st, src))
  {
    assert LinesOf(st)[Index(src)] == Waiting(st, src);
  }

  ghost function FifoView(f: F.TxRxFifo): TxFifo
    reads f, f.buffer
    requires f.Shape()
  {
    TxFifo(f.mode.Transmit? && f.enable, f.Contents())
  }

  method GetFrom(fifo: F.TxRxFifo, out: Frame) returns (f: Frame)
    requires fifo.Valid() && FifoView(fifo).on && FifoView(fifo).frames != []
    modifies fifo`full, fifo`count, fifo`roff
    ensures fifo.Valid() && f == old(FifoView(fifo).frames)[0]
    ensures FifoView(fifo) == TxFifo(true, old(FifoView(fifo).frames)[1..])
  {
    var code;
    code, f := fifo.GetToSend(out);
  }

  method NotifyOne(fifo: F.TxRxFifo)
    requires fifo.Valid()
    modifies fifo`txIntr, fifo`count, fifo`roff, fifo`woff, fifo`empty
    ensures fifo.Valid() && FifoView(fifo) == old(FifoView(fifo))
  {
    fifo.NotifySent();
  }

  class Sender {
    const buffers: array<TxBuffer>
    const fifo0: F.TxRxFifo
    const fifo1: F.TxRxFifo
    const fifo2: F.TxRxFifo
    const queue: Q.TransmitQueue
    const mode: CanMode.ModeChannel
    var handler: Option<Source>
    ghost var bus: seq<Pick>

    ghost predicate Separate() {
      && buffers.Length == TX_BUFFERS
      && fifo0 != fifo1 && fifo0 != fifo2 && fifo1 != fifo2
      && fifo0.buffer != fifo1.buffer && fifo0.buffer != fifo2.buffer && fifo1.buffer != fifo2.buffer
    }

    ghost predicate StoreValid()
      reads buffers, fifo0, fifo0.buffer, fifo1, fifo1.buffer, fifo2, fifo2.buffer, queue, queue.slots
    {
      Separate() && fifo0.Valid() && fifo1.Valid() && fifo2.Valid() && queue.Valid()
    }

    ghost function StoreView(): (st: Store)
      reads buffers, fifo0, fifo0.buffer, fifo1, fifo1.buffer, fifo2, fifo2.buffer, queue, queue.slots
      requires StoreValid()
      ensures Shaped(st)
    {
      Store(buffers[..], [FifoView(fifo0), FifoView(fifo1), FifoView(fifo2)], queue.View())
    }

    ghost function View(): TxChannel
      reads this, buffers, fifo0, fifo0.buffer, fifo1, fifo1.buffer, fifo2, fifo2.buffer, queue, queue.slots, mode
      requires StoreValid()
    {
      TxChannel(StoreView(), mode.View(), handler, bus)
    }

    ghost predicate Valid()
      reads this, buffers, fifo0, fifo0.buffer, fifo1, fifo1.buffer, fifo2, fifo2.buffer, queue, queue.slots, mode
    {
      StoreValid() && mode.Valid() && Ready(View())
    }

    constructor (buffers: array<TxBuffer>, fifo0: F.TxRxFifo, fifo1: F.TxRxFifo, fifo2: F.TxRxFifo,
                 queue: Q.TransmitQueue, mode: CanMode.ModeChannel)
      requires buffers.Length == TX_BUFFERS
      requires fifo0 != fifo1 && fifo0 != fifo2 && fifo1 != fifo2
      requires fifo0.buffer != fifo1.buffer && fifo0.buffer != fifo2.buffer && fifo1.buffer != fifo2.buffer
      requires fifo0.Valid() && fifo1.Valid() && fifo2.Valid() && queue.Valid() && mode.Valid()
      requires mode.transfer != CanMode.Tx
      ensures Valid() && bus == [] && handler.None?
    {
      this.buffers, this.queue, this.mode := buffers, queue, mode;
      this.fifo0, this.fifo1, this.fifo2 := fifo0, fifo1, fifo2;
      handler, bus := None, [];
    }

    method ScanBuffers(ghost st: Store) returns (best: Option<nat>, min: nat)
      requires StoreValid() && st == StoreView()
      ensures BestSoFar(LinesOf(st), TX_BUFFERS, best, min)
    {
      best, min := None, 0xFFFF_FFFF;
      var n := 0;
      while n < TX_BUFFERS
        invariant 0 <= n <= TX_BUFFERS && BestSoFar(LinesOf(st), n, best, min)
      {
        HeadOfLine(st, Buffer(n));
        best, min := Consider(LinesOf(st), n, best, min, if buffers[n].req then Some(buffers[n].frame) else None);
        n := n + 1;
      }
    }

    method ScanFifos(ghost st: Store, best0: Option<nat>, min0: nat, out: Frame) returns (best: Option<nat>, min: nat)
      requires StoreValid() && st == StoreView() && BestSoFar(LinesOf(st), TX_BUFFERS, best0, min0)
      ensures BestSoFar(LinesOf(st), TX_BUFFERS + CHANNEL_FIFOS, best, min)
    {
      best, min := best0, min0;
      var n := 0;
      while n < CHANNEL_FIFOS
        invariant 0 <= n <= CHANNEL_FIFOS && BestSoFar(LinesOf(st), TX_BUFFERS + n, best, min)
      {
        HeadOfLine(st, Fifo(n));
        var fifo := if n == 0 then fifo0 else if n == 1 then fifo1 else fifo2;
        assert st.fifos[n] == FifoView(fifo);
        var code, f := fifo.PeekToSend(out);
        best, min := Consider(LinesOf(st), TX_BUFFERS + n, best, min, if code == Ok then Some(f) else None);
        n := n + 1;
      }
    }

    method ScanQueue(ghost st: Store, best0: Option<nat>, min0: nat) returns (best: Option<nat>, min: nat)
      requires StoreValid() && st == StoreView() && BestSoFar(LinesOf(st), TX_BUFFERS + CHANNEL_FIFOS, best0, min0)
      ensures BestSoFar(LinesOf(st), SOURCES, best, min)
    {
      best, min := best0, min0;
      var n := 0;
      while n < TX_BUFFERS
        invariant 0 <= n <= TX_BUFFERS && BestSoFar(LinesOf(st), TX_BUFFERS + CHANNEL_FIFOS + n, best, min)
      {
        HeadOfLine(st, Slot(n));
        var f := queue.PeekFrame(n);
        best, min := Consider(LinesOf(st), TX_BUFFERS + CHANNEL_FIFOS + n, best, min, f);
        n := n + 1;
      }
    }

    /** The search over the three kinds of source for the frame of least arbitration number. */
    method SelectStandard(out: Frame) returns (w: Option<Source>)
      requires StoreValid()
      ensures w == Winner(StoreView())
    {
      ghost var st := StoreView();
      var best, min := ScanBuffers(st);
      best, min := ScanFifos(st, best, min, out);
      best, min := ScanQueue(st, best, min);
      BestAtEnd(LinesOf(st), best, min);
      w := match best case None => None case Some(k) => Some(SourceAt(k));
    }

    method FetchFifo(n: nat, ghost st: Store, out: Frame) returns (f: Frame)
      requires StoreValid() && StoreView() == st && n < CHANNEL_FIFOS && Pending(st, Fifo(n))
      modifies fifo0`full, fifo0`count, fifo0`roff, fifo1`full, fifo1`count, fifo1`roff, fifo2`full, fifo2`count,
               fifo2`roff
      ensures StoreValid() && StoreView() == Fetch(st, Fifo(n))
      ensures f == st.fifos[n].frames[0]
    {
      if n == 0 {
        f := GetFrom(fifo0, out);
      } else if n == 1 {
        f := GetFrom(fifo1, out);
      } else {
        f := GetFrom(fifo2, out);
      }
    }

    /** Fetches the frame of the winner from wherever it waits. */
    method FetchFrame(src: Source, out: Frame) returns (f: Frame)
      requires StoreValid() && Pending(StoreView(), src)
      modifies buffers, fifo0`full, fifo0`count, fifo0`roff, fifo1`full, fifo1`count, fifo1`roff, fifo2`full,
               fifo2`count, fifo2`roff
      ensures StoreValid()
      ensures f == Waiting(old(StoreView()), src)[0]
      ensures StoreView() == Fetch(old(StoreView()), src)
    {
      match src {
        case Buffer(n) =>
          f := buffers[n].frame;
          buffers[n] := buffers[n].(sending := true);
        case Fifo(n) =>
          f := FetchFifo(n, StoreView(), out);
        case Slot(n) =>
          var g := queue.PeekFrame(n);
          f := g.value;
      }
    }

    /** Enters transmission on behalf of a source. */
    method Begin(src: Source, ghost st: Store)
      requires StoreValid() && StoreView() == st && mode.Valid()
      modifies this`handler, mode
      ensures StoreValid() && StoreView() == st
      ensures mode.Valid() && mode.View() == CanMode.Step(old(mode.View()), CanMode.TxStart)
      ensures handler == Some(src)
    {
      handler := Some(src);
      mode.Handle(CanMode.TxStart);
    }

    /** Fetches the winner's frame and hands it to the bus. */
    method Send(src: Source, ghost st: Store, out: Frame)
      requires StoreValid() && StoreView() == st && Pending(st, src)
      modifies this`bus, buffers
      modifies fifo0`full, fifo0`count, fifo0`roff, fifo1`full, fifo1`count, fifo1`roff, fifo2`full, fifo2`count,
               fifo2`roff
      ensures StoreValid() && StoreView() == Fetch(st, src)
      ensures bus == old(bus) + [Pick(Index(src), Waiting(st, src)[0])]
    {
      var f := FetchFrame(src, out);
      bus := bus + [Pick(Index(src), f)];
    }

    /** Selects a frame and starts to send it. */
    method TransmitNext(ghost st: Store, out: Frame)
      requires StoreValid() && StoreView() == st && mode.Valid()
      modifies this`handler, this`bus, mode, buffers
      modifies fifo0`full, fifo0`count, fifo0`roff, fifo1`full, fifo1`count, fifo1`roff, fifo2`full, fifo2`count,
               fifo2`roff
      ensures StoreValid() && mode.Valid() && handler == Winner(st)
      ensures Winner(st).None? ==> StoreView() == st && mode.View() == old(mode.View()) && bus == old(bus)
      ensures Winner(st).Some? ==>
                var src := Winner(st).value;
                && StoreView() == Fetch(st, src)
                && mode.View() == CanMode.Step(old(mode.View()), CanMode.TxStart)
                && bus == old(bus) + [Pick(Index(src), Waiting(st, src)[0])]
    {
      handler := None;
      var w := SelectStandard(out);
      if w.Some? {
        Begin(w.value, st);
        Send(w.value, st, out);
      }
    }

    /** This channel's part of can_tx_proc. */
    method ProcTransmit(run: bool, out: Frame)
      requires Valid()
      modifies this`handler, this`bus, mode, buffers
      modifies fifo0`full, fifo0`count, fifo0`roff, fifo1`full, fifo1`count, fifo1`roff, fifo2`full, fifo2`count,
               fifo2`roff
      ensures Valid() && View() == Proc(old(View()), run)
    {
      if run && mode.mode == CanMode.Comm && mode.transfer == CanMode.Idle {
        ghost var c := View();
        ProcDoneKeepReady(c, run, true);
        TransmitNext(c.store, out);
        assert View() == Proc(c, run);
      }
    }

    method NotifyFifo(n: nat, ghost st: Store)
      requires StoreValid() && StoreView() == st && n < CHANNEL_FIFOS
      modifies fifo0`txIntr, fifo0`count, fifo0`roff, fifo0`woff, fifo0`empty
      modifies fifo1`txIntr, fifo1`count, fifo1`roff, fifo1`woff, fifo1`empty
      modifies fifo2`txIntr, fifo2`count, fifo2`roff, fifo2`woff, fifo2`empty
      ensures StoreValid() && StoreView() == st
    {
      if n == 0 {
        NotifyOne(fifo0);
      } else if n == 1 {
        NotifyOne(fifo1);
      } else {
        NotifyOne(fifo2);
      }
    }

    method NotifyQueue(n: nat, ghost st: Store)
      requires StoreValid() && StoreView() == st && n < TX_BUFFERS
      modifies queue`reqbufnum, queue`full, queue`empty, queue`intr, queue.slots
      ensures StoreValid() && StoreView() == Release(st, Slot(n))
    {
      queue.NotifySent(n);
    }

    /** Calls the completion handler of a source. */
    method NotifyDone(src: Source, ghost st: Store)
      requires StoreValid() && StoreView() == st && Exists(src)
      modifies buffers, queue`reqbufnum, queue`full, queue`empty, queue`intr, queue.slots
      modifies fifo0`txIntr, fifo0`count, fifo0`roff, fifo0`woff, fifo0`empty
      modifies fifo1`txIntr, fifo1`count, fifo1`roff, fifo1`woff, fifo1`empty
      modifies fifo2`txIntr, fifo2`count, fifo2`roff, fifo2`woff, fifo2`empty
      ensures StoreValid() && StoreView() == Release(st, src)
    {
      match src {
        case Buffer(n) =>
          if buffers[n].req {
            buffers[n] := buffers[n].(result := 2, sending := false, req := false);
          }
        case Fifo(n) =>
          NotifyFifo(n, st);
        case Slot(n) =>
          NotifyQueue(n, st);
      }
    }

    /** Leaves transmission. */
    method End(ghost st: Store)
      requires StoreValid() && StoreView() == st && mode.Valid()
      modifies this`handler, mode
      ensures StoreValid() && StoreView() == st && handler.None?
      ensures mode.Valid() && mode.View() == CanMode.Step(old(mode.View()), CanMode.TxDone)
    {
      handler := None;
      mode.Handle(CanMode.TxDone);
    }

    method Complete(src: Source, ghost st: Store)
      requires StoreValid() && StoreView() == st && mode.Valid() && Exists(src)
      modifies this`handler, mode, buffers, queue`reqbufnum, queue`full, queue`empty, queue`intr, queue.slots
      modifies fifo0`txIntr, fifo0`count, fifo0`roff, fifo0`woff, fifo0`empty
      modifies fifo1`txIntr, fifo1`count, fifo1`roff, fifo1`woff, fifo1`empty
      modifies fifo2`txIntr, fifo2`count, fifo2`roff, fifo2`woff, fifo2`empty
      ensures StoreValid() && StoreView() == Release(st, src) && handler.None?
      ensures mode.Valid() && mode.View() == CanMode.Step(old(mode.View()), CanMode.TxDone)
    {
      NotifyDone(src, st);
      End(Release(st, src));
    }

    /** This channel's part of can_tx_done. */
    method FinishTransmit(run: bool, isDone: bool)
      requires Valid()
      modifies this`handler, mode, buffers, queue`reqbufnum, queue`full, queue`empty, queue`intr, queue.slots
      modifies fifo0`txIntr, fifo0`count, fifo0`roff, fifo0`woff, fifo0`empty
      modifies fifo1`txIntr, fifo1`count, fifo1`roff, fifo1`woff, fifo1`empty
      modifies fifo2`txIntr, fifo2`count, fifo2`roff, fifo2`woff, fifo2`empty
      ensures Valid() && View() == Done(old(View()), run, isDone)
    {
      if run && mode.mode == CanMode.Comm && mode.transfer == CanMode.Tx && isDone {
        ghost var c := View();
        ProcDoneKeepReady(c, run, isDone);
        Complete(handler.value, c.store);
        assert View() == Done(c, run, isDone);
      }
    }
  }
}
