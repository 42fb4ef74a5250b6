/** What the mode events of a channel and the two transmit steps do, said event by event and place by
    place. */
module CanLaws {
  import opened Common
  import opened CanTypes
  import opened CanTxMerge
  import opened CanTxSpec
  import M = CanMode
  import Q = CanTxQueue

  // ---------- mode events ----------

  /** From every state software brings the channel into each mode, with any transfer cut off. */
  lemma SoftwareReaches(c: M.Channel)
    requires M.Sound(c)
    ensures var r := M.Step(M.Step(c, M.ClrStop), M.SetReset);
            && r == M.Channel(M.Reset, M.Idle, false, M.SelReset)
            && M.Step(r, M.SetComm) == M.Channel(M.Comm, M.Idle, false, M.SelComm)
            && M.Step(r, M.SetWait) == M.Channel(M.Wait, M.Idle, false, M.SelWait)
            && M.Step(r, M.SetStop) == M.Channel(M.Stop, M.Idle, true, M.SelReset)
  {}

  /** When an event is ignored. */
  lemma IgnoredExactly(c: M.Channel, e: M.Event)
    requires M.Sound(c)
    ensures M.Step(c, e) == c <==>
            match e
            case ClrStop => c.mode != M.Stop
            case SetStop => c.mode != M.Reset
            case SetComm => c.mode == M.Stop || c.mode == M.Comm
            case SetReset => c.mode == M.Stop || c.mode == M.Reset
            case SetWait => c.mode == M.Stop || c.mode == M.Wait || (c.mode == M.Comm && c.select == M.SelWait)
            case TxStart => c.mode != M.Comm || c.transfer != M.Idle
            case RxStart => c.mode != M.Comm || c.transfer != M.Idle
            case TxDone => c.transfer != M.Tx
            case RxDone => c.transfer != M.Rx
  {}

  /** What it does otherwise: a request is granted at once, except that WAIT waits for a transfer; a
      transfer begins in COMM mode, and its end grants a WAIT that has been held off. */
  lemma GrantedOtherwise(c: M.Channel, e: M.Event)
    requires M.Sound(c) && M.Step(c, e) != c
    ensures var d := M.Step(c, e);
            match e
            case ClrStop => d == M.Channel(M.Reset, M.Idle, false, M.SelReset)
            case SetStop => d == M.Channel(M.Stop, M.Idle, true, M.SelReset)
            case SetComm => d == M.Channel(M.Comm, M.Idle, false, M.SelComm)
            case SetReset => d == M.Channel(M.Reset, M.Idle, false, M.SelReset)
            case SetWait =>
              d == if c.transfer == M.Idle then M.Channel(M.Wait, M.Idle, false, M.SelWait)
                   else M.Channel(M.Comm, c.transfer, false, M.SelWait)
            case TxStart => d == M.Channel(M.Comm, M.Tx, false, M.SelComm)
            case RxStart => d == M.Channel(M.Comm, M.Rx, false, M.SelComm)
            case _ => d == M.Channel(if c.select == M.SelWait then M.Wait else M.Comm, M.Idle, false, c.select)
  {}

  /** What software reads back. */
  lemma FlagsTell(c: M.Channel)
    requires M.Sound(c)
    ensures var f := M.FlagsOf(c.mode, c.transfer);
            && (f.canComm <==> c.mode == M.Comm) && (f.modeStop <==> c.mode == M.Stop)
            && (f.modeWait <==> c.mode == M.Wait) && (f.modeReset <==> c.mode == M.Stop || c.mode == M.Reset)
            && (f.receiving <==> c.transfer == M.Rx) && (f.sending <==> c.transfer == M.Tx)
  {}

  // ---------- the transmit steps ----------

  /** A frame waits at a requested buffer, in an enabled FIFO in transmit mode, and in a requested slot of
      an enabled queue that is not of length 0. */
  lemma WaitsExactly(st: Store, src: Source)
    requires Shaped(st) && Exists(src)
    ensures Pending(st, src) <==>
            match src
            case Buffer(n) => st.buffers[n].req
            case Fifo(n) => st.fifos[n].on && |st.fifos[n].frames| > 0
            case Slot(n) => st.queue.enable && st.queue.quelen > 0 && st.queue.slots[n].req
  {}

  /** The processing step does something only on a running controller, in COMM mode, between transfers,
      and with a frame waiting; it then hands one frame to the bus, begins the transmission and keeps all
      else of the mode.  With none waiting it only drops the completion handler. */
  lemma ProcessesExactly(c: TxChannel, run: bool)
    requires Shaped(c.store) && M.Sound(c.mode)
    ensures var d := Proc(c, run);
            if !run || c.mode.mode != M.Comm || c.mode.transfer != M.Idle then d == c
            else if forall src :: Exists(src) ==> !Pending(c.store, src) then d == c.(handler := None)
            else
              && d.mode == c.mode.(transfer := M.Tx) && d.handler.Some?
              && Exists(d.handler.value) && Pending(c.store, d.handler.value)
              && d.bus == c.bus + [Pick(Index(d.handler.value), Waiting(c.store, d.handler.value)[0])]
  {
    if Winner(c.store).None? {
      BestIsFirst(LinesOf(c.store), 0);
      forall src | Exists(src) ensures !Pending(c.store, src) {
        assert LinesOf(c.store)[Index(src)] == Waiting(c.store, src);
      }
    }
  }

  /** A buffer being sent is marked, a FIFO gives up its oldest frame, and a slot is left as it is until
      the end; no other place changes. */
  lemma FetchesExactly(st: Store, src: Source)
    requires Shaped(st) && Pending(st, src)
    ensures var t := Fetch(st, src);
            && (forall n :: 0 <= n < TX_BUFFERS ==>
                  t.buffers[n] == if src == Buffer(n) then st.buffers[n].(sending := true) else st.buffers[n])
            && (forall n :: 0 <= n < CHANNEL_FIFOS ==>
                  t.fifos[n].on == st.fifos[n].on &&
                  st.fifos[n].frames == (if src == Fifo(n) then [st.fifos[n].frames[0]] else []) + t.fifos[n].frames)
            && t.queue == st.queue
  {}

  /** The completion step does something only on a running controller, during a transmission, and when the
      bus says that it is done; it then ends the transmission, lets a WAIT held off take effect, and drops
      the handler.  A buffer's request ends with the result that reports success, and a slot's ends. */
  lemma CompletesExactly(c: TxChannel, run: bool, isDone: bool)
    requires Ready(c)
    ensures var d := Done(c, run, isDone);
            if !run || !isDone || c.mode.transfer != M.Tx then d == c
            else
              && d.handler.None? && d.bus == c.bus && d.mode.transfer == M.Idle
              && d.mode.mode == (if c.mode.select == M.SelWait then M.Wait else M.Comm)
              && d.store == Release(c.store, c.handler.value)
  {}

  lemma ReleasesExactly(st: Store, src: Source)
    requires Shaped(st) && Exists(src)
    ensures var t := Release(st, src);
            && t.fifos == st.fifos && |t.buffers| == TX_BUFFERS
            && (forall n :: 0 <= n < TX_BUFFERS ==>
                  t.buffers[n] == if src == Buffer(n) && st.buffers[n].req
                                  then TxBuffer(false, st.buffers[n].frame, false, 2) else st.buffers[n])
            && (forall n :: 0 <= n < TX_BUFFERS ==>
                  t.queue.slots[n] == if src == Slot(n) then Q.Slot(false, st.queue.slots[n].frame)
                                      else st.queue.slots[n])
  {}

  // ---------- the transmit queue ----------

  /** A put is accepted if and only if the queue is enabled, of a length other than 0, and has a free
      slot; it takes the highest free one and raises no interrupt. */
  lemma PutsExactly(q: Q.TxQueue, f: Frame)
    requires Q.Sound(q)
    ensures var t := Q.Put(q, f);
            if q.enable && q.quelen > 0 && q.reqbufnum <= q.quelen then
              exists b :: 0 <= b < TX_BUFFERS && !q.slots[b].req && (forall j :: b < j < TX_BUFFERS ==> q.slots[j].req)
                          && t.slots == q.slots[b := Q.Slot(true, f)] && !t.empty && t.intr == q.intr
            else t == q
  {
    if Q.Accepts(q) {
      Q.PutSlotInRange(q);
    }
  }

  /** The end of a transmission raises the interrupt with the per-frame option, or when the queue is
      empty. */
  lemma QueueInterruptExactly(q: Q.TxQueue, k: nat)
    requires Q.Sound(q) && k < TX_BUFFERS && q.slots[k].req
    ensures Q.Done(q, k).intr <==> q.intr || q.intrFactor || q.reqbufnum == 1
  {
    Q.DoneKeepsSound(q, k);
    Q.RequestedUpdate(q.slots, Q.Bottom(q), k, q.slots[k].(req := false));
  }
}
