/** Transmission on one channel: which pending frame goes next, and what a round of processing does. */
module CanTxSpec {
  import opened Common
  import opened CanTypes
  import opened CanTxMerge
  import CanMode
  import Q = CanTxQueue

  datatype TxBuffer = TxBuffer(req: bool, frame: Frame, sending: bool, result: nat)

  /** A FIFO as the sender sees it: on when it is enabled and in transmit mode. */
  datatype TxFifo = TxFifo(on: bool, frames: seq<Frame>)

  datatype Source = Buffer(n: nat) | Fifo(n: nat) | Slot(n: nat)

  predicate Exists(src: Source) {
    match src
    case Buffer(n) => n < TX_BUFFERS
    case Fifo(n) => n < CHANNEL_FIFOS
    case Slot(n) => n < TX_BUFFERS
  }

  /** Position of a source in the scan. */
  function Index(src: Source): nat {
    match src
    case Buffer(n) => n
    case Fifo(n) => TX_BUFFERS + n
    case Slot(n) => TX_BUFFERS + CHANNEL_FIFOS + n
  }

  const SOURCES: nat := TX_BUFFERS + CHANNEL_FIFOS + TX_BUFFERS

  function SourceAt(k: nat): (src: Source)
    requires k < SOURCES
    ensures Exists(src) && Index(src) == k
  {
    if k < TX_BUFFERS then Buffer(k)
    else if k < TX_BUFFERS + CHANNEL_FIFOS then Fifo(k - TX_BUFFERS)
    else Slot(k - TX_BUFFERS - CHANNEL_FIFOS)
  }

  /** The places frames wait in. */
  datatype Store = Store(buffers: seq<TxBuffer>, fifos: seq<TxFifo>, queue: Q.TxQueue)

  predicate Shaped(st: Store) {
    |st.buffers| == TX_BUFFERS && |st.fifos| == CHANNEL_FIFOS && Q.Sound(st.queue)
  }

  /** The frames that wait at one source, in the order in which they will leave. */
  function Waiting(st: Store, src: Source): seq<Frame>
    requires Shaped(st) && Exists(src)
  {
    match src
    case Buffer(n) => if st.buffers[n].req then [st.buffers[n].frame] else []
    case Fifo(n) => if st.fifos[n].on then st.fifos[n].frames else []
    case Slot(n) => var f := Q.Peek(st.queue, n); if f.Some? then [f.value] else []
  }

  /** The frames of all sources, in the order of the scan. */
  function LinesOf(st: Store): (lines: Lines)
    requires Shaped(st)
    ensures |lines| == SOURCES
    ensures forall src :: Exists(src) ==> lines[Index(src)] == Waiting(st, src)
  {
    seq(SOURCES, k requires 0 <= k < SOURCES => Waiting(st, SourceAt(k)))
  }

  predicate Pending(st: Store, src: Source)
    requires Shaped(st)
  {
    Exists(src) && Waiting(st, src) != []
  }

  /** The source whose frame goes next: least rank, and on a tie the source scanned first. */
  function Winner(st: Store): (w: Option<Source>)
    requires Shaped(st)
    ensures w.Some? ==> Pending(st, w.value)
  {
    match Best(LinesOf(st), 0)
    case None => None
    case Some(k) => Some(SourceAt(k))
  }

  // ---------- sending and finishing ----------

  /** Fetching the frame to send: a FIFO gives it up, a buffer is marked as sending. */
  function Fetch(st: Store, src: Source): Store
    requires Shaped(st) && Pending(st, src)
  {
    match src
    case Buffer(n) => st.(buffers := st.buffers[n := st.buffers[n].(sending := true)])
    case Fifo(n) => st.(fifos := st.fifos[n := st.fifos[n].(frames := st.fifos[n].frames[1..])])
    case Slot(_) => st
  }

  /** The end of a transmission: a buffer or slot gives up its request. */
  function Release(st: Store, src: Source): Store
    requires Shaped(st) && Exists(src)
  {
    match src
    case Buffer(n) =>
      if st.buffers[n].req then
        st.(buffers := st.buffers[n := st.buffers[n].(req := false, sending := false, result := 2)])
      else st
    case Fifo(_) => st
    case Slot(n) => st.(queue := Q.Done(st.queue, n))
  }

  /** One channel: its store, its mode, the completion handler and the frames handed to the bus. */
  datatype TxChannel = TxChannel(store: Store, mode: CanMode.Channel, handler: Option<Source>, bus: seq<Pick>)

  function Proc(c: TxChannel, run: bool): TxChannel
    requires Shaped(c.store)
  {
    if !run || c.mode.mode != CanMode.Comm || c.mode.transfer != CanMode.Idle then c
    else match Winner(c.store)
         case None => c.(handler := None)
         case Some(src) =>
           c.(store := Fetch(c.store, src), mode := CanMode.Step(c.mode, CanMode.TxStart), handler := Some(src),
              bus := c.bus + [Pick(Index(src), Waiting(c.store, src)[0])])
  }

  predicate Ready(c: TxChannel) {
    && Shaped(c.store)
    && CanMode.Sound(c.mode)
    && (c.handler.Some? ==> Exists(c.handler.value))
    && (c.mode.transfer == CanMode.Tx ==> c.handler.Some?)
  }

  function Done(c: TxChannel, run: bool, isDone: bool): TxChannel
    requires Ready(c)
  {
    if !run || c.mode.mode != CanMode.Comm || c.mode.transfer != CanMode.Tx || !isDone then c
    else c.(store := Release(c.store, c.handler.value), mode := CanMode.Step(c.mode, CanMode.TxDone), handler := None)
  }

  // ---------- Ready is kept ----------

  lemma FetchKeepsShape(st: Store, src: Source)
    requires Shaped(st) && Pending(st, src)
    ensures Shaped(Fetch(st, src))
  {}

  lemma ReleaseKeepsShape(st: Store, src: Source)
    requires Shaped(st) && Exists(src)
    ensures Shaped(Release(st, src))
  {
    if src.Slot? {
      Q.DoneKeepsSound(st.queue, src.n);
    }
  }

  /** The completion handler that the end of a transmission calls is never null. */
  lemma ProcDoneKeepReady(c: TxChannel, run: bool, isDone: bool)
    requires Ready(c)
    ensures Ready(Proc(c, run)) && Ready(Done(c, run, isDone))
  {
    if Winner(c.store).Some? {
      FetchKeepsShape(c.store, Winner(c.store).value);
    }
    if c.handler.Some? {
      ReleaseKeepsShape(c.store, c.handler.value);
    }
  }

  /** Nor do mode events from software or the receiver disturb it, whatever they and the register
      accesses that come with them do to the store. */
  lemma OtherEventKeepsReady(c: TxChannel, e: CanMode.Event, st: Store)
    requires Ready(c) && e != CanMode.TxStart && Shaped(st)
    ensures Ready(c.(mode := CanMode.Step(c.mode, e), store := st))
  {}

  // ---------- whole runs ----------

  /** What happens to a channel: the two processing steps, each with the state of the controller and the
      bus, and a mode event together with what register accesses have made of the store. */
  datatype Action = Processing(run: bool) | Completion(run: bool, isDone: bool) | Other(e: CanMode.Event, store: Store)

  /** A transmission is started by the processing step only. */
  predicate Possible(a: Action) {
    a.Other? ==> a.e != CanMode.TxStart && Shaped(a.store)
  }

  function Act(c: TxChannel, a: Action): (d: TxChannel)
    requires Ready(c) && Possible(a)
    ensures Ready(d)
  {
    ProcDoneKeepReady(c, a.Processing? && a.run, a.Completion? && a.isDone);
    match a
    case Processing(run) => Proc(c, run)
    case Completion(run, isDone) =>
      ProcDoneKeepReady(c, run, isDone);
      Done(c, run, isDone)
    case Other(e, store) =>
      OtherEventKeepsReady(c, e, store);
      c.(mode := CanMode.Step(c.mode, e), store := store)
  }

  function ActAll(c: TxChannel, actions: seq<Action>): (d: TxChannel)
    requires Ready(c) && forall a :: a in actions ==> Possible(a)
    ensures Ready(d)
    decreases |actions|
  {
    if actions == [] then c else ActAll(Act(c, actions[0]), actions[1..])
  }

  /** While a frame is being sent the completion handler is that of the place the frame came from. */
  predicate Answers(c: TxChannel) {
    c.mode.transfer == CanMode.Tx ==>
      c.handler.Some? && c.bus != [] && Index(c.handler.value) == c.bus[|c.bus| - 1].k
  }

  lemma ActKeepsAnswers(c: TxChannel, a: Action)
    requires Ready(c) && Answers(c) && Possible(a)
    ensures Answers(Act(c, a))
  {}

  /** Over any sequence of processing steps, completions and mode events: the completion handler that is
      called at the end of a transmission is there, and it is that of the place from which the frame being
      sent was fetched. */
  lemma {:induction false} HandlerOverRuns(c: TxChannel, actions: seq<Action>)
    requires Ready(c) && Answers(c) && forall a :: a in actions ==> Possible(a)
    ensures Ready(ActAll(c, actions)) && Answers(ActAll(c, actions))
    decreases |actions|
  {
    if actions != [] {
      ActKeepsAnswers(c, actions[0]);
      HandlerOverRuns(Act(c, actions[0]), actions[1..]);
    }
  }
}
