/** Draining a channel: rounds of processing hand every waiting frame to the bus exactly once. */
module CanTxDrain {
  import opened Common
  import opened CanTypes
  import opened CanTxSpec
  import opened CanTxMerge
  import CanMode
  import Q = CanTxQueue

  /** One poll of the controller on a running channel whose bus has finished sending. */
  function Round(c: TxChannel): (d: TxChannel)
    requires Ready(c)
    ensures Ready(d)
  {
    ProcDoneKeepReady(c, true, true);
    ProcDoneKeepReady(Proc(c, true), true, true);
    Done(Proc(c, true), true, true)
  }

  function Rounds(c: TxChannel, n: nat): (d: TxChannel)
    requires Ready(c)
    ensures Ready(d)
    decreases n
  {
    if n == 0 then c else Rounds(Round(c), n - 1)
  }

  /** In COMM mode, between transfers, with no WAIT requested. */
  predicate Clear(c: TxChannel) {
    c.mode.mode == CanMode.Comm && c.mode.transfer == CanMode.Idle && c.mode.select == CanMode.SelComm
  }

  // ---------- one round ----------

  lemma ReleaseAfterFetch(st: Store, src: Source)
    requires Shaped(st) && Pending(st, src)
    ensures Shaped(Fetch(st, src)) && Shaped(Release(Fetch(st, src), src))
    ensures var t := Release(Fetch(st, src), src);
            && Waiting(t, src) == Waiting(st, src)[1..]
            && forall o :: Exists(o) && o != src ==> Waiting(t, o) == Waiting(st, o)
  {
    FetchKeepsShape(st, src);
    ReleaseKeepsShape(Fetch(st, src), src);
    if src.Slot? {
      Q.DoneKeepsSound(st.queue, src.n);
    }
  }

  lemma LinesAfterRound(st: Store, src: Source)
    requires Shaped(st) && Winner(st) == Some(src)
    ensures Shaped(Fetch(st, src)) && Shaped(Release(Fetch(st, src), src))
    ensures var p := Pick(Index(src), Waiting(st, src)[0]);
            && Takes(LinesOf(st), LinesOf(Release(Fetch(st, src), src)), p)
            && LeastHead(LinesOf(st), p)
  {
    ReleaseAfterFetch(st, src);
    BestIsFirst(LinesOf(st), 0);
    var t := Release(Fetch(st, src), src);
    var a, b := LinesOf(st), LinesOf(t);
    forall k | 0 <= k < SOURCES && k != Index(src) ensures b[k] == a[k] {
      assert SourceAt(k) != src;
    }
    assert b == a[Index(src) := a[Index(src)][1..]];
  }

  /** A round on a clear channel: a transmission starts and ends. */
  lemma RoundOf(c: TxChannel, src: Source)
    requires Ready(c) && Clear(c) && Winner(c.store) == Some(src)
    ensures Shaped(Fetch(c.store, src))
    ensures Round(c) == c.(store := Release(Fetch(c.store, src), src), handler := None,
                           bus := c.bus + [Pick(Index(src), Waiting(c.store, src)[0])])
  {
    FetchKeepsShape(c.store, src);
  }

  function Snap(c: TxChannel): Snapshot
    requires Ready(c)
  {
    Snapshot(LinesOf(c.store), c.bus)
  }

  /** A round on a clear channel sends one frame, a least head, unless nothing is pending. */
  lemma RoundLinks(c: TxChannel)
    requires Ready(c) && Clear(c)
    ensures Clear(Round(c)) && Linked(Snap(c), Snap(Round(c)))
  {
    BestIsFirst(LinesOf(c.store), 0);
    TotalZero(LinesOf(c.store));
    match Winner(c.store)
    case None =>
    case Some(src) =>
      LinesAfterRound(c.store, src);
      RoundOf(c, src);
      assert LinesOf(c.store)[Index(src)] != [];
  }

  // ---------- many rounds ----------

  function Snaps(c: TxChannel, n: nat): (xs: seq<Snapshot>)
    requires Ready(c)
    ensures |xs| == n + 1 && xs[0] == Snap(c)
    decreases n
  {
    if n == 0 then [Snap(c)] else [Snap(c)] + Snaps(Round(c), n - 1)
  }

  lemma {:induction false} RoundsChain(c: TxChannel, n: nat)
    requires Ready(c) && Clear(c)
    ensures Chain(Snaps(c, n)) && Snaps(c, n)[n] == Snap(Rounds(c, n)) && Clear(Rounds(c, n))
    decreases n
  {
    if n > 0 {
      RoundLinks(c);
      RoundsChain(Round(c), n - 1);
      ChainCons(Snap(c), Snaps(Round(c), n - 1));
    }
  }

  /** Draining: as many rounds as frames wait, or more, hand each frame of each source to the bus exactly
      once, a FIFO's frames in FIFO order, and leave nothing pending. */
  lemma Drain(c: TxChannel, n: nat)
    requires Ready(c) && Clear(c) && Total(LinesOf(c.store)) <= n
    ensures var d := Rounds(c, n);
            && Clear(d) && c.bus <= d.bus
            && (forall src :: Exists(src) ==> Waiting(d.store, src) == [])
            && |d.bus| == |c.bus| + Total(LinesOf(c.store))
            && forall src :: Exists(src) ==> Of(d.bus[|c.bus|..], Index(src)) == Waiting(c.store, src)
  {
    RoundsChain(c, n);
    ChainFinishes(Snaps(c, n));
    TotalZero(LinesOf(Rounds(c, n).store));
  }

  /** The order on the bus: the drained frames leave in non-decreasing order of their arbitration number
      if and only if the frames of each FIFO were queued in that order.  With only buffers and queue slots
      pending that is always so, since each of them holds one frame. */
  lemma DrainOrder(c: TxChannel, n: nat)
    requires Ready(c) && Clear(c) && Total(LinesOf(c.store)) <= n
    ensures |c.bus| <= |Rounds(c, n).bus|
    ensures SortedPicks(Rounds(c, n).bus[|c.bus|..]) <==>
            forall k :: 0 <= k < CHANNEL_FIFOS ==> Sorted(Waiting(c.store, Fifo(k)))
  {
    RoundsChain(c, n);
    ChainFinishes(Snaps(c, n));
    OrderExactly(Snap(c), Snap(Rounds(c, n)));
    FifosDecide(c.store);
  }

  lemma FifosDecide(st: Store)
    requires Shaped(st)
    ensures SortedLines(LinesOf(st)) <==> forall k :: 0 <= k < CHANNEL_FIFOS ==> Sorted(Waiting(st, Fifo(k)))
  {
    var lines := LinesOf(st);
    if forall k :: 0 <= k < CHANNEL_FIFOS ==> Sorted(Waiting(st, Fifo(k))) {
      forall k | 0 <= k < SOURCES ensures Sorted(lines[k]) {
        var src := SourceAt(k);
        assert src.Fifo? ==> src == Fifo(src.n);
      }
    }
    if SortedLines(lines) {
      forall k | 0 <= k < CHANNEL_FIFOS ensures Sorted(Waiting(st, Fifo(k))) {
        assert Sorted(lines[Index(Fifo(k))]);
      }
    }
  }
}
