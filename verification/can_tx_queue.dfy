/** The transmit queue of one channel: sixteen slots, filled from the top down. */
module CanTxQueue {
  import opened Common
  import opened CanTypes

  datatype Slot = Slot(req: bool, frame: Frame)

  datatype TxQueue = TxQueue(enable: bool, quelen: nat, intrFactor: bool, reqbufnum: nat, slots: seq<Slot>,
                             full: bool, empty: bool, intr: bool)

  /** Number of requested slots from lo upwards. */
  function Requested(slots: seq<Slot>, lo: nat): (n: nat)
    requires lo <= |slots|
    ensures n <= |slots| - lo
    decreases |slots| - lo
  {
    if lo == |slots| then 0 else (if slots[lo].req then 1 else 0) + Requested(slots, lo + 1)
  }

  /** The highest free slot below n, or |slots| when there is none. */
  function TopFree(slots: seq<Slot>, n: nat): (k: nat)
    requires n <= |slots|
    ensures k < n || k == |slots|
    ensures k < n ==> !slots[k].req && forall j :: k < j < n ==> slots[j].req
    ensures k == |slots| ==> forall j :: 0 <= j < n ==> slots[j].req
    decreases n, |slots|
  {
    if n == 0 then |slots| else if !slots[n - 1].req then n - 1 else TopFree(slots, n - 1)
  }

  function Bottom(q: TxQueue): nat
    requires q.quelen < TX_BUFFERS
  {
    TX_BUFFERS - 1 - q.quelen
  }

  /** The count register counts the requested slots, all of which lie in the top quelen+1 slots, and
      the flags agree with it. */
  predicate Sound(q: TxQueue) {
    && q.quelen < TX_BUFFERS && |q.slots| == TX_BUFFERS
    && (forall k :: 0 <= k < Bottom(q) ==> !q.slots[k].req)
    && q.reqbufnum == Requested(q.slots, Bottom(q))
    && (q.full <==> q.reqbufnum == q.quelen + 1)
    && (q.empty <==> q.reqbufnum == 0)
    && (q.quelen == 0 ==> q.reqbufnum == 0)
  }

  predicate Accepts(q: TxQueue) {
    q.enable && q.quelen != 0 && q.reqbufnum < q.quelen + 1
  }

  function Put(q: TxQueue, f: Frame): TxQueue
    requires |q.slots| == TX_BUFFERS
  {
    var b := TopFree(q.slots, TX_BUFFERS);
    if Accepts(q) && b < TX_BUFFERS then
      q.(slots := q.slots[b := Slot(true, f)], reqbufnum := q.reqbufnum + 1,
         full := q.full || q.reqbufnum + 1 >= q.quelen + 1, empty := false)
    else q
  }

  function Peek(q: TxQueue, k: nat): Option<Frame>
    requires k < |q.slots|
  {
    if q.enable && q.quelen != 0 && q.slots[k].req then Some(q.slots[k].frame) else None
  }

  function Done(q: TxQueue, k: nat): TxQueue
    requires k < |q.slots|
  {
    if !q.slots[k].req then q
    else
      var n := if q.reqbufnum > 0 then q.reqbufnum - 1 else 255;
      var empty := q.empty || n == 0;
      q.(slots := q.slots[k := q.slots[k].(req := false)], reqbufnum := n, full := false, empty := empty,
         intr := q.intr || q.intrFactor || empty)
  }

  // ---------- counting ----------

  lemma {:induction false} RequestedUpdate(slots: seq<Slot>, lo: nat, k: nat, s: Slot)
    requires lo <= |slots| && k < |slots|
    ensures Requested(slots[k := s], lo) ==
            if k < lo || s.req == slots[k].req then Requested(slots, lo)
            else if s.req then Requested(slots, lo) + 1 else Requested(slots, lo) - 1
    decreases |slots| - lo
  {
    if lo < |slots| {
      RequestedUpdate(slots, lo + 1, k, s);
      if k <= lo {
        RequestedAbove(slots, slots[k := s], lo + 1);
      }
    }
  }

  lemma {:induction false} RequestedAbove(a: seq<Slot>, b: seq<Slot>, lo: nat)
    requires |a| == |b| && lo <= |a|
    requires forall k :: lo <= k < |a| ==> a[k].req == b[k].req
    ensures Requested(a, lo) == Requested(b, lo)
    decreases |a| - lo
  {
    if lo < |a| {
      RequestedAbove(a, b, lo + 1);
    }
  }

  /** Pigeonhole: if the count is below the number of slots, one of them is free, and if every slot is
      requested the count is their number. */
  lemma {:induction false} FreeSlotExists(slots: seq<Slot>, lo: nat)
    requires lo <= |slots|
    ensures Requested(slots, lo) < |slots| - lo <==> exists k :: lo <= k < |slots| && !slots[k].req
    decreases |slots| - lo
  {
    if lo < |slots| {
      FreeSlotExists(slots, lo + 1);
    }
  }

  /** The slot a put takes lies inside the queue. */
  lemma PutSlotInRange(q: TxQueue)
    requires Sound(q) && Accepts(q)
    ensures Bottom(q) <= TopFree(q.slots, TX_BUFFERS) < TX_BUFFERS
  {
    FreeSlotExists(q.slots, Bottom(q));
  }

  lemma PutKeepsSound(q: TxQueue, f: Frame)
    requires Sound(q)
    ensures Sound(Put(q, f))
    ensures Accepts(q) <==> Put(q, f).reqbufnum == q.reqbufnum + 1
    ensures Accepts(q) ==> var b := TopFree(q.slots, TX_BUFFERS);
                           b < TX_BUFFERS && Peek(q, b).None? && Peek(Put(q, f), b) == Some(f)
                           && forall k :: 0 <= k < TX_BUFFERS && k != b ==> Peek(Put(q, f), k) == Peek(q, k)
  {
    if Accepts(q) {
      PutSlotInRange(q);
      RequestedUpdate(q.slots, Bottom(q), TopFree(q.slots, TX_BUFFERS), Slot(true, f));
    }
  }

  lemma DoneKeepsSound(q: TxQueue, k: nat)
    requires Sound(q) && k < TX_BUFFERS
    ensures Sound(Done(q, k))
    ensures Peek(Done(q, k), k).None?
    ensures forall j :: 0 <= j < TX_BUFFERS && j != k ==> Peek(Done(q, k), j) == Peek(q, j)
  {
    if q.slots[k].req {
      RequestedUpdate(q.slots, Bottom(q), k, q.slots[k].(req := false));
    }
  }

  class TransmitQueue {
    var enable: bool
    var quelen: nat
    var intrFactor: bool
    var full: bool
    var empty: bool
    var intr: bool
    var reqbufnum: nat
    const slots: array<Slot>

    ghost function View(): TxQueue
      reads this, slots
    {
      TxQueue(enable, quelen, intrFactor, reqbufnum, slots[..], full, empty, intr)
    }

    ghost predicate Valid()
      reads this, slots
    {
      slots.Length == TX_BUFFERS && Sound(View())
    }

    constructor (enable: bool, quelen: nat, intrFactor: bool, frame: Frame)
      requires quelen < TX_BUFFERS
      ensures Valid() && fresh(slots)
      ensures this.enable == enable && this.quelen == quelen && this.intrFactor == intrFactor
      ensures forall k :: 0 <= k < TX_BUFFERS ==> Peek(View(), k).None?
    {
      slots := new Slot[TX_BUFFERS](_ => Slot(false, frame));
      this.enable, this.quelen, this.intrFactor := enable, quelen, intrFactor;
      full, empty, intr, reqbufnum := false, true, false, 0;
      new;
      FreeOnly(slots[..], TX_BUFFERS - 1 - quelen);
    }

    /** The search goes down from the top slot.  The pigeonhole keeps it inside the queue, so it never
        runs out of slots and the index never goes below zero. */
    method PutFrame(f: Frame)
      requires Valid()
      modifies this`reqbufnum, this`full, this`empty, slots
      ensures Valid() && View() == Put(old(View()), f)
    {
      if !enable { return; }
      if quelen == 0 { return; }
      var maxquelen := quelen + 1;
      if reqbufnum >= maxquelen { return; }
      PutSlotInRange(View());
      PutKeepsSound(View(), f);
      ghost var free := TopFree(slots[..], TX_BUFFERS);
      reqbufnum := reqbufnum + 1;
      var count := maxquelen;
      var bufno := TX_BUFFERS - 1;
      while count > 0
        invariant 0 < count <= maxquelen
        invariant bufno == TX_BUFFERS - 1 - (maxquelen - count) && free <= bufno
        invariant forall j :: bufno < j < TX_BUFFERS ==> slots[j].req
      {
        if !slots[bufno].req { break; }
        assert bufno != free;
        count := count - 1;
        bufno := bufno - 1;
      }
      assert bufno == free;
      slots[bufno] := Slot(true, f);
      if reqbufnum >= maxquelen { full := true; }
      empty := false;
      assert slots[..] == old(slots[..])[free := Slot(true, f)];
    }

    method PeekFrame(k: nat) returns (f: Option<Frame>)
      requires Valid() && k < TX_BUFFERS
      ensures f == Peek(View(), k)
    {
      if !enable { return None; }
      if quelen == 0 { return None; }
      if !slots[k].req { return None; }
      return Some(slots[k].frame);
    }

    method NotifySent(k: nat)
      requires Valid() && k < TX_BUFFERS
      modifies this`reqbufnum, this`full, this`empty, this`intr, slots
      ensures Valid() && View() == Done(old(View()), k)
    {
      DoneKeepsSound(View(), k);
      if slots[k].req {
        FreeNot(slots[..], TX_BUFFERS - 1 - quelen, k);
        reqbufnum := reqbufnum - 1;
        slots[k] := slots[k].(req := false);
        full := false;
        if reqbufnum <= 0 { empty := true; }
        if intrFactor {
          intr := true;
        } else if empty {
          intr := true;
        }
        assert slots[..] == old(slots[..])[k := old(slots[k]).(req := false)];
      }
    }
  }

  lemma {:induction false} FreeOnly(slots: seq<Slot>, lo: nat)
    requires lo <= |slots| && forall k :: lo <= k < |slots| ==> !slots[k].req
    ensures Requested(slots, lo) == 0
    decreases |slots| - lo
  {
    if lo < |slots| {
      FreeOnly(slots, lo + 1);
    }
  }

  /** A requested slot of the queue shows in the count. */
  lemma {:induction false} FreeNot(slots: seq<Slot>, lo: nat, k: nat)
    requires lo <= k < |slots| && slots[k].req
    ensures Requested(slots, lo) > 0
    decreases |slots| - lo
  {
    if lo < k {
      FreeNot(slots, lo + 1, k);
    }
  }
}
