/** Reception: which places a received frame is offered to, and what they hold afterwards. */
module CanRxSpec {
  import opened Common
  import opened CanTypes
  import opened CanRxRules
  import CanMode
  import F = CanFifo

  const RX_BUFFERS: nat := 96

  function Bit(n: nat, k: nat): nat {
    n / Pow2(k) % 2
  }

  /** The two identifiers agree wherever the mask has a bit. */
  predicate SameUnder(mask: set<nat>, a: nat, b: nat) {
    forall k :: k in mask ==> Bit(a, k) == Bit(b, k)
  }

  /** The acceptance filter. */
  predicate Accepts(r: Rule, f: Frame) {
    && (r.maskIde ==> r.ide == f.ide)
    && (r.maskRtr ==> r.rtr == f.rtr)
    && SameUnder(r.maskId, r.canid, f.id)
  }

  /** The length filter. */
  predicate LongEnough(check: bool, r: Rule, f: Frame) {
    check && r.dlc != 0 ==> f.dlc >= r.dlc
  }

  predicate Passes(check: bool, r: Rule, f: Frame) {
    Accepts(r, f) && LongEnough(check, r, f)
  }

  /** Channel FIFO b of channel c. */
  function Own(c: nat, b: nat): nat {
    3 * c + b
  }

  datatype Dest = Buffer(n: nat) | Fifo(n: nat) | ChannelFifo(n: nat)

  /** Is d among the destinations of a rule of channel c? */
  predicate Names(r: Rule, c: nat, d: Dest) {
    match d
    case Buffer(n) => r.toBuffer && n == r.buffer
    case Fifo(n) => n < RX_FIFOS && n in r.rxFifo
    case ChannelFifo(n) => Own(c, 0) <= n < Own(c, CHANNEL_FIFOS) && n in r.txrxFifo
  }

  function Labelled(r: Rule, f: Frame): Frame {
    f.(tag := r.tag)
  }

  // ---------- offers ----------

  datatype Offer = Offer(dest: Dest, frame: Frame)

  function BufferOffers(r: Rule, f: Frame): seq<Offer> {
    if r.toBuffer then [Offer(Buffer(r.buffer), f)] else []
  }

  /** To the receive FIFOs below n, in order. */
  function FifoOffers(r: Rule, f: Frame, n: nat): seq<Offer>
    decreases n, |r.rxFifo|
  {
    if n == 0 then []
    else FifoOffers(r, f, n - 1) + if n - 1 in r.rxFifo then [Offer(Fifo(n - 1), f)] else []
  }

  /** To the first n FIFOs of channel c, in order. */
  function ChannelOffers(r: Rule, c: nat, f: Frame, n: nat): seq<Offer>
    decreases n, |r.txrxFifo|
  {
    if n == 0 then []
    else ChannelOffers(r, c, f, n - 1) +
         if Own(c, n - 1) in r.txrxFifo then [Offer(ChannelFifo(Own(c, n - 1)), f)] else []
  }

  function RuleOffers(r: Rule, c: nat, f: Frame): seq<Offer> {
    BufferOffers(r, f) + FifoOffers(r, f, RX_FIFOS) + ChannelOffers(r, c, f, CHANNEL_FIFOS)
  }

  /** All offers of frame f received on channel c under the channel's rules. */
  function Offers(check: bool, rules: seq<Rule>, c: nat, f: Frame): seq<Offer>
    decreases |rules|
  {
    if rules == [] then []
    else
      var r := rules[|rules| - 1];
      Offers(check, rules[..|rules| - 1], c, f) + if Passes(check, r, f) then RuleOffers(r, c, Labelled(r, f)) else []
  }

  /** The frames offered to one destination, in order. */
  function FramesTo(os: seq<Offer>, d: Dest): seq<Frame>
    decreases |os|
  {
    if os == [] then []
    else
      var o := os[|os| - 1];
      FramesTo(os[..|os| - 1], d) + if o.dest == d then [o.frame] else []
  }

  lemma {:induction false} FramesToAppend(a: seq<Offer>, b: seq<Offer>, d: Dest)
    ensures FramesTo(a + b, d) == FramesTo(a, d) + FramesTo(b, d)
    decreases |b|
  {
    if b == [] {
      assert a + b == a;
    } else {
      assert (a + b)[..|a + b| - 1] == a + b[..|b| - 1];
      FramesToAppend(a, b[..|b| - 1], d);
    }
  }

  lemma FramesToOne(o: Offer, d: Dest)
    ensures FramesTo([o], d) == if o.dest == d then [o.frame] else []
  {
    assert [o][..0] == [];
    assert FramesTo([o][..0], d) == [];
  }

  lemma {:induction false} FifoOffersTo(r: Rule, f: Frame, n: nat, d: Dest)
    ensures FramesTo(FifoOffers(r, f, n), d) == if d.Fifo? && d.n < n && d.n in r.rxFifo then [f] else []
    decreases n
  {
    if n > 0 {
      FifoOffersTo(r, f, n - 1, d);
      FramesToOne(Offer(Fifo(n - 1), f), d);
      FramesToAppend(FifoOffers(r, f, n - 1), if n - 1 in r.rxFifo then [Offer(Fifo(n - 1), f)] else [], d);
    }
  }

  lemma {:induction false} ChannelOffersTo(r: Rule, c: nat, f: Frame, n: nat, d: Dest)
    ensures FramesTo(ChannelOffers(r, c, f, n), d) ==
            if d.ChannelFifo? && Own(c, 0) <= d.n < Own(c, n) && d.n in r.txrxFifo then [f] else []
    decreases n
  {
    if n > 0 {
      var m := Own(c, n - 1);
      ChannelOffersTo(r, c, f, n - 1, d);
      FramesToOne(Offer(ChannelFifo(m), f), d);
      FramesToAppend(ChannelOffers(r, c, f, n - 1), if m in r.txrxFifo then [Offer(ChannelFifo(m), f)] else [], d);
    }
  }

  /** A rule offers the frame once to each destination it names and to no other. */
  lemma RuleOffersTo(r: Rule, c: nat, f: Frame, d: Dest)
    ensures FramesTo(RuleOffers(r, c, f), d) == if Names(r, c, d) then [f] else []
  {
    FramesToOne(Offer(Buffer(r.buffer), f), d);
    FifoOffersTo(r, f, RX_FIFOS, d);
    ChannelOffersTo(r, c, f, CHANNEL_FIFOS, d);
    FramesToAppend(BufferOffers(r, f), FifoOffers(r, f, RX_FIFOS), d);
    FramesToAppend(BufferOffers(r, f) + FifoOffers(r, f, RX_FIFOS), ChannelOffers(r, c, f, CHANNEL_FIFOS), d);
  }

  /** One copy for every rule that passes the frame and names the destination, with that rule's label,
      in the order of the rules. */
  function Copies(check: bool, rules: seq<Rule>, c: nat, f: Frame, d: Dest): seq<Frame>
    decreases |rules|
  {
    if rules == [] then []
    else
      var r := rules[|rules| - 1];
      Copies(check, rules[..|rules| - 1], c, f, d) +
      if Passes(check, r, f) && Names(r, c, d) then [Labelled(r, f)] else []
  }

  /** Routing is exact. */
  lemma {:induction false} ExactRouting(check: bool, rules: seq<Rule>, c: nat, f: Frame, d: Dest)
    ensures FramesTo(Offers(check, rules, c, f), d) == Copies(check, rules, c, f, d)
    decreases |rules|
  {
    if rules != [] {
      var r := rules[|rules| - 1];
      var before := rules[..|rules| - 1];
      ExactRouting(check, before, c, f, d);
      RuleOffersTo(r, c, Labelled(r, f), d);
      FramesToAppend(Offers(check, before, c, f),
                     if Passes(check, r, f) then RuleOffers(r, c, Labelled(r, f)) else [], d);
    }
  }

  // ---------- what the destinations hold ----------

  datatype RxBuffer = RxBuffer(arrived: bool, frame: Frame)

  datatype Sinks = Sinks(buffers: seq<RxBuffer>, fifos: seq<F.RxState>, channelFifos: seq<F.RxState>)

  predicate Present(s: Sinks, d: Dest) {
    match d
    case Buffer(n) => n < |s.buffers|
    case Fifo(n) => n < |s.fifos|
    case ChannelFifo(n) => n < |s.channelFifos|
  }

  function Put(s: Sinks, o: Offer): Sinks
    requires Present(s, o.dest)
  {
    match o.dest
    case Buffer(n) => s.(buffers := s.buffers[n := RxBuffer(true, o.frame)])
    case Fifo(n) => s.(fifos := s.fifos[n := F.Offered(s.fifos[n], o.frame)])
    case ChannelFifo(n) => s.(channelFifos := s.channelFifos[n := F.Offered(s.channelFifos[n], o.frame)])
  }

  predicate AllPresent(s: Sinks, os: seq<Offer>) {
    forall i :: 0 <= i < |os| ==> Present(s, os[i].dest)
  }

  function PutAll(s: Sinks, os: seq<Offer>): (t: Sinks)
    requires AllPresent(s, os)
    ensures |t.buffers| == |s.buffers| && |t.fifos| == |s.fifos| && |t.channelFifos| == |s.channelFifos|
    decreases |os|
  {
    if os == [] then s else Put(PutAll(s, os[..|os| - 1]), os[|os| - 1])
  }

  lemma PutAllLast(s: Sinks, os: seq<Offer>, o: Offer)
    requires AllPresent(s, os) && Present(s, o.dest)
    ensures AllPresent(s, os + [o]) && Present(PutAll(s, os), o.dest)
    ensures PutAll(s, os + [o]) == Put(PutAll(s, os), o)
  {
    assert (os + [o])[..|os + [o]| - 1] == os;
  }

  lemma {:induction false} PutAllAppend(s: Sinks, a: seq<Offer>, b: seq<Offer>)
    requires AllPresent(s, a) && AllPresent(s, b)
    ensures AllPresent(s, a + b) && AllPresent(PutAll(s, a), b)
    ensures PutAll(s, a + b) == PutAll(PutAll(s, a), b)
    decreases |b|
  {
    if b == [] {
      assert a + b == a;
    } else {
      assert (a + b)[..|a + b| - 1] == a + b[..|b| - 1];
      PutAllAppend(s, a, b[..|b| - 1]);
    }
  }

  function OfferedAll(q: F.RxState, fs: seq<Frame>): F.RxState
    decreases |fs|
  {
    if fs == [] then q else F.Offered(OfferedAll(q, fs[..|fs| - 1]), fs[|fs| - 1])
  }

  lemma OfferedLast(q: F.RxState, fs: seq<Frame>, f: Frame)
    ensures OfferedAll(q, fs + [f]) == F.Offered(OfferedAll(q, fs), f)
  {
    assert (fs + [f])[..|fs + [f]| - 1] == fs;
  }

  function QueueAt(s: Sinks, d: Dest): F.RxState
    requires Present(s, d) && !d.Buffer?
  {
    if d.Fifo? then s.fifos[d.n] else s.channelFifos[d.n]
  }

  /** Only the frames offered to a FIFO affect it. */
  lemma {:induction false} FifoAfter(s: Sinks, os: seq<Offer>, d: Dest)
    requires AllPresent(s, os) && Present(s, d) && !d.Buffer?
    ensures QueueAt(PutAll(s, os), d) == OfferedAll(QueueAt(s, d), FramesTo(os, d))
    decreases |os|
  {
    if os != [] {
      var o := os[|os| - 1];
      var before := os[..|os| - 1];
      FifoAfter(s, before, d);
      if o.dest == d {
        OfferedLast(QueueAt(s, d), FramesTo(before, d), o.frame);
      } else {
        assert FramesTo(os, d) == FramesTo(before, d);
        match o.dest
        case Buffer(_) =>
        case Fifo(n) => assert d.Fifo? ==> d.n != n;
        case ChannelFifo(n) => assert d.ChannelFifo? ==> d.n != n;
      }
    }
  }

  /** Only the last frame offered to a buffer is left in it. */
  lemma {:induction false} BufferAfter(s: Sinks, os: seq<Offer>, n: nat)
    requires AllPresent(s, os) && n < |s.buffers|
    ensures var fs := FramesTo(os, Buffer(n));
            PutAll(s, os).buffers[n] == if fs == [] then s.buffers[n] else RxBuffer(true, fs[|fs| - 1])
    decreases |os|
  {
    if os != [] {
      BufferAfter(s, os[..|os| - 1], n);
    }
  }

  /** The free places of an open FIFO. */
  function Space(q: F.RxState): nat {
    if !q.open || |q.frames| >= q.depth then 0 else q.depth - |q.frames|
  }

  function Least(a: nat, b: nat): nat {
    if a < b then a else b
  }

  /** A FIFO takes the first frames offered, as many as it has room for, and flags the loss of the rest. */
  lemma {:induction false} FirstFit(q: F.RxState, fs: seq<Frame>)
    ensures var t := OfferedAll(q, fs);
            && t.open == q.open && t.depth == q.depth
            && t.frames == q.frames + fs[..Least(|fs|, Space(q))]
            && t.lost == (q.lost || (q.open && |fs| > Space(q)))
    decreases |fs|
  {
    if fs == [] {
      assert q.frames + fs[..0] == q.frames;
    } else {
      var init := fs[..|fs| - 1];
      FirstFit(q, init);
      if |fs| <= Space(q) {
        assert fs[..|fs|] == init + [fs[|fs| - 1]];
      } else {
        assert fs[..Space(q)] == init[..Space(q)];
      }
    }
  }

  // ---------- one frame ----------

  /** Every buffer a rule of the list sends to exists. */
  predicate BuffersExist(rules: seq<Rule>) {
    forall i :: 0 <= i < |rules| && rules[i].toBuffer ==> rules[i].buffer < RX_BUFFERS
  }

  predicate Full(s: Sinks) {
    |s.buffers| == RX_BUFFERS && |s.fifos| == RX_FIFOS && |s.channelFifos| == 18
  }

  lemma {:induction false} FifoOffersPresent(s: Sinks, r: Rule, f: Frame, n: nat)
    requires Full(s) && n <= RX_FIFOS
    ensures AllPresent(s, FifoOffers(r, f, n))
    decreases n
  {
    if n > 0 {
      FifoOffersPresent(s, r, f, n - 1);
    }
  }

  lemma {:induction false} ChannelOffersPresent(s: Sinks, r: Rule, c: nat, f: Frame, n: nat)
    requires Full(s) && c < CHANNELS && n <= CHANNEL_FIFOS
    ensures AllPresent(s, ChannelOffers(r, c, f, n))
    decreases n
  {
    if n > 0 {
      ChannelOffersPresent(s, r, c, f, n - 1);
    }
  }

  lemma RuleOffersPresent(s: Sinks, r: Rule, c: nat, f: Frame)
    requires Full(s) && c < CHANNELS && (r.toBuffer ==> r.buffer < RX_BUFFERS)
    ensures AllPresent(s, RuleOffers(r, c, f))
  {
    FifoOffersPresent(s, r, f, RX_FIFOS);
    ChannelOffersPresent(s, r, c, f, CHANNEL_FIFOS);
  }

  lemma {:induction false} OffersPresent(s: Sinks, check: bool, rules: seq<Rule>, c: nat, f: Frame)
    requires Full(s) && c < CHANNELS && BuffersExist(rules)
    ensures AllPresent(s, Offers(check, rules, c, f))
    decreases |rules|
  {
    if rules != [] {
      var r := rules[|rules| - 1];
      OffersPresent(s, check, rules[..|rules| - 1], c, f);
      RuleOffersPresent(s, r, c, Labelled(r, f));
    }
  }

  /** What a reception leaves in a FIFO: as many of its copies as fit, after what it held before. */
  lemma Delivered(s: Sinks, check: bool, rules: seq<Rule>, c: nat, f: Frame, d: Dest)
    requires Full(s) && c < CHANNELS && BuffersExist(rules) && Present(s, d) && !d.Buffer?
    ensures AllPresent(s, Offers(check, rules, c, f))
    ensures var copies := Copies(check, rules, c, f, d);
            var q := QueueAt(s, d);
            var t := QueueAt(PutAll(s, Offers(check, rules, c, f)), d);
            && t.frames == q.frames + copies[..Least(|copies|, Space(q))]
            && t.lost == (q.lost || (q.open && |copies| > Space(q)))
  {
    OffersPresent(s, check, rules, c, f);
    FifoAfter(s, Offers(check, rules, c, f), d);
    ExactRouting(check, rules, c, f, d);
    FirstFit(QueueAt(s, d), Copies(check, rules, c, f, d));
  }

  /** Is the frame refused for its length by a rule that accepts its identifier? */
  predicate TooShortFor(check: bool, rules: seq<Rule>, f: Frame) {
    exists i :: 0 <= i < |rules| && Accepts(rules[i], f) && !LongEnough(check, rules[i], f)
  }

  lemma TooShortNext(check: bool, rules: seq<Rule>, f: Frame, n: nat)
    requires n < |rules|
    ensures TooShortFor(check, rules[..n + 1], f) <==>
            TooShortFor(check, rules[..n], f) || (Accepts(rules[n], f) && !LongEnough(check, rules[n], f))
  {
    var longer := rules[..n + 1];
    if TooShortFor(check, rules[..n], f) {
      var i :| 0 <= i < n && Accepts(rules[..n][i], f) && !LongEnough(check, rules[..n][i], f);
      assert longer[i] == rules[..n][i];
    }
    if Accepts(rules[n], f) && !LongEnough(check, rules[n], f) {
      assert longer[n] == rules[n];
    }
    if TooShortFor(check, longer, f) {
      var i :| 0 <= i < n + 1 && Accepts(longer[i], f) && !LongEnough(check, longer[i], f);
      assert i < n ==> rules[..n][i] == longer[i];
    }
  }

  // ---------- all channels ----------

  /** The rule lists of the channels and the length check option. */
  datatype Config = Config(lists: seq<seq<Rule>>, check: bool)

  predicate Usable(k: Config) {
    |k.lists| == CHANNELS && forall c :: 0 <= c < CHANNELS ==> BuffersExist(k.lists[c])
  }

  /** A waiting frame is taken if the channel communicates and is not sending. */
  predicate Takes(m: CanMode.Channel, arrival: Option<Frame>) {
    arrival.Some? && m.mode == CanMode.Comm && m.transfer != CanMode.Tx
  }

  /** The mode of a channel after it has taken a frame. */
  function AfterFrame(m: CanMode.Channel): CanMode.Channel {
    CanMode.Step(CanMode.Step(m, CanMode.RxStart), CanMode.RxDone)
  }

  function ChannelOffersOf(k: Config, m: CanMode.Channel, arrival: Option<Frame>, c: nat): seq<Offer>
    requires c < |k.lists|
  {
    if Takes(m, arrival) then Offers(k.check, k.lists[c], c, arrival.value) else []
  }

  /** The offers of the first n channels. */
  function OffersBelow(k: Config, modes: seq<CanMode.Channel>, arrivals: seq<Option<Frame>>, n: nat): seq<Offer>
    requires n <= |k.lists| && n <= |modes| && n <= |arrivals|
  {
    if n == 0 then []
    else OffersBelow(k, modes, arrivals, n - 1) + ChannelOffersOf(k, modes[n - 1], arrivals[n - 1], n - 1)
  }

  lemma {:induction false} OffersBelowPresent(s: Sinks, k: Config, modes: seq<CanMode.Channel>,
                                              arrivals: seq<Option<Frame>>, n: nat)
    requires Full(s) && Usable(k) && |modes| == CHANNELS && |arrivals| == CHANNELS && n <= CHANNELS
    ensures AllPresent(s, OffersBelow(k, modes, arrivals, n))
  {
    if n > 0 {
      OffersBelowPresent(s, k, modes, arrivals, n - 1);
      if Takes(modes[n - 1], arrivals[n - 1]) {
        OffersPresent(s, k.check, k.lists[n - 1], n - 1, arrivals[n - 1].value);
      }
    }
  }

  lemma {:induction false} NotNamed(check: bool, rules: seq<Rule>, c: nat, f: Frame, d: Dest)
    requires forall r: Rule :: !Names(r, c, d)
    ensures Copies(check, rules, c, f, d) == []
    decreases |rules|
  {
    if rules != [] {
      NotNamed(check, rules[..|rules| - 1], c, f, d);
    }
  }

  /** The copies that channel c makes for a destination. */
  function ChannelCopies(k: Config, m: CanMode.Channel, arrival: Option<Frame>, c: nat, d: Dest): seq<Frame>
    requires c < |k.lists|
  {
    if Takes(m, arrival) then Copies(k.check, k.lists[c], c, arrival.value, d) else []
  }

  lemma ChannelOffersAreCopies(k: Config, m: CanMode.Channel, arrival: Option<Frame>, c: nat, d: Dest)
    requires c < |k.lists|
    ensures FramesTo(ChannelOffersOf(k, m, arrival, c), d) == ChannelCopies(k, m, arrival, c, d)
  {
    if Takes(m, arrival) {
      ExactRouting(k.check, k.lists[c], c, arrival.value, d);
    }
  }

  /** The copies that the first n channels make for a destination: channel by channel, and within a
      channel in the order of its rules. */
  function CopiesBelow(k: Config, modes: seq<CanMode.Channel>, arrivals: seq<Option<Frame>>, n: nat,
      d: Dest): seq<Frame>
    requires n <= |k.lists| && n <= |modes| && n <= |arrivals|
  {
    if n == 0 then []
    else CopiesBelow(k, modes, arrivals, n - 1, d) + ChannelCopies(k, modes[n - 1], arrivals[n - 1], n - 1, d)
  }

  lemma JoinCopies(a: seq<Offer>, b: seq<Offer>, d: Dest, x: seq<Frame>, y: seq<Frame>)
    requires FramesTo(a, d) == x && FramesTo(b, d) == y
    ensures FramesTo(a + b, d) == x + y
  {
    FramesToAppend(a, b, d);
  }

  lemma {:induction false} OffersAreCopies(k: Config, modes: seq<CanMode.Channel>, arrivals: seq<Option<Frame>>, n: nat,
      d: Dest)
    requires n <= |k.lists| && n <= |modes| && n <= |arrivals|
    ensures FramesTo(OffersBelow(k, modes, arrivals, n), d) == CopiesBelow(k, modes, arrivals, n, d)
    decreases n
  {
    if n > 0 {
      var a, b := OffersBelow(k, modes, arrivals, n - 1), ChannelOffersOf(k, modes[n - 1], arrivals[n - 1], n - 1);
      OffersAreCopies(k, modes, arrivals, n - 1, d);
      ChannelOffersAreCopies(k, modes[n - 1], arrivals[n - 1], n - 1, d);
      JoinCopies(a, b, d, CopiesBelow(k, modes, arrivals, n - 1, d),
          ChannelCopies(k, modes[n - 1], arrivals[n - 1], n - 1, d));
      assert OffersBelow(k, modes, arrivals, n) == a + b;
    }
  }

  /** Channel j makes copies for a FIFO of channel c only if the two are the same. */
  lemma OtherChannel(k: Config, m: CanMode.Channel, arrival: Option<Frame>, j: nat, c: nat, b: nat)
    requires j < |k.lists| && b < CHANNEL_FIFOS && j != c
    ensures ChannelCopies(k, m, arrival, j, ChannelFifo(Own(c, b))) == []
  {
    if Takes(m, arrival) {
      NotNamed(k.check, k.lists[j], j, arrival.value, ChannelFifo(Own(c, b)));
    }
  }

  lemma {:induction false} IsolatedCopies(k: Config, modes: seq<CanMode.Channel>, arrivals: seq<Option<Frame>>,
                                          n: nat, c: nat, b: nat)
    requires n <= |k.lists| && n <= |modes| && n <= |arrivals| && b < CHANNEL_FIFOS
    ensures var d := ChannelFifo(Own(c, b));
            CopiesBelow(k, modes, arrivals, n, d) == if c < n then ChannelCopies(k, modes[c], arrivals[c], c, d) else []
    decreases n
  {
    if n > 0 {
      IsolatedCopies(k, modes, arrivals, n - 1, c, b);
      if n - 1 != c {
        OtherChannel(k, modes[n - 1], arrivals[n - 1], n - 1, c, b);
      }
    }
  }

  /** A channel's own FIFOs are offered the frame that arrived on that channel, if it takes it, and
      never a frame from another channel. */
  lemma ChannelsIsolated(k: Config, modes: seq<CanMode.Channel>, arrivals: seq<Option<Frame>>, n: nat, c: nat, b: nat)
    requires n <= |k.lists| && n <= |modes| && n <= |arrivals| && b < CHANNEL_FIFOS
    ensures FramesTo(OffersBelow(k, modes, arrivals, n), ChannelFifo(Own(c, b))) ==
            if c < n && Takes(modes[c], arrivals[c])
            then Copies(k.check, k.lists[c], c, arrivals[c].value, ChannelFifo(Own(c, b))) else []
  {
    OffersAreCopies(k, modes, arrivals, n, ChannelFifo(Own(c, b)));
    IsolatedCopies(k, modes, arrivals, n, c, b);
  }

  /** A whole pass over the channels leaves in a FIFO, shared or of one channel, as many as fit of the
      copies that the channels made for it, after what it held before. */
  lemma RoundFills(s: Sinks, k: Config, modes: seq<CanMode.Channel>, arrivals: seq<Option<Frame>>, d: Dest)
    requires Full(s) && Usable(k) && |modes| == CHANNELS && |arrivals| == CHANNELS && Present(s, d) && !d.Buffer?
    ensures AllPresent(s, OffersBelow(k, modes, arrivals, |arrivals|))
    ensures var q := QueueAt(s, d);
            var t := QueueAt(PutAll(s, OffersBelow(k, modes, arrivals, |arrivals|)), d);
            var copies := CopiesBelow(k, modes, arrivals, |arrivals|, d);
            t.frames == q.frames + copies[..Least(|copies|, Space(q))] &&
                t.lost == (q.lost || (q.open && |copies| > Space(q)))
  {
    OffersBelowPresent(s, k, modes, arrivals, |arrivals|);
    OffersAreCopies(k, modes, arrivals, |arrivals|, d);
    FifoAfter(s, OffersBelow(k, modes, arrivals, |arrivals|), d);
    FirstFit(QueueAt(s, d), FramesTo(OffersBelow(k, modes, arrivals, |arrivals|), d));
  }

  /** A receive buffer is left with the last of the copies made for it, and unchanged when there is
      none. */
  lemma RoundOverwrites(s: Sinks, k: Config, modes: seq<CanMode.Channel>, arrivals: seq<Option<Frame>>, n: nat)
    requires Full(s) && Usable(k) && |modes| == CHANNELS && |arrivals| == CHANNELS && n < RX_BUFFERS
    ensures AllPresent(s, OffersBelow(k, modes, arrivals, |arrivals|))
    ensures var copies := CopiesBelow(k, modes, arrivals, |arrivals|, Buffer(n));
            PutAll(s, OffersBelow(k, modes, arrivals, |arrivals|)).buffers[n] ==
            if copies == [] then s.buffers[n] else RxBuffer(true, copies[|copies| - 1])
  {
    OffersBelowPresent(s, k, modes, arrivals, |arrivals|);
    OffersAreCopies(k, modes, arrivals, |arrivals|, Buffer(n));
    BufferAfter(s, OffersBelow(k, modes, arrivals, |arrivals|), n);
  }

  /** A FIFO of channel c gets the copies of the frame that channel c took, and nothing else. */
  lemma RoundDelivers(s: Sinks, k: Config, modes: seq<CanMode.Channel>, arrivals: seq<Option<Frame>>, c: nat, b: nat)
    requires Full(s) && Usable(k) && |modes| == CHANNELS && |arrivals| == CHANNELS && c < CHANNELS && b < CHANNEL_FIFOS
    ensures AllPresent(s, OffersBelow(k, modes, arrivals, |arrivals|))
    ensures var d := ChannelFifo(Own(c, b));
            var q := QueueAt(s, d);
            var t := QueueAt(PutAll(s, OffersBelow(k, modes, arrivals, |arrivals|)), d);
            var copies := ChannelCopies(k, modes[c], arrivals[c], c, d);
            t.frames == q.frames + copies[..Least(|copies|, Space(q))] &&
                t.lost == (q.lost || (q.open && |copies| > Space(q)))
  {
    RoundFills(s, k, modes, arrivals, ChannelFifo(Own(c, b)));
    IsolatedCopies(k, modes, arrivals, |arrivals|, c, b);
  }

  /** Reception never leaves a channel receiving, keeps the mode machine sound, and lets a WAIT that
      was requested take effect at once. */
  lemma ReceptionEnds(m: CanMode.Channel, arrival: Option<Frame>)
    requires CanMode.Sound(m) && Takes(m, arrival)
    ensures CanMode.Sound(AfterFrame(m)) && AfterFrame(m).transfer == CanMode.Idle
    ensures AfterFrame(m).mode == if m.select == CanMode.SelWait then CanMode.Wait else CanMode.Comm
  {}
}
