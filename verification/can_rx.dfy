/** The receive side as it runs: filter, router and the loop over the channels, proved to offer what
    CanRxSpec says. */
module CanRx {
  import opened Common
  import opened CanTypes
  import opened CanRxRules
  import opened CanRxSpec
  import CanMode
  import F = CanFifo

  class Receiver {
    const table: RuleTable
    const buffers: array<RxBuffer>
    const fifos: array<F.RxState>
    const channelFifos: array<F.RxState>
    const modes: array<CanMode.Channel>
    var check: bool
    var dlcError: bool

    ghost predicate Shape() {
      && table.Shape()
      && buffers.Length == RX_BUFFERS && fifos.Length == RX_FIFOS
      && channelFifos.Length == 18 && fifos != channelFifos
      && modes.Length == CHANNELS
    }

    ghost function SinksView(): (s: Sinks)
      reads buffers, fifos, channelFifos
      requires Shape()
      ensures Full(s)
    {
      Sinks(buffers[..], fifos[..], channelFifos[..])
    }

    constructor (table: RuleTable, buffers: array<RxBuffer>, fifos: array<F.RxState>,
                 channelFifos: array<F.RxState>, modes: array<CanMode.Channel>)
      requires table.Shape() && buffers.Length == RX_BUFFERS && fifos.Length == RX_FIFOS
      requires channelFifos.Length == 18 && fifos != channelFifos && modes.Length == CHANNELS
      ensures Shape() && !check && !dlcError
    {
      this.table, this.buffers, this.fifos, this.channelFifos, this.modes := table, buffers, fifos, channelFifos, modes;
      check, dlcError := false, false;
    }

    // ---------- the filter ----------

    method FilterLength(r: Rule, f: Frame) returns (ok: bool)
      modifies this`dlcError
      ensures ok == LongEnough(check, r, f)
      ensures dlcError == (old(dlcError) || !ok)
    {
      if !check {
        ok := true;
      } else if r.dlc != 0 {
        if f.dlc < r.dlc {
          dlcError := true;
          ok := false;
        } else {
          ok := true;
        }
      } else {
        ok := true;
      }
    }

    method Filter(r: Rule, f: Frame) returns (ok: bool)
      modifies this`dlcError
      ensures ok == Passes(check, r, f)
      ensures dlcError == (old(dlcError) || (Accepts(r, f) && !LongEnough(check, r, f)))
    {
      if r.maskIde {
        if r.ide != f.ide { return false; }
      }
      if r.maskRtr {
        if r.rtr != f.rtr { return false; }
      }
      if r.maskId != {} {
        if !SameUnder(r.maskId, r.canid, f.id) { return false; }
      }
      ok := FilterLength(r, f);
    }

    // ---------- the router ----------

    method OfferFifo(n: nat, f: Frame)
      requires Shape() && n < RX_FIFOS
      modifies fifos
      ensures SinksView() == Put(old(SinksView()), Offer(Fifo(n), f))
    {
      fifos[n] := F.Offered(fifos[n], f);
    }

    method OfferChannelFifo(m: nat, f: Frame)
      requires Shape() && m < channelFifos.Length
      modifies channelFifos
      ensures SinksView() == Put(old(SinksView()), Offer(ChannelFifo(m), f))
    {
      channelFifos[m] := F.Offered(channelFifos[m], f);
    }

    method RouteFifos(r: Rule, f: Frame, ghost s: Sinks)
      requires Shape() && SinksView() == s
      modifies fifos
      ensures AllPresent(s, FifoOffers(r, f, RX_FIFOS)) && SinksView() == PutAll(s, FifoOffers(r, f, RX_FIFOS))
    {
      var n := 0;
      while n < RX_FIFOS
        invariant 0 <= n <= RX_FIFOS
        invariant AllPresent(s, FifoOffers(r, f, n)) && SinksView() == PutAll(s, FifoOffers(r, f, n))
      {
        if n in r.rxFifo {
          PutAllLast(s, FifoOffers(r, f, n), Offer(Fifo(n), f));
          OfferFifo(n, f);
        } else {
          assert FifoOffers(r, f, n + 1) == FifoOffers(r, f, n);
        }
        n := n + 1;
      }
    }

    method RouteChannel(r: Rule, c: nat, f: Frame, ghost s: Sinks)
      requires Shape() && SinksView() == s && c < CHANNELS
      modifies channelFifos
      ensures AllPresent(s, ChannelOffers(r, c, f, CHANNEL_FIFOS))
      ensures SinksView() == PutAll(s, ChannelOffers(r, c, f, CHANNEL_FIFOS))
    {
      var n := 0;
      while n < CHANNEL_FIFOS
        invariant 0 <= n <= CHANNEL_FIFOS
        invariant AllPresent(s, ChannelOffers(r, c, f, n)) && SinksView() == PutAll(s, ChannelOffers(r, c, f, n))
      {
        var m := Own(c, n);
        if m in r.txrxFifo {
          PutAllLast(s, ChannelOffers(r, c, f, n), Offer(ChannelFifo(m), f));
          OfferChannelFifo(m, f);
        } else {
          assert ChannelOffers(r, c, f, n + 1) == ChannelOffers(r, c, f, n);
        }
        n := n + 1;
      }
    }

    method RouteBuffer(r: Rule, f: Frame, ghost s: Sinks)
      requires Shape() && SinksView() == s && (r.toBuffer ==> r.buffer < RX_BUFFERS)
      modifies buffers
      ensures AllPresent(s, BufferOffers(r, f)) && SinksView() == PutAll(s, BufferOffers(r, f))
    {
      if r.toBuffer {
        buffers[r.buffer] := RxBuffer(true, f);
        assert BufferOffers(r, f)[..0] == [];
      }
    }

    method Route(r: Rule, c: nat, f0: Frame, ghost s: Sinks) returns (f: Frame)
      requires Shape() && SinksView() == s && c < CHANNELS && (r.toBuffer ==> r.buffer < RX_BUFFERS)
      modifies buffers, fifos, channelFifos
      ensures f == Labelled(r, f0)
      ensures AllPresent(s, RuleOffers(r, c, f)) && SinksView() == PutAll(s, RuleOffers(r, c, f))
    {
      f := f0.(tag := r.tag);
      RouteBuffer(r, f, s);
      ghost var s1 := SinksView();
      RouteFifos(r, f, s1);
      FifoOffersPresent(s, r, f, RX_FIFOS);
      PutAllAppend(s, BufferOffers(r, f), FifoOffers(r, f, RX_FIFOS));
      ghost var s2 := SinksView();
      RouteChannel(r, c, f, s2);
      ChannelOffersPresent(s, r, c, f, CHANNEL_FIFOS);
      PutAllAppend(s, BufferOffers(r, f) + FifoOffers(r, f, RX_FIFOS), ChannelOffers(r, c, f, CHANNEL_FIFOS));
    }

    // ---------- one frame ----------

    /** The rule table has been cut up, and list c holds the rules of channel c as they now are. */
    ghost predicate Configured(lists: seq<seq<Rule>>)
      reads table.pages, table.numbers, table.ruleNum, table.rule
      requires Shape()
    {
      && table.Current() && |lists| == CHANNELS
      && forall c :: 0 <= c < CHANNELS ==> ListOf(lists[c], c)
    }

    ghost predicate ListOf(rules: seq<Rule>, c: nat)
      reads table.pages, table.numbers, table.ruleNum
      requires table.Shape() && c < CHANNELS
    {
      && |rules| == table.ruleNum[c]
      && forall k :: 0 <= k < |rules| ==>
           var p := RulePlace(table.numbers[..], c, k); InTable(p) && rules[k] == table.pages[p.page, p.index]
    }

    method FetchRule(c: nat, k: nat, ghost lists: seq<seq<Rule>>) returns (r: Rule)
      requires Shape() && Configured(lists) && c < CHANNELS && k < |lists[c]|
      ensures r == lists[c][k]
    {
      var p := table.rule[c, k];
      assert p == RulePlace(table.numbers[..], c, k);
      r := table.pages[p.page, p.index];
    }

    method RuleCount(c: nat, ghost lists: seq<seq<Rule>>) returns (n: nat)
      requires Shape() && Configured(lists) && c < CHANNELS
      ensures n == |lists[c]|
    {
      n := table.ruleNum[c];
    }

    method ProcOne(r: Rule, c: nat, f0: Frame, ghost s: Sinks) returns (f: Frame)
      requires Shape() && SinksView() == s && c < CHANNELS && (r.toBuffer ==> r.buffer < RX_BUFFERS)
      modifies buffers, fifos, channelFifos, this`dlcError
      ensures f == if Passes(check, r, f0) then Labelled(r, f0) else f0
      ensures dlcError == (old(dlcError) || (Accepts(r, f0) && !LongEnough(check, r, f0)))
      ensures var os := if Passes(check, r, f0) then RuleOffers(r, c, f) else [];
              AllPresent(s, os) && SinksView() == PutAll(s, os)
    {
      f := f0;
      var ok := Filter(r, f);
      if ok {
        f := Route(r, c, f, s);
      }
    }

    /** Runs a received frame past the rules of its channel.  The label that one rule writes into the
        frame does not reach the destinations of the next. */
    method ProcFrame(c: nat, f0: Frame, ghost lists: seq<seq<Rule>>, ghost s: Sinks)
      requires Shape() && Configured(lists) && SinksView() == s && c < CHANNELS && BuffersExist(lists[c])
      modifies buffers, fifos, channelFifos, this`dlcError
      ensures dlcError == (old(dlcError) || TooShortFor(check, lists[c], f0))
      ensures AllPresent(s, Offers(check, lists[c], c, f0)) && SinksView() == PutAll(s, Offers(check, lists[c], c, f0))
    {
      ghost var rules := lists[c];
      var f := f0;
      var count := 0;
      var num := RuleCount(c, lists);
      while count < num
        invariant 0 <= count <= num && f0 == f.(tag := f0.tag)
        invariant Configured(lists)
        invariant dlcError == (old(dlcError) || TooShortFor(check, rules[..count], f0))
        invariant AllPresent(s, Offers(check, rules[..count], c, f0))
        invariant SinksView() == PutAll(s, Offers(check, rules[..count], c, f0))
      {
        f := ProcNext(c, count, f, f0, old(dlcError), lists, s);
        count := count + 1;
      }
      assert rules[..count] == rules;
    }

    method ProcNext(c: nat, n: nat, f0: Frame, ghost g: Frame, ghost e: bool, ghost lists: seq<seq<Rule>>,
        ghost s: Sinks)
      returns (f: Frame)
      requires Shape() && Configured(lists) && c < CHANNELS && BuffersExist(lists[c]) && n < |lists[c]|
      requires g == f0.(tag := g.tag) && Full(s) && dlcError == (e || TooShortFor(check, lists[c][..n], g))
      requires AllPresent(s, Offers(check, lists[c][..n], c, g))
      requires SinksView() == PutAll(s, Offers(check, lists[c][..n], c, g))
      modifies buffers, fifos, channelFifos, this`dlcError
      ensures g == f.(tag := g.tag)
      ensures dlcError == (e || TooShortFor(check, lists[c][..n + 1], g))
      ensures AllPresent(s, Offers(check, lists[c][..n + 1], c, g))
      ensures SinksView() == PutAll(s, Offers(check, lists[c][..n + 1], c, g))
    {
      var r := FetchRule(c, n, lists);
      ghost var s1 := SinksView();
      RelabelledSame(check, r, c, f0, g);
      OffersNext(s, check, lists[c], c, g, n);
      TooShortNext(check, lists[c], g, n);
      f := ProcOne(r, c, f0, s1);
    }

    // ---------- all channels ----------

    /** This channel's part of can_rx_proc. */
    method ProcChannel(c: nat, arrival: Option<Frame>, ghost lists: seq<seq<Rule>>, ghost s: Sinks)
      requires Shape() && Configured(lists) && SinksView() == s && c < CHANNELS && BuffersExist(lists[c])
      modifies buffers, fifos, channelFifos, modes, this`dlcError
      ensures var taken := Takes(old(modes[c]), arrival);
              var os := if taken then Offers(check, lists[c], c, arrival.value) else [];
              && modes[..] == old(modes[..])[c := if taken then AfterFrame(old(modes[c])) else old(modes[c])]
              && dlcError == (old(dlcError) || (taken && TooShortFor(check, lists[c], arrival.value)))
              && AllPresent(s, os) && SinksView() == PutAll(s, os)
    {
      if arrival.None? { return; }
      if modes[c].mode != CanMode.Comm { return; }
      modes[c] := CanMode.Step(modes[c], CanMode.RxStart);
      if modes[c].transfer != CanMode.Rx { return; }
      ProcFrame(c, arrival.value, lists, s);
      modes[c] := CanMode.Step(modes[c], CanMode.RxDone);
    }

    /** The state once the first n channels have been served. */
    ghost predicate Served(k: Config, arrivals: seq<Option<Frame>>, before: seq<CanMode.Channel>, s: Sinks, e: bool,
        n: nat)
      reads this, buffers, fifos, channelFifos, modes
      requires Shape() && Full(s) && Usable(k) && |arrivals| == CHANNELS && |before| == CHANNELS && n <= CHANNELS
    {
      && ModesAfter(before, arrivals, modes[..], n)
      && dlcError == (e || LengthErrors(k, before, arrivals, n))
      && AllPresent(s, OffersBelow(k, before, arrivals, n))
      && SinksView() == PutAll(s, OffersBelow(k, before, arrivals, n))
    }

    /** Serves the next channel. */
    method ProcNextChannel(c: nat, arrivals: seq<Option<Frame>>, ghost k: Config, ghost before: seq<CanMode.Channel>,
                           ghost s: Sinks, ghost e: bool)
      requires Shape() && Configured(k.lists) && k.check == check && Usable(k) && |arrivals| == CHANNELS
      requires c < CHANNELS && |before| == CHANNELS && Full(s) && Served(k, arrivals, before, s, e, c)
      modifies buffers, fifos, channelFifos, modes, this`dlcError
      ensures Served(k, arrivals, before, s, e, c + 1)
    {
      ghost var s1 := SinksView();
      ProcChannel(c, arrivals[c], k.lists, s1);
      OffersBelowPresent(s, k, before, arrivals, c + 1);
      ChannelNext(s, k, before, arrivals, c);
    }

    /** can_rx_proc. */
    method Proc(run: bool, arrivals: seq<Option<Frame>>, ghost k: Config, ghost before: seq<CanMode.Channel>,
        ghost s: Sinks)
      requires Shape() && Configured(k.lists) && k.check == check && Usable(k) && |arrivals| == CHANNELS
      requires SinksView() == s && modes[..] == before
      modifies buffers, fifos, channelFifos, modes, this`dlcError
      ensures !run ==> SinksView() == s && modes[..] == before && dlcError == old(dlcError)
      ensures run ==> Served(k, arrivals, before, s, old(dlcError), |arrivals|)
    {
      if !run { return; }
      var c := 0;
      while c < CHANNELS
        invariant 0 <= c <= CHANNELS && Configured(k.lists) && Served(k, arrivals, before, s, old(dlcError), c)
      {
        ProcNextChannel(c, arrivals, k, before, s, old(dlcError));
        c := c + 1;
      }
    }
  }

  /** Exactly the channels that took a frame have gone through a reception. */
  ghost predicate ModesAfter(before: seq<CanMode.Channel>, arrivals: seq<Option<Frame>>, after: seq<CanMode.Channel>,
      n: nat)
    requires |before| == CHANNELS && |arrivals| == CHANNELS && |after| == CHANNELS
  {
    forall c :: 0 <= c < CHANNELS ==>
      after[c] == if c < n && Takes(before[c], arrivals[c]) then AfterFrame(before[c]) else before[c]
  }

  /** Some channel took a frame that one of its rules refuses for its length only. */
  ghost predicate LengthErrors(k: Config, before: seq<CanMode.Channel>, arrivals: seq<Option<Frame>>, n: nat)
    requires |k.lists| == CHANNELS && |before| == CHANNELS && |arrivals| == CHANNELS
  {
    exists c :: 0 <= c < CHANNELS && c < n && Takes(before[c], arrivals[c]) &&
                TooShortFor(k.check, k.lists[c], arrivals[c].value)
  }

  /** Filter and router look at everything in a frame but its label. */
  lemma RelabelledSame(check: bool, r: Rule, c: nat, f: Frame, g: Frame)
    requires g == f.(tag := g.tag)
    ensures Passes(check, r, f) == Passes(check, r, g) && Accepts(r, f) == Accepts(r, g)
    ensures LongEnough(check, r, f) == LongEnough(check, r, g) && Labelled(r, f) == Labelled(r, g)
  {}

  lemma OffersNext(s: Sinks, check: bool, rules: seq<Rule>, c: nat, f: Frame, n: nat)
    requires Full(s) && c < CHANNELS && BuffersExist(rules) && n < |rules|
    ensures var os := Offers(check, rules[..n], c, f);
            var r := rules[n];
            var more := if Passes(check, r, f) then RuleOffers(r, c, Labelled(r, f)) else [];
            && AllPresent(s, os) && AllPresent(PutAll(s, os), more) &&
                AllPresent(s, Offers(check, rules[..n + 1], c, f))
            && PutAll(s, Offers(check, rules[..n + 1], c, f)) == PutAll(PutAll(s, os), more)
  {
    var r := rules[n];
    assert rules[..n + 1][..n] == rules[..n];
    OffersPresent(s, check, rules[..n], c, f);
    RuleOffersPresent(s, r, c, Labelled(r, f));
    PutAllAppend(s, Offers(check, rules[..n], c, f),
                 if Passes(check, r, f) then RuleOffers(r, c, Labelled(r, f)) else []);
  }

  lemma ChannelNext(s: Sinks, k: Config, modes: seq<CanMode.Channel>, arrivals: seq<Option<Frame>>, c: nat)
    requires Full(s) && Usable(k) && |modes| == CHANNELS && |arrivals| == CHANNELS && c < CHANNELS
    ensures AllPresent(s, OffersBelow(k, modes, arrivals, c)) && AllPresent(s, OffersBelow(k, modes, arrivals, c + 1))
    ensures var t := PutAll(s, OffersBelow(k, modes, arrivals, c));
            var more := ChannelOffersOf(k, modes[c], arrivals[c], c);
            && AllPresent(t, more)
            && PutAll(s, OffersBelow(k, modes, arrivals, c + 1)) == PutAll(t, more)
  {
    OffersBelowPresent(s, k, modes, arrivals, c);
    if Takes(modes[c], arrivals[c]) {
      OffersPresent(s, k.check, k.lists[c], c, arrivals[c].value);
    }
    PutAllAppend(s, OffersBelow(k, modes, arrivals, c), ChannelOffersOf(k, modes[c], arrivals[c], c));
  }
}
