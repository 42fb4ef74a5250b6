/** Which received frames a rule lets through, said from outside: by frames that differ in one bit, and by
    what a reception leaves in a FIFO. */
module CanFilter {
  import opened Common
  import opened CanTypes
  import opened CanRxRules
  import opened CanRxSpec
  import CanMode
  import F = CanFifo

  // ---------- one bit of an identifier ----------

  /** The number with bit k the other way round. */
  function Flip(n: nat, k: nat): nat {
    if k > 0 then 2 * Flip(n / 2, k - 1) + n % 2 else if n % 2 == 0 then n + 1 else n - 1
  }

  lemma {:induction false} HalfQuotient(n: nat, k: nat)
    ensures n / Pow2(k + 1) == n / 2 / Pow2(k)
  {
    var p := Pow2(k);
    var h := n / 2;
    var q, r := h / p, h % p;
    assert h == q * p + r;
    assert n == q * (2 * p) + (2 * r + n % 2) by { assert q * (2 * p) == 2 * (q * p); }
    QuotientFits(n, q, 2 * r + n % 2, 2 * p);
  }

  lemma BitHalf(n: nat, k: nat)
    ensures Bit(n, k + 1) == Bit(n / 2, k)
  {
    HalfQuotient(n, k);
  }

  lemma BitZero(n: nat)
    ensures Bit(n, 0) == n % 2
  {
    assert Pow2(0) == 1;
  }

  /** Flipping changes that bit and no other. */
  lemma {:induction false} FlipBits(n: nat, k: nat, j: nat)
    ensures Bit(Flip(n, k), j) == if j == k then 1 - Bit(n, j) else Bit(n, j)
    decreases k
  {
    var f := Flip(n, k);
    BitZero(n);
    BitZero(f);
    if k == 0 {
      if j > 0 {
        assert f / 2 == n / 2;
        BitHalf(n, j - 1);
        BitHalf(f, j - 1);
      }
    } else {
      assert f / 2 == Flip(n / 2, k - 1) && f % 2 == n % 2;
      if j > 0 {
        BitHalf(n, j - 1);
        BitHalf(f, j - 1);
        FlipBits(n / 2, k - 1, j - 1);
      }
    }
  }

  lemma {:induction false} FlipFits(n: nat, k: nat, m: nat)
    requires k < m && n < Pow2(m)
    ensures Flip(n, k) < Pow2(m)
    decreases k
  {
    if k > 0 {
      FlipFits(n / 2, k - 1, m - 1);
    }
  }

  lemma {:induction false} Pow2Adds(a: nat, b: nat)
    ensures Pow2(a + b) == Pow2(a) * Pow2(b)
  {
    if a > 0 {
      Pow2Adds(a - 1, b);
    }
  }

  lemma IdRange()
    ensures Pow2(29) == 0x2000_0000
  {
    assert Pow2(7) == 128 && Pow2(8) == 256;
    Pow2Adds(7, 8);
    Pow2Adds(7, 7);
    Pow2Adds(15, 14);
  }

  /** A frame that differs in one identifier bit. */
  function OtherBit(f: Frame, k: nat): (g: Frame)
    requires k < 29
    ensures g == f.(id := g.id) && g.id as nat == Flip(f.id, k)
  {
    IdRange();
    FlipFits(f.id, k, 29);
    f.(id := Flip(f.id, k))
  }

  // ---------- the acceptance filter ----------

  /** Under the IDE mask exactly the format of the rule gets in, and without it the format does not
      matter. */
  lemma FormatFiltered(r: Rule, f: Frame)
    ensures var g := f.(ide := !f.ide);
            if r.maskIde then
              && !(Accepts(r, f) && Accepts(r, g))
              && (Accepts(r, f) || Accepts(r, g) ==> Accepts(r, if f.ide == r.ide then f else g))
            else Accepts(r, f) == Accepts(r, g)
  {}

  /** The same for data and remote frames under the RTR mask. */
  lemma KindFiltered(r: Rule, f: Frame)
    ensures var g := f.(rtr := !f.rtr);
            if r.maskRtr then
              && !(Accepts(r, f) && Accepts(r, g))
              && (Accepts(r, f) || Accepts(r, g) ==> Accepts(r, if f.rtr == r.rtr then f else g))
            else Accepts(r, f) == Accepts(r, g)
  {}

  /** An identifier bit under the mask decides, and one outside it does not matter. */
  lemma IdentifierFiltered(r: Rule, f: Frame, k: nat)
    requires k < 29
    ensures var g := OtherBit(f, k);
            if k in r.maskId then Accepts(r, f) ==> !Accepts(r, g) else Accepts(r, f) == Accepts(r, g)
  {
    forall j ensures Bit(OtherBit(f, k).id, j) == if j == k then 1 - Bit(f.id, j) else Bit(f.id, j) {
      FlipBits(f.id, k, j);
    }
  }

  /** Nothing else of a frame matters. */
  lemma ContentsIgnored(r: Rule, f: Frame, g: Frame)
    requires f.ide == g.ide && f.rtr == g.rtr && f.id == g.id
    ensures Accepts(r, f) == Accepts(r, g)
  {}

  /** A frame with the format, kind and identifier of the rule passes unless it is too short for the
      rule and lengths are checked. */
  lemma OwnFramePasses(check: bool, r: Rule, f: Frame)
    requires f.ide == r.ide && f.rtr == r.rtr && f.id == r.canid
    ensures Passes(check, r, f) <==> !check || r.dlc == 0 || f.dlc >= r.dlc
  {}

  /** A frame that the rule accepts for some length passes with its own exactly in that case too. */
  lemma LengthAlone(check: bool, r: Rule, f: Frame, n: nat)
    requires Passes(check, r, f.(dlc := n))
    ensures Passes(check, r, f) <==> !check || r.dlc == 0 || f.dlc >= r.dlc
  {
    ContentsIgnored(r, f, f.(dlc := n));
  }

  // ---------- what a reception leaves ----------

  /** The frame meets the rule. */
  ghost predicate Meets(check: bool, r: Rule, f: Frame) {
    && (r.maskIde ==> f.ide == r.ide) && (r.maskRtr ==> f.rtr == r.rtr)
    && (forall k :: k in r.maskId ==> f.id / Pow2(k) % 2 == r.canid / Pow2(k) % 2)
    && (check && r.dlc > 0 ==> f.dlc >= r.dlc)
  }

  lemma PassesIfMeets(check: bool, r: Rule, f: Frame)
    ensures Passes(check, r, f) <==> Meets(check, r, f)
  {
    if Passes(check, r, f) {
      forall k | k in r.maskId ensures f.id / Pow2(k) % 2 == r.canid / Pow2(k) % 2 {
        assert Bit(r.canid, k) == Bit(f.id, k);
      }
    }
    if Meets(check, r, f) {
      forall k | k in r.maskId ensures Bit(r.canid, k) == Bit(f.id, k) {
        assert f.id / Pow2(k) % 2 == r.canid / Pow2(k) % 2;
      }
    }
  }

  /** A channel with a single rule that names a receive FIFO with room: the FIFO gets the frame, with the
      rule's label, if and only if the frame meets the rule. */
  lemma ArrivesIfMeets(s: Sinks, check: bool, r: Rule, c: nat, f: Frame, n: nat)
    requires Full(s) && c < CHANNELS && BuffersExist([r]) && n < RX_FIFOS && n in r.rxFifo
    requires s.fifos[n].open && |s.fifos[n].frames| < s.fifos[n].depth
    ensures AllPresent(s, Offers(check, [r], c, f))
    ensures PutAll(s, Offers(check, [r], c, f)).fifos[n].frames ==
            s.fifos[n].frames + if Meets(check, r, f) then [f.(tag := r.tag)] else []
  {
    Delivered(s, check, [r], c, f, Fifo(n));
    PassesIfMeets(check, r, f);
    assert [r][..0] == [];
    assert Copies(check, [r][..0], c, f, Fifo(n)) == [];
  }

  lemma {:induction false} NothingOffered(check: bool, rules: seq<Rule>, c: nat, f: Frame)
    requires forall i :: 0 <= i < |rules| ==> !Meets(check, rules[i], f)
    ensures Offers(check, rules, c, f) == []
    decreases |rules|
  {
    if rules != [] {
      PassesIfMeets(check, rules[|rules| - 1], f);
      NothingOffered(check, rules[..|rules| - 1], c, f);
    }
  }

  /** A frame that meets no rule of its channel changes no buffer and no FIFO. */
  lemma RefusedLeavesAll(s: Sinks, check: bool, rules: seq<Rule>, c: nat, f: Frame)
    requires forall i :: 0 <= i < |rules| ==> !Meets(check, rules[i], f)
    ensures AllPresent(s, Offers(check, rules, c, f)) && PutAll(s, Offers(check, rules, c, f)) == s
  {
    NothingOffered(check, rules, c, f);
  }

  // ---------- where a rule sends ----------

  /** A rule sends to the one buffer it gives, to the eight receive FIFOs it selects, and to those of the
      three FIFOs of its own channel, numbered 3c to 3c+2, that it selects. */
  lemma SendsTo(r: Rule, c: nat, f: Frame, d: Dest)
    ensures FramesTo(RuleOffers(r, c, f), d) != [] <==>
            match d
            case Buffer(n) => r.toBuffer && r.buffer == n
            case Fifo(n) => n <= 7 && n in r.rxFifo
            case ChannelFifo(n) => n / 3 == c && n in r.txrxFifo
  {
    RuleOffersTo(r, c, f, d);
  }

  // ---------- when a frame is taken ----------

  /** A frame that waits is taken if and only if the channel is in COMM mode and not sending; the channel
      is then receiving. */
  lemma TakenWhenReceiving(m: CanMode.Channel, arrival: Option<Frame>)
    ensures Takes(m, arrival) <==>
            arrival.Some? && m.mode == CanMode.Comm && CanMode.Step(m, CanMode.RxStart).transfer == CanMode.Rx
  {}

  // ---------- the receive interrupt ----------

  /** An accepted frame raises the interrupt with the per-frame option, when the FIFO becomes full with
      timing 7, and otherwise when the FIFO comes to hold timing + 1 eighths of its depth, rounded down;
      a refused one raises none. */
  lemma InterruptExactly(q: F.RxState, f: Frame)
    ensures var t := F.Offered(q, f);
            var n := |q.frames| + 1;
            t.intr <==> q.intr || (q.open && n <= q.depth &&
                                   (q.everytime || (if q.timing == 7 then n >= q.depth
                                                    else 8 * n + 7 >= q.depth * (q.timing + 1))))
  {
    var x := q.depth * (q.timing + 1);
    assert x == x / 8 * 8 + x % 8;
  }

  /** The depths that can be chosen. */
  lemma Depths(k: nat)
    requires k < 8
    ensures Depth(k) == [0, 4, 8, 16, 32, 48, 64, 128][k]
  {}
}
