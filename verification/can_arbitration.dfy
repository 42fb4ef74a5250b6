/** The number by which pending frames are compared. */
module CanArbitration {
  import opened CanTypes

  /** Sets bit 31 of a 32-bit word. */
  function SetBit31(x: nat): nat {
    if x < 0x8000_0000 then x + 0x8000_0000 else x
  }

  /** Shifting the identifier bits above bit 10 up by 13 in a 32-bit word keeps eight of them. */
  lemma ShiftedOut(id: nat)
    ensures (id / 0x800 * 0x800 * 0x2000) % 0x1_0000_0000 == (id / 0x800 % 0x100) * 0x100_0000
  {
    assert id / 0x800 * 0x800 * 0x2000 == id / 0x800 * 0x100_0000;
  }

  /** Bits 0 to 10 of the identifier, and for an extended frame SRR, IDE and the bits above shifted up
      by 13 in a 32-bit word, which drops all but eight of them; RTR is bit 11 or bit 31.  Smaller goes
      first. */
  function CheckId(f: Frame): (r: nat)
    ensures r < 0xFFFF_FFFF
  {
    ShiftedOut(f.id);
    var std := f.id % 0x800;
    var ext := (f.id / 0x800) * 0x800;
    if f.ide then
      var x := std + 0x800 + 0x1000 + (ext * 0x2000) % 0x1_0000_0000;
      if f.rtr then SetBit31(x) else x
    else if f.rtr then std + 0x800
    else std
  }

  /** Rule 3 of the arbitration comment holds: every standard frame goes before every extended one. */
  lemma StandardBeforeExtended(a: Frame, b: Frame)
    requires !a.ide && b.ide
    ensures CheckId(a) < CheckId(b)
  {}

  /** Rules 1 and 2 hold among standard frames: data before remote, then the smaller identifier. */
  lemma StandardOrder(a: Frame, b: Frame)
    requires !a.ide && !b.ide
    ensures CheckId(a) < CheckId(b) <==>
            (!a.rtr && b.rtr) || (a.rtr == b.rtr && a.id % 0x800 < b.id % 0x800)
  {}

  // ---------- extended frames ----------

  /** The number that decides among extended frames.  The shift drops the identifier bits above bit 18,
      and RTR lands on bit 18: a data frame counts with its low nineteen bits, a remote frame with its
      low eighteen and bit 18 set. */
  function Compared(f: Frame): nat {
    if f.rtr then f.id % 0x4_0000 + 0x4_0000 else f.id % 0x8_0000
  }

  lemma RemainderBy19(x: nat, k: nat, d: nat)
    requires x == k * 0x8_0000 + d && d < 0x8_0000
    ensures x % 0x8_0000 == d
  {}

  lemma RemainderBy18(x: nat, k: nat, d: nat)
    requires x == k * 0x4_0000 + d && d < 0x4_0000
    ensures x % 0x4_0000 == d
  {}

  lemma LowBits(x: nat)
    ensures x % 0x8_0000 == x % 0x800 + (x / 0x800 % 0x100) * 0x800
    ensures x % 0x4_0000 == x % 0x800 + (x / 0x800 % 0x80) * 0x800
  {
    var q, r := x / 0x800, x % 0x800;
    RemainderBy19(x, q / 0x100, q % 0x100 * 0x800 + r);
    RemainderBy18(x, q / 0x80, q % 0x80 * 0x800 + r);
  }

  lemma Halves(h: nat, r: nat)
    requires r < 0x800
    ensures (h * 0x800 + r) / 0x800 == h && (h * 0x800 + r) % 0x800 == r
  {}

  lemma Remainder(k: nat, d: nat)
    requires d < 0x80
    ensures (k * 0x80 + d) % 0x80 == d
  {}

  lemma ByteAndBit(q: nat)
    ensures if q % 0x100 < 0x80 then q % 0x80 == q % 0x100 else q % 0x80 == q % 0x100 - 0x80
  {
    var h, l := q / 0x100, q % 0x100;
    if l < 0x80 {
      Remainder(2 * h, l);
    } else {
      Remainder(2 * h + 1, l - 0x80);
    }
  }

  lemma RemoteNumber(r: nat, h: nat, l: nat)
    requires r < 0x800 && h < 0x100 && if h < 0x80 then l == h else l == h - 0x80
    ensures SetBit31(r + 0x1800 + h * 0x100_0000) == r + 0x1800 + (l + 0x80) * 0x100_0000
  {}

  lemma ExtendedNumber(f: Frame)
    requires f.ide
    ensures CheckId(f) == Compared(f) % 0x800 + 0x1800 + Compared(f) / 0x800 * 0x100_0000
  {
    var q, r := f.id / 0x800, f.id % 0x800;
    ShiftedOut(f.id);
    LowBits(f.id);
    if f.rtr {
      Halves(q % 0x80 + 0x80, r);
      ByteAndBit(q);
      RemoteNumber(r, q % 0x100, q % 0x80);
    } else {
      Halves(q % 0x100, r);
    }
  }

  /** Extended frames go in the order of these numbers, and of nothing else. */
  lemma ExtendedOrder(a: Frame, b: Frame)
    requires a.ide && b.ide
    ensures CheckId(a) < CheckId(b) <==> Compared(a) < Compared(b)
    ensures CheckId(a) == CheckId(b) <==> Compared(a) == Compared(b)
  {
    ExtendedNumber(a);
    ExtendedNumber(b);
    Spread(Compared(a), Compared(b));
  }

  /** Moving the bits above bit 10 further up keeps the order. */
  lemma Spread(m: nat, n: nat)
    ensures m % 0x800 + 0x1800 + m / 0x800 * 0x100_0000 < n % 0x800 + 0x1800 + n / 0x800 * 0x100_0000 <==> m < n
    ensures m % 0x800 + 0x1800 + m / 0x800 * 0x100_0000 == n % 0x800 + 0x1800 + n / 0x800 * 0x100_0000 <==> m == n
  {
    Split(m % 0x800, m / 0x800, n % 0x800, n / 0x800);
  }

  lemma Split(r: nat, h: nat, s: nat, g: nat)
    requires r < 0x800 && s < 0x800
    ensures r + h * 0x100_0000 < s + g * 0x100_0000 <==> h * 0x800 + r < g * 0x800 + s
    ensures r + h * 0x100_0000 == s + g * 0x100_0000 <==> h * 0x800 + r == g * 0x800 + s
  {}

  /** Rule 2 among extended frames, for one data and one remote frame. */
  lemma DataAndRemote(a: Frame, b: Frame)
    requires a.ide && b.ide && !a.rtr && b.rtr
    ensures CheckId(a) < CheckId(b) <==> a.id % 0x8_0000 < b.id % 0x4_0000 + 0x4_0000
  {
    ExtendedOrder(a, b);
  }

  predicate Bit18Clear(f: Frame) { f.id / 0x4_0000 % 2 == 0 }

  lemma ClearBit18(f: Frame)
    ensures Bit18Clear(f) <==> f.id % 0x8_0000 < 0x4_0000
  {
    var q := f.id / 0x4_0000;
    assert f.id == q / 2 * 0x8_0000 + (q % 2 * 0x4_0000 + f.id % 0x4_0000);
  }

  /** An extended data frame goes before every extended remote frame, as rule 2 wants, if and only if
      bit 18 of its identifier is clear. */
  lemma DataBeforeRemotes(a: Frame)
    requires a.ide && !a.rtr
    ensures (forall b: Frame :: b.ide && b.rtr ==> CheckId(a) < CheckId(b)) <==> Bit18Clear(a)
  {
    ClearBit18(a);
    forall b: Frame | b.ide && b.rtr ensures CheckId(a) < CheckId(b) <==> a.id % 0x8_0000 < b.id % 0x4_0000 + 0x4_0000 {
      DataAndRemote(a, b);
    }
    var b := a.(rtr := true, id := 0);
    assert CheckId(a) < CheckId(b) <==> a.id % 0x8_0000 < 0x4_0000;
  }

  /** Of a data and a remote frame with the same extended identifier the data frame goes first if and
      only if bit 18 is clear; otherwise the comparison cannot tell them apart. */
  lemma SameIdentifier(a: Frame, b: Frame)
    requires a.ide && b.ide && !a.rtr && b.rtr && a.id == b.id
    ensures if Bit18Clear(a) then CheckId(a) < CheckId(b) else CheckId(a) == CheckId(b)
  {
    ClearBit18(a);
    ExtendedOrder(a, b);
    var q := a.id / 0x4_0000;
    assert a.id == q / 2 * 0x8_0000 + (q % 2 * 0x4_0000 + a.id % 0x4_0000);
  }

  /** The identifier bits that do not take part in the comparison of frames of one kind. */
  function Dropped(f: Frame): nat { if f.rtr then f.id / 0x4_0000 else f.id / 0x8_0000 }

  /** Rule 1 among extended frames of one kind: the comparison is that of the identifiers if and only
      if the bits it drops do not rank the two frames the other way. */
  lemma IdentifierOrder(a: Frame, b: Frame)
    requires a.ide && b.ide && a.rtr == b.rtr
    ensures (CheckId(a) < CheckId(b) <==> a.id < b.id) <==>
            (if Compared(a) < Compared(b) then Dropped(a) <= Dropped(b) else Dropped(b) <= Dropped(a))
  {
    ExtendedOrder(a, b);
    var m := if a.rtr then 0x4_0000 else 0x8_0000;
    assert a.id == Dropped(a) * m + a.id % m && b.id == Dropped(b) * m + b.id % m;
  }

  /** In particular remote frames are told apart by their low eighteen bits only. */
  lemma RemoteOrder(a: Frame, b: Frame)
    requires a.ide && b.ide && a.rtr && b.rtr
    ensures CheckId(a) < CheckId(b) <==> a.id % 0x4_0000 < b.id % 0x4_0000
  {
    ExtendedOrder(a, b);
  }

  /** Two extended data frames with different identifiers that the comparison cannot tell apart. */
  lemma DroppedBits(a: Frame, b: Frame)
    requires a.ide && b.ide && !a.rtr && !b.rtr && a.id == 0x8_0000 && b.id == 0
    ensures CheckId(a) == CheckId(b)
  {}

  /** A data frame with identifier bit 18 set that goes after a remote frame. */
  lemma RemoteBeforeData(a: Frame, b: Frame)
    requires a.ide && b.ide && !a.rtr && b.rtr && a.id == 0x4_0001 && b.id == 0
    ensures CheckId(b) < CheckId(a)
  {}
}
