/** Writes to the interrupt mask registers: which interrupt control registers they change, and how. */
module IntcImr {

  type Half = n: nat | n < 65536

  /** The mapped interrupt control registers, by address. */
  type Registers = map<nat, Half>

  const IC1: nat := 0xFFFE_EA00
  const IC2: nat := 0xFFFF_B040
  const IMR1: nat := 0xFFFE_EAF0
  const IMR1_END: nat := 0xFFFE_EAF3
  const IMR2: nat := 0xFFFF_B400
  const IMR2_END: nat := 0xFFFF_B42F
  const MAX_INTNO: nat := 357

  function IcAddress(n: nat): nat {
    if n <= 31 then IC1 + 2 * n else IC2 + 2 * (n - 32)
  }

  function ImrAddress(n: nat): nat {
    if n <= 31 then IMR1 else IMR2 + n / 32 * 4
  }

  predicate InImr1(a: nat) {
    IMR1 <= a <= IMR1_END
  }

  predicate InImr(a: nat) {
    InImr1(a) || IMR2 <= a <= IMR2_END
  }

  /** The interrupt of the lowest bit of the byte at a mask register address. */
  function First(a: nat): nat
    requires InImr(a)
  {
    if InImr1(a) then (a - IMR1) * 8
    else
      var imr := (a - IMR2) / 4;
      imr * 32 + (a - (IMR2 + imr * 4)) * 8
  }

  // ---------- the address arithmetic ----------

  /** Mask register bytes number the interrupts consecutively. */
  lemma FirstIs(a: nat)
    requires InImr(a)
    ensures First(a) == 8 * (a - if InImr1(a) then IMR1 else IMR2)
  {}

  /** Different interrupts have different control registers. */
  lemma IcInjective(m: nat, n: nat)
    requires m <= 383 && n <= 383 && IcAddress(m) == IcAddress(n)
    ensures m == n
  {}

  /** Every interrupt has its bit where its mask register address says. */
  lemma EveryInterruptCovered(n: nat)
    requires n <= MAX_INTNO
    ensures var a := ImrAddress(n) + n % 32 / 8;
            InImr(a) && First(a) + n % 8 == n
  {}

  /** An aligned 16- or 32-bit access stays inside one mask register: its bits belong to consecutive
      interrupts of one group of 32. */
  lemma AlignedStays(a: nat, len: nat)
    requires InImr(a) && (len == 1 || len == 2 || len == 4) && a % len == 0
    ensures First(a) / 32 == (First(a) + 8 * len - 1) / 32 && First(a) + 8 * len <= 384
    ensures InImr1(a) ==> First(a) + 8 * len <= 32
  {
    FirstIs(a);
  }

  /** The first mask register of the second controller has no interrupts of its own: it reaches those of the
      first controller.  No other mask register does. */
  lemma Alias(a: nat)
    requires InImr(a) && !InImr1(a)
    ensures First(a) < 32 <==> a < IMR2 + 4
    ensures a < IMR2 + 4 ==> First(a) == First(IMR1 + (a - IMR2))
  {
    FirstIs(a);
  }

  // ---------- one bit ----------

  predicate Masked(w: Half) {
    w / 128 % 2 == 1
  }

  function WithMask(w: Half, on: bool): Half {
    if on then (if Masked(w) then w else w + 128) else if Masked(w) then w - 128 else w
  }

  /** The register without its mask bit. */
  function Others(w: Half): nat {
    w / 256 * 256 + w % 128
  }

  lemma MaskBit(w: Half, on: bool)
    ensures Masked(WithMask(w, on)) == on && Others(WithMask(w, on)) == Others(w)
  {
    var h, l := w / 256, w % 128;
    assert w == h * 256 + w / 128 % 2 * 128 + l;
  }

  // ---------- a whole write ----------

  /** The control register of the k-th bit of a write whose lowest bit belongs to interrupt first. */
  function Target(first: nat, k: nat): nat {
    IcAddress(first + k)
  }

  predicate AllMapped(ic: Registers, first: nat, n: nat) {
    forall k :: 0 <= k < n ==> Target(first, k) in ic
  }

  /** The registers after n bits of the data, lowest bit first. */
  function Written(ic: Registers, first: nat, bits: seq<bool>, n: nat): (w: Registers)
    requires n <= |bits| && AllMapped(ic, first, n)
    ensures w.Keys == ic.Keys
  {
    if n == 0 then ic
    else
      var w := Written(ic, first, bits, n - 1);
      w[Target(first, n - 1) := WithMask(w[Target(first, n - 1)], bits[n - 1])]
  }

  predicate NotTarget(a: nat, first: nat, n: nat) {
    forall k :: 0 <= k < n ==> a != Target(first, k)
  }

  lemma {:induction false} WrittenElsewhere(ic: Registers, first: nat, bits: seq<bool>, n: nat, a: nat)
    requires n <= |bits| && AllMapped(ic, first, n) && a in ic && NotTarget(a, first, n)
    ensures Written(ic, first, bits, n)[a] == ic[a]
  {
    if n > 0 {
      WrittenElsewhere(ic, first, bits, n - 1, a);
      assert a != Target(first, n - 1);
    }
  }

  lemma TargetsDiffer(first: nat, j: nat, k: nat)
    requires j != k && first + j < 384 && first + k < 384
    ensures Target(first, j) != Target(first, k)
  {
    if Target(first, j) == Target(first, k) {
      IcInjective(first + j, first + k);
    }
  }

  /** Bit k of the data becomes the mask bit of interrupt first + k, whose other bits stay. */
  lemma {:induction false} WrittenAt(ic: Registers, first: nat, bits: seq<bool>, n: nat, k: nat)
    requires k < n <= |bits| && first + n <= 384 && AllMapped(ic, first, n)
    ensures Written(ic, first, bits, n)[Target(first, k)] == WithMask(ic[Target(first, k)], bits[k])
    decreases n
  {
    if k == n - 1 {
      forall j | 0 <= j < n - 1 ensures Target(first, k) != Target(first, j) {
        TargetsDiffer(first, k, j);
      }
      WrittenElsewhere(ic, first, bits, n - 1, Target(first, k));
    } else {
      TargetsDiffer(first, k, n - 1);
      WrittenAt(ic, first, bits, n - 1, k);
    }
  }

  /** How many bits are written before a register turns out not to be mapped. */
  function Reached(ic: Registers, first: nat, n: nat): (k: nat)
    ensures k <= n && AllMapped(ic, first, k)
    ensures k < n ==> Target(first, k) !in ic
  {
    if n == 0 then 0
    else
      var k := Reached(ic, first, n - 1);
      if k == n - 1 && Target(first, n - 1) in ic then n else k
  }

  lemma ReachedAt(ic: Registers, first: nat, k: nat, n: nat)
    requires k < n && AllMapped(ic, first, k) && Target(first, k) !in ic
    ensures Reached(ic, first, n) == k
  {
    var r := Reached(ic, first, n);
    assert r > k ==> Target(first, k) in ic;
  }

  lemma ReachedAll(ic: Registers, first: nat, n: nat)
    requires AllMapped(ic, first, n)
    ensures Reached(ic, first, n) == n
  {
    var r := Reached(ic, first, n);
  }

  /** Each mask bit covered has the value of its data bit, and nothing else has changed. */
  ghost predicate Exactly(before: Registers, after: Registers, first: nat, bits: seq<bool>) {
    && after.Keys == before.Keys
    && (forall k :: 0 <= k < |bits| ==>
          var a := Target(first, k);
          a in after && Masked(after[a]) == bits[k] && Others(after[a]) == Others(before[a]))
    && forall a :: a in after && NotTarget(a, first, |bits|) ==> after[a] == before[a]
  }

  lemma WriteExact(ic: Registers, first: nat, bits: seq<bool>)
    requires AllMapped(ic, first, |bits|) && first + |bits| <= 384
    ensures Exactly(ic, Written(ic, first, bits, |bits|), first, bits)
  {
    var n := |bits|;
    var w := Written(ic, first, bits, n);
    forall k | 0 <= k < n
      ensures var a := Target(first, k);
              a in w && Masked(w[a]) == bits[k] && Others(w[a]) == Others(ic[a])
    {
      WrittenAt(ic, first, bits, n, k);
      MaskBit(ic[Target(first, k)], bits[k]);
    }
    forall a | a in w && NotTarget(a, first, n) ensures w[a] == ic[a] {
      WrittenElsewhere(ic, first, bits, n, a);
    }
  }

  // ---------- the hook as it runs ----------

  datatype Code = Ok | Perm | Invalid | Unmapped

  class ImrHook {
    var user: bool           // the processor is in user mode
    var privileged: bool     // a privilege exception has been recorded
    var ic: Registers

    constructor (ic: Registers)
      ensures this.ic == ic && !user && !privileged
    {
      this.ic, user, privileged := ic, false, false;
    }

    /** One mask bit. */
    method WriteBit(first: nat, bits: seq<bool>, k: nat, ghost before: Registers) returns (ok: bool)
      requires k < |bits| && AllMapped(before, first, k) && ic == Written(before, first, bits, k)
      modifies this`ic
      ensures ok ==> AllMapped(before, first, k + 1) && ic == Written(before, first, bits, k + 1)
      ensures !ok ==> Reached(before, first, |bits|) == k && ic == Written(before, first, bits, k)
    {
      var addr := Target(first, k);
      if addr !in ic {
        ReachedAt(before, first, k, |bits|);
        return false;
      }
      if bits[k] {
        ic := ic[addr := WithMask(ic[addr], true)];
      } else {
        ic := ic[addr := WithMask(ic[addr], false)];
      }
      ok := true;
    }

    /** Eight mask bits. */
    method WriteByte(first: nat, bits: seq<bool>, b: nat, ghost before: Registers, ghost end: nat) returns (ok: bool)
      requires end == 8 * b + 8 <= |bits| && AllMapped(before, first, 8 * b) &&
               ic == Written(before, first, bits, 8 * b)
      modifies this`ic
      ensures ok ==> AllMapped(before, first, end) && ic == Written(before, first, bits, end)
      ensures !ok ==> Reached(before, first, |bits|) < |bits|
                      && ic == Written(before, first, bits, Reached(before, first, |bits|))
    {
      var bit, k := 0, 8 * b;
      while bit < 8
        invariant 0 <= bit <= 8 && 0 <= k == 8 * b + bit <= end && AllMapped(before, first, k)
        invariant ic == Written(before, first, bits, k)
      {
        ok := WriteBit(first, bits, k, before);
        if !ok { return; }
        bit, k := bit + 1, k + 1;
      }
      assert k == end;
      ok := true;
    }

    /** The write of len bytes at a mask register address. */
    method UpdateImr(addr: nat, bits: seq<bool>, len: nat, ghost before: Registers) returns (code: Code)
      requires InImr(addr) && ic == before && |bits| == 8 * len
      modifies this`ic, this`privileged
      ensures user ==> code == Perm && privileged && ic == before
      ensures !user ==>
                var k := Reached(before, First(addr), |bits|);
                && ic == Written(before, First(addr), bits, k) && code == (if k == |bits| then Ok else Unmapped)
                && privileged == old(privileged)
    {
      if user {
        privileged := true;
        return Perm;
      }
      var first := First(addr);
      var b := 0;
      while b < len
        invariant 0 <= b <= len && AllMapped(before, first, 8 * b)
        invariant ic == Written(before, first, bits, 8 * b) && privileged == old(privileged)
      {
        var ok := WriteByte(first, bits, b, before, 8 * b + 8);
        if !ok { return Unmapped; }
        b := b + 1;
      }
      ReachedAll(before, first, |bits|);
      return Ok;
    }

    /** An 8-, 16- or 32-bit write by the guest: a wider one is refused unless it is aligned.  When it
        succeeds, exactly the mask bits that it covers have changed. */
    method Update(addr: nat, bits: seq<bool>, len: nat, ghost before: Registers) returns (code: Code)
      requires InImr(addr) && (len == 1 || len == 2 || len == 4) && |bits| == 8 * len && ic == before
      modifies this`ic, this`privileged
      ensures code.Invalid? <==> addr % len != 0
      ensures code.Perm? <==> addr % len == 0 && user
      ensures code.Invalid? || code.Perm? ==> ic == before
      ensures code.Ok? ==> Exactly(before, ic, First(addr), bits)
      ensures code.Ok? || code.Unmapped? ==> (code.Ok? <==> AllMapped(before, First(addr), |bits|))
    {
      if addr % len != 0 { return Invalid; }
      AlignedStays(addr, len);
      code := UpdateImr(addr, bits, len, before);
      if code == Ok {
        WriteExact(before, First(addr), bits);
      }
      if code != Perm && AllMapped(before, First(addr), |bits|) {
        ReachedAll(before, First(addr), |bits|);
      }
    }
  }
}
