/** The instructions and helpers that work bit by bit: BINS, ROTL, and sign and zero extension. */
module CpuBits {
  import opened Common
  import A = CpuArith

  /** A register as its bits, lowest first. */
  predicate IsWord(w: seq<bool>) {
    |w| == 32
  }

  // ---------- what the loops compute ----------

  /** Bits lsb to msb of d replaced by the low bits of s. */
  function Insert(d: seq<bool>, s: seq<bool>, lsb: nat, msb: nat): (w: seq<bool>)
    requires IsWord(d) && IsWord(s)
    ensures IsWord(w)
  {
    seq(32, i requires 0 <= i < 32 => if lsb <= i <= msb then s[i - lsb] else d[i])
  }

  /** Rotation to the left. */
  function RotateLeft(d: seq<bool>, n: nat): (w: seq<bool>)
    requires IsWord(d) && n <= 32
    ensures IsWord(w)
  {
    d[32 - n..] + d[..32 - n]
  }

  /** ROTL moves every bit up by n places, and those above the top to the bottom. */
  lemma RotatesLeft(d: seq<bool>, n: nat, i: nat)
    requires IsWord(d) && n <= 32 && i < 32
    ensures RotateLeft(d, n)[if i + n < 32 then i + n else i + n - 32] == d[i]
  {}

  /** Rotations add up, and a full turn gives the word back. */
  lemma RotationsAdd(d: seq<bool>, m: nat, n: nat)
    requires IsWord(d) && m <= 32 && n <= 32
    ensures RotateLeft(RotateLeft(d, m), n) == RotateLeft(d, if m + n <= 32 then m + n else m + n - 32)
    ensures RotateLeft(RotateLeft(d, m), 32 - m) == d
  {
    assert RotateLeft(d, 32) == d;
  }

  /** What a field inserted can be read back as, and what it leaves alone. */
  lemma InsertReads(d: seq<bool>, s: seq<bool>, lsb: nat, msb: nat)
    requires IsWord(d) && IsWord(s) && lsb <= msb < 32
    ensures var w := Insert(d, s, lsb, msb);
            w[lsb..msb + 1] == s[..msb + 1 - lsb] && w[..lsb] == d[..lsb] && w[msb + 1..] == d[msb + 1..]
  {}

  /** Bits above k replaced by bit k. */
  function SignExtension(d: seq<bool>, k: nat): (w: seq<bool>)
    requires IsWord(d) && k < 32
    ensures IsWord(w)
  {
    seq(32, i requires 0 <= i < 32 => if i <= k then d[i] else d[k])
  }

  // ---------- numbers ----------

  function Number(bits: seq<bool>): nat
    decreases |bits|
  {
    if bits == [] then 0
    else Number(bits[..|bits| - 1]) + if bits[|bits| - 1] then Pow2(|bits| - 1) else 0
  }

  /** The two's-complement number of some bits. */
  function Signed(bits: seq<bool>): int
    requires bits != []
  {
    Number(bits[..|bits| - 1]) - if bits[|bits| - 1] then Pow2(|bits| - 1) else 0
  }

  /** One more copy of the sign bit changes nothing. */
  lemma OneMoreSign(bits: seq<bool>)
    requires bits != []
    ensures Signed(bits + [bits[|bits| - 1]]) == Signed(bits)
  {
    var n := |bits|;
    var longer := bits + [bits[n - 1]];
    assert longer[..|longer| - 1] == bits;
    assert Pow2(n) == 2 * Pow2(n - 1);
  }

  lemma {:induction false} ManySigns(d: seq<bool>, k: nat, n: nat)
    requires IsWord(d) && k < n <= 32
    ensures Signed(SignExtension(d, k)[..n]) == Signed(d[..k + 1])
  {
    if n == k + 1 {
      assert SignExtension(d, k)[..n] == d[..k + 1];
    } else {
      ManySigns(d, k, n - 1);
      OneMoreSign(SignExtension(d, k)[..n - 1]);
      assert SignExtension(d, k)[..n] == SignExtension(d, k)[..n - 1] + [SignExtension(d, k)[..n - 1][n - 2]];
    }
  }

  /** Sign extension keeps the number that the low field stands for. */
  lemma ExtensionIsSigned(d: seq<bool>, k: nat)
    requires IsWord(d) && k < 32
    ensures Signed(SignExtension(d, k)) == Signed(d[..k + 1])
  {
    ManySigns(d, k, 32);
    assert SignExtension(d, k)[..32] == SignExtension(d, k);
  }

  // ---------- the loops ----------

  /** What the helper computes: it sets the upper bits of a negative field and leaves those of any other
      as they are. */
  function Extended(d: seq<bool>, k: nat): (w: seq<bool>)
    requires IsWord(d) && k < 32
    ensures IsWord(w)
  {
    if d[k] then SignExtension(d, k) else d
  }

  /** It is sign extension exactly when the field is negative or the upper bits are clear already, as they
      are in every field that the decoder hands to it. */
  lemma ExtendedWhenClear(d: seq<bool>, k: nat)
    requires IsWord(d) && k < 32
    ensures Extended(d, k) == SignExtension(d, k) <==> d[k] || forall i :: k < i < 32 ==> !d[i]
  {
    if !d[k] && Extended(d, k) == SignExtension(d, k) {
      forall i | k < i < 32 ensures !d[i] {
        assert SignExtension(d, k)[i] == d[k];
      }
    }
  }

  method SignExtend(k: nat, data: seq<bool>) returns (w: seq<bool>)
    requires k < 32 && IsWord(data)
    ensures w == Extended(data, k)
  {
    w := data;
    if data[k] {
      var i := k;
      while i < 32
        invariant k <= i <= 32 && IsWord(w)
        invariant forall j :: 0 <= j < 32 ==> w[j] == if k <= j < i then true else data[j]
      {
        w := w[i := true];
        i := i + 1;
      }
    }
  }

  method ZeroExtend(k: nat, data: seq<bool>) returns (w: seq<bool>)
    requires k <= 32 && IsWord(data)
    ensures IsWord(w) && w[..k] == data[..k] && forall i :: k <= i < 32 ==> !w[i]
  {
    w := data;
    var i := k;
    while i < 32
      invariant k <= i <= 32 && IsWord(w)
      invariant forall j :: 0 <= j < 32 ==> w[j] == if k <= j < i then false else data[j]
    {
      w := w[i := false];
      i := i + 1;
    }
  }

  predicate Zero(w: seq<bool>) {
    forall i :: 0 <= i < |w| ==> !w[i]
  }

  /** The address of the next instruction, in 32 bits. */
  function Advanced(pc: nat): nat { (pc + 4) % 0x1_0000_0000 }

  class BitCore {
    const r: array<seq<bool>>
    var flags: A.Flags
    var pc: nat

    ghost predicate Valid()
      reads r
    {
      r.Length == 32 && forall k :: 0 <= k < 32 ==> IsWord(r[k])
    }

    constructor ()
      ensures Valid() && fresh(r)
    {
      r := new seq<bool>[32](_ => seq(32, _ => false));
      flags := A.Flags(false, false, false, false, false);
      pc := 0;
    }

    /** The bounds of the field, from their encoding and the sub-opcode. */
    function Bounds(chk: nat, msb: nat, lsb: nat): (nat, nat) {
      if chk == 4 then (msb + 16, lsb + 16) else if chk == 5 then (msb + 16, lsb) else (msb, lsb)
    }

    method Bins(chk: nat, msb0: nat, lsb0: nat, reg1: nat, reg2: nat)
      requires Valid() && reg1 < 32 && reg2 < 32 && msb0 < 16 && lsb0 < 16
      modifies r, this`flags, this`pc
      ensures Valid() && pc == Advanced(old(pc))
      ensures var (msb, lsb) := Bounds(chk, msb0, lsb0);
              var w := Insert(old(r[reg2]), old(r[reg1]), lsb, msb);
              r[..] == old(r[..])[reg2 := w] && flags == old(flags).(z := Zero(w), s := w[31], ov := false)
    {
      var msb, lsb := msb0, lsb0;
      if chk == 4 {
        msb, lsb := msb + 16, lsb + 16;
      } else if chk == 5 {
        msb := msb + 16;
      }
      var data := r[reg2];
      var i := lsb;
      while i <= msb
        invariant lsb <= i && (i <= msb + 1 || i == lsb) && IsWord(data)
        invariant forall j :: 0 <= j < 32 ==> data[j] == if lsb <= j < i then r[reg1][j - lsb] else r[reg2][j]
      {
        if r[reg1][i - lsb] {
          data := data[i := true];
        } else {
          data := data[i := false];
        }
        i := i + 1;
      }
      assert data == Insert(r[reg2], r[reg1], lsb, msb);
      r[reg2] := data;
      flags := flags.(ov := false);
      flags := flags.(s := data[31], z := data == seq(32, _ => false));
      assert data == seq(32, _ => false) <==> Zero(data);
      pc := Advanced(pc);
    }

    /** Both forms of ROTL, for counts that the hardware allows. */
    method Rotl(count: nat, reg2: nat, reg3: nat)
      requires Valid() && reg2 < 32 && reg3 < 32 && count < 32
      modifies r, this`flags, this`pc
      ensures Valid() && pc == Advanced(old(pc))
      ensures var w := RotateLeft(old(r[reg2]), count);
              && r[..] == old(r[..])[reg3 := w]
              && flags == old(flags).(z := Zero(w), s := w[31], ov := false, cy := count > 0 && w[0])
    {
      var data := r[reg2];
      var i := 0;
      while i < count
        invariant 0 <= i <= count && data == RotateLeft(r[reg2], i)
      {
        data := [false] + data[..31];
        if r[reg2][31 - i] {
          data := data[0 := true];
        }
        i := i + 1;
      }
      r[reg3] := data;
      flags := flags.(cy := count > 0 && data[0], ov := false);
      flags := flags.(s := data[31], z := data == seq(32, _ => false));
      assert data == seq(32, _ => false) <==> Zero(data);
      pc := Advanced(pc);
    }
  }

  /** The field that BINS replaces: bits of the upper half with sub-opcode 4, from the lower to the upper
      half with 5, and of the lower half otherwise. */
  lemma FieldBounds(c: BitCore, chk: nat, msb: nat, lsb: nat)
    requires msb < 16 && lsb < 16
    ensures c.Bounds(chk, msb, lsb) ==
            (msb + (if chk == 4 || chk == 5 then 16 else 0), lsb + if chk == 4 then 16 else 0)
  {}
}
