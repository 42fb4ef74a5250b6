/** Bytes in memory, and the registers that the stack instructions put there. */
module CpuStackLaws {
  import opened CpuMemory
  import opened CpuFrames

  /** A word is stored least significant byte first, and read so. */
  lemma LittleEndian(m: Memory, a: int, w: Word)
    requires Mapped(m, a)
    ensures var n := Store(m, a, w);
            && Addr(a) in n && n[Addr(a)] == w % 256 && Addr(a + 1) in n && n[Addr(a + 1)] == w / 256 % 256
            && Addr(a + 2) in n && n[Addr(a + 2)] == w / 65536 % 256
            && Addr(a + 3) in n && n[Addr(a + 3)] == w / 16777216
  {
    var bs := Bytes(w);
    StoredByte(m, a, bs, 0);
    StoredByte(m, a, bs, 1);
    StoredByte(m, a, bs, 2);
    StoredByte(m, a, bs, 3);
    assert Cell(a, 0) == Addr(a) && Cell(a, 1) == Addr(a + 1) && Cell(a, 2) == Addr(a + 2) && Cell(a, 3) == Addr(a + 3);
  }

  lemma ReadsLittleEndian(m: Memory, a: int)
    requires Mapped(m, a)
    ensures Addr(a) in m && Addr(a + 1) in m && Addr(a + 2) in m && Addr(a + 3) in m
    ensures Load(m, a) as int ==
            (m[Addr(a)] as int) + 256 * (m[Addr(a + 1)] as int) +
            65536 * (m[Addr(a + 2)] as int) + 16777216 * (m[Addr(a + 3)] as int)
  {
    assert Cell(a, 0) == Addr(a) && Cell(a, 1) == Addr(a + 1) && Cell(a, 2) == Addr(a + 2) && Cell(a, 3) == Addr(a + 3);
  }

  // ---------- where the registers go ----------

  /** How many registers from 20 up to i are listed. */
  function Rank(list: seq<bool>, i: nat): nat
    requires IsList(list) && 20 <= i <= 32
  {
    if i == 20 then 0 else Rank(list, i - 1) + if list[i - 1] then 1 else 0
  }

  lemma {:induction false} RankIsPlace(list: seq<bool>, i: nat)
    requires IsList(list) && 20 <= i <= 32
    ensures |Listed(list, i)| == Rank(list, i)
  {
    if i > 20 {
      RankIsPlace(list, i - 1);
    }
  }

  lemma RankInRegs(list: seq<bool>, i: nat)
    requires IsList(list) && 20 <= i < 32 && list[i]
    ensures Rank(list, i) < |Regs(list)| <= 32 && Regs(list)[Rank(list, i)] == i
  {
    RankIsPlace(list, i);
    ListedPrefix(list, i + 1, |list|);
    ListedShort(list, |list|);
  }

  lemma PushPlaces(m: Memory, top: int, r: seq<Word>, regs: seq<nat>, k: nat)
    requires |r| == 32 && Numbers(regs) && k < |regs| <= 32 && MappedBelow(m, top, |regs|)
    ensures var p := Push(m, top, Values(r, regs), |regs|);
            Mapped(p, top - 4 * (k + 1)) && Load(p, top - 4 * (k + 1)) == r[regs[k]]
  {
    PushedWord(m, top, Values(r, regs), |regs|, k);
    assert Slot(top, k) == top - 4 * (k + 1);
  }

  lemma PreparedMemory(x: Access, s: Cpu, list: seq<bool>, imm: nat, plain: bool, form: EpForm)
    requires Shape(s) && IsList(list) && Prepare(x, s, list, imm, plain, form).1
    ensures var n := |Regs(list)|;
            && MappedBelow(s.mem, s.r[SP], n)
            && Prepare(x, s, list, imm, plain, form).0.mem == Push(s.mem, s.r[SP], Values(s.r, Regs(list)), n)
  {
    PrepareSucceeds(x, s, list, imm, plain, form);
    PrepareMemory(x, s, list, imm, plain, form, |Regs(list)|);
  }

  /** PREPARE puts the listed registers below the stack pointer, the lowest number on top. */
  lemma PreparePlaces(x: Access, s: Cpu, list: seq<bool>, imm: nat, plain: bool, form: EpForm, i: nat)
    requires Shape(s) && IsList(list) && Prepare(x, s, list, imm, plain, form).1
    requires 20 <= i < 32 && list[i]
    ensures var p := Prepare(x, s, list, imm, plain, form).0;
            var a := s.r[SP] as int - 4 * (Rank(list, i) + 1);
            Mapped(p.mem, a) && Load(p.mem, a) == s.r[i]
  {
    RankInRegs(list, i);
    PreparedMemory(x, s, list, imm, plain, form);
    PushPlaces(s.mem, s.r[SP], s.r, Regs(list), Rank(list, i));
  }

  lemma PushedSpMemory(x: Access, s: Cpu, rh: nat, rt: nat)
    requires Shape(s) && rh <= rt < 32 && PushSp(x, s, rh, rt).1
    ensures var n, top := rt - rh + 1, Aligned(s.r[SP]);
            MappedBelow(s.mem, top, n) && PushSp(x, s, rh, rt).0.mem == Push(s.mem, top, Values(s.r, Range(rh, rt)), n)
  {
    PushSpSucceeds(x, s, rh, rt, rt - rh + 1);
    PushSpMemory(x, s, rh, rt, rt - rh + 1);
  }

  /** PUSHSP puts the registers of its range below the word-aligned stack pointer, the first on top. */
  lemma PushSpPlaces(x: Access, s: Cpu, rh: nat, rt: nat, i: nat)
    requires Shape(s) && rh <= i <= rt < 32 && PushSp(x, s, rh, rt).1
    ensures var p := PushSp(x, s, rh, rt).0;
            var a := Aligned(s.r[SP]) as int - 4 * (i - rh + 1);
            Mapped(p.mem, a) && Load(p.mem, a) == s.r[i]
  {
    PushedSpMemory(x, s, rh, rt);
    PushPlaces(s.mem, Aligned(s.r[SP]), s.r, Range(rh, rt), i - rh);
  }

  /** A successful PREPARE leaves the stack pointer below the saved registers and the local part, and
      counts a cycle for each register saved. */
  lemma PreparedSp(x: Access, s: Cpu, list: seq<bool>, imm: nat, plain: bool, form: EpForm)
    requires Shape(s) && IsList(list) && Prepare(x, s, list, imm, plain, form).1
    ensures var p := Prepare(x, s, list, imm, plain, form).0;
            && p.r[SP] == Addr(s.r[SP] as int - 4 * Rank(list, 32) - imm)
            && p.elaps == s.elaps + Rank(list, 32)
  {
    var n := |Regs(list)|;
    RankIsPlace(list, |list|);
    PrepareSucceeds(x, s, list, imm, plain, form);
    PrepareSp(x, s, list, imm, plain, form, n);
    AddrMinus(s.r[SP] - 4 * n, imm);
  }

  /** The element pointer: kept, or set to the new stack pointer, to the half word behind the instruction
      as a signed number or as the upper half, or to the word behind it.  PC goes on behind what was
      read. */
  lemma ElementPointer(s: Cpu, imm: nat, plain: bool, form: EpForm)
    requires Shape(s) && Reserve(s, imm, plain, form).1
    ensures var p := Reserve(s, imm, plain, form).0;
            if plain then p.r[30] == s.r[30] && p.pc == Addr(s.pc + 4)
            else
              Mapped(s.mem, s.pc + 4) &&
              var w := Load(s.mem, s.pc + 4);
              match form
              case FromSp => p.r[30] == p.r[3] && p.pc == Addr(s.pc + 4)
              case SignedHalf =>
                && p.r[30] == (if w % 65536 >= 32768 then w % 65536 + 0xFFFF_0000 else w % 65536)
                && p.pc == Addr(s.pc + 6)
              case HighHalf => p.r[30] == w % 65536 * 65536 && p.pc == Addr(s.pc + 6)
              case Full => p.r[30] == w && p.pc == Addr(s.pc + 8)
    ensures forall i :: 0 <= i < 32 && i != 3 && i != 30 ==> Reserve(s, imm, plain, form).0.r[i] == s.r[i]
  {}

  lemma PoppedCounts(x: Access, t: Cpu, regs: seq<nat>, base: Word)
    requires Shape(t) && Numbers(regs)
    ensures var p := PopAll(x, t, regs, base);
            p.0.pc == t.pc && (p.1 ==> p.0.elaps == |regs|)
  {}

  /** DISPOSE goes on behind itself, or jumps to what the register given has become; six cycles for a jump
      and two otherwise, and one for each register restored. */
  lemma DisposeEnds(x: Access, t: Cpu, list: seq<bool>, imm: nat, reg1: nat)
    requires Shape(t) && IsList(list) && reg1 < 32 && Dispose(x, t, list, imm, reg1).1
    ensures var d := Dispose(x, t, list, imm, reg1).0;
            && d.pc == (if reg1 == 0 then Addr(t.pc + 4) else d.r[reg1])
            && d.elaps == Rank(list, 32) + if reg1 == 0 then 2 else 6
  {
    RankIsPlace(list, |list|);
    PoppedCounts(x, t, Regs(list), Addr(t.r[SP] + imm));
  }

  /** So a function that saves a register in its frame can return through it. */
  lemma ReturnsToCaller(x: Access, s: Cpu, list: seq<bool>, imm: nat, plain: bool, form: EpForm, t: Cpu, reg1: nat)
    requires Shape(s) && Shape(t) && IsList(list) && 20 <= reg1 < 32 && list[reg1]
    requires Prepare(x, s, list, imm, plain, form).1
    requires BodyKeeps(x, Prepare(x, s, list, imm, plain, form).0, t, Addr(s.r[SP] - 4 * |Regs(list)|), |Regs(list)|)
    ensures Dispose(x, t, list, imm, reg1).1 && Dispose(x, t, list, imm, reg1).0.pc == s.r[reg1]
  {
    DisposeUndoesPrepare(x, s, list, imm, plain, form, t, reg1);
    DisposeEnds(x, t, list, imm, reg1);
  }

  // ---------- PUSHSP and POPSP, and failures ----------

  /** A successful PUSHSP leaves the stack pointer below the pushed words, and counts a cycle for each. */
  lemma PushSpEnds(x: Access, s: Cpu, rh: nat, rt: nat)
    requires Shape(s) && rh <= rt < 32 && PushSp(x, s, rh, rt).1
    ensures var p := PushSp(x, s, rh, rt).0;
            var n := rt - rh + 1;
            && p.r == s.r[3 := Addr(s.r[3] as int - s.r[3] % 4 - 4 * n)]
            && p.pc == Addr(s.pc + 4) && p.elaps == s.elaps + n
  {}

  /** A successful POPSP leaves the stack pointer above the popped words, and counts a cycle for each. */
  lemma PopSpEnds(x: Access, s: Cpu, rh: nat, rt: nat)
    requires Shape(s) && 1 <= rh <= rt < 32 && PopSp(x, s, rh, rt).1
    ensures var p := PopSp(x, s, rh, rt).0;
            var n := rt - rh + 1;
            && p.r[3] == Addr(s.r[3] as int - s.r[3] % 4 + 4 * n) && p.mem == s.mem
            && p.pc == Addr(s.pc + 4) && p.elaps == s.elaps + n
  {}

  /** With an empty range neither does anything but go on. */
  lemma EmptyRange(x: Access, s: Cpu, rh: nat, rt: nat)
    requires Shape(s) && rt < rh < 32
    ensures PushSp(x, s, rh, rt) == (s.(pc := Addr(s.pc + 4)), true) && PopSp(x, s, rh, rt) == PushSp(x, s, rh, rt)
  {}

  /** The pushes stop before the first word that cannot be written, with the k words before it pushed, the
      stack pointer below them and PC unchanged. */
  lemma PushStops(x: Access, s: Cpu, regs: seq<nat>) returns (k: nat)
    requires Shape(s) && Numbers(regs)
    ensures k <= |regs| && (forall i :: 0 <= i < k ==> Writable(x, s.mem, Slot(s.r[3], i)))
    ensures k < |regs| ==> !Writable(x, s.mem, Slot(s.r[3], k))
    ensures var p := PushAll(x, s, regs);
            && (p.1 <==> k == |regs|) && p.0.pc == s.pc
            && p.0.r == s.r[3 := Addr(s.r[3] as int - 4 * k)] && p.0.elaps == s.elaps + k
  {
    k := Pushable(x, s.mem, s.r[SP], |regs|);
  }

  /** The pops stop before the first word that cannot be read, with the stack pointer there and memory and
      PC unchanged. */
  lemma PopStops(x: Access, s: Cpu, regs: seq<nat>, base: Word) returns (k: nat)
    requires Shape(s) && Numbers(regs)
    ensures k <= |regs| && (forall j :: 0 <= j < k ==> Readable(x, s.mem, Above(base, j)))
    ensures k < |regs| ==> !Readable(x, s.mem, Above(base, k))
    ensures var p := PopAll(x, s, regs, base);
            && (p.1 <==> k == |regs|) && p.0.pc == s.pc && p.0.mem == s.mem
            && p.0.r[3] == Addr(base + 4 * k) && p.0.elaps == k
  {
    k := Poppable(x, s.mem, base, |regs|);
  }
}
