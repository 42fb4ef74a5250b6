/** PREPARE and DISPOSE, PUSHSP and POPSP: what they leave, and that each pair undoes itself. */
module CpuFrames {
  import opened CpuMemory

  /** Which words the protection unit lets the program read and write. */
  datatype Access = Access(read: set<Word>, write: set<Word>)

  datatype Cpu = Cpu(r: seq<Word>, mem: Memory, pc: Word, elaps: nat)

  predicate Shape(s: Cpu) {
    |s.r| == 32
  }

  const SP: nat := 3
  const EP: nat := 30

  predicate Writable(x: Access, m: Memory, a: int) {
    Addr(a) in x.write && Mapped(m, a)
  }

  predicate Readable(x: Access, m: Memory, a: int) {
    Addr(a) in x.read && Mapped(m, a)
  }

  /** How many of the n slots below top can be written before the first that cannot. */
  function Pushable(x: Access, m: Memory, top: int, n: nat): (k: nat)
    ensures k <= n && MappedBelow(m, top, k)
    ensures forall i :: 0 <= i < k ==> Writable(x, m, Slot(top, i))
    ensures k < n ==> !Writable(x, m, Slot(top, k))
  {
    if n == 0 then 0
    else
      var k := Pushable(x, m, top, n - 1);
      if k == n - 1 && Writable(x, m, Slot(top, n - 1)) then n else k
  }

  /** Where the j-th word above base lies. */
  function Above(base: int, j: nat): int {
    base + 4 * j
  }

  /** How many of the n words from base upwards can be read before the first that cannot. */
  function Poppable(x: Access, m: Memory, base: int, n: nat): (k: nat)
    ensures k <= n
    ensures forall j :: 0 <= j < k ==> Readable(x, m, Above(base, j))
    ensures k < n ==> !Readable(x, m, Above(base, k))
  {
    if n == 0 then 0
    else
      var k := Poppable(x, m, base, n - 1);
      if k == n - 1 && Readable(x, m, Above(base, n - 1)) then n else k
  }

  predicate Numbers(regs: seq<nat>) {
    forall i :: 0 <= i < |regs| ==> regs[i] < 32
  }

  predicate Ascending(regs: seq<nat>) {
    forall i, j :: 0 <= i < j < |regs| ==> regs[i] < regs[j]
  }

  function Values(r: seq<Word>, regs: seq<nat>): (ws: seq<Word>)
    requires |r| == 32 && Numbers(regs)
    ensures |ws| == |regs|
  {
    seq(|regs|, i requires 0 <= i < |regs| => r[regs[i]])
  }

  /** Loads the first k words above base into the registers, last register first. */
  function Pop(r: seq<Word>, m: Memory, regs: seq<nat>, base: int, k: nat): (q: seq<Word>)
    requires |r| == 32 && Numbers(regs) && k <= |regs|
    requires forall j :: 0 <= j < k ==> Mapped(m, Above(base, j))
    ensures |q| == 32
  {
    if k == 0 then r else Pop(r, m, regs, base, k - 1)[regs[|regs| - k] := Load(m, Above(base, k - 1))]
  }

  /** The register loaded j-th gets the j-th word. */
  lemma {:induction false} PopAt(r: seq<Word>, m: Memory, regs: seq<nat>, base: int, k: nat, j: nat)
    requires |r| == 32 && Numbers(regs) && Ascending(regs) && j < k <= |regs|
    requires forall j :: 0 <= j < k ==> Mapped(m, Above(base, j))
    ensures Pop(r, m, regs, base, k)[regs[|regs| - 1 - j]] == Load(m, Above(base, j))
    decreases k
  {
    if j < k - 1 {
      PopAt(r, m, regs, base, k - 1, j);
      assert regs[|regs| - k] < regs[|regs| - 1 - j];
    }
  }

  /** The other registers keep their values. */
  lemma {:induction false} PopElsewhere(r: seq<Word>, m: Memory, regs: seq<nat>, base: int, k: nat, i: nat)
    requires |r| == 32 && Numbers(regs) && k <= |regs| && i < 32 && i !in regs
    requires forall j :: 0 <= j < k ==> Mapped(m, Above(base, j))
    ensures Pop(r, m, regs, base, k)[i] == r[i]
  {
    if k > 0 {
      PopElsewhere(r, m, regs, base, k - 1, i);
      assert regs[|regs| - k] in regs;
    }
  }

  /** The words above base are the words ws, last first. */
  predicate Holds(m: Memory, base: int, ws: seq<Word>) {
    forall j :: 0 <= j < |ws| ==> Mapped(m, Above(base, j)) && Load(m, Above(base, j)) == ws[|ws| - 1 - j]
  }

  /** Words popped into the registers they were pushed from come back. */
  lemma PopRestores(r: seq<Word>, ws: seq<Word>, m: Memory, regs: seq<nat>, base: int, i: nat)
    requires |r| == 32 && Numbers(regs) && Ascending(regs) && |ws| == |regs| && Holds(m, base, ws) && i < |regs|
    ensures Pop(r, m, regs, base, |regs|)[regs[i]] == ws[i]
  {
    PopAt(r, m, regs, base, |regs|, |regs| - 1 - i);
  }

  // ---------- register lists ----------

  predicate IsList(list: seq<bool>) {
    |list| == 32
  }

  /** The listed registers from 20 up to n, ascending. */
  function Listed(list: seq<bool>, n: nat): (regs: seq<nat>)
    requires IsList(list) && 20 <= n <= 32
    ensures Numbers(regs) && forall i :: 0 <= i < |regs| ==> 20 <= regs[i] < n && list[regs[i]]
    ensures forall i :: 20 <= i < n && list[i] ==> i in regs
  {
    if n == 20 then [] else Listed(list, n - 1) + if list[n - 1] then [n - 1] else []
  }

  lemma {:induction false} ListedAscending(list: seq<bool>, n: nat)
    requires IsList(list) && 20 <= n <= 32
    ensures Ascending(Listed(list, n))
    decreases n
  {
    if n > 20 {
      ListedAscending(list, n - 1);
    }
  }

  /** All listed registers. */
  function Regs(list: seq<bool>): (regs: seq<nat>)
    requires IsList(list)
    ensures Numbers(regs) && forall i :: 0 <= i < |regs| ==> 20 <= regs[i] < 32 && list[regs[i]]
    ensures forall i :: 20 <= i < 32 && list[i] ==> i in regs
  {
    Listed(list, |list|)
  }

  lemma {:induction false} ListedPrefix(list: seq<bool>, n: nat, k: nat)
    requires IsList(list) && 20 <= n <= k <= 32
    ensures |Listed(list, n)| <= |Listed(list, k)| && Listed(list, n) == Listed(list, k)[..|Listed(list, n)|]
    decreases k
  {
    if n < k {
      ListedPrefix(list, n, k - 1);
    }
  }

  /** The list as the decoder takes it from the instruction: one bit of the first half word, and eleven
      of the second. */
  function DecodeList(low: bool, bits: seq<bool>): (list: seq<bool>)
    requires |bits| == 11
    ensures IsList(list)
  {
    var none := seq(32, _ => false);
    none[30 := low][31 := bits[0]][29 := bits[1]][28 := bits[2]][23 := bits[3]][22 := bits[4]][21 := bits[5]]
        [20 := bits[6]][27 := bits[7]][26 := bits[8]][25 := bits[9]][24 := bits[10]]
  }

  /** The bits that encode a list. */
  function EncodeList(list: seq<bool>): (e: (bool, seq<bool>))
    requires IsList(list)
    ensures |e.1| == 11
  {
    (list[30], [list[31], list[29], list[28], list[23], list[22], list[21], list[20],
                list[27], list[26], list[25], list[24]])
  }

  /** Different encodings list different registers, and every list of registers 20 to 31 has one. */
  lemma ListsAndEncodings(low: bool, bits: seq<bool>, list: seq<bool>)
    requires |bits| == 11
    requires IsList(list) && forall i :: 0 <= i < 20 ==> !list[i]
    ensures EncodeList(DecodeList(low, bits)) == (low, bits)
    ensures DecodeList(EncodeList(list).0, EncodeList(list).1) == list
  {
    var back := EncodeList(DecodeList(low, bits)).1;
    assert forall i :: 0 <= i < 11 ==> back[i] == bits[i];
    assert back == bits;
  }

  // ---------- PREPARE and DISPOSE ----------

  /** What PREPARE puts into the element pointer, when it does. */
  datatype EpForm = FromSp | SignedHalf | HighHalf | Full

  function Load16(m: Memory, a: int): nat
    requires Mapped(m, a)
  {
    Load(m, a) % 65536
  }

  function Extended(s: Cpu, form: EpForm): Cpu
    requires Shape(s) && Mapped(s.mem, s.pc + 4)
  {
    match form
    case FromSp => s.(r := s.r[EP := s.r[SP]], pc := Addr(s.pc + 4))
    case SignedHalf =>
      var h := Load16(s.mem, s.pc + 4);
      s.(r := s.r[EP := if h < 32768 then h else h + 4294901760], pc := Addr(s.pc + 6))
    case HighHalf => s.(r := s.r[EP := Load16(s.mem, s.pc + 4) * 65536], pc := Addr(s.pc + 6))
    case Full => s.(r := s.r[EP := Load(s.mem, s.pc + 4)], pc := Addr(s.pc + 8))
  }

  function PushedList(s: Cpu, regs: seq<nat>, k: nat): (t: Cpu)
    requires Shape(s) && Numbers(regs) && k <= |regs| && MappedBelow(s.mem, s.r[SP], k)
    ensures Shape(t)
  {
    s.(r := s.r[SP := Addr(s.r[SP] - 4 * k)], mem := Push(s.mem, s.r[SP], Values(s.r, regs), k), elaps := s.elaps + k)
  }

  /** The pushes of PREPARE.  A word that cannot be written stops them, and what is pushed by then stays
      pushed. */
  function PushAll(x: Access, s: Cpu, regs: seq<nat>): (t: (Cpu, bool))
    requires Shape(s) && Numbers(regs)
    ensures Shape(t.0)
  {
    var k := Pushable(x, s.mem, s.r[SP], |regs|);
    (PushedList(s, regs, k), k == |regs|)
  }

  /** The local part of the frame, and the element pointer. */
  function Reserve(s: Cpu, imm: nat, plain: bool, form: EpForm): (t: (Cpu, bool))
    requires Shape(s)
    ensures Shape(t.0)
  {
    var u := s.(r := s.r[SP := Addr(s.r[SP] - imm)]);
    if plain then (u.(pc := Addr(u.pc + 4)), true)
    else if !Mapped(u.mem, u.pc + 4) then (u, false)
    else (Extended(u, form), true)
  }

  /** The state after PREPARE and whether it succeeded. */
  function Prepare(x: Access, s: Cpu, list: seq<bool>, imm: nat, plain: bool, form: EpForm): (t: (Cpu, bool))
    requires Shape(s) && IsList(list)
    ensures Shape(t.0)
  {
    var t := PushAll(x, s, Regs(list));
    if t.1 then Reserve(t.0, imm, plain, form) else t
  }

  predicate MappedAbove(m: Memory, base: int, n: nat) {
    forall j :: 0 <= j < n ==> Mapped(m, Above(base, j))
  }

  /** The state of DISPOSE after j registers. */
  function PoppedList(s: Cpu, regs: seq<nat>, base: int, j: nat): (t: Cpu)
    requires Shape(s) && Numbers(regs) && j <= |regs| && MappedAbove(s.mem, base, j)
    ensures Shape(t)
  {
    s.(r := Pop(s.r, s.mem, regs, base, j)[SP := Addr(base + 4 * j)], elaps := j)
  }

  /** The pops of DISPOSE. */
  function PopAll(x: Access, s: Cpu, regs: seq<nat>, base: Word): (t: (Cpu, bool))
    requires Shape(s) && Numbers(regs)
    ensures Shape(t.0)
  {
    var k := Poppable(x, s.mem, base, |regs|);
    (PoppedList(s, regs, base, k), k == |regs|)
  }

  /** The end of DISPOSE, with its optional jump. */
  function Leave(s: Cpu, reg1: nat): (t: Cpu)
    requires Shape(s) && reg1 < 32
    ensures Shape(t)
  {
    if reg1 != 0 then s.(elaps := s.elaps + 6, pc := s.r[reg1]) else s.(elaps := s.elaps + 2, pc := Addr(s.pc + 4))
  }

  /** The state after DISPOSE and whether it succeeded. */
  function Dispose(x: Access, s: Cpu, list: seq<bool>, imm: nat, reg1: nat): (t: (Cpu, bool))
    requires Shape(s) && IsList(list) && reg1 < 32
    ensures Shape(t.0)
  {
    var t := PopAll(x, s, Regs(list), Addr(s.r[SP] + imm));
    if t.1 then (Leave(t.0, reg1), true) else t
  }

  /** A frame of n words pushed below top, as seen from its lower end. */
  lemma PushedHolds(m: Memory, top: int, ws: seq<Word>, base: int)
    requires MappedBelow(m, top, |ws|) && |ws| <= 32 && Addr(base) == Addr(top - 4 * |ws|)
    ensures Holds(Push(m, top, ws, |ws|), base, ws)
  {
    var n := |ws|;
    var p := Push(m, top, ws, n);
    forall j | 0 <= j < n ensures Mapped(p, Above(base, j)) && Load(p, Above(base, j)) == ws[n - 1 - j] {
      AddrPlus(base, top - 4 * n, 4 * j);
      PushedWord(m, top, ws, n, n - 1 - j);
      SameAddress(p, Above(base, j), Slot(top, n - 1 - j));
    }
  }

  /** From one memory to the other the n words above base are the same, and can be read. */
  predicate FrameKept(x: Access, m: Memory, p: Memory, base: int, n: nat) {
    forall j :: 0 <= j < n ==>
      Mapped(m, Above(base, j)) && Readable(x, p, Above(base, j)) && Load(p, Above(base, j)) == Load(m, Above(base, j))
  }

  lemma AllPoppable(x: Access, m: Memory, p: Memory, base: int, n: nat)
    requires FrameKept(x, m, p, base, n)
    ensures Poppable(x, p, base, n) == n
  {}

  /** A successful PREPARE has pushed every listed register. */
  lemma PrepareSucceeds(x: Access, s: Cpu, list: seq<bool>, imm: nat, plain: bool, form: EpForm)
    requires Shape(s) && IsList(list) && Prepare(x, s, list, imm, plain, form).1
    ensures Pushable(x, s.mem, s.r[SP], |Regs(list)|) == |Regs(list)|
  {}

  lemma PrepareMemory(x: Access, s: Cpu, list: seq<bool>, imm: nat, plain: bool, form: EpForm, n: nat)
    requires Shape(s) && IsList(list) && n == |Regs(list)| == Pushable(x, s.mem, s.r[SP], n)
    ensures Prepare(x, s, list, imm, plain, form).0.mem == Push(s.mem, s.r[SP], Values(s.r, Regs(list)), n)
  {}

  lemma PrepareSp(x: Access, s: Cpu, list: seq<bool>, imm: nat, plain: bool, form: EpForm, n: nat)
    requires Shape(s) && IsList(list) && n == |Regs(list)| == Pushable(x, s.mem, s.r[SP], n)
    ensures Prepare(x, s, list, imm, plain, form).0.r[SP] == Addr(Addr(s.r[SP] - 4 * n) - imm)
  {}

  /** DISPOSE pops a frame that is there. */
  lemma DisposeIs(x: Access, t: Cpu, list: seq<bool>, imm: nat, reg1: nat, n: nat)
    requires Shape(t) && IsList(list) && reg1 < 32
    requires n == |Regs(list)| == Poppable(x, t.mem, Addr(t.r[SP] + imm), n)
    ensures var d := Dispose(x, t, list, imm, reg1);
            var base := Addr(t.r[SP] + imm);
            d.1 && d.0.mem == t.mem && d.0.r == Pop(t.r, t.mem, Regs(list), base, n)[SP := Addr(base + 4 * n)]
  {}

  /** What is popped from a frame that holds the values of a list. */
  lemma PopListed(r: seq<Word>, q: seq<Word>, m: Memory, list: seq<bool>, base: int)
    requires |r| == 32 && |q| == 32 && IsList(list) && Holds(m, base, Values(q, Regs(list)))
    ensures var p := Pop(r, m, Regs(list), base, |Regs(list)|);
            forall i :: 0 <= i < 32 ==> p[i] == if 20 <= i && list[i] then q[i] else r[i]
  {
    var regs := Regs(list);
    ListedAscending(list, |list|);
    forall i | 0 <= i < 32
      ensures Pop(r, m, regs, base, |regs|)[i] == if 20 <= i && list[i] then q[i] else r[i]
    {
      if 20 <= i && list[i] {
        var j :| 0 <= j < |regs| && regs[j] == i;
        PopRestores(r, Values(q, regs), m, regs, base, j);
      } else {
        PopElsewhere(r, m, regs, base, |regs|, i);
      }
    }
  }

  /** What the function's body leaves alone: the stack pointer, and the frame that PREPARE made. */
  predicate BodyKeeps(x: Access, p: Cpu, t: Cpu, base: int, n: nat)
    requires Shape(p) && Shape(t)
  {
    t.r[SP] == p.r[SP] && FrameKept(x, p.mem, t.mem, base, n)
  }

  /** A frame that is kept can be popped. */
  lemma KeptFrame(x: Access, m: Memory, ws: seq<Word>, p: Memory, base: int)
    requires Holds(m, base, ws) && FrameKept(x, m, p, base, |ws|)
    ensures Holds(p, base, ws) && Poppable(x, p, base, |ws|) == |ws|
  {
    AllPoppable(x, m, p, base, |ws|);
  }

  /** p has the values of some registers of s in its frame, whose lower end is at base. */
  predicate FrameMade(s: Cpu, p: Cpu, regs: seq<nat>, imm: nat, base: Word)
    requires Shape(s) && Shape(p) && Numbers(regs)
  {
    && Holds(p.mem, base, Values(s.r, regs))
    && Addr(p.r[SP] + imm) == base && Addr(base + 4 * |regs|) == s.r[SP]
  }

  lemma MakesFrame(s: Cpu, p: Cpu, regs: seq<nat>, imm: nat, base: Word)
    requires Shape(s) && Shape(p) && Numbers(regs) && |regs| <= 32 && MappedBelow(s.mem, s.r[SP], |regs|)
    requires p.mem == Push(s.mem, s.r[SP], Values(s.r, regs), |regs|)
    requires base == Addr(s.r[SP] - 4 * |regs|) && p.r[SP] == Addr(base - imm)
    ensures FrameMade(s, p, regs, imm, base)
  {
    FrameBase(s.r[SP], 4 * |regs|, imm);
    PushedHolds(s.mem, s.r[SP], Values(s.r, regs), base);
  }

  lemma PrepareMakesFrame(x: Access, s: Cpu, list: seq<bool>, imm: nat, plain: bool, form: EpForm)
    requires Shape(s) && IsList(list) && Prepare(x, s, list, imm, plain, form).1
    ensures FrameMade(s, Prepare(x, s, list, imm, plain, form).0, Regs(list), imm, Addr(s.r[SP] - 4 * |Regs(list)|))
  {
    var n := |Regs(list)|;
    PrepareSucceeds(x, s, list, imm, plain, form);
    PrepareMemory(x, s, list, imm, plain, form, n);
    PrepareSp(x, s, list, imm, plain, form, n);
    ListedShort(list, |list|);
    MakesFrame(s, Prepare(x, s, list, imm, plain, form).0, Regs(list), imm, Addr(s.r[SP] - 4 * n));
  }

  /** What DISPOSE makes of a frame that holds the caller's registers. */
  lemma DisposeRestores(x: Access, q: seq<Word>, t: Cpu, list: seq<bool>, imm: nat, reg1: nat, n: nat)
    requires Shape(t) && IsList(list) && reg1 < 32 && |q| == 32 && n == |Regs(list)|
    requires Holds(t.mem, Addr(t.r[SP] + imm), Values(q, Regs(list)))
    requires Poppable(x, t.mem, Addr(t.r[SP] + imm), n) == n && Addr(Addr(t.r[SP] + imm) + 4 * n) == q[SP]
    ensures Restored(t, q, Dispose(x, t, list, imm, reg1), list)
  {
    DisposeIs(x, t, list, imm, reg1, n);
    PopListed(t.r, q, t.mem, list, Addr(t.r[SP] + imm));
  }

  /** The listed registers and the stack pointer are as in q, and all else is as in t. */
  predicate Restored(t: Cpu, q: seq<Word>, d: (Cpu, bool), list: seq<bool>)
    requires Shape(t) && |q| == 32 && Shape(d.0) && IsList(list)
  {
    && d.1 && d.0.mem == t.mem
    && forall i :: 0 <= i < 32 ==> d.0.r[i] == if i == SP || (20 <= i && list[i]) then q[i] else t.r[i]
  }

  lemma FrameRestored(x: Access, s: Cpu, list: seq<bool>, imm: nat, p: Cpu, t: Cpu, reg1: nat, base: Word)
    requires Shape(s) && Shape(p) && Shape(t) && IsList(list) && reg1 < 32 && FrameMade(s, p, Regs(list), imm, base)
    requires BodyKeeps(x, p, t, base, |Regs(list)|)
    ensures Restored(t, s.r, Dispose(x, t, list, imm, reg1), list)
  {
    KeptFrame(x, p.mem, Values(s.r, Regs(list)), t.mem, base);
    DisposeRestores(x, s.r, t, list, imm, reg1, |Regs(list)|);
  }

  /** A function that begins with PREPARE and ends with DISPOSE gives its caller back the listed registers
      and the stack pointer, whatever it does in between to registers and to memory outside its frame, as
      long as the stack pointer is back where PREPARE left it. */
  lemma DisposeUndoesPrepare(x: Access, s: Cpu, list: seq<bool>, imm: nat, plain: bool, form: EpForm, t: Cpu, reg1: nat)
    requires Shape(s) && Shape(t) && IsList(list) && reg1 < 32
    requires Prepare(x, s, list, imm, plain, form).1
    requires BodyKeeps(x, Prepare(x, s, list, imm, plain, form).0, t, Addr(s.r[SP] - 4 * |Regs(list)|), |Regs(list)|)
    ensures Restored(t, s.r, Dispose(x, t, list, imm, reg1), list)
  {
    var p := Prepare(x, s, list, imm, plain, form).0;
    PrepareMakesFrame(x, s, list, imm, plain, form);
    FrameRestored(x, s, list, imm, p, t, reg1, Addr(s.r[SP] - 4 * |Regs(list)|));
  }

  lemma {:induction false} ListedShort(list: seq<bool>, n: nat)
    requires IsList(list) && 20 <= n <= 32
    ensures |Listed(list, n)| <= n - 20
    decreases n
  {
    if n > 20 {
      ListedShort(list, n - 1);
    }
  }

  lemma FrameBase(sp: Word, size: nat, imm: nat)
    ensures var base := Addr(sp - size);
            Addr(base) == Addr(sp - size) && Addr(Addr(base - imm) + imm) == base && Addr(base + size) == sp
  {
    var base := Addr(sp - size);
    AddrPlus(Addr(base - imm), base - imm, imm);
    AddrPlus(base, sp - size, size);
  }

  lemma PushTouches(m: Memory, top: int, ws: seq<Word>, k: nat, n: nat, b: Word)
    requires k <= |ws| && k <= n && MappedBelow(m, top, k) && b in m && !Within(b, top - 4 * n, 4 * n)
    ensures Push(m, top, ws, k)[b] == m[b]
  {
    if Within(b, top - 4 * k, 4 * k) {
      WithinWider(b, top - 4 * k, 4 * k, top - 4 * n, 4 * n);
    }
    PushElsewhere(m, top, ws, k, b);
  }

  /** PREPARE changes no byte of memory outside its frame, whether it succeeds or not. */
  lemma PrepareTouches(x: Access, s: Cpu, list: seq<bool>, imm: nat, plain: bool, form: EpForm, b: Word)
    requires Shape(s) && IsList(list) && b in s.mem
    requires !Within(b, s.r[SP] as int - 4 * |Regs(list)|, 4 * |Regs(list)|)
    ensures b in Prepare(x, s, list, imm, plain, form).0.mem
    ensures Prepare(x, s, list, imm, plain, form).0.mem[b] == s.mem[b]
  {
    var n := |Regs(list)|;
    PushTouches(s.mem, s.r[SP], Values(s.r, Regs(list)), Pushable(x, s.mem, s.r[SP], n), n, b);
  }

  // ---------- PUSHSP and POPSP ----------

  /** Registers rh to rt. */
  function Range(rh: nat, rt: nat): (regs: seq<nat>)
    requires rh <= rt < 32
    ensures Numbers(regs) && |regs| == rt - rh + 1
  {
    seq(rt - rh + 1, i => rh + i)
  }

  function Aligned(a: Word): Word {
    a - a % 4
  }

  /** The state of PUSHSP after k registers. */
  function PushedRange(s: Cpu, regs: seq<nat>, top: int, k: nat): (t: Cpu)
    requires Shape(s) && Numbers(regs) && k <= |regs| && MappedBelow(s.mem, top, k)
    ensures Shape(t)
  {
    s.(mem := Push(s.mem, top, Values(s.r, regs), k), elaps := s.elaps + k)
  }

  function PushRegisters(x: Access, s: Cpu, regs: seq<nat>, top: int): (t: (Cpu, bool))
    requires Shape(s) && Numbers(regs)
    ensures Shape(t.0)
  {
    var k := Pushable(x, s.mem, top, |regs|);
    (PushedRange(s, regs, top, k), k == |regs|)
  }

  /** The stack pointer is set at the end only. */
  function Settle(s: Cpu, sp: Word): (t: Cpu)
    requires Shape(s)
    ensures Shape(t)
  {
    s.(r := s.r[SP := sp], pc := Addr(s.pc + 4))
  }

  function PushSp(x: Access, s: Cpu, rh: nat, rt: nat): (t: (Cpu, bool))
    requires Shape(s) && rh < 32 && rt < 32
    ensures Shape(t.0)
  {
    if rh > rt then (s.(pc := Addr(s.pc + 4)), true)
    else
      var top := Aligned(s.r[SP]);
      var t := PushRegisters(x, s, Range(rh, rt), top);
      if t.1 then (Settle(t.0, Addr(top - 4 * (rt - rh + 1))), true) else t
  }

  /** The state of POPSP after j registers. */
  function PoppedRange(s: Cpu, regs: seq<nat>, base: int, j: nat): (t: Cpu)
    requires Shape(s) && Numbers(regs) && j <= |regs| && MappedAbove(s.mem, base, j)
    ensures Shape(t)
  {
    s.(r := Pop(s.r, s.mem, regs, base, j), elaps := s.elaps + j)
  }

  function PopRegisters(x: Access, s: Cpu, regs: seq<nat>, base: int): (t: (Cpu, bool))
    requires Shape(s) && Numbers(regs)
    ensures Shape(t.0)
  {
    var k := Poppable(x, s.mem, base, |regs|);
    (PoppedRange(s, regs, base, k), k == |regs|)
  }

  function PopSp(x: Access, s: Cpu, rh: nat, rt: nat): (t: (Cpu, bool))
    requires Shape(s) && rh < 32 && rt < 32
    ensures Shape(t.0)
  {
    if rh > rt then (s.(pc := Addr(s.pc + 4)), true)
    else
      var base := Aligned(s.r[SP]);
      var t := PopRegisters(x, s, Range(rh, rt), base);
      if t.1 then (Settle(t.0, Addr(base + 4 * (rt - rh + 1))), true) else t
  }

  lemma PushSpSucceeds(x: Access, s: Cpu, rh: nat, rt: nat, n: nat)
    requires Shape(s) && rh <= rt < 32 && n == rt - rh + 1 && PushSp(x, s, rh, rt).1
    ensures Pushable(x, s.mem, Aligned(s.r[SP]), n) == n
  {}

  lemma PushSpMemory(x: Access, s: Cpu, rh: nat, rt: nat, n: nat)
    requires Shape(s) && rh <= rt < 32 && n == rt - rh + 1 == Pushable(x, s.mem, Aligned(s.r[SP]), n)
    ensures PushSp(x, s, rh, rt).0.mem == Push(s.mem, Aligned(s.r[SP]), Values(s.r, Range(rh, rt)), n)
  {}

  lemma PushSpSp(x: Access, s: Cpu, rh: nat, rt: nat, n: nat)
    requires Shape(s) && rh <= rt < 32 && n == rt - rh + 1 == Pushable(x, s.mem, Aligned(s.r[SP]), n)
    ensures PushSp(x, s, rh, rt).0.r[SP] == Addr(Aligned(s.r[SP]) - 4 * n)
  {}

  lemma PopSpIs(x: Access, t: Cpu, rh: nat, rt: nat, n: nat)
    requires Shape(t) && rh <= rt < 32 && n == rt - rh + 1
    requires Poppable(x, t.mem, Aligned(t.r[SP]), n) == n
    ensures var d := PopSp(x, t, rh, rt);
            var base := Aligned(t.r[SP]);
            d.1 && d.0.mem == t.mem && d.0.r == Pop(t.r, t.mem, Range(rh, rt), base, n)[SP := Addr(base + 4 * n)]
  {}

  lemma PopRange(r: seq<Word>, q: seq<Word>, m: Memory, rh: nat, rt: nat, base: int)
    requires |r| == 32 && |q| == 32 && rh <= rt < 32 && Holds(m, base, Values(q, Range(rh, rt)))
    ensures var p := Pop(r, m, Range(rh, rt), base, rt - rh + 1);
            forall i :: 0 <= i < 32 ==> p[i] == if rh <= i <= rt then q[i] else r[i]
  {
    var regs := Range(rh, rt);
    forall i | 0 <= i < 32
      ensures Pop(r, m, regs, base, |regs|)[i] == if rh <= i <= rt then q[i] else r[i]
    {
      if rh <= i <= rt {
        PopRestores(r, Values(q, regs), m, regs, base, i - rh);
      } else {
        PopElsewhere(r, m, regs, base, |regs|, i);
      }
    }
  }

  lemma AlignedIsMultiple(a: Word, n: nat)
    ensures Aligned(Addr(Aligned(a) - 4 * n)) == Addr(Aligned(a) - 4 * n)
  {
    AddrIs(Aligned(a) - 4 * n);
  }

  lemma AlignedBase(top: Word, n: nat)
    ensures Addr(Addr(top - 4 * n)) == Addr(top - 4 * n)
    ensures Addr(Addr(top - 4 * n) + 4 * n) == top
  {
    AddrIs(top - 4 * n);
    AddrPlus(Addr(top - 4 * n), top - 4 * n, 4 * n);
  }

  /** p has the values of some registers of s above its stack pointer, which is a multiple of four. */
  predicate SavedIn(s: Cpu, p: Cpu, regs: seq<nat>)
    requires Shape(s) && Shape(p) && Numbers(regs)
  {
    && Holds(p.mem, p.r[SP], Values(s.r, regs)) && Aligned(p.r[SP]) == p.r[SP]
    && Addr(p.r[SP] + 4 * |regs|) == Aligned(s.r[SP])
  }

  lemma MakesSaved(s: Cpu, p: Cpu, regs: seq<nat>, top: Word)
    requires Shape(s) && Shape(p) && Numbers(regs) && |regs| <= 32 && top == Aligned(s.r[SP]) &&
             MappedBelow(s.mem, top, |regs|)
    requires p.mem == Push(s.mem, top, Values(s.r, regs), |regs|) && p.r[SP] == Addr(top - 4 * |regs|)
    ensures SavedIn(s, p, regs)
  {
    AlignedIsMultiple(s.r[SP], |regs|);
    AlignedBase(top, |regs|);
    PushedHolds(s.mem, top, Values(s.r, regs), p.r[SP]);
  }

  lemma PushSpSaves(x: Access, s: Cpu, rh: nat, rt: nat)
    requires Shape(s) && rh <= rt < 32 && PushSp(x, s, rh, rt).1
    ensures SavedIn(s, PushSp(x, s, rh, rt).0, Range(rh, rt))
  {
    var n := rt - rh + 1;
    PushSpSucceeds(x, s, rh, rt, n);
    PushSpMemory(x, s, rh, rt, n);
    PushSpSp(x, s, rh, rt, n);
    MakesSaved(s, PushSp(x, s, rh, rt).0, Range(rh, rt), Aligned(s.r[SP]));
  }

  /** Registers rh to rt are as in q, the stack pointer is sp, and all else is as in t. */
  predicate RangeRestored(t: Cpu, q: seq<Word>, sp: Word, d: (Cpu, bool), rh: nat, rt: nat)
    requires Shape(t) && |q| == 32 && Shape(d.0)
  {
    && d.1 && d.0.mem == t.mem && d.0.r[SP] == sp
    && forall i :: 0 <= i < 32 && i != SP ==> d.0.r[i] == if rh <= i <= rt then q[i] else t.r[i]
  }

  lemma PopSpRestores(x: Access, q: seq<Word>, t: Cpu, rh: nat, rt: nat, n: nat)
    requires Shape(t) && rh <= rt < 32 && |q| == 32 && n == rt - rh + 1 && Aligned(t.r[SP]) == t.r[SP]
    requires Holds(t.mem, t.r[SP], Values(q, Range(rh, rt))) && Poppable(x, t.mem, t.r[SP], n) == n
    ensures RangeRestored(t, q, Addr(t.r[SP] + 4 * n), PopSp(x, t, rh, rt), rh, rt)
  {
    PopSpIs(x, t, rh, rt, n);
    PopRange(t.r, q, t.mem, rh, rt, t.r[SP]);
  }

  lemma SavedRestored(x: Access, s: Cpu, p: Cpu, rh: nat, rt: nat, t: Cpu)
    requires Shape(s) && Shape(p) && Shape(t) && rh <= rt < 32 && SavedIn(s, p, Range(rh, rt))
    requires BodyKeeps(x, p, t, t.r[SP], rt - rh + 1)
    ensures RangeRestored(t, s.r, Aligned(s.r[SP]), PopSp(x, t, rh, rt), rh, rt)
  {
    KeptFrame(x, p.mem, Values(s.r, Range(rh, rt)), t.mem, t.r[SP]);
    PopSpRestores(x, s.r, t, rh, rt, rt - rh + 1);
  }

  /** POPSP gives back every register that PUSHSP saved, except that the stack pointer comes back rounded
      down to a word boundary, even when it is among them.  The loop of POPSP ends for ranges that do
      not start at register 0 only. */
  lemma PopSpUndoesPushSp(x: Access, s: Cpu, rh: nat, rt: nat, t: Cpu)
    requires Shape(s) && Shape(t) && 1 <= rh <= rt < 32
    requires PushSp(x, s, rh, rt).1
    requires BodyKeeps(x, PushSp(x, s, rh, rt).0, t, t.r[SP], rt - rh + 1)
    ensures RangeRestored(t, s.r, Aligned(s.r[SP]), PopSp(x, t, rh, rt), rh, rt)
  {
    PushSpSaves(x, s, rh, rt);
    SavedRestored(x, s, PushSp(x, s, rh, rt).0, rh, rt, t);
  }

  /** PUSHSP changes no byte of memory outside the words it pushes, whether it succeeds or not. */
  lemma PushSpTouches(x: Access, s: Cpu, rh: nat, rt: nat, b: Word)
    requires Shape(s) && rh <= rt < 32 && b in s.mem
    requires !Within(b, Aligned(s.r[SP]) as int - 4 * (rt - rh + 1), 4 * (rt - rh + 1))
    ensures b in PushSp(x, s, rh, rt).0.mem && PushSp(x, s, rh, rt).0.mem[b] == s.mem[b]
  {
    var n := rt - rh + 1;
    var top := Aligned(s.r[SP]);
    PushTouches(s.mem, top, Values(s.r, Range(rh, rt)), Pushable(x, s.mem, top, n), n, b);
  }
}
