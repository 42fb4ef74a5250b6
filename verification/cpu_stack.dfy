/** The stack instructions as they run: loops over registers and memory, proved to do what CpuFrames
    says. */
module CpuStack {
  import opened CpuMemory
  import opened CpuFrames

  /** One more slot can be written, or not. */
  lemma PushableNext(x: Access, m: Memory, top: int, n: nat, k: nat)
    requires k < n && forall i :: 0 <= i < k ==> Writable(x, m, Slot(top, i))
    ensures !Writable(x, m, Slot(top, k)) ==> Pushable(x, m, top, n) == k
  {
    var p := Pushable(x, m, top, n);
  }

  lemma PushableAll(x: Access, m: Memory, top: int, n: nat)
    requires forall i :: 0 <= i < n ==> Writable(x, m, Slot(top, i))
    ensures Pushable(x, m, top, n) == n
  {
    var p := Pushable(x, m, top, n);
  }

  lemma PoppableNext(x: Access, m: Memory, base: int, n: nat, k: nat)
    requires k < n && forall j :: 0 <= j < k ==> Readable(x, m, Above(base, j))
    ensures !Readable(x, m, Above(base, k)) ==> Poppable(x, m, base, n) == k
  {
    var p := Poppable(x, m, base, n);
  }

  lemma PoppableAll(x: Access, m: Memory, base: int, n: nat)
    requires forall j :: 0 <= j < n ==> Readable(x, m, Above(base, j))
    ensures Poppable(x, m, base, n) == n
  {
    var p := Poppable(x, m, base, n);
  }

  /** Where a register of the list comes in it. */
  lemma ListStep(list: seq<bool>, i: nat)
    requires IsList(list) && 20 <= i < 32
    ensures var k := |Listed(list, i)|;
            && |Listed(list, i + 1)| == (if list[i] then k + 1 else k) <= |Regs(list)|
            && (list[i] ==> Regs(list)[k] == i)
  {
    ListedPrefix(list, i + 1, |list|);
  }

  lemma NonePushed(s: Cpu, regs: seq<nat>)
    requires Shape(s) && Numbers(regs)
    ensures PushedList(s, regs, 0) == s
  {
    AddrIs(s.r[SP]);
  }

  /** What pushing one more register changes. */
  lemma PushedNext(s: Cpu, regs: seq<nat>, k: nat)
    requires Shape(s) && Numbers(regs) && SP !in regs && k < |regs| && MappedBelow(s.mem, s.r[SP], k)
    ensures PushedList(s, regs, k).r[regs[k]] == s.r[regs[k]]
    ensures var p := PushedList(s, regs, k);
            Mapped(s.mem, Slot(s.r[SP], k)) ==>
              && MappedBelow(s.mem, s.r[SP], k + 1) && Mapped(p.mem, Slot(s.r[SP], k))
              && PushedList(s, regs, k + 1) ==
                 Cpu(p.r[SP := Addr(s.r[SP] - 4 * (k + 1))], Store(p.mem, Slot(s.r[SP], k), s.r[regs[k]]), p.pc,
                     p.elaps + 1)
  {
    assert regs[k] in regs;
  }

  lemma AddrSelf(w: Word)
    ensures Addr(w) == w
  {
    AddrIs(w);
  }

  lemma NextSlot(sp: Word, top: int, k: nat)
    requires sp == Addr(top - 4 * k)
    ensures Addr(sp - 4) == Addr(top - 4 * (k + 1)) == Addr(Slot(top, k))
  {
    AddrSelf(sp);
    AddrPlus(sp, top - 4 * k, -4);
  }

  predicate AllReadable(x: Access, m: Memory, base: int, n: nat) {
    forall j :: 0 <= j < n ==> Readable(x, m, Above(base, j))
  }

  predicate AllWritable(x: Access, m: Memory, top: int, n: nat) {
    forall i :: 0 <= i < n ==> Writable(x, m, Slot(top, i))
  }

  lemma NonePopped(s: Cpu, regs: seq<nat>, base: Word)
    requires Shape(s) && Numbers(regs)
    ensures MappedAbove(s.mem, base, 0) && PoppedList(s, regs, base, 0) == s.(r := s.r[SP := base], elaps := 0)
  {
    AddrIs(base);
  }

  lemma PoppedNext(s: Cpu, regs: seq<nat>, base: int, j: nat)
    requires Shape(s) && Numbers(regs) && SP !in regs && j < |regs| && MappedAbove(s.mem, base, j)
    ensures Mapped(s.mem, Above(base, j)) ==>
              var p := PoppedList(s, regs, base, j);
              && MappedAbove(s.mem, base, j + 1)
              && PoppedList(s, regs, base, j + 1) ==
                 Cpu(p.r[regs[|regs| - 1 - j] := Load(s.mem, Above(base, j))][SP := Addr(base + 4 * (j + 1))],
                     p.mem, p.pc, p.elaps + 1)
  {
    assert regs[|regs| - 1 - j] in regs;
  }

  lemma RangeNext(s: Cpu, regs: seq<nat>, top: int, k: nat)
    requires Shape(s) && Numbers(regs) && k < |regs| && MappedBelow(s.mem, top, k)
    ensures Mapped(s.mem, Slot(top, k)) ==>
              var p := PushedRange(s, regs, top, k);
              && MappedBelow(s.mem, top, k + 1) && Mapped(p.mem, Slot(top, k))
              && PushedRange(s, regs, top, k + 1) ==
                  Cpu(p.r, Store(p.mem, Slot(top, k), s.r[regs[k]]), p.pc, p.elaps + 1)
  {}

  lemma NextPopped(s: Cpu, regs: seq<nat>, base: int, j: nat)
    requires Shape(s) && Numbers(regs) && j < |regs| && MappedAbove(s.mem, base, j)
    ensures Mapped(s.mem, Above(base, j)) ==>
              var p := PoppedRange(s, regs, base, j);
              && MappedAbove(s.mem, base, j + 1)
              && PoppedRange(s, regs, base, j + 1) ==
                 Cpu(p.r[regs[|regs| - 1 - j] := Load(s.mem, Above(base, j))], p.mem, p.pc, p.elaps + 1)
  {}

  class StackCore {
    const access: Access
    const r: array<Word>
    var mem: Memory
    var pc: Word
    var elaps: nat

    ghost predicate Valid() {
      r.Length == 32
    }

    ghost function View(): (s: Cpu)
      reads this, r
      requires Valid()
      ensures Shape(s)
    {
      Cpu(r[..], mem, pc, elaps)
    }

    constructor (access: Access, mem: Memory)
      ensures Valid() && fresh(r) && this.mem == mem
    {
      this.access, this.mem := access, mem;
      r := new Word[32](_ => 0);
      pc, elaps := 0, 0;
    }

    /** Stores a word if the protection unit and the bus allow it. */
    method PutWord(addr: Word, w: Word, ghost a: int) returns (ok: bool)
      requires addr == Addr(a)
      modifies this`mem
      ensures ok == Writable(access, old(mem), a)
      ensures mem == if ok then Store(old(mem), a, w) else old(mem)
    {
      AddrIs(addr);
      SameAddress(mem, addr, a);
      if addr !in access.write { return false; }
      if !Mapped(mem, addr) { return false; }
      mem := Store(mem, addr, w);
      return true;
    }

    method GetWord(addr: Word, ghost a: int) returns (ok: bool, w: Word)
      requires addr == Addr(a)
      ensures ok == Readable(access, mem, a)
      ensures ok ==> w == Load(mem, a)
    {
      AddrIs(addr);
      SameAddress(mem, addr, a);
      w := 0;
      if addr !in access.read { return false, w; }
      if !Mapped(mem, addr) { return false, w; }
      return true, Load(mem, addr);
    }

    /** Pushes one register. */
    method PushOne(i: nat, ghost s: Cpu, ghost regs: seq<nat>, ghost k: nat) returns (ok: bool)
      requires Valid() && Shape(s) && Numbers(regs) && SP !in regs && k < |regs| && regs[k] == i
      requires AllWritable(access, s.mem, s.r[SP], k) && MappedBelow(s.mem, s.r[SP], k) &&
               View() == PushedList(s, regs, k)
      modifies this`mem, this`elaps, r
      ensures !ok ==> Pushable(access, s.mem, s.r[SP], |regs|) == k && View() == PushedList(s, regs, k)
      ensures ok ==> AllWritable(access, s.mem, s.r[SP], k + 1) && MappedBelow(s.mem, s.r[SP], k + 1)
      ensures ok ==> View() == PushedList(s, regs, k + 1)
    {
      PushableNext(access, s.mem, s.r[SP], |regs|, k);
      assert regs[k] in regs;
      PushedNext(s, regs, k);
      var sp: int := r[SP];
      var addr := Addr(sp - 4);
      AddrPlus(sp, s.r[SP] as int - 4 * k, -4);
      ok := PutWord(addr, r[i], Slot(s.r[SP], k));
      if !ok { return; }
      r[SP] := addr;
      elaps := elaps + 1;
    }

    /** Pushes register i if it is listed. */
    method PushIfListed(i: nat, list: seq<bool>, ghost s: Cpu, ghost regs: seq<nat>, ghost j: nat)
      returns (ok: bool, ghost k: nat)
      requires Valid() && IsList(list) && regs == Regs(list) && Shape(s) && 20 <= i < 32
      requires j == |Listed(list, i)| <= |regs|
      requires AllWritable(access, s.mem, s.r[SP], j) && MappedBelow(s.mem, s.r[SP], j) &&
               View() == PushedList(s, regs, j)
      modifies this`mem, this`elaps, r
      ensures k <= |regs| && MappedBelow(s.mem, s.r[SP], k) && View() == PushedList(s, regs, k)
      ensures ok ==> k == |Listed(list, i + 1)| && AllWritable(access, s.mem, s.r[SP], k)
      ensures !ok ==> Pushable(access, s.mem, s.r[SP], |regs|) == k < |regs|
    {
      ListStep(list, i);
      ok, k := true, j;
      if list[i] {
        ok := PushOne(i, s, regs, j);
        if ok { k := j + 1; }
      }
    }

    /** The loop of PREPARE. */
    method PushList(list: seq<bool>, ghost s: Cpu, ghost regs: seq<nat>) returns (ok: bool)
      requires Valid() && IsList(list) && View() == s && regs == Regs(list)
      modifies this`mem, this`elaps, r
      ensures (View(), ok) == PushAll(access, s, regs)
    {
      ghost var k := 0;
      var i := 20;
      NonePushed(s, regs);
      while i < 32
        invariant 20 <= i <= 32 && 0 <= k == |Listed(list, i)| <= |regs|
        invariant AllWritable(access, s.mem, s.r[SP], k) && MappedBelow(s.mem, s.r[SP], k)
        invariant View() == PushedList(s, regs, k)
      {
        ok, k := PushIfListed(i, list, s, regs, k);
        if !ok { return; }
        i := i + 1;
      }
      PushableAll(access, s.mem, s.r[SP], |regs|);
      ok := true;
    }

    /** PREPARE. */
    method ExecPrepare(list: seq<bool>, imm: nat, plain: bool, form: EpForm) returns (ok: bool)
      requires Valid() && IsList(list)
      modifies this`mem, this`pc, this`elaps, r
      ensures (View(), ok) == Prepare(access, old(View()), list, imm, plain, form)
    {
      ok := PushList(list, View(), Regs(list));
      if ok { ok := EndPrepare(imm, plain, form); }
    }

    method EndPrepare(imm: nat, plain: bool, form: EpForm) returns (ok: bool)
      requires Valid()
      modifies this`pc, r
      ensures (View(), ok) == Reserve(old(View()), imm, plain, form)
    {
      r[SP] := Addr(r[SP] as int - imm);
      if plain {
        pc := Addr(pc + 4);
        return true;
      }
      if !Mapped(mem, pc + 4) { return false; }
      SetEp(form);
      ok := true;
    }

    /** The element pointer from the stack pointer or from the words after the instruction. */
    method SetEp(form: EpForm)
      requires Valid() && Mapped(mem, pc + 4)
      modifies this`pc, r
      ensures View() == Extended(old(View()), form)
    {
      match form {
        case FromSp =>
          r[EP] := r[SP];
          pc := Addr(pc + 4);
        case SignedHalf =>
          var h := Load16(mem, pc + 4);
          r[EP] := if h < 32768 then h else h + 4294901760;
          pc := Addr(pc + 6);
        case HighHalf =>
          r[EP] := Load16(mem, pc + 4) * 65536;
          pc := Addr(pc + 6);
        case Full =>
          r[EP] := Load(mem, pc + 4);
          pc := Addr(pc + 8);
      }
    }

    /** Pops one register of a list. */
    method PopOne(i: nat, ghost s: Cpu, ghost regs: seq<nat>, ghost base: int, ghost j: nat) returns (ok: bool)
      requires Valid() && Shape(s) && Numbers(regs) && SP !in regs && j < |regs| && regs[|regs| - 1 - j] == i
      requires AllReadable(access, s.mem, base, j) && MappedAbove(s.mem, base, j) &&
               View() == PoppedList(s, regs, base, j)
      modifies this`elaps, r
      ensures !ok ==> Poppable(access, s.mem, base, |regs|) == j && View() == PoppedList(s, regs, base, j)
      ensures ok ==> AllReadable(access, s.mem, base, j + 1) && MappedAbove(s.mem, base, j + 1)
      ensures ok ==> View() == PoppedList(s, regs, base, j + 1)
    {
      PoppableNext(access, s.mem, base, |regs|, j);
      PoppedNext(s, regs, base, j);
      var addr := r[SP];
      var w;
      ok, w := GetWord(addr, Above(base, j));
      if !ok { return; }
      r[i] := w;
      AddrIs(addr);
      AddrPlus(addr, base + 4 * j, 4);
      r[SP] := Addr(addr as int + 4);
      elaps := elaps + 1;
    }

    /** Pops register i if it is listed. */
    method PopIfListed(i: nat, list: seq<bool>, ghost s: Cpu, ghost regs: seq<nat>, ghost base: int, ghost j: nat)
      returns (ok: bool, ghost k: nat)
      requires Valid() && IsList(list) && regs == Regs(list) && Shape(s) && 20 <= i < 32
      requires j + |Listed(list, i + 1)| == |regs|
      requires AllReadable(access, s.mem, base, j) && MappedAbove(s.mem, base, j) &&
               View() == PoppedList(s, regs, base, j)
      modifies this`elaps, r
      ensures k <= |regs| && MappedAbove(s.mem, base, k) && View() == PoppedList(s, regs, base, k)
      ensures ok ==> k + |Listed(list, i)| == |regs| && AllReadable(access, s.mem, base, k)
      ensures !ok ==> Poppable(access, s.mem, base, |regs|) == k < |regs|
    {
      ListStep(list, i);
      ok, k := true, j;
      if list[i] {
        ok := PopOne(i, s, regs, base, j);
        if ok { k := j + 1; }
      }
    }

    /** The loop of DISPOSE. */
    method PopList(list: seq<bool>, ghost s: Cpu, ghost regs: seq<nat>, ghost base: Word) returns (ok: bool)
      requires Valid() && IsList(list) && regs == Regs(list) && Shape(s)
      requires MappedAbove(s.mem, base, 0) && View() == PoppedList(s, regs, base, 0)
      modifies this`elaps, r
      ensures (View(), ok) == PopAll(access, s, regs, base)
    {
      ghost var j := 0;
      var i := 31;
      while i >= 20
        invariant 19 <= i <= 31 && 0 <= j <= |regs| && j + |Listed(list, i + 1)| == |regs|
        invariant AllReadable(access, s.mem, base, j) && MappedAbove(s.mem, base, j)
        invariant View() == PoppedList(s, regs, base, j)
      {
        ok, j := PopIfListed(i, list, s, regs, base, j);
        if !ok { return; }
        i := i - 1;
      }
      PoppableAll(access, s.mem, base, |regs|);
      ok := true;
    }

    /** Drops the local part of the frame. */
    method StartDispose(imm: nat, ghost s: Cpu, ghost regs: seq<nat>)
      requires Valid() && Numbers(regs) && View() == s
      modifies this`elaps, r
      ensures MappedAbove(s.mem, Addr(s.r[SP] + imm), 0) && View() == PoppedList(s, regs, Addr(s.r[SP] + imm), 0)
    {
      NonePopped(s, regs, Addr(s.r[SP] + imm));
      elaps := 0;
      r[SP] := Addr(r[SP] + imm);
    }

    /** The jump at the end of DISPOSE. */
    method EndDispose(reg1: nat)
      requires Valid() && reg1 < 32
      modifies this`pc, this`elaps
      ensures View() == Leave(old(View()), reg1)
    {
      if reg1 != 0 {
        elaps := elaps + 6;
        pc := r[reg1];
      } else {
        elaps := elaps + 2;
        pc := Addr(pc + 4);
      }
    }

    /** DISPOSE. */
    method ExecDispose(list: seq<bool>, imm: nat, reg1: nat) returns (ok: bool)
      requires Valid() && IsList(list) && reg1 < 32
      modifies this`pc, this`elaps, r
      ensures (View(), ok) == Dispose(access, old(View()), list, imm, reg1)
    {
      ghost var s := View();
      StartDispose(imm, s, Regs(list));
      ok := PopList(list, s, Regs(list), Addr(s.r[SP] + imm));
      if ok { EndDispose(reg1); }
    }

    /** Stores one register of a range at the running address. */
    method PushNext(sp: Word, cur: nat, ghost s: Cpu, ghost regs: seq<nat>, ghost top: int, ghost k: nat)
      returns (ok: bool)
      requires Valid() && Shape(s) && Numbers(regs) && k < |regs| && regs[k] == cur && sp == Addr(Slot(top, k))
      requires AllWritable(access, s.mem, top, k) && MappedBelow(s.mem, top, k) &&
               View() == PushedRange(s, regs, top, k)
      modifies this`mem, this`elaps
      ensures !ok ==> Pushable(access, s.mem, top, |regs|) == k && View() == PushedRange(s, regs, top, k)
      ensures ok ==> AllWritable(access, s.mem, top, k + 1) && MappedBelow(s.mem, top, k + 1)
      ensures ok ==> View() == PushedRange(s, regs, top, k + 1)
    {
      PushableNext(access, s.mem, top, |regs|, k);
      RangeNext(s, regs, top, k);
      ok := PutWord(sp, r[cur], Slot(top, k));
      if !ok { return; }
      elaps := elaps + 1;
    }

    /** The loop of PUSHSP. */
    method PushRange(rh: nat, rt: nat, ghost s: Cpu, ghost regs: seq<nat>, top: Word) returns (ok: bool, sp: Word)
      requires Valid() && Shape(s) && rh <= rt < 32 && regs == Range(rh, rt) && View() == PushedRange(s, regs, top, 0)
      modifies this`mem, this`elaps
      ensures (View(), ok) == PushRegisters(access, s, regs, top)
      ensures ok ==> sp == Addr(top - 4 * (rt - rh + 1))
    {
      sp := top;
      var cur := rh;
      AddrSelf(top);
      while cur <= rt
        invariant rh <= cur <= rt + 1 && sp == Addr(top - 4 * (cur - rh))
        invariant AllWritable(access, s.mem, top, cur - rh) && MappedBelow(s.mem, top, cur - rh)
        invariant View() == PushedRange(s, regs, top, cur - rh)
      {
        NextSlot(sp, top, cur - rh);
        sp := Addr(sp as int - 4);
        ok := PushNext(sp, cur, s, regs, top, cur - rh);
        if !ok { return; }
        cur := cur + 1;
      }
      PushableAll(access, s.mem, top, |regs|);
      ok := true;
    }

    /** The stack pointer is written back when all is done. */
    method Finish(sp: Word)
      requires Valid()
      modifies this`pc, r
      ensures View() == Settle(old(View()), sp)
    {
      r[SP] := sp;
      pc := Addr(pc + 4);
    }

    /** PUSHSP. */
    method ExecPushSp(rh: nat, rt: nat) returns (ok: bool)
      requires Valid() && rh < 32 && rt < 32
      modifies this`mem, this`pc, this`elaps, r
      ensures (View(), ok) == PushSp(access, old(View()), rh, rt)
    {
      if rh > rt {
        pc := Addr(pc + 4);
        return true;
      }
      var sp;
      ok, sp := PushRange(rh, rt, View(), Range(rh, rt), Aligned(r[SP]));
      if ok { Finish(sp); }
    }

    /** Loads one register of a range from the running address. */
    method PopNext(sp: Word, cur: nat, ghost s: Cpu, ghost regs: seq<nat>, ghost base: int, ghost j: nat)
      returns (ok: bool)
      requires Valid() && Shape(s) && Numbers(regs) && j < |regs| && regs[|regs| - 1 - j] == cur &&
               sp == Addr(Above(base, j))
      requires AllReadable(access, s.mem, base, j) && MappedAbove(s.mem, base, j) &&
               View() == PoppedRange(s, regs, base, j)
      modifies this`elaps, r
      ensures !ok ==> Poppable(access, s.mem, base, |regs|) == j && View() == PoppedRange(s, regs, base, j)
      ensures ok ==> AllReadable(access, s.mem, base, j + 1) && MappedAbove(s.mem, base, j + 1)
      ensures ok ==> View() == PoppedRange(s, regs, base, j + 1)
    {
      PoppableNext(access, s.mem, base, |regs|, j);
      NextPopped(s, regs, base, j);
      var w;
      ok, w := GetWord(sp, Above(base, j));
      if !ok { return; }
      r[cur] := w;
      elaps := elaps + 1;
    }

    /** The loop of POPSP. */
    method PopRange(rh: nat, rt: nat, ghost s: Cpu, ghost regs: seq<nat>, base: Word) returns (ok: bool, sp: Word)
      requires Valid() && Shape(s) && 1 <= rh <= rt < 32 && regs == Range(rh, rt) &&
               View() == PoppedRange(s, regs, base, 0)
      modifies this`elaps, r
      ensures (View(), ok) == PopRegisters(access, s, regs, base)
      ensures ok ==> sp == Addr(base + 4 * (rt - rh + 1))
    {
      sp := base;
      var cur := rt;
      AddrSelf(base);
      while cur >= rh
        invariant rh - 1 <= cur <= rt && sp == Addr(base + 4 * (rt - cur))
        invariant AllReadable(access, s.mem, base, rt - cur) && MappedAbove(s.mem, base, rt - cur)
        invariant View() == PoppedRange(s, regs, base, rt - cur)
      {
        ok := PopNext(sp, cur, s, regs, base, rt - cur);
        if !ok { return; }
        AddrSelf(sp);
        AddrPlus(sp, base + 4 * (rt - cur), 4);
        cur := cur - 1;
        sp := Addr(sp as int + 4);
      }
      PoppableAll(access, s.mem, base, |regs|);
      ok := true;
    }

    /** POPSP.  The C loop does not end for a range that starts at register 0. */
    method ExecPopSp(rh: nat, rt: nat) returns (ok: bool)
      requires Valid() && 1 <= rh < 32 && rt < 32
      modifies this`pc, this`elaps, r
      ensures (View(), ok) == PopSp(access, old(View()), rh, rt)
    {
      if rh > rt {
        pc := Addr(pc + 4);
        return true;
      }
      var sp;
      ok, sp := PopRange(rh, rt, View(), Range(rh, rt), Aligned(r[SP]));
      if ok { Finish(sp); }
    }
  }
}
