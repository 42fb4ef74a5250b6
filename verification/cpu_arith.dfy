/** ADD, SUB, CMP, ADF and SBF, the flags they set and the condition codes that read them. */
module CpuArith {
  import opened CpuWords

  datatype Flags = Flags(z: bool, s: bool, ov: bool, cy: bool, sat: bool)

  const PLUS_MAX: int := 2147483647
  const MINUS_MAX: int := -2147483648
  const UINT64: int := 0x1_0000_0000_0000_0000

  /** Does the condition code hold?  Codes above 15 never do. */
  function Cond(f: Flags, cond: nat): bool {
    match cond
    case 14 => f.s == f.ov
    case 15 => f.s == f.ov && !f.z
    case 7 => f.s != f.ov || f.z
    case 6 => f.s != f.ov
    case 11 => !f.cy && !f.z
    case 1 => f.cy
    case 3 => f.cy || f.z
    case 9 => !f.cy
    case 2 => f.z
    case 10 => !f.z
    case 4 => f.s
    case 8 => !f.ov
    case 12 => !f.s
    case 5 => true
    case 13 => f.sat
    case 0 => f.ov
    case _ => false
  }

  // ---------- what the instructions mean ----------

  predicate Fits(x: int) {
    MINUS_MAX <= x <= PLUS_MAX
  }

  /** The sum of two words and a carry. */
  function AddWord(a: Reg, b: Reg, c: nat): Reg
    requires c <= 1
  {
    Wrap(a as int + b as int + c)
  }

  function AddFlags(f: Flags, a: Reg, b: Reg, c: nat): Flags
    requires c <= 1
  {
    var r := AddWord(a, b, c);
    f.(cy := Unsigned(a) + Unsigned(b) + c >= BASE, ov := !Fits(a as int + b as int + c), z := r == 0, s := r < 0)
  }

  /** The difference of two words and a borrow. */
  function SubWord(a: Reg, b: Reg, c: nat): Reg
    requires c <= 1
  {
    Wrap(a as int - b as int - c)
  }

  function SubFlags(f: Flags, a: Reg, b: Reg, c: nat): Flags
    requires c <= 1
  {
    var r := SubWord(a, b, c);
    f.(cy := Unsigned(a) < Unsigned(b) + c, ov := !Fits(a as int - b as int - c), z := r == 0, s := r < 0)
  }

  // ---------- CMP and the condition codes ----------

  /** After a comparison of a with b the condition codes decide every order between the two. */
  lemma CmpDecides(f: Flags, a: Reg, b: Reg)
    ensures var g := SubFlags(f, a, b, 0);
            && (Cond(g, 14) <==> a >= b) && (Cond(g, 15) <==> a > b)
            && (Cond(g, 7) <==> a <= b) && (Cond(g, 6) <==> a < b)
            && (Cond(g, 11) <==> Unsigned(a) > Unsigned(b)) && (Cond(g, 3) <==> Unsigned(a) <= Unsigned(b))
            && (Cond(g, 1) <==> Unsigned(a) < Unsigned(b)) && (Cond(g, 9) <==> Unsigned(a) >= Unsigned(b))
            && (Cond(g, 2) <==> a == b) && (Cond(g, 10) <==> a != b)
  {}

  /** Codes that differ in the top bit only are opposites, except 5 and 13. */
  lemma Complementary(f: Flags, cond: nat)
    requires cond < 8
    ensures Cond(f, cond) != Cond(f, cond + 8) <==> cond != 5 || !f.sat
  {}

  // ---------- instructions and programs ----------

  /** reg1 and reg2 are operands, and the result goes to reg2, or to reg3 where there is one. */
  datatype Instr =
    | Add(reg1: nat, reg2: nat)
    | Sub(reg1: nat, reg2: nat)
    | Cmp(reg1: nat, reg2: nat)
    | Adf(cond: nat, reg1: nat, reg2: nat, reg3: nat)
    | Sbf(cond: nat, reg1: nat, reg2: nat, reg3: nat)

  datatype State = State(r: seq<Reg>, flags: Flags, pc: nat)

  predicate Registers(i: Instr) {
    i.reg1 < 32 && i.reg2 < 32 && (i.Adf? || i.Sbf? ==> i.reg3 < 32)
  }

  function CarryIn(f: Flags, cond: nat): (c: nat)
    ensures c <= 1
  {
    if Cond(f, cond) then 1 else 0
  }

  /** An instruction that names a register above 31 fails and changes nothing. */
  function Exec(s: State, i: Instr): (t: State)
    requires |s.r| == 32
    ensures |t.r| == 32
  {
    if !Registers(i) then s
    else
      var x, y := s.r[i.reg2], s.r[i.reg1];
      match i
      case Add(_, d) => State(s.r[d := AddWord(x, y, 0)], AddFlags(s.flags, x, y, 0), s.pc + 2)
      case Sub(_, d) => State(s.r[d := SubWord(x, y, 0)], SubFlags(s.flags, x, y, 0), s.pc + 2)
      case Cmp(_, _) => State(s.r, SubFlags(s.flags, x, y, 0), s.pc + 2)
      case Adf(cond, _, _, d) =>
        var c := CarryIn(s.flags, cond);
        State(s.r[d := AddWord(x, y, c)], AddFlags(s.flags, x, y, c), s.pc + 4)
      case Sbf(cond, _, _, d) =>
        var c := CarryIn(s.flags, cond);
        State(s.r[d := SubWord(x, y, c)], SubFlags(s.flags, x, y, c), s.pc + 4)
  }

  function Run(s: State, program: seq<Instr>): (t: State)
    requires |s.r| == 32
    ensures |t.r| == 32
    decreases |program|
  {
    if program == [] then s else Exec(Run(s, program[..|program| - 1]), program[|program| - 1])
  }

  // ---------- the instructions as they run ----------

  class Core {
    const r: array<Reg>
    var flags: Flags
    var pc: nat

    ghost predicate Shape() {
      r.Length == 32
    }

    ghost function View(): State
      reads this, r
    {
      State(r[..], flags, pc)
    }

    constructor ()
      ensures Shape() && fresh(r) && pc == 0
    {
      r := new Reg[32](_ => 0);
      flags, pc := Flags(false, false, false, false, false), 0;
    }

    /** The sum is formed in 64 bits. */
    method CheckCarry(a: nat, b: nat, c: nat)
      requires a < BASE && b < BASE && c <= 1
      modifies this`flags
      ensures flags == old(flags).(cy := a + b + c >= BASE)
    {
      var result := (a + b + c) % UINT64;
      if result > BASE - 1 {
        flags := flags.(cy := true);
      } else {
        flags := flags.(cy := false);
      }
    }

    /** The difference is formed in 64 bits, and bit 32 of it is the borrow. */
    method CheckBorrow(a: nat, b: nat, c: nat)
      requires a < BASE && b < BASE && c <= 1
      modifies this`flags
      ensures flags == old(flags).(cy := a < b + c)
    {
      var result := (a - b - c) % UINT64;
      if result / BASE % 2 == 1 {
        flags := flags.(cy := true);
      } else {
        flags := flags.(cy := false);
      }
    }

    method CheckOverflow(a: int, b: int, c: int)
      modifies this`flags
      ensures flags == old(flags).(ov := !Fits(a + b + c))
    {
      var result := a + b + c;
      if result > PLUS_MAX {
        flags := flags.(ov := true);
      } else if result < MINUS_MAX {
        flags := flags.(ov := true);
      } else {
        flags := flags.(ov := false);
      }
    }

    method CheckZeroAndSign(result: Reg)
      modifies this`flags
      ensures flags == old(flags).(z := result == 0, s := result < 0)
    {
      if result == 0 { flags := flags.(z := true); } else { flags := flags.(z := false); }
      if result < 0 { flags := flags.(s := true); } else { flags := flags.(s := false); }
    }

    method Add(reg1: nat, reg2: nat) returns (ok: bool)
      requires Shape()
      modifies this`flags, this`pc, r
      ensures ok == Registers(Instr.Add(reg1, reg2)) && View() == Exec(old(View()), Instr.Add(reg1, reg2))
    {
      if reg1 >= 32 { return false; }
      if reg2 >= 32 { return false; }
      var b: int, a: int := r[reg2], r[reg1];
      var result := Wrap(b + a);
      r[reg2] := result;
      CheckCarry(Unsigned(b), Unsigned(a), 0);
      CheckOverflow(b, a, 0);
      CheckZeroAndSign(result);
      pc := pc + 2;
      return true;
    }

    method Sub(reg1: nat, reg2: nat) returns (ok: bool)
      requires Shape()
      modifies this`flags, this`pc, r
      ensures ok == Registers(Instr.Sub(reg1, reg2)) && View() == Exec(old(View()), Instr.Sub(reg1, reg2))
    {
      if reg1 >= 32 { return false; }
      if reg2 >= 32 { return false; }
      var b: int, a: int := r[reg2], r[reg1];
      var result := Wrap(b - a);
      r[reg2] := result;
      CheckBorrow(Unsigned(b), Unsigned(a), 0);
      CheckOverflow(b, -a, 0);
      CheckZeroAndSign(result);
      pc := pc + 2;
      return true;
    }

    method Cmp(reg1: nat, reg2: nat) returns (ok: bool)
      requires Shape()
      modifies this`flags, this`pc
      ensures ok == Registers(Instr.Cmp(reg1, reg2)) && View() == Exec(old(View()), Instr.Cmp(reg1, reg2))
    {
      if reg1 >= 32 { return false; }
      if reg2 >= 32 { return false; }
      var b: int, a: int := r[reg2], r[reg1];
      var result := Wrap(b - a);
      CheckBorrow(Unsigned(b), Unsigned(a), 0);
      CheckOverflow(b, -a, 0);
      CheckZeroAndSign(result);
      pc := pc + 2;
      return true;
    }

    method Adf(cond: nat, reg1: nat, reg2: nat, reg3: nat) returns (ok: bool)
      requires Shape()
      modifies this`flags, this`pc, r
      ensures ok == Registers(Instr.Adf(cond, reg1, reg2, reg3)) &&
              View() == Exec(old(View()), Instr.Adf(cond, reg1, reg2, reg3))
    {
      if reg1 >= 32 { return false; }
      if reg2 >= 32 { return false; }
      if reg3 >= 32 { return false; }
      var a: int, b: int := r[reg1], r[reg2];
      var add := 0;
      if Cond(flags, cond) { add := 1; }
      var result := Wrap(b + a + add);
      r[reg3] := result;
      CheckCarry(Unsigned(b), Unsigned(a), add);
      CheckOverflow(b, a, add);
      CheckZeroAndSign(result);
      pc := pc + 4;
      return true;
    }

    method Sbf(cond: nat, reg1: nat, reg2: nat, reg3: nat) returns (ok: bool)
      requires Shape()
      modifies this`flags, this`pc, r
      ensures ok == Registers(Instr.Sbf(cond, reg1, reg2, reg3)) &&
              View() == Exec(old(View()), Instr.Sbf(cond, reg1, reg2, reg3))
    {
      if reg1 >= 32 { return false; }
      if reg2 >= 32 { return false; }
      if reg3 >= 32 { return false; }
      var add := 0;
      if Cond(flags, cond) { add := 1; }
      var b: int, a: int := r[reg2], r[reg1];
      var result := Wrap(b - a - add);
      r[reg3] := result;
      CheckBorrow(Unsigned(b), Unsigned(a), add);
      CheckOverflow(b, -a, -add);
      CheckZeroAndSign(result);
      pc := pc + 4;
      return true;
    }
  }
}
