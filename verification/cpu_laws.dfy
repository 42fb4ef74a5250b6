/** What the arithmetic instructions do, said in numbers: results, and the condition codes after them. */
module CpuLaws {
  import opened CpuWords
  import opened CpuArith

  // ---------- comparison ----------

  /** After CMP the condition codes decide every order of the second register against the first, signed
      and unsigned; no register changes. */
  lemma ComparesExactly(s: State, reg1: nat, reg2: nat)
    requires |s.r| == 32 && reg1 < 32 && reg2 < 32
    ensures var t := Exec(s, Instr.Cmp(reg1, reg2));
            var a, b := s.r[reg2], s.r[reg1];
            && t.r == s.r && t.pc == s.pc + 2 && t.flags.sat == s.flags.sat
            && (Cond(t.flags, 14) <==> a >= b) && (Cond(t.flags, 15) <==> a > b)
            && (Cond(t.flags, 7) <==> a <= b) && (Cond(t.flags, 6) <==> a < b)
            && (Cond(t.flags, 11) <==> Unsigned(a) > Unsigned(b)) && (Cond(t.flags, 3) <==> Unsigned(a) <= Unsigned(b))
            && (Cond(t.flags, 1) <==> Unsigned(a) < Unsigned(b)) && (Cond(t.flags, 9) <==> Unsigned(a) >= Unsigned(b))
            && (Cond(t.flags, 2) <==> a == b) && (Cond(t.flags, 10) <==> a != b)
  {}

  // ---------- sums and differences ----------

  /** Register d has become the low 32 bits of a number, read with and without sign, and nothing else has
      changed.  Code 0 tells that the signed number does not fit, code 1 that the unsigned one does not,
      code 2 that the result is zero and code 4 that it is negative. */
  predicate Computed(s: State, t: State, d: nat, signed: int, unsigned: int)
    requires |s.r| == 32 && |t.r| == 32 && d < 32
  {
    && t.r == s.r[d := t.r[d]] && Unsigned(t.r[d]) == unsigned % 0x1_0000_0000
    && (Cond(t.flags, 0) <==> signed < -0x8000_0000 || signed >= 0x8000_0000)
    && (Cond(t.flags, 1) <==> unsigned < 0 || unsigned >= 0x1_0000_0000)
    && (Cond(t.flags, 2) <==> t.r[d] == 0) && (Cond(t.flags, 4) <==> t.r[d] < 0)
    && (Cond(t.flags, 13) <==> Cond(s.flags, 13))
  }

  lemma AddsExactly(s: State, reg1: nat, reg2: nat)
    requires |s.r| == 32 && reg1 < 32 && reg2 < 32
    ensures var t := Exec(s, Instr.Add(reg1, reg2));
            var x, y := s.r[reg2], s.r[reg1];
            Computed(s, t, reg2, x as int + y as int, Unsigned(x) + Unsigned(y)) && t.pc == s.pc + 2
  {}

  /** SUB subtracts the first register from the second. */
  lemma SubtractsExactly(s: State, reg1: nat, reg2: nat)
    requires |s.r| == 32 && reg1 < 32 && reg2 < 32
    ensures var t := Exec(s, Instr.Sub(reg1, reg2));
            var x, y := s.r[reg2], s.r[reg1];
            Computed(s, t, reg2, x as int - y as int, Unsigned(x) - Unsigned(y)) && t.pc == s.pc + 2
  {}

  /** ADF adds one more if the condition holds, and SBF subtracts one more. */
  lemma AddsConditionally(s: State, cond: nat, reg1: nat, reg2: nat, reg3: nat)
    requires |s.r| == 32 && reg1 < 32 && reg2 < 32 && reg3 < 32
    ensures var t := Exec(s, Instr.Adf(cond, reg1, reg2, reg3));
            var x, y, c := s.r[reg2], s.r[reg1], if Cond(s.flags, cond) then 1 else 0;
            Computed(s, t, reg3, x as int + y as int + c, Unsigned(x) + Unsigned(y) + c) && t.pc == s.pc + 4
  {}

  lemma SubtractsConditionally(s: State, cond: nat, reg1: nat, reg2: nat, reg3: nat)
    requires |s.r| == 32 && reg1 < 32 && reg2 < 32 && reg3 < 32
    ensures var t := Exec(s, Instr.Sbf(cond, reg1, reg2, reg3));
            var x, y, c := s.r[reg2], s.r[reg1], if Cond(s.flags, cond) then 1 else 0;
            Computed(s, t, reg3, x as int - y as int - c, Unsigned(x) - Unsigned(y) - c) && t.pc == s.pc + 4
  {}

  /** The codes that do not compare: 5 always holds, 13 is the saturation flag, 8 and 12 are the opposites
      of 0 and 4, and there are no codes above 15. */
  lemma OtherCodes(f: Flags, cond: nat)
    ensures Cond(f, 5) && Cond(f, 13) == f.sat && Cond(f, 8) != Cond(f, 0) && Cond(f, 12) != Cond(f, 4)
    ensures cond > 15 ==> !Cond(f, cond)
  {}
}
