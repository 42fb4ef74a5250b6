/** The instruction sequences that carry out multiword arithmetic in registers. */
module CpuProgram {
  import opened CpuWords
  import opened CpuArith
  import opened CpuMultiword

  /** The registers an operation uses: word i of the operands is in ps[i] and qs[i], and of the result in
      ts[i].  The first instruction has two operands only and writes to the second. */
  datatype Layout = Layout(ps: seq<nat>, qs: seq<nat>, ts: seq<nat>)

  /** No result register is written twice or overwrites an operand that is still needed, and none is
      register 0, which the core clears around every instruction. */
  predicate Usable(l: Layout) {
    && |l.ps| == |l.qs| == |l.ts|
    && (forall i :: 0 <= i < |l.ps| ==> l.ps[i] < 32 && l.qs[i] < 32 && 0 < l.ts[i] < 32)
    && (|l.ts| > 0 ==> l.ts[0] == l.qs[0])
    && forall i, j :: 0 <= i < j < |l.ts| ==> l.ts[i] != l.ts[j] && l.ts[i] != l.ps[j] && l.ts[i] != l.qs[j]
  }

  function Shorter(l: Layout): (k: Layout)
    requires Usable(l) && |l.ts| > 0
    ensures Usable(k) && |k.ts| == |l.ts| - 1
  {
    var n := |l.ts| - 1;
    Layout(l.ps[..n], l.qs[..n], l.ts[..n])
  }

  function InstrAt(subtract: bool, l: Layout, i: nat): Instr
    requires Usable(l) && i < |l.ts|
  {
    if i == 0 then
      if subtract then Sub(l.ps[0], l.qs[0]) else Add(l.ps[0], l.qs[0])
    else
      if subtract then Sbf(CARRY, l.ps[i], l.qs[i], l.ts[i]) else Adf(CARRY, l.ps[i], l.qs[i], l.ts[i])
  }

  function Program(subtract: bool, l: Layout): (p: seq<Instr>)
    requires Usable(l)
    ensures |p| == |l.ts|
  {
    seq(|l.ts|, i requires 0 <= i < |l.ts| => InstrAt(subtract, l, i))
  }

  function Words(r: seq<Reg>, regs: seq<nat>): (ws: seq<Reg>)
    requires |r| == 32 && forall i :: 0 <= i < |regs| ==> regs[i] < 32
    ensures |ws| == |regs|
  {
    seq(|regs|, i requires 0 <= i < |regs| => r[regs[i]])
  }

  function Chain(subtract: bool, f: Flags, q: seq<Reg>, p: seq<Reg>): (r: Result)
    requires |q| == |p|
    ensures |r.words| == |q|
  {
    if subtract then SubChain(f, q, p) else AddChain(f, q, p)
  }

  /** What the program leaves: the chain's words and flags, and every other register as it was. */
  predicate Leaves(s: State, t: State, l: Layout, r: Result)
    requires |s.r| == 32 && |t.r| == 32 && Usable(l) && |r.words| == |l.ts|
  {
    && t.flags == r.flags
    && (forall i :: 0 <= i < |l.ts| ==> t.r[l.ts[i]] == r.words[i])
    && forall k :: 0 <= k < 32 && k !in l.ts ==> t.r[k] == s.r[k]
  }

  lemma RunLast(s: State, p: seq<Instr>, i: Instr)
    requires |s.r| == 32
    ensures Run(s, p + [i]) == Exec(Run(s, p), i)
  {
    assert (p + [i])[..|p + [i]| - 1] == p;
  }

  lemma ProgramLast(subtract: bool, l: Layout)
    requires Usable(l) && |l.ts| > 0
    ensures Program(subtract, l) == Program(subtract, Shorter(l)) + [InstrAt(subtract, l, |l.ts| - 1)]
  {}

  lemma WordsShorter(r: seq<Reg>, l: Layout)
    requires |r| == 32 && Usable(l) && |l.ts| > 0
    ensures Words(r, l.qs)[..|l.ts| - 1] == Words(r, Shorter(l).qs)
    ensures Words(r, l.ps)[..|l.ts| - 1] == Words(r, Shorter(l).ps)
  {}

  /** The next word of a chain, and the flags after it. */
  function NextWord(subtract: bool, x: Reg, y: Reg, c: nat): Reg
    requires c <= 1
  {
    if subtract then SubWord(x, y, c) else AddWord(x, y, c)
  }

  function NextFlags(subtract: bool, f: Flags, x: Reg, y: Reg, c: nat): Flags
    requires c <= 1
  {
    if subtract then SubFlags(f, x, y, c) else AddFlags(f, x, y, c)
  }

  function Extend(subtract: bool, r: Result, x: Reg, y: Reg): Result {
    var c := if r.words != [] && r.flags.cy then 1 else 0;
    Result(r.words + [NextWord(subtract, x, y, c)], NextFlags(subtract, r.flags, x, y, c))
  }

  lemma ChainLast(subtract: bool, f: Flags, q: seq<Reg>, p: seq<Reg>, n: nat)
    requires |q| == |p| == n + 1
    ensures Chain(subtract, f, q, p) == Extend(subtract, Chain(subtract, f, q[..n], p[..n]), q[n], p[n])
  {}

  lemma {:induction false} ProgramRuns(subtract: bool, s: State, l: Layout)
    requires |s.r| == 32 && Usable(l)
    ensures Leaves(s, Run(s, Program(subtract, l)), l, Chain(subtract, s.flags, Words(s.r, l.qs), Words(s.r, l.ps)))
    decreases |l.ts|
  {
    if |l.ts| > 0 {
      ProgramRuns(subtract, s, Shorter(l));
      ProgramLast(subtract, l);
      RunLast(s, Program(subtract, Shorter(l)), InstrAt(subtract, l, |l.ts| - 1));
      WordsShorter(s.r, l);
      ChainLast(subtract, s.flags, Words(s.r, l.qs), Words(s.r, l.ps), |l.ts| - 1);
      LastStep(subtract, s, Run(s, Program(subtract, Shorter(l))), l,
               Chain(subtract, s.flags, Words(s.r, Shorter(l).qs), Words(s.r, Shorter(l).ps)));
    }
  }

  /** The last instruction finds its operands untouched. */
  lemma LastStep(subtract: bool, s: State, t: State, l: Layout, r: Result)
    requires |s.r| == 32 && |t.r| == 32 && Usable(l) && |l.ts| > 0 && |r.words| == |l.ts| - 1
    requires Leaves(s, t, Shorter(l), r)
    ensures var n := |l.ts| - 1;
            Leaves(s, Exec(t, InstrAt(subtract, l, n)), l, Extend(subtract, r, s.r[l.qs[n]], s.r[l.ps[n]]))
  {
    var n := |l.ts| - 1;
    assert l.qs[n] !in l.ts[..n] && l.ps[n] !in l.ts[..n] && l.ts[n] !in l.ts[..n];
    assert t.r[l.qs[n]] == s.r[l.qs[n]] && t.r[l.ps[n]] == s.r[l.ps[n]];
    assert l.ts[n] in l.ts;
  }

  lemma ResultWords(s: State, t: State, l: Layout, r: Result)
    requires |s.r| == 32 && |t.r| == 32 && Usable(l) && |r.words| == |l.ts| && Leaves(s, t, l, r)
    ensures Words(t.r, l.ts) == r.words && t.flags == r.flags
  {}

  /** The whole addition, from registers to registers. */
  lemma AddsNumbers(s: State, l: Layout)
    requires |s.r| == 32 && Usable(l) && |l.ts| > 0
    ensures var t := Run(s, Program(false, l));
            IsSum(Words(t.r, l.ts), t.flags, Words(s.r, l.qs), Words(s.r, l.ps))
  {
    var a, b := Words(s.r, l.qs), Words(s.r, l.ps);
    ProgramRuns(false, s, l);
    ResultWords(s, Run(s, Program(false, l)), l, AddChain(s.flags, a, b));
    AddChainAdds(s.flags, a, b);
  }

  /** The whole subtraction, from registers to registers. */
  lemma SubtractsNumbers(s: State, l: Layout)
    requires |s.r| == 32 && Usable(l) && |l.ts| > 0
    ensures var t := Run(s, Program(true, l));
            IsDifference(Words(t.r, l.ts), t.flags, Words(s.r, l.qs), Words(s.r, l.ps))
  {
    var a, b := Words(s.r, l.qs), Words(s.r, l.ps);
    ProgramRuns(true, s, l);
    ResultWords(s, Run(s, Program(true, l)), l, SubChain(s.flags, a, b));
    SubChainSubtracts(s.flags, a, b);
  }
}
