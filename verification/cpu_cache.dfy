/** The interpreter step with its cache of decoded instructions, against the step that always decodes. */
module CpuCache {
  import opened Common

  datatype Exception = Mip | Mdp

  datatype Result = Ok | Invalid | BusError(code: int) | DecodeError | Segv | ExecError | Raised

  /** The last violation the protection unit has recorded. */
  datatype Violation = Violation(addr: nat, execute: bool)

  /** Registers above r0, system registers and memory, the code included. */
  datatype Machine = Machine(regs: seq<int>, system: map<nat, nat>, memory: map<nat, nat>)

  datatype Core = Core(pc: nat, r0: int, machine: Machine, fatal: bool, halt: bool, realElaps: nat, elaps: nat,
                       error: Option<Violation>, opCode: nat, codeException: Option<Exception>)

  /** A decoded instruction: its code, its format and its operand fields. */
  datatype Op = Op(id: nat, format: nat, fields: seq<nat>)

  datatype Fetched = Code(words: seq<nat>) | Fault(code: int)

  /** What the interpreter calls on: bus, decoder, protection unit and execution table. */
  datatype Isa = Isa(
    fetch: (Machine, nat) -> Fetched,
    decode: seq<nat> -> Option<Op>,
    size: nat -> nat,
    protecting: Core -> bool,
    allowed: (Core, nat, nat) -> bool,
    known: nat -> bool,
    clocks: nat -> nat,
    exec: (Op, Core) -> (Core, bool))

  datatype Step = Step(core: Core, result: Result)

  /** The permission check for execution. */
  function Check(isa: Isa, c: Core, size: nat): (Core, bool) {
    if !isa.protecting(c) then (c, true)
    else if isa.allowed(c, c.pc, size) then (c.(error := None), true)
    else (c.(error := Some(Violation(c.pc, true))), false)
  }

  /** The outcome of a refused check. */
  function Refuse(c: Core, id: nat): Step {
    if c.error.Some? then Step(c.(opCode := id, codeException := Some(Mip)), Raised) else Step(c, Segv)
  }

  /** Executes a decoded instruction. */
  function Execute(isa: Isa, c: Core, op: Op): Step {
    var e := isa.exec(op, c.(realElaps := isa.clocks(op.id)));
    if e.0.error.Some? then Step(e.0.(opCode := op.id, codeException := Some(Mdp)), Raised)
    else if !e.1 then Step(e.0, ExecError)
    else Step(e.0.(elaps := e.0.elaps + e.0.realElaps, r0 := 0), Ok)
  }

  /** Fetches, decodes, checks and executes. */
  function Uncached(isa: Isa, c: Core): Step {
    match isa.fetch(c.machine, c.pc)
    case Fault(code) => Step(c, BusError(code))
    case Code(words) =>
      match isa.decode(words)
      case None => Step(c, DecodeError)
      case Some(op) =>
        var e := Check(isa, c, isa.size(op.format));
        if !e.1 then Refuse(e.0, op.id)
        else if !isa.known(op.id) then Step(e.0, ExecError)
        else Execute(isa, e.0, op)
  }

  /** One step of the reference interpreter, which always decodes. */
  function RefStep(isa: Isa, c: Core): Step {
    if c.fatal then Step(c, Invalid)
    else if c.halt then Step(c, Ok)
    else Uncached(isa, c.(r0 := 0))
  }

  // ---------- all that can come of a step ----------

  /** A step of a core that is not halted or broken: the first of the following that applies.  The fetch
      fails; the words are no instruction; protection refuses it, which is recorded and raises MIP; it is
      not supported; it violates protection, which raises MDP; it fails; or it is done, and its clocks are
      counted. */
  lemma StepEnds(isa: Isa, c: Core, words: seq<nat>, op: Op)
    requires !c.fatal && !c.halt
    ensures var b := c.(r0 := 0);
            var s := RefStep(isa, c);
            if isa.fetch(c.machine, c.pc).Fault? then s == Step(b, BusError(isa.fetch(c.machine, c.pc).code))
            else if isa.decode(isa.fetch(c.machine, c.pc).words).None? then s == Step(b, DecodeError)
            else isa.fetch(c.machine, c.pc) == Code(words) && isa.decode(words) == Some(op) ==>
              if isa.protecting(b) && !isa.allowed(b, c.pc, isa.size(op.format)) then
                s == Step(b.(error := Some(Violation(c.pc, true)), opCode := op.id, codeException := Some(Mip)), Raised)
              else
                var g := if isa.protecting(b) then b.(error := None) else b;
                if !isa.known(op.id) then s == Step(g, ExecError)
                else
                  var e := isa.exec(op, g.(realElaps := isa.clocks(op.id)));
                  if e.0.error.Some? then s == Step(e.0.(opCode := op.id, codeException := Some(Mdp)), Raised)
                  else if !e.1 then s == Step(e.0, ExecError)
                  else s == Step(e.0.(elaps := e.0.elaps + e.0.realElaps, r0 := 0), Ok)
  {}

  /** A broken core reports that, and a halted one does nothing. */
  lemma IdleSteps(isa: Isa, c: Core)
    requires c.fatal || c.halt
    ensures RefStep(isa, c) == Step(c, if c.fatal then Invalid else Ok)
  {}

  // ---------- the cache ----------

  /** Filled cache entries, by address. */
  type Cache = map<nat, Op>

  /** What decoding at an address gives, if it is an instruction that can be executed. */
  function DecodeAt(isa: Isa, m: Machine, addr: nat): Option<Op> {
    match isa.fetch(m, addr)
    case Fault(_) => None
    case Code(words) =>
      match isa.decode(words)
      case None => None
      case Some(op) => if isa.known(op.id) then Some(op) else None
  }

  /** Every filled entry is what decoding at its address gives. */
  predicate Coherent(isa: Isa, m: Machine, cache: Cache) {
    forall a :: a in cache ==> DecodeAt(isa, m, a) == Some(cache[a])
  }

  /** A step whose instruction is in the cache.  A build with checks off leaves out the permission check. */
  function Hit(isa: Isa, checked: bool, c: Core, op: Op): Step {
    var e := if checked then Check(isa, c, isa.size(op.format)) else (c, true);
    if !e.1 then Refuse(e.0, op.id) else Execute(isa, e.0, op)
  }

  predicate Hits(cacheable: set<nat>, c: Core, cache: Cache) {
    !c.fatal && !c.halt && c.pc in cacheable && c.pc in cache
  }

  /** One step with the cache. */
  function CachedStep(isa: Isa, checked: bool, c: Core, cache: Cache, cacheable: set<nat>): Step {
    if Hits(cacheable, c, cache) then Hit(isa, checked, c.(r0 := 0), cache[c.pc]) else RefStep(isa, c)
  }

  /** The cache after the step: a miss that executes fills the entry. */
  function Fill(isa: Isa, c: Core, cache: Cache, cacheable: set<nat>): Cache {
    if !c.fatal && !c.halt && c.pc in cacheable && c.pc !in cache && RefStep(isa, c).result.Ok?
    then
      match DecodeAt(isa, c.machine, c.pc)
      case Some(op) => cache[c.pc := op]
      case None => cache
    else cache
  }

  // ---------- a single step ----------

  /** A step that decodes an instruction it can execute. */
  lemma UncachedDecodes(isa: Isa, c: Core, op: Op)
    requires DecodeAt(isa, c.machine, c.pc) == Some(op)
    ensures Uncached(isa, c) == Hit(isa, true, c, op)
  {}

  /** From a coherent cache, and with checks on, a step gives what decoding would have given. */
  lemma StepAgrees(isa: Isa, c: Core, cache: Cache, cacheable: set<nat>)
    requires Coherent(isa, c.machine, cache)
    ensures CachedStep(isa, true, c, cache, cacheable) == RefStep(isa, c)
  {
    if Hits(cacheable, c, cache) {
      UncachedDecodes(isa, c.(r0 := 0), cache[c.pc]);
    }
  }

  lemma FillKeepsCoherent(isa: Isa, c: Core, cache: Cache, cacheable: set<nat>)
    requires Coherent(isa, c.machine, cache)
    ensures Coherent(isa, c.machine, Fill(isa, c, cache, cacheable))
  {}

  /** Would the permission check of this instruction pass? */
  predicate Granted(isa: Isa, c: Core, op: Op) {
    isa.protecting(c) ==> isa.allowed(c, c.pc, isa.size(op.format))
  }

  /** With checks off, a hit agrees with decoding if and only if the check that it leaves out would have
      passed, with no violation pending from before. */
  lemma UncheckedAgrees(isa: Isa, c: Core, cache: Cache, cacheable: set<nat>)
    requires Coherent(isa, c.machine, cache) && Hits(cacheable, c, cache) && c.error.None?
    ensures CachedStep(isa, false, c, cache, cacheable) == RefStep(isa, c) <==> Granted(isa, c.(r0 := 0), cache[c.pc])
  {
    UncachedDecodes(isa, c.(r0 := 0), cache[c.pc]);
  }

  // ---------- runs ----------

  /** What interrupts, devices and the main loop do to the core after step i. */
  type Outside = (nat, Core) -> Core

  datatype Trace = Trace(core: Core, results: seq<Result>)

  /** n steps of the reference interpreter. */
  function RefRun(isa: Isa, out: Outside, c: Core, n: nat): Trace {
    if n == 0 then Trace(c, [])
    else
      var t := RefRun(isa, out, c, n - 1);
      var s := RefStep(isa, t.core);
      Trace(out(n - 1, s.core), t.results + [s.result])
  }

  /** n steps with the cache, and the cache after them. */
  function CachedRun(isa: Isa, out: Outside, checked: bool, c: Core, cache: Cache, cacheable: set<nat>, n: nat)
    : (Trace, Cache)
  {
    if n == 0 then (Trace(c, []), cache)
    else
      var t := CachedRun(isa, out, checked, c, cache, cacheable, n - 1);
      var s := CachedStep(isa, checked, t.0.core, t.1, cacheable);
      (Trace(out(n - 1, s.core), t.0.results + [s.result]), Fill(isa, t.0.core, t.1, cacheable))
  }

  /** From one machine state to another, decoding still gives the same everywhere. */
  ghost predicate SameCode(isa: Isa, m: Machine, k: Machine) {
    forall a :: DecodeAt(isa, m, a) == DecodeAt(isa, k, a)
  }

  /** Code is left alone over the first n steps. */
  ghost predicate CodeKept(isa: Isa, out: Outside, c: Core, n: nat) {
    forall i :: 0 <= i < n ==>
      SameCode(isa, RefRun(isa, out, c, i).core.machine, RefRun(isa, out, c, i + 1).core.machine)
  }

  /** As long as code is left alone, a run with the cache and a run that always decodes go through the same
      states with the same result codes, and the cache stays coherent. */
  lemma {:induction false} RunsAgree(isa: Isa, out: Outside, c: Core, cache: Cache, cacheable: set<nat>, n: nat)
    requires Coherent(isa, c.machine, cache) && CodeKept(isa, out, c, n)
    ensures CachedRun(isa, out, true, c, cache, cacheable, n).0 == RefRun(isa, out, c, n)
    ensures Coherent(isa, RefRun(isa, out, c, n).core.machine, CachedRun(isa, out, true, c, cache, cacheable, n).1)
  {
    if n > 0 {
      RunsAgree(isa, out, c, cache, cacheable, n - 1);
      var t := RefRun(isa, out, c, n - 1);
      var k := CachedRun(isa, out, true, c, cache, cacheable, n - 1).1;
      StepAgrees(isa, t.core, k, cacheable);
      FillKeepsCoherent(isa, t.core, k, cacheable);
      assert SameCode(isa, t.core.machine, RefRun(isa, out, c, n - 1 + 1).core.machine);
    }
  }

  /** One instruction everywhere, which switches the protection unit on and stays where it is, in memory
      that must not be executed under protection. */
  function Locking(op: Op): Isa {
    Isa((_, _) => Code([]), _ => Some(op), _ => 4,
        (c: Core) => 0 in c.machine.system, (_, _, _) => false,
        _ => true, _ => 1, (_, c) => (Locked(c), true))
  }

  function Locked(c: Core): Core {
    c.(machine := c.machine.(system := c.machine.system[0 := 1]))
  }

  function NothingOutside(i: nat, c: Core): Core { c }

  /** The core after one execution of the instruction. */
  function AfterLocking(c: Core): Core {
    Locked(c.(r0 := 0, realElaps := 1)).(elaps := c.elaps + 1)
  }

  lemma LocksFirst(op: Op, c: Core)
    requires !c.fatal && !c.halt && c.error.None? && 0 !in c.machine.system
    ensures RefStep(Locking(op), c) == Step(AfterLocking(c), Ok)
    ensures RefRun(Locking(op), NothingOutside, c, 1) == Trace(AfterLocking(c), [Ok])
    ensures CachedRun(Locking(op), NothingOutside, false, c, map[], {c.pc}, 1) ==
            (Trace(AfterLocking(c), [Ok]), map[c.pc := op])
  {
    assert RefRun(Locking(op), NothingOutside, c, 0) == Trace(c, []);
    assert CachedRun(Locking(op), NothingOutside, false, c, map[], {c.pc}, 0) == (Trace(c, []), map[]);
  }

  /** The left-out check does make a difference.  From the empty cache the instruction is executed and
      cached while protection is off; the next step executes it again from the cache when checks are off,
      while decoding raises MIP. */
  lemma LockedExecuted(op: Op, c: Core)
    requires !c.fatal && !c.halt && c.error.None? && 0 !in c.machine.system
    ensures CachedRun(Locking(op), NothingOutside, false, c, map[], {c.pc}, 2).0.results == [Ok, Ok]
    ensures RefRun(Locking(op), NothingOutside, c, 2).results == [Ok, Raised]
    ensures RefRun(Locking(op), NothingOutside, c, 2).core.codeException == Some(Mip)
  {
    LocksFirst(op, c);
    var d := AfterLocking(c);
    assert RefStep(Locking(op), d).result == Raised;
    assert CachedStep(Locking(op), false, d, map[c.pc := op], {c.pc}).result == Ok;
  }

  /** The same with checks off, for runs in which every check would have passed and no violation is ever
      pending at the start of a step. */
  lemma {:induction false} UncheckedRunsAgree(isa: Isa, out: Outside, c: Core, cache: Cache, cacheable: set<nat>,
      n: nat)
    requires Coherent(isa, c.machine, cache) && CodeKept(isa, out, c, n)
    requires forall i :: 0 <= i < n ==> NeverRefused(isa, RefRun(isa, out, c, i).core)
    ensures CachedRun(isa, out, false, c, cache, cacheable, n).0 == RefRun(isa, out, c, n)
    ensures Coherent(isa, RefRun(isa, out, c, n).core.machine, CachedRun(isa, out, false, c, cache, cacheable, n).1)
  {
    if n > 0 {
      UncheckedRunsAgree(isa, out, c, cache, cacheable, n - 1);
      var t := RefRun(isa, out, c, n - 1);
      var k := CachedRun(isa, out, false, c, cache, cacheable, n - 1).1;
      assert NeverRefused(isa, RefRun(isa, out, c, n - 1).core);
      if Hits(cacheable, t.core, k) {
        UncheckedAgrees(isa, t.core, k, cacheable);
      }
      FillKeepsCoherent(isa, t.core, k, cacheable);
      assert SameCode(isa, t.core.machine, RefRun(isa, out, c, n - 1 + 1).core.machine);
    }
  }

  /** No violation is pending, and the instruction at pc, if there is one, may be executed. */
  predicate NeverRefused(isa: Isa, c: Core) {
    c.error.None? && (DecodeAt(isa, c.machine, c.pc).Some? ==>
        Granted(isa, c.(r0 := 0), DecodeAt(isa, c.machine, c.pc).value))
  }

  // ---------- the interpreter as it runs ----------

  class Interpreter {
    const isa: Isa
    const checked: bool
    const cacheable: set<nat>
    var core: Core
    var cache: Cache

    constructor (isa: Isa, checked: bool, cacheable: set<nat>, core: Core)
      ensures this.core == core && cache == map[]
      ensures Coherent(isa, core.machine, cache)
    {
      this.isa, this.checked, this.cacheable, this.core, this.cache := isa, checked, cacheable, core, map[];
    }

    method CheckPermission(size: nat) returns (granted: bool)
      modifies this`core
      ensures (core, granted) == Check(isa, old(core), size)
    {
      if !isa.protecting(core) { return true; }
      if isa.allowed(core, core.pc, size) {
        core := core.(error := None);
        return true;
      }
      core := core.(error := Some(Violation(core.pc, true)));
      return false;
    }

    /** Runs the instruction and accounts for its clocks. */
    method RunOp(op: Op) returns (result: Result)
      modifies this`core
      ensures result.Ok? ==> Step(core.(r0 := 0), result) == Execute(isa, old(core), op)
      ensures !result.Ok? ==> Step(core, result) == Execute(isa, old(core), op)
    {
      core := core.(realElaps := isa.clocks(op.id));
      var e := isa.exec(op, core);
      core := e.0;
      if core.error.Some? {
        core := core.(opCode := op.id, codeException := Some(Mdp));
        return Raised;
      }
      if !e.1 { return ExecError; }
      core := core.(elaps := core.elaps + core.realElaps);
      return Ok;
    }

    /** The outcome of a refused permission check. */
    method ReportRefusal(id: nat) returns (result: Result)
      modifies this`core
      ensures Step(core, result) == Refuse(old(core), id)
    {
      if core.error.Some? {
        core := core.(opCode := id, codeException := Some(Mip));
        return Raised;
      }
      return Segv;
    }

    method SupplyClockNotCached(cached: bool) returns (result: Result)
      modifies this`core, this`cache
      ensures result.Ok? ==> Step(core.(r0 := 0), result) == Uncached(isa, old(core))
      ensures !result.Ok? ==> Step(core, result) == Uncached(isa, old(core))
      ensures result.Ok? ==> DecodeAt(isa, old(core.machine), old(core.pc)).Some?
      ensures cache == if cached && result.Ok?
                       then old(cache)[old(core.pc) := DecodeAt(isa, old(core.machine), old(core.pc)).value]
                       else old(cache)
    {
      var pc := core.pc;
      var fetched := isa.fetch(core.machine, pc);
      if fetched.Fault? { return BusError(fetched.code); }
      var decoded := isa.decode(fetched.words);
      if decoded.None? { return DecodeError; }
      var op := decoded.value;
      var granted := CheckPermission(isa.size(op.format));
      if !granted {
        result := ReportRefusal(op.id);
        return;
      }
      if !isa.known(op.id) { return ExecError; }
      result := RunOp(op);
      if result.Ok? && cached {
        cache := cache[pc := op];
      }
    }

    method SupplyClock() returns (result: Result)
      modifies this`core, this`cache
      ensures Step(core, result) == CachedStep(isa, checked, old(core), old(cache), cacheable)
      ensures cache == Fill(isa, old(core), old(cache), cacheable)
    {
      if core.fatal { return Invalid; }
      if core.halt { return Ok; }
      core := core.(r0 := 0);
      if core.pc !in cacheable || core.pc !in cache {
        result := SupplyClockNotCached(core.pc in cacheable);
        if result != Ok { return; }
        core := core.(r0 := 0);
      } else {
        var op := cache[core.pc];
        if checked {
          var granted := CheckPermission(isa.size(op.format));
          if !granted {
            result := ReportRefusal(op.id);
            return;
          }
        }
        result := RunOp(op);
        if result != Ok { return; }
        core := core.(r0 := 0);
      }
    }
  }
}
