/** Software exceptions and the handlers in progress.  TRAP, FETRAP and SYSCALL save PC and PSW and jump
    without entering any queue, while FERET and EIRET tell the controller that its current exception has
    ended, whichever handler it was that ended. */
module IntcSoftware {
  import opened Common
  import opened IntcTypes
  import opened IntcSpec
  import opened IntcNesting
  import opened IntcStack
  import opened IntcRequests
  import opened IntcIspr
  import opened IntcRuns

  type Vector = n: nat | n < 32

  /** SYSCALL comes with the target that its table holds, if the table can be read. */
  datatype Instruction = Trap(vector: Vector) | Fetrap | Syscall(target: Option<nat>)

  function Ahead(pc: nat, n: nat): nat { (pc + n) % 0x1_0000_0000 }

  /** What the instruction does to the registers.  A SYSCALL without a target has saved PC and PSW by the
      time it fails. */
  function Execute(cpu: Cpu, i: Instruction): Cpu {
    match i
    case Trap(v) =>
      cpu.(eipc := Ahead(cpu.pc, 4), eipsw := cpu.psw, psw := cpu.psw.(ep := true, id := true),
           pc := if v < 16 then 0x40 else 0x50)
    case Fetrap =>
      cpu.(fepc := Ahead(cpu.pc, 2), fepsw := cpu.psw, psw := cpu.psw.(ep := true, id := true, np := true),
           pc := 0x30)
    case Syscall(target) =>
      cpu.(eipc := Ahead(cpu.pc, 4), eipsw := cpu.psw, psw := cpu.psw.(um := false, ep := true, id := true),
           pc := if target.Some? then target.value else cpu.pc)
  }

  predicate Begins(i: Instruction) { i.Syscall? ==> i.target.Some? }

  /** A handler is that of a queued exception or of a software exception. */
  datatype Handler = Hardware(id: nat) | Trapped

  /** The controller, and the handlers that have begun and not returned, innermost last. */
  datatype Machine = Machine(s: Intc, open: seq<Handler>)

  datatype Act = Event(e: IntcRuns.Event) | Execution(i: Instruction)

  predicate Returns(a: Act) { a.Event? && (a.e.Feret? || a.e.Eiret?) }

  function Ended(open: seq<Handler>): seq<Handler> {
    if open == [] then open else open[..|open| - 1]
  }

  /** The handlers in progress after an event: a clock begins one if it enters an exception, and a return
      ends the innermost. */
  ghost function OpenAfter(m: Machine, e: IntcRuns.Event): seq<Handler> {
    match e
    case Tick(_) => if Entered(m.s).Some? then m.open + [Hardware(Entered(m.s).value)] else m.open
    case Feret => Ended(m.open)
    case Eiret => Ended(m.open)
    case _ => m.open
  }

  ghost function Next(m: Machine, a: Act): Machine {
    match a
    case Event(e) => Machine(Step(m.s, e), OpenAfter(m, e))
    case Execution(i) =>
      Machine(m.s.(cpu := Execute(m.s.cpu, i)), if Begins(i) then m.open + [Trapped] else m.open)
  }

  /** The queued exceptions among the handlers in progress. */
  function Held(open: seq<Handler>): seq<nat>
    decreases |open|
  {
    if open == [] then []
    else Held(open[..|open| - 1]) + if open[|open| - 1].Hardware? then [open[|open| - 1].id] else []
  }

  lemma HeldAppend(open: seq<Handler>, h: Handler)
    ensures Held(open + [h]) == Held(open) + if h.Hardware? then [h.id] else []
  {
    assert (open + [h])[..|open + [h]| - 1] == open;
  }

  /** The controller is right about the handlers in progress: its started entries are theirs, the current
      one is the innermost of them, and ISPR shows the priorities of the user interrupts among them. */
  ghost predicate Right(m: Machine) {
    IsStack(m.s.pool, m.s.current, Held(m.open)) && IsprOk(m.s)
  }

  /** A return ends the handler of the current exception, and in the way in which ISPR follows; or it ends
      a software exception while no exception is current; or there is nothing to end. */
  predicate ProperReturn(m: Machine, e: IntcRuns.Event) {
    m.open != [] ==>
      if m.open[|m.open| - 1].Trapped? then m.s.current.None?
      else m.s.current.Some? && (CurrentIsUser(m.s) ==> e.Eiret? && !m.s.cpu.eipsw.ep)
  }

  ghost predicate Proper(m: Machine, a: Act) {
    Returns(a) ==> ProperReturn(m, a.e)
  }

  ghost predicate Guarded(m: Machine, a: Act) {
    a.Event? ==> BookGuard(m.s, a.e)
  }

  ghost predicate Sound(s: Intc) {
    Inv(s) && Book(s) && !s.ispc
  }

  // ---------- one step ----------

  /** A stack of the started entries leaves none of them out. */
  lemma StackIsAll(p: Pool, current: Option<nat>, stack: seq<nat>)
    requires IsStack(p, current, stack)
    ensures current.None? && stack != [] ==> !IsStack(p, None, stack[..|stack| - 1])
    ensures current.Some? ==> !IsStack(p - {current.value}, None, stack)
  {
    if current.None? && stack != [] {
      var n := |stack| - 1;
      forall i | 0 <= i < n ensures stack[i] != stack[n] {
        BeforeTotal(p, stack[n], stack[i]);
      }
      assert stack[n] !in stack[..n];
    }
  }

  lemma PopOfReturn(s: Intc, e: IntcRuns.Event)
    requires e.Feret? || e.Eiret?
    ensures Step(s, e).pool == Pop(s).pool && Step(s, e).current == Pop(s).current
  {}

  lemma ReturnOnStack(m: Machine, e: IntcRuns.Event)
    requires Inv(m.s) && IsStack(m.s.pool, m.s.current, Held(m.open)) && (e.Feret? || e.Eiret?)
    ensures IsStack(Step(m.s, e).pool, Step(m.s, e).current, Held(Ended(m.open))) <==>
            (m.open != [] ==> (m.open[|m.open| - 1].Trapped? <==> m.s.current.None?))
  {
    var stack := Held(m.open);
    PopOfReturn(m.s, e);
    ReturnPops(m.s, stack);
    StackIsAll(m.s.pool, m.s.current, stack);
    if m.open == [] {
      assert stack == [];
    } else if m.open[|m.open| - 1].Hardware? {
      assert stack[..|stack| - 1] == Held(Ended(m.open));
    } else {
      assert stack == Held(Ended(m.open));
    }
  }

  lemma ReturnRight(m: Machine, e: IntcRuns.Event)
    requires Sound(m.s) && Right(m) && (e.Feret? || e.Eiret?)
    ensures Right(Next(m, Event(e))) <==> ProperReturn(m, e)
  {
    ReturnOnStack(m, e);
    if e.Eiret? {
      EiReturnIspr(m.s);
    } else {
      FeReturnIspr(m.s);
    }
    if m.open == [] {
      assert Held(m.open) == [];
    }
  }

  lemma ClockRight(m: Machine, handler: nat)
    requires Sound(m.s) && Right(m) && NoOvertaking(m.s, Tick(handler))
    ensures Right(Next(m, Event(Tick(handler))))
  {
    ClockOnStack(m.s, Held(m.open), handler);
    ClockKeepsIspr(m.s, handler);
    if Entered(m.s).Some? {
      HeldAppend(m.open, Hardware(Entered(m.s).value));
    }
  }

  lemma EventRight(m: Machine, e: IntcRuns.Event)
    requires Sound(m.s) && Right(m) && BookGuard(m.s, e) && !Returns(Event(e))
    ensures Right(Next(m, Event(e)))
  {
    match e {
      case Tick(h) => ClockRight(m, h);
      case _ =>
        StepOnStack(m.s, Held(m.open), e);
        match e {
          case Exception(x) => RaiseSystemKeepsIspr(m.s, x);
          case Withdraw(i) => GuestClearKeepsIspr(m.s, i);
          case _ =>
        }
    }
  }

  lemma RegistersLeaveIspr(s: Intc, cpu: Cpu)
    requires IsprOk(s)
    ensures IsprOk(s.(cpu := cpu))
  {}

  /** An instruction moves neither the queue of exceptions nor ISPR; a software exception it begins is
      queued nowhere. */
  lemma ExecutionRight(m: Machine, i: Instruction)
    requires Right(m)
    ensures Right(Next(m, Execution(i)))
  {
    var held := Held(m.open);
    var n := Next(m, Execution(i));
    assert Held(n.open) == held by {
      HeldAppend(m.open, Trapped);
    }
    assert IsStack(n.s.pool, n.s.current, held);
    RegistersLeaveIspr(m.s, n.s.cpu);
  }

  lemma NextSound(m: Machine, a: Act)
    requires Sound(m.s) && Guarded(m, a)
    ensures Sound(Next(m, a).s)
  {
    if a.Event? {
      StepKeepsInv(m.s, a.e);
      StepKeepsBook(m.s, a.e);
      StepKeepsIspc(m.s, a.e);
    }
  }

  /** One step keeps the controller right exactly when it is no improper return. */
  lemma NextRight(m: Machine, a: Act)
    requires Sound(m.s) && Right(m) && Guarded(m, a)
    ensures Right(Next(m, a)) <==> Proper(m, a)
  {
    match a {
      case Event(e) =>
        if Returns(a) {
          ReturnRight(m, e);
        } else {
          EventRight(m, e);
        }
      case Execution(i) => ExecutionRight(m, i);
    }
  }

  // ---------- runs ----------

  ghost function RunActs(m: Machine, acts: seq<Act>): Machine
    decreases |acts|, m.s.next
  {
    if acts == [] then m else RunActs(Next(m, acts[0]), acts[1..])
  }

  ghost predicate AlongActs(m: Machine, acts: seq<Act>, guard: (Machine, Act) -> bool)
    decreases |acts|
  {
    acts != [] ==> guard(m, acts[0]) && AlongActs(Next(m, acts[0]), acts[1..], guard)
  }

  /** The controller is right all along a run. */
  ghost predicate AlwaysRight(m: Machine, acts: seq<Act>)
    decreases |acts|
  {
    Right(m) && (acts != [] ==> AlwaysRight(Next(m, acts[0]), acts[1..]))
  }

  /** Over all runs, software exceptions included: the controller stays right about the handlers in
      progress if and only if no return ends a software exception while an exception is current, none
      ends the handler of an exception that is not current, and a user interrupt is left by EIRET with
      the saved EP clear. */
  lemma {:induction false} RightOverRuns(m: Machine, acts: seq<Act>)
    requires Sound(m.s) && Right(m) && AlongActs(m, acts, Guarded)
    ensures AlwaysRight(m, acts) <==> AlongActs(m, acts, Proper)
    decreases |acts|
  {
    if acts != [] {
      NextSound(m, acts[0]);
      NextRight(m, acts[0]);
      if Proper(m, acts[0]) {
        RightOverRuns(Next(m, acts[0]), acts[1..]);
      }
    }
  }

  lemma IdleRight(s: Intc)
    requires Idle(s) && !s.ispc
    ensures Sound(s) && Right(Machine(s, []))
  {
    IdleOk(s);
  }

  // ---------- what being right means ----------

  /** The user interrupt among the handlers in progress at place i. */
  predicate UserAt(m: Machine, i: nat) {
    i < |m.open| && m.open[i].Hardware? && InService(m.s.pool, m.open[i].id)
  }

  lemma {:induction false} HeldIs(open: seq<Handler>, id: nat)
    ensures id in Held(open) <==> Hardware(id) in open
    decreases |open|
  {
    if open != [] {
      HeldIs(open[..|open| - 1], id);
      assert open == open[..|open| - 1] + [open[|open| - 1]];
    }
  }

  /** A controller that is right has exactly the user interrupts whose handlers are in progress in
      service: ISPR is the set of their priorities, and there are no more than sixteen of them. */
  lemma IsprOfHandlers(m: Machine)
    requires Right(m)
    ensures forall d: Priority ::
              d in m.s.ispr <==> exists i: nat :: UserAt(m, i) && Serves(m.s.pool, m.s.prio, m.open[i].id, d)
    ensures |set id | id in m.s.pool && InService(m.s.pool, id)| <= NUM_PRIORITIES
    ensures forall id :: InService(m.s.pool, id) ==> Hardware(id) in m.open
  {
    forall id | InService(m.s.pool, id) ensures Hardware(id) in m.open {
      HeldIs(m.open, id);
    }
    forall d: Priority | d in m.s.ispr
      ensures exists i: nat :: UserAt(m, i) && Serves(m.s.pool, m.s.prio, m.open[i].id, d)
    {
      var id :| Serves(m.s.pool, m.s.prio, id, d);
      var i :| 0 <= i < |m.open| && m.open[i] == Hardware(id);
      assert UserAt(m, i);
    }
    NestingBound(m.s);
  }
}
