/** Whole runs of the exception controller: any interleaving of requests, clocks, returns and
    software accesses, from any state with nothing requested. */
module IntcRuns {
  import opened Common
  import opened IntcTypes
  import opened IntcSpec
  import opened IntcNesting
  import opened IntcStack
  import opened IntcRequests
  import opened IntcIspr

  datatype Event =
    | Request(intno: Intno)
    | Exception(exno: Exno)
    | Tick(handler: nat)
    | Feret
    | Eiret
    | Software(cpu: Cpu, pmr: set<Priority>, masked: set<Intno>)
    | Withdraw(intno: Intno)

  ghost function Step(s: Intc, e: Event): Intc {
    match e
    case Request(i) => RaiseUser(s, i)
    case Exception(x) => RaiseSystem(s, x)
    case Tick(h) => Clock(s, h)
    case Feret => FeReturn(s)
    case Eiret => EiReturn(s)
    case Software(cpu, pmr, masked) => Guest(s, cpu, pmr, masked)
    case Withdraw(i) => GuestClear(s, i)
  }

  ghost function Run(s: Intc, es: seq<Event>): Intc
    decreases |es|, s.next
  {
    if es == [] then s else Run(Step(s, es[0]), es[1..])
  }

  /** A guard holds before every step of a run. */
  ghost predicate Along(s: Intc, es: seq<Event>, guard: (Intc, Event) -> bool)
    decreases |es|
  {
    es != [] ==> guard(s, es[0]) && Along(Step(s, es[0]), es[1..], guard)
  }

  predicate Idle(s: Intc) {
    s.pool == map[] && s.user == [] && s.current.None? && s.reqFlag == {} && s.ispr == {}
  }

  // ---------- nesting ----------

  ghost predicate NoOvertaking(s: Intc, e: Event) {
    e.Tick? ==> !Overtakes(JudgeUser(s))
  }

  /** Nesting over all runs: whatever happens, the only thing that can break it is a clock that
      overtakes a suspended handler hidden by PMR. */
  lemma {:induction false} NestingOverRuns(s: Intc, es: seq<Event>)
    requires Inv(s) && Along(s, es, NoOvertaking)
    ensures Inv(Run(s, es))
    decreases |es|
  {
    if es != [] {
      StepKeepsInv(s, es[0]);
      NestingOverRuns(Step(s, es[0]), es[1..]);
    }
  }

  lemma StepKeepsInv(s: Intc, e: Event)
    requires Inv(s)
    ensures Inv(Step(s, e)) <==> NoOvertaking(s, e)
  {
    match e {
      case Request(i) => RaisesKeepInv(s, i, Reset);
      case Exception(x) => RaisesKeepInv(s, 0, x);
      case Tick(h) => ClockInv(s, h);
      case Feret => ReturnsKeepInv(s);
      case Eiret => ReturnsKeepInv(s);
      case Software(_, _, _) =>
      case Withdraw(i) => GuestClearKeepsInv(s, i);
    }
  }

  lemma TakeKeepsBuild(s: Intc, x: nat, handler: nat)
    requires x in s.pool
    ensures Take(s, x, handler).pmrFix == s.pmrFix && Take(s, x, handler).ispc == s.ispc
  {}

  lemma StepKeepsBuild(s: Intc, e: Event)
    ensures Step(s, e).pmrFix == s.pmrFix
  {
    if e.Tick? && Choice(JudgeUser(s)).Some? {
      TakeKeepsBuild(JudgeUser(s), Choice(JudgeUser(s)).value, e.handler);
    }
  }

  /** In a build without USER_INTR_PMR_BUGFIX the nesting holds in every run, without any guard. */
  lemma {:induction false} NestingWithoutPmrFix(s: Intc, es: seq<Event>)
    requires Inv(s) && !s.pmrFix
    ensures Inv(Run(s, es))
    decreases |es|
  {
    if es != [] {
      VisibleNotOvertaken(s);
      StepKeepsInv(s, es[0]);
      StepKeepsBuild(s, es[0]);
      NestingWithoutPmrFix(Step(s, es[0]), es[1..]);
    }
  }

  // ---------- requests ----------

  /** The core raises exceptions of other causes than user interrupts only, and a request of interrupt 0
      that has been copied is not withdrawn behind such an exception. */
  ghost predicate OrderlyRequests(s: Intc, e: Event) {
    && (e.Exception? ==> !e.exno.UserIntr?)
    && (e == Withdraw(0) && HasRunnable(s.user, 0) ==> forall id :: !AheadOfCopies(s.pool, id))
  }

  ghost predicate BookGuard(s: Intc, e: Event) {
    NoOvertaking(s, e) && OrderlyRequests(s, e)
  }

  lemma StepKeepsBook(s: Intc, e: Event)
    requires Inv(s) && Book(s) && OrderlyRequests(s, e)
    ensures Book(Step(s, e))
  {
    match e {
      case Request(i) => RaiseUserKeepsBook(s, i);
      case Exception(x) => RaiseSystemKeepsBook(s, x);
      case Tick(h) => ClockKeepsBook(s, h);
      case Feret => ReturnsKeepBook(s);
      case Eiret => ReturnsKeepBook(s);
      case Software(_, _, _) =>
      case Withdraw(i) => GuestClearBook(s, i);
    }
  }

  /** The number of runnable or pending requests the controller owes for one interrupt. */
  function Owed(s: Intc, i: Intno): nat { if i in s.reqFlag then 1 else 0 }

  predicate Accepts(s: Intc, e: Event, i: Intno) { e == Request(i) && i !in s.reqFlag }

  predicate Withdraws(s: Intc, e: Event, i: Intno) { e == Withdraw(i) && i in s.reqFlag }

  ghost predicate Delivers(s: Intc, e: Event, i: Intno) {
    e.Tick? && Entered(s).Some? && Queued(JudgeUser(s).pool, Entered(s).value, i)
  }

  ghost function Accepted(s: Intc, es: seq<Event>, i: Intno): nat
    decreases |es|
  {
    if es == [] then 0 else (if Accepts(s, es[0], i) then 1 else 0) + Accepted(Step(s, es[0]), es[1..], i)
  }

  ghost function Delivered(s: Intc, es: seq<Event>, i: Intno): nat
    decreases |es|
  {
    if es == [] then 0 else (if Delivers(s, es[0], i) then 1 else 0) + Delivered(Step(s, es[0]), es[1..], i)
  }

  ghost function Withdrawn(s: Intc, es: seq<Event>, i: Intno): nat
    decreases |es|
  {
    if es == [] then 0 else (if Withdraws(s, es[0], i) then 1 else 0) + Withdrawn(Step(s, es[0]), es[1..], i)
  }

  lemma TakeConsumes(s: Intc, x: nat, handler: nat, i: Intno)
    requires Inv(s) && Book(s) && Choice(s) == Some(x)
    ensures var starts := CanRaise(s.cpu, s.pool[x].req) && Queued(s.pool, x, i);
            && (starts ==> i in s.reqFlag)
            && (i in Take(s, x, handler).reqFlag <==> i in s.reqFlag && !starts)
  {
    DispatchChoice(s, x);
    if InLine(s.pool, x) {
      RequestFound(s, x);
    }
  }

  lemma DispatchConsumes(s: Intc, handler: nat, i: Intno)
    requires Inv(s) && Book(s)
    ensures var starts := Admitted(s).Some? && Queued(s.pool, Admitted(s).value, i);
            && (starts ==> i in s.reqFlag)
            && (i in Dispatch(s, handler).reqFlag <==> i in s.reqFlag && !starts)
  {
    if Choice(s).Some? {
      TakeConsumes(s, Choice(s).value, handler, i);
    }
  }

  lemma DeliveryConsumes(s: Intc, handler: nat, i: Intno)
    requires Inv(s) && Book(s)
    ensures Delivers(s, Tick(handler), i) ==> i in s.reqFlag
    ensures i in Clock(s, handler).reqFlag <==> i in s.reqFlag && !Delivers(s, Tick(handler), i)
  {
    var j := JudgeUser(s);
    JudgeUserKeepsInv(s);
    JudgeUserKeepsBook(s);
    DispatchConsumes(j, handler, i);
    assert j.reqFlag == s.reqFlag;
  }

  lemma StepBalances(s: Intc, e: Event, i: Intno)
    requires Inv(s) && Book(s)
    ensures Owed(Step(s, e), i) + (if Delivers(s, e, i) then 1 else 0) + (if Withdraws(s, e, i) then 1 else 0)
         == Owed(s, i) + (if Accepts(s, e, i) then 1 else 0)
  {
    if e.Tick? {
      DeliveryConsumes(s, e.handler, i);
    }
  }

  /** Conservation of requests over all runs: every accepted request of an interrupt is delivered
      once, or withdrawn, or still owed with its request bit set. */
  lemma {:induction false} RequestsConserved(s: Intc, es: seq<Event>, i: Intno)
    requires Inv(s) && Book(s) && Along(s, es, BookGuard)
    ensures Inv(Run(s, es)) && Book(Run(s, es))
    ensures Owed(s, i) + Accepted(s, es, i) == Delivered(s, es, i) + Withdrawn(s, es, i) + Owed(Run(s, es), i)
    decreases |es|
  {
    if es != [] {
      StepKeepsInv(s, es[0]);
      StepKeepsBook(s, es[0]);
      StepBalances(s, es[0], i);
      RequestsConserved(Step(s, es[0]), es[1..], i);
    }
  }

  // ---------- priorities in service ----------

  /** A return ends the kind of handler it is meant for, and hardware updates ISPR. */
  ghost predicate MatchingReturn(s: Intc, e: Event) {
    && (e.Feret? ==> !CurrentIsUser(s))
    && (e.Eiret? && CurrentIsUser(s) ==> !s.ispc && !s.cpu.eipsw.ep)
  }

  ghost predicate IsprGuard(s: Intc, e: Event) {
    BookGuard(s, e) && MatchingReturn(s, e)
  }

  ghost predicate AllOk(s: Intc) {
    Inv(s) && Book(s) && IsprOk(s) && !s.ispc
  }

  lemma StepKeepsIspc(s: Intc, e: Event)
    ensures Step(s, e).ispc == s.ispc
  {
    if e.Tick? && Choice(JudgeUser(s)).Some? {
      TakeKeepsBuild(JudgeUser(s), Choice(JudgeUser(s)).value, e.handler);
    }
  }

  lemma StepKeepsIspr(s: Intc, e: Event)
    requires AllOk(s) && IsprGuard(s, e)
    ensures IsprOk(Step(s, e))
  {
    match e {
      case Request(_) =>
      case Exception(x) => RaiseSystemKeepsIspr(s, x);
      case Tick(h) => ClockKeepsIspr(s, h);
      case Feret => FeReturnIspr(s);
      case Eiret => EiReturnIspr(s);
      case Software(_, _, _) =>
      case Withdraw(i) => GuestClearKeepsIspr(s, i);
    }
  }

  lemma StepKeepsAll(s: Intc, e: Event)
    requires AllOk(s) && IsprGuard(s, e)
    ensures AllOk(Step(s, e))
  {
    StepKeepsInv(s, e);
    StepKeepsBook(s, e);
    StepKeepsIspr(s, e);
    StepKeepsIspc(s, e);
  }

  /** ISPR over all runs from an idle controller: its bits are exactly the priorities of the user
      interrupts whose entries have been entered and not dropped by a return, no two of which share a
      priority; so there are never more than sixteen of them. */
  lemma IsprOverRuns(s: Intc, es: seq<Event>)
    requires Idle(s) && !s.ispc && Along(s, es, IsprGuard)
    ensures var t := Run(s, es);
            && (forall d: Priority :: d in t.ispr <==> exists id :: Serves(t.pool, t.prio, id, d))
            && OnePerPriority(t.pool, t.prio)
            && |set id | id in t.pool && InService(t.pool, id)| <= NUM_PRIORITIES
  {
    AllOkOverRuns(s, es);
    var t := Run(s, es);
    forall d: Priority, id | Serves(t.pool, t.prio, id, d) ensures d in t.ispr {}
    NestingBound(t);
  }

  lemma {:induction false} AllOkOverRuns(s: Intc, es: seq<Event>)
    requires AllOk(s) && Along(s, es, IsprGuard)
    ensures AllOk(Run(s, es))
    decreases |es|
  {
    if es != [] {
      StepKeepsAll(s, es[0]);
      AllOkOverRuns(Step(s, es[0]), es[1..]);
    }
  }

  // ---------- the stack of handlers ----------

  ghost function StackStep(s: Intc, stack: seq<nat>, e: Event): seq<nat> {
    match e
    case Tick(_) => PushEntered(s, stack)
    case Feret => if s.current.Some? && stack != [] then stack[..|stack| - 1] else stack
    case Eiret => if s.current.Some? && stack != [] then stack[..|stack| - 1] else stack
    case _ => stack
  }

  ghost function RunStack(s: Intc, stack: seq<nat>, es: seq<Event>): seq<nat>
    decreases |es|
  {
    if es == [] then stack else RunStack(Step(s, es[0]), StackStep(s, stack, es[0]), es[1..])
  }

  lemma InsertKeepsStack(p: Pool, current: Option<nat>, stack: seq<nat>, id: nat, e: Entry)
    requires IsStack(p, current, stack) && id !in p && e.status.Runnable?
    ensures IsStack(p[id := e], current, stack)
  {}

  lemma RemoveKeepsStack(p: Pool, current: Option<nat>, stack: seq<nat>, id: nat)
    requires IsStack(p, current, stack) && id in p && p[id].status.Runnable?
    ensures IsStack(p - {id}, current, stack)
  {}

  lemma RaiseSystemKeepsStack(s: Intc, stack: seq<nat>, x: Exno)
    requires Inv(s) && IsStack(s.pool, s.current, stack)
    ensures IsStack(RaiseSystem(s, x).pool, RaiseSystem(s, x).current, stack)
  {
    InsertKeepsStack(s.pool, s.current, stack, s.next, NewEntry(s.prio, x, 0, Runnable));
  }

  lemma WithdrawalKeepsStack(s: Intc, stack: seq<nat>, i: Intno)
    requires IsStack(s.pool, s.current, stack)
    ensures IsStack(GuestClear(s, i).pool, GuestClear(s, i).current, stack)
  {
    if Cleared(s.pool, i).Some? {
      RemoveKeepsStack(s.pool, s.current, stack, Cleared(s.pool, i).value);
    }
  }

  lemma StepOnStack(s: Intc, stack: seq<nat>, e: Event)
    requires Inv(s) && IsStack(s.pool, s.current, stack) && NoOvertaking(s, e)
    ensures IsStack(Step(s, e).pool, Step(s, e).current, StackStep(s, stack, e))
  {
    match e {
      case Request(_) =>
      case Exception(x) => RaiseSystemKeepsStack(s, stack, x);
      case Tick(h) => ClockOnStack(s, stack, h);
      case Feret => ReturnPops(s, stack);
      case Eiret => ReturnPops(s, stack);
      case Software(_, _, _) =>
      case Withdraw(i) => WithdrawalKeepsStack(s, stack, i);
    }
  }

  /** The controller refines a stack in every run from an idle controller: the started entries are
      exactly the ones entered and not yet dropped by a return, and the current one, if any, is the last
      of them to have been entered. */
  lemma {:induction false} StackOverRuns(s: Intc, stack: seq<nat>, es: seq<Event>)
    requires Inv(s) && IsStack(s.pool, s.current, stack) && Along(s, es, NoOvertaking)
    ensures IsStack(Run(s, es).pool, Run(s, es).current, RunStack(s, stack, es))
    decreases |es|
  {
    if es != [] {
      StepKeepsInv(s, es[0]);
      StepOnStack(s, stack, es[0]);
      StackOverRuns(Step(s, es[0]), StackStep(s, stack, es[0]), es[1..]);
    }
  }

  // ---------- a guard that software can keep ----------

  /** At this clock PMR masks no suspended user interrupt, or the build does not care. */
  ghost predicate ShowsSuspended(s: Intc, e: Event) {
    e.Tick? && s.pmrFix ==>
      forall id :: id in s.pool && s.pool[id].status.Waiting? && s.pool[id].exno.UserIntr? ==> !PmrMasked(s, s.pool[id])
  }

  /** Software that masks no suspended user interrupt by PMR at any clock is safe from overtaking, and
      its runs satisfy the guards of all the theorems over runs. */
  lemma {:induction false} VisibleOverRuns(s: Intc, es: seq<Event>)
    requires Inv(s) && Along(s, es, ShowsSuspended)
    ensures Along(s, es, NoOvertaking) && Inv(Run(s, es))
    ensures Along(s, es, OrderlyRequests) ==> Along(s, es, BookGuard)
    ensures Along(s, es, OrderlyRequests) && Along(s, es, MatchingReturn) ==> Along(s, es, IsprGuard)
    decreases |es|
  {
    if es != [] {
      if es[0].Tick? {
        VisibleNotOvertaken(s);
      }
      StepKeepsInv(s, es[0]);
      VisibleOverRuns(Step(s, es[0]), es[1..]);
    }
  }

  lemma IdleOk(s: Intc)
    requires Idle(s)
    ensures Inv(s) && Book(s) && IsprOk(s) && IsStack(s.pool, s.current, [])
  {}
}
