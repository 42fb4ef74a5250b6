/** Runs from an idle controller that show where it departs from what it is meant to do. */
module IntcWitness {
  import opened Common
  import opened IntcTypes
  import opened IntcSpec
  import opened IntcNesting
  import opened IntcRequests
  import opened IntcIspr
  import opened IntcStack
  import opened IntcRuns
  import opened IntcSoftware

  /** Start-up code has set the priorities and unmasked the interrupts, and nothing has been requested, in
      a build with USER_INTR_PMR_BUGFIX. */
  function AfterSetup(prio: Priorities, cpu: Cpu): Intc {
    Intc(true, false, prio, {}, {}, {}, {}, [], map[], 0, None, cpu)
  }

  // ---------- short runs ----------

  lemma {:induction false} RunOn(s: Intc, a: seq<Event>, b: seq<Event>)
    ensures Run(s, a + b) == Run(Run(s, a), b)
    decreases |a|
  {
    if a == [] {
      assert a + b == b;
    } else {
      RunOn(Step(s, a[0]), a[1..], b);
      assert (a + b)[1..] == a[1..] + b;
    }
  }

  lemma RunOne(s: Intc, e: Event)
    ensures Run(s, [e]) == Step(s, e)
  {
    assert [e][1..] == [];
    assert Run(s, [e]) == Run(Step(s, e), []);
  }

  lemma RunTwo(s: Intc, e: Event, f: Event)
    ensures Run(s, [e, f]) == Step(Step(s, e), f)
  {
    assert [e, f][1..] == [f];
    assert Run(s, [e, f]) == Run(Step(s, e), [f]);
    RunOne(Step(s, e), f);
  }

  lemma RunThree(s: Intc, e: Event, f: Event, g: Event)
    ensures Run(s, [e, f, g]) == Step(Step(Step(s, e), f), g)
  {
    assert [e, f, g][1..] == [f, g];
    assert Run(s, [e, f, g]) == Run(Step(s, e), [f, g]);
    RunTwo(Step(s, e), f, g);
  }

  // ---------- one user interrupt ----------

  /** Interrupt number i is the only request, waiting in the user queue. */
  function Requested(prio: Priorities, i: Intno, cpu: Cpu): Intc {
    AfterSetup(prio, cpu).(reqFlag := {i}, user := [NewEntry(prio, UserIntr, i, Pending)])
  }

  /** It has been copied into the exception queue. */
  function Copied(prio: Priorities, i: Intno, cpu: Cpu): Intc {
    Requested(prio, i, cpu).(user := [NewEntry(prio, UserIntr, i, Runnable)],
                             pool := map[0 := NewEntry(prio, UserIntr, i, Runnable)], next := 1)
  }

  lemma JudgeRequested(prio: Priorities, i: Intno, cpu: Cpu)
    ensures JudgeUser(Requested(prio, i, cpu)) == Copied(prio, i, cpu.(halt := false))
  {
    var s := Requested(prio, i, cpu);
    assert Unmasked(s, 0) && forall j: nat | Unmasked(s, j) :: j == 0;
    UserChoiceUnique(s, 0);
    assert Lowest({}) == NUM_PRIORITIES;
  }

  lemma ChoiceOfCopied(prio: Priorities, i: Intno, cpu: Cpu)
    ensures Choice(Copied(prio, i, cpu)) == Some(0)
  {
    var s := Copied(prio, i, cpu);
    assert Lowest({}) == NUM_PRIORITIES;
    assert Eligible(s, 0);
    assert IsChoice(s, 0);
    ChoiceUnique(s, 0);
  }

  /** Its handler is running. */
  function Serving(prio: Priorities, i: Intno, cpu: Cpu, handler: nat): Intc {
    AfterSetup(prio, EnterCpu(cpu, ConfigOf(UserIntr), handler)).(
      ispr := {prio[i]}, pool := map[0 := NewEntry(prio, UserIntr, i, Running)], next := 1, current := Some(0))
  }

  lemma RequestTaken(prio: Priorities, i: Intno, cpu: Cpu, handler: nat)
    requires CanRaise(cpu.(halt := false), ConfigOf(UserIntr))
    ensures Clock(Requested(prio, i, cpu), handler) == Serving(prio, i, cpu, handler)
  {
    JudgeRequested(prio, i, cpu);
    var s := Copied(prio, i, cpu.(halt := false));
    ChoiceOfCopied(prio, i, cpu.(halt := false));
    var p := Switch(s.pool, None, 0);
    assert p == map[0 := NewEntry(prio, UserIntr, i, Running)];
    assert FindUser(s.user, i) == 0;
    assert RemoveAt(s.user, 0) == [];
    assert s.reqFlag - {i} == {} && s.ispr + {prio[i]} == {prio[i]};
  }

  lemma RequestMade(prio: Priorities, i: Intno, cpu: Cpu)
    ensures RaiseUser(AfterSetup(prio, cpu), i) == Requested(prio, i, cpu)
  {}

  /** A user interrupt taken while PSW.EP is set: nothing is queued after its return, and yet ISPR
      still shows its priority. */
  lemma EpLeavesBit(prio: Priorities, i: Intno, cpu: Cpu, handler: nat)
    requires cpu.psw.ep && !cpu.psw.id && !cpu.psw.np
    ensures var t := Run(AfterSetup(prio, cpu), [Request(i), Tick(handler), Eiret]);
            t.pool == map[] && t.user == [] && t.ispr == {prio[i]} && !IsprOk(t)
  {
    RunThree(AfterSetup(prio, cpu), Request(i), Tick(handler), Eiret);
    RequestMade(prio, i, cpu);
    RequestTaken(prio, i, cpu, handler);
    EiretLeavesBit(prio, i, cpu, handler);
  }

  lemma EiretLeavesBit(prio: Priorities, i: Intno, cpu: Cpu, handler: nat)
    requires cpu.psw.ep
    ensures var t := EiReturn(Serving(prio, i, cpu, handler));
            t.pool == map[] && t.user == [] && t.ispr == {prio[i]} && !IsprOk(t)
  {
    var t := EiReturn(Serving(prio, i, cpu, handler));
    assert t.pool == map[];
    assert !exists id :: Serves(t.pool, t.prio, id, prio[i]);
  }

  // ---------- withdrawing interrupt 0 ----------

  /** A PIE exception waits behind the handler of interrupt i. */
  function PieBehind(prio: Priorities, i: Intno, cpu: Cpu): Intc {
    AfterSetup(prio, cpu).(ispr := {prio[i]}, next := 2, current := Some(0),
                           pool := map[0 := NewEntry(prio, UserIntr, i, Running),
                                       1 := NewEntry(prio, Pie, 0, Runnable)])
  }

  lemma PieHeldBack(prio: Priorities, i: Intno, cpu: Cpu, handler: nat)
    ensures Clock(PieBehind(prio, i, cpu), handler) == PieBehind(prio, i, cpu)
  {
    var s := PieBehind(prio, i, cpu);
    assert JudgeUser(s) == s;
    assert forall id :: !Candidate(s, id);
    ChoiceExists(s);
  }

  /** Software clears the request bit of interrupt 0, which was not even set, while a PIE exception waits
      for the end of a user interrupt's handler.  The PIE exception is lost.  Request bits and queues
      agree before and after. */
  lemma PieLost(prio: Priorities, i: Intno, cpu: Cpu, handler: nat)
    requires !cpu.psw.id && !cpu.psw.np
    ensures var s := Run(AfterSetup(prio, cpu), [Request(i), Tick(handler)] + [Exception(Pie), Tick(handler)]);
            && AheadOfCopies(s.pool, 1) && Book(s) && 0 !in s.reqFlag
            && GuestClear(s, 0).pool == map[0 := NewEntry(prio, UserIntr, i, Running)] && Book(GuestClear(s, 0))
  {
    var c := EnterCpu(cpu, ConfigOf(UserIntr), handler);
    RunOn(AfterSetup(prio, cpu), [Request(i), Tick(handler)], [Exception(Pie), Tick(handler)]);
    RunTwo(AfterSetup(prio, cpu), Request(i), Tick(handler));
    RequestMade(prio, i, cpu);
    RequestTaken(prio, i, cpu, handler);
    RunTwo(Serving(prio, i, cpu, handler), Exception(Pie), Tick(handler));
    assert RaiseSystem(Serving(prio, i, cpu, handler), Pie) == PieBehind(prio, i, c);
    PieHeldBack(prio, i, c, handler);
    PieDeleted(prio, i, c);
  }

  lemma PieDeleted(prio: Priorities, i: Intno, cpu: Cpu)
    ensures var s := PieBehind(prio, i, cpu);
            && AheadOfCopies(s.pool, 1) && Book(s)
            && GuestClear(s, 0).pool == map[0 := NewEntry(prio, UserIntr, i, Running)] && Book(GuestClear(s, 0))
  {
    var s := PieBehind(prio, i, cpu);
    assert IsCleared(s.pool, 1, 0);
    assert GuestClear(s, 0).pool == map[0 := NewEntry(prio, UserIntr, i, Running)];
  }

  /** While PSW.ID holds interrupt 0 back a FENMI arrives.  Clearing the request bit of interrupt 0
      then deletes the FENMI, and the copy of the interrupt stays queued without any request.  The
      exceptions that the core raises come behind user interrupts, so that this takes another cause. */
  lemma CopyLeftBehind(prio: Priorities, cpu: Cpu, handler: nat)
    requires cpu.psw.id
    ensures var s := Run(AfterSetup(prio, cpu), [Request(0), Tick(handler), Exception(Fenmi)]);
            && Awaiting(s.pool, 1) && Book(s)
            && GuestClear(s, 0).pool == map[0 := NewEntry(prio, UserIntr, 0, Runnable)]
            && 0 !in GuestClear(s, 0).reqFlag && !Book(GuestClear(s, 0))
  {
    RunThree(AfterSetup(prio, cpu), Request(0), Tick(handler), Exception(Fenmi));
    RequestMade(prio, 0, cpu);
    RequestHeldBack(prio, 0, cpu, handler);
    FenmiDeleted(prio, cpu.(halt := false));
  }

  lemma RequestHeldBack(prio: Priorities, i: Intno, cpu: Cpu, handler: nat)
    requires cpu.psw.id
    ensures Clock(Requested(prio, i, cpu), handler) == Copied(prio, i, cpu.(halt := false))
  {
    JudgeRequested(prio, i, cpu);
    ChoiceOfCopied(prio, i, cpu.(halt := false));
  }

  lemma FenmiDeleted(prio: Priorities, cpu: Cpu)
    ensures var s := RaiseSystem(Copied(prio, 0, cpu), Fenmi);
            && Awaiting(s.pool, 1) && Book(s)
            && GuestClear(s, 0).pool == map[0 := NewEntry(prio, UserIntr, 0, Runnable)]
            && 0 !in GuestClear(s, 0).reqFlag && !Book(GuestClear(s, 0))
  {
    var s := RaiseSystem(Copied(prio, 0, cpu), Fenmi);
    assert s.pool == map[0 := NewEntry(prio, UserIntr, 0, Runnable), 1 := NewEntry(prio, Fenmi, 0, Runnable)];
    assert IsCleared(s.pool, 1, 0);
    var t := GuestClear(s, 0);
    assert t.pool == map[0 := NewEntry(prio, UserIntr, 0, Runnable)];
    assert s.user[0] == NewEntry(prio, UserIntr, 0, Runnable);
    assert HasRequest(s.user, 0) && HasRunnable(s.user, 0) && Queued(s.pool, 0, 0);
    assert Queued(t.pool, 0, 0) && t.user == [];
  }

  // ---------- two user interrupts ----------

  /** The handler of interrupt 7, of priority 5, has started; others are the remaining queue entries. */
  function Suspended(prio: Priorities, pmr: set<Priority>, status: Status, others: Pool, next: nat,
                     current: Option<nat>, cpu: Cpu): Intc
  {
    AfterSetup(prio, cpu).(ispr := {5}, pmr := pmr, pool := others[0 := NewEntry(prio, UserIntr, 7, status)],
                           next := next, current := current)
  }

  /** Interrupt 3, of priority 4, has interrupted it. */
  function Doubled(prio: Priorities, pmr: set<Priority>, cpu: Cpu): Intc {
    Suspended(prio, pmr, Waiting, map[1 := NewEntry(prio, UserIntr, 3, Running)], 2, Some(1), cpu).(ispr := {4, 5})
  }

  predicate TwoPriorities(prio: Priorities) {
    prio[7] == 5 && prio[3] == 4
  }

  /** PSW lets interrupts in and says that no exception is being handled. */
  predicate Open(cpu: Cpu) {
    !cpu.psw.id && !cpu.psw.np && !cpu.psw.ep
  }

  function SecondRequested(prio: Priorities, status: Status, others: Pool, next: nat, cpu: Cpu): Intc {
    Suspended(prio, {}, Running, others, next, Some(0), cpu).(
      reqFlag := {3}, user := [NewEntry(prio, UserIntr, 3, status)])
  }

  lemma JudgeSecond(prio: Priorities, cpu: Cpu)
    requires TwoPriorities(prio)
    ensures JudgeUser(SecondRequested(prio, Pending, map[], 1, cpu)) ==
            SecondRequested(prio, Runnable, map[1 := NewEntry(prio, UserIntr, 3, Runnable)], 2, cpu.(halt := false))
  {
    var s := SecondRequested(prio, Pending, map[], 1, cpu);
    assert Unmasked(s, 0) && forall j: nat | Unmasked(s, j) :: j == 0;
    UserChoiceUnique(s, 0);
    assert Lowest({}) == NUM_PRIORITIES && Lowest({5}) == 5;
  }

  lemma ChoiceOfSecond(prio: Priorities, cpu: Cpu)
    requires TwoPriorities(prio)
    ensures Choice(SecondRequested(prio, Runnable, map[1 := NewEntry(prio, UserIntr, 3, Runnable)], 2, cpu)) == Some(1)
  {
    var s := SecondRequested(prio, Runnable, map[1 := NewEntry(prio, UserIntr, 3, Runnable)], 2, cpu);
    assert Lowest({}) == NUM_PRIORITIES;
    assert Eligible(s, 1) && IsChoice(s, 1);
    ChoiceUnique(s, 1);
  }

  lemma SecondTaken(prio: Priorities, cpu: Cpu)
    requires TwoPriorities(prio) && Open(cpu)
    ensures var s := SecondRequested(prio, Pending, map[], 1, cpu);
            Entered(s) == Some(1) && Clock(s, 0) == Doubled(prio, {}, EnterCpu(cpu, ConfigOf(UserIntr), 0))
  {
    var c := cpu.(halt := false);
    JudgeSecond(prio, cpu);
    ChoiceOfSecond(prio, c);
    var s := SecondRequested(prio, Runnable, map[1 := NewEntry(prio, UserIntr, 3, Runnable)], 2, c);
    assert FindUser(s.user, 3) == 0 && RemoveAt(s.user, 0) == [];
    assert s.reqFlag - {3} == {} && s.ispr + {4} == {4, 5};
  }

  lemma SecondReturns(prio: Priorities, pmr: set<Priority>, cpu: Cpu)
    requires TwoPriorities(prio) && !cpu.eipsw.ep
    ensures EiReturn(Doubled(prio, pmr, cpu)) ==
            Suspended(prio, pmr, Waiting, map[], 2, None, cpu.(pc := cpu.eipc, psw := cpu.eipsw))
  {
    var s := Doubled(prio, pmr, cpu);
    assert Lowest({4, 5}) == 4 && {4, 5} - {4} == {5};
    assert s.pool - {1} == map[0 := NewEntry(prio, UserIntr, 7, Waiting)];
  }

  // ---------- overtaking ----------

  /** Interrupt 7 is suspended and masked by PMR, and a PIE exception is queued. */
  function Masked(prio: Priorities, cpu: Cpu): Intc {
    Suspended(prio, {5}, Waiting, map[2 := NewEntry(prio, Pie, 0, Runnable)], 3, None, cpu)
  }

  lemma PieOvertakes(prio: Priorities, cpu: Cpu)
    requires prio[7] == 5
    ensures var s := Masked(prio, cpu);
            && Inv(s) && !NoOvertaking(s, Tick(0))
            && Clock(s, 0) == Suspended(prio, {5}, Waiting, map[2 := NewEntry(prio, Pie, 0, Running)], 3, Some(2),
                                        EnterCpu(cpu, ConfigOf(Pie), 0))
  {
    var s := Masked(prio, cpu);
    assert Lowest({5}) == 5;
    assert JudgeUser(s) == s;
    assert !Eligible(s, 0) && IsChoice(s, 2);
    ChoiceUnique(s, 2);
    assert Before(s.pool, 0, 2);
  }

  lemma ResumedOverPie(prio: Priorities, cpu: Cpu)
    requires prio[7] == 5
    ensures var s := Suspended(prio, {}, Waiting, map[2 := NewEntry(prio, Pie, 0, Running)], 3, Some(2), cpu);
            Clock(s, 0) == Suspended(prio, {}, Running, map[2 := NewEntry(prio, Pie, 0, Running)], 3, Some(0), cpu)
  {
    var s := Suspended(prio, {}, Waiting, map[2 := NewEntry(prio, Pie, 0, Running)], 3, Some(2), cpu);
    assert Lowest({}) == NUM_PRIORITIES;
    assert JudgeUser(s) == s;
    assert Eligible(s, 0) && IsChoice(s, 0);
    ChoiceUnique(s, 0);
  }

  /** The handler of interrupt 7 enables interrupts, and interrupt 3 suspends it. */
  function Suspending(cpu: Cpu): seq<IntcRuns.Event> {
    [Request(7), Tick(0)] + [Software(cpu, {}, {}), Request(3), Tick(0)]
  }

  /** The handler of interrupt 3 returns, PMR is set to mask priority 5, and a PIE exception arrives. */
  function Masking(cpu: Cpu): seq<IntcRuns.Event> {
    [Eiret, Software(cpu, {5}, {}), Exception(Pie)]
  }

  lemma InHandler(prio: Priorities, cpu: Cpu)
    requires TwoPriorities(prio) && Open(cpu)
    ensures Run(AfterSetup(prio, cpu), [Request(7), Tick(0)]) ==
            Suspended(prio, {}, Running, map[], 1, Some(0), EnterCpu(cpu, ConfigOf(UserIntr), 0))
  {
    RunTwo(AfterSetup(prio, cpu), Request(7), Tick(0));
    RequestMade(prio, 7, cpu);
    RequestTaken(prio, 7, cpu, 0);
  }

  lemma BecomesDoubled(prio: Priorities, before: Cpu, cpu: Cpu)
    requires TwoPriorities(prio) && Open(cpu)
    ensures Run(Suspended(prio, {}, Running, map[], 1, Some(0), before),
            [Software(cpu, {}, {}), Request(3), Tick(0)]) ==
            Doubled(prio, {}, EnterCpu(cpu, ConfigOf(UserIntr), 0))
  {
    RunThree(Suspended(prio, {}, Running, map[], 1, Some(0), before), Software(cpu, {}, {}), Request(3), Tick(0));
    SecondEnters(prio, before, cpu);
  }

  lemma SecondEnters(prio: Priorities, before: Cpu, cpu: Cpu)
    requires TwoPriorities(prio) && Open(cpu)
    ensures var s := RaiseUser(Guest(Suspended(prio, {}, Running, map[], 1, Some(0), before), cpu, {}, {}), 3);
            Entered(s) == Some(1) && Clock(s, 0) == Doubled(prio, {}, EnterCpu(cpu, ConfigOf(UserIntr), 0))
  {
    SecondMade(prio, cpu);
    SecondTaken(prio, cpu);
  }

  lemma SecondMade(prio: Priorities, cpu: Cpu)
    ensures RaiseUser(Suspended(prio, {}, Running, map[], 1, Some(0), cpu), 3) ==
            SecondRequested(prio, Pending, map[], 1, cpu)
  {}

  lemma ReachesDoubled(prio: Priorities, cpu: Cpu)
    requires TwoPriorities(prio) && Open(cpu)
    ensures Run(AfterSetup(prio, cpu), Suspending(cpu)) == Doubled(prio, {}, EnterCpu(cpu, ConfigOf(UserIntr), 0))
  {
    RunOn(AfterSetup(prio, cpu), [Request(7), Tick(0)], [Software(cpu, {}, {}), Request(3), Tick(0)]);
    InHandler(prio, cpu);
    BecomesDoubled(prio, EnterCpu(cpu, ConfigOf(UserIntr), 0), cpu);
  }

  lemma BecomesMasked(prio: Priorities, before: Cpu, cpu: Cpu)
    requires TwoPriorities(prio) && !before.eipsw.ep
    ensures Run(Doubled(prio, {}, before), Masking(cpu)) == Masked(prio, cpu.(halt := false))
  {
    RunThree(Doubled(prio, {}, before), Eiret, Software(cpu, {5}, {}), Exception(Pie));
    SecondReturns(prio, {}, before);
  }

  lemma ReachesMasked(prio: Priorities, cpu: Cpu)
    requires TwoPriorities(prio) && Open(cpu)
    ensures Run(AfterSetup(prio, cpu), Suspending(cpu) + Masking(cpu)) == Masked(prio, cpu.(halt := false))
  {
    RunOn(AfterSetup(prio, cpu), Suspending(cpu), Masking(cpu));
    ReachesDoubled(prio, cpu);
    BecomesMasked(prio, EnterCpu(cpu, ConfigOf(UserIntr), 0), cpu);
  }

  lemma Reopened(prio: Priorities, cpu: Cpu, c: Cpu)
    requires prio[7] == 5
    ensures Guest(Clock(Masked(prio, c), 0), cpu, {}, {}) ==
            Suspended(prio, {}, Waiting, map[2 := NewEntry(prio, Pie, 0, Running)], 3, Some(2), cpu)
  {
    PieOvertakes(prio, c);
  }

  lemma ReopenedOverPie(prio: Priorities, cpu: Cpu, c: Cpu)
    requires prio[7] == 5
    ensures Run(Masked(prio, c), [Tick(0), Software(cpu, {}, {}), Tick(0)]).pool ==
            map[0 := NewEntry(prio, UserIntr, 7, Running), 2 := NewEntry(prio, Pie, 0, Running)]
  {
    RunThree(Masked(prio, c), Tick(0), Software(cpu, {}, {}), Tick(0));
    Reopened(prio, cpu, c);
    ResumedOverPie(prio, cpu);
  }

  /** Overtaking does happen under USER_INTR_PMR_BUGFIX.  After a run that has kept the nesting, the PIE
      handler starts while PMR masks the suspended interrupt; once PMR is open again the next clock
      resumes the interrupt although the PIE handler is running, and both are marked as running. */
  lemma PmrFixOvertakes(prio: Priorities, cpu: Cpu)
    requires TwoPriorities(prio) && Open(cpu)
    ensures Idle(AfterSetup(prio, cpu))
    ensures var s := Run(AfterSetup(prio, cpu), Suspending(cpu) + Masking(cpu));
            && Inv(s) && !NoOvertaking(s, Tick(0))
            && Run(s, [Tick(0), Software(cpu, {}, {}), Tick(0)]).pool ==
               map[0 := NewEntry(prio, UserIntr, 7, Running), 2 := NewEntry(prio, Pie, 0, Running)]
  {
    ReachesMasked(prio, cpu);
    PieOvertakes(prio, cpu.(halt := false));
    ReopenedOverPie(prio, cpu, cpu.(halt := false));
  }

  // ---------- handlers in progress ----------

  lemma {:induction false} ActsOn(m: Machine, a: seq<Act>, b: seq<Act>)
    ensures RunActs(m, a + b) == RunActs(RunActs(m, a), b)
    decreases |a|
  {
    if a == [] {
      assert a + b == b;
    } else {
      ActsOn(Next(m, a[0]), a[1..], b);
      assert (a + b)[1..] == a[1..] + b;
    }
  }

  lemma ActsTwo(m: Machine, a: Act, b: Act)
    ensures RunActs(m, [a, b]) == Next(Next(m, a), b)
  {
    assert [a, b][1..] == [b] && [b][1..] == [];
    assert RunActs(m, [a, b]) == RunActs(Next(m, a), [b]);
    assert RunActs(Next(m, a), [b]) == RunActs(Next(Next(m, a), b), []);
  }

  lemma ActsThree(m: Machine, a: Act, b: Act, c: Act)
    ensures RunActs(m, [a, b, c]) == Next(Next(Next(m, a), b), c)
  {
    assert [a, b, c][1..] == [b, c];
    assert RunActs(m, [a, b, c]) == RunActs(Next(m, a), [b, c]);
    ActsTwo(Next(m, a), b, c);
  }

  /** The handler of interrupt i begins. */
  function Beginning(i: Intno, handler: nat): seq<Act> {
    [Event(Request(i)), Event(Tick(handler))]
  }

  lemma EntryTaken(prio: Priorities, i: Intno, cpu: Cpu, handler: nat)
    requires CanRaise(cpu.(halt := false), ConfigOf(UserIntr))
    ensures Entered(Requested(prio, i, cpu)) == Some(0)
  {
    JudgeRequested(prio, i, cpu);
    ChoiceOfCopied(prio, i, cpu.(halt := false));
  }

  lemma HandlerBegins(prio: Priorities, i: Intno, cpu: Cpu, handler: nat)
    requires !cpu.psw.id && !cpu.psw.np
    ensures RunActs(Machine(AfterSetup(prio, cpu), []), Beginning(i, handler)) ==
            Machine(Serving(prio, i, cpu, handler), [Hardware(0)])
  {
    ActsTwo(Machine(AfterSetup(prio, cpu), []), Event(Request(i)), Event(Tick(handler)));
    RequestMade(prio, i, cpu);
    RequestTaken(prio, i, cpu, handler);
    EntryTaken(prio, i, cpu, handler);
    assert [] + [Hardware(0)] == [Hardware(0)];
  }

  lemma TrapAndReturn(prio: Priorities, i: Intno, cpu: Cpu, v: Vector)
    requires !cpu.psw.ep
    ensures var s := AfterSetup(prio, cpu).(
              ispr := {prio[i]}, pool := map[0 := NewEntry(prio, UserIntr, i, Running)], next := 1, current := Some(0));
            var m := RunActs(Machine(s, [Hardware(0)]), [Execution(Trap(v)), Event(Eiret)]);
            && m.open == [Hardware(0)]
            && m.s.pool == map[] && m.s.ispr == {} && m.s.current.None?
  {
    var s := AfterSetup(prio, cpu).(
      ispr := {prio[i]}, pool := map[0 := NewEntry(prio, UserIntr, i, Running)], next := 1, current := Some(0));
    ActsTwo(Machine(s, [Hardware(0)]), Execution(Trap(v)), Event(Eiret));
    assert s.pool - {0} == map[];
    assert Lowest({prio[i]}) == prio[i] && {prio[i]} - {prio[i]} == {};
    assert ([Hardware(0)] + [Trapped])[..1] == [Hardware(0)];
  }

  /** A handler that uses TRAP: when the trap returns, the controller drops the interrupt, although its
      handler goes on, and its priority disappears from ISPR. */
  lemma TrapEndsInterrupt(prio: Priorities, i: Intno, cpu: Cpu, handler: nat, v: Vector)
    requires !cpu.psw.id && !cpu.psw.np
    ensures var m := RunActs(Machine(AfterSetup(prio, cpu), []),
                             Beginning(i, handler) + [Execution(Trap(v)), Event(Eiret)]);
            && m.open == [Hardware(0)] && !Right(m)
            && m.s.pool == map[] && m.s.ispr == {} && m.s.current.None?
  {
    ActsOn(Machine(AfterSetup(prio, cpu), []), Beginning(i, handler), [Execution(Trap(v)), Event(Eiret)]);
    HandlerBegins(prio, i, cpu, handler);
    TrapAndReturn(prio, i, EnterCpu(cpu, ConfigOf(UserIntr), handler), v);
    HeldIs([Hardware(0)], 0);
  }

  /** The handler of interrupt 7 enables interrupts, and interrupt 3 suspends it. */
  function Interrupting(cpu: Cpu): seq<Act> {
    [Event(Software(cpu, {}, {})), Event(Request(3)), Event(Tick(0))]
  }

  /** The handler of interrupt 3 masks priority 5 by PMR, leaves it so and returns; interrupt 7 returns. */
  function LeavingMasked(cpu: Cpu): seq<Act> {
    [Event(Software(cpu, {5}, {})), Event(Eiret)] + [Event(Tick(0)), Event(Eiret)]
  }

  lemma SecondBegins(prio: Priorities, before: Cpu, cpu: Cpu)
    requires TwoPriorities(prio) && Open(cpu)
    ensures RunActs(Machine(Suspended(prio, {}, Running, map[], 1, Some(0), before), [Hardware(0)]),
            Interrupting(cpu)) ==
            Machine(Doubled(prio, {}, EnterCpu(cpu, ConfigOf(UserIntr), 0)), [Hardware(0), Hardware(1)])
  {
    var m := Machine(Suspended(prio, {}, Running, map[], 1, Some(0), before), [Hardware(0)]);
    ActsThree(m, Event(Software(cpu, {}, {})), Event(Request(3)), Event(Tick(0)));
    SecondEnters(prio, before, cpu);
    assert [Hardware(0)] + [Hardware(1)] == [Hardware(0), Hardware(1)];
  }

  lemma HiddenNotResumed(prio: Priorities, cpu: Cpu)
    requires prio[7] == 5
    ensures var s := Suspended(prio, {5}, Waiting, map[], 2, None, cpu);
            Entered(s).None? && Clock(s, 0) == s
  {
    var s := Suspended(prio, {5}, Waiting, map[], 2, None, cpu);
    assert Lowest({5}) == 5;
    assert JudgeUser(s) == s;
    ChoiceExists(s);
  }

  lemma SecondLeaves(prio: Priorities, before: Cpu, cpu: Cpu)
    requires TwoPriorities(prio) && !cpu.eipsw.ep
    ensures RunActs(Machine(Doubled(prio, {}, before), [Hardware(0), Hardware(1)]),
                    [Event(Software(cpu, {5}, {})), Event(Eiret)]) ==
            Machine(Suspended(prio, {5}, Waiting, map[], 2, None, cpu.(pc := cpu.eipc, psw := cpu.eipsw)),
                [Hardware(0)])
  {
    var m := Machine(Doubled(prio, {}, before), [Hardware(0), Hardware(1)]);
    ActsTwo(m, Event(Software(cpu, {5}, {})), Event(Eiret));
    SecondReturns(prio, {5}, cpu);
    assert [Hardware(0), Hardware(1)][..1] == [Hardware(0)];
  }

  lemma FirstLeaves(prio: Priorities, cpu: Cpu)
    requires prio[7] == 5
    ensures var m := RunActs(Machine(Suspended(prio, {5}, Waiting, map[], 2, None, cpu), [Hardware(0)]),
                             [Event(Tick(0)), Event(Eiret)]);
            && m.open == []
            && m.s.pool == map[0 := NewEntry(prio, UserIntr, 7, Waiting)] && m.s.ispr == {5}
  {
    var m := Machine(Suspended(prio, {5}, Waiting, map[], 2, None, cpu), [Hardware(0)]);
    ActsTwo(m, Event(Tick(0)), Event(Eiret));
    HiddenNotResumed(prio, cpu);
    assert [Hardware(0)][..0] == [];
  }

  /** A handler that leaves PMR set: the interrupt that it had suspended is hidden from the controller
      when it returns, so that its entry and its bit in ISPR stay although no handler is in progress. */
  lemma HiddenReturnIgnored(prio: Priorities, cpu: Cpu, inner: Cpu)
    requires TwoPriorities(prio) && Open(cpu) && !inner.eipsw.ep
    ensures var m := RunActs(Machine(AfterSetup(prio, cpu), []),
            Beginning(7, 0) + Interrupting(cpu) + LeavingMasked(inner));
            && m.open == [] && !Right(m)
            && m.s.pool == map[0 := NewEntry(prio, UserIntr, 7, Waiting)] && m.s.ispr == {5}
  {
    var m := Machine(AfterSetup(prio, cpu), []);
    var before := EnterCpu(cpu, ConfigOf(UserIntr), 0);
    ActsOn(m, Beginning(7, 0) + Interrupting(cpu), LeavingMasked(inner));
    ActsOn(m, Beginning(7, 0), Interrupting(cpu));
    HandlerBegins(prio, 7, cpu, 0);
    SecondBegins(prio, before, cpu);
    LeavesHidden(prio, before, inner);
    assert Held([]) == [];
  }

  lemma LeavesHidden(prio: Priorities, before: Cpu, cpu: Cpu)
    requires TwoPriorities(prio) && !cpu.eipsw.ep
    ensures var m := RunActs(Machine(Doubled(prio, {}, before), [Hardware(0), Hardware(1)]), LeavingMasked(cpu));
            && m.open == []
            && m.s.pool == map[0 := NewEntry(prio, UserIntr, 7, Waiting)] && m.s.ispr == {5}
  {
    ActsOn(Machine(Doubled(prio, {}, before), [Hardware(0), Hardware(1)]),
           [Event(Software(cpu, {5}, {})), Event(Eiret)], [Event(Tick(0)), Event(Eiret)]);
    SecondLeaves(prio, before, cpu);
    FirstLeaves(prio, cpu.(pc := cpu.eipc, psw := cpu.eipsw));
  }
}
