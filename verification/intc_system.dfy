/** Queued exceptions of other causes than user interrupts: which of them a withdrawn user request
    deletes, and their conservation over whole runs. */
module IntcSystem {
  import opened Common
  import opened IntcTypes
  import opened IntcSpec
  import opened IntcNesting
  import opened IntcStack
  import opened IntcRequests
  import opened IntcRuns

  // ---------- withdrawing a user request ----------

  /** Withdrawing a user request keeps every exception of another cause if and only if the request is
      not one of interrupt 0, or no such exception is listed ahead of the copies of interrupt 0.  An
      exception that is lost is such a one. */
  lemma WithdrawalSpares(s: Intc, intno: Intno)
    requires Inv(s)
    ensures (forall id :: Awaiting(s.pool, id) ==> Awaiting(GuestClear(s, intno).pool, id)) <==>
            intno != 0 || forall id :: !AheadOfCopies(s.pool, id)
    ensures forall id :: Awaiting(s.pool, id) && !Awaiting(GuestClear(s, intno).pool, id) ==> AheadOfCopies(s.pool, id)
  {
    var t := GuestClear(s, intno);
    var c := Cleared(s.pool, intno);
    ClearedExists(s.pool, intno);
    HitsWhenAhead(s, intno);
    if HitsSystem(s.pool, intno) {
      assert Awaiting(s.pool, c.value) && !Awaiting(t.pool, c.value);
    }
  }

  // ---------- conservation ----------

  function AwaitingOf(pool: Pool, x: Exno): set<nat> {
    set id | id in pool && pool[id].exno == x && pool[id].status.Runnable?
  }

  ghost predicate Enters(s: Intc, e: Event, x: Exno) {
    e.Tick? && Entered(s).Some? && JudgeUser(s).pool[Entered(s).value].exno == x
  }

  ghost predicate Deletes(s: Intc, e: Event, x: Exno) {
    e.Withdraw? && Cleared(s.pool, e.intno).Some? && s.pool[Cleared(s.pool, e.intno).value].exno == x
  }

  ghost function RaisedIn(s: Intc, es: seq<Event>, x: Exno): nat
    decreases |es|
  {
    if es == [] then 0 else (if es[0] == Exception(x) then 1 else 0) + RaisedIn(Step(s, es[0]), es[1..], x)
  }

  ghost function EnteredIn(s: Intc, es: seq<Event>, x: Exno): nat
    decreases |es|
  {
    if es == [] then 0 else (if Enters(s, es[0], x) then 1 else 0) + EnteredIn(Step(s, es[0]), es[1..], x)
  }

  ghost function DeletedIn(s: Intc, es: seq<Event>, x: Exno): nat
    decreases |es|
  {
    if es == [] then 0 else (if Deletes(s, es[0], x) then 1 else 0) + DeletedIn(Step(s, es[0]), es[1..], x)
  }

  lemma AdmitKeepsAwaiting(s: Intc, k: nat, x: Exno)
    requires k < |s.user| && s.user[k].exno.UserIntr? && s.next !in s.pool && !x.UserIntr?
    ensures AwaitingOf(Admit(s, k).pool, x) == AwaitingOf(s.pool, x)
  {}

  lemma JudgeUserKeepsAwaiting(s: Intc, x: Exno)
    requires Inv(s) && !x.UserIntr?
    ensures AwaitingOf(JudgeUser(s).pool, x) == AwaitingOf(s.pool, x)
  {
    if UserChoice(s).Some? && !s.user[UserChoice(s).value].status.Runnable? {
      AdmitKeepsAwaiting(s.(cpu := s.cpu.(halt := false)), UserChoice(s).value, x);
    }
  }

  lemma StartedNotAwaiting(p: Pool, id: nat, status: Status, x: Exno)
    requires id in p && !status.Runnable?
    ensures AwaitingOf(SetStatus(p, id, status), x) == AwaitingOf(p, x) - {id}
  {}

  lemma SuspendKeepsAwaiting(s: Intc, x: Exno)
    requires Inv(s)
    ensures AwaitingOf(Suspend(s.pool, s.current), x) == AwaitingOf(s.pool, x)
  {
    if s.current.Some? {
      StartedNotAwaiting(s.pool, s.current.value, Waiting, x);
      assert s.current.value !in AwaitingOf(s.pool, x);
    }
  }

  lemma TakeChangesAwaiting(s: Intc, y: nat, handler: nat, x: Exno)
    requires Inv(s) && y in s.pool
    ensures AwaitingOf(Take(s, y, handler).pool, x) ==
            AwaitingOf(s.pool, x) - (if s.pool[y].status.Runnable? && CanRaise(s.cpu, s.pool[y].req) then {y} else {})
  {
    SuspendKeepsAwaiting(s, x);
    if s.pool[y].status.Waiting? {
      StartedNotAwaiting(s.pool, y, Running, x);
      assert y !in AwaitingOf(s.pool, x);
    } else if CanRaise(s.cpu, s.pool[y].req) {
      StartedNotAwaiting(Suspend(s.pool, s.current), y, Running, x);
      EnterKeepsNesting(s.(pool := Switch(s.pool, s.current, y), current := Some(y)), s.pool[y], handler);
      assert s.pool[y].status.Running? ==> y !in AwaitingOf(s.pool, x);
    }
  }

  lemma DispatchBalancesSystem(s: Intc, handler: nat, x: Exno)
    requires Inv(s)
    ensures |AwaitingOf(Dispatch(s, handler).pool, x)| +
            (if Admitted(s).Some? && s.pool[Admitted(s).value].exno == x then 1 else 0) == |AwaitingOf(s.pool, x)|
  {
    if Choice(s).Some? {
      var y := Choice(s).value;
      TakeChangesAwaiting(s, y, handler, x);
      assert y in AwaitingOf(s.pool, x) <==> s.pool[y].status.Runnable? && s.pool[y].exno == x;
    }
  }

  lemma ClockBalancesSystem(s: Intc, handler: nat, x: Exno)
    requires Inv(s) && !x.UserIntr?
    ensures |AwaitingOf(Clock(s, handler).pool, x)| + (if Enters(s, Tick(handler), x) then 1 else 0) ==
            |AwaitingOf(s.pool, x)|
  {
    JudgeUserKeepsInv(s);
    JudgeUserKeepsAwaiting(s, x);
    DispatchBalancesSystem(JudgeUser(s), handler, x);
  }

  lemma RaiseAwaiting(p: Pool, id: nat, e: Entry, x: Exno)
    requires id !in p && e.status.Runnable?
    ensures |AwaitingOf(p[id := e], x)| == |AwaitingOf(p, x)| + if e.exno == x then 1 else 0
  {
    assert AwaitingOf(p[id := e], x) == AwaitingOf(p, x) + if e.exno == x then {id} else {};
  }

  lemma DropAwaiting(p: Pool, id: nat, x: Exno)
    requires id in p
    ensures |AwaitingOf(p - {id}, x)| + (if p[id].exno == x && p[id].status.Runnable? then 1 else 0) ==
            |AwaitingOf(p, x)|
  {
    assert AwaitingOf(p - {id}, x) == AwaitingOf(p, x) - {id};
  }

  lemma PopKeepsAwaiting(s: Intc, x: Exno)
    requires Inv(s)
    ensures |AwaitingOf(Pop(s).pool, x)| == |AwaitingOf(s.pool, x)|
  {
    if s.current.Some? {
      DropAwaiting(s.pool, s.current.value, x);
    }
  }

  lemma WithdrawalBalancesSystem(s: Intc, i: Intno, x: Exno)
    ensures |AwaitingOf(GuestClear(s, i).pool, x)| + (if Deletes(s, Withdraw(i), x) then 1 else 0) ==
            |AwaitingOf(s.pool, x)|
  {
    if Cleared(s.pool, i).Some? {
      DropAwaiting(s.pool, Cleared(s.pool, i).value, x);
    }
  }

  lemma StepBalancesSystem(s: Intc, e: Event, x: Exno)
    requires Inv(s) && !x.UserIntr?
    ensures |AwaitingOf(Step(s, e).pool, x)| + (if Enters(s, e, x) then 1 else 0) + (if Deletes(s, e, x) then 1 else 0)
         == |AwaitingOf(s.pool, x)| + (if e == Exception(x) then 1 else 0)
  {
    match e {
      case Exception(y) => RaiseAwaiting(s.pool, s.next, NewEntry(s.prio, y, 0, Runnable), x);
      case Tick(h) => ClockBalancesSystem(s, h, x);
      case Withdraw(i) => WithdrawalBalancesSystem(s, i, x);
      case Feret => PopKeepsAwaiting(s, x);
      case Eiret => PopKeepsAwaiting(s, x);
      case Request(_) =>
      case Software(_, _, _) =>
    }
  }

  /** Conservation of exceptions over all runs, cause by cause: every exception raised is entered
      once, or deleted by the withdrawal of a user request, or still queued. */
  lemma {:induction false} ExceptionsConserved(s: Intc, es: seq<Event>, x: Exno)
    requires Inv(s) && Along(s, es, NoOvertaking) && !x.UserIntr?
    ensures |AwaitingOf(s.pool, x)| + RaisedIn(s, es, x) ==
            EnteredIn(s, es, x) + DeletedIn(s, es, x) + |AwaitingOf(Run(s, es).pool, x)|
    decreases |es|
  {
    if es != [] {
      StepKeepsInv(s, es[0]);
      StepBalancesSystem(s, es[0], x);
      ExceptionsConserved(Step(s, es[0]), es[1..], x);
    }
  }

  ghost predicate SparingGuard(s: Intc, e: Event) {
    NoOvertaking(s, e) && (e == Withdraw(0) ==> forall id :: !AheadOfCopies(s.pool, id))
  }

  /** No exception is ever lost while no request of interrupt 0 is withdrawn behind one. */
  lemma {:induction false} NoneDeleted(s: Intc, es: seq<Event>, x: Exno)
    requires Inv(s) && Along(s, es, SparingGuard) && !x.UserIntr?
    ensures DeletedIn(s, es, x) == 0
    decreases |es|
  {
    if es != [] {
      StepKeepsInv(s, es[0]);
      if es[0].Withdraw? {
        HitsWhenAhead(s, es[0].intno);
      }
      NoneDeleted(Step(s, es[0]), es[1..], x);
    }
  }

  // ---------- the causes that the core raises ----------

  /** An illegal access of the core raises one of these, and nothing else raises an exception. */
  predicate CoreCause(x: Exno) {
    x.Pie? || x.Mip? || x.Mdp?
  }

  ghost predicate CoreRaises(s: Intc, e: Event) {
    e.Exception? ==> CoreCause(e.exno)
  }

  ghost predicate OnlyCore(p: Pool) {
    forall id :: id in p && !p[id].exno.UserIntr? ==> CoreCause(p[id].exno)
  }

  /** The lists hold these causes behind every user interrupt, so that a withdrawal hits one of them only
      when the request withdrawn has no copy. */
  lemma WithdrawalOrderly(s: Intc, i: Intno)
    requires Inv(s) && Book(s) && OnlyCore(s.pool)
    ensures OrderlyRequests(s, Withdraw(i))
  {
    if HasRunnable(s.user, 0) {
      var y :| Queued(s.pool, y, 0);
      forall id | Awaiting(s.pool, id) ensures !AheadOfCopies(s.pool, id) {
        assert EntryOk(s.prio, s.pool[id]) && EntryOk(s.prio, s.pool[y]);
        assert !ListedBefore(s.pool, id, y);
      }
    }
  }

  lemma StatusKeepsOnlyCore(p: Pool, id: nat, status: Status)
    requires id in p && OnlyCore(p)
    ensures OnlyCore(SetStatus(p, id, status))
  {}

  lemma DispatchKeepsOnlyCore(s: Intc, handler: nat)
    requires OnlyCore(s.pool)
    ensures OnlyCore(Dispatch(s, handler).pool)
  {
    if Choice(s).Some? {
      var x := Choice(s).value;
      StatusKeepsOnlyCore(s.pool, x, Running);
      if s.current.Some? && s.current.value in s.pool {
        StatusKeepsOnlyCore(s.pool, s.current.value, Waiting);
      }
      StatusKeepsOnlyCore(Suspend(s.pool, s.current), x, Running);
      EnterKeepsNesting(s.(pool := Switch(s.pool, s.current, x), current := Some(x)), s.pool[x], handler);
    }
  }

  lemma StepKeepsOnlyCore(s: Intc, e: Event)
    requires Inv(s) && OnlyCore(s.pool) && CoreRaises(s, e)
    ensures OnlyCore(Step(s, e).pool)
  {
    if e.Tick? {
      assert OnlyCore(JudgeUser(s).pool);
      DispatchKeepsOnlyCore(JudgeUser(s), e.handler);
    }
  }

  /** With the exceptions that the core does raise, requests are orderly in every run: none loses its
      copy, and the theorems on requests and on ISPR need no guard on withdrawals. */
  lemma {:induction false} CoreRunsOrderly(s: Intc, es: seq<Event>)
    requires Inv(s) && Book(s) && OnlyCore(s.pool)
    requires Along(s, es, NoOvertaking) && Along(s, es, CoreRaises)
    ensures Along(s, es, OrderlyRequests) && Along(s, es, BookGuard)
    ensures Along(s, es, MatchingReturn) ==> Along(s, es, IsprGuard)
    decreases |es|
  {
    if es != [] {
      if es[0].Withdraw? {
        WithdrawalOrderly(s, es[0].intno);
      }
      StepKeepsInv(s, es[0]);
      StepKeepsBook(s, es[0]);
      StepKeepsOnlyCore(s, es[0]);
      CoreRunsOrderly(Step(s, es[0]), es[1..]);
    }
  }
}
