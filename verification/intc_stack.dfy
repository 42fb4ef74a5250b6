/** The controller refines a stack of started entries: a clock pushes the exception it enters, a return
    pops the top, and whatever is resumed is the entry that was suspended last. */
module IntcStack {
  import opened Common
  import opened IntcTypes
  import opened IntcSpec
  import opened IntcNesting

  /** The started exceptions in the order in which they started. */
  ghost predicate IsStack(pool: Pool, current: Option<nat>, stack: seq<nat>) {
    && (forall i :: 0 <= i < |stack| ==> stack[i] in pool && Started(pool[stack[i]]))
    && (forall id :: id in pool && Started(pool[id]) ==> id in stack)
    && (forall i, j :: 0 <= i < j < |stack| ==> Before(pool, stack[j], stack[i]))
    && (current.Some? ==> |stack| > 0 && stack[|stack| - 1] == current.value)
  }

  /** The exception a dispatch enters, if it enters one. */
  ghost function Admitted(s: Intc): (x: Option<nat>)
    ensures x.Some? ==> x.value in s.pool
  {
    match Choice(s)
    case None => None
    case Some(x) => if s.pool[x].status.Runnable? && CanRaise(s.cpu, s.pool[x].req) then Some(x) else None
  }

  /** The exception a clock enters. */
  ghost function Entered(s: Intc): (x: Option<nat>)
    ensures x.Some? ==> x.value in JudgeUser(s).pool
  {
    Admitted(JudgeUser(s))
  }

  function PushSome(stack: seq<nat>, x: Option<nat>): seq<nat> {
    match x case None => stack case Some(id) => stack + [id]
  }

  ghost function PushEntered(s: Intc, stack: seq<nat>): seq<nat> { PushSome(stack, Entered(s)) }

  lemma JudgeUserKeepsStack(s: Intc, stack: seq<nat>)
    requires Inv(s) && IsStack(s.pool, s.current, stack)
    ensures IsStack(JudgeUser(s).pool, s.current, stack)
  {}

  lemma SwitchPushes(s: Intc, stack: seq<nat>, x: nat)
    requires Inv(s) && IsStack(s.pool, s.current, stack)
    requires x in s.pool && s.pool[x].status.Runnable?
    requires forall y :: y in s.pool && y != x && Started(s.pool[y]) ==> Before(s.pool, x, y)
    ensures IsStack(Switch(s.pool, s.current, x), Some(x), stack + [x])
  {
    assert s.current.Some? ==> s.current.value in stack;
  }

  lemma ResumeKeepsStack(s: Intc, stack: seq<nat>, x: nat)
    requires Inv(s) && IsStack(s.pool, s.current, stack)
    requires s.current.None? && x in s.pool && s.pool[x].status.Waiting?
    requires forall y :: y in s.pool && y != x && Started(s.pool[y]) ==> Before(s.pool, x, y)
    ensures IsStack(SetStatus(s.pool, x, Running), Some(x), stack)
  {
    var i :| 0 <= i < |stack| && stack[i] == x;
    if i < |stack| - 1 {
      BeforeTotal(s.pool, x, stack[|stack| - 1]);
    }
  }

  lemma SuspendKeepsStack(s: Intc, stack: seq<nat>)
    requires Inv(s) && IsStack(s.pool, s.current, stack)
    ensures IsStack(Suspend(s.pool, s.current), s.current, stack)
  {}

  lemma EnterKeepsNesting(s: Intc, e: Entry, handler: nat)
    ensures Enter(s, e, handler).pool == s.pool && Enter(s, e, handler).current == s.current
  {}

  lemma TakeOnStack(s: Intc, stack: seq<nat>, x: nat, handler: nat)
    requires Inv(s) && !Overtakes(s) && IsStack(s.pool, s.current, stack) && Choice(s) == Some(x)
    ensures IsStack(Take(s, x, handler).pool, Take(s, x, handler).current, PushSome(stack, Admitted(s)))
  {
    DispatchChoice(s, x);
    if Taken(s, x) {
      ChoiceOutranksStarted(s, x);
    }
    if s.pool[x].status.Waiting? {
      ResumeKeepsStack(s, stack, x);
    } else if CanRaise(s.cpu, s.pool[x].req) {
      SwitchPushes(s, stack, x);
      EnterKeepsNesting(s.(pool := Switch(s.pool, s.current, x), current := Some(x)), s.pool[x], handler);
    } else {
      SuspendKeepsStack(s, stack);
    }
  }

  lemma DispatchOnStack(s: Intc, stack: seq<nat>, handler: nat)
    requires Inv(s) && !Overtakes(s) && IsStack(s.pool, s.current, stack)
    ensures IsStack(Dispatch(s, handler).pool, Dispatch(s, handler).current, PushSome(stack, Admitted(s)))
  {
    if Choice(s).Some? {
      TakeOnStack(s, stack, Choice(s).value, handler);
    }
  }

  /** One clock on the stack: a push when an exception is entered, and otherwise no change.  In both
      cases whatever is current afterwards is the top. */
  lemma ClockOnStack(s: Intc, stack: seq<nat>, handler: nat)
    requires Inv(s) && !Overtakes(JudgeUser(s)) && IsStack(s.pool, s.current, stack)
    ensures IsStack(Clock(s, handler).pool, Clock(s, handler).current, PushEntered(s, stack))
  {
    JudgeUserKeepsInv(s);
    JudgeUserKeepsStack(s, stack);
    DispatchOnStack(JudgeUser(s), stack, handler);
  }

  lemma TopIsNoOther(p: Pool, stack: seq<nat>, current: nat)
    requires IsStack(p, Some(current), stack)
    ensures forall i :: 0 <= i < |stack| - 1 ==> stack[i] != current
  {
    var n := |stack| - 1;
    forall i | 0 <= i < n ensures stack[i] != current {
      BeforeTotal(p, stack[n], stack[i]);
    }
  }

  lemma PopKeepsStack(p: Pool, stack: seq<nat>, current: nat)
    requires IsStack(p, Some(current), stack)
    ensures IsStack(p - {current}, None, stack[..|stack| - 1])
  {
    TopIsNoOther(p, stack, current);
    var rest := stack[..|stack| - 1];
    assert forall i :: 0 <= i < |rest| ==> rest[i] == stack[i];
    forall id | id in p - {current} && Started(p[id]) ensures id in rest {
      var i :| 0 <= i < |stack| && stack[i] == id;
      assert rest[i] == id;
    }
  }

  /** A return pops exactly the top, and does nothing when no entry is current. */
  lemma ReturnPops(s: Intc, stack: seq<nat>)
    requires Inv(s) && IsStack(s.pool, s.current, stack)
    ensures var t := Pop(s);
            if s.current.None? then t == s
            else
              && |stack| > 0 && s.current == Some(stack[|stack| - 1])
              && IsStack(t.pool, t.current, stack[..|stack| - 1])
  {
    if s.current.Some? {
      PopKeepsStack(s.pool, stack, s.current.value);
    }
  }

  /** A suspended handler that PMR does not hide is resumed on the first clock after a return on which
      nothing more urgent is eligible: the clock makes the top of the stack current again. */
  lemma ResumesLastSuspended(s: Intc, stack: seq<nat>, handler: nat)
    requires Inv(s) && IsStack(s.pool, s.current, stack)
    requires s.current.None? && stack != []
    requires var j := JudgeUser(s);
             && Eligible(j, stack[|stack| - 1])
             && forall id :: Eligible(j, id) && j.pool[id].status.Runnable? ==> Before(j.pool, stack[|stack| - 1], id)
    ensures Clock(s, handler).current == Some(stack[|stack| - 1])
    ensures Clock(s, handler).cpu == JudgeUser(s).cpu
  {
    var j := JudgeUser(s);
    var top := stack[|stack| - 1];
    JudgeUserKeepsInv(s);
    JudgeUserKeepsStack(s, stack);
    assert Candidate(j, top);
    forall y | Candidate(j, y) && y != top ensures Before(j.pool, top, y) {
      if Started(j.pool[y]) {
        assert y in stack;
      }
    }
    ChoiceUnique(j, top);
  }
}
