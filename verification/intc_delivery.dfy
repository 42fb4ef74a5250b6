/** When a request is delivered, and what a return undoes. */
module IntcDelivery {
  import opened Common
  import opened IntcTypes
  import opened IntcSpec
  import opened IntcNesting
  import opened IntcRequests
  import opened IntcIspr

  /** Neither ISPR nor PMR holds back the request that the user queue offers. */
  predicate Admissible(s: Intc, k: nat)
    requires k < |s.user|
  {
    s.prio[s.user[k].intno] < Lowest(s.ispr) && s.prio[s.user[k].intno] < Lowest(s.pmr)
  }

  /** Everything else that is eligible ranks behind the entry, and so does the current entry. */
  ghost predicate MostUrgent(s: Intc, e: Entry) {
    && (forall id :: Eligible(s, id) ==>
          e.req.level < s.pool[id].req.level || (e.req.level == s.pool[id].req.level && e.degree < s.pool[id].degree))
    && (s.current.Some? && s.current.value in s.pool ==>
          e.req.level <= s.pool[s.current.value].req.level && e.degree < s.pool[s.current.value].degree)
  }

  lemma AdmittedIsChoice(s: Intc, k: nat)
    requires Inv(s) && k < |s.user| && Admissible(s, k) && MostUrgent(s, s.user[k])
    ensures Choice(Admit(s, k)) == Some(s.next)
  {
    var t := Admit(s, k);
    assert t.pool[s.next] == s.user[k].(status := Runnable);
    forall y | Candidate(t, y) && y != s.next ensures Before(t.pool, s.next, y) {
      assert Eligible(s, y);
    }
    assert IsChoice(t, s.next);
    ChoiceUnique(t, s.next);
  }

  /** What entering a queued user interrupt does. */
  lemma UserEntry(s: Intc, x: nat, handler: nat)
    requires Inv(s) && Book(s) && InLine(s.pool, x)
    requires CanRaise(s.cpu, s.pool[x].req)
    ensures var t := Take(s, x, handler);
            var i := s.pool[x].intno;
            && t.current == Some(x)
            && t.pool == Switch(s.pool, s.current, x)
            && i !in t.reqFlag && t.reqFlag == s.reqFlag - {i}
            && t.ispr == (if s.ispc then s.ispr else s.ispr + {s.prio[i]})
            && t.cpu == s.cpu.(eipc := s.cpu.pc, eipsw := s.cpu.psw, pc := handler, halt := false,
                               psw := s.cpu.psw.(um := false, id := true, ep := false))
  {
    RequestFound(s, x);
  }

  lemma AdmittedEnters(s: Intc, k: nat, handler: nat)
    requires Inv(s) && Book(s) && k < |s.user| && s.user[k].status.Pending?
    requires Admissible(s, k) && MostUrgent(s, s.user[k]) && !s.cpu.psw.id && !s.cpu.psw.np
    ensures Choice(Admit(s, k)) == Some(s.next)
    ensures var t := Take(Admit(s, k), s.next, handler);
            var i := s.user[k].intno;
            && t.current == Some(s.next)
            && s.next in t.pool && t.pool[s.next] == s.user[k].(status := Running)
            && i !in t.reqFlag && t.reqFlag == s.reqFlag - {i}
            && t.ispr == (if s.ispc then s.ispr else s.ispr + {s.prio[i]})
            && t.cpu == s.cpu.(eipc := s.cpu.pc, eipsw := s.cpu.psw, pc := handler, halt := false,
                               psw := s.cpu.psw.(um := false, id := true, ep := false))
  {
    AdmittedIsChoice(s, k);
    AdmitKeepsInv(s, k);
    AdmitKeepsBook(s, k);
    UserEntry(Admit(s, k), s.next, handler);
  }

  /** An unmasked request that leads the user queue, passes ISPR and PMR and is the most urgent one is
      entered on the very next clock when PSW accepts it: the clock consumes the request, records its
      priority in service, saves the interrupted PC and PSW and jumps to the handler. */
  lemma DeliveredAtOnce(s: Intc, k: nat, handler: nat)
    requires Inv(s) && Book(s)
    requires UserChoice(s) == Some(k) && s.user[k].status.Pending?
    requires Admissible(s, k) && MostUrgent(s, s.user[k])
    requires !s.cpu.psw.id && !s.cpu.psw.np
    ensures var t := Clock(s, handler);
            var i := s.user[k].intno;
            && t.current == Some(s.next)
            && s.next in t.pool && t.pool[s.next] == s.user[k].(status := Running)
            && i !in t.reqFlag && t.reqFlag == s.reqFlag - {i}
            && t.ispr == (if s.ispc then s.ispr else s.ispr + {s.prio[i]})
            && t.cpu == s.cpu.(eipc := s.cpu.pc, eipsw := s.cpu.psw, pc := handler, halt := false,
                               psw := s.cpu.psw.(um := false, id := true, ep := false))
  {
    var s0 := s.(cpu := s.cpu.(halt := false));
    assert MostUrgent(s0, s.user[k]) by {
      assert forall id :: Eligible(s0, id) <==> Eligible(s, id);
    }
    AdmittedEnters(s0, k, handler);
  }

  /** A core halted with interrupts disabled is woken by a deliverable user request but does not take
      it: the halt flag is dropped before PSW is looked at. */
  lemma HaltedWithIdWakesOnly(s: Intc, k: nat, handler: nat)
    requires Inv(s) && s.current.None?
    requires UserChoice(s) == Some(k) && s.user[k].status.Pending?
    requires Admissible(s, k) && MostUrgent(s, s.user[k])
    requires s.cpu.psw.id && s.cpu.halt
    ensures Clock(s, handler).cpu == s.cpu.(halt := false)
    ensures Clock(s, handler).current.None? && Clock(s, handler).ispr == s.ispr
  {
    var s0 := s.(cpu := s.cpu.(halt := false));
    assert MostUrgent(s0, s.user[k]) by {
      assert forall id :: Eligible(s0, id) <==> Eligible(s, id);
    }
    AdmittedIsChoice(s0, k);
    assert JudgeUser(s) == Admit(s0, k);
  }

  /** The state after entry x has been taken and its handler has returned: FE-level exceptions return
      by FERET, all others by EIRET. */
  function TakeAndReturn(s: Intc, x: nat, handler: nat): Intc
    requires x in s.pool
  {
    if s.pool[x].req.handling.FE? then FeReturn(Take(s, x, handler)) else EiReturn(Take(s, x, handler))
  }

  ghost predicate Undone(s: Intc, x: nat, u: Intc) {
    && u.cpu.pc == s.cpu.pc && u.cpu.psw == s.cpu.psw
    && u.pool == Suspend(s.pool, s.current) - {x} && u.current.None?
    && u.ispr == s.ispr
  }

  lemma SwitchWithout(p: Pool, current: Option<nat>, x: nat)
    requires x in p
    ensures Switch(p, current, x) - {x} == Suspend(p, current) - {x}
  {}

  /** From any state t in which an exception x of another cause has just been entered from s. */
  lemma SystemReturnIs(s: Intc, x: nat, t: Intc, fe: bool)
    requires t.current == Some(x) && x in t.pool && !t.pool[x].exno.UserIntr?
    requires t.pool - {x} == Suspend(s.pool, s.current) - {x} && t.ispr == s.ispr
    requires if fe then t.cpu.fepc == s.cpu.pc && t.cpu.fepsw == s.cpu.psw
             else t.cpu.eipc == s.cpu.pc && t.cpu.eipsw == s.cpu.psw
    ensures Undone(s, x, if fe then FeReturn(t) else EiReturn(t))
  {}

  lemma SystemReturnUndoesEntry(s: Intc, x: nat, handler: nat)
    requires x in s.pool && s.pool[x].status.Runnable? && !s.pool[x].exno.UserIntr?
    requires CanRaise(s.cpu, s.pool[x].req)
    requires s.current != Some(x)
    ensures Undone(s, x, TakeAndReturn(s, x, handler))
  {
    SwitchWithout(s.pool, s.current, x);
    SystemReturnIs(s, x, Take(s, x, handler), s.pool[x].req.handling.FE?);
  }

  lemma LowestAdded(ispr: set<Priority>, d: Priority)
    requires forall e :: e in ispr ==> d < e
    ensures Lowest(ispr + {d}) == d && ispr + {d} - {d} == ispr && ispr + {d} != ispr
  {
    assert d in ispr + {d};
  }

  lemma EiretOfUser(t: Intc)
    requires CurrentIsUser(t)
    ensures var u := EiReturn(t);
            && u.cpu.pc == t.cpu.eipc && u.cpu.psw == t.cpu.eipsw
            && u.pool == t.pool - {t.current.value} && u.current.None?
            && u.ispr == if t.ispc || t.cpu.eipsw.ep then t.ispr else t.ispr - {Lowest(t.ispr)}
  {}

  /** The state t in which user interrupt x has just been entered from s. */
  ghost predicate UserEntered(s: Intc, x: nat, t: Intc, d: Priority) {
    && t.current == Some(x) && x in t.pool && t.pool[x].exno.UserIntr? &&
        t.pool - {x} == Suspend(s.pool, s.current) - {x}
    && t.ispc == s.ispc && t.ispr == (if s.ispc then s.ispr else s.ispr + {d})
    && t.cpu.eipc == s.cpu.pc && t.cpu.eipsw == s.cpu.psw
  }

  lemma UserReturnIs(s: Intc, x: nat, t: Intc, d: Priority)
    requires UserEntered(s, x, t, d) && CurrentIsUser(t) && forall e :: e in s.ispr ==> d < e
    ensures Undone(s, x, EiReturn(t)) <==> s.ispc || !s.cpu.psw.ep
  {
    LowestAdded(s.ispr, d);
    EiretOfUser(t);
  }

  lemma UserEnteredByTake(s: Intc, x: nat, handler: nat)
    requires Inv(s) && Book(s) && InLine(s.pool, x)
    requires CanRaise(s.cpu, s.pool[x].req)
    ensures UserEntered(s, x, Take(s, x, handler), s.prio[s.pool[x].intno]) && CurrentIsUser(Take(s, x, handler))
  {
    UserEntry(s, x, handler);
    SwitchWithout(s.pool, s.current, x);
  }

  lemma OutranksIspr(s: Intc, d: Priority)
    requires IsprOk(s) && forall b :: InService(s.pool, b) ==> d < Prio(s.pool, s.prio, b)
    ensures forall e :: e in s.ispr ==> d < e
  {
    forall e | e in s.ispr ensures d < e {
      var id :| Serves(s.pool, s.prio, id, e);
    }
  }

  lemma UserReturnUndoesEntry(s: Intc, x: nat, handler: nat)
    requires Inv(s) && Book(s) && IsprOk(s) && !Overtakes(s) && Choice(s) == Some(x)
    requires InLine(s.pool, x)
    requires CanRaise(s.cpu, s.pool[x].req)
    ensures Undone(s, x, TakeAndReturn(s, x, handler)) <==> s.ispc || !s.cpu.psw.ep
  {
    StartOutranks(s, x);
    var d := s.prio[s.pool[x].intno];
    OutranksIspr(s, d);
    UserEnteredByTake(s, x, handler);
    UserReturnIs(s, x, Take(s, x, handler), d);
  }

  /** Taking an exception and returning from it is undone exactly: PC, PSW and ISPR come back, the
      entry is gone and every other entry keeps its place, the interrupted handler being suspended.
      The one exception is a user interrupt taken while PSW.EP is set: its return then restores EP
      first and leaves its bit behind in ISPR. */
  lemma ReturnUndoesEntry(s: Intc, x: nat, handler: nat)
    requires Inv(s) && Book(s) && IsprOk(s) && !Overtakes(s) && Choice(s) == Some(x)
    requires s.pool[x].status.Runnable? && CanRaise(s.cpu, s.pool[x].req)
    ensures Undone(s, x, TakeAndReturn(s, x, handler)) <==> (s.pool[x].exno.UserIntr? && !s.ispc ==> !s.cpu.psw.ep)
  {
    DispatchChoice(s, x);
    if s.pool[x].exno.UserIntr? {
      UserReturnUndoesEntry(s, x, handler);
    } else {
      SystemReturnUndoesEntry(s, x, handler);
    }
  }
}
