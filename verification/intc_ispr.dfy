/** ISPR records exactly which user interrupt priorities are in service. */
module IntcIspr {
  import opened Common
  import opened IntcTypes
  import opened IntcSpec
  import opened IntcNesting
  import opened IntcRequests

  predicate IsUser(p: Pool, id: nat) { id in p && p[id].exno.UserIntr? }

  predicate InService(p: Pool, id: nat) { IsUser(p, id) && Started(p[id]) }

  predicate InLine(p: Pool, id: nat) { IsUser(p, id) && p[id].status.Runnable? }

  function Prio(p: Pool, prio: Priorities, id: nat): Priority
    requires id in p
  {
    prio[p[id].intno]
  }

  ghost predicate Serves(p: Pool, prio: Priorities, id: nat, d: Priority) {
    InService(p, id) && Prio(p, prio, id) == d
  }

  ghost predicate Exact(p: Pool, prio: Priorities, ispr: set<Priority>) {
    && (forall id :: InService(p, id) ==> Prio(p, prio, id) in ispr)
    && (forall d: Priority :: d in ispr ==> exists id :: Serves(p, prio, id, d))
  }

  ghost predicate OnePerPriority(p: Pool, prio: Priorities) {
    forall a, b :: InService(p, a) && InService(p, b) && a != b ==> Prio(p, prio, a) != Prio(p, prio, b)
  }

  /** A queued interrupt that does not rank behind a handler in service has a higher priority. */
  ghost predicate Barrier(p: Pool, prio: Priorities) {
    forall a, b :: InLine(p, a) && InService(p, b) && p[a].degree <= p[b].degree ==> Prio(p, prio, a) < Prio(p, prio, b)
  }

  ghost predicate Served(p: Pool, prio: Priorities, ispr: set<Priority>) {
    Exact(p, prio, ispr) && OnePerPriority(p, prio) && Barrier(p, prio)
  }

  ghost predicate IsprOk(s: Intc) { Served(s.pool, s.prio, s.ispr) }

  lemma UserDegrees(s: Intc, a: nat, b: nat)
    requires Inv(s) && IsUser(s.pool, a) && IsUser(s.pool, b)
    ensures s.pool[a].degree <= s.pool[b].degree ==> Prio(s.pool, s.prio, a) <= Prio(s.pool, s.prio, b)
    ensures s.pool[a].degree == s.pool[b].degree ==> s.pool[a].intno == s.pool[b].intno
  {}

  // ---------- changes of the pool ----------

  /** Two pools that agree on which user interrupts are in service. */
  ghost predicate SameService(p: Pool, q: Pool) {
    && (forall id :: InService(q, id) <==> InService(p, id))
    && (forall id :: InService(p, id) ==> q[id].intno == p[id].intno && q[id].degree == p[id].degree)
  }

  lemma SameServiceExact(p: Pool, q: Pool, prio: Priorities, ispr: set<Priority>)
    requires SameService(p, q) && Exact(p, prio, ispr) && OnePerPriority(p, prio)
    ensures Exact(q, prio, ispr) && OnePerPriority(q, prio)
  {
    forall d: Priority | d in ispr ensures exists id :: Serves(q, prio, id, d) {
      var id :| Serves(p, prio, id, d);
      assert Serves(q, prio, id, d);
    }
  }

  /** No request joins the line. */
  ghost predicate NoNewcomer(p: Pool, q: Pool) {
    forall id :: InLine(q, id) ==> InLine(p, id) && q[id].intno == p[id].intno && q[id].degree == p[id].degree
  }

  lemma SameServed(p: Pool, q: Pool, prio: Priorities, ispr: set<Priority>)
    requires Served(p, prio, ispr) && SameService(p, q) && NoNewcomer(p, q)
    ensures Served(q, prio, ispr)
  {
    SameServiceExact(p, q, prio, ispr);
  }

  lemma RaiseSystemKeepsIspr(s: Intc, exno: Exno)
    requires Inv(s) && IsprOk(s) && !exno.UserIntr?
    ensures IsprOk(RaiseSystem(s, exno))
  {
    SameServed(s.pool, s.pool[s.next := NewEntry(s.prio, exno, 0, Runnable)], s.prio, s.ispr);
  }

  /** A request joins the line only if it ranks above every priority in service. */
  lemma JoinKeepsServed(p: Pool, prio: Priorities, ispr: set<Priority>, id: nat, e: Entry)
    requires Served(p, prio, ispr) && id !in p
    requires e.exno.UserIntr? && e.status.Runnable?
    requires forall b :: InService(p, b) ==> prio[e.intno] < Prio(p, prio, b)
    ensures Served(p[id := e], prio, ispr)
  {
    SameServiceExact(p, p[id := e], prio, ispr);
  }

  lemma AdmitKeepsIspr(s: Intc, k: nat)
    requires Inv(s) && IsprOk(s) && k < |s.user|
    ensures IsprOk(Admit(s, k))
  {
    var e := s.user[k];
    if Lowest(s.ispr) > s.prio[e.intno] {
      forall b | InService(s.pool, b) ensures s.prio[e.intno] < Prio(s.pool, s.prio, b) {
        assert Prio(s.pool, s.prio, b) in s.ispr;
      }
      JoinKeepsServed(s.pool, s.prio, s.ispr, s.next, e.(status := Runnable));
    }
  }

  /** Starting a queued user interrupt: its priority is strictly above every one in service, and no
      other queued request gets past the barrier it sets up. */
  lemma StartOutranks(s: Intc, x: nat)
    requires Inv(s) && Book(s) && IsprOk(s) && !Overtakes(s) && Choice(s) == Some(x) && InLine(s.pool, x) && Taken(s, x)
    ensures forall b :: InService(s.pool, b) ==> Prio(s.pool, s.prio, x) < Prio(s.pool, s.prio, b)
    ensures forall a :: InLine(s.pool, a) && a != x ==> s.pool[x].degree < s.pool[a].degree
  {
    DispatchChoice(s, x);
    ChoiceOutranksStarted(s, x);
    forall a | InLine(s.pool, a) && a != x ensures s.pool[x].degree < s.pool[a].degree {
      UserDegrees(s, x, a);
      UserDegrees(s, a, x);
      assert Queued(s.pool, x, s.pool[x].intno) && Queued(s.pool, a, s.pool[a].intno);
      if Eligible(s, a) && s.pool[a].degree < s.pool[x].degree {
        BeforeTotal(s.pool, a, x);
      }
    }
  }

  lemma SwitchServes(p: Pool, current: Option<nat>, x: nat)
    requires InLine(p, x)
    requires current.Some? ==> current.value in p && current.value != x && Started(p[current.value])
    ensures var q := Switch(p, current, x);
            && (forall id :: InService(q, id) <==> InService(p, id) || id == x)
            && (forall id :: InLine(q, id) <==> InLine(p, id) && id != x)
            && (forall id :: id in q <==> id in p)
            && (forall id :: id in p ==> q[id] == p[id].(status := q[id].status))
  {}

  /** The pool after x has joined those in service. */
  lemma StartKeepsServed(p: Pool, q: Pool, prio: Priorities, ispr: set<Priority>, x: nat)
    requires Served(p, prio, ispr) && InLine(p, x)
    requires forall id :: InService(q, id) <==> InService(p, id) || id == x
    requires forall id :: InLine(q, id) <==> InLine(p, id) && id != x
    requires forall id :: id in q <==> id in p
    requires forall id :: id in p ==> q[id] == p[id].(status := q[id].status)
    requires forall b :: InService(p, b) ==> Prio(p, prio, x) < Prio(p, prio, b)
    requires forall a :: InLine(p, a) && a != x ==> p[x].degree < p[a].degree
    ensures Served(q, prio, ispr + {Prio(p, prio, x)})
  {
    StartKeepsExact(p, q, prio, ispr, x);
  }

  lemma StartKeepsExact(p: Pool, q: Pool, prio: Priorities, ispr: set<Priority>, x: nat)
    requires Exact(p, prio, ispr) && InLine(p, x)
    requires forall id :: InService(q, id) <==> InService(p, id) || id == x
    requires forall id :: id in p ==> id in q && q[id].intno == p[id].intno
    ensures Exact(q, prio, ispr + {Prio(p, prio, x)})
  {
    forall d: Priority | d in ispr + {Prio(p, prio, x)} ensures exists id :: Serves(q, prio, id, d) {
      if d == Prio(p, prio, x) {
        assert Serves(q, prio, x, d);
      } else {
        var id :| Serves(p, prio, id, d);
        assert Serves(q, prio, id, d);
      }
    }
  }

  lemma SwitchKeepsServed(s: Intc, x: nat)
    requires Inv(s) && Book(s) && IsprOk(s) && !Overtakes(s) && Choice(s) == Some(x) && InLine(s.pool, x) && Taken(s, x)
    ensures Served(Switch(s.pool, s.current, x), s.prio, s.ispr + {s.prio[s.pool[x].intno]})
  {
    StartOutranks(s, x);
    SwitchServes(s.pool, s.current, x);
    StartKeepsServed(s.pool, Switch(s.pool, s.current, x), s.prio, s.ispr, x);
  }

  /** A change of statuses that starts or stops no user interrupt. */
  lemma StatusesKeepServed(p: Pool, q: Pool, prio: Priorities, ispr: set<Priority>)
    requires Served(p, prio, ispr) && q.Keys == p.Keys
    requires forall id :: id in p ==> q[id] == p[id].(status := q[id].status)
    requires forall id :: IsUser(p, id) ==>
             (p[id].status.Runnable? <==> q[id].status.Runnable?) && (Started(p[id]) <==> Started(q[id]))
    ensures Served(q, prio, ispr)
  {
    assert SameService(p, q);
    assert NoNewcomer(p, q);
    SameServed(p, q, prio, ispr);
  }

  lemma SuspendKeepsServed(s: Intc)
    requires Inv(s) && IsprOk(s)
    ensures Served(Suspend(s.pool, s.current), s.prio, s.ispr)
  {
    StatusesKeepServed(s.pool, Suspend(s.pool, s.current), s.prio, s.ispr);
  }

  lemma StartKeepsOthers(s: Intc, p: Pool, x: nat)
    requires Served(p, s.prio, s.ispr) && x in p
    requires p[x].status.Waiting? || (p[x].status.Runnable? && !p[x].exno.UserIntr?)
    ensures Served(SetStatus(p, x, Running), s.prio, s.ispr)
  {
    StatusesKeepServed(p, SetStatus(p, x, Running), s.prio, s.ispr);
  }

  lemma TakeKeepsIspr(s: Intc, x: nat, handler: nat)
    requires Inv(s) && Book(s) && IsprOk(s) && !Overtakes(s) && Choice(s) == Some(x)
    requires !s.ispc
    ensures IsprOk(Take(s, x, handler))
  {
    DispatchChoice(s, x);
    SuspendKeepsServed(s);
    if InLine(s.pool, x) {
      if Taken(s, x) {
        SwitchKeepsServed(s, x);
      }
    } else if s.pool[x].status.Waiting? {
      StartKeepsOthers(s, s.pool, x);
    } else {
      StartKeepsOthers(s, Suspend(s.pool, s.current), x);
    }
  }

  lemma ClockKeepsIspr(s: Intc, handler: nat)
    requires Inv(s) && Book(s) && IsprOk(s) && !Overtakes(JudgeUser(s)) && !s.ispc
    ensures IsprOk(Clock(s, handler))
  {
    var j := JudgeUser(s);
    JudgeUserKeepsInv(s);
    JudgeUserKeepsBook(s);
    if UserChoice(s).Some? {
      AdmitKeepsIspr(s.(cpu := s.cpu.(halt := false)), UserChoice(s).value);
    }
    if Choice(j).Some? {
      TakeKeepsIspr(j, Choice(j).value, handler);
    }
  }

  // ---------- returns ----------

  predicate CurrentIsUser(s: Intc) {
    s.current.Some? && IsUser(s.pool, s.current.value)
  }

  /** The lowest bit of ISPR is the priority of the current user interrupt. */
  lemma CurrentIsLowest(s: Intc)
    requires Inv(s) && IsprOk(s) && CurrentIsUser(s)
    ensures Lowest(s.ispr) == s.prio[s.pool[s.current.value].intno]
  {
    var c := s.current.value;
    assert InService(s.pool, c);
    var d := Lowest(s.ispr);
    forall id | Serves(s.pool, s.prio, id, d) ensures Prio(s.pool, s.prio, c) <= d {
      UserDegrees(s, c, id);
    }
  }

  lemma LeaveKeepsServed(p: Pool, prio: Priorities, ispr: set<Priority>, c: nat)
    requires Served(p, prio, ispr) && InService(p, c)
    ensures Served(p - {c}, prio, ispr - {Prio(p, prio, c)})
    ensures !Exact(p - {c}, prio, ispr)
  {
    var q := p - {c};
    assert forall id :: InService(q, id) <==> InService(p, id) && id != c;
    assert forall id :: InLine(q, id) ==> InLine(p, id);
    forall e: Priority | e in ispr - {Prio(p, prio, c)} ensures exists id :: Serves(q, prio, id, e) {
      var id :| Serves(p, prio, id, e);
      assert Serves(q, prio, id, e);
    }
    assert forall id :: !Serves(q, prio, id, Prio(p, prio, c));
  }

  lemma DropKeepsServed(p: Pool, prio: Priorities, ispr: set<Priority>, c: nat)
    requires Served(p, prio, ispr) && !InService(p, c)
    ensures Served(p - {c}, prio, ispr)
  {
    var q := p - {c};
    SameServed(p, q, prio, ispr);
  }

  /** EIRET keeps ISPR exact if and only if the handler it ends is not a user interrupt, or hardware
      updates ISPR and the restored PSW has EP clear; it then clears that handler's bit and no other. */
  lemma EiReturnIspr(s: Intc)
    requires Inv(s) && IsprOk(s)
    ensures IsprOk(EiReturn(s)) <==> (CurrentIsUser(s) ==> !s.ispc && !s.cpu.eipsw.ep)
    ensures CurrentIsUser(s) && !s.ispc && !s.cpu.eipsw.ep ==>
              EiReturn(s).ispr == s.ispr - {s.prio[s.pool[s.current.value].intno]}
  {
    if CurrentIsUser(s) {
      CurrentIsLowest(s);
      LeaveKeepsServed(s.pool, s.prio, s.ispr, s.current.value);
    } else if s.current.Some? {
      DropKeepsServed(s.pool, s.prio, s.ispr, s.current.value);
    }
  }

  /** FERET keeps ISPR exact if and only if the handler it ends is not a user interrupt. */
  lemma FeReturnIspr(s: Intc)
    requires Inv(s) && IsprOk(s)
    ensures IsprOk(FeReturn(s)) <==> !CurrentIsUser(s)
  {
    if CurrentIsUser(s) {
      LeaveKeepsServed(s.pool, s.prio, s.ispr, s.current.value);
    } else if s.current.Some? {
      DropKeepsServed(s.pool, s.prio, s.ispr, s.current.value);
    }
  }

  lemma GuestClearKeepsIspr(s: Intc, intno: Intno)
    requires Inv(s) && IsprOk(s)
    ensures IsprOk(GuestClear(s, intno))
  {
    if Cleared(s.pool, intno).Some? {
      DropKeepsServed(s.pool, s.prio, s.ispr, Cleared(s.pool, intno).value);
    }
  }

  // ---------- depth of nesting ----------

  lemma {:induction false} FewPriorities(ids: set<nat>, p: Pool, prio: Priorities, bound: nat)
    requires forall id :: id in ids ==> InService(p, id) && Prio(p, prio, id) < bound
    requires OnePerPriority(p, prio)
    ensures |ids| <= bound
    decreases bound
  {
    if bound == 0 {
      assert forall id :: id !in ids;
    } else if x :| x in ids && Prio(p, prio, x) == bound - 1 {
      assert |ids - {x}| == |ids| - 1;
      FewPriorities(ids - {x}, p, prio, bound - 1);
    } else {
      FewPriorities(ids, p, prio, bound - 1);
    }
  }

  /** No more than sixteen entries of user interrupts are ever started at once. */
  lemma NestingBound(s: Intc)
    requires IsprOk(s)
    ensures |set id | id in s.pool && InService(s.pool, id)| <= NUM_PRIORITIES
  {
    var ids := set id | id in s.pool && InService(s.pool, id);
    FewPriorities(ids, s.pool, s.prio, NUM_PRIORITIES);
  }
}
