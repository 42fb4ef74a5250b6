/** Nesting of exception handlers: what every step of the controller keeps. */
module IntcNesting {
  import opened Common
  import opened IntcTypes
  import opened IntcSpec

  ghost predicate WellFormed(prio: Priorities, pool: Pool, next: nat, user: seq<Entry>) {
    && (forall id :: id in pool ==> id < next)
    && (forall id :: id in pool ==> EntryOk(prio, pool[id]))
    && (forall id :: id in pool ==> !pool[id].status.Pending?)
    && (forall k :: 0 <= k < |user| ==> UserOk(prio, user[k]))
  }

  /** An entry points to its row of the exception table, has the degree that belongs to it, and carries
      interrupt number 0 unless it is a user interrupt. */
  predicate EntryOk(prio: Priorities, e: Entry) {
    && e.req == ConfigOf(e.exno)
    && e.degree == Degree(prio, e.exno, e.req, e.intno)
    && (!e.exno.UserIntr? ==> e.intno == 0)
  }

  predicate UserOk(prio: Priorities, e: Entry) {
    e.exno.UserIntr? && EntryOk(prio, e) && (e.status.Pending? || e.status.Runnable?)
  }

  /** The current entry is queued and started, it is the only one that can be running, and every
      other suspended entry ranks strictly behind it. */
  ghost predicate Nested(pool: Pool, current: Option<nat>) {
    && (current.Some? ==> current.value in pool && Started(pool[current.value]))
    && (forall id :: id in pool && pool[id].status.Running? ==> current == Some(id))
    && (forall id :: id in pool && pool[id].status.Waiting? && current.Some? && id != current.value ==>
          Before(pool, current.value, id))
  }

  ghost predicate Inv(s: Intc) {
    WellFormed(s.prio, s.pool, s.next, s.user) && Nested(s.pool, s.current)
  }

  // ---------- the order ----------

  lemma BeforeTotal(p: Pool, a: nat, b: nat)
    requires a in p && b in p
    ensures Before(p, a, b) || Before(p, b, a) || a == b
    ensures !(Before(p, a, b) && Before(p, b, a))
  {}

  /** Any non-empty finite set of pool entries has a first one. */
  lemma {:induction false} FirstOf(p: Pool, ids: set<nat>) returns (m: nat)
    requires ids != {} && ids <= p.Keys
    ensures m in ids && forall y :: y in ids && y != m ==> Before(p, m, y)
    decreases ids
  {
    var x :| x in ids;
    if ids == {x} {
      m := x;
    } else {
      var n := FirstOf(p, ids - {x});
      m := if Before(p, x, n) then x else n;
      BeforeTotal(p, x, n);
      forall y | y in ids && y != m ensures Before(p, m, y) {
        assert y in ids - {x} || y == x;
      }
    }
  }

  /** The scan picks something whenever there is a candidate, and picks at most one thing. */
  lemma ChoiceExists(s: Intc)
    ensures Choice(s).None? <==> forall id :: !Candidate(s, id)
  {
    if id :| Candidate(s, id) {
      var ids := set i | i in s.pool && Candidate(s, i);
      assert id in ids;
      var m := FirstOf(s.pool, ids);
      assert IsChoice(s, m);
    }
  }

  lemma ChoiceUnique(s: Intc, a: nat)
    requires IsChoice(s, a)
    ensures Choice(s) == Some(a)
  {
    BeforeTotal(s.pool, a, Choice(s).value);
  }

  lemma UserChoiceUnique(s: Intc, k: nat)
    requires IsUserChoice(s, k)
    ensures UserChoice(s) == Some(k)
  {}

  /** Dispatch choice.  With nothing current the entry picked is first, by level, degree and arrival,
      among all the eligible entries.  With a current entry it has no higher level and strictly
      smaller degree, is first among the entries that do, and is never one that is suspended. */
  lemma DispatchChoice(s: Intc, x: nat)
    requires Inv(s) && Choice(s) == Some(x)
    ensures x in s.pool
    ensures s.current.None? ==> forall y :: Eligible(s, y) && y != x ==> Before(s.pool, x, y)
    ensures s.current.Some? ==>
              var c := s.pool[s.current.value];
              && s.pool[x].req.level <= c.req.level && s.pool[x].degree < c.degree
              && s.pool[x].status.Runnable?
              && forall y | Eligible(s, y) && y != x && s.pool[y].degree < c.degree &&
                  s.pool[y].req.level <= c.req.level ::
                   Before(s.pool, x, y)
  {
    if s.current.Some? {
      BeforeTotal(s.pool, x, s.current.value);
    }
  }

  /** The current entry is displaced only by a candidate, and otherwise keeps its place. */
  lemma CurrentStays(s: Intc, handler: nat)
    requires Inv(s) && s.current.Some?
    requires forall id :: Eligible(s, id) && s.pool[id].degree < s.pool[s.current.value].degree ==>
               s.pool[s.current.value].req.level < s.pool[id].req.level
    ensures Dispatch(s, handler) == s
  {
    ChoiceExists(s);
  }

  // ---------- the guard of a clock ----------

  /** The entry picked leaves the queue for the CPU: it is resumed, or PSW lets it in. */
  predicate Taken(s: Intc, x: nat)
    requires x in s.pool
  {
    s.pool[x].status.Waiting? || CanRaise(s.cpu, s.pool[x].req)
  }

  /** With nothing current, a handler starts ahead of a more urgent suspended one that PMR hides from
      the scan.  This is the only way in which a clock can break the nesting. */
  ghost predicate Overtakes(s: Intc) {
    && s.current.None?
    && Choice(s).Some?
    && Taken(s, Choice(s).value)
    && exists w :: w in s.pool && s.pool[w].status.Waiting? && Before(s.pool, w, Choice(s).value)
  }

  /** No overtaking without USER_INTR_PMR_BUGFIX, nor while PMR hides no suspended user interrupt. */
  lemma VisibleNotOvertaken(s: Intc)
    requires Inv(s)
    requires s.pmrFix ==> forall id :: id in s.pool && s.pool[id].status.Waiting? && s.pool[id].exno.UserIntr? ==>
               !PmrMasked(s, s.pool[id])
    ensures !Overtakes(s) && !Overtakes(JudgeUser(s))
  {
    var j := JudgeUser(s);
    forall t | t == s || t == j ensures !Overtakes(t) {
      if Choice(t).Some? && t.current.None? {
        var x := Choice(t).value;
        forall w | w in t.pool && t.pool[w].status.Waiting? ensures !Before(t.pool, w, x) {
          assert Eligible(t, w);
          BeforeTotal(t.pool, w, x);
        }
      }
    }
  }

  // ---------- preservation ----------

  lemma InsertKeeps(s: Intc, e: Entry)
    requires Inv(s) && e.status.Runnable? && EntryOk(s.prio, e)
    ensures WellFormed(s.prio, s.pool[s.next := e], s.next + 1, s.user)
    ensures Nested(s.pool[s.next := e], s.current)
  {}

  lemma RemoveKeeps(s: Intc, id: nat)
    requires Inv(s) && id in s.pool && s.pool[id].status.Runnable?
    ensures WellFormed(s.prio, s.pool - {id}, s.next, s.user)
    ensures Nested(s.pool - {id}, s.current)
  {}

  lemma UserUpdateKeeps(s: Intc, k: nat, e: Entry)
    requires WellFormed(s.prio, s.pool, s.next, s.user) && k < |s.user| && UserOk(s.prio, e)
    ensures WellFormed(s.prio, s.pool, s.next, s.user[k := e])
    ensures WellFormed(s.prio, s.pool, s.next, RemoveAt(s.user, k))
    ensures WellFormed(s.prio, s.pool, s.next, s.user + [e])
  {}

  lemma AdmitKeepsInv(s: Intc, k: nat)
    requires Inv(s) && k < |s.user|
    ensures Inv(Admit(s, k))
  {
    var e := s.user[k].(status := Runnable);
    UserUpdateKeeps(s, k, e);
    InsertKeeps(s.(user := s.user[k := e]), e);
  }

  lemma JudgeUserKeepsInv(s: Intc)
    requires Inv(s)
    ensures Inv(JudgeUser(s))
  {
    if UserChoice(s).Some? {
      AdmitKeepsInv(s.(cpu := s.cpu.(halt := false)), UserChoice(s).value);
    }
  }

  lemma SwitchKeepsNested(s: Intc, x: nat)
    requires Inv(s) && x in s.pool
    requires forall y :: y in s.pool && y != x && Started(s.pool[y]) ==> Before(s.pool, x, y)
    ensures Nested(Switch(s.pool, s.current, x), Some(x))
    ensures WellFormed(s.prio, Switch(s.pool, s.current, x), s.next, s.user)
  {}

  lemma SuspendKeepsNested(s: Intc)
    requires Inv(s)
    ensures Nested(Suspend(s.pool, s.current), s.current)
    ensures WellFormed(s.prio, Suspend(s.pool, s.current), s.next, s.user)
  {}

  lemma ResumeKeepsNested(s: Intc, x: nat)
    requires Inv(s) && s.current.None? && x in s.pool
    requires forall y :: y in s.pool && y != x && Started(s.pool[y]) ==> Before(s.pool, x, y)
    ensures Nested(SetStatus(s.pool, x, Running), Some(x))
    ensures WellFormed(s.prio, SetStatus(s.pool, x, Running), s.next, s.user)
  {}

  /** The entry taken ranks strictly before everything that has started. */
  lemma ChoiceOutranksStarted(s: Intc, x: nat)
    requires Inv(s) && !Overtakes(s) && Choice(s) == Some(x) && Taken(s, x)
    ensures forall y :: y in s.pool && y != x && Started(s.pool[y]) ==> Before(s.pool, x, y)
  {
    DispatchChoice(s, x);
    forall y | y in s.pool && y != x && Started(s.pool[y]) ensures Before(s.pool, x, y) {
      BeforeTotal(s.pool, x, y);
    }
  }

  lemma EnterKeepsInv(s: Intc, e: Entry, handler: nat)
    requires Inv(s)
    ensures Inv(Enter(s, e, handler))
  {
    var k := FindUser(s.user, e.intno);
    if k < |s.user| {
      UserUpdateKeeps(s, k, s.user[k]);
    }
  }

  lemma NewEntered(s: Intc, x: nat, handler: nat)
    requires Inv(s) && x in s.pool && s.pool[x].status.Runnable? && CanRaise(s.cpu, s.pool[x].req)
    requires forall y :: y in s.pool && y != x && Started(s.pool[y]) ==> Before(s.pool, x, y)
    ensures Inv(Take(s, x, handler))
    ensures Take(s, x, handler).current == Some(x) && Take(s, x, handler).pool == Switch(s.pool, s.current, x)
  {
    SwitchKeepsNested(s, x);
    EnterKeepsInv(s.(pool := Switch(s.pool, s.current, x), current := Some(x)), s.pool[x], handler);
  }

  /** Both assertions at the head of raise_Exception hold, and nothing is resumed over a current
      entry: when an entry is entered it is the current one and it is running. */
  lemma TakeKeepsInv(s: Intc, x: nat, handler: nat)
    requires Inv(s) && !Overtakes(s) && Choice(s) == Some(x)
    ensures Inv(Take(s, x, handler))
    ensures s.pool[x].status.Waiting? ==> s.current.None?
    ensures s.pool[x].status.Runnable? && CanRaise(s.cpu, s.pool[x].req) ==>
              Take(s, x, handler).current == Some(x) && Take(s, x, handler).pool == Switch(s.pool, s.current, x)
  {
    DispatchChoice(s, x);
    if s.pool[x].status.Waiting? {
      ChoiceOutranksStarted(s, x);
      ResumeKeepsNested(s, x);
    } else if Taken(s, x) {
      ChoiceOutranksStarted(s, x);
      NewEntered(s, x, handler);
    } else {
      SuspendKeepsNested(s);
    }
  }

  lemma OvertakingBreaksNesting(s: Intc, handler: nat)
    requires Inv(s) && Overtakes(s)
    ensures !Nested(Dispatch(s, handler).pool, Dispatch(s, handler).current)
  {
    var x := Choice(s).value;
    var w :| w in s.pool && s.pool[w].status.Waiting? && Before(s.pool, w, x);
    var p := Dispatch(s, handler).pool;
    assert w != x && p[w] == s.pool[w];
    BeforeTotal(p, w, x);
  }

  /** A clock keeps the nesting exactly when it does not overtake. */
  lemma ClockInv(s: Intc, handler: nat)
    requires Inv(s)
    ensures Inv(Clock(s, handler)) <==> !Overtakes(JudgeUser(s))
  {
    var j := JudgeUser(s);
    JudgeUserKeepsInv(s);
    if Overtakes(j) {
      OvertakingBreaksNesting(j, handler);
    } else if Choice(j).Some? {
      TakeKeepsInv(j, Choice(j).value, handler);
    }
  }

  lemma PopKeepsInv(s: Intc)
    requires Inv(s)
    ensures Inv(Pop(s)) && Pop(s).current.None?
  {}

  lemma ReturnsKeepInv(s: Intc)
    requires Inv(s)
    ensures Inv(FeReturn(s)) && Inv(EiReturn(s))
  {
    PopKeepsInv(s);
  }

  lemma RaisesKeepInv(s: Intc, intno: Intno, exno: Exno)
    requires Inv(s)
    ensures Inv(RaiseUser(s, intno))
    ensures Inv(RaiseSystem(s, exno))
  {
    InsertKeeps(s, NewEntry(s.prio, exno, 0, Runnable));
  }

  lemma GuestClearKeepsInv(s: Intc, intno: Intno)
    requires Inv(s)
    ensures Inv(GuestClear(s, intno))
  {
    var k := FindUser(s.user, intno);
    var s1 := if k < |s.user| then s.(user := RemoveAt(s.user, k)) else s;
    if k < |s.user| {
      UserUpdateKeeps(s, k, s.user[k]);
    }
    if Cleared(s.pool, intno).Some? {
      RemoveKeeps(s1, Cleared(s.pool, intno).value);
    }
  }
}
