/** What the controller does, said of registers, queues and causes themselves: which requests are admitted,
    which causes PSW lets in, what entering one does to the core, and which causes preempt which. */
module IntcLaws {
  import opened Common
  import opened IntcTypes
  import opened IntcSpec
  import opened IntcNesting
  import opened IntcStack
  import opened IntcRequests
  import opened IntcSoftware

  // ---------- register scans ----------

  /** A priority is above the lowest set bit exactly when it is above every set bit. */
  lemma AboveAll(bits: set<Priority>, p: Priority)
    ensures p < Lowest(bits) <==> forall d :: d in bits ==> p < d
  {}

  /** The PMR skip passes over the user interrupts whose priority PMR masks, and over nothing else. */
  lemma HiddenByPmr(s: Intc, id: nat)
    requires id in s.pool
    ensures Eligible(s, id) <==>
            !(s.pmrFix && s.pool[id].exno == UserIntr && exists d :: d in s.pmr && d <= s.prio[s.pool[id].intno])
  {
    AboveAll(s.pmr, s.prio[s.pool[id].intno]);
  }

  // ---------- admission of user requests ----------

  /** Request k is not masked, and none of the others that are not masked is of smaller degree or, with
      the same degree, earlier. */
  predicate First(s: Intc, k: nat) {
    && k < |s.user| && s.user[k].intno !in s.masked
    && forall j | 0 <= j < |s.user| && j != k && s.user[j].intno !in s.masked ::
         s.user[k].degree < s.user[j].degree || (s.user[k].degree == s.user[j].degree && k < j)
  }

  /** It is pending, and more urgent than all that is in service and all that PMR masks. */
  predicate Admissible(s: Intc, k: nat) {
    && First(s, k) && s.user[k].status == Pending
    && (forall d :: d in s.ispr ==> s.prio[s.user[k].intno] < d)
    && (forall d :: d in s.pmr ==> s.prio[s.user[k].intno] < d)
  }

  lemma FirstIsChoice(s: Intc)
    ensures forall k: nat :: First(s, k) <==> UserChoice(s) == Some(k)
  {
    forall k: nat ensures First(s, k) <==> IsUserChoice(s, k) {
      if First(s, k) {
        assert forall j: nat | Unmasked(s, j) :: j < |s.user|;
      }
      if IsUserChoice(s, k) {
        forall j | 0 <= j < |s.user| && j != k && s.user[j].intno !in s.masked
          ensures s.user[k].degree < s.user[j].degree || (s.user[k].degree == s.user[j].degree && k < j)
        {
          assert Unmasked(s, j);
        }
      }
    }
    forall k: nat | IsUserChoice(s, k) ensures UserChoice(s) == Some(k) {
      UserChoiceUnique(s, k);
    }
  }

  /** The part of a clock that looks at the user queue. */
  lemma JudgedExactly(s: Intc, k: nat)
    requires k < |s.user| && UserOk(s.prio, s.user[k])
    ensures Admissible(s, k) ==> JudgeUser(s).pool == s.pool[s.next := s.user[k].(status := Runnable)]
    ensures First(s, k) && !Admissible(s, k) ==> JudgeUser(s).pool == s.pool
  {
    FirstIsChoice(s);
    AboveAll(s.ispr, s.prio[s.user[k].intno]);
    AboveAll(s.pmr, s.prio[s.user[k].intno]);
  }

  /** The same entries, save for their status. */
  ghost predicate SameEntries(p: Pool, q: Pool) {
    q.Keys == p.Keys && forall id :: id in p ==> q[id] == p[id].(status := q[id].status)
  }

  lemma StatusKeepsEntries(p: Pool, q: Pool, id: nat, status: Status)
    requires SameEntries(p, q) && id in q
    ensures SameEntries(p, SetStatus(q, id, status))
  {}

  /** The dispatch changes nothing of a queued entry but its status. */
  lemma DispatchKeepsEntries(s: Intc, handler: nat)
    ensures SameEntries(s.pool, Dispatch(s, handler).pool)
  {
    if Choice(s).Some? {
      var x := Choice(s).value;
      StatusKeepsEntries(s.pool, s.pool, x, Running);
      if s.current.Some? && s.current.value in s.pool {
        StatusKeepsEntries(s.pool, s.pool, s.current.value, Waiting);
      }
      StatusKeepsEntries(s.pool, Suspend(s.pool, s.current), x, Running);
      EnterKeepsNesting(s.(pool := Switch(s.pool, s.current, x), current := Some(x)), s.pool[x], handler);
    }
  }

  /** A clock copies request k into the exception queue if and only if it is pending, first among the
      requests that are not masked, and of a priority above every bit of ISPR and of PMR. */
  lemma CopiedExactly(s: Intc, handler: nat, k: nat)
    requires Inv(s) && Book(s) && k < |s.user|
    ensures var t := Clock(s, handler);
            s.next in t.pool && t.pool[s.next].intno == s.user[k].intno <==>
            && s.user[k].status == Pending && s.user[k].intno !in s.masked
            && (forall j | 0 <= j < |s.user| && j != k && s.user[j].intno !in s.masked ::
                  s.user[k].degree < s.user[j].degree || (s.user[k].degree == s.user[j].degree && k < j))
            && (forall d :: d in s.ispr ==> s.prio[s.user[k].intno] < d)
            && (forall d :: d in s.pmr ==> s.prio[s.user[k].intno] < d)
  {
    FirstIsChoice(s);
    DispatchKeepsEntries(JudgeUser(s), handler);
    if UserChoice(s).Some? {
      JudgedExactly(s, UserChoice(s).value);
    }
    assert Admissible(s, k) <==> UserChoice(s) == Some(k) && Admissible(s, k);
  }

  /** With every queued request masked the user queue has no part in a clock, and a halted core stays
      halted as far as it goes. */
  lemma MaskedStayOut(s: Intc, handler: nat)
    requires forall j :: 0 <= j < |s.user| ==> s.user[j].intno in s.masked
    ensures JudgeUser(s) == s && Clock(s, handler) == Dispatch(s, handler)
  {
    FirstIsChoice(s);
  }

  /** The user queue wakes a halted core exactly when the first unmasked request is pending, admitted or
      not, and touches nothing else of the core. */
  lemma WokenExactly(s: Intc)
    requires forall j :: 0 <= j < |s.user| ==> UserOk(s.prio, s.user[j])
    ensures JudgeUser(s).cpu == s.cpu.(halt := JudgeUser(s).cpu.halt)
    ensures JudgeUser(s).cpu.halt <==> s.cpu.halt && forall k: nat :: First(s, k) ==> s.user[k].status != Pending
  {
    FirstIsChoice(s);
  }

  // ---------- new requests ----------

  /** A request of a user interrupt is queued last, pending, with its request bit; a second one changes
      nothing.  It does not wake the core. */
  lemma RequestQueued(s: Intc, i: Intno)
    ensures var t := RaiseUser(s, i);
            if i in s.reqFlag then t == s
            else
              && |t.user| == |s.user| + 1 && t.user[..|s.user|] == s.user
              && t.user[|s.user|].exno == UserIntr && t.user[|s.user|].intno == i
              && t.user[|s.user|].status == Pending && t.user[|s.user|].degree == s.prio[i] * 65536 + i
              && t == s.(user := t.user, reqFlag := s.reqFlag + {i})
  {}

  /** An exception is queued runnable, behind all that are queued already, and wakes the core. */
  lemma ExceptionQueued(s: Intc, x: Exno)
    requires Inv(s) && x != UserIntr
    ensures var t := RaiseSystem(s, x);
            && s.next !in s.pool && t.pool.Keys == s.pool.Keys + {s.next}
            && (forall id :: id in s.pool ==> t.pool[id] == s.pool[id])
            && t.pool[s.next].exno == x && t.pool[s.next].intno == 0 && t.pool[s.next].status == Runnable
            && t == s.(pool := t.pool, next := s.next + 1, cpu := s.cpu.(halt := false))
  {}

  // ---------- what PSW lets in ----------

  /** PSW.NP holds back FEINT, FPI and user interrupts, PSW.ID the last two on a core that runs. */
  predicate HeldBack(cpu: Cpu, x: Exno) {
    || (cpu.psw.np && x in {Feint, Fpi, UserIntr})
    || (cpu.psw.id && !cpu.halt && x in {Fpi, UserIntr})
  }

  /** A new entry that has been picked becomes the current one if and only if PSW does not hold its cause
      back; if it does, the core is left alone. */
  lemma LetInExactly(s: Intc, x: nat, handler: nat)
    requires Inv(s) && x in s.pool && s.pool[x].status == Runnable
    ensures var t := Take(s, x, handler);
            && (t.current == Some(x) <==> !HeldBack(s.cpu, s.pool[x].exno))
            && (HeldBack(s.cpu, s.pool[x].exno) ==> t.current == s.current && t.cpu == s.cpu)
  {
    assert EntryOk(s.prio, s.pool[x]);
  }

  lemma SuspendStatus(p: Pool, current: Option<nat>, id: nat)
    requires id in p
    ensures id in Suspend(p, current)
    ensures Suspend(p, current)[id].status == if current == Some(id) then Waiting else p[id].status
  {}

  lemma SwitchStatus(p: Pool, current: Option<nat>, x: nat, id: nat)
    requires x in p && id in p
    ensures id in Switch(p, current, x)
    ensures Switch(p, current, x)[id].status ==
            if id == x then Running else if current == Some(id) then Waiting else p[id].status
  {
    SuspendStatus(p, current, id);
  }

  lemma LetInByTable(s: Intc, e: Entry)
    requires e.req == ConfigOf(e.exno)
    ensures CanRaise(s.cpu, e.req) <==> !HeldBack(s.cpu, e.exno)
  {}

  /** What becomes of the statuses: a suspended entry that has been picked runs again; a new one runs if
      PSW lets it in; and in both cases of a new one the entry that was current is suspended, even when
      PSW holds the new one back. */
  lemma StatusesAfter(s: Intc, x: nat, handler: nat, id: nat)
    requires Inv(s) && x in s.pool && id in s.pool && s.pool[x].status in {Waiting, Runnable}
    ensures id in Take(s, x, handler).pool
    ensures Take(s, x, handler).pool[id].status ==
            if id == x && (s.pool[x].status == Waiting || !HeldBack(s.cpu, s.pool[x].exno)) then Running
            else if s.current == Some(id) && s.pool[x].status == Runnable then Waiting
            else s.pool[id].status
  {
    assert EntryOk(s.prio, s.pool[x]);
    LetInByTable(s, s.pool[x]);
    SuspendStatus(s.pool, s.current, id);
    SwitchStatus(s.pool, s.current, x, id);
    EnterKeepsNesting(s.(pool := Switch(s.pool, s.current, x), current := Some(x)), s.pool[x], handler);
  }

  // ---------- what entering does to the core ----------

  predicate FeLevel(x: Exno) {
    x in {Fenmi, Syserr1, Feint, Mip, Syserr2, Rie, Ucpop, Pie, Mae, Mdp, Exno.Fetrap}
  }

  /** PSW after entry. */
  predicate HandlerPsw(was: Psw, x: Exno, psw: Psw) {
    && !psw.um && psw.id
    && (psw.np <==> FeLevel(x) || (was.np && x != Reset))
    && (psw.ep <==> x !in {Reset, Fenmi, Feint, UserIntr})
    && psw.rest == was.rest
  }

  /** Entering an exception: FE-level causes save PC and PSW in FEPC and FEPSW, all others in EIPC and
      EIPSW; PSW is that of the cause's handler, PC is the handler's address, and the core is awake. */
  lemma EntersCore(s: Intc, x: nat, handler: nat)
    requires Inv(s) && x in s.pool && s.pool[x].status == Runnable && !HeldBack(s.cpu, s.pool[x].exno)
    ensures var t := Take(s, x, handler).cpu;
            var e := s.pool[x].exno;
            && t.pc == handler && !t.halt && HandlerPsw(s.cpu.psw, e, t.psw)
            && (if FeLevel(e) then
                  t.fepc == s.cpu.pc && t.fepsw == s.cpu.psw && t.eipc == s.cpu.eipc && t.eipsw == s.cpu.eipsw
                else t.eipc == s.cpu.pc && t.eipsw == s.cpu.psw && t.fepc == s.cpu.fepc && t.fepsw == s.cpu.fepsw)
  {
    assert EntryOk(s.prio, s.pool[x]);
    EntersByTable(s.(pool := Switch(s.pool, s.current, x), current := Some(x)), s.pool[x], handler);
  }

  lemma EntersByTable(s: Intc, e: Entry, handler: nat)
    requires e.req == ConfigOf(e.exno)
    ensures var t := Enter(s, e, handler).cpu;
            && t.pc == handler && !t.halt && HandlerPsw(s.cpu.psw, e.exno, t.psw)
            && (if FeLevel(e.exno) then
                  t.fepc == s.cpu.pc && t.fepsw == s.cpu.psw && t.eipc == s.cpu.eipc && t.eipsw == s.cpu.eipsw
                else t.eipc == s.cpu.pc && t.eipsw == s.cpu.psw && t.fepc == s.cpu.fepc && t.fepsw == s.cpu.fepsw)
  {}

  // ---------- which causes come first ----------

  /** The causes other than user interrupts, most urgent first. */
  const URGENCY: seq<set<Exno>> :=
    [{Reset}, {Fenmi}, {Syserr1}, {Feint}, {Fpi}, {Mip}, {Syserr2}, {Rie}, {Ucpop}, {Pie},
     {Mae, Mdp, Fpp}, {Exno.Syscall, Exno.Fetrap, Trap0, Trap1}]

  function Place(x: Exno): (i: nat)
    requires x != UserIntr
    ensures i < |URGENCY| && x in URGENCY[i]
    ensures forall j :: 0 <= j < |URGENCY| && x in URGENCY[j] ==> j == i
  {
    match x
    case Reset => 0 case Fenmi => 1 case Syserr1 => 2 case Feint => 3 case Fpi => 4
    case Mip => 5 case Syserr2 => 6 case Rie => 7 case Ucpop => 8 case Pie => 9
    case Mae => 10 case Mdp => 10 case Fpp => 10
    case Syscall => 11 case Fetrap => 11 case Trap0 => 11 case Trap1 => 11
  }

  /** The number of the list that holds a cause. */
  function ListOf(x: Exno): nat {
    match x
    case Reset => 0 case Fenmi => 2 case Syserr1 => 2 case Feint => 2 case Fpi => 3 case UserIntr => 3
    case Mip => 9 case Syserr2 => 9 case Rie => 9 case Ucpop => 9 case Pie => 9
    case Mae => 10 case Mdp => 10 case Fpp => 10
    case _ => 11
  }

  /** Queued exceptions rank in that order, and those of one place by arrival. */
  lemma CauseOrder(s: Intc, a: nat, b: nat)
    requires Inv(s) && a in s.pool && b in s.pool && s.pool[a].exno != UserIntr && s.pool[b].exno != UserIntr
    ensures Before(s.pool, a, b) <==>
            Place(s.pool[a].exno) < Place(s.pool[b].exno) || (Place(s.pool[a].exno) == Place(s.pool[b].exno) && a < b)
  {
    assert EntryOk(s.prio, s.pool[a]) && EntryOk(s.prio, s.pool[b]);
  }

  /** User interrupts rank by priority and then by number. */
  lemma UserOrder(s: Intc, a: nat, b: nat)
    requires Inv(s) && a in s.pool && b in s.pool && s.pool[a].exno == UserIntr && s.pool[b].exno == UserIntr
    ensures var p, q := s.prio[s.pool[a].intno], s.prio[s.pool[b].intno];
            Before(s.pool, a, b) <==>
            p < q || (p == q && (s.pool[a].intno < s.pool[b].intno || (s.pool[a].intno == s.pool[b].intno && a < b)))
  {
    assert EntryOk(s.prio, s.pool[a]) && EntryOk(s.prio, s.pool[b]);
  }

  /** Against another cause: user interrupts come behind RESET, FENMI, SYSERR1 and FEINT, those of
      priority 0 come before FPI and all others behind it, and all come before the rest. */
  lemma UserAmongCauses(s: Intc, a: nat, b: nat)
    requires Inv(s) && a in s.pool && b in s.pool && s.pool[a].exno == UserIntr && s.pool[b].exno != UserIntr
    ensures Before(s.pool, a, b) <==>
            if s.pool[b].exno == Fpi then s.prio[s.pool[a].intno] == 0
            else s.pool[b].exno !in {Reset, Fenmi, Syserr1, Feint}
  {
    assert EntryOk(s.prio, s.pool[a]) && EntryOk(s.prio, s.pool[b]);
  }

  // ---------- which causes preempt ----------

  /** The major degree of a cause within its list. */
  function MajorOf(x: Exno): nat {
    match x
    case Syserr1 => 1 case Feint => 2 case Syserr2 => 2 case Rie => 3 case Ucpop => 4 case Pie => 5
    case _ => 0
  }

  /** An exception preempts the handler of another one if and only if its list is no higher and its major
      degree is smaller.  So MAE, MDP and FPP are not preempted by SYSERR2, RIE, UCPOP or PIE, which rank
      before them. */
  lemma CausePreemptsExactly(s: Intc, id: nat)
    requires Inv(s) && s.current.Some? && s.pool[s.current.value].exno != UserIntr
    requires id in s.pool && s.pool[id].exno != UserIntr
    ensures s.pool[id].req.level == ListOf(s.pool[id].exno)
    ensures var x, y := s.pool[id].exno, s.pool[s.current.value].exno;
            Candidate(s, id) <==> ListOf(x) <= ListOf(y) && MajorOf(x) < MajorOf(y)
  {
    assert EntryOk(s.prio, s.pool[id]) && EntryOk(s.prio, s.pool[s.current.value]);
  }

  /** While the handler of a user interrupt of priority p is current, another cause can preempt it only
      as follows; so PIE, MIP and MDP, which the core raises, always wait until it returns. */
  predicate PreemptsUser(x: Exno, p: Priority) {
    match x
    case Reset => p >= 1
    case Fenmi => p >= 1
    case Fpi => p >= 1
    case Syserr1 => p >= 2
    case Feint => p >= 3
    case _ => false
  }

  lemma PreemptsUserExactly(s: Intc, id: nat)
    requires Inv(s) && s.current.Some? && s.pool[s.current.value].exno == UserIntr
    requires id in s.pool && s.pool[id].exno != UserIntr
    ensures Candidate(s, id) <==> PreemptsUser(s.pool[id].exno, s.prio[s.pool[s.current.value].intno])
  {
    assert EntryOk(s.prio, s.pool[id]) && EntryOk(s.prio, s.pool[s.current.value]);
  }

  /** The largest priority number with which a user interrupt preempts the handler of another cause. */
  function Threshold(x: Exno): (t: int) {
    match x
    case Fpi => 0 case Mip => 0 case Mae => 0 case Mdp => 0 case Fpp => 0
    case Syscall => 0 case Fetrap => 0 case Trap0 => 0 case Trap1 => 0
    case Syserr2 => 2 case Rie => 3 case Ucpop => 4 case Pie => 5
    case _ => -1
  }

  /** A user interrupt that PMR does not hide preempts the handler of another cause exactly up to that
      priority number. */
  lemma UserPreemptsExactly(s: Intc, id: nat)
    requires Inv(s) && s.current.Some? && s.pool[s.current.value].exno != UserIntr
    requires id in s.pool && s.pool[id].exno == UserIntr && forall d :: d in s.pmr ==> s.prio[s.pool[id].intno] < d
    ensures Candidate(s, id) <==> s.prio[s.pool[id].intno] <= Threshold(s.pool[s.current.value].exno)
  {
    HiddenByPmr(s, id);
    assert EntryOk(s.prio, s.pool[id]) && EntryOk(s.prio, s.pool[s.current.value]);
  }

  /** And the handler of another user interrupt exactly if it is of smaller priority number, or of the
      same and of smaller interrupt number. */
  lemma UserPreemptsUser(s: Intc, id: nat)
    requires Inv(s) && s.current.Some? && s.pool[s.current.value].exno == UserIntr
    requires id in s.pool && s.pool[id].exno == UserIntr && forall d :: d in s.pmr ==> s.prio[s.pool[id].intno] < d
    ensures var i, j := s.pool[id].intno, s.pool[s.current.value].intno;
            Candidate(s, id) <==> s.prio[i] < s.prio[j] || (s.prio[i] == s.prio[j] && i < j)
  {
    HiddenByPmr(s, id);
    assert EntryOk(s.prio, s.pool[id]) && EntryOk(s.prio, s.pool[s.current.value]);
  }

  // ---------- software exceptions ----------

  /** A software exception runs with EP and ID set, FETRAP with NP set as well, SYSCALL in supervisor
      mode; TRAP and FETRAP jump to fixed addresses, and SYSCALL to its target or not at all. */
  lemma SoftwareRuns(cpu: Cpu, i: Instruction)
    ensures var t := Execute(cpu, i);
            && t.psw.ep && t.psw.id && (t.psw.np <==> i.Fetrap? || cpu.psw.np)
            && (t.psw.um <==> !i.Syscall? && cpu.psw.um) && t.psw.rest == cpu.psw.rest && t.halt == cpu.halt
            && (i.Trap? ==> t.pc == if i.vector <= 15 then 64 else 80)
            && (i.Fetrap? ==> t.pc == 48)
            && (i.Syscall? ==> match i.target case Some(a) => t.pc == a case None => t.pc == cpu.pc)
  {}

  /** Its return instruction, EIRET or for FETRAP FERET, restores PSW and goes on behind it. */
  lemma SoftwareReturns(s: Intc, i: Instruction)
    ensures var t := s.(cpu := Execute(s.cpu, i));
            var u := if i.Fetrap? then FeReturn(t) else EiReturn(t);
            u.cpu.psw == s.cpu.psw && u.cpu.pc == (s.cpu.pc + if i.Fetrap? then 2 else 4) % 0x1_0000_0000
  {}
}
