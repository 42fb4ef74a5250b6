/** The controller as it runs: sixteen lists of queued exceptions and a list of user requests, updated
    in place.  Every method is proved to do to the abstract state what IntcSpec says. */
module IntcController {
  import opened Common
  import opened IntcTypes
  import opened IntcSpec
  import opened IntcNesting

  // ---------- lists of stamps ----------

  ghost predicate Sorted(ids: seq<nat>) {
    forall i, j :: 0 <= i < j < |ids| ==> ids[i] < ids[j]
  }

  function Without(ids: seq<nat>, id: nat): seq<nat> {
    if ids == [] then [] else if ids[0] == id then ids[1..] else [ids[0]] + Without(ids[1..], id)
  }

  lemma {:induction false} WithoutContents(ids: seq<nat>, id: nat)
    requires Sorted(ids)
    ensures Sorted(Without(ids, id))
    ensures forall x :: x in Without(ids, id) <==> x in ids && x != id
  {
    if ids == [] {
    } else if ids[0] == id {
      assert ids == [ids[0]] + ids[1..];
    } else {
      WithoutContents(ids[1..], id);
      assert ids == [ids[0]] + ids[1..];
      var r := Without(ids[1..], id);
      forall i, j | 0 <= i < j < |r| + 1 ensures ([ids[0]] + r)[i] < ([ids[0]] + r)[j] {
        assert r[j - 1] in ids[1..];
      }
    }
  }

  /** Each level's list holds exactly the entries of that level, in order of arrival. */
  ghost predicate Lists(queue: seq<seq<nat>>, node: Pool) {
    && |queue| == NUM_LEVELS
    && (forall l :: 0 <= l < NUM_LEVELS ==> Sorted(queue[l]))
    && (forall l, id :: 0 <= l < NUM_LEVELS ==> (id in queue[l] <==> id in node && node[id].req.level == l))
    && (forall id :: id in node ==> node[id].req.level < NUM_LEVELS)
  }

  lemma AppendKeepsLists(queue: seq<seq<nat>>, node: Pool, id: nat, e: Entry)
    requires Lists(queue, node) && e.req.level < NUM_LEVELS
    requires forall x :: x in node ==> x < id
    ensures Lists(queue[e.req.level := queue[e.req.level] + [id]], node[id := e])
  {
    var ids := queue[e.req.level];
    forall i | 0 <= i < |ids| ensures ids[i] < id {
      var x := ids[i];
      assert x in ids;
      assert x in node;
    }
    var l0 := e.req.level;
    var q, n := queue[l0 := ids + [id]], node[id := e];
    forall l, x | 0 <= l < NUM_LEVELS ensures x in q[l] <==> x in n && n[x].req.level == l {
      assert id !in node;
      assert x in queue[l] <==> x in node && node[x].req.level == l;
      if l == l0 {
        assert x in ids + [id] <==> x in ids || x == id;
      }
    }
    assert Sorted(q[l0]);
  }

  lemma RemoveKeepsLists(queue: seq<seq<nat>>, node: Pool, id: nat)
    requires Lists(queue, node) && id in node
    ensures var l := node[id].req.level;
            Lists(queue[l := Without(queue[l], id)], node - {id})
  {
    WithoutContents(queue[node[id].req.level], id);
  }

  lemma StatusKeepsLists(queue: seq<seq<nat>>, node: Pool, id: nat, status: Status)
    requires Lists(queue, node) && id in node
    ensures Lists(queue, SetStatus(node, id, status))
  {}

  // ---------- register scans ----------

  method LowestBit(bits: set<Priority>) returns (d: nat)
    ensures d == Lowest(bits)
  {
    d := 0;
    while d < NUM_PRIORITIES
      invariant 0 <= d <= NUM_PRIORITIES
      invariant Lowest(bits) == LowestFrom(bits, d)
    {
      if d in bits { return; }
      d := d + 1;
    }
  }

  lemma EnterIgnoresHalt(s: Intc, e: Entry, handler: nat)
    ensures Enter(s.(cpu := s.cpu.(halt := false)), e, handler) == Enter(s, e, handler)
  {}

  class Controller {
    const pmrFix: bool
    var ispc: bool
    var prio: Priorities
    var reqFlag: set<Intno>
    var masked: set<Intno>
    var ispr: set<Priority>
    var pmr: set<Priority>
    var user: seq<Entry>
    var queue: seq<seq<nat>>
    var node: Pool
    var next: nat
    var current: Option<nat>
    var cpu: Cpu

    ghost function View(): Intc
      reads this
    {
      Intc(pmrFix, ispc, prio, reqFlag, masked, ispr, pmr, user, node, next, current, cpu)
    }

    ghost predicate Valid()
      reads this
    {
      && Lists(queue, node)
      && (forall id :: id in node ==> id < next && node[id].degree < MAX_DEGREE)
      && (forall k :: 0 <= k < |user| ==> user[k].degree < MAX_DEGREE && user[k].req.level < NUM_LEVELS)
      && (current.Some? ==> current.value in node)
    }

    constructor (pmrFix: bool, prio: Priorities, cpu: Cpu)
      ensures Valid()
      ensures View() == Intc(pmrFix, false, prio, {}, {}, {}, {}, [], map[], 0, None, cpu)
    {
      this.pmrFix := pmrFix;
      this.prio, this.cpu, ispc := prio, cpu, false;
      reqFlag, masked, ispr, pmr := {}, {}, {}, {};
      user, queue, node, next, current := [], seq(NUM_LEVELS, _ => []), map[], 0, None;
    }

    method RaiseUserInterrupt(intno: Intno)
      requires Valid()
      modifies this
      ensures Valid() && View() == RaiseUser(old(View()), intno)
    {
      if intno in reqFlag { return; }
      user := user + [NewEntry(prio, UserIntr, intno, Pending)];
      reqFlag := reqFlag + {intno};
    }

    /** An entry joins the exception queue of its level. */
    method Append(e: Entry)
      requires Valid() && e.degree < MAX_DEGREE && e.req.level < NUM_LEVELS
      modifies this`queue, this`node, this`next
      ensures Valid() && node == old(node)[old(next) := e] && next == old(next) + 1
    {
      AppendKeepsLists(queue, node, next, e);
      queue := queue[e.req.level := queue[e.req.level] + [next]];
      node := node[next := e];
      next := next + 1;
    }

    method RaiseException(exno: Exno)
      requires Valid()
      modifies this
      ensures Valid() && View() == RaiseSystem(old(View()), exno)
    {
      Append(NewEntry(prio, exno, 0, Runnable));
      cpu := cpu.(halt := false);
    }

    /** The scan of the user queue for the unmasked request of least degree. */
    method ScanUserQueue() returns (candidate: Option<nat>)
      requires Valid()
      ensures candidate == UserChoice(View())
    {
      candidate := None;
      var minDegree := MAX_DEGREE;
      var k := 0;
      while k < |user|
        invariant 0 <= k <= |user|
        invariant candidate.None? ==> minDegree == MAX_DEGREE && forall j :: 0 <= j < k ==> !Unmasked(View(), j)
        invariant candidate.Some? ==> candidate.value < k && Unmasked(View(), candidate.value)
                                      && minDegree == user[candidate.value].degree
        invariant candidate.Some? ==> forall j :: 0 <= j < k && Unmasked(View(), j) ==>
                    minDegree < user[j].degree || (minDegree == user[j].degree && candidate.value <= j)
      {
        if user[k].intno !in masked && user[k].degree < minDegree {
          minDegree, candidate := user[k].degree, Some(k);
        }
        k := k + 1;
      }
      if candidate.Some? {
        assert IsUserChoice(View(), candidate.value);
        UserChoiceUnique(View(), candidate.value);
      }
    }

    method AdmitRequest(k: nat)
      requires Valid() && k < |user|
      modifies this`user, this`queue, this`node, this`next
      ensures Valid() && View() == Admit(old(View()), k)
    {
      var e := user[k];
      var inService := LowestBit(ispr);
      if inService <= prio[e.intno] { return; }
      var mask := LowestBit(pmr);
      if mask <= prio[e.intno] { return; }
      var copy := e.(status := Runnable);
      user := user[k := copy];
      Append(copy);
    }

    method JudgePendingUser()
      requires Valid()
      modifies this
      ensures Valid() && View() == JudgeUser(old(View()))
    {
      var candidate := ScanUserQueue();
      if candidate.None? || user[candidate.value].status.Runnable? { return; }
      cpu := cpu.(halt := false);
      AdmitRequest(candidate.value);
    }

    /** The scan of one level, going on from the bound left by the caller. */
    method ScanLevel(level: nat, bound: nat) returns (best: Option<nat>)
      requires Valid() && level < NUM_LEVELS
      ensures best.None? ==> forall id :: id in queue[level] && Eligible(View(), id) ==> bound <= node[id].degree
      ensures best.Some? ==>
                var x := best.value;
                && x in queue[level] && Eligible(View(), x) && node[x].degree < bound
                && forall y :: y in queue[level] && y != x && Eligible(View(), y) ==> Before(node, x, y)
    {
      best := None;
      var minDegree := bound;
      var mask := LowestBit(pmr);
      var ids := queue[level];
      var i := 0;
      while i < |ids|
        invariant 0 <= i <= |ids|
        invariant best.None? ==> minDegree == bound
        invariant best.None? ==> forall j :: 0 <= j < i && Eligible(View(), ids[j]) ==> bound <= node[ids[j]].degree
        invariant best.Some? ==> best.value in ids[..i] && Eligible(View(), best.value)
        invariant best.Some? ==> best.value in node && minDegree == node[best.value].degree < bound
        invariant best.Some? ==> forall j :: 0 <= j < i && ids[j] != best.value && Eligible(View(), ids[j]) ==>
                    Before(node, best.value, ids[j])
      {
        var req := ids[i];
        assert req in queue[level];
        if pmrFix && node[req].exno.UserIntr? && mask <= prio[node[req].intno] {
        } else if node[req].degree < minDegree {
          minDegree, best := node[req].degree, Some(req);
        }
        i := i + 1;
      }
    }

    /** The scan of the exception queues, level by level up to the current entry's. */
    method ScanExceptions() returns (candidate: Option<nat>)
      requires Valid()
      ensures candidate == Choice(View())
    {
      var top, bound := NUM_LEVELS - 1, MAX_DEGREE;
      if current.Some? {
        top, bound := node[current.value].req.level, node[current.value].degree;
      }
      var level := 0;
      candidate := None;
      while level <= top
        invariant 0 <= level <= top + 1 && candidate.None?
        invariant forall id :: Candidate(View(), id) ==> level <= node[id].req.level
      {
        candidate := ScanLevel(level, bound);
        if candidate.Some? {
          assert IsChoice(View(), candidate.value);
          ChoiceUnique(View(), candidate.value);
          return;
        }
        level := level + 1;
      }
      forall id ensures !Candidate(View(), id) {}
    }

    method ConsumeRequest(intno: Intno)
      requires Valid()
      modifies this`user, this`reqFlag, this`ispr
      ensures Valid() && View() == HookUserRaised(old(View()), intno)
    {
      var k := FindRequest(intno);
      if !ispc { ispr := ispr + {prio[intno]}; }
      if k < |user| {
        user := RemoveAt(user, k);
        reqFlag := reqFlag - {intno};
      }
    }

    method FindRequest(intno: Intno) returns (k: nat)
      ensures k == FindUser(user, intno)
    {
      k := 0;
      while k < |user|
        invariant 0 <= k <= |user|
        invariant FindUser(user, intno) == k + FindUser(user[k..], intno)
      {
        if user[k].intno == intno { return; }
        k := k + 1;
      }
    }

    method EnterHandler(e: Entry, handler: nat)
      requires Valid()
      modifies this`user, this`reqFlag, this`ispr, this`cpu
      ensures Valid() && View() == Enter(old(View()), e, handler)
    {
      if e.exno.UserIntr? { ConsumeRequest(e.intno); }
      if e.req.handling.FE? {
        cpu := cpu.(fepc := cpu.pc, fepsw := cpu.psw);
      } else {
        cpu := cpu.(eipc := cpu.pc, eipsw := cpu.psw);
      }
      cpu := cpu.(psw := EnterPsw(cpu.psw, e.req));
      cpu := cpu.(pc := handler, halt := false);
    }

    method SetNodeStatus(id: nat, status: Status)
      requires Valid() && id in node
      modifies this`node
      ensures Valid() && node == SetStatus(old(node), id, status)
    {
      StatusKeepsLists(queue, node, id, status);
      node := node[id := node[id].(status := status)];
    }

    /** Does PSW let the exception in?  A halted core that accepts one is woken. */
    method CheckPsw(req: Config) returns (ok: bool)
      requires Valid()
      modifies this`cpu
      ensures Valid() && ok == CanRaise(old(cpu), req)
      ensures cpu == old(cpu) || (ok && cpu == old(cpu).(halt := false))
    {
      if !req.condNp && cpu.psw.np { return false; }
      if !req.condId && cpu.psw.id {
        if cpu.halt {
          cpu := cpu.(halt := false);
          return true;
        }
        return false;
      }
      return true;
    }

    method JudgePendingException(handler: nat)
      requires Valid()
      modifies this`user, this`reqFlag, this`ispr, this`cpu, this`node, this`current
      ensures Valid() && View() == Dispatch(old(View()), handler)
    {
      var candidate := ScanExceptions();
      if candidate.None? { return; }
      TakeEntry(candidate.value, handler);
    }

    method TakeEntry(x: nat, handler: nat)
      requires Valid() && x in node && current != Some(x)
      modifies this`user, this`reqFlag, this`ispr, this`cpu, this`node, this`current
      ensures Valid() && View() == Take(old(View()), x, handler)
    {
      var e := node[x];
      if e.status.Waiting? {
        SetNodeStatus(x, Running);
        current := Some(x);
        return;
      }
      if current.Some? { SetNodeStatus(current.value, Waiting); }
      TryEntry(x, e, handler);
    }

    /** A new entry is started if PSW lets it in. */
    method TryEntry(x: nat, e: Entry, handler: nat)
      requires Valid() && x in node
      modifies this`user, this`reqFlag, this`ispr, this`cpu, this`node, this`current
      ensures Valid()
      ensures View() == if !CanRaise(old(cpu), e.req) then old(View())
                        else Enter(old(View()).(pool := SetStatus(old(node), x, Running), current := Some(x)), e,
                            handler)
    {
      ghost var s := View();
      var ok := CheckPsw(e.req);
      if ok {
        EnterIgnoresHalt(s.(pool := SetStatus(s.pool, x, Running), current := Some(x)), e, handler);
        StartEntry(x, e, handler);
      }
    }

    /** Makes an entry the current one and enters its handler. */
    method StartEntry(x: nat, e: Entry, handler: nat)
      requires Valid() && x in node
      modifies this`user, this`reqFlag, this`ispr, this`cpu, this`node, this`current
      ensures Valid()
      ensures View() == Enter(old(View()).(pool := SetStatus(old(node), x, Running), current := Some(x)), e, handler)
    {
      SetNodeStatus(x, Running);
      current := Some(x);
      EnterHandler(e, handler);
    }

    method SupplyClock(handler: nat)
      requires Valid()
      modifies this
      ensures Valid() && View() == Clock(old(View()), handler)
    {
      JudgePendingUser();
      JudgePendingException(handler);
    }

    /** An entry leaves the exception queue of its level. */
    method Unlink(id: nat)
      requires Valid() && id in node && current != Some(id)
      modifies this`queue, this`node
      ensures Valid() && node == old(node) - {id}
    {
      var l := node[id].req.level;
      RemoveKeepsLists(queue, node, id);
      queue := queue[l := Without(queue[l], id)];
      node := node - {id};
    }

    method ClearFe()
      requires Valid()
      modifies this
      ensures Valid() && View() == Pop(old(View()))
    {
      if current.None? { return; }
      var c := current.value;
      current := None;
      Unlink(c);
    }

    method ReturnFe()
      requires Valid()
      modifies this
      ensures Valid() && View() == FeReturn(old(View()))
    {
      cpu := cpu.(pc := cpu.fepc);
      cpu := cpu.(psw := cpu.fepsw);
      ClearFe();
    }

    method ReturnEi()
      requires Valid()
      modifies this
      ensures Valid() && View() == EiReturn(old(View()))
    {
      cpu := cpu.(pc := cpu.eipc);
      cpu := cpu.(psw := cpu.eipsw);
      if current.Some? && node[current.value].exno.UserIntr? && !ispc && !cpu.psw.ep {
        var d := LowestBit(ispr);
        if d < NUM_PRIORITIES { ispr := ispr - {d}; }
      }
      ClearFe();
    }

    /** The first not-yet-started entry of one level that carries the interrupt number. */
    method FindInLevel(level: nat, intno: Intno) returns (found: Option<nat>)
      requires Valid() && level < NUM_LEVELS
      ensures found.None? ==> forall id :: id in queue[level] ==> !Clearable(node, id, intno)
      ensures found.Some? ==>
                && found.value in queue[level] && Clearable(node, found.value, intno)
                && forall id :: id in queue[level] && id < found.value ==> !Clearable(node, id, intno)
    {
      var ids := queue[level];
      var i := 0;
      while i < |ids|
        invariant 0 <= i <= |ids|
        invariant forall j :: 0 <= j < i ==> !Clearable(node, ids[j], intno)
      {
        var req := ids[i];
        assert req in queue[level];
        if node[req].intno == intno && node[req].status.Runnable? {
          return Some(req);
        }
        i := i + 1;
      }
      return None;
    }

    method FindClearable(intno: Intno) returns (found: Option<nat>)
      requires Valid()
      ensures found == Cleared(node, intno)
    {
      var level := 0;
      found := None;
      while level < NUM_LEVELS
        invariant 0 <= level <= NUM_LEVELS && found.None?
        invariant forall id :: Clearable(node, id, intno) ==> level <= node[id].req.level
      {
        found := FindInLevel(level, intno);
        if found.Some? {
          assert IsCleared(node, found.value, intno);
          return;
        }
        level := level + 1;
      }
    }

    /** The current entry has started, so it is never the one deleted. */
    method WithdrawRequest(intno: Intno)
      requires Valid() && (current.Some? ==> Started(node[current.value]))
      modifies this`user, this`queue, this`node, this`reqFlag
      ensures Valid() && View() == GuestClear(old(View()), intno)
    {
      reqFlag := reqFlag - {intno};
      WithdrawUser(intno);
      WithdrawException(intno);
    }

    method WithdrawException(intno: Intno)
      requires Valid() && (current.Some? ==> Started(node[current.value]))
      modifies this`queue, this`node
      ensures Valid() && node == WithoutCleared(old(node), intno)
    {
      var found := FindClearable(intno);
      if found.Some? { Unlink(found.value); }
    }

    method WithdrawUser(intno: Intno)
      requires Valid()
      modifies this`user
      ensures Valid()
      ensures user == WithoutRequest(old(user), intno)
    {
      var k := FindRequest(intno);
      if k < |user| { user := RemoveAt(user, k); }
    }
  }
}
