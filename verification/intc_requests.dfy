/** Bookkeeping of user interrupt requests: request bits, the user queue and the exception queue. */
module IntcRequests {
  import opened Common
  import opened IntcTypes
  import opened IntcSpec
  import opened IntcNesting

  ghost predicate HasRequest(user: seq<Entry>, intno: Intno) {
    exists k :: 0 <= k < |user| && user[k].intno == intno
  }

  ghost predicate HasRunnable(user: seq<Entry>, intno: Intno) {
    exists k :: 0 <= k < |user| && user[k].intno == intno && user[k].status.Runnable?
  }

  /** Entry id is a user interrupt copied to the exception queue and not yet started. */
  predicate Queued(pool: Pool, id: nat, intno: Intno) {
    id in pool && pool[id].exno.UserIntr? && pool[id].intno == intno && pool[id].status.Runnable?
  }

  ghost predicate Distinct(user: seq<Entry>) {
    forall j, k :: 0 <= j < k < |user| ==> user[j].intno != user[k].intno
  }

  /** Runnable requests and not-yet-started copies correspond one to one. */
  ghost predicate Matched(user: seq<Entry>, pool: Pool) {
    && (forall id, i: Intno :: Queued(pool, id, i) ==> HasRunnable(user, i))
    && (forall i: Intno :: HasRunnable(user, i) ==> exists id :: Queued(pool, id, i))
    && (forall a, b, i: Intno :: Queued(pool, a, i) && Queued(pool, b, i) ==> a == b)
  }

  /** The request bit is set exactly for the interrupts with one request in the user queue. */
  ghost predicate Book(s: Intc) {
    && Distinct(s.user)
    && (forall i: Intno :: i in s.reqFlag <==> HasRequest(s.user, i))
    && Matched(s.user, s.pool)
  }

  lemma RemoveRequest(user: seq<Entry>, k: nat)
    requires k < |user| && Distinct(user)
    ensures Distinct(RemoveAt(user, k))
    ensures forall i: Intno :: HasRequest(RemoveAt(user, k), i) <==> HasRequest(user, i) && i != user[k].intno
    ensures forall i: Intno :: HasRunnable(RemoveAt(user, k), i) <==> HasRunnable(user, i) && i != user[k].intno
  {
    var r := RemoveAt(user, k);
    forall i: Intno | HasRequest(user, i) && i != user[k].intno ensures HasRequest(r, i) {
      var j :| 0 <= j < |user| && user[j].intno == i;
      assert r[if j < k then j else j - 1] == user[j];
    }
    forall i: Intno | HasRunnable(user, i) && i != user[k].intno ensures HasRunnable(r, i) {
      var j :| 0 <= j < |user| && user[j].intno == i && user[j].status.Runnable?;
      assert r[if j < k then j else j - 1] == user[j];
    }
  }

  lemma RaiseUserKeepsBook(s: Intc, intno: Intno)
    requires Book(s)
    ensures Book(RaiseUser(s, intno))
  {
    var t := RaiseUser(s, intno);
    if intno !in s.reqFlag {
      assert t.user[|s.user|].intno == intno;
      forall i: Intno ensures HasRequest(t.user, i) <==> HasRequest(s.user, i) || i == intno {
        if HasRequest(s.user, i) {
          var k :| 0 <= k < |s.user| && s.user[k].intno == i;
          assert t.user[k].intno == i;
        }
      }
      forall i: Intno ensures HasRunnable(t.user, i) <==> HasRunnable(s.user, i) {
        if HasRunnable(s.user, i) {
          var k :| 0 <= k < |s.user| && s.user[k].intno == i && s.user[k].status.Runnable?;
          assert t.user[k].intno == i;
        }
      }
    }
  }

  lemma RaiseSystemKeepsBook(s: Intc, exno: Exno)
    requires Inv(s) && Book(s) && !exno.UserIntr?
    ensures Book(RaiseSystem(s, exno))
  {
    var t := RaiseSystem(s, exno);
    assert forall id, i: Intno :: Queued(t.pool, id, i) <==> Queued(s.pool, id, i);
  }

  /** The request picked from the user queue is pending when it is admitted. */
  lemma AdmitKeepsBook(s: Intc, k: nat)
    requires Inv(s) && Book(s) && k < |s.user| && s.user[k].status.Pending?
    ensures Book(Admit(s, k))
  {
    var t := Admit(s, k);
    if t != s {
      var intno := s.user[k].intno;
      assert !HasRunnable(s.user, intno);
      forall i: Intno ensures HasRequest(t.user, i) <==> HasRequest(s.user, i) {
        if HasRequest(s.user, i) {
          var j :| 0 <= j < |s.user| && s.user[j].intno == i;
          assert t.user[j].intno == i;
        }
        if HasRequest(t.user, i) {
          var j :| 0 <= j < |t.user| && t.user[j].intno == i;
          assert s.user[j].intno == i;
        }
      }
      forall i: Intno ensures HasRunnable(t.user, i) <==> HasRunnable(s.user, i) || i == intno {
        if HasRunnable(s.user, i) {
          var j :| 0 <= j < |s.user| && s.user[j].intno == i && s.user[j].status.Runnable?;
          assert t.user[j] == s.user[j];
        }
        assert t.user[k].intno == intno;
      }
      assert forall id, i: Intno :: Queued(t.pool, id, i) <==> Queued(s.pool, id, i) || (id == s.next && i == intno);
      forall i: Intno | HasRunnable(t.user, i) ensures exists id :: Queued(t.pool, id, i) {
        if i == intno {
          assert Queued(t.pool, s.next, i);
        } else {
          var id :| Queued(s.pool, id, i);
          assert Queued(t.pool, id, i);
        }
      }
    }
  }

  lemma JudgeUserKeepsBook(s: Intc)
    requires Inv(s) && Book(s)
    ensures Book(JudgeUser(s))
  {
    if UserChoice(s).Some? && s.user[UserChoice(s).value].status.Pending? {
      AdmitKeepsBook(s.(cpu := s.cpu.(halt := false)), UserChoice(s).value);
    }
  }

  /** The search of hook_UserIntr_Raised always finds the request, and it is the only one. */
  lemma RequestFound(s: Intc, x: nat)
    requires Book(s) && x in s.pool && s.pool[x].exno.UserIntr? && s.pool[x].status.Runnable?
    ensures FindUser(s.user, s.pool[x].intno) < |s.user|
    ensures s.user[FindUser(s.user, s.pool[x].intno)].status.Runnable?
    ensures s.pool[x].intno in s.reqFlag
  {
    assert Queued(s.pool, x, s.pool[x].intno);
  }

  /** Starting entry x: what becomes of the request structures. */
  lemma StartKeepsBook(s: Intc, x: nat, handler: nat)
    requires Inv(s) && Book(s) && x in s.pool && s.pool[x].status.Runnable?
    ensures Book(Enter(s.(pool := Switch(s.pool, s.current, x), current := Some(x)), s.pool[x], handler))
  {
    var e := s.pool[x];
    var p := Switch(s.pool, s.current, x);
    var t := Enter(s.(pool := p, current := Some(x)), e, handler);
    assert forall id, i: Intno :: Queued(p, id, i) <==> Queued(s.pool, id, i) && id != x;
    if e.exno.UserIntr? {
      RequestFound(s, x);
      RemoveRequest(s.user, FindUser(s.user, e.intno));
      assert Queued(s.pool, x, e.intno);
    }
  }

  lemma QuietPoolKeepsBook(s: Intc, p: Pool)
    requires Book(s)
    requires forall id, i: Intno :: Queued(p, id, i) <==> Queued(s.pool, id, i)
    ensures Book(s.(pool := p))
  {}

  lemma TakeKeepsBook(s: Intc, x: nat, handler: nat)
    requires Inv(s) && Book(s) && Choice(s) == Some(x)
    ensures Book(Take(s, x, handler))
  {
    DispatchChoice(s, x);
    if s.pool[x].status.Runnable? && CanRaise(s.cpu, s.pool[x].req) {
      StartKeepsBook(s, x, handler);
    } else {
      QuietPoolKeepsBook(s, Take(s, x, handler).pool);
    }
  }

  lemma ClockKeepsBook(s: Intc, handler: nat)
    requires Inv(s) && Book(s)
    ensures Book(Clock(s, handler))
  {
    var j := JudgeUser(s);
    JudgeUserKeepsInv(s);
    JudgeUserKeepsBook(s);
    if Choice(j).Some? {
      TakeKeepsBook(j, Choice(j).value, handler);
    }
  }

  lemma ReturnsKeepBook(s: Intc)
    requires Inv(s) && Book(s)
    ensures Book(FeReturn(s)) && Book(EiReturn(s))
  {
    QuietPoolKeepsBook(s, Pop(s).pool);
  }

  // ---------- software clearing a request ----------

  /** What clearing leaves of the user queue. */
  lemma ClearedUsers(s: Intc, intno: Intno)
    requires Book(s)
    ensures var t := GuestClear(s, intno);
            && Distinct(t.user) && (forall i: Intno :: i in t.reqFlag <==> HasRequest(t.user, i))
            && forall i: Intno :: HasRunnable(t.user, i) <==> HasRunnable(s.user, i) && i != intno
  {
    var k := FindUser(s.user, intno);
    if k < |s.user| {
      RemoveRequest(s.user, k);
      assert HasRequest(s.user, intno);
    }
  }

  /** Entry id is an exception of another cause that has not been entered yet. */
  predicate Awaiting(pool: Pool, id: nat) {
    id in pool && !pool[id].exno.UserIntr? && pool[id].status.Runnable?
  }

  /** An exception that the lists hold ahead of every copy of interrupt 0. */
  ghost predicate AheadOfCopies(pool: Pool, id: nat) {
    Awaiting(pool, id) && forall y :: Queued(pool, y, 0) ==> ListedBefore(pool, id, y)
  }

  /** Clearing a request would delete an exception of another cause. */
  ghost predicate HitsSystem(p: Pool, intno: Intno) {
    Cleared(p, intno).Some? && !p[Cleared(p, intno).value].exno.UserIntr?
  }

  lemma HitsWhenAhead(s: Intc, intno: Intno)
    requires Inv(s)
    ensures HitsSystem(s.pool, intno) <==> intno == 0 && exists id :: AheadOfCopies(s.pool, id)
    ensures HitsSystem(s.pool, intno) ==> AheadOfCopies(s.pool, Cleared(s.pool, intno).value)
  {
    var c := Cleared(s.pool, intno);
    ClearedExists(s.pool, intno);
    if intno == 0 {
      if id :| AheadOfCopies(s.pool, id) {
        assert Clearable(s.pool, id, 0);
        assert s.pool[c.value].exno.UserIntr? ==> Queued(s.pool, c.value, 0);
      }
      if HitsSystem(s.pool, 0) {
        forall y | Queued(s.pool, y, 0) ensures ListedBefore(s.pool, c.value, y) {
          assert Clearable(s.pool, y, 0);
        }
        assert AheadOfCopies(s.pool, c.value);
      }
    }
  }

  /** Request bits and queues still agree after a request has been cleared, unless it is one of interrupt 0
      with a copy of its own and an exception of another cause is ahead of that copy: it is then that
      exception that is deleted, and the copy stays behind. */
  lemma GuestClearBook(s: Intc, intno: Intno)
    requires Inv(s) && Book(s)
    ensures Book(GuestClear(s, intno)) <==>
            (intno == 0 && HasRunnable(s.user, 0) ==> forall id :: !AheadOfCopies(s.pool, id))
  {
    ClearedUsers(s, intno);
    ClearedExists(s.pool, intno);
    MatchedAfterClear(s, intno, GuestClear(s, intno));
    HitsWhenAhead(s, intno);
  }

  /** The two queues still match exactly when the entry deleted was the copy of the request. */
  lemma MatchedAfterClear(s: Intc, intno: Intno, t: Intc)
    requires Matched(s.user, s.pool)
    requires forall i: Intno :: HasRunnable(t.user, i) <==> HasRunnable(s.user, i) && i != intno
    requires match Cleared(s.pool, intno)
             case None => t.pool == s.pool && forall id :: !Clearable(s.pool, id, intno)
             case Some(c) => Clearable(s.pool, c, intno) && t.pool == s.pool - {c}
    ensures Matched(t.user, t.pool) <==> (HitsSystem(s.pool, intno) ==> !HasRunnable(s.user, intno))
  {
    var c := Cleared(s.pool, intno);
    if c.Some? {
      assert forall id, i: Intno :: Queued(t.pool, id, i) <==> Queued(s.pool, id, i) && id != c.value;
      if s.pool[c.value].exno.UserIntr? {
        assert Queued(s.pool, c.value, intno);
      } else if HasRunnable(s.user, intno) {
        var id :| Queued(s.pool, id, intno);
        assert Queued(t.pool, id, intno);
      }
    } else if HasRunnable(s.user, intno) {
      var id :| Queued(s.pool, id, intno);
      assert Clearable(s.pool, id, intno);
    }
  }

  lemma {:induction false} FirstListed(p: Pool, ids: set<nat>) returns (m: nat)
    requires ids != {} && ids <= p.Keys
    ensures m in ids && forall y :: y in ids && y != m ==> ListedBefore(p, m, y)
    decreases ids
  {
    var x :| x in ids;
    if ids == {x} {
      m := x;
    } else {
      var n := FirstListed(p, ids - {x});
      m := if ListedBefore(p, x, n) then x else n;
      forall y | y in ids && y != m ensures ListedBefore(p, m, y) {
        assert y in ids - {x} || y == x;
      }
    }
  }

  lemma ClearedExists(p: Pool, intno: Intno)
    ensures Cleared(p, intno).None? <==> forall id :: !Clearable(p, id, intno)
  {
    if id :| Clearable(p, id, intno) {
      var ids := set i | i in p && Clearable(p, i, intno);
      assert id in ids;
      var m := FirstListed(p, ids);
      assert IsCleared(p, m, intno);
    }
  }
}
