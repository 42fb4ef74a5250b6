/** Visiting every clock against jumping to the next one that matters, for devices of any kind. */
module ClockRuns {

  /** Devices of state D.  supply gives them a clock and says what happened; jump says how far the clock may
      go on; essence is the part of the state that matters later; settled states may be jumped from. */
  datatype System<!D, !H> = System(
    supply: (D, nat) -> (D, H),
    jump: (D, nat) -> nat,
    essence: D -> D,
    settled: (D, nat) -> bool,
    nothing: H)

  /** States of one essence meet the same fate. */
  ghost predicate SameFate<D, H>(y: System<D, H>, a: D, b: D, clock: nat) {
    y.essence(a) == y.essence(b) ==>
      y.essence(y.supply(a, clock).0) == y.essence(y.supply(b, clock).0) && y.supply(a, clock).1 == y.supply(b, clock).1
  }

  /** A clock short of the end of a jump leaves everything that matters as it is. */
  ghost predicate KeepsEssence<D, H>(y: System<D, H>, d: D, clock: nat, u: nat) {
    y.settled(d, clock) && clock < u < clock + y.jump(d, clock) ==> y.essence(y.supply(d, u).0) == y.essence(d)
  }

  /** A jump goes forward, and the clock at its end leaves the devices settled. */
  ghost predicate Lands<D, H>(y: System<D, H>, d: D, clock: nat) {
    y.settled(d, clock) ==>
      y.jump(d, clock) >= 1 && y.settled(y.supply(d, clock + y.jump(d, clock)).0, clock + y.jump(d, clock))
  }

  ghost predicate Lawful<D(!new), H>(y: System<D, H>) {
    && (forall a, b, clock :: SameFate(y, a, b, clock))
    && (forall d, clock, u :: KeepsEssence(y, d, clock, u))
    && (forall d, clock :: Lands(y, d, clock))
  }

  ghost predicate QuietAt<D, H>(y: System<D, H>, d: D, u: nat) {
    y.supply(d, u).1 == y.nothing
  }

  /** Nothing happens at the clocks that a jump passes over. */
  ghost predicate Calm<D, H>(y: System<D, H>, d: D, clock: nat) {
    forall u :: clock < u < clock + y.jump(d, clock) ==> QuietAt(y, d, u)
  }

  /** What happened at which clock. */
  datatype Entry<H> = Entry(clock: nat, what: H)

  datatype Run<D, H> = Run(d: D, clock: nat, log: seq<Entry<H>>)

  /** Visits the clock n after the current one. */
  function Visit<D, H(==)>(y: System<D, H>, r: Run<D, H>, n: nat): Run<D, H> {
    var s := y.supply(r.d, r.clock + n);
    Run(s.0, r.clock + n, if s.1 == y.nothing then r.log else r.log + [Entry(r.clock + n, s.1)])
  }

  /** Visits each of the next n clocks. */
  function Walk<D, H(==)>(y: System<D, H>, r: Run<D, H>, n: nat): (v: Run<D, H>)
    ensures v.clock == r.clock + n
  {
    if n == 0 then r else Visit(y, Walk(y, r, n - 1), 1)
  }

  /** Makes k jumps. */
  function Jumps<D, H(==)>(y: System<D, H>, r: Run<D, H>, k: nat): (v: Run<D, H>)
    ensures v.clock >= r.clock
  {
    if k == 0 then r
    else
      var p := Jumps(y, r, k - 1);
      Visit(y, p, y.jump(p.d, p.clock))
  }

  ghost predicate Same<D, H>(y: System<D, H>, a: Run<D, H>, b: Run<D, H>) {
    y.essence(a.d) == y.essence(b.d) && a.clock == b.clock && a.log == b.log
  }

  /** How many of the n clocks after this one bring something. */
  ghost function Busy<D, H>(y: System<D, H>, d: D, clock: nat, n: nat): nat {
    if n == 0 then 0 else Busy(y, d, clock, n - 1) + if QuietAt(y, d, clock + n) then 0 else 1
  }

  lemma {:induction false} BusyZero<D, H>(y: System<D, H>, d: D, clock: nat, n: nat)
    ensures Busy(y, d, clock, n) == 0 <==> forall u :: clock < u <= clock + n ==> QuietAt(y, d, u)
  {
    if n > 0 {
      BusyZero(y, d, clock, n - 1);
    }
  }

  /** Runs that differ in nothing that matters later. */
  ghost predicate Level<D, H>(y: System<D, H>, a: Run<D, H>, b: Run<D, H>) {
    y.essence(a.d) == y.essence(b.d) && a.clock == b.clock
  }

  /** From such runs a visit adds the same to the log. */
  lemma VisitLevel<D, H>(y: System<D, H>, a: Run<D, H>, b: Run<D, H>, n: nat)
    requires Level(y, a, b) && SameFate(y, a.d, b.d, a.clock + n)
    ensures Level(y, Visit(y, a, n), Visit(y, b, n))
    ensures |Visit(y, a, n).log| - |a.log| == |Visit(y, b, n).log| - |b.log|
    ensures a.log == b.log ==> Visit(y, a, n).log == Visit(y, b, n).log
  {}

  lemma {:induction false} WalkLevel<D(!new), H>(y: System<D, H>, a: Run<D, H>, b: Run<D, H>, n: nat)
    requires Lawful(y) && Level(y, a, b)
    ensures Level(y, Walk(y, a, n), Walk(y, b, n))
    ensures |Walk(y, a, n).log| - |a.log| == |Walk(y, b, n).log| - |b.log|
    ensures a.log == b.log ==> Walk(y, a, n).log == Walk(y, b, n).log
  {
    if n > 0 {
      WalkLevel(y, a, b, n - 1);
      assert SameFate(y, Walk(y, a, n - 1).d, Walk(y, b, n - 1).d, a.clock + n - 1 + 1);
      VisitLevel(y, Walk(y, a, n - 1), Walk(y, b, n - 1), 1);
    }
  }

  /** Walking inside a jump keeps what matters and logs what happens on the way. */
  lemma {:induction false} WalkInside<D(!new), H>(y: System<D, H>, r: Run<D, H>, n: nat)
    requires Lawful(y) && y.settled(r.d, r.clock) && n < y.jump(r.d, r.clock)
    ensures y.essence(Walk(y, r, n).d) == y.essence(r.d)
    ensures |Walk(y, r, n).log| == |r.log| + Busy(y, r.d, r.clock, n)
    ensures Busy(y, r.d, r.clock, n) == 0 ==> Walk(y, r, n).log == r.log
  {
    if n > 0 {
      WalkInside(y, r, n - 1);
      assert SameFate(y, Walk(y, r, n - 1).d, r.d, r.clock + n);
      assert KeepsEssence(y, r.d, r.clock, r.clock + n);
    }
  }

  lemma {:induction false} WalkOn<D, H>(y: System<D, H>, r: Run<D, H>, n: nat, m: nat)
    ensures Walk(y, Walk(y, r, n), m) == Walk(y, r, n + m)
    decreases m
  {
    if m > 0 {
      WalkOn(y, r, n, m - 1);
    }
  }

  lemma CalmIsNotBusy<D, H>(y: System<D, H>, d: D, clock: nat, n: nat)
    requires n + 1 == y.jump(d, clock)
    ensures Busy(y, d, clock, n) == 0 <==> Calm(y, d, clock)
  {
    BusyZero(y, d, clock, n);
  }

  /** One jump against walking all the way: it ends up in the same state, and its log lacks just what happened
      on the way. */
  lemma JumpAgainstWalk<D(!new), H>(y: System<D, H>, r: Run<D, H>, n: nat)
    requires Lawful(y) && y.settled(r.d, r.clock) && n + 1 == y.jump(r.d, r.clock)
    ensures Level(y, Visit(y, r, n + 1), Walk(y, r, n + 1))
    ensures |Walk(y, r, n + 1).log| == |Visit(y, r, n + 1).log| + Busy(y, r.d, r.clock, n)
    ensures Busy(y, r.d, r.clock, n) == 0 ==> Walk(y, r, n + 1).log == Visit(y, r, n + 1).log
  {
    WalkInside(y, r, n);
    assert SameFate(y, r.d, Walk(y, r, n).d, r.clock + n + 1);
  }

  /** How much happens at the clocks that k jumps pass over. */
  ghost function Missed<D, H>(y: System<D, H>, r: Run<D, H>, k: nat): nat {
    if k == 0 then 0
    else
      var p := Jumps(y, r, k - 1);
      var m := y.jump(p.d, p.clock);
      Missed(y, r, k - 1) + if m == 0 then 0 else Busy(y, p.d, p.clock, m - 1)
  }

  /** Run v has come to the same state as w, and its log lacks as many entries as were missed. */
  ghost predicate Behind<D, H>(y: System<D, H>, v: Run<D, H>, w: Run<D, H>, missed: nat) {
    && Level(y, v, w)
    && |w.log| == |v.log| + missed
    && (missed == 0 ==> w.log == v.log)
  }

  /** k jumps go through the same happenings at the same clocks as walking the same distance. */
  ghost predicate JumpsAgree<D, H>(y: System<D, H>, r: Run<D, H>, k: nat) {
    var v := Jumps(y, r, k);
    v.clock >= r.clock + k && Same(y, v, Walk(y, r, v.clock - r.clock))
  }

  /** Each of the first k jumps passes over nothing. */
  ghost predicate AllCalm<D, H>(y: System<D, H>, r: Run<D, H>, k: nat) {
    k == 0 || (AllCalm(y, r, k - 1) && Calm(y, Jumps(y, r, k - 1).d, Jumps(y, r, k - 1).clock))
  }

  lemma OneMoreJump<D(!new), H>(y: System<D, H>, p: Run<D, H>, w: Run<D, H>, missed: nat, n: nat)
    requires Lawful(y) && y.settled(p.d, p.clock) && Behind(y, p, w, missed) && n + 1 == y.jump(p.d, p.clock)
    ensures Behind(y, Visit(y, p, n + 1), Walk(y, w, n + 1), missed + Busy(y, p.d, p.clock, n))
    ensures y.settled(Visit(y, p, n + 1).d, Visit(y, p, n + 1).clock)
  {
    assert Lands(y, p.d, p.clock);
    JumpAgainstWalk(y, p, n);
    WalkLevel(y, p, w, n + 1);
  }

  lemma OneMoreInRun<D(!new), H>(y: System<D, H>, r: Run<D, H>, p: Run<D, H>, n: nat, missed: nat, m: nat)
    requires Lawful(y) && y.settled(p.d, p.clock) && Behind(y, p, Walk(y, r, n), missed) &&
             m == y.jump(p.d, p.clock) >= 1
    ensures Behind(y, Visit(y, p, m), Walk(y, r, n + m), missed + Busy(y, p.d, p.clock, m - 1))
  {
    OneMoreJump(y, p, Walk(y, r, n), missed, m - 1);
    WalkOn(y, r, n, m);
  }

  lemma {:induction false} JumpsLand<D(!new), H>(y: System<D, H>, r: Run<D, H>, k: nat)
    requires Lawful(y) && y.settled(r.d, r.clock)
    ensures y.settled(Jumps(y, r, k).d, Jumps(y, r, k).clock) && Jumps(y, r, k).clock >= r.clock + k
  {
    if k > 0 {
      JumpsLand(y, r, k - 1);
      assert Lands(y, Jumps(y, r, k - 1).d, Jumps(y, r, k - 1).clock);
    }
  }

  /** The state after k jumps is the one after walking the same distance n, and what the jumps' log lacks is
      accounted for. */
  ghost predicate Accounted<D, H>(y: System<D, H>, r: Run<D, H>, k: nat, n: nat) {
    Jumps(y, r, k).clock == r.clock + n && Behind(y, Jumps(y, r, k), Walk(y, r, n), Missed(y, r, k))
  }

  lemma AccountedVisit<D(!new), H>(y: System<D, H>, r: Run<D, H>, k: nat, n: nat, p: Run<D, H>, m: nat)
    requires Lawful(y) && p == Jumps(y, r, k) && y.settled(p.d, p.clock) && m == y.jump(p.d, p.clock) >= 1
    requires Accounted(y, r, k, n)
    ensures Accounted(y, r, k + 1, n + m)
  {
    OneMoreInRun(y, r, p, n, Missed(y, r, k), m);
    assert Jumps(y, r, k + 1) == Visit(y, p, m);
  }

  lemma AccountedNext<D(!new), H>(y: System<D, H>, r: Run<D, H>, k: nat, n: nat) returns (u: nat)
    requires Lawful(y) && y.settled(r.d, r.clock) && Accounted(y, r, k, n)
    ensures Accounted(y, r, k + 1, u)
  {
    var p := Jumps(y, r, k);
    JumpsLand(y, r, k);
    assert Lands(y, p.d, p.clock);
    u := n + y.jump(p.d, p.clock);
    AccountedVisit(y, r, k, n, p, y.jump(p.d, p.clock));
  }

  lemma {:induction false} JumpsAccounted<D(!new), H>(y: System<D, H>, r: Run<D, H>, k: nat) returns (n: nat)
    requires Lawful(y) && y.settled(r.d, r.clock)
    ensures Accounted(y, r, k, n)
  {
    if k == 0 {
      n := 0;
    } else {
      n := JumpsAccounted(y, r, k - 1);
      n := AccountedNext(y, r, k - 1, n);
    }
  }

  lemma {:induction false} NothingMissed<D(!new), H>(y: System<D, H>, r: Run<D, H>, k: nat)
    requires Lawful(y) && y.settled(r.d, r.clock)
    ensures Missed(y, r, k) == 0 <==> AllCalm(y, r, k)
  {
    if k > 0 {
      NothingMissed(y, r, k - 1);
      JumpsLand(y, r, k - 1);
      MissedNext(y, r, k - 1, Jumps(y, r, k - 1));
    }
  }

  lemma MissedNext<D(!new), H>(y: System<D, H>, r: Run<D, H>, k: nat, p: Run<D, H>)
    requires Lawful(y) && p == Jumps(y, r, k) && y.settled(p.d, p.clock)
    ensures Missed(y, r, k + 1) == Missed(y, r, k) <==> Calm(y, p.d, p.clock)
  {
    assert Lands(y, p.d, p.clock);
    CalmIsNotBusy(y, p.d, p.clock, y.jump(p.d, p.clock) - 1);
  }

  lemma AgreeWhenBehindByNone<D, H>(y: System<D, H>, r: Run<D, H>, k: nat, v: Run<D, H>, w: Run<D, H>, missed: nat)
    requires v == Jumps(y, r, k) && v.clock >= r.clock + k && w == Walk(y, r, v.clock - r.clock) &&
             Behind(y, v, w, missed)
    ensures missed == 0 <==> JumpsAgree(y, r, k)
  {}

  lemma AgreeMissingNothing<D(!new), H>(y: System<D, H>, r: Run<D, H>, k: nat)
    requires Lawful(y) && y.settled(r.d, r.clock)
    ensures JumpsAgree(y, r, k) <==> Missed(y, r, k) == 0
  {
    var v := Jumps(y, r, k);
    JumpsLand(y, r, k);
    var _ := JumpsAccounted(y, r, k);
    AgreeWhenBehindByNone(y, r, k, v, Walk(y, r, v.clock - r.clock), Missed(y, r, k));
  }

  /** Jumping goes through the same happenings at the same clocks as visiting every clock if and only if nothing
      happens at the clocks passed over. */
  lemma JumpsAreWalks<D(!new), H>(y: System<D, H>, r: Run<D, H>, k: nat)
    requires Lawful(y) && y.settled(r.d, r.clock)
    ensures JumpsAgree(y, r, k) <==> AllCalm(y, r, k)
  {
    AgreeMissingNothing(y, r, k);
    NothingMissed(y, r, k);
  }

  /** The log of k jumps is shorter than that of the walk by as many entries as were missed. */
  lemma MissedIsLost<D(!new), H>(y: System<D, H>, r: Run<D, H>, k: nat, n: nat)
    requires Lawful(y) && y.settled(r.d, r.clock) && n == Jumps(y, r, k).clock - r.clock
    ensures |Walk(y, r, n).log| == |Jumps(y, r, k).log| + Missed(y, r, k)
    ensures Missed(y, r, k) > 0 <==> !AllCalm(y, r, k)
  {
    var _ := JumpsAccounted(y, r, k);
    NothingMissed(y, r, k);
  }

  // ---------- with a test for calm jumps ----------

  /** The test says of a settled state whether the jump from it passes over nothing. */
  ghost predicate Judged<D, H>(y: System<D, H>, calm: (D, nat) -> bool, d: D, clock: nat) {
    y.settled(d, clock) ==> (Calm(y, d, clock) <==> calm(d, clock))
  }

  ghost predicate Test<D(!new), H>(y: System<D, H>, calm: (D, nat) -> bool) {
    forall d, clock :: Judged(y, calm, d, clock)
  }

  ghost predicate CalmAt<D, H>(y: System<D, H>, calm: (D, nat) -> bool, r: Run<D, H>, i: nat) {
    calm(Jumps(y, r, i).d, Jumps(y, r, i).clock)
  }

  lemma {:induction false} AllCalmByTest<D(!new), H>(y: System<D, H>, calm: (D, nat) -> bool, r: Run<D, H>, k: nat)
    requires Lawful(y) && y.settled(r.d, r.clock) && Test(y, calm)
    ensures AllCalm(y, r, k) <==> forall i :: 0 <= i < k ==> CalmAt(y, calm, r, i)
  {
    if k > 0 {
      AllCalmByTest(y, calm, r, k - 1);
      JumpsLand(y, r, k - 1);
      assert Judged(y, calm, Jumps(y, r, k - 1).d, Jumps(y, r, k - 1).clock);
      assert CalmAt(y, calm, r, k - 1) <==> Calm(y, Jumps(y, r, k - 1).d, Jumps(y, r, k - 1).clock);
    }
  }

  lemma AgreeByTest<D(!new), H>(y: System<D, H>, calm: (D, nat) -> bool, r: Run<D, H>, k: nat)
    requires Lawful(y) && y.settled(r.d, r.clock) && Test(y, calm)
    ensures JumpsAgree(y, r, k) <==> forall i :: 0 <= i < k ==> CalmAt(y, calm, r, i)
  {
    AllCalmByTest(y, calm, r, k);
    JumpsAreWalks(y, r, k);
  }

  /** The log of k jumps is shorter than that of the walk. */
  ghost predicate LogLacks<D, H>(y: System<D, H>, r: Run<D, H>, k: nat) {
    |Jumps(y, r, k).log| < |Walk(y, r, Jumps(y, r, k).clock - r.clock).log|
  }

  lemma LostByTest<D(!new), H>(y: System<D, H>, calm: (D, nat) -> bool, r: Run<D, H>, k: nat, i: nat)
    requires Lawful(y) && y.settled(r.d, r.clock) && Test(y, calm) && i < k && !CalmAt(y, calm, r, i)
    ensures LogLacks(y, r, k)
  {
    AllCalmByTest(y, calm, r, k);
    MissedIsLost(y, r, k, Jumps(y, r, k).clock - r.clock);
  }
}
