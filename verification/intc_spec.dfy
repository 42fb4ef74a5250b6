/** What each step of the exception controller does to its state, for one core.

    The sixteen lists of queued exceptions appear here as one pool of entries.  An entry is named by
    its insertion stamp, so that list order within a level is stamp order. */
module IntcSpec {
  import opened Common
  import opened IntcTypes

  datatype Psw = Psw(um: bool, np: bool, ep: bool, id: bool, rest: nat)

  /** The core's registers that the controller reads or writes. */
  datatype Cpu = Cpu(psw: Psw, eipsw: Psw, fepsw: Psw, pc: nat, eipc: nat, fepc: nat, halt: bool)

  datatype Intc = Intc(
    pmrFix: bool,               // USER_INTR_PMR_BUGFIX is defined
    ispc: bool,                 // INTCFG.ISPC
    prio: Priorities,           // priority field of the IC registers
    reqFlag: set<Intno>,        // request bits of the IC registers
    masked: set<Intno>,         // mask bits of the IC registers
    ispr: set<Priority>,        // bits set in ISPR
    pmr: set<Priority>,         // bits set in PMR
    user: seq<Entry>,           // user_queue
    pool: Pool,                 // exception_queue, all levels
    next: nat,                  // next insertion stamp
    current: Option<nat>,       // current_exception
    cpu: Cpu)

  /** Position of the lowest set bit, or 16 when no bit is set. */
  function LowestFrom(bits: set<Priority>, d: nat): (r: nat)
    requires d <= NUM_PRIORITIES
    ensures d <= r <= NUM_PRIORITIES
    ensures r < NUM_PRIORITIES ==> r in bits
    ensures forall k: Priority :: d <= k < r ==> k !in bits
    decreases NUM_PRIORITIES - d, bits
  {
    if d == NUM_PRIORITIES then d else if d in bits then d else LowestFrom(bits, d + 1)
  }

  function Lowest(bits: set<Priority>): nat { LowestFrom(bits, 0) }

  // ---------- raising ----------

  function RaiseUser(s: Intc, intno: Intno): Intc {
    if intno in s.reqFlag then s
    else s.(user := s.user + [NewEntry(s.prio, UserIntr, intno, Pending)],
            reqFlag := s.reqFlag + {intno})
  }

  function RaiseSystem(s: Intc, exno: Exno): Intc {
    s.(pool := s.pool[s.next := NewEntry(s.prio, exno, 0, Runnable)],
       next := s.next + 1,
       cpu := s.cpu.(halt := false))
  }

  // ---------- user queue to exception queue ----------

  predicate Unmasked(s: Intc, k: nat) {
    k < |s.user| && s.user[k].intno !in s.masked
  }

  /** The unmasked user request of least degree, the earliest one on a tie. */
  ghost predicate IsUserChoice(s: Intc, k: nat) {
    && Unmasked(s, k)
    && forall j: nat | Unmasked(s, j) ::
         s.user[k].degree < s.user[j].degree || (s.user[k].degree == s.user[j].degree && k <= j)
  }

  ghost function UserChoice(s: Intc): (c: Option<nat>)
    ensures c.Some? ==> IsUserChoice(s, c.value)
    ensures c.None? ==> forall k :: !IsUserChoice(s, k)
  {
    if k :| IsUserChoice(s, k) then Some(k) else None
  }

  /** Copies user request k into the exception queue unless ISPR or PMR holds it back. */
  function Admit(s: Intc, k: nat): Intc
    requires k < |s.user|
  {
    var e := s.user[k];
    if Lowest(s.ispr) <= s.prio[e.intno] || Lowest(s.pmr) <= s.prio[e.intno] then s
    else s.(user := s.user[k := e.(status := Runnable)],
            pool := s.pool[s.next := e.(status := Runnable)],
            next := s.next + 1)
  }

  ghost function JudgeUser(s: Intc): Intc {
    match UserChoice(s)
    case None => s
    case Some(k) => if s.user[k].status.Runnable? then s else Admit(s.(cpu := s.cpu.(halt := false)), k)
  }

  // ---------- dispatch ----------

  predicate PmrMasked(s: Intc, e: Entry) {
    Lowest(s.pmr) <= s.prio[e.intno]
  }

  predicate Eligible(s: Intc, id: nat) {
    id in s.pool && !(s.pmrFix && s.pool[id].exno.UserIntr? && PmrMasked(s, s.pool[id]))
  }

  /** An entry the scan may pick: any eligible one when nothing is current, and otherwise one of no
      lower level and of strictly smaller degree than the current entry. */
  predicate Candidate(s: Intc, id: nat) {
    && Eligible(s, id)
    && (s.current.Some? && s.current.value in s.pool ==>
          var c := s.pool[s.current.value];
          s.pool[id].req.level <= c.req.level && s.pool[id].degree < c.degree)
  }

  ghost predicate IsChoice(s: Intc, id: nat) {
    Candidate(s, id) && forall y :: Candidate(s, y) && y != id ==> Before(s.pool, id, y)
  }

  ghost function Choice(s: Intc): (c: Option<nat>)
    ensures c.Some? ==> IsChoice(s, c.value)
    ensures c.None? ==> forall id :: !IsChoice(s, id)
  {
    if id :| IsChoice(s, id) then Some(id) else None
  }

  /** PSW.NP and PSW.ID hold an exception back, except that a halted core accepts it despite ID. */
  predicate NpBlocks(cpu: Cpu, req: Config) { !req.condNp && cpu.psw.np }
  predicate IdBlocks(cpu: Cpu, req: Config) { !req.condId && cpu.psw.id }
  predicate CanRaise(cpu: Cpu, req: Config) {
    !NpBlocks(cpu, req) && (IdBlocks(cpu, req) ==> cpu.halt)
  }

  function Apply(op: PswOp, bit: bool): bool {
    match op case Clr => false case Set => true case Save => bit
  }

  function EnterPsw(psw: Psw, c: Config): Psw {
    psw.(um := Apply(c.um, psw.um), id := Apply(c.id, psw.id), np := Apply(c.np, psw.np), ep := Apply(c.ep, psw.ep))
  }

  /** Index of the first user-queue entry for an interrupt number, or the queue length. */
  function FindUser(user: seq<Entry>, intno: Intno): (k: nat)
    ensures k <= |user|
    ensures k < |user| ==> user[k].intno == intno
    ensures forall j :: 0 <= j < k ==> user[j].intno != intno
  {
    if user == [] then 0 else if user[0].intno == intno then 0 else 1 + FindUser(user[1..], intno)
  }

  function RemoveAt<T>(xs: seq<T>, k: nat): (r: seq<T>)
    requires k < |xs|
    ensures |r| == |xs| - 1
    ensures forall j :: 0 <= j < k ==> r[j] == xs[j]
    ensures forall j :: k <= j < |r| ==> r[j] == xs[j + 1]
  {
    xs[..k] + xs[k + 1..]
  }

  /** Bookkeeping when a user interrupt starts: its request is consumed and its priority enters ISPR. */
  function HookUserRaised(s: Intc, intno: Intno): Intc {
    var k := FindUser(s.user, intno);
    var s1 := if s.ispc then s else s.(ispr := s.ispr + {s.prio[intno]});
    if k < |s.user| then s1.(user := RemoveAt(s.user, k), reqFlag := s.reqFlag - {intno}) else s1
  }

  /** Saves PC and PSW, updates PSW and jumps. */
  function EnterCpu(cpu: Cpu, req: Config, handler: nat): Cpu {
    var saved :=
      if req.handling.FE? then cpu.(fepc := cpu.pc, fepsw := cpu.psw)
      else cpu.(eipc := cpu.pc, eipsw := cpu.psw);
    saved.(psw := EnterPsw(cpu.psw, req), pc := handler, halt := false)
  }

  function Enter(s: Intc, e: Entry, handler: nat): Intc {
    var s1 := if e.exno.UserIntr? then HookUserRaised(s, e.intno) else s;
    s1.(cpu := EnterCpu(s1.cpu, e.req, handler))
  }

  function SetStatus(pool: Pool, id: nat, status: Status): Pool
    requires id in pool
  {
    pool[id := pool[id].(status := status)]
  }

  function Suspend(pool: Pool, current: Option<nat>): Pool {
    if current.Some? && current.value in pool then SetStatus(pool, current.value, Waiting) else pool
  }

  /** Suspending the current entry, if any, and starting x. */
  function Switch(pool: Pool, current: Option<nat>, x: nat): Pool
    requires x in pool
  {
    SetStatus(Suspend(pool, current), x, Running)
  }

  /** What becomes of the state once entry x has been picked: a suspended entry is resumed, a new one
      is entered if PSW lets it, and one that PSW holds back still suspends the current entry. */
  function Take(s: Intc, x: nat, handler: nat): Intc
    requires x in s.pool
  {
    var e := s.pool[x];
    if e.status.Waiting? then s.(pool := SetStatus(s.pool, x, Running), current := Some(x))
    else if CanRaise(s.cpu, e.req) then Enter(s.(pool := Switch(s.pool, s.current, x), current := Some(x)), e, handler)
    else s.(pool := Suspend(s.pool, s.current))
  }

  ghost function Dispatch(s: Intc, handler: nat): Intc {
    match Choice(s)
    case None => s
    case Some(x) => Take(s, x, handler)
  }

  /** One clock on this core. */
  ghost function Clock(s: Intc, handler: nat): Intc {
    Dispatch(JudgeUser(s), handler)
  }

  // ---------- returning ----------

  function Pop(s: Intc): Intc {
    match s.current
    case None => s
    case Some(c) => s.(pool := s.pool - {c}, current := None)
  }

  /** The FERET instruction: PC and PSW come back first, then the current entry is dropped. */
  function FeReturn(s: Intc): Intc {
    Pop(s.(cpu := s.cpu.(pc := s.cpu.fepc, psw := s.cpu.fepsw)))
  }

  function ClearIspr(s: Intc): Intc {
    if s.ispc || s.cpu.psw.ep then s else s.(ispr := s.ispr - {Lowest(s.ispr)})
  }

  /** The EIRET instruction. */
  function EiReturn(s: Intc): Intc {
    var s1 := s.(cpu := s.cpu.(pc := s.cpu.eipc, psw := s.cpu.eipsw));
    if s1.current.Some? && s1.current.value in s1.pool && s1.pool[s1.current.value].exno.UserIntr?
    then Pop(ClearIspr(s1)) else Pop(s1)
  }

  // ---------- guest accesses ----------

  /** Between two steps software may rewrite the core's registers, PMR and the mask bits. */
  function Guest(s: Intc, cpu: Cpu, pmr: set<Priority>, masked: set<Intno>): Intc {
    s.(cpu := cpu, pmr := pmr, masked := masked)
  }

  /** A queued entry that clearing a request bit may delete: matched by interrupt number only. */
  predicate Clearable(p: Pool, id: nat, intno: Intno) {
    id in p && p[id].intno == intno && p[id].status.Runnable?
  }

  /** The one it does delete: the first in list order, lowest level first. */
  predicate ListedBefore(p: Pool, a: nat, b: nat)
    requires a in p && b in p
  {
    p[a].req.level < p[b].req.level || (p[a].req.level == p[b].req.level && a < b)
  }

  ghost predicate IsCleared(p: Pool, id: nat, intno: Intno) {
    Clearable(p, id, intno) && forall y :: Clearable(p, y, intno) && y != id ==> ListedBefore(p, id, y)
  }

  ghost function Cleared(p: Pool, intno: Intno): (c: Option<nat>)
    ensures c.Some? ==> IsCleared(p, c.value, intno)
    ensures c.None? ==> forall id :: !IsCleared(p, id, intno)
  {
    if id :| IsCleared(p, id, intno) then Some(id) else None
  }

  function WithoutRequest(user: seq<Entry>, intno: Intno): seq<Entry> {
    var k := FindUser(user, intno);
    if k < |user| then RemoveAt(user, k) else user
  }

  ghost function WithoutCleared(p: Pool, intno: Intno): Pool {
    match Cleared(p, intno) case None => p case Some(id) => p - {id}
  }

  /** Software writes an IC register with the request bit clear. */
  ghost function GuestClear(s: Intc, intno: Intno): Intc {
    s.(user := WithoutRequest(s.user, intno), pool := WithoutCleared(s.pool, intno), reqFlag := s.reqFlag - {intno})
  }
}
