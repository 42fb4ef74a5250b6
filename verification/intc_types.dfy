/** The exception table and the entries of the exception queues. */
module IntcTypes {

  datatype Status = Pending | Runnable | Running | Waiting

  /** Which pair of save registers an exception uses. */
  datatype Handling = FE | EI | RESET

  datatype PswOp = Clr | Set | Save

  datatype Exno =
    | Reset | Fenmi | Syserr1 | Feint | Fpi | UserIntr | Mip | Syserr2 | Rie | Ucpop | Pie
    | Mae | Mdp | Fpp | Syscall | Fetrap | Trap0 | Trap1

  /** Priority level and degree, acceptance conditions (may it be raised while PSW.ID or PSW.NP is
      set?) and the PSW update of one exception cause. */
  datatype Config = Config(level: nat, degree: nat, handling: Handling, condId: bool, condNp: bool,
                           um: PswOp, id: PswOp, np: PswOp, ep: PswOp)

  const NUM_LEVELS: nat := 16
  const NUM_PRIORITIES: nat := 16
  const NUM_INTNO: nat := 358
  const MAX_DEGREE: nat := 0xFFFF_FFFF

  type Intno = n: nat | n < NUM_INTNO
  type Priority = p: nat | p < NUM_PRIORITIES

  function ConfigOf(exno: Exno): Config {
    match exno
    case Reset    => Config(0, 0, RESET, true, true, Clr, Set, Clr, Clr)
    case Fenmi    => Config(2, 0, FE, true, true, Clr, Set, Set, Clr)
    case Syserr1  => Config(2, 1, FE, true, true, Clr, Set, Set, Set)
    case Feint    => Config(2, 2, FE, true, false, Clr, Set, Set, Clr)
    case Fpi      => Config(3, 0, EI, false, false, Clr, Set, Save, Set)
    case UserIntr => Config(3, 0, EI, false, false, Clr, Set, Save, Clr)
    case Mip      => Config(9, 0, FE, true, true, Clr, Set, Set, Set)
    case Syserr2  => Config(9, 2, FE, true, true, Clr, Set, Set, Set)
    case Rie      => Config(9, 3, FE, true, true, Clr, Set, Set, Set)
    case Ucpop    => Config(9, 4, FE, true, true, Clr, Set, Set, Set)
    case Pie      => Config(9, 5, FE, true, true, Clr, Set, Set, Set)
    case Mae      => Config(10, 0, FE, true, true, Clr, Set, Set, Set)
    case Mdp      => Config(10, 0, FE, true, true, Clr, Set, Set, Set)
    case Fpp      => Config(10, 0, EI, true, true, Clr, Set, Save, Set)
    case Syscall  => Config(11, 0, EI, true, true, Clr, Set, Save, Set)
    case Fetrap   => Config(11, 0, FE, true, true, Clr, Set, Set, Set)
    case Trap0    => Config(11, 0, EI, true, true, Clr, Set, Save, Set)
    case Trap1    => Config(11, 0, EI, true, true, Clr, Set, Save, Set)
  }

  /** Priorities of the interrupt numbers, as the IC registers hold them. */
  type Priorities = ps: seq<Priority> | |ps| == NUM_INTNO witness seq(NUM_INTNO, _ => 15)

  /** The degree stored with a queued entry: smaller is more urgent.  User interrupts rank by
      priority and then by interrupt number; every other cause ranks behind the user interrupts of
      the same major degree. */
  function Degree(prio: Priorities, exno: Exno, req: Config, intno: Intno): nat {
    if exno.UserIntr? then prio[intno] * 0x1_0000 + intno else req.degree * 0x1_0000 + 0xFFFF
  }

  /** A queued request; req points into the exception table. */
  datatype Entry = Entry(req: Config, exno: Exno, intno: Intno, degree: nat, status: Status)

  function NewEntry(prio: Priorities, exno: Exno, intno: Intno, status: Status): Entry {
    var req := ConfigOf(exno);
    Entry(req, exno, intno, Degree(prio, exno, req, intno), status)
  }

  /** The entries of all levels, named by insertion stamp. */
  type Pool = map<nat, Entry>

  /** Total order of queued entries: level, degree, insertion. */
  predicate Before(p: Pool, a: nat, b: nat)
    requires a in p && b in p
  {
    var l, m := p[a].req.level, p[b].req.level;
    l < m || (l == m && (p[a].degree < p[b].degree || (p[a].degree == p[b].degree && a < b)))
  }

  /** A started entry has been entered and has not been dropped by a return. */
  predicate Started(e: Entry) {
    e.status.Running? || e.status.Waiting?
  }
}
