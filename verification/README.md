# Athrill RH850/F1K device model: interrupt controller, CAN, CPU core and clock

This Dafny project models the parts of the Athrill simulator's RH850/F1K target that hold its most involved
logic, and proves what they promise. Run `dafny verify dfyconfig.toml` to check everything.

## What is modelled

**Interrupt and exception controller** (`intc_*.dfy`). Requests for user interrupts wait in a user queue, pass the
mask, ISPR and PMR tests, and are copied into one of sixteen exception queues by level. Each clock enters, holds
back, suspends or resumes one entry; FERET and EIRET pop the current one. `intc_spec.dfy` is the controller as a
state with a step function, in which a list node is a value named by its insertion stamp and a queue is the entries
of one level in stamp order. `intc_controller.dfy` is the controller as it runs, a class with sixteen queues of
nodes whose methods are proved to make exactly these steps. `intc_nesting.dfy`, `intc_stack.dfy`,
`intc_requests.dfy`, `intc_ispr.dfy`, `intc_delivery.dfy`, `intc_runs.dfy` and `intc_system.dfy` prove what the steps
keep, for single steps and over all runs. `intc_laws.dfy` says what the steps are, in terms of masks, registers and
causes: which requests are admitted, which causes PSW lets in, what entry does to the core, and which causes preempt
which. All these are about the entries of the queues; `intc_software.dfy` adds TRAP, FETRAP and SYSCALL, which enter no
queue, and compares the entries with the handlers really in progress. `intc_witness.dfy` holds runs, from the state that
start-up code leaves, that show the departures listed below. `intc_imr.dfy` is the write path of the mask registers.

**RS-CAN** (`can_*.dfy`). Ring FIFOs, the transmit queue, the channel mode machine, the arbitration number, the
transmit side of a channel (`can_tx*.dfy`) from the minimum search to the drained channel, and the receive side
(`can_rx*.dfy`) from the rule table to the contents of buffers and FIFOs. `can_filter.dfy` says which frames a rule
lets through, by frames that differ in one bit, and `can_laws.dfy` what each mode event and transmit step does.

**CPU** (`cpu_*.dfy`). Carry, borrow and overflow and the multiword sums built from them; CMP and the condition
codes; the instructions said in numbers (`cpu_laws.dfy`); PREPARE/DISPOSE and PUSHSP/POPSP over byte memory, and where
they put what (`cpu_stack_laws.dfy`); the decoded-instruction cache; BINS, ROTL and the extension helpers.

**Clock** (`clock_*.dfy`). The interval timers, the CAN poll, and skipping clocks while the processor is halted.
`clock_runs.dfy` proves the skipping argument once, for any devices that satisfy its three laws; `clock_counts.dfy` adds
the counts that software reads, and `clock_laws.dfy` the clocks at which an interval timer fires in the long run.

## Build choices and conventions

- One core, core 0. Allocation of list nodes succeeds. IC priorities and ISPC are fixed during a run; PSW, PMR and
  the interrupt masks may be changed by software at any point.
- The CMake build defines `USER_INTR_PMR_BUGFIX`. It is a field of the controller's state, so every theorem covers
  both builds; the theorems that depend on it say exactly how.
- `CPUEMU_CLOCK_BUG_FIX` and `FIX_INTR_CPU_RCV_CLR` are taken as defined. `DISABLE_MEMPROTECT` is a parameter of
  the interpreter, and both settings are covered.
- Sets of bits (ISPR, PMR, request flags, rule masks) are sets of bit positions. Machine words wrap where the C
  code's do: 32-bit registers and addresses, 64-bit intermediate results, 32-bit counters. Signed C overflow is taken
  to wrap.
- What the guest, the bus and the hosts do enters as parameters: handler addresses, frames that have arrived,
  completion of a transmission, permissions, mapped memory, and the effect of an instruction on the core.

## Where the code departs from what it is meant to do

The model follows the code. Each case has a theorem that says exactly when the intended property holds, and a lemma
at an input on which it does not.

- Under `USER_INTR_PMR_BUGFIX` a suspended interrupt that PMR hides can be overtaken, after which two handlers can
  be marked RUNNING (exactly when: `IntcNesting.ClockInv`; a guard for software: `IntcRuns.VisibleOverRuns`; a run:
  `IntcWitness.PmrFixOvertakes`).
- Every FERET and EIRET makes the controller drop its current entry, also when it ends a TRAP, FETRAP or SYSCALL, and
  it drops nothing while no entry is current. So the entries and ISPR stop matching the handlers in progress when a
  handler uses one of these instructions, or when PMR hides a suspended interrupt as its handler returns (exactly when:
  `IntcSoftware.RightOverRuns`; runs: `IntcWitness.TrapEndsInterrupt`, `IntcWitness.HiddenReturnIgnored`).
- A user interrupt taken with PSW.EP set leaves its ISPR bit behind, because EIRET restores PSW first (exactly when:
  `IntcDelivery.ReturnUndoesEntry`, `IntcIspr.EiReturnIspr`; a run: `IntcWitness.EpLeavesBit`).
- Entries of system exceptions carry interrupt number 0, so clearing the request bit of interrupt 0 can delete one of
  them (exactly when: `IntcSystem.WithdrawalSpares`; a run: `IntcWitness.PieLost`). A cause listed ahead of user
  interrupts would even be deleted in place of the interrupt's own copy (exactly when: `IntcRequests.GuestClearBook`; a
  run: `IntcWitness.CopyLeftBehind`), but the core raises no such cause (`IntcSystem.CoreRunsOrderly`).
- The first mask register address of the second controller reaches the first controller's interrupts
  (`IntcImr.Alias`).
- The arbitration number of an extended frame drops the identifier bits above bit 18, and RTR lands on bit 18. Rule 1
  of the comment above it (the smaller identifier first) holds exactly as `CanArbitration.IdentifierOrder` says, and
  fails for the two frames of `CanArbitration.DroppedBits`. Rule 2 (data before remote) holds for a data frame against
  all extended remote frames if and only if bit 18 of its identifier is clear (`CanArbitration.DataBeforeRemotes`), and
  fails for the two frames of `CanArbitration.RemoteBeforeData`.
- A build with `DISABLE_MEMPROTECT` executes cached instructions that decoding would refuse (exactly when:
  `CpuCache.UncheckedAgrees`; a run from the empty cache: `CpuCache.LockedExecuted`).
- A clock jump that starts on a CAN poll clock can pass over the next poll (exactly when: `ClockSkip.PollJumped`, and
  over runs `ClockSkip.JumpsAreWalks`; a case: `ClockSkip.PollMissed`).
- After a clock jump that ends between two counting clocks a running timer can show an old count (exactly when:
  `ClockCounts.CountsAgree`; a case: `ClockCounts.StaleCount`).
- A timer made ready with an old start can be started late (exactly when: `ClockSkip.StaleStart`; a case:
  `ClockSkip.LateStart`).

## Model

| member | source | states |
|---|---|---|
| IntcNesting.DispatchChoice | src/device/intc/intc.c:251-340 | with no handler current the search picks the eligible entry that is first by (level, degree, arrival); with a current one it picks a new entry of no higher level number and strictly smaller degree, first among those, and never a suspended one |
| IntcNesting.CurrentStays | src/device/intc/intc.c:262-302 | the current handler is kept whenever no eligible entry at its level or above has a smaller degree |
| IntcNesting.ChoiceExists | src/device/intc/intc.c:273-300 | an entry is picked if and only if one qualifies |
| IntcNesting.ChoiceUnique | src/device/intc/intc.c:273-300 | the search result does not depend on anything but rank: two entries that both win are the same entry |
| IntcNesting.VisibleNotOvertaken | src/device/intc/intc.c:280-286 | without the PMR skip, or while PMR masks no suspended user interrupt, no clock can pass over a suspended handler |
| IntcNesting.OvertakingBreaksNesting | src/device/intc/intc.c:280-302 | a clock that passes over a suspended handler destroys the nesting invariant, so the guard in the theorems is necessary |
| IntcNesting.ClockInv | src/device/intc/intc.c:251-340 | a clock keeps the nesting invariant if and only if it does not pass over a suspended handler hidden by PMR |
| IntcNesting.TakeKeepsInv | src/device/intc/intc.c:309-340 | entering, resuming or holding back the chosen entry keeps: at most one RUNNING entry, which is the current one, and every WAITING entry ranks after it; the two asserts of raise_Exception hold |
| IntcNesting.PopKeepsInv | src/device/intc/intc.c:126-153 | removing the current entry keeps the invariant |
| IntcNesting.RaisesKeepInv | src/device/intc/intc.c:108-125 | requests and exceptions of any cause keep the invariant |
| IntcNesting.GuestClearKeepsInv | src/device/intc/rh850f1k/intc_config.c:432-506 | a request bit cleared by software keeps the invariant |
| IntcStack.ClockOnStack | src/device/intc/intc.c:251-340 | a clock pushes exactly the exception it enters on the stack of started entries, and changes nothing of the stack otherwise |
| IntcStack.ReturnPops | src/device/intc/intc.c:126-153 | a return pops exactly the top of the stack, and does nothing when no entry is current |
| IntcStack.ResumesLastSuspended | src/device/intc/intc.c:309-317 | after a return the handler suspended last is the one that the next clock resumes, without touching PC or PSW |
| IntcRequests.RaiseUserKeepsBook | src/device/intc/intc_user.c:130-150 | a request is entered once: the request bit is set exactly for the interrupts with one entry in the user queue |
| IntcRequests.AdmitKeepsBook | src/device/intc/intc_user.c:212-252 | admission marks the request runnable and puts exactly one copy into the exception queue, and the two stay in bijection |
| IntcRequests.RequestFound | src/device/intc/intc_user.c:101-128 | when a user interrupt is entered its request is found in the user queue, so the error branch is not reached |
| IntcRequests.ClockKeepsBook | src/device/intc/intc_user.c:87-99 | a clock keeps request bits, user queue and exception queue in agreement |
| IntcRequests.ReturnsKeepBook | src/device/intc/intc.c:126-153 | returns keep them in agreement |
| IntcRequests.GuestClearBook | src/device/intc/rh850f1k/intc_config.c:432-506 | a request cleared by software leaves request bits and queues in agreement, unless it is one of interrupt 0 that has a copy in the exception queue and a system exception is listed ahead of that copy |
| IntcIspr.StartOutranks | src/device/intc/intc_user.c:212-231 | a user interrupt that starts has a priority strictly above every priority in service |
| IntcIspr.ClockKeepsIspr | src/device/intc/rh850f1k/intc_config.c:828-869 | a clock keeps ISPR equal to the priorities of the started user interrupts, pairwise distinct |
| IntcIspr.CurrentIsLowest | src/device/intc/rh850f1k/intc_config.c:828-840 | the lowest ISPR bit is the priority of the current user interrupt, so the bit cleared on return is its own |
| IntcIspr.EiReturnIspr | src/cpu/cpu_exec/op_exec_spec_rh850.c:252-259 | EIRET keeps ISPR exact if and only if hardware updates ISPR and the restored PSW.EP is clear, or the current handler is no user interrupt |
| IntcIspr.FeReturnIspr | src/cpu/cpu_exec/op_exec_spec_rh850.c:244-251 | FERET keeps ISPR exact if and only if the current handler is no user interrupt |
| IntcIspr.GuestClearKeepsIspr | src/device/intc/rh850f1k/intc_config.c:432-506 | clearing a request by software does not disturb ISPR |
| IntcIspr.NestingBound | src/device/intc/rh850f1k/intc_config.c:828-869 | at most sixteen entries of user interrupts are ever started |
| IntcRuns.NestingOverRuns | src/device/intc/intc.c:251-340 | over every sequence of requests, exceptions, clocks, returns and software accesses the nesting invariant holds as long as no clock passes over a hidden handler |
| IntcRuns.StepKeepsInv | src/device/intc/intc.c:77-153 | for every single event: the invariant survives if and only if the event is not such a clock |
| IntcRuns.NestingWithoutPmrFix | src/device/intc/intc.c:280-286 | in a build without USER_INTR_PMR_BUGFIX the invariant holds over every run, unconditionally |
| IntcRuns.VisibleOverRuns | src/device/intc/intc.c:280-286 | a program that masks no suspended user interrupt by PMR at any clock meets the nesting guard of every theorem over runs |
| IntcRuns.RequestsConserved | src/device/intc/intc_user.c:101-252 | conservation over all runs: requests accepted = requests delivered + withdrawn + still owed, for every interrupt; none is delivered twice or lost |
| IntcRuns.StepBalances | src/device/intc/intc_user.c:101-252 | the same balance for each single event |
| IntcRuns.IsprOverRuns | src/device/intc/rh850f1k/intc_config.c:828-869 | over every run from an idle controller ISPR is exactly the set of priorities of the started entries of user interrupts (entered and not dropped by a return), which are pairwise distinct and at most sixteen |
| IntcRuns.StackOverRuns | src/device/intc/intc.c:77-153 | over every run the started entries form the stack of those entered and not yet dropped by a return, the current one on top |
| IntcRuns.IdleOk | src/device/intc/intc.c:52-75 | the controller after reset satisfies all invariants |
| IntcSystem.WithdrawalSpares | src/device/intc/rh850f1k/intc_config.c:432-506 | clearing the request bit of an interrupt keeps every queued system exception if and only if the number is not 0 or no such exception is listed ahead of all copies of interrupt 0 |
| IntcSystem.StepBalancesSystem | src/device/intc/intc.c:77-153 | the balance of one event for one cause of exception |
| IntcSystem.ExceptionsConserved | src/device/intc/intc.c:77-153 | conservation over all runs, cause by cause: exceptions raised = entered + deleted by a withdrawn user request + still queued |
| IntcSystem.NoneDeleted | src/device/intc/rh850f1k/intc_config.c:432-506 | over runs that never withdraw interrupt 0 behind a system exception none is deleted |
| IntcSystem.WithdrawalOrderly | src/device/intc/rh850f1k/intc_config.c:432-506 | with the causes that the core raises, all listed behind user interrupts, a withdrawn request that has a copy takes that copy along |
| IntcSystem.CoreRunsOrderly | src/cpu/config/cpu_config.c:92-119 | over every run in which only PIE, MIP and MDP are raised the theorems on requests and ISPR need no guard on withdrawals |
| IntcSoftware.NextRight | src/cpu/cpu_exec/op_exec_spec_rh850.c:244-378 | one event or software exception keeps the entries and ISPR in agreement with the handlers in progress if and only if it is no improper return |
| IntcSoftware.RightOverRuns | src/cpu/cpu_exec/op_exec_spec_rh850.c:244-378 | over every run with TRAP, FETRAP and SYSCALL the entries and ISPR agree throughout with the handlers in progress if and only if no return ends a software exception while an entry is current, none ends a handler whose entry is not current, and a user interrupt is left by EIRET with the saved EP clear |
| IntcSoftware.IdleRight | src/device/intc/intc.c:52-75 | an idle controller with no handler in progress satisfies the hypotheses |
| IntcSoftware.IsprOfHandlers | src/device/intc/rh850f1k/intc_config.c:828-869 | while they agree ISPR is the set of priorities of the user interrupts whose handlers are in progress, at most sixteen |
| IntcWitness.PmrFixOvertakes | src/device/intc/intc.c:280-286 | with USER_INTR_PMR_BUGFIX a run from an idle controller, with two user interrupts and a PIE exception, in which a suspended interrupt hidden by PMR is overtaken and both handlers end up RUNNING |
| IntcWitness.EpLeavesBit | src/cpu/cpu_exec/op_exec_spec_rh850.c:252-259 | a run from an idle controller, one interrupt taken with PSW.EP set and returned from, that leaves its ISPR bit set with nothing queued |
| IntcWitness.PieLost | src/device/intc/rh850f1k/intc_config.c:495-505 | a run in which clearing the request bit of interrupt 0, not even set, deletes a PIE exception that waits behind the handler of a user interrupt |
| IntcWitness.CopyLeftBehind | src/device/intc/rh850f1k/intc_config.c:483-505 | for a cause that the core does not raise: a run in which it deletes a FENMI and leaves the copy of interrupt 0 queued without a request |
| IntcWitness.TrapEndsInterrupt | src/cpu/cpu_exec/op_exec_spec_rh850.c:252-320 | a run in which a TRAP in the handler of a user interrupt returns: the handler is still in progress, but its entry and its ISPR bit are gone |
| IntcWitness.HiddenReturnIgnored | src/device/intc/intc.c:138-153 | a run in which the handler of an interrupt hidden by PMR returns: no handler is in progress, but its entry and its ISPR bit stay |
| IntcDelivery.DeliveredAtOnce | src/device/intc/intc_user.c:152-252 | an unmasked, admissible, most urgent request is entered on the very next clock: PC, PSW, EIPC, EIPSW, ISPR and the request bit are as specified |
| IntcDelivery.HaltedWithIdWakesOnly | src/device/intc/intc_user.c:180-188 | a halted core with interrupts disabled is woken by such a request but does not enter it |
| IntcDelivery.ReturnUndoesEntry | src/cpu/cpu_exec/op_exec_spec_rh850.c:244-259 | entry followed by return restores PC, PSW, ISPR and the queues if and only if it is not a user interrupt taken with PSW.EP set |
| IntcLaws.CopiedExactly | src/device/intc/intc_user.c:152-252 | a clock copies a request into the exception queue if and only if it is pending, its interrupt is not masked, no unmasked request has a smaller degree or the same degree and came earlier, and its priority is above every bit of ISPR and of PMR |
| IntcLaws.MaskedStayOut | src/device/intc/intc_user.c:160-164 | with every queued request masked the user queue has no part in a clock: nothing is copied, and a halted core is not woken |
| IntcLaws.WokenExactly | src/device/intc/intc_user.c:174-191 | the user queue wakes a halted core if and only if the first unmasked request is pending, whether ISPR and PMR then admit it or not, and touches nothing else of the core |
| IntcLaws.HiddenByPmr | src/device/intc/intc.c:278-284 | the PMR skip passes over exactly the user interrupts whose priority is not above every bit of PMR |
| IntcLaws.RequestQueued | src/device/intc/intc_user.c:130-150 | a request is queued last, pending, with degree priority * 65536 + number and its request bit; a second request of the same interrupt changes nothing, and neither wakes the core |
| IntcLaws.ExceptionQueued | src/device/intc/intc.c:108-125 | an exception is queued runnable with interrupt number 0 behind all entries, none of which changes, and the core is woken |
| IntcLaws.LetInExactly | src/device/intc/intc.c:159-180 | a new entry that has been picked becomes current if and only if PSW does not hold its cause back: NP holds back FEINT, FPI and user interrupts, ID holds back FPI and user interrupts on a core that is not halted |
| IntcLaws.StatusesAfter | src/device/intc/intc.c:307-339 | the status of every entry after a pick: a suspended entry resumes, a new one runs if let in, and the current entry is suspended by a new one even if PSW then holds it back |
| IntcLaws.EntersCore | src/device/intc/intc.c:182-248 | entry of any cause: ID set, UM clear; NP set for FE-level causes, clear for RESET and as before otherwise; EP set for all but RESET, FENMI, FEINT and user interrupts; PC is the handler; PC and PSW are saved in the FE or the EI registers, the others stay, and the core is awake |
| IntcLaws.CauseOrder | src/device/intc/rh850f1k/intc_config.c:85-230 | queued causes rank RESET, FENMI, SYSERR1, FEINT, FPI, MIP, SYSERR2, RIE, UCPOP, PIE, then MAE, MDP and FPP, then SYSCALL, FETRAP and TRAP, by arrival within a place |
| IntcLaws.UserOrder | src/device/intc/rh850f1k/intc_config.c:85-230 | user interrupts rank by priority, then by number |
| IntcLaws.UserAmongCauses | src/device/intc/rh850f1k/intc_config.c:118-133 | a user interrupt ranks behind RESET, FENMI, SYSERR1 and FEINT, before FPI only with priority 0, and before every other cause |
| IntcLaws.CausePreemptsExactly | src/device/intc/intc.c:260-298 | among causes other than user interrupts one preempts the handler of another if and only if its list is no higher and its major degree smaller |
| IntcLaws.PreemptsUserExactly | src/device/intc/intc.c:260-298 | the handler of a user interrupt of priority p is preempted by RESET, FENMI and FPI if p >= 1, by SYSERR1 if p >= 2, by FEINT if p >= 3, and by no other cause |
| IntcLaws.UserPreemptsExactly | src/device/intc/intc.c:260-298 | up to which priority number a user interrupt not hidden by PMR preempts the handler of each other cause |
| IntcLaws.UserPreemptsUser | src/device/intc/intc.c:260-298 | and the handler of another user interrupt if and only if it has the smaller priority number, or the same and the smaller interrupt number |
| IntcLaws.SoftwareRuns | src/cpu/cpu_exec/op_exec_spec_rh850.c:262-378 | PSW bits and jump address after TRAP, FETRAP and SYSCALL |
| IntcLaws.SoftwareReturns | src/cpu/cpu_exec/op_exec_spec_rh850.c:244-378 | the matching return restores PSW and goes on behind the instruction |
| IntcController.LowestBit | src/device/intc/rh850f1k/intc_config.c:828-883 | the loop over ISPR or PMR finds the lowest set bit, or 16 |
| IntcController.Controller.RaiseUserInterrupt | src/device/intc/intc_user.c:130-150 | the method makes the step that the specification calls a request |
| IntcController.Controller.RaiseException | src/device/intc/intc.c:108-125 | the method does what the specification of an exception request says |
| IntcController.Controller.ScanUserQueue | src/device/intc/intc_user.c:152-191 | the scan finds the choice of the specification and wakes the core as it does; what that is: `IntcLaws.CopiedExactly`, `IntcLaws.MaskedStayOut`, `IntcLaws.WokenExactly` |
| IntcController.Controller.AdmitRequest | src/device/intc/intc_user.c:212-252 | ISPR and PMR tests and the copy into the exception queue, as specified |
| IntcController.Controller.ScanExceptions | src/device/intc/intc.c:251-305 | the nested loops over levels and lists compute the choice of the specification |
| IntcController.Controller.ConsumeRequest | src/device/intc/intc_user.c:101-128 | removal from the user queue, ISPR bit and request bit, as specified |
| IntcController.Controller.EnterHandler | src/device/intc/intc.c:182-248 | saved PC and PSW, new PSW bits, handler address and wake-up, as specified; what that is for every cause: `IntcLaws.EntersCore` |
| IntcController.Controller.TakeEntry | src/device/intc/intc.c:309-340 | resume, suspend, raise or hold back, as specified |
| IntcController.Controller.SupplyClock | src/device/intc/intc.c:77-106 | one clock of the imperative controller with its sixteen queues is one clock of the specification |
| IntcController.Controller.ReturnFe | src/cpu/cpu_exec/op_exec_spec_rh850.c:244-251 | FERET with the controller's part, as specified |
| IntcController.Controller.ReturnEi | src/cpu/cpu_exec/op_exec_spec_rh850.c:252-259 | EIRET with the controller's part, as specified |
| IntcController.Controller.WithdrawRequest | src/device/intc/rh850f1k/intc_config.c:432-506 | the search and deletion for a request bit cleared by software, as specified |
| IntcImr.FirstIs | src/device/intc/rh850f1k/intc_config.h:118-124 | mask register bytes number the interrupts consecutively from either base address |
| IntcImr.IcInjective | src/device/intc/rh850f1k/intc_config.h:151 | different interrupts have different control registers, over both controllers |
| IntcImr.EveryInterruptCovered | src/device/intc/rh850f1k/intc_config.h:152 | the mask register address of every interrupt 0 to 357 leads back to that interrupt's bit |
| IntcImr.AlignedStays | src/device/intc/rh850f1k/intc_config.c:585-591 | an aligned access covers interrupts of one mask register only, and never runs from the first controller's register into the second's |
| IntcImr.Alias | src/device/intc/rh850f1k/intc_config.c:366-373 | the first mask register address of the second controller reaches the first controller's interrupts, and no other one does |
| IntcImr.WriteExact | src/device/intc/rh850f1k/intc_config.c:375-393 | a write of mapped registers sets every covered mask bit to its data bit, keeps all other bits and all other registers |
| IntcImr.ImrHook.UpdateImr | src/device/intc/rh850f1k/intc_config.c:350-396 | in user mode nothing but the exception record changes; otherwise bits are written in order up to the first unmapped register |
| IntcImr.ImrHook.Update | src/device/intc/rh850f1k/intc_config.c:550-618 | 8-, 16- and 32-bit writes: INVALID exactly when unaligned, PERM exactly in user mode, and an exact write on success |
| CanFifo.RingPut | src/device/peripheral/rh850f1k/can/can_fifo.c:103-108 | storing at the write offset and advancing it appends one frame to the ring's contents |
| CanFifo.RingGet | src/device/peripheral/rh850f1k/can/can_fifo.c:318-324 | reading at the read offset and advancing it takes the oldest frame off the ring's contents |
| CanFifo.OrderKept | src/device/peripheral/rh850f1k/can/can_fifo.c:90-158 | on a bounded queue, under any interleaving of puts and gets, frames come out in the order in which they were accepted and the fill level stays within the depth |
| CanFifo.RxFifo.Put | src/device/peripheral/rh850f1k/can/can_fifo.c:90-129 | a bounded-queue put: refused with the lost flag when full, otherwise appended, with the interrupt rule for the fill level |
| CanFifo.RxFifo.Next | src/device/peripheral/rh850f1k/can/can_fifo.c:130-158 | drops the oldest frame; full and empty flags equal the count tests |
| CanFifo.RxFifo.Peek | src/device/peripheral/rh850f1k/can/can_fifo.c:159-173 | shows the oldest frame |
| CanFifo.RxFifo.Serve | src/device/peripheral/rh850f1k/can/can_fifo.c:90-173 | any sequence of puts and reads on the FIFO object accepts, gives out and leaves exactly the frames that the bounded queue does, so in order, and the lost flag tells whether a frame was refused |
| CanFifo.TxRxFifo.PutReceived | src/device/peripheral/rh850f1k/can/can_fifo.c:182-225 | the receive put of a transmit/receive FIFO, refused in transmit mode |
| CanFifo.TxRxFifo.NextReceived | src/device/peripheral/rh850f1k/can/can_fifo.c:243-272 | the receive next of a transmit/receive FIFO |
| CanFifo.TxRxFifo.PutToSend | src/device/peripheral/rh850f1k/can/can_fifo.c:274-306 | a bounded-queue put in transmit mode |
| CanFifo.TxRxFifo.GetToSend | src/device/peripheral/rh850f1k/can/can_fifo.c:308-335 | hands out the oldest frame and leaves the empty flag alone |
| CanFifo.TxRxFifo.Serve | src/device/peripheral/rh850f1k/can/can_fifo.c:274-335 | the same for any sequence of transmit puts and gets |
| CanFifo.TxRxFifo.NotifySent | src/device/peripheral/rh850f1k/can/can_fifo.c:354-377 | only the end of a transmission raises the empty flag of a transmit FIFO; the contents stay |
| CanFilter.InterruptExactly | src/device/peripheral/rh850f1k/can/can_fifo.c:67-129 | the receive interrupt: with the per-frame option, at full depth with timing 7, and otherwise at timing + 1 eighths of the depth, for accepted frames only |
| CanFilter.Depths | src/device/peripheral/rh850f1k/can/can_fifo.c:45-55 | the depths that can be chosen |
| CanTxQueue.FreeSlotExists | src/device/peripheral/rh850f1k/can/can_tx_queue.c:74-88 | pigeonhole: fewer requests than slots if and only if a slot is free |
| CanTxQueue.PutSlotInRange | src/device/peripheral/rh850f1k/can/can_tx_queue.c:74-91 | the slot a put takes lies in the top quelen+1 slots |
| CanTxQueue.PutKeepsSound | src/device/peripheral/rh850f1k/can/can_tx_queue.c:62-99 | a put requests exactly one free slot and no other, and reqbufnum keeps counting the requested slots, with full and empty agreeing |
| CanTxQueue.DoneKeepsSound | src/device/peripheral/rh850f1k/can/can_tx_queue.c:106-123 | an end of transmission frees exactly its slot and keeps the count |
| CanTxQueue.TransmitQueue.PutFrame | src/device/peripheral/rh850f1k/can/can_tx_queue.c:62-99 | the search loop ends at a free slot without going below the queue, so its count == 0 exit is not reached |
| CanTxQueue.TransmitQueue.PeekFrame | src/device/peripheral/rh850f1k/can/can_tx_queue.c:47-60 | the frame of a requested slot of an enabled queue |
| CanTxQueue.TransmitQueue.NotifySent | src/device/peripheral/rh850f1k/can/can_tx_queue.c:106-123 | slot, count, flags and interrupt after a transmission |
| CanLaws.PutsExactly | src/device/peripheral/rh850f1k/can/can_tx_queue.c:62-99 | a put is accepted if and only if the queue is enabled, not of length 0 and has a free slot, and takes the highest free slot |
| CanLaws.QueueInterruptExactly | src/device/peripheral/rh850f1k/can/can_tx_queue.c:106-123 | the end of a transmission raises the interrupt with the per-frame option or when it empties the queue |
| CanMode.SoundOverRuns | src/device/peripheral/rh850f1k/can/can_mode_channel.c:121-344 | over every event sequence: transfers happen in COMM only, and the requested mode differs from the actual one only as a WAIT held off by a transfer |
| CanMode.WaitDeferred | src/device/peripheral/rh850f1k/can/can_mode_channel.c:212-241 | a WAIT requested during a transfer is not lost to any event but a reset, and takes effect exactly at the matching end of transfer |
| CanMode.OnlyResetCancels | src/device/peripheral/rh850f1k/can/can_mode_channel.c:243-273 | during that time the transfer goes on undisturbed if and only if no reset is requested |
| CanLaws.IgnoredExactly | src/device/peripheral/rh850f1k/can/can_mode_channel.c:121-344 | for each of the nine events, exactly when it changes nothing |
| CanLaws.GrantedOtherwise | src/device/peripheral/rh850f1k/can/can_mode_channel.c:121-344 | and the exact state that it brings about when it does, WAIT requested in a transfer included |
| CanLaws.SoftwareReaches | src/device/peripheral/rh850f1k/can/can_mode_channel.c:156-273 | from every reachable state software can bring the channel into each mode, cutting off any transfer |
| CanLaws.FlagsTell | src/device/peripheral/rh850f1k/can/can_mode_channel.c:156-344 | what each status flag tells about mode and transfer |
| CanMode.ModeChannel.Handle | src/device/peripheral/rh850f1k/can/can_mode_channel.c:121-344 | all nine events, and the six status flags as a function of mode and transfer |
| CanArbitration.StandardBeforeExtended | src/device/peripheral/rh850f1k/can/can_tx.c:215-236 | standard frames go before extended ones |
| CanArbitration.StandardOrder | src/device/peripheral/rh850f1k/can/can_tx.c:201-236 | among standard frames: data before remote, then the smaller identifier |
| CanArbitration.ExtendedOrder | src/device/peripheral/rh850f1k/can/can_tx.c:215-236 | extended frames, data and remote, go in the order of the low nineteen identifier bits, with bit 18 set for a remote frame |
| CanArbitration.DataAndRemote | src/device/peripheral/rh850f1k/can/can_tx.c:201-236 | rule 2 for one extended data and one extended remote frame: exactly when the data frame goes first |
| CanArbitration.DataBeforeRemotes | src/device/peripheral/rh850f1k/can/can_tx.c:201-236 | an extended data frame goes before all extended remote frames if and only if bit 18 of its identifier is clear |
| CanArbitration.SameIdentifier | src/device/peripheral/rh850f1k/can/can_tx.c:201-236 | data and remote frame of one extended identifier: the data frame goes first if bit 18 is clear, and otherwise they compare equal |
| CanArbitration.IdentifierOrder | src/device/peripheral/rh850f1k/can/can_tx.c:201-236 | rule 1 among extended frames of one kind: the order is that of the identifiers if and only if the dropped bits do not rank the two the other way |
| CanArbitration.RemoteOrder | src/device/peripheral/rh850f1k/can/can_tx.c:215-236 | extended remote frames are told apart by their low eighteen identifier bits only |
| CanArbitration.DroppedBits | src/device/peripheral/rh850f1k/can/can_tx.c:218-225 | two different extended identifiers that the comparison cannot tell apart |
| CanArbitration.RemoteBeforeData | src/device/peripheral/rh850f1k/can/can_tx.c:201-236 | an extended data frame with bit 18 set that goes after a remote frame |
| CanTxSpec.ProcDoneKeepReady | src/device/peripheral/rh850f1k/can/can_tx.c:76-132 | a transmission in progress always has a completion handler, so the call in can_tx_done is safe |
| CanTxSpec.OtherEventKeepsReady | src/device/peripheral/rh850f1k/can/can_mode_channel.c:121-154 | no other mode event takes the completion handler away from a transmission |
| CanTxSpec.HandlerOverRuns | src/device/peripheral/rh850f1k/can/can_tx.c:76-132 | over any sequence of processing steps, completions and mode events, while a frame is being sent the completion handler is that of the place the frame was fetched from |
| CanTxMerge.BestIsFirst | src/device/peripheral/rh850f1k/can/can_tx.c:238-292 | the minimum search over the three kinds of source finds the least number, and the source scanned first on a tie |
| CanTxMerge.ChainFinishes | src/device/peripheral/rh850f1k/can/can_tx.c:76-132 | taking least heads one by one empties all sources, each in its own order |
| CanTxMerge.OrderExactly | src/device/peripheral/rh850f1k/can/can_tx.c:238-292 | the overall order is sorted if and only if each source was |
| CanTxDrain.Drain | src/device/peripheral/rh850f1k/can/can_tx.c:76-132 | with k frames pending, k rounds hand every frame of every buffer, FIFO and queue slot to the bus exactly once, FIFOs in FIFO order, and leave nothing pending |
| CanTxDrain.DrainOrder | src/device/peripheral/rh850f1k/can/can_tx.c:238-315 | the frames leave in non-decreasing order of their number if and only if each FIFO was filled in that order; always so with only buffers and queue slots |
| CanLaws.WaitsExactly | src/device/peripheral/rh850f1k/can/can_tx.c:238-292 | at which places a frame waits |
| CanLaws.ProcessesExactly | src/device/peripheral/rh850f1k/can/can_tx.c:76-103 | the processing step sends if and only if the controller runs, the channel is in COMM mode between transfers and a frame waits; it then hands over one waiting frame and begins the transfer |
| CanLaws.FetchesExactly | src/device/peripheral/rh850f1k/can/can_tx.c:317-333 | fetching marks a buffer, takes the oldest frame off a FIFO, and leaves every other place alone |
| CanLaws.CompletesExactly | src/device/peripheral/rh850f1k/can/can_tx.c:105-132 | the completion step acts if and only if the controller runs, the channel is sending and the bus is done; it ends the transfer and grants a WAIT held off |
| CanLaws.ReleasesExactly | src/device/peripheral/rh850f1k/can/can_buffer.c:91-100 | the request of exactly the place that was sent ends, with the success result for a buffer |
| CanTx.Sender.SelectStandard | src/device/peripheral/rh850f1k/can/can_tx.c:238-315 | the three scanning loops over buffers, FIFO objects and the queue object choose the specified winner |
| CanTx.Sender.FetchFrame | src/device/peripheral/rh850f1k/can/can_tx.c:317-333 | the frame handed to the bus is the winner's, fetched from where it waits |
| CanTx.Sender.ProcTransmit | src/device/peripheral/rh850f1k/can/can_tx.c:76-103 | one channel's part of can_tx_proc, on the real buffers, FIFOs, queue and mode object |
| CanTx.Sender.NotifyDone | src/device/peripheral/rh850f1k/can/can_buffer.c:91-100 | the completion handler of a buffer, a FIFO or a queue slot |
| CanTx.Sender.FinishTransmit | src/device/peripheral/rh850f1k/can/can_tx.c:105-132 | one channel's part of can_tx_done |
| CanRxRules.RuleInTable | src/device/peripheral/rh850f1k/can/can_rule.h:89-90 | every rule of every channel lies inside the table when the total fits |
| CanRxRules.SlicesDisjoint | src/device/peripheral/rh850f1k/can/can_rx.c:90-105 | no two channels, and no two rules of a channel, share a table entry |
| CanRxRules.SlicesCover | src/device/peripheral/rh850f1k/can/can_rx.c:90-105 | the slices leave no gap: every entry below the total belongs to a channel |
| CanRxRules.RuleTable.Update | src/device/peripheral/rh850f1k/can/can_rx.c:90-105 | the nested loops fill each channel's list with its prefix-sum slice of the table |
| CanRxSpec.RuleOffersTo | src/device/peripheral/rh850f1k/can/can_rx.c:218-246 | one rule offers the frame once to each buffer and FIFO it names, own-channel FIFOs only, and to nothing else |
| CanRxSpec.ExactRouting | src/device/peripheral/rh850f1k/can/can_rx.c:107-246 | over all rules of a channel each destination is offered one copy per passing rule that names it, in rule order, with that rule's label |
| CanRxSpec.FifoAfter | src/device/peripheral/rh850f1k/can/can_fifo.c:90-128 | a FIFO depends only on the frames offered to it |
| CanRxSpec.BufferAfter | src/device/peripheral/rh850f1k/can/can_buffer.c:52-61 | a receive buffer holds the last frame offered to it |
| CanRxSpec.FirstFit | src/device/peripheral/rh850f1k/can/can_fifo.c:90-128 | a FIFO keeps the first frames offered, as many as fit, and flags the loss of the rest |
| CanRxSpec.Delivered | src/device/peripheral/rh850f1k/can/can_rx.c:107-246 | what one reception leaves in a FIFO, in terms of the rules |
| CanRxSpec.ChannelsIsolated | src/device/peripheral/rh850f1k/can/can_rx.c:119-140 | a channel's own FIFOs are offered frames of that channel only, whatever arrives elsewhere |
| CanRxSpec.RoundFills | src/device/peripheral/rh850f1k/can/can_rx.c:107-142 | what a whole pass over the channels leaves in any FIFO, shared ones included: the copies of all channels in channel order, as many as fit, after the old contents, with loss flagged |
| CanRxSpec.RoundOverwrites | src/device/peripheral/rh850f1k/can/can_rx.c:107-142 | what a whole pass leaves in a receive buffer: the last of those copies, or what it held |
| CanRxSpec.RoundDelivers | src/device/peripheral/rh850f1k/can/can_rx.c:107-142 | a channel FIFO gets the copies of its own channel only |
| CanRxSpec.ReceptionEnds | src/device/peripheral/rh850f1k/can/can_rx.c:127-139 | a reception always ends, and a WAIT pending on the channel then takes effect |
| CanFilter.FormatFiltered | src/device/peripheral/rh850f1k/can/can_rx.c:180-184 | with the IDE mask two frames that differ in the format only are never both accepted, and if one is it is the one that agrees with the rule; without it they are treated alike |
| CanFilter.KindFiltered | src/device/peripheral/rh850f1k/can/can_rx.c:185-189 | the same for data and remote frames and the RTR mask |
| CanFilter.IdentifierFiltered | src/device/peripheral/rh850f1k/can/can_rx.c:190-194 | flipping an identifier bit under the mask gets an accepted frame refused; flipping one outside it changes nothing |
| CanFilter.ContentsIgnored | src/device/peripheral/rh850f1k/can/can_rx.c:178-197 | frames of the same format, kind and identifier are accepted alike |
| CanFilter.OwnFramePasses | src/device/peripheral/rh850f1k/can/can_rx.c:158-216 | a frame with the format, kind and identifier of the rule passes if and only if lengths are not checked, the rule asks for no length, or the frame is long enough |
| CanFilter.LengthAlone | src/device/peripheral/rh850f1k/can/can_rx.c:198-216 | the same for any frame that the rule accepts with some length |
| CanFilter.ArrivesIfMeets | src/device/peripheral/rh850f1k/can/can_rx.c:107-246 | the frame, with the label of the rule, is in the FIFO after a reception if and only if it agrees with the rule in every masked property and is long enough |
| CanFilter.RefusedLeavesAll | src/device/peripheral/rh850f1k/can/can_rx.c:147-175 | a frame that meets no rule of its channel changes no buffer and no FIFO |
| CanFilter.SendsTo | src/device/peripheral/rh850f1k/can/can_rx.c:218-246 | the destinations of a rule by number: its buffer, its receive FIFOs 0 to 7, and channel FIFOs 3c to 3c+2 on channel c |
| CanFilter.TakenWhenReceiving | src/device/peripheral/rh850f1k/can/can_rx.c:119-130 | a frame that waits is taken if and only if the channel is in COMM mode and can begin to receive |
| CanRx.Receiver.Filter | src/device/peripheral/rh850f1k/can/can_rx.c:158-216 | acceptance and length filter as specified, with the length error flag; which frames that lets through: the `CanFilter` rows above |
| CanRx.Receiver.Route | src/device/peripheral/rh850f1k/can/can_rx.c:218-246 | the routing loops make exactly the rule's offers |
| CanRx.Receiver.ProcFrame | src/device/peripheral/rh850f1k/can/can_rx.c:132-138 | one received frame against all rules; a label written by one rule does not reach the destinations of the next |
| CanRx.Receiver.ProcChannel | src/device/peripheral/rh850f1k/can/can_rx.c:119-140 | when a waiting frame is taken, and what taking it does |
| CanRx.Receiver.Proc | src/device/peripheral/rh850f1k/can/can_rx.c:107-142 | the loop over the channels |
| CpuArith.CmpDecides | src/cpu/cpu_exec/op_exec_branch.c:46-144 | the condition codes on the flags of a subtraction decide all signed and unsigned orders and equality of the two words; for the instruction itself: `CpuLaws.ComparesExactly` |
| CpuLaws.ComparesExactly | src/cpu/cpu_exec/op_exec_arithm.c:260-286 | after the CMP instruction ten condition codes decide every order and equality of the second register against the first, signed and unsigned; registers stay and PC is two further |
| CpuLaws.AddsExactly | src/cpu/cpu_exec/op_exec_arithm.c:288-316 | ADD: the result is the sum modulo 2 to the 32, and codes 0, 1, 2 and 4 tell signed overflow, carry, zero and sign; no other register changes |
| CpuLaws.SubtractsExactly | src/cpu/cpu_exec/op_exec_arithm.c:202-230 | SUB: the same for the second register less the first |
| CpuLaws.AddsConditionally | src/cpu/cpu_exec/op_exec_arithm.c:1315-1363 | ADF: the same with one more if the condition holds |
| CpuLaws.SubtractsConditionally | src/cpu/cpu_exec/op_exec_arithm.c:1365-1415 | SBF: the same with one less if the condition holds |
| CpuLaws.OtherCodes | src/cpu/cpu_exec/op_exec_branch.c:46-144 | the codes that do not compare, and none above 15 |
| CpuArith.Complementary | src/cpu/cpu_exec/op_exec_branch.c:46-144 | condition codes that differ in the top bit only are opposites, except 5 and 13 when SAT is set |
| CpuArith.Core.CheckCarry | src/cpu/cpu_exec/op_exec_arithm.c:74-106 | the 64-bit sum test is the carry of a 32-bit addition, with and without carry in |
| CpuArith.Core.CheckBorrow | src/cpu/cpu_exec/op_exec_arithm.c:108-142 | bit 32 of the wrapped 64-bit difference is the borrow, with and without borrow in |
| CpuArith.Core.CheckOverflow | src/cpu/cpu_exec/op_exec_arithm.c:148-176 | the 64-bit range test is the signed overflow |
| CpuArith.Core.Add | src/cpu/cpu_exec/op_exec_arithm.c:288-316 | ADD, with its failure for register numbers above 31 |
| CpuArith.Core.Sub | src/cpu/cpu_exec/op_exec_arithm.c:202-230 | SUB |
| CpuArith.Core.Cmp | src/cpu/cpu_exec/op_exec_arithm.c:260-286 | CMP as it runs is the CMP of the specification, of which `CpuLaws.ComparesExactly` speaks, with its failure for register numbers above 31 |
| CpuArith.Core.Adf | src/cpu/cpu_exec/op_exec_arithm.c:1315-1363 | ADF with any condition |
| CpuArith.Core.Sbf | src/cpu/cpu_exec/op_exec_arithm.c:1365-1415 | SBF with any condition |
| CpuMultiword.AddModulo | src/cpu/cpu_exec/op_exec_arithm.c:288-316 | a chain of one ADD and n-1 ADF is addition modulo 2 to the 32n, with the true carry out, for any n |
| CpuMultiword.SubModulo | src/cpu/cpu_exec/op_exec_arithm.c:202-230 | a chain of one SUB and n-1 SBF is subtraction modulo 2 to the 32n, with the true borrow |
| CpuMultiword.AddOverflow | src/cpu/cpu_exec/op_exec_arithm.c:161-176 | the overflow flag after the chain is the overflow of the whole n-word signed sum |
| CpuMultiword.SubOverflow | src/cpu/cpu_exec/op_exec_arithm.c:161-176 | the overflow flag after the chain is the overflow of the whole n-word signed difference |
| CpuWords.SignedIsValue | src/cpu/cpu_exec/op_exec_arithm.c:148-176 | the signed number of n words is their unsigned number, less 2 to the 32n when the top word is negative |
| CpuProgram.ProgramRuns | src/cpu/cpu_exec/op_exec_arithm.c:1315-1415 | the instruction sequence in registers, with results in registers other than register 0, computes the chain and changes no other register |
| CpuProgram.AddsNumbers | src/cpu/cpu_exec/op_exec_arithm.c:1315-1363 | the sequence adds n-word numbers held in registers, flags included |
| CpuProgram.SubtractsNumbers | src/cpu/cpu_exec/op_exec_arithm.c:1365-1415 | the sequence subtracts n-word numbers held in registers, flags included |
| CpuFrames.ListsAndEncodings | src/cpu/cpu_dec/op_dec.c:248-280 | the decoder's register list is a bijection between twelve instruction bits and registers 20 to 31 |
| CpuMemory.PushedWord | src/cpu/cpu_exec/op_exec_spec_rh850.c:394-420 | words pushed below the stack pointer are found where they were put, at any alignment and across the address wrap |
| CpuMemory.PushElsewhere | src/cpu/cpu_exec/op_exec_spec_rh850.c:394-420 | pushing changes only the pushed bytes |
| CpuFrames.DisposeUndoesPrepare | src/cpu/cpu_exec/op_exec_spec_rh850.c:384-520 | DISPOSE gives back every register and the stack pointer that PREPARE saved, for every list, immediate and sub-op, whatever the code in between does outside its frame |
| CpuFrames.PrepareTouches | src/cpu/cpu_exec/op_exec_spec_rh850.c:384-421 | PREPARE changes no byte outside its frame, even when it fails half way |
| CpuFrames.PopSpUndoesPushSp | src/cpu/cpu_exec/op_exec_spec_rh850.c:522-612 | POPSP gives back what PUSHSP saved, for every range that does not start at register 0; the stack pointer comes back word aligned, also when it is in the range |
| CpuFrames.PushSpTouches | src/cpu/cpu_exec/op_exec_spec_rh850.c:522-566 | PUSHSP changes no byte outside the words it pushes |
| CpuStackLaws.LittleEndian | src/cpu/cpu_exec/op_exec_spec_rh850.c:394-420 | a word is stored least significant byte first |
| CpuStackLaws.ReadsLittleEndian | src/cpu/cpu_exec/op_exec_spec_rh850.c:479-510 | and read so |
| CpuStackLaws.PreparePlaces | src/cpu/cpu_exec/op_exec_spec_rh850.c:394-420 | PREPARE puts each listed register below the stack pointer, the lowest number on top |
| CpuStackLaws.PreparedSp | src/cpu/cpu_exec/op_exec_spec_rh850.c:384-435 | the stack pointer and the cycle count after a successful PREPARE |
| CpuStackLaws.ElementPointer | src/cpu/cpu_exec/op_exec_spec_rh850.c:421-465 | the four forms of the element pointer, and PC behind the words read |
| CpuStackLaws.DisposeEnds | src/cpu/cpu_exec/op_exec_spec_rh850.c:467-520 | PC and cycle count after a successful DISPOSE, with and without jump |
| CpuStackLaws.ReturnsToCaller | src/cpu/cpu_exec/op_exec_spec_rh850.c:384-520 | a function that saves a register in its frame returns through it: DISPOSE with a jump goes to the value it had before PREPARE |
| CpuStackLaws.PushSpPlaces | src/cpu/cpu_exec/op_exec_spec_rh850.c:522-566 | PUSHSP puts the registers of its range below the word-aligned stack pointer, the first on top |
| CpuStackLaws.PushSpEnds | src/cpu/cpu_exec/op_exec_spec_rh850.c:522-566 | registers, PC and cycle count after a successful PUSHSP |
| CpuStackLaws.PopSpEnds | src/cpu/cpu_exec/op_exec_spec_rh850.c:568-612 | stack pointer, PC and cycle count after a successful POPSP |
| CpuStackLaws.PushStops | src/cpu/cpu_exec/op_exec_spec_rh850.c:394-420 | pushes stop before the first word that cannot be written, with exactly those before it pushed |
| CpuStackLaws.PopStops | src/cpu/cpu_exec/op_exec_spec_rh850.c:479-510 | pops stop before the first word that cannot be read |
| CpuStack.StackCore.PutWord | src/cpu/cpu_exec/op_exec_spec_rh850.c:407-419 | the permission and bus checks of one store |
| CpuStack.StackCore.ExecPrepare | src/cpu/cpu_exec/op_exec_spec_rh850.c:384-465 | PREPARE as it runs, with its failures and its four ways to set the element pointer |
| CpuStack.StackCore.ExecDispose | src/cpu/cpu_exec/op_exec_spec_rh850.c:467-520 | DISPOSE as it runs, with its failures, cycle count and optional jump |
| CpuStack.StackCore.ExecPushSp | src/cpu/cpu_exec/op_exec_spec_rh850.c:522-566 | PUSHSP as it runs |
| CpuStack.StackCore.ExecPopSp | src/cpu/cpu_exec/op_exec_spec_rh850.c:568-612 | POPSP as it runs |
| CpuCache.StepAgrees | src/cpu/config/cpu_config.c:263-338 | from a coherent cache, with checks on, a cached step is the step that decodes: same state, same result code |
| CpuCache.FillKeepsCoherent | src/cpu/config/cpu_config.c:253-256 | an entry is filled with what decoding gave |
| CpuCache.UncheckedAgrees | src/cpu/config/cpu_config.c:299-316 | in a build with DISABLE_MEMPROTECT a hit agrees with decoding if and only if the permission check that it leaves out would have passed |
| CpuCache.LockedExecuted | src/cpu/config/cpu_config.c:263-338 | a run from the empty cache: an instruction is cached while protection is off and executed again after it is on, where decoding raises MIP |
| CpuCache.RunsAgree | src/cpu/config/cpu_config.c:173-338 | over runs of any length, with any interference between steps that leaves code alone, cached and uncached execution go through the same states and results |
| CpuCache.UncheckedRunsAgree | src/cpu/config/cpu_config.c:299-338 | the same with checks off, when no check would have failed |
| CpuCache.StepEnds | src/cpu/config/cpu_config.c:173-338 | the result code, recorded error and cause of exception in every exit of the decoding step: MIP for a refused fetch, MDP for a refused access |
| CpuCache.IdleSteps | src/cpu/config/cpu_config.c:271-277 | a core that is halted or has failed fatally is left alone |
| CpuCache.Interpreter.SupplyClockNotCached | src/cpu/config/cpu_config.c:173-258 | the decoding step in all its exits, and the fill of the entry |
| CpuCache.Interpreter.SupplyClock | src/cpu/config/cpu_config.c:263-338 | the cached step in all its exits |
| ClockSkip.TickSettles | src/device/peripheral/rh850f1k/timer/timer.c:118-144 | a timer whose due clock is not passed stays in a state that may be jumped from |
| ClockSkip.FiresWhenDue | src/device/peripheral/rh850f1k/timer/timer.c:130-140 | a running interval timer fires at its due clock |
| ClockSkip.QuietTimer | src/device/peripheral/rh850f1k/timer/timer.c:118-144 | and raises nothing before |
| ClockSkip.JumpBounds | src/device/peripheral/rh850f1k/timer/timer.c:166-183 | the interval is at least 1 and does not reach past the due clock of either timer; after a fire it is 1 |
| ClockSkip.NextPoll | src/device/peripheral/rh850f1k/can/can.c:138-139 | the rounded-up clock is the next poll |
| ClockSkip.PollJumped | src/device/peripheral/rh850f1k/can/can.c:128-148 | a jump passes over a CAN poll if and only if it starts on a poll clock and the wishes of both timers and the longest interval all exceed the polling period, because a poll clock contributes no interval |
| ClockSkip.StaleStart | src/device/peripheral/rh850f1k/timer/timer.c:122-186 | the computed interval passes over the clock at which a timer just made ready ought to start if and only if the due clock of its old start, the wish of the other timer, the poll and the longest interval all lie beyond it |
| ClockSkip.TimersAlike | src/device/peripheral/rh850f1k/timer/timer.c:166-183 | the interval does not depend on which of the two timers is asked first, so the same holds for the other timer |
| ClockSkip.StartsWhenVisited | src/device/peripheral/rh850f1k/timer/timer.c:118-127 | a timer made ready starts at its next counting clock when that clock is visited |
| ClockSkip.LateStart | src/device/peripheral/rh850f1k/timer/timer.c:122-186 | a timer that should start at clock 10 starts at clock 1000 |
| ClockRuns.JumpsAreWalks | src/device/device.c:166-205 | for any devices that obey three laws: jumping and visiting every clock go through the same happenings at the same clocks if and only if nothing happens at the clocks passed over |
| ClockRuns.MissedIsLost | src/device/device.c:166-205 | and otherwise the log of the jumps lacks exactly as many entries as there were happenings passed over |
| ClockSkip.JumpsAreWalks | src/device/peripheral/rh850f1k/timer/timer.c:118-209 | for the two timers and the CAN poll and every longest interval: jumping raises and polls at the same clocks as unit stepping if and only if no jump starts on a poll clock with nothing to keep it within the polling period |
| ClockSkip.PollsMissing | src/device/peripheral/rh850f1k/can/can.c:128-148 | a run with such a jump logs fewer polls than unit stepping |
| ClockSkip.PollMissed | src/device/peripheral/rh850f1k/can/can.c:128-148 | a run with such a jump: both timers stopped, from a poll clock |
| ClockSkip.InterruptsAgree | src/device/peripheral/rh850f1k/timer/timer.c:118-209 | the timer interrupts come at the same clocks as with unit stepping, without any condition on polls |
| ClockLaws.FiresPeriodically | src/device/peripheral/rh850f1k/timer/timer.c:118-144 | an interval timer goes on for ever: over any number of clocks from a running timer it raises its interrupt at exactly the clocks start + compare * fd + k * (compare + 1) * fd |
| ClockLaws.IntervalIs | src/device/peripheral/rh850f1k/timer/timer.c:147-186 | the interval is the least of the longest interval, what each timer can do without a visit, and the distance to the next poll |
| ClockCounts.WalkCounts | src/device/peripheral/rh850f1k/timer/timer.c:118-144 | visiting every clock keeps both counts of a running timer at the number of whole periods since its start |
| ClockCounts.CountsAgree | src/device/peripheral/rh850f1k/timer/timer.c:118-144 | a jump short of the due clock leaves a running timer, counts included, as visiting every clock does if and only if it ends at a counting clock or passes over none |
| ClockCounts.DueAgrees | src/device/peripheral/rh850f1k/timer/timer.c:118-144 | a jump to the due clock always does |
| ClockCounts.StaleCount | src/device/peripheral/rh850f1k/timer/timer.c:118-144 | a timer that shows 100 after a jump where the count should be 98 |
| ClockDevices.TimerDevice.DoUpdate | src/device/peripheral/rh850f1k/timer/timer.c:118-144 | the timer update as it runs is the tick of the specification; what that makes of an interval timer: `ClockLaws.FiresPeriodically` |
| ClockDevices.TimerDevice.CalcMinInterval | src/device/peripheral/rh850f1k/timer/timer.c:147-186 | the interval of one timer as it runs is its wish, with the floor of 1 |
| ClockDevices.DeviceClock.SupplyClock | src/device/device.c:166-205 | one clock for timers and CAN, and the minimum interval left behind |
| CpuBits.RotationsAdd | src/cpu/cpu_exec/op_exec_arithm_rh850.c:105-166 | rotations add up and a full turn is the identity |
| CpuBits.RotatesLeft | src/cpu/cpu_exec/op_exec_arithm_rh850.c:105-166 | bit i goes to bit i + n, modulo 32 |
| CpuBits.FieldBounds | src/cpu/cpu_exec/op_exec_arithm_rh850.c:50-101 | which bits the three forms of BINS address |
| CpuBits.InsertReads | src/cpu/cpu_exec/op_exec_arithm_rh850.c:50-101 | an inserted field reads back as the low bits of the source, and the bits around it stay |
| CpuBits.ExtensionIsSigned | src/cpu/cpu_common/cpu_ops.h:269-281 | sign extension keeps the two's-complement number of the field |
| CpuBits.ExtendedWhenClear | src/cpu/cpu_common/cpu_ops.h:269-281 | op_sign_extend is sign extension if and only if the field is negative or the bits above it are clear already, as they are in the fields that the decoder hands to it |
| CpuBits.SignExtend | src/cpu/cpu_common/cpu_ops.h:269-281 | the loop of op_sign_extend |
| CpuBits.ZeroExtend | src/cpu/cpu_common/cpu_ops.h:287-294 | the loop of op_zero_extend |
| CpuBits.BitCore.Bins | src/cpu/cpu_exec/op_exec_arithm_rh850.c:50-101 | BINS replaces exactly bits lsb to msb, with its flags |
| CpuBits.BitCore.Rotl | src/cpu/cpu_exec/op_exec_arithm_rh850.c:105-166 | ROTL rotates by 0 to 31 bits, with CY equal to the lowest result bit when the count is not 0 |

## Left out

- Multiple cores: delivery to other cores and inter-core interrupts are not part of the model.
- Handler address selection and exception codes (EIIC, FEIC): table lookups that do not affect the queues; the handler address is a parameter.
- ICSR: the masked-state bit that the PMR tests write is not modelled.
- Guest writes to IC registers other than request bits and masks, and the mirroring of IC mask bits into the mask registers.
- IntcController.Controller.WithdrawRequest: models the build with `FIX_INTR_CPU_RCV_CLR`; the path of other builds is not modelled.
- IntcImr.ImrHook.Update: takes the data as a sequence of bits, lowest first, instead of bytes.
- CAN global mode machine: only whether the controller is in RUN enters, as a parameter.
- CAN bus back ends, interrupt lines to the controller, and register mapping of the CAN registers.
- Buffer-number-first transmit selection and transmit history.
- Reconfiguring the depth of a FIFO or the length of the transmit queue while it holds frames.
- CanTx.Sender.ProcTransmit: one channel; the loop over channels repeats it, and `start_send` is taken to succeed.
- CanRx.Receiver.Route: keeps the state of each FIFO as a value; the FIFO objects of `CanFifo` are proved to take an offered frame in the same way, but are not aliased here.
- CanRx.Receiver.Proc: the same.
- CanRxSpec.Delivered: rule masks are sets of bit positions and identifiers have 29 bits.
- Instructions other than the ones named; in particular MAC, CAXI, SCH, byte swaps and floating point.
- CpuStack.StackCore.ExecPopSp: requires a range that does not start at register 0, for which the C loop does not end.
- CpuFrames.PopSpUndoesPushSp: the same.
- CpuBits.BitCore.Rotl: rotation counts up to 31; a larger count in a register shifts by more than the word in C.
- CpuFrames.DisposeUndoesPrepare: an access succeeds when all its bytes are mapped and permitted; the error details that the protection unit records are not modelled.
- CpuCache.RunsAgree: the current-code pointer and the decode buffer are not part of the compared state; self-modifying code is excluded by hypothesis, since the cache is not invalidated.
- Timer free-run mode: no register sets it.
- ClockSkip.JumpsAreWalks: software does nothing while the processor is halted, and the run begins with settled timers (a timer that software made ready with an old start is the case of `ClockSkip.StaleStart`); the value of the longest interval is not part of this model, and the theorems hold for every value.
- ClockDevices.DeviceClock.SupplyClock: the calls to digital, serial and external devices and to the interrupt controller in the same function are left out; of these only external devices could shorten the interval.
- IntcSoftware.RightOverRuns: exception codes (ECR, EIIC, FEIC) and the fatal error after a SYSCALL that cannot read its table are not modelled; RETI acts as FERET or EIRET, depending on PSW.NP.
- ClockCounts.CountsAgree: the count that a stopped timer goes on showing is not covered.
