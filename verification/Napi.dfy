/**
 The interrupt-mask handshake between rtl8139_interrupt and rtl8139_poll (net/realtek/8139too.c) while
 the device is open: every lock operation, register access and change of the NAPI bit is a step, and
 the chip raises interrupt sources at any time. With `locked` false, the poll routine leaves out
 tp->lock around its last two actions: the variant that shows what the lock is for.
*/
module Napi {
  const PCI_ERR: bv16 := 0x8000
  const PCS_TIMEOUT: bv16 := 0x4000
  const RX_FIFO_OVER: bv16 := 0x40
  const RX_UNDERRUN: bv16 := 0x20
  const RX_OVERFLOW: bv16 := 0x10
  const TX_ERR: bv16 := 0x08
  const TX_OK: bv16 := 0x04
  const RX_ERR: bv16 := 0x02
  const RX_OK: bv16 := 0x01

  /** RxAckBits */
  const RX_ACK: bv16 := RX_FIFO_OVER | RX_OVERFLOW | RX_OK
  /** rtl8139_intr_mask */
  const INTR: bv16 :=
    PCI_ERR | PCS_TIMEOUT | RX_UNDERRUN | RX_OVERFLOW | RX_FIFO_OVER | TX_ERR | TX_OK | RX_ERR | RX_OK
  /** rtl8139_norx_intr_mask */
  const NO_RX: bv16 := PCI_ERR | PCS_TIMEOUT | RX_UNDERRUN | TX_ERR | TX_OK | RX_ERR

  datatype Holder = Free | ByIrq | ByPoll

  datatype IrqPc =
    | IrqIdle
    | IrqLocked
    | IrqAck(status: bv16)
    | IrqPrep(status: bv16)        // napi_schedule_prep
    | IrqMask(status: bv16)        // write the no-Rx mask
    | IrqQueue(status: bv16)       // __napi_schedule
    | IrqRest(status: bv16)        // errors and Tx work
    | IrqUnlock

  datatype PollPc =
    | PollIdle
    | PollTest(budget: nat)
    | PollRx(budget: nat)          // inside rtl8139_rx
    | PollDecide(work: int, budget: nat)
    | PollLock
    | PollComplete                 // __napi_complete
    | PollMask                     // write the full mask
    | PollUnlock
    | PollLeave                    // release rx_lock

  /** sched is NAPI_STATE_SCHED, queued its place on a CPU's poll list. */
  datatype State = State(lock: Holder, sched: bool, queued: bool, mask: bv16, status: bv16,
                         irq: IrqPc, poll: PollPc)

  datatype Step =
    | Raise(sources: bv16)
    | Irq
    | PollStart(budget: nat)
    | RxAck                        // rtl8139_isr_ack
    | RxReturn(work: int)
    | Poll

  predicate Any(status: bv16, sources: bv16) {
    status & sources != 0
  }

  function Without(status: bv16, sources: bv16): bv16 {
    status & !sources
  }

  function With(status: bv16, sources: bv16): bv16 {
    status | sources
  }

  /** The chip asserts its interrupt line. */
  predicate Asserted(s: State) {
    Any(s.status, s.mask)
  }

  // ---------------------------------------------------------------------------------------------
  // The steps
  // ---------------------------------------------------------------------------------------------

  predicate IrqEnabled(s: State) {
    s.irq.IrqIdle? ==> s.lock.Free?
  }

  function IrqNext(s: State): State {
    match s.irq
    case IrqIdle => s.(lock := ByIrq, irq := IrqLocked)
    case IrqLocked =>
      s.(irq := if !Any(s.status, INTR) || s.status == 0xffff then IrqUnlock else IrqAck(s.status))
    case IrqAck(st) =>
      s.(status := Without(s.status, Without(st, With(RX_ACK, TX_ERR))),
         irq := if Any(st, RX_ACK) then IrqPrep(st) else IrqRest(st))
    case IrqPrep(st) => if s.sched then s.(irq := IrqRest(st)) else s.(sched := true, irq := IrqMask(st))
    case IrqMask(st) => s.(mask := NO_RX, irq := IrqQueue(st))
    case IrqQueue(st) => s.(queued := true, irq := IrqRest(st))
    case IrqRest(st) =>
      s.(status := if Any(st, TX_ERR) then Without(s.status, TX_ERR) else s.status, irq := IrqUnlock)
    case IrqUnlock => s.(lock := Free, irq := IrqIdle)
  }

  predicate PollEnabled(s: State, locked: bool) {
    match s.poll
    case PollIdle | PollRx(_) => false
    case PollLock => locked ==> s.lock.Free?
    case _ => true
  }

  function PollNext(s: State, locked: bool): State {
    match s.poll
    case PollTest(b) => s.(poll := if Any(s.status, RX_ACK) then PollRx(b) else PollDecide(0, b))
    case PollDecide(work, b) =>
      if work < b then s.(poll := PollLock) else s.(queued := true, poll := PollIdle)
    case PollLock => s.(lock := if locked then ByPoll else s.lock, poll := PollComplete)
    case PollComplete => s.(sched := false, poll := PollMask)
    case PollMask => s.(mask := INTR, poll := PollUnlock)
    case PollUnlock => s.(lock := if locked then Free else s.lock, poll := PollLeave)
    case PollLeave => s.(poll := PollIdle)
    case _ => s
  }

  predicate Enabled(s: State, step: Step, locked: bool) {
    match step
    case Raise(_) => true
    case Irq => IrqEnabled(s)
    case PollStart(_) => s.poll.PollIdle? && s.queued
    case RxAck => s.poll.PollRx?
    case RxReturn(work) => s.poll.PollRx? && -1 <= work <= s.poll.budget
    case Poll => PollEnabled(s, locked)
  }

  function Next(s: State, step: Step, locked: bool): State
    requires Enabled(s, step, locked)
  {
    match step
    case Raise(sources) => s.(status := With(s.status, sources))
    case Irq => IrqNext(s)
    case PollStart(b) => s.(queued := false, poll := PollTest(b))
    case RxAck => s.(status := Without(s.status, RX_ACK))
    case RxReturn(work) => s.(poll := PollDecide(work, s.poll.budget))
    case Poll => PollNext(s, locked)
  }

  /** rtl8139_open: NAPI enabled, then all sources unmasked */
  ghost predicate Initial(s: State) {
    && s.lock.Free? && !s.sched && !s.queued && s.mask == INTR
    && s.irq.IrqIdle? && s.poll.PollIdle?
  }

  ghost predicate IsRun(states: seq<State>, steps: seq<Step>, locked: bool) {
    && |states| == |steps| + 1 && Initial(states[0])
    && forall i :: 0 <= i < |steps| ==>
      Enabled(states[i], steps[i], locked) && states[i + 1] == Next(states[i], steps[i], locked)
  }

  // ---------------------------------------------------------------------------------------------
  // The invariant
  // ---------------------------------------------------------------------------------------------

  predicate PollHolds(p: PollPc) {
    p.PollComplete? || p.PollMask? || p.PollUnlock?
  }

  /** From its start until it clears the bit, a poll owns the scheduled NAPI. */
  predicate PollOwns(p: PollPc) {
    p.PollTest? || p.PollRx? || p.PollDecide? || p.PollLock? || p.PollComplete?
  }

  predicate IrqOwns(i: IrqPc) {
    i.IrqMask? || i.IrqQueue?
  }

  ghost predicate LockInv(s: State) {
    && (s.lock.ByIrq? <==> !s.irq.IrqIdle?)
    && (s.lock.ByPoll? <==> PollHolds(s.poll))
  }

  ghost predicate OwnerInv(s: State) {
    && (s.sched <==> s.queued || PollOwns(s.poll) || IrqOwns(s.irq))
    && !(s.queued && PollOwns(s.poll)) && !(s.queued && IrqOwns(s.irq)) && !(PollOwns(s.poll) && IrqOwns(s.irq))
  }

  ghost predicate MaskInv(s: State) {
    if s.irq.IrqMask? then s.mask == INTR
    else if s.poll.PollMask? then !s.sched && s.mask == NO_RX
    else s.mask == if s.sched then NO_RX else INTR
  }

  ghost predicate Inv(s: State) {
    LockInv(s) && OwnerInv(s) && MaskInv(s)
  }

  lemma IrqKeepsInv(s: State)
    requires Inv(s) && IrqEnabled(s)
    ensures Inv(IrqNext(s))
  {
    hide Any, With, Without;
  }

  lemma PollKeepsInv(s: State)
    requires Inv(s) && PollEnabled(s, true)
    ensures Inv(PollNext(s, true))
  {
    hide Any, With, Without;
  }

  lemma StepKeepsInv(s: State, step: Step)
    requires Inv(s) && Enabled(s, step, true)
    ensures Inv(Next(s, step, true))
  {
    hide Any, With, Without, IrqNext, PollNext, IrqEnabled, PollEnabled;
    match step
    case Irq => IrqKeepsInv(s);
    case Poll => PollKeepsInv(s);
    case _ =>
  }

  lemma {:induction false} RunKeepsInv(states: seq<State>, steps: seq<Step>, i: nat)
    requires IsRun(states, steps, true) && i < |states|
    ensures Inv(states[i])
  {
    hide Next, Enabled;
    if i > 0 {
      RunKeepsInv(states, steps, i - 1);
      StepKeepsInv(states[i - 1], steps[i - 1]);
    }
  }

  // ---------------------------------------------------------------------------------------------
  // The handshake
  // ---------------------------------------------------------------------------------------------

  lemma MasksDiffer(status: bv16)
    ensures INTR != NO_RX
    ensures Any(status, RX_ACK) ==> Any(status, INTR)
    ensures !Any(NO_RX, RX_ACK)
  {
  }

  /** Whenever tp->lock is free, NAPI is scheduled exactly when Rx interrupts are masked. */
  lemma ScheduledExactlyWhenMasked(states: seq<State>, steps: seq<Step>, i: nat)
    requires IsRun(states, steps, true) && i < |states| && states[i].lock.Free?
    ensures states[i].sched <==> states[i].mask == NO_RX
    ensures !states[i].sched <==> states[i].mask == INTR
  {
    hide Next, Enabled;
    RunKeepsInv(states, steps, i);
    MasksDiffer(0);
  }

  /** Received packets never wait for nothing: while the chip shows an Rx source, a poll is queued or
      running, or the interrupt handler runs, or the chip asserts its line. */
  lemma PendingRxIsServed(states: seq<State>, steps: seq<Step>, i: nat)
    requires IsRun(states, steps, true) && i < |states| && Any(states[i].status, RX_ACK)
    ensures var s := states[i];
      s.queued || PollOwns(s.poll) || PollHolds(s.poll) || !s.irq.IrqIdle? || Asserted(s)
  {
    hide Next, Enabled, Any;
    RunKeepsInv(states, steps, i);
    MasksDiffer(states[i].status);
  }

  /** A scheduled NAPI is in exactly one place: on a poll list, being polled, or about to be queued. */
  lemma ScheduledOnce(states: seq<State>, steps: seq<Step>, i: nat)
    requires IsRun(states, steps, true) && i < |states| && states[i].sched
    ensures var s := states[i];
      && (s.queued || PollOwns(s.poll) || IrqOwns(s.irq))
      && !(s.queued && PollOwns(s.poll)) && !(s.queued && IrqOwns(s.irq)) && !(PollOwns(s.poll) && IrqOwns(s.irq))
  {
    hide Next, Enabled, Any;
    RunKeepsInv(states, steps, i);
  }

  // ---------------------------------------------------------------------------------------------
  // Handler and poll do their work
  // ---------------------------------------------------------------------------------------------

  /** RxOK, RxOverflow or RxFIFOOver */
  predicate ShowsRx(status: bv16) {
    status & 0x01 != 0 || status & 0x10 != 0 || status & 0x40 != 0
  }

  lemma AnyRxShows(status: bv16)
    ensures Any(status, RX_ACK) <==> ShowsRx(status)
  {
  }

  /** The sources the driver wants, and those it leaves on while NAPI is scheduled: all but the three. */
  lemma MasksAre()
    ensures INTR == 0xc07f && NO_RX == INTR & 0xffae && !ShowsRx(NO_RX)
  {
  }

  lemma HandlerStep(s: State, step: Step)
    requires Inv(s) && Enabled(s, step, true) && HandlerOwes(s)
    ensures HandlerOwes(Next(s, step, true))
  {
    hide With, Without, ShowsRx;
    forall st: bv16 ensures Any(st, RX_ACK) <==> ShowsRx(st) {
      AnyRxShows(st);
    }
    hide Any;
  }

  /** Once the handler saw an Rx source, NAPI is scheduled before it goes on to errors and Tx work. */
  ghost predicate HandlerOwes(s: State) {
    && (s.irq.IrqRest? && ShowsRx(s.irq.status) ==> s.sched && s.mask == NO_RX)
    && (s.irq.IrqPrep? || s.irq.IrqMask? || s.irq.IrqQueue? ==> ShowsRx(s.irq.status))
  }

  lemma {:induction false} HandlerSchedulesPoll(states: seq<State>, steps: seq<Step>, i: nat)
    requires IsRun(states, steps, true) && i < |states|
    ensures HandlerOwes(states[i])
    ensures states[i].irq.IrqRest? && ShowsRx(states[i].irq.status) ==>
      states[i].sched && states[i].mask == NO_RX && (states[i].queued || PollOwns(states[i].poll))
  {
    RunKeepsInv(states, steps, i);
    if i > 0 {
      HandlerSchedulesPoll(states, steps, i - 1);
      RunKeepsInv(states, steps, i - 1);
      HandlerStep(states[i - 1], steps[i - 1]);
    }
    hide Next, Enabled, ShowsRx;
  }

  function RxPart(status: bv16): bv16 {
    status & 0x0051
  }

  /** All but the three Rx sources and TxErr */
  function NonRx(status: bv16): bv16 {
    status & 0xffa6
  }

  /** Of the sources seen, all but the three Rx ones and TxErr are cleared; those not seen stay. */
  function AfterAck(status: bv16, seen: bv16): bv16 {
    status & !NonRx(seen)
  }

  function NoTxErr(status: bv16): bv16 {
    status & 0xfff7
  }

  lemma SeenIs(seen: bv16)
    ensures Without(seen, With(RX_ACK, TX_ERR)) == NonRx(seen)
  {
  }

  lemma AckIs(status: bv16, seen: bv16)
    ensures Without(status, Without(seen, With(RX_ACK, TX_ERR))) == AfterAck(status, seen)
  {
    SeenIs(seen);
    hide NonRx, With;
  }

  lemma AckOfTxErr(status: bv16)
    ensures Without(status, TX_ERR) == NoTxErr(status)
  {
  }

  lemma RxPartStays(status: bv16, seen: bv16)
    ensures RxPart(AfterAck(status, seen)) == RxPart(status) && RxPart(NoTxErr(status)) == RxPart(status)
  {
  }

  function HandlerStatus(s: State): bv16 {
    match s.irq
    case IrqAck(seen) => AfterAck(s.status, seen)
    case IrqRest(seen) => if Any(seen, TX_ERR) then NoTxErr(s.status) else s.status
    case _ => s.status
  }

  lemma IrqStatus(s: State)
    requires IrqEnabled(s)
    ensures IrqNext(s).poll == s.poll && IrqNext(s).status == HandlerStatus(s)
  {
    hide Any, With, Without, AfterAck, NoTxErr;
    match s.irq
    case IrqAck(seen) => AckIs(s.status, seen);
    case IrqRest(seen) => AckOfTxErr(s.status);
    case _ =>
  }

  lemma IrqStep(s: State)
    requires IrqEnabled(s)
    ensures IrqNext(s).poll == s.poll && IrqNext(s).status == HandlerStatus(s)
    ensures RxPart(HandlerStatus(s)) == RxPart(s.status)
  {
    IrqStatus(s);
    RxPartStays(s.status, if s.irq.IrqAck? then s.irq.status else 0);
    hide Any, With, Without, AfterAck, NoTxErr, RxPart, IrqNext;
  }

  /** Rx sources are acknowledged inside rtl8139_rx only. Of the other sources the handler acknowledges
      what it saw, TxErr after the Tx work and the rest at once, and nothing that came up since. */
  lemma AcknowledgesExactly(s: State, step: Step)
    requires Enabled(s, step, true)
    ensures var t := Next(s, step, true);
      && (!step.RxAck? && !step.Raise? ==> RxPart(t.status) == RxPart(s.status))
      && (step.RxAck? ==> s.poll.PollRx? && t.status == Without(s.status, RX_ACK))
      && (step.Irq? ==> t.status == HandlerStatus(s))
      && (!step.Irq? && !step.RxAck? && !step.Raise? ==> t.status == s.status)
  {
    hide Any, With, Without, AfterAck, NoTxErr, RxPart;
    if step.Irq? {
      IrqStep(s);
      hide IrqNext;
    }
  }

  /** A shared interrupt that is not the chip's, or a chip that is gone, is left alone. */
  lemma HandlerLeavesAlone(s: State)
    requires s.irq.IrqLocked?
    ensures IrqNext(s).irq.IrqUnlock? <==> s.status & 0xc07f == 0 || s.status == 0xffff
    ensures IrqNext(s) == s.(irq := IrqNext(s).irq)
  {
    WantedSources(s.status);
    hide Any;
  }

  lemma WantedSources(status: bv16)
    ensures Any(status, INTR) <==> status & 0xc07f != 0
  {
  }

  /** rtl8139_rx runs whenever the poll finds an Rx source, and its return value is the work done. */
  lemma {:induction false} PollRunsRx(states: seq<State>, steps: seq<Step>, k: nat) returns (j: nat)
    requires IsRun(states, steps, true) && k < |states| && (states[k].poll.PollRx? || states[k].poll.PollDecide?)
    ensures j < k && steps[j] == Poll && states[j].poll == PollTest(states[k].poll.budget)
    ensures states[k].poll.PollRx? ==> ShowsRx(states[j].status)
    ensures states[k].poll.PollDecide? ==>
      if ShowsRx(states[j].status)
      then exists m :: j < m < k && steps[m] == RxReturn(states[k].poll.work)
      else states[k].poll.work == 0
  {
    var s, step := states[k - 1], steps[k - 1];
    assert Enabled(s, step, true) && states[k] == Next(s, step, true);
    PollStep(s, step);
    hide Next, Enabled, ShowsRx, Initial;
    if s.poll.PollTest? {
      j := k - 1;
    } else {
      j := PollRunsRx(states, steps, k - 1);
      if s.poll.PollRx? && states[k].poll.PollDecide? {
        assert steps[k - 1] == RxReturn(states[k].poll.work);
      }
    }
  }

  lemma PollStep(s: State, step: Step)
    requires Enabled(s, step, true)
    ensures var t := Next(s, step, true);
      && (t.poll.PollRx? && !s.poll.PollRx? ==>
          step.Poll? && s.poll == PollTest(t.poll.budget) && ShowsRx(s.status))
      && (t.poll.PollRx? && s.poll.PollRx? ==> t.poll == s.poll)
      && (t.poll.PollDecide? ==>
          || t.poll == s.poll
          || (step.Poll? && s.poll == PollTest(t.poll.budget) && t.poll.work == 0 && !ShowsRx(s.status))
          || (s.poll == PollRx(t.poll.budget) && step == RxReturn(t.poll.work)))
  {
    AnyRxShows(s.status);
    hide Any, ShowsRx, With, Without;
    if step.Irq? {
      IrqStep(s);
    }
  }

  /** The poll completes NAPI and unmasks if and only if it did less work than its budget; otherwise it
      stays scheduled and goes back to the poll list. */
  lemma CompletesExactlyBelowBudget(s: State, step: Step)
    requires Inv(s) && Enabled(s, step, true) && s.poll.PollDecide? && step.Poll?
    ensures var t := Next(s, step, true);
      && (t.poll.PollLock? <==> s.poll.work < s.poll.budget)
      && (t.poll.PollIdle? <==> s.poll.work >= s.poll.budget)
      && t.sched && (t.queued <==> s.poll.work >= s.poll.budget) && t.mask == s.mask
  {
    hide Any, With, Without;
  }

  // ---------------------------------------------------------------------------------------------
  // What tp->lock is for
  // ---------------------------------------------------------------------------------------------

  ghost predicate Reachable(s: State, locked: bool) {
    exists states, steps :: IsRun(states, steps, locked) && states[|steps|] == s
  }

  lemma ReachNext(s: State, step: Step, locked: bool)
    requires Reachable(s, locked) && Enabled(s, step, locked)
    ensures Reachable(Next(s, step, locked), locked)
  {
    hide Next, Enabled, Initial;
    var states, steps :| IsRun(states, steps, locked) && states[|steps|] == s;
    assert IsRun(states + [Next(s, step, locked)], steps + [step], locked);
  }

  /** The handler, from its entry to its exit, when a packet has come and NAPI is not scheduled */
  lemma HandlerSchedules(s: State)
    requires Reachable(s, false) && s.lock.Free? && s.irq.IrqIdle? && !s.sched && s.status == RX_OK
    ensures Reachable(s.(sched := true, mask := NO_RX, queued := true), false)
  {
    hide Reachable, PollNext;
    var s1 := s.(lock := ByIrq, irq := IrqLocked);
    ReachNext(s, Irq, false);
    var s2 := s1.(irq := IrqAck(RX_OK));
    assert Next(s1, Irq, false) == s2;
    ReachNext(s1, Irq, false);
    var s3 := s2.(irq := IrqPrep(RX_OK));
    assert Next(s2, Irq, false) == s3;
    ReachNext(s2, Irq, false);
    var s4 := s3.(sched := true, irq := IrqMask(RX_OK));
    ReachNext(s3, Irq, false);
    var s5 := s4.(mask := NO_RX, irq := IrqQueue(RX_OK));
    ReachNext(s4, Irq, false);
    var s6 := s5.(queued := true, irq := IrqRest(RX_OK));
    ReachNext(s5, Irq, false);
    var s7 := s6.(irq := IrqUnlock);
    assert Next(s6, Irq, false) == s7;
    ReachNext(s6, Irq, false);
    ReachNext(s7, Irq, false);
  }

  /** The poll, up to the point where it has completed NAPI but not yet unmasked */
  lemma PollCompletes(s: State)
    requires Reachable(s, false) && s.queued && s.poll.PollIdle? && s.status == RX_OK
    ensures Reachable(s.(queued := false, sched := false, poll := PollMask), false)
  {
    hide Reachable, IrqNext;
    var s1 := s.(queued := false, poll := PollTest(64));
    ReachNext(s, PollStart(64), false);
    var s2 := s1.(poll := PollRx(64));
    assert Next(s1, Poll, false) == s2;
    ReachNext(s1, Poll, false);
    var s3 := s2.(poll := PollDecide(1, 64));
    ReachNext(s2, RxReturn(1), false);
    var s4 := s3.(poll := PollLock);
    ReachNext(s3, Poll, false);
    var s5 := s4.(poll := PollComplete);
    ReachNext(s4, Poll, false);
    ReachNext(s5, Poll, false);
  }

  /** Without the lock an interrupt between __napi_complete and the write of the mask schedules NAPI
      again, and the poll then unmasks over it: scheduled with Rx interrupts on. */
  lemma LockIsNeeded()
    ensures exists s :: Reachable(s, false) && s.lock.Free? && s.sched && s.mask == INTR && INTR != NO_RX
  {
    hide Next, Enabled;
    var s0 := State(Free, false, false, INTR, RX_OK, IrqIdle, PollIdle);
    assert IsRun([s0], [], false);
    assert Reachable(s0, false);
    HandlerSchedules(s0);
    var s1 := s0.(sched := true, mask := NO_RX, queued := true);
    PollCompletes(s1);
    var s2 := s1.(queued := false, sched := false, poll := PollMask);
    HandlerSchedules(s2);
    var s3 := s2.(sched := true, mask := NO_RX, queued := true);
    PollUnmasks(s3);
    MasksDiffer(0);
  }

  lemma PollUnmasks(s: State)
    requires Reachable(s, false) && s.poll.PollMask?
    ensures Reachable(s.(mask := INTR, poll := PollUnlock), false)
  {
    hide Reachable;
    ReachNext(s, Poll, false);
  }
}
