/** What the invariant gives for every run: cancellation, completion, reset and progress. */
module AbortSafety {
  import opened Common
  import opened AbortProtocol
  import AbortInvariant
  import BulkRuns
  import BulkSpec

  // ---------------------------------------------------------------------------------------------
  // Cancellation
  // ---------------------------------------------------------------------------------------------

  /** The step in which usb_submit_urb (or usb_sg_init) returned success for submission id. */
  ghost predicate SubmitReturns(s: State, step: Step, k: Kind, id: nat) {
    step.CtlStep? && step.choice.ok && s.ctl.Xfer? && s.ctl.kind == k && s.ctl.pt == Call && s.nextId == id
  }

  lemma SlotChangesOnlyOnSubmit(s: State, step: Step, k: Kind)
    requires Enabled(s, step)
    ensures Get(Next(s, step), k).id == Get(s, k).id
            || (SubmitReturns(s, step, k, Get(Next(s, step), k).id) && Get(Next(s, step), k).inFlight)
  {
  }

  /** Whatever a slot carries was submitted successfully by an earlier step, and never replaced since. */
  lemma {:induction false} SlotWasSubmitted(states: seq<State>, steps: seq<Step>, i: nat, k: Kind) returns (j: nat)
    requires IsRun(states, steps) && i < |states| && Get(states[i], k).id > 0
    ensures j < i && SubmitReturns(states[j], steps[j], k, Get(states[i], k).id)
    ensures forall m :: j < m <= i ==> Get(states[m], k).id == Get(states[i], k).id
  {
    hide Next, Enabled;
    SlotChangesOnlyOnSubmit(states[i - 1], steps[i - 1], k);
    if Get(states[i - 1], k).id == Get(states[i], k).id {
      j := SlotWasSubmitted(states, steps, i - 1, k);
    } else {
      j := i - 1;
    }
  }

  /** At most one cancellation is recorded, of what its slot carries. */
  ghost predicate RecordsAtMostOne(s: State, t: State) {
    || t.cancels == s.cancels
    || (|t.cancels| == |s.cancels| + 1 && t.cancels[..|s.cancels|] == s.cancels
        && var c := t.cancels[|s.cancels|]; c.target == Get(s, c.kind).id)
  }

  lemma EhRecords(s: State)
    requires EhEnabled(s)
    ensures RecordsAtMostOne(s, EhNext(s))
  {
  }

  lemma XferRecords(s: State, ch: Choice)
    requires s.ctl.Xfer? && XferEnabled(s, ch)
    ensures RecordsAtMostOne(s, XferNext(s, ch))
  {
  }

  lemma OthersRecordNothing(s: State, ch: Choice)
    requires !s.ctl.Xfer? && CtlEnabled(s, ch)
    ensures CtlNext(s, ch).cancels == s.cancels
  {
  }

  lemma AtMostOneCancelPerStep(s: State, step: Step)
    requires Enabled(s, step)
    ensures RecordsAtMostOne(s, Next(s, step))
  {
    hide EhNext, EhEnabled, XferNext, XferEnabled;
    match step
    case EhStep => EhRecords(s);
    case CtlStep(ch) =>
      if s.ctl.Xfer? {
        XferRecords(s, ch);
      } else {
        hide CtlNext;
        OthersRecordNothing(s, ch);
      }
    case _ =>
  }

  lemma NewestCancel(t: State, before: seq<Cancel>, c: Cancel)
    requires CancelInv(t) && t.cancels == before + [c]
    ensures c.target == c.claimed && 0 < c.target && !c.duringSubmit && !c.duringReset
    ensures !WasCancelled(before, c.kind, c.target)
  {
    assert t.cancels[|before|] == c;
    forall d | d in before ensures d.kind != c.kind || d.target != c.target {
      var m :| 0 <= m < |before| && before[m] == d;
      assert t.cancels[m] == d;
    }
  }

  /** A step that cancels records one cancellation: of the submission claimed, which the slot carries, not
      during a submission call or a reset, and never cancelled before. */
  lemma CancelStep(s: State, step: Step) returns (c: Cancel)
    requires Enabled(s, step) && Inv(Next(s, step)) && Next(s, step).cancels != s.cancels
    ensures Next(s, step).cancels == s.cancels + [c]
    ensures c.target == c.claimed == Get(s, c.kind).id && 0 < c.target && !c.duringSubmit && !c.duringReset
    ensures !WasCancelled(s.cancels, c.kind, c.target)
  {
    hide Next, Enabled, CancelInv, ControlInv, FinishInv, SlotsInv, ClaimInv, WaitInv, WasCancelled, Get;
    AtMostOneCancelPerStep(s, step);
    var t := Next(s, step);
    c := t.cancels[|s.cancels|];
    assert t.cancels == s.cancels + [c];
    NewestCancel(t, s.cancels, c);
  }

  /** Every call of usb_unlink_urb or usb_sg_cancel, in any interleaving: it hits the very submission
      whose ACTIVE bit the caller claimed; that submission had returned success earlier in the run and
      the slot was not reused since; it was never cancelled before; and the call falls neither inside
      a submission call nor into an error reset. */
  lemma CancelDiscipline(states: seq<State>, steps: seq<Step>, i: nat) returns (c: Cancel, j: nat)
    requires IsRun(states, steps) && i < |steps| && states[i + 1].cancels != states[i].cancels
    ensures states[i + 1].cancels == states[i].cancels + [c]
    ensures c.target == c.claimed && !c.duringSubmit && !c.duringReset
    ensures !WasCancelled(states[i].cancels, c.kind, c.target)
    ensures j < i && SubmitReturns(states[j], steps[j], c.kind, c.target)
    ensures forall m :: j < m <= i ==> Get(states[m], c.kind).id == c.target
  {
    hide Inv, Next, Enabled, SubmitReturns, WasCancelled, Get;
    AbortInvariant.RunKeepsInv(states, steps, i + 1);
    c := CancelStep(states[i], steps[i]);
    j := SlotWasSubmitted(states, steps, i, c.kind);
  }

  /** No missed cancellation: with ABORTING set, the submitter blocked on a transfer in flight and the
      error handler past usb_stor_stop_transport, that transfer has been cancelled. */
  lemma NoMissedCancellation(states: seq<State>, steps: seq<Step>, i: nat)
    requires IsRun(states, steps) && i < |states|
    requires states[i].flags.aborting && (states[i].eh.EhUnlock? || states[i].eh.EhWait?)
    requires states[i].ctl.Xfer? && states[i].ctl.pt == Wait && Get(states[i], states[i].ctl.kind).inFlight
    ensures WasCancelled(states[i].cancels, states[i].ctl.kind, Get(states[i], states[i].ctl.kind).id)
  {
    AbortInvariant.RunKeepsInv(states, steps, i);
  }

  /** The completion on the submitter's stack cannot be written after the submitter returned: a
      transfer is in flight only while the control thread is inside the call that submitted it. */
  lemma NoTransferOutlivesItsCall(states: seq<State>, steps: seq<Step>, i: nat, k: Kind)
    requires IsRun(states, steps) && i < |states| && Get(states[i], k).inFlight
    ensures states[i].ctl.Xfer? && states[i].ctl.kind == k && AfterSubmit(states[i].ctl.pt)
    ensures exists j :: 0 <= j < i && SubmitReturns(states[j], steps[j], k, Get(states[i], k).id)
  {
    AbortInvariant.RunKeepsInv(states, steps, i);
    var j := SlotWasSubmitted(states, steps, i, k);
  }

  // ---------------------------------------------------------------------------------------------
  // Command completion
  // ---------------------------------------------------------------------------------------------

  /** Commands finish in the order they were accepted, at most one is pending, and each one that
      finished had scsi_done called, its abort notified, or both. */
  lemma CommandsFinish(states: seq<State>, steps: seq<Step>, i: nat)
    requires IsRun(states, steps) && i < |states|
    ensures var l := states[i].ledger;
            && |l.finished| <= |l.accepted| <= |l.finished| + 1
            && (states[i].host.srb.None? <==> |l.finished| == |l.accepted|)
            && (states[i].host.srb.Some? ==> states[i].host.srb.value == l.accepted[|l.finished|])
            && forall m :: 0 <= m < |l.finished| ==>
                 l.finished[m].cmd == l.accepted[m] && (l.finished[m].done || l.finished[m].notified)
  {
    AbortInvariant.RunKeepsInv(states, steps, i);
  }

  /** Notifications and waiting aborts match one to one: at most one is unconsumed, and every abort
      that marked a command either returned SUCCESS or is the one still in progress. */
  lemma NotificationsMatchAborts(states: seq<State>, steps: seq<Step>, i: nat)
    requires IsRun(states, steps) && i < |states|
    ensures var s := states[i];
            && s.ledger.posts == s.ledger.successes + s.host.notify && s.host.notify <= 1
            && s.ledger.aborts == s.ledger.successes + (if Pending(s.eh) then 1 else 0)
            && (s.host.notify == 1 ==> s.eh == EhWait)
  {
    AbortInvariant.RunKeepsInv(states, steps, i);
  }

  /** The flags as the other lock holders see them. */
  lemma FlagsWhenLockFree(states: seq<State>, steps: seq<Step>, i: nat)
    requires IsRun(states, steps) && i < |states| && states[i].host.lock == Free
    ensures var s := states[i];
            && (s.host.srb.None? ==> !s.flags.timedOut && !s.flags.aborting)
            && (s.flags.aborting ==> s.flags.timedOut)
            && !(s.flags.aborting && s.flags.resetting)
            && (s.flags.timedOut <==> Pending(s.eh) && s.host.notify == 0)
  {
    AbortInvariant.RunKeepsInv(states, steps, i);
  }

  /** A message sent by the error reset is never refused and never cancelled. */
  lemma ResetMessagesGoThrough(states: seq<State>, steps: seq<Step>, i: nat)
    requires IsRun(states, steps) && i < |steps| && steps[i].CtlStep?
    requires states[i].ctl.Xfer? && states[i].ctl.phase == Reset
    ensures states[i].ctl.pt == Test ==> states[i + 1].ctl == states[i].ctl.(pt := Call)
    ensures states[i].ctl.pt == TestAgain ==> states[i + 1].ctl == states[i].ctl.(pt := Wait)
    ensures states[i + 1].cancels == states[i].cancels
  {
    AbortInvariant.RunKeepsInv(states, steps, i);
  }

  /** The exit wake-up is the last one: the thread leaves only when no command is pending, and none
      is accepted afterwards. */
  lemma ExitLeavesNothingBehind(states: seq<State>, steps: seq<Step>, i: nat)
    requires IsRun(states, steps) && i < |states| && states[i].ctl == Exited
    ensures states[i].host.srb.None? && states[i].host.disconnecting && states[i].host.ready == 0
    ensures !exists c :: Enabled(states[i], Queue(c))
  {
    AbortInvariant.RunKeepsInv(states, steps, i);
  }

  // ---------------------------------------------------------------------------------------------
  // Progress: no reachable state of a pending command is stuck, and it cannot run for ever
  // ---------------------------------------------------------------------------------------------

  function PointRank(pt: Point): nat {
    match pt
    case Test => 9
    case Call => 8
    case SetActive => 7
    case TestAgain => 6
    case Claim => 5
    case Cancelling(_) => 4
    case Wait => 3
    case Clear(_) => 2
    case Kill => 1
  }

  function PhaseRank(ph: Phase): nat {
    match ph
    case Reset => 8
    case Sense(retried) => if retried then 17 else 19
    case Main => 21
  }

  /** A bound on the control thread's remaining steps in the current command. */
  function Rank(c: CtlPc): nat {
    match c
    case FinUnlock => 1
    case FinClearSrb => 2
    case FinClearTimedOut => 3
    case FinClearAborting => 4
    case FinNotify => 5
    case FinDone => 6
    case FinLock => 7
    case ErrClearResetting => 8
    case Run(ph, b) => PhaseRank(ph) + 1 + 10 * b
    case Xfer(_, pt, ph, b) => PhaseRank(ph) + 1 + PointRank(pt) + 10 * b
    case Reporting(b) => 10 + 10 * b
    case ReportLock(b) => 11 + 10 * b
    case PortReset(b) => 12 + 10 * b
    case ErrUnlock(b) => 13 + 10 * b
    case ErrClearAborting(b) => 14 + 10 * b
    case ErrSetResetting(b) => 15 + 10 * b
    case ErrLock(b) => 16 + 10 * b
    case Judge(ph, b) => PhaseRank(ph) + 10 * b
    case _ => 0
  }

  predicate Started(c: CtlPc) {
    !AtIdle(c) && c != Dispatch && c != Exited
  }

  function EhRank(e: EhPc): nat {
    match e
    case EhCheck(_) => 8
    case EhSetTimedOut => 7
    case EhTestResetting => 6
    case EhSetAborting => 5
    case EhClaim(k) => if k == Urb then 4 else 2
    case EhCancelling(k, _) => if k == Urb then 3 else 1
    case EhUnlock => 0
    case EhGiveUp => 0
    case _ => 9
  }

  /** Steps that move a pending command forward: the control thread, the error handler while it
      holds the lock, and the host controller finishing a transfer. */
  predicate Helpful(s: State, step: Step) {
    step.CtlStep? || step.Complete? || (step.EhStep? && s.host.lock == Eh)
  }

  /** Whenever a command is pending, some helpful step is enabled: no interleaving of abort, submit
      and reset deadlocks. */
  lemma NoDeadlock(states: seq<State>, steps: seq<Step>, i: nat) returns (step: Step)
    requires IsRun(states, steps) && i < |states| && states[i].host.srb.Some?
    ensures Enabled(states[i], step) && Helpful(states[i], step)
  {
    AbortInvariant.RunKeepsInv(states, steps, i);
    var s := states[i];
    if s.host.lock == Eh {
      step := EhStep;
    } else if s.ctl.Xfer? && s.ctl.pt == Wait && Get(s, s.ctl.kind).inFlight {
      step := Complete(s.ctl.kind);
    } else {
      step := CtlStep(Choice(true, Urb, 0));
    }
  }

  lemma XferDescends(s: State, ch: Choice)
    requires s.ctl.Xfer? && XferEnabled(s, ch)
    ensures Rank(XferNext(s, ch).ctl) < Rank(s.ctl)
  {
  }

  lemma TailDescends(s: State, ch: Choice)
    requires (InError(s.ctl) || InFinish(s.ctl)) && CtlEnabled(s, ch)
    ensures Rank(CtlNext(s, ch).ctl) < Rank(s.ctl)
  {
  }

  lemma FrontDescends(s: State, ch: Choice)
    requires InFront(s.ctl) && CtlEnabled(s, ch) && Started(s.ctl) && (s.ctl.Judge? ==> s.ctl.phase != Reset)
    ensures Rank(FrontNext(s, ch).ctl) < Rank(s.ctl)
  {
  }

  /** A control-thread step lowers the rank; the steps of the other agents leave it alone. */
  lemma StepDescends(s: State, step: Step)
    requires Inv(s) && Enabled(s, step) && Started(s.ctl)
    ensures Rank(Next(s, step).ctl) + (if step.CtlStep? then 1 else 0) <= Rank(s.ctl)
  {
    if step.CtlStep? {
      if s.ctl.Xfer? {
        XferDescends(s, step.choice);
      } else if InFront(s.ctl) {
        FrontDescends(s, step.choice);
      } else {
        TailDescends(s, step.choice);
      }
    } else if step.EhStep? {
      EhKeepsCtl(s);
    }
  }

  lemma EhKeepsCtl(s: State)
    requires EhEnabled(s)
    ensures EhNext(s).ctl == s.ctl
  {
  }

  /** The error handler leaves its critical section after at most nine steps of its own. */
  lemma LockSectionDescends(s: State)
    requires Inv(s) && s.host.lock == Eh
    ensures EhEnabled(s)
    ensures EhNext(s).host.lock == Eh ==> EhRank(EhNext(s).eh) < EhRank(s.eh)
  {
  }

  function CtlSteps(steps: seq<Step>, i: nat, j: nat): nat
    requires i <= j <= |steps|
    decreases j
  {
    if i == j then 0 else CtlSteps(steps, i, j - 1) + (if steps[j - 1].CtlStep? then 1 else 0)
  }

  lemma {:induction false} DescentsAdd(states: seq<State>, steps: seq<Step>, i: nat, j: nat)
    requires |states| == |steps| + 1 && i <= j <= |steps|
    requires forall m :: i <= m < j ==>
               Rank(states[m + 1].ctl) + (if steps[m].CtlStep? then 1 else 0) <= Rank(states[m].ctl)
    ensures CtlSteps(steps, i, j) + Rank(states[j].ctl) <= Rank(states[i].ctl)
    decreases j
  {
    if i < j {
      DescentsAdd(states, steps, i, j - 1);
      assert Rank(states[(j - 1) + 1].ctl) + (if steps[j - 1].CtlStep? then 1 else 0) <= Rank(states[j - 1].ctl);
    }
  }

  /** Once a command is under way, the control thread takes at most Rank more steps for it, whatever
      the other agents do: at most 22 plus ten for each transfer the command makes. */
  lemma CommandIsBounded(states: seq<State>, steps: seq<Step>, i: nat, j: nat)
    requires IsRun(states, steps) && i <= j <= |steps|
    requires forall m :: i <= m < j ==> Started(states[m].ctl)
    ensures CtlSteps(steps, i, j) + Rank(states[j].ctl) <= Rank(states[i].ctl)
    ensures states[i].ctl.Run? && states[i].ctl.phase == Main ==> CtlSteps(steps, i, j) <= 22 + 10 * states[i].ctl.b
  {
    forall m | i <= m < j
      ensures Rank(states[m + 1].ctl) + (if steps[m].CtlStep? then 1 else 0) <= Rank(states[m].ctl)
    {
      AbortInvariant.RunKeepsInv(states, steps, m);
      StepDescends(states[m], steps[m]);
    }
    DescentsAdd(states, steps, i, j);
  }

  /** A command over the Bulk-Only transport makes the transfers its device answers lead to and at most
      three for a reset, so the control thread is done with it after at most 292 steps. */
  lemma BulkCommandIsBounded(states: seq<State>, steps: seq<Step>, i: nat, j: nat, d: BulkSpec.Dev, job: BulkRuns.Job)
    requires IsRun(states, steps) && i <= j <= |steps|
    requires forall m :: i <= m < j ==> Started(states[m].ctl)
    requires states[i].ctl.Run? && states[i].ctl.phase == Main && BulkRuns.JobOk(d, job)
    requires states[i].ctl.b <= BulkRuns.CommandTransfers(d, job) + BulkRuns.RESET_TRANSFERS
    ensures CtlSteps(steps, i, j) <= 292
  {
    hide Next, Enabled, CtlSteps, Inv, BulkRuns.CommandTransfers;
    CommandIsBounded(states, steps, i, j);
    BulkRuns.CommandTransfersAreBounded(d, job);
  }

  // ---------------------------------------------------------------------------------------------
  // One measure for the whole life of a command
  // ---------------------------------------------------------------------------------------------

  /** Rank from the wake-up on, for a command that will make at most this many transfers */
  function Ahead(c: CtlPc, budget: nat): nat {
    match c
    case Sleep => 26 + 10 * budget
    case PickLock => 25 + 10 * budget
    case PickTest => 24 + 10 * budget
    case Dispatch => 23 + 10 * budget
    case _ => Rank(c)
  }

  function EhLeft(s: State): nat {
    if s.host.lock == Eh then 1 + EhRank(s.eh) else 0
  }

  function InFlight(s: State): nat {
    Num(s.urb.inFlight) + Num(s.sg.inFlight)
  }

  function Measure(s: State, budget: nat): nat {
    2 * Ahead(s.ctl, budget) + InFlight(s) + EhLeft(s)
  }

  /** The transport makes no more transfers than this for a command. */
  ghost predicate WithinBudget(s: State, step: Step, budget: nat) {
    step.CtlStep? && s.ctl == Dispatch ==> step.choice.n <= budget
  }

  predicate TakesLock(s: State, step: Step) {
    step.EhStep? && s.eh.EhLock?
  }

  lemma AheadDescends(s: State, ch: Choice, budget: nat)
    requires Inv(s) && CtlEnabled(s, ch) && s.host.srb.Some? && (s.ctl == Dispatch ==> ch.n <= budget)
    ensures Ahead(CtlNext(s, ch).ctl, budget) < Ahead(s.ctl, budget)
  {
    if Started(s.ctl) {
      hide CtlNext, Rank;
      StepDescends(s, CtlStep(ch));
      StaysStarted(s, ch);
    } else {
      hide ControlInv, TransferInv, FinishInv;
      assert WakeInv(s) by {
        PendingWakes(s);
      }
    }
  }

  lemma PendingWakes(s: State)
    requires Inv(s)
    ensures WakeInv(s)
  {
  }

  /** A command under way ends in FinUnlock, not in front of its start. */
  lemma StaysStarted(s: State, ch: Choice)
    requires CtlEnabled(s, ch) && Started(s.ctl) && s.ctl != FinUnlock
    ensures Started(CtlNext(s, ch).ctl)
  {
  }

  lemma CtlKeepsEh(s: State, ch: Choice)
    requires LockInv(s) && CtlEnabled(s, ch)
    ensures EhLeft(CtlNext(s, ch)) == EhLeft(s)
  {
    hide EhRank;
  }

  lemma CtlSubmitsOne(s: State, ch: Choice)
    requires CtlEnabled(s, ch)
    ensures InFlight(CtlNext(s, ch)) <= InFlight(s) + 1
  {
  }

  lemma EhKeepsFlight(s: State)
    requires EhEnabled(s)
    ensures InFlight(EhNext(s)) == InFlight(s)
  {
  }

  /** Every helpful step lowers the measure of a pending command; only the error handler taking the lock
      raises it, by the nine steps it then makes. */
  lemma MeasureFalls(s: State, step: Step, budget: nat)
    requires Inv(s) && Enabled(s, step) && s.host.srb.Some? && WithinBudget(s, step, budget)
    ensures Measure(Next(s, step), budget) + Num(Helpful(s, step)) <= Measure(s, budget) + 9 * Num(TakesLock(s, step))
  {
    hide Ahead, Rank;
    match step
    case CtlStep(ch) =>
      hide CtlNext, CtlEnabled, InFlight, EhLeft;
      AheadDescends(s, ch, budget);
      CtlKeepsEh(s, ch);
      CtlSubmitsOne(s, ch);
    case EhStep =>
      EhKeepsCtl(s);
      EhKeepsFlight(s);
      if s.host.lock == Eh {
        LockSectionDescends(s);
      }
    case _ =>
  }

  function HelpfulSteps(states: seq<State>, steps: seq<Step>, i: nat, j: nat): nat
    requires |states| == |steps| + 1 && i <= j <= |steps|
    decreases j
  {
    if i == j then 0 else HelpfulSteps(states, steps, i, j - 1) + Num(Helpful(states[j - 1], steps[j - 1]))
  }

  function LockTakes(states: seq<State>, steps: seq<Step>, i: nat, j: nat): nat
    requires |states| == |steps| + 1 && i <= j <= |steps|
    decreases j
  {
    if i == j then 0 else LockTakes(states, steps, i, j - 1) + Num(TakesLock(states[j - 1], steps[j - 1]))
  }

  /** As long as a command is pending, helpful steps use up the measure. */
  lemma {:induction false} HelpfulStepsAreBounded(states: seq<State>, steps: seq<Step>, i: nat, j: nat, budget: nat)
    requires IsRun(states, steps) && i <= j <= |steps|
    requires forall m :: i <= m < j ==> states[m].host.srb.Some? && WithinBudget(states[m], steps[m], budget)
    ensures HelpfulSteps(states, steps, i, j) + Measure(states[j], budget)
         <= Measure(states[i], budget) + 9 * LockTakes(states, steps, i, j)
    decreases j
  {
    hide Inv, Next, Enabled, Measure, Helpful, TakesLock, WithinBudget;
    if i < j {
      HelpfulStepsAreBounded(states, steps, i, j - 1, budget);
      AbortInvariant.RunKeepsInv(states, steps, j - 1);
      assert states[j - 1].host.srb.Some? && WithinBudget(states[j - 1], steps[j - 1], budget);
      MeasureFalls(states[j - 1], steps[j - 1], budget);
    }
  }

  /** From the moment a command is queued, at most 52 helpful steps, 20 for each transfer it makes and nine
      for each time the error handler takes the lock can be taken while it is pending; and there is
      always one to take. */
  lemma CommandRunsOut(states: seq<State>, steps: seq<Step>, i: nat, j: nat, budget: nat)
    requires IsRun(states, steps) && i < j <= |steps| && steps[i].Queue?
    requires forall m :: i < m < j ==> states[m].host.srb.Some? && WithinBudget(states[m], steps[m], budget)
    ensures HelpfulSteps(states, steps, i + 1, j) <= 52 + 20 * budget + 9 * LockTakes(states, steps, i + 1, j)
    ensures states[j].host.srb.Some? ==> exists step :: Enabled(states[j], step) && Helpful(states[j], step)
  {
    HelpfulStepsAreBounded(states, steps, i + 1, j, budget);
    QueuedMeasure(states, steps, i, budget);
    if states[j].host.srb.Some? {
      var step := NoDeadlock(states, steps, j);
    }
  }

  lemma QueuedMeasure(states: seq<State>, steps: seq<Step>, i: nat, budget: nat)
    requires IsRun(states, steps) && i < |steps| && steps[i].Queue?
    ensures Measure(states[i + 1], budget) <= 52 + 20 * budget
  {
    AbortInvariant.RunKeepsInv(states, steps, i);
    assert Enabled(states[i], steps[i]);
  }
}
