/** Every step of every agent keeps the invariant of the abort protocol. */
module AbortInvariant {
  import opened AbortProtocol

  lemma CancelRecorded(cancels: seq<Cancel>, c: Cancel)
    ensures forall k, id ::
              WasCancelled(cancels + [c], k, id) <==> WasCancelled(cancels, k, id) || (c.kind == k && c.target == id)
  {
    forall k, id
      ensures WasCancelled(cancels + [c], k, id) <==> WasCancelled(cancels, k, id) || (c.kind == k && c.target == id)
    {
      assert forall d :: d in cancels + [c] <==> d in cancels || d == c;
    }
  }

  // command_abort

  lemma EhKeepsLock(s: State)
    requires LockInv(s) && WakeInv(s) && FlagInv(s) && NotifyInv(s)
    requires EhEnabled(s)
    ensures LockInv(EhNext(s)) && WakeInv(EhNext(s))
  {
    hide NotifyInv;
  }

  lemma EhKeepsNotify(s: State)
    requires LockInv(s) && FlagInv(s) && NotifyInv(s)
    requires EhEnabled(s)
    ensures NotifyInv(EhNext(s))
  {
  }

  lemma EhKeepsFlags(s: State)
    requires LockInv(s) && WakeInv(s) && FlagInv(s) && NotifyInv(s)
    requires EhEnabled(s)
    ensures FlagInv(EhNext(s))
  {
  }

  lemma EhKeepsSlots(s: State)
    requires SlotsInv(s) && ClaimInv(s) && CancelInv(s)
    requires EhEnabled(s)
    ensures SlotsInv(EhNext(s))
  {
    if s.eh.EhCancelling? {
      CancelRecorded(s.cancels, RecordCancel(s, s.eh.kind, s.eh.claimed).cancels[|s.cancels|]);
    }
  }

  lemma EhKeepsCancels(s: State)
    requires FlagInv(s) && SlotsInv(s) && ClaimInv(s) && WaitInv(s) && CancelInv(s)
    requires EhEnabled(s)
    ensures CancelInv(EhNext(s))
  {
    if s.eh.EhCancelling? {
      RecordKeepsCancels(s, s.eh.kind, s.eh.claimed);
    }
  }

  lemma EhKeepsClaims(s: State)
    requires FlagInv(s) && SlotsInv(s) && ClaimInv(s) && CancelInv(s)
    requires EhEnabled(s)
    ensures ClaimInv(EhNext(s))
  {
    if s.eh.EhCancelling? {
      CancelRecorded(s.cancels, RecordCancel(s, s.eh.kind, s.eh.claimed).cancels[|s.cancels|]);
    }
  }

  lemma EhKeepsWaits(s: State)
    requires LockInv(s) && FlagInv(s) && SlotsInv(s) && ClaimInv(s) && CancelInv(s) && WaitInv(s)
    requires EhEnabled(s)
    ensures WaitInv(EhNext(s))
  {
    if s.eh.EhCancelling? {
      CancelRecorded(s.cancels, RecordCancel(s, s.eh.kind, s.eh.claimed).cancels[|s.cancels|]);
    }
  }

  lemma EhKeepsFinish(s: State)
    requires ControlInv(s) && FinishInv(s)
    requires EhEnabled(s)
    ensures FinishInv(EhNext(s))
  {
  }

  // usb_stor_msg_common and usb_stor_bulk_transfer_sglist

  /** What a step inside a transfer leaves alone */
  lemma XferTouchesTransfersOnly(s: State, ch: Choice)
    requires s.ctl.Xfer? && XferEnabled(s, ch)
    ensures var t := XferNext(s, ch);
      && t.host == s.host && t.flags == s.flags && t.eh == s.eh && t.now == s.now && t.ledger == s.ledger
      && (t.ctl.Xfer? || t.ctl.Run?) && t.ctl.phase == s.ctl.phase
      && (!s.ctl.pt.Cancelling? ==> t.cancels == s.cancels) && t.nextId >= s.nextId
  {
  }

  lemma XferKeepsLock(s: State, ch: Choice)
    requires LockInv(s) && WakeInv(s) && FlagInv(s) && NotifyInv(s)
    requires s.ctl.Xfer? && XferEnabled(s, ch)
    ensures LockInv(XferNext(s, ch)) && WakeInv(XferNext(s, ch)) && NotifyInv(XferNext(s, ch))
  {
    hide XferNext;
    XferTouchesTransfersOnly(s, ch);
  }

  lemma XferKeepsFlags(s: State, ch: Choice)
    requires LockInv(s) && WakeInv(s) && FlagInv(s) && NotifyInv(s)
    requires s.ctl.Xfer? && XferEnabled(s, ch)
    ensures FlagInv(XferNext(s, ch))
  {
    hide XferNext;
    XferTouchesTransfersOnly(s, ch);
  }

  lemma XferKeepsSlots(s: State, ch: Choice)
    requires SlotsInv(s) && ClaimInv(s) && CancelInv(s)
    requires s.ctl.Xfer? && XferEnabled(s, ch)
    ensures SlotsInv(XferNext(s, ch))
  {
    if s.ctl.pt.Cancelling? {
      CancelRecorded(s.cancels, RecordCancel(s, s.ctl.kind, s.ctl.pt.claimed).cancels[|s.cancels|]);
    }
  }

  lemma XferKeepsCancels(s: State, ch: Choice)
    requires FlagInv(s) && SlotsInv(s) && ClaimInv(s) && WaitInv(s) && CancelInv(s)
    requires s.ctl.Xfer? && XferEnabled(s, ch)
    ensures CancelInv(XferNext(s, ch))
  {
    if s.ctl.pt.Cancelling? {
      RecordKeepsCancels(s, s.ctl.kind, s.ctl.pt.claimed);
    } else {
      hide XferNext;
      XferTouchesTransfersOnly(s, ch);
    }
  }

  /** The holder of a claim may cancel: once, the submission it claimed, outside a reset. */
  lemma RecordKeepsCancels(s: State, k: Kind, n: nat)
    requires CancelInv(s) && n == Get(s, k).id && 0 < n < s.nextId && !WasCancelled(s.cancels, k, n)
    requires !s.flags.resetting && !(s.ctl.Xfer? && s.ctl.pt == Call)
    ensures CancelInv(RecordCancel(s, k, n))
  {
    var t := RecordCancel(s, k, n);
    forall i, j | 0 <= i < j < |t.cancels|
      ensures t.cancels[i].kind != t.cancels[j].kind || t.cancels[i].target != t.cancels[j].target
    {
      assert s.cancels[i] in s.cancels;
    }
  }

  lemma XferKeepsClaims(s: State, ch: Choice)
    requires FlagInv(s) && SlotsInv(s) && ClaimInv(s) && CancelInv(s)
    requires s.ctl.Xfer? && XferEnabled(s, ch)
    ensures ClaimInv(XferNext(s, ch))
  {
    if s.ctl.pt.Cancelling? {
      CancelRecorded(s.cancels, RecordCancel(s, s.ctl.kind, s.ctl.pt.claimed).cancels[|s.cancels|]);
    }
  }

  lemma XferKeepsWaits(s: State, ch: Choice)
    requires LockInv(s) && FlagInv(s) && SlotsInv(s) && ClaimInv(s) && CancelInv(s) && WaitInv(s)
    requires s.ctl.Xfer? && XferEnabled(s, ch)
    ensures WaitInv(XferNext(s, ch))
  {
    if s.ctl.pt.Cancelling? {
      CancelRecorded(s.cancels, RecordCancel(s, s.ctl.kind, s.ctl.pt.claimed).cancels[|s.cancels|]);
    }
  }

  lemma XferKeepsFinish(s: State, ch: Choice)
    requires ControlInv(s) && FinishInv(s)
    requires s.ctl.Xfer? && XferEnabled(s, ch)
    ensures FinishInv(XferNext(s, ch))
  {
    hide XferNext;
    XferTouchesTransfersOnly(s, ch);
  }

  // the control thread before, after and in the error handling of its transfers

  lemma FrontKeepsLock(s: State, ch: Choice)
    requires LockInv(s) && WakeInv(s) && FlagInv(s) && NotifyInv(s)
    requires InFront(s.ctl) && CtlEnabled(s, ch)
    ensures LockInv(FrontNext(s, ch)) && WakeInv(FrontNext(s, ch))
  {
    hide NotifyInv;
  }

  lemma FrontKeepsNotify(s: State, ch: Choice)
    requires LockInv(s) && FlagInv(s) && NotifyInv(s)
    requires InFront(s.ctl) && CtlEnabled(s, ch)
    ensures NotifyInv(FrontNext(s, ch))
  {
  }

  lemma FrontKeepsFlags(s: State, ch: Choice)
    requires LockInv(s) && WakeInv(s) && FlagInv(s) && NotifyInv(s)
    requires InFront(s.ctl) && CtlEnabled(s, ch)
    ensures FlagInv(FrontNext(s, ch))
  {
  }

  lemma FrontKeepsTransfers(s: State, ch: Choice)
    requires FlagInv(s) && TransferInv(s)
    requires InFront(s.ctl) && CtlEnabled(s, ch)
    ensures TransferInv(FrontNext(s, ch))
  {
  }

  lemma FrontKeepsFinish(s: State, ch: Choice)
    requires ControlInv(s) && FinishInv(s)
    requires InFront(s.ctl) && CtlEnabled(s, ch)
    ensures FinishInv(FrontNext(s, ch))
  {
  }

  lemma ErrorKeepsLock(s: State, ch: Choice)
    requires LockInv(s) && WakeInv(s)
    requires InError(s.ctl) && CtlEnabled(s, ch)
    ensures LockInv(ErrNext(s, ch)) && WakeInv(ErrNext(s, ch))
  {
  }

  lemma ErrorKeepsFlags(s: State, ch: Choice)
    requires ControlInv(s)
    requires InError(s.ctl) && CtlEnabled(s, ch)
    ensures FlagInv(ErrNext(s, ch)) && NotifyInv(ErrNext(s, ch))
  {
  }

  lemma ErrorKeepsTransfers(s: State, ch: Choice)
    requires FlagInv(s) && TransferInv(s)
    requires InError(s.ctl) && CtlEnabled(s, ch)
    ensures TransferInv(ErrNext(s, ch))
  {
  }

  lemma ErrorKeepsFinish(s: State, ch: Choice)
    requires ControlInv(s) && FinishInv(s)
    requires InError(s.ctl) && CtlEnabled(s, ch)
    ensures FinishInv(ErrNext(s, ch))
  {
  }

  lemma FinishKeepsLock(s: State, ch: Choice)
    requires LockInv(s) && WakeInv(s)
    requires InFinish(s.ctl) && CtlEnabled(s, ch)
    ensures LockInv(FinNext(s)) && WakeInv(FinNext(s))
  {
  }

  lemma FinishKeepsFlags(s: State, ch: Choice)
    requires ControlInv(s)
    requires InFinish(s.ctl) && CtlEnabled(s, ch)
    ensures FlagInv(FinNext(s)) && NotifyInv(FinNext(s))
  {
  }

  lemma FinishKeepsTransfers(s: State, ch: Choice)
    requires FlagInv(s) && TransferInv(s)
    requires InFinish(s.ctl) && CtlEnabled(s, ch)
    ensures TransferInv(FinNext(s))
  {
  }

  lemma FinishKeepsFinish(s: State, ch: Choice)
    requires ControlInv(s) && FinishInv(s)
    requires InFinish(s.ctl) && CtlEnabled(s, ch)
    ensures FinishInv(FinNext(s))
  {
  }

  // the queue path, disconnection, release, the host controller, and the start of an abort

  lemma EnvKeepsControl(s: State, step: Step)
    requires ControlInv(s)
    requires !step.CtlStep? && !step.EhStep? && Enabled(s, step)
    ensures ControlInv(Next(s, step))
  {
  }

  lemma EnvKeepsTransfers(s: State, step: Step)
    requires FlagInv(s) && TransferInv(s)
    requires !step.CtlStep? && !step.EhStep? && Enabled(s, step)
    ensures TransferInv(Next(s, step))
  {
  }

  lemma EnvKeepsFinish(s: State, step: Step)
    requires ControlInv(s) && FinishInv(s)
    requires !step.CtlStep? && !step.EhStep? && Enabled(s, step)
    ensures FinishInv(Next(s, step))
  {
  }

  lemma CtlKeepsInv(s: State, ch: Choice)
    requires Inv(s) && CtlEnabled(s, ch)
    ensures Inv(CtlNext(s, ch))
  {
    if s.ctl.Xfer? {
      XferKeepsLock(s, ch);
      XferKeepsFlags(s, ch);
      XferKeepsSlots(s, ch);
      XferKeepsCancels(s, ch);
      XferKeepsClaims(s, ch);
      XferKeepsWaits(s, ch);
      XferKeepsFinish(s, ch);
    } else if InError(s.ctl) {
      ErrorKeepsLock(s, ch);
      ErrorKeepsFlags(s, ch);
      ErrorKeepsTransfers(s, ch);
      ErrorKeepsFinish(s, ch);
    } else if InFinish(s.ctl) {
      FinishKeepsLock(s, ch);
      FinishKeepsFlags(s, ch);
      FinishKeepsTransfers(s, ch);
      FinishKeepsFinish(s, ch);
    } else {
      FrontKeepsLock(s, ch);
      FrontKeepsNotify(s, ch);
      FrontKeepsFlags(s, ch);
      FrontKeepsTransfers(s, ch);
      FrontKeepsFinish(s, ch);
    }
  }

  lemma EhKeepsInv(s: State)
    requires Inv(s) && EhEnabled(s)
    ensures Inv(EhNext(s))
  {
    EhKeepsLock(s);
    EhKeepsNotify(s);
    EhKeepsFlags(s);
    EhKeepsSlots(s);
    EhKeepsCancels(s);
    EhKeepsClaims(s);
    EhKeepsWaits(s);
    EhKeepsFinish(s);
  }

  lemma StepKeepsInv(s: State, step: Step)
    requires Inv(s) && Enabled(s, step)
    ensures Inv(Next(s, step))
  {
    match step
    case CtlStep(ch) => CtlKeepsInv(s, ch);
    case EhStep => EhKeepsInv(s);
    case _ =>
      EnvKeepsControl(s, step);
      EnvKeepsTransfers(s, step);
      EnvKeepsFinish(s, step);
  }

  lemma InitHolds()
    ensures Inv(Init)
  {
  }

  /** Every state of every run satisfies the invariant. */
  lemma {:induction false} RunKeepsInv(states: seq<State>, steps: seq<Step>, i: nat)
    requires IsRun(states, steps) && i < |states|
    ensures Inv(states[i])
  {
    if i == 0 {
      InitHolds();
    } else {
      RunKeepsInv(states, steps, i - 1);
      StepKeepsInv(states[i - 1], steps[i - 1]);
    }
  }
}
