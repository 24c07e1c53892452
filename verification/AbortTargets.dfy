/**
 Which command an abort hits: command_abort marks the very command it was called for, while it is
 pending, and exactly the commands marked have their abort notified when they finish.
*/
module AbortTargets {
  import opened Common
  import opened AbortProtocol
  import AbortInvariant

  // ---------------------------------------------------------------------------------------------
  // The command an abort is for
  // ---------------------------------------------------------------------------------------------

  /** The command of the last call of command_abort among the first i steps */
  ghost function LastCall(steps: seq<Step>, i: nat): Option<Cmd>
    requires i <= |steps|
  {
    if i == 0 then None else if steps[i - 1].EhCall? then Some(steps[i - 1].c) else LastCall(steps, i - 1)
  }

  /** How far command_abort got, and for which command */
  ghost predicate Serves(s: State, call: Option<Cmd>) {
    && (s.eh.EhLock? || s.eh.EhCheck? ==> call == Some(s.eh.c))
    && (s.eh.EhSetTimedOut? ==> call.Some? && s.host.srb == call)
    && (s.eh.EhGiveUp? ==> call.Some? && s.host.srb != call)
  }

  lemma EhServes(s: State, call: Option<Cmd>)
    requires Serves(s, call) && EhEnabled(s)
    ensures Serves(EhNext(s), call)
  {
  }

  lemma CtlServes(s: State, ch: Choice, call: Option<Cmd>)
    requires Serves(s, call) && LockInv(s) && CtlEnabled(s, ch)
    ensures Serves(CtlNext(s, ch), call)
  {
    CtlKeepsEh(s, ch);
    hide CtlNext;
  }

  /** While command_abort holds the lock the control thread does not touch the command. */
  lemma CtlKeepsEh(s: State, ch: Choice)
    requires LockInv(s) && CtlEnabled(s, ch)
    ensures CtlNext(s, ch).eh == s.eh && (EhHolds(s.eh) ==> CtlNext(s, ch).host.srb == s.host.srb)
  {
  }

  lemma StepServes(s: State, step: Step, call: Option<Cmd>)
    requires Serves(s, call) && LockInv(s) && Enabled(s, step)
    ensures Serves(Next(s, step), if step.EhCall? then Some(step.c) else call)
  {
    hide EhNext, CtlNext, EhEnabled, CtlEnabled;
    match step
    case EhStep => EhServes(s, call);
    case CtlStep(ch) => CtlServes(s, ch, call);
    case _ => OthersServe(s, step, call);
  }

  lemma OthersServe(s: State, step: Step, call: Option<Cmd>)
    requires Serves(s, call) && LockInv(s) && Enabled(s, step) && !step.EhStep? && !step.CtlStep?
    ensures Serves(Next(s, step), if step.EhCall? then Some(step.c) else call)
  {
  }

  lemma {:induction false} RunServes(states: seq<State>, steps: seq<Step>, i: nat)
    requires IsRun(states, steps) && i < |states|
    ensures Serves(states[i], LastCall(steps, i))
  {
    hide Next, Enabled, Serves, Inv;
    if i == 0 {
      InitServes();
    } else {
      RunServes(states, steps, i - 1);
      AbortInvariant.RunKeepsInv(states, steps, i - 1);
      InvHasLock(states[i - 1]);
      StepServes(states[i - 1], steps[i - 1], LastCall(steps, i - 1));
    }
  }

  lemma InitServes()
    ensures Serves(Init, None)
  {
  }

  lemma InvHasLock(s: State)
    requires Inv(s)
    ensures LockInv(s)
  {
  }

  /** The step in which command_abort sets TIMED_OUT */
  ghost predicate Marks(s: State, step: Step) {
    step.EhStep? && !s.flags.timedOut && Enabled(s, step) && Next(s, step).flags.timedOut
  }

  /** The step in which it gives up and returns FAILED */
  ghost predicate GivesUp(s: State, step: Step) {
    step.EhStep? && Enabled(s, step) && s.host.lock == Eh && Next(s, step).host.lock == Free && Next(s, step).eh.EhIdle?
  }

  lemma MarkingPoint(s: State, step: Step)
    ensures Marks(s, step) ==> s.eh.EhSetTimedOut?
    ensures GivesUp(s, step) ==> s.eh.EhGiveUp?
  {
  }

  /** Over every run: TIMED_OUT is set only while the command command_abort was called for is pending, and
      it gives up only when that command is not. */
  lemma AbortHitsItsCommand(states: seq<State>, steps: seq<Step>, i: nat)
    requires IsRun(states, steps) && i < |steps|
    ensures Marks(states[i], steps[i]) ==> LastCall(steps, i).Some? && states[i].host.srb == LastCall(steps, i)
    ensures GivesUp(states[i], steps[i]) ==> LastCall(steps, i).Some? && states[i].host.srb != LastCall(steps, i)
  {
    hide Next, Enabled, Marks, GivesUp;
    RunServes(states, steps, i);
    MarkingPoint(states[i], steps[i]);
  }

  // ---------------------------------------------------------------------------------------------
  // The commands whose abort is notified
  // ---------------------------------------------------------------------------------------------

  /** The commands marked so far, by their place in the order of acceptance */
  ghost function Marked(states: seq<State>, steps: seq<Step>, i: nat): set<nat>
    requires |states| == |steps| + 1 && i <= |steps|
  {
    if i == 0 then {} else Marked(states, steps, i - 1) + MarkOf(states[i - 1], steps[i - 1])
  }

  ghost function MarkOf(s: State, step: Step): set<nat> {
    if Marks(s, step) then {|s.ledger.finished|} else {}
  }

  /** The pending command is marked exactly when TIMED_OUT is set or its abort was notified already. */
  ghost predicate Tracks(s: State, marked: set<nat>) {
    var n := |s.ledger.finished|;
    && (n in marked <==> s.host.srb.Some? && (s.flags.timedOut || s.now.notified))
    && (forall k :: k in marked ==> k <= n)
    && forall k :: 0 <= k < n ==> (k in marked <==> s.ledger.finished[k].notified)
  }

  lemma EhTracks(s: State, marked: set<nat>)
    requires Inv(s) && Tracks(s, marked) && EhEnabled(s)
    ensures Tracks(EhNext(s), marked + MarkOf(s, EhStep))
  {
    hide TransferInv, ResultInv;
    assert EhNext(s).ledger.finished == s.ledger.finished;
  }

  lemma CtlTracks(s: State, ch: Choice, marked: set<nat>)
    requires Inv(s) && Tracks(s, marked) && CtlEnabled(s, ch)
    ensures Tracks(CtlNext(s, ch), marked)
  {
    hide Inv;
    if InFinish(s.ctl) {
      FinishTracks(s, ch, marked);
    } else {
      hide CtlNext;
      BeforeTheFinish(s, ch);
    }
  }

  lemma BeforeTheFinish(s: State, ch: Choice)
    requires CtlEnabled(s, ch) && !InFinish(s.ctl)
    ensures var t := CtlNext(s, ch);
      && t.host.srb == s.host.srb && t.flags.timedOut == s.flags.timedOut
      && t.now.notified == s.now.notified && t.ledger == s.ledger
  {
    if s.ctl.Xfer? {
      hide XferNext;
      AbortInvariant.XferTouchesTransfersOnly(s, ch);
    }
  }

  lemma FinishTracks(s: State, ch: Choice, marked: set<nat>)
    requires Inv(s) && Tracks(s, marked) && CtlEnabled(s, ch) && InFinish(s.ctl)
    ensures Tracks(FinNext(s), marked)
  {
    hide TransferInv, LockInv;
  }

  lemma OthersTrack(s: State, step: Step, marked: set<nat>)
    requires Inv(s) && Tracks(s, marked) && Enabled(s, step) && !step.EhStep? && !step.CtlStep?
    ensures Tracks(Next(s, step), marked)
  {
    hide TransferInv;
  }

  lemma StepTracks(s: State, step: Step, marked: set<nat>)
    requires Inv(s) && Tracks(s, marked) && Enabled(s, step)
    ensures Tracks(Next(s, step), marked + MarkOf(s, step))
  {
    hide Inv, Tracks, EhNext, CtlNext, EhEnabled, CtlEnabled;
    if step.EhStep? {
      EhTracks(s, marked);
    } else {
      assert marked + MarkOf(s, step) == marked;
      if step.CtlStep? {
        CtlTracks(s, step.choice, marked);
      } else {
        OthersTrack(s, step, marked);
      }
    }
  }

  lemma {:induction false} RunTracks(states: seq<State>, steps: seq<Step>, i: nat)
    requires IsRun(states, steps) && i < |states|
    ensures Tracks(states[i], Marked(states, steps, i))
  {
    hide Next, Enabled, Inv, MarkOf;
    if i > 0 {
      hide Tracks;
      RunTracks(states, steps, i - 1);
      AbortInvariant.RunKeepsInv(states, steps, i - 1);
      StepTracks(states[i - 1], steps[i - 1], Marked(states, steps, i - 1));
    }
  }

  lemma {:induction false} MarkedSomewhere(states: seq<State>, steps: seq<Step>, i: nat, k: nat)
    requires |states| == |steps| + 1 && i <= |steps|
    ensures k in Marked(states, steps, i)
       <==> exists m :: 0 <= m < i && Marks(states[m], steps[m]) && |states[m].ledger.finished| == k
  {
    hide Marks;
    if i > 0 {
      MarkedSomewhere(states, steps, i - 1, k);
    }
  }

  /** Over every run: command k finishes with its abort notified if and only if some command_abort set
      TIMED_OUT while it was the pending one; and that call was for this command. */
  lemma NotifiedExactlyWhenAborted(states: seq<State>, steps: seq<Step>, i: nat, k: nat)
    requires IsRun(states, steps) && i < |states| && k < |states[i].ledger.finished|
    ensures states[i].ledger.finished[k].notified
       <==> exists m :: 0 <= m < i && Marks(states[m], steps[m]) && |states[m].ledger.finished| == k
    ensures forall m :: 0 <= m < i && Marks(states[m], steps[m]) && |states[m].ledger.finished| == k ==>
      LastCall(steps, m) == Some(states[i].ledger.finished[k].cmd)
  {
    hide Next, Enabled, Inv, Marks;
    RunTracks(states, steps, i);
    MarkedSomewhere(states, steps, i, k);
    forall m | 0 <= m < i && Marks(states[m], steps[m]) && |states[m].ledger.finished| == k
      ensures LastCall(steps, m) == Some(states[i].ledger.finished[k].cmd)
    {
      AbortHitsItsCommand(states, steps, m);
      PendingIsFinished(states, steps, m, i, k);
    }
  }

  /** Commands keep their place in the ledger. */
  lemma {:induction false} LedgerGrows(states: seq<State>, steps: seq<Step>, m: nat, i: nat)
    requires IsRun(states, steps) && m <= i < |states|
    ensures states[m].ledger.accepted <= states[i].ledger.accepted
    decreases i
  {
    hide Next, Enabled;
    if m < i {
      LedgerGrows(states, steps, m, i - 1);
      assert Enabled(states[i - 1], steps[i - 1]);
      AcceptsMore(states[i - 1], steps[i - 1]);
    }
  }

  lemma AcceptsMore(s: State, step: Step)
    requires Enabled(s, step)
    ensures s.ledger.accepted <= Next(s, step).ledger.accepted
  {
  }

  lemma PendingIsFinished(states: seq<State>, steps: seq<Step>, m: nat, i: nat, k: nat)
    requires IsRun(states, steps) && m <= i < |states| && states[m].host.srb.Some?
    requires |states[m].ledger.finished| == k < |states[i].ledger.finished|
    ensures states[i].ledger.finished[k].cmd == states[m].host.srb.value
  {
    hide Next, Enabled;
    AbortInvariant.RunKeepsInv(states, steps, m);
    AbortInvariant.RunKeepsInv(states, steps, i);
    LedgerGrows(states, steps, m, i);
    hide ControlInv, TransferInv, ResultInv;
    assert states[m].ledger.accepted[k] == states[i].ledger.accepted[k];
  }

  // ---------------------------------------------------------------------------------------------
  // What an abort keeps from happening
  // ---------------------------------------------------------------------------------------------

  /** Whether the control thread last found the pending command aborted: before it started it, or after its
      transport returned. last_sector_hacks, at the end of the reset, may replace that result. */
  ghost function FoundAborted(states: seq<State>, steps: seq<Step>, i: nat): bool
    requires |states| == |steps| + 1 && i <= |steps|
  {
    i > 0 &&
    var s, step := states[i - 1], steps[i - 1];
    if step.Queue? || (step.CtlStep? && s.ctl.Dispatch? && !step.choice.ok) then false
    else if step.CtlStep? && s.ctl.ErrClearResetting? && !step.choice.ok then false
    else if step.CtlStep? && (s.ctl.PickTest? || s.ctl.Judge?) then s.flags.timedOut
    else FoundAborted(states, steps, i - 1)
  }

  ghost predicate Decides(s: State, aborted: bool) {
    s.host.srb.Some? ==>
      && (s.now.result == Abort <==> aborted)
      && (s.now.done <==>
          !aborted && (s.ctl.FinNotify? || s.ctl.FinClearAborting? || s.ctl.FinClearTimedOut? || s.ctl.FinClearSrb?))
  }

  lemma CtlDecides(s: State, ch: Choice, aborted: bool)
    requires Inv(s) && Decides(s, aborted) && CtlEnabled(s, ch)
    ensures Decides(CtlNext(s, ch),
                    if s.ctl.Dispatch? && !ch.ok then false
                    else if s.ctl.ErrClearResetting? && !ch.ok then false
                    else if s.ctl.PickTest? || s.ctl.Judge? then s.flags.timedOut else aborted)
  {
    hide TransferInv, LockInv, NotifyInv, HistoryInv;
    if s.ctl.Xfer? {
      hide XferNext;
      AbortInvariant.XferTouchesTransfersOnly(s, ch);
    } else if InFinish(s.ctl) {
      hide WakeInv;
    }
  }

  lemma OthersDecide(s: State, step: Step, aborted: bool)
    requires Inv(s) && Decides(s, aborted) && Enabled(s, step) && !step.CtlStep?
    ensures Decides(Next(s, step), if step.Queue? then false else aborted)
  {
    hide TransferInv, NotifyInv, HistoryInv;
  }

  lemma {:induction false} RunDecides(states: seq<State>, steps: seq<Step>, i: nat)
    requires IsRun(states, steps) && i < |states|
    ensures Decides(states[i], FoundAborted(states, steps, i))
  {
    if i > 0 {
      RunDecides(states, steps, i - 1);
      AbortInvariant.RunKeepsInv(states, steps, i - 1);
      hide Inv, Decides;
      var s, step := states[i - 1], steps[i - 1];
      if step.CtlStep? {
        CtlDecides(s, step.choice, FoundAborted(states, steps, i - 1));
        hide CtlNext, CtlEnabled;
      } else {
        OthersDecide(s, step, FoundAborted(states, steps, i - 1));
        hide Next, Enabled;
      }
    }
  }

  /** scsi_done is called for a command that finishes if and only if it was not found aborted. */
  lemma ScsiDoneExactly(states: seq<State>, steps: seq<Step>, i: nat)
    requires IsRun(states, steps) && i < |steps|
    requires |states[i + 1].ledger.finished| > |states[i].ledger.finished|
    ensures states[i + 1].ledger.finished[|states[i].ledger.finished|].done <==> !FoundAborted(states, steps, i)
  {
    hide Inv, FoundAborted;
    RunDecides(states, steps, i);
    assert Enabled(states[i], steps[i]);
    FinishRecords(states[i], steps[i]);
    hide Next, Enabled;
  }

  lemma FinishRecords(s: State, step: Step)
    requires Enabled(s, step) && |Next(s, step).ledger.finished| > |s.ledger.finished|
    ensures s.host.srb.Some? && s.ctl.FinClearSrb?
    ensures Next(s, step).ledger.finished[|s.ledger.finished|].done == s.now.done
  {
  }

  /** A command already aborted is not started. */
  lemma AbortedIsNotStarted(states: seq<State>, steps: seq<Step>, i: nat)
    requires IsRun(states, steps) && i < |steps| && states[i + 1].ctl.Dispatch? && !states[i].ctl.Dispatch?
    ensures states[i].host.srb.Some? && !states[i].flags.timedOut
  {
    assert Enabled(states[i], steps[i]);
    DispatchAfterTest(states[i], steps[i]);
    hide Next, Enabled;
  }

  lemma DispatchAfterTest(s: State, step: Step)
    requires Enabled(s, step) && Next(s, step).ctl.Dispatch? && !s.ctl.Dispatch?
    ensures s.host.srb.Some? && !s.flags.timedOut
  {
  }

  /** The control thread enters a submission call only after it found ABORTING clear. */
  lemma {:induction false} SubmitsOnlyUnlessAborting(states: seq<State>, steps: seq<Step>, i: nat) returns (j: nat)
    requires IsRun(states, steps) && i < |states| && states[i].ctl.Xfer? && states[i].ctl.pt == Call
    ensures j < i && steps[j].CtlStep? && states[j].ctl == states[i].ctl.(pt := Test) && !states[j].flags.aborting
    ensures forall m :: j < m <= i ==> states[m].ctl == states[i].ctl
  {
    assert Enabled(states[i - 1], steps[i - 1]);
    CallAfterTest(states[i - 1], steps[i - 1]);
    hide Next, Enabled;
    if states[i - 1].ctl == states[i].ctl {
      j := SubmitsOnlyUnlessAborting(states, steps, i - 1);
    } else {
      j := i - 1;
    }
  }

  lemma CallAfterTest(s: State, step: Step)
    requires Enabled(s, step) && Next(s, step).ctl.Xfer? && Next(s, step).ctl.pt == Call
    ensures s.ctl == Next(s, step).ctl
      || (step.CtlStep? && s.ctl == Next(s, step).ctl.(pt := Test) && !s.flags.aborting)
  {
  }

  // ---------------------------------------------------------------------------------------------
  // What an abort and an error bring about
  // ---------------------------------------------------------------------------------------------

  /** The step in which command_abort found RESETTING set, with nothing but its unlocking since */
  ghost predicate FoundResetting(states: seq<State>, j: nat, i: nat)
    requires j < i < |states|
  {
    states[j].eh.EhTestResetting? && states[j].flags.resetting && forall m :: j < m <= i ==> states[m].eh.EhUnlock?
  }

  /** An abort sets ABORTING before it lets the lock go, unless it found an error reset under way. */
  lemma {:induction false} AbortSetsAborting(states: seq<State>, steps: seq<Step>, i: nat)
    requires IsRun(states, steps) && i < |states| && states[i].eh.EhUnlock?
    ensures states[i].flags.aborting || exists j :: 0 <= j < i && FoundResetting(states, j, i)
  {
    var n := i - 1;
    AbortInvariant.RunKeepsInv(states, steps, n);
    assert Enabled(states[n], steps[n]);
    UnlockAfter(states[n], steps[n]);
    hide Next, Enabled, Inv;
    if states[n].eh.EhUnlock? {
      AbortSetsAborting(states, steps, n);
      if j :| 0 <= j < n && FoundResetting(states, j, n) {
        assert FoundResetting(states, j, i);
      }
    } else if states[n].eh.EhTestResetting? {
      assert FoundResetting(states, n, i);
    }
  }

  lemma UnlockAfter(s: State, step: Step)
    requires Inv(s) && Enabled(s, step) && Next(s, step).eh.EhUnlock?
    ensures s.eh.EhTestResetting? ==> s.flags.resetting
    ensures s.eh.EhUnlock? && s.flags.aborting ==> Next(s, step).flags.aborting
    ensures !s.eh.EhTestResetting? && !s.eh.EhUnlock? ==> Next(s, step).flags.aborting
  {
    hide TransferInv, FinishInv, NotifyInv, WakeInv;
    if step.CtlStep? {
      CtlKeepsAborting(s, step.choice);
    }
  }

  /** While command_abort holds the lock the control thread does not clear ABORTING. */
  lemma CtlKeepsAborting(s: State, ch: Choice)
    requires LockInv(s) && CtlEnabled(s, ch) && EhHolds(s.eh)
    ensures CtlNext(s, ch).eh == s.eh && CtlNext(s, ch).flags.aborting == s.flags.aborting
  {
  }

  /** A transport call of the pending command was aborted or failed, and no port reset was made since. */
  ghost function OwesReset(states: seq<State>, steps: seq<Step>, i: nat): bool
    requires |states| == |steps| + 1 && i <= |steps|
  {
    i > 0 &&
    var s, step := states[i - 1], steps[i - 1];
    if step.CtlStep? && s.ctl.Judge? && (s.flags.timedOut || step.choice.n == 0) then true
    else if step.CtlStep? && s.ctl.PortReset? && s.flags.resetting then false
    else OwesReset(states, steps, i - 1)
  }

  ghost predicate BeforeReset(c: CtlPc) {
    c.ErrLock? || c.ErrSetResetting? || c.ErrClearAborting? || c.ErrUnlock? || c.PortReset?
  }

  /** Every aborted or failed transport call is followed by a port reset, with RESETTING set, before the
      control thread does anything else. */
  lemma {:induction false} ErrorsAreReset(states: seq<State>, steps: seq<Step>, i: nat)
    requires IsRun(states, steps) && i < |states|
    ensures OwesReset(states, steps, i) ==> BeforeReset(states[i].ctl)
  {
    if i > 0 {
      ErrorsAreReset(states, steps, i - 1);
      AbortInvariant.RunKeepsInv(states, steps, i - 1);
      assert Enabled(states[i - 1], steps[i - 1]);
      OwesStep(states[i - 1], steps[i - 1]);
      hide Next, Enabled, Inv, BeforeReset;
    }
  }

  lemma OwesStep(s: State, step: Step)
    requires Inv(s) && Enabled(s, step)
    ensures step.CtlStep? && s.ctl.Judge? && (s.flags.timedOut || step.choice.n == 0) ==> BeforeReset(Next(s, step).ctl)
    ensures BeforeReset(s.ctl) && !(step.CtlStep? && s.ctl.PortReset?) ==> BeforeReset(Next(s, step).ctl)
    ensures s.ctl.PortReset? ==> s.flags.resetting
  {
    hide TransferInv, FinishInv, NotifyInv, WakeInv, LockInv;
    if step.EhStep? {
      EhLeavesCtl(s);
    }
  }

  /** A port reset failed, and the class-specific reset was not begun since. */
  ghost function OwesClassReset(states: seq<State>, steps: seq<Step>, i: nat): bool
    requires |states| == |steps| + 1 && i <= |steps|
  {
    i > 0 &&
    var s, step := states[i - 1], steps[i - 1];
    if step.CtlStep? && s.ctl.PortReset? then !step.choice.ok
    else if step.CtlStep? && states[i].ctl.Run? && states[i].ctl.phase == Reset then false
    else OwesClassReset(states, steps, i - 1)
  }

  /** A port reset that failed is followed by the class-specific reset before anything else. */
  lemma {:induction false} ClassResetFollows(states: seq<State>, steps: seq<Step>, i: nat)
    requires IsRun(states, steps) && i < |states|
    ensures OwesClassReset(states, steps, i) ==> states[i].ctl.ReportLock? || states[i].ctl.Reporting?
  {
    if i > 0 {
      ClassResetFollows(states, steps, i - 1);
      assert Enabled(states[i - 1], steps[i - 1]);
      ClassResetStep(states[i - 1], steps[i - 1]);
      hide Next, Enabled;
    }
  }

  lemma ClassResetStep(s: State, step: Step)
    requires Enabled(s, step)
    ensures var t := Next(s, step);
      && (step.CtlStep? && s.ctl.PortReset? && !step.choice.ok ==> t.ctl.ReportLock?)
      && (s.ctl.ReportLock? ==> t.ctl.ReportLock? || t.ctl.Reporting?)
      && (s.ctl.Reporting? ==> t.ctl.Reporting? || (step.CtlStep? && t.ctl.Run? && t.ctl.phase == Reset))
  {
    if step.EhStep? {
      EhLeavesCtl(s);
    }
  }

  lemma EhLeavesCtl(s: State)
    requires EhEnabled(s)
    ensures EhNext(s).ctl == s.ctl
  {
  }

  /** The reset routines send control messages only. */
  lemma {:induction false} ResetSendsControlMessages(states: seq<State>, steps: seq<Step>, i: nat)
    requires IsRun(states, steps) && i < |states|
    ensures states[i].ctl.Xfer? && states[i].ctl.phase == Reset ==> states[i].ctl.kind == Urb
  {
    if i > 0 {
      ResetSendsControlMessages(states, steps, i - 1);
      assert Enabled(states[i - 1], steps[i - 1]);
      if states[i].ctl.Xfer? {
        KindStays(states[i - 1], steps[i - 1]);
      }
      hide Next, Enabled;
    }
  }

  lemma KindStays(s: State, step: Step)
    requires Enabled(s, step) && Next(s, step).ctl.Xfer?
    ensures var t := Next(s, step);
      || (s.ctl.Xfer? && s.ctl.kind == t.ctl.kind && s.ctl.phase == t.ctl.phase)
      || t.ctl.phase != Reset || t.ctl.kind == Urb
  {
  }
}
