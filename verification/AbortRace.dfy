/**
 What the host lock around the flag changes of the error reset is for: the protocol without it
 reaches a cancellation that hits another submission than the one whose ACTIVE bit was claimed,
 which AbortSafety.CancelDiscipline excludes for the protocol as it is.
*/
module AbortRace {
  import opened Common
  import opened AbortProtocol

  /** The control thread is about to take or release the lock in the error reset. */
  predicate AtErrorLock(c: CtlPc) {
    c.ErrLock? || c.ErrUnlock? || c.ReportLock? || c.Reporting?
  }

  predicate LooseEnabled(s: State, step: Step) {
    if step.CtlStep? && AtErrorLock(s.ctl) then true else Enabled(s, step)
  }

  /** A step of the protocol whose error reset does without the lock */
  function LooseNext(s: State, step: Step): State
    requires LooseEnabled(s, step)
  {
    if step.CtlStep? && AtErrorLock(s.ctl) then
      match s.ctl
      case ErrLock(b) => s.(ctl := ErrSetResetting(b))
      case ErrUnlock(b) => s.(ctl := PortReset(b))
      case ReportLock(b) => s.(ctl := Reporting(b))
      case Reporting(b) => s.(ctl := Run(Reset, b))
    else Next(s, step)
  }

  ghost predicate IsLooseRun(states: seq<State>, steps: seq<Step>) {
    && |states| == |steps| + 1
    && states[0] == Init
    && forall i :: 0 <= i < |steps| ==>
      LooseEnabled(states[i], steps[i]) && states[i + 1] == LooseNext(states[i], steps[i])
  }

  ghost predicate Reachable(s: State) {
    exists states, steps :: IsLooseRun(states, steps) && states[|steps|] == s
  }

  lemma ReachNext(s: State, step: Step)
    requires Reachable(s) && LooseEnabled(s, step)
    ensures Reachable(LooseNext(s, step))
  {
    hide LooseNext, LooseEnabled;
    var states, steps :| IsLooseRun(states, steps) && states[|steps|] == s;
    assert IsLooseRun(states + [LooseNext(s, step)], steps + [step]);
  }

  /** A control-thread step; every choice it leaves open is given. */
  lemma CtlReach(s: State, t: State, ok: bool, n: nat)
    requires Reachable(s) && CtlEnabled(s, Choice(ok, Urb, n)) && CtlNext(s, Choice(ok, Urb, n)) == t
    requires !AtErrorLock(s.ctl)
    ensures Reachable(t)
  {
    hide Reachable, CtlNext, CtlEnabled;
    ReachNext(s, CtlStep(Choice(ok, Urb, n)));
  }

  lemma EhReach(s: State, t: State)
    requires Reachable(s) && EhEnabled(s) && EhNext(s) == t
    ensures Reachable(t)
  {
    hide Reachable, EhNext, EhEnabled;
    ReachNext(s, EhStep);
  }

  const QUEUED := Init.(host := Init.host.(srb := Some(0), ready := 1), ledger := Init.ledger.(accepted := [0]))

  const PICKED := QUEUED.(host := QUEUED.host.(ready := 0), ctl := Dispatch)

  /** The control thread waits for its first URB. */
  const WAITING := PICKED.(urb := Slot(true, 1, true), nextId := 2, ctl := Xfer(Urb, Wait, Main, 1))

  /** The error handler has claimed that URB and is about to unlink it; the URB has completed. */
  const CLAIMED := WAITING.(host := WAITING.host.(lock := Eh), flags := Flags(true, false, true),
    urb := Slot(false, 1, false), eh := EhCancelling(Urb, 1), ledger := WAITING.ledger.(aborts := 1))

  /** The control thread has cleared ABORTING and submitted the first message of the reset. */
  const RESUBMITTED := CLAIMED.(flags := Flags(false, true, true), urb := Slot(false, 2, true), nextId := 3,
    now := Progress(Abort, false, false), ctl := Xfer(Urb, SetActive, Reset, 0))

  lemma ReachInit()
    ensures Reachable(Init)
  {
    hide LooseNext, LooseEnabled;
    assert IsLooseRun([Init], []);
  }

  lemma ReachesPicked()
    ensures Reachable(PICKED)
  {
    hide Reachable;
    ReachInit();
    ReachNext(Init, Queue(0));
    assert Init.ledger.accepted + [0] == [0];
    assert LooseNext(Init, Queue(0)) == QUEUED;
    var s := QUEUED.(host := QUEUED.host.(ready := 0), ctl := PickLock);
    CtlReach(QUEUED, s, true, 0);
    CtlReach(s, SetLock(s, Ctl).(ctl := PickTest), true, 0);
    CtlReach(SetLock(s, Ctl).(ctl := PickTest), PICKED, true, 0);
  }

  lemma ReachesWaiting()
    ensures Reachable(WAITING)
  {
    hide Reachable;
    ReachesPicked();
    var s := PICKED;
    CtlReach(s, s.(ctl := Run(Main, 2)), true, 2);
    CtlReach(s.(ctl := Run(Main, 2)), s.(ctl := Xfer(Urb, Test, Main, 1)), true, 0);
    CtlReach(s.(ctl := Xfer(Urb, Test, Main, 1)), s.(ctl := Xfer(Urb, Call, Main, 1)), true, 0);
    var t := s.(urb := Slot(false, 1, true), nextId := 2, ctl := Xfer(Urb, SetActive, Main, 1));
    CtlReach(s.(ctl := Xfer(Urb, Call, Main, 1)), t, true, 0);
    CtlReach(t, WAITING.(ctl := Xfer(Urb, TestAgain, Main, 1)), true, 0);
    CtlReach(WAITING.(ctl := Xfer(Urb, TestAgain, Main, 1)), WAITING, true, 0);
  }

  lemma ReachesClaimed()
    ensures Reachable(CLAIMED)
  {
    hide Reachable;
    ReachesWaiting();
    ReachNext(WAITING, EhCall(0));
    EhReach(WAITING.(eh := EhLock(0)), SetLock(WAITING, Eh).(eh := EhCheck(0)));
    var s := SetLock(WAITING, Eh);
    EhReach(s.(eh := EhCheck(0)), s.(eh := EhSetTimedOut));
    var t := s.(flags := Flags(false, false, true), ledger := s.ledger.(aborts := 1), eh := EhTestResetting);
    EhReach(s.(eh := EhSetTimedOut), t);
    EhReach(t, t.(eh := EhSetAborting));
    EhReach(t.(eh := EhSetAborting), t.(flags := Flags(true, false, true), eh := EhClaim(Urb)));
    EhReach(t.(flags := Flags(true, false, true), eh := EhClaim(Urb)), CLAIMED.(urb := Slot(false, 1, true)));
    ReachNext(CLAIMED.(urb := Slot(false, 1, true)), Complete(Urb));
  }

  lemma ReachesResubmitted()
    ensures Reachable(RESUBMITTED)
  {
    hide Reachable;
    ReachesClaimed();
    var s := CLAIMED;
    CtlReach(s, s.(ctl := Xfer(Urb, Clear(false), Main, 1)), true, 0);
    CtlReach(s.(ctl := Xfer(Urb, Clear(false), Main, 1)), s.(ctl := Run(Main, 1)), true, 0);
    CtlReach(s.(ctl := Run(Main, 1)), s.(ctl := Judge(Main, 1)), false, 0);
    var t := s.(now := Progress(Abort, false, false));
    CtlReach(s.(ctl := Judge(Main, 1)), t.(ctl := ErrLock(1)), true, 0);
    ReachNext(t.(ctl := ErrLock(1)), CtlStep(Choice(true, Urb, 0)));
    var u := t.(flags := Flags(false, true, true));
    CtlReach(t.(ctl := ErrSetResetting(1)), t.(flags := Flags(true, true, true), ctl := ErrClearAborting(1)), true, 0);
    CtlReach(t.(flags := Flags(true, true, true), ctl := ErrClearAborting(1)), u.(ctl := ErrUnlock(1)), true, 0);
    ReachNext(u.(ctl := ErrUnlock(1)), CtlStep(Choice(true, Urb, 0)));
    CtlReach(u.(ctl := PortReset(1)), u.(ctl := ReportLock(1)), false, 0);
    ReachNext(u.(ctl := ReportLock(1)), CtlStep(Choice(true, Urb, 0)));
    ReachNext(u.(ctl := Reporting(1)), CtlStep(Choice(true, Urb, 0)));
    CtlReach(u.(ctl := Run(Reset, 1)), u.(ctl := Xfer(Urb, Test, Reset, 0)), true, 0);
    CtlReach(u.(ctl := Xfer(Urb, Test, Reset, 0)), u.(ctl := Xfer(Urb, Call, Reset, 0)), true, 0);
    CtlReach(u.(ctl := Xfer(Urb, Call, Reset, 0)), RESUBMITTED, true, 0);
  }

  /** Without the lock, usb_unlink_urb can hit a later reuse of current_urb: a message of the reset. */
  lemma LockIsNeeded()
    ensures exists s ::
      (Reachable(s) && s.cancels != [] && s.cancels[0].target != s.cancels[0].claimed && s.cancels[0].duringReset)
  {
    hide Reachable;
    ReachesResubmitted();
    var s := RESUBMITTED;
    var t := RecordCancel(s, Urb, 1).(eh := EhClaim(Sg));
    EhReach(s, t);
    assert t.cancels == [Cancel(Urb, 1, 2, false, true)];
  }
}
