/**
 The abort, submit and reset protocol of usb-storage, as a step relation over three agents that
 share the flag word, the current command, one URB, one scatter-gather request and the completions:

 - the queue path (queuecommand_lck), atomic because its caller holds the host lock;
 - the control thread, from its wake-up through the transfers of a command and its error reset;
 - one error-handler thread running command_abort.

 Every flag access, lock operation and USB-core call is a step of its own, so every interleaving
 of the agents is a run. The host controller completes transfers at any time.
*/
module AbortProtocol {
  import opened Common

  type Cmd = nat

  datatype Kind = Urb | Sg

  /** Who holds the SCSI host lock. */
  datatype Holder = Free | Ctl | Eh

  /** current_urb or current_sg: its ACTIVE bit, the number of the submission it last carried, and
      whether the host controller still owns that submission. */
  datatype Slot = Slot(active: bool, id: nat, inFlight: bool)

  /** One call of usb_unlink_urb or usb_sg_cancel: the submission whose ACTIVE bit the caller
      claimed, the one the slot carries when the call is made, whether the control thread was
      inside a submission call, and whether an error reset was running. */
  datatype Cancel = Cancel(kind: Kind, claimed: nat, target: nat, duringSubmit: bool, duringReset: bool)

  datatype Result = Unset | Abort | Other

  /** How the control thread finished a command: scsi_done called, abort notified. */
  datatype Finish = Finish(cmd: Cmd, done: bool, notified: bool)

  /** What the control thread's transfers belong to; Sense(true) is the small-sense retry. */
  datatype Phase = Main | Sense(retried: bool) | Reset

  /** Program points of usb_stor_msg_common and usb_stor_bulk_transfer_sglist. */
  datatype Point =
    | Test                      // test ABORTING before submitting
    | Call                      // inside usb_submit_urb / usb_sg_init
    | SetActive
    | TestAgain                 // test ABORTING after setting the ACTIVE bit
    | Claim                     // test-and-clear of the ACTIVE bit
    | Cancelling(claimed: nat)
    | Wait
    | Clear(expired: bool)
    | Kill

  /** Program points of the control thread; b bounds the transfers the command still makes. */
  datatype CtlPc =
    | Sleep
    | PickLock | PickTest
    | Dispatch
    | Run(phase: Phase, b: nat)
    | Xfer(kind: Kind, pt: Point, phase: Phase, b: nat)
    | Judge(phase: Phase, b: nat)
    | ErrLock(b: nat) | ErrSetResetting(b: nat) | ErrClearAborting(b: nat) | ErrUnlock(b: nat)
    | PortReset(b: nat) | ReportLock(b: nat) | Reporting(b: nat)
    | ErrClearResetting
    | FinLock | FinDone | FinNotify | FinClearAborting | FinClearTimedOut | FinClearSrb | FinUnlock
    | Exited

  /** Program points of command_abort. */
  datatype EhPc =
    | EhIdle
    | EhLock(c: Cmd) | EhCheck(c: Cmd)
    | EhSetTimedOut | EhTestResetting | EhSetAborting
    | EhClaim(kind: Kind) | EhCancelling(kind: Kind, claimed: nat)
    | EhUnlock | EhWait
    | EhGiveUp

  /** The fields guarded by the host lock, and the two completions. */
  datatype Host = Host(
    srb: Option<Cmd>,
    lock: Holder,
    disconnecting: bool,
    released: bool,             // the exit wake-up was sent
    ready: nat,                 // us->cmnd_ready
    notify: nat)                // us->notify

  datatype Flags = Flags(aborting: bool, resetting: bool, timedOut: bool)

  /** What happened so far to the current command: its result, scsi_done, and the abort notification. */
  datatype Progress = Progress(result: Result, done: bool, notified: bool)

  /** History: commands accepted and finished, aborts that set TIMED_OUT, notifications posted, and
      command_abort calls that returned SUCCESS. */
  datatype Ledger = Ledger(accepted: seq<Cmd>, finished: seq<Finish>, aborts: nat, posts: nat, successes: nat)

  datatype State = State(
    host: Host, flags: Flags,
    urb: Slot, sg: Slot, nextId: nat,
    ctl: CtlPc, eh: EhPc,
    now: Progress,
    cancels: seq<Cancel>, ledger: Ledger)

  /** Choices of the environment at a control-thread step: whether a call succeeds or a wait
      expires, which kind of transfer comes next, and a number (transfer budget or verdict). */
  datatype Choice = Choice(ok: bool, kind: Kind, n: nat)

  datatype Step =
    | Queue(c: Cmd)
    | Disconnect
    | Release
    | Complete(kind: Kind)
    | EhCall(c: Cmd)
    | EhStep
    | CtlStep(choice: Choice)

  const Init := State(Host(None, Free, false, false, 0, 0), Flags(false, false, false),
                      Slot(false, 0, false), Slot(false, 0, false), 1,
                      Sleep, EhIdle, Progress(Unset, false, false), [], Ledger([], [], 0, 0, 0))

  function Get(s: State, k: Kind): Slot {
    if k == Urb then s.urb else s.sg
  }

  function Put(s: State, k: Kind, slot: Slot): State {
    if k == Urb then s.(urb := slot) else s.(sg := slot)
  }

  function SetLock(s: State, holder: Holder): State {
    s.(host := s.host.(lock := holder))
  }

  function RecordCancel(s: State, k: Kind, claimed: nat): State {
    s.(cancels := s.cancels + [Cancel(k, claimed, Get(s, k).id, s.ctl.Xfer? && s.ctl.pt == Call, s.flags.resetting)])
  }

  // ---------------------------------------------------------------------------------------------
  // The agents: when one can step, and the state its step leads to.
  // ---------------------------------------------------------------------------------------------

  predicate EhEnabled(s: State) {
    match s.eh
    case EhIdle => false
    case EhLock(_) => s.host.lock == Free
    case EhWait => s.host.notify > 0
    case _ => true
  }

  /** command_abort */
  function EhNext(s: State): State
    requires EhEnabled(s)
  {
    match s.eh
    case EhLock(c) => SetLock(s, Eh).(eh := EhCheck(c))
    case EhCheck(c) => s.(eh := if s.host.srb == Some(c) then EhSetTimedOut else EhGiveUp)
    case EhSetTimedOut =>
      s.(flags := s.flags.(timedOut := true), ledger := s.ledger.(aborts := s.ledger.aborts + 1), eh := EhTestResetting)
    case EhTestResetting => s.(eh := if s.flags.resetting then EhUnlock else EhSetAborting)
    case EhSetAborting => s.(flags := s.flags.(aborting := true), eh := EhClaim(Urb))
    case EhClaim(k) =>
      if Get(s, k).active
      then Put(s, k, Get(s, k).(active := false)).(eh := EhCancelling(k, Get(s, k).id))
      else s.(eh := if k == Urb then EhClaim(Sg) else EhUnlock)
    case EhCancelling(k, n) => RecordCancel(s, k, n).(eh := if k == Urb then EhClaim(Sg) else EhUnlock)
    case EhUnlock => SetLock(s, Free).(eh := EhWait)
    case EhWait =>
      s.(host := s.host.(notify := s.host.notify - 1),
         ledger := s.ledger.(successes := s.ledger.successes + 1), eh := EhIdle)
    case EhGiveUp => SetLock(s, Free).(eh := EhIdle)
  }

  predicate XferEnabled(s: State, ch: Choice)
    requires s.ctl.Xfer?
  {
    s.ctl.pt == Wait ==> !Get(s, s.ctl.kind).inFlight || (ch.ok && s.ctl.kind == Urb)
  }

  /** One step inside a transfer: usb_stor_msg_common for Urb, usb_stor_bulk_transfer_sglist for Sg. */
  function XferNext(s: State, ch: Choice): State
    requires s.ctl.Xfer? && XferEnabled(s, ch)
  {
    var Xfer(k, pt, ph, b) := s.ctl;
    var slot := Get(s, k);
    match pt
    case Test => s.(ctl := if s.flags.aborting then Run(ph, b) else Xfer(k, Call, ph, b))
    case Call =>
      if ch.ok
      then Put(s, k, Slot(slot.active, s.nextId, true)).(nextId := s.nextId + 1, ctl := Xfer(k, SetActive, ph, b))
      else s.(ctl := Run(ph, b))
    case SetActive => Put(s, k, slot.(active := true)).(ctl := Xfer(k, TestAgain, ph, b))
    case TestAgain => s.(ctl := Xfer(k, if s.flags.aborting then Claim else Wait, ph, b))
    case Claim =>
      if slot.active
      then Put(s, k, slot.(active := false)).(ctl := Xfer(k, Cancelling(slot.id), ph, b))
      else s.(ctl := Xfer(k, Wait, ph, b))
    case Cancelling(n) => RecordCancel(s, k, n).(ctl := Xfer(k, Wait, ph, b))
    case Wait => s.(ctl := Xfer(k, Clear(slot.inFlight), ph, b))
    case Clear(expired) =>
      Put(s, k, slot.(active := false)).(ctl := if expired then Xfer(k, Kill, ph, b) else Run(ph, b))
    case Kill => Put(s, k, slot.(inFlight := false)).(ctl := Run(ph, b))
  }

  predicate InError(c: CtlPc) {
    c.ErrLock? || c.ErrSetResetting? || c.ErrClearAborting? || c.ErrUnlock? || c.PortReset? || c.ReportLock?
    || c.Reporting? || c.ErrClearResetting?
  }

  predicate InFinish(c: CtlPc) {
    c.FinLock? || c.FinDone? || c.FinNotify? || c.FinClearAborting? || c.FinClearTimedOut? || c.FinClearSrb?
    || c.FinUnlock?
  }

  /** The decision after a transport call: aborted, failed (n == 0), finished (n == 1), or sense. */
  function JudgeNext(s: State, ph: Phase, b: nat, n: nat): State {
    if s.flags.timedOut then s.(now := s.now.(result := Abort), ctl := ErrLock(b))
    else if n == 0 then s.(now := s.now.(result := Other), ctl := ErrLock(b))
    else if n == 1 || ph == Sense(true) then s.(now := s.now.(result := Other), ctl := FinLock)
    else s.(ctl := Run(Sense(ph != Main), b))
  }

  /** The error reset of usb_stor_invoke_transport. */
  function ErrNext(s: State, ch: Choice): State {
    match s.ctl
    case ErrLock(b) => SetLock(s, Ctl).(ctl := ErrSetResetting(b))
    case ErrSetResetting(b) => s.(flags := s.flags.(resetting := true), ctl := ErrClearAborting(b))
    case ErrClearAborting(b) => s.(flags := s.flags.(aborting := false), ctl := ErrUnlock(b))
    case ErrUnlock(b) => SetLock(s, Free).(ctl := PortReset(b))
    case PortReset(b) => s.(ctl := if ch.ok then ErrClearResetting else ReportLock(b))
    case ReportLock(b) => SetLock(s, Ctl).(ctl := Reporting(b))
    case Reporting(b) => SetLock(s, Free).(ctl := Run(Reset, b))
    case ErrClearResetting =>
      // last_sector_hacks runs here too, and may replace the result
      s.(flags := s.flags.(resetting := false), ctl := FinLock,
         now := s.now.(result := if ch.ok then s.now.result else Other))
    case _ => s
  }

  /** The end of usb_stor_control_thread's loop body. */
  function FinNext(s: State): State {
    match s.ctl
    case FinLock => SetLock(s, Ctl).(ctl := FinDone)
    case FinDone => s.(now := s.now.(done := s.now.result != Abort), ctl := FinNotify)
    case FinNotify =>
      if s.flags.timedOut
      then s.(host := s.host.(notify := s.host.notify + 1), ledger := s.ledger.(posts := s.ledger.posts + 1),
              now := s.now.(notified := true), ctl := FinClearAborting)
      else s.(ctl := FinClearSrb)
    case FinClearAborting => s.(flags := s.flags.(aborting := false), ctl := FinClearTimedOut)
    case FinClearTimedOut => s.(flags := s.flags.(timedOut := false), ctl := FinClearSrb)
    case FinClearSrb =>
      var finish := if s.host.srb.Some? then [Finish(s.host.srb.value, s.now.done, s.now.notified)] else [];
      s.(host := s.host.(srb := None), ledger := s.ledger.(finished := s.ledger.finished + finish), ctl := FinUnlock)
    case FinUnlock => SetLock(s, Free).(ctl := Sleep)
    case _ => s
  }

  predicate InFront(c: CtlPc) {
    !c.Xfer? && !InError(c) && !InFinish(c)
  }

  predicate CtlEnabled(s: State, ch: Choice) {
    match s.ctl
    case Sleep => s.host.ready > 0
    case PickLock => s.host.lock == Free
    case ErrLock(_) => s.host.lock == Free
    case ReportLock(_) => s.host.lock == Free
    case FinLock => s.host.lock == Free
    case Xfer(_, _, _, _) => XferEnabled(s, ch)
    case Exited => false
    case _ => true
  }

  /** usb_stor_control_thread up to the choice of the next transfer */
  function FrontNext(s: State, ch: Choice): State
    requires CtlEnabled(s, ch)
  {
    match s.ctl
    case Sleep => s.(host := s.host.(ready := s.host.ready - 1), ctl := PickLock)
    case PickLock => SetLock(s, Ctl).(ctl := PickTest)
    case PickTest =>
      if s.host.srb.None? then SetLock(s, Free).(ctl := Exited)
      else if s.flags.timedOut then s.(now := s.now.(result := Abort), ctl := FinNotify)
      else SetLock(s, Free).(ctl := Dispatch)
    case Dispatch =>
      if ch.ok then s.(ctl := Run(Main, ch.n))
      else s.(now := s.now.(result := Other), ctl := FinLock)
    case Run(ph, b) =>
      if ch.ok && b > 0 && (ph == Reset ==> ch.kind == Urb) then s.(ctl := Xfer(ch.kind, Test, ph, b - 1))
      else s.(ctl := if ph == Reset then ErrClearResetting else Judge(ph, b))
    case Judge(ph, b) => JudgeNext(s, ph, b, ch.n)
    case _ => s
  }

  function CtlNext(s: State, ch: Choice): State
    requires CtlEnabled(s, ch)
  {
    if s.ctl.Xfer? then XferNext(s, ch)
    else if InError(s.ctl) then ErrNext(s, ch)
    else if InFinish(s.ctl) then FinNext(s)
    else FrontNext(s, ch)
  }

  predicate Enabled(s: State, step: Step) {
    match step
    // queuecommand_lck: a busy or disconnecting host leaves the state alone
    case Queue(_) => s.host.lock == Free && s.host.srb.None? && !s.host.disconnecting
    case Disconnect => true
    // the exit wake-up comes after the host was removed: no command, and none will be accepted
    case Release => s.host.disconnecting && s.host.srb.None? && !s.host.released
    // the scatter-gather library runs its transfers only inside usb_sg_wait
    case Complete(k) =>
      Get(s, k).inFlight && (k == Sg ==> s.ctl.Xfer? && s.ctl.kind == Sg && s.ctl.pt == Wait)
    case EhCall(_) => s.eh == EhIdle
    case EhStep => EhEnabled(s)
    case CtlStep(ch) => CtlEnabled(s, ch)
  }

  function Next(s: State, step: Step): State
    requires Enabled(s, step)
  {
    match step
    case Queue(c) =>
      s.(host := s.host.(srb := Some(c), ready := s.host.ready + 1), now := Progress(Unset, false, false),
         ledger := s.ledger.(accepted := s.ledger.accepted + [c]))
    case Disconnect => s.(host := s.host.(disconnecting := true))
    case Release => s.(host := s.host.(ready := s.host.ready + 1, released := true))
    case Complete(k) => Put(s, k, Get(s, k).(inFlight := false))
    case EhCall(c) => s.(eh := EhLock(c))
    case EhStep => EhNext(s)
    case CtlStep(ch) => CtlNext(s, ch)
  }

  /** states is a run from Init: each state follows from the one before by an enabled step. */
  ghost predicate IsRun(states: seq<State>, steps: seq<Step>) {
    && |states| == |steps| + 1
    && states[0] == Init
    && forall i :: 0 <= i < |steps| ==> Enabled(states[i], steps[i]) && states[i + 1] == Next(states[i], steps[i])
  }

  // ---------------------------------------------------------------------------------------------
  // The inductive invariant
  // ---------------------------------------------------------------------------------------------

  predicate EhHolds(e: EhPc) {
    !e.EhIdle? && !e.EhLock? && !e.EhWait?
  }

  predicate CtlHolds(c: CtlPc) {
    c.PickTest? || c.ErrSetResetting? || c.ErrClearAborting? || c.ErrUnlock? || c.Reporting? || c.FinDone?
    || c.FinNotify? || c.FinClearAborting? || c.FinClearTimedOut? || c.FinClearSrb? || c.FinUnlock?
  }

  /** The control thread is in the error reset, where RESETTING is set. */
  predicate InReset(c: CtlPc) {
    c.ErrClearAborting? || c.ErrUnlock? || c.PortReset? || c.ReportLock? || c.Reporting? || c.ErrClearResetting?
    || ((c.Run? || c.Xfer? || c.Judge?) && c.phase == Reset)
  }

  /** The abort was notified but its flags are not all cleared yet. */
  predicate Posted(c: CtlPc) {
    c.FinClearAborting? || c.FinClearTimedOut?
  }

  predicate AtIdle(c: CtlPc) {
    c.Sleep? || c.PickLock? || c.PickTest?
  }

  /** The error handler has set TIMED_OUT for the command and has not returned. */
  predicate Pending(e: EhPc) {
    e.EhTestResetting? || e.EhSetAborting? || e.EhClaim? || e.EhCancelling? || e.EhUnlock? || e.EhWait?
  }

  predicate AfterSubmit(pt: Point) {
    !pt.Test? && !pt.Call?
  }

  predicate BeforeClaim(e: EhPc, k: Kind) {
    e == EhClaim(Urb) || (k == Sg && (e == EhClaim(Sg) || (e.EhCancelling? && e.kind == Urb)))
  }

  predicate WasCancelled(cancels: seq<Cancel>, k: Kind, id: nat) {
    exists c :: c in cancels && c.kind == k && c.target == id
  }

  ghost predicate LockInv(s: State) {
    && (s.host.lock == Eh <==> EhHolds(s.eh))
    && (s.host.lock == Ctl <==> CtlHolds(s.ctl))
  }

  ghost predicate WakeInv(s: State) {
    && s.host.ready + (if s.ctl.PickLock? || s.ctl.PickTest? then 1 else 0)
       == (if s.host.srb.Some? && AtIdle(s.ctl) then 1 else 0) + (if s.host.released && !s.ctl.Exited? then 1 else 0)
    && (s.host.srb.None? ==> AtIdle(s.ctl) || s.ctl.FinUnlock? || s.ctl.Exited?)
    && (s.host.srb.Some? ==> !s.ctl.FinUnlock? && !s.ctl.Exited?)
    && (s.host.released ==> s.host.disconnecting && s.host.srb.None?)
    && (s.ctl.Exited? ==> s.host.released)
  }

  ghost predicate FlagInv(s: State) {
    && (s.flags.timedOut ==> s.host.srb.Some?)
    && (s.flags.aborting ==> s.flags.timedOut)
    && (s.flags.resetting <==> InReset(s.ctl))
    && (s.flags.aborting && s.flags.resetting ==> s.ctl.ErrClearAborting?)
    && (EhHolds(s.eh) && !s.eh.EhCheck? && !s.eh.EhGiveUp? ==> s.host.srb.Some?)
    && (s.eh.EhSetTimedOut? ==> !s.flags.timedOut)
    && (s.eh.EhSetAborting? || s.eh.EhClaim? || s.eh.EhCancelling? ==> !s.flags.resetting)
    && (s.eh.EhClaim? || s.eh.EhCancelling? ==> s.flags.aborting)
    && (s.ctl.Judge? ==> s.ctl.phase != Reset)
    && (s.ctl.FinClearTimedOut? ==> !s.flags.aborting)
    && (s.ctl.FinClearSrb? ==> !s.flags.timedOut)
  }

  ghost predicate NotifyInv(s: State) {
    && (s.flags.timedOut && !Posted(s.ctl) <==> Pending(s.eh) && s.host.notify == 0)
    && (Posted(s.ctl) ==> s.flags.timedOut)
    && (s.host.notify > 0 ==> s.host.notify == 1 && s.eh.EhWait?)
    && s.ledger.aborts == s.ledger.posts + (if s.flags.timedOut && !Posted(s.ctl) then 1 else 0)
    && s.ledger.posts == s.ledger.successes + s.host.notify
  }

  ghost predicate SlotInv(s: State, k: Kind) {
    var slot := Get(s, k);
    && slot.id < s.nextId
    && (slot.inFlight ==> s.ctl.Xfer? && s.ctl.kind == k && AfterSubmit(s.ctl.pt))
    && (s.ctl.Xfer? && s.ctl.kind == k && s.ctl.pt == Clear(false) ==> !slot.inFlight)
    && (slot.active ==> s.ctl.Xfer? && s.ctl.kind == k
                        && (s.ctl.pt.TestAgain? || s.ctl.pt.Claim? || s.ctl.pt.Wait? || s.ctl.pt.Clear?))
    && (slot.active ==> !WasCancelled(s.cancels, k, slot.id))
    && (s.ctl.Xfer? && s.ctl.kind == k && s.ctl.pt == SetActive ==> !WasCancelled(s.cancels, k, slot.id))
  }

  ghost predicate SlotsInv(s: State) {
    SlotInv(s, Urb) && SlotInv(s, Sg)
  }

  ghost predicate CancelInv(s: State) {
    && (forall i :: 0 <= i < |s.cancels| ==>
          var c := s.cancels[i];
          c.target == c.claimed && 0 < c.target < s.nextId && !c.duringSubmit && !c.duringReset)
    && (forall i, j :: 0 <= i < j < |s.cancels| ==>
          s.cancels[i].kind != s.cancels[j].kind || s.cancels[i].target != s.cancels[j].target)
  }

  /** Each side that claimed an ACTIVE bit owns the only right to cancel that submission. */
  ghost predicate ClaimInv(s: State) {
    && (s.eh.EhCancelling? ==>
          var k, n := s.eh.kind, s.eh.claimed;
          && n == Get(s, k).id && 0 < n && !Get(s, k).active && !WasCancelled(s.cancels, k, n)
          && (s.ctl.Xfer? ==> !s.ctl.pt.Call? && !s.ctl.pt.SetActive?))
    && (s.ctl.Xfer? && s.ctl.pt.Cancelling? ==>
          var k, n := s.ctl.kind, s.ctl.pt.claimed;
          && n == Get(s, k).id && 0 < n && !Get(s, k).active && !WasCancelled(s.cancels, k, n)
          && s.eh != EhCancelling(k, n))
    && (s.ctl.Xfer? && AfterSubmit(s.ctl.pt) ==> 0 < Get(s, s.ctl.kind).id)
  }

  /** A submission the control thread waits for is still cancellable, or its cancellation is under
      way or done; and once ABORTING is set, the error handler still has to look at its bit. */
  ghost predicate WaitInv(s: State) {
    && (s.ctl.Xfer? && (s.ctl.pt.Claim? || s.ctl.pt.Cancelling?) ==> s.flags.aborting)
    && (s.ctl.Xfer? && (s.ctl.pt.Wait? || s.ctl.pt.TestAgain? || s.ctl.pt.Claim?) ==>
          var k := s.ctl.kind;
          var slot := Get(s, k);
          slot.active || s.eh == EhCancelling(k, slot.id) || WasCancelled(s.cancels, k, slot.id))
    && (s.ctl.Xfer? && s.ctl.pt.Wait? && s.flags.aborting && Get(s, s.ctl.kind).active ==>
          BeforeClaim(s.eh, s.ctl.kind))
  }

  ghost predicate ResultInv(s: State) {
    && (s.host.srb.Some? && s.now.result == Abort && !s.ctl.FinClearSrb? ==> s.flags.timedOut)
    && (s.ctl.FinNotify? ==> s.now.done || s.flags.timedOut)
    && (Posted(s.ctl) ==> s.now.notified)
    && (s.ctl.FinClearSrb? ==> s.now.done || s.now.notified)
  }

  ghost predicate HistoryInv(s: State) {
    && |s.ledger.accepted| == |s.ledger.finished| + (if s.host.srb.Some? then 1 else 0)
    && (forall i :: 0 <= i < |s.ledger.finished| ==> s.ledger.finished[i].cmd == s.ledger.accepted[i])
    && (forall i :: 0 <= i < |s.ledger.finished| ==> s.ledger.finished[i].done || s.ledger.finished[i].notified)
    && (s.host.srb.Some? ==> s.host.srb.value == s.ledger.accepted[|s.ledger.finished|])
  }

  ghost predicate ControlInv(s: State) {
    LockInv(s) && WakeInv(s) && FlagInv(s) && NotifyInv(s)
  }

  ghost predicate TransferInv(s: State) {
    SlotsInv(s) && CancelInv(s) && ClaimInv(s) && WaitInv(s)
  }

  ghost predicate FinishInv(s: State) {
    ResultInv(s) && HistoryInv(s)
  }

  ghost predicate Inv(s: State) {
    ControlInv(s) && TransferInv(s) && FinishInv(s)
  }
}
