/**
 The USB boot keyboard driver (keyboard/usbkbd.c): the LED protocol between usb_kbd_event and the
 completion handler usb_kbd_led, and the report difference of usb_kbd_irq.
*/
module Keyboard {
  import opened Common
  import opened KeyReports

  // ---------------------------------------------------------------------------------------------
  // LEDs
  // ---------------------------------------------------------------------------------------------

  datatype Led = NumLock | CapsLock | ScrollLock | Compose | Kana

  function Bit(on: bool, weight: nat): nat {
    if on then weight else 0
  }

  /** newleds: KANA and COMPOSE share bit 3. */
  function Requested(led: set<Led>): nat {
    Bit(Kana in led || Compose in led, 8) + Bit(ScrollLock in led, 4) + Bit(CapsLock in led, 2) + Bit(NumLock in led, 1)
  }

  /** What became of a submission of the LED URB: usb_submit_urb refused it, the host controller owns it,
      or it completed, with an error or with the byte at the keyboard. */
  datatype Fate = Refused | Pending | Failed | Delivered

  datatype Attempt = Attempt(leds: nat, fate: Fate)

  /** newleds, *leds, led_urb_submitted, and whether the host controller still owns the URB. `first` is
      the byte the buffer held after usb_alloc_coherent, `shown` the byte the keyboard received last, if
      any, and `events` the LED events so far. */
  datatype Leds = Leds(newleds: nat, leds: nat, submitted: bool, inFlight: bool,
                       first: nat, shown: Option<nat>, events: seq<nat>, attempts: seq<Attempt>)

  datatype Step =
    | Event(led: set<Led>, accepted: bool)
    | Complete(delivered: bool)                // the host controller is done with the URB
    | Handler(accepted: bool)                  // usb_kbd_led

  ghost predicate Enabled(k: Leds, step: Step) {
    match step
    case Event(_, _) => true
    case Complete(_) => k.inFlight
    case Handler(_) => k.submitted && !k.inFlight
  }

  function Submit(k: Leds, accepted: bool): Leds {
    k.(leds := k.newleds, submitted := accepted, inFlight := accepted,
       attempts := k.attempts + [Attempt(k.newleds, if accepted then Pending else Refused)])
  }

  function AfterEvent(k: Leds, value: nat, accepted: bool): Leds {
    var k1 := k.(newleds := value, events := k.events + [value]);
    if k.submitted || k.leds == value then k1 else Submit(k1, accepted)
  }

  /** The keyboard takes the byte the buffer holds now, or nothing. */
  function AfterComplete(k: Leds, delivered: bool): Leds {
    k.(inFlight := false, shown := if delivered then Some(k.leds) else k.shown,
       attempts := Settled(k.attempts, if delivered then Delivered else Failed))
  }

  function Settled(attempts: seq<Attempt>, fate: Fate): seq<Attempt> {
    seq(|attempts|, j requires 0 <= j < |attempts| =>
      if attempts[j].fate.Pending? then attempts[j].(fate := fate) else attempts[j])
  }

  /** usb_kbd_led only warns about the status of the URB. */
  function AfterHandler(k: Leds, accepted: bool): Leds {
    if k.leds == k.newleds then k.(submitted := false) else Submit(k, accepted)
  }

  function Next(k: Leds, step: Step): Leds {
    match step
    case Event(led, accepted) => AfterEvent(k, Requested(led), accepted)
    case Complete(delivered) => AfterComplete(k, delivered)
    case Handler(accepted) => AfterHandler(k, accepted)
  }

  /** After usb_kbd_probe: newleds is zero, the LED buffer was never written. */
  ghost predicate Initial(k: Leds) {
    && k.newleds == 0 && k.leds == k.first && !k.submitted && !k.inFlight && k.shown == None
    && k.events == [] && k.attempts == []
  }

  ghost predicate IsLedRun(states: seq<Leds>, steps: seq<Step>) {
    && |states| == |steps| + 1 && Initial(states[0])
    && forall i :: 0 <= i < |steps| ==> Enabled(states[i], steps[i]) && states[i + 1] == Next(states[i], steps[i])
  }

  ghost function LastByte(attempts: seq<Attempt>, first: nat): nat {
    if attempts == [] then first else attempts[|attempts| - 1].leds
  }

  ghost predicate LastIs(attempts: seq<Attempt>, fate: Fate) {
    attempts != [] && attempts[|attempts| - 1].fate == fate
  }

  /** Attempt j brought the byte the keyboard received last. */
  ghost predicate LastDelivery(attempts: seq<Attempt>, j: nat) {
    && j < |attempts| && attempts[j].fate.Delivered?
    && forall i :: j < i < |attempts| ==> !attempts[i].fate.Delivered?
  }

  ghost predicate NoDelivery(attempts: seq<Attempt>) {
    forall j :: 0 <= j < |attempts| ==> !attempts[j].fate.Delivered?
  }

  /** Only the last attempt can be pending, and is as long as the host controller owns the URB. */
  ghost predicate FlightInv(k: Leds) {
    && (k.inFlight ==> k.submitted) && (k.inFlight <==> LastIs(k.attempts, Pending))
    && (k.submitted ==> k.attempts != [] && !LastIs(k.attempts, Refused))
    && forall j :: 0 <= j < |k.attempts| - 1 ==> !k.attempts[j].fate.Pending?
  }

  /** A byte is submitted only when it differs from the one before it. */
  ghost predicate BytesDiffer(k: Leds) {
    forall j :: 0 <= j < |k.attempts| ==> k.attempts[j].leds != LastByte(k.attempts[..j], k.first)
  }

  ghost predicate ShownInv(k: Leds) {
    match k.shown
    case None => NoDelivery(k.attempts)
    case Some(b) => exists j: nat :: LastDelivery(k.attempts, j) && k.attempts[j].leds == b
  }

  ghost predicate BytesInv(k: Leds) {
    && k.leds == LastByte(k.attempts, k.first)
    && (k.events == [] ==> k.newleds == 0 && k.attempts == [])
    && (k.events != [] ==> k.newleds == k.events[|k.events| - 1])
    && (!k.submitted && k.events != [] ==> k.leds == k.newleds)
  }

  ghost predicate Inv(k: Leds) {
    FlightInv(k) && BytesInv(k) && BytesDiffer(k) && ShownInv(k)
  }

  lemma StepKeepsFlight(k: Leds, step: Step)
    requires FlightInv(k) && BytesInv(k) && Enabled(k, step)
    ensures FlightInv(Next(k, step)) && BytesInv(Next(k, step))
  {
  }

  lemma SubmitKeepsBytesDiffer(k: Leds, accepted: bool)
    requires BytesDiffer(k) && k.newleds != LastByte(k.attempts, k.first)
    ensures BytesDiffer(Submit(k, accepted))
  {
    var k1 := Submit(k, accepted);
    forall j | 0 <= j < |k1.attempts|
      ensures k1.attempts[j].leds != LastByte(k1.attempts[..j], k1.first)
    {
      if j == |k.attempts| {
        assert k1.attempts[..j] == k.attempts;
      } else {
        assert k1.attempts[..j] == k.attempts[..j];
      }
    }
  }

  lemma SettledKeepsBytes(k: Leds, fate: Fate, j: nat)
    requires j <= |k.attempts|
    ensures LastByte(Settled(k.attempts, fate)[..j], k.first) == LastByte(k.attempts[..j], k.first)
  {
  }

  lemma StepKeepsBytesDiffer(k: Leds, step: Step)
    requires BytesInv(k) && BytesDiffer(k) && Enabled(k, step)
    ensures BytesDiffer(Next(k, step))
  {
    match step
    case Event(led, accepted) =>
      SubmitKeepsOr(k.(newleds := Requested(led), events := k.events + [Requested(led)]), k, accepted);
    case Handler(accepted) => SubmitKeepsOr(k, k, accepted);
    case Complete(delivered) =>
      forall j | 0 <= j < |k.attempts|
        ensures Next(k, step).attempts[j].leds != LastByte(Next(k, step).attempts[..j], k.first)
      {
        SettledKeepsBytes(k, if delivered then Delivered else Failed, j);
        assert k.attempts[j].leds != LastByte(k.attempts[..j], k.first);
      }
  }

  lemma SubmitKeepsOr(k1: Leds, k: Leds, accepted: bool)
    requires BytesDiffer(k) && k.leds == LastByte(k.attempts, k.first)
    requires k1.attempts == k.attempts && k1.first == k.first
    ensures BytesDiffer(k1)
    ensures k.leds != k1.newleds ==> BytesDiffer(Submit(k1, accepted))
  {
    if k.leds != k1.newleds {
      SubmitKeepsBytesDiffer(k1, accepted);
    }
  }

  lemma StepKeepsShown(k: Leds, step: Step)
    requires FlightInv(k) && BytesInv(k) && ShownInv(k) && Enabled(k, step)
    ensures ShownInv(Next(k, step))
  {
    var k1 := Next(k, step);
    if step.Complete? && step.delivered {
      assert LastDelivery(k1.attempts, |k1.attempts| - 1);
    } else if k.shown.Some? {
      var j: nat :| LastDelivery(k.attempts, j) && k.attempts[j].leds == k.shown.value;
      assert LastDelivery(k1.attempts, j);
    }
  }

  lemma StepKeepsInv(k: Leds, step: Step)
    requires Inv(k) && Enabled(k, step)
    ensures Inv(Next(k, step))
  {
    hide BytesDiffer, ShownInv, FlightInv, BytesInv, Next, Enabled;
    StepKeepsFlight(k, step);
    StepKeepsBytesDiffer(k, step);
    StepKeepsShown(k, step);
  }

  lemma {:induction false} RunKeepsInv(states: seq<Leds>, steps: seq<Step>, i: nat)
    requires IsLedRun(states, steps) && i < |states|
    ensures Inv(states[i]) && states[i].first == states[0].first
  {
    if i > 0 {
      RunKeepsInv(states, steps, i - 1);
      StepKeepsInv(states[i - 1], steps[i - 1]);
    }
  }

  /** The byte the host controller reads does not change under it, and a URB in flight is not submitted
      a second time. */
  lemma FlightIsUndisturbed(states: seq<Leds>, steps: seq<Step>, i: nat)
    requires IsLedRun(states, steps) && i < |steps| && states[i].inFlight
    ensures states[i + 1].leds == states[i].leds && |states[i + 1].attempts| == |states[i].attempts|
    ensures states[i].attempts != [] && states[i].attempts[|states[i].attempts| - 1] == Attempt(states[i].leds, Pending)
    ensures forall j :: 0 <= j < |states[i].attempts| ==> states[i + 1].attempts[j].leds == states[i].attempts[j].leds
    ensures !steps[i].Complete? ==> states[i + 1].attempts == states[i].attempts
  {
    RunKeepsInv(states, steps, i);
    assert Enabled(states[i], steps[i]);
  }

  /** Without a URB pending, once there was an LED event, the LED byte is the value requested last. */
  lemma IdleMeansUpToDate(states: seq<Leds>, steps: seq<Step>, i: nat)
    requires IsLedRun(states, steps) && i < |states| && !states[i].submitted
    ensures states[i].events != [] ==>
      states[i].leds == states[i].newleds == states[i].events[|states[i].events| - 1]
    ensures states[i].events == [] ==> (states[i].leds == states[i].newleds <==> states[i].first == 0)
  {
    RunKeepsInv(states, steps, i);
  }

  ghost function Latest(k: Leds): nat
    requires k.events != []
  {
    k.events[|k.events| - 1]
  }

  /** Without a URB pending, the byte sent last is the latest request, unless every request so far equalled
      the byte the buffer happened to hold: then none was sent. Neighbouring bytes differ. */
  lemma LastSentIsLatest(states: seq<Leds>, steps: seq<Step>, i: nat)
    requires IsLedRun(states, steps) && i < |states| && !states[i].submitted && states[i].events != []
    ensures LastByte(states[i].attempts, states[i].first) == Latest(states[i])
    ensures BytesDiffer(states[i])
  {
    RunKeepsInv(states, steps, i);
  }

  ghost predicate AllDelivered(attempts: seq<Attempt>) {
    forall j :: 0 <= j < |attempts| ==> attempts[j].fate.Delivered?
  }

  /** If every transfer reached the keyboard and no URB is pending, the keyboard shows the latest request,
      unless nothing was sent. */
  lemma KeyboardShowsLatest(states: seq<Leds>, steps: seq<Step>, i: nat)
    requires IsLedRun(states, steps) && i < |states| && !states[i].submitted && states[i].events != []
    requires AllDelivered(states[i].attempts)
    ensures if states[i].attempts == [] then Latest(states[i]) == states[i].first && states[i].shown == None
            else states[i].shown == Some(Latest(states[i]))
  {
    hide BytesDiffer;
    RunKeepsInv(states, steps, i);
    var k := states[i];
    if k.attempts != [] {
      assert LastDelivery(k.attempts, |k.attempts| - 1);
      assert k.attempts[|k.attempts| - 1].fate.Delivered?;
    }
  }

  lemma ShownIsLastDelivery(k: Leds, j: nat)
    requires ShownInv(k) && LastDelivery(k.attempts, j)
    ensures j < |k.attempts| && k.shown == Some(k.attempts[j].leds)
    ensures forall i: nat :: LastDelivery(k.attempts, i) ==> i == j
  {
    forall i: nat | LastDelivery(k.attempts, i)
      ensures i == j
    {
      assert k.attempts[i].fate.Delivered? && k.attempts[j].fate.Delivered?;
    }
  }

  lemma NothingShown(k: Leds)
    requires ShownInv(k) && forall j: nat :: !LastDelivery(k.attempts, j)
    ensures k.shown == None
  {
  }

  lemma NeighboursDiffer(k: Leds)
    requires BytesDiffer(k) && |k.attempts| > 1
    ensures k.attempts[|k.attempts| - 2].leds != k.attempts[|k.attempts| - 1].leds
  {
    var n := |k.attempts|;
    assert k.attempts[n - 1].leds != LastByte(k.attempts[..n - 1], k.first);
  }

  /** In general it shows the latest request if and only if the last transfer that reached it was the last
      one, or was followed by two or more lost ones and carried the byte the last of them lost. */
  lemma KeyboardShowsLatestExactly(states: seq<Leds>, steps: seq<Step>, i: nat)
    requires IsLedRun(states, steps) && i < |states| && !states[i].submitted && states[i].events != []
    ensures var k := states[i];
      var n := |k.attempts|;
      k.shown == Some(Latest(k))
      <==> exists j: nat :: LastDelivery(k.attempts, j) && (j == n - 1 || (j < n - 2 && k.attempts[j].leds == k.leds))
  {
    hide LastDelivery, BytesDiffer, ShownInv, FlightInv;
    RunKeepsInv(states, steps, i);
    var k := states[i];
    var n := |k.attempts|;
    if j: nat :| LastDelivery(k.attempts, j) {
      ShownIsLastDelivery(k, j);
      if n > 1 {
        NeighboursDiffer(k);
      }
    } else {
      NothingShown(k);
    }
  }

  /** As long as no two transfers in a row are lost, the keyboard shows the latest request if and only if
      the last transfer reached it. */
  lemma SingleLossExactly(states: seq<Leds>, steps: seq<Step>, i: nat)
    requires IsLedRun(states, steps) && i < |states| && !states[i].submitted && states[i].events != []
    requires forall j :: 0 < j < |states[i].attempts| ==>
               states[i].attempts[j - 1].fate.Delivered? || states[i].attempts[j].fate.Delivered?
    ensures states[i].shown == Some(Latest(states[i])) <==> LastIs(states[i].attempts, Delivered)
  {
    KeyboardShowsLatestExactly(states, steps, i);
    var attempts := states[i].attempts;
    var n := |attempts|;
    if LastIs(attempts, Delivered) {
      assert LastDelivery(attempts, n - 1);
    }
    if n > 1 {
      assert attempts[n - 2].fate.Delivered? || attempts[n - 1].fate.Delivered?;
    }
  }

  ghost predicate OnlyTheFirstByte(k: Leds) {
    forall j :: 0 <= j < |k.events| ==> k.events[j] == k.first
  }

  lemma FirstByteStep(k: Leds, step: Step)
    requires FlightInv(k) && BytesInv(k) && Enabled(k, step)
    requires k.attempts == [] <==> OnlyTheFirstByte(k)
    ensures Next(k, step).attempts == [] <==> OnlyTheFirstByte(Next(k, step))
  {
    if step.Event? {
      var k1 := Next(k, step);
      assert k1.events[|k.events|] == Requested(step.led);
      assert forall j :: 0 <= j < |k.events| ==> k1.events[j] == k.events[j];
    }
  }

  lemma {:induction false} NothingSentOnlyForTheFirstByte(states: seq<Leds>, steps: seq<Step>, i: nat)
    requires IsLedRun(states, steps) && i < |states|
    ensures states[i].attempts == []
       <==> forall j :: 0 <= j < |states[i].events| ==> states[i].events[j] == states[i].first
  {
    hide BytesDiffer, ShownInv, FlightInv, BytesInv, Next;
    if i > 0 {
      NothingSentOnlyForTheFirstByte(states, steps, i - 1);
      RunKeepsInv(states, steps, i - 1);
      FirstByteStep(states[i - 1], steps[i - 1]);
    }
  }

  // ---------------------------------------------------------------------------------------------
  // Lost bytes
  // ---------------------------------------------------------------------------------------------

  /** Every event from step i up to step k asks for this byte. */
  ghost predicate OnlyAsksFor(steps: seq<Step>, i: nat, k: nat, value: nat)
    requires i <= k <= |steps|
  {
    forall j :: i <= j < k && steps[j].Event? ==> Requested(steps[j].led) == value
  }

  lemma IdleStep(k: Leds, step: Step)
    requires Inv(k) && !k.submitted && Enabled(k, step)
    ensures var k1 := Next(k, step);
      if step.Event? && Requested(step.led) != k.leds then |k1.attempts| == |k.attempts| + 1
      else !k1.submitted && k1.leds == k.leds && k1.attempts == k.attempts && k1.shown == k.shown
  {
  }

  lemma {:induction false} IdleStretch(states: seq<Leds>, steps: seq<Step>, i: nat, k: nat)
    requires IsLedRun(states, steps) && i <= k < |states| && !states[i].submitted
    ensures if OnlyAsksFor(steps, i, k, states[i].leds)
            then !states[k].submitted && states[k].leds == states[i].leds
                 && states[k].attempts == states[i].attempts && states[k].shown == states[i].shown
            else |states[k].attempts| > |states[i].attempts|
    decreases k
  {
    hide Inv, Next, Requested;
    if i < k {
      IdleStretch(states, steps, i, k - 1);
      RunKeepsInv(states, steps, k - 1);
      assert Enabled(states[k - 1], steps[k - 1]);
      if OnlyAsksFor(steps, i, k - 1, states[i].leds) {
        IdleStep(states[k - 1], steps[k - 1]);
      } else {
        AttemptsGrow(states[k - 1], steps[k - 1]);
      }
    }
  }

  lemma AttemptsGrow(k: Leds, step: Step)
    ensures |Next(k, step).attempts| >= |k.attempts|
  {
  }

  /** Without a URB pending, nothing is sent if and only if every request asks for the byte in the buffer,
      whether or not that byte ever reached the keyboard; what the keyboard shows then stays too. */
  lemma NothingIsSentExactly(states: seq<Leds>, steps: seq<Step>, i: nat, k: nat)
    requires IsLedRun(states, steps) && i <= k < |states| && !states[i].submitted
    ensures states[k].attempts == states[i].attempts
       <==> forall j :: i <= j < k && steps[j].Event? ==> Requested(steps[j].led) == states[i].leds
    ensures states[k].attempts == states[i].attempts ==> states[k].shown == states[i].shown
  {
    IdleStretch(states, steps, i, k);
  }

  /** A refused submission is not repeated: the same request again finds the byte already there. */
  lemma RefusedRequestIsForgotten(k: Leds, led: set<Led>, accepted: bool)
    requires Inv(k) && !k.submitted && k.leds != Requested(led)
    ensures var k1 := AfterEvent(k, Requested(led), false);
      && Inv(k1) && k1.attempts == k.attempts + [Attempt(Requested(led), Refused)]
      && AfterEvent(k1, Requested(led), accepted).attempts == k1.attempts
  {
    StepKeepsInv(k, Event(led, false));
  }

  /** Nor is one that was accepted and then failed: here NUM LOCK is asked for, its transfer fails, and the
      driver is idle with nothing shown; asked again, it sends nothing. */
  lemma FailedTransferIsForgotten(accepted: bool) returns (states: seq<Leds>, steps: seq<Step>)
    ensures IsLedRun(states, steps) && |steps| == 4 && steps[0] == Event({NumLock}, true)
    ensures steps[3] == Event({NumLock}, accepted)
    ensures !states[3].submitted && states[3].attempts == [Attempt(1, Failed)]
    ensures states[4].attempts == states[3].attempts && states[4].shown == None && Latest(states[4]) == 1
  {
    steps := [Event({NumLock}, true), Complete(false), Handler(true), Event({NumLock}, accepted)];
    var k0 := Leds(0, 0, false, false, 0, None, [], []);
    var k1 := Leds(1, 1, true, true, 0, None, [1], [Attempt(1, Pending)]);
    var k2 := k1.(inFlight := false, attempts := [Attempt(1, Failed)]);
    var k3 := k2.(submitted := false);
    var k4 := k3.(events := [1, 1]);
    assert Next(k1, Complete(false)).attempts == k2.attempts;
    states := [k0, k1, k2, k3, k4];
  }

  /** The bits of the output report of a boot keyboard: NUM LOCK, CAPS LOCK, SCROLL LOCK, and one bit for
      COMPOSE and KANA together. */
  lemma LedBits(led: set<Led>)
    ensures var b := Requested(led);
      && b < 16
      && (b % 2 == 1 <==> NumLock in led) && (b / 2 % 2 == 1 <==> CapsLock in led)
      && (b / 4 % 2 == 1 <==> ScrollLock in led) && (b / 8 % 2 == 1 <==> Compose in led || Kana in led)
  {
  }

  /** On the wire KANA cannot be told from COMPOSE; every other pair of settings differs. */
  lemma SettingsOnTheWire(a: set<Led>, b: set<Led>)
    ensures Requested(a) == Requested(b) <==>
      && (NumLock in a <==> NumLock in b) && (CapsLock in a <==> CapsLock in b)
      && (ScrollLock in a <==> ScrollLock in b)
      && (Kana in a || Compose in a <==> Kana in b || Compose in b)
  {
  }

  // ---------------------------------------------------------------------------------------------
  // The driver
  // ---------------------------------------------------------------------------------------------

  datatype Status = Success | Unlinked | Error

  class UsbKbd {
    const keys: KeyTable
    var newleds: nat
    var leds: nat
    var ledUrbSubmitted: bool
    const oldReport: array<byte>
    const newReport: array<byte>    // the buffer of the interrupt URB
    ghost var inFlight: bool
    ghost var first: nat
    ghost var shown: Option<nat>
    ghost var events: seq<nat>
    ghost var attempts: seq<Attempt>
    ghost var down: set<nat>        // the key codes the input core takes for pressed

    ghost function Value(): Leds
      reads this
    {
      Leds(newleds, leds, ledUrbSubmitted, inFlight, first, shown, events, attempts)
    }

    ghost predicate Valid()
      reads this
    {
      oldReport != newReport && oldReport.Length == REPORT_SIZE && newReport.Length == REPORT_SIZE
    }

    /** usb_submit_urb on the LED URB, with its outcome */
    method SubmitLed(ok: bool)
      modifies `inFlight, `attempts
      ensures inFlight == (if ok then true else old(inFlight))
      ensures attempts == old(attempts) + [Attempt(leds, if ok then Pending else Refused)]
    {
      inFlight := if ok then true else inFlight;
      attempts := attempts + [Attempt(leds, if ok then Pending else Refused)];
    }

    method UsbKbdEvent(isLed: bool, led: set<Led>, ok: bool) returns (r: int)
      requires Inv(Value())
      modifies `newleds, `leds, `ledUrbSubmitted, `inFlight, `attempts, `events
      ensures r == if isLed then 0 else -1
      ensures Value() == if isLed then AfterEvent(old(Value()), Requested(led), ok) else old(Value())
    {
      if !isLed {
        return -1;
      }
      newleds := Requested(led);
      events := events + [newleds];
      if ledUrbSubmitted {
        return 0;
      }
      if leds == newleds {
        return 0;
      }
      leds := newleds;
      SubmitLed(ok);
      if ok {
        ledUrbSubmitted := true;
      }
      return 0;
    }

    method UsbKbdLed(ok: bool)
      requires Inv(Value()) && ledUrbSubmitted && !inFlight
      modifies `leds, `ledUrbSubmitted, `inFlight, `attempts
      ensures Value() == AfterHandler(old(Value()), ok)
    {
      if leds == newleds {
        ledUrbSubmitted := false;
        return;
      }
      leds := newleds;
      SubmitLed(ok);
      if !ok {
        ledUrbSubmitted := false;
      }
    }

    /** input_report_key */
    method ReportKey(key: nat, pressed: bool)
      modifies `down
      ensures down == if pressed then old(down) + {key} else old(down) - {key}
    {
      down := if pressed then down + {key} else down - {key};
    }

    /** memscan over the six scan codes of a report */
    static method Contains(report: array<byte>, code: byte) returns (found: bool)
      requires report.Length == REPORT_SIZE
      ensures found <==> Holds(report[..], code)
    {
      var i := 2;
      found := false;
      while i < REPORT_SIZE && !found
        invariant 2 <= i <= REPORT_SIZE
        invariant found ==> Holds(report[..], code)
        invariant !found ==> forall k :: 2 <= k < i ==> report[k] != code
      {
        found := report[i] == code;
        assert found ==> report[..][i] == code;
        i := i + 1;
      }
    }

    method ReportModifiers()
      requires Valid()
      modifies `down
      ensures down == AfterModifiers(keys, newReport[..], old(down), 8)
    {
      hide Modifier;
      var i := 0;
      while i < 8
        invariant 0 <= i <= 8 && down == AfterModifiers(keys, newReport[..], old(down), i)
      {
        ReportKey(keys[i + FIRST_MODIFIER], Modifier(newReport[..], i));
        i := i + 1;
      }
    }

    method ReportSlots()
      requires Valid()
      modifies `down
      ensures down == AfterSlots(keys, oldReport[..], newReport[..], old(down), REPORT_SIZE)
    {
      hide Holds;
      ghost var was: Report, now: Report := oldReport[..], newReport[..];
      var i := 2;
      while i < REPORT_SIZE
        invariant 2 <= i <= REPORT_SIZE && down == AfterSlots(keys, was, now, old(down), i)
      {
        var stillThere := Contains(newReport, oldReport[i]);
        if oldReport[i] > 3 && !stillThere && keys[oldReport[i]] != 0 {
          ReportKey(keys[oldReport[i]], false);
        }
        var wasThere := Contains(oldReport, newReport[i]);
        if newReport[i] > 3 && !wasThere && keys[newReport[i]] != 0 {
          ReportKey(keys[newReport[i]], true);
        }
        i := i + 1;
      }
    }

    /** usb_kbd_irq: a good report is told to the input core and becomes the old one; an error changes
        nothing. True when the URB is submitted again. */
    method UsbKbdIrq(status: Status) returns (resubmit: bool)
      requires Valid()
      modifies oldReport, `down
      ensures Valid() && resubmit == !status.Unlinked?
      ensures oldReport[..] == if status.Success? then newReport[..] else old(oldReport[..])
      ensures down == if status.Success? then AfterReport(keys, old(oldReport[..]), newReport[..], old(down))
                      else old(down)
      ensures status.Success? && old(down) == Pressed(keys, old(oldReport[..])) ==>
        (down == Pressed(keys, newReport[..]) <==> NoKeyDropped(keys, old(oldReport[..]), newReport[..]))
    {
      hide Pressed, NoKeyDropped;
      if status.Unlinked? {
        return false;
      }
      if status.Error? {
        return true;
      }
      ghost var was: Report, now: Report := oldReport[..], newReport[..];
      ReportModifiers();
      ReportSlots();
      CoreIsRightExactly(keys, was, now);
      forall k | 0 <= k < REPORT_SIZE {
        oldReport[k] := newReport[k];
      }
      assert oldReport[..] == now;
      return true;
    }
  }
}
