/**
 The receive pump of the RTL8150 driver (USB_Based_Ethernet/rtl8150.c) from the first rtl8150_open on:
 read_bulk_callback and the rx_fixup tasklet pass one URB between them. A submission that succeeds
 can complete, and its callback run, before the submitter has cleared RX_URB_FAIL: those late
 clears are steps of their own.
*/
module RxPump {
  import opened Common

  const RX_SKB_POOL_SIZE: nat := 4

  type Skb = nat

  type Pool = seq<Option<Skb>>

  // ---------------------------------------------------------------------------------------------
  // The pool
  // ---------------------------------------------------------------------------------------------

  /** The first buffer of the pool, as an index; the size when there is none */
  function First(pool: Pool): (i: nat)
    ensures i <= |pool| && (i < |pool| ==> pool[i].Some?)
    ensures forall k :: 0 <= k < i ==> pool[k].None?
  {
    if pool == [] || pool[0].Some? then 0
    else
      var i := First(pool[1..]);
      assert forall k :: 0 < k < i + 1 ==> pool[k] == pool[1..][k - 1];
      i + 1
  }

  /** The empty slots filled from the front with new buffers, until `left` allocations succeeded */
  function Filled(pool: Pool, next: Skb, left: nat): (p: (Pool, Skb))
    ensures |p.0| == |pool|
  {
    if pool == [] then (pool, next)
    else if pool[0].Some? then
      var (rest, n) := Filled(pool[1..], next, left);
      ([pool[0]] + rest, n)
    else if left == 0 then (pool, next)
    else
      var (rest, n) := Filled(pool[1..], next + 1, left - 1);
      ([Some(next)] + rest, n)
  }

  /** Full slots stay as they are; empty ones stay empty or get a buffer of their own, all of them new. */
  lemma {:induction false} FilledIsNew(pool: Pool, next: Skb, left: nat)
    ensures var (p, n) := Filled(pool, next, left);
      && next <= n
      && (forall i :: 0 <= i < |pool| && pool[i].Some? ==> p[i] == pool[i])
      && (forall i :: 0 <= i < |pool| && pool[i].None? && p[i].Some? ==> next <= p[i].value < n)
      && (forall i, j ::
            (0 <= i < j < |pool| && pool[i].None? && pool[j].None? && p[i].Some? && p[j].Some? ==> p[i] != p[j]))
    decreases |pool|
  {
    if pool != [] {
      FilledIsNew(pool[1..], next, left);
      if left > 0 {
        FilledIsNew(pool[1..], next + 1, left - 1);
      }
    }
  }

  /** Every new buffer ends up in a slot, and no buffer leaves the pool. */
  lemma {:induction false} FilledKeepsAll(pool: Pool, next: Skb, left: nat, skb: Skb)
    ensures var (p, n) := Filled(pool, next, left);
      next <= n && (Some(skb) in pool || next <= skb < n ==> Some(skb) in p)
    decreases |pool|
  {
    if pool != [] {
      var (p, _) := Filled(pool, next, left);
      FilledKeepsAll(pool[1..], next, left, skb);
      if left > 0 {
        FilledKeepsAll(pool[1..], next + 1, left - 1, skb);
      }
      assert Some(skb) in pool ==> pool[0] == Some(skb) || Some(skb) in pool[1..];
      assert p[0] in p && (Some(skb) in p[1..] ==> Some(skb) in p);
    }
  }

  class Device {
    const rxSkbPool: array<Option<Skb>>

    method PullSkb() returns (skb: Option<Skb>)
      modifies rxSkbPool
      ensures var i := First(old(rxSkbPool[..]));
        if i < rxSkbPool.Length then
          skb == old(rxSkbPool[..])[i] && rxSkbPool[..] == old(rxSkbPool[..])[i := None]
        else
          skb == None && rxSkbPool[..] == old(rxSkbPool[..])
    {
      var i := 0;
      while i < rxSkbPool.Length
        invariant 0 <= i <= rxSkbPool.Length
        invariant rxSkbPool[..] == old(rxSkbPool[..])
        invariant forall k :: 0 <= k < i ==> rxSkbPool[k].None?
      {
        if rxSkbPool[i].Some? {
          FirstIs(rxSkbPool[..], i);
          skb := rxSkbPool[i];
          rxSkbPool[i] := None;
          return skb;
        }
        i := i + 1;
      }
      skb := None;
    }

    /** `memory` is the number of allocations that will succeed. */
    method FillSkbPool(next0: Skb, memory: nat) returns (next: Skb)
      modifies rxSkbPool
      ensures (rxSkbPool[..], next) == Filled(old(rxSkbPool[..]), next0, memory)
    {
      hide Filled;
      next := next0;
      var left: nat := memory;
      var i := 0;
      ghost var todo := rxSkbPool[..];
      ghost var done: Pool := [];
      ghost var rest := Filled(todo, next, left);
      ghost var goal := rest;
      assert done + todo == todo && done + rest.0 == rest.0;
      while i < rxSkbPool.Length
        invariant 0 <= i <= rxSkbPool.Length && |done| == i
        invariant rxSkbPool[..] == done + todo
        invariant rest == Filled(todo, next, left)
        invariant goal == (done + rest.0, rest.1)
      {
        FilledStep(todo, next, left);
        StepOver(done, rest.0, rest.0[0]);
        StepOver(done, todo, rest.0[0]);
        assert rxSkbPool[i] == todo[0];
        if rxSkbPool[i].None? {
          if left == 0 {
            return;
          }
          rxSkbPool[i] := Some(next);
          next := next + 1;
          left := left - 1;
        }
        assert rxSkbPool[..] == (done + todo)[i := rest.0[0]];
        done, todo := done + [rest.0[0]], todo[1..];
        rest := (rest.0[1..], rest.1);
        i := i + 1;
      }
      FilledNothing(next, left);
    }
  }

  lemma StepOver(done: Pool, todo: Pool, x: Option<Skb>)
    requires todo != []
    ensures (done + todo)[|done| := x] == (done + [x]) + todo[1..]
    ensures (done + todo)[|done|] == todo[0]
    ensures x == todo[0] ==> (done + [x]) + todo[1..] == done + todo
  {
  }

  lemma FilledNothing(next: Skb, left: nat)
    ensures Filled([], next, left) == ([], next)
  {
  }

  lemma FilledStep(pool: Pool, next: Skb, left: nat)
    requires pool != []
    ensures var (p, n) := Filled(pool, next, left);
      if pool[0].Some? then p[0] == pool[0] && (p[1..], n) == Filled(pool[1..], next, left)
      else if left == 0 then (p, n) == (pool, next)
      else p[0] == Some(next) && (p[1..], n) == Filled(pool[1..], next + 1, left - 1)
  {
  }

  lemma FirstIs(pool: Pool, i: nat)
    requires i < |pool| && pool[i].Some? && forall k :: 0 <= k < i ==> pool[k].None?
    ensures First(pool) == i
  {
  }

  // ---------------------------------------------------------------------------------------------
  // The pump
  // ---------------------------------------------------------------------------------------------

  /** Program points of read_bulk_callback; after a successful submission it is done but for a late
      clear of RX_URB_FAIL, which is counted in `tails`. */
  datatype CbPc = CbIdle | CbEntry(good: bool) | CbPull | CbSubmit | CbFail | CbSched

  /** Program points of rx_fixup */
  datatype TlPc = TlIdle | TlFill | TlTest | TlPull | TlSubmit | TlFail | TlSched | TlClear

  /** rx_skb, and the buffer the URB points to */
  datatype Buffers = Buffers(pool: Pool, rx: Skb, urb: Skb, next: Skb, passed: seq<Skb>)

  datatype State = State(buf: Buffers, inFlight: bool, fail: bool, scheduled: bool, detached: bool,
                         cb: CbPc, tl: TlPc, tails: nat)

  datatype Submit = Accepted | NoDevice | Refused

  datatype Step =
    | Complete(good: bool)        // a whole packet, or an error or a short one
    | Callback(r: Submit)
    | TaskletStart
    | Tasklet(r: Submit, memory: nat)
    | LateClear
    | Detach                      // by the transmit or the interrupt URB

  predicate Enabled(s: State, step: Step) {
    match step
    case Complete(_) => s.inFlight && s.cb.CbIdle?
    case Callback(_) => !s.cb.CbIdle?
    case TaskletStart => s.scheduled && s.tl.TlIdle?
    case Tasklet(_, _) => !s.tl.TlIdle?
    case LateClear => s.tails > 0
    case Detach => true
  }

  function Pulled(b: Buffers): (p: Option<Buffers>) {
    var i := First(b.pool);
    if i < |b.pool| then Some(b.(pool := b.pool[i := None], rx := b.pool[i].value)) else None
  }

  function CallbackNext(s: State, r: Submit): State {
    match s.cb
    case CbIdle => s
    case CbEntry(good) =>
      if s.detached then s.(cb := CbIdle)
      else if good then s.(buf := s.buf.(passed := s.buf.passed + [s.buf.rx]), cb := CbPull)
      else s.(cb := CbSubmit)
    case CbPull =>
      (match Pulled(s.buf)
       case Some(b) => s.(buf := b, cb := CbSubmit)
       case None => s.(cb := CbSched))
    case CbSubmit =>
      var s1 := s.(buf := s.buf.(urb := s.buf.rx));
      (match r
       case Accepted => s1.(inFlight := true, tails := s.tails + 1, cb := CbIdle)
       case NoDevice => s1.(detached := true, cb := CbIdle)
       case Refused => s1.(cb := CbFail))
    case CbFail => s.(fail := true, cb := CbSched)
    case CbSched => s.(scheduled := true, cb := CbIdle)
  }

  function TaskletNext(s: State, r: Submit, memory: nat): State {
    match s.tl
    case TlIdle => s
    case TlFill =>
      var (pool, next) := Filled(s.buf.pool, s.buf.next, memory);
      s.(buf := s.buf.(pool := pool, next := next), tl := TlTest)
    case TlTest => s.(tl := if s.fail then TlSubmit else TlPull)
    case TlPull =>
      (match Pulled(s.buf)
       case Some(b) => s.(buf := b.(urb := b.rx), tl := TlSubmit)
       case None => s.(tl := TlSched))
    case TlSubmit =>
      (match r
       case Accepted => s.(inFlight := true, tl := TlClear)
       case NoDevice => s.(detached := true, tl := TlIdle)
       case Refused => s.(tl := TlFail))
    case TlFail => s.(fail := true, tl := TlSched)
    case TlSched => s.(scheduled := true, tl := TlIdle)
    case TlClear => s.(fail := false, tl := TlIdle)
  }

  function Next(s: State, step: Step): State
    requires Enabled(s, step)
  {
    match step
    case Complete(good) => s.(inFlight := false, cb := CbEntry(good))
    case Callback(r) => CallbackNext(s, r)
    case TaskletStart => s.(scheduled := false, tl := TlFill)
    case Tasklet(r, memory) => TaskletNext(s, r, memory)
    case LateClear => s.(fail := false, tails := s.tails - 1)
    case Detach => s.(detached := true)
  }

  ghost predicate PoolOk(b: Buffers) {
    && |b.pool| == RX_SKB_POOL_SIZE
    && (forall i :: 0 <= i < |b.pool| && b.pool[i].Some? ==>
          b.pool[i].value < b.next && b.pool[i].value != b.rx && b.pool[i].value !in b.passed)
    && (forall i, j :: 0 <= i < j < |b.pool| && b.pool[i].Some? && b.pool[j].Some? ==> b.pool[i] != b.pool[j])
  }

  ghost predicate PassedOk(b: Buffers) {
    && b.rx < b.next
    && (forall i :: 0 <= i < |b.passed| ==> b.passed[i] < b.next)
    && (forall i, j :: 0 <= i < j < |b.passed| ==> b.passed[i] != b.passed[j])
  }

  /** rtl8150_open after a fresh probe: rx_skb pulled from the filled pool and submitted */
  ghost predicate Initial(s: State) {
    && PoolOk(s.buf) && s.buf.passed == [] && s.buf.rx < s.buf.next && s.buf.urb == s.buf.rx
    && s.inFlight && !s.fail && !s.scheduled && !s.detached
    && s.cb.CbIdle? && s.tl.TlIdle? && s.tails == 0
  }

  ghost predicate IsRun(states: seq<State>, steps: seq<Step>) {
    && |states| == |steps| + 1 && Initial(states[0])
    && forall i :: 0 <= i < |steps| ==> Enabled(states[i], steps[i]) && states[i + 1] == Next(states[i], steps[i])
  }

  // ---------------------------------------------------------------------------------------------
  // The invariant
  // ---------------------------------------------------------------------------------------------

  /** The tasklet has not yet given the URB away. */
  predicate TlActive(t: TlPc) {
    !t.TlIdle? && !t.TlClear?
  }

  /** In how many places the turn to submit the URB is */
  function Turns(s: State): nat {
    Num(s.inFlight) + Num(!s.cb.CbIdle?) + Num(s.scheduled) + Num(TlActive(s.tl))
  }

  ghost predicate TurnInv(s: State) {
    Turns(s) == 1 || (s.detached && Turns(s) == 0)
  }

  /** rx_skb has not been passed up, and the URB points to it. */
  ghost predicate Held(b: Buffers) {
    b.rx !in b.passed && b.urb == b.rx
  }

  ghost predicate HeldInv(s: State) {
    && (s.inFlight || s.cb.CbEntry? || s.cb.CbFail? || s.tl.TlSubmit? || s.tl.TlFail? ==> Held(s.buf))
    && (s.cb.CbSubmit? ==> s.buf.rx !in s.buf.passed)
    && (s.cb.CbPull? ==> s.buf.rx in s.buf.passed)
    && (s.tl.TlPull? ==> !s.fail)
    && (s.fail && !s.tl.TlClear? ==> !s.inFlight && (s.cb.CbIdle? || s.cb.CbSched?) && Held(s.buf))
  }

  ghost predicate Inv(s: State) {
    PoolOk(s.buf) && PassedOk(s.buf) && TurnInv(s) && HeldInv(s)
  }

  lemma PullKeeps(b: Buffers)
    requires PoolOk(b) && PassedOk(b) && Pulled(b).Some?
    ensures PoolOk(Pulled(b).value) && PassedOk(Pulled(b).value)
    ensures Pulled(b).value.rx !in b.passed && Pulled(b).value.passed == b.passed
  {
  }

  lemma FillKeeps(b: Buffers, memory: nat)
    requires PoolOk(b) && PassedOk(b)
    ensures var (pool, next) := Filled(b.pool, b.next, memory);
      PoolOk(b.(pool := pool, next := next)) && PassedOk(b.(pool := pool, next := next))
  {
    hide Filled;
    FilledIsNew(b.pool, b.next, memory);
  }

  lemma CallbackKeepsInv(s: State, r: Submit)
    requires Inv(s) && !s.cb.CbIdle?
    ensures Inv(CallbackNext(s, r))
  {
    hide Pulled, PoolOk, PassedOk;
    match s.cb
    case CbEntry(_) => PassKeeps(s.buf);
    case CbPull =>
      if Pulled(s.buf).Some? {
        PullKeeps(s.buf);
      }
    case CbSubmit => PoolIgnoresUrb(s.buf, s.buf.rx);
    case _ =>
  }

  lemma PassKeeps(b: Buffers)
    requires PoolOk(b) && PassedOk(b) && b.rx !in b.passed
    ensures PoolOk(b.(passed := b.passed + [b.rx])) && PassedOk(b.(passed := b.passed + [b.rx]))
  {
  }

  lemma TaskletKeepsInv(s: State, r: Submit, memory: nat)
    requires Inv(s) && !s.tl.TlIdle?
    ensures Inv(TaskletNext(s, r, memory))
  {
    hide Pulled, Filled, PoolOk, PassedOk;
    if s.tl.TlPull? && Pulled(s.buf).Some? {
      PullKeeps(s.buf);
      PoolIgnoresUrb(Pulled(s.buf).value, Pulled(s.buf).value.rx);
    } else if s.tl.TlFill? {
      FillKeeps(s.buf, memory);
    }
  }

  lemma PoolIgnoresUrb(b: Buffers, urb: Skb)
    ensures PoolOk(b.(urb := urb)) == PoolOk(b) && PassedOk(b.(urb := urb)) == PassedOk(b)
  {
  }

  lemma StepKeepsInv(s: State, step: Step)
    requires Inv(s) && Enabled(s, step)
    ensures Inv(Next(s, step))
  {
    hide CallbackNext, TaskletNext, PoolOk, PassedOk;
    match step
    case Callback(r) => CallbackKeepsInv(s, r);
    case Tasklet(r, memory) => TaskletKeepsInv(s, r, memory);
    case _ =>
  }

  lemma {:induction false} RunKeepsInv(states: seq<State>, steps: seq<Step>, i: nat)
    requires IsRun(states, steps) && i < |states|
    ensures Inv(states[i])
  {
    hide Next, Enabled, PoolOk;
    if i > 0 {
      RunKeepsInv(states, steps, i - 1);
      StepKeepsInv(states[i - 1], steps[i - 1]);
    }
  }

  // ---------------------------------------------------------------------------------------------
  // The pump
  // ---------------------------------------------------------------------------------------------

  /** The URB is never both in flight and awaited by rx_fixup, and never neither: the turn to submit it
      is in one place as long as the device is attached. */
  lemma PumpKeepsGoing(states: seq<State>, steps: seq<Step>, i: nat)
    requires IsRun(states, steps) && i < |states|
    ensures var s := states[i];
      && !(s.inFlight && (s.scheduled || TlActive(s.tl) || !s.cb.CbIdle?))
      && !(s.scheduled && TlActive(s.tl))
      && (!s.detached ==> s.inFlight || s.scheduled || TlActive(s.tl) || !s.cb.CbIdle?)
  {
    hide Next, Enabled, PoolOk;
    RunKeepsInv(states, steps, i);
  }

  /** The buffer under a URB in flight is rx_skb; it is not in the pool and was not passed up. */
  lemma InFlightBufferIsPrivate(states: seq<State>, steps: seq<Step>, i: nat)
    requires IsRun(states, steps) && i < |states| && states[i].inFlight
    ensures var b := states[i].buf;
      b.urb == b.rx && b.urb !in b.passed && Some(b.urb) !in b.pool
  {
    hide Next, Enabled;
    RunKeepsInv(states, steps, i);
  }

  /** No buffer is passed up twice or goes back to the pool afterwards. */
  lemma PassedUpOnce(states: seq<State>, steps: seq<Step>, i: nat)
    requires IsRun(states, steps) && i < |states|
    ensures var b := states[i].buf;
      && (forall j, k :: 0 <= j < k < |b.passed| ==> b.passed[j] != b.passed[k])
      && (forall j :: 0 <= j < |b.passed| ==> Some(b.passed[j]) !in b.pool)
  {
    hide Next, Enabled;
    RunKeepsInv(states, steps, i);
    var b := states[i].buf;
    forall j | 0 <= j < |b.passed| ensures Some(b.passed[j]) !in b.pool {
      assert b.passed[j] in b.passed;
    }
  }

  // ---------------------------------------------------------------------------------------------
  // What the pump delivers
  // ---------------------------------------------------------------------------------------------

  ghost function Empty(pool: Pool): nat {
    if pool == [] then 0 else Num(pool[0].None?) + Empty(pool[1..])
  }

  /** fill_skb_pool allocates as many buffers as are missing, or as memory allows; with memory enough no
      slot stays empty. */
  lemma {:induction false} FilledAsFarAsMemoryGoes(pool: Pool, next: Skb, left: nat)
    ensures var (p, n) := Filled(pool, next, left);
      n == next + Min(left, Empty(pool)) && (left >= Empty(pool) ==> forall i :: 0 <= i < |p| ==> p[i].Some?)
      && (left > 0 && pool != [] ==> exists i :: 0 <= i < |p| && p[i].Some?)
    decreases |pool|
  {
    if pool != [] {
      FilledAsFarAsMemoryGoes(pool[1..], next, left);
      if left > 0 {
        FilledAsFarAsMemoryGoes(pool[1..], next + 1, left - 1);
      }
      var (p, _) := Filled(pool, next, left);
      assert left > 0 ==> p[0].Some?;
    }
  }

  /** How many allocations the last fill of the pool could have made */
  ghost function LastMemory(states: seq<State>, steps: seq<Step>, i: nat): nat
    requires |states| == |steps| + 1 && i <= |steps|
  {
    if i == 0 then 0
    else if steps[i - 1].Tasklet? && states[i - 1].tl.TlFill? then steps[i - 1].memory
    else LastMemory(states, steps, i - 1)
  }

  /** Between its fill and its pull, rx_fixup finds a buffer unless there was no memory at all. */
  ghost predicate PoolServes(s: State, memory: nat) {
    (s.tl.TlTest? || s.tl.TlPull?) && memory > 0 ==> exists i :: 0 <= i < |s.buf.pool| && s.buf.pool[i].Some?
  }

  lemma PoolServesStep(s: State, step: Step, memory: nat)
    requires Inv(s) && Enabled(s, step) && PoolServes(s, memory)
    ensures PoolServes(Next(s, step), if step.Tasklet? && s.tl.TlFill? then step.memory else memory)
  {
    hide Filled, Held, PassedOk, Pulled;
    if step.Tasklet? && s.tl.TlFill? {
      FilledAsFarAsMemoryGoes(s.buf.pool, s.buf.next, step.memory);
    }
  }

  lemma {:induction false} PoolServesAlways(states: seq<State>, steps: seq<Step>, i: nat)
    requires IsRun(states, steps) && i < |states|
    ensures PoolServes(states[i], LastMemory(states, steps, i))
  {
    if i > 0 {
      PoolServesAlways(states, steps, i - 1);
      RunKeepsInv(states, steps, i - 1);
      PoolServesStep(states[i - 1], steps[i - 1], LastMemory(states, steps, i - 1));
    }
    hide Next, Enabled, Inv;
  }

  /** rx_fixup goes back to the tasklet list for want of a buffer only if the fill just before could not
      allocate a single one. */
  lemma NoBufferOnlyWithoutMemory(states: seq<State>, steps: seq<Step>, i: nat)
    requires IsRun(states, steps) && i < |steps| && steps[i].Tasklet?
    requires states[i].tl.TlPull? && states[i + 1].tl.TlSched?
    ensures LastMemory(states, steps, i) == 0
  {
    assert Enabled(states[i], steps[i]) && states[i + 1] == Next(states[i], steps[i]);
    PoolServesAlways(states, steps, i);
    var pool := states[i].buf.pool;
    assert First(pool) == |pool|;
    hide Next, Enabled, Inv;
  }

  /** Whether the transfer that completed last brought a whole packet */
  ghost function LastGood(steps: seq<Step>, i: nat): bool
    requires i <= |steps|
  {
    i > 0 && if steps[i - 1].Complete? then steps[i - 1].good else LastGood(steps, i - 1)
  }

  lemma {:induction false} CallbackKnows(states: seq<State>, steps: seq<Step>, i: nat)
    requires IsRun(states, steps) && i < |states| && states[i].cb.CbEntry?
    ensures states[i].cb.good == LastGood(steps, i)
  {
    assert Enabled(states[i - 1], steps[i - 1]);
    EntryStays(states[i - 1], steps[i - 1]);
    hide Next, Enabled, Initial;
    if !steps[i - 1].Complete? {
      CallbackKnows(states, steps, i - 1);
    }
  }

  lemma EntryStays(s: State, step: Step)
    requires Enabled(s, step) && Next(s, step).cb.CbEntry?
    ensures if step.Complete? then Next(s, step).cb.good == step.good else s.cb == Next(s, step).cb
  {
    hide Filled, First;
  }

  /** The buffers under the URB each time read_bulk_callback was entered for a whole packet and found the
      device present */
  ghost function Received(states: seq<State>, steps: seq<Step>, i: nat): seq<Skb>
    requires |states| == |steps| + 1 && i <= |steps|
  {
    if i == 0 then []
    else
      var s := states[i - 1];
      Received(states, steps, i - 1)
      + if steps[i - 1].Callback? && s.cb.CbEntry? && LastGood(steps, i - 1) && !s.detached then [s.buf.urb] else []
  }

  /** Every packet received is passed up, in the buffer the URB filled and in the order of completion, and
      nothing else is. */
  lemma {:induction false} EveryPacketIsPassedUp(states: seq<State>, steps: seq<Step>, i: nat)
    requires IsRun(states, steps) && i < |states|
    ensures states[i].buf.passed == Received(states, steps, i)
  {
    if i > 0 {
      EveryPacketIsPassedUp(states, steps, i - 1);
      RunKeepsInv(states, steps, i - 1);
      assert Enabled(states[i - 1], steps[i - 1]);
      PassesUp(states[i - 1], steps[i - 1]);
      if states[i - 1].cb.CbEntry? {
        CallbackKnows(states, steps, i - 1);
      }
    }
    hide Next, Enabled, Inv;
  }

  lemma PassesUp(s: State, step: Step)
    requires Inv(s) && Enabled(s, step)
    ensures Next(s, step).buf.passed
         == s.buf.passed + if step.Callback? && s.cb == CbEntry(true) && !s.detached then [s.buf.urb] else []
  {
    hide Filled, First, PoolOk, PassedOk, TurnInv;
  }

  /** A submission that finds no device detaches it and stops the pump for good; no other outcome does. */
  lemma NoDeviceStopsThePump(s: State, step: Step)
    requires Inv(s) && Enabled(s, step) && Turns(s) == 1
    ensures var t := Next(s, step);
      Turns(t) == 0 <==>
        || (step.Callback? && s.cb.CbEntry? && s.detached)
        || (step.Callback? && s.cb.CbSubmit? && step.r == NoDevice)
        || (step.Tasklet? && s.tl.TlSubmit? && step.r == NoDevice)
    ensures Turns(Next(s, step)) == 0 ==> Next(s, step).detached
  {
    hide Filled, PoolOk, PassedOk, Pulled, HeldInv;
  }

  // ---------------------------------------------------------------------------------------------
  // Buffers that get lost
  // ---------------------------------------------------------------------------------------------

  /** Every buffer allocated so far is in the pool, is rx_skb or was passed up. */
  ghost predicate Accounted(b: Buffers) {
    forall skb: Skb :: skb < b.next ==> skb == b.rx || skb in b.passed || Some(skb) in b.pool
  }

  /** rx_fixup replaces an rx_skb that still holds no packet. */
  predicate Forgets(s: State, step: Step) {
    step.Tasklet? && s.tl.TlPull? && First(s.buf.pool) < |s.buf.pool| && s.buf.rx !in s.buf.passed
  }

  /** A step loses a buffer exactly when rx_fixup pulls a new one although rx_skb is still unused. */
  lemma LostExactlyWhenForgotten(s: State, step: Step)
    requires Inv(s) && Enabled(s, step) && Accounted(s.buf)
    ensures Accounted(Next(s, step).buf) <==> !Forgets(s, step)
  {
    hide Filled, PoolOk, PassedOk, TurnInv, Turns;
    match step
    case Callback(_) =>
      if s.cb.CbPull? && Pulled(s.buf).Some? {
        PullAccounts(s.buf);
      }
    case Tasklet(_, memory) =>
      if s.tl.TlPull? && Pulled(s.buf).Some? {
        PullAccounts(s.buf);
      } else if s.tl.TlFill? {
        FillAccounts(s.buf, memory);
      }
    case _ =>
  }

  lemma FillAccounts(b: Buffers, memory: nat)
    requires Accounted(b)
    ensures var (pool, next) := Filled(b.pool, b.next, memory);
      Accounted(b.(pool := pool, next := next))
  {
    hide Filled;
    var (pool, next) := Filled(b.pool, b.next, memory);
    forall skb: Skb | skb < next ensures skb == b.rx || skb in b.passed || Some(skb) in pool {
      FilledKeepsAll(b.pool, b.next, memory, skb);
    }
  }

  lemma PullAccounts(b: Buffers)
    requires PoolOk(b) && PassedOk(b) && Accounted(b) && Pulled(b).Some?
    ensures Accounted(Pulled(b).value) <==> b.rx in b.passed
  {
    var i := First(b.pool);
    var b1 := Pulled(b).value;
    assert Some(b.rx) !in b1.pool && b1.rx != b.rx;
    forall skb: Skb | Some(skb) in b.pool ensures skb == b1.rx || Some(skb) in b1.pool {
      var j :| 0 <= j < |b.pool| && b.pool[j] == Some(skb);
      assert j == i || b1.pool[j] == Some(skb);
    }
  }

  // ---------------------------------------------------------------------------------------------
  // What makes a run lose one
  // ---------------------------------------------------------------------------------------------

  /** The turn is on its way to rx_fixup, or rx_fixup has it and does not resubmit. */
  predicate Awaited(s: State) {
    s.cb.CbSched? || s.scheduled || s.tl.TlFill? || s.tl.TlTest? || s.tl.TlPull? || s.tl.TlSched?
  }

  /** A late clear of RX_URB_FAIL, by an earlier callback or an earlier rx_fixup, hits the flag that tells
      rx_fixup to submit the buffer it holds again. */
  ghost predicate Erases(s: State, step: Step) {
    && (step.LateClear? || (step.Tasklet? && s.tl.TlClear?))
    && s.fail && Awaited(s) && s.buf.rx !in s.buf.passed
  }

  /** rx_fixup will not submit the buffer in rx_skb, although it holds no packet. */
  ghost predicate Doomed(s: State) {
    s.buf.rx !in s.buf.passed && Awaited(s) && !s.fail
  }

  lemma CallbackDooms(s: State, r: Submit)
    requires Inv(s) && !s.cb.CbIdle?
    ensures Doomed(CallbackNext(s, r)) <==> Doomed(s)
    ensures Doomed(s) ==> CallbackNext(s, r).buf.rx == s.buf.rx
  {
    hide PoolOk;
    if s.cb.CbPull? && Pulled(s.buf).Some? {
      PullKeeps(s.buf);
    }
  }

  lemma TaskletDooms(s: State, r: Submit, memory: nat)
    requires Inv(s) && !s.tl.TlIdle?
    ensures var step, t := Tasklet(r, memory), TaskletNext(s, r, memory);
      && (Doomed(t) <==> Erases(s, step) || (Doomed(s) && !Forgets(s, step)))
      && (Doomed(t) ==> t.buf.rx == s.buf.rx)
  {
    hide Filled, PoolOk;
    if s.tl.TlPull? && Pulled(s.buf).Some? {
      PullKeeps(s.buf);
    }
  }

  /** Only an erasing clear dooms a buffer, and only its loss ends that. */
  lemma StepDooms(s: State, step: Step)
    requires Inv(s) && Enabled(s, step)
    ensures Doomed(Next(s, step)) <==> Erases(s, step) || (Doomed(s) && !Forgets(s, step))
    ensures Doomed(Next(s, step)) ==> Next(s, step).buf.rx == s.buf.rx
  {
    hide CallbackNext, TaskletNext, PoolOk, PassedOk;
    match step
    case Callback(r) => CallbackDooms(s, r);
    case Tasklet(r, memory) => TaskletDooms(s, r, memory);
    case _ =>
  }

  /** The clear that was last to erase a failure before state i, with no loss since */
  ghost predicate ErasedSince(states: seq<State>, steps: seq<Step>, j: nat, i: nat)
    requires IsRun(states, steps) && j < i < |states|
  {
    Erases(states[j], steps[j]) && forall m :: j < m < i ==> !Forgets(states[m], steps[m])
  }

  /** In every run, rx_fixup is about to forget a buffer if and only if a late clear erased a failure
      earlier in the run and no buffer was forgotten since. */
  lemma {:induction false} DoomedExactlyAfterErasure(states: seq<State>, steps: seq<Step>, i: nat)
    requires IsRun(states, steps) && i < |states|
    ensures Doomed(states[i]) <==> exists j :: 0 <= j < i && ErasedSince(states, steps, j, i)
  {
    hide Next, Enabled, Inv, Erases, Forgets;
    if i > 0 {
      DoomedExactlyAfterErasure(states, steps, i - 1);
      RunKeepsInv(states, steps, i - 1);
      StepDooms(states[i - 1], steps[i - 1]);
      if Doomed(states[i]) && !Erases(states[i - 1], steps[i - 1]) {
        var j :| 0 <= j < i - 1 && ErasedSince(states, steps, j, i - 1);
        assert ErasedSince(states, steps, j, i);
      }
      if Erases(states[i - 1], steps[i - 1]) {
        assert ErasedSince(states, steps, i - 1, i);
      }
      if j :| 0 <= j < i - 1 && ErasedSince(states, steps, j, i) {
        assert ErasedSince(states, steps, j, i - 1);
      }
    }
  }

  /** A run in which no late clear erases a failure loses no buffer: every buffer stays accounted for. */
  lemma {:induction false} NoErasureNoLoss(states: seq<State>, steps: seq<Step>, i: nat)
    requires IsRun(states, steps) && i < |states| && Accounted(states[0].buf)
    requires forall j :: 0 <= j < i ==> !Erases(states[j], steps[j])
    ensures Accounted(states[i].buf)
  {
    hide Next, Enabled, Inv, Accounted, Erases;
    if i > 0 {
      NoErasureNoLoss(states, steps, i - 1);
      RunKeepsInv(states, steps, i - 1);
      DoomedExactlyAfterErasure(states, steps, i - 1);
      ForgetsOnlyWhenDoomed(states[i - 1], steps[i - 1]);
      LostExactlyWhenForgotten(states[i - 1], steps[i - 1]);
    }
  }

  lemma ForgetsOnlyWhenDoomed(s: State, step: Step)
    requires Inv(s)
    ensures Forgets(s, step) <==> Doomed(s) && step.Tasklet? && s.tl.TlPull? && Pulled(s.buf).Some?
  {
  }

  // ---------------------------------------------------------------------------------------------
  // A run that loses one
  // ---------------------------------------------------------------------------------------------

  ghost predicate Reachable(s: State) {
    exists states, steps :: IsRun(states, steps) && states[|steps|] == s
  }

  lemma ReachNext(s: State, step: Step)
    requires Reachable(s) && Enabled(s, step)
    ensures Reachable(Next(s, step))
  {
    hide Next, Enabled, Initial;
    var states, steps :| IsRun(states, steps) && states[|steps|] == s;
    assert IsRun(states + [Next(s, step)], steps + [step]);
  }

  /** The URB completes with an error, and the resubmission from the callback is refused. */
  lemma CallbackRefused(s: State)
    requires Reachable(s) && s.inFlight && s.cb.CbIdle? && !s.detached && s.buf.urb == s.buf.rx
    ensures Reachable(s.(inFlight := false, fail := true, scheduled := true))
  {
    hide Reachable, TaskletNext;
    var s1 := s.(inFlight := false, cb := CbEntry(false));
    ReachNext(s, Complete(false));
    var s2 := s1.(cb := CbSubmit);
    ReachNext(s1, Callback(Refused));
    var s3 := s1.(cb := CbFail);
    assert Next(s2, Callback(Refused)) == s3;
    ReachNext(s2, Callback(Refused));
    var s4 := s1.(fail := true, cb := CbSched);
    ReachNext(s3, Callback(Refused));
    ReachNext(s4, Callback(Refused));
  }

  lemma {:induction false} NoMemoryNoChange(pool: Pool, next: Skb)
    ensures Filled(pool, next, 0) == (pool, next)
    decreases |pool|
  {
    if pool != [] {
      NoMemoryNoChange(pool[1..], next);
      assert [pool[0]] + pool[1..] == pool;
    }
  }

  /** rx_fixup up to its decision */
  lemma TaskletDecides(s: State)
    requires Reachable(s) && s.scheduled && s.tl.TlIdle?
    ensures Reachable(s.(scheduled := false, tl := if s.fail then TlSubmit else TlPull))
  {
    hide Reachable, CallbackNext, Filled, Pulled;
    NoMemoryNoChange(s.buf.pool, s.buf.next);
    var s1 := s.(scheduled := false, tl := TlFill);
    ReachNext(s, TaskletStart);
    var s2 := s1.(tl := TlTest);
    assert Next(s1, Tasklet(Refused, 0)) == s2;
    ReachNext(s1, Tasklet(Refused, 0));
    assert Next(s2, Tasklet(Refused, 0)) == s.(scheduled := false, tl := if s.fail then TlSubmit else TlPull);
    ReachNext(s2, Tasklet(Refused, 0));
  }

  const AT_PROBE := Buffers([Some(1), Some(2), Some(3), None], 0, 0, 4, [])

  /** rx_fixup resubmits after a failure; before it clears RX_URB_FAIL the URB completes and the
      callback fails again; the clear then erases that second failure. */
  lemma FailureErased()
    ensures Reachable(State(AT_PROBE, false, false, false, false, CbIdle, TlPull, 0))
  {
    var s := State(AT_PROBE, true, false, false, false, CbIdle, TlIdle, 0);
    assert IsRun([s], []);
    hide Next, Enabled, Initial;
    assert Reachable(s);
    hide Reachable, IsRun;
    CallbackRefused(s);
    var s1 := s.(inFlight := false, fail := true, scheduled := true);
    TaskletDecides(s1);
    var s2 := s1.(scheduled := false, tl := TlSubmit);
    SubmitFromTasklet(s2);
    var s3 := s2.(inFlight := true, tl := TlClear);
    CallbackRefused(s3);
    var s4 := s3.(inFlight := false, scheduled := true);
    ClearFromTasklet(s4);
    var s5 := s4.(fail := false, tl := TlIdle);
    TaskletDecides(s5);
  }

  /** In some run a buffer is lost. */
  lemma ABufferCanGetLost()
    ensures exists s, step :: Reachable(s) && Enabled(s, step) && Accounted(s.buf) && !Accounted(Next(s, step).buf)
  {
    hide Reachable;
    FailureErased();
    var s := State(AT_PROBE, false, false, false, false, CbIdle, TlPull, 0);
    var step := Tasklet(Accepted, 0);
    var pool := AT_PROBE.pool;
    assert pool[0] == Some(1) && pool[1] == Some(2) && pool[2] == Some(3);
    assert Accounted(AT_PROBE);
    FirstIs(pool, 0);
    var b := Next(s, step).buf;
    assert b == Buffers(pool[0 := None], 1, 1, 4, []);
    assert 0 < b.next && 0 != b.rx && 0 !in b.passed && Some(0) !in b.pool;
    assert !Accounted(b);
  }

  lemma SubmitFromTasklet(s: State)
    requires Reachable(s) && s.tl.TlSubmit?
    ensures Reachable(s.(inFlight := true, tl := TlClear))
  {
    hide Reachable;
    ReachNext(s, Tasklet(Accepted, 0));
  }

  lemma ClearFromTasklet(s: State)
    requires Reachable(s) && s.tl.TlClear?
    ensures Reachable(s.(fail := false, tl := TlIdle))
  {
    hide Reachable;
    ReachNext(s, Tasklet(Accepted, 0));
  }
}
