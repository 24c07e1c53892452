/**
 Every run of the transmit ring: frames offered by the stack while the queue is not stopped, the two
 halves of start_xmit, Tx interrupts, and a chip that may write any status into a slot it was given.
*/
module TxRuns {
  import opened Common
  import opened TxRing

  /** The ring with a history: the frames handed to the chip, and the statuses of those reclaimed. */
  datatype Tx = Tx(ring: Ring, staged: Option<Frame>, sent: seq<Frame>, done: seq<bv32>)

  datatype Step =
    | Offer(skb: Frame)
    | Commit
    | Chip(slot: nat, status: bv32)
    | Interrupt

  ghost predicate Outstanding(t: Tx, slot: nat) {
    exists k :: |t.done| <= k < |t.sent| && k % NUM_TX_DESC == slot
  }

  ghost predicate Enabled(t: Tx, step: Step) {
    match step
    case Offer(_) => !t.ring.stopped && t.staged.None?
    case Commit => t.staged.Some?
    case Chip(slot, _) => Outstanding(t, slot)
    case Interrupt => true
  }

  ghost function Next(t: Tx, step: Step, word: int): Tx
    requires IsWord(word) && RingOk(t.ring, word) && Enabled(t, step)
    requires t.staged.Some? ==> |t.staged.value| < TX_BUF_SIZE
  {
    match step
    case Offer(f) =>
      if |f| < TX_BUF_SIZE then t.(ring := Staged(t.ring, word, f), staged := Some(f))
      else t.(ring := t.ring.(dropped := t.ring.dropped + 1))
    case Commit =>
      t.(ring := Committed(t.ring, word, |t.staged.value|), staged := None, sent := t.sent + [t.staged.value])
    case Chip(slot, status) => t.(ring := t.ring.(status := t.ring.status[slot := status]))
    case Interrupt => t.(ring := Reclaimed(t.ring, word), done := t.done + TakenNow(t.ring, word))
  }

  /** rtl8139_init_ring and rtl8139_open, over whatever the buffers and registers held */
  ghost predicate Initial(t: Tx) {
    && t.ring.cur == 0 && t.ring.dirty == 0 && !t.ring.stopped && t.ring.account == NO_TRAFFIC && t.ring.dropped == 0
    && |t.ring.status| == NUM_TX_DESC && |t.ring.slots| == NUM_TX_DESC
    && (forall i :: 0 <= i < NUM_TX_DESC ==> |t.ring.slots[i]| == TX_BUF_SIZE)
    && t.staged.None? && t.sent == [] && t.done == []
  }

  // ---------------------------------------------------------------------------------------------
  // The invariant
  // ---------------------------------------------------------------------------------------------

  ghost predicate Carries(slot: seq<byte>, f: Frame) {
    |f| < TX_BUF_SIZE && Padded(f) <= slot
  }

  ghost predicate CountersInv(t: Tx, word: int)
    requires word > 0
  {
    && |t.done| <= |t.sent| <= |t.done| + NUM_TX_DESC
    && t.ring.cur == Wrap(|t.sent|, word) && t.ring.dirty == Wrap(|t.done|, word)
    && (t.ring.stopped <==> |t.sent| - |t.done| == NUM_TX_DESC)
    && (t.staged.Some? ==> !t.ring.stopped)
  }

  ghost predicate BuffersInv(t: Tx)
    requires |t.ring.slots| == NUM_TX_DESC
  {
    && (t.staged.Some? ==> Carries(t.ring.slots[|t.sent| % NUM_TX_DESC], t.staged.value))
    && forall k :: |t.done| <= k < |t.sent| ==> Carries(t.ring.slots[k % NUM_TX_DESC], t.sent[k])
  }

  ghost predicate AccountInv(t: Tx) {
    && t.ring.account == ChargeAll(NO_TRAFFIC, t.done)
    && FlagOk(t.ring.account.flag)
    && forall i :: 0 <= i < |t.done| ==> Sent(t.done[i])
  }

  ghost predicate Inv(t: Tx, word: int) {
    IsWord(word) && RingOk(t.ring, word) && CountersInv(t, word) && BuffersInv(t) && AccountInv(t)
  }

  lemma InitHolds(t: Tx, word: int)
    requires IsWord(word) && Initial(t)
    ensures Inv(t, word)
  {
  }

  lemma {:induction false} FlagStaysOk(a: Account, sts: seq<bv32>)
    requires FlagOk(a.flag)
    ensures FlagOk(ChargeAll(a, sts).flag)
    decreases |sts|
  {
    if sts != [] {
      FlagStaysOk(a, sts[..|sts| - 1]);
    }
  }

  lemma LeftIsOutstanding(t: Tx, word: int)
    requires Inv(t, word)
    ensures Left(t.ring, word) == |t.sent| - |t.done|
    ensures t.ring.cur % NUM_TX_DESC == |t.sent| % NUM_TX_DESC
    ensures t.ring.dirty % NUM_TX_DESC == |t.done| % NUM_TX_DESC
  {
    hide Wrap, RingOk, BuffersInv, AccountInv;
    WrapDistance(|t.done|, |t.sent|, word);
    WrapSteps(|t.sent|, word);
    WrapSteps(|t.done|, word);
  }

  /** The slot about to be filled is none of the outstanding ones. */
  lemma NotTheNext(done: nat, sent: nat, k: nat)
    requires done <= k < sent < done + NUM_TX_DESC
    ensures k % NUM_TX_DESC != sent % NUM_TX_DESC
  {
  }

  lemma OfferKeeps(t: Tx, f: Frame, word: int)
    requires Inv(t, word) && Enabled(t, Offer(f))
    ensures Inv(Next(t, Offer(f), word), word)
  {
    hide Wrap, ChargeAll, FlagOk, Sent, IsWord, Padded;
    LeftIsOutstanding(t, word);
    if |f| < TX_BUF_SIZE {
      PaddedIs(f);
      var t1 := Next(t, Offer(f), word);
      forall k | |t.done| <= k < |t.sent| ensures t1.ring.slots[k % NUM_TX_DESC] == t.ring.slots[k % NUM_TX_DESC] {
        NotTheNext(|t.done|, |t.sent|, k);
      }
    }
  }

  lemma CommitKeeps(t: Tx, word: int)
    requires Inv(t, word) && Enabled(t, Commit)
    ensures Inv(Next(t, Commit, word), word)
  {
    hide Wrap, ChargeAll, FlagOk, Sent, IsWord, Padded, Size, Command;
    LeftIsOutstanding(t, word);
    WrapSteps(|t.sent|, word);
    var t1 := Next(t, Commit, word);
    WrapBack(|t.done|, |t1.sent|, word);
  }

  lemma WrapBack32(lo: nat, hi: nat)
    requires lo <= hi <= lo + NUM_TX_DESC
    ensures (hi % 0x1_0000_0000 - NUM_TX_DESC) % 0x1_0000_0000 == lo % 0x1_0000_0000 <==> hi == lo + NUM_TX_DESC
  {
  }

  lemma WrapBack64(lo: nat, hi: nat)
    requires lo <= hi <= lo + NUM_TX_DESC
    ensures (hi % 0x1_0000_0000_0000_0000 - NUM_TX_DESC) % 0x1_0000_0000_0000_0000 == lo % 0x1_0000_0000_0000_0000
       <==> hi == lo + NUM_TX_DESC
  {
  }

  /** The full test of start_xmit */
  lemma WrapBack(lo: nat, hi: nat, word: int)
    requires IsWord(word) && lo <= hi <= lo + NUM_TX_DESC
    ensures Wrap(Wrap(hi, word) - NUM_TX_DESC, word) == Wrap(lo, word) <==> hi == lo + NUM_TX_DESC
  {
    WrapBack32(lo, hi);
    WrapBack64(lo, hi);
    if word == 0x1_0000_0000 {
    } else {
    }
  }

  lemma ChipKeeps(t: Tx, slot: nat, status: bv32, word: int)
    requires Inv(t, word) && Enabled(t, Chip(slot, status))
    ensures Inv(Next(t, Chip(slot, status), word), word)
  {
    hide Wrap, IsWord, Padded;
  }

  lemma InterruptKeeps(t: Tx, word: int)
    requires Inv(t, word)
    ensures Inv(Next(t, Interrupt, word), word)
  {
    hide Wrap, IsWord, Padded, ChargeAll, FlagOk, Sent, StatusAt;
    LeftIsOutstanding(t, word);
    var taken := TakenNow(t.ring, word);
    ChargesJoin(NO_TRAFFIC, t.done, taken);
    FlagStaysOk(t.ring.account, taken);
    WrapAdds(|t.done|, |taken|, word);
    WrapDistance(|t.done| + |taken|, |t.sent|, word);
    WrapMoves(|t.done|, |taken|, word);
  }

  lemma WrapMoves(x: nat, n: nat, word: int)
    requires IsWord(word) && n <= NUM_TX_DESC
    ensures Wrap(x + n, word) == Wrap(x, word) <==> n == 0
  {
    hide Wrap;
    WrapDistance(x, x + n, word);
    WrapDistance(x, x, word);
  }

  lemma WrapAdds(x: nat, n: nat, word: int)
    requires IsWord(word)
    ensures Wrap(Wrap(x, word) + n, word) == Wrap(x + n, word)
  {
  }

  lemma StepKeepsInv(t: Tx, step: Step, word: int)
    requires Inv(t, word) && Enabled(t, step)
    ensures Inv(Next(t, step, word), word)
  {
    hide Inv, Next, Enabled;
    match step
    case Offer(f) => OfferKeeps(t, f, word);
    case Commit => CommitKeeps(t, word);
    case Chip(slot, status) => ChipKeeps(t, slot, status, word);
    case Interrupt => InterruptKeeps(t, word);
  }

  // ---------------------------------------------------------------------------------------------
  // Runs
  // ---------------------------------------------------------------------------------------------

  ghost predicate Ready(t: Tx, step: Step, word: int) {
    && IsWord(word) && RingOk(t.ring, word) && Enabled(t, step)
    && (t.staged.Some? ==> |t.staged.value| < TX_BUF_SIZE)
  }

  ghost predicate IsRun(states: seq<Tx>, steps: seq<Step>, word: int) {
    && |states| == |steps| + 1 && IsWord(word)
    && forall i :: 0 <= i < |steps| ==>
      Ready(states[i], steps[i], word) && states[i + 1] == Next(states[i], steps[i], word)
  }

  lemma {:induction false} RunKeepsInv(states: seq<Tx>, steps: seq<Step>, word: int, i: nat)
    requires IsRun(states, steps, word) && i < |states| && Inv(states[0], word)
    ensures Inv(states[i], word)
  {
    hide Inv, Next;
    if i > 0 {
      RunKeepsInv(states, steps, word, i - 1);
      assert Ready(states[i - 1], steps[i - 1], word);
      StepKeepsInv(states[i - 1], steps[i - 1], word);
    }
  }

  /** At every point of every run the counters are at most four apart, and the queue is stopped
      exactly when they are four apart, wrapped or not. */
  lemma QueueStoppedExactlyWhenFull(states: seq<Tx>, steps: seq<Step>, word: int, i: nat)
    requires IsRun(states, steps, word) && i < |states| && Initial(states[0])
    ensures Left(states[i].ring, word) == |states[i].sent| - |states[i].done| <= NUM_TX_DESC
    ensures states[i].ring.stopped <==> Left(states[i].ring, word) == NUM_TX_DESC
  {
    InitHolds(states[0], word);
    RunKeepsInv(states, steps, word, i);
    LeftIsOutstanding(states[i], word);
  }

  /** The offered frames the ring accepts, in the order they came */
  ghost function Accepted(steps: seq<Step>): seq<Frame> {
    if steps == [] then []
    else
      var last := steps[|steps| - 1];
      Accepted(steps[..|steps| - 1]) + if last.Offer? && |last.skb| < TX_BUF_SIZE then [last.skb] else []
  }

  ghost function TooLong(steps: seq<Step>): nat {
    if steps == [] then 0
    else
      var last := steps[|steps| - 1];
      TooLong(steps[..|steps| - 1]) + Num(last.Offer? && |last.skb| >= TX_BUF_SIZE)
  }

  ghost function InDriver(t: Tx): seq<Frame> {
    t.sent + if t.staged.Some? then [t.staged.value] else []
  }

  /** Every accepted frame is handed to the chip once, in order; the others are counted as dropped. */
  lemma {:induction false} FramesGoOutInOrder(states: seq<Tx>, steps: seq<Step>, word: int, i: nat)
    requires IsRun(states, steps, word) && i < |states| && Initial(states[0])
    ensures InDriver(states[i]) == Accepted(steps[..i])
    ensures states[i].ring.dropped == TooLong(steps[..i])
  {
    hide Reclaimed, Staged;
    if i > 0 {
      FramesGoOutInOrder(states, steps, word, i - 1);
      assert Ready(states[i - 1], steps[i - 1], word);
      assert steps[..i][..i - 1] == steps[..i - 1];
      SameDrops(states[i - 1].ring, word);
      if steps[i - 1].Offer? && |steps[i - 1].skb| < TX_BUF_SIZE {
        StagingDropsNothing(states[i - 1].ring, word, steps[i - 1].skb);
      }
    }
  }

  lemma StagingDropsNothing(r: Ring, word: int, f: Frame)
    requires RingOk(r, word) && |f| < TX_BUF_SIZE
    ensures Staged(r, word, f).dropped == r.dropped
  {
  }

  lemma SameDrops(r: Ring, word: int)
    requires RingOk(r, word)
    ensures Reclaimed(r, word).dropped == r.dropped
  {
  }

  /** A status with which the chip is done with a frame: sent, sent after an underrun, or aborted */
  predicate ShowsDone(st: bv32) {
    st & 0x8000 != 0 || st & 0x4000 != 0 || st & 0x4000_0000 != 0
  }

  /** Aborted, or a collision out of window */
  predicate ShowsError(st: bv32) {
    st & 0x4000_0000 != 0 || st & 0x2000_0000 != 0
  }

  lemma SentShowsDone(st: bv32)
    ensures Sent(st) <==> ShowsDone(st)
  {
  }

  lemma FailedShowsError(st: bv32)
    ensures Failed(st) <==> ShowsError(st)
  {
  }

  /** Bits 24 to 27 and bits 0 to 10 */
  lemma FieldsAre(st: bv32)
    ensures Collisions(st) == ((st & 0x0f00_0000) / 0x100_0000) as nat
    ensures Bytes(st) == (st % 0x800) as nat
  {
  }

  ghost function Count(sts: seq<bv32>, error: bool): nat {
    if sts == [] then 0 else Count(sts[..|sts| - 1], error) + Num(ShowsError(sts[|sts| - 1]) == error)
  }

  /** The statuses of one kind, errors or not, that show a bit */
  ghost function CountBit(sts: seq<bv32>, error: bool, bit: bv32): nat {
    if sts == [] then 0
    else
      var last := sts[|sts| - 1];
      CountBit(sts[..|sts| - 1], error, bit) + Num(ShowsError(last) == error && Has(last, bit))
  }

  /** The collisions and the bytes shown by the statuses that are no errors */
  ghost function SumCollisions(sts: seq<bv32>): nat {
    if sts == [] then 0
    else
      var last := sts[|sts| - 1];
      SumCollisions(sts[..|sts| - 1]) + if ShowsError(last) then 0 else ((last & 0x0f00_0000) / 0x100_0000) as nat
  }

  ghost function SumBytes(sts: seq<bv32>): nat {
    if sts == [] then 0
    else
      var last := sts[|sts| - 1];
      SumBytes(sts[..|sts| - 1]) + if ShowsError(last) then 0 else (last % 0x800) as nat
  }

  ghost predicate CountedOnce(stats: Stats, sts: seq<bv32>) {
    && stats.errors == Count(sts, true) && stats.packets == Count(sts, false)
    && stats.errors + stats.packets == |sts|
    && stats.aborted == CountBit(sts, true, 0x4000_0000)
    && stats.carrier == CountBit(sts, true, 0x8000_0000)
    && stats.window == CountBit(sts, true, 0x2000_0000)
    && stats.fifo == CountBit(sts, false, 0x4000)
    && stats.collisions == SumCollisions(sts) && stats.bytes == SumBytes(sts)
  }

  /** After n underruns the FIFO threshold is up by n steps of 64 bytes, but never beyond 0x30_0000. */
  ghost function Threshold(n: nat): (flag: bv32)
    ensures 0x8_0000 <= flag <= 0x30_0000 && flag & 0x1_ffff == 0
  {
    if n == 0 then 0x8_0000 else if Threshold(n - 1) == 0x30_0000 then 0x30_0000 else Threshold(n - 1) + 0x2_0000
  }

  lemma NextThreshold(n: nat)
    ensures Raised(Threshold(n)) == Threshold(n + 1)
  {
  }

  lemma {:induction false} ThresholdExactly(sts: seq<bv32>)
    ensures ChargeAll(NO_TRAFFIC, sts).flag == Threshold(CountBit(sts, false, 0x4000))
  {
    if sts != [] {
      ThresholdExactly(sts[..|sts| - 1]);
      FailedShowsError(sts[|sts| - 1]);
      NextThreshold(CountBit(sts[..|sts| - 1], false, 0x4000));
    }
    hide Failed, ShowsError, Has, Bytes, Collisions, Raised;
  }

  lemma {:induction false} EachStatusCountedOnce(sts: seq<bv32>)
    ensures CountedOnce(ChargeAll(NO_TRAFFIC, sts).stats, sts)
  {
    if sts != [] {
      EachStatusCountedOnce(sts[..|sts| - 1]);
      FailedShowsError(sts[|sts| - 1]);
      FieldsAre(sts[|sts| - 1]);
    }
    hide Failed, ShowsError, Has, Bytes, Collisions, Raised;
  }

  /** Each reclaimed frame was counted exactly once, as an error or as a packet, by its own status, and
      each cause as often as a status showed it. */
  lemma ReclaimedCountedOnce(states: seq<Tx>, steps: seq<Step>, word: int, i: nat)
    requires IsRun(states, steps, word) && i < |states| && Initial(states[0])
    ensures CountedOnce(states[i].ring.account.stats, states[i].done)
    ensures |states[i].done| == |states[i].sent| - Left(states[i].ring, word)
  {
    hide CountedOnce, ChargeAll;
    InitHolds(states[0], word);
    RunKeepsInv(states, steps, word, i);
    LeftIsOutstanding(states[i], word);
    EachStatusCountedOnce(states[i].done);
  }

  lemma RegisterIs(flag: bv32, size: bv32)
    requires FlagOk(flag) && SizeOk(size)
    ensures Command(flag, size) & 0x1fff == size && Command(flag, size) & 0x3f_0000 == flag
    ensures !ShowsDone(Command(flag, size))
  {
  }

  lemma SizeIs(len: nat)
    requires len < TX_BUF_SIZE
    ensures Size(len) == Max(len, 60) as bv32
  {
  }

  lemma RegisterShows(flag: bv32, len: nat)
    requires FlagOk(flag) && len < TX_BUF_SIZE
    ensures var status := Command(flag, Size(len));
      !ShowsDone(status) && status & 0x1fff == Max(len, 60) as bv32 && status & 0x3f_0000 == flag
  {
    hide Command, ShowsDone, FlagOk, SizeOk, Size;
    SizeIsOk(len);
    SizeIs(len);
    RegisterIs(flag, Size(len));
  }

  lemma StagedIn(slot: seq<byte>, f: Frame)
    requires Padded(f) <= slot
    ensures |f| <= |slot| && slot[..|f|] == f && 60 <= |slot| && forall i :: |f| <= i < 60 ==> slot[i] == 0
  {
    PaddedIs(f);
    assert slot[..|f|] == Padded(f)[..|f|];
  }

  /** The frame handed over is in its slot, filled up with zeros to 60 bytes; the register shows the length
      and the FIFO threshold, and none of the done bits. */
  lemma CommitHandsOver(t: Tx, word: int)
    requires Inv(t, word) && Enabled(t, Commit)
    ensures var t1, f := Next(t, Commit, word), t.staged.value;
      var slot, status := t1.ring.slots[|t.sent| % NUM_TX_DESC], t1.ring.status[|t.sent| % NUM_TX_DESC];
      && t1.sent == t.sent + [f] && |f| < TX_BUF_SIZE == |slot|
      && slot[..|f|] == f && (forall i :: |f| <= i < 60 ==> slot[i] == 0)
      && !ShowsDone(status) && status & 0x1fff == Max(|f|, 60) as bv32 && status & 0x3f_0000 == t.ring.account.flag
  {
    hide ShowsDone, Wrap, Size, Command, SizeOk, FlagOk, IsWord, ChargeAll, Padded;
    var f := t.staged.value;
    LeftIsOutstanding(t, word);
    RegisterShows(t.ring.account.flag, |f|);
    StagedIn(t.ring.slots[|t.sent| % NUM_TX_DESC], f);
  }

  /** No step of the driver writes the buffer or the status of a slot the chip still owns, that is
      of a frame sent and not yet reclaimed. */
  lemma OutstandingSlotsAreLeftAlone(t: Tx, step: Step, word: int, k: nat)
    requires Inv(t, word) && Enabled(t, step) && !step.Chip?
    requires |t.done| <= k < |t.sent|
    ensures var t1 := Next(t, step, word);
      && t1.ring.slots[k % NUM_TX_DESC] == t.ring.slots[k % NUM_TX_DESC]
      && t1.ring.status[k % NUM_TX_DESC] == t.ring.status[k % NUM_TX_DESC]
  {
    hide Wrap, Padded, Size, Command, AccountInv;
    LeftIsOutstanding(t, word);
  }

  /** A frame is reclaimed only after the chip wrote its status: without such a write no number of
      interrupts reclaims it, or any frame behind it. */
  lemma {:induction false} ReclaimWaitsForTheChip(states: seq<Tx>, steps: seq<Step>, word: int, i: nat, k: nat)
    requires IsRun(states, steps, word) && i < |states| && Inv(states[0], word)
    requires |states[0].done| <= k < |states[0].sent| && !ShowsDone(states[0].ring.status[k % NUM_TX_DESC])
    requires forall j :: 0 <= j < |steps| && steps[j].Chip? ==> steps[j].slot != k % NUM_TX_DESC
    ensures |states[i].done| <= k < |states[i].sent|
    ensures |states[i].ring.status| == NUM_TX_DESC && !ShowsDone(states[i].ring.status[k % NUM_TX_DESC])
  {
    hide Inv, Next, Enabled, Sent, ShowsDone;
    RunKeepsInv(states, steps, word, i);
    FourRegisters(states[i], word);
    SentShowsDone(states[i].ring.status[k % NUM_TX_DESC]);
    if i > 0 {
      ReclaimWaitsForTheChip(states, steps, word, i - 1, k);
      RunKeepsInv(states, steps, word, i - 1);
      assert Ready(states[i - 1], steps[i - 1], word);
      SentShowsDone(states[i - 1].ring.status[k % NUM_TX_DESC]);
      StepWaitsForTheChip(states[i - 1], steps[i - 1], word, k);
    }
  }

  lemma FourRegisters(t: Tx, word: int)
    requires Inv(t, word)
    ensures |t.ring.status| == NUM_TX_DESC
  {
  }

  lemma StepWaitsForTheChip(t: Tx, step: Step, word: int, k: nat)
    requires Inv(t, word) && Enabled(t, step) && |t.done| <= k < |t.sent|
    requires !Sent(t.ring.status[k % NUM_TX_DESC])
    requires step.Chip? ==> step.slot != k % NUM_TX_DESC
    ensures var t1 := Next(t, step, word);
      |t1.done| <= k < |t1.sent| && |t1.ring.status| == NUM_TX_DESC && !Sent(t1.ring.status[k % NUM_TX_DESC])
  {
    hide Wrap, Padded, Sent, Size, Command, AccountInv, BuffersInv, ChargeAll, IsWord, Reclaimed, TakenNow;
    if step.Interrupt? {
      InterruptWaitsForTheChip(t, word, k);
    } else if !step.Chip? {
      OutstandingSlotsAreLeftAlone(t, step, word, k);
    }
  }

  lemma StatusOfSlot(status: seq<bv32>, dirty: nat, done: nat, j: nat)
    requires |status| == NUM_TX_DESC && dirty % NUM_TX_DESC == done % NUM_TX_DESC
    ensures StatusAt(status, dirty, j) == status[(done + j) % NUM_TX_DESC]
  {
  }

  lemma InterruptWaitsForTheChip(t: Tx, word: int, k: nat)
    requires Inv(t, word) && |t.done| <= k < |t.sent| && !Sent(t.ring.status[k % NUM_TX_DESC])
    ensures |Next(t, Interrupt, word).done| <= k && Next(t, Interrupt, word).ring.status == t.ring.status
  {
    hide Wrap, Sent, AccountInv, BuffersInv, ChargeAll, IsWord, Finished, StatusAt, Resynced;
    LeftIsOutstanding(t, word);
    var j := k - |t.done|;
    StatusOfSlot(t.ring.status, t.ring.dirty, |t.done|, j);
    assert !Sent(StatusAt(t.ring.status, t.ring.dirty, j));
  }

  /** An interrupt reclaims a frame if and only if the status of its slot, and that of every frame before
      it, shows one of the three done bits; the status it is charged with is that one. */
  lemma InterruptReclaimsExactly(t: Tx, word: int, k: nat)
    requires Inv(t, word) && |t.done| <= k < |t.sent|
    ensures var t1 := Next(t, Interrupt, word);
      && (k < |t1.done| <==> forall m :: |t.done| <= m <= k ==> ShowsDone(t.ring.status[m % NUM_TX_DESC]))
      && (k < |t1.done| ==> t1.done[k] == t.ring.status[k % NUM_TX_DESC])
  {
    hide Wrap, Sent, ShowsDone, AccountInv, BuffersInv, ChargeAll, IsWord, Finished, StatusAt, Resynced;
    LeftIsOutstanding(t, word);
    var n := |TakenNow(t.ring, word)|;
    forall m | |t.done| <= m < |t.sent|
      ensures StatusAt(t.ring.status, t.ring.dirty, m - |t.done|) == t.ring.status[m % NUM_TX_DESC]
    {
      StatusOfSlot(t.ring.status, t.ring.dirty, |t.done|, m - |t.done|);
    }
    forall m | |t.done| <= m < |t.sent|
      ensures Sent(t.ring.status[m % NUM_TX_DESC]) <==> ShowsDone(t.ring.status[m % NUM_TX_DESC])
    {
      SentShowsDone(t.ring.status[m % NUM_TX_DESC]);
    }
    if |t.done| + n <= k {
      assert !Sent(StatusAt(t.ring.status, t.ring.dirty, n));
      assert !ShowsDone(t.ring.status[(|t.done| + n) % NUM_TX_DESC]);
    }
  }
}
