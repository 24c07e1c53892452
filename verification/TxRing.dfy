/**
 The four-slot transmit ring of the RTL8139 driver (net/realtek/8139too.c): rtl8139_start_xmit and
 rtl8139_tx_interrupt over free-running counters that wrap at the width of an unsigned long.
 start_xmit copies the frame outside tp->lock, so it is two steps; interrupts and the chip run
 between them.
*/
module TxRing {
  import opened Common

  const NUM_TX_DESC: nat := 4
  const TX_BUF_SIZE: nat := 1792
  const ETH_ZLEN: nat := 60

  const TX_UNDERRUN: bv32 := 0x4000
  const TX_STAT_OK: bv32 := 0x8000
  const TX_OUT_OF_WINDOW: bv32 := 0x2000_0000
  const TX_ABORTED: bv32 := 0x4000_0000
  const TX_CARRIER_LOST: bv32 := 0x8000_0000

  /** unsigned long on a 32-bit and on a 64-bit machine */
  predicate IsWord(word: int) {
    word == 0x1_0000_0000 || word == 0x1_0000_0000_0000_0000
  }

  /** Unsigned arithmetic on such a word */
  function Wrap(x: int, word: int): (r: nat)
    requires word > 0
    ensures r < word
  {
    x % word
  }

  lemma Steps32(x: nat)
    ensures (x % 0x1_0000_0000 + 1) % 0x1_0000_0000 == (x + 1) % 0x1_0000_0000
  {
  }

  lemma Slots32(x: nat)
    ensures x % 0x1_0000_0000 % NUM_TX_DESC == x % NUM_TX_DESC
  {
  }

  lemma Steps64(x: nat)
    ensures (x % 0x1_0000_0000_0000_0000 + 1) % 0x1_0000_0000_0000_0000 == (x + 1) % 0x1_0000_0000_0000_0000
  {
  }

  lemma Slots64(x: nat)
    ensures x % 0x1_0000_0000_0000_0000 % NUM_TX_DESC == x % NUM_TX_DESC
  {
  }

  lemma WrapSteps(x: nat, word: int)
    requires IsWord(word)
    ensures Wrap(Wrap(x, word) + 1, word) == Wrap(x + 1, word)
    ensures Wrap(x, word) % NUM_TX_DESC == x % NUM_TX_DESC
  {
    Steps32(x);
    Slots32(x);
    Steps64(x);
    Slots64(x);
    if word == 0x1_0000_0000 {
    } else {
    }
  }

  lemma WrapSmall(x: nat, word: int)
    requires x < word
    ensures Wrap(x, word) == x
  {
  }

  /** The distance between two wrapped counters is the distance between what they count. */
  lemma WrapDistance(lo: nat, hi: nat, word: int)
    requires IsWord(word) && lo <= hi < lo + word
    ensures Wrap(Wrap(hi, word) - Wrap(lo, word), word) == hi - lo
  {
  }

  type Frame = seq<byte>

  /** dev->stats and tp->tx_stats, without their wrap-around */
  datatype Stats = Stats(errors: nat, aborted: nat, carrier: nat, window: nat, fifo: nat,
                         collisions: nat, packets: nat, bytes: nat)

  datatype Account = Account(stats: Stats, flag: bv32)

  const NO_TRAFFIC := Account(Stats(0, 0, 0, 0, 0, 0, 0, 0), 0x8_0000)

  datatype Ring = Ring(cur: nat, dirty: nat, status: seq<bv32>, slots: seq<seq<byte>>,
                       stopped: bool, account: Account, dropped: nat)

  ghost predicate RingOk(r: Ring, word: int) {
    && 0 <= r.cur < word && 0 <= r.dirty < word
    && |r.status| == NUM_TX_DESC && |r.slots| == NUM_TX_DESC
    && forall i :: 0 <= i < NUM_TX_DESC ==> |r.slots[i]| == TX_BUF_SIZE
  }

  predicate Sent(status: bv32) {
    status & (TX_STAT_OK | TX_UNDERRUN | TX_ABORTED) != 0
  }

  predicate Failed(status: bv32) {
    status & (TX_OUT_OF_WINDOW | TX_ABORTED) != 0
  }

  // ---------------------------------------------------------------------------------------------
  // What the two entry points do to the ring
  // ---------------------------------------------------------------------------------------------

  /** The chip does not pad, the driver does. */
  function Padded(f: Frame): Frame {
    if |f| < ETH_ZLEN then f + Zeros(ETH_ZLEN - |f|) else f
  }

  lemma PaddedIs(f: Frame)
    ensures |Padded(f)| == Max(|f|, ETH_ZLEN) && Padded(f)[..|f|] == f
    ensures forall i :: |f| <= i < |Padded(f)| ==> Padded(f)[i] == 0
  {
  }

  /** The length field for a frame of len bytes */
  function Size(len: nat): bv32
    requires len < TX_BUF_SIZE
  {
    Max(len, ETH_ZLEN) as bv32
  }

  function Command(flag: bv32, size: bv32): bv32 {
    flag | size
  }

  ghost predicate SizeOk(size: bv32) {
    size < 1792
  }

  ghost predicate FlagOk(flag: bv32) {
    flag & 0xffc1_ffff == 0 && flag <= 0x30_0000
  }

  lemma SizeIsOk(len: nat)
    requires len < TX_BUF_SIZE
    ensures SizeOk(Size(len))
  {
  }

  ghost function Staged(r: Ring, word: int, f: Frame): Ring
    requires RingOk(r, word) && |f| < TX_BUF_SIZE
  {
    var e := r.cur % NUM_TX_DESC;
    r.(slots := r.slots[e := Padded(f) + r.slots[e][|Padded(f)|..]])
  }

  ghost function Committed(r: Ring, word: int, len: nat): Ring
    requires RingOk(r, word) && len < TX_BUF_SIZE
  {
    var cur := Wrap(r.cur + 1, word);
    r.(status := r.status[r.cur % NUM_TX_DESC := Command(r.account.flag, Size(len))], cur := cur,
       stopped := r.stopped || Wrap(cur - NUM_TX_DESC, word) == r.dirty)
  }

  function Left(r: Ring, word: int): nat
    requires word > 0
  {
    Wrap(r.cur - r.dirty, word)
  }

  function StatusAt(status: seq<bv32>, dirty: nat, k: nat): bv32
    requires |status| == NUM_TX_DESC
  {
    status[(dirty + k) % NUM_TX_DESC]
  }

  /** The number of slots from `dirty` on whose transmission the chip has finished. */
  function Finished(status: seq<bv32>, dirty: nat, left: nat): (n: nat)
    requires |status| == NUM_TX_DESC
    ensures n <= left
    ensures forall k :: 0 <= k < n ==> Sent(StatusAt(status, dirty, k))
    ensures n < left ==> !Sent(StatusAt(status, dirty, n))
    decreases left
  {
    if left == 0 then 0
    else
      var n := Finished(status, dirty, left - 1);
      if n == left - 1 && Sent(StatusAt(status, dirty, n)) then left else n
  }

  ghost function Taken(status: seq<bv32>, dirty: nat, n: nat): (t: seq<bv32>)
    requires |status| == NUM_TX_DESC
    ensures |t| == n
  {
    seq(n, k requires 0 <= k => StatusAt(status, dirty, k))
  }

  function Collisions(status: bv32): nat {
    ((status >> 24) & 15) as nat
  }

  function Bytes(status: bv32): nat {
    (status & 0x7ff) as nat
  }

  predicate Has(status: bv32, bit: bv32) {
    status & bit != 0
  }

  /** The FIFO threshold after one more underrun */
  function Raised(flag: bv32): bv32 {
    if flag < 0x30_0000 then flag + 0x2_0000 else flag
  }

  function Charge(a: Account, st: bv32): Account {
    var s := a.stats;
    if Failed(st) then
      a.(stats := s.(errors := s.errors + 1,
                     aborted := s.aborted + Num(Has(st, TX_ABORTED)),
                     carrier := s.carrier + Num(Has(st, TX_CARRIER_LOST)),
                     window := s.window + Num(Has(st, TX_OUT_OF_WINDOW))))
    else
      Account(s.(fifo := s.fifo + Num(Has(st, TX_UNDERRUN)),
                 collisions := s.collisions + Collisions(st),
                 packets := s.packets + 1,
                 bytes := s.bytes + Bytes(st)),
              if Has(st, TX_UNDERRUN) then Raised(a.flag) else a.flag)
  }

  ghost function ChargeAll(a: Account, sts: seq<bv32>): Account {
    if sts == [] then a else Charge(ChargeAll(a, sts[..|sts| - 1]), sts[|sts| - 1])
  }

  lemma {:induction false} ChargesJoin(a: Account, s: seq<bv32>, t: seq<bv32>)
    ensures ChargeAll(ChargeAll(a, s), t) == ChargeAll(a, s + t)
    decreases |t|
  {
    if t == [] {
      assert s + t == s;
    } else {
      assert (s + t)[..|s + t| - 1] == s + t[..|t| - 1];
      ChargesJoin(a, s, t[..|t| - 1]);
    }
  }

  ghost function TakenNow(r: Ring, word: int): seq<bv32>
    requires RingOk(r, word)
  {
    Taken(r.status, r.dirty, Finished(r.status, r.dirty, Left(r, word)))
  }

  /** The ring after rtl8139_tx_interrupt. */
  ghost function Reclaimed(r: Ring, word: int): Ring
    requires RingOk(r, word)
  {
    var n := Finished(r.status, r.dirty, Left(r, word));
    var dirty := Resynced(r.cur, Wrap(r.dirty + n, word), word);
    r.(dirty := dirty, account := ChargeAll(r.account, TakenNow(r, word)),
       stopped := r.stopped && dirty == r.dirty)
  }

  /** The out-of-sync test; the invariant of TxRuns shows that it never finds anything. */
  function Resynced(cur: nat, dirty: nat, word: int): nat
    requires word > 0
  {
    if Wrap(cur - dirty, word) > NUM_TX_DESC then Wrap(dirty + NUM_TX_DESC, word) else dirty
  }

  // ---------------------------------------------------------------------------------------------
  // The driver
  // ---------------------------------------------------------------------------------------------

  class Private {
    const word: int
    var curTx: nat
    var dirtyTx: nat
    var txFlag: bv32
    const txBufs: array<byte>       // four slots of TX_BUF_SIZE bytes
    const txStatus: array<bv32>     // TxStatus0..3, written by the driver and by the chip
    var stopped: bool
    var stats: Stats
    var dropped: nat

    ghost predicate Valid()
      reads this
    {
      && IsWord(word)
      && curTx < word && dirtyTx < word
      && txBufs.Length == TX_BUF_SIZE * NUM_TX_DESC && txStatus.Length == NUM_TX_DESC
    }

    ghost function Slot(i: nat): seq<byte>
      requires txBufs.Length == TX_BUF_SIZE * NUM_TX_DESC && i < NUM_TX_DESC
      reads txBufs
    {
      txBufs[TX_BUF_SIZE * i..TX_BUF_SIZE * (i + 1)]
    }

    ghost function Value(): (r: Ring)
      requires Valid()
      reads this, txBufs, txStatus
      ensures RingOk(r, word)
    {
      Ring(curTx, dirtyTx, txStatus[..], [Slot(0), Slot(1), Slot(2), Slot(3)], stopped,
                Account(stats, txFlag), dropped)
    }

    /** memset and skb_copy_and_csum_dev into one slot */
    method Fill(entry: nat, skb: Frame)
      requires Valid() && entry < NUM_TX_DESC && |skb| < TX_BUF_SIZE
      modifies txBufs
      ensures Slot(entry) == Padded(skb) + old(Slot(entry))[|Padded(skb)|..]
      ensures forall e :: 0 <= e < NUM_TX_DESC && e != entry ==> Slot(e) == old(Slot(e))
    {
      hide Padded, IsWord;
      PaddedIs(skb);
      var at := TX_BUF_SIZE * entry;
      if |skb| < ETH_ZLEN {
        forall i | at <= i < at + ETH_ZLEN {
          txBufs[i] := 0;
        }
      }
      forall i | at <= i < at + |skb| {
        txBufs[i] := skb[i - at];
      }
      assert forall k :: 0 <= k < TX_BUF_SIZE ==> Slot(entry)[k] == txBufs[at + k];
      assert Slot(entry)[..|Padded(skb)|] == Padded(skb);
      assert Slot(entry)[|Padded(skb)|..] == old(Slot(entry))[|Padded(skb)|..];
    }

    /** rtl8139_start_xmit up to tp->lock; true when the frame goes on to the second half. */
    method Stage(skb: Frame) returns (staged: bool)
      requires Valid()
      modifies txBufs, `dropped
      ensures Valid() && staged == (|skb| < TX_BUF_SIZE)
      ensures Value() == if staged then Staged(old(Value()), word, skb)
                         else old(Value()).(dropped := old(dropped) + 1)
    {
      hide Padded, Slot, IsWord;
      if |skb| < TX_BUF_SIZE {
        Fill(curTx % NUM_TX_DESC, skb);
        staged := true;
      } else {
        dropped := dropped + 1;
        staged := false;
      }
    }

    /** The part of rtl8139_start_xmit under tp->lock. */
    method Commit(len: nat)
      requires Valid() && len < TX_BUF_SIZE
      modifies txStatus, `curTx, `stopped
      ensures Valid() && Value() == Committed(old(Value()), word, len)
    {
      hide Slot, IsWord, Wrap, Size, Command;
      var entry := curTx % NUM_TX_DESC;
      txStatus[entry] := Command(txFlag, Size(len));
      curTx := Wrap(curTx + 1, word);
      if Wrap(curTx - NUM_TX_DESC, word) == dirtyTx {
        stopped := true;
      }
    }

    /** The statistics of one finished slot, and the FIFO threshold raised after an underrun */
    method Log(txstatus: bv32)
      modifies `txFlag, `stats
      ensures Account(stats, txFlag) == Charge(old(Account(stats, txFlag)), txstatus)
    {
      hide Failed, Has, Raised, Collisions, Bytes;
      var s := stats;
      if Failed(txstatus) {
        s := s.(errors := s.errors + 1);
        if Has(txstatus, TX_ABORTED) {
          s := s.(aborted := s.aborted + 1);
        }
        if Has(txstatus, TX_CARRIER_LOST) {
          s := s.(carrier := s.carrier + 1);
        }
        if Has(txstatus, TX_OUT_OF_WINDOW) {
          s := s.(window := s.window + 1);
        }
      } else {
        if Has(txstatus, TX_UNDERRUN) {
          txFlag := Raised(txFlag);
          s := s.(fifo := s.fifo + 1);
        }
        s := s.(collisions := s.collisions + Collisions(txstatus),
                        packets := s.packets + 1,
                        bytes := s.bytes + Bytes(txstatus));
      }
      stats := s;
    }

    method TxInterrupt()
      requires Valid()
      modifies `dirtyTx, `txFlag, `stats, `stopped
      ensures Valid() && Value() == Reclaimed(old(Value()), word)
    {
      hide ChargeAll, Charge, Finished, Slot, Sent, IsWord, Wrap, Taken;
      var dirty := dirtyTx;
      var txLeft := Wrap(curTx - dirty, word);
      ghost var left, n := txLeft, 0;
      WrapSmall(dirtyTx, word);
      ghost var before := old(Account(stats, txFlag));
      ghost var status := old(txStatus[..]);
      ChargeNone(before, status, dirtyTx);
      while txLeft > 0
        invariant Valid() && dirtyTx == old(dirtyTx) && stopped == old(stopped)
        invariant 0 <= n <= left && txLeft == left - n
        invariant dirty == Wrap(dirtyTx + n, word)
        invariant forall k :: 0 <= k < n ==> Sent(StatusAt(status, dirtyTx, k))
        invariant Account(stats, txFlag) == ChargeAll(before, Taken(status, dirtyTx, n))
      {
        var entry := dirty % NUM_TX_DESC;
        WrapSteps(dirtyTx + n, word);
        var txstatus := txStatus[entry];
        if !Sent(txstatus) {
          break;
        }
        ChargeMore(before, status, dirtyTx, n);
        Log(txstatus);
        WrapSteps(dirtyTx + n, word);
        dirty := Wrap(dirty + 1, word);
        txLeft := txLeft - 1;
        n := n + 1;
      }
      FinishedIs(status, dirtyTx, left, n);
      dirty := Resynced(curTx, dirty, word);
      if dirtyTx != dirty {
        dirtyTx := dirty;
        stopped := false;
      }
    }
  }

  lemma ChargeNone(a: Account, status: seq<bv32>, dirty: nat)
    requires |status| == NUM_TX_DESC
    ensures ChargeAll(a, Taken(status, dirty, 0)) == a
  {
    assert Taken(status, dirty, 0) == [];
  }

  lemma ChargeMore(a: Account, status: seq<bv32>, dirty: nat, n: nat)
    requires |status| == NUM_TX_DESC
    ensures ChargeAll(a, Taken(status, dirty, n + 1))
         == Charge(ChargeAll(a, Taken(status, dirty, n)), StatusAt(status, dirty, n))
  {
    assert Taken(status, dirty, n + 1)[..n] == Taken(status, dirty, n);
  }

  /** The contract of Finished pins it down. */
  lemma FinishedIs(status: seq<bv32>, dirty: nat, left: nat, n: nat)
    requires |status| == NUM_TX_DESC && n <= left
    requires forall k :: 0 <= k < n ==> Sent(StatusAt(status, dirty, k))
    requires n < left ==> !Sent(StatusAt(status, dirty, n))
    ensures Finished(status, dirty, left) == n
  {
  }
}
