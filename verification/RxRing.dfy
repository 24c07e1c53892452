/**
 rtl8139_rx, wrap_copy and rtl8139_rx_err (net/realtek/8139too.c) over the bytes the chip left in the
 receive ring. Every ring size the driver can be built for is covered: the three padded ones, where
 the chip writes a packet past the end of the ring, and the 64K one, where it wraps inside a packet.
*/
module RxRing {
  import opened Common

  const MAX_ETH_FRAME_SIZE: nat := 1792
  const RX_BUF_PAD: nat := 16
  const RX_BUF_WRAP_PAD: nat := 2048
  const U16: nat := 0x1_0000
  const U32: nat := 0x1_0000_0000

  const RX_STATUS_OK: nat := 0x01
  const RX_BAD_ALIGN: nat := 0x02
  const RX_CRC_ERR: nat := 0x04
  const RX_TOO_LONG: nat := 0x08
  const RX_RUNT: nat := 0x10
  const RX_BAD_SYMBOL: nat := 0x20

  // bits of IntrStatus
  const RX_OVERFLOW: nat := 0x10
  const RX_FIFO_OVER: nat := 0x40

  /** RX_BUF_LEN for RX_BUF_IDX 0 to 3 */
  predicate IsLen(len: nat) {
    len == 0x2000 || len == 0x4000 || len == 0x8000 || len == 0x1_0000
  }

  function Total(len: nat): nat {
    if len == 0x1_0000 then len else len + RX_BUF_PAD + RX_BUF_WRAP_PAD
  }

  /** Where the byte at an offset from the start of the ring lies, for a packet running past the end */
  function Index(len: nat, off: nat): nat {
    if len == 0x1_0000 then off % 0x1_0000 else off
  }

  datatype Config = Config(len: nat, rxAll: bool, rxFcs: bool)

  /** dev->stats, tp->xstats and tp->rx_stats, without their wrap-around */
  datatype Stats = Stats(errors: nat, frame: nat, length: nat, crc: nat, fifo: nat, dropped: nat,
                         lost: nat, early: nat, packets: nat, bytes: nat)

  /** cur_rx, fifo_copy_timeout, RxBufPtr, the counters, the packets given to netif_receive_skb, and
      how often the receiver was restarted */
  datatype Rx = Rx(cur: nat, timeout: nat, ptr: nat, stats: Stats, delivered: seq<seq<byte>>, resets: nat)

  /** What one turn of the loop finds around it: netif_running, the RxBufEmpty bit, the clock, whether an
      skb can be had, and IntrStatus as rtl8139_isr_ack reads it behind the packet. */
  datatype Look = Look(running: bool, empty: bool, jiffies: nat, memory: bool, intr: nat)

  predicate Bit(v: nat, bit: nat)
    requires bit > 0
  {
    v / bit % 2 == 1
  }

  // ---------------------------------------------------------------------------------------------
  // One packet
  // ---------------------------------------------------------------------------------------------

  function Le32(b0: byte, b1: byte, b2: byte, b3: byte): (v: nat)
    ensures v < U32
  {
    b0 + 0x100 * b1 + 0x1_0000 * b2 + 0x100_0000 * b3
  }

  function HeaderAt(ring: seq<byte>, at: nat): nat
    requires at + 4 <= |ring|
  {
    Le32(ring[at], ring[at + 1], ring[at + 2], ring[at + 3])
  }

  function Payload(ring: seq<byte>, len: nat, off: nat, n: nat): (p: seq<byte>)
    requires IsLen(len) && |ring| == Total(len)
    requires off <= len && n <= MAX_ETH_FRAME_SIZE + 4
    ensures |p| == n
  {
    seq(n, i requires 0 <= i < n => ring[Index(len, off + i)])
  }

  /** rx_size is within the limits of the driver */
  predicate SizeOk(size: nat) {
    8 <= size <= MAX_ETH_FRAME_SIZE + 4
  }

  function After(t: nat, jiffies: nat): bool {
    (t - jiffies) % U32 >= U32 / 2
  }

  /** cur_rx behind a packet */
  function Behind(cur: nat, size: nat): nat {
    var end := (cur + size + 4 + 3) % U32;
    end - end % 4
  }

  function BufPtr(cur: nat): nat {
    (cur - 16) % U16
  }

  function ResetRx(rx: Rx, status: nat): Rx {
    var s := rx.stats;
    var s1 := s.(errors := s.errors + 1);
    var s2 :=
      if Bit(status, RX_STATUS_OK) then s1.(lost := s1.lost + 1)
      else
        s1.(frame := s1.frame + if Bit(status, RX_BAD_SYMBOL) || Bit(status, RX_BAD_ALIGN) then 1 else 0,
            length := s1.length + if Bit(status, RX_RUNT) || Bit(status, RX_TOO_LONG) then 1 else 0,
            crc := s1.crc + if Bit(status, RX_CRC_ERR) then 1 else 0);
    rx.(cur := 0, stats := s2, resets := rx.resets + 1)
  }

  /** What the length and the status of a packet make of it; RXALL keeps some bad ones. */
  datatype Verdict = Keep(stats: Stats) | Drop(stats: Stats)

  function Judge(c: Config, s: Stats, status: nat, size: nat): Verdict {
    if SizeOk(size) && Bit(status, RX_STATUS_OK) then Keep(s)
    else if c.rxAll && SizeOk(size) then
      var s1 := s.(errors := s.errors + 1);
      if Bit(status, RX_CRC_ERR) then Keep(s1.(crc := s1.crc + 1))
      else if Bit(status, RX_RUNT) then Keep(s1.(length := s1.length + 1))
      else Drop(s1)
    else Drop(s)
  }

  lemma KeptSizes(c: Config, s: Stats)
    ensures forall status: nat, size: nat :: Judge(c, s, status, size).Keep? ==> SizeOk(size)
  {
  }

  function PktSize(c: Config, size: nat): nat
    requires SizeOk(size)
  {
    if c.rxFcs then size else size - 4
  }

  function Received(rx: Rx, data: seq<byte>, size: nat, memory: bool): Rx {
    var s := rx.stats;
    var cur := Behind(rx.cur, size);
    rx.(cur := cur, ptr := BufPtr(cur),
        stats := if memory then s.(packets := s.packets + 1, bytes := s.bytes + |data|)
                 else s.(dropped := s.dropped + 1),
        delivered := rx.delivered + if memory then [data] else [])
  }

  /** The chip had no room for a packet. */
  predicate Overrun(intr: nat) {
    Bit(intr, RX_FIFO_OVER) || Bit(intr, RX_OVERFLOW)
  }

  /** rtl8139_isr_ack */
  function Acked(rx: Rx, intr: nat): Rx {
    var s := rx.stats;
    rx.(stats := s.(errors := s.errors + Num(Overrun(intr)), fifo := s.fifo + Num(Bit(intr, RX_FIFO_OVER))))
  }

  // ---------------------------------------------------------------------------------------------
  // The loop
  // ---------------------------------------------------------------------------------------------

  /** The outcome of one turn: the packet is still being written, the receiver was restarted, or the
      packet was consumed. */
  datatype Turn = Busy(rx: Rx) | Restarted(rx: Rx) | Consumed(rx: Rx)

  ghost predicate RingOk(c: Config, ring: seq<byte>, rx: Rx) {
    IsLen(c.len) && |ring| == Total(c.len) && rx.cur < U32 && rx.cur % 4 == 0
  }

  lemma OffsetFits8K(cur: nat)
    requires cur % 4 == 0
    ensures cur % 0x2000 + 4 <= 0x2000 && cur % 0x2000 % 4 == 0
  {
  }

  lemma OffsetFits16K(cur: nat)
    requires cur % 4 == 0
    ensures cur % 0x4000 + 4 <= 0x4000 && cur % 0x4000 % 4 == 0
  {
  }

  lemma OffsetFits32K(cur: nat)
    requires cur % 4 == 0
    ensures cur % 0x8000 + 4 <= 0x8000 && cur % 0x8000 % 4 == 0
  {
  }

  lemma OffsetFits64K(cur: nat)
    requires cur % 4 == 0
    ensures cur % 0x1_0000 + 4 <= 0x1_0000 && cur % 0x1_0000 % 4 == 0
  {
  }

  /** The ring offset of cur_rx leaves room for a header. */
  lemma OffsetFits(cur: nat, len: nat)
    requires IsLen(len) && cur % 4 == 0
    ensures cur % len + 4 <= len && cur % len % 4 == 0
  {
    OffsetFits8K(cur);
    OffsetFits16K(cur);
    OffsetFits32K(cur);
    OffsetFits64K(cur);
    if len == 0x2000 {
    } else if len == 0x4000 {
    } else if len == 0x8000 {
    } else {
    }
  }

  function Offset(c: Config, cur: nat): (at: nat)
    requires IsLen(c.len) && cur % 4 == 0
    ensures at + 4 <= c.len && at % 4 == 0
  {
    OffsetFits(cur, c.len);
    cur % c.len
  }

  ghost function TakeTurn(c: Config, ring: seq<byte>, look: Look, rx: Rx): (t: Turn)
    requires RingOk(c, ring, rx)
    ensures RingOk(c, ring, t.rx)
  {
    hide Behind, Payload, BufPtr, Le32, Bit, After, Overrun;
    var at := Offset(c, rx.cur);
    var status := HeaderAt(ring, at);
    var size := status / U16;
    if size == 0xfff0 && (rx.timeout == 0 || !After(rx.timeout, look.jiffies)) then
      Busy(rx.(timeout := if rx.timeout == 0 then (look.jiffies + 2) % U32 else rx.timeout,
               stats := rx.stats.(early := rx.stats.early + 1)))
    else
      var rx1 := rx.(timeout := 0);
      match Judge(c, rx.stats, status, if size == 0xfff0 then 0 else size)
      case Drop(s) => Restarted(ResetRx(rx1.(stats := s), status))
      case Keep(s) =>
        BehindIsAligned(rx.cur, size);
        var data := Payload(ring, c.len, at + 4, PktSize(c, size));
        Consumed(Acked(Received(rx1.(stats := s), data, size, look.memory), look.intr))
  }

  ghost predicate GoesOn(looks: seq<Look>, received: nat, budget: nat) {
    looks != [] && looks[0].running && !looks[0].empty && received < budget
  }

  /** Behind the loop: one more acknowledge when nothing was received or the last packet is still being
      written. */
  function Finished(rx: Rx, ack: bool, intr: nat, budget: nat, received: nat): (Rx, int) {
    (if ack then Acked(rx, intr) else rx, if rx.timeout != 0 then budget else received)
  }

  /** The state and the result of rtl8139_rx; `last` is IntrStatus behind the loop. */
  ghost function Drain(c: Config, ring: seq<byte>, rx: Rx, looks: seq<Look>, last: nat,
                       budget: nat, received: nat): (Rx, int)
    requires RingOk(c, ring, rx)
    decreases |looks|
  {
    if !GoesOn(looks, received, budget) then Finished(rx, received == 0, last, budget, received)
    else
      match TakeTurn(c, ring, looks[0], rx)
      case Busy(rx1) => Finished(rx1, true, last, budget, received)
      case Restarted(rx1) => (rx1, -1)
      case Consumed(rx1) => Drain(c, ring, rx1, looks[1..], last, budget, received + 1)
  }

  // ---------------------------------------------------------------------------------------------
  // The driver
  // ---------------------------------------------------------------------------------------------

  /** A restart is one receive error; it puts the blame on the ring exactly when the status was fine, and
      loses no packet already handed up. */
  lemma RestartIsCounted(rx: Rx, status: nat)
    ensures var r := ResetRx(rx, status);
      && r.cur == 0 && r.resets == rx.resets + 1 && r.delivered == rx.delivered
      && r.stats.errors == rx.stats.errors + 1
      && (r.stats.lost == rx.stats.lost + 1 <==> Bit(status, RX_STATUS_OK))
      && (Bit(status, RX_STATUS_OK) ==> r.stats.frame == rx.stats.frame && r.stats.length == rx.stats.length
                                        && r.stats.crc == rx.stats.crc)
      && (!Bit(status, RX_STATUS_OK) && r.stats.frame == rx.stats.frame && r.stats.length == rx.stats.length
          && r.stats.crc == rx.stats.crc ==>
            forall bit :: bit in {RX_BAD_SYMBOL, RX_BAD_ALIGN, RX_RUNT, RX_TOO_LONG, RX_CRC_ERR} ==> !Bit(status, bit))
  {
  }

  lemma ResetForgetsCur(rx: Rx, cur: nat, status: nat)
    ensures ResetRx(rx.(cur := cur), status) == ResetRx(rx, status)
  {
  }

  lemma AckKeepsCur(rx: Rx, cur: nat, intr: nat)
    ensures Acked(rx.(cur := cur), intr) == Acked(rx, intr).(cur := cur)
  {
  }

  datatype Control = Continue | Break | Out

  lemma BehindIsAligned(cur: nat, size: nat)
    ensures Behind(cur, size) % 4 == 0 && Behind(cur, size) < U32
  {
  }

  class Private {
    const bufLen: nat
    const rxAll: bool
    const rxFcs: bool
    const rxRing: array<byte>
    var curRx: nat
    var fifoCopyTimeout: nat
    var rxBufPtr: nat
    var stats: Stats
    ghost var delivered: seq<seq<byte>>
    ghost var resets: nat

    ghost predicate Valid()
      reads this
    {
      IsLen(bufLen) && rxRing.Length == Total(bufLen) && curRx < U32 && curRx % 4 == 0
    }

    function Cfg(): Config
      reads this
    {
      Config(bufLen, rxAll, rxFcs)
    }

    ghost function Value(): Rx
      reads this
    {
      Rx.Rx(curRx, fifoCopyTimeout, rxBufPtr, stats, delivered, resets)
    }

    /** wrap_copy for the 64K ring, one memcpy for the others */
    method CopyOut(offset: nat, size: nat) returns (data: seq<byte>)
      requires Valid() && offset <= bufLen && size <= MAX_ETH_FRAME_SIZE + 4
      ensures data == Payload(rxRing[..], bufLen, offset, size)
    {
      var skb := new byte[size](_ => 0);
      if bufLen == 0x1_0000 {
        var left := bufLen - offset;
        if size > left {
          forall i | 0 <= i < left {
            skb[i] := rxRing[offset + i];
          }
          forall i | left <= i < size {
            skb[i] := rxRing[i - left];
          }
        } else {
          forall i | 0 <= i < size {
            skb[i] := rxRing[offset + i];
          }
        }
      } else {
        forall i | 0 <= i < size {
          skb[i] := rxRing[offset + i];
        }
      }
      assert forall i :: 0 <= i < size ==> skb[i] == rxRing[Index(bufLen, offset + i)];
      data := skb[..];
    }

    method RxErr(status: nat)
      requires Valid()
      modifies this
      ensures Valid() && Value() == ResetRx(old(Value()), status)
    {
      hide Bit;
      var s := stats.(errors := stats.errors + 1);
      if !Bit(status, RX_STATUS_OK) {
        if Bit(status, RX_BAD_SYMBOL) || Bit(status, RX_BAD_ALIGN) {
          s := s.(frame := s.frame + 1);
        }
        if Bit(status, RX_RUNT) || Bit(status, RX_TOO_LONG) {
          s := s.(length := s.length + 1);
        }
        if Bit(status, RX_CRC_ERR) {
          s := s.(crc := s.crc + 1);
        }
      } else {
        s := s.(lost := s.lost + 1);
      }
      stats := s;
      curRx := 0;
      resets := resets + 1;
    }

    /** The copy of one packet out of the ring, or its drop */
    method Deliver(offset: nat, pktSize: nat, memory: bool)
      requires Valid() && offset <= bufLen && pktSize <= MAX_ETH_FRAME_SIZE + 4
      modifies `stats, `delivered
      ensures var data := Payload(rxRing[..], bufLen, offset, pktSize);
        && stats == (if memory then old(stats).(packets := old(stats).packets + 1, bytes := old(stats).bytes + pktSize)
                     else old(stats).(dropped := old(stats).dropped + 1))
        && delivered == old(delivered) + if memory then [data] else []
    {
      if memory {
        var skb := CopyOut(offset, pktSize);
        stats := stats.(packets := stats.packets + 1, bytes := stats.bytes + pktSize);
        delivered := delivered + [skb];
      } else {
        stats := stats.(dropped := stats.dropped + 1);
      }
    }

    /** rtl8139_isr_ack */
    method IsrAck(intrStatus: nat)
      modifies `stats
      ensures Value() == Acked(old(Value()), intrStatus)
    {
      hide Bit;
      if Bit(intrStatus, RX_FIFO_OVER) || Bit(intrStatus, RX_OVERFLOW) {
        stats := stats.(errors := stats.errors + 1);
        if Bit(intrStatus, RX_FIFO_OVER) {
          stats := stats.(fifo := stats.fifo + 1);
        }
      }
    }

    /** The test of length and status, and with RXALL the second look at a bad packet */
    method Examine(rxStatus: nat, rxSize: nat) returns (keep: bool)
      modifies `stats
      ensures Judge(Cfg(), old(stats), rxStatus, rxSize) == if keep then Keep(stats) else Drop(stats)
    {
      hide Bit;
      keep := true;
      if rxSize > MAX_ETH_FRAME_SIZE + 4 || rxSize < 8 || !Bit(rxStatus, RX_STATUS_OK) {
        keep := false;
        if rxAll && rxSize <= MAX_ETH_FRAME_SIZE + 4 && rxSize >= 8 && !Bit(rxStatus, RX_STATUS_OK) {
          stats := stats.(errors := stats.errors + 1);
          if Bit(rxStatus, RX_CRC_ERR) {
            stats := stats.(crc := stats.crc + 1);
            keep := true;
          } else if Bit(rxStatus, RX_RUNT) {
            stats := stats.(length := stats.length + 1);
            keep := true;
          }
        }
      }
    }

    /** The body of the loop of rtl8139_rx, on its local cur_rx */
    method OneTurn(look: Look, curRx0: nat, received0: nat) returns (received: int, cur: nat, next: Control)
      requires Valid() && RingOk(Cfg(), rxRing[..], Value().(cur := curRx0))
      modifies this
      ensures Valid() && cur < U32 && cur % 4 == 0
      ensures match TakeTurn(old(Cfg()), rxRing[..], look, old(Value()).(cur := curRx0))
              case Busy(rx) => next == Break && received == received0 && Value().(cur := cur) == rx
              case Restarted(rx) => next == Out && received == -1 && Value() == rx
              case Consumed(rx) => next == Continue && received == received0 + 1 && Value().(cur := cur) == rx
    {
      hide Payload, Bit, After, Behind, BufPtr, IsLen, Le32, ResetRx, Overrun, Acked, Judge;
      KeptSizes(Cfg(), stats);
      received, cur := received0, curRx0;
      var ringOffset := Offset(Cfg(), cur);
      var rxStatus := Le32(rxRing[ringOffset], rxRing[ringOffset + 1], rxRing[ringOffset + 2], rxRing[ringOffset + 3]);
      assert rxStatus == HeaderAt(rxRing[..], ringOffset);
      var rxSize := rxStatus / U16;
      if rxSize == 0xfff0 {
        if fifoCopyTimeout == 0 {
          fifoCopyTimeout := (look.jiffies + 2) % U32;
        } else if After(fifoCopyTimeout, look.jiffies) {
          rxSize := 0;
        }
        if rxSize != 0 {
          stats := stats.(early := stats.early + 1);
          return received, cur, Break;
        }
      }
      fifoCopyTimeout := 0;
      var keep := Examine(rxStatus, rxSize);
      if !keep {
        ResetForgetsCur(Value(), curRx0, rxStatus);
        RxErr(rxStatus);
        return -1, cur, Out;
      }
      Deliver(ringOffset + 4, PktSize(Cfg(), rxSize), look.memory);
      received := received + 1;
      cur := Behind(cur, rxSize);
      rxBufPtr := BufPtr(cur);
      BehindIsAligned(curRx0, rxSize);
      AckKeepsCur(Value(), cur, look.intr);
      IsrAck(look.intr);
      next := Continue;
    }

    method Poll(budget: nat, looks: seq<Look>, last: nat) returns (received: int)
      requires Valid()
      modifies this
      ensures Valid()
      ensures (Value(), received) == Drain(old(Cfg()), rxRing[..], old(Value()), looks, last, budget, 0)
    {
      hide Payload, Bit, After, Behind, BufPtr, IsLen, Le32, ResetRx, TakeTurn, Overrun;
      var count: nat := 0;
      var cur: nat := curRx;
      var busy := false;
      var i := 0;
      ghost var ring := rxRing[..];
      ghost var goal := Drain(Cfg(), ring, Value(), looks, last, budget, 0);
      while i < |looks| && looks[i].running && count < budget && !looks[i].empty
        invariant Valid() && 0 <= i <= |looks| && !busy
        invariant cur < U32 && cur % 4 == 0
        invariant Drain(Cfg(), ring, Value().(cur := cur), looks[i..], last, budget, count) == goal
        decreases |looks| - i
      {
        ghost var rx := Value().(cur := cur);
        assert looks[i..][0] == looks[i] && looks[i..][1..] == looks[i + 1..];
        assert GoesOn(looks[i..], count, budget);
        var turn;
        received, cur, turn := OneTurn(looks[i], cur, count);
        if turn.Break? {
          busy := true;
          break;
        } else if turn.Out? {
          return;
        }
        count := received;
        i := i + 1;
      }
      if count == 0 || busy {
        IsrAck(last);
      }
      curRx := cur;
      received := if fifoCopyTimeout != 0 then budget else count;
    }
  }
}
