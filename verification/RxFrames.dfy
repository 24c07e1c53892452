/**
 What rtl8139_rx makes of a ring in which the chip laid out packets one behind the other: header,
 data with its CRC, padding to a multiple of four, the write position wrapping at the ring's end.
*/
module RxFrames {
  import opened Common
  import opened RxRing

  /** A packet as the chip sees it: the low half of its status word, the frame, and its CRC */
  datatype Packet = Packet(status: nat, frame: seq<byte>, crc: seq<byte>)

  /** A packet received without error, of at least eight and at most 1796 bytes with its CRC */
  ghost predicate Good(p: Packet) {
    p.status < U16 && p.status % 2 == 1 && |p.crc| == 4 && 4 <= |p.frame| <= 1792
  }

  function Data(p: Packet): seq<byte> {
    p.frame + p.crc
  }

  /** The chip's next write position */
  function NextPos(len: nat, pos: nat, size: nat): (p: nat)
    requires len > 0
  {
    (pos + 4 + (size + 3) / 4 * 4) % len
  }

  /** The chip writes status and size, each in two bytes, least significant first, and the data behind
      them: around the end of the 64K ring, past the end of the others. */
  ghost predicate PacketAt(ring: seq<byte>, len: nat, pos: nat, p: Packet)
    requires IsLen(len) && |ring| == Total(len) && pos + 4 <= len && Good(p)
  {
    var size := |p.frame| + 4;
    && ring[pos..pos + 4] == [p.status % 0x100, p.status / 0x100, size % 0x100, size / 0x100]
    && forall i :: 0 <= i < size ==>
      ring[if len == 0x1_0000 then (pos + 4 + i) % 0x1_0000 else pos + 4 + i] == Data(p)[i]
  }

  /** Where the chip goes on behind the packets */
  function EndPos(len: nat, pos: nat, packets: seq<Packet>): nat
    requires len > 0
    decreases |packets|
  {
    if packets == [] then pos else EndPos(len, NextPos(len, pos, |Data(packets[0])|), packets[1..])
  }

  ghost predicate Laid(ring: seq<byte>, len: nat, pos: nat, packets: seq<Packet>)
    requires IsLen(len) && |ring| == Total(len)
    decreases |packets|
  {
    packets != [] ==>
      && pos % 4 == 0 && pos < len && pos + 4 <= len && Good(packets[0])
      && PacketAt(ring, len, pos, packets[0])
      && Laid(ring, len, NextPos(len, pos, |Data(packets[0])|), packets[1..])
  }

  lemma ModOfWord8K(a: nat)
    ensures a % U32 % 0x2000 == a % 0x2000
  {
  }

  lemma ModOfWord16K(a: nat)
    ensures a % U32 % 0x4000 == a % 0x4000
  {
  }

  lemma ModOfWord32K(a: nat)
    ensures a % U32 % 0x8000 == a % 0x8000
  {
  }

  lemma ModOfWord64K(a: nat)
    ensures a % U32 % 0x1_0000 == a % 0x1_0000
  {
  }

  lemma ModOfWord(a: nat, len: nat)
    requires IsLen(len)
    ensures a % U32 % len == a % len
  {
    ModOfWord8K(a);
    ModOfWord16K(a);
    ModOfWord32K(a);
    ModOfWord64K(a);
    if len == 0x2000 {
    } else if len == 0x4000 {
    } else if len == 0x8000 {
    } else {
    }
  }

  lemma ModOfSum8K(a: nat, b: nat)
    ensures (a % 0x2000 + b) % 0x2000 == (a + b) % 0x2000
  {
  }

  lemma ModOfSum16K(a: nat, b: nat)
    ensures (a % 0x4000 + b) % 0x4000 == (a + b) % 0x4000
  {
  }

  lemma ModOfSum32K(a: nat, b: nat)
    ensures (a % 0x8000 + b) % 0x8000 == (a + b) % 0x8000
  {
  }

  lemma ModOfSum64K(a: nat, b: nat)
    ensures (a % 0x1_0000 + b) % 0x1_0000 == (a + b) % 0x1_0000
  {
  }

  lemma ModOfSum(a: nat, b: nat, len: nat)
    requires IsLen(len)
    ensures (a % len + b) % len == (a + b) % len
  {
    ModOfSum8K(a, b);
    ModOfSum16K(a, b);
    ModOfSum32K(a, b);
    ModOfSum64K(a, b);
    if len == 0x2000 {
    } else if len == 0x4000 {
    } else if len == 0x8000 {
    } else {
    }
  }

  /** Rounding after the wrap is rounding before it. */
  lemma BehindIs(cur: nat, size: nat)
    requires cur % 4 == 0
    ensures Behind(cur, size) == (cur + 4 + (size + 3) / 4 * 4) % U32
  {
    var end := cur + size + 7;
    assert end - end % 4 == cur + 4 + (size + 3) / 4 * 4;
    RoundThenWrap(end);
  }

  lemma RoundThenWrap(e: nat)
    ensures e % U32 - e % U32 % 4 == (e - e % 4) % U32
  {
    var r := e % U32;
    WordKeepsLowBits(e);
    assert (e - e % 4) - (r - r % 4) == e / U32 * U32;
  }

  lemma WordKeepsLowBits(e: nat)
    ensures e % U32 % 4 == e % 4
  {
  }

  /** The 32-bit cur_rx follows the chip's position around the ring, also where cur_rx wraps. */
  lemma CursorFollowsChip(len: nat, cur: nat, size: nat)
    requires IsLen(len) && cur % 4 == 0
    ensures Behind(cur, size) % len == NextPos(len, cur % len, size)
    ensures Behind(cur, size) % 4 == 0 && Behind(cur, size) < U32
  {
    hide IsLen, Behind;
    var step := 4 + (size + 3) / 4 * 4;
    BehindIs(cur, size);
    BehindIsAligned(cur, size);
    ModOfWord(cur + step, len);
    ModOfSum(cur, step, len);
  }

  /** RxBufPtr is sixteen bytes behind cur_rx in the ring. */
  lemma PointerTrailsCursor(len: nat, cur: nat)
    requires IsLen(len) && cur < U32
    ensures (BufPtr(cur) + 16) % len == cur % len
  {
    if len == 0x2000 {
      assert (BufPtr(cur) + 16) % 0x2000 == cur % 0x2000;
    } else if len == 0x4000 {
      assert (BufPtr(cur) + 16) % 0x4000 == cur % 0x4000;
    } else if len == 0x8000 {
      assert (BufPtr(cur) + 16) % 0x8000 == cur % 0x8000;
    } else {
      assert (BufPtr(cur) + 16) % 0x1_0000 == cur % 0x1_0000;
    }
  }

  /** wrap_copy is a copy modulo the ring size, and the padded rings hold every packet in one piece. */
  lemma EveryByteIsInTheRing(len: nat, off: nat, i: nat)
    requires IsLen(len) && off <= len && i < MAX_ETH_FRAME_SIZE + 4
    ensures Index(len, off + i) < Total(len)
    ensures Total(len) == len ==> Index(len, off + i) == (off + i) % len
    ensures Total(len) != len ==> Index(len, off + i) == off + i
  {
  }

  // ---------------------------------------------------------------------------------------------
  // Delivery
  // ---------------------------------------------------------------------------------------------

  /** The bytes handed up: without the CRC, unless RXFCS asks for it */
  ghost function Contents(c: Config, p: Packet): seq<byte> {
    if c.rxFcs then p.frame + p.crc else p.frame
  }

  /** One look per turn the loop makes: the loop goes on while there is a packet. */
  ghost predicate Going(looks: seq<Look>) {
    forall i :: 0 <= i < |looks| ==> looks[i].running && !looks[i].empty
  }

  /** The packets for which an skb could be had, in order */
  ghost function Handed(c: Config, packets: seq<Packet>, looks: seq<Look>): seq<seq<byte>>
    requires |packets| == |looks|
  {
    if packets == [] then []
    else (if looks[0].memory then [Contents(c, packets[0])] else []) + Handed(c, packets[1..], looks[1..])
  }

  ghost function Bytes(frames: seq<seq<byte>>): nat {
    if frames == [] then 0 else |frames[0]| + Bytes(frames[1..])
  }

  ghost function Missed(looks: seq<Look>): nat {
    if looks == [] then 0 else (if looks[0].memory then 0 else 1) + Missed(looks[1..])
  }

  /** RxFIFOOver and RxOverflow are bits 6 and 4 of IntrStatus. */
  predicate ShowsFifoOver(intr: nat) {
    intr / 64 % 2 == 1
  }

  predicate ShowsOverrun(intr: nat) {
    ShowsFifoOver(intr) || intr / 16 % 2 == 1
  }

  lemma AckShows(intr: nat)
    ensures Overrun(intr) <==> ShowsOverrun(intr)
    ensures Bit(intr, RX_FIFO_OVER) <==> ShowsFifoOver(intr)
  {
  }

  /** How many of these acknowledges found an overrun, and how many of those in the FIFO */
  ghost function Overruns(looks: seq<Look>): nat {
    if looks == [] then 0 else Num(ShowsOverrun(looks[0].intr)) + Overruns(looks[1..])
  }

  ghost function FifoOverruns(looks: seq<Look>): nat {
    if looks == [] then 0 else Num(ShowsFifoOver(looks[0].intr)) + FifoOverruns(looks[1..])
  }

  lemma PayloadPrefix(ring: seq<byte>, len: nat, off: nat, n: nat, k: nat)
    requires IsLen(len) && |ring| == Total(len) && off <= len && k <= n <= MAX_ETH_FRAME_SIZE + 4
    ensures Payload(ring, len, off, k) == Payload(ring, len, off, n)[..k]
  {
  }

  lemma HeaderIs(ring: seq<byte>, len: nat, pos: nat, p: Packet)
    requires IsLen(len) && |ring| == Total(len) && pos + 4 <= len && Good(p) && PacketAt(ring, len, pos, p)
    ensures HeaderAt(ring, pos) == p.status + U16 * (|p.frame| + 4)
  {
    var h := ring[pos..pos + 4];
    assert h[0] == ring[pos] && h[1] == ring[pos + 1] && h[2] == ring[pos + 2] && h[3] == ring[pos + 3];
  }

  lemma PayloadIs(ring: seq<byte>, len: nat, pos: nat, p: Packet)
    requires IsLen(len) && |ring| == Total(len) && pos + 4 <= len && Good(p) && PacketAt(ring, len, pos, p)
    ensures Payload(ring, len, pos + 4, |p.frame| + 4) == Data(p)
  {
    var size := |p.frame| + 4;
    var data := Payload(ring, len, pos + 4, size);
    forall i | 0 <= i < size
      ensures data[i] == Data(p)[i]
    {
      var at := if len == 0x1_0000 then (pos + 4 + i) % 0x1_0000 else pos + 4 + i;
      assert data[i] == ring[Index(len, pos + 4 + i)] == ring[at];
    }
    assert |Data(p)| == size;
  }

  /** One good packet at cur_rx is consumed. */
  lemma GoodPacketIsConsumed(c: Config, ring: seq<byte>, look: Look, rx: Rx, p: Packet)
    requires RingOk(c, ring, rx) && Good(p) && Offset(c, rx.cur) + 4 <= c.len
    requires PacketAt(ring, c.len, Offset(c, rx.cur), p)
    ensures TakeTurn(c, ring, look, rx)
         == Consumed(Acked(Received(rx.(timeout := 0), Contents(c, p), |Data(p)|, look.memory), look.intr))
  {
    var at, size := Offset(c, rx.cur), |p.frame| + 4;
    HeaderIs(ring, c.len, at, p);
    PayloadIs(ring, c.len, at, p);
    hide Payload, HeaderAt, Received, Acked, PacketAt;
    var status := p.status + U16 * size;
    assert status / U16 == size;
    assert Bit(status, RX_STATUS_OK);
    PayloadPrefix(ring, c.len, at + 4, size, PktSize(c, size));
    assert |Data(p)| == size && Data(p)[..PktSize(c, size)] == Contents(c, p);
  }

  lemma NoBytes()
    ensures Bytes([]) == 0
  {
  }

  lemma FirstHanded(c: Config, packets: seq<Packet>, looks: seq<Look>)
    requires |packets| == |looks| && packets != []
    ensures Bytes(Handed(c, packets, looks))
         == (if looks[0].memory then |Contents(c, packets[0])| else 0) + Bytes(Handed(c, packets[1..], looks[1..]))
  {
    hide Contents;
    var rest := Handed(c, packets[1..], looks[1..]);
    assert ([Contents(c, packets[0])] + rest)[1..] == rest && [] + rest == rest;
  }

  /** Good packets laid out behind one another are handed up in order, each whole, up to the budget;
      those without memory are counted as dropped, the only errors are the overruns the chip reports
      meanwhile, and cur_rx ends where the chip will go on. */
  lemma {:induction false} GoodPacketsAreDelivered(c: Config, ring: seq<byte>, rx: Rx, packets: seq<Packet>,
                                                   looks: seq<Look>, rest: seq<Look>, last: nat,
                                                   budget: nat, received: nat)
    requires RingOk(c, ring, rx) && Laid(ring, c.len, rx.cur % c.len, packets)
    requires |looks| == |packets| && Going(looks) && received + |packets| <= budget
    requires !GoesOn(rest, received + |packets|, budget)
    ensures var (rx1, result) := Drain(c, ring, rx, looks + rest, last, budget, received);
      && rx1.delivered == rx.delivered + Handed(c, packets, looks)
      && rx1.stats.bytes == rx.stats.bytes + Bytes(Handed(c, packets, looks))
      && rx1.stats.dropped == rx.stats.dropped + Missed(looks)
      && rx1.stats.packets == rx.stats.packets + |packets| - Missed(looks)
      && rx1.stats.errors == rx.stats.errors + Overruns(looks) + Num(received + |packets| == 0 && ShowsOverrun(last))
      && rx1.resets == rx.resets
      && rx1.cur % c.len == EndPos(c.len, rx.cur % c.len, packets)
      && (packets != [] ==> (rx1.ptr + 16) % c.len == rx1.cur % c.len)
      && (packets != [] || rx.timeout == 0 ==> result == received + |packets|)
    decreases |packets|
  {
    hide Payload, HeaderAt, PacketAt, Behind, BufPtr, TakeTurn, IsLen, Contents, Good, Data, Bytes;
    hide Overrun, ShowsOverrun, Bit;
    if packets == [] {
      assert looks + rest == rest;
      NoBytes();
      AckShows(last);
    } else {
      var all := looks + rest;
      assert all[0] == looks[0] && all[1..] == looks[1..] + rest;
      FirstHanded(c, packets, looks);
      AckShows(looks[0].intr);
      GoodPacketIsConsumed(c, ring, looks[0], rx, packets[0]);
      var rx0 := Received(rx.(timeout := 0), Contents(c, packets[0]), |Data(packets[0])|, looks[0].memory);
      var rx1 := Acked(rx0, looks[0].intr);
      CursorFollowsChip(c.len, rx.cur, |Data(packets[0])|);
      PointerTrailsCursor(c.len, Behind(rx.cur, |Data(packets[0])|));
      GoodPacketsAreDelivered(c, ring, rx1, packets[1..], looks[1..], rest, last, budget, received + 1);
    }
  }

  /** A result of -1 goes with exactly one restart, at which the ring is read from its start again;
      any other result is at most the budget. */
  lemma {:induction false} ResultTellsRestart(c: Config, ring: seq<byte>, rx: Rx, looks: seq<Look>,
                                              last: nat, budget: nat, received: nat)
    requires RingOk(c, ring, rx) && received <= budget
    ensures var (rx1, result) := Drain(c, ring, rx, looks, last, budget, received);
      && RingOk(c, ring, rx1)
      && (result == -1 ==> rx1.cur == 0 && rx1.resets == rx.resets + 1 && rx1.stats.errors > rx.stats.errors)
      && (result != -1 ==> 0 <= result <= budget && rx1.resets == rx.resets)
      && (result != -1 && rx1.timeout != 0 ==> result == budget)
    decreases |looks|
  {
    hide Payload, HeaderAt, Behind, BufPtr, Bit, Overrun;
    if GoesOn(looks, received, budget) {
      match TakeTurn(c, ring, looks[0], rx)
      case Consumed(rx1) => ResultTellsRestart(c, ring, rx1, looks[1..], last, budget, received + 1);
      case _ =>
    }
  }

  /** Every packet consumed was either handed up or counted as dropped. */
  lemma {:induction false} ConsumedIsAccountedFor(c: Config, ring: seq<byte>, rx: Rx, looks: seq<Look>,
                                                  last: nat, budget: nat, received: nat)
    requires RingOk(c, ring, rx) && received <= budget
    ensures var (rx1, result) := Drain(c, ring, rx, looks, last, budget, received);
      && rx1.stats.packets - rx.stats.packets == |rx1.delivered| - |rx.delivered|
      && (result != -1 && rx1.timeout == 0 ==>
          result - received == (rx1.stats.packets - rx.stats.packets) + (rx1.stats.dropped - rx.stats.dropped))
    decreases |looks|
  {
    hide Payload, HeaderAt, Behind, BufPtr, Bit, Overrun;
    if GoesOn(looks, received, budget) {
      match TakeTurn(c, ring, looks[0], rx)
      case Consumed(rx1) => ConsumedIsAccountedFor(c, ring, rx1, looks[1..], last, budget, received + 1);
      case _ =>
    }
  }

  // ---------------------------------------------------------------------------------------------
  // One turn
  // ---------------------------------------------------------------------------------------------

  /** time_after(jiffies, t): the clock is past t by at most half its range. */
  lemma AfterExactly(t: nat, k: nat)
    requires t < U32 && k < U32
    ensures After(t, (t + k) % U32) <==> 1 <= k <= 0x8000_0000
  {
  }

  ghost function StatusOf(c: Config, ring: seq<byte>, rx: Rx): nat
    requires RingOk(c, ring, rx)
  {
    HeaderAt(ring, Offset(c, rx.cur))
  }

  /** The packet is still being written, and the driver has not waited for two ticks yet. */
  ghost predicate StillWriting(rx: Rx, size: nat, jiffies: nat) {
    size == 0xfff0 && (rx.timeout == 0 || !After(rx.timeout, jiffies))
  }

  /** With RXALL, CRC errors and runts of acceptable length are kept. */
  ghost predicate Kept(c: Config, w: nat) {
    8 <= w / 0x1_0000 <= 1796 && (w % 2 == 1 || (c.rxAll && (w / 4 % 2 == 1 || w / 16 % 2 == 1)))
  }

  /** What one turn makes of any header, with its flags as bits of the status word: 0 OK, 1 alignment,
      2 CRC, 3 too long, 4 runt, 5 symbol error. A restart blames the ring if the status was fine. */
  lemma TurnExactly(c: Config, ring: seq<byte>, look: Look, rx: Rx)
    requires RingOk(c, ring, rx)
    ensures var w, t := StatusOf(c, ring, rx), TakeTurn(c, ring, look, rx);
      var s0, s, bad := rx.stats, t.rx.stats, w % 2 == 0;
      && (t.Busy? <==> StillWriting(rx, w / 0x1_0000, look.jiffies))
      && (t.Consumed? <==> !t.Busy? && Kept(c, w))
      && t.rx.timeout == (if !t.Busy? then 0 else if rx.timeout == 0 then (look.jiffies + 2) % U32 else rx.timeout)
      && s.early == s0.early + Num(t.Busy?)
      && s.crc == s0.crc + Num(!t.Busy? && bad && w / 4 % 2 == 1)
      && s.length == s0.length + Num(t.Restarted? && bad && (w / 16 % 2 == 1 || w / 8 % 2 == 1))
           + Num(t.Consumed? && bad && w / 16 % 2 == 1 && w / 4 % 2 == 0)
      && s.frame == s0.frame + Num(t.Restarted? && bad && (w / 32 % 2 == 1 || w / 2 % 2 == 1))
      && s.lost == s0.lost + Num(t.Restarted? && !bad)
      && (t.Restarted? ==> t.rx.cur == 0 && t.rx.delivered == rx.delivered)
      && (t.Busy? ==> t.rx.cur == rx.cur && t.rx.delivered == rx.delivered)
  {
    hide Payload, HeaderAt, Offset, Behind, BufPtr, Overrun, After;
  }

  // ---------------------------------------------------------------------------------------------
  // Receive errors
  // ---------------------------------------------------------------------------------------------

  /** With RXALL, a bad packet of acceptable length that is neither a CRC error nor a runt */
  predicate CountsTwice(c: Config, status: nat) {
    && c.rxAll && SizeOk(status / U16)
    && !Bit(status, RX_STATUS_OK) && !Bit(status, RX_CRC_ERR) && !Bit(status, RX_RUNT)
  }

  /** A packet the driver does not take for a good one */
  predicate Bad(status: nat) {
    !(SizeOk(status / U16) && Bit(status, RX_STATUS_OK))
  }

  /** With RXALL, a bad packet that is kept: a CRC error or a runt */
  predicate KeptBad(c: Config, status: nat) {
    && c.rxAll && SizeOk(status / U16)
    && !Bit(status, RX_STATUS_OK) && (Bit(status, RX_CRC_ERR) || Bit(status, RX_RUNT))
  }

  /** One turn adds more than one receive error if and only if its packet counts twice, or is a bad one
      kept and the chip reports an overrun behind it; it never adds more than two. */
  lemma TwoErrorsExactly(c: Config, ring: seq<byte>, look: Look, rx: Rx)
    requires RingOk(c, ring, rx)
    ensures var status := StatusOf(c, ring, rx);
      TakeTurn(c, ring, look, rx).rx.stats.errors > rx.stats.errors + 1
      <==> CountsTwice(c, status) || (KeptBad(c, status) && ShowsOverrun(look.intr))
    ensures TakeTurn(c, ring, look, rx).rx.stats.errors <= rx.stats.errors + 2
  {
    hide TakeTurn, ShowsOverrun;
    TurnCountsErrors(c, ring, look, rx);
  }

  lemma TurnCountsErrors(c: Config, ring: seq<byte>, look: Look, rx: Rx)
    requires RingOk(c, ring, rx)
    ensures var t := TakeTurn(c, ring, look, rx);
      var status := StatusOf(c, ring, rx);
      && t.rx.stats.errors == rx.stats.errors
           + (if t.Busy? then 0 else Num(Bad(status)) + Num(CountsTwice(c, status)))
           + Num(t.Consumed? && ShowsOverrun(look.intr))
      && t.rx.stats.fifo == rx.stats.fifo + Num(t.Consumed? && ShowsFifoOver(look.intr))
      && (CountsTwice(c, status) ==> t.Restarted?)
      && (Bad(status) && t.Consumed? <==> KeptBad(c, status))
  {
    AckShows(look.intr);
    hide Payload, HeaderAt, Offset, Behind, BufPtr, Bit, Overrun, ShowsOverrun, ShowsFifoOver;
  }

  /** The headers of the packets a call consumes, and of the one at which it restarts the receiver */
  ghost function HeadersRead(c: Config, ring: seq<byte>, rx: Rx, looks: seq<Look>, budget: nat, received: nat): seq<nat>
    requires RingOk(c, ring, rx)
    decreases |looks|
  {
    if !GoesOn(looks, received, budget) then []
    else
      var t := TakeTurn(c, ring, looks[0], rx);
      if t.Busy? then []
      else
        [StatusOf(c, ring, rx)]
        + if t.Restarted? then [] else HeadersRead(c, ring, t.rx, looks[1..], budget, received + 1)
  }

  /** A header is read only while the device runs, the chip shows a packet and the budget lasts. */
  lemma {:induction false} ReadsOnlyWhileItMay(c: Config, ring: seq<byte>, rx: Rx, looks: seq<Look>,
                                               budget: nat, received: nat, j: nat)
    requires RingOk(c, ring, rx) && j < |HeadersRead(c, ring, rx, looks, budget, received)|
    ensures j < |looks| && looks[j].running && !looks[j].empty && received + j < budget
    decreases j
  {
    hide TakeTurn, StatusOf;
    if j > 0 {
      ReadsOnlyWhileItMay(c, ring, TakeTurn(c, ring, looks[0], rx).rx, looks[1..], budget, received + 1, j - 1);
    }
  }

  ghost function BadAmong(headers: seq<nat>): nat {
    if headers == [] then 0 else Num(Bad(headers[0])) + BadAmong(headers[1..])
  }

  /** The number of packets a call consumes */
  ghost function Taken(c: Config, ring: seq<byte>, rx: Rx, looks: seq<Look>, budget: nat, received: nat): (n: nat)
    requires RingOk(c, ring, rx)
    ensures n <= |looks|
    decreases |looks|
  {
    if !GoesOn(looks, received, budget) then 0
    else
      var t := TakeTurn(c, ring, looks[0], rx);
      if t.Consumed? then 1 + Taken(c, ring, t.rx, looks[1..], budget, received + 1) else 0
  }

  /** rtl8139_isr_ack is called behind the loop: no packet was received, or the next one is still being
      written. `looks` are those from the end of the loop on. */
  ghost predicate AckBehind(looks: seq<Look>, budget: nat, received: nat, result: int) {
    result != -1 && (received == 0 || GoesOn(looks, received, budget))
  }

  /** A whole call reads one header for each packet it consumes, and one more when it restarts the
      receiver. */
  lemma {:induction false} CallReadsHeaders(c: Config, ring: seq<byte>, rx: Rx, looks: seq<Look>,
                                            last: nat, budget: nat, received: nat)
    requires RingOk(c, ring, rx)
    ensures |HeadersRead(c, ring, rx, looks, budget, received)|
         == Taken(c, ring, rx, looks, budget, received) + Num(Drain(c, ring, rx, looks, last, budget, received).1 == -1)
    decreases |looks|
  {
    hide TakeTurn, StatusOf;
    if GoesOn(looks, received, budget) {
      match TakeTurn(c, ring, looks[0], rx)
      case Consumed(rx1) => CallReadsHeaders(c, ring, rx1, looks[1..], last, budget, received + 1);
      case _ =>
    }
  }

  /** One error for each bad packet, and one more if the last one counts twice */
  ghost function HeaderErrors(c: Config, headers: seq<nat>): nat {
    BadAmong(headers) + Num(headers != [] && CountsTwice(c, headers[|headers| - 1]))
  }

  lemma NoHeader(c: Config)
    ensures HeaderErrors(c, []) == 0
  {
  }

  lemma FirstHeader(c: Config, header: nat, rest: seq<nat>)
    ensures HeaderErrors(c, [header] + rest)
         == Num(Bad(header)) + if rest == [] then Num(CountsTwice(c, header)) else HeaderErrors(c, rest)
  {
    hide Bad, CountsTwice;
    var all := [header] + rest;
    assert all[1..] == rest && all[0] == header;
    assert BadAmong(all) == Num(Bad(header)) + BadAmong(rest);
    assert rest != [] ==> all[|all| - 1] == rest[|rest| - 1];
  }

  lemma FirstOverrun(looks: seq<Look>, n: nat)
    requires n < |looks|
    ensures Overruns(looks[..n + 1]) == Num(ShowsOverrun(looks[0].intr)) + Overruns(looks[1..][..n])
    ensures looks[n + 1..] == looks[1..][n..]
  {
    hide ShowsOverrun;
    assert looks[..n + 1][1..] == looks[1..][..n];
  }

  /** It adds one receive error for each bad packet it read, one more if it ended at a packet that counts
      twice, and one for each overrun reported behind a packet it consumed or behind its loop. */
  lemma {:induction false} CallCountsErrors(c: Config, ring: seq<byte>, rx: Rx, looks: seq<Look>,
                                            last: nat, budget: nat, received: nat)
    requires RingOk(c, ring, rx)
    ensures var (rx1, result) := Drain(c, ring, rx, looks, last, budget, received);
      var n := Taken(c, ring, rx, looks, budget, received);
      rx1.stats.errors == rx.stats.errors + HeaderErrors(c, HeadersRead(c, ring, rx, looks, budget, received))
        + Overruns(looks[..n]) + Num(AckBehind(looks[n..], budget, received + n, result) && ShowsOverrun(last))
    decreases |looks|
  {
    AckShows(last);
    hide TakeTurn, StatusOf, CountsTwice, Bad, KeptBad, Overrun, ShowsOverrun, Bit, HeaderErrors;
    NoHeader(c);
    if GoesOn(looks, received, budget) {
      TurnCountsErrors(c, ring, looks[0], rx);
      match TakeTurn(c, ring, looks[0], rx)
      case Consumed(rx1) =>
        FirstHeader(c, StatusOf(c, ring, rx), HeadersRead(c, ring, rx1, looks[1..], budget, received + 1));
        FirstOverrun(looks, Taken(c, ring, rx1, looks[1..], budget, received + 1));
        CallCountsErrors(c, ring, rx1, looks[1..], last, budget, received + 1);
      case Restarted(_) =>
        FirstHeader(c, StatusOf(c, ring, rx), []);
        assert [StatusOf(c, ring, rx)] + [] == [StatusOf(c, ring, rx)];
      case Busy(_) =>
    }
  }

  /** The FIFO errors are the overruns of the FIFO among those. */
  lemma {:induction false} CallCountsFifoErrors(c: Config, ring: seq<byte>, rx: Rx, looks: seq<Look>,
                                                last: nat, budget: nat, received: nat)
    requires RingOk(c, ring, rx)
    ensures var (rx1, result) := Drain(c, ring, rx, looks, last, budget, received);
      var n := Taken(c, ring, rx, looks, budget, received);
      rx1.stats.fifo == rx.stats.fifo
        + FifoOverruns(looks[..n]) + Num(AckBehind(looks[n..], budget, received + n, result) && ShowsFifoOver(last))
    decreases |looks|
  {
    AckShows(last);
    hide TakeTurn, Bit, CountsTwice, Bad, KeptBad, Overrun, ShowsOverrun, ShowsFifoOver;
    if GoesOn(looks, received, budget) {
      TurnCountsErrors(c, ring, looks[0], rx);
      match TakeTurn(c, ring, looks[0], rx)
      case Consumed(rx1) =>
        var n := Taken(c, ring, rx1, looks[1..], budget, received + 1);
        CallCountsFifoErrors(c, ring, rx1, looks[1..], last, budget, received + 1);
        assert looks[..1 + n][1..] == looks[1..][..n] && looks[1 + n..] == looks[1..][n..];
      case _ =>
    }
  }

  /** The packets before the last one a call reads never count twice. */
  lemma {:induction false} OnlyTheLastCountsTwice(c: Config, ring: seq<byte>, rx: Rx, looks: seq<Look>,
                                                  budget: nat, received: nat, k: nat)
    requires RingOk(c, ring, rx) && k + 1 < |HeadersRead(c, ring, rx, looks, budget, received)|
    ensures !CountsTwice(c, HeadersRead(c, ring, rx, looks, budget, received)[k])
    decreases |looks|
  {
    hide TakeTurn, StatusOf, CountsTwice;
    TurnCountsErrors(c, ring, looks[0], rx);
    if k > 0 {
      OnlyTheLastCountsTwice(c, ring, TakeTurn(c, ring, looks[0], rx).rx, looks[1..], budget, received + 1, k - 1);
    }
  }

  /** A frame of 64 bytes with an alignment error, received with RXALL */
  lemma AlignmentErrorCountsTwice(c: Config)
    requires c.rxAll
    ensures CountsTwice(c, 64 * U16 + RX_BAD_ALIGN)
  {
  }
}
