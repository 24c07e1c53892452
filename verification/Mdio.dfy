/**
 mdio_read and mdio_write (net/realtek/8139too.c, built for the 8129) against PHYs that follow the
 management frame format of clause 22.2.4.5 of IEEE 802.3. All PHYs on the bus see the same bits, so
 one frame decoder stands for all of them; at most one is addressed.
*/
module Mdio {
  import opened BitMath
  import opened Common

  const MDIO_DIR: bv8 := 0x80
  const MDIO_DATA_OUT: bv8 := 0x04
  const MDIO_CLK: bv8 := 0x01

  // ---------------------------------------------------------------------------------------------
  // The PHYs
  // ---------------------------------------------------------------------------------------------

  /** Counting the ones of the preamble; between the bits of ST; collecting OP, PHYAD and REGAD;
      k clocks into the turnaround and data of a read; collecting the turnaround and data of a write;
      or k clocks into a frame for nobody. */
  datatype Phase =
    | Preamble(ones: nat)
    | Start
    | Header(n: nat, acc: nat)
    | Reading(word: nat, k: nat)
    | Writing(phy: nat, reg: nat, n: nat, acc: nat)
    | Skipping(k: nat)

  datatype Bus = Bus(regs: map<nat, seq<int>>, phase: Phase)

  ghost predicate BusOk(b: Bus) {
    && RegsOk(b.regs)
    && (b.phase.Writing? ==> b.phase.phy in b.regs && b.phase.reg < 32)
    && (b.phase.Reading? ==> b.phase.word < 0x1_0000)
  }

  ghost predicate RegsOk(regs: map<nat, seq<int>>) {
    forall p :: p in regs ==> |regs[p]| == 32 && forall r :: 0 <= r < 32 ==> 0 <= regs[p][r] < 0x1_0000
  }

  /** What the twelve bits of the header ask for */
  function Dispatch(regs: map<nat, seq<int>>, v: nat): Phase
    requires RegsOk(regs)
  {
    var op, phy, reg := v / 1024, v / 32 % 32, v % 32;
    if phy !in regs then Skipping(0)
    else if op == 2 then Reading(regs[phy][reg], 0)
    else if op == 1 then Writing(phy, reg, 0, 0)
    else Skipping(0)
  }

  /** A rising edge of MDC with the given level on MDIO */
  function Rise(b: Bus, bit: bool): Bus
    requires BusOk(b)
  {
    match b.phase
    case Preamble(ones) =>
      b.(phase := if bit then Preamble(ones + 1) else if ones >= 32 then Start else Preamble(0))
    case Start => b.(phase := if bit then Header(0, 0) else Preamble(0))
    case Header(n, acc) =>
      var v := 2 * acc + Num(bit);
      if n < 11 then b.(phase := Header(n + 1, v)) else b.(phase := Dispatch(b.regs, v))
    case Reading(word, k) => b.(phase := if k < 17 then Reading(word, k + 1) else Preamble(0))
    case Writing(phy, reg, n, acc) =>
      var v := 2 * acc + Num(bit);
      if n < 17 then b.(phase := Writing(phy, reg, n + 1, v))
      else Bus(b.regs[phy := b.regs[phy][reg := v % 0x1_0000]], Preamble(0))
    case Skipping(k) => b.(phase := if k < 17 then Skipping(k + 1) else Preamble(0))
  }

  /** MDIO as the PHYs leave it: released, so pulled up, except for the second turnaround bit and the
      sixteen data bits of a read */
  predicate Level(p: Phase) {
    p.Reading? && 1 <= p.k <= 17 ==> p.k >= 2 && BitOf(p.word, 17 - p.k)
  }

  lemma RiseKeepsOk(b: Bus, bit: bool)
    requires BusOk(b)
    ensures BusOk(Rise(b, bit))
  {
  }

  ghost function Feed(b: Bus, bits: seq<bool>): (r: Bus)
    requires BusOk(b)
    ensures BusOk(r)
    decreases |bits|
  {
    if bits == [] then b
    else
      var r := Feed(b, bits[..|bits| - 1]);
      RiseKeepsOk(r, bits[|bits| - 1]);
      Rise(r, bits[|bits| - 1])
  }

  // ---------------------------------------------------------------------------------------------
  // Bits on the wire
  // ---------------------------------------------------------------------------------------------

  /** The lower n bits of v, the most significant first */
  ghost function Bits(v: nat, n: nat): (s: seq<bool>)
    ensures |s| == n
  {
    if n == 0 then [] else Bits(v / 2, n - 1) + [v % 2 == 1]
  }

  lemma Halve(a: nat, q: nat, b: nat)
    ensures (a * (2 * q) + b) / 2 == a * q + b / 2 && (a * (2 * q) + b) % 2 == b % 2
  {
    assert a * (2 * q) == 2 * (a * q);
  }

  lemma {:induction false} BitsJoin(a: nat, m: nat, b: nat, n: nat)
    requires b < Pow2(n)
    ensures Bits(a * Pow2(n) + b, m + n) == Bits(a, m) + Bits(b, n)
  {
    if n > 0 {
      BitsJoin(a, m, b / 2, n - 1);
      Halve(a, Pow2(n - 1), b);
    }
  }

  lemma FeedMore(b: Bus, bits: seq<bool>, bit: bool)
    requires BusOk(b)
    ensures Feed(b, bits + [bit]) == Rise(Feed(b, bits), bit)
  {
    assert (bits + [bit])[..|bits|] == bits;
  }

  lemma {:induction false} FeedJoins(b: Bus, s: seq<bool>, t: seq<bool>)
    requires BusOk(b)
    ensures Feed(b, s + t) == Feed(Feed(b, s), t)
    decreases |t|
  {
    if t == [] {
      assert s + t == s;
    } else {
      assert (s + t)[..|s + t| - 1] == s + t[..|t| - 1];
      FeedJoins(b, s, t[..|t| - 1]);
    }
  }

  lemma HalfBelow(v: nat, n: nat)
    requires n > 0 && v < Pow2(n)
    ensures v / 2 < Pow2(n - 1) && 2 * (v / 2) + Num(v % 2 == 1) == v
  {
  }

  lemma NoBits(b: Bus, v: nat)
    requires BusOk(b)
    ensures Bits(v, 0) == [] && Feed(b, Bits(v, 0)) == b && Pow2(0) == 1
  {
  }

  lemma LastBit(v: nat, n: nat)
    ensures Bits(v, n + 1) == Bits(v / 2, n) + [v % 2 == 1]
  {
  }

  lemma {:induction false} HeaderCollects(b: Bus, v: nat, n: nat)
    requires BusOk(b) && b.phase == Header(0, 0) && n <= 11 && v < Pow2(n)
    ensures Feed(b, Bits(v, n)) == b.(phase := Header(n, v))
  {
    hide RegsOk, Dispatch, Bits, Pow2, Feed;
    if n == 0 {
      NoBits(b, v);
    } else {
      HalfBelow(v, n);
      HeaderCollects(b, v / 2, n - 1);
      LastBit(v, n - 1);
      FeedMore(b, Bits(v / 2, n - 1), v % 2 == 1);
    }
  }

  lemma {:induction false} WriteCollects(b: Bus, v: nat, n: nat)
    requires BusOk(b) && b.phase.Writing? && b.phase.n == 0 && b.phase.acc == 0 && n <= 17 && v < Pow2(n)
    ensures Feed(b, Bits(v, n)) == b.(phase := Writing(b.phase.phy, b.phase.reg, n, v))
  {
    hide RegsOk, Dispatch, Bits, Pow2, Feed;
    if n == 0 {
      NoBits(b, v);
    } else {
      HalfBelow(v, n);
      WriteCollects(b, v / 2, n - 1);
      LastBit(v, n - 1);
      FeedMore(b, Bits(v / 2, n - 1), v % 2 == 1);
    }
  }

  lemma SmallPowers()
    ensures Pow2(11) == 0x800 && Pow2(12) == 0x1000
    ensures Pow2(16) == 0x1_0000 && Pow2(17) == 0x2_0000 && Pow2(18) == 0x4_0000
  {
    assert Pow2(2) == 4 && Pow2(4) == 4 * Pow2(2) && Pow2(6) == 4 * Pow2(4) && Pow2(8) == 4 * Pow2(6);
    assert Pow2(10) == 4 * Pow2(8) && Pow2(12) == 4 * Pow2(10) && Pow2(14) == 4 * Pow2(12);
    assert Pow2(16) == 4 * Pow2(14) && Pow2(18) == 4 * Pow2(16);
  }

  lemma StartIsSeen(b: Bus)
    requires BusOk(b) && b.phase.Preamble? && b.phase.ones >= 32
    ensures Feed(b, [false, true]) == b.(phase := Header(0, 0))
  {
    hide RegsOk, Dispatch;
    FeedMore(b, [], false);
    FeedMore(b, [false], true);
    assert [] + [false] == [false] && [false] + [true] == [false, true];
  }

  lemma HeaderIsSeen(b: Bus, v: nat)
    requires BusOk(b) && b.phase == Header(0, 0) && v < 0x1000
    ensures Feed(b, Bits(v, 12)) == b.(phase := Dispatch(b.regs, v))
  {
    hide RegsOk, Dispatch, Feed;
    SmallPowers();
    HeaderCollects(b, v / 2, 11);
    assert Bits(v, 12) == Bits(v / 2, 11) + [v % 2 == 1];
    hide Bits, Pow2;
    FeedMore(b, Bits(v / 2, 11), v % 2 == 1);
  }

  /** ST after a long enough preamble, then twelve header bits */
  lemma FrameStarts(b: Bus, v: nat)
    requires BusOk(b) && b.phase.Preamble? && b.phase.ones >= 32 && v < 0x1000
    ensures Feed(b, [false, true] + Bits(v, 12)) == b.(phase := Dispatch(b.regs, v))
  {
    hide RegsOk, Dispatch, Bits, Rise;
    StartIsSeen(b);
    FeedJoins(b, [false, true], Bits(v, 12));
    HeaderIsSeen(Feed(b, [false, true]), v);
  }

  // ---------------------------------------------------------------------------------------------
  // The frames the driver sends
  // ---------------------------------------------------------------------------------------------

  /** mii_cmd of mdio_read; the loop sends its lower sixteen bits: 11, ST, OP, PHYAD, REGAD. */
  function ReadCmd(phy: nat, location: nat): nat {
    0xf6 * 1024 + phy * 32 + location
  }

  /** mii_cmd of mdio_write: ST, OP, PHYAD, REGAD, TA, the value */
  function WriteCmd(phy: nat, location: nat, value: nat): nat {
    0x5002_0000 + phy * 0x80_0000 + location * 0x4_0000 + value
  }

  function Answering(b: Bus, phy: nat, location: nat): Phase
    requires BusOk(b) && location < 32
  {
    if phy in b.regs then Reading(b.regs[phy][location], 0) else Skipping(0)
  }

  function Written(regs: map<nat, seq<int>>, phy: nat, location: nat, value: nat): map<nat, seq<int>>
    requires RegsOk(regs) && location < 32
  {
    if phy in regs then regs[phy := regs[phy][location := value]] else regs
  }

  lemma ReadBits(phy: nat, location: nat)
    requires phy < 32 && location < 32
    ensures Bits(ReadCmd(phy, location), 16)
         == [true, true] + ([false, true] + Bits(2 * 1024 + phy * 32 + location, 12))
  {
    var v := 2 * 1024 + phy * 32 + location;
    SmallPowers();
    hide Pow2;
    BitsJoin(61, 4, v, 12);
    assert Bits(61, 4) == [true, true, false, true] by {
      assert Bits(15, 2) == Bits(7, 1) + [true] == [true, true];
      assert Bits(61, 4) == (Bits(15, 2) + [false]) + [true];
    }
  }

  /** After the command of mdio_read the PHY at the address, if there is one, answers from the register. */
  lemma ReadIsUnderstood(b: Bus, phy: nat, location: nat)
    requires BusOk(b) && b.phase.Preamble? && b.phase.ones >= 32 && phy < 32 && location < 32
    ensures Feed(b, Bits(ReadCmd(phy, location), 16)) == b.(phase := Answering(b, phy, location))
  {
    hide RegsOk, Dispatch, Bits, Pow2, ReadCmd, Feed, Rise;
    var v := 2 * 1024 + phy * 32 + location;
    ReadBits(phy, location);
    FeedJoins(b, [true, true], [false, true] + Bits(v, 12));
    var b1 := b.(phase := Preamble(b.phase.ones + 2));
    OnesAreCounted(b, 2);
    assert Ones(2) == [true, true];
    FrameStarts(b1, v);
    HeaderFields(b.regs, 2, phy, location);
  }

  ghost function Ones(n: nat): (s: seq<bool>)
    ensures |s| == n
  {
    seq(n, i => true)
  }

  lemma {:induction false} OnesAreCounted(b: Bus, n: nat)
    requires BusOk(b) && b.phase.Preamble?
    ensures Feed(b, Ones(n)) == b.(phase := Preamble(b.phase.ones + n))
  {
    hide RegsOk, Dispatch;
    if n > 0 {
      OnesAreCounted(b, n - 1);
      FeedMore(b, Ones(n - 1), true);
      assert Ones(n) == Ones(n - 1) + [true];
    }
  }

  lemma WriteBits(phy: nat, location: nat, value: nat)
    requires phy < 32 && location < 32 && value < 0x1_0000
    ensures Bits(WriteCmd(phy, location, value), 32)
         == ([false, true] + Bits(1024 + phy * 32 + location, 12)) + Bits(0x2_0000 + value, 18)
  {
    var v, w := 1024 + phy * 32 + location, 0x2_0000 + value;
    SmallPowers();
    hide Pow2;
    BitsJoin(0x1000 + v, 14, w, 18);
    BitsJoin(1, 2, v, 12);
    assert Bits(1, 2) == [false, true] by {
      assert Bits(1, 2) == Bits(0, 1) + [true];
    }
  }

  lemma HeaderFields(regs: map<nat, seq<int>>, op: nat, phy: nat, location: nat)
    requires RegsOk(regs) && 1 <= op <= 2 && phy < 32 && location < 32
    ensures Dispatch(regs, op * 1024 + phy * 32 + location)
         == if phy !in regs then Skipping(0)
            else if op == 2 then Reading(regs[phy][location], 0) else Writing(phy, location, 0, 0)
  {
    var v := op * 1024 + phy * 32 + location;
    assert v / 1024 == op && v / 32 % 32 == phy && v % 32 == location;
  }

  /** mdio_write changes the register addressed, and nothing else. */
  lemma WriteIsUnderstood(b: Bus, phy: nat, location: nat, value: nat)
    requires BusOk(b) && b.phase.Preamble? && b.phase.ones >= 32
    requires phy < 32 && location < 32 && value < 0x1_0000
    ensures Feed(b, Bits(WriteCmd(phy, location, value), 32))
         == Bus(Written(b.regs, phy, location, value), Preamble(0))
  {
    hide RegsOk, Dispatch, Bits, Pow2, Feed, WriteCmd, Rise;
    var v, w := 1024 + phy * 32 + location, 0x2_0000 + value;
    WriteBits(phy, location, value);
    FeedJoins(b, [false, true] + Bits(v, 12), Bits(w, 18));
    FrameStarts(b, v);
    HeaderFields(b.regs, 1, phy, location);
    var b1 := b.(phase := Dispatch(b.regs, v));
    if phy in b.regs {
      WriteEnds(b1, value);
    } else {
      SkipEnds(b1, Bits(w, 18));
    }
  }

  lemma WriteEnds(b: Bus, value: nat)
    requires BusOk(b) && b.phase.Writing? && b.phase.n == 0 && b.phase.acc == 0 && value < 0x1_0000
    ensures b.phase.phy in b.regs && b.phase.reg < 32
    ensures Feed(b, Bits(0x2_0000 + value, 18))
         == Bus(Written(b.regs, b.phase.phy, b.phase.reg, value), Preamble(0))
  {
    hide RegsOk, Dispatch, Feed, Bits, Pow2;
    var w := 0x2_0000 + value;
    SmallPowers();
    WriteCollects(b, w / 2, 17);
    LastBit(w, 17);
    FeedMore(b, Bits(w / 2, 17), w % 2 == 1);
    assert w % 0x1_0000 == value;
  }

  lemma {:induction false} SkipCounts(b: Bus, bits: seq<bool>)
    requires BusOk(b) && b.phase == Skipping(0) && |bits| <= 17
    ensures Feed(b, bits) == b.(phase := Skipping(|bits|))
    decreases |bits|
  {
    hide RegsOk, Dispatch;
    if bits != [] {
      SkipCounts(b, bits[..|bits| - 1]);
    }
  }

  lemma SkipEnds(b: Bus, bits: seq<bool>)
    requires BusOk(b) && b.phase == Skipping(0) && |bits| == 18
    ensures Feed(b, bits) == b.(phase := Preamble(0))
  {
    hide RegsOk, Dispatch;
    SkipCounts(b, bits[..17]);
  }

  // ---------------------------------------------------------------------------------------------
  // The answer
  // ---------------------------------------------------------------------------------------------

  /** The bus after j clocks during which the driver leaves MDIO alone */
  ghost function Idle(b: Bus, j: nat): (r: Bus)
    requires BusOk(b)
    ensures BusOk(r)
  {
    if j == 0 then b
    else
      var r := Idle(b, j - 1);
      RiseKeepsOk(r, Level(r.phase));
      Rise(r, Level(r.phase))
  }

  /** The levels seen before each of the first j clocks, as a number */
  ghost function Collected(b: Bus, j: nat): nat
    requires BusOk(b)
  {
    if j == 0 then 0 else 2 * Collected(b, j - 1) + Num(Level(Idle(b, j - 1).phase))
  }

  lemma {:induction false} ReadingClocks(b: Bus, j: nat)
    requires BusOk(b) && b.phase.Reading? && b.phase.k == 0 && j <= 17
    ensures Idle(b, j) == b.(phase := Reading(b.phase.word, j))
  {
    hide RegsOk, Dispatch, Level;
    if j > 0 {
      ReadingClocks(b, j - 1);
    }
  }

  lemma {:induction false} DataCollects(b: Bus, j: nat)
    requires BusOk(b) && b.phase.Reading? && b.phase.k == 0 && 2 <= j <= 18
    ensures Collected(b, j) == 2 * Pow2(j - 2) + Upper(b.phase.word, 18 - j)
  {
    hide RegsOk, Dispatch;
    ReadingClocks(b, j - 1);
    if j == 2 {
      ReadingClocks(b, 0);
      assert Collected(b, 1) == 1;
      assert Upper(b.phase.word, 16) == 0 by {
        ShiftedOut(b.phase.word);
      }
    } else {
      DataCollects(b, j - 1);
      assert Upper(b.phase.word, 18 - j) == 2 * Upper(b.phase.word, 19 - j) + Num(BitOf(b.phase.word, 18 - j));
    }
  }

  lemma {:induction false} SkippingClocks(b: Bus, j: nat)
    requires BusOk(b) && b.phase == Skipping(0) && j <= 17
    ensures Idle(b, j) == b.(phase := Skipping(j))
    ensures Collected(b, j) + 1 == Pow2(j)
  {
    hide RegsOk, Dispatch;
    if j > 0 {
      SkippingClocks(b, j - 1);
    }
  }

  /** Nineteen clocks after the command, the result of mdio_read is the register, or all ones when no
      PHY answered, and the bus is back in its preamble. */
  lemma AnswerIsTheRegister(b: Bus, phy: nat, location: nat)
    requires BusOk(b) && location < 32
    ensures var b1 := b.(phase := Answering(b, phy, location));
      && Collected(b1, 19) / 2 % 0x1_0000 == (if phy in b.regs then b.regs[phy][location] else 0xffff)
      && Idle(b1, 19) == b.(phase := Preamble(1))
  {
    var b1 := b.(phase := Answering(b, phy, location));
    SmallPowers();
    if phy in b.regs {
      ReadingClocks(b1, 17);
      DataCollects(b1, 18);
      assert Pow2(16) == 0x1_0000;
    } else {
      SkippingClocks(b1, 17);
      assert Collected(b1, 18) == 0x3_ffff;
    }
    hide RegsOk, Dispatch, Pow2;
    assert Idle(b1, 18) == b.(phase := Preamble(0));
  }

  lemma OneBitMore(v: nat, i: nat, n: nat)
    ensures Bits(Upper(v, i), n + 1) == Bits(Upper(v, i + 1), n) + [BitOf(v, i)]
  {
  }

  lemma NothingDropped(v: nat)
    ensures Upper(v, 0) == v
  {
  }

  lemma RegistersOf(regs: map<nat, seq<int>>, phy: nat)
    requires RegsOk(regs)
    ensures phy in regs ==> |regs[phy]| == 32
  {
  }

  // ---------------------------------------------------------------------------------------------
  // The driver
  // ---------------------------------------------------------------------------------------------

  predicate Has(v: bv8, bit: bv8) {
    v & bit != 0
  }

  class Config4 {
    var bus: Bus
    var clk: bool

    /** RTL_W8 (Config4, v) */
    method Write(v: bv8)
      requires BusOk(bus)
      modifies this
      ensures BusOk(bus) && clk == Has(v, 0x01)
      ensures bus == if old(clk) || !Has(v, 0x01) then old(bus)
                     else Rise(old(bus), if Has(v, 0x80) then Has(v, 0x04) else Level(old(bus).phase))
    {
      var rising := !clk && Has(v, 0x01);
      if rising {
        var bit := if Has(v, 0x80) then Has(v, 0x04) else Level(bus.phase);
        RiseKeepsOk(bus, bit);
        bus := Rise(bus, bit);
      }
      clk := Has(v, 0x01);
    }

    method SendBit(bit: bool)
      requires BusOk(bus)
      modifies this
      ensures BusOk(bus) && bus == Rise(old(bus), bit)
    {
      hide BusOk, Rise, Level;
      var dataval: bv8 := if bit then MDIO_DATA_OUT else 0;
      Write(MDIO_DIR | dataval);
      Write(MDIO_DIR | dataval | MDIO_CLK);
    }

    /** One clock with MDIO released; the level is read before the edge. */
    method IdleClock() returns (bit: bool)
      requires BusOk(bus)
      modifies this
      ensures bit == Level(old(bus).phase)
      ensures BusOk(bus) && bus == Rise(old(bus), bit)
    {
      hide BusOk, Rise, Level;
      Write(0);
      bit := Level(bus.phase);
      Write(MDIO_CLK);
    }

    /** mdio_sync */
    method Sync()
      requires BusOk(bus) && bus.phase.Preamble?
      modifies this
      ensures BusOk(bus) && bus == old(bus).(phase := Preamble(old(bus).phase.ones + 33))
    {
      hide RegsOk, Dispatch;
      var i := 32;
      while i >= 0
        invariant -1 <= i <= 32
        invariant BusOk(bus) && bus == old(bus).(phase := Preamble(old(bus).phase.ones + 32 - i))
      {
        SendBit(true);
        i := i - 1;
      }
    }

    /** The loop that shifts the lower n bits of a command out */
    method SendCommand(cmd: nat, n: nat)
      requires BusOk(bus)
      modifies this
      ensures BusOk(bus) && bus == Feed(old(bus), Bits(cmd, n))
    {
      hide BusOk, Rise, BitOf, Upper, Bits;
      var i: int := n - 1;
      NoBits(bus, Upper(cmd, n));
      while i >= 0
        invariant -1 <= i < n
        invariant BusOk(bus) && bus == Feed(old(bus), Bits(Upper(cmd, i + 1), n - 1 - i))
      {
        FeedMore(old(bus), Bits(Upper(cmd, i + 1), n - 1 - i), BitOf(cmd, i));
        OneBitMore(cmd, i, n - 1 - i);
        SendBit(BitOf(cmd, i));
        i := i - 1;
      }
      NothingDropped(cmd);
    }

    /** mdio_read on an idle bus: the register, or all ones when there is no such PHY */
    method MdioRead(phyId: nat, location: nat) returns (retval: nat)
      requires BusOk(bus) && bus.phase.Preamble? && phyId < 32 && location < 32
      modifies this
      ensures phyId in bus.regs ==> |bus.regs[phyId]| == 32
      ensures retval == if phyId in bus.regs then bus.regs[phyId][location] else 0xffff
      ensures BusOk(bus) && bus.phase.Preamble? && bus.regs == old(bus).regs
    {
      hide RegsOk, Rise, Level, Feed, Bits, ReadCmd, Answering;
      Sync();
      ghost var b := bus;
      ReadIsUnderstood(b, phyId, location);
      AnswerIsTheRegister(b, phyId, location);
      SendCommand(ReadCmd(phyId, location), 16);
      ghost var b1 := bus;
      retval := 0;
      var i := 19;
      while i > 0
        invariant 0 <= i <= 19
        invariant BusOk(bus) && bus == Idle(b1, 19 - i) && retval == Collected(b1, 19 - i)
      {
        var bit := IdleClock();
        retval := 2 * retval + Num(bit);
        i := i - 1;
      }
      retval := retval / 2 % 0x1_0000;
      RegistersOf(bus.regs, phyId);
    }

    /** mdio_write on an idle bus: the register addressed takes the value, all others keep theirs. */
    method MdioWrite(phyId: nat, location: nat, value: nat)
      requires BusOk(bus) && bus.phase.Preamble? && phyId < 32 && location < 32 && value < 0x1_0000
      modifies this
      ensures bus.regs == Written(old(bus).regs, phyId, location, value)
      ensures BusOk(bus) && bus.phase.Preamble?
    {
      hide RegsOk, Feed, Bits, WriteCmd, Written, Dispatch;
      Sync();
      WriteIsUnderstood(bus, phyId, location, value);
      SendCommand(WriteCmd(phyId, location, value), 32);
      var i := 2;
      while i > 0
        invariant 0 <= i <= 2
        invariant BusOk(bus) && bus.phase.Preamble? && bus.regs == Written(old(bus).regs, phyId, location, value)
      {
        var _ := IdleClock();
        i := i - 1;
      }
    }
  }
}
