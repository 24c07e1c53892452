/**
 read_eeprom (net/realtek/8139too.c) against a Microwire EEPROM of the 93C46/93C66 family that shifts
 on rising clock edges. The command may be sent with more address bits than the part has, which is
 how the driver finds out which part is fitted.
*/
module Eeprom {
  import opened BitMath
  import opened Common

  const EE_SHIFT_CLK: bv8 := 0x04
  const EE_CS: bv8 := 0x08
  const EE_DATA_WRITE: bv8 := 0x02
  const EE_ENB: bv8 := 0x88
  const EE_READ_CMD: nat := 6

  // ---------------------------------------------------------------------------------------------
  // The part
  // ---------------------------------------------------------------------------------------------

  /** What is stored, and the bits that follow the sixteen of a word if the clock goes on */
  datatype Part = Part(width: nat, words: seq<nat>, beyond: nat -> bool)

  /** Standby while not selected; collecting a command, zero until its start bit; sending a word, with
      the number of clocks since its address was complete; or doing something else. */
  datatype Phase = Standby | Command(acc: nat) | Sending(word: nat, clocks: nat) | Other

  datatype Line = Line(cs: bool, clk: bool, phase: Phase, out: bool)

  ghost predicate PartOk(p: Part) {
    |p.words| == Pow2(p.width) && forall i :: 0 <= i < |p.words| ==> p.words[i] < 0x1_0000
  }

  /** The k-th bit sent, from the most significant on */
  function OutBit(p: Part, word: nat, k: nat): bool
    requires k > 0
  {
    if k <= 16 then BitOf(word, 16 - k) else p.beyond(k)
  }

  function Shift(p: Part, l: Line, di: bool): Line
    requires PartOk(p)
  {
    match l.phase
    case Command(acc) =>
      var a := 2 * acc + Num(di);
      if a < Pow2(p.width + 2) then l.(clk := true, phase := Command(a))
      else if a / Pow2(p.width) == 6 then
        l.(clk := true, phase := Sending(p.words[a % Pow2(p.width)], 0), out := false)
      else l.(clk := true, phase := Other)
    case Sending(word, k) => l.(clk := true, phase := Sending(word, k + 1), out := OutBit(p, word, k + 1))
    case _ => l.(clk := true)
  }

  /** The lines after a write to the control register */
  function Drive(p: Part, l: Line, cs: bool, clk: bool, di: bool): Line
    requires PartOk(p)
  {
    if !cs then Line(false, clk, Standby, true)
    else if !l.cs then Line(true, clk, Command(0), l.out)
    else if !l.clk && clk then Shift(p, l, di)
    else l.(clk := clk)
  }

  /** What a read with `skip` superfluous address bits brings: the stream from bit skip on */
  function Window(p: Part, word: nat, skip: nat, n: nat): nat {
    if n == 0 then 0 else 2 * Window(p, word, skip, n - 1) + Num(OutBit(p, word, skip + n))
  }

  // ---------------------------------------------------------------------------------------------
  // Powers of two and bits
  // ---------------------------------------------------------------------------------------------

  lemma MulMono(a: int, b: int, d: nat)
    ensures a <= b ==> a * d <= b * d
  {
    assert (b - a) * d == b * d - a * d;
  }

  lemma DivIs(v: nat, d: nat, q: nat, r: nat)
    requires v == q * d + r && r < d
    ensures v / d == q && v % d == r
  {
    var q1 := v / d;
    MulMono(q1 + 1, q, d);
    MulMono(q + 1, q1, d);
    assert (q1 + 1) * d == q1 * d + d && (q + 1) * d == q * d + d;
  }

  /** The command word: the read opcode, then the address */
  function ReadCmd(location: nat, addrLen: nat): nat {
    EE_READ_CMD * Pow2(addrLen) + location
  }

  /** The bits of the address behind those of the opcode */
  lemma {:induction false} UpperCommand(n: nat, k: nat, location: nat)
    requires location < Pow2(n) && k <= n
    ensures Upper(ReadCmd(location, n), k) == EE_READ_CMD * Pow2(n - k) + Upper(location, k)
    ensures Upper(location, k) < Pow2(n - k)
  {
    if k > 0 {
      UpperCommand(n, k - 1, location);
      assert Pow2(n - (k - 1)) == 2 * Pow2(n - k);
    }
  }

  lemma {:induction false} UpperShrinks(v: nat, i: nat, j: nat)
    requires i <= j
    ensures Upper(v, j) <= Upper(v, i)
  {
    if i < j {
      UpperShrinks(v, i, j - 1);
    }
  }

  /** A part of w address bits does not take a command of w + d address bits for complete while more
      than the last d bits are missing. */
  lemma NotCompleteBefore(w: nat, d: nat, location: nat, i: nat)
    requires i > d && location < Pow2(w + d)
    ensures Upper(ReadCmd(location, w + d), i) < Pow2(w + 2)
  {
    UpperCommand(w + d, d, location);
    UpperShrinks(ReadCmd(location, w + d), d + 1, i);
    assert Pow2(w + 2) == 2 * Pow2(w + 1) == 4 * Pow2(w);
  }

  /** The state of the part when i bits of the command are still to come */
  function PhaseBefore(p: Part, d: nat, location: nat, i: nat): Phase
    requires PartOk(p)
  {
    if i > d then Command(Upper(ReadCmd(location, p.width + d), i))
    else if Upper(location, d) < |p.words| then Sending(p.words[Upper(location, d)], d - i)
    else Other
  }

  lemma TheCommandIsARead(w: nat, d: nat, location: nat)
    requires location < Pow2(w + d)
    ensures var a := Upper(ReadCmd(location, w + d), d);
      a >= Pow2(w + 2) && a / Pow2(w) == EE_READ_CMD && a % Pow2(w) == Upper(location, d)
  {
    assert Pow2(w + 2) == 2 * Pow2(w + 1);
    assert Pow2(w + 1) == 2 * Pow2(w);
    hide Pow2, ReadCmd, Upper;
    UpperCommand(w + d, d, location);
    SplitCommand(Upper(ReadCmd(location, w + d), d), Pow2(w), Upper(location, d));
  }

  lemma SplitCommand(a: nat, p: nat, q: nat)
    requires a == EE_READ_CMD * p + q && q < p
    ensures a >= 4 * p && a / p == EE_READ_CMD && a % p == q
  {
    DivIs(a, p, EE_READ_CMD, q);
  }

  lemma ShiftAdvances(p: Part, l: Line, d: nat, location: nat, i: nat)
    requires PartOk(p) && location < Pow2(p.width + d) && l.phase == PhaseBefore(p, d, location, i + 1)
    ensures Shift(p, l, BitOf(ReadCmd(location, p.width + d), i)).phase == PhaseBefore(p, d, location, i)
    ensures Shift(p, l, BitOf(ReadCmd(location, p.width + d), i)).cs == l.cs
  {
    hide BitOf, OutBit, Pow2, ReadCmd, Upper;
    var cmd := ReadCmd(location, p.width + d);
    NextBit(cmd, i);
    if i > d {
      NotCompleteBefore(p.width, d, location, i);
    } else if i == d {
      TheCommandIsARead(p.width, d, location);
    }
  }

  // ---------------------------------------------------------------------------------------------
  // The driver
  // ---------------------------------------------------------------------------------------------

  predicate Has(v: bv8, bit: bv8) {
    v & bit != 0
  }

  class Chip {
    const part: Part
    var line: Line

    /** RTL_W8 (Cfg9346, v) */
    method Write(v: bv8)
      requires PartOk(part)
      modifies this
      ensures line == Drive(part, old(line), Has(v, 0x08), Has(v, 0x04), Has(v, 0x02))
    {
      line := Drive(part, line, Has(v, 0x08), Has(v, 0x04), Has(v, 0x02));
    }

    /** RTL_R8 (Cfg9346) & EE_DATA_READ */
    method DataRead() returns (bit: bool)
      ensures bit == line.out
    {
      bit := line.out;
    }

    /** One bit of the command: data, then data with the clock */
    method SendBit(bit: bool)
      requires PartOk(part) && line.cs
      modifies this
      ensures line == Shift(part, old(line).(clk := false), bit)
    {
      hide PartOk, Shift;
      var dataval: bv8 := if bit then EE_DATA_WRITE else 0;
      Write(EE_ENB | dataval);
      Write(EE_ENB | dataval | EE_SHIFT_CLK);
    }

    /** One bit of the answer: read behind the rising edge */
    method ReceiveBit() returns (bit: bool)
      requires PartOk(part) && line.cs && !line.clk && line.phase.Sending?
      modifies this
      ensures line.cs && !line.clk && line.phase == Sending(old(line).phase.word, old(line).phase.clocks + 1)
      ensures bit == OutBit(part, old(line).phase.word, old(line).phase.clocks + 1)
    {
      hide PartOk, OutBit;
      Write(EE_ENB | EE_SHIFT_CLK);
      bit := DataRead();
      Write(EE_ENB);
    }

    /** For any state of the lines and any part no wider than addrLen says: the word at the location,
        seen through as many bits as the part has fewer. */
    method ReadEeprom(location: nat, addrLen: nat) returns (retval: nat)
      requires PartOk(part) && part.width <= addrLen && location < Pow2(addrLen)
      modifies this
      ensures var d := addrLen - part.width;
        && Upper(location, d) < |part.words|
        && retval == Window(part, part.words[Upper(location, d)], d, 16)
      ensures line == Line(false, false, Standby, true)
    {
      hide PartOk, Shift, BitOf, OutBit, Pow2, Upper, PhaseBefore;
      ghost var d: nat := addrLen - part.width;
      var readCmd := ReadCmd(location, addrLen);
      Write(EE_ENB & !EE_CS);
      Write(EE_ENB);
      StartsEmpty(part, d, location);
      var i := 4 + addrLen;
      while i >= 0
        invariant -1 <= i <= 4 + addrLen
        invariant line.cs && line.phase == PhaseBefore(part, d, location, i + 1)
      {
        ShiftAdvances(part, line.(clk := false), d, location, i);
        SendBit(BitOf(readCmd, i));
        i := i - 1;
      }
      Write(EE_ENB);
      UpperCommand(addrLen, d, location);
      SendsTheWord(part, d, location);
      ghost var word := part.words[Upper(location, d)];
      retval := 0;
      i := 16;
      while i > 0
        invariant 0 <= i <= 16
        invariant line.cs && !line.clk && line.phase == Sending(word, d + 16 - i)
        invariant retval == Window(part, word, d, 16 - i)
      {
        var bit := ReceiveBit();
        retval := 2 * retval + Num(bit);
        i := i - 1;
      }
      Write(0);
    }
  }

  /** With the whole command in, the part sends the word, d clocks ahead of the driver. */
  lemma SendsTheWord(p: Part, d: nat, location: nat)
    requires PartOk(p) && Upper(location, d) < Pow2(p.width)
    ensures Upper(location, d) < |p.words|
    ensures PhaseBefore(p, d, location, 0) == Sending(p.words[Upper(location, d)], d)
  {
  }

  /** No bit of the command beyond the leading zeros */
  lemma StartsEmpty(p: Part, d: nat, location: nat)
    requires PartOk(p) && location < Pow2(p.width + d)
    ensures PhaseBefore(p, d, location, 4 + p.width + d + 1) == Command(0)
  {
    var n := p.width + d;
    UpperCommand(n, n, location);
    var cmd := ReadCmd(location, n);
    assert Upper(cmd, n + 2) == Upper(cmd, n + 1) / 2 == 1;
    assert Upper(cmd, n + 4) == Upper(cmd, n + 3) / 2 == 0;
  }

  // ---------------------------------------------------------------------------------------------
  // What the reads bring
  // ---------------------------------------------------------------------------------------------

  lemma {:induction false} PowAdds(a: nat, b: nat)
    ensures Pow2(a + b) == Pow2(a) * Pow2(b)
    decreases b
  {
    if b > 0 {
      PowAdds(a, b - 1);
      assert Pow2(a + b) == 2 * Pow2(a + (b - 1));
      assert Pow2(b) == 2 * Pow2(b - 1);
      assert Pow2(a) * (2 * Pow2(b - 1)) == 2 * (Pow2(a) * Pow2(b - 1));
    }
  }

  lemma {:induction false} PowGrows(a: nat, b: nat)
    requires a <= b
    ensures Pow2(a) <= Pow2(b)
    decreases b
  {
    if a < b {
      PowGrows(a, b - 1);
    }
  }

  lemma FourteenBits()
    ensures Pow2(14) == 0x4000
  {
    assert Pow2(2) == 4 * Pow2(0);
    assert Pow2(4) == 4 * Pow2(2);
    assert Pow2(6) == 4 * Pow2(4);
    assert Pow2(8) == 4 * Pow2(6);
    assert Pow2(10) == 4 * Pow2(8);
    assert Pow2(12) == 4 * Pow2(10);
    assert Pow2(14) == 4 * Pow2(12);
  }

  /** The first n bits of a word, in the order they are sent, are its upper n bits. */
  lemma {:induction false} WindowIsPrefix(p: Part, word: nat, n: nat)
    requires n <= 16 && word < 0x1_0000
    ensures Window(p, word, 0, n) == Upper(word, 16 - n)
  {
    if n == 0 {
      ShiftedOut(word);
    } else {
      hide Pow2, BitOf, Upper;
      WindowIsPrefix(p, word, n - 1);
      NextBit(word, 16 - n);
    }
  }

  /** With the address width of the part, read_eeprom returns the word at the location. */
  lemma RightWidthReadsTheWord(p: Part, location: nat)
    requires PartOk(p) && location < Pow2(p.width)
    ensures Upper(location, 0) == location
    ensures Window(p, p.words[Upper(location, 0)], 0, 16) == p.words[location]
  {
    WindowIsPrefix(p, p.words[location], 16);
  }

  lemma OneBitMore(w: nat, q: nat, t: nat, b: nat)
    ensures 2 * (w * q + t) + b == w * (2 * q) + (2 * t + b)
  {
  }

  lemma {:induction false} WindowsOverlap(p: Part, word: nat, skip: nat, n: nat)
    ensures Window(p, word, 0, skip + n) == Window(p, word, 0, skip) * Pow2(n) + Window(p, word, skip, n)
  {
    hide OutBit;
    if n > 0 {
      WindowsOverlap(p, word, skip, n - 1);
      OneBitMore(Window(p, word, 0, skip), Pow2(n - 1), Window(p, word, skip, n - 1), Num(OutBit(p, word, skip + n)));
    }
  }

  lemma {:induction false} WindowFits(p: Part, word: nat, skip: nat, n: nat)
    ensures Window(p, word, skip, n) < Pow2(n)
  {
    if n > 0 {
      WindowFits(p, word, skip, n - 1);
    }
  }

  /** With two address bits too many, the lower fourteen bits of word 0 arrive, moved up by two. */
  lemma TooWideReadsShifted(p: Part, word: nat)
    requires word < 0x1_0000
    ensures Window(p, word, 2, 16) / 4 == word % 0x4000
  {
    hide Window, Pow2;
    WindowIsPrefix(p, word, 16);
    assert Upper(word, 0) == word;
    WindowsOverlap(p, word, 2, 14);
    WindowFits(p, word, 2, 14);
    FourteenBits();
    WindowTail(p, word);
  }

  lemma WindowTail(p: Part, word: nat)
    ensures Window(p, word, 2, 16) / 4 == Window(p, word, 2, 14)
  {
    assert Window(p, word, 2, 16) == 2 * Window(p, word, 2, 15) + Num(OutBit(p, word, 18));
    assert Window(p, word, 2, 15) == 2 * Window(p, word, 2, 14) + Num(OutBit(p, word, 17));
  }

  /** The probe of the driver, a read of location 0 with eight address bits: on a part whose word 0 is
      0x8129 it reads that value exactly when the part has eight address bits, not six. */
  lemma ProbeFindsTheWidth(p: Part)
    requires PartOk(p) && (p.width == 6 || p.width == 8) && 0 < |p.words| && p.words[0] == 0x8129
    ensures Window(p, p.words[0], 8 - p.width, 16) == 0x8129 <==> p.width == 8
  {
    if p.width == 8 {
      WindowIsPrefix(p, p.words[0], 16);
    } else {
      TooWideReadsShifted(p, p.words[0]);
    }
  }
}
