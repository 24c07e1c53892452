/**
 Mixer controls of the ES1938 driver (Sound/es1938.c) over the chip's ports: the mixer registers behind
 an address and a data port, the controller registers (0xa0 and up) behind a command port that takes a
 register and a value, or READREG and a register. The chip is always ready; time-outs are left out.
*/
module Mixer {
  const READREG: bv8 := 0xc0
  const CONTROLLER: bv8 := 0xa0

  // ---------------------------------------------------------------------------------------------
  // Bytes
  // ---------------------------------------------------------------------------------------------

  function And(a: bv8, b: bv8): bv8 {
    a & b
  }

  function Or(a: bv8, b: bv8): bv8 {
    a | b
  }

  function Not(a: bv8): bv8 {
    !a
  }

  function Sub(a: bv8, b: bv8): bv8 {
    a - b
  }

  function Shl(a: bv8, s: bv8): bv8
    requires s < 8
  {
    a << s
  }

  function Shr(a: bv8, s: bv8): bv8
    requires s < 8
  {
    a >> s
  }

  /** A byte with the bits of a mask replaced: the write of mixer_bits and bits */
  function Merge(byte: bv8, mask: bv8, val: bv8): bv8 {
    Or(And(byte, Not(mask)), And(val, mask))
  }

  lemma MergeSetsMask(byte: bv8, mask: bv8, val: bv8)
    ensures And(Merge(byte, mask, val), mask) == And(val, mask)
  {
  }

  lemma MergeKeepsRest(byte: bv8, mask: bv8, val: bv8)
    ensures And(Merge(byte, mask, val), Not(mask)) == And(byte, Not(mask))
  {
  }

  lemma ShiftedInMask(mask: bv8, s: bv8, w: bv8)
    requires s < 8 && And(w, mask) == w
    ensures And(Shl(w, s), Shl(mask, s)) == Shl(w, s)
  {
  }

  lemma ShownFromBits(mask: bv8, s: bv8, w: bv8, byte: bv8)
    requires s < 8 && Shr(Shl(mask, s), s) == mask && And(w, mask) == w && And(byte, Shl(mask, s)) == Shl(w, s)
    ensures And(Shr(byte, s), mask) == w
  {
  }

  lemma BitsFromShown(mask: bv8, s: bv8, w: bv8, byte: bv8)
    requires s < 8 && And(Shr(byte, s), mask) == w
    ensures Shl(w, s) == And(byte, Shl(mask, s))
  {
  }

  lemma MaskedIsInMask(v: bv8, mask: bv8)
    ensures And(And(v, mask), mask) == And(v, mask)
  {
  }

  lemma ToggledIsInMask(v: bv8, mask: bv8)
    ensures And(Sub(mask, And(v, mask)), mask) == Sub(mask, And(v, mask))
  {
  }

  lemma SubTwice(mask: bv8, v: bv8)
    ensures Sub(mask, Sub(mask, v)) == v
  {
  }

  lemma OrIsInMasks(m1: bv8, v1: bv8, m2: bv8, v2: bv8)
    requires And(v1, m1) == v1 && And(v2, m2) == v2
    ensures And(Or(v1, v2), Or(m1, m2)) == Or(v1, v2)
  {
  }

  lemma BothFromJoined(byte: bv8, m1: bv8, v1: bv8, m2: bv8, v2: bv8)
    requires And(m1, m2) == 0 && And(v1, m1) == v1 && And(v2, m2) == v2
    requires And(byte, Or(m1, m2)) == Or(v1, v2)
    ensures And(byte, m1) == v1 && And(byte, m2) == v2
  {
  }

  lemma JoinedFromBoth(byte: bv8, m1: bv8, v1: bv8, m2: bv8, v2: bv8)
    requires And(byte, m1) == v1 && And(byte, m2) == v2
    ensures And(byte, Or(m1, m2)) == Or(v1, v2)
  {
  }

  // ---------------------------------------------------------------------------------------------
  // Controls
  // ---------------------------------------------------------------------------------------------

  /** The private_value of a single control: reg | shift << 8 | mask << 16 | invert << 24 */
  function PackSingle(reg: bv8, shift: bv8, mask: bv8, invert: bv8): bv32 {
    (reg as bv32) | ((shift as bv32) << 8) | ((mask as bv32) << 16) | ((invert as bv32) << 24)
  }

  /** The private_value of a double control */
  function PackDouble(left: bv8, right: bv8, shiftLeft: bv8, shiftRight: bv8, mask: bv8, invert: bv8): bv32 {
    (left as bv32) | ((right as bv32) << 8) | ((shiftLeft as bv32) << 16) | ((shiftRight as bv32) << 19)
    | ((mask as bv32) << 24) | ((invert as bv32) << 22)
  }

  function Byte(pv: bv32, at: bv8): bv8
    requires at <= 24
  {
    ((pv >> at) & 0xff) as bv8
  }

  function Three(pv: bv32, at: bv8): bv8
    requires at <= 24
  {
    ((pv >> at) & 7) as bv8
  }

  lemma SingleUnpacks(reg: bv8, shift: bv8, mask: bv8, invert: bv8)
    ensures var pv := PackSingle(reg, shift, mask, invert);
      Byte(pv, 0) == reg && Byte(pv, 8) == shift && Byte(pv, 16) == mask && Byte(pv, 24) == invert
  {
  }

  lemma DoubleUnpacks(left: bv8, right: bv8, shiftLeft: bv8, shiftRight: bv8, mask: bv8, invert: bv8)
    requires shiftLeft < 8 && shiftRight < 8 && invert < 2
    ensures var pv := PackDouble(left, right, shiftLeft, shiftRight, mask, invert);
      && Byte(pv, 0) == left && Byte(pv, 8) == right && Byte(pv, 24) == mask
      && Three(pv, 16) == shiftLeft && Three(pv, 19) == shiftRight && (pv >> 22) & 1 == invert as bv32
  {
  }

  /** Where a value lies in a register, and whether it counts down */
  datatype Field = Field(shift: bv8, mask: bv8, invert: bool)

  /** The shifted mask fits the byte. */
  predicate Fits(f: Field) {
    f.shift < 8 && Shr(Shl(f.mask, f.shift), f.shift) == f.mask
  }

  /** The bits of the register the field takes */
  function Taken(f: Field): bv8
    requires Fits(f)
  {
    Shl(f.mask, f.shift)
  }

  function Level(f: Field, value: bv8): bv8 {
    if f.invert then Sub(f.mask, And(value, f.mask)) else And(value, f.mask)
  }

  /** The register bits that stand for a value */
  function Encode(f: Field, value: bv8): bv8
    requires Fits(f)
  {
    Shl(Level(f, value), f.shift)
  }

  /** The value a register shows */
  function Decode(f: Field, byte: bv8): bv8
    requires Fits(f)
  {
    var v := And(Shr(byte, f.shift), f.mask);
    if f.invert then Sub(f.mask, v) else v
  }

  lemma FitsShift(f: Field)
    requires Fits(f)
    ensures f.shift < 8
  {
  }

  lemma LevelIsInMask(f: Field, value: bv8)
    ensures And(Level(f, value), f.mask) == Level(f, value)
  {
    hide And, Sub;
    MaskedIsInMask(value, f.mask);
    ToggledIsInMask(value, f.mask);
  }

  lemma EncodingIsTaken(f: Field, value: bv8)
    requires Fits(f)
    ensures And(Encode(f, value), Taken(f)) == Encode(f, value)
  {
    hide And, Shl, Level;
    LevelIsInMask(f, value);
    ShiftedInMask(f.mask, f.shift, Level(f, value));
  }

  /** The comparison of put: the field holds the encoding exactly when the register shows the value. */
  lemma SameBitsSameValue(f: Field, value: bv8, byte: bv8)
    requires Fits(f)
    ensures And(byte, Taken(f)) == Encode(f, value) <==> Decode(f, byte) == And(value, f.mask)
  {
    hide And, Shl, Shr, Sub;
    LevelIsInMask(f, value);
    var v := And(Shr(byte, f.shift), f.mask);
    SubTwice(f.mask, v);
    SubTwice(f.mask, And(value, f.mask));
    if And(byte, Taken(f)) == Encode(f, value) {
      ShownFromBits(f.mask, f.shift, Level(f, value), byte);
    }
    if v == Level(f, value) {
      BitsFromShown(f.mask, f.shift, Level(f, value), byte);
    }
  }

  /** What was put is what is got, as far as the mask allows, whatever the other bits are. */
  lemma PutThenGet(f: Field, value: bv8, byte: bv8)
    requires Fits(f)
    ensures Decode(f, Merge(byte, Taken(f), Encode(f, value))) == And(value, f.mask)
  {
    hide And, Merge, Taken, Encode, Decode, Fits;
    MergeSetsMask(byte, Taken(f), Encode(f, value));
    EncodingIsTaken(f, value);
    SameBitsSameValue(f, value, Merge(byte, Taken(f), Encode(f, value)));
  }

  /** The field of a single control */
  function SingleField(pv: bv32): Field {
    Field(Byte(pv, 8), Byte(pv, 16), Byte(pv, 24) != 0)
  }

  /** The left and the right field of a double control */
  function LeftField(pv: bv32): Field {
    Field(Three(pv, 16), Byte(pv, 24), (pv >> 22) & 1 != 0)
  }

  function RightField(pv: bv32): Field {
    Field(Three(pv, 19), Byte(pv, 24), (pv >> 22) & 1 != 0)
  }

  /** The controls of the driver's tables: a field packed into a private_value is the field got out of it. */
  lemma FieldsUnpack(left: bv8, right: bv8, shift: bv8, shiftRight: bv8, mask: bv8, invert: bv8)
    ensures SingleField(PackSingle(left, shift, mask, invert)) == Field(shift, mask, invert != 0)
    ensures shift < 8 && shiftRight < 8 && invert < 2 ==>
      var pv := PackDouble(left, right, shift, shiftRight, mask, invert);
      LeftField(pv) == Field(shift, mask, invert != 0) && RightField(pv) == Field(shiftRight, mask, invert != 0)
  {
    hide PackSingle, PackDouble, Byte, Three;
    SingleUnpacks(left, shift, mask, invert);
    if shift < 8 && shiftRight < 8 && invert < 2 {
      DoubleUnpacks(left, right, shift, shiftRight, mask, invert);
    }
  }

  function Shown(f: Field, byte: bv8): bv8
    requires f.shift < 8
  {
    (byte >> f.shift) & f.mask
  }

  lemma ComplementInMask(x: bv8, mask: bv8)
    ensures Sub(mask, And(x, mask)) == And(x, mask) ^ mask
  {
  }

  lemma ShownIs(f: Field, byte: bv8)
    requires f.shift < 8
    ensures And(Shr(byte, f.shift), f.mask) == Shown(f, byte)
  {
  }

  /** The value shown: the bits of the field, moved down, and complemented within the mask when the
      register counts down. */
  lemma ShownExactly(f: Field, byte: bv8)
    requires Fits(f)
    ensures Decode(f, byte) == if f.invert then Shown(f, byte) ^ f.mask else Shown(f, byte)
  {
    hide And, Shr, Sub, Shown;
    FitsShift(f);
    ShownIs(f, byte);
    ComplementInMask(Shr(byte, f.shift), f.mask);
  }

  /** Two fields of one register that do not overlap */
  ghost predicate Apart(f: Field, g: Field) {
    Fits(f) && Fits(g) && And(Taken(f), Taken(g)) == 0
  }

  // ---------------------------------------------------------------------------------------------
  // The chip and its driver
  // ---------------------------------------------------------------------------------------------

  /** What the command port expects next */
  datatype Command = Idle | AwaitRegister | AwaitValue(reg: bv8)

  class Es1938 {
    const mixer: array<bv8>         // behind MIXERADDR and MIXERDATA
    const controller: array<bv8>    // behind WRITEDATA and READDATA
    var mixerAddr: bv8
    var command: Command
    var readData: bv8

    ghost predicate Valid()
      reads this
    {
      mixer != controller && mixer.Length == 256 && controller.Length == 256 && command.Idle?
    }

    /** The register a control names */
    ghost function Reg(reg: bv8): bv8
      requires Valid()
      reads this, mixer, controller
    {
      if reg < 0xa0 then mixer[reg] else controller[reg]
    }

    /** A write to the command port */
    method WriteCmd(cmd: bv8)
      requires controller.Length == 256
      modifies controller, `command, `readData
      ensures match old(command)
              case Idle =>
                command == (if cmd == 0xc0 then AwaitRegister else AwaitValue(cmd))
                && readData == old(readData) && controller[..] == old(controller[..])
              case AwaitRegister =>
                command == Idle && readData == old(controller[cmd]) && controller[..] == old(controller[..])
              case AwaitValue(reg) =>
                command == Idle && readData == old(readData) && controller[reg] == cmd
                && forall r: bv8 :: r != reg ==> controller[r] == old(controller[r])
    {
      match command {
        case Idle => command := if cmd == 0xc0 then AwaitRegister else AwaitValue(cmd);
        case AwaitRegister => command, readData := Idle, controller[cmd];
        case AwaitValue(reg) =>
          controller[reg] := cmd;
          command := Idle;
      }
    }

    method MixerBits(reg: bv8, mask: bv8, val: bv8) returns (oval: bv8)
      requires Valid()
      modifies mixer, `mixerAddr
      ensures Valid() && oval == And(old(mixer[reg]), mask)
      ensures And(mixer[reg], mask) == And(val, mask)
      ensures And(mixer[reg], Not(mask)) == And(old(mixer[reg]), Not(mask))
      ensures forall r: bv8 :: r != reg ==> mixer[r] == old(mixer[r])
    {
      hide And, Or, Not, Merge;
      mixerAddr := reg;
      var was := mixer[mixerAddr];
      oval := And(was, mask);
      MaskedIsInMask(was, mask);
      MergeSetsMask(was, mask, val);
      MergeKeepsRest(was, mask, val);
      if val != oval {
        mixer[mixerAddr] := Merge(was, mask, val);
      }
    }

    method Bits(reg: bv8, mask: bv8, val: bv8) returns (oval: bv8)
      requires Valid() && reg != READREG
      modifies controller, `command, `readData
      ensures Valid() && oval == And(old(controller[reg]), mask)
      ensures And(controller[reg], mask) == And(val, mask)
      ensures And(controller[reg], Not(mask)) == And(old(controller[reg]), Not(mask))
      ensures forall r: bv8 :: r != reg ==> controller[r] == old(controller[r])
    {
      hide And, Or, Not, Merge;
      WriteCmd(READREG);
      WriteCmd(reg);
      var was := readData;
      oval := And(was, mask);
      MaskedIsInMask(was, mask);
      MergeSetsMask(was, mask, val);
      MergeKeepsRest(was, mask, val);
      if val != oval {
        WriteCmd(reg);
        WriteCmd(Merge(was, mask, val));
      }
    }

    method RegBits(reg: bv8, mask: bv8, val: bv8) returns (oval: bv8)
      requires Valid() && reg != READREG
      modifies mixer, controller, `mixerAddr, `command, `readData
      ensures Valid() && oval == And(old(Reg(reg)), mask)
      ensures And(Reg(reg), mask) == And(val, mask)
      ensures And(Reg(reg), Not(mask)) == And(old(Reg(reg)), Not(mask))
      ensures forall r: bv8 :: r != reg ==> Reg(r) == old(Reg(r))
    {
      hide And, Or, Not, Merge;
      if reg < CONTROLLER {
        oval := MixerBits(reg, mask, val);
      } else {
        oval := Bits(reg, mask, val);
      }
    }

    /** mixer_read or read */
    method RegRead(reg: bv8) returns (val: bv8)
      requires Valid()
      modifies controller, `mixerAddr, `command, `readData
      ensures Valid() && val == old(Reg(reg))
      ensures controller[..] == old(controller[..])
    {
      if reg < CONTROLLER {
        mixerAddr := reg;
        val := mixer[mixerAddr];
      } else {
        WriteCmd(READREG);
        WriteCmd(reg);
        val := readData;
      }
    }

    method GetSingle(pv: bv32) returns (value: bv8)
      requires Valid() && Fits(SingleField(pv))
      modifies controller, `mixerAddr, `command, `readData
      ensures Valid() && value == Decode(SingleField(pv), old(Reg(Byte(pv, 0))))
      ensures controller[..] == old(controller[..])
    {
      hide And, Shl, Shr, Sub, Byte;
      var f := SingleField(pv);
      var val := RegRead(Byte(pv, 0));
      value := And(Shr(val, f.shift), f.mask);
      if f.invert {
        value := Sub(f.mask, value);
      }
    }

    /** The register then shows the value, its other bits and all other registers are as before, and a
        change is reported exactly when the register showed something else. */
    method PutSingle(pv: bv32, value: bv8) returns (change: bool)
      requires Valid() && Fits(SingleField(pv)) && Byte(pv, 0) != READREG
      modifies mixer, controller, `mixerAddr, `command, `readData
      ensures Valid()
      ensures var f, reg := SingleField(pv), Byte(pv, 0);
        && Decode(f, Reg(reg)) == And(value, f.mask)
        && And(Reg(reg), Not(Taken(f))) == And(old(Reg(reg)), Not(Taken(f)))
        && (change <==> Decode(f, old(Reg(reg))) != And(value, f.mask))
      ensures forall r: bv8 :: r != Byte(pv, 0) ==> Reg(r) == old(Reg(r))
    {
      hide And, Not, Shl, Sub, Merge, Decode, Byte, SingleField, Fits;
      var f, reg := SingleField(pv), Byte(pv, 0);
      var val := And(value, f.mask);
      if f.invert {
        val := Sub(f.mask, val);
      }
      ghost var was := Reg(reg);
      FitsShift(f);
      var mask := Shl(f.mask, f.shift);
      val := Shl(val, f.shift);
      var oval := RegBits(reg, mask, val);
      FieldTakesValue(f, value, was, Reg(reg));
      change := oval != val;
    }

    /** Both fields then show their values, everything else is as before, and a change is reported exactly
        when one of them showed something else. */
    method PutDouble(pv: bv32, left: bv8, right: bv8) returns (change: bool)
      requires Valid() && Fits(LeftField(pv)) && Fits(RightField(pv))
      requires Byte(pv, 0) != READREG && Byte(pv, 8) != READREG
      requires Byte(pv, 0) == Byte(pv, 8) ==> Apart(LeftField(pv), RightField(pv))
      modifies mixer, controller, `mixerAddr, `command, `readData
      ensures Valid()
      ensures var l, r, lreg, rreg := LeftField(pv), RightField(pv), Byte(pv, 0), Byte(pv, 8);
        && Decode(l, Reg(lreg)) == And(left, l.mask) && Decode(r, Reg(rreg)) == And(right, r.mask)
        && (lreg != rreg ==>
              && And(Reg(lreg), Not(Taken(l))) == And(old(Reg(lreg)), Not(Taken(l)))
              && And(Reg(rreg), Not(Taken(r))) == And(old(Reg(rreg)), Not(Taken(r))))
        && (lreg == rreg ==>
              And(Reg(lreg), Not(Or(Taken(l), Taken(r)))) == And(old(Reg(lreg)), Not(Or(Taken(l), Taken(r)))))
        && (change <==>
              Decode(l, old(Reg(lreg))) != And(left, l.mask) || Decode(r, old(Reg(rreg))) != And(right, r.mask))
      ensures forall q: bv8 :: q != Byte(pv, 0) && q != Byte(pv, 8) ==> Reg(q) == old(Reg(q))
    {
      hide And, Or, Not, Merge, Decode, Byte, LeftField, RightField, Fits, Taken, Encode;
      var l, r, leftReg, rightReg := LeftField(pv), RightField(pv), Byte(pv, 0), Byte(pv, 8);
      var val1, val2 := Encode(l, left), Encode(r, right);
      var mask1, mask2 := Taken(l), Taken(r);
      if leftReg != rightReg {
        ghost var was1, was2 := Reg(leftReg), Reg(rightReg);
        change := false;
        var oval := RegBits(leftReg, mask1, val1);
        FieldTakesValue(l, left, was1, Reg(leftReg));
        if oval != val1 {
          change := true;
        }
        oval := RegBits(rightReg, mask2, val2);
        FieldTakesValue(r, right, was2, Reg(rightReg));
        if oval != val2 {
          change := true;
        }
      } else {
        ghost var was := Reg(leftReg);
        var oval := RegBits(leftReg, Or(mask1, mask2), Or(val1, val2));
        BothTakeValues(l, left, r, right, was, Reg(leftReg));
        change := oval != Or(val1, val2);
      }
    }
  }

  /** A register whose field took the encoding shows the value; before, it showed the value exactly when the
      field held the encoding already. */
  lemma FieldTakesValue(f: Field, value: bv8, was: bv8, now: bv8)
    requires Fits(f) && And(now, Taken(f)) == And(Encode(f, value), Taken(f))
    ensures Decode(f, now) == And(value, f.mask)
    ensures And(was, Taken(f)) == Encode(f, value) <==> Decode(f, was) == And(value, f.mask)
  {
    hide And, Taken, Encode, Decode, Fits;
    EncodingIsTaken(f, value);
    SameBitsSameValue(f, value, now);
    SameBitsSameValue(f, value, was);
  }

  lemma BothTakeValues(l: Field, left: bv8, r: Field, right: bv8, was: bv8, now: bv8)
    requires Apart(l, r)
    requires var mask, bits := Or(Taken(l), Taken(r)), Or(Encode(l, left), Encode(r, right));
      And(now, mask) == And(bits, mask)
    ensures Decode(l, now) == And(left, l.mask) && Decode(r, now) == And(right, r.mask)
    ensures And(was, Or(Taken(l), Taken(r))) == Or(Encode(l, left), Encode(r, right))
       <==> Decode(l, was) == And(left, l.mask) && Decode(r, was) == And(right, r.mask)
  {
    hide And, Or, Taken, Encode, Decode, Fits;
    var m1, m2, v1, v2 := Taken(l), Taken(r), Encode(l, left), Encode(r, right);
    EncodingIsTaken(l, left);
    EncodingIsTaken(r, right);
    OrIsInMasks(m1, v1, m2, v2);
    BothFromJoined(now, m1, v1, m2, v2);
    SameBitsSameValue(l, left, now);
    SameBitsSameValue(r, right, now);
    SameBitsSameValue(l, left, was);
    SameBitsSameValue(r, right, was);
    if And(was, Or(m1, m2)) == Or(v1, v2) {
      BothFromJoined(was, m1, v1, m2, v2);
    }
    if And(was, m1) == v1 && And(was, m2) == v2 {
      JoinedFromBoth(was, m1, v1, m2, v2);
    }
  }
}
