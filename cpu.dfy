/** The register file of the Game Boy (Sharp LR35902) CPU and its flags byte.

    `Registers` holds the eight 8-bit registers a, b, c, d, e, f, h, l and reads and writes them
    in pairs as the "virtual" 16-bit registers AF, BC, DE and HL, first-named register high.
    `FlagsRegister` holds the four condition flags and converts them to and from the flags
    byte: zero is bit 7, subtract bit 6, half carry bit 5, carry bit 4, and bits 3-0 are zero. */
module Cpu {
  import opened Bits
  import opened Bytes

  /** The eight registers, updated in place by the pair setters. */
  class Registers {
    var a: u8
    var b: u8
    var c: u8
    var d: u8
    var e: u8
    var f: u8
    var h: u8
    var l: u8

    /** All eight registers are given: the register file prescribes no initial values. */
    constructor (a: u8, b: u8, c: u8, d: u8, e: u8, f: u8, h: u8, l: u8)
      ensures this.a == a && this.b == b && this.c == c && this.d == d
      ensures this.e == e && this.f == f && this.h == h && this.l == l
    {
      this.a, this.b, this.c, this.d := a, b, c, d;
      this.e, this.f, this.h, this.l := e, f, h, l;
    }

    /** AF: register a is the high byte, register f the low byte. */
    function GetAF(): (r: u16)
      reads this
      ensures r as int == a as int * 256 + f as int
      ensures HighByte(r) == a && LowByte(r) == f
    {
      Concat(a, f)
    }

    /** BC: register b is the high byte, register c the low byte. */
    function GetBC(): (r: u16)
      reads this
      ensures r as int == b as int * 256 + c as int
      ensures HighByte(r) == b && LowByte(r) == c
    {
      Concat(b, c)
    }

    /** DE: register d is the high byte, register e the low byte. */
    function GetDE(): (r: u16)
      reads this
      ensures r as int == d as int * 256 + e as int
      ensures HighByte(r) == d && LowByte(r) == e
    {
      Concat(d, e)
    }

    /** HL: register h is the high byte, register l the low byte. */
    function GetHL(): (r: u16)
      reads this
      ensures r as int == h as int * 256 + l as int
      ensures HighByte(r) == h && LowByte(r) == l
    {
      Concat(h, l)
    }

    /** Writes AF: a gets the high byte and f the low byte of `value`; nothing else changes. */
    method SetAF(value: u16)
      modifies this
      ensures a as int == value as int / 256 && f as int == value as int % 256
      ensures b == old(b) && c == old(c) && d == old(d) && e == old(e) && h == old(h) && l == old(l)
      ensures GetAF() == value
      ensures GetBC() == old(GetBC()) && GetDE() == old(GetDE()) && GetHL() == old(GetHL())
    {
      a := HighByte(value);
      f := LowByte(value);
    }

    /** Writes BC: b gets the high byte and c the low byte of `value`; nothing else changes. */
    method SetBC(value: u16)
      modifies this
      ensures b as int == value as int / 256 && c as int == value as int % 256
      ensures a == old(a) && d == old(d) && e == old(e) && f == old(f) && h == old(h) && l == old(l)
      ensures GetBC() == value
      ensures GetAF() == old(GetAF()) && GetDE() == old(GetDE()) && GetHL() == old(GetHL())
    {
      b := HighByte(value);
      c := LowByte(value);
    }

    /** Writes DE: d gets the high byte and e the low byte of `value`; nothing else changes. */
    method SetDE(value: u16)
      modifies this
      ensures d as int == value as int / 256 && e as int == value as int % 256
      ensures a == old(a) && b == old(b) && c == old(c) && f == old(f) && h == old(h) && l == old(l)
      ensures GetDE() == value
      ensures GetAF() == old(GetAF()) && GetBC() == old(GetBC()) && GetHL() == old(GetHL())
    {
      d := HighByte(value);
      e := LowByte(value);
    }

    /** Writes HL: h gets the high byte and l the low byte of `value`; nothing else changes. */
    method SetHL(value: u16)
      modifies this
      ensures h as int == value as int / 256 && l as int == value as int % 256
      ensures a == old(a) && b == old(b) && c == old(c) && d == old(d) && e == old(e) && f == old(f)
      ensures GetHL() == value
      ensures GetAF() == old(GetAF()) && GetBC() == old(GetBC()) && GetDE() == old(GetDE())
    {
      h := HighByte(value);
      l := LowByte(value);
    }

    /** Bits 3-0 of register f are clear, as the flags register promises. */
    predicate FlagsLowNibbleClear()
      reads this
    {
      f as int % 16 == 0
    }

    /** Writes AF as `SetAF` does, but keeps only bits 7-4 of the low byte in f (`value & 0xF0`),
        so that f always holds a flags byte. */
    method SetAFMasked(value: u16)
      modifies this
      ensures a as int == value as int / 256
      ensures f as int == (value as int % 256) / 16 * 16
      ensures FlagsLowNibbleClear()
      ensures Decode(f) == Decode(LowByte(value))
      ensures b == old(b) && c == old(c) && d == old(d) && e == old(e) && h == old(h) && l == old(l)
      ensures GetAF() as int == value as int - value as int % 16
      ensures GetBC() == old(GetBC()) && GetDE() == old(GetDE()) && GetHL() == old(GetHL())
    {
      a := HighByte(value);
      f := FlagsNibble(LowByte(value));
      MaskedWord(value as int);
    }
  }

  /** `value & 0xF0`: the byte with bits 3-0 cleared, which decodes to the same flags. */
  function FlagsNibble(value: u8): (r: u8)
    ensures r as int == value as int / 16 * 16
    ensures r as int % 16 == 0
    ensures Decode(r) == Decode(value)
  {
    HighNibbleMask(value);
    DecodeMasked(value);
    DivModUnique(value as int / 16 * 16, 16, value as int / 16, 0);
    And(value as nat, 0xF0) as u8
  }

  /** A word whose high byte is kept and whose low byte has bits 3-0 cleared is the word minus
      its remainder by 16. */
  lemma MaskedWord(v: int)
    requires 0 <= v < 0x1_0000
    ensures (v / 256) * 256 + (v % 256) / 16 * 16 == v - v % 16
  {
    var q, r := v / 256, v % 256;
    assert v == q * 256 + (r / 16) * 16 + r % 16;
    DivModUnique(v, 16, q * 16 + r / 16, r % 16);
  }

  /** `SetAF` as written stores bits 3-0 of the value in f: every value with a non-zero low
      nibble, 0x000F among them, leaves f with its low nibble set. */
  method SetAFLowNibbleWitness(regs: Registers, value: u16)
    requires value % 16 != 0
    modifies regs
    ensures regs.f as int % 16 == value as int % 16 && !regs.FlagsLowNibbleClear()
  {
    regs.SetAF(value);
    LowByteNibble(value as int);
  }

  /** The low nibble of a word is the low nibble of its low byte. */
  lemma LowByteNibble(v: int)
    requires 0 <= v
    ensures (v % 256) % 16 == v % 16
  {
    var q, r := v / 256, v % 256;
    DivModUnique(v, 16, 16 * q + r / 16, r % 16);
  }

  /** Bit positions of the four flags in the flags byte. */
  const ZeroPosition: u8 := 7
  const SubtractPosition: u8 := 6
  const HalfCarryPosition: u8 := 5
  const CarryPosition: u8 := 4

  /** The four condition flags as a value. */
  datatype Flags = Flags(zero: bool, subtract: bool, halfCarry: bool, carry: bool)

  /** `flag ? 1 : 0`. */
  function FlagBit(flag: bool): u8
  {
    if flag then 1 else 0
  }

  /** `(flag ? 1 : 0) << position` on a byte. */
  function FlagShift(flag: bool, position: u8): (r: nat)
    ensures r < 0x100
  {
    assert Pow2(8) == 0x100;
    Truncate(ShiftLeft(FlagBit(flag) as nat, position as nat), 8)
  }

  /** `((value >> position) & 1) != 0`. */
  function BitAt(value: u8, position: u8): (isSet: bool)
    ensures isSet <==> (value as int / Pow2(position as nat)) % 2 == 1
  {
    ShiftRightValue(value as nat, position as nat);
    assert Pow2(1) == 2;
    AndLowBits(value as nat / Pow2(position as nat), 1);
    And(ShiftRight(value as nat, position as nat), 1) != 0
  }

  /** The flags byte: 0x80 for zero, 0x40 for subtract, 0x20 for half carry and 0x10 for carry,
      added up over the flags that are set; bits 3-0 are clear. */
  function Encode(flags: Flags): (r: u8)
    ensures r as int == (if flags.zero then 0x80 else 0) + (if flags.subtract then 0x40 else 0)
                        + (if flags.halfCarry then 0x20 else 0) + (if flags.carry then 0x10 else 0)
  {
    EncodeBits(flags);
    Or(Or(Or(FlagShift(flags.zero, ZeroPosition), FlagShift(flags.subtract, SubtractPosition)),
          FlagShift(flags.halfCarry, HalfCarryPosition)),
       FlagShift(flags.carry, CarryPosition)) as u8
  }

  /** Bits 3-0 of the flags byte are always clear. */
  lemma EncodeLowNibble(flags: Flags)
    ensures Encode(flags) as int % 0x10 == 0
  {
    FlagsDigits(flags);
  }

  /** Bits 7-4 of the flags byte are the four flags, and bits 3-0 are clear. */
  lemma FlagsDigits(flags: Flags)
    ensures var v := Encode(flags) as int;
      ((v / 0x80) % 2 == 1 <==> flags.zero) && ((v / 0x40) % 2 == 1 <==> flags.subtract)
      && ((v / 0x20) % 2 == 1 <==> flags.halfCarry) && ((v / 0x10) % 2 == 1 <==> flags.carry)
      && v % 0x10 == 0
  {
    var z, s := FlagBit(flags.zero) as int, FlagBit(flags.subtract) as int;
    var h, c := FlagBit(flags.halfCarry) as int, FlagBit(flags.carry) as int;
    assert Encode(flags) as int == 0x80 * z + 0x40 * s + 0x20 * h + 0x10 * c;
    NibbleDigits(z, s, h, c);
  }

  /** In `0x80 * z + 0x40 * s + 0x20 * h + 0x10 * c` for bits z, s, h and c, bit 7 is z, bit 6
      is s, bit 5 is h, bit 4 is c, and bits 3-0 are clear. */
  lemma NibbleDigits(z: int, s: int, h: int, c: int)
    requires 0 <= z <= 1 && 0 <= s <= 1 && 0 <= h <= 1 && 0 <= c <= 1
    ensures var v := 0x80 * z + 0x40 * s + 0x20 * h + 0x10 * c;
      (v / 0x80) % 2 == z && (v / 0x40) % 2 == s && (v / 0x20) % 2 == h && (v / 0x10) % 2 == c
      && v % 0x10 == 0
  {
    var k := 8 * z + 4 * s + 2 * h + c;
    DivModUnique(0x10 * k, 0x10, k, 0);
  }

  /** The flags read from bits 7, 6, 5 and 4 of a byte; bits 3-0 are not inspected. */
  function Decode(value: u8): (flags: Flags)
    ensures flags.zero <==> (value as int / 0x80) % 2 == 1
    ensures flags.subtract <==> (value as int / 0x40) % 2 == 1
    ensures flags.halfCarry <==> (value as int / 0x20) % 2 == 1
    ensures flags.carry <==> (value as int / 0x10) % 2 == 1
  {
    Flags(BitAt(value, ZeroPosition), BitAt(value, SubtractPosition),
          BitAt(value, HalfCarryPosition), BitAt(value, CarryPosition))
  }

  /** The "or" of the four shifted flag bits is their sum, as no two of them share a bit. */
  lemma EncodeBits(flags: Flags)
    ensures Or(Or(Or(FlagShift(flags.zero, ZeroPosition), FlagShift(flags.subtract, SubtractPosition)),
                  FlagShift(flags.halfCarry, HalfCarryPosition)),
               FlagShift(flags.carry, CarryPosition))
            == (if flags.zero then 0x80 else 0) + (if flags.subtract then 0x40 else 0)
               + (if flags.halfCarry then 0x20 else 0) + (if flags.carry then 0x10 else 0)
  {
    FlagShiftValue(flags.zero, ZeroPosition);
    FlagShiftValue(flags.subtract, SubtractPosition);
    FlagShiftValue(flags.halfCarry, HalfCarryPosition);
    FlagShiftValue(flags.carry, CarryPosition);
    OrNibble(FlagBit(flags.zero) as nat, FlagBit(flags.subtract) as nat,
             FlagBit(flags.halfCarry) as nat, FlagBit(flags.carry) as nat);
  }

  /** `z << 7 | s << 6 | h << 5 | c << 4` for bits z, s, h and c is their weighted sum. */
  lemma OrNibble(z: nat, s: nat, h: nat, c: nat)
    requires z <= 1 && s <= 1 && h <= 1 && c <= 1
    ensures Or(Or(Or(ShiftLeft(z, 7), ShiftLeft(s, 6)), ShiftLeft(h, 5)), ShiftLeft(c, 4))
            == 0x80 * z + 0x40 * s + 0x20 * h + 0x10 * c
  {
    var zBit, sBit, hBit, cBit := ShiftLeft(z, 7), ShiftLeft(s, 6), ShiftLeft(h, 5), ShiftLeft(c, 4);
    assert zBit == 0x80 * z && sBit == 0x40 * s && hBit == 0x20 * h && cBit == 0x10 * c by {
      assert Pow2(4) == 0x10 && Pow2(5) == 0x20 && Pow2(6) == 0x40 && Pow2(7) == 0x80;
      ShiftLeftValue(z, 7);
      ShiftLeftValue(s, 6);
      ShiftLeftValue(h, 5);
      ShiftLeftValue(c, 4);
    }
    var zs, zsh := zBit + sBit, zBit + sBit + hBit;
    assert Or(zBit, sBit) == zs by {
      assert Pow2(7) == 0x80;
      OrBelow(z, zBit, sBit, 7, 0x80);
    }
    assert Or(zs, hBit) == zsh by {
      assert Pow2(6) == 0x40;
      OrBelow(2 * z + s, zs, hBit, 6, 0x40);
    }
    assert Or(zsh, cBit) == zsh + cBit by {
      assert Pow2(5) == 0x20;
      OrBelow(4 * z + 2 * s + h, zsh, cBit, 5, 0x20);
    }
  }

  /** `x << k | y == (x << k) + y` for `y` below `2^k`, with `x << k` given as `v` and `2^k` as `p`. */
  lemma OrBelow(x: nat, v: nat, y: nat, k: nat, p: nat)
    requires p == Pow2(k) && v == x * p && y < p
    ensures Or(v, y) == v + y
  {
    ShiftLeftValue(x, k);
    OrShifted(x, y, k);
  }

  /** A flag shifted to bit 4, 5, 6 or 7 stays inside the byte: it is worth 2^position if set. */
  lemma FlagShiftValue(flag: bool, position: u8)
    requires 4 <= position < 8
    ensures FlagShift(flag, position) == ShiftLeft(FlagBit(flag) as nat, position as nat)
    ensures FlagShift(flag, position) == FlagBit(flag) as int * Pow2(position as nat)
  {
    var b := FlagBit(flag) as nat;
    ShiftLeftValue(b, position as nat);
    assert Pow2(8) == 0x100;
    if position == 4 {
      assert Pow2(4) == 0x10;
    } else if position == 5 {
      assert Pow2(5) == 0x20;
    } else if position == 6 {
      assert Pow2(6) == 0x40;
    } else {
      assert Pow2(7) == 0x80;
    }
  }

  /** `value & 0xF0` is the byte with its low nibble cleared. */
  lemma HighNibbleMask(value: u8)
    ensures And(value as nat, 0xF0) == (value as int / 16) * 16
  {
    var v: nat := value as nat;
    var q := v / 16;
    assert And(v, 0xF0) == ShiftLeft(And(ShiftRight(v, 4), 0x0F), 4) by {
      assert ShiftLeft(0x0F, 4) == 0xF0;
      AndShifted(v, 0x0F, 4);
    }
    assert ShiftRight(v, 4) == q by {
      assert Pow2(4) == 16;
      ShiftRightValue(v, 4);
    }
    assert And(q, 0x0F) == q by {
      assert Pow2(4) == 16;
      AndMask(q, 4, 0x0F, 16);
    }
    assert ShiftLeft(q, 4) == q * 16 by {
      assert Pow2(4) == 16;
      ShiftLeftValue(q, 4);
    }
  }

  /** Decoding an encoded byte gives the flags back. */
  lemma DecodeEncode(flags: Flags)
    ensures Decode(Encode(flags)) == flags
  {
    FlagsDigits(flags);
  }

  /** Encoding a decoded byte gives `value & 0xF0`: the low nibble is lost. */
  lemma EncodeDecode(value: u8)
    ensures Encode(Decode(value)) as int == And(value as nat, 0xF0)
  {
    HighNibbleMask(value);
    HighNibbleBits(value as int);
  }

  /** A byte with its low nibble cleared is the sum of its bits 7, 6, 5 and 4. */
  lemma HighNibbleBits(v: int)
    requires 0 <= v < 0x100
    ensures (v / 0x10) * 0x10 == 0x80 * ((v / 0x80) % 2) + 0x40 * ((v / 0x40) % 2)
                                 + 0x20 * ((v / 0x20) % 2) + 0x10 * ((v / 0x10) % 2)
  {
    var w := v / 0x10;
    assert v / 0x80 == w / 8 && v / 0x40 == w / 4 && v / 0x20 == w / 2;
    assert w == 2 * (w / 2) + w % 2;
    assert w / 2 == 2 * (w / 4) + (w / 2) % 2;
    assert w / 4 == 2 * (w / 8) + (w / 4) % 2;
    assert w / 8 < 2;
  }

  /** A byte survives decoding and encoding exactly when its low nibble is clear. */
  lemma EncodeDecodeIdentity(value: u8)
    ensures Encode(Decode(value)) == value <==> value as int % 16 == 0
  {
    EncodeDecode(value);
    HighNibbleMask(value);
  }

  /** Bytes with the same high nibble decode to the same flags, whatever bits 3-0 hold. */
  lemma DecodeIgnoresLowNibble(value: u8, other: u8)
    requires value / 16 == other / 16
    ensures Decode(value) == Decode(other)
  {
    SameHighNibble(value as int, other as int);
  }

  /** Two numbers with the same quotient by 16 have the same quotients by 32, 64 and 128. */
  lemma SameHighNibble(v: int, w: int)
    requires 0 <= v && 0 <= w && v / 0x10 == w / 0x10
    ensures v / 0x20 == w / 0x20 && v / 0x40 == w / 0x40 && v / 0x80 == w / 0x80
  {
    assert v / 0x20 == (v / 0x10) / 2 && w / 0x20 == (w / 0x10) / 2;
    assert v / 0x40 == (v / 0x10) / 4 && w / 0x40 == (w / 0x10) / 4;
    assert v / 0x80 == (v / 0x10) / 8 && w / 0x80 == (w / 0x10) / 8;
  }

  /** Decoding `value & 0xF0` gives the same flags as decoding `value`. */
  lemma DecodeMasked(value: u8)
    ensures And(value as nat, 0xF0) < 0x100
    ensures Decode(And(value as nat, 0xF0) as u8) == Decode(value)
  {
    HighNibbleMask(value);
    DecodeIgnoresLowNibble(value, And(value as nat, 0xF0) as u8);
  }

  /** Two sets of flags have the same byte exactly when they are equal. */
  lemma EncodeInjective(x: Flags, y: Flags)
    ensures Encode(x) == Encode(y) <==> x == y
  {
    DecodeEncode(x);
    DecodeEncode(y);
  }

  /** The byte values of single flags, of all four flags and of none. */
  lemma EncodeExamples()
    ensures Encode(Flags(true, false, false, false)) == 0x80
    ensures Encode(Flags(false, true, false, false)) == 0x40
    ensures Encode(Flags(false, false, true, false)) == 0x20
    ensures Encode(Flags(false, false, false, true)) == 0x10
    ensures Encode(Flags(true, true, true, true)) == 0xF0
    ensures Encode(Flags(false, false, false, false)) == 0x00
  {
  }

  /** Every byte with bits 7-4 set, 0xFF among them, decodes to all four flags set. */
  lemma DecodeHighNibbleSet(value: u8)
    requires value >= 0xF0
    ensures Decode(value) == Flags(true, true, true, true)
  {
    var v := value as int;
    assert v / 0x80 == 1 && v / 0x40 == 3 && v / 0x20 == 7 && v / 0x10 == 15;
  }

  /** The four flags, updated in place by decoding a byte. */
  class FlagsRegister {
    var zero: bool
    var subtract: bool
    var halfCarry: bool
    var carry: bool

    constructor (zero: bool, subtract: bool, halfCarry: bool, carry: bool)
      ensures Value() == Flags(zero, subtract, halfCarry, carry)
    {
      this.zero, this.subtract, this.halfCarry, this.carry := zero, subtract, halfCarry, carry;
    }

    /** The flags this register holds. */
    function Value(): Flags
      reads this
    {
      Flags(zero, subtract, halfCarry, carry)
    }

    /** The flags byte for the flags this register holds. */
    function ConvertToByte(): (r: u8)
      reads this
      ensures Decode(r) == Value()
      ensures r as int % 0x10 == 0
    {
      DecodeEncode(Value());
      EncodeLowNibble(Value());
      Encode(Value())
    }

    /** Overwrites all four flags from bits 7-4 of `value`. */
    method ConvertToFlags(value: u8)
      modifies this
      ensures Value() == Decode(value)
      ensures ConvertToByte() as int == And(value as nat, 0xF0)
    {
      zero := BitAt(value, ZeroPosition);
      subtract := BitAt(value, SubtractPosition);
      halfCarry := BitAt(value, HalfCarryPosition);
      carry := BitAt(value, CarryPosition);
      EncodeDecode(value);
    }
  }

  /** Worked examples followed through the contracts above: AF from a = 0x12 and f = 0x34;
      `SetAF(0xABCD)` sets a and f and keeps BC; the flags zero and half carry give 0xA0;
      converting 0xFF sets all four flags and converts back to 0xF0. */
  method RegisterExamples()
  {
    var regs := new Registers(0x12, 0x01, 0x02, 0x03, 0x04, 0x34, 0x05, 0x06);
    assert regs.GetAF() == 0x1234;
    var bc := regs.GetBC();
    regs.SetAF(0xABCD);
    assert regs.a == 0xAB && regs.f == 0xCD;
    assert regs.GetBC() == bc == 0x0102;
    var flags := new FlagsRegister(true, false, true, false);
    assert flags.ConvertToByte() == 0xA0;
    flags.ConvertToFlags(0xFF);
    assert flags.Value() == Flags(true, true, true, true);
    assert flags.ConvertToByte() == 0xF0;
  }
}
