/** Bytes and 16-bit words as the CPU sees them.

    Swift's `UInt8` and `UInt16` are the newtypes `u8` and `u16`. A conversion `as u8` or `as u16`
    must be proved to fit, just as Swift's `UInt8(...)` traps on a value that does not fit; the
    functions below prove that the register code's conversions never trap. Their contracts give
    the arithmetic meaning of the source's shifts and masks. */
module Bytes {
  import opened Bits

  newtype u8 = x: int | 0 <= x < 0x100
  newtype u16 = x: int | 0 <= x < 0x1_0000

  /** The 16-bit word with high byte `high` and low byte `low`: `UInt16(high) << 8 | UInt16(low)`. */
  function Concat(high: u8, low: u8): (w: u16)
    ensures w as int == high as int * 256 + low as int
  {
    ConcatBits(high as nat, low as nat);
    Or(Truncate(ShiftLeft(high as nat, 8), 16), low as nat) as u16
  }

  /** The high byte of a word: `UInt8((value & 0xFF00) >> 8)`. */
  function HighByte(value: u16): (b: u8)
    ensures b as int == value as int / 256
  {
    HighByteBits(value as nat);
    ShiftRight(And(value as nat, 0xFF00), 8) as u8
  }

  /** The low byte of a word: `UInt8(value & 0xFF)`. */
  function LowByte(value: u16): (b: u8)
    ensures b as int == value as int % 256
  {
    LowByteBits(value as nat);
    And(value as nat, 0xFF) as u8
  }

  /** `value & 0xFF` is the remainder of `value` by 256. */
  lemma LowByteBits(value: nat)
    ensures And(value, 0xFF) == value % 256
  {
    assert Pow2(8) == 256;
    AndMask(value, 8, 0xFF, 256);
  }

  /** Shifting a byte left by 8 in 16 bits and or-ing in another byte adds them as high and low byte. */
  lemma ConcatBits(high: nat, low: nat)
    requires high < 256 && low < 256
    ensures Or(Truncate(ShiftLeft(high, 8), 16), low) == high * 256 + low
  {
    ShiftLeftValue(high, 8);
    assert Pow2(8) == 256 && Pow2(16) == 0x1_0000;
    assert Truncate(ShiftLeft(high, 8), 16) == ShiftLeft(high, 8);
    OrShifted(high, low, 8);
  }

  /** `(value & 0xFF00) >> 8` is the quotient of a 16-bit value by 256. */
  lemma HighByteBits(value: nat)
    requires value < 0x1_0000
    ensures ShiftRight(And(value, 0xFF00), 8) == value / 256
  {
    var q := value / 256;
    assert And(value, 0xFF00) == ShiftLeft(And(ShiftRight(value, 8), 0xFF), 8) by {
      assert ShiftLeft(0xFF, 8) == 0xFF00;
      AndShifted(value, 0xFF, 8);
    }
    assert ShiftRight(value, 8) == q by {
      assert Pow2(8) == 256;
      ShiftRightValue(value, 8);
    }
    assert And(q, 0xFF) == q by {
      assert Pow2(8) == 256;
      AndMask(q, 8, 0xFF, 256);
      DivModUnique(q, 256, 0, q);
    }
    var shifted := ShiftLeft(q, 8);
    assert shifted == q * 256 by {
      assert Pow2(8) == 256;
      ShiftLeftValue(q, 8);
    }
    assert ShiftRight(shifted, 8) == q by {
      assert Pow2(8) == 256;
      ShiftRightValue(shifted, 8);
    }
  }

  /** Splitting a word and concatenating its bytes gives the word back. */
  lemma ConcatSplit(value: u16)
    ensures Concat(HighByte(value), LowByte(value)) == value
  {
  }

  /** Concatenating two bytes and splitting the word gives the bytes back. */
  lemma SplitConcat(high: u8, low: u8)
    ensures HighByte(Concat(high, low)) == high
    ensures LowByte(Concat(high, low)) == low
  {
  }
}
