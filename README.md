# macBoy CPU registers in Dafny

This project models the register file of the macBoy Game Boy (Sharp LR35902) emulator, from
`macBoy/cpu.swift`. It has two parts.

- `Registers` holds the eight 8-bit registers a, b, c, d, e, f, h and l. It reads and writes them
  in pairs as the "virtual" 16-bit registers AF, BC, DE and HL. The first-named register of a
  pair is always the high byte.
- `FlagsRegister` holds the four condition flags: zero, subtract, half carry and carry. It
  converts them to and from the flags byte. Zero is bit 7, subtract bit 6, half carry bit 5 and
  carry bit 4. Encoding always clears bits 3-0, and decoding ignores them.

Swift's `UInt8` and `UInt16` are the newtypes `u8` (0 to 255) and `u16` (0 to 65535). Swift's
operators `&`, `|`, `<<` and `>>` are recursive functions on natural numbers in module `Bits`
(`And`, `Or`, `ShiftLeft`, `ShiftRight`), and `Truncate` drops the bits a fixed-width shift
pushes out of its type. The model's bodies are therefore the source's expressions:
`UInt8((value & 0xFF00) >> 8)` is `ShiftRight(And(value, 0xFF00), 8) as u8`, and
`UInt16(a) << 8 | UInt16(f)` is `Or(Truncate(ShiftLeft(a, 8), 16), f)`. Lemmas proved by
induction give these operators their arithmetic meaning: multiplication and division by a power
of two, the remainder kept by a mask of low bits, and the "or" of two values whose bits do not
overlap. Swift's narrowing `UInt8(...)` traps when the value does not fit. Dafny checks every
`as u8` and `as u16`, so the model proves that no conversion in the register code traps.

Both Swift structs become Dafny classes, because their `mutating` methods update fields in place.
The getters and `convertToByte` are functions with `reads this`. The setters and `convertToFlags`
are methods with `modifies this`. Their postconditions give the whole new state.
`FlagsRegister.ConvertToByte` uses the pure codec `Encode`, and `ConvertToFlags` uses the same
bit test `BitAt` as the pure `Decode`. The codec's round-trip lemmas are therefore stated once,
on values.

Files:

- `bits.dfy`, module `Bits`: the bit operators on natural numbers and their arithmetic meaning.
- `bytes.dfy`, module `Bytes`: bytes, 16-bit words, and concatenating and splitting words.
- `cpu.dfy`, module `Cpu`: the `Registers` class, the flag positions, the `Flags` value and its
  `Encode`/`Decode` codec, the `FlagsRegister` class, and a client method that follows worked
  examples through the contracts: AF from a = 0x12 and f = 0x34 is 0x1234, `SetAF(0xABCD)` sets
  a = 0xAB and f = 0xCD and keeps BC, the flags zero and half carry give 0xA0, and converting
  0xFF sets all four flags and converts back to 0xF0.

## Model

| member | source | states |
|---|---|---|
| `Bits.ShiftRightValue` | macBoy/cpu.swift:54 | an unsigned right shift by `n` is the quotient by 2^n |
| `Bits.ShiftLeftValue` | macBoy/cpu.swift:27 | a left shift by `n` is multiplication by 2^n, before truncation to the type's width |
| `Bits.AndLowBits` | macBoy/cpu.swift:55 | masking with the `k` lowest bits keeps the remainder by 2^k |
| `Bits.AndMask` | macBoy/cpu.swift:55 | the same, with the mask given as a number |
| `Bits.AndShifted` | macBoy/cpu.swift:54 | masking with a shifted mask equals shifting, masking and shifting back |
| `Bits.OrShifted` | macBoy/cpu.swift:27 | "or" of a value shifted left by `k` with a value below 2^k is their sum |
| `Bytes.ConcatBits` | macBoy/cpu.swift:27 | `UInt16(high) << 8` or-ed with `UInt16(low)` is `high * 256 + low`; the shift loses no bits |
| `Bytes.HighByteBits` | macBoy/cpu.swift:54 | `(value & 0xFF00) >> 8` is the quotient of the word by 256 |
| `Bytes.LowByteBits` | macBoy/cpu.swift:55 | `value & 0xFF` is the remainder of the word by 256 |
| `Bytes.Concat` | macBoy/cpu.swift:27 | the word built from two bytes is `high * 256 + low` and fits in 16 bits |
| `Bytes.HighByte` | macBoy/cpu.swift:54 | `UInt8((value & 0xFF00) >> 8)` never traps and is `value / 256` |
| `Bytes.LowByte` | macBoy/cpu.swift:55 | `UInt8(value & 0xFF)` never traps and is `value % 256` |
| `Bytes.ConcatSplit` | macBoy/cpu.swift:26-78 | splitting a word and concatenating its bytes gives the word back |
| `Bytes.SplitConcat` | macBoy/cpu.swift:26-78 | concatenating two bytes and splitting the word gives both bytes back |
| `Cpu.Registers.constructor` | macBoy/cpu.swift:14-22 | the eight registers take exactly the given values; no initial value is invented |
| `Cpu.Registers.GetAF` | macBoy/cpu.swift:26-28 | AF is `a * 256 + f`, so it is below 65536; a is its high byte and f its low byte; it changes nothing |
| `Cpu.Registers.GetBC` | macBoy/cpu.swift:32-34 | BC is `b * 256 + c`; b is its high byte and c its low byte; it changes nothing |
| `Cpu.Registers.GetDE` | macBoy/cpu.swift:39-41 | DE is `d * 256 + e`; d is its high byte and e its low byte; it changes nothing |
| `Cpu.Registers.GetHL` | macBoy/cpu.swift:46-48 | HL is `h * 256 + l`; h is its high byte and l its low byte; it changes nothing |
| `Cpu.Registers.SetAF` | macBoy/cpu.swift:53-56 | a becomes `value / 256` and f `value % 256`; AF then reads `value`; the other six registers and BC, DE, HL keep their values |
| `Cpu.Registers.SetBC` | macBoy/cpu.swift:61-64 | b becomes `value / 256` and c `value % 256`; BC then reads `value`; the other six registers and AF, DE, HL keep their values |
| `Cpu.Registers.SetDE` | macBoy/cpu.swift:68-71 | d becomes `value / 256` and e `value % 256`; DE then reads `value`; the other six registers and AF, BC, HL keep their values |
| `Cpu.Registers.SetHL` | macBoy/cpu.swift:75-78 | h becomes `value / 256` and l `value % 256`; HL then reads `value`; the other six registers and AF, BC, DE keep their values |
| `Cpu.SetAFLowNibbleWitness` | macBoy/cpu.swift:55 | `SetAF` as written leaves bits 3-0 of every value in f, so any value with a non-zero low nibble (0x000F, say) breaks the flags register's promise |
| `Cpu.LowByteNibble` | macBoy/cpu.swift:55 | the low nibble of a word is the low nibble of its low byte |
| `Cpu.Registers.SetAFMasked` | macBoy/cpu.swift:53-56 | the corrected AF write: a becomes `value / 256`, f becomes the low byte with bits 3-0 cleared and decodes to the same flags; AF then reads `value` minus its low nibble; everything else keeps its value |
| `Cpu.FlagsNibble` | macBoy/cpu.swift:83 | `value & 0xF0` is `value / 16 * 16`, has bits 3-0 clear and decodes to the same flags as `value` |
| `Cpu.MaskedWord` | macBoy/cpu.swift:53-56 | keeping the high byte and clearing bits 3-0 of the low byte subtracts the word's remainder by 16 |
| `Cpu.Encode` | macBoy/cpu.swift:102-107 | the flags byte is 0x80, 0x40, 0x20 and 0x10 added up over zero, subtract, half carry and carry when set |
| `Cpu.EncodeBits` | macBoy/cpu.swift:103-106 | the "or" of the four shifted flag bits is their sum, since no two share a bit and none is shifted out of the byte |
| `Cpu.OrNibble` | macBoy/cpu.swift:103-106 | `z << 7`, `s << 6`, `h << 5` and `c << 4` or-ed together, for bits z, s, h, c, is `0x80 * z + 0x40 * s + 0x20 * h + 0x10 * c` |
| `Cpu.OrBelow` | macBoy/cpu.swift:103-106 | one step of that chain: the "or" of a value shifted left by `k` with one below 2^k is their sum |
| `Cpu.FlagShift` | macBoy/cpu.swift:103-106 | `(flag ? 1 : 0) << position` on a byte always fits in the byte |
| `Cpu.FlagShiftValue` | macBoy/cpu.swift:103-106 | a flag shifted to position 4 to 7 of a byte is not truncated and is worth 2^position when set |
| `Cpu.EncodeLowNibble` | macBoy/cpu.swift:83-107 | bits 3-0 of the flags byte are always 0 |
| `Cpu.FlagsDigits` | macBoy/cpu.swift:83-107 | bit 7 of the flags byte is set iff zero, bit 6 iff subtract, bit 5 iff half carry, bit 4 iff carry, and bits 3-0 are clear |
| `Cpu.NibbleDigits` | macBoy/cpu.swift:83-107 | the same on numbers: the digits of `0x80 * z + 0x40 * s + 0x20 * h + 0x10 * c` in base 2 |
| `Cpu.Decode` | macBoy/cpu.swift:111-116 | zero, subtract, half carry and carry are bits 7, 6, 5 and 4 of the byte |
| `Cpu.BitAt` | macBoy/cpu.swift:112-115 | `((value >> position) & 1) != 0` holds iff the quotient of value by 2^position is odd, that is iff bit `position` of the byte is set |
| `Cpu.HighNibbleMask` | macBoy/cpu.swift:102-116 | `value & 0xF0` is the byte with bits 3-0 cleared |
| `Cpu.DecodeEncode` | macBoy/cpu.swift:102-116 | decoding an encoded byte restores the same four flags |
| `Cpu.EncodeDecode` | macBoy/cpu.swift:102-116 | encoding a decoded byte gives `value & 0xF0`: the low nibble is lost |
| `Cpu.HighNibbleBits` | macBoy/cpu.swift:102-116 | a byte with bits 3-0 cleared is the sum of its bits 7, 6, 5 and 4 at their weights |
| `Cpu.EncodeDecodeIdentity` | macBoy/cpu.swift:102-116 | a byte survives decoding and encoding exactly when its low nibble is zero |
| `Cpu.DecodeIgnoresLowNibble` | macBoy/cpu.swift:111-116 | bytes that differ only in bits 3-0 decode to the same flags |
| `Cpu.SameHighNibble` | macBoy/cpu.swift:111-116 | numbers with the same quotient by 16 have the same quotients by 32, 64 and 128 |
| `Cpu.DecodeMasked` | macBoy/cpu.swift:111-116 | decoding `value & 0xF0` gives the same flags as decoding `value` |
| `Cpu.EncodeInjective` | macBoy/cpu.swift:102-107 | two sets of flags give the same byte exactly when they are equal |
| `Cpu.EncodeExamples` | macBoy/cpu.swift:83-107 | only zero gives 0x80, only subtract 0x40, only half carry 0x20, only carry 0x10, all four 0xF0, none 0x00 |
| `Cpu.DecodeHighNibbleSet` | macBoy/cpu.swift:111-116 | every byte with bits 7-4 set, 0xFF among them, decodes to all four flags set |
| `Cpu.FlagsRegister.constructor` | macBoy/cpu.swift:90-98 | the four flags take exactly the given values |
| `Cpu.FlagsRegister.ConvertToByte` | macBoy/cpu.swift:102-107 | the byte decodes back to the register's flags, and its low nibble is zero |
| `Cpu.FlagsRegister.ConvertToFlags` | macBoy/cpu.swift:111-116 | all four flags are overwritten with bits 7-4 of `value`; converting back then gives `value & 0xF0` |

## Findings

| source | as written | input that shows it | evidently intended | confidence | as-written member | corrected member |
|---|---|---|---|---|---|---|
| macBoy/cpu.swift:55 against macBoy/cpu.swift:83 | `setAF` stores the whole low byte of the value in register f (`UInt8(value & 0xFF)`), while the flags register's documentation says bits 3-0 of f are always 0 | `setAF(0x000F)` leaves f = 0x0F | f keeps only bits 7-4 (`value & 0xF0`), as the Game Boy does when it writes AF | not executed; medium, since the code may deliberately store f unmasked | `Cpu.Registers.SetAF`, witness `Cpu.SetAFLowNibbleWitness` | `Cpu.Registers.SetAFMasked`, with `Cpu.FlagsNibble` |

`Cpu.Registers.SetAF` stays the model of the code as written; the worked examples use it, and
`SetAF(0xABCD)` gives f = 0xCD. `SetAFMasked` is the corrected write, proved for every value to keep
`FlagsLowNibbleClear` and to store a flags byte that decodes to the same four flags.

## Left out

- `import Foundation` (macBoy/cpu.swift:8): nothing from it is used beyond integer and boolean arithmetic.
- Initial or reset register values: the source gives none, so the constructors take every value as a parameter.
- The position constants (macBoy/cpu.swift:91-94) are stored properties of every `FlagsRegister` in Swift; here they are module constants, since no code changes them.
- Swift value semantics: each struct is a class here, so two names for one register file share updates instead of copying. Nothing in cpu.swift copies a register file, so none of its behaviour depends on this.
- Swift's `<<` on a fixed-width type also accepts shift amounts at or beyond the width and negative amounts. The model's `ShiftLeft` and `ShiftRight` take natural amounts, and the register code only shifts by 4 to 8.
