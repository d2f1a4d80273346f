/** Octets and 16-bit words as the firmware sees them: `uint8_t` and `uint16_t`,
    with the big-endian split and join used for every 16-bit field on the wire,
    and the truncations C applies when an `int` is stored into a narrower type. */
module Bytes {

  newtype uint8 = x: int | 0 <= x < 0x100
  newtype uint16 = x: int | 0 <= x < 0x1_0000

  /** The high byte of a word, `v >> 8`. */
  function Hi(v: uint16): (b: uint8)
    ensures b as int * 0x100 <= v as int < (b as int + 1) * 0x100
  {
    (v as int / 0x100) as uint8
  }

  /** The low byte of a word, `v & 0xFF`. */
  function Lo(v: uint16): (b: uint8)
    ensures b as int == v as int - Hi(v) as int * 0x100
  {
    (v as int % 0x100) as uint8
  }

  /** `(hi << 8) | lo` stored into a `uint16_t`: the word whose bytes are `hi`, `lo`. */
  function Word(hi: uint8, lo: uint8): (v: uint16)
  {
    (hi as int * 0x100 + lo as int) as uint16
  }

  /** Splitting a word and joining the halves gives the word back. */
  lemma WordOfHalves(v: uint16)
    ensures Word(Hi(v), Lo(v)) == v
  {
  }

  /** Joining two bytes and splitting the word gives the bytes back. */
  lemma HalvesOfWord(hi: uint8, lo: uint8)
    ensures Hi(Word(hi, lo)) == hi && Lo(Word(hi, lo)) == lo
  {
  }

  /** A non-negative `int` stored into a `uint16_t`: reduced modulo 2^16. */
  function Wrap16(x: nat): (r: uint16)
    ensures x < 0x1_0000 ==> r as int == x
    ensures 0x1_0000 <= x < 0x2_0000 ==> r as int == x - 0x1_0000
  {
    (x % 0x1_0000) as uint16
  }

  /** A non-negative `int` stored into a `uint8_t`: reduced modulo 2^8. */
  function Trunc8(x: nat): (r: uint8)
    ensures x < 0x100 ==> r as int == x
    ensures (x - r as int) % 0x100 == 0
  {
    (x % 0x100) as uint8
  }

  /** `b | 0x80`: the byte with its top bit set and its low seven bits kept. */
  function SetTopBit(b: uint8): (r: uint8)
    ensures r >= 0x80
    ensures r % 0x80 == b % 0x80
  {
    if b < 0x80 then b + 0x80 else b
  }
}
