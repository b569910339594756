/** Fixed-width unsigned arithmetic of the AVR firmware: the 8- and 16-bit
    integer types, the byte split of a 16-bit value, and the wrap-around of
    unsigned arithmetic. On avr-gcc `int` is 16 bits wide, so `uint16_t` is
    `unsigned int` and `uint8_t` is promoted to a 16-bit `int`. */
module Bytes {

  /** `uint8_t`: the edge counter, the SPI data register and each byte of a reading. */
  type u8 = x: int | 0 <= x < 256

  /** `uint16_t`: timer captures and the distance. */
  type u16 = x: int | 0 <= x < 0x1_0000

  /** `low(x)`, i.e. `x & 0x00FF`: the least significant byte of a 16-bit value. */
  function Low(x: u16): (r: u8)
    ensures (x - r) % 256 == 0
  {
    x % 256
  }

  /** `high(x)`, i.e. `(x >> 8) & 0x00FF`: the most significant byte of a 16-bit value. */
  function High(x: u16): (r: u8)
    ensures r * 256 <= x < r * 256 + 256
  {
    (x / 256) % 256
  }

  /** How a bus master reassembles the two bytes it received into one reading. */
  function Join(hi: u8, lo: u8): (r: u16)
    ensures r / 256 == hi && r % 256 == lo
  {
    hi * 256 + lo
  }

  /** Splitting a reading and joining its bytes gives the reading back. */
  lemma SplitJoin(x: u16)
    ensures Join(High(x), Low(x)) == x
    ensures High(x) * 256 + Low(x) == x
  {
  }

  /** Joining two bytes and splitting the result gives the bytes back. */
  lemma JoinSplit(hi: u8, lo: u8)
    ensures High(Join(hi, lo)) == hi && Low(Join(hi, lo)) == lo
  {
  }

  /** Two readings with the same two bytes are the same reading. */
  lemma BytesDetermine(x: u16, y: u16)
    requires High(x) == High(y) && Low(x) == Low(y)
    ensures x == y
  {
  }

  /** `d = a - b` with `d`, `a`, `b` all `uint16_t`: on avr-gcc these are
      `unsigned int`, which is not promoted, so the subtraction itself is
      unsigned and wraps modulo 2^16: a difference below 0 comes out 2^16
      higher. */
  function Sub16(a: u16, b: u16): (r: u16)
    ensures r == (a - b) % 0x1_0000
    ensures (r + b) % 0x1_0000 == a
    ensures a >= b ==> r == a - b
  {
    var d := a - b;
    if d < 0 then d + 0x1_0000 else d
  }

  /** `x++` on a `uint8_t`: `x` is promoted to `int`, the sum 256 fits, and
      storing it back truncates to 8 bits, so 255 wraps to 0. */
  function Inc8(x: u8): (r: u8)
    ensures r == (x + 1) % 256
    ensures x < 255 ==> r == x + 1
    ensures x == 255 ==> r == 0
  {
    var n := x + 1;
    if n == 256 then 0 else n
  }
}
