/**
 * What the two panel drivers (ili9486.rs, ili9431.rs) share: the RGB565 colour, the flag
 * byte of the memory access control command (0x36), the pixel-format codes and the
 * splitting of a 16-bit address into bytes.
 */
module Panel {
  import opened Ints
  import opened Geometry

  newtype u5 = x: int | 0 <= x < 32
  newtype u6 = x: int | 0 <= x < 64

  /** An embedded-graphics `Rgb565` colour: five bits of red, six of green, five of blue. */
  datatype Rgb565 = Rgb565(r: u5, g: u6, b: u5)

  /** The colour's raw 16-bit storage: red in bits 11-15, green in 5-10, blue in 0-4. */
  function Raw(c: Rgb565): (w: u16)
    ensures w as int / 2048 == c.r as int
    ensures (w as int / 32) % 64 == c.g as int
    ensures w as int % 32 == c.b as int
  {
    (c.r as int * 2048 + c.g as int * 32 + c.b as int) as u16
  }

  /** The colour stored in a raw word. */
  function ColorOfRaw(w: u16): (c: Rgb565)
    ensures Raw(c) == w
  {
    Rgb565((w as int / 2048) as u5, ((w as int / 32) % 64) as u6, (w as int % 32) as u5)
  }

  /** Reading a colour back from its raw word gives the colour. */
  lemma RawRoundTrip(c: Rgb565)
    ensures ColorOfRaw(Raw(c)) == c
  {
  }

  /** `to_ne_bytes` of the raw word on the little-endian RP2040: low byte first. */
  function NeBytes(w: u16): (b: seq<u8>)
    ensures |b| == 2 && b[1] as int * 256 + b[0] as int == w as int
  {
    [(w as int % 256) as u8, (w as int / 256) as u8]
  }

  datatype Order = Forward | Reverse

  /** The six flags of the memory access control command, in the drivers' argument order. */
  datatype Madctl = Madctl(rowOrder: Order, columnOrder: Order, rcExchange: Order,
                           vertRefresh: Order, horRefresh: Order, color: Order)

  /** The flag bit `k` of `data` stands for. */
  function OrderOfBit(data: bv8, k: nat): Order
    requires k < 8
  {
    if (data >> k) & 1 == 1 then Reverse else Forward
  }

  /** How the panel reads the flag byte: row order in bit 7, column order in bit 6,
      row/column exchange in bit 5, vertical refresh in bit 4, colour order in bit 3,
      horizontal refresh in bit 2. */
  function DecodeMadctl(data: bv8): Madctl {
    Madctl(OrderOfBit(data, 7), OrderOfBit(data, 6), OrderOfBit(data, 5),
           OrderOfBit(data, 4), OrderOfBit(data, 2), OrderOfBit(data, 3))
  }

  /** The contribution of one flag to the byte: its bit when `Reverse`. */
  function FlagBit(o: Order, k: nat): (b: bv8)
    requires k < 8
    ensures o.Forward? ==> b == 0
    ensures o.Reverse? ==> b == 1 << k
  {
    match o
    case Forward => 0
    case Reverse => 1 << k
  }

  datatype PixelFormat = Bit16 | Bit18

  /** `pixel as u8`: the interface pixel format code. The same format is repeated in both
      nibbles (one for the RGB interface, one for the MCU interface): 5 selects 16 bits
      per pixel and 6 selects 18. */
  function PixelFormatCode(p: PixelFormat): (code: u8)
    ensures code as int / 16 == code as int % 16
    ensures p == Bit16 <==> code as int % 16 == 5
    ensures p == Bit18 <==> code as int % 16 == 6
  {
    match p
    case Bit16 => 0x55
    case Bit18 => 0x66
  }

  /** `x as u16` for an `i32` coordinate: two's-complement truncation to 16 bits. */
  function AsU16(x: int): (r: u16)
    ensures 0 <= x < 0x1_0000 ==> r as int == x
  {
    (x % 0x1_0000) as u16
  }

  /** A big-endian byte pair read back as a number. */
  function Join(hi: int, lo: int): int {
    hi * 256 + lo
  }

  /** The column or page address argument: `[start >> 8, start & 0xff, end >> 8, end & 0xff]`. */
  function AddressBytes(start: u16, end: u16): (d: seq<u8>)
    ensures |d| == 4
    ensures Join(d[0] as int, d[1] as int) == start as int
    ensures Join(d[2] as int, d[3] as int) == end as int
  {
    [(start as int / 256) as u8, (start as int % 256) as u8,
     (end as int / 256) as u8, (end as int % 256) as u8]
  }

  /** Two address arguments are equal only for equal addresses. */
  lemma AddressBytesInjective(s1: u16, e1: u16, s2: u16, e2: u16)
    requires AddressBytes(s1, e1) == AddressBytes(s2, e2)
    ensures s1 == s2 && e1 == e2
  {
    var d := AddressBytes(s1, e1);
    assert Join(d[0] as int, d[1] as int) == s2 as int;
    assert Join(d[2] as int, d[3] as int) == e2 as int;
  }

  /** A pixel as drawing code hands it to a draw target. */
  datatype Pixel = Pixel(coord: Point, color: Rgb565)
}
