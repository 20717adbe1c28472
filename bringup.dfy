/**
 * The bit-banged bring-up in main.rs: the colour encoder, the fan-out of a 16-bit word onto
 * the data pins DB0..DB15 (`write_2bytes!`), and the address words it sends that way. The
 * pins are an array of levels; toggling WR, DC, CS and RD and the timer waits are left to
 * the hardware.
 */
module Bringup {

  /** Pins on the 16-bit data bus. */
  const BUS_WIDTH: nat := 16

  /** `encode_rgb565_16bit` as written: red masked to five bits and shifted by 10, green
      masked to six bits and shifted by 4, blue masked to five bits. */
  function EncodeRgb565AsWritten(r: bv8, g: bv8, b: bv8): (w: bv16)
    ensures w & 0x8000 == 0
  {
    (((r & 0x1f) as bv16) << 10) | (((g & 0x3f) as bv16) << 4) | ((b & 0x1f) as bv16)
  }

  /** White encodes to 0x7FFF, not 0xFFFF. */
  lemma WhiteAsWritten()
    ensures EncodeRgb565AsWritten(255, 255, 255) == 0x7fff
  {
  }

  /** The green field (bits 4-9) overlaps the blue one (bits 0-4): two different colours
      get the same word. */
  lemma EncodeAsWrittenCollides()
    ensures EncodeRgb565AsWritten(0, 1, 0) == EncodeRgb565AsWritten(0, 0, 16) == 16
  {
  }

  /** The evidently intended encoder: red in bits 11-15, green in 5-10, blue in 0-4. Each
      masked component reads back from its own field. */
  function EncodeRgb565(r: bv8, g: bv8, b: bv8): (w: bv16)
    ensures w >> 11 == (r & 0x1f) as bv16
    ensures (w >> 5) & 0x3f == (g & 0x3f) as bv16
    ensures w & 0x1f == (b & 0x1f) as bv16
  {
    (((r & 0x1f) as bv16) << 11) | (((g & 0x3f) as bv16) << 5) | ((b & 0x1f) as bv16)
  }

  /** The corrected encoder keeps colours apart: equal words mean equal masked components. */
  lemma EncodeRgb565Injective(r1: bv8, g1: bv8, b1: bv8, r2: bv8, g2: bv8, b2: bv8)
    requires EncodeRgb565(r1, g1, b1) == EncodeRgb565(r2, g2, b2)
    ensures r1 & 0x1f == r2 & 0x1f && g1 & 0x3f == g2 & 0x3f && b1 & 0x1f == b2 & 0x1f
  {
    var w := EncodeRgb565(r1, g1, b1);
    assert (r1 & 0x1f) as bv16 == (r2 & 0x1f) as bv16;
    assert (g1 & 0x3f) as bv16 == (g2 & 0x3f) as bv16;
    assert (b1 & 0x1f) as bv16 == (b2 & 0x1f) as bv16;
  }

  /** White now encodes to all ones. */
  lemma WhiteEncoded()
    ensures EncodeRgb565(255, 255, 255) == 0xffff
  {
  }

  /** `(1 << k) & word != 0`: the level `write_bit!` gives DB`k`. */
  predicate BitSet(word: bv16, k: nat)
    requires k < BUS_WIDTH
  {
    (1 as bv16 << k) & word != 0
  }

  /** The levels `write_2bytes!` puts on DB0..DB15: pin `k` high iff bit `k` of the word is set. */
  function PinLevels(word: bv16): (pins: seq<bool>)
    ensures |pins| == BUS_WIDTH
  {
    seq(BUS_WIDTH, k requires 0 <= k < BUS_WIDTH => BitSet(word, k))
  }

  /** The contribution of pin `k` to the word the panel samples. */
  function PinBit(level: bool, k: nat): bv16
    requires k < BUS_WIDTH
  {
    if level then 1 << k else 0
  }

  /** The word the panel samples from the sixteen data lines, DB0 the least significant. */
  function SampledWord(pins: seq<bool>): bv16
    requires |pins| == BUS_WIDTH
  {
    PinBit(pins[0], 0) | PinBit(pins[1], 1) | PinBit(pins[2], 2) | PinBit(pins[3], 3)
    | PinBit(pins[4], 4) | PinBit(pins[5], 5) | PinBit(pins[6], 6) | PinBit(pins[7], 7)
    | PinBit(pins[8], 8) | PinBit(pins[9], 9) | PinBit(pins[10], 10) | PinBit(pins[11], 11)
    | PinBit(pins[12], 12) | PinBit(pins[13], 13) | PinBit(pins[14], 14) | PinBit(pins[15], 15)
  }

  /** Pin `k` contributes bit `k` of the word and nothing else. */
  lemma PinBitIsMask(word: bv16, k: nat)
    requires k < BUS_WIDTH
    ensures PinBit(PinLevels(word)[k], k) == word & (1 << k)
  {
  }

  /** A word is the union of its sixteen one-bit masks. */
  lemma WordOfMasks(word: bv16)
    ensures word == (word & 1) | (word & 2) | (word & 4) | (word & 8) | (word & 0x10) | (word & 0x20)
      | (word & 0x40) | (word & 0x80) | (word & 0x100) | (word & 0x200) | (word & 0x400) | (word & 0x800)
      | (word & 0x1000) | (word & 0x2000) | (word & 0x4000) | (word & 0x8000)
  {
  }

  /** The panel samples back exactly the word the sixteen pins were set from. */
  lemma PinsRoundTrip(word: bv16)
    ensures SampledWord(PinLevels(word)) == word
  {
    PinBitIsMask(word, 0); PinBitIsMask(word, 1); PinBitIsMask(word, 2); PinBitIsMask(word, 3);
    PinBitIsMask(word, 4); PinBitIsMask(word, 5); PinBitIsMask(word, 6); PinBitIsMask(word, 7);
    PinBitIsMask(word, 8); PinBitIsMask(word, 9); PinBitIsMask(word, 10); PinBitIsMask(word, 11);
    PinBitIsMask(word, 12); PinBitIsMask(word, 13); PinBitIsMask(word, 14); PinBitIsMask(word, 15);
    WordOfMasks(word);
  }

  /** `write_2bytes!`: the sixteen `write_bit!` steps, DB0 first. */
  method Write2Bytes(bus: array<bool>, word: bv16)
    requires bus.Length == BUS_WIDTH
    modifies bus
    ensures bus[..] == PinLevels(word)
  {
    for k := 0 to BUS_WIDTH
      invariant forall j :: 0 <= j < k ==> bus[j] == PinLevels(word)[j]
    {
      bus[k] := BitSet(word, k);
    }
  }

  /** The data phase of a command: each word put on the bus in turn. The panel latches the
      bus once per word, so the levels it sees are returned in order. */
  method WriteWords(bus: array<bool>, words: seq<bv16>) returns (latched: seq<seq<bool>>)
    requires bus.Length == BUS_WIDTH
    modifies bus
    ensures |latched| == |words|
    ensures forall i :: 0 <= i < |words| ==> latched[i] == PinLevels(words[i])
  {
    latched := [];
    for i := 0 to |words|
      invariant |latched| == i
      invariant forall j :: 0 <= j < i ==> latched[j] == PinLevels(words[j])
    {
      Write2Bytes(bus, words[i]);
      latched := latched + [bus[..]];
    }
  }

  /** The address data of the bring-up sequence:
      `[(start >> 8) as u8, (start & 0xff) as u8, (end >> 8) as u8, (end & 0xff) as u8]`,
      widened to words. Every word fits in a byte, and each pair joins back to its address. */
  function AddressData(start: bv16, end: bv16): (d: seq<bv16>)
    ensures |d| == 4 && forall i :: 0 <= i < 4 ==> d[i] < 0x100
    ensures (d[0] << 8) | d[1] == start && (d[2] << 8) | d[3] == end
  {
    [start >> 8, start & 0xff, end >> 8, end & 0xff]
  }

  /** A column or page address set's data phase: the four address words put on the bus in
      turn; the start and end addresses join back from what the panel samples. */
  method SendAddress(bus: array<bool>, start: bv16, end: bv16) returns (latched: seq<seq<bool>>)
    requires bus.Length == BUS_WIDTH
    modifies bus
    ensures |latched| == 4 && forall i :: 0 <= i < 4 ==> |latched[i]| == BUS_WIDTH
    ensures (SampledWord(latched[0]) << 8) | SampledWord(latched[1]) == start
    ensures (SampledWord(latched[2]) << 8) | SampledWord(latched[3]) == end
  {
    var d := AddressData(start, end);
    latched := WriteWords(bus, d);
    PinsRoundTrip(d[0]);
    PinsRoundTrip(d[1]);
    PinsRoundTrip(d[2]);
    PinsRoundTrip(d[3]);
  }
}
