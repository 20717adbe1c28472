/**
 * The pure side of the 16-bit ILI9341 driver (ili9431.rs): the colour word, the memory
 * access control word, the address argument words and the `draw_iter` filter. Here every
 * bus transfer is a 16-bit word.
 */
module Ili9431 {
  import opened Ints
  import opened Geometry
  import opened Panel

  /** The panel in landscape: 320 columns, 240 rows. */
  const BOUNDING_BOX: Rectangle := Rectangle(Point(0, 0), 320, 240)

  /** `rgb656_to_u16`: the native-endian bytes of the colour put back together, high byte
      from `b[1]`; on a little-endian target that is the raw colour word itself. */
  function Rgb656ToU16(c: Rgb565): (w: u16)
    ensures w == Raw(c)
  {
    var b := NeBytes(Raw(c));
    (b[1] as int * 256 + b[0] as int) as u16
  }

  /** Different colours are sent as different words. */
  lemma Rgb656ToU16Injective(c1: Rgb565, c2: Rgb565)
    requires Rgb656ToU16(c1) == Rgb656ToU16(c2)
    ensures c1 == c2
  {
    RawRoundTrip(c1);
    RawRoundTrip(c2);
  }

  /** `memory_access_control`: the flag word built up one `|=` at a time in a `u16`, with
      the same bit layout as the 8-bit driver's byte. */
  method MemoryAccessControlWord(m: Madctl) returns (data: bv16)
    ensures data < 0x100 && DecodeMadctl(data as bv8) == m
    ensures data & 3 == 0
  {
    data := 0;
    data := data | FlagBit(m.horRefresh, 2) as bv16;
    data := data | FlagBit(m.color, 3) as bv16;
    data := data | FlagBit(m.vertRefresh, 4) as bv16;
    data := data | FlagBit(m.rcExchange, 5) as bv16;
    data := data | FlagBit(m.columnOrder, 6) as bv16;
    data := data | FlagBit(m.rowOrder, 7) as bv16;
  }

  /** `set_pixel_format`: `pixel as u16`, one argument word. */
  function PixelFormatWord(p: PixelFormat): (w: u16)
    ensures w < 0x100
    ensures p == Bit16 <==> w as int % 16 == 5
  {
    PixelFormatCode(p) as int as u16
  }

  /** The column or page address argument as four words, each holding one byte:
      `[start >> 8, start & 0xff, end >> 8, end & 0xff]`. */
  function AddressWords(start: u16, end: u16): (d: seq<u16>)
    ensures |d| == 4 && forall i :: 0 <= i < 4 ==> d[i] < 0x100
    ensures Join(d[0] as int, d[1] as int) == start as int
    ensures Join(d[2] as int, d[3] as int) == end as int
  {
    [(start as int / 256) as u16, (start as int % 256) as u16,
     (end as int / 256) as u16, (end as int % 256) as u16]
  }

  /** The 16-bit driver sends the same four values the 8-bit driver sends as bytes. */
  lemma AddressWordsMatchBytes(start: u16, end: u16)
    ensures forall i :: 0 <= i < 4 ==> AddressWords(start, end)[i] as int == AddressBytes(start, end)[i] as int
  {
    var w, b := AddressWords(start, end), AddressBytes(start, end);
    assert w[0] as int * 256 + w[1] as int == b[0] as int * 256 + b[1] as int;
    assert w[2] as int * 256 + w[3] as int == b[2] as int * 256 + b[3] as int;
  }

  /** One `draw_data` call: the area it addresses and the words it writes there. */
  datatype WordWrite = WordWrite(area: Rectangle, data: seq<u16>)

  function PixelWrite(px: Pixel): WordWrite {
    WordWrite(Rectangle(px.coord, 1, 1), [Rgb656ToU16(px.color)])
  }

  /** The `draw_iter` filter as written: x in 0..=239 and y in 0..=319, the bounds of the
      panel in portrait. */
  predicate AcceptedAsWritten(p: Point) {
    0 <= p.x <= 239 && 0 <= p.y <= 319
  }

  /** The writes `draw_iter` makes for `pixels`, in order. Every write is one pixel that
      passed the filter, with that pixel's colour. */
  function DrawnAsWritten(pixels: seq<Pixel>): (ws: seq<WordWrite>)
    ensures forall w :: w in ws ==> w.area.width == 1 && w.area.height == 1 && AcceptedAsWritten(w.area.topLeft)
    ensures forall i :: 0 <= i < |pixels| && AcceptedAsWritten(pixels[i].coord) ==> PixelWrite(pixels[i]) in ws
    ensures forall w :: w in ws ==> exists i :: 0 <= i < |pixels| && AcceptedAsWritten(pixels[i].coord) && w == PixelWrite(pixels[i])
    ensures |ws| <= |pixels|
    decreases |pixels|
  {
    if |pixels| == 0 then []
    else
      var last := pixels[|pixels| - 1];
      var prefix := pixels[..|pixels| - 1];
      assert forall i :: 0 <= i < |prefix| ==> prefix[i] == pixels[i];
      DrawnAsWritten(prefix) + (if AcceptedAsWritten(last.coord) then [PixelWrite(last)] else [])
  }

  /** `draw_iter` as written: each pixel in turn, drawn when it passes the filter. */
  method DrawIter(pixels: seq<Pixel>) returns (ws: seq<WordWrite>)
    ensures ws == DrawnAsWritten(pixels)
  {
    ws := [];
    for i := 0 to |pixels|
      invariant ws == DrawnAsWritten(pixels[..i])
    {
      assert pixels[..i + 1][..i] == pixels[..i];
      if AcceptedAsWritten(pixels[i].coord) {
        ws := ws + [PixelWrite(pixels[i])];
      }
    }
    assert pixels[..|pixels|] == pixels;
  }

  /** The filter and the 320x240 bounding box disagree both ways: a pixel at (300, 10) is on
      the screen and dropped, and one at (10, 300) is off the screen and sent. */
  lemma DrawIterFilterMismatch(c: Rgb565)
    ensures Contains(BOUNDING_BOX, Point(300, 10)) && DrawnAsWritten([Pixel(Point(300, 10), c)]) == []
    ensures !Contains(BOUNDING_BOX, Point(10, 300)) && DrawnAsWritten([Pixel(Point(10, 300), c)]) != []
  {
    var ws := DrawnAsWritten([Pixel(Point(10, 300), c)]);
    assert PixelWrite(Pixel(Point(10, 300), c)) in ws;
  }

  /** The evidently intended filter: the panel's own bounding box. */
  predicate OnScreen(p: Point) {
    0 <= p.x <= 319 && 0 <= p.y <= 239
  }

  /** The writes with the intended filter: a pixel is written, with its own colour, exactly
      when it lies inside the bounding box. */
  function Drawn(pixels: seq<Pixel>): (ws: seq<WordWrite>)
    ensures forall w :: w in ws ==> w.area.width == 1 && w.area.height == 1 && Contains(BOUNDING_BOX, w.area.topLeft)
    ensures forall i :: 0 <= i < |pixels| && Contains(BOUNDING_BOX, pixels[i].coord) ==> PixelWrite(pixels[i]) in ws
    ensures forall w :: w in ws ==> exists i :: 0 <= i < |pixels| && OnScreen(pixels[i].coord) && w == PixelWrite(pixels[i])
    ensures |ws| <= |pixels|
    decreases |pixels|
  {
    if |pixels| == 0 then []
    else
      var last := pixels[|pixels| - 1];
      var prefix := pixels[..|pixels| - 1];
      assert forall i :: 0 <= i < |prefix| ==> prefix[i] == pixels[i];
      Drawn(prefix) + (if OnScreen(last.coord) then [PixelWrite(last)] else [])
  }
}
