/**
 * The pure side of the 8-bit ILI9486 driver (ili9486.rs): colour bytes, the memory access
 * control flag byte, the address arguments, and the choice of which pixels and tiles are
 * sent. Each command the driver would send is returned as a value instead of written to
 * the bus.
 */
module Ili9486 {
  import opened Ints
  import opened Geometry
  import opened Panel

  /** The panel in landscape: 480 columns, 320 rows. */
  const BOUNDING_BOX: Rectangle := Rectangle(Point(0, 0), 480, 320)

  /** Side of the square tile `draw_solid` fills. */
  const TILE: nat := 32

  datatype Command = ColumnAddressSet | PageAddressSet | MemoryWrite | MemoryAccessControl | InterfacePixelFormat

  /** The command byte of each command the model sends. */
  function CommandCode(c: Command): u8 {
    match c
    case ColumnAddressSet => 0x2a
    case PageAddressSet => 0x2b
    case MemoryWrite => 0x2c
    case MemoryAccessControl => 0x36
    case InterfacePixelFormat => 0x3a
  }

  /** One command with its argument bytes. */
  datatype Write = Write(command: Command, data: seq<u8>)

  /** `color_to_data`: the two native-endian bytes of the colour's raw word, swapped, so the
      panel receives the word high byte first. */
  function ColorToData(c: Rgb565): (d: seq<u8>)
    ensures |d| == 2 && Join(d[0] as int, d[1] as int) == Raw(c) as int
  {
    var b := NeBytes(Raw(c));
    [b[1], b[0]]
  }

  /** Different colours are sent as different byte pairs. */
  lemma ColorToDataInjective(c1: Rgb565, c2: Rgb565)
    requires ColorToData(c1) == ColorToData(c2)
    ensures c1 == c2
  {
    RawRoundTrip(c1);
    RawRoundTrip(c2);
  }

  /** `memory_access_control`: the flag byte built up one `|=` at a time, horizontal
      refresh first and row order last. */
  method MemoryAccessControlByte(m: Madctl) returns (data: bv8)
    ensures DecodeMadctl(data) == m
    ensures data & 3 == 0
  {
    data := 0;
    data := data | FlagBit(m.horRefresh, 2);
    data := data | FlagBit(m.color, 3);
    data := data | FlagBit(m.vertRefresh, 4);
    data := data | FlagBit(m.rcExchange, 5);
    data := data | FlagBit(m.columnOrder, 6);
    data := data | FlagBit(m.rowOrder, 7);
  }

  /** `set_pixel_format`: one argument byte, the format code. */
  function SetPixelFormat(p: PixelFormat): (w: Write)
    ensures w.command == InterfacePixelFormat && |w.data| == 1
    ensures p == Bit16 <==> w.data[0] as int % 16 == 5
  {
    Write(InterfacePixelFormat, [PixelFormatCode(p)])
  }

  /** `set_active_area`: the column range then the page range of the area, each end
      inclusive and truncated to 16 bits; nothing at all for an area of zero width or
      height. */
  function SetActiveArea(area: Rectangle): (ws: seq<Write>)
    ensures ws == [] <==> area.width == 0 || area.height == 0
    ensures ws != [] ==>
      && |ws| == 2 && ws[0].command == ColumnAddressSet && ws[1].command == PageAddressSet
      && |ws[0].data| == 4 && |ws[1].data| == 4
      && Join(ws[0].data[0] as int, ws[0].data[1] as int) == AsU16(area.topLeft.x) as int
      && Join(ws[0].data[2] as int, ws[0].data[3] as int) == AsU16(area.topLeft.x + area.width - 1) as int
      && Join(ws[1].data[0] as int, ws[1].data[1] as int) == AsU16(area.topLeft.y) as int
      && Join(ws[1].data[2] as int, ws[1].data[3] as int) == AsU16(area.topLeft.y + area.height - 1) as int
  {
    match BottomRight(area)
    case None => []
    case Some(end) =>
      [Write(ColumnAddressSet, AddressBytes(AsU16(area.topLeft.x), AsU16(end.x))),
       Write(PageAddressSet, AddressBytes(AsU16(area.topLeft.y), AsU16(end.y)))]
  }

  /** An on-screen rectangle's address window is exactly its own columns and rows. */
  lemma ActiveAreaOnScreen(area: Rectangle)
    requires area.width > 0 && area.height > 0
    requires Contains(BOUNDING_BOX, area.topLeft)
    requires area.topLeft.x + area.width <= 480 && area.topLeft.y + area.height <= 320
    ensures var ws := SetActiveArea(area);
      && Join(ws[0].data[0] as int, ws[0].data[1] as int) == area.topLeft.x
      && Join(ws[0].data[2] as int, ws[0].data[3] as int) == area.topLeft.x + area.width - 1
      && Join(ws[1].data[0] as int, ws[1].data[1] as int) == area.topLeft.y
      && Join(ws[1].data[2] as int, ws[1].data[3] as int) == area.topLeft.y + area.height - 1
  {
  }

  /** One `draw_data` call: the area it addresses and the bytes it writes there. */
  datatype DataWrite = DataWrite(area: Rectangle, data: seq<u8>)

  /** The `draw_iter` filter: the pixel converts to unsigned coordinates in 0..=479 and
      0..=319. */
  predicate Accepted(p: Point) {
    0 <= p.x <= 479 && 0 <= p.y <= 319
  }

  /** The write `draw_iter` makes for an accepted pixel: its 1x1 area and its colour bytes. */
  function PixelWrite(px: Pixel): DataWrite {
    DataWrite(Rectangle(px.coord, 1, 1), ColorToData(px.color))
  }

  /** The writes `draw_iter` makes for `pixels`, in order. Every write covers one pixel of
      the screen, and every on-screen pixel is written with its own colour. */
  function Drawn(pixels: seq<Pixel>): (ws: seq<DataWrite>)
    ensures forall w :: w in ws ==> w.area.width == 1 && w.area.height == 1 && Contains(BOUNDING_BOX, w.area.topLeft)
    ensures forall i :: 0 <= i < |pixels| && Contains(BOUNDING_BOX, pixels[i].coord) ==> PixelWrite(pixels[i]) in ws
    ensures forall w :: w in ws ==> exists i :: 0 <= i < |pixels| && Accepted(pixels[i].coord) && w == PixelWrite(pixels[i])
    ensures |ws| <= |pixels|
    decreases |pixels|
  {
    if |pixels| == 0 then []
    else
      var last := pixels[|pixels| - 1];
      var prefix := pixels[..|pixels| - 1];
      assert forall i :: 0 <= i < |prefix| ==> prefix[i] == pixels[i];
      Drawn(prefix) + (if Accepted(last.coord) then [PixelWrite(last)] else [])
  }

  /** `draw_iter`: each pixel in turn, drawn when it is on the screen and skipped otherwise. */
  method DrawIter(pixels: seq<Pixel>) returns (ws: seq<DataWrite>)
    ensures ws == Drawn(pixels)
  {
    ws := [];
    for i := 0 to |pixels|
      invariant ws == Drawn(pixels[..i])
    {
      assert pixels[..i + 1][..i] == pixels[..i];
      if Accepted(pixels[i].coord) {
        ws := ws + [PixelWrite(pixels[i])];
      }
    }
    assert pixels[..|pixels|] == pixels;
  }

  // ----- draw_solid_area -----

  /** `v` is one of the values `(from..to).step_by(32)` yields. */
  predicate OnStep(v: int, from: int, to: int) {
    from <= v < to && (v - from) % TILE == 0
  }

  /** A stepped range that overshoots its end by less than one step holds the same values
      as the range up to the end. */
  lemma OnStepPastEnd(v: int, from: int, to: int, past: int)
    requires to <= past < to + TILE && (past - from) % TILE == 0
    ensures OnStep(v, from, past) <==> OnStep(v, from, to)
  {
  }

  /** One more step extends a stepped range by exactly its end. */
  lemma OnStepNext(v: int, from: int, to: int)
    requires from <= to && (to - from) % TILE == 0
    ensures OnStep(v, from, to + TILE) <==> OnStep(v, from, to) || v == to
  {
  }

  /** The tile origins `draw_solid_area` fills: the clipped area's top-left corner stepped
      by 32 in each direction, up to but excluding its inclusive bottom-right corner. */
  ghost function SolidTileOrigins(area: Rectangle): (r: set<Point>)
    ensures forall p :: p in r ==> Contains(Intersection(BOUNDING_BOX, area), p)
  {
    var a := Intersection(BOUNDING_BOX, area);
    match BottomRight(a)
    case None => {}
    case Some(br) =>
      set x, y | a.topLeft.x <= x < br.x && a.topLeft.y <= y < br.y && OnStep(x, a.topLeft.x, br.x) && OnStep(y, a.topLeft.y, br.y) :: Point(x, y)
  }

  /** Column-major order: `p` comes before `q` in an earlier column, or higher in the same one. */
  predicate ColumnMajorBefore(p: Point, q: Point) {
    p.x < q.x || (p.x == q.x && p.y < q.y)
  }

  /** The inner loop of `draw_solid_area`: the tile origins of one column, top to bottom. */
  method FillColumn(x: int, top: int, bottom: int) returns (column: seq<Point>)
    requires top <= bottom
    ensures forall p :: p in column <==> p.x == x && OnStep(p.y, top, bottom)
    ensures forall i, j :: 0 <= i < j < |column| ==> column[i].x == x && column[i].y < column[j].y
  {
    column := [];
    var y := top;
    while y < bottom
      invariant top <= y < bottom + TILE && (y - top) % TILE == 0
      invariant forall p :: p in column <==> p.x == x && OnStep(p.y, top, y)
      invariant forall i :: 0 <= i < |column| ==> column[i].x == x && column[i].y < y
      invariant forall i, j :: 0 <= i < j < |column| ==> column[i].y < column[j].y
      decreases bottom - y
    {
      column := column + [Point(x, y)];
      y := y + TILE;
    }
    forall v | true
      ensures OnStep(v, top, y) <==> OnStep(v, top, bottom)
    {
      OnStepPastEnd(v, top, bottom, y);
    }
  }

  /** `draw_solid_area`: clip the area to the screen and, column by column, fill a 32x32
      tile at each origin of the stepped ranges; the origins are returned in the order
      they are filled. */
  method DrawSolidArea(area: Rectangle) returns (origins: seq<Point>)
    ensures forall p :: p in origins <==> p in SolidTileOrigins(area)
    ensures forall i, j :: 0 <= i < j < |origins| ==> ColumnMajorBefore(origins[i], origins[j])
  {
    var a := Intersection(BOUNDING_BOX, area);
    origins := [];
    var br := BottomRight(a);
    if br.None? {
      return;
    }
    var tl, end := a.topLeft, br.value;
    assert tl.y <= end.y;
    var x := tl.x;
    while x < end.x
      invariant tl.x <= x < end.x + TILE && (x - tl.x) % TILE == 0
      invariant forall p :: p in origins <==> OnStep(p.x, tl.x, x) && OnStep(p.y, tl.y, end.y)
      invariant forall i :: 0 <= i < |origins| ==> origins[i].x < x
      invariant forall i, j :: 0 <= i < j < |origins| ==> ColumnMajorBefore(origins[i], origins[j])
      decreases end.x - x
    {
      var column := FillColumn(x, tl.y, end.y);
      ColumnMajorAppend(origins, column, x);
      forall v | true
        ensures OnStep(v, tl.x, x + TILE) <==> OnStep(v, tl.x, x) || v == x
      {
        OnStepNext(v, tl.x, x);
      }
      origins := origins + column;
      x := x + TILE;
    }
    forall v | true
      ensures OnStep(v, tl.x, x) <==> OnStep(v, tl.x, end.x)
    {
      OnStepPastEnd(v, tl.x, end.x, x);
    }
  }

  /** Appending a column to origins of earlier columns keeps the column-major order. */
  lemma ColumnMajorAppend(origins: seq<Point>, column: seq<Point>, x: int)
    requires forall i, j :: 0 <= i < j < |origins| ==> ColumnMajorBefore(origins[i], origins[j])
    requires forall i :: 0 <= i < |origins| ==> origins[i].x < x
    requires forall i, j :: 0 <= i < j < |column| ==> column[i].x == x && column[i].y < column[j].y
    requires forall i :: 0 <= i < |column| ==> column[i].x == x
    ensures forall i, j :: 0 <= i < j < |origins + column| ==>
      ColumnMajorBefore((origins + column)[i], (origins + column)[j])
  {
  }

  /** The range stops before the inclusive bottom-right corner, so a one-pixel area gets
      no tile at all and its pixel is never painted. */
  lemma SolidAreaMissesEdge()
    ensures Contains(Intersection(BOUNDING_BOX, Rectangle(Point(0, 0), 1, 1)), Point(0, 0))
    ensures SolidTileOrigins(Rectangle(Point(0, 0), 1, 1)) == {}
  {
  }

  /** The tile origins of the evidently intended loop, which runs up to and including the
      bottom-right corner (`..=`). */
  ghost function CoveringTileOrigins(area: Rectangle): (r: set<Point>)
    ensures forall p :: p in r ==> Contains(Intersection(BOUNDING_BOX, area), p)
  {
    var a := Intersection(BOUNDING_BOX, area);
    match BottomRight(a)
    case None => {}
    case Some(br) =>
      set x, y | a.topLeft.x <= x <= br.x && a.topLeft.y <= y <= br.y && OnStep(x, a.topLeft.x, br.x + 1) && OnStep(y, a.topLeft.y, br.y + 1) :: Point(x, y)
  }

  /** With the inclusive range every on-screen pixel of the area lies in a filled tile. */
  lemma CoveringTilesCoverArea(area: Rectangle, p: Point)
    requires Contains(Intersection(BOUNDING_BOX, area), p)
    ensures exists o :: o in CoveringTileOrigins(area) && o.x <= p.x < o.x + TILE && o.y <= p.y < o.y + TILE
  {
    var a := Intersection(BOUNDING_BOX, area);
    var ox := a.topLeft.x + (p.x - a.topLeft.x) / TILE * TILE;
    var oy := a.topLeft.y + (p.y - a.topLeft.y) / TILE * TILE;
    var o := Point(ox, oy);
    assert OnStep(ox, a.topLeft.x, a.topLeft.x + a.width);
    assert OnStep(oy, a.topLeft.y, a.topLeft.y + a.height);
    assert o in CoveringTileOrigins(area);
  }
}
