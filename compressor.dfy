/**
 * The tile compressor (tga_compressor/compressor.py): every pixel of a tile image becomes one
 * bit, set when any channel is non-zero, and the bits are packed eight to a byte, least
 * significant bit first (numpy `packbits` with `bitorder="little"`). Decoding the image and
 * listing the source directory are not modelled: the decoded pixels and the directory's
 * entries are parameters.
 */
module Compressor {
  import opened Ints
  import opened Geometry

  /** A decoded pixel: its channel values. */
  type PixelData = seq<u8>

  /** `any(pixel)`: whether some channel is non-zero. */
  function Lit(pixel: PixelData): (b: bool)
    ensures b <==> exists k :: 0 <= k < |pixel| && pixel[k] != 0
    decreases |pixel|
  {
    if |pixel| == 0 then false
    else pixel[0] != 0 || Lit(pixel[1..])
  }

  /** The list comprehension: one bit per pixel, in order. */
  function Bits(pixels: seq<PixelData>): (bits: seq<bool>)
    ensures |bits| == |pixels| && forall i :: 0 <= i < |pixels| ==> bits[i] == Lit(pixels[i])
  {
    seq(|pixels|, i requires 0 <= i < |pixels| => Lit(pixels[i]))
  }

  function Pow2(n: nat): (p: nat)
    ensures p >= 1
  {
    if n == 0 then 1 else 2 * Pow2(n - 1)
  }

  lemma {:induction false} Pow2AtMostByte(n: nat)
    requires n <= 8
    ensures Pow2(n) <= 256
    decreases 8 - n
  {
    if n < 8 {
      Pow2AtMostByte(n + 1);
    }
  }

  /** The byte holding a chunk of at most eight bits, the first bit least significant. */
  function ByteValue(chunk: seq<bool>): (v: nat)
    ensures v < Pow2(|chunk|)
    decreases |chunk|
  {
    if |chunk| == 0 then 0
    else (if chunk[0] then 1 else 0) + 2 * ByteValue(chunk[1..])
  }

  /** Bit `k` of a byte value, counting from the least significant. */
  function BitOf(v: nat, k: nat): bool
    decreases k
  {
    if k == 0 then v % 2 == 1 else BitOf(v / 2, k - 1)
  }

  /** Bit `k` of a chunk's byte is the chunk's `k`-th bit, and every bit past the chunk is 0. */
  lemma {:induction false} ByteValueBits(chunk: seq<bool>, k: nat)
    ensures k < |chunk| ==> BitOf(ByteValue(chunk), k) == chunk[k]
    ensures k >= |chunk| ==> !BitOf(ByteValue(chunk), k)
    decreases |chunk|
  {
    if |chunk| == 0 {
      ZeroHasNoBits(k);
    } else if k > 0 {
      ByteValueBits(chunk[1..], k - 1);
    }
  }

  lemma {:induction false} ZeroHasNoBits(k: nat)
    ensures !BitOf(0, k)
  {
    if k > 0 {
      ZeroHasNoBits(k - 1);
    }
  }

  /** `np.packbits(bits, bitorder="little")`: the bits in chunks of eight, a short final
      chunk padded with zeros; `ceil(n / 8)` bytes. */
  function PackBits(bits: seq<bool>): (bytes: seq<u8>)
    ensures |bytes| == (|bits| + 7) / 8
    decreases |bits|
  {
    if |bits| == 0 then []
    else
      var n := if |bits| < 8 then |bits| else 8;
      Pow2AtMostByte(n);
      [ByteValue(bits[..n]) as u8] + PackBits(bits[n..])
  }

  /** Bit `i` of a packed stream: bit `i mod 8` of byte `i div 8`. */
  predicate UnpackBit(bytes: seq<u8>, i: nat)
    requires i < 8 * |bytes|
  {
    BitOf(bytes[i / 8] as nat, i % 8)
  }

  /** The first packed byte holds the first chunk, and the rest are the packed remainder. */
  lemma PackBitsUnfold(bits: seq<bool>)
    requires |bits| > 0
    ensures var n := if |bits| < 8 then |bits| else 8;
      PackBits(bits)[0] as nat == ByteValue(bits[..n]) && PackBits(bits)[1..] == PackBits(bits[n..])
  {
  }

  /** Position `i` of a stream is position `i - 8` of the stream after its first byte. */
  lemma ShiftByte(i: nat)
    requires i >= 8
    ensures (i - 8) / 8 == i / 8 - 1 && (i - 8) % 8 == i % 8
  {
  }

  /** Packing loses nothing: bit `i` of the output is input bit `i`, and every padding bit
      of the last byte is 0. */
  lemma {:induction false} PackBitsRoundTrip(bits: seq<bool>, i: nat)
    requires i < 8 * |PackBits(bits)|
    ensures i < |bits| ==> UnpackBit(PackBits(bits), i) == bits[i]
    ensures i >= |bits| ==> !UnpackBit(PackBits(bits), i)
    decreases |bits|
  {
    var n := if |bits| < 8 then |bits| else 8;
    PackBitsUnfold(bits);
    if i < 8 {
      ByteValueBits(bits[..n], i);
    } else {
      var rest := PackBits(bits[n..]);
      ShiftByte(i);
      PackBitsRoundTrip(bits[n..], i - 8);
      assert PackBits(bits)[i / 8] == rest[(i - 8) / 8];
    }
  }

  /** `_compress`: the packed pixel bits of a decoded image. */
  function Compress(pixels: seq<PixelData>): (bytes: seq<u8>)
    ensures |bytes| == (|pixels| + 7) / 8
  {
    PackBits(Bits(pixels))
  }

  /** A pixel reads back from the compressed stream as lit exactly when a channel of it is
      non-zero. */
  lemma CompressedPixel(pixels: seq<PixelData>, i: nat)
    requires i < |pixels|
    ensures UnpackBit(Compress(pixels), i) <==> exists k :: 0 <= k < |pixels[i]| && pixels[i][k] != 0
  {
    PackBitsRoundTrip(Bits(pixels), i);
  }

  /** The position of the last `.` in a name, if any. */
  function LastDot(name: string): (r: Option<nat>)
    ensures r.Some? ==> r.value < |name| && name[r.value] == '.' && '.' !in name[r.value + 1..]
    ensures r.None? <==> '.' !in name
    decreases |name|
  {
    if |name| == 0 then None
    else if name[|name| - 1] == '.' then Some(|name| - 1)
    else
      var r := LastDot(name[..|name| - 1]);
      assert name == name[..|name| - 1] + [name[|name| - 1]];
      r
  }

  /** `Path.stem` of a file name: the name without its suffix. The suffix starts at the last
      `.`, unless that dot opens the name or ends it, in which case there is no suffix. */
  function Stem(name: string): (s: string)
    ensures s <= name
    ensures s != name ==> 0 < |s| < |name| - 1 && name[|s|] == '.' && '.' !in name[|s| + 1..]
    ensures s == name ==> forall i :: 0 < i < |name| - 1 && name[i] == '.' ==> '.' in name[i + 1..]
  {
    match LastDot(name)
    case Some(i) =>
      if 0 < i < |name| - 1 then name[..i]
      else
        assert forall j :: 0 < j < |name| - 1 && name[j] == '.' ==> '.' in name[j + 1..] by {
          forall j | 0 < j < |name| - 1 && name[j] == '.'
            ensures '.' in name[j + 1..]
          {
            assert j < i;
            assert name[i] == name[j + 1..][i - j - 1];
          }
        }
        name
    case None => name
  }

  /** A name and extension put together lose the extension again. */
  lemma StemDropsExtension(base: string, ext: string)
    requires |base| > 0 && |ext| > 0 && '.' !in ext
    ensures Stem(base + "." + ext) == base
  {
    var name := base + "." + ext;
    assert name[|base|] == '.';
    assert name[|base| + 1..] == ext;
    assert name[..|base|] == base;
  }

  /** `dest / f"{file.stem}.bin"`: the output path of one source file. */
  function OutputName(dest: string, file: string): string {
    dest + "/" + Stem(file) + ".bin"
  }

  /** Output paths are distinct exactly when the stems are. */
  lemma OutputNameInjective(dest: string, f1: string, f2: string)
    ensures OutputName(dest, f1) == OutputName(dest, f2) <==> Stem(f1) == Stem(f2)
  {
    var o1, o2 := OutputName(dest, f1), OutputName(dest, f2);
    if o1 == o2 {
      var n1, n2 := |Stem(f1)|, |Stem(f2)|;
      assert |o1| == |dest| + 1 + n1 + 4;
      assert Stem(f1) == o1[|dest| + 1..|dest| + 1 + n1];
      assert Stem(f2) == o2[|dest| + 1..|dest| + 1 + n2];
    }
  }

  /** What `Image.open` and `getdata` give for one directory entry: multi-channel pixels,
      the plain integers of a single-channel image, or nothing, for an entry that does not
      open as an image (a subdirectory or a file of another kind). */
  datatype Decoded = Channels(pixels: seq<PixelData>) | SingleChannel(values: seq<u8>) | NotAnImage

  /** `_compress` of one entry: `None` when it raises. `Image.open` raises on an entry that
      is not an image; `any` raises on the first integer pixel of a single-channel image;
      and `np.packbits` raises on an empty list, which numpy reads as an array of floats. */
  function CompressImage(img: Decoded): (r: Option<seq<u8>>)
    ensures r.None? <==> img.NotAnImage? || img.SingleChannel? || |img.pixels| == 0
    ensures r.Some? ==> r == Some(Compress(img.pixels)) && |r.value| > 0
  {
    match img
    case Channels(pixels) => if |pixels| == 0 then None else Some(Compress(pixels))
    case SingleChannel(_) => None
    case NotAnImage => None
  }

  /** A source directory entry: its file name and what decoding it gives. */
  datatype Source = Source(name: string, image: Decoded)

  predicate Compresses(src: Source) {
    CompressImage(src.image).Some?
  }

  /** The first entry whose compression raises, if any. */
  function FirstFailure(sources: seq<Source>): (r: Option<nat>)
    ensures r.Some? ==> r.value < |sources| && !Compresses(sources[r.value])
    ensures r.Some? ==> forall j :: 0 <= j < r.value ==> Compresses(sources[j])
    ensures r.None? <==> forall j :: 0 <= j < |sources| ==> Compresses(sources[j])
    decreases |sources|
  {
    if |sources| == 0 then None
    else if !Compresses(sources[0]) then Some(0)
    else match FirstFailure(sources[1..])
      case None => None
      case Some(i) => Some(i + 1)
  }

  /** The files after `comress_all` has processed `sources` in order, none of which raises:
      each source's packed pixels under its output name, a later source overwriting an
      earlier one of the same stem. */
  function Converted(files: map<string, seq<u8>>, dest: string, sources: seq<Source>): (r: map<string, seq<u8>>)
    requires forall j :: 0 <= j < |sources| ==> Compresses(sources[j])
    ensures forall k :: k in files ==> k in r
    ensures forall i :: 0 <= i < |sources| ==> OutputName(dest, sources[i].name) in r
    decreases |sources|
  {
    if |sources| == 0 then files
    else
      var prefix := sources[..|sources| - 1];
      var last := sources[|sources| - 1];
      assert forall i :: 0 <= i < |prefix| ==> prefix[i] == sources[i];
      assert Compresses(last);
      Converted(files, dest, prefix)[OutputName(dest, last.name) := CompressImage(last.image).value]
  }

  /** Each source whose stem no later source shares ends up with its own packed pixels, and
      a file no source maps to is left alone. */
  lemma {:induction false} ConvertedHolds(files: map<string, seq<u8>>, dest: string, sources: seq<Source>, i: nat)
    requires forall j :: 0 <= j < |sources| ==> Compresses(sources[j])
    requires i < |sources|
    requires forall j :: i < j < |sources| ==> Stem(sources[j].name) != Stem(sources[i].name)
    ensures Converted(files, dest, sources)[OutputName(dest, sources[i].name)] == CompressImage(sources[i].image).value
    decreases |sources|
  {
    var last := sources[|sources| - 1];
    if i < |sources| - 1 {
      OutputNameInjective(dest, last.name, sources[i].name);
      ConvertedHolds(files, dest, sources[..|sources| - 1], i);
    }
  }

  /** One more entry of the directory listing that compresses. */
  lemma ConvertedStep(files: map<string, seq<u8>>, dest: string, sources: seq<Source>, i: nat)
    requires i < |sources| && forall j :: 0 <= j <= i ==> Compresses(sources[j])
    ensures Converted(files, dest, sources[..i + 1])
      == Converted(files, dest, sources[..i])[OutputName(dest, sources[i].name) := CompressImage(sources[i].image).value]
  {
    assert sources[..i + 1][..i] == sources[..i];
  }

  lemma {:induction false} ConvertedKeepsOthers(files: map<string, seq<u8>>, dest: string, sources: seq<Source>, k: string)
    requires forall j :: 0 <= j < |sources| ==> Compresses(sources[j])
    requires k in files
    requires forall j :: 0 <= j < |sources| ==> OutputName(dest, sources[j].name) != k
    ensures Converted(files, dest, sources)[k] == files[k]
    decreases |sources|
  {
    if |sources| > 0 {
      ConvertedKeepsOthers(files, dest, sources[..|sources| - 1], k);
    }
  }

  /** The destination directory's files, by path. */
  class FileStore {
    var files: map<string, seq<u8>>

    constructor (files: map<string, seq<u8>>)
      ensures this.files == files
    {
      this.files := files;
    }

    /** `compress`: the packed pixels of the entry written to `dest`, replacing any file
        already there; when `_compress` raises, before `dest` is opened, nothing is
        written. */
    method CompressFile(img: Decoded, dest: string) returns (ok: bool)
      modifies this
      ensures ok <==> CompressImage(img).Some?
      ensures ok ==> files == old(files)[dest := CompressImage(img).value]
      ensures !ok ==> files == old(files)
    {
      var bytes := CompressImage(img);
      if bytes.None? {
        return false;
      }
      files := files[dest := bytes.value];
      ok := true;
    }

    /** `comress_all`: every directory entry compressed in turn to its output name. The
        first entry that raises ends the loop with the outputs of the entries before it
        already written. */
    method CompressAll(dest: string, sources: seq<Source>) returns (ok: bool)
      modifies this
      ensures ok <==> FirstFailure(sources).None?
      ensures ok ==> files == Converted(old(files), dest, sources)
      ensures !ok ==> files == Converted(old(files), dest, sources[..FirstFailure(sources).value])
    {
      ghost var files0 := files;
      for i := 0 to |sources|
        invariant forall j :: 0 <= j < i ==> Compresses(sources[j])
        invariant files == Converted(files0, dest, sources[..i])
      {
        var done := CompressFile(sources[i].image, OutputName(dest, sources[i].name));
        if !done {
          assert FirstFailure(sources) == Some(i);
          return false;
        }
        ConvertedStep(files0, dest, sources, i);
      }
      assert sources[..|sources|] == sources;
      ok := true;
    }
  }
}
