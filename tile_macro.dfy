/**
 * The `render_tiles` attribute macro (koldun_macro_derive/src/lib.rs). Its argument is a
 * comma-separated list of tile constants, each a `(sheet, index)` pair. For every constant
 * the macro adds two methods to the annotated type: one returning the tile's id and one
 * rendering the tile's bitmap. Token streams are sequences of tokens; the generated
 * methods are values that say what they compute.
 */
module TileMacro {
  import opened Ints
  import opened Geometry

  /** The tokens the argument list can hold. */
  datatype Token = Ident(name: string) | Comma | Other(text: string)

  /** `Punctuated::<Ident, Token![,]>::parse_terminated`: identifiers separated by commas, an
      optional trailing comma, the empty list allowed; anything else is a parse error. */
  function ParseArgs(ts: seq<Token>): (r: Option<seq<string>>)
    ensures r.Some? ==> |r.value| <= |ts|
    decreases |ts|
  {
    if |ts| == 0 then Some([])
    else if !ts[0].Ident? then None
    else if |ts| == 1 then Some([ts[0].name])
    else if ts[1] != Comma then None
    else
      var rest := ParseArgs(ts[2..]);
      if rest.None? then None else Some([ts[0].name] + rest.value)
  }

  /** The argument list written out: the identifiers separated by commas, with a trailing
      comma when `trailing` is set and the list is not empty. */
  function RenderArgs(ids: seq<string>, trailing: bool): (ts: seq<Token>)
    decreases |ids|
  {
    if |ids| == 0 then []
    else if |ids| == 1 then [Ident(ids[0])] + (if trailing then [Comma] else [])
    else [Ident(ids[0]), Comma] + RenderArgs(ids[1..], trailing)
  }

  /** Parsing a written-out list gives its identifiers back, in order, with or without the
      trailing comma. */
  lemma {:induction false} ParseRenderArgs(ids: seq<string>, trailing: bool)
    ensures ParseArgs(RenderArgs(ids, trailing)) == Some(ids)
    decreases |ids|
  {
    var ts := RenderArgs(ids, trailing);
    if |ids| == 1 && trailing {
      assert ts == [Ident(ids[0]), Comma] && ts[2..] == [];
      assert ParseArgs(ts[2..]) == Some([]);
      assert ids == [ids[0]] + [];
    } else if |ids| > 1 {
      assert ts[2..] == RenderArgs(ids[1..], trailing);
      ParseRenderArgs(ids[1..], trailing);
      assert ids == [ids[0]] + ids[1..];
    } else if |ids| == 1 {
      assert ts == [Ident(ids[0])] && ids == [ids[0]];
    }
  }

  /** Every list the parser accepts is such a written-out list: the parser accepts exactly
      the comma-separated identifier lists. */
  lemma {:induction false} ParseArgsAccepts(ts: seq<Token>)
    requires ParseArgs(ts).Some?
    ensures ts == RenderArgs(ParseArgs(ts).value, false) || ts == RenderArgs(ParseArgs(ts).value, true)
    decreases |ts|
  {
    if |ts| > 1 {
      var n := ts[0].name;
      ParseArgsAccepts(ts[2..]);
      var rest := ParseArgs(ts[2..]).value;
      assert ts == [Ident(n), Comma] + ts[2..];
      if |rest| == 0 {
        assert ts[2..] == [];
        assert ts == RenderArgs([n], true);
      } else {
        assert ParseArgs(ts).value == [n] + rest;
        assert ([n] + rest)[1..] == rest;
      }
    }
  }

  function IsUpper(c: char): bool { 'A' <= c <= 'Z' }

  function Lower(c: char): (l: char)
    ensures !IsUpper(l)
    ensures IsUpper(c) ==> l as int == c as int + 32
  {
    if IsUpper(c) then (c as int + 32) as char else c
  }

  /** `to_snake_case`, in its simplest form: every capital letter is lowered, and one that
      does not open the name is preceded by `_`. */
  function SnakeCase(name: string): (s: string)
    ensures |s| >= |name|
    ensures forall k :: 0 <= k < |s| ==> !IsUpper(s[k])
    decreases |name|
  {
    if |name| == 0 then []
    else
      var rest := SnakeCase(name[..|name| - 1]);
      var c := name[|name| - 1];
      rest + (if IsUpper(c) && |name| > 1 then "_" else "") + [Lower(c)]
  }

  /** Capital letters past the first character: each one gains a `_` in snake case. */
  function InnerCapitals(name: string): nat
    decreases |name|
  {
    if |name| <= 1 then 0
    else InnerCapitals(name[..|name| - 1]) + (if IsUpper(name[|name| - 1]) then 1 else 0)
  }

  /** The name with every letter lowered and nothing inserted. */
  function LowerAll(name: string): (l: string)
    ensures |l| == |name|
    ensures forall k :: 0 <= k < |name| ==> l[k] == Lower(name[k])
    decreases |name|
  {
    if |name| == 0 then [] else LowerAll(name[..|name| - 1]) + [Lower(name[|name| - 1])]
  }

  /** The string with its underscores removed. */
  function DropUnderscores(s: string): (d: string)
    ensures |d| <= |s|
    ensures forall k :: 0 <= k < |d| ==> d[k] != '_'
    decreases |s|
  {
    if |s| == 0 then []
    else DropUnderscores(s[..|s| - 1]) + (if s[|s| - 1] == '_' then [] else [s[|s| - 1]])
  }

  /** Appending one character to a string appends it to the underscore-free string too,
      unless it is itself `_`. */
  lemma DropUnderscoresSnoc(x: string, d: char)
    ensures DropUnderscores(x + [d]) == DropUnderscores(x) + (if d == '_' then [] else [d])
  {
    assert (x + [d])[..|x|] == x;
  }

  /** Snake case adds exactly one character, a `_`, per capital past the first character. */
  lemma {:induction false} SnakeCaseLength(name: string)
    ensures |SnakeCase(name)| == |name| + InnerCapitals(name)
    decreases |name|
  {
    if |name| > 0 {
      SnakeCaseLength(name[..|name| - 1]);
    }
  }

  /** Apart from the inserted underscores, snake case is the name lowered letter by letter. */
  lemma {:induction false} SnakeCaseLetters(name: string)
    ensures DropUnderscores(SnakeCase(name)) == DropUnderscores(LowerAll(name))
    decreases |name|
  {
    if |name| > 0 {
      var p := name[..|name| - 1];
      var l := Lower(name[|name| - 1]);
      var a := SnakeCase(name)[..|SnakeCase(name)| - 1];
      SnakeCaseLetters(p);
      assert SnakeCase(name) == a + [l];
      assert DropUnderscores(a) == DropUnderscores(SnakeCase(p)) by {
        if a != SnakeCase(p) {
          assert a == SnakeCase(p) + ['_'];
          DropUnderscoresSnoc(SnakeCase(p), '_');
        }
      }
      DropUnderscoresSnoc(a, l);
      assert LowerAll(name) == LowerAll(p) + [l];
      DropUnderscoresSnoc(LowerAll(p), l);
    }
  }

  /** One method `render_tiles` adds: `<name>(fg, bg)` renders the constant's bitmap and
      `<name>_id()` returns its tile id. */
  datatype Generated = BitmapFn(fnName: string, variant: string) | TileIdFn(fnName: string, variant: string)

  /** The two methods for one variant, in the order they are emitted. */
  function MethodsFor(variant: string): seq<Generated> {
    [BitmapFn(SnakeCase(variant), variant), TileIdFn(SnakeCase(variant) + "_id", variant)]
  }

  /** Everything `render_tiles` adds for `variants`: two methods per variant, in variant order. */
  function AllMethods(variants: seq<string>): (ms: seq<Generated>)
    ensures |ms| == 2 * |variants|
    ensures forall i :: 0 <= i < |variants| ==>
      ms[2 * i] == BitmapFn(SnakeCase(variants[i]), variants[i])
      && ms[2 * i + 1] == TileIdFn(SnakeCase(variants[i]) + "_id", variants[i])
    decreases |variants|
  {
    if |variants| == 0 then []
    else AllMethods(variants[..|variants| - 1]) + MethodsFor(variants[|variants| - 1])
  }

  /** The loop of `render_tiles`: for each variant, its two methods appended to
      `parse_methods`. */
  method RenderTiles(variants: seq<string>) returns (parseMethods: seq<Generated>)
    ensures parseMethods == AllMethods(variants)
  {
    parseMethods := [];
    for i := 0 to |variants|
      invariant parseMethods == AllMethods(variants[..i])
    {
      assert variants[..i + 1][..i] == variants[..i];
      parseMethods := parseMethods + MethodsFor(variants[i]);
    }
    assert variants[..|variants|] == variants;
  }

  /** Tiles on one sheet. */
  const TILES_PER_SHEET: nat := 32

  /** Bytes of one packed 32x32 tile bitmap: 1024 pixels, one bit each. */
  const TILE_BYTES: nat := 128

  /** The generated `<name>_id()`: `sheet * 32 + index`. */
  function TileId(sheet: nat, index: nat): nat {
    sheet * TILES_PER_SHEET + index
  }

  /** For an index within a sheet the id gives both the sheet and the index back. */
  lemma TileIdRoundTrip(sheet: nat, index: nat)
    requires index < TILES_PER_SHEET
    ensures TileId(sheet, index) / TILES_PER_SHEET == sheet
    ensures TileId(sheet, index) % TILES_PER_SHEET == index
  {
  }

  /** Ids of in-sheet tiles are distinct exactly when the tiles are. */
  lemma TileIdInjective(s1: nat, i1: nat, s2: nat, i2: nat)
    requires i1 < TILES_PER_SHEET && i2 < TILES_PER_SHEET
    ensures TileId(s1, i1) == TileId(s2, i2) <==> s1 == s2 && i1 == i2
  {
    TileIdRoundTrip(s1, i1);
    TileIdRoundTrip(s2, i2);
  }

  /** An index past the sheet aliases a tile of the next sheet. */
  lemma TileIdAliases(sheet: nat)
    ensures TileId(sheet, TILES_PER_SHEET) == TileId(sheet + 1, 0)
  {
  }

  /** The bytes the generated `<name>(fg, bg)` copies into its 128-byte buffer:
      `TILEMAPS[sheet][index * 128 .. index * 128 + 128]`. `None` stands for the index panic
      when the sheet or the range is out of bounds. */
  function TileBitmap(tilemaps: seq<seq<u8>>, sheet: nat, index: nat): (r: Option<seq<u8>>)
    ensures r.None? <==> sheet >= |tilemaps| || index * TILE_BYTES + TILE_BYTES > |tilemaps[sheet]|
    ensures r.Some? ==>
      && |r.value| == TILE_BYTES
      && forall k :: 0 <= k < TILE_BYTES ==> r.value[k] == tilemaps[sheet][index * TILE_BYTES + k]
  {
    if sheet < |tilemaps| && index * TILE_BYTES + TILE_BYTES <= |tilemaps[sheet]| then
      var start := index * TILE_BYTES;
      Some(tilemaps[sheet][start..start + TILE_BYTES])
    else None
  }

  /** A sheet laid out as packed tile bitmaps one after another. */
  function Sheet(tiles: seq<seq<u8>>): (s: seq<u8>)
    requires forall j :: 0 <= j < |tiles| ==> |tiles[j]| == TILE_BYTES
    ensures |s| == TILE_BYTES * |tiles|
    decreases |tiles|
  {
    if |tiles| == 0 then [] else tiles[0] + Sheet(tiles[1..])
  }

  /** On such a sheet the generated method reads back exactly tile `index`. */
  lemma {:induction false} SheetTile(tilemaps: seq<seq<u8>>, sheet: nat, tiles: seq<seq<u8>>, index: nat)
    requires forall j :: 0 <= j < |tiles| ==> |tiles[j]| == TILE_BYTES
    requires sheet < |tilemaps| && tilemaps[sheet] == Sheet(tiles)
    requires index < |tiles|
    ensures TileBitmap(tilemaps, sheet, index) == Some(tiles[index])
    decreases index
  {
    var s := Sheet(tiles);
    var start := index * TILE_BYTES;
    if index == 0 {
      assert s[..TILE_BYTES] == tiles[0];
    } else {
      var rest := Sheet(tiles[1..]);
      SheetTile([rest], 0, tiles[1..], index - 1);
      assert s[start..start + TILE_BYTES] == rest[start - TILE_BYTES..start];
    }
  }
}
