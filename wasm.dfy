/** The WebAssembly export: a generated world with its dimension getters, the
    biome-index export, its own copy of the palette and hash, and the layout of
    the RGBA worldview buffer. */
module SeedWasm {
  import opened Base
  import opened SeedConfig
  import Grid
  import Biome
  import Terrain
  import SeedCli

  // ----- simple_hash (second copy) -----

  /** The hash loop read from the front: continuing from running value h over
      the remaining bytes. */
  function HashFrom(h: u32, bytes: seq<u8>): u32
    decreases |bytes|
  {
    if |bytes| == 0 then h
    else HashFrom(WrappingAdd(WrappingMul(h, 31), bytes[0]), bytes[1..])
  }

  /** Continuing from the hash of a prefix gives the hash of the whole. */
  lemma {:induction false} HashFromExtends(prefix: seq<u8>, rest: seq<u8>)
    ensures HashFrom(SeedCli.HashFold(prefix), rest) == SeedCli.HashFold(prefix + rest)
    decreases |rest|
  {
    if |rest| > 0 {
      var next := prefix + [rest[0]];
      assert next[..|next| - 1] == prefix;
      assert next + rest[1..] == prefix + rest;
      HashFromExtends(next, rest[1..]);
    } else {
      assert prefix + rest == prefix;
    }
  }

  /** This copy of `simple_hash` and the command-line tool's agree on every
      byte string. */
  lemma HashesAgree(bytes: seq<u8>)
    ensures HashFrom(0, bytes) == SeedCli.HashFold(bytes)
  {
    HashFromExtends([], bytes);
    assert [] + bytes == bytes;
  }

  /** The hash loop of this copy of `simple_hash`. */
  method SimpleHash(bytes: seq<u8>) returns (h: u32)
    ensures h == HashFrom(0, bytes)
    ensures h == SeedCli.Polynomial(bytes) % U32_MODULUS
  {
    h := 0;
    for i := 0 to |bytes|
      invariant HashFrom(h, bytes[i..]) == HashFrom(0, bytes)
    {
      assert bytes[i..][1..] == bytes[i + 1..];
      h := WrappingAdd(WrappingMul(h, 31), bytes[i]);
    }
    HashesAgree(bytes);
    SeedCli.HashIsPolynomial(bytes);
  }

  // ----- build_biome_palette (second copy) -----

  /** The ids with a fixed colour in this copy of the table. */
  const TEMPERATE_FOREST: seq<u8> := AsciiBytes("temperate_forest")
  const HOT_DESERT: seq<u8> := AsciiBytes("hot_desert")
  const COLD_MOUNTAINS: seq<u8> := AsciiBytes("cold_mountains")
  const TUNDRA: seq<u8> := AsciiBytes("tundra")

  /** The palette entry of one biome id in this copy: the fixed colours, or
      three 7-bit slices of the id's hash, lowest first, each lifted by 80. */
  function BiomeColour(id: seq<u8>): (c: Rgb)
    ensures id == TEMPERATE_FOREST ==> c == Rgb(34, 139, 34)
    ensures id == HOT_DESERT ==> c == Rgb(210, 180, 80)
    ensures id == COLD_MOUNTAINS ==> c == Rgb(160, 160, 170)
    ensures id == TUNDRA ==> c == Rgb(150, 180, 160)
    ensures !(id in {TEMPERATE_FOREST, HOT_DESERT, COLD_MOUNTAINS, TUNDRA}) ==>
      80 <= c.r < 208 && 80 <= c.g < 208 && 80 <= c.b < 208
  {
    if id == TEMPERATE_FOREST then Rgb(34, 139, 34)
    else if id == HOT_DESERT then Rgb(210, 180, 80)
    else if id == COLD_MOUNTAINS then Rgb(160, 160, 170)
    else if id == TUNDRA then Rgb(150, 180, 160)
    else
      var h := HashFrom(0, id);
      var r := 80 + h % 128;
      var g := 80 + (h / 128) % 128;
      var b := 80 + (h / 16384) % 128;
      Rgb(r, g, b)
  }

  function BuildBiomePalette(biomes: seq<BiomeConfig>): (p: seq<Rgb>)
    ensures |p| == |biomes|
  {
    seq(|biomes|, i requires 0 <= i < |biomes| => BiomeColour(biomes[i].id))
  }

  /** Both palette copies give every configuration the same colours. */
  lemma PalettesAgree(biomes: seq<BiomeConfig>)
    ensures BuildBiomePalette(biomes) == SeedCli.BuildBiomePalette(biomes)
  {
    forall i | 0 <= i < |biomes|
      ensures BuildBiomePalette(biomes)[i] == SeedCli.BuildBiomePalette(biomes)[i]
    {
      var id := biomes[i].id;
      HashesAgree(id);
      var h := HashFrom(0, id);
      assert (h / 128) / 128 == h / 16384;
    }
  }

  // ----- biome_indices -----

  /** The byte exported for one cell: its biome index, 255 for none. */
  function ExportIndex(cell: Option<u8>): u8
  {
    match cell
    case None => 255
    case Some(v) => v
  }

  /** How a reader of the export recovers a cell. */
  function ImportIndex(b: u8): Option<u8>
  {
    if b == 255 then None else Some(b)
  }

  /** Exporting loses nothing except for a cell holding index 255, which reads
      back as no biome. */
  lemma ExportRoundTrip(cell: Option<u8>)
    ensures ImportIndex(ExportIndex(cell)) == cell <==> cell != Some(255)
  {
  }

  // ----- The exported world -----

  class SeedWorld {
    const config: WorldConfig
    const heightmap: Terrain.Heightmap
    const biomemap: Biome.BiomeMap

    /** The heightmap and the biome map cover the same grid. */
    ghost predicate Valid()
      reads this
    {
      && heightmap.Valid()
      && biomemap.Valid()
      && biomemap.width == heightmap.width
      && biomemap.height == heightmap.height
    }

    /** `SeedWorld::new` after parsing: the world keeps its configuration and
        the maps generated from it, which share the heightmap's grid. */
    constructor (config: WorldConfig, heightmap: Terrain.Heightmap, biomemap: Biome.BiomeMap)
      requires heightmap.Valid() && biomemap.Valid()
      requires biomemap.width == heightmap.width && biomemap.height == heightmap.height
      ensures Valid()
      ensures this.config == config && this.heightmap == heightmap && this.biomemap == biomemap
    {
      this.config := config;
      this.heightmap := heightmap;
      this.biomemap := biomemap;
    }

    /** The `width` getter: the heightmap's width, shared by the biome map. */
    function Width(): (w: nat)
      requires Valid()
      reads this
      ensures w == heightmap.width && w == biomemap.width
    {
      heightmap.width
    }

    /** The `height` getter. */
    function Height(): (h: nat)
      requires Valid()
      reads this
      ensures h == heightmap.height && h == biomemap.height
    {
      heightmap.height
    }

    /** `biome_indices`: one byte per grid cell, row-major, from which every
        cell other than index 255 can be read back. */
    function BiomeIndices(): (r: seq<u8>)
      requires Valid()
      reads this, biomemap.indices
      ensures |r| == Width() * Height()
      ensures forall i :: 0 <= i < |r| && biomemap.indices[i] != Some(255) ==> ImportIndex(r[i]) == biomemap.indices[i]
      ensures forall i :: 0 <= i < |r| ==> (r[i] == 255 <==> biomemap.indices[i] in {None, Some(255)})
    {
      seq(biomemap.indices.Length, i requires 0 <= i < biomemap.indices.Length reads biomemap.indices =>
        ExportIndex(biomemap.indices[i]))
    }
  }

  // ----- build_worldview_rgba -----

  /** The four bytes of an opaque pixel. */
  function Rgba(c: Rgb): seq<u8>
  {
    [c.r, c.g, c.b, 255]
  }

  /** The four bytes of the pixel at position i, drawn in the colour the
      shading gives to its coordinates. */
  function WorldviewPixel(w: nat, h: nat, colour: (nat, nat) -> Rgb, i: nat): seq<u8>
    requires i < w * h
  {
    Grid.Coordinates(w, h, i);
    Rgba(colour(i % w, i / w))
  }

  /** The four bytes of pixel i of a buffer holding four bytes per pixel. */
  function PixelBytes(buf: seq<u8>, i: nat): seq<u8>
    requires 4 * i + 4 <= |buf|
  {
    buf[4 * i..4 * i + 4]
  }

  /** Writes the pixel at position i of a buffer of four bytes per pixel. */
  method PutPixel(buf: array<u8>, i: nat, c: Rgb)
    requires 4 * i + 4 <= buf.Length
    modifies buf
    ensures PixelBytes(buf[..], i) == Rgba(c)
    ensures forall j: nat :: 4 * j + 4 <= buf.Length && j != i ==> PixelBytes(buf[..], j) == PixelBytes(old(buf[..]), j)
  {
    buf[4 * i] := c.r;
    buf[4 * i + 1] := c.g;
    buf[4 * i + 2] := c.b;
    buf[4 * i + 3] := 255;
  }

  /** A buffer of four bytes per cell in which the first k pixels, in
      row-major order, are drawn and the others are still zero. */
  ghost predicate DrawnUpTo(buf: seq<u8>, w: nat, h: nat, colour: (nat, nat) -> Rgb, k: nat)
  {
    && |buf| == 4 * (w * h)
    && forall i :: 0 <= i < w * h ==>
      PixelBytes(buf, i) == if i < k then WorldviewPixel(w, h, colour, i) else [0, 0, 0, 0]
  }

  /** Drawing pixel k of a buffer drawn up to k, and changing nothing else,
      gives a buffer drawn up to k + 1. */
  lemma DrawStep(before: seq<u8>, after: seq<u8>, w: nat, h: nat, colour: (nat, nat) -> Rgb, k: nat)
    requires DrawnUpTo(before, w, h, colour, k) && k < w * h && |after| == |before|
    requires PixelBytes(after, k) == WorldviewPixel(w, h, colour, k)
    requires forall j: nat :: 4 * j + 4 <= |after| && j != k ==> PixelBytes(after, j) == PixelBytes(before, j)
    ensures DrawnUpTo(after, w, h, colour, k + 1)
  {
  }

  /** Row y of the pixel loop of `build_worldview_rgba`. */
  method DrawRow(a: array<u8>, w: nat, h: nat, y: nat, colour: (nat, nat) -> Rgb)
    requires y < h && DrawnUpTo(a[..], w, h, colour, Grid.Index(w, 0, y))
    modifies a
    ensures DrawnUpTo(a[..], w, h, colour, Grid.Index(w, 0, y + 1))
  {
    for x := 0 to w
      invariant DrawnUpTo(a[..], w, h, colour, Grid.Index(w, x, y))
    {
      Grid.IndexInBounds(w, h, x, y);
      Grid.IndexCoordinates(w, x, y);
      var idx := Grid.Index(w, x, y);
      ghost var before := a[..];
      PutPixel(a, idx, colour(x, y));
      DrawStep(before, a[..], w, h, colour, idx);
    }
    assert Grid.Index(w, w, y) == Grid.Index(w, 0, y + 1);
  }

  /** `build_worldview_rgba`, with the colour of each pixel (biome, water,
      rivers, beach and lighting) supplied as `colour`: a zeroed buffer of four
      bytes per cell, every pixel then written in row-major order, opaque. */
  method BuildWorldviewRgba(hm: Terrain.Heightmap, colour: (nat, nat) -> Rgb) returns (buf: seq<u8>)
    ensures |buf| == 4 * (hm.width * hm.height)
    ensures forall i :: 0 <= i < hm.width * hm.height ==> PixelBytes(buf, i) == WorldviewPixel(hm.width, hm.height, colour, i)
    ensures forall i :: 0 <= i < hm.width * hm.height ==> buf[4 * i + 3] == 255
  {
    var w, h := hm.width, hm.height;
    var n := w * h;
    var a := new u8[4 * n](_ => 0);
    for y := 0 to h
      invariant DrawnUpTo(a[..], w, h, colour, Grid.Index(w, 0, y))
    {
      DrawRow(a, w, h, y, colour);
    }
    assert Grid.Index(w, 0, h) == n;
    buf := a[..];
    forall i | 0 <= i < n
      ensures buf[4 * i + 3] == 255
    {
      assert buf[4 * i + 3] == PixelBytes(buf, i)[3];
    }
  }
}
