/** The pure and pixel-level parts of the command-line tool: which maps it
    generates and saves, the biome palette with its string hash, and the colour
    of each pixel of the saved biome map. */
module SeedCli {
  import opened Base
  import opened SeedConfig
  import Grid
  import Biome
  import SeedCore

  // ----- simple_hash -----

  /** `simple_hash` over the bytes of a string, as the loop computes it: from 0,
      h := wrapping_add(wrapping_mul(h, 31), byte) for each byte in order. */
  function HashFold(bytes: seq<u8>): u32
  {
    if |bytes| == 0 then 0
    else WrappingAdd(WrappingMul(HashFold(bytes[..|bytes| - 1]), 31), bytes[|bytes| - 1])
  }

  /** The polynomial the hash stands for, without any wrap-around: the bytes
      as digits in base 31, first byte most significant. */
  function Polynomial(bytes: seq<u8>): nat
  {
    if |bytes| == 0 then 0 else Polynomial(bytes[..|bytes| - 1]) * 31 + bytes[|bytes| - 1]
  }

  lemma ModOfMultiple(k: nat, y: nat)
    ensures (k * U32_MODULUS + y) % U32_MODULUS == y % U32_MODULUS
  {
  }

  lemma WrapStep(a: nat, b: u8)
    ensures ((a % U32_MODULUS) * 31 % U32_MODULUS + b) % U32_MODULUS == (a * 31 + b) % U32_MODULUS
  {
    var q, r := a / U32_MODULUS, a % U32_MODULUS;
    assert a * 31 + b == (q * 31) * U32_MODULUS + (r * 31 + b);
    ModOfMultiple(q * 31, r * 31 + b);
    var q2, r2 := (r * 31) / U32_MODULUS, (r * 31) % U32_MODULUS;
    assert r * 31 + b == q2 * U32_MODULUS + (r2 + b);
    ModOfMultiple(q2, r2 + b);
  }

  /** The wrapping loop computes the polynomial modulo 2^32; the empty string
      hashes to 0. */
  lemma {:induction false} HashIsPolynomial(bytes: seq<u8>)
    ensures HashFold(bytes) == Polynomial(bytes) % U32_MODULUS
    ensures bytes == [] ==> HashFold(bytes) == 0
  {
    if |bytes| > 0 {
      var init := bytes[..|bytes| - 1];
      HashIsPolynomial(init);
      WrapStep(Polynomial(init), bytes[|bytes| - 1]);
    }
  }

  /** The hash loop of `simple_hash`. */
  method SimpleHash(bytes: seq<u8>) returns (h: u32)
    ensures h == HashFold(bytes)
    ensures h == Polynomial(bytes) % U32_MODULUS
  {
    h := 0;
    for i := 0 to |bytes|
      invariant h == HashFold(bytes[..i])
    {
      assert bytes[..i + 1][..i] == bytes[..i];
      h := WrappingAdd(WrappingMul(h, 31), bytes[i]);
    }
    assert bytes[..|bytes|] == bytes;
    HashIsPolynomial(bytes);
  }

  // ----- build_biome_palette -----

  const TEMPERATE_FOREST: seq<u8> := AsciiBytes("temperate_forest")
  const HOT_DESERT: seq<u8> := AsciiBytes("hot_desert")
  const COLD_MOUNTAINS: seq<u8> := AsciiBytes("cold_mountains")
  const TUNDRA: seq<u8> := AsciiBytes("tundra")

  const BLACK: Rgb := Rgb(0, 0, 0)

  /** The ids with a fixed colour. */
  predicate Known(id: seq<u8>)
  {
    id == TEMPERATE_FOREST || id == HOT_DESERT || id == COLD_MOUNTAINS || id == TUNDRA
  }

  /** Three 7-bit slices of h, lowest first, make up h modulo 2^21. */
  lemma LowSlices(h: nat)
    ensures h % 128 + 128 * (h / 128 % 128) + 16384 * (h / 128 / 128 % 128) == h % 0x20_0000
  {
    var r, h1 := h % 128, h / 128;
    var g, h2 := h1 % 128, h1 / 128;
    var b, h3 := h2 % 128, h2 / 128;
    var low := r + 128 * g + 16384 * b;
    assert h == low + 0x20_0000 * h3;
    assert 0 <= low < 0x20_0000;
  }

  /** The fallback colour of an id with hash h: three consecutive 7-bit slices
      of h, lowest first, each lifted by 80. */
  function Fallback(h: u32): (c: Rgb)
    ensures 80 <= c.r < 208 && 80 <= c.g < 208 && 80 <= c.b < 208
    ensures (c.r - 80) + 128 * (c.g - 80) + 16384 * (c.b - 80) == h % 0x20_0000
  {
    var r := h % 128;
    var h1 := h / 128;
    var g := h1 % 128;
    var h2 := h1 / 128;
    var b := h2 % 128;
    LowSlices(h);
    Rgb(80 + r, 80 + g, 80 + b)
  }

  /** The palette entry of one biome id. */
  function BiomeColour(id: seq<u8>): (c: Rgb)
    ensures id == TEMPERATE_FOREST ==> c == Rgb(34, 139, 34)
    ensures id == HOT_DESERT ==> c == Rgb(210, 180, 80)
    ensures id == COLD_MOUNTAINS ==> c == Rgb(160, 160, 170)
    ensures id == TUNDRA ==> c == Rgb(150, 180, 160)
    ensures !Known(id) ==> 80 <= c.r < 208 && 80 <= c.g < 208 && 80 <= c.b < 208
    ensures c != BLACK
  {
    if id == TEMPERATE_FOREST then Rgb(34, 139, 34)
    else if id == HOT_DESERT then Rgb(210, 180, 80)
    else if id == COLD_MOUNTAINS then Rgb(160, 160, 170)
    else if id == TUNDRA then Rgb(150, 180, 160)
    else Fallback(HashFold(id))
  }

  /** `build_biome_palette`: one colour per configured biome, in configuration
      order, each depending on the biome's id alone. */
  function BuildBiomePalette(biomes: seq<BiomeConfig>): (p: seq<Rgb>)
    ensures |p| == |biomes|
    ensures forall i :: 0 <= i < |biomes| ==> p[i] == BiomeColour(biomes[i].id)
  {
    seq(|biomes|, i requires 0 <= i < |biomes| => BiomeColour(biomes[i].id))
  }

  /** Biomes with equal ids get equal colours, wherever they are listed. */
  lemma SameIdSameColour(biomes: seq<BiomeConfig>, i: nat, j: nat)
    requires i < |biomes| && j < |biomes| && biomes[i].id == biomes[j].id
    ensures BuildBiomePalette(biomes)[i] == BuildBiomePalette(biomes)[j]
  {
  }

  /** The palette of a longer configuration extends the palette of its prefix. */
  lemma PaletteAppend(a: seq<BiomeConfig>, b: seq<BiomeConfig>)
    ensures BuildBiomePalette(a + b) == BuildBiomePalette(a) + BuildBiomePalette(b)
  {
    assert forall i :: 0 <= i < |a| + |b| ==> (a + b)[i].id == if i < |a| then a[i].id else b[i - |a|].id;
  }

  // ----- save_biome_map_to_png -----

  /** The colour of one biome-map pixel: the palette entry of its biome index
      when there is one, black for no biome or an index past the palette. */
  function PixelColour(palette: seq<Rgb>, cell: Option<nat>): Rgb
  {
    match cell
    case Some(i) => if i < |palette| then palette[i] else BLACK
    case None => BLACK
  }

  /** With the palette of the configuration, a pixel is black exactly when its
      cell holds no biome or an index with no configured biome: every configured
      biome is drawn in a visible colour. */
  lemma PixelBlack(biomes: seq<BiomeConfig>, cell: Option<nat>)
    ensures PixelColour(BuildBiomePalette(biomes), cell) == BLACK <==> cell.None? || cell.value >= |biomes|
    ensures cell.Some? && cell.value < |biomes| ==>
      PixelColour(BuildBiomePalette(biomes), cell) == BiomeColour(biomes[cell.value].id)
  {
  }

  /** The image written by `save_biome_map_to_png`, row-major like the map. */
  function BiomeImage(cells: seq<Option<u8>>, palette: seq<Rgb>): (img: seq<Rgb>)
    ensures |img| == |cells|
  {
    seq(|cells|, i requires 0 <= i < |cells| => PixelColour(palette, Biome.Widen(cells[i])))
  }

  /** The pixel loop of `save_biome_map_to_png`: a black image of the map's
      size, then one pixel written per cell. */
  method RenderBiomeMap(bm: Biome.BiomeMap, palette: seq<Rgb>) returns (img: seq<Rgb>)
    requires bm.Valid()
    ensures img == BiomeImage(bm.indices[..], palette)
  {
    var w, h := bm.width, bm.height;
    var a := new Rgb[w * h](_ => BLACK);
    ghost var target := BiomeImage(bm.indices[..], palette);
    for y := 0 to h
      invariant forall i :: 0 <= i < a.Length ==> a[i] == if i < Grid.Index(w, 0, y) then target[i] else BLACK
    {
      for x := 0 to w
        invariant forall i :: 0 <= i < a.Length ==> a[i] == if i < Grid.Index(w, x, y) then target[i] else BLACK
      {
        Grid.IndexInBounds(w, h, x, y);
        var idx := bm.GetIndex(x, y);
        a[Grid.Index(w, x, y)] := PixelColour(palette, idx);
      }
      assert Grid.Index(w, w, y) == Grid.Index(w, 0, y + 1);
    }
    assert Grid.Index(w, 0, h) == a.Length;
    img := a[..];
  }

  // ----- main: what gets generated and saved -----

  /** The decisions `main` takes from the three optional output paths. */
  datatype Plan = Plan(
    heightmap: bool,
    saveHeightmap: bool,
    biomeMap: bool,
    saveBiomeMap: bool,
    saveWorldview: bool)

  /** The flags of `main`, in its own order: the heightmap when any output is
      asked for; each save only when its path is given and its map exists; the
      biome map only for a biome or worldview output, on an existing heightmap.
      These are the steps `main` takes when nothing before them fails. */
  function GenerationPlan(heightmapOut: Option<string>, biomeOut: Option<string>, worldviewOut: Option<string>): (p: Plan)
    ensures p.heightmap <==> heightmapOut.Some? || biomeOut.Some? || worldviewOut.Some?
    ensures p.biomeMap <==> biomeOut.Some? || worldviewOut.Some?
    ensures p.saveHeightmap <==> heightmapOut.Some?
    ensures p.saveBiomeMap <==> biomeOut.Some?
    ensures p.saveWorldview <==> worldviewOut.Some?
    ensures p.biomeMap ==> p.heightmap
  {
    var needHeightmap := heightmapOut.Some? || biomeOut.Some? || worldviewOut.Some?;
    var heightmap := needHeightmap;
    var saveHeightmap := heightmapOut.Some? && heightmap;
    var biomeMap := (biomeOut.Some? || worldviewOut.Some?) && heightmap;
    var saveBiomeMap := biomeOut.Some? && biomeMap;
    var saveWorldview := worldviewOut.Some? && heightmap && biomeMap;
    Plan(heightmap, saveHeightmap, biomeMap, saveBiomeMap, saveWorldview)
  }

  /** The steps of `main` after the configuration is loaded, in program order. */
  datatype Step = GenerateHeightmap | SaveHeightmap | GenerateBiomeMap | SaveBiomeMap | SaveWorldview

  /** The position of a step in `main`. */
  function Rank(s: Step): nat
  {
    match s
    case GenerateHeightmap => 0
    case SaveHeightmap => 1
    case GenerateBiomeMap => 2
    case SaveBiomeMap => 3
    case SaveWorldview => 4
  }

  /** The step at position k of `main`. */
  function StepAt(k: nat): (s: Step)
    requires k < 5
    ensures Rank(s) == k
  {
    match k
    case 0 => GenerateHeightmap
    case 1 => SaveHeightmap
    case 2 => GenerateBiomeMap
    case 3 => SaveBiomeMap
    case _ => SaveWorldview
  }

  predicate IsSave(s: Step)
  {
    s == SaveHeightmap || s == SaveBiomeMap || s == SaveWorldview
  }

  /** Why `main` returned an error: the configuration file could not be read
      or parsed, the world could not be built from it, or a PNG save failed. */
  datatype Failure = ConfigUnreadable | WorldInvalid(error: SeedCore.CoreError) | SaveFailed(step: Step)

  /** What one run of `main` did: the steps it took, in order, and the error it
      stopped with, if any. */
  datatype Run = Run(steps: seq<Step>, failure: Option<Failure>)

  /** Whether the plan takes step s. */
  predicate Planned(p: Plan, s: Step)
  {
    match s
    case GenerateHeightmap => p.heightmap
    case SaveHeightmap => p.saveHeightmap
    case GenerateBiomeMap => p.biomeMap
    case SaveBiomeMap => p.saveBiomeMap
    case SaveWorldview => p.saveWorldview
  }

  /** The planned steps of rank below k, in program order. */
  function PlannedUpTo(p: Plan, k: nat): (r: seq<Step>)
    requires k <= 5
  {
    if k == 0 then []
    else PlannedUpTo(p, k - 1) + (if Planned(p, StepAt(k - 1)) then [StepAt(k - 1)] else [])
  }

  /** Step t is among the planned steps below rank k exactly when the plan
      takes it and it comes before rank k. */
  lemma {:induction false} PlannedUpToHas(p: Plan, k: nat, t: Step)
    requires k <= 5
    ensures t in PlannedUpTo(p, k) <==> Planned(p, t) && Rank(t) < k
  {
    if k > 0 {
      PlannedUpToHas(p, k - 1, t);
      assert Rank(t) == k - 1 ==> t == StepAt(k - 1);
    }
  }

  /** Steps in strictly increasing rank: program order, none twice. */
  predicate InProgramOrder(r: seq<Step>)
  {
    forall i, j :: 0 <= i < j < |r| ==> Rank(r[i]) < Rank(r[j])
  }

  /** The planned steps below rank k come in program order. */
  lemma {:induction false} PlannedUpToOrdered(p: Plan, k: nat)
    requires k <= 5
    ensures InProgramOrder(PlannedUpTo(p, k))
  {
    if k > 0 {
      PlannedUpToOrdered(p, k - 1);
      var head := PlannedUpTo(p, k - 1);
      var s := StepAt(k - 1);
      if Planned(p, s) {
        forall i | 0 <= i < |head|
          ensures Rank(head[i]) < k - 1
        {
          PlannedUpToHas(p, k - 1, head[i]);
        }
        var r := head + [s];
        assert forall i :: 0 <= i < |head| ==> r[i] == head[i];
        assert PlannedUpTo(p, k) == r;
      } else {
        assert PlannedUpTo(p, k) == head + [] == head;
      }
    }
  }

  /** Runs the planned steps from rank k on, each save succeeding as `saved`
      says; the first failing save ends the run with its error. */
  function RunFrom(p: Plan, saved: Step -> bool, k: nat): (r: Run)
    decreases 5 - k
  {
    if k >= 5 then Run([], None)
    else
      var s := StepAt(k);
      if !Planned(p, s) then RunFrom(p, saved, k + 1)
      else if IsSave(s) && !saved(s) then Run([s], Some(SaveFailed(s)))
      else
        var rest := RunFrom(p, saved, k + 1);
        Run([s] + rest.steps, rest.failure)
  }

  /** Every planned save of rank k or above succeeds. */
  predicate SavesFrom(p: Plan, saved: Step -> bool, k: nat)
  {
    forall t :: Planned(p, t) && IsSave(t) && Rank(t) >= k ==> saved(t)
  }

  /** Running the plan from rank k ends without error exactly when every
      planned save from there on succeeds. */
  lemma {:induction false} RunFromSucceeds(p: Plan, saved: Step -> bool, k: nat)
    requires k <= 5
    ensures RunFrom(p, saved, k).failure.None? <==> SavesFrom(p, saved, k)
    decreases 5 - k
  {
    if k < 5 {
      RunFromSucceeds(p, saved, k + 1);
      var s := StepAt(k);
      assert SavesFrom(p, saved, k) <==>
        (Planned(p, s) && IsSave(s) ==> saved(s)) && SavesFrom(p, saved, k + 1) by {
        forall t | Rank(t) >= k
          ensures Rank(t) == k ==> t == s
        {
        }
      }
    }
  }

  /** Running the plan from rank k without error takes the rest of the
      planned steps. */
  lemma {:induction false} RunFromAll(p: Plan, saved: Step -> bool, k: nat)
    requires k <= 5 && RunFrom(p, saved, k).failure.None?
    ensures PlannedUpTo(p, k) + RunFrom(p, saved, k).steps == PlannedUpTo(p, 5)
    decreases 5 - k
  {
    if k < 5 {
      var s := StepAt(k);
      var rest := RunFrom(p, saved, k + 1);
      var head := PlannedUpTo(p, k);
      if !Planned(p, s) {
        RunFromAll(p, saved, k + 1);
        assert PlannedUpTo(p, k + 1) == head + [];
      } else {
        assert !(IsSave(s) && !saved(s));
        assert RunFrom(p, saved, k).steps == [s] + rest.steps;
        RunFromAll(p, saved, k + 1);
        assert PlannedUpTo(p, k + 1) == head + [s];
        assert head + ([s] + rest.steps) == (head + [s]) + rest.steps;
      }
    } else {
      assert RunFrom(p, saved, k).steps == [];
    }
  }

  /** A run from rank k that fails stops at a planned save of rank k or
      above, and that save fails. */
  lemma {:induction false} RunFromStops(p: Plan, saved: Step -> bool, k: nat)
    requires k <= 5 && RunFrom(p, saved, k).failure.Some?
    ensures var r := RunFrom(p, saved, k);
      && r.failure.value.SaveFailed?
      && var s := r.failure.value.step;
      && Planned(p, s) && IsSave(s) && !saved(s) && k <= Rank(s)
    decreases 5 - k
  {
    assert k < 5;
    if !(Planned(p, StepAt(k)) && IsSave(StepAt(k)) && !saved(StepAt(k))) {
      RunFromStops(p, saved, k + 1);
    }
  }

  /** A run from rank k that fails at step `last` has taken the planned
      steps of rank k up to `last`, then `last`. */
  lemma {:induction false} RunFromStopsAt(p: Plan, saved: Step -> bool, k: nat, last: Step)
    requires k <= Rank(last) && RunFrom(p, saved, k).failure == Some(SaveFailed(last))
    ensures PlannedUpTo(p, k) + RunFrom(p, saved, k).steps == PlannedUpTo(p, Rank(last)) + [last]
    decreases 5 - k
  {
    var s := StepAt(k);
    var rest := RunFrom(p, saved, k + 1);
    var head := PlannedUpTo(p, k);
    if Planned(p, s) && IsSave(s) && !saved(s) {
      assert RunFrom(p, saved, k) == Run([s], Some(SaveFailed(s)));
    } else {
      assert RunFrom(p, saved, k).failure == rest.failure;
      RunFromStops(p, saved, k + 1);
      RunFromStopsAt(p, saved, k + 1, last);
      if !Planned(p, s) {
        assert RunFrom(p, saved, k) == rest;
        assert PlannedUpTo(p, k + 1) == head + [];
      } else {
        assert RunFrom(p, saved, k).steps == [s] + rest.steps;
        assert PlannedUpTo(p, k + 1) == head + [s];
        AppendStep(head, s, rest.steps, PlannedUpTo(p, Rank(last)) + [last]);
      }
    }
  }

  lemma AppendStep(head: seq<Step>, s: Step, rest: seq<Step>, t: seq<Step>)
    requires (head + [s]) + rest == t
    ensures head + ([s] + rest) == t
  {
  }

  /** Every save a run takes before its last step succeeded. */
  lemma {:induction false} RunFromEarlierSaves(p: Plan, saved: Step -> bool, k: nat)
    ensures var r := RunFrom(p, saved, k);
      forall i :: 0 <= i < |r.steps| - 1 && IsSave(r.steps[i]) ==> saved(r.steps[i])
    decreases 5 - k
  {
    if k < 5 {
      RunFromEarlierSaves(p, saved, k + 1);
      var s := StepAt(k);
      var rest := RunFrom(p, saved, k + 1);
      if Planned(p, s) && !(IsSave(s) && !saved(s)) {
        var steps := [s] + rest.steps;
        assert forall i :: 1 <= i < |steps| ==> steps[i] == rest.steps[i - 1];
      }
    }
  }

  /** `main` after argument parsing. `cfg` is the configuration read from the
      file, None when reading or parsing it fails; `saved` says which PNG saves
      succeed. Every `?` ends the run early with its error: on success all the
      planned steps are taken, otherwise the planned steps up to the first
      save that fails, and nothing after it. */
  function RunMain(cfg: Option<WorldConfig>, heightmapOut: Option<string>, biomeOut: Option<string>,
                   worldviewOut: Option<string>, saved: Step -> bool): (r: Run)
    ensures cfg.None? ==> r == Run([], Some(ConfigUnreadable))
    ensures cfg.Some? && SeedCore.WorldFromConfig(cfg.value).Err? ==>
      r == Run([], Some(WorldInvalid(SeedCore.WorldFromConfig(cfg.value).error)))
    ensures r.failure.None? <==>
      && cfg.Some? && SeedCore.WorldFromConfig(cfg.value).Ok?
      && (heightmapOut.Some? ==> saved(SaveHeightmap))
      && (biomeOut.Some? ==> saved(SaveBiomeMap))
      && (worldviewOut.Some? ==> saved(SaveWorldview))
    ensures r.failure.None? ==> r.steps == PlannedUpTo(GenerationPlan(heightmapOut, biomeOut, worldviewOut), 5)
    ensures r.failure.Some? && r.failure.value.SaveFailed? ==>
      var s := r.failure.value.step;
      && IsSave(s) && !saved(s)
      && r.steps == PlannedUpTo(GenerationPlan(heightmapOut, biomeOut, worldviewOut), Rank(s)) + [s]
      && forall i :: 0 <= i < |r.steps| - 1 && IsSave(r.steps[i]) ==> saved(r.steps[i])
  {
    match cfg
    case None => Run([], Some(ConfigUnreadable))
    case Some(c) =>
      match SeedCore.WorldFromConfig(c)
      case Err(e) => Run([], Some(WorldInvalid(e)))
      case Ok(_) =>
        var p := GenerationPlan(heightmapOut, biomeOut, worldviewOut);
        RunFromSucceeds(p, saved, 0);
        var r := RunFrom(p, saved, 0);
        RunFromEarlierSaves(p, saved, 0);
        assert SavesFrom(p, saved, 0) <==>
          && (heightmapOut.Some? ==> saved(SaveHeightmap))
          && (biomeOut.Some? ==> saved(SaveBiomeMap))
          && (worldviewOut.Some? ==> saved(SaveWorldview)) by {
          assert Planned(p, SaveHeightmap) == heightmapOut.Some?;
          assert Planned(p, SaveBiomeMap) == biomeOut.Some?;
          assert Planned(p, SaveWorldview) == worldviewOut.Some?;
        }
        assert PlannedUpTo(p, 0) == [];
        if r.failure.None? then RunFromAll(p, saved, 0); r
        else
          RunFromStops(p, saved, 0);
          var failed := r.failure.value.step;
          RunFromStopsAt(p, saved, 0, failed);
          r
  }
}
