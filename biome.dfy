/** The biome grid and its modal ("majority") smoothing. */
module Biome {
  import opened Base
  import opened SeedConfig
  import Grid

  /** What `set_index` stores for a biome index: `usize` narrowed to `u8`. */
  function AsByte(bi: Option<nat>): (r: Option<u8>)
    ensures r.None? <==> bi.None?
    ensures bi.Some? && bi.value < 0x100 ==> r == Some(bi.value)
    ensures r.Some? ==> r.value == bi.value % 0x100
  {
    match bi
    case None => None
    case Some(v) => Some(v % 0x100)
  }

  /** What `get_index` returns for a stored byte: the same index, widened;
      narrowing it again gives back the stored cell. */
  function Widen(cell: Option<u8>): (r: Option<nat>)
    ensures r.None? <==> cell.None?
    ensures r.Some? ==> r.value == cell.value < 0x100
    ensures AsByte(r) == cell
  {
    match cell
    case None => None
    case Some(v) => Some(v)
  }

  /** A row-major grid holding, for every cell, the index of its biome in the
      configuration, or None when no biome applies. */
  class BiomeMap {
    const width: nat
    const height: nat
    const indices: array<Option<u8>>

    ghost predicate Valid()
    {
      indices.Length == width * height
    }

    /** `BiomeMap::new`: every cell empty. */
    constructor (width: nat, height: nat)
      ensures Valid() && fresh(indices)
      ensures this.width == width && this.height == height
      ensures forall i :: 0 <= i < indices.Length ==> indices[i] == None
    {
      this.width := width;
      this.height := height;
      indices := new Option<u8>[width * height](_ => None);
    }

    /** A map with the given cells, as produced by `clone`. */
    constructor FromCells(width: nat, height: nat, cells: seq<Option<u8>>)
      requires |cells| == width * height
      ensures Valid() && fresh(indices)
      ensures this.width == width && this.height == height && indices[..] == cells
    {
      this.width := width;
      this.height := height;
      indices := new Option<u8>[|cells|](i requires 0 <= i < |cells| => cells[i]);
    }

    method Clone() returns (c: BiomeMap)
      requires Valid()
      ensures c.Valid() && fresh(c) && fresh(c.indices)
      ensures c.width == width && c.height == height && c.indices[..] == indices[..]
    {
      c := new BiomeMap.FromCells(width, height, indices[..]);
    }

    function Idx(x: nat, y: nat): nat
    {
      Grid.Index(width, x, y)
    }

    /** `set_index`: writes one cell, narrowing the index to a byte. */
    method SetIndex(x: nat, y: nat, bi: Option<nat>)
      requires Valid() && Idx(x, y) < indices.Length
      modifies indices
      ensures indices[..] == old(indices[..])[Idx(x, y) := AsByte(bi)]
      ensures bi.None? || bi.value < 0x100 ==> GetIndex(x, y) == bi
      ensures forall i :: 0 <= i < indices.Length && i != Idx(x, y) ==> indices[i] == old(indices[i])
    {
      indices[Idx(x, y)] := AsByte(bi);
    }

    /** `get_index`: reads one cell, widening the byte back to an index. */
    function GetIndex(x: nat, y: nat): (r: Option<nat>)
      requires Valid() && Idx(x, y) < indices.Length
      reads indices
      ensures r.Some? ==> r.value < 0x100
      ensures r.None? <==> indices[Idx(x, y)].None?
      ensures AsByte(r) == indices[Idx(x, y)]
    {
      Widen(indices[Idx(x, y)])
    }
  }

  // ----- The smoothing rule, on the cells of one generation -----

  /** How many of the first k neighbourhood offsets of (x, y) are inside the
      grid and hold biome b. */
  function Tally(cells: seq<Option<u8>>, w: nat, h: nat, x: nat, y: nat, b: u8, k: nat): (n: nat)
    requires |cells| == w * h && k <= 9
    ensures n <= k
  {
    if k == 0 then 0
    else
      Tally(cells, w, h, x, y, b, k - 1)
      + (if Grid.InGrid(w, h, x, y, k - 1) && cells[Grid.Neighbour(w, h, x, y, k - 1)] == Some(b) then 1 else 0)
  }

  /** How many of the first k neighbourhood offsets of (x, y) are inside the
      grid and hold some biome. */
  function Present(cells: seq<Option<u8>>, w: nat, h: nat, x: nat, y: nat, k: nat): (n: nat)
    requires |cells| == w * h && k <= 9
    ensures n <= k
  {
    if k == 0 then 0
    else
      Present(cells, w, h, x, y, k - 1)
      + (if Grid.InGrid(w, h, x, y, k - 1) && cells[Grid.Neighbour(w, h, x, y, k - 1)].Some? then 1 else 0)
  }

  /** The 256 per-biome counts of the whole 3x3 neighbourhood of (x, y). */
  function Counts(cells: seq<Option<u8>>, w: nat, h: nat, x: nat, y: nat): (c: seq<nat>)
    requires |cells| == w * h
    ensures |c| == 0x100
    ensures forall b :: 0 <= b < 0x100 ==> c[b] == Tally(cells, w, h, x, y, b, 9)
  {
    seq(0x100, b requires 0 <= b < 0x100 => Tally(cells, w, h, x, y, b, 9))
  }

  /** The scan over the first n counts that keeps the first strictly larger
      count seen: the chosen entry (if any) and its count. */
  function Scan(counts: seq<nat>, n: nat): (r: (Option<nat>, nat))
    requires n <= |counts|
    ensures r.0.None? <==> r.1 == 0
    ensures r.0.Some? ==> r.0.value < n && counts[r.0.value] == r.1
    ensures forall i :: 0 <= i < n ==> counts[i] <= r.1
    ensures r.0.Some? ==> forall i :: 0 <= i < r.0.value ==> counts[i] < r.1
  {
    if n == 0 then (None, 0)
    else
      var prev := Scan(counts, n - 1);
      if counts[n - 1] > prev.1 then (Some(n - 1), counts[n - 1]) else prev
  }

  /** The biome index cell (x, y) takes after one pass over `cells`. */
  function SmoothedCell(cells: seq<Option<u8>>, w: nat, h: nat, x: nat, y: nat): (r: Option<nat>)
    requires |cells| == w * h
    ensures r.Some? ==> r.value < 0x100
  {
    if Present(cells, w, h, x, y, 9) == 0 then None
    else Scan(Counts(cells, w, h, x, y), 0x100).0
  }

  /** Every in-grid cell of the neighbourhood of (x, y) is empty. */
  ghost predicate AllAbsent(cells: seq<Option<u8>>, w: nat, h: nat, x: nat, y: nat)
    requires |cells| == w * h
  {
    forall k :: 0 <= k < 9 && Grid.InGrid(w, h, x, y, k) ==> cells[Grid.Neighbour(w, h, x, y, k)].None?
  }

  lemma {:induction false} PresentZero(cells: seq<Option<u8>>, w: nat, h: nat, x: nat, y: nat, k: nat)
    requires |cells| == w * h && k <= 9
    ensures Present(cells, w, h, x, y, k) == 0 <==>
      forall j :: 0 <= j < k && Grid.InGrid(w, h, x, y, j) ==> cells[Grid.Neighbour(w, h, x, y, j)].None?
  {
    if k > 0 {
      PresentZero(cells, w, h, x, y, k - 1);
    }
  }

  /** A biome held by some in-grid neighbour among the first k offsets has a
      positive tally. */
  lemma {:induction false} TallyPositive(cells: seq<Option<u8>>, w: nat, h: nat, x: nat, y: nat, b: u8, j: nat, k: nat)
    requires |cells| == w * h && j < k <= 9
    requires Grid.InGrid(w, h, x, y, j) && cells[Grid.Neighbour(w, h, x, y, j)] == Some(b)
    ensures Tally(cells, w, h, x, y, b, k) > 0
  {
    if j < k - 1 {
      TallyPositive(cells, w, h, x, y, b, j, k - 1);
    }
  }

  /** A cell becomes empty exactly when its whole in-grid 3x3 neighbourhood,
      itself included, is empty. */
  lemma SmoothedCellEmpty(cells: seq<Option<u8>>, w: nat, h: nat, x: nat, y: nat)
    requires |cells| == w * h
    ensures SmoothedCell(cells, w, h, x, y).None? <==> AllAbsent(cells, w, h, x, y)
  {
    PresentZero(cells, w, h, x, y, 9);
    if !AllAbsent(cells, w, h, x, y) {
      var j :| 0 <= j < 9 && Grid.InGrid(w, h, x, y, j) && cells[Grid.Neighbour(w, h, x, y, j)].Some?;
      var b := cells[Grid.Neighbour(w, h, x, y, j)].value;
      TallyPositive(cells, w, h, x, y, b, j, 9);
      var counts := Counts(cells, w, h, x, y);
      assert counts[b] > 0;
    }
  }

  /** Otherwise the cell takes the biome that occurs most often in its
      neighbourhood; among equally frequent biomes the smallest index wins. */
  lemma SmoothedCellIsMode(cells: seq<Option<u8>>, w: nat, h: nat, x: nat, y: nat)
    requires |cells| == w * h
    requires SmoothedCell(cells, w, h, x, y).Some?
    ensures var b := SmoothedCell(cells, w, h, x, y).value;
      && Tally(cells, w, h, x, y, b, 9) > 0
      && (forall c: u8 :: Tally(cells, w, h, x, y, c, 9) <= Tally(cells, w, h, x, y, b, 9))
      && (forall c: u8 :: c < b ==> Tally(cells, w, h, x, y, c, 9) < Tally(cells, w, h, x, y, b, 9))
  {
    var counts := Counts(cells, w, h, x, y);
    var b := SmoothedCell(cells, w, h, x, y).value;
    assert counts[b] > 0;
    forall c: u8
      ensures Tally(cells, w, h, x, y, c, 9) <= Tally(cells, w, h, x, y, b, 9)
      ensures c < b ==> Tally(cells, w, h, x, y, c, 9) < Tally(cells, w, h, x, y, b, 9)
    {
      assert counts[c] <= counts[b];
    }
  }

  /** A cell that holds a biome still holds one after a pass: it counts itself. */
  lemma SmoothedCellKeepsBiome(cells: seq<Option<u8>>, w: nat, h: nat, x: nat, y: nat)
    requires |cells| == w * h && x < w && y < h
    requires Grid.At(cells, w, h, x, y).Some?
    ensures SmoothedCell(cells, w, h, x, y).Some?
  {
    Grid.CentreIsSelf(w, h, x, y);
    assert !AllAbsent(cells, w, h, x, y);
    SmoothedCellEmpty(cells, w, h, x, y);
  }

  /** One smoothing pass: every cell computed from the previous generation only. */
  function Pass(cells: seq<Option<u8>>, w: nat, h: nat): (r: seq<Option<u8>>)
    requires |cells| == w * h
    ensures |r| == |cells|
  {
    seq(|cells|, i requires 0 <= i < |cells| =>
      Grid.Coordinates(w, h, i);
      AsByte(SmoothedCell(cells, w, h, i % w, i / w)))
  }

  lemma PassAt(cells: seq<Option<u8>>, w: nat, h: nat, x: nat, y: nat)
    requires |cells| == w * h && x < w && y < h
    ensures Grid.At(Pass(cells, w, h), w, h, x, y) == AsByte(SmoothedCell(cells, w, h, x, y))
  {
    Grid.IndexInBounds(w, h, x, y);
    Grid.IndexCoordinates(w, x, y);
  }

  /** `iterations` passes, each over the result of the previous one. */
  function SmoothN(cells: seq<Option<u8>>, w: nat, h: nat, iterations: nat): (r: seq<Option<u8>>)
    requires |cells| == w * h
    ensures |r| == |cells|
  {
    if iterations == 0 then cells else Pass(SmoothN(cells, w, h, iterations - 1), w, h)
  }

  /** No number of passes turns a cell holding a biome into an empty one. */
  lemma {:induction false} SmoothNKeepsBiome(cells: seq<Option<u8>>, w: nat, h: nat, iterations: nat, x: nat, y: nat)
    requires |cells| == w * h && x < w && y < h
    requires Grid.At(cells, w, h, x, y).Some?
    ensures Grid.At(SmoothN(cells, w, h, iterations), w, h, x, y).Some?
  {
    if iterations > 0 {
      var prev := SmoothN(cells, w, h, iterations - 1);
      SmoothNKeepsBiome(cells, w, h, iterations - 1, x, y);
      SmoothedCellKeepsBiome(prev, w, h, x, y);
      PassAt(prev, w, h, x, y);
    }
  }

  // ----- The smoothing code -----

  /** One neighbour, at offset k of the 3x3 scan, of the tally of
      `smooth_biome_map`: adds its biome, if it is in the grid and has one. */
  method TallyCell(current: BiomeMap, x: nat, y: nat, k: nat, counts: array<nat>, seen: bool) returns (hasAny: bool)
    requires current.Valid() && x < current.width && y < current.height && k < 9
    requires counts.Length == 0x100
    requires forall b :: 0 <= b < 0x100 ==>
      counts[b] == Tally(current.indices[..], current.width, current.height, x, y, b, k)
    requires seen <==> Present(current.indices[..], current.width, current.height, x, y, k) > 0
    modifies counts
    ensures forall b :: 0 <= b < 0x100 ==>
      counts[b] == Tally(current.indices[..], current.width, current.height, x, y, b, k + 1)
    ensures hasAny <==> Present(current.indices[..], current.width, current.height, x, y, k + 1) > 0
  {
    var w, h := current.width, current.height;
    var nx, ny := x + Grid.OffsetX(k), y + Grid.OffsetY(k);
    hasAny := seen;
    if 0 <= nx < w && 0 <= ny < h {
      Grid.IndexInBounds(w, h, nx, ny);
      var cell := current.GetIndex(nx, ny);
      if cell.Some? {
        counts[cell.value] := counts[cell.value] + 1;
        hasAny := true;
      }
    }
  }

  /** One row (fixed dy) of the 3x3 scan of `smooth_biome_map`: adds the
      biomes of the in-grid neighbours (x - 1 .. x + 1, y + dy) to `counts`. */
  method TallyRow(current: BiomeMap, x: nat, y: nat, dy: int, counts: array<nat>, seen: bool) returns (hasAny: bool)
    requires current.Valid() && x < current.width && y < current.height && -1 <= dy <= 1
    requires counts.Length == 0x100
    requires forall b :: 0 <= b < 0x100 ==>
      counts[b] == Tally(current.indices[..], current.width, current.height, x, y, b, (dy + 1) * 3)
    requires seen <==> Present(current.indices[..], current.width, current.height, x, y, (dy + 1) * 3) > 0
    modifies counts
    ensures forall b :: 0 <= b < 0x100 ==>
      counts[b] == Tally(current.indices[..], current.width, current.height, x, y, b, (dy + 2) * 3)
    ensures hasAny <==> Present(current.indices[..], current.width, current.height, x, y, (dy + 2) * 3) > 0
  {
    hasAny := seen;
    var dx := -1;
    while dx <= 1
      invariant -1 <= dx <= 2
      invariant forall b :: 0 <= b < 0x100 ==>
        counts[b] == Tally(current.indices[..], current.width, current.height, x, y, b, (dy + 1) * 3 + dx + 1)
      invariant hasAny <==> Present(current.indices[..], current.width, current.height, x, y, (dy + 1) * 3 + dx + 1) > 0
    {
      Grid.OffsetOf(dx, dy);
      hasAny := TallyCell(current, x, y, (dy + 1) * 3 + dx + 1, counts, hasAny);
      dx := dx + 1;
    }
  }

  /** The counting half of the per-cell loop of `smooth_biome_map`: the 3x3
      scan that tallies the biomes of the in-grid neighbours of (x, y). */
  method TallyNeighbourhood(current: BiomeMap, x: nat, y: nat) returns (counts: array<nat>, hasAny: bool)
    requires current.Valid() && x < current.width && y < current.height
    ensures fresh(counts)
    ensures counts[..] == Counts(current.indices[..], current.width, current.height, x, y)
    ensures hasAny <==> Present(current.indices[..], current.width, current.height, x, y, 9) > 0
  {
    counts := new nat[0x100](_ => 0);
    hasAny := false;
    var dy := -1;
    while dy <= 1
      invariant -1 <= dy <= 2
      invariant forall b :: 0 <= b < 0x100 ==>
        counts[b] == Tally(current.indices[..], current.width, current.height, x, y, b, (dy + 1) * 3)
      invariant hasAny <==> Present(current.indices[..], current.width, current.height, x, y, (dy + 1) * 3) > 0
    {
      hasAny := TallyRow(current, x, y, dy, counts, hasAny);
      dy := dy + 1;
    }
  }

  /** The per-cell step of `smooth_biome_map`: count the neighbourhood, then
      pick the first largest count; an all-empty neighbourhood gives None. */
  method ModalIndex(current: BiomeMap, x: nat, y: nat) returns (bi: Option<nat>)
    requires current.Valid() && x < current.width && y < current.height
    ensures bi == SmoothedCell(current.indices[..], current.width, current.height, x, y)
  {
    var counts, hasAny := TallyNeighbourhood(current, x, y);
    if !hasAny {
      return None;
    }
    var best: Option<nat> := None;
    var bestCount := 0;
    for b := 0 to 0x100
      invariant (best, bestCount) == Scan(counts[..], b)
    {
      if counts[b] > bestCount {
        bestCount := counts[b];
        best := Some(b);
      }
    }
    if best.Some? {
      bi := best;
    } else {
      bi := None;
    }
  }

  /** A generation being rewritten from `cells`: the first k cells, in
      row-major order, already hold the next generation, the rest the previous
      one. */
  ghost predicate PassedUpTo(s: seq<Option<u8>>, cells: seq<Option<u8>>, w: nat, h: nat, k: nat)
  {
    && |cells| == w * h && |s| == |cells|
    && forall i :: 0 <= i < |cells| ==> s[i] == if i < k then Pass(cells, w, h)[i] else cells[i]
  }

  /** Rewriting cell k, and nothing else, advances the rewrite by one cell. */
  lemma PassStep(before: seq<Option<u8>>, after: seq<Option<u8>>, cells: seq<Option<u8>>, w: nat, h: nat, k: nat)
    requires PassedUpTo(before, cells, w, h, k) && k < |cells| && |after| == |before|
    requires after[k] == Pass(cells, w, h)[k]
    requires forall i :: 0 <= i < |after| && i != k ==> after[i] == before[i]
    ensures PassedUpTo(after, cells, w, h, k + 1)
  {
  }

  /** Row y of one pass of `smooth_biome_map`. */
  method SmoothRow(current: BiomeMap, next: BiomeMap, y: nat)
    requires current.Valid() && next.Valid() && next.indices != current.indices
    requires next.width == current.width && next.height == current.height && y < current.height
    requires PassedUpTo(next.indices[..], current.indices[..], current.width, current.height,
                        Grid.Index(current.width, 0, y))
    modifies next.indices
    ensures PassedUpTo(next.indices[..], current.indices[..], current.width, current.height,
                       Grid.Index(current.width, 0, y + 1))
  {
    var w, h := current.width, current.height;
    ghost var cells := current.indices[..];
    for x := 0 to w
      invariant current.indices[..] == cells
      invariant PassedUpTo(next.indices[..], cells, w, h, Grid.Index(w, x, y))
    {
      var bi := ModalIndex(current, x, y);
      PassAt(cells, w, h, x, y);
      Grid.IndexInBounds(w, h, x, y);
      ghost var before := next.indices[..];
      next.SetIndex(x, y, bi);
      PassStep(before, next.indices[..], cells, w, h, Grid.Index(w, x, y));
    }
    assert Grid.Index(w, w, y) == Grid.Index(w, 0, y + 1);
  }

  /** One pass of `smooth_biome_map`: a copy of `current` in which every cell
      is rewritten from `current`, which the pass itself never changes. */
  method SmoothPass(current: BiomeMap) returns (next: BiomeMap)
    requires current.Valid()
    ensures next.Valid() && fresh(next.indices)
    ensures next.width == current.width && next.height == current.height
    ensures next.indices[..] == Pass(current.indices[..], current.width, current.height)
  {
    var w, h := current.width, current.height;
    next := current.Clone();
    ghost var cells := current.indices[..];
    for y := 0 to h
      invariant next.Valid() && fresh(next.indices)
      invariant next.width == w && next.height == h
      invariant current.indices[..] == cells
      invariant PassedUpTo(next.indices[..], cells, w, h, Grid.Index(w, 0, y))
    {
      SmoothRow(current, next, y);
    }
    assert Grid.Index(w, 0, h) == |cells|;
  }

  /** `smooth_biome_map`: `iterations` passes, each over the previous
      generation; with no passes the result is a copy of the input. */
  method SmoothBiomeMap(src: BiomeMap, iterations: nat) returns (r: BiomeMap)
    requires src.Valid()
    ensures r.Valid() && fresh(r.indices)
    ensures r.width == src.width && r.height == src.height
    ensures r.indices[..] == SmoothN(src.indices[..], src.width, src.height, iterations)
  {
    var current := src.Clone();
    for pass := 0 to iterations
      invariant current.Valid() && fresh(current.indices)
      invariant current.width == src.width && current.height == src.height
      invariant current.indices[..] == SmoothN(src.indices[..], src.width, src.height, pass)
    {
      current := SmoothPass(current);
    }
    r := current;
  }

  /** `find_biome_index`: the first position whose biome has the given id. */
  function FindBiomeIndex(biomes: seq<BiomeConfig>, id: seq<u8>): (r: Option<nat>)
    ensures r.Some? ==> r.value < |biomes| && biomes[r.value].id == id
    ensures r.Some? ==> forall j :: 0 <= j < r.value ==> biomes[j].id != id
    ensures r.None? ==> forall j :: 0 <= j < |biomes| ==> biomes[j].id != id
  {
    if |biomes| == 0 then None
    else if biomes[0].id == id then Some(0)
    else match FindBiomeIndex(biomes[1..], id)
      case None => None
      case Some(i) => Some(i + 1)
  }
}
