/** The heightmap record and the D8 flow accumulation of
    `compute_flow_accumulation`. Heights are exact integers (a fixed-point
    reading of the normalised heights); the flow is normalised over reals. */
module Terrain {
  import opened Base
  import Grid
  import opened Drainage

  /** A heightmap: `width` x `height` heights in row-major order. */
  datatype Heightmap = Heightmap(width: nat, height: nat, values: seq<int>)
  {
    predicate Valid()
    {
      |values| == width * height
    }

    /** `Heightmap::index`: the row-major position of (x, y), inside the
        vector for in-grid coordinates, and the coordinates can be read back. */
    function Index(x: nat, y: nat): (i: nat)
      ensures x < width && y < height ==> i < width * height
      ensures x < width ==> i % width == x && i / width == y
    {
      if x < width then
        Grid.IndexCoordinates(width, x, y);
        if y < height then
          Grid.IndexInBounds(width, height, x, y);
          Grid.Index(width, x, y)
        else Grid.Index(width, x, y)
      else Grid.Index(width, x, y)
    }

    /** `Heightmap::get`: the height stored for (x, y); the vector lookup
        panics unless the position is inside it. */
    function Get(x: nat, y: nat): (v: int)
      requires Index(x, y) < |values|
      ensures Valid() && x < width && y < height ==> v == Grid.At(values, width, height, x, y)
    {
      values[Index(x, y)]
    }
  }

  // ----- Steepest descent of one cell -----

  /** Offset k of the 3x3 scan is a real neighbour of (x, y): not the cell
      itself and inside the grid. */
  predicate Candidate(w: nat, h: nat, x: nat, y: nat, k: nat)
    requires k < 9
  {
    k != 4 && Grid.InGrid(w, h, x, y, k)
  }

  /** How far the height falls from (x, y) to its neighbour at offset k. */
  function Drop(vals: seq<int>, w: nat, h: nat, x: nat, y: nat, k: nat): int
    requires |vals| == w * h && x < w && y < h && k < 9 && Grid.InGrid(w, h, x, y, k)
  {
    Grid.At(vals, w, h, x, y) - vals[Grid.Neighbour(w, h, x, y, k)]
  }

  /** The scan over the first k offsets: the largest positive drop seen and the
      offset that first reached it, starting from drop 0 and no neighbour. */
  function Descent(vals: seq<int>, w: nat, h: nat, x: nat, y: nat, k: nat): (r: (int, Option<nat>))
    requires |vals| == w * h && x < w && y < h && k <= 9
    ensures r.0 >= 0 && (r.1.None? <==> r.0 == 0)
    ensures r.1.Some? ==> r.1.value < k && Candidate(w, h, x, y, r.1.value) && Drop(vals, w, h, x, y, r.1.value) == r.0
  {
    if k == 0 then (0, None)
    else
      var prev := Descent(vals, w, h, x, y, k - 1);
      if Candidate(w, h, x, y, k - 1) && Drop(vals, w, h, x, y, k - 1) > prev.0 then
        (Drop(vals, w, h, x, y, k - 1), Some(k - 1))
      else prev
  }

  /** The scan keeps the largest drop, and the first offset reaching it. */
  lemma {:induction false} DescentIsSteepest(vals: seq<int>, w: nat, h: nat, x: nat, y: nat, k: nat)
    requires |vals| == w * h && x < w && y < h && k <= 9
    ensures var r := Descent(vals, w, h, x, y, k);
      forall j :: 0 <= j < k && Candidate(w, h, x, y, j) ==> Drop(vals, w, h, x, y, j) <= r.0
    ensures var r := Descent(vals, w, h, x, y, k);
      r.1.Some? ==> forall j :: 0 <= j < r.1.value && Candidate(w, h, x, y, j) ==> Drop(vals, w, h, x, y, j) < r.0
  {
    if k > 0 {
      DescentIsSteepest(vals, w, h, x, y, k - 1);
    }
  }

  /** The scan state as the code keeps it: the best drop and the position of
      the neighbour that gave it. */
  function Best(vals: seq<int>, w: nat, h: nat, x: nat, y: nat, k: nat): (int, Option<nat>)
    requires |vals| == w * h && x < w && y < h && k <= 9
  {
    var (drop, off) := Descent(vals, w, h, x, y, k);
    (drop, if off.Some? then Some(Grid.Neighbour(w, h, x, y, off.value)) else None)
  }

  /** One step of the scan as the code takes it. */
  lemma BestStep(vals: seq<int>, w: nat, h: nat, x: nat, y: nat, k: nat)
    requires |vals| == w * h && x < w && y < h && k < 9
    ensures Best(vals, w, h, x, y, k + 1) ==
      if Candidate(w, h, x, y, k) && Drop(vals, w, h, x, y, k) > Best(vals, w, h, x, y, k).0
      then (Drop(vals, w, h, x, y, k), Some(Grid.Neighbour(w, h, x, y, k)))
      else Best(vals, w, h, x, y, k)
  {
  }

  /** Where cell (x, y) drains: nowhere at or below sea level, otherwise into
      the in-grid neighbour with the largest drop (the first in scan order on a
      tie), provided that drop is positive. */
  function DownslopeOf(vals: seq<int>, w: nat, h: nat, x: nat, y: nat, sea: int): (r: Option<nat>)
    requires |vals| == w * h && x < w && y < h
    ensures r.None? <==>
      Grid.At(vals, w, h, x, y) <= sea ||
      forall j :: 0 <= j < 9 && Candidate(w, h, x, y, j) ==> vals[Grid.Neighbour(w, h, x, y, j)] >= Grid.At(vals, w, h, x, y)
    ensures r.Some? ==> r.value < |vals| && vals[r.value] < Grid.At(vals, w, h, x, y) && r.value != Grid.Index(w, x, y)
    ensures r.Some? ==> exists k :: (
      && 0 <= k < 9 && Candidate(w, h, x, y, k) && r.value == Grid.Neighbour(w, h, x, y, k)
      && (forall j :: 0 <= j < 9 && Candidate(w, h, x, y, j) ==> Drop(vals, w, h, x, y, j) <= Drop(vals, w, h, x, y, k))
      && (forall j :: 0 <= j < k && Candidate(w, h, x, y, j) ==> Drop(vals, w, h, x, y, j) < Drop(vals, w, h, x, y, k)))
  {
    Grid.IndexInBounds(w, h, x, y);
    DescentIsSteepest(vals, w, h, x, y, 9);
    if Grid.At(vals, w, h, x, y) <= sea then None
    else
      var (drop, off) := Descent(vals, w, h, x, y, 9);
      if drop > 0 then Some(Grid.Neighbour(w, h, x, y, off.value)) else None
  }

  /** The code's reading of DownslopeOf: skip sea cells, run the scan, keep
      its neighbour only for a positive drop. */
  lemma DownslopeOfBest(vals: seq<int>, w: nat, h: nat, x: nat, y: nat, sea: int)
    requires |vals| == w * h && x < w && y < h
    ensures DownslopeOf(vals, w, h, x, y, sea) ==
      if Grid.At(vals, w, h, x, y) <= sea then None
      else if Best(vals, w, h, x, y, 9).0 > 0 then Best(vals, w, h, x, y, 9).1
      else None
  {
  }

  /** The downslope vector of the whole grid. */
  function DownslopeField(vals: seq<int>, w: nat, h: nat, sea: int): (r: seq<Option<nat>>)
    requires |vals| == w * h
    ensures |r| == |vals|
  {
    seq(|vals|, i requires 0 <= i < |vals| =>
      Grid.Coordinates(w, h, i);
      DownslopeOf(vals, w, h, i % w, i / w, sea))
  }

  lemma DownslopeFieldAt(vals: seq<int>, w: nat, h: nat, sea: int, x: nat, y: nat)
    requires |vals| == w * h && x < w && y < h
    ensures Grid.At(DownslopeField(vals, w, h, sea), w, h, x, y) == DownslopeOf(vals, w, h, x, y, sea)
  {
    Grid.IndexCoordinates(w, x, y);
    Grid.IndexInBounds(w, h, x, y);
  }

  /** Every link of the downslope vector leads to a strictly lower cell, so
      following links always ends. */
  lemma DownslopeFieldDescends(vals: seq<int>, w: nat, h: nat, sea: int)
    requires |vals| == w * h
    ensures Descends(vals, DownslopeField(vals, w, h, sea))
  {
    var down := DownslopeField(vals, w, h, sea);
    forall i | 0 <= i < |down| && down[i].Some?
      ensures down[i].value < |vals| && vals[down[i].value] < vals[i]
    {
      Grid.Coordinates(w, h, i);
    }
  }

  // ----- Ordering the cells from high to low -----

  predicate Distinct(order: seq<nat>)
  {
    forall j1, j2 :: 0 <= j1 < j2 < |order| ==> order[j1] != order[j2]
  }

  /** Every entry is a cell and the heights never rise along `order`. */
  predicate Descending(vals: seq<int>, order: seq<nat>)
  {
    && (forall j :: 0 <= j < |order| ==> order[j] < |vals|)
    && (forall j1, j2 :: 0 <= j1 < j2 < |order| ==> vals[order[j1]] >= vals[order[j2]])
  }

  /** `order` lists every cell exactly once, highest first. */
  predicate HeightOrder(vals: seq<int>, order: seq<nat>)
  {
    && |order| == |vals|
    && Descending(vals, order)
    && Distinct(order)
    && (forall c :: 0 <= c < |vals| ==> c in order)
  }

  /** Inserts cell i before the first entry lower than it. */
  function InsertByHeight(vals: seq<int>, order: seq<nat>, i: nat): (r: seq<nat>)
    requires i < |vals| && Descending(vals, order)
    ensures |r| == |order| + 1
    ensures forall c: nat :: c in r <==> c in order || c == i
    ensures Descending(vals, r)
    ensures Distinct(order) && i !in order ==> Distinct(r)
  {
    if |order| == 0 then [i]
    else if vals[order[0]] < vals[i] then [i] + order
    else
      var rest := InsertByHeight(vals, order[1..], i);
      HeadNotBelow(vals, order, i, rest);
      assert Distinct(order) && i !in order ==> order[0] !in rest;
      [order[0]] + rest
  }

  /** After inserting a cell no higher than the head into the tail, the head
      is still at least as high as every entry. */
  lemma HeadNotBelow(vals: seq<int>, order: seq<nat>, i: nat, rest: seq<nat>)
    requires i < |vals| && Descending(vals, order) && |order| > 0 && vals[order[0]] >= vals[i]
    requires Descending(vals, rest)
    requires forall c: nat :: c in rest <==> c in order[1..] || c == i
    ensures forall j :: 0 <= j < |rest| ==> vals[order[0]] >= vals[rest[j]]
  {
    forall j | 0 <= j < |rest|
      ensures vals[order[0]] >= vals[rest[j]]
    {
      if rest[j] != i {
        assert rest[j] in rest;
        assert rest[j] in order[1..];
        var m :| 0 <= m < |order[1..]| && order[1..][m] == rest[j];
        assert order[m + 1] == rest[j];
      }
    }
  }

  /** The descending height order of the first n cells: the standard sort's
      contract, with ties in any order. */
  function SortByHeight(vals: seq<int>, n: nat): (r: seq<nat>)
    requires n <= |vals|
    ensures |r| == n && Descending(vals, r) && Distinct(r)
    ensures forall c: nat :: c in r <==> c < n
  {
    if n == 0 then []
    else InsertByHeight(vals, SortByHeight(vals, n - 1), n - 1)
  }

  lemma SortByHeightOrders(vals: seq<int>)
    ensures HeightOrder(vals, SortByHeight(vals, |vals|))
  {
  }

  /** In a height order, every cell draining directly into order[k] comes
      before position k. */
  lemma DonorsBefore(vals: seq<int>, down: seq<Option<nat>>, order: seq<nat>, k: nat)
    requires Descends(vals, down) && HeightOrder(vals, order) && k < |order|
    ensures forall d :: 0 <= d < |vals| && down[d] == Some(order[k]) ==> d in (set j | 0 <= j < k :: order[j])
  {
    forall d | 0 <= d < |vals| && down[d] == Some(order[k])
      ensures d in (set j | 0 <= j < k :: order[j])
    {
      assert d in order;
      var j :| 0 <= j < |order| && order[j] == d;
    }
  }

  // ----- compute_flow_accumulation -----

  /** The scan of one row (fixed dy) of the neighbours of (x, y), continuing
      from the state left by the rows above. */
  method DescentRow(hm: Heightmap, x: nat, y: nat, here: int, dy: int, diff0: int, n0: Option<nat>)
    returns (bestDiff: int, bestN: Option<nat>)
    requires hm.Valid() && x < hm.width && y < hm.height && -1 <= dy <= 1
    requires here == Grid.At(hm.values, hm.width, hm.height, x, y)
    requires (diff0, n0) == Best(hm.values, hm.width, hm.height, x, y, (dy + 1) * 3)
    ensures (bestDiff, bestN) == Best(hm.values, hm.width, hm.height, x, y, (dy + 2) * 3)
  {
    bestDiff, bestN := diff0, n0;
    var dx := -1;
    while dx <= 1
      invariant -1 <= dx <= 2
      invariant (bestDiff, bestN) == Best(hm.values, hm.width, hm.height, x, y, (dy + 1) * 3 + dx + 1)
    {
      Grid.OffsetOf(dx, dy);
      bestDiff, bestN := DescentCell(hm, x, y, here, dx, dy, bestDiff, bestN);
      dx := dx + 1;
    }
  }

  /** One neighbour, at offset (dx, dy), of the 3x3 scan: a strictly steeper
      in-grid neighbour other than the cell itself replaces the best so far. */
  method DescentCell(hm: Heightmap, x: nat, y: nat, here: int, dx: int, dy: int, diff0: int, n0: Option<nat>)
    returns (bestDiff: int, bestN: Option<nat>)
    requires hm.Valid() && x < hm.width && y < hm.height && -1 <= dx <= 1 && -1 <= dy <= 1
    requires here == Grid.At(hm.values, hm.width, hm.height, x, y)
    requires (diff0, n0) == Best(hm.values, hm.width, hm.height, x, y, (dy + 1) * 3 + dx + 1)
    ensures (bestDiff, bestN) == Best(hm.values, hm.width, hm.height, x, y, (dy + 1) * 3 + dx + 2)
  {
    var w, h := hm.width, hm.height;
    Grid.OffsetOf(dx, dy);
    ghost var k := (dy + 1) * 3 + dx + 1;
    BestStep(hm.values, w, h, x, y, k);
    bestDiff, bestN := diff0, n0;
    if !(dx == 0 && dy == 0) {
      var nx, ny := x + dx, y + dy;
      if 0 <= nx < w && 0 <= ny < h {
        Grid.IndexInBounds(w, h, nx, ny);
        var nidx := Grid.Index(w, nx, ny);
        assert nidx == Grid.Neighbour(w, h, x, y, k);
        var diff := here - hm.values[nidx];
        if diff > bestDiff {
          bestDiff := diff;
          bestN := Some(nidx);
        }
      }
    }
  }

  /** The 3x3 scan of one cell above sea level. */
  method SteepestDescent(hm: Heightmap, x: nat, y: nat, here: int) returns (bestDiff: int, bestN: Option<nat>)
    requires hm.Valid() && x < hm.width && y < hm.height
    requires here == Grid.At(hm.values, hm.width, hm.height, x, y)
    ensures (bestDiff, bestN) == Best(hm.values, hm.width, hm.height, x, y, 9)
  {
    bestDiff, bestN := 0, None;
    var dy := -1;
    while dy <= 1
      invariant -1 <= dy <= 2
      invariant (bestDiff, bestN) == Best(hm.values, hm.width, hm.height, x, y, (dy + 1) * 3)
    {
      bestDiff, bestN := DescentRow(hm, x, y, here, dy, bestDiff, bestN);
      dy := dy + 1;
    }
  }

  /** The body of the first loop of `compute_flow_accumulation` for cell
      (x, y): a cell above sea level records its steepest lower neighbour. */
  method DrainCell(hm: Heightmap, sea: int, x: nat, y: nat, a: array<Option<nat>>)
    requires hm.Valid() && x < hm.width && y < hm.height && a.Length == |hm.values|
    requires Grid.At(a[..], hm.width, hm.height, x, y) == None
    modifies a
    ensures Grid.At(a[..], hm.width, hm.height, x, y) == DownslopeOf(hm.values, hm.width, hm.height, x, y, sea)
    ensures forall i :: 0 <= i < a.Length && i != Grid.Index(hm.width, x, y) ==> a[i] == old(a[i])
  {
    var w, h := hm.width, hm.height;
    Grid.IndexInBounds(w, h, x, y);
    DownslopeOfBest(hm.values, w, h, x, y, sea);
    var idx := Grid.Index(w, x, y);
    ghost var cell := DownslopeOf(hm.values, w, h, x, y, sea);
    var here := hm.values[idx];
    assert here == Grid.At(hm.values, w, h, x, y);
    if here > sea {
      var bestDiff, bestN := SteepestDescent(hm, x, y, here);
      if bestDiff > 0 {
        assert bestN == cell;
        a[idx] := bestN;
      }
    }
  }

  /** A downslope vector being filled in: the first k cells, in row-major
      order, hold their entries of `target`, the others None. */
  ghost predicate DrainedUpTo(s: seq<Option<nat>>, target: seq<Option<nat>>, k: nat)
  {
    |s| == |target| && forall i :: 0 <= i < |s| ==> s[i] == if i < k then target[i] else None
  }

  /** Filling in entry k, and nothing else, advances the vector by one cell. */
  lemma DrainStep(before: seq<Option<nat>>, after: seq<Option<nat>>, target: seq<Option<nat>>, k: nat)
    requires DrainedUpTo(before, target, k) && k < |target| && |after| == |before|
    requires after[k] == target[k]
    requires forall i :: 0 <= i < |after| && i != k ==> after[i] == before[i]
    ensures DrainedUpTo(after, target, k + 1)
  {
  }

  /** Row y of the first loop of `compute_flow_accumulation`. */
  method DrainRow(hm: Heightmap, sea: int, y: nat, a: array<Option<nat>>)
    requires hm.Valid() && y < hm.height && a.Length == |hm.values|
    requires DrainedUpTo(a[..], DownslopeField(hm.values, hm.width, hm.height, sea), Grid.Index(hm.width, 0, y))
    modifies a
    ensures DrainedUpTo(a[..], DownslopeField(hm.values, hm.width, hm.height, sea), Grid.Index(hm.width, 0, y + 1))
  {
    var w, h := hm.width, hm.height;
    ghost var target := DownslopeField(hm.values, w, h, sea);
    for x := 0 to w
      invariant DrainedUpTo(a[..], target, Grid.Index(w, x, y))
    {
      Grid.IndexInBounds(w, h, x, y);
      DownslopeFieldAt(hm.values, w, h, sea, x, y);
      ghost var before := a[..];
      DrainCell(hm, sea, x, y, a);
      DrainStep(before, a[..], target, Grid.Index(w, x, y));
    }
    assert Grid.Index(w, w, y) == Grid.Index(w, 0, y + 1);
  }

  /** The first loop of `compute_flow_accumulation`: the downslope vector. */
  method ComputeDownslope(hm: Heightmap, sea: int) returns (down: seq<Option<nat>>)
    requires hm.Valid()
    ensures down == DownslopeField(hm.values, hm.width, hm.height, sea)
  {
    var w, h := hm.width, hm.height;
    var len := w * h;
    var a := new Option<nat>[len](_ => None);
    ghost var target := DownslopeField(hm.values, w, h, sea);
    for y := 0 to h
      invariant DrainedUpTo(a[..], target, Grid.Index(w, 0, y))
    {
      DrainRow(hm, sea, y, a);
    }
    assert Grid.Index(w, 0, h) == len;
    down := a[..];
  }

  /** The accumulation loop: starting from one unit of water per cell, each
      cell, highest first, passes what it holds to its downslope neighbour.
      Any height order gives every cell the size of its drainage tree. */
  method Accumulate(vals: seq<int>, down: seq<Option<nat>>, order: seq<nat>) returns (flow: seq<nat>)
    requires Descends(vals, down) && HeightOrder(vals, order)
    ensures |flow| == |vals|
    ensures forall c :: 0 <= c < |vals| ==> flow[c] == |Upstream(vals, down, c)|
    ensures forall c :: 0 <= c < |vals| ==> flow[c] == 1 + Inflow(flow, down, c, |vals|)
  {
    var n := |vals|;
    var f := new nat[n](_ => 1);
    ghost var done: set<nat> := {};
    forall c | 0 <= c < n
      ensures DonorTreesIn(vals, down, c, {}, n) == 0
    {
      DonorTreesInEmpty(vals, down, c, n);
    }
    for k := 0 to n
      invariant done == set j | 0 <= j < k :: order[j]
      invariant forall c :: 0 <= c < n ==> f[c] == 1 + DonorTreesIn(vals, down, c, done, n)
    {
      var idx := order[k];
      DonorsBefore(vals, down, order, k);
      DonorTreesInAll(vals, down, idx, done, n);
      TreeSize(vals, down, idx);
      assert idx !in done;
      forall c | 0 <= c < n
        ensures DonorTreesIn(vals, down, c, done + {idx}, n) ==
          DonorTreesIn(vals, down, c, done, n) + (if down[idx] == Some(c) then |Upstream(vals, down, idx)| else 0)
      {
        DonorTreesInAdd(vals, down, c, done, idx, n);
      }
      if down[idx].Some? {
        var nidx := down[idx].value;
        f[nidx] := f[nidx] + f[idx];
      }
      done := done + {idx};
    }
    forall c | 0 <= c < n
      ensures f[c] == |Upstream(vals, down, c)|
    {
      forall d | 0 <= d < n
        ensures d in done
      {
        assert d in order;
        var j :| 0 <= j < n && order[j] == d;
      }
      DonorTreesInAll(vals, down, c, done, n);
      TreeSize(vals, down, c);
    }
    flow := f[..];
    forall c | 0 <= c < n
      ensures flow[c] == 1 + Inflow(flow, down, c, n)
    {
      InflowOfTrees(vals, down, flow, c, n);
      TreeSize(vals, down, c);
    }
  }

  /** The size of every cell's drainage tree. */
  ghost function TreeSizes(vals: seq<int>, down: seq<Option<nat>>): (r: seq<nat>)
    requires Descends(vals, down)
    ensures |r| == |vals|
  {
    seq(|vals|, c requires 0 <= c < |vals| => |Upstream(vals, down, c)|)
  }

  /** The largest entry, 0 for none. */
  function MaxFlow(flow: seq<nat>): (m: nat)
    ensures forall i :: 0 <= i < |flow| ==> flow[i] <= m
    ensures |flow| > 0 ==> exists i :: 0 <= i < |flow| && flow[i] == m
    ensures |flow| == 0 ==> m == 0
  {
    if |flow| == 0 then 0
    else
      var m := MaxFlow(flow[..|flow| - 1]);
      assert forall i :: 0 <= i < |flow| - 1 ==> flow[i] == flow[..|flow| - 1][i];
      if flow[|flow| - 1] > m then flow[|flow| - 1] else m
  }

  lemma QuotientBounds(a: nat, m: nat)
    requires 0 < m && a <= m
    ensures 0.0 <= a as real / m as real <= 1.0
    ensures a > 0 ==> a as real / m as real > 0.0
    ensures a == m ==> a as real / m as real == 1.0
  {
  }

  /** The first normalisation loop: the largest flow, 0 for an empty grid. */
  method LargestFlow(flow: seq<nat>) returns (maxFlow: nat)
    ensures maxFlow == MaxFlow(flow)
  {
    maxFlow := 0;
    for i := 0 to |flow|
      invariant maxFlow == MaxFlow(flow[..i])
    {
      assert flow[..i + 1][..i] == flow[..i];
      if flow[i] > maxFlow {
        maxFlow := flow[i];
      }
    }
    assert flow[..|flow|] == flow;
  }

  /** The normalisation of `compute_flow_accumulation`: divide every entry by
      the largest one when that is positive, so the entries land in [0, 1]
      and the largest becomes exactly 1. */
  method Normalize(flow: seq<nat>) returns (norm: seq<real>)
    ensures |norm| == |flow|
    ensures MaxFlow(flow) > 0 ==> forall i :: 0 <= i < |flow| ==> norm[i] == flow[i] as real / MaxFlow(flow) as real
    ensures MaxFlow(flow) == 0 ==> forall i :: 0 <= i < |flow| ==> norm[i] == 0.0
    ensures forall i :: 0 <= i < |flow| ==> 0.0 <= norm[i] <= 1.0
    ensures MaxFlow(flow) > 0 ==> exists i :: 0 <= i < |flow| && norm[i] == 1.0
  {
    var a := new real[|flow|](i requires 0 <= i < |flow| => flow[i] as real);
    var maxFlow := LargestFlow(flow);
    if maxFlow > 0 {
      for i := 0 to |flow|
        invariant forall j :: 0 <= j < |flow| ==> a[j] == if j < i then flow[j] as real / maxFlow as real else flow[j] as real
      {
        a[i] := a[i] / maxFlow as real;
      }
    }
    norm := a[..];
    forall i | 0 <= i < |flow|
      ensures 0.0 <= norm[i] <= 1.0
    {
      if maxFlow > 0 {
        QuotientBounds(flow[i], maxFlow);
      }
    }
    if maxFlow > 0 {
      var top :| 0 <= top < |flow| && flow[top] == maxFlow;
      QuotientBounds(flow[top], maxFlow);
    }
  }

  /** The cell counts of `compute_flow_accumulation` before normalisation: an
      empty grid gives an empty vector, otherwise every cell holds the number
      of cells that drain through it, itself included, and that is one more
      than what its direct donors hold. */
  method FlowCounts(hm: Heightmap, sea: int) returns (flow: seq<nat>)
    requires hm.Valid()
    ensures |flow| == |hm.values|
    ensures var down := DownslopeField(hm.values, hm.width, hm.height, sea);
      Descends(hm.values, down) &&
      (forall c :: 0 <= c < |flow| ==> flow[c] == |Upstream(hm.values, down, c)|) &&
      (forall c :: 0 <= c < |flow| ==> flow[c] == 1 + Inflow(flow, down, c, |flow|))
  {
    DownslopeFieldDescends(hm.values, hm.width, hm.height, sea);
    var len := hm.width * hm.height;
    if len == 0 {
      return [];
    }
    var down := ComputeDownslope(hm, sea);
    var order := SortByHeight(hm.values, len);
    SortByHeightOrders(hm.values);
    flow := Accumulate(hm.values, down, order);
  }

  /** Normalising positive counts gives positive shares. */
  lemma SharesPositive(flow: seq<nat>, r: seq<real>)
    requires |r| == |flow| && forall c :: 0 <= c < |flow| ==> flow[c] > 0
    requires MaxFlow(flow) > 0 ==> forall i :: 0 <= i < |flow| ==> r[i] == flow[i] as real / MaxFlow(flow) as real
    ensures forall c :: 0 <= c < |r| ==> 0.0 < r[c]
  {
    forall c | 0 <= c < |r|
      ensures 0.0 < r[c]
    {
      QuotientBounds(flow[c], MaxFlow(flow));
    }
  }

  /** `compute_flow_accumulation`: each cell's drainage-tree size divided by
      the largest one, so every cell gets a share in (0, 1] and some cell
      gets 1. */
  method ComputeFlowAccumulation(hm: Heightmap, sea: int) returns (r: seq<real>)
    requires hm.Valid()
    ensures |r| == |hm.values|
    ensures var down := DownslopeField(hm.values, hm.width, hm.height, sea);
      Descends(hm.values, down) &&
      var sizes := TreeSizes(hm.values, down);
      forall c :: 0 <= c < |r| ==> MaxFlow(sizes) > 0 && r[c] == sizes[c] as real / MaxFlow(sizes) as real
    ensures forall c :: 0 <= c < |r| ==> 0.0 < r[c] <= 1.0
    ensures |r| > 0 ==> exists c :: 0 <= c < |r| && r[c] == 1.0
  {
    var flow := FlowCounts(hm, sea);
    ghost var down := DownslopeField(hm.values, hm.width, hm.height, sea);
    assert flow == TreeSizes(hm.values, down);
    forall c | 0 <= c < |flow|
      ensures flow[c] > 0
    {
      assert c in Upstream(hm.values, down, c);
    }
    if |flow| > 0 {
      assert MaxFlow(flow) >= flow[0];
    }
    r := Normalize(flow);
    SharesPositive(flow, r);
  }

}
