/** Row-major addressing of a `width` x `height` grid and the 3x3
    neighbourhood scan shared by the biome smoother and the D8 drainage. */
module Grid {

  /** Cell (x, y) lives at position y * width + x. */
  function Index(width: nat, x: nat, y: nat): nat
  {
    y * width + x
  }

  lemma IndexInBounds(width: nat, height: nat, x: nat, y: nat)
    requires x < width && y < height
    ensures Index(width, x, y) < width * height
  {
    assert Index(width, x, y) < y * width + width == (y + 1) * width;
    assert (y + 1) * width <= height * width by {
      MulMonotone(y + 1, height, width);
    }
  }

  /** The value stored for cell (x, y) of a row-major grid. */
  function At<T>(cells: seq<T>, width: nat, height: nat, x: nat, y: nat): T
    requires |cells| == width * height && x < width && y < height
  {
    IndexInBounds(width, height, x, y);
    cells[Index(width, x, y)]
  }

  lemma MulMonotone(a: nat, b: nat, c: nat)
    requires a <= b
    ensures a * c <= b * c
  {
  }

  /** Inside the grid, different coordinates never share a position. */
  lemma {:induction false} IndexInjective(width: nat, x1: nat, y1: nat, x2: nat, y2: nat)
    requires x1 < width && x2 < width
    requires Index(width, x1, y1) == Index(width, x2, y2)
    ensures x1 == x2 && y1 == y2
  {
    if y1 < y2 {
      MulMonotone(y1 + 1, y2, width);
      assert false;
    } else if y2 < y1 {
      MulMonotone(y2 + 1, y1, width);
      assert false;
    }
  }

  /** Every position of the grid is the position of exactly the coordinates
      (i % width, i / width). */
  lemma Coordinates(width: nat, height: nat, i: nat)
    requires i < width * height
    ensures width > 0
    ensures i % width < width && i / width < height
    ensures Index(width, i % width, i / width) == i
  {
    var q, r := i / width, i % width;
    assert i == q * width + r;
    if q >= height {
      MulMonotone(height, q, width);
      assert false;
    }
  }

  /** Reading the coordinates back from a position inside a row. */
  lemma IndexCoordinates(width: nat, x: nat, y: nat)
    requires x < width
    ensures Index(width, x, y) % width == x && Index(width, x, y) / width == y
  {
    var i := Index(width, x, y);
    var q, r := i / width, i % width;
    assert i == q * width + r && 0 <= r < width;
    IndexInjective(width, r, q, x, y);
  }

  /** The nine offsets of a 3x3 neighbourhood in scan order: dy outer, dx inner,
      each running -1, 0, 1. Offset 4 is the cell itself. */
  function OffsetY(k: nat): int
    requires k < 9
  {
    if k < 3 then -1 else if k < 6 then 0 else 1
  }

  function OffsetX(k: nat): int
    requires k < 9
  {
    k - 3 * (OffsetY(k) + 1) - 1
  }

  /** Position in scan order of the offset (dx, dy). */
  lemma OffsetOf(dx: int, dy: int)
    requires -1 <= dx <= 1 && -1 <= dy <= 1
    ensures var k := (dy + 1) * 3 + (dx + 1);
      k < 9 && OffsetX(k) == dx && OffsetY(k) == dy
  {
  }

  /** Whether the neighbour of (x, y) at offset k lies inside the grid. */
  predicate InGrid(width: nat, height: nat, x: nat, y: nat, k: nat)
    requires k < 9
  {
    0 <= x + OffsetX(k) < width && 0 <= y + OffsetY(k) < height
  }

  /** Position of the neighbour of (x, y) at offset k. */
  function Neighbour(width: nat, height: nat, x: nat, y: nat, k: nat): (i: nat)
    requires k < 9 && InGrid(width, height, x, y, k)
    ensures i < width * height
  {
    IndexInBounds(width, height, x + OffsetX(k), y + OffsetY(k));
    Index(width, x + OffsetX(k), y + OffsetY(k))
  }

  /** Offset 4 of the scan is the cell itself. */
  lemma CentreIsSelf(width: nat, height: nat, x: nat, y: nat)
    requires x < width && y < height
    ensures InGrid(width, height, x, y, 4)
    ensures Neighbour(width, height, x, y, 4) == Index(width, x, y)
  {
    assert OffsetX(4) == 0 && OffsetY(4) == 0;
  }
}
