/**
 * The tile-grid subdivision used by the Rwanda downloader: a bounding box
 * [min_lon, min_lat, max_lon, max_lat] is cut into num_tiles_x * num_tiles_y
 * equal rectangles, listed column by column (longitude index outer, latitude
 * index inner).
 *
 * Coordinates are exact reals. The downloader computes them in binary floating
 * point. Shared edges and the first corner are exact there too, since both
 * sides evaluate the same expression min + k * step; the last corner, the tile
 * widths and heights, and containment and coverage at the upper edge of the
 * box hold there only up to rounding.
 */
module TileGrid {

  /** A rectangle in the downloader's list order [minx, miny, maxx, maxy]. */
  datatype Box = Box(minX: real, minY: real, maxX: real, maxY: real)

  /** Result of create_grid: the tile list, or the ZeroDivisionError raised by a zero count. */
  datatype GridResult = Tiles(tiles: seq<Box>) | DivisionByZero

  /** The box has positive width and height. */
  predicate Proper(b: Box) {
    b.minX < b.maxX && b.minY < b.maxY
  }

  /** The point (x, y) lies in the closed rectangle b. */
  predicate Contains(b: Box, x: real, y: real) {
    b.minX <= x <= b.maxX && b.minY <= y <= b.maxY
  }

  /** The number of values Python's range(n) produces. */
  function RangeLen(n: int): nat {
    if n < 0 then 0 else n
  }

  /** The step along one axis: (hi - lo) / n. */
  function Step(lo: real, hi: real, n: int): real
    requires n != 0
  {
    (hi - lo) / n as real
  }

  /** The i-th cut of an axis split into n parts: lo + i * step. */
  function Edge(lo: real, hi: real, n: int, i: int): real
    requires n != 0
  {
    lo + i as real * Step(lo, hi, n)
  }

  /** The tile in column i (longitude) and row j (latitude). */
  function TileAt(b: Box, nx: int, ny: int, i: int, j: int): Box
    requires nx != 0 && ny != 0
  {
    Box(Edge(b.minX, b.maxX, nx, i), Edge(b.minY, b.maxY, ny, j),
        Edge(b.minX, b.maxX, nx, i + 1), Edge(b.minY, b.maxY, ny, j + 1))
  }

  /** The tiles the inner loop appends for column i. */
  function Column(b: Box, nx: int, ny: int, i: int): seq<Box>
    requires nx != 0 && ny != 0
  {
    seq(RangeLen(ny), j => TileAt(b, nx, ny, i, j))
  }

  /** The tiles of the first m columns, in the order they are appended. */
  function Columns(b: Box, nx: int, ny: int, m: nat): seq<Box>
    requires nx != 0 && ny != 0
  {
    if m == 0 then [] else Columns(b, nx, ny, m - 1) + Column(b, nx, ny, m - 1)
  }

  /** The whole tile list create_grid returns when neither count is zero. */
  function Grid(b: Box, nx: int, ny: int): seq<Box>
    requires nx != 0 && ny != 0
  {
    Columns(b, nx, ny, RangeLen(nx))
  }

  /**
   * create_grid: a zero count divides by zero before any tile is built;
   * otherwise the nested loops append the tiles column by column.
   */
  method CreateGrid(bounds: Box, numTilesX: int, numTilesY: int) returns (r: GridResult)
    ensures r.DivisionByZero? <==> numTilesX == 0 || numTilesY == 0
    ensures r.Tiles? ==> r.tiles == Grid(bounds, numTilesX, numTilesY)
  {
    if numTilesX == 0 || numTilesY == 0 {
      return DivisionByZero;
    }
    var lonStep := (bounds.maxX - bounds.minX) / numTilesX as real;
    var latStep := (bounds.maxY - bounds.minY) / numTilesY as real;
    var tiles: seq<Box> := [];
    var i := 0;
    while i < numTilesX
      invariant 0 <= i <= RangeLen(numTilesX)
      invariant tiles == Columns(bounds, numTilesX, numTilesY, i)
    {
      var j := 0;
      while j < numTilesY
        invariant 0 <= j <= RangeLen(numTilesY)
        invariant tiles == Columns(bounds, numTilesX, numTilesY, i)
                           + Column(bounds, numTilesX, numTilesY, i)[..j]
      {
        var tile := Box(bounds.minX + i as real * lonStep, bounds.minY + j as real * latStep,
                        bounds.minX + (i + 1) as real * lonStep, bounds.minY + (j + 1) as real * latStep);
        assert Column(bounds, numTilesX, numTilesY, i)[j] == tile;
        assert Column(bounds, numTilesX, numTilesY, i)[..j + 1]
            == Column(bounds, numTilesX, numTilesY, i)[..j] + [tile];
        tiles := tiles + [tile];
        j := j + 1;
      }
      assert Column(bounds, numTilesX, numTilesY, i)[..j] == Column(bounds, numTilesX, numTilesY, i);
      i := i + 1;
    }
    return Tiles(tiles);
  }

  // ---------------------------------------------------------------------------
  // Counting and indexing

  lemma {:induction false} ColumnsLength(b: Box, nx: int, ny: int, m: nat)
    requires nx != 0 && ny != 0
    ensures |Columns(b, nx, ny, m)| == m * RangeLen(ny)
  {
    if m > 0 {
      ColumnsLength(b, nx, ny, m - 1);
      assert (m - 1) * RangeLen(ny) + RangeLen(ny) == m * RangeLen(ny);
    }
  }

  lemma {:induction false} ColumnsIndex(b: Box, nx: int, ny: int, m: nat, i: int, j: int)
    requires nx != 0 && 0 < ny
    requires 0 <= i < m && 0 <= j < ny
    ensures i * ny + j < |Columns(b, nx, ny, m)|
    ensures Columns(b, nx, ny, m)[i * ny + j] == TileAt(b, nx, ny, i, j)
  {
    ColumnsLength(b, nx, ny, m - 1);
    ColumnsLength(b, nx, ny, m);
    if i < m - 1 {
      ColumnsIndex(b, nx, ny, m - 1, i, j);
    } else {
      assert i * ny + j == (m - 1) * ny + j;
    }
    assert i * ny + j < m * ny by {
      assert i * ny <= (m - 1) * ny;
    }
  }

  /** create_grid returns len(range(nx)) * len(range(ny)) tiles: nx * ny for positive counts. */
  lemma GridSize(b: Box, nx: int, ny: int)
    requires nx != 0 && ny != 0
    ensures |Grid(b, nx, ny)| == RangeLen(nx) * RangeLen(ny)
    ensures 0 < nx && 0 < ny ==> |Grid(b, nx, ny)| == nx * ny
  {
    ColumnsLength(b, nx, ny, RangeLen(nx));
  }

  /**
   * Ordering: the tile at position i * ny + j is the one of column i and row j,
   * with lower-left corner (min_lon + i * lon_step, min_lat + j * lat_step) and
   * upper-right corner (min_lon + (i + 1) * lon_step, min_lat + (j + 1) * lat_step).
   */
  lemma GridIndex(b: Box, nx: int, ny: int, i: int, j: int)
    requires 0 <= i < nx && 0 <= j < ny
    ensures 0 <= i * ny + j < |Grid(b, nx, ny)|
    ensures var lonStep, latStep := (b.maxX - b.minX) / nx as real, (b.maxY - b.minY) / ny as real;
            Grid(b, nx, ny)[i * ny + j]
            == Box(b.minX + i as real * lonStep, b.minY + j as real * latStep,
                   b.minX + (i + 1) as real * lonStep, b.minY + (j + 1) as real * latStep)
  {
    ColumnsIndex(b, nx, ny, nx, i, j);
  }

  /** Every position of the grid is that of some column i and row j. */
  lemma GridPosition(b: Box, nx: int, ny: int, k: int) returns (i: int, j: int)
    requires nx != 0 && ny != 0
    requires 0 <= k < |Grid(b, nx, ny)|
    ensures 0 <= i < nx && 0 <= j < ny && k == i * ny + j
    ensures Grid(b, nx, ny)[k] == TileAt(b, nx, ny, i, j)
  {
    GridSize(b, nx, ny);
    assert 0 < nx && 0 < ny;
    i, j := k / ny, k % ny;
    assert (nx - i) * ny == nx * ny - i * ny;
    PositiveFactor(nx - i, ny);
    ColumnsIndex(b, nx, ny, nx, i, j);
  }

  lemma PositiveFactor(a: int, c: int)
    requires 0 < c && 0 < a * c
    ensures 0 < a
  {
  }

  // ---------------------------------------------------------------------------
  // One axis at a time

  lemma ProductNonneg(a: real, s: real)
    requires 0.0 <= a && 0.0 <= s
    ensures 0.0 <= a * s
  {
  }

  lemma ProductPos(a: real, s: real)
    requires 0.0 < a && 0.0 < s
    ensures 0.0 < a * s
  {
  }

  /** The first cut is lo, the last is hi, and consecutive cuts are one step apart. */
  lemma EdgeEnds(lo: real, hi: real, n: int, i: int)
    requires n != 0
    ensures Edge(lo, hi, n, 0) == lo && Edge(lo, hi, n, n) == hi
    ensures Edge(lo, hi, n, i + 1) - Edge(lo, hi, n, i) == Step(lo, hi, n)
  {
    var s := Step(lo, hi, n);
    assert n as real * s == hi - lo;
    assert (i + 1) as real * s == i as real * s + s;
  }

  /** Cuts move up with their index: weakly on an ordered axis, strictly on a proper one. */
  lemma EdgeMono(lo: real, hi: real, n: int, i: int, i': int)
    requires 0 < n && i <= i' && lo <= hi
    ensures Edge(lo, hi, n, i) <= Edge(lo, hi, n, i')
    ensures lo < hi && i < i' ==> Edge(lo, hi, n, i) < Edge(lo, hi, n, i')
  {
    var s := Step(lo, hi, n);
    assert 0.0 <= s;
    var d := (i' - i) as real;
    assert Edge(lo, hi, n, i') - Edge(lo, hi, n, i) == d * s;
    ProductNonneg(d, s);
    if lo < hi && i < i' {
      ProductPos(d, s);
    }
  }

  /** On an ordered axis, cell i < n lies within [lo, hi]. */
  lemma AxisCell(lo: real, hi: real, n: int, i: int)
    requires 0 <= i < n && lo <= hi
    ensures lo <= Edge(lo, hi, n, i) <= Edge(lo, hi, n, i + 1) <= hi
    ensures lo < hi ==> Edge(lo, hi, n, i) < Edge(lo, hi, n, i + 1)
    ensures Edge(lo, hi, n, i + 1) - Edge(lo, hi, n, i) == Step(lo, hi, n)
  {
    EdgeEnds(lo, hi, n, i);
    EdgeMono(lo, hi, n, 0, i);
    EdgeMono(lo, hi, n, i, i + 1);
    EdgeMono(lo, hi, n, i + 1, n);
  }

  /** Every coordinate of [lo, hi] falls in one of the n cells. */
  lemma AxisCover(lo: real, hi: real, n: int, x: real) returns (i: int)
    requires 0 < n && lo < hi && lo <= x <= hi
    ensures 0 <= i < n
    ensures Edge(lo, hi, n, i) <= x <= Edge(lo, hi, n, i + 1)
  {
    var s := Step(lo, hi, n);
    assert 0.0 < s;
    var q := (x - lo) / s;
    assert q * s == x - lo;
    ProductNonneg(x - lo, 1.0 / s);
    assert 0.0 <= q;
    i := q.Floor;
    if i >= n {
      // then x == hi: the last cell
      assert n as real <= q;
      ProductNonneg(q - n as real, s);
      assert (q - n as real) * s == q * s - n as real * s;
      assert n as real * s == hi - lo;
      i := n - 1;
      EdgeEnds(lo, hi, n, i);
      EdgeMono(lo, hi, n, i, n);
    } else {
      assert 0 <= i;
      assert i as real <= q < (i + 1) as real;
      assert Edge(lo, hi, n, i) == lo + i as real * s;
      assert Edge(lo, hi, n, i + 1) == lo + (i + 1) as real * s;
      ProductNonneg(q - i as real, s);
      assert (q - i as real) * s == q * s - i as real * s;
      ProductNonneg((i + 1) as real - q, s);
      assert ((i + 1) as real - q) * s == (i + 1) as real * s - q * s;
    }
  }

  // ---------------------------------------------------------------------------
  // Properties of the grid

  /**
   * For a box with positive width and height every tile is non-degenerate, has
   * width lon_step and height lat_step, and lies inside the box.
   */
  lemma GridTilesInside(b: Box, nx: int, ny: int, k: int)
    requires Proper(b) && nx != 0 && ny != 0
    requires 0 <= k < |Grid(b, nx, ny)|
    ensures var t := Grid(b, nx, ny)[k];
            && b.minX <= t.minX < t.maxX <= b.maxX
            && b.minY <= t.minY < t.maxY <= b.maxY
            && t.maxX - t.minX == (b.maxX - b.minX) / nx as real
            && t.maxY - t.minY == (b.maxY - b.minY) / ny as real
  {
    var i, j := GridPosition(b, nx, ny, k);
    AxisCell(b.minX, b.maxX, nx, i);
    AxisCell(b.minY, b.maxY, ny, j);
  }

  /**
   * Neighbouring tiles share their edges exactly: the right edge of tile (i, j)
   * is the left edge of tile (i + 1, j), and its top edge is the bottom edge of
   * tile (i, j + 1).
   */
  lemma GridSharedEdges(b: Box, nx: int, ny: int, i: int, j: int)
    requires 0 <= i < nx && 0 <= j < ny
    ensures 0 <= i * ny + j < |Grid(b, nx, ny)|
    ensures i + 1 < nx ==>
              (i + 1) * ny + j < |Grid(b, nx, ny)|
              && Grid(b, nx, ny)[i * ny + j].maxX == Grid(b, nx, ny)[(i + 1) * ny + j].minX
              && Grid(b, nx, ny)[i * ny + j].minY == Grid(b, nx, ny)[(i + 1) * ny + j].minY
              && Grid(b, nx, ny)[i * ny + j].maxY == Grid(b, nx, ny)[(i + 1) * ny + j].maxY
    ensures j + 1 < ny ==>
              i * ny + j + 1 < |Grid(b, nx, ny)|
              && Grid(b, nx, ny)[i * ny + j].maxY == Grid(b, nx, ny)[i * ny + j + 1].minY
              && Grid(b, nx, ny)[i * ny + j].minX == Grid(b, nx, ny)[i * ny + j + 1].minX
              && Grid(b, nx, ny)[i * ny + j].maxX == Grid(b, nx, ny)[i * ny + j + 1].maxX
  {
    ColumnsIndex(b, nx, ny, nx, i, j);
    if i + 1 < nx {
      ColumnsIndex(b, nx, ny, nx, i + 1, j);
    }
    if j + 1 < ny {
      ColumnsIndex(b, nx, ny, nx, i, j + 1);
      assert i * ny + (j + 1) == i * ny + j + 1;
    }
  }

  /**
   * The first tile starts at the box's lower-left corner and the last tile ends
   * at its upper-right corner.
   */
  lemma GridCorners(b: Box, nx: int, ny: int)
    requires 0 < nx && 0 < ny
    ensures |Grid(b, nx, ny)| == nx * ny
    ensures Grid(b, nx, ny)[0].minX == b.minX && Grid(b, nx, ny)[0].minY == b.minY
    ensures Grid(b, nx, ny)[nx * ny - 1].maxX == b.maxX
    ensures Grid(b, nx, ny)[nx * ny - 1].maxY == b.maxY
  {
    GridSize(b, nx, ny);
    ColumnsIndex(b, nx, ny, nx, 0, 0);
    ColumnsIndex(b, nx, ny, nx, nx - 1, ny - 1);
    assert (nx - 1) * ny + (ny - 1) == nx * ny - 1;
    EdgeEnds(b.minX, b.maxX, nx, 0);
    EdgeEnds(b.minY, b.maxY, ny, 0);
  }

  /** No gaps: every point of a proper box lies in some tile of the grid. */
  lemma GridCovers(b: Box, nx: int, ny: int, x: real, y: real) returns (k: int)
    requires Proper(b) && 0 < nx && 0 < ny
    requires Contains(b, x, y)
    ensures 0 <= k < |Grid(b, nx, ny)| && Contains(Grid(b, nx, ny)[k], x, y)
  {
    var i := AxisCover(b.minX, b.maxX, nx, x);
    var j := AxisCover(b.minY, b.maxY, ny, y);
    ColumnsIndex(b, nx, ny, nx, i, j);
    k := i * ny + j;
  }

  /**
   * No overlaps: two different tiles of a proper box are separated along
   * longitude or along latitude, so their interiors are disjoint.
   */
  lemma GridDisjoint(b: Box, nx: int, ny: int, k: int, k': int)
    requires Proper(b) && nx != 0 && ny != 0
    requires 0 <= k < |Grid(b, nx, ny)| && 0 <= k' < |Grid(b, nx, ny)| && k != k'
    ensures var t, t' := Grid(b, nx, ny)[k], Grid(b, nx, ny)[k'];
            t.maxX <= t'.minX || t'.maxX <= t.minX || t.maxY <= t'.minY || t'.maxY <= t.minY
  {
    var i, j := GridPosition(b, nx, ny, k);
    var i', j' := GridPosition(b, nx, ny, k');
    TilesSeparated(b, nx, ny, i, j, i', j');
  }

  lemma TilesSeparated(b: Box, nx: int, ny: int, i: int, j: int, i': int, j': int)
    requires Proper(b) && 0 < nx && 0 < ny && (i != i' || j != j')
    ensures var t, t' := TileAt(b, nx, ny, i, j), TileAt(b, nx, ny, i', j');
            t.maxX <= t'.minX || t'.maxX <= t.minX || t.maxY <= t'.minY || t'.maxY <= t.minY
  {
    if i < i' {
      EdgeMono(b.minX, b.maxX, nx, i + 1, i');
    } else if i' < i {
      EdgeMono(b.minX, b.maxX, nx, i' + 1, i);
    } else if j < j' {
      EdgeMono(b.minY, b.maxY, ny, j + 1, j');
    } else {
      EdgeMono(b.minY, b.maxY, ny, j' + 1, j);
    }
  }

  /** A negative count makes range() empty, so create_grid returns no tiles. */
  lemma GridEmptyForNegativeCount(b: Box, nx: int, ny: int)
    requires nx != 0 && ny != 0 && (nx < 0 || ny < 0)
    ensures Grid(b, nx, ny) == []
  {
    GridSize(b, nx, ny);
  }
}
