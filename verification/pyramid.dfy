/** The layout of the tile pyramid: how many levels, how many columns and rows per
    level, which canvas each level is drawn on, which rectangle each tile is cut
    from, and the order in which the tiles are produced. */
module Pyramid {
  import opened TileMath

  /** Directory label of level 0 (original size); level z is written under TopZoom - z. */
  const TopZoom: int := 20

  /** An integer rectangle: offset (x, y) and size width x height, in pixels. */
  datatype Rect = Rect(x: int, y: int, width: int, height: int)

  /** The settings a tiling run reads from a TileUp object. */
  datatype Plan = Plan(imageWidth: int, imageHeight: int, tileWidth: int, tileHeight: int,
                       zoomLevels: int, extended: bool)
  {
    predicate Valid()
    {
      imageWidth >= 1 && imageHeight >= 1 && tileWidth >= 1 && tileHeight >= 1 && zoomLevels >= 1
    }
  }

  /** Tile (z, i, j): column i and row j of level z, cut from `rect` of that level's canvas. */
  datatype Tile = Tile(level: nat, col: nat, row: nat, rect: Rect)

  /** The raster of one level: the image scaled by 1 / 2^level, drawn at the origin of a
      blank raster of width x height pixels. Pixel contents are not modelled. */
  datatype Canvas = Canvas(level: nat, width: int, height: int)

  /** The part of a level canvas handed to the image writer. */
  datatype TileImage = TileImage(level: nat, region: Rect)

  function ZoomLabel(z: nat): int
  {
    TopZoom - z
  }

  /** Width of the footprint of one tile of level z in original-image pixels. */
  function Span(size: int, z: nat): (d: int)
    requires size >= 1
    ensures d >= size
  {
    ScaledAtLeast(size, z);
    size * Pow2(z)
  }

  /** Number of columns of level z: ceil(W / (tw * 2^z)). */
  function Columns(p: Plan, z: nat): nat
    requires p.Valid()
  {
    CeilDiv(p.imageWidth, Span(p.tileWidth, z))
  }

  /** Number of rows of level z: ceil(H / (th * 2^z)). */
  function Rows(p: Plan, z: nat): nat
    requires p.Valid()
  {
    CeilDiv(p.imageHeight, Span(p.tileHeight, z))
  }

  /** The tile count announced before any tile is written: the sum over levels z < n of
      Columns(z) * Rows(z). */
  function Total(p: Plan, n: nat): nat
    requires p.Valid()
  {
    if n == 0 then 0 else Total(p, n - 1) + Columns(p, n - 1) * Rows(p, n - 1)
  }

  /** The canvas of level z: padded to whole tiles of the unscaled image when extended,
      otherwise the size of the original image. */
  function LevelCanvas(p: Plan, z: nat): Canvas
    requires p.Valid()
  {
    if p.extended then
      Canvas(z, CeilDiv(p.imageWidth, p.tileWidth) * p.tileWidth,
                CeilDiv(p.imageHeight, p.tileHeight) * p.tileHeight)
    else
      Canvas(z, p.imageWidth, p.imageHeight)
  }

  /** The rectangle of tile (i, j): full size when extended, otherwise clipped to the image. */
  function TileRect(p: Plan, i: nat, j: nat): Rect
  {
    var x, y := i * p.tileWidth, j * p.tileHeight;
    if p.extended then
      Rect(x, y, p.tileWidth, p.tileHeight)
    else
      Rect(x, y, Min(p.tileWidth, p.imageWidth - x), Min(p.tileHeight, p.imageHeight - y))
  }

  /** A non-empty region that lies inside the canvas: what a sub-image request needs. */
  predicate Contains(c: Canvas, r: Rect)
  {
    0 <= r.x && 0 <= r.y && 1 <= r.width && 1 <= r.height &&
    r.x + r.width <= c.width && r.y + r.height <= c.height
  }

  /** The sub-image of a canvas; the region must lie inside it. */
  function SubImage(c: Canvas, r: Rect): (img: TileImage)
    requires Contains(c, r)
    ensures img.level == c.level && img.region == r
  {
    TileImage(c.level, r)
  }

  /** Rows 0 .. n-1 of column i of level z, top to bottom. */
  function ColumnTiles(p: Plan, z: nat, i: nat, n: nat): seq<Tile>
  {
    if n == 0 then [] else ColumnTiles(p, z, i, n - 1) + [Tile(z, i, n - 1, TileRect(p, i, n - 1))]
  }

  /** Columns 0 .. m-1 of level z, left to right, each column top to bottom. */
  function LevelTiles(p: Plan, z: nat, m: nat): seq<Tile>
    requires p.Valid()
  {
    if m == 0 then [] else LevelTiles(p, z, m - 1) + ColumnTiles(p, z, m - 1, Rows(p, z))
  }

  /** All tiles of levels 0 .. n-1, in the order they are produced. */
  function PyramidTiles(p: Plan, n: nat): seq<Tile>
    requires p.Valid()
  {
    if n == 0 then [] else PyramidTiles(p, n - 1) + LevelTiles(p, n - 1, Columns(p, n - 1))
  }

  /** Position of tile (i, j) within its level in column-major order. */
  function GridIndex(p: Plan, z: nat, i: nat, j: nat): int
    requires p.Valid()
  {
    i * Rows(p, z) + j
  }

  /** s comes before t: lexicographic on (level, column, row). */
  predicate Precedes(s: Tile, t: Tile)
  {
    s.level < t.level ||
    (s.level == t.level && (s.col < t.col || (s.col == t.col && s.row < t.row)))
  }

  predicate Ordered(ts: seq<Tile>)
  {
    forall a, b :: 0 <= a < b < |ts| ==> Precedes(ts[a], ts[b])
  }

  // ---------------------------------------------------------------------------
  // The grid of one level

  /** A column holds rows 0 .. n-1 of that column, in order. */
  lemma {:induction false} ColumnTilesShape(p: Plan, z: nat, i: nat, n: nat)
    ensures |ColumnTiles(p, z, i, n)| == n
    ensures forall j :: 0 <= j < n ==> ColumnTiles(p, z, i, n)[j] == Tile(z, i, j, TileRect(p, i, j))
  {
    if n > 0 {
      ColumnTilesShape(p, z, i, n - 1);
    }
  }

  /** Level z with m columns has m * Rows(z) tiles. */
  lemma {:induction false} LevelTilesLength(p: Plan, z: nat, m: nat)
    requires p.Valid()
    ensures |LevelTiles(p, z, m)| == m * Rows(p, z)
  {
    if m > 0 {
      LevelTilesLength(p, z, m - 1);
      ColumnTilesShape(p, z, m - 1, Rows(p, z));
      MulSucc(m - 1, Rows(p, z));
    }
  }

  /** Cell (i, j) of the first m columns of level z sits at position i * Rows(z) + j. */
  lemma {:induction false} LevelTilesAt(p: Plan, z: nat, m: nat, i: nat, j: nat)
    requires p.Valid() && i < m && j < Rows(p, z)
    ensures 0 <= GridIndex(p, z, i, j) < |LevelTiles(p, z, m)|
    ensures LevelTiles(p, z, m)[GridIndex(p, z, i, j)] == Tile(z, i, j, TileRect(p, i, j))
  {
    var r := Rows(p, z);
    var prev := LevelTiles(p, z, m - 1);
    LevelTilesLength(p, z, m - 1);
    LevelTilesLength(p, z, m);
    ColumnTilesShape(p, z, m - 1, r);
    var k := GridIndex(p, z, i, j);
    assert 0 <= i * r;
    if i < m - 1 {
      LevelTilesAt(p, z, m - 1, i, j);
      assert LevelTiles(p, z, m)[k] == prev[k];
    } else {
      assert k == |prev| + j;
    }
  }

  /** Level z with m columns has m * Rows(z) tiles, tile (i, j) at position i * Rows(z) + j. */
  lemma LevelTilesShape(p: Plan, z: nat, m: nat)
    requires p.Valid()
    ensures |LevelTiles(p, z, m)| == m * Rows(p, z)
    ensures forall i, j :: 0 <= i < m && 0 <= j < Rows(p, z) ==>
              0 <= GridIndex(p, z, i, j) < |LevelTiles(p, z, m)| &&
              LevelTiles(p, z, m)[GridIndex(p, z, i, j)] == Tile(z, i, j, TileRect(p, i, j))
  {
    LevelTilesLength(p, z, m);
    forall i, j | 0 <= i < m && 0 <= j < Rows(p, z)
      ensures 0 <= GridIndex(p, z, i, j) < |LevelTiles(p, z, m)|
      ensures LevelTiles(p, z, m)[GridIndex(p, z, i, j)] == Tile(z, i, j, TileRect(p, i, j))
    {
      LevelTilesAt(p, z, m, i, j);
    }
  }

  /** Every tile of a column sits in that column of level z, below row n, with its rectangle. */
  lemma ColumnTilesMembers(p: Plan, z: nat, i: nat, n: nat)
    ensures forall t :: t in ColumnTiles(p, z, i, n) ==>
              t.level == z && t.col == i && t.row < n && t.rect == TileRect(p, t.col, t.row)
  {
    ColumnTilesShape(p, z, i, n);
  }

  /** Every tile of the first m columns of level z is a grid cell (i, j) with i < m and
      j < Rows(z), carrying its own rectangle. */
  lemma {:induction false} LevelTilesMembers(p: Plan, z: nat, m: nat)
    requires p.Valid()
    ensures forall t :: t in LevelTiles(p, z, m) ==>
              t.level == z && t.col < m && t.row < Rows(p, z) && t.rect == TileRect(p, t.col, t.row)
  {
    if m > 0 {
      LevelTilesMembers(p, z, m - 1);
      ColumnTilesMembers(p, z, m - 1, Rows(p, z));
    }
  }

  lemma OrderedConcat(a: seq<Tile>, b: seq<Tile>)
    requires Ordered(a) && Ordered(b)
    requires forall s, t :: s in a && t in b ==> Precedes(s, t)
    ensures Ordered(a + b)
  {
    forall x, y | 0 <= x < y < |a + b|
      ensures Precedes((a + b)[x], (a + b)[y])
    {
      if y < |a| {
        assert Precedes(a[x], a[y]);
      } else if x >= |a| {
        assert Precedes(b[x - |a|], b[y - |a|]);
      } else {
        assert a[x] in a && b[y - |a|] in b;
      }
    }
  }

  /** Within a level, tiles come column by column (i outer) and top to bottom (j inner). */
  lemma {:induction false} LevelTilesOrdered(p: Plan, z: nat, m: nat)
    requires p.Valid()
    ensures Ordered(LevelTiles(p, z, m))
  {
    if m > 0 {
      var r := Rows(p, z);
      LevelTilesOrdered(p, z, m - 1);
      LevelTilesMembers(p, z, m - 1);
      ColumnTilesShape(p, z, m - 1, r);
      ColumnTilesMembers(p, z, m - 1, r);
      OrderedConcat(LevelTiles(p, z, m - 1), ColumnTiles(p, z, m - 1, r));
    }
  }

  // ---------------------------------------------------------------------------
  // The whole pyramid

  /** Levels 0 .. n-1 produce Total(n) tiles: the announced total is the number produced. */
  lemma {:induction false} PyramidSize(p: Plan, n: nat)
    requires p.Valid()
    ensures |PyramidTiles(p, n)| == Total(p, n)
  {
    if n > 0 {
      PyramidSize(p, n - 1);
      LevelTilesLength(p, n - 1, Columns(p, n - 1));
    }
  }

  /** A tile is produced by levels 0 .. n-1 exactly when it is cell (i, j) of a level
      z < n with i < Columns(z) and j < Rows(z), carrying the rectangle of that cell. */
  lemma {:induction false} PyramidTilesMembers(p: Plan, n: nat, t: Tile)
    requires p.Valid()
    ensures t in PyramidTiles(p, n) <==>
              t.level < n && t.col < Columns(p, t.level) && t.row < Rows(p, t.level) &&
              t.rect == TileRect(p, t.col, t.row)
  {
    if n > 0 {
      var z := n - 1;
      PyramidTilesMembers(p, z, t);
      LevelTilesMembers(p, z, Columns(p, z));
      if t.level == z && t.col < Columns(p, z) && t.row < Rows(p, z) && t.rect == TileRect(p, t.col, t.row) {
        LevelTilesAt(p, z, Columns(p, z), t.col, t.row);
      }
    }
  }

  /** The pyramid comes level by level, each level in column-major order; in particular
      no tile (z, i, j) is produced twice. */
  lemma {:induction false} PyramidTilesOrdered(p: Plan, n: nat)
    requires p.Valid()
    ensures Ordered(PyramidTiles(p, n))
  {
    if n > 0 {
      var z := n - 1;
      PyramidTilesOrdered(p, z);
      LevelTilesOrdered(p, z, Columns(p, z));
      LevelTilesMembers(p, z, Columns(p, z));
      forall t | t in PyramidTiles(p, z)
        ensures t.level < z
      {
        PyramidTilesMembers(p, z, t);
      }
      OrderedConcat(PyramidTiles(p, z), LevelTiles(p, z, Columns(p, z)));
    }
  }

  lemma PrefixTrans(a: seq<Tile>, b: seq<Tile>, c: seq<Tile>)
    requires a <= b && b <= c
    ensures a <= c
  {
    assert c[..|a|] == b[..|a|];
  }

  lemma {:induction false} ColumnTilesPrefix(p: Plan, z: nat, i: nat, n: nat, n': nat)
    requires n <= n'
    ensures ColumnTiles(p, z, i, n) <= ColumnTiles(p, z, i, n')
  {
    if n < n' {
      ColumnTilesPrefix(p, z, i, n, n' - 1);
      PrefixTrans(ColumnTiles(p, z, i, n), ColumnTiles(p, z, i, n' - 1), ColumnTiles(p, z, i, n'));
    }
  }

  lemma {:induction false} LevelTilesPrefix(p: Plan, z: nat, m: nat, m': nat)
    requires p.Valid() && m <= m'
    ensures LevelTiles(p, z, m) <= LevelTiles(p, z, m')
  {
    if m < m' {
      LevelTilesPrefix(p, z, m, m' - 1);
      PrefixTrans(LevelTiles(p, z, m), LevelTiles(p, z, m' - 1), LevelTiles(p, z, m'));
    }
  }

  lemma {:induction false} PyramidTilesPrefix(p: Plan, n: nat, n': nat)
    requires p.Valid() && n <= n'
    ensures PyramidTiles(p, n) <= PyramidTiles(p, n')
  {
    if n < n' {
      PyramidTilesPrefix(p, n, n' - 1);
      PrefixTrans(PyramidTiles(p, n), PyramidTiles(p, n' - 1), PyramidTiles(p, n'));
    }
  }

  /** The loops' next step stays within the plan: the tiles so far, followed by the next
      row, column or level, are a prefix of the whole column, level or pyramid. */
  lemma ColumnTilesNext(p: Plan, z: nat, i: nat, j: nat, n: nat)
    requires j < n
    ensures |ColumnTiles(p, z, i, j)| == j
    ensures ColumnTiles(p, z, i, j) + [Tile(z, i, j, TileRect(p, i, j))] <= ColumnTiles(p, z, i, n)
  {
    ColumnTilesShape(p, z, i, j);
    ColumnTilesPrefix(p, z, i, j + 1, n);
  }

  lemma LevelTilesNext(p: Plan, z: nat, i: nat, m: nat)
    requires p.Valid() && i < m
    ensures LevelTiles(p, z, i) + ColumnTiles(p, z, i, Rows(p, z)) <= LevelTiles(p, z, m)
  {
    LevelTilesPrefix(p, z, i + 1, m);
  }

  lemma PyramidTilesNext(p: Plan, z: nat, n: nat)
    requires p.Valid() && z < n
    ensures PyramidTiles(p, z) + LevelTiles(p, z, Columns(p, z)) <= PyramidTiles(p, n)
  {
    PyramidTilesPrefix(p, z + 1, n);
  }

  /** The guard i * tw * 2^z < W of the column loop holds exactly for the Columns(z) columns. */
  lemma ColumnGuard(p: Plan, z: nat, i: int)
    requires p.Valid() && i >= 0
    ensures i * p.tileWidth * Pow2(z) < p.imageWidth <==> i < Columns(p, z)
  {
    MulAssoc(i, p.tileWidth, Pow2(z));
    CeilDivCounts(p.imageWidth, Span(p.tileWidth, z), i);
  }

  /** The guard j * th * 2^z < H of the row loop holds exactly for the Rows(z) rows. */
  lemma RowGuard(p: Plan, z: nat, j: int)
    requires p.Valid() && j >= 0
    ensures j * p.tileHeight * Pow2(z) < p.imageHeight <==> j < Rows(p, z)
  {
    MulAssoc(j, p.tileHeight, Pow2(z));
    CeilDivCounts(p.imageHeight, Span(p.tileHeight, z), j);
  }

  // ---------------------------------------------------------------------------
  // Tile rectangles

  /** A column or row of level z starts inside the original image. */
  lemma CellStartsInImage(size: int, extent: int, z: nat, i: nat)
    requires size >= 1 && extent >= 1 && i < CeilDiv(extent, Span(size, z))
    ensures i * size < extent
    ensures i < CeilDiv(extent, size)
  {
    CeilDivCounts(extent, Span(size, z), i);
    MulAssoc(i, size, Pow2(z));
    ScaledAtLeast(i * size, z);
    CeilDivCounts(extent, size, i);
  }

  /** Every tile of level z is a non-empty region inside that level's canvas, so the
      sub-image request for it is always valid. */
  lemma TileRectInsideCanvas(p: Plan, z: nat, i: nat, j: nat)
    requires p.Valid() && i < Columns(p, z) && j < Rows(p, z)
    ensures Contains(LevelCanvas(p, z), TileRect(p, i, j))
  {
    CellInsideAxis(p.tileWidth, p.imageWidth, z, i);
    CellInsideAxis(p.tileHeight, p.imageHeight, z, j);
  }

  /** One axis of TileRectInsideCanvas: the padded cell and the clipped cell both fit. */
  lemma CellInsideAxis(size: int, extent: int, z: nat, i: nat)
    requires size >= 1 && extent >= 1 && i < CeilDiv(extent, Span(size, z))
    ensures 0 <= i * size
    ensures i * size + size <= CeilDiv(extent, size) * size
    ensures 1 <= Min(size, extent - i * size) && i * size + Min(size, extent - i * size) <= extent
  {
    CellStartsInImage(size, extent, z, i);
    MulMonotone(i + 1, CeilDiv(extent, size), size);
  }

  /** A tile of level z starts at (i * tw, j * th) and is at most tw x th; it is exactly
      tw x th when extended, and a clipped tile only occurs in the last column or row. */
  lemma TileRectSize(p: Plan, z: nat, i: nat, j: nat)
    requires p.Valid() && i < Columns(p, z) && j < Rows(p, z)
    ensures var r := TileRect(p, i, j);
      r.x == i * p.tileWidth && r.y == j * p.tileHeight &&
      1 <= r.width <= p.tileWidth && 1 <= r.height <= p.tileHeight &&
      (p.extended ==> r.width == p.tileWidth && r.height == p.tileHeight) &&
      (r.width < p.tileWidth ==> i == Columns(p, z) - 1) &&
      (r.height < p.tileHeight ==> j == Rows(p, z) - 1)
  {
    CellSizeAxis(p.tileWidth, p.imageWidth, z, i);
    CellSizeAxis(p.tileHeight, p.imageHeight, z, j);
  }

  /** One axis of TileRectSize: a clipped cell is non-empty, at most one tile wide, and
      narrower than a tile only in the last cell of the level. */
  lemma CellSizeAxis(size: int, extent: int, z: nat, i: nat)
    requires size >= 1 && extent >= 1 && i < CeilDiv(extent, Span(size, z))
    ensures 1 <= Min(size, extent - i * size) <= size
    ensures Min(size, extent - i * size) < size ==> i == CeilDiv(extent, Span(size, z)) - 1
  {
    CellStartsInImage(size, extent, z, i);
    if extent - i * size < size {
      LastCell(size, extent, z, i);
    }
  }

  /** A cell that reaches past the end of the image is the last one of its level. */
  lemma LastCell(size: int, extent: int, z: nat, i: nat)
    requires size >= 1 && extent >= 1 && i < CeilDiv(extent, Span(size, z))
    requires extent < (i + 1) * size
    ensures i == CeilDiv(extent, Span(size, z)) - 1
  {
    var s := Span(size, z);
    MulMonotone(size, s, i + 1);
    CeilDivCounts(extent, s, i + 1);
  }

  /** When the tile size divides the image, a cell inside the image is a whole tile. */
  lemma WholeCell(size: int, extent: int, i: nat)
    requires size >= 1 && extent >= 1 && extent % size == 0 && i * size < extent
    ensures extent - i * size >= size
  {
    var q := extent / size;
    assert extent == q * size;
    if q <= i {
      MulMonotone(q, i, size);
    }
    MulMonotone(i + 1, q, size);
  }

  /** When tw divides W and th divides H, extension changes neither the canvas nor any
      tile of any level. */
  lemma ExactFitTileRect(p: Plan, z: nat, i: nat, j: nat)
    requires p.Valid() && i < Columns(p, z) && j < Rows(p, z)
    requires p.imageWidth % p.tileWidth == 0 && p.imageHeight % p.tileHeight == 0
    ensures TileRect(p.(extended := true), i, j) == TileRect(p.(extended := false), i, j)
    ensures LevelCanvas(p.(extended := true), z).width == p.imageWidth
    ensures LevelCanvas(p.(extended := true), z).height == p.imageHeight
  {
    CellStartsInImage(p.tileWidth, p.imageWidth, z, i);
    CellStartsInImage(p.tileHeight, p.imageHeight, z, j);
    WholeCell(p.tileWidth, p.imageWidth, i);
    WholeCell(p.tileHeight, p.imageHeight, j);
    ExactCeil(p.imageWidth, p.tileWidth);
    ExactCeil(p.imageHeight, p.tileHeight);
  }

  lemma ExactCeil(a: int, d: int)
    requires a >= 1 && d >= 1 && a % d == 0
    ensures CeilDiv(a, d) * d == a
  {
    var q := a / d;
    assert a == q * d;
    var r := CeilDiv(a, d);
    if r < q {
      MulMonotone(r, q - 1, d);
    } else if r > q {
      MulMonotone(q, r - 1, d);
    }
  }

  /** When tw divides W and th divides H, the extended and the clipped run produce the
      same tiles, in the same order. */
  lemma {:induction false} ExactFitSamePyramid(p: Plan, n: nat)
    requires p.Valid()
    requires p.imageWidth % p.tileWidth == 0 && p.imageHeight % p.tileHeight == 0
    ensures PyramidTiles(p.(extended := true), n) == PyramidTiles(p.(extended := false), n)
  {
    if n > 0 {
      ExactFitSamePyramid(p, n - 1);
      ExactFitSameLevel(p, n - 1, Columns(p, n - 1));
    }
  }

  lemma {:induction false} ExactFitSameLevel(p: Plan, z: nat, m: nat)
    requires p.Valid() && m <= Columns(p, z)
    requires p.imageWidth % p.tileWidth == 0 && p.imageHeight % p.tileHeight == 0
    ensures LevelTiles(p.(extended := true), z, m) == LevelTiles(p.(extended := false), z, m)
  {
    if m > 0 {
      ExactFitSameLevel(p, z, m - 1);
      ExactFitSameColumn(p, z, m - 1, Rows(p, z));
    }
  }

  lemma {:induction false} ExactFitSameColumn(p: Plan, z: nat, i: nat, n: nat)
    requires p.Valid() && i < Columns(p, z) && n <= Rows(p, z)
    requires p.imageWidth % p.tileWidth == 0 && p.imageHeight % p.tileHeight == 0
    ensures ColumnTiles(p.(extended := true), z, i, n) == ColumnTiles(p.(extended := false), z, i, n)
  {
    if n > 0 {
      ExactFitSameColumn(p, z, i, n - 1);
      ExactFitTileRect(p, z, i, n - 1);
    }
  }

  // ---------------------------------------------------------------------------
  // A worked example

  /** A 300 x 300 image cut into 200 x 200 tiles on two levels: level 0 has 2 x 2 tiles,
      level 1 (one tile spans 400 pixels) has one, 5 in all. Extended, the canvas is
      400 x 400 and the corner tile is a full 200 x 200; clipped, the canvas stays
      300 x 300 and the corner tile is 100 x 100. */
  lemma ThreeHundredSquareExample()
    ensures var p := Plan(300, 300, 200, 200, 2, true);
      Columns(p, 0) == 2 && Rows(p, 0) == 2 && Columns(p, 1) == 1 && Rows(p, 1) == 1 &&
      Total(p, 2) == 5 && LevelCanvas(p, 0) == Canvas(0, 400, 400) &&
      TileRect(p, 1, 1) == Rect(200, 200, 200, 200)
    ensures var q := Plan(300, 300, 200, 200, 2, false);
      LevelCanvas(q, 1) == Canvas(1, 300, 300) && TileRect(q, 1, 1) == Rect(200, 200, 100, 100)
  {
    assert Span(200, 1) == 400;
  }
}
