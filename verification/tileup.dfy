/** The TileUp object: its settings, the setters that clamp them, the automatic choice
    of the number of zoom levels, and the tiling run that cuts every level into tiles and
    reports each one to a callback. */
module TileUp {
  import opened TileMath
  import opened Pyramid
  import opened Reporting

  /** Tile width and height used when the caller gives none. */
  const DefaultTileSize: int := 256

  /** The level count setAutoZoom stores: the larger bit length of the image width and the
      image height, each measured in tile WIDTHS, and at least 1. */
  function AutoZoomLevels(imageWidth: int, imageHeight: int, tileWidth: int): int
    requires tileWidth >= 1
  {
    Max(1, Max(BitLength(imageWidth / tileWidth), BitLength(imageHeight / tileWidth)))
  }

  /** One axis of the automatic level count: with k = BitLength(extent / tw), a tile widened
      2^k times covers the extent, and one widened 2^k' times for any k' < k does not exceed it. */
  lemma AxisZoom(extent: int, tw: int)
    requires extent >= 0 && tw >= 1
    ensures extent < tw * Pow2(BitLength(extent / tw))
    ensures forall k :: 0 <= k < BitLength(extent / tw) ==> tw * Pow2(k) <= extent
  {
    AxisZoomCovers(extent, tw);
    forall k | 0 <= k < BitLength(extent / tw)
      ensures tw * Pow2(k) <= extent
    {
      BitLengthIsLeastExponent(extent / tw);
      AxisZoomBelow(extent, tw, Pow2(k));
    }
  }

  lemma AxisZoomCovers(extent: int, tw: int)
    requires extent >= 0 && tw >= 1
    ensures extent < tw * Pow2(BitLength(extent / tw))
  {
    var t := extent / tw;
    BitLengthIsLeastExponent(t);
    DivBounds(extent, tw);
    CoverStep(extent, tw, t, Pow2(BitLength(t)));
  }

  lemma CoverStep(extent: int, tw: int, t: int, scale: int)
    requires tw >= 1 && extent < (t + 1) * tw && t + 1 <= scale
    ensures extent < tw * scale
  {
    MulMonotone(t + 1, scale, tw);
  }

  lemma AxisZoomBelow(extent: int, tw: int, s: int)
    requires extent >= 0 && tw >= 1 && s <= extent / tw
    ensures tw * s <= extent
  {
    DivBounds(extent, tw);
    MulMonotone(s, extent / tw, tw);
  }

  /** The level count setAutoZoom chooses is the least n >= 1 at which one tile, widened
      2^n times, covers both the image width and the image height (both measured with the
      tile width): below it, the top level never spans less than one tile width on some axis. */
  lemma AutoZoomIsLeastCoveringCount(imageWidth: int, imageHeight: int, tileWidth: int)
    requires imageWidth >= 1 && imageHeight >= 1 && tileWidth >= 1
    ensures var n := AutoZoomLevels(imageWidth, imageHeight, tileWidth);
      n >= 1 &&
      imageWidth < tileWidth * Pow2(n) && imageHeight < tileWidth * Pow2(n) &&
      forall n' :: 1 <= n' < n ==> tileWidth * Pow2(n') <= imageWidth || tileWidth * Pow2(n') <= imageHeight
  {
    var n := AutoZoomLevels(imageWidth, imageHeight, tileWidth);
    var kw, kh := BitLength(imageWidth / tileWidth), BitLength(imageHeight / tileWidth);
    AxisZoom(imageWidth, tileWidth);
    AxisZoom(imageHeight, tileWidth);
    Pow2Monotone(kw, n);
    Pow2Monotone(kh, n);
    MulMonotone(Pow2(kw), Pow2(n), tileWidth);
    MulMonotone(Pow2(kh), Pow2(n), tileWidth);
  }

  /** The 1000 x 1000 image with 256-pixel tiles gets 2 levels: 1000 / 256 = 3 tiles per
      axis, and 3 needs two binary digits. */
  lemma AutoZoomThousandSquare()
    ensures AutoZoomLevels(1000, 1000, 256) == 2
  {
    assert BitLength(3) == 1 + BitLength(1) == 2;
  }

  /** The height is measured in tile widths: a 256 x 1024 image with 256 x 64 tiles gets 3
      levels, and its top level still has 4 rows of tiles. */
  lemma AutoZoomMeasuresHeightInTileWidths()
    ensures AutoZoomLevels(256, 1024, 256) == 3
    ensures Rows(Plan(256, 1024, 256, 64, 3, true), 2) == 4
  {
    assert BitLength(4) == 1 + BitLength(2) == 2 + BitLength(1) == 3;
    assert BitLength(1) == 1;
    assert Span(64, 2) == 256;
  }

  class TileUp {
    var imageWidth: int
    var imageHeight: int
    var tileWidth: int
    var tileHeight: int
    var zoomLevels: int
    var prefix: string
    var outDir: string
    var extended: bool

    /** The settings a run reads. */
    function Settings(): Plan
      reads this
    {
      Plan(imageWidth, imageHeight, tileWidth, tileHeight, zoomLevels, extended)
    }

    /** The object invariant: a decoded image has a positive size, and the setters keep the
        tile size and the level count at least 1. */
    ghost predicate Valid()
      reads this
    {
      Settings().Valid()
    }

    /** The full constructor; the image is given by its decoded width and height. */
    constructor (imageWidth: int, imageHeight: int, outDir: string, prefix: string,
                 tileWidth: int, tileHeight: int, zoomLevels: int, extended: bool)
      requires imageWidth >= 1 && imageHeight >= 1
      ensures Valid()
      ensures this.imageWidth == imageWidth && this.imageHeight == imageHeight
      ensures this.outDir == outDir && this.prefix == prefix
      ensures this.tileWidth == Max(1, tileWidth) && this.tileHeight == Max(1, tileHeight)
      ensures this.zoomLevels == Max(1, zoomLevels) && this.extended == extended
    {
      this.imageWidth := imageWidth;
      this.imageHeight := imageHeight;
      this.outDir := outDir;
      this.prefix := prefix;
      this.tileWidth := Max(1, tileWidth);
      this.tileHeight := Max(1, tileHeight);
      this.zoomLevels := Max(1, zoomLevels);
      this.extended := extended;
    }

    /** The image alone: current directory, no prefix, 256 x 256 tiles, one level, extended. */
    constructor FromImage(imageWidth: int, imageHeight: int)
      requires imageWidth >= 1 && imageHeight >= 1
      ensures Valid()
      ensures this.imageWidth == imageWidth && this.imageHeight == imageHeight
      ensures outDir == "" && prefix == ""
      ensures tileWidth == DefaultTileSize && tileHeight == DefaultTileSize
      ensures zoomLevels == 1 && extended
    {
      this.imageWidth := imageWidth;
      this.imageHeight := imageHeight;
      outDir := "";
      prefix := "";
      tileWidth := DefaultTileSize;
      tileHeight := DefaultTileSize;
      zoomLevels := 1;
      extended := true;
    }

    /** Image, output directory and prefix: 256 x 256 tiles, one level, extended. */
    constructor WithOutput(imageWidth: int, imageHeight: int, outDir: string, prefix: string)
      requires imageWidth >= 1 && imageHeight >= 1
      ensures Valid()
      ensures this.imageWidth == imageWidth && this.imageHeight == imageHeight
      ensures this.outDir == outDir && this.prefix == prefix
      ensures tileWidth == DefaultTileSize && tileHeight == DefaultTileSize
      ensures zoomLevels == 1 && extended
    {
      this.imageWidth := imageWidth;
      this.imageHeight := imageHeight;
      this.outDir := outDir;
      this.prefix := prefix;
      tileWidth := DefaultTileSize;
      tileHeight := DefaultTileSize;
      zoomLevels := 1;
      extended := true;
    }

    /** Image, output, prefix and tile size: one level, extended. */
    constructor WithTileSize(imageWidth: int, imageHeight: int, outDir: string, prefix: string,
                             tileWidth: int, tileHeight: int)
      requires imageWidth >= 1 && imageHeight >= 1
      ensures Valid()
      ensures this.imageWidth == imageWidth && this.imageHeight == imageHeight
      ensures this.outDir == outDir && this.prefix == prefix
      ensures this.tileWidth == Max(1, tileWidth) && this.tileHeight == Max(1, tileHeight)
      ensures zoomLevels == 1 && extended
    {
      this.imageWidth := imageWidth;
      this.imageHeight := imageHeight;
      this.outDir := outDir;
      this.prefix := prefix;
      this.tileWidth := Max(1, tileWidth);
      this.tileHeight := Max(1, tileHeight);
      zoomLevels := 1;
      extended := true;
    }

    /** Image, output, prefix, tile size and level count: extended. */
    constructor WithZoomLevels(imageWidth: int, imageHeight: int, outDir: string, prefix: string,
                               tileWidth: int, tileHeight: int, zoomLevels: int)
      requires imageWidth >= 1 && imageHeight >= 1
      ensures Valid()
      ensures this.imageWidth == imageWidth && this.imageHeight == imageHeight
      ensures this.outDir == outDir && this.prefix == prefix
      ensures this.tileWidth == Max(1, tileWidth) && this.tileHeight == Max(1, tileHeight)
      ensures this.zoomLevels == Max(1, zoomLevels) && extended
    {
      this.imageWidth := imageWidth;
      this.imageHeight := imageHeight;
      this.outDir := outDir;
      this.prefix := prefix;
      this.tileWidth := Max(1, tileWidth);
      this.tileHeight := Max(1, tileHeight);
      this.zoomLevels := Max(1, zoomLevels);
      extended := true;
    }

    method SetPrefix(prefix: string)
      requires Valid()
      modifies this`prefix
      ensures Valid()
      ensures this.prefix == prefix
    {
      this.prefix := prefix;
    }

    method SetOutDir(outDir: string)
      requires Valid()
      modifies this`outDir
      ensures Valid()
      ensures this.outDir == outDir
    {
      this.outDir := outDir;
    }

    /** Stores the tile width, raised to 1 if smaller. */
    method SetTileWidth(tileWidth: int)
      requires Valid()
      modifies this`tileWidth
      ensures Valid()
      ensures this.tileWidth == Max(1, tileWidth)
    {
      this.tileWidth := Max(1, tileWidth);
    }

    /** Stores the tile height, raised to 1 if smaller. */
    method SetTileHeight(tileHeight: int)
      requires Valid()
      modifies this`tileHeight
      ensures Valid()
      ensures this.tileHeight == Max(1, tileHeight)
    {
      this.tileHeight := Max(1, tileHeight);
    }

    /** Stores the level count, raised to 1 if smaller; 1 means the original size only. */
    method SetZoomLevels(zoomLevels: int)
      requires Valid()
      modifies this`zoomLevels
      ensures Valid()
      ensures this.zoomLevels == Max(1, zoomLevels)
    {
      this.zoomLevels := Max(1, zoomLevels);
    }

    method SetExtended(extended: bool)
      requires Valid()
      modifies this`extended
      ensures Valid()
      ensures this.extended == extended
    {
      this.extended := extended;
    }

    /** The least k >= 0 with 2^k > tiles, found by doubling: 0 when tiles < 1, otherwise
        floor(log2 tiles) + 1. */
    static method GetZoom(tiles: int) returns (k: nat)
      ensures Pow2(k) > tiles
      ensures forall k' :: 0 <= k' < k ==> Pow2(k') <= tiles
      ensures k == BitLength(tiles)
    {
      var i: nat, tmp := 0, 1;
      while tmp <= tiles
        invariant tmp == Pow2(i)
        invariant forall k' :: 0 <= k' < i ==> Pow2(k') <= tiles
        decreases tiles - tmp
      {
        tmp := tmp * 2;
        i := i + 1;
      }
      LeastExponentIsBitLength(tiles, i);
      k := i;
    }

    /** Chooses the level count from the image and tile size (see AutoZoomIsLeastCoveringCount)
        and stores it through the clamping setter. */
    method SetAutoZoom()
      requires Valid()
      modifies this`zoomLevels
      ensures Valid()
      ensures zoomLevels == AutoZoomLevels(imageWidth, imageHeight, tileWidth)
    {
      var wZoom := GetZoom(imageWidth / tileWidth);
      var hZoom := GetZoom(imageHeight / tileWidth);
      SetZoomLevels(Max(wZoom, hZoom));
    }

    /** The number of tiles of all levels: the sum over z < zoomLevels of
        ceil(W / (tw * 2^z)) * ceil(H / (th * 2^z)). */
    method CountTiles() returns (total: int)
      requires Valid()
      ensures total == Total(Settings(), zoomLevels)
    {
      total := 0;
      var z := 0;
      while z < zoomLevels
        invariant 0 <= z <= zoomLevels
        invariant total == Total(Settings(), z)
      {
        var scale := Pow2(z);
        total := total + CeilDiv(imageWidth, tileWidth * scale) * CeilDiv(imageHeight, tileHeight * scale);
        z := z + 1;
      }
    }

    /** One tiling run. An empty output directory is first replaced by "."; then the total
        tile count of all levels is computed, the levels are cut (CutLevels) until a write
        fails or the last tile is done, and the run ends with exactly one result call.
        The calls made are RunEvents of the settings. */
    method CreateTiles(write: Writer) returns (events: seq<Event>)
      requires Valid()
      modifies this`outDir
      ensures Valid()
      ensures outDir == OutputDir(old(outDir))
      ensures events == RunEvents(Settings(), old(outDir), prefix, write)
    {
      if outDir == "" {
        outDir := ".";
      }
      var total := CountTiles();
      var reported, failure := CutLevels(total, write);
      events := reported + [Finish(failure)];
    }

    /** The level loop of a run: levels 0 .. zoomLevels-1 in turn, each through CutLevel, the
        tiles numbered from 1 against the given total. The reports made, followed by the
        result the failure (if any) leads to, are exactly the trace of writing the whole
        pyramid into the output directory. */
    method CutLevels(total: int, write: Writer) returns (reported: seq<Event>, failure: Option<string>)
      requires Valid()
      ensures reported + [Finish(failure)] ==
              Emission(PyramidTiles(Settings(), zoomLevels), outDir, prefix, 1, total, write)
    {
      var p := Settings();
      reported := [];
      var z := 0;
      while z < zoomLevels
        invariant 0 <= z <= zoomLevels
        invariant |reported| == |PyramidTiles(p, z)|
        invariant reported + [Finish(None)] == Emission(PyramidTiles(p, z), outDir, prefix, 1, total, write)
      {
        var levelReported, levelFailure := CutLevel(z, 1 + |reported|, total, write);
        PyramidTilesNext(p, z, zoomLevels);
        EmissionStep(PyramidTiles(p, z), LevelTiles(p, z, Columns(p, z)), PyramidTiles(p, zoomLevels),
                     reported, levelReported, levelFailure, outDir, prefix, 1, total, write);
        reported := reported + levelReported;
        if levelFailure.Some? {
          failure := levelFailure;
          return;
        }
        z := z + 1;
      }
      failure := None;
    }

    /** Cuts level z: column by column while i * tw * 2^z < W, each column through CutColumn,
        the first tile numbered count. The reports made, followed by the result the failure
        (if any) leads to, are exactly the trace of writing that level's tiles. */
    method CutLevel(z: nat, count: int, total: int, write: Writer)
        returns (reported: seq<Event>, failure: Option<string>)
      requires Valid()
      ensures reported + [Finish(failure)] ==
              Emission(LevelTiles(Settings(), z, Columns(Settings(), z)), outDir, prefix, count, total, write)
    {
      var p := Settings();
      var scale := Pow2(z);
      var canvas := LevelCanvas(p, z);
      reported := [];
      var i := 0;
      while i * tileWidth * scale < imageWidth
        invariant 0 <= i <= Columns(p, z)
        invariant |reported| == |LevelTiles(p, z, i)|
        invariant reported + [Finish(None)] == Emission(LevelTiles(p, z, i), outDir, prefix, count, total, write)
        decreases Columns(p, z) - i
      {
        ColumnGuard(p, z, i);
        var columnReported, columnFailure := CutColumn(z, i, canvas, count + |reported|, total, write);
        LevelTilesNext(p, z, i, Columns(p, z));
        EmissionStep(LevelTiles(p, z, i), ColumnTiles(p, z, i, Rows(p, z)), LevelTiles(p, z, Columns(p, z)),
                     reported, columnReported, columnFailure, outDir, prefix, count, total, write);
        reported := reported + columnReported;
        if columnFailure.Some? {
          failure := columnFailure;
          return;
        }
        i := i + 1;
      }
      ColumnGuard(p, z, i);
      failure := None;
    }

    /** Cuts column i of level z from its canvas: row by row while j * th * 2^z < H, each
        tile cut out, written and reported with the next count, stopping at the first
        failed write. The reports made, followed by the result the failure (if any) leads
        to, are exactly the trace of writing that column's tiles. */
    method CutColumn(z: nat, i: nat, canvas: Canvas, count: int, total: int, write: Writer)
        returns (reported: seq<Event>, failure: Option<string>)
      requires Valid() && i < Columns(Settings(), z) && canvas == LevelCanvas(Settings(), z)
      ensures reported + [Finish(failure)] ==
              Emission(ColumnTiles(Settings(), z, i, Rows(Settings(), z)), outDir, prefix, count, total, write)
    {
      var p := Settings();
      var scale := Pow2(z);
      reported := [];
      var j := 0;
      while j * tileHeight * scale < imageHeight
        invariant 0 <= j <= Rows(p, z)
        invariant |reported| == j
        invariant reported + [Finish(None)] == Emission(ColumnTiles(p, z, i, j), outDir, prefix, count, total, write)
        decreases Rows(p, z) - j
      {
        RowGuard(p, z, j);
        TileRectInsideCanvas(p, z, i, j);
        var out := SubImage(canvas, TileRect(p, i, j));
        var file := TileFile(outDir, ZoomLabel(z), prefix, i, j);
        ghost var t := Tile(z, i, j, TileRect(p, i, j));
        var outcome := write(file, out);
        var tileReported, tileFailure;
        if outcome.WriteFailed? {
          tileReported, tileFailure := [], Some(outcome.reason);
        } else {
          tileReported, tileFailure := [Progress(file, count + j, total)], None;
        }
        EmissionSingle(t, outDir, prefix, count + j, total, write);
        ColumnTilesNext(p, z, i, j, Rows(p, z));
        EmissionStep(ColumnTiles(p, z, i, j), [t], ColumnTiles(p, z, i, Rows(p, z)),
                     reported, tileReported, tileFailure, outDir, prefix, count, total, write);
        reported := reported + tileReported;
        if tileFailure.Some? {
          failure := tileFailure;
          return;
        }
        j := j + 1;
      }
      RowGuard(p, z, j);
      failure := None;
    }
  }
}
