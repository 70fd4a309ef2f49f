# TileUp tile-pyramid model

A Dafny model of the core of `TileUp`, a Java library that cuts an image into map tiles
over several zoom levels. The model covers:

- the `TileUp` object: its settings, the constructors, and the setters that clamp
  tile size and level count to at least 1;
- the automatic choice of the level count (`getZoom`, `setAutoZoom`);
- the tiling run `createTiles(callback)`, modelled as follows:
  - the precomputed total;
  - the level loop with its scale 2^z and directory label 20 - z;
  - the canvas, which is padded in extended mode;
  - the column-major column/row loops;
  - the tile rectangles, full size or clipped;
  - the progress and result calls made on the callback.

Modules:

- `TileMath` (tile_math.dfy): exact integer versions of the arithmetic.
  - `Math.pow(2, z)` becomes `Pow2(z)`.
  - `Math.ceil` of a quotient becomes `CeilDiv`.
  - The doubling search of `getZoom` becomes `BitLength`.
- `Pyramid` (pyramid.dfy): the plan of a run, as pure functions, and the lemmas about it:
  - per-level grid sizes;
  - canvas and tile rectangles;
  - the tile sequence `PyramidTiles` in the order the loops produce it.
- `Reporting` (reporting.dfy): the callback calls as a trace of `Progress` and `Result`
  events. `Emission` gives the trace a run over a tile list produces, and the lemmas
  about that trace are here.
- `TileUp` (tileup.dfy): `class TileUp`, with the fields of the Java class, the
  constructors, the setters and the methods `GetZoom`, `SetAutoZoom`, `CountTiles`
  and `CreateTiles`.
  - Each method is proved against the pure functions above.
  - `CreateTiles` returns the events it produced and is proved equal to `RunEvents`.
  - Its loops are split into one method per loop: `CountTiles` computes the total,
    `CutLevels` runs the levels, `CutLevel` the columns of one level, and `CutColumn` the
    rows of one column.
- `Int32Doubling` (int32_doubling.dfy): the `getZoom` loop in Java `int` arithmetic
  (see Findings).

How the model represents the parts it cannot run:

- The image writer `ImageIO.write` is a parameter `write: Writer`. It decides, tile by
  tile, whether the write succeeds or fails with an I/O error. An `IOException` ends the
  run with an error result.
- The callback is not called; instead `CreateTiles` returns the sequence of calls it
  would make.
- An image is represented by its width and height, which are at least 1. Tile images are
  the canvas region they are cut from (`SubImage`), not pixels.
- File names keep their parts: output directory, zoom label, prefix, column and row.

A note on the level count: for a 1000 x 1000 image with 256-pixel tiles, `setAutoZoom`
stores 2. Each axis is 1000 / 256 = 3 tiles in integer division, and getZoom(3) = 2,
because 3 needs two binary digits (`AutoZoomThousandSquare`). It also keeps measuring the image height in tile widths,
as the code at TileUp.java:296 does (`AutoZoomMeasuresHeightInTileWidths`).

## Model

| member | source | states |
|---|---|---|
| TileUp.TileUp.constructor | src/main/java/com/metratec/lib/tileup/TileUp.java:134-146 | stores the image size, output directory, prefix and extended flag as given, and tile width, tile height and level count as max(1, argument), so the object invariant (all sizes and the level count at least 1) holds |
| TileUp.TileUp.FromImage | src/main/java/com/metratec/lib/tileup/TileUp.java:38-40 | image only: empty directory and prefix, 256 x 256 tiles, one level, extended |
| TileUp.TileUp.WithOutput | src/main/java/com/metratec/lib/tileup/TileUp.java:57-59 | image, directory and prefix: 256 x 256 tiles, one level, extended |
| TileUp.TileUp.WithTileSize | src/main/java/com/metratec/lib/tileup/TileUp.java:80-82 | tile size clamped to at least 1, one level, extended |
| TileUp.TileUp.WithZoomLevels | src/main/java/com/metratec/lib/tileup/TileUp.java:106-109 | tile size and level count clamped to at least 1, extended |
| TileUp.TileUp.SetPrefix | src/main/java/com/metratec/lib/tileup/TileUp.java:153-155 | stores the prefix and changes no other field |
| TileUp.TileUp.SetOutDir | src/main/java/com/metratec/lib/tileup/TileUp.java:172-174 | stores the output directory and changes no other field |
| TileUp.TileUp.SetTileWidth | src/main/java/com/metratec/lib/tileup/TileUp.java:190-192 | stores max(1, width), keeps the invariant, changes no other field |
| TileUp.TileUp.SetTileHeight | src/main/java/com/metratec/lib/tileup/TileUp.java:208-210 | stores max(1, height), keeps the invariant, changes no other field |
| TileUp.TileUp.SetZoomLevels | src/main/java/com/metratec/lib/tileup/TileUp.java:258-260 | stores max(1, count), keeps the invariant, changes no other field |
| TileUp.TileUp.SetExtended | src/main/java/com/metratec/lib/tileup/TileUp.java:268-270 | stores the flag and changes no other field |
| TileUp.TileUp.GetZoom | src/main/java/com/metratec/lib/tileup/TileUp.java:300-307 | returns the least k >= 0 with 2^k > tiles: 2^k > tiles, 2^k' <= tiles for every k' < k, and k is the bit length of tiles (0 for tiles <= 0) |
| TileMath.BitLengthIsLeastExponent | src/main/java/com/metratec/lib/tileup/TileUp.java:300-307 | 2^BitLength(t) > t and 2^k <= t below it, so BitLength(t) = floor(log2 t) + 1 for t >= 1 |
| TileMath.LeastExponentIsBitLength | src/main/java/com/metratec/lib/tileup/TileUp.java:300-307 | any least exponent k with 2^k > t is BitLength(t): the search result is unique |
| TileUp.TileUp.SetAutoZoom | src/main/java/com/metratec/lib/tileup/TileUp.java:294-298 | sets the level count to max(1, getZoom(W / tw), getZoom(H / tw)), using the tile width for both axes, and changes no other field |
| TileUp.AutoZoomIsLeastCoveringCount | src/main/java/com/metratec/lib/tileup/TileUp.java:283-298 | the chosen count n is the least n >= 1 at which one tile width widened 2^n times exceeds both W and H; for every smaller n' >= 1 one axis is not exceeded |
| TileUp.AutoZoomThousandSquare | src/main/java/com/metratec/lib/tileup/TileUp.java:294-307 | a 1000 x 1000 image with 256-pixel tiles gets 2 levels |
| TileUp.AutoZoomMeasuresHeightInTileWidths | src/main/java/com/metratec/lib/tileup/TileUp.java:296 | a 256 x 1024 image with 256 x 64 tiles gets 3 levels, and its top level still has 4 rows |
| TileUp.TileUp.CountTiles | src/main/java/com/metratec/lib/tileup/TileUp.java:355-360 | the loop's total is the sum over levels z of ceil(W / (tw 2^z)) * ceil(H / (th 2^z)) |
| Pyramid.PyramidSize | src/main/java/com/metratec/lib/tileup/TileUp.java:355-386 | that total is exactly the number of tiles the loops produce |
| Pyramid.ColumnGuard | src/main/java/com/metratec/lib/tileup/TileUp.java:385 | the column guard i * tw * 2^z < W holds exactly for i < ceil(W / (tw 2^z)) |
| Pyramid.RowGuard | src/main/java/com/metratec/lib/tileup/TileUp.java:386 | the row guard j * th * 2^z < H holds exactly for j < ceil(H / (th 2^z)) |
| Pyramid.LevelTilesShape | src/main/java/com/metratec/lib/tileup/TileUp.java:385-393 | level z yields Columns * Rows tiles, tile (i, j) at position i * Rows + j (column-major) with its own rectangle |
| Pyramid.PyramidTilesMembers | src/main/java/com/metratec/lib/tileup/TileUp.java:361-393 | a tile is produced exactly when it is cell (i, j) of a level z < zoomLevels with i < Columns(z) and j < Rows(z), carrying that cell's rectangle |
| Pyramid.PyramidTilesOrdered | src/main/java/com/metratec/lib/tileup/TileUp.java:361-386 | tiles come level by level, column by column, top to bottom; no tile comes twice |
| Pyramid.TileRectInsideCanvas | src/main/java/com/metratec/lib/tileup/TileUp.java:376-393 | every requested sub-image is non-empty and inside the canvas: padded tiles inside ceil(W/tw) tw x ceil(H/th) th, clipped tiles inside W x H |
| Pyramid.TileRectSize | src/main/java/com/metratec/lib/tileup/TileUp.java:385-393 | tile (i, j) starts at (i tw, j th) and is 1..tw by 1..th; it is full size when extended, and a clipped tile occurs only in the last column or row |
| Pyramid.ExactFitTileRect | src/main/java/com/metratec/lib/tileup/TileUp.java:376-393 | when tw divides W and th divides H, the padded canvas is W x H and each padded tile equals the clipped one |
| Pyramid.ExactFitSamePyramid | src/main/java/com/metratec/lib/tileup/TileUp.java:376-393 | when tw divides W and th divides H, the extended and the clipped run produce the same tiles in the same order |
| Pyramid.ThreeHundredSquareExample | src/main/java/com/metratec/lib/tileup/TileUp.java:355-393 | a 300 x 300 image with 200 x 200 tiles on two levels: 2 x 2 plus 1 tiles, padded canvas 400 x 400, corner tile 200 x 200 extended and 100 x 100 clipped |
| Reporting.OutputDir | src/main/java/com/metratec/lib/tileup/TileUp.java:347-354 | the directory written into is never empty, and equals the setting when that is not empty |
| Reporting.EmissionSplit | src/main/java/com/metratec/lib/tileup/TileUp.java:386-400 | tiles that are all written are reported in order, numbered on from count, before the rest of the run |
| Reporting.EmissionShape | src/main/java/com/metratec/lib/tileup/TileUp.java:386-405 | every trace is progress calls for a prefix of the tiles, numbered consecutively, then one result: OK when all were written, otherwise the failure of the first tile not written |
| Reporting.EmissionStopsAtFailure | src/main/java/com/metratec/lib/tileup/TileUp.java:396-405 | after a failed write no later tile is written or reported |
| Reporting.EmissionStep | src/main/java/com/metratec/lib/tileup/TileUp.java:361-405 | a part that ended OK followed by another part gives the trace of both; a failure in the second also ends every longer run |
| Reporting.RunProtocol | src/main/java/com/metratec/lib/tileup/TileUp.java:345-406 | exactly one result call, last; progress counts 1, 2, ... with no gap, always with the same total, which is the planned tile count; OK exactly when every tile was written, and then the last count is the total; otherwise an error carrying the failure |
| Reporting.RunNamesPlannedTiles | src/main/java/com/metratec/lib/tileup/TileUp.java:361-398 | the k-th progress call names the k-th planned tile, in the output directory and under label 20 - z; no file is named twice, and labels never increase |
| TileUp.TileUp.CreateTiles | src/main/java/com/metratec/lib/tileup/TileUp.java:345-406 | replaces an empty output directory by "." and makes exactly the calls RunEvents gives for the settings |
| TileUp.TileUp.CutLevels | src/main/java/com/metratec/lib/tileup/TileUp.java:361-402 | the calls of the level loop, numbered from 1, are the trace of writing every planned tile into the output directory |
| TileUp.TileUp.CutLevel | src/main/java/com/metratec/lib/tileup/TileUp.java:361-400 | the calls of one level's column loop are the trace of writing that level's tiles |
| TileUp.TileUp.CutColumn | src/main/java/com/metratec/lib/tileup/TileUp.java:386-399 | the calls of one column's row loop are the trace of writing that column's tiles; each tile is cut from the level canvas inside its bounds |
| Int32Doubling.Tmp32Values | src/main/java/com/metratec/lib/tileup/TileUp.java:300-307 | in int arithmetic tmp runs 1, 2, ..., 2^30, then -2^31, then 0 for ever |
| Int32Doubling.GuardNeverFails | src/main/java/com/metratec/lib/tileup/TileUp.java:300-307 | for tiles >= 2^30 the int guard tmp <= tiles holds after every pass |
| Int32Doubling.WideTmpBound | src/main/java/com/metratec/lib/tileup/TileUp.java:300-307 | with a wide tmp the loop stops at 2^BitLength(tiles) <= 2 tiles, below 2^32, for every int count of tiles |

## Left out

- Pixels: the bilinear down-scaling of each level (TileUp.java:368-374), the `BufferedImage`
  allocation, and `setData` (TileUp.java:384). A level canvas and a tile image are their
  sizes and regions only.
- Image I/O and the file system:
  - `ImageIO.read` (TileUp.java:136) is replaced by the decoded width and height, which
    are at least 1.
  - `ImageIO.write` becomes the `write` parameter.
  - The `mkdir` calls for the output directory and each level directory
    (TileUp.java:347-351, 363-366) are not modelled.
  - `String.format` is not modelled: file names are structured values.
- Threading and the synchronous bridge, none of which is part of this model:
  - `createTilesAsyn` (TileUp.java:334-343);
  - `createTiles()` (TileUp.java:432-444), with its polling loop;
  - `SynCreateTilesCallback.java`.
- `CLI.java`, the command-line front end, is not part of this model.
- The getters (TileUp.java:162-164, 181-183, 199-201, 217-219, 226-228, 235-237, 246-248,
  278-280) read a field and are not modelled.
- Java `int` overflow and the `(int)` casts of `double` values. The model uses unbounded
  integers everywhere except in the `Int32Doubling` module.
- Pyramid.Total: uses exact 2^z and exact ceiling division in place of the `double`
  arithmetic of TileUp.java:357-360. That first loop builds no transform, so it runs for
  every level count, and it agrees with the model while tw·2^z and th·2^z stay below the
  largest `double` (about 1.8·10^308) for every level z < zoomLevels, e.g. z < 1016 for
  256-pixel tiles. Beyond that bound tw·2^z or th·2^z overflows to +Infinity and the level
  adds 0 to `total`, where the model adds at least 1.
- TileUp.TileUp.CountTiles: the same `double` bound as `Pyramid.Total`.
- Pyramid.PyramidSize: the announced total equals the number of planned tiles only within
  the same `double` bound.
- TileUp.TileUp.CutLevels: matches the original only for zoomLevels <= 537. At
  TileUp.java:371-373 each level z builds an `AffineTransformOp` that scales by 2^-z on
  both axes. The JDK constructor rejects a transform whose determinant has magnitude at
  most `Double.MIN_VALUE` (2^-1074) by throwing the unchecked `ImagingOpException`. The
  determinant here is 2^-2z, so level 537 and every later level throw. The
  `catch (IOException e)` at TileUp.java:403 does not catch it: the run stops after the
  tiles of levels 0 to 536 and makes no result call. The model cuts every level and
  always ends with one result call. For a 10 x 10 image, 256 x 256 tiles and 1100 levels
  the model announces and cuts 1100 tiles; the original announces 1016, reports 537 tiles
  and then ends with the exception.
- TileUp.TileUp.CutLevel: matches the original only for levels z <= 536, as under
  `TileUp.TileUp.CutLevels`.
- TileUp.TileUp.CreateTiles: its trace matches the original only for zoomLevels <= 537, as
  under `TileUp.TileUp.CutLevels`.
- Reporting.RunProtocol: "exactly one result call, last" and the announced total hold for
  the original only for zoomLevels <= 537; from 538 levels on, the original makes no
  result call, as under `TileUp.TileUp.CutLevels`.
- Reporting.RunNamesPlannedTiles: names the tiles the original reports only for
  zoomLevels <= 537; beyond that, only the tiles of levels 0 to 536 are reported.
- Exceptions other than the `IOException` of a tile write are not modelled. The
  sub-image request always lies inside the canvas (`TileRectInsideCanvas`), so
  `getSubimage` cannot raise its out-of-bounds exception.

## Findings

| source | as written | input that shows it | evidently intended | confidence | as-written member | corrected member |
|---|---|---|---|---|---|---|
| src/main/java/com/metratec/lib/tileup/TileUp.java:300-307 | `tmp` is an `int` doubled while `tmp <= tiles`; at 2^30 it wraps to -2^31 and then to 0, and the guard stays true, so the loop never ends | `setAutoZoom` with `tiles` = W / tw >= 2^30, e.g. an image 2^30 pixels wide with tile width 1 | return the least k with 2^k > tiles, 31 for every such tiles, e.g. by doubling a `long` | low (very large image), not executed | Int32Doubling.GuardNeverFails | TileUp.TileUp.GetZoom |
