/** What a tiling run reports to its callback: one progress call per tile written,
    numbered 1, 2, ... against the announced total, then exactly one result call. */
module Reporting {
  import opened Pyramid

  /** Status codes of the result call. */
  const ResultOk: int := 0
  const ResultError: int := -1

  datatype Option<T> = None | Some(value: T)

  /** The file <dir>/<zoom>/<prefix>_<col>_<row>.png, kept as its parts. */
  datatype TileFile = TileFile(dir: string, zoom: int, prefix: string, col: nat, row: nat)

  /** Outcome of writing one tile image: written, or the I/O failure it raised. */
  datatype WriteOutcome = Written | WriteFailed(reason: string)

  /** The image writer, seen from the run: which writes succeed is up to the file system. */
  type Writer = (TileFile, TileImage) -> WriteOutcome

  /** A call the run makes on its callback. */
  datatype Event =
    | Progress(tile: TileFile, count: int, total: int)
    | Result(retval: int, error: Option<string>)

  /** The directory the run writes into: an empty setting means the current directory. */
  function OutputDir(outDir: string): (dir: string)
    ensures dir != []
    ensures outDir == [] ==> dir == "."
    ensures outDir != [] ==> dir == outDir
  {
    if outDir == "" then "." else outDir
  }

  function FileOf(dir: string, prefix: string, t: Tile): TileFile
  {
    TileFile(dir, ZoomLabel(t.level), prefix, t.col, t.row)
  }

  function ImageOf(t: Tile): TileImage
  {
    TileImage(t.level, t.rect)
  }

  predicate WrittenOk(write: Writer, dir: string, prefix: string, t: Tile)
  {
    write(FileOf(dir, prefix, t), ImageOf(t)).Written?
  }

  predicate AllWritten(ts: seq<Tile>, write: Writer, dir: string, prefix: string)
  {
    forall t :: t in ts ==> WrittenOk(write, dir, prefix, t)
  }

  /** The events of writing ts in order, the first numbered count: each tile is written and
      then reported; the first failed write ends the run with an error result. */
  function Emission(ts: seq<Tile>, dir: string, prefix: string, count: int, total: int,
                    write: Writer): seq<Event>
    decreases |ts|
  {
    if ts == [] then
      [Result(ResultOk, None)]
    else
      var f := FileOf(dir, prefix, ts[0]);
      match write(f, ImageOf(ts[0]))
      case WriteFailed(e) => [Result(ResultError, Some(e))]
      case Written => [Progress(f, count, total)] + Emission(ts[1..], dir, prefix, count + 1, total, write)
  }

  /** The progress calls for tiles that were all written, the first numbered count. */
  function Progresses(ts: seq<Tile>, dir: string, prefix: string, count: int, total: int): (es: seq<Event>)
    ensures |es| == |ts|
    ensures forall k :: 0 <= k < |ts| ==> es[k] == Progress(FileOf(dir, prefix, ts[k]), count + k, total)
  {
    seq(|ts|, k requires 0 <= k < |ts| => Progress(FileOf(dir, prefix, ts[k]), count + k, total))
  }

  /** The events of a whole run over plan p: the tiles of all its levels, numbered from 1
      against the precomputed total. */
  function RunEvents(p: Plan, outDir: string, prefix: string, write: Writer): seq<Event>
    requires p.Valid()
  {
    Emission(PyramidTiles(p, p.zoomLevels), OutputDir(outDir), prefix, 1, Total(p, p.zoomLevels), write)
  }

  /** The result call that ends a run: OK, or an error carrying the failure. */
  function Finish(failure: Option<string>): Event
  {
    match failure
    case None => Result(ResultOk, None)
    case Some(e) => Result(ResultError, Some(e))
  }

  // ---------------------------------------------------------------------------

  /** Writing tiles that all succeed reports each of them, then carries on with the rest. */
  lemma {:induction false} EmissionSplit(done: seq<Tile>, rest: seq<Tile>, dir: string, prefix: string,
                                         count: int, total: int, write: Writer)
    requires AllWritten(done, write, dir, prefix)
    ensures Emission(done + rest, dir, prefix, count, total, write) ==
            Progresses(done, dir, prefix, count, total) + Emission(rest, dir, prefix, count + |done|, total, write)
  {
    if done != [] {
      assert (done + rest)[1..] == done[1..] + rest;
      assert done[0] in done;
      EmissionSplit(done[1..], rest, dir, prefix, count + 1, total, write);
      assert Progresses(done, dir, prefix, count, total) ==
             [Progress(FileOf(dir, prefix, done[0]), count, total)] + Progresses(done[1..], dir, prefix, count + 1, total);
    } else {
      assert done + rest == rest;
    }
  }

  /** The shape of every trace: progress calls for a prefix of the tiles, numbered
      consecutively from count, then one result call, which is OK exactly when every tile
      was reported and otherwise carries the failure of the first tile not reported. */
  lemma {:induction false} EmissionShape(ts: seq<Tile>, dir: string, prefix: string, count: int, total: int,
                                         write: Writer)
    ensures var e := Emission(ts, dir, prefix, count, total, write);
      1 <= |e| <= |ts| + 1 && e[|e| - 1].Result? &&
      (forall k :: 0 <= k < |e| - 1 ==>
         k < |ts| && e[k] == Progress(FileOf(dir, prefix, ts[k]), count + k, total) &&
         WrittenOk(write, dir, prefix, ts[k])) &&
      (|e| == |ts| + 1 ==> e[|e| - 1] == Result(ResultOk, None)) &&
      (|e| <= |ts| ==>
         !WrittenOk(write, dir, prefix, ts[|e| - 1]) &&
         e[|e| - 1] == Result(ResultError, Some(write(FileOf(dir, prefix, ts[|e| - 1]), ImageOf(ts[|e| - 1])).reason)))
  {
    if ts != [] && write(FileOf(dir, prefix, ts[0]), ImageOf(ts[0])).Written? {
      EmissionShape(ts[1..], dir, prefix, count + 1, total, write);
    }
  }

  /** Once a tile of a fails, whatever follows a is never written or reported. */
  lemma {:induction false} EmissionStopsAtFailure(a: seq<Tile>, b: seq<Tile>, dir: string, prefix: string,
                                                  count: int, total: int, write: Writer)
    requires !AllWritten(a, write, dir, prefix)
    ensures Emission(a + b, dir, prefix, count, total, write) == Emission(a, dir, prefix, count, total, write)
  {
    assert (a + b)[0] == a[0];
    if WrittenOk(write, dir, prefix, a[0]) {
      assert (a + b)[1..] == a[1..] + b;
      assert !AllWritten(a[1..], write, dir, prefix) by {
        var t :| t in a && !WrittenOk(write, dir, prefix, t);
        assert t != a[0];
        assert t in a[1..];
      }
      EmissionStopsAtFailure(a[1..], b, dir, prefix, count + 1, total, write);
    }
  }

  /** A part a that ends OK reports every tile of a and hands over to the part after it:
      the reports of a, then those of b numbered on from count + |a|, then b's result. */
  lemma {:induction false} EmissionContinue(a: seq<Tile>, b: seq<Tile>, ra: seq<Event>, rb: seq<Event>,
                                            fb: Option<string>, dir: string, prefix: string, count: int,
                                            total: int, write: Writer)
    requires ra + [Finish(None)] == Emission(a, dir, prefix, count, total, write)
    requires rb + [Finish(fb)] == Emission(b, dir, prefix, count + |a|, total, write)
    ensures |ra| == |a|
    ensures ra + rb + [Finish(fb)] == Emission(a + b, dir, prefix, count, total, write)
  {
    if a == [] {
      assert a + b == b;
    } else {
      var f := FileOf(dir, prefix, a[0]);
      assert (a + b)[0] == a[0] && (a + b)[1..] == a[1..] + b;
      var e := Emission(a, dir, prefix, count, total, write);
      EmissionShape(a, dir, prefix, count, total, write);
      assert e[|e| - 1] == Finish(None);
      assert |ra| == |a| && WrittenOk(write, dir, prefix, a[0]);
      assert ra[1..] + [Finish(None)] == (ra + [Finish(None)])[1..];
      EmissionContinue(a[1..], b, ra[1..], rb, fb, dir, prefix, count + 1, total, write);
      assert ra + rb + [Finish(fb)] == [ra[0]] + (ra[1..] + rb + [Finish(fb)]);
    }
  }

  /** A part a that ends with a failure ends everything that follows it in the same way. */
  lemma EmissionStop(a: seq<Tile>, b: seq<Tile>, ra: seq<Event>, failure: string,
                     dir: string, prefix: string, count: int, total: int, write: Writer)
    requires ra + [Finish(Some(failure))] == Emission(a, dir, prefix, count, total, write)
    ensures ra + [Finish(Some(failure))] == Emission(a + b, dir, prefix, count, total, write)
  {
    var e := Emission(a, dir, prefix, count, total, write);
    EmissionShape(a, dir, prefix, count, total, write);
    assert e[|e| - 1] == Finish(Some(failure));
    assert a[|e| - 1] in a;
    EmissionStopsAtFailure(a, b, dir, prefix, count, total, write);
  }

  /** One tile on its own: its report followed by OK when its write succeeds, otherwise
      only the error result carrying the writer's reason. */
  lemma EmissionSingle(t: Tile, dir: string, prefix: string, count: int, total: int, write: Writer)
    ensures Emission([t], dir, prefix, count, total, write) ==
            if WrittenOk(write, dir, prefix, t)
            then [Progress(FileOf(dir, prefix, t), count, total), Finish(None)]
            else [Finish(Some(write(FileOf(dir, prefix, t), ImageOf(t)).reason))]
  {
    assert [t][1..] == [];
  }

  /** A part a that ended OK followed by a part b: the reports of both, then b's result, are
      the trace of a + b; when b failed they are also the trace of any tile list that
      starts with a + b, since nothing after a failure is written. */
  lemma EmissionStep(a: seq<Tile>, b: seq<Tile>, whole: seq<Tile>, ra: seq<Event>, rb: seq<Event>,
                     fb: Option<string>, dir: string, prefix: string, count: int, total: int, write: Writer)
    requires a + b <= whole
    requires ra + [Finish(None)] == Emission(a, dir, prefix, count, total, write)
    requires rb + [Finish(fb)] == Emission(b, dir, prefix, count + |a|, total, write)
    ensures |ra| == |a|
    ensures fb.None? ==> |rb| == |b|
    ensures ra + rb + [Finish(fb)] == Emission(a + b, dir, prefix, count, total, write)
    ensures fb.Some? ==> ra + rb + [Finish(fb)] == Emission(whole, dir, prefix, count, total, write)
  {
    EmissionContinue(a, b, ra, rb, fb, dir, prefix, count, total, write);
    if fb.None? {
      assert b + [] == b;
      EmissionContinue(b, [], rb, [], None, dir, prefix, count + |a|, total, write);
    } else {
      var rest := whole[|a + b|..];
      assert whole == (a + b) + rest;
      EmissionStop(a + b, rest, ra + rb, fb.value, dir, prefix, count, total, write);
    }
  }

  /** A run calls the result callback exactly once, as its last call; before it, the
      progress calls carry the counts 1, 2, ... with no gap or repeat and always the same
      total, which is the number of tiles the plan produces. The result is OK exactly when
      every planned tile was written, and then the last count equals the total; otherwise
      it is an error carrying the write failure. */
  lemma RunProtocol(p: Plan, outDir: string, prefix: string, write: Writer)
    requires p.Valid()
    ensures var e := RunEvents(p, outDir, prefix, write);
      var total := Total(p, p.zoomLevels);
      |e| >= 1 && e[|e| - 1].Result? &&
      (forall k :: 0 <= k < |e| - 1 ==> e[k].Progress? && e[k].count == k + 1 && e[k].total == total) &&
      (e[|e| - 1].retval == ResultOk <==> AllWritten(PyramidTiles(p, p.zoomLevels), write, OutputDir(outDir), prefix)) &&
      (e[|e| - 1].retval == ResultOk ==> |e| - 1 == total && e[|e| - 1].error == None) &&
      (e[|e| - 1].retval != ResultOk ==> e[|e| - 1].retval == ResultError && e[|e| - 1].error.Some?)
  {
    var ts := PyramidTiles(p, p.zoomLevels);
    var dir := OutputDir(outDir);
    var e := RunEvents(p, outDir, prefix, write);
    EmissionShape(ts, dir, prefix, 1, Total(p, p.zoomLevels), write);
    PyramidSize(p, p.zoomLevels);
    if |e| == |ts| + 1 {
      forall t | t in ts
        ensures WrittenOk(write, dir, prefix, t)
      {
        var k :| 0 <= k < |ts| && ts[k] == t;
        assert e[k].Progress?;
      }
    } else {
      assert ts[|e| - 1] in ts;
    }
  }

  /** The k-th progress call names the k-th planned tile: its file lies in the output
      directory (an empty setting becomes "."), under the label 20 - z of its level; no
      two progress calls name the same file, and the labels never increase along the run. */
  lemma RunNamesPlannedTiles(p: Plan, outDir: string, prefix: string, write: Writer)
    requires p.Valid()
    ensures var e := RunEvents(p, outDir, prefix, write);
      var ts := PyramidTiles(p, p.zoomLevels);
      (forall k :: 0 <= k < |e| - 1 ==>
         k < |ts| && e[k].Progress? && e[k].tile == FileOf(OutputDir(outDir), prefix, ts[k]) &&
         e[k].tile.dir == OutputDir(outDir) && e[k].tile.zoom == TopZoom - ts[k].level) &&
      (forall a, b :: 0 <= a < b < |e| - 1 ==> e[a].tile != e[b].tile && e[b].tile.zoom <= e[a].tile.zoom)
  {
    var ts := PyramidTiles(p, p.zoomLevels);
    var e := RunEvents(p, outDir, prefix, write);
    EmissionShape(ts, OutputDir(outDir), prefix, 1, Total(p, p.zoomLevels), write);
    PyramidTilesOrdered(p, p.zoomLevels);
    forall a, b | 0 <= a < b < |e| - 1
      ensures e[a].tile != e[b].tile && e[b].tile.zoom <= e[a].tile.zoom
    {
      assert Precedes(ts[a], ts[b]);
    }
  }
}
