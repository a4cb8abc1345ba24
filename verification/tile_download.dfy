/**
 * The per-tile download decision and the driver loops that keep, in grid order,
 * the paths of the tiles whose download succeeded.
 *
 * The network, the Earth Engine export and the file system are not modelled:
 * what a download attempt observed is given as a Fetch value, and the driver
 * receives one oracle per imagery layer that says what the attempt for a given
 * tile observed.
 */
module TileDownload {
  import opened TileGrid

  datatype Option<T> = None | Some(value: T)

  /** 50 MiB: tiles larger than this are skipped. */
  const MaxTileBytes: int := 50 * 1024 * 1024

  /**
   * Line 42 turns the size into megabytes with a true division, whose float
   * result overflows (Python raises OverflowError) once the rounded quotient
   * reaches 2^1024, that is once |size| >= 2^1044 - 2^990, the value below.
   */
  const FloatOverflowBytes: int :=
    0x3f_ffff_ffff_ffff * Pow2To110 * Pow2To110 * Pow2To110 * Pow2To110 * Pow2To110
                        * Pow2To110 * Pow2To110 * Pow2To110 * Pow2To110  // (2^54 - 1) * 2^990

  const Pow2To110: int := 0x4000_0000_0000_0000_0000_0000_0000

  /** The megabyte conversion of line 42 raises for this size. */
  predicate MegabytesOverflow(total: int) {
    total >= FloatOverflowBytes || total <= -FloatOverflowBytes
  }

  /** The content-length header of the download response. */
  datatype ContentLength =
    | Missing              // header absent: read as 0
    | Declared(bytes: int) // header present and read as an integer
    | Malformed            // header present but int() raises

  /** What one download attempt observed. */
  datatype Fetch =
    | RequestFailed                                 // URL export, GET or HTTP status raised
    | Response(length: ContentLength, saved: bool)  // saved: the body was written to disk without error

  /** The file temp_tiles/<layer>_<number>.tif. */
  datatype TilePath = TilePath(layer: string, number: nat)

  /** The total size download_tile reads off the header; None when int() raises. */
  function TotalSize(h: ContentLength): Option<int> {
    match h
    case Missing => Some(0)
    case Declared(n) => Some(n)
    case Malformed => None
  }

  /**
   * Lines 41-47 of download_tile: a tile passes unless its size is strictly
   * above 50 * 1024 * 1024 bytes; a missing header passes as size 0, and an
   * unreadable header or a size whose megabyte conversion overflows fails
   * through the exception handler.
   */
  function SizeAccepted(h: ContentLength): (ok: bool)
    ensures ok <==> h.Missing? || (h.Declared? && -FloatOverflowBytes < h.bytes <= 52428800)
  {
    match TotalSize(h)
    case None => false
    case Some(total) => !MegabytesOverflow(total) && !(total > MaxTileBytes)
  }

  /**
   * The boundary of the overflow path: the most negative size whose megabyte
   * conversion still fits a float passes the size check, the next one fails.
   */
  lemma SizeOverflowBoundary()
    ensures SizeAccepted(Declared(-FloatOverflowBytes + 1))
    ensures !SizeAccepted(Declared(-FloatOverflowBytes))
    ensures !SizeAccepted(Declared(FloatOverflowBytes))
  {
  }

  /**
   * download_tile: the output path when the request succeeded, the size check
   * passed and the body was written; None on every other path, exceptions included.
   */
  function DownloadTile(f: Fetch, path: TilePath): (r: Option<TilePath>)
    ensures r.Some? ==> r.value == path
    ensures r.Some? <==> f.Response? && f.saved && SizeAccepted(f.length)
  {
    match f
    case RequestFailed => None
    case Response(length, saved) =>
      match TotalSize(length)
      case None => None
      case Some(total) =>
        if MegabytesOverflow(total) then None
        else if total > MaxTileBytes then None
        else if saved then Some(path)
        else None
  }

  /** The attempt for tile number n (1-based) with bounds t produced a file. */
  predicate Succeeded(layer: string, fetch: (nat, Box) -> Fetch, n: nat, t: Box) {
    DownloadTile(fetch(n, t), TilePath(layer, n)).Some?
  }

  /** The paths the driver loop has collected after visiting all of tiles. */
  function Collected(layer: string, tiles: seq<Box>, fetch: (nat, Box) -> Fetch): seq<TilePath>
    decreases |tiles|
  {
    if tiles == [] then []
    else
      var n := |tiles|;
      Collected(layer, tiles[..n - 1], fetch)
      + (if Succeeded(layer, fetch, n, tiles[n - 1]) then [TilePath(layer, n)] else [])
  }

  /**
   * The driver loop over the grid for one layer: tiles are numbered from 1 in
   * grid order and the path of each successful download is appended.
   */
  method CollectTiles(tiles: seq<Box>, layer: string, fetch: (nat, Box) -> Fetch)
    returns (kept: seq<TilePath>)
    ensures kept == Collected(layer, tiles, fetch)
    ensures |kept| <= |tiles|
  {
    kept := [];
    var i := 0;
    while i < |tiles|
      invariant 0 <= i <= |tiles|
      invariant kept == Collected(layer, tiles[..i], fetch)
      invariant |kept| <= i
    {
      var n := i + 1;
      var tilePath := TilePath(layer, n);
      var result := DownloadTile(fetch(n, tiles[i]), tilePath);
      assert tiles[..n][..n - 1] == tiles[..i];
      if result.Some? {
        kept := kept + [tilePath];
      }
      i := i + 1;
    }
    assert tiles[..i] == tiles;
  }

  // ---------------------------------------------------------------------------
  // Properties of the collected list

  /**
   * A path is collected exactly when it belongs to this layer, numbers a tile
   * of the grid and that tile's download succeeded.
   */
  lemma {:induction false} CollectedMembers(layer: string, tiles: seq<Box>, fetch: (nat, Box) -> Fetch, p: TilePath)
    ensures p in Collected(layer, tiles, fetch)
        <==> p.layer == layer && 1 <= p.number <= |tiles|
             && Succeeded(layer, fetch, p.number, tiles[p.number - 1])
    decreases |tiles|
  {
    if tiles != [] {
      var n := |tiles|;
      CollectedMembers(layer, tiles[..n - 1], fetch, p);
      if 1 <= p.number < n {
        assert tiles[..n - 1][p.number - 1] == tiles[p.number - 1];
      }
    }
  }

  /**
   * The collected paths keep grid order: their tile numbers strictly increase,
   * so no path appears twice, and there are at most as many as tiles.
   */
  lemma {:induction false} CollectedOrdered(layer: string, tiles: seq<Box>, fetch: (nat, Box) -> Fetch)
    ensures var kept := Collected(layer, tiles, fetch);
            |kept| <= |tiles|
            && (forall a, c :: 0 <= a < c < |kept| ==> kept[a].number < kept[c].number)
            && (forall a :: 0 <= a < |kept| ==> 1 <= kept[a].number <= |tiles|)
    decreases |tiles|
  {
    if tiles != [] {
      CollectedOrdered(layer, tiles[..|tiles| - 1], fetch);
    }
  }

  /** When every download succeeds, every tile's path is collected, in order. */
  lemma {:induction false} CollectedAll(layer: string, tiles: seq<Box>, fetch: (nat, Box) -> Fetch)
    requires forall k :: 0 <= k < |tiles| ==> Succeeded(layer, fetch, k + 1, tiles[k])
    ensures |Collected(layer, tiles, fetch)| == |tiles|
    ensures forall k :: 0 <= k < |tiles| ==> Collected(layer, tiles, fetch)[k] == TilePath(layer, k + 1)
    decreases |tiles|
  {
    if tiles != [] {
      var prefix := tiles[..|tiles| - 1];
      assert forall k :: 0 <= k < |prefix| ==> prefix[k] == tiles[k];
      CollectedAll(layer, prefix, fetch);
    }
  }

  // ---------------------------------------------------------------------------
  // The Rwanda driver

  /** The box the driver downloads: [28.85, -2.85, 30.90, -1.05]. */
  const RwandaBounds: Box := Box(28.85, -2.85, 30.90, -1.05)

  /** The driver's 4 x 4 grid has 16 tiles of 0.5125 by 0.45 degrees inside the Rwanda box. */
  lemma RwandaGridShape()
    ensures |Grid(RwandaBounds, 4, 4)| == 16
    ensures forall k :: 0 <= k < 16 ==>
              var t := Grid(RwandaBounds, 4, 4)[k];
              t.maxX - t.minX == 0.5125 && t.maxY - t.minY == 0.45
              && Contains(RwandaBounds, t.minX, t.minY) && Contains(RwandaBounds, t.maxX, t.maxY)
  {
  }

  /**
   * The download part of download_rwanda_tiles: build the 4 x 4 grid, then run
   * the Sentinel-2 pass and the WorldCover pass over it, each keeping the
   * paths of its successful tiles. Only runs in which the Earth Engine setup,
   * the imagery queries and every tile's geometry succeed are modelled: a
   * failure there ends the whole driver rather than one tile.
   */
  method DownloadRwandaTiles(sentinelFetch: (nat, Box) -> Fetch, labelsFetch: (nat, Box) -> Fetch)
    returns (sentinel: seq<TilePath>, labels: seq<TilePath>)
    ensures sentinel == Collected("sentinel", Grid(RwandaBounds, 4, 4), sentinelFetch)
    ensures labels == Collected("labels", Grid(RwandaBounds, 4, 4), labelsFetch)
    ensures |sentinel| <= 16 && |labels| <= 16
  {
    var grid := CreateGrid(RwandaBounds, 4, 4);
    var tiles := grid.tiles;
    GridSize(RwandaBounds, 4, 4);
    sentinel := CollectTiles(tiles, "sentinel", sentinelFetch);
    labels := CollectTiles(tiles, "labels", labelsFetch);
  }
}
