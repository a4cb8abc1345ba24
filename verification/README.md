# Rwanda tile downloader: grid subdivision and tile collection

This project models the part of the Rwanda satellite-data downloader
(`download_rwanda_no_gdal.py`) that has real logic:

- **`create_grid`**: cuts a bounding box `[min_lon, min_lat, max_lon, max_lat]`
  into `num_tiles_x * num_tiles_y` equal rectangles, listed column by column.
  The longitude index is the outer loop and the latitude index the inner loop.
  Module `TileGrid`, file `tile_grid.dfy`.
- **the size rule of `download_tile`**: a missing `content-length` header counts
  as 0, and a tile is skipped when it is strictly larger than 50 MiB
  (52428800 bytes). A tile also fails when its size is so large in magnitude
  (at least 2^1044 - 2^990) that the megabyte conversion at line 42 overflows a
  float. Module `TileDownload`, file `tile_download.dfy`.
- **the collection loops of `download_rwanda_tiles`**: one pass for Sentinel-2
  and one for WorldCover. Each walks the grid, numbers the tiles from 1, and
  appends the path of every tile whose download returned a result. Module
  `TileDownload`.

`create_grid` and the collection loops are imperative in the source. They are
methods with loop invariants, each proved equal to a specification function:
`Grid` for the grid and `Collected` for a collection pass. The properties are
lemmas about those functions.

The download step itself is network and file I/O. Its outcome is a `Fetch`
value:

- the request failed;
- or it got a response with a header (missing, an integer, or unreadable by
  `int()`) and either did or did not finish writing the file.

The driver gets one oracle per layer, `(tile number, tile bounds) -> Fetch`.

Coordinates are exact `real`s. Python computes them in binary floating point.
Some of the proved facts carry over exactly, others only up to rounding:

- Exact in the program as well: shared edges between neighbours and the first
  corner. Both sides of a shared edge evaluate the same expression
  `min_lon + k * lon_step` (or its latitude twin) with the same integer `k` and
  the same float step, and `min_lon + 0 * lon_step` is `min_lon`.
- Only up to rounding: the last tile ending at `(max_lon, max_lat)`, equal
  widths and heights, containment at the upper edge (`maxx <= max_lon` can fail
  when `min_lon + nx * lon_step` rounds above `max_lon`), and coverage near the
  upper edge (a thin strip can stay uncovered when it rounds below).

A zero tile count makes `create_grid` raise `ZeroDivisionError` before any
tile is built. The model returns `DivisionByZero` for it. A negative count
makes Python's `range` empty, so the result is an empty list with no error;
the model does the same. `create_grid` does not check that `min < max`.
Every call is accepted, and the containment and non-overlap lemmas state the
ordering of the box as their hypothesis.

## Model

| member | source | states |
|---|---|---|
| `TileGrid.CreateGrid` | download_rwanda_no_gdal.py:115-133 | A zero count gives the division-by-zero error and nothing else does. Otherwise the nested loops return exactly the specification grid `Grid` (columns outer, rows inner). |
| `TileGrid.GridSize` | download_rwanda_no_gdal.py:122-124 | The grid has len(range(nx)) * len(range(ny)) tiles, so nx * ny when both counts are positive. |
| `TileGrid.GridIndex` | download_rwanda_no_gdal.py:123-131 | Tile position i * ny + j holds column i, row j. Its corners are (min_lon + i*lon_step, min_lat + j*lat_step) and (min_lon + (i+1)*lon_step, min_lat + (j+1)*lat_step). |
| `TileGrid.GridPosition` | download_rwanda_no_gdal.py:123-131 | Every position k of the grid is i * ny + j for one column i < nx and row j < ny, and holds that tile. |
| `TileGrid.GridTilesInside` | download_rwanda_no_gdal.py:117-130 | For a box with positive width and height, every tile satisfies min_lon <= minx < maxx <= max_lon and the same for latitude. Every tile has width lon_step and height lat_step. |
| `TileGrid.GridSharedEdges` | download_rwanda_no_gdal.py:125-130 | Tile (i,j)'s maxx equals tile (i+1,j)'s minx, and its maxy equals tile (i,j+1)'s miny. The other sides of these neighbours line up. |
| `TileGrid.GridCorners` | download_rwanda_no_gdal.py:119-130 | The first tile starts at (min_lon, min_lat). The last tile, at position nx*ny - 1, ends at (max_lon, max_lat). |
| `TileGrid.GridCovers` | download_rwanda_no_gdal.py:119-130 | No gaps: every point of a proper box lies in some tile of the grid. |
| `TileGrid.GridDisjoint` | download_rwanda_no_gdal.py:125-130 | No overlaps: two different tiles of a proper box are separated along longitude or latitude, so their interiors are disjoint. |
| `TileGrid.GridEmptyForNegativeCount` | download_rwanda_no_gdal.py:122-124 | A negative tile count gives an empty tile list, because `range` of a negative number is empty. |
| `TileDownload.SizeAccepted` | download_rwanda_no_gdal.py:41-47 | A header passes exactly when it is missing (size 0) or declares a size in (-(2^1044 - 2^990), 52428800]. A header `int()` cannot read fails, and so does a size whose megabyte conversion at line 42 overflows a float (the OverflowError is caught at line 58). |
| `TileDownload.SizeOverflowBoundary` | download_rwanda_no_gdal.py:41-42 | The most negative size whose megabyte conversion still fits a float passes; the next one, and the positive threshold, fail. |
| `TileDownload.DownloadTile` | download_rwanda_no_gdal.py:28-60 | Returns the output path, and only that path. It does so exactly when the request succeeded, the size rule (overflow included) passed and the file was written; every other path returns None. |
| `TileDownload.CollectTiles` | download_rwanda_no_gdal.py:192-200 | The loop returns exactly `Collected` of the tiles, with no more paths than tiles. |
| `TileDownload.CollectedMembers` | download_rwanda_no_gdal.py:192-200 | A path is collected exactly when it belongs to this layer, numbers a tile 1..len(tiles), and that tile's download succeeded. So no failed tile is ever kept and no successful one is missed. |
| `TileDownload.CollectedOrdered` | download_rwanda_no_gdal.py:192-200 | Collected tile numbers strictly increase (grid order, no duplicates), each is in 1..len(tiles), and the list is no longer than the grid. |
| `TileDownload.CollectedAll` | download_rwanda_no_gdal.py:192-200 | When every download succeeds, the k-th collected path is that of tile k+1, for all tiles. |
| `TileDownload.RwandaGridShape` | download_rwanda_no_gdal.py:163-168 | The driver's 4 x 4 grid over [28.85, -2.85, 30.90, -1.05] has 16 tiles. Each is 0.5125 by 0.45 degrees, with its corners inside the box. |
| `TileDownload.DownloadRwandaTiles` | download_rwanda_no_gdal.py:163-214 | For runs where setup and every tile's geometry succeed: builds the 4 x 4 grid and runs the Sentinel-2 and WorldCover passes. Each result is `Collected` of that layer over the grid and has at most 16 paths. |

## Left out

- Floating-point rounding in `create_grid`: coordinates are exact reals. Shared edges and the first corner are exact in the program too; the last corner, widths and heights, and containment and coverage at the upper edge hold there only up to rounding.
- Earth Engine export URLs (download_rwanda_no_gdal.py:31-36): a call into a remote service inside `download_tile`'s `try`. Its failure is the `RequestFailed` case of `Fetch`.
- TileDownload.DownloadRwandaTiles: models only runs where the Earth Engine setup and every tile's geometry succeed. A failed `initialize_ee` (download_rwanda_no_gdal.py:15-25, 156-157) returns 1 before any tile is downloaded. A raise in the imagery queries (download_rwanda_no_gdal.py:171-188) or in `ee.Geometry.Rectangle` (download_rwanda_no_gdal.py:195, 209) is outside any `try` and stops the whole driver; it does not just fail one tile.
- HTTP streaming and writing the tile file (download_rwanda_no_gdal.py:38-39, 49-56): network and file I/O, reduced to the `RequestFailed` case and the `saved` flag.
- How `int()` parses a header string: the header is given already read (`Declared`) or as unreadable (`Malformed`).
- Merging tiles with rasterio, copying metadata and deleting tile files (download_rwanda_no_gdal.py:63-112, 218-241): a library whose internals are not part of this model, plus file-system effects.
- Printing, `time.sleep` rate limiting, the rasterio import check and the interactive confirmation (download_rwanda_no_gdal.py:139-161, 202, 216, 243-286): output, timing and UI.
- export_model.py and export_model_from_notebook.py: model training with external ML libraries, pickling, file probing and menus. They are not part of this model.
- The candidate-site recommender: no code implementing it is part of this model.
