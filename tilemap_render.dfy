// `TilemapRenderSystem::draw`: the tiles of the camera's view are drawn layer by layer, row by
// row, from the tileset atlas cell of each tile id onto the screen position of its map cell.

module TilemapRender {
  import opened Wrappers
  import opened Geometry
  import opened TilemapComponent
  import TilesetLoader
  import TextureAtlas
  import TextAssets

  /** The active camera's position: the centre of the view, in world pixels. */
  datatype Camera = Camera(x: real, y: real)

  /** The screen size in pixels. */
  datatype Screen = Screen(w: int, h: int)

  /** The visible cells: rows `[startRow, endRow)` by columns `[startCol, endCol)`. */
  datatype Range = Range(startRow: int, endRow: int, startCol: int, endCol: int)

  /** A visited map cell: the layer's index, the row, the column and the tile id read there. */
  datatype Cell = Cell(layer: nat, row: int, col: int, id: int)

  /** One `SDL_RenderCopy` call: from `src` of the atlas to `dst` on the screen. */
  datatype DrawCall = DrawCall(src: Rect, dst: Rect)

  /** The world x of the screen's left edge. */
  function Left(camera: Camera, screen: Screen): real
  {
    camera.x - screen.w as real / 2.0
  }

  /** The world y of the screen's top edge. */
  function Top(camera: Camera, screen: Screen): real
  {
    camera.y - screen.h as real / 2.0
  }

  /** The first index an extent starting at `low` covers, clamped below at 0. */
  function StartIndex(low: real, tile: int): (r: int)
    requires tile != 0
    ensures r >= 0
  {
    var i := (low / tile as real).Floor;
    if i > 0 then i else 0
  }

  /** One past the last index an extent of `size` pixels from `low` covers, clamped above at `count`. */
  function EndIndex(low: real, size: int, tile: int, count: int): (r: int)
    requires tile != 0
    ensures r <= count
  {
    var i := ((low + size as real - 1.0) / tile as real).Floor + 1;
    if i < count then i else count
  }

  /** The visible range: bounded by the first layer's size, whatever size the other layers have. */
  function VisibleRange(tm: Tilemap, camera: Camera, screen: Screen): (r: Range)
    requires tm.tileWidth != 0 && tm.tileHeight != 0 && tm.layers != []
    ensures 0 <= r.startRow && r.endRow <= tm.layers[0].heightInTiles
    ensures 0 <= r.startCol && r.endCol <= tm.layers[0].widthInTiles
  {
    var left, top := Left(camera, screen), Top(camera, screen);
    Range(StartIndex(top, tm.tileHeight), EndIndex(top, screen.h, tm.tileHeight, tm.layers[0].heightInTiles),
          StartIndex(left, tm.tileWidth), EndIndex(left, screen.w, tm.tileWidth, tm.layers[0].widthInTiles))
  }

  /**
   * With positive tiles, index `i` is in range exactly when it is one of the first `count` and
   * its tile `[i * tile, (i + 1) * tile)` reaches past `low` and starts no later than the last
   * pixel `low + size - 1`.
   */
  lemma InRange(low: real, size: int, tile: int, count: int, i: int)
    requires tile > 0
    ensures StartIndex(low, tile) <= i < EndIndex(low, size, tile, count) <==>
      0 <= i < count && low < ((i + 1) * tile) as real && (i * tile) as real <= low + size as real - 1.0
  {
    var t := tile as real;
    var high := low + size as real - 1.0;
    assert ((i + 1) * tile) as real == (i + 1) as real * t;
    assert (i * tile) as real == i as real * t;
    FloorBelow(low, i, t);
    FloorAbove(high, i, t);
    assert StartIndex(low, tile) <= i <==> 0 <= i && (low / t).Floor <= i;
    assert i < EndIndex(low, size, tile, count) <==> i < count && i < (high / t).Floor + 1;
  }

  /** `i >= floor(low / t)` exactly when `low < (i + 1) * t`. */
  lemma FloorBelow(low: real, i: int, t: real)
    requires t > 0.0
    ensures (low / t).Floor <= i <==> low < (i + 1) as real * t
  {
    var a := low / t;
    assert a * t == low;
    if a.Floor <= i {
      assert a < (i + 1) as real;
      MulLess(a, (i + 1) as real, t);
    } else {
      assert (i + 1) as real <= a;
      MulLessEq((i + 1) as real, a, t);
    }
  }

  /** `i <= floor(high / t)` exactly when `i * t <= high`. */
  lemma FloorAbove(high: real, i: int, t: real)
    requires t > 0.0
    ensures i < (high / t).Floor + 1 <==> i as real * t <= high
  {
    var b := high / t;
    assert b * t == high;
    if i <= b.Floor {
      assert i as real <= b;
      MulLessEq(i as real, b, t);
    } else {
      assert b < i as real;
      MulLess(b, i as real, t);
    }
  }

  lemma MulLess(x: real, y: real, t: real)
    requires t > 0.0 && x < y
    ensures x * t < y * t
  {
  }

  lemma MulLessEq(x: real, y: real, t: real)
    requires t > 0.0 && x <= y
    ensures x * t <= y * t
  {
  }

  /** Where a layer keeps the id of the tile at `row`, `col`: the layer's own width is the stride. */
  function CellIndex(layer: TileLayer, row: int, col: int): int
  {
    row * layer.widthInTiles + col
  }

  /** Every cell of `range` can be read in every layer. */
  predicate Readable(tm: Tilemap, range: Range)
  {
    forall k, row, col :: 0 <= k < |tm.layers| && range.startRow <= row < range.endRow && range.startCol <= col < range.endCol ==>
      0 <= CellIndex(tm.layers[k], row, col) < |tm.layers[k].tileIds|
  }

  /** The tile id at `row`, `col` of a layer (0 where the layer has no such cell). */
  function TileAt(layer: TileLayer, row: int, col: int): int
  {
    var i := CellIndex(layer, row, col);
    if 0 <= i < |layer.tileIds| then layer.tileIds[i] else 0
  }

  /** The cells of row `row` of layer `k` in columns `[c0, c1)` holding a tile, left to right. */
  function RowVisits(tm: Tilemap, k: nat, row: int, c0: int, c1: int): seq<Cell>
    requires k < |tm.layers|
    decreases c1 - c0
  {
    if c1 <= c0 then []
    else
      var id := TileAt(tm.layers[k], row, c1 - 1);
      RowVisits(tm, k, row, c0, c1 - 1) + (if id != 0 then [Cell(k, row, c1 - 1, id)] else [])
  }

  /** The cells of layer `k` in rows `[r0, r1)` holding a tile, row by row. */
  function LayerVisits(tm: Tilemap, k: nat, r0: int, r1: int, range: Range): seq<Cell>
    requires k < |tm.layers|
    decreases r1 - r0
  {
    if r1 <= r0 then []
    else LayerVisits(tm, k, r0, r1 - 1, range) + RowVisits(tm, k, r1 - 1, range.startCol, range.endCol)
  }

  /** The cells of `range` holding a tile in the first `n` layers, layer by layer. */
  function Visits(tm: Tilemap, n: nat, range: Range): seq<Cell>
    requires n <= |tm.layers|
  {
    if n == 0 then []
    else Visits(tm, n - 1, range) + LayerVisits(tm, n - 1, range.startRow, range.endRow, range)
  }

  /** `a` comes before `b` in the drawing order: by layer, then by row, then by column. */
  predicate Precedes(a: Cell, b: Cell)
  {
    a.layer < b.layer || (a.layer == b.layer && (a.row < b.row || (a.row == b.row && a.col < b.col)))
  }

  /** The cells are in strictly increasing drawing order. */
  predicate Ordered(cells: seq<Cell>)
  {
    forall i, j :: 0 <= i < j < |cells| ==> Precedes(cells[i], cells[j])
  }

  /** Two ordered runs, the first wholly before the second, make an ordered run. */
  lemma OrderedAppend(a: seq<Cell>, b: seq<Cell>)
    requires Ordered(a) && Ordered(b)
    requires forall x, y :: x in a && y in b ==> Precedes(x, y)
    ensures Ordered(a + b)
  {
    forall i, j | 0 <= i < j < |a + b|
      ensures Precedes((a + b)[i], (a + b)[j])
    {
      if j < |a| {
        assert (a + b)[i] == a[i] && (a + b)[j] == a[j];
      } else if i >= |a| {
        assert (a + b)[i] == b[i - |a|] && (a + b)[j] == b[j - |a|];
      } else {
        assert (a + b)[i] in a && (a + b)[j] in b;
      }
    }
  }

  /** A row's cells lie in that row of that layer, within `[c0, c1)`. */
  lemma {:induction false} RowCellsIn(tm: Tilemap, k: nat, row: int, c0: int, c1: int)
    requires k < |tm.layers|
    ensures forall c :: c in RowVisits(tm, k, row, c0, c1) ==> c.layer == k && c.row == row && c0 <= c.col < c1
    decreases c1 - c0
  {
    if c1 > c0 {
      RowCellsIn(tm, k, row, c0, c1 - 1);
    }
  }

  /** A layer's cells lie in that layer, within rows `[r0, r1)`. */
  lemma {:induction false} LayerCellsIn(tm: Tilemap, k: nat, r0: int, r1: int, range: Range)
    requires k < |tm.layers|
    ensures forall c :: c in LayerVisits(tm, k, r0, r1, range) ==> c.layer == k && r0 <= c.row < r1
    decreases r1 - r0
  {
    if r1 > r0 {
      LayerCellsIn(tm, k, r0, r1 - 1, range);
      RowCellsIn(tm, k, r1 - 1, range.startCol, range.endCol);
    }
  }

  /** The first `n` layers visit cells of those layers only. */
  lemma {:induction false} VisitsLayers(tm: Tilemap, n: nat, range: Range)
    requires n <= |tm.layers|
    ensures forall c :: c in Visits(tm, n, range) ==> c.layer < n
  {
    if n > 0 {
      VisitsLayers(tm, n - 1, range);
      LayerCellsIn(tm, n - 1, range.startRow, range.endRow, range);
    }
  }

  /** An ordered run of layers below `k` followed by an ordered run of layer `k` is ordered. */
  lemma OrderedLayers(a: seq<Cell>, b: seq<Cell>, k: int)
    requires Ordered(a) && Ordered(b)
    requires forall c :: c in a ==> c.layer < k
    requires forall c :: c in b ==> c.layer == k
    ensures Ordered(a + b)
  {
    OrderedAppend(a, b);
  }

  /** A row visits exactly its columns of `[c0, c1)` holding a tile. */
  lemma {:induction false} RowVisitsAre(tm: Tilemap, k: nat, row: int, c0: int, c1: int)
    requires k < |tm.layers|
    ensures forall c :: c in RowVisits(tm, k, row, c0, c1) <==>
      (c.layer == k && c.row == row && c0 <= c.col < c1 && c.id == TileAt(tm.layers[k], row, c.col) && c.id != 0)
    decreases c1 - c0
  {
    if c1 > c0 {
      RowVisitsAre(tm, k, row, c0, c1 - 1);
    }
  }

  /** A layer visits exactly its cells of rows `[r0, r1)` and the range's columns holding a tile. */
  lemma {:induction false} LayerVisitsAre(tm: Tilemap, k: nat, r0: int, r1: int, range: Range)
    requires k < |tm.layers|
    ensures forall c :: c in LayerVisits(tm, k, r0, r1, range) <==>
      (c.layer == k && r0 <= c.row < r1 && range.startCol <= c.col < range.endCol &&
       c.id == TileAt(tm.layers[k], c.row, c.col) && c.id != 0)
    decreases r1 - r0
  {
    if r1 > r0 {
      LayerVisitsAre(tm, k, r0, r1 - 1, range);
      RowVisitsAre(tm, k, r1 - 1, range.startCol, range.endCol);
    }
  }

  /** The first `n` layers visit exactly the cells of `range` holding a tile, each with its id. */
  lemma {:induction false} VisitsAre(tm: Tilemap, n: nat, range: Range)
    requires n <= |tm.layers|
    ensures forall c :: c in Visits(tm, n, range) <==>
      (c.layer < n && range.startRow <= c.row < range.endRow && range.startCol <= c.col < range.endCol &&
       c.id == TileAt(tm.layers[c.layer], c.row, c.col) && c.id != 0)
  {
    if n > 0 {
      VisitsAre(tm, n - 1, range);
      LayerVisitsAre(tm, n - 1, range.startRow, range.endRow, range);
    }
  }

  /** A row's cells are visited left to right. */
  lemma {:induction false} RowVisitsOrdered(tm: Tilemap, k: nat, row: int, c0: int, c1: int)
    requires k < |tm.layers|
    ensures Ordered(RowVisits(tm, k, row, c0, c1))
    decreases c1 - c0
  {
    if c1 > c0 {
      RowVisitsOrdered(tm, k, row, c0, c1 - 1);
      RowCellsIn(tm, k, row, c0, c1 - 1);
      var id := TileAt(tm.layers[k], row, c1 - 1);
      var last := if id != 0 then [Cell(k, row, c1 - 1, id)] else [];
      OrderedAppend(RowVisits(tm, k, row, c0, c1 - 1), last);
    }
  }

  /** A layer's cells are visited row by row. */
  lemma {:induction false} LayerVisitsOrdered(tm: Tilemap, k: nat, r0: int, r1: int, range: Range)
    requires k < |tm.layers|
    ensures Ordered(LayerVisits(tm, k, r0, r1, range))
    decreases r1 - r0
  {
    if r1 > r0 {
      var front := LayerVisits(tm, k, r0, r1 - 1, range);
      var last := RowVisits(tm, k, r1 - 1, range.startCol, range.endCol);
      assert LayerVisits(tm, k, r0, r1, range) == front + last;
      LayerVisitsOrdered(tm, k, r0, r1 - 1, range);
      RowVisitsOrdered(tm, k, r1 - 1, range.startCol, range.endCol);
      LayerCellsIn(tm, k, r0, r1 - 1, range);
      RowCellsIn(tm, k, r1 - 1, range.startCol, range.endCol);
      OrderedAppend(front, last);
    }
  }

  /** The cells are visited once each, layer by layer and row-major within a layer. */
  lemma {:induction false} VisitsOrdered(tm: Tilemap, n: nat, range: Range)
    requires n <= |tm.layers|
    ensures Ordered(Visits(tm, n, range))
  {
    if n > 0 {
      var front := Visits(tm, n - 1, range);
      var last := LayerVisits(tm, n - 1, range.startRow, range.endRow, range);
      assert Visits(tm, n, range) == front + last;
      VisitsOrdered(tm, n - 1, range);
      LayerVisitsOrdered(tm, n - 1, range.startRow, range.endRow, range);
      VisitsLayers(tm, n - 1, range);
      LayerCellsIn(tm, n - 1, range.startRow, range.endRow, range);
      OrderedLayers(front, last, n - 1);
    }
  }

  /** The atlas cell of tile id `t`: ids are 1-based, the atlas is `columns` cells wide. */
  function Source(tileset: TilesetLoader.TilesetAsset, t: int): Rect
    requires tileset.columns != 0
  {
    var index := t - 1;
    Rect(TruncMod(index, tileset.columns) * tileset.tileWidth, TruncDiv(index, tileset.columns) * tileset.tileHeight,
         tileset.tileWidth, tileset.tileHeight)
  }

  /** `std::round`: the nearest integer, halves away from zero. */
  function Round(x: real): (r: int)
    ensures x - 0.5 <= r as real <= x + 0.5
    ensures r as real == x + 0.5 ==> x > 0.0
    ensures r as real == x - 0.5 ==> x < 0.0
  {
    if x >= 0.0 then (x + 0.5).Floor else -((-x + 0.5).Floor)
  }

  /** The screen rectangle of cell `row`, `col`: its world position less the view's corner, rounded. */
  function Dest(tm: Tilemap, camera: Camera, screen: Screen, row: int, col: int): Rect
  {
    Rect(Round((col * tm.tileWidth) as real - Left(camera, screen)),
         Round((row * tm.tileHeight) as real - Top(camera, screen)),
         tm.tileWidth, tm.tileHeight)
  }

  /** The draw call of a visited cell. */
  function DrawOf(tm: Tilemap, tileset: TilesetLoader.TilesetAsset, camera: Camera, screen: Screen, c: Cell): DrawCall
    requires tileset.columns != 0
  {
    DrawCall(Source(tileset, c.id), Dest(tm, camera, screen, c.row, c.col))
  }

  /** The draw calls of the cells, in the same order. */
  function Calls(tm: Tilemap, tileset: TilesetLoader.TilesetAsset, camera: Camera, screen: Screen, cells: seq<Cell>): seq<DrawCall>
    requires tileset.columns != 0 || cells == []
    decreases |cells|
  {
    if cells == [] then []
    else
      var n := |cells| - 1;
      Calls(tm, tileset, camera, screen, cells[..n]) + [DrawOf(tm, tileset, camera, screen, cells[n])]
  }

  /** There is one call per cell, the `i`-th drawing the `i`-th cell. */
  lemma {:induction false} CallsAre(tm: Tilemap, tileset: TilesetLoader.TilesetAsset, camera: Camera, screen: Screen, cells: seq<Cell>)
    requires tileset.columns != 0 || cells == []
    ensures |Calls(tm, tileset, camera, screen, cells)| == |cells|
    ensures forall i :: 0 <= i < |cells| ==> Calls(tm, tileset, camera, screen, cells)[i] == DrawOf(tm, tileset, camera, screen, cells[i])
    decreases |cells|
  {
    if cells != [] {
      var n := |cells| - 1;
      CallsAre(tm, tileset, camera, screen, cells[..n]);
    }
  }

  /**
   * What `draw` may assume: a tilemap with a non-zero tile size and at least one layer, every
   * visible cell readable in every layer, and a non-zero column count if any tile is drawn.
   */
  predicate Drawable(tm: Tilemap, tileset: TilesetLoader.TilesetAsset, camera: Camera, screen: Screen)
  {
    tm.tileWidth != 0 && tm.tileHeight != 0 && tm.layers != [] &&
    var range := VisibleRange(tm, camera, screen);
    Readable(tm, range) && (tileset.columns != 0 || Visits(tm, |tm.layers|, range) == [])
  }

  /** The tileset a tilemap draws from, looked up in the resource cache. */
  function TilesetFor(tm: Tilemap, tilesets: map<string, TilesetLoader.TilesetAsset>): Option<TilesetLoader.TilesetAsset>
  {
    if tm.tilesetAssetId in tilesets then Some(tilesets[tm.tilesetAssetId]) else None
  }

  /** `draw` is defined: when there is a map, its tileset and a camera, the map can be drawn. */
  predicate Defined(tm: Option<Tilemap>, tilesets: map<string, TilesetLoader.TilesetAsset>, camera: Option<Camera>, screen: Screen)
  {
    tm.Some? && TilesetFor(tm.value, tilesets).Some? && camera.Some? ==>
      Drawable(tm.value, TilesetFor(tm.value, tilesets).value, camera.value, screen)
  }

  /**
   * The draw calls of one frame: none without a tilemap, without its tileset in the cache or
   * without a (valid) active camera; otherwise one per visible cell holding a tile, in drawing
   * order. A cached tileset always has its atlas texture.
   */
  function Render(tm: Option<Tilemap>, tilesets: map<string, TilesetLoader.TilesetAsset>, camera: Option<Camera>, screen: Screen): seq<DrawCall>
    requires Defined(tm, tilesets, camera, screen)
  {
    if tm.None? || TilesetFor(tm.value, tilesets).None? || camera.None? then []
    else
      FrameCalls(tm.value, TilesetFor(tm.value, tilesets).value, camera.value, screen)
  }

  /** The draw calls of the visible cells holding a tile, in drawing order. */
  function FrameCalls(tm: Tilemap, tileset: TilesetLoader.TilesetAsset, camera: Camera, screen: Screen): seq<DrawCall>
    requires Drawable(tm, tileset, camera, screen)
  {
    Calls(tm, tileset, camera, screen, Visits(tm, |tm.layers|, VisibleRange(tm, camera, screen)))
  }

  /**
   * The calls of a frame are those of the visible cells holding a tile, one each, in drawing
   * order: the `i`-th draws the `i`-th visited cell, from its tile's atlas cell, to a rectangle
   * of the map's tile size within half a pixel of the cell's position relative to the view.
   */
  lemma RenderCalls(tm: Tilemap, tileset: TilesetLoader.TilesetAsset, camera: Camera, screen: Screen, i: nat)
    requires Drawable(tm, tileset, camera, screen)
    ensures |FrameCalls(tm, tileset, camera, screen)| == |Visits(tm, |tm.layers|, VisibleRange(tm, camera, screen))|
    ensures i < |Visits(tm, |tm.layers|, VisibleRange(tm, camera, screen))| ==>
      var c := Visits(tm, |tm.layers|, VisibleRange(tm, camera, screen))[i];
      var call := FrameCalls(tm, tileset, camera, screen)[i];
      c.layer < |tm.layers| && c.id == TileAt(tm.layers[c.layer], c.row, c.col) && c.id != 0 && tileset.columns != 0 &&
      call.src == Source(tileset, c.id) &&
      call.dst.w == tm.tileWidth && call.dst.h == tm.tileHeight &&
      (c.col * tm.tileWidth) as real - Left(camera, screen) - 0.5 <= call.dst.x as real <= (c.col * tm.tileWidth) as real - Left(camera, screen) + 0.5 &&
      (c.row * tm.tileHeight) as real - Top(camera, screen) - 0.5 <= call.dst.y as real <= (c.row * tm.tileHeight) as real - Top(camera, screen) + 0.5
  {
    var range := VisibleRange(tm, camera, screen);
    var cells := Visits(tm, |tm.layers|, range);
    VisitsAre(tm, |tm.layers|, range);
    CallsAre(tm, tileset, camera, screen, cells);
    if i < |cells| {
      assert cells[i] in cells;
    }
  }

  /**
   * A frame draws nothing for a missing tilemap, tileset or camera, and with positive tile
   * sizes it draws a cell exactly when it holds a non-zero id and its tile overlaps the screen
   * within the first layer's bounds.
   */
  lemma VisibleCells(tm: Tilemap, camera: Camera, screen: Screen, c: Cell)
    requires tm.tileWidth > 0 && tm.tileHeight > 0 && tm.layers != []
    ensures c in Visits(tm, |tm.layers|, VisibleRange(tm, camera, screen)) <==>
      c.layer < |tm.layers| && c.id == TileAt(tm.layers[c.layer], c.row, c.col) && c.id != 0 &&
      0 <= c.row < tm.layers[0].heightInTiles && 0 <= c.col < tm.layers[0].widthInTiles &&
      Left(camera, screen) < ((c.col + 1) * tm.tileWidth) as real &&
      (c.col * tm.tileWidth) as real <= Left(camera, screen) + screen.w as real - 1.0 &&
      Top(camera, screen) < ((c.row + 1) * tm.tileHeight) as real &&
      (c.row * tm.tileHeight) as real <= Top(camera, screen) + screen.h as real - 1.0
  {
    var range := VisibleRange(tm, camera, screen);
    assert range.startCol == StartIndex(Left(camera, screen), tm.tileWidth);
    assert range.endCol == EndIndex(Left(camera, screen), screen.w, tm.tileWidth, tm.layers[0].widthInTiles);
    assert range.startRow == StartIndex(Top(camera, screen), tm.tileHeight);
    assert range.endRow == EndIndex(Top(camera, screen), screen.h, tm.tileHeight, tm.layers[0].heightInTiles);
    VisitsAre(tm, |tm.layers|, range);
    InRange(Left(camera, screen), screen.w, tm.tileWidth, tm.layers[0].widthInTiles, c.col);
    InRange(Top(camera, screen), screen.h, tm.tileHeight, tm.layers[0].heightInTiles, c.row);
  }

  /** Nothing is drawn without a tilemap, its tileset or a camera. */
  lemma NothingToDraw(tm: Option<Tilemap>, tilesets: map<string, TilesetLoader.TilesetAsset>, camera: Option<Camera>, screen: Screen)
    requires tm.None? || TilesetFor(tm.value, tilesets).None? || camera.None?
    ensures Render(tm, tilesets, camera, screen) == []
  {
  }

  /**
   * The renderer reads tile `t` from the atlas cell where the tileset loader uploaded tile
   * `t - 1`: the grid position `((t - 1) % columns, (t - 1) / columns)`.
   */
  lemma SourceIsUpload(contents: Option<seq<string>>, created: bool, t: int)
    requires TilesetLoader.TilesetAssetOf(contents, created).Some?
    requires TilesetLoader.TilesetAssetOf(contents, created).value.columns > 0 && t >= 1
    ensures var a := TilesetLoader.TilesetAssetOf(contents, created).value;
      TextureAtlas.Placeable(TextureAtlas.Grid(a.columns)) &&
      Source(a, t) == TextureAtlas.Place(TextureAtlas.Grid(a.columns), t - 1, a.tileWidth, a.tileHeight) &&
      forall u :: u in a.atlas.uploads && u.index == t - 1 ==> u.dest == Source(a, t)
  {
    var a := TilesetLoader.TilesetAssetOf(contents, created).value;
    var p := TilesetLoader.Scan(contents.value, 0, TilesetLoader.START);
    assert a.columns == p.fields.columns;
    TilesetLoader.AssetShape(contents, created);
    TruncDivMod(t - 1, a.columns);
  }

  /** The frame's draw calls, by the loops of `draw`. */
  method Draw(tm: Option<Tilemap>, tilesets: map<string, TilesetLoader.TilesetAsset>, camera: Option<Camera>, screen: Screen)
    returns (calls: seq<DrawCall>)
    requires Defined(tm, tilesets, camera, screen)
    ensures calls == Render(tm, tilesets, camera, screen)
  {
    if tm.None? {
      return [];
    }
    var t := tm.value;
    var tileset := TilesetFor(t, tilesets);
    if tileset.None? || camera.None? {
      return [];
    }
    var range := VisibleRange(t, camera.value, screen);
    calls := [];
    ghost var cells: seq<Cell> := [];
    var k := 0;
    while k < |t.layers|
      invariant k <= |t.layers| && cells == Visits(t, k, range)
      invariant tileset.value.columns != 0 || cells == []
      invariant calls == Calls(t, tileset.value, camera.value, screen, cells)
    {
      LayerWithin(t, range, |t.layers|, k);
      calls, cells := DrawLayer(t, tileset.value, camera.value, screen, range, k, calls, cells);
      k := k + 1;
    }
  }

  /** The loop over the rows of layer `k`, appending to the calls so far. */
  method DrawLayer(t: Tilemap, tileset: TilesetLoader.TilesetAsset, camera: Camera, screen: Screen, range: Range,
                   k: nat, calls0: seq<DrawCall>, ghost cells0: seq<Cell>)
    returns (calls: seq<DrawCall>, ghost cells: seq<Cell>)
    requires k < |t.layers| && Readable(t, range)
    requires tileset.columns != 0 || LayerVisits(t, k, range.startRow, range.endRow, range) == []
    requires tileset.columns != 0 || cells0 == []
    requires calls0 == Calls(t, tileset, camera, screen, cells0)
    ensures cells == cells0 + LayerVisits(t, k, range.startRow, range.endRow, range)
    ensures tileset.columns != 0 || cells == []
    ensures calls == Calls(t, tileset, camera, screen, cells)
  {
    calls, cells := calls0, cells0;
    var row := range.startRow;
    ghost var stop := if range.endRow < row then row else range.endRow;
    while row < range.endRow
      invariant range.startRow <= row <= stop
      invariant cells == cells0 + LayerVisits(t, k, range.startRow, row, range)
      invariant tileset.columns != 0 || cells == []
      invariant calls == Calls(t, tileset, camera, screen, cells)
    {
      RowWithin(t, k, range, range.endRow, row);
      RowReadable(t, range, k, row);
      ghost var before := LayerVisits(t, k, range.startRow, row, range);
      calls, cells := DrawRow(t, tileset, camera, screen, k, row, range.startCol, range.endCol, calls, cells);
      TextAssets.AppendAssoc(cells0, before, RowVisits(t, k, row, range.startCol, range.endCol));
      assert LayerVisits(t, k, range.startRow, row + 1, range) == before + RowVisits(t, k, row, range.startCol, range.endCol);
      row := row + 1;
    }
    assert LayerVisits(t, k, range.startRow, row, range) == LayerVisits(t, k, range.startRow, range.endRow, range);
  }

  /** The loop over columns `[c0, c1)` of row `row` of layer `k`, appending to the calls so far. */
  method DrawRow(t: Tilemap, tileset: TilesetLoader.TilesetAsset, camera: Camera, screen: Screen,
                 k: nat, row: int, c0: int, c1: int, calls0: seq<DrawCall>, ghost cells0: seq<Cell>)
    returns (calls: seq<DrawCall>, ghost cells: seq<Cell>)
    requires k < |t.layers|
    requires forall col :: c0 <= col < c1 ==> 0 <= CellIndex(t.layers[k], row, col) < |t.layers[k].tileIds|
    requires tileset.columns != 0 || RowVisits(t, k, row, c0, c1) == []
    requires tileset.columns != 0 || cells0 == []
    requires calls0 == Calls(t, tileset, camera, screen, cells0)
    ensures cells == cells0 + RowVisits(t, k, row, c0, c1)
    ensures tileset.columns != 0 || cells == []
    ensures calls == Calls(t, tileset, camera, screen, cells)
  {
    calls, cells := calls0, cells0;
    var col := c0;
    ghost var stop := if c1 < col then col else c1;
    while col < c1
      invariant c0 <= col <= stop
      invariant cells == cells0 + RowVisits(t, k, row, c0, col)
      invariant tileset.columns != 0 || cells == []
      invariant calls == Calls(t, tileset, camera, screen, cells)
    {
      calls, cells := DrawCell(t, tileset, camera, screen, k, row, c0, c1, col, calls, cells0, cells);
      col := col + 1;
    }
    assert RowVisits(t, k, row, c0, col) == RowVisits(t, k, row, c0, c1);
  }

  /** The body of the column loop: the cell at `row`, `col` of layer `k` is drawn unless its id is 0. */
  method DrawCell(t: Tilemap, tileset: TilesetLoader.TilesetAsset, camera: Camera, screen: Screen,
                  k: nat, row: int, c0: int, c1: int, col: int, calls0: seq<DrawCall>, ghost base: seq<Cell>, ghost cells0: seq<Cell>)
    returns (calls: seq<DrawCall>, ghost cells: seq<Cell>)
    requires k < |t.layers| && c0 <= col < c1
    requires 0 <= CellIndex(t.layers[k], row, col) < |t.layers[k].tileIds|
    requires tileset.columns != 0 || RowVisits(t, k, row, c0, c1) == []
    requires cells0 == base + RowVisits(t, k, row, c0, col)
    requires tileset.columns != 0 || cells0 == []
    requires calls0 == Calls(t, tileset, camera, screen, cells0)
    ensures cells == base + RowVisits(t, k, row, c0, col + 1)
    ensures tileset.columns != 0 || cells == []
    ensures calls == Calls(t, tileset, camera, screen, cells)
  {
    var layer := t.layers[k];
    var id := layer.tileIds[CellIndex(layer, row, col)];
    assert id == TileAt(t.layers[k], row, col);
    if id != 0 {
      RowCell(t, k, row, c0, c1, col);
      calls, cells := Append(t, tileset, camera, screen, calls0, cells0, Cell(k, row, col, id));
      TextAssets.AppendAssoc(base, RowVisits(t, k, row, c0, col), [Cell(k, row, col, id)]);
    } else {
      calls, cells := calls0, cells0;
    }
  }

  /** Every cell of a row of a readable range can be read. */
  lemma RowReadable(tm: Tilemap, range: Range, k: nat, row: int)
    requires Readable(tm, range) && k < |tm.layers| && range.startRow <= row < range.endRow
    ensures forall col :: range.startCol <= col < range.endCol ==> 0 <= CellIndex(tm.layers[k], row, col) < |tm.layers[k].tileIds|
  {
  }

  /** A layer draws no more cells than all the layers. */
  lemma {:induction false} LayerWithin(tm: Tilemap, range: Range, n: nat, k: nat)
    requires k < n <= |tm.layers|
    ensures |LayerVisits(tm, k, range.startRow, range.endRow, range)| <= |Visits(tm, n, range)|
  {
    var front := Visits(tm, n - 1, range);
    var last := LayerVisits(tm, n - 1, range.startRow, range.endRow, range);
    assert Visits(tm, n, range) == front + last;
    if k < n - 1 {
      LayerWithin(tm, range, n - 1, k);
    }
  }

  /** A row of the range draws no more cells than its layer. */
  lemma {:induction false} RowWithin(tm: Tilemap, k: nat, range: Range, r1: int, row: int)
    requires k < |tm.layers| && range.startRow <= row < r1
    ensures |RowVisits(tm, k, row, range.startCol, range.endCol)| <= |LayerVisits(tm, k, range.startRow, r1, range)|
    decreases r1 - range.startRow
  {
    var front := LayerVisits(tm, k, range.startRow, r1 - 1, range);
    var last := RowVisits(tm, k, r1 - 1, range.startCol, range.endCol);
    assert LayerVisits(tm, k, range.startRow, r1, range) == front + last;
    if row < r1 - 1 {
      RowWithin(tm, k, range, r1 - 1, row);
    }
  }

  /** A column of `[c0, c1)` holding a tile is visited. */
  lemma RowCell(tm: Tilemap, k: nat, row: int, c0: int, c1: int, col: int)
    requires k < |tm.layers| && c0 <= col < c1 && TileAt(tm.layers[k], row, col) != 0
    ensures Cell(k, row, col, TileAt(tm.layers[k], row, col)) in RowVisits(tm, k, row, c0, c1)
  {
    RowVisitsAre(tm, k, row, c0, c1);
  }

  /** One drawn cell more. */
  method Append(t: Tilemap, tileset: TilesetLoader.TilesetAsset, camera: Camera, screen: Screen,
                calls0: seq<DrawCall>, ghost cells0: seq<Cell>, c: Cell)
    returns (calls: seq<DrawCall>, ghost cells: seq<Cell>)
    requires tileset.columns != 0
    requires calls0 == Calls(t, tileset, camera, screen, cells0)
    ensures cells == cells0 + [c]
    ensures calls == Calls(t, tileset, camera, screen, cells)
  {
    cells := cells0 + [c];
    assert cells[..|cells0|] == cells0;
    calls := calls0 + [DrawOf(t, tileset, camera, screen, c)];
  }
}
