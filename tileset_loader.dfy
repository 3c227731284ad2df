// The `.tileset` asset loader: a line loop that reads the tileset's name, tile size, column
// count and palette, and inside TILES_BEGIN/END one pixel block after each '#' line; the tiles
// are then laid out in a grid atlas `columns` tiles wide.

module TilesetLoader {
  import opened Wrappers
  import opened Streams
  import opened Geometry
  import opened TextAssets
  import opened TextureAtlas

  /** The fields the line loop fills in, as `TilesetAsset` declares them. */
  datatype Fields = Fields(assetId: string, tileWidth: int, tileHeight: int, columns: int)

  /**
   * The line loop's state: the fields, the palette, whether it is inside TILES, the tiles read,
   * and whether a tile's reservation threw `std::length_error`, which ends the loop.
   */
  datatype Parse = Parse(fields: Fields, palette: Palette, inTiles: bool, tiles: seq<seq<Color>>, threw: bool)

  const START: Parse := Parse(Fields("", 0, 0, 0), map[], false, [], false)

  datatype TilesetAsset = TilesetAsset(assetId: string, tileWidth: int, tileHeight: int,
    tileCount: int, columns: int, atlas: Atlas)

  /**
   * The line loop from line `pos` on. Blank lines are skipped; inside the TILES section every
   * '#' line is followed by one tile's pixel block, and outside it '#' lines are skipped; the
   * keys TILESET_NAME, TILE_SIZE, COLUMNS, PALETTE_BEGIN and TILES_BEGIN/END each update their
   * part of the state, and any other key is ignored. A tile whose reservation throws stops the
   * loop with `threw` set.
   */
  function Scan(lines: seq<string>, pos: nat, p: Parse): (r: Parse)
    requires pos <= |lines|
    ensures INT_MIN <= p.fields.columns <= INT_MAX ==> INT_MIN <= r.fields.columns <= INT_MAX
    ensures r.threw ==> p.threw || (r.inTiles && ReserveThrows(r.fields.tileWidth, r.fields.tileHeight))
    decreases |lines| - pos
  {
    if pos == |lines| then p
    else
      var line := lines[pos];
      if line == [] then Scan(lines, pos + 1, p)
      else if line[0] == '#' then
        if p.inTiles then
          if ReserveThrows(p.fields.tileWidth, p.fields.tileHeight) then p.(threw := true)
          else
            var (pixels, next) := BlockRows(lines, pos + 1, p.fields.tileWidth, p.fields.tileHeight, p.palette, []);
            Scan(lines, next, p.(tiles := p.tiles + [pixels]))
        else Scan(lines, pos + 1, p)
      else
        var (s, key) := KeyOf(line);
        if key == "TILESET_NAME" then
          Scan(lines, pos + 1, p.(fields := p.fields.(assetId := ReadWord(s, p.fields.assetId).1)))
        else if key == "TILE_SIZE" then
          var (s2, w) := ReadInt(s, p.fields.tileWidth);
          var h := ReadInt(s2, p.fields.tileHeight).1;
          Scan(lines, pos + 1, p.(fields := p.fields.(tileWidth := w, tileHeight := h)))
        else if key == "COLUMNS" then
          Scan(lines, pos + 1, p.(fields := p.fields.(columns := ReadInt(s, p.fields.columns).1)))
        else if key == "PALETTE_BEGIN" then
          var (palette, next) := PaletteFrom(lines, pos + 1, map[]);
          Scan(lines, next, p.(palette := palette))
        else if key == "TILES_BEGIN" then Scan(lines, pos + 1, p.(inTiles := true))
        else if key == "TILES_END" then Scan(lines, pos + 1, p.(inTiles := false))
        else Scan(lines, pos + 1, p)
  }

  /** The tiles a whole file yields. */
  function TilesOf(lines: seq<string>): seq<seq<Color>>
  {
    Scan(lines, 0, START).tiles
  }

  // ---------------------------------------------------------------------------------------
  // A tile size of mixed sign
  // ---------------------------------------------------------------------------------------

  lemma KeyOfTileSize(w: int, h: int)
    requires INT_MIN <= w <= INT_MAX && INT_MIN <= h <= INT_MAX
    ensures var line := "TILE_SIZE" + Field(w) + Field(h); var (s, key) := KeyOf(line);
      line != [] && line[0] != '#' && key == "TILE_SIZE" && ReadInt(s, 0).1 == w && ReadInt(ReadInt(s, 0).0, 0).1 == h
  {
    var key, rest := "TILE_SIZE", Field(w) + Field(h);
    assert forall k :: 0 <= k < |key| ==> !IsSpace(key[k]);
    AppendAssoc(key, Field(w), Field(h));
    KeyOfLine(key, rest);
    var s := KeyOf(key + rest).0;
    assert s.text[s.pos..] == Field(w) + Field(h) + [];
    ReadTwo(s, w, h, []);
  }

  lemma KeyOfTilesBegin()
    ensures KeyOf("TILES_BEGIN").1 == "TILES_BEGIN"
  {
    var key := "TILES_BEGIN";
    assert forall k :: 0 <= k < |key| ==> !IsSpace(key[k]);
    assert key + "" == key;
    KeyOfLine(key, "");
  }

  /**
   * The file `TILE_SIZE -1 2`, `TILES_BEGIN`, `# t`, `1`: the reservation for its one tile is
   * for a negative number of pixels, so the loader throws and yields no asset.
   */
  lemma MixedSignTileThrows()
    ensures var contents := Some(["TILE_SIZE" + Field(-1) + Field(2), "TILES_BEGIN", "# t", "1"]);
      LoadThrows(contents) && TilesetAssetOf(contents, true).None?
  {
    var lines := ["TILE_SIZE" + Field(-1) + Field(2), "TILES_BEGIN", "# t", "1"];
    var p1 := START.(fields := START.fields.(tileWidth := -1, tileHeight := 2));
    SizeStep(lines, -1, 2);
    TilesBeginStep(lines, p1);
    assert Scan(lines, 2, p1.(inTiles := true)) == p1.(inTiles := true, threw := true);
  }

  lemma SizeStep(lines: seq<string>, w: int, h: int)
    requires INT_MIN <= w <= INT_MAX && INT_MIN <= h <= INT_MAX
    requires |lines| > 1 && lines[0] == "TILE_SIZE" + Field(w) + Field(h)
    ensures Scan(lines, 0, START) == Scan(lines, 1, START.(fields := START.fields.(tileWidth := w, tileHeight := h)))
  {
    KeyOfTileSize(w, h);
  }

  lemma TilesBeginStep(lines: seq<string>, p: Parse)
    requires |lines| > 2 && lines[1] == "TILES_BEGIN"
    ensures Scan(lines, 1, p) == Scan(lines, 2, p.(inTiles := true))
  {
    KeyOfTilesBegin();
  }

  /** The atlas's row count: `std::ceil((float)tileCount / columns)`, truncated to `int`. */
  function AtlasRows(tileCount: nat, columns: int): int
    requires columns != 0
  {
    CeilDiv(tileCount, columns)
  }

  /**
   * `TilesetAssetLoader::loadFromFile`: `contents` is the file's lines (None when it cannot be
   * opened) and `created` whether `SDL_CreateTexture` succeeds. A load that throws, a zero tile
   * width or height, no tiles or zero columns give no asset; the name is not checked.
   */
  function TilesetAssetOf(contents: Option<seq<string>>, created: bool): Option<TilesetAsset>
  {
    if contents.None? then None
    else
      var p := Scan(contents.value, 0, START);
      var f := p.fields;
      if p.threw || f.tileWidth == 0 || f.tileHeight == 0 || p.tiles == [] || f.columns == 0 || !created then None
      else
        var rows := AtlasRows(|p.tiles|, f.columns);
        NonZeroSizeT(f.columns);
        Some(TilesetAsset(f.assetId, f.tileWidth, f.tileHeight, |p.tiles|, f.columns,
          Atlas(f.columns * f.tileWidth, rows * f.tileHeight, Uploads(p.tiles, f.tileWidth, f.tileHeight, Grid(f.columns)))))
  }

  /** A non-zero `int` is a non-zero `size_t`. */
  lemma NonZeroSizeT(c: int)
    requires INT_MIN <= c <= INT_MAX && c != 0
    ensures SizeT(c) > 0
  {
  }

  /**
   * A tileset has a non-zero tile size and column count and counts its tiles; its atlas is
   * `columns` tiles wide and `ceil(tileCount / columns)` tiles high, and it holds each tile of
   * `tileWidth * tileHeight` pixels at its own grid position.
   */
  lemma AssetShape(contents: Option<seq<string>>, created: bool)
    ensures var a := TilesetAssetOf(contents, created);
      a.Some? ==> (a.value.tileWidth != 0 && a.value.tileHeight != 0 && a.value.columns != 0 &&
        var tiles := TilesOf(contents.value);
        a.value.tileCount == |tiles| > 0 &&
        a.value.atlas.width == a.value.columns * a.value.tileWidth &&
        a.value.atlas.height == AtlasRows(|tiles|, a.value.columns) * a.value.tileHeight &&
        Placeable(Grid(a.value.columns)) &&
        (forall u :: u in a.value.atlas.uploads <==>
          (u.index < |tiles| && |tiles[u.index]| == CellSize(a.value.tileWidth, a.value.tileHeight) &&
           u == Upload(u.index, Place(Grid(a.value.columns), u.index, a.value.tileWidth, a.value.tileHeight), tiles[u.index]))))
  {
    var a := TilesetAssetOf(contents, created);
    if a.Some? {
      var p := Scan(contents.value, 0, START);
      NonZeroSizeT(p.fields.columns);
      UploadsAre(p.tiles, p.fields.tileWidth, p.fields.tileHeight, Grid(p.fields.columns));
    }
  }

  /**
   * With positive tile sizes and columns every tile lies inside the atlas and no two tiles
   * overlap; a negative column count is never laid out, since a texture of negative width cannot
   * be created.
   */
  lemma TilesInAtlas(contents: Option<seq<string>>, created: bool)
    ensures var a := TilesetAssetOf(contents, created);
      a.Some? && a.value.tileWidth > 0 && a.value.tileHeight > 0 && a.value.columns > 0 ==>
        forall u, u' :: u in a.value.atlas.uploads && u' in a.value.atlas.uploads ==>
          Inside(u.dest, a.value.atlas.width, a.value.atlas.height) &&
          (u.index != u'.index ==> !HasIntersection(u.dest, u'.dest))
  {
    var a := TilesetAssetOf(contents, created);
    AssetShape(contents, created);
    if a.Some? && a.value.tileWidth > 0 && a.value.tileHeight > 0 && a.value.columns > 0 {
      var t := a.value;
      forall u, u' | u in t.atlas.uploads && u' in t.atlas.uploads
        ensures Inside(u.dest, t.atlas.width, t.atlas.height) && (u.index != u'.index ==> !HasIntersection(u.dest, u'.dest))
      {
        GridCells(t.tileCount, t.columns, t.tileWidth, t.tileHeight, u.index, u'.index);
      }
    }
  }

  /** `loadFromFile` throws: the file opens and the line loop ends with a throw. */
  predicate LoadThrows(contents: Option<seq<string>>)
  {
    contents.Some? && Scan(contents.value, 0, START).threw
  }

  /** `threw` says that `std::length_error` leaves the loader; no asset is returned then. */
  method LoadFromFile(contents: Option<seq<string>>, created: bool) returns (asset: Option<TilesetAsset>, threw: bool)
    ensures threw <==> LoadThrows(contents)
    ensures asset == TilesetAssetOf(contents, created)
  {
    if contents.None? {
      return None, false;
    }
    var file := new TextFile(contents.value);
    var p := ReadLines(file);
    if p.threw {
      return None, true;
    }
    threw := false;
    var f := p.fields;
    if f.tileWidth == 0 || f.tileHeight == 0 || p.tiles == [] || f.columns == 0 {
      return None, false;
    }
    var tileCount := |p.tiles|;
    var rows := AtlasRows(tileCount, f.columns);
    if !created {
      return None, false;
    }
    NonZeroSizeT(f.columns);
    var uploads := UploadBlocks(p.tiles, f.tileWidth, f.tileHeight, Grid(f.columns));
    asset := Some(TilesetAsset(f.assetId, f.tileWidth, f.tileHeight, tileCount, f.columns,
      Atlas(f.columns * f.tileWidth, rows * f.tileHeight, uploads)));
  }

  /** The line loop of `loadFromFile`, over the whole file; `p` gathers its local variables. */
  method ReadLines(file: TextFile) returns (p: Parse)
    requires file.Valid() && file.pos == 0
    modifies file
    ensures p == Scan(file.lines, 0, START)
  {
    var assetId, tileWidth, tileHeight, columns := "", 0, 0, 0;
    var palette: Palette := map[];
    var inTiles := false;
    var tilePixelData: seq<seq<Color>> := [];
    while true
      invariant file.Valid()
      invariant Scan(file.lines, file.pos, Parse(Fields(assetId, tileWidth, tileHeight, columns), palette, inTiles, tilePixelData, false)) ==
        Scan(file.lines, 0, START)
      decreases |file.lines| - file.pos
    {
      var ok, line := file.GetLine();
      if !ok {
        break;
      }
      if line == [] {
        continue;
      }
      if line[0] == '#' {
        if inTiles {
          var pixels, threw := ParsePixelBlock(file, tileWidth, tileHeight, palette);
          if threw {
            return Parse(Fields(assetId, tileWidth, tileHeight, columns), palette, inTiles, tilePixelData, true);
          }
          tilePixelData := tilePixelData + [pixels];
        }
        continue;
      }
      var (ss, key) := KeyOf(line);
      if key == "TILESET_NAME" {
        assetId := ReadWord(ss, assetId).1;
      } else if key == "TILE_SIZE" {
        var (ss2, w) := ReadInt(ss, tileWidth);
        tileWidth, tileHeight := w, ReadInt(ss2, tileHeight).1;
      } else if key == "COLUMNS" {
        columns := ReadInt(ss, columns).1;
      } else if key == "PALETTE_BEGIN" {
        palette := ParsePalette(file);
      } else if key == "TILES_BEGIN" {
        inTiles := true;
      } else if key == "TILES_END" {
        inTiles := false;
      }
    }
    p := Parse(Fields(assetId, tileWidth, tileHeight, columns), palette, inTiles, tilePixelData, false);
  }
}
