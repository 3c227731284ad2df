// The tilemap component the map loaders fill in and the tilemap renderer draws.

module TilemapComponent {

  /** One layer of tile ids, row-major: the tile at column x of row y is `tileIds[y * widthInTiles + x]`; 0 is no tile. */
  datatype TileLayer = TileLayer(widthInTiles: int, heightInTiles: int, tileIds: seq<int>)

  /** A tilemap: its tile size in pixels, the tileset it draws from and its layers, bottom first. */
  datatype Tilemap = Tilemap(tileWidth: int, tileHeight: int, tilesetAssetId: string, layers: seq<TileLayer>)
}
