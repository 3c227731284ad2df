// The asset cache: sprite and tileset assets are loaded once from files under the executable's
// directory and kept by asset id. The file loaders (which read the file and create the texture)
// are given as functions from a path to the asset they yield, or None when loading fails.

module Resources {
  import opened Wrappers
  import SpriteLoader
  import TilesetLoader

  type SpriteAsset = SpriteLoader.SpriteAsset
  type TilesetAsset = TilesetLoader.TilesetAsset

  /** The file a sprite asset is loaded from. */
  function SpritePath(base: string, id: string): string
  {
    base + "res/sprites/" + id + ".sprite"
  }

  /** The file a tileset asset is loaded from. */
  function TilesetPath(base: string, id: string): string
  {
    base + "res/tilesets/" + id + ".tileset"
  }

  /**
   * Different ids give different files, and a sprite file is never a tileset file: the loaders
   * are asked for one file per asset.
   */
  lemma PathsAreDistinct(base: string, a: string, b: string)
    ensures SpritePath(base, a) == SpritePath(base, b) ==> a == b
    ensures TilesetPath(base, a) == TilesetPath(base, b) ==> a == b
    ensures SpritePath(base, a) != TilesetPath(base, b)
  {
    var n := |base|;
    if SpritePath(base, a) == SpritePath(base, b) {
      assert |a| == |b|;
      assert a == SpritePath(base, a)[n + 12..n + 12 + |a|];
      assert b == SpritePath(base, b)[n + 12..n + 12 + |b|];
    }
    if TilesetPath(base, a) == TilesetPath(base, b) {
      assert |a| == |b|;
      assert a == TilesetPath(base, a)[n + 13..n + 13 + |a|];
      assert b == TilesetPath(base, b)[n + 13..n + 13 + |b|];
    }
    assert SpritePath(base, a)[n + 4] == 's';
    assert TilesetPath(base, b)[n + 4] == 't';
  }

  /**
   * `loadSpriteAsset` on a cache: a cached asset is returned as it is and the loader is not
   * asked; otherwise the loaded asset is cached under `id` when its own id is `id`, and a
   * failed load or an asset with another id gives None and leaves the cache as it was.
   */
  function SpriteLoad(sprites: map<string, SpriteAsset>, base: string, loader: string -> Option<SpriteAsset>, id: string): (r: (Option<SpriteAsset>, map<string, SpriteAsset>))
  {
    if id in sprites then (Some(sprites[id]), sprites)
    else
      var asset := loader(SpritePath(base, id));
      if asset.Some? && asset.value.assetId == id then (asset, sprites[id := asset.value])
      else (None, sprites)
  }

  /** `loadTilesetAsset` on a cache: as for sprites, but the loaded asset's own id is not checked. */
  function TilesetLoad(tilesets: map<string, TilesetAsset>, base: string, loader: string -> Option<TilesetAsset>, id: string): (r: (Option<TilesetAsset>, map<string, TilesetAsset>))
  {
    if id in tilesets then (Some(tilesets[id]), tilesets)
    else
      var asset := loader(TilesetPath(base, id));
      if asset.Some? then (asset, tilesets[id := asset.value]) else (None, tilesets)
  }

  /** Every cached sprite is kept under its own asset id. */
  predicate IdsMatch(sprites: map<string, SpriteAsset>)
  {
    forall k :: k in sprites ==> sprites[k].assetId == k
  }

  /**
   * A sprite load keeps every cached entry, adds at most the requested id and only on success,
   * and keeps every sprite under its own id; what it returns is the entry it leaves under `id`.
   */
  lemma SpriteLoadCaches(sprites: map<string, SpriteAsset>, base: string, loader: string -> Option<SpriteAsset>, id: string)
    ensures var (asset, after) := SpriteLoad(sprites, base, loader, id);
      (forall k :: k in sprites ==> k in after && after[k] == sprites[k]) &&
      after.Keys == sprites.Keys + (if asset.Some? then {id} else {}) &&
      (asset.Some? ==> id in after && after[id] == asset.value) &&
      (IdsMatch(sprites) ==> IdsMatch(after) && (asset.Some? ==> asset.value.assetId == id))
  {
  }

  /** Loading a sprite again after a success returns the same asset and changes nothing. */
  lemma SpriteLoadIdempotent(sprites: map<string, SpriteAsset>, base: string, loader: string -> Option<SpriteAsset>, id: string)
    ensures var (asset, after) := SpriteLoad(sprites, base, loader, id);
      asset.Some? ==> SpriteLoad(after, base, loader, id) == (asset, after)
  {
  }

  /** A loaded sprite whose own id differs from the requested one is dropped. */
  lemma SpriteIdMismatch(sprites: map<string, SpriteAsset>, base: string, loader: string -> Option<SpriteAsset>, id: string)
    requires id !in sprites && loader(SpritePath(base, id)).Some? && loader(SpritePath(base, id)).value.assetId != id
    ensures SpriteLoad(sprites, base, loader, id) == (None, sprites)
  {
  }

  /**
   * A tileset load keeps every cached entry and caches whatever the loader yields under the
   * requested id, whatever the asset's own id; loading again after a success changes nothing.
   */
  lemma TilesetLoadCaches(tilesets: map<string, TilesetAsset>, base: string, loader: string -> Option<TilesetAsset>, id: string)
    ensures var (asset, after) := TilesetLoad(tilesets, base, loader, id);
      (forall k :: k in tilesets ==> k in after && after[k] == tilesets[k]) &&
      after.Keys == tilesets.Keys + (if asset.Some? then {id} else {}) &&
      (id !in tilesets ==> asset == loader(TilesetPath(base, id))) &&
      (asset.Some? ==> id in after && after[id] == asset.value && TilesetLoad(after, base, loader, id) == (asset, after))
  {
  }

  class ResourceManager {
    /** The executable's directory, or "./" when it cannot be found. */
    var basePath: string
    var sprites: map<string, SpriteAsset>
    var tilesets: map<string, TilesetAsset>

    /** `sdlBasePath` is what `SDL_GetBasePath` returns. */
    constructor(sdlBasePath: Option<string>)
      ensures basePath == (if sdlBasePath.Some? then sdlBasePath.value else "./")
      ensures sprites == map[] && tilesets == map[]
    {
      basePath := if sdlBasePath.Some? then sdlBasePath.value else "./";
      sprites := map[];
      tilesets := map[];
    }

    /** The cached sprite asset of `id`, if any. */
    function GetSpriteAsset(id: string): (r: Option<SpriteAsset>)
      reads this
      ensures r.Some? <==> id in sprites
      ensures r.Some? ==> r.value == sprites[id]
    {
      if id in sprites then Some(sprites[id]) else None
    }

    /** The cached tileset asset of `id`, if any. */
    function GetTilesetAsset(id: string): (r: Option<TilesetAsset>)
      reads this
      ensures r.Some? <==> id in tilesets
      ensures r.Some? ==> r.value == tilesets[id]
    {
      if id in tilesets then Some(tilesets[id]) else None
    }

    method LoadSpriteAsset(loader: string -> Option<SpriteAsset>, id: string) returns (asset: Option<SpriteAsset>)
      modifies this
      ensures (asset, sprites) == SpriteLoad(old(sprites), basePath, loader, id)
      ensures basePath == old(basePath) && tilesets == old(tilesets)
    {
      var cached := GetSpriteAsset(id);
      if cached.Some? {
        return cached;
      }
      var fullPath := basePath + "res/sprites/" + id + ".sprite";
      var loaded := loader(fullPath);
      if loaded.Some? {
        if loaded.value.assetId != id {
          return None;
        }
        sprites := sprites[id := loaded.value];
        return loaded;
      }
      return None;
    }

    /** The source hint is accepted and ignored. */
    method LoadTilesetAsset(loader: string -> Option<TilesetAsset>, id: string, sourceHint: string) returns (asset: Option<TilesetAsset>)
      modifies this
      ensures (asset, tilesets) == TilesetLoad(old(tilesets), basePath, loader, id)
      ensures basePath == old(basePath) && sprites == old(sprites)
    {
      var cached := GetTilesetAsset(id);
      if cached.Some? {
        return cached;
      }
      var fullPath := basePath + "res/tilesets/" + id + ".tileset";
      var loaded := loader(fullPath);
      if loaded.Some? {
        tilesets := tilesets[id := loaded.value];
        return loaded;
      }
      return None;
    }
  }
}
