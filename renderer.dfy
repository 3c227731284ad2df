// `RenderSystem`: the sprites are drawn in the order of a render queue sorted by sort key. The
// queue is rebuilt only when a sprite was added, changed or removed since the last rebuild, which
// the registry reports through `onSpriteUpdate`. Each queued sprite is drawn with the atlas
// frame its animation state selects.

module Renderer {
  import opened Wrappers
  import opened Geometry
  import opened Components
  import SpriteLoader
  import TextureAtlas

  type SpriteAsset = SpriteLoader.SpriteAsset

  /** An entity paired with its sort key; renderables compare by key alone. */
  datatype Renderable = Renderable(entity: Entity, sortKey: int)

  predicate SortedByKey(q: seq<Renderable>)
  {
    forall i, j :: 0 <= i < j < |q| ==> q[i].sortKey <= q[j].sortKey
  }

  /** The entities of a list of renderables, in order. */
  function Entities(q: seq<Renderable>): (es: seq<Entity>)
    ensures |es| == |q|
  {
    if q == [] then [] else [q[0].entity] + Entities(q[1..])
  }

  lemma {:induction false} EntitiesAt(q: seq<Renderable>, i: nat)
    requires i < |q|
    ensures Entities(q)[i] == q[i].entity
  {
    if i > 0 {
      EntitiesAt(q[1..], i - 1);
    }
  }

  // ---------------------------------------------------------------------------------------
  // Sorting
  // ---------------------------------------------------------------------------------------

  /** `r` placed before the first renderable with a larger key. */
  function Insert(r: Renderable, q: seq<Renderable>): seq<Renderable>
  {
    if q == [] then [r]
    else if r.sortKey <= q[0].sortKey then [r] + q
    else [q[0]] + Insert(r, q[1..])
  }

  /** Insertion adds exactly `r`. */
  lemma {:induction false} InsertKeeps(r: Renderable, q: seq<Renderable>)
    ensures multiset(Insert(r, q)) == multiset(q) + multiset{r}
  {
    if q != [] && r.sortKey > q[0].sortKey {
      InsertKeeps(r, q[1..]);
      assert q == [q[0]] + q[1..];
    }
  }

  /** Insertion adds exactly the entity of `r` to the entities. */
  lemma {:induction false} InsertKeepsEntities(r: Renderable, q: seq<Renderable>)
    ensures multiset(Entities(Insert(r, q))) == multiset(Entities(q)) + multiset{r.entity}
  {
    if q == [] {
      assert Entities([r]) == [r.entity] + Entities([]);
    } else if r.sortKey <= q[0].sortKey {
      assert ([r] + q)[1..] == q;
    } else {
      var s := Insert(r, q[1..]);
      InsertKeepsEntities(r, q[1..]);
      assert ([q[0]] + s)[1..] == s;
      assert Entities(q) == [q[0].entity] + Entities(q[1..]);
    }
  }

  /** Insertion adds no renderable but `r`. */
  lemma {:induction false} InsertMembers(r: Renderable, q: seq<Renderable>)
    ensures forall x :: x in Insert(r, q) ==> x == r || x in q
  {
    if q != [] && r.sortKey > q[0].sortKey {
      InsertMembers(r, q[1..]);
    }
  }

  /** The first renderable of a sorted list has the least key. */
  lemma HeadIsLeast(q: seq<Renderable>)
    requires SortedByKey(q) && q != []
    ensures forall y :: y in q ==> q[0].sortKey <= y.sortKey
  {
  }

  /** A renderable whose key is at most every key of a sorted list can go in front of it. */
  lemma ConsSorted(x: Renderable, s: seq<Renderable>)
    requires SortedByKey(s)
    requires forall y :: y in s ==> x.sortKey <= y.sortKey
    ensures SortedByKey([x] + s)
  {
    forall i, j | 0 <= i < j < |[x] + s|
      ensures ([x] + s)[i].sortKey <= ([x] + s)[j].sortKey
    {
      if i == 0 {
        assert s[j - 1] in s;
      }
    }
  }

  /** Insertion into a sorted list keeps it sorted. */
  lemma {:induction false} InsertSorted(r: Renderable, q: seq<Renderable>)
    requires SortedByKey(q)
    ensures SortedByKey(Insert(r, q))
  {
    if q == [] {
    } else if r.sortKey <= q[0].sortKey {
      HeadIsLeast(q);
      ConsSorted(r, q);
    } else {
      InsertSorted(r, q[1..]);
      InsertMembers(r, q[1..]);
      HeadIsLeast(q);
      assert forall y :: y in q[1..] ==> y in q;
      ConsSorted(q[0], Insert(r, q[1..]));
    }
  }

  /**
   * What `std::sort` does to the collected renderables, in one of the orders it may choose among
   * equal keys: an insertion sort.
   */
  function SortByKey(q: seq<Renderable>): seq<Renderable>
  {
    if q == [] then [] else Insert(q[0], SortByKey(q[1..]))
  }

  /** The sort yields a list sorted by key. */
  lemma {:induction false} SortByKeySorted(q: seq<Renderable>)
    ensures SortedByKey(SortByKey(q))
  {
    if q != [] {
      SortByKeySorted(q[1..]);
      InsertSorted(q[0], SortByKey(q[1..]));
    }
  }

  /** The sort yields a permutation of its input. */
  lemma {:induction false} SortByKeyPermutes(q: seq<Renderable>)
    ensures multiset(SortByKey(q)) == multiset(q)
  {
    if q != [] {
      SortByKeyPermutes(q[1..]);
      InsertKeeps(q[0], SortByKey(q[1..]));
      assert q == [q[0]] + q[1..];
    }
  }

  /** The sort permutes the entities of its input. */
  lemma {:induction false} SortByKeyPermutesEntities(q: seq<Renderable>)
    ensures multiset(Entities(SortByKey(q))) == multiset(Entities(q))
  {
    if q != [] {
      SortByKeyPermutesEntities(q[1..]);
      InsertKeepsEntities(q[0], SortByKey(q[1..]));
      assert Entities(q) == [q[0].entity] + Entities(q[1..]);
    }
  }

  // ---------------------------------------------------------------------------------------
  // The render queue
  // ---------------------------------------------------------------------------------------

  /** `temp` holds each viewed entity with the sort key of its sprite, in view order. */
  predicate CollectedFrom(temp: seq<Renderable>, view: seq<Entity>, sprites: map<Entity, Sprite>, sortKey: Sprite -> int)
    requires forall e :: e in view ==> e in sprites
  {
    |temp| == |view| &&
    forall k :: 0 <= k < |temp| ==> temp[k] == Renderable(view[k], sortKey(sprites[view[k]]))
  }

  /**
   * A render queue for the sprites: each sprite entity of the view appears as often as in the
   * view, and the sort keys of the sprites never decrease along the queue.
   */
  predicate RenderOrder(queue: seq<Entity>, view: seq<Entity>, sprites: map<Entity, Sprite>, sortKey: Sprite -> int)
  {
    multiset(queue) == multiset(view) &&
    (forall e :: e in queue ==> e in sprites) &&
    forall i, j :: 0 <= i < j < |queue| ==> sortKey(sprites[queue[i]]) <= sortKey(sprites[queue[j]])
  }

  /** The first loop of the rebuild: one renderable per viewed entity, in view order. */
  method CollectRenderables(view: seq<Entity>, sprites: map<Entity, Sprite>, sortKey: Sprite -> int) returns (temp: seq<Renderable>)
    requires forall e :: e in view ==> e in sprites
    ensures CollectedFrom(temp, view, sprites, sortKey)
  {
    temp := [];
    for i := 0 to |view|
      invariant |temp| == i
      invariant forall k :: 0 <= k < i ==> temp[k] == Renderable(view[k], sortKey(sprites[view[k]]))
    {
      var entity := view[i];
      temp := temp + [Renderable(entity, sortKey(sprites[entity]))];
    }
  }

  /** The last loop of the rebuild: the entities of the sorted renderables, in order. */
  method QueueOf(sorted: seq<Renderable>) returns (queue: seq<Entity>)
    ensures queue == Entities(sorted)
  {
    queue := [];
    for i := 0 to |sorted|
      invariant |queue| == i
      invariant forall k :: 0 <= k < i ==> queue[k] == sorted[k].entity
    {
      queue := queue + [sorted[i].entity];
    }
    forall k | 0 <= k < |sorted|
      ensures queue[k] == Entities(sorted)[k]
    {
      EntitiesAt(sorted, k);
    }
  }

  /** The collected renderables carry the viewed entities, in view order. */
  lemma CollectedEntities(temp: seq<Renderable>, view: seq<Entity>, sprites: map<Entity, Sprite>, sortKey: Sprite -> int)
    requires forall e :: e in view ==> e in sprites
    requires CollectedFrom(temp, view, sprites, sortKey)
    ensures Entities(temp) == view
  {
    forall k | 0 <= k < |temp|
      ensures Entities(temp)[k] == view[k]
    {
      EntitiesAt(temp, k);
    }
  }

  /** Each sorted renderable carries a sprite entity and the sort key of its sprite. */
  lemma SortedKeys(temp: seq<Renderable>, view: seq<Entity>, sprites: map<Entity, Sprite>, sortKey: Sprite -> int, i: nat)
    requires forall e :: e in view ==> e in sprites
    requires CollectedFrom(temp, view, sprites, sortKey)
    requires i < |SortByKey(temp)|
    ensures Entities(SortByKey(temp))[i] in sprites
    ensures sortKey(sprites[Entities(SortByKey(temp))[i]]) == SortByKey(temp)[i].sortKey
  {
    var sorted := SortByKey(temp);
    SortByKeyPermutes(temp);
    EntitiesAt(sorted, i);
    assert sorted[i] in multiset(temp);
    var k :| 0 <= k < |temp| && temp[k] == sorted[i];
  }

  /** The rebuilt queue is a render queue for the viewed sprites. */
  lemma RebuildOrders(temp: seq<Renderable>, view: seq<Entity>, sprites: map<Entity, Sprite>, sortKey: Sprite -> int)
    requires forall e :: e in view ==> e in sprites
    requires CollectedFrom(temp, view, sprites, sortKey)
    ensures RenderOrder(Entities(SortByKey(temp)), view, sprites, sortKey)
  {
    var sorted := SortByKey(temp);
    var queue := Entities(sorted);
    SortByKeySorted(temp);
    SortByKeyPermutesEntities(temp);
    CollectedEntities(temp, view, sprites, sortKey);
    forall i | 0 <= i < |queue|
      ensures queue[i] in sprites && sortKey(sprites[queue[i]]) == sorted[i].sortKey
    {
      SortedKeys(temp, view, sprites, sortKey, i);
    }
  }

  // ---------------------------------------------------------------------------------------
  // Frame selection and draw calls
  // ---------------------------------------------------------------------------------------

  /**
   * The atlas cell of the sprite's frame: the frame's cell in the animation of the sprite's
   * state, when there is one and the frame number, as a `size_t`, lies inside it; cell 0 otherwise.
   */
  function FrameIndex(s: Sprite, asset: SpriteAsset): int
  {
    if s.currentState in asset.animations then
      var sequence := asset.animations[s.currentState];
      var frame := TextureAtlas.SizeT(s.currentFrame);
      if sequence != [] && frame < |sequence| then sequence[frame].frameIndexInAtlas else 0
    else 0
  }

  /** The part of the atlas a sprite is drawn from: its frame's cell of the horizontal strip. */
  function SourceRect(s: Sprite, asset: SpriteAsset): (r: Rect)
    ensures r.y == 0 && r.w == s.width && r.h == s.height
  {
    Rect(FrameIndex(s, asset) * s.width, 0, s.width, s.height)
  }

  /**
   * The frame shown is the animation's entry for the current frame exactly when the state has an
   * animation and the current frame lies inside it; a negative frame number, which the `size_t`
   * comparison turns into a huge one, shows cell 0 like any other miss. (A `std::vector` holds
   * fewer than 2^63 elements.)
   */
  lemma FrameSelection(s: Sprite, asset: SpriteAsset)
    requires -0x8000_0000 <= s.currentFrame < 0x8000_0000
    requires s.currentState in asset.animations ==> |asset.animations[s.currentState]| < 0x8000_0000_0000_0000
    ensures s.currentState in asset.animations && 0 <= s.currentFrame < |asset.animations[s.currentState]| ==>
      FrameIndex(s, asset) == asset.animations[s.currentState][s.currentFrame].frameIndexInAtlas
    ensures !(s.currentState in asset.animations && 0 <= s.currentFrame < |asset.animations[s.currentState]|) ==>
      FrameIndex(s, asset) == 0
  {
    if s.currentState in asset.animations && s.currentFrame < 0 {
      var f, n := s.currentFrame, TextureAtlas.SIZE_T_RANGE;
      assert (f + n) % n == f + n;
      assert f % n == (f + n) % n;
      assert TextureAtlas.SizeT(f) >= |asset.animations[s.currentState]|;
    }
  }

  /**
   * The source rectangle is where the sprite loader placed the chosen frame in its strip atlas,
   * and lies inside an atlas of `n` frames when the chosen cell is one of them.
   */
  lemma SourceIsAtlasCell(s: Sprite, asset: SpriteAsset, n: nat)
    requires s.width > 0 && s.height > 0 && 0 <= FrameIndex(s, asset) < n
    ensures SourceRect(s, asset) == TextureAtlas.Place(TextureAtlas.Strip, FrameIndex(s, asset), s.width, s.height)
    ensures TextureAtlas.Inside(SourceRect(s, asset), s.width * n, s.height)
  {
    var i := FrameIndex(s, asset);
    TextureAtlas.StripCells(n, s.width, s.height, i, i);
  }

  /** One `SDL_RenderCopyF` call: the entity drawn, the asset whose atlas it uses and the source rectangle. */
  datatype DrawCall = DrawCall(entity: Entity, assetId: string, src: Rect)

  /** The draw calls for a queue: one per queued entity whose sprite asset is cached, in queue order. */
  function Draws(queue: seq<Entity>, sprites: map<Entity, Sprite>, assets: map<string, SpriteAsset>): seq<DrawCall>
    requires forall e :: e in queue ==> e in sprites
  {
    if queue == [] then []
    else
      var rest := Draws(queue[..|queue| - 1], sprites, assets);
      var s := sprites[queue[|queue| - 1]];
      if s.assetId in assets then rest + [DrawCall(queue[|queue| - 1], s.assetId, SourceRect(s, assets[s.assetId]))]
      else rest
  }

  /**
   * Every draw call is for a queued entity whose asset is cached and uses that asset's source
   * rectangle, every such entity is drawn, and the entities without an asset are skipped.
   */
  lemma {:induction false} DrawsAre(queue: seq<Entity>, sprites: map<Entity, Sprite>, assets: map<string, SpriteAsset>)
    requires forall e :: e in queue ==> e in sprites
    ensures |Draws(queue, sprites, assets)| <= |queue|
    ensures forall c :: c in Draws(queue, sprites, assets) ==>
      c.entity in queue && c.assetId == sprites[c.entity].assetId && c.assetId in assets &&
      c.src == SourceRect(sprites[c.entity], assets[c.assetId])
    ensures forall e :: e in queue && sprites[e].assetId in assets ==>
      exists c :: c in Draws(queue, sprites, assets) && c.entity == e
  {
    if queue != [] {
      var init := queue[..|queue| - 1];
      var last := queue[|queue| - 1];
      assert forall e :: e in init ==> e in queue;
      DrawsAre(init, sprites, assets);
      var s := sprites[last];
      if s.assetId in assets {
        var c := DrawCall(last, s.assetId, SourceRect(s, assets[s.assetId]));
        assert c in Draws(queue, sprites, assets);
      }
      assert queue == init + [last];
    }
  }

  /** The draw loop: each queued entity in turn, skipping those whose asset is not cached. */
  method DrawQueue(queue: seq<Entity>, sprites: map<Entity, Sprite>, assets: map<string, SpriteAsset>) returns (calls: seq<DrawCall>)
    requires forall e :: e in queue ==> e in sprites
    ensures calls == Draws(queue, sprites, assets)
  {
    calls := [];
    for i := 0 to |queue|
      invariant calls == Draws(queue[..i], sprites, assets)
    {
      assert queue[..i + 1][..i] == queue[..i];
      var entity := queue[i];
      var sprite := sprites[entity];
      if sprite.assetId !in assets {
        continue;
      }
      var asset := assets[sprite.assetId];
      calls := calls + [DrawCall(entity, sprite.assetId, SourceRect(sprite, asset))];
    }
    assert queue[..|queue|] == queue;
  }

  class RenderSystem {
    /** Whether a sprite was added, changed or removed since the queue was last rebuilt. */
    var isDirty: bool
    /** The sprite entities in drawing order. */
    var renderQueue: seq<Entity>

    constructor(dirty: bool)
      ensures isDirty == dirty && renderQueue == []
    {
      isDirty := dirty;
      renderQueue := [];
    }

    /** What the registry calls when a sprite is constructed, updated or destroyed. */
    method OnSpriteUpdate()
      modifies this
      ensures isDirty && renderQueue == old(renderQueue)
    {
      isDirty := true;
    }

    /**
     * One frame. `camera` is the active camera's entity, if any, `alive` the valid entities,
     * `view` the sprite entities in view order with their sprites in `sprites`, `sortKey` the
     * sprites' sort key and `assets` the sprite asset cache. Without a valid camera nothing happens;
     * otherwise a dirty queue is rebuilt and the queue is drawn.
     */
    method Draw(camera: Option<Entity>, alive: set<Entity>, view: seq<Entity>, sprites: map<Entity, Sprite>,
                sortKey: Sprite -> int, assets: map<string, SpriteAsset>) returns (calls: seq<DrawCall>)
      requires forall e :: e in view ==> e in sprites
      requires !isDirty ==> forall e :: e in renderQueue ==> e in sprites
      modifies this
      ensures !(camera.Some? && camera.value in alive) ==>
        calls == [] && isDirty == old(isDirty) && renderQueue == old(renderQueue)
      ensures camera.Some? && camera.value in alive ==>
        !isDirty &&
        (old(isDirty) ==> RenderOrder(renderQueue, view, sprites, sortKey)) &&
        (!old(isDirty) ==> renderQueue == old(renderQueue)) &&
        calls == Draws(renderQueue, sprites, assets)
    {
      if camera.None? {
        return [];
      }
      if camera.value !in alive {
        return [];
      }
      if isDirty {
        var temp := CollectRenderables(view, sprites, sortKey);
        var sorted := SortByKey(temp);
        RebuildOrders(temp, view, sprites, sortKey);
        renderQueue := QueueOf(sorted);
        isDirty := false;
      }
      calls := DrawQueue(renderQueue, sprites, assets);
    }
  }
}
