// The map loader over a map description compiled into the program: it requests every tileset
// that has an image, copies the first tileset's tile size and name into the tilemap, appends one
// layer per tile layer (its ids copied when the layer's data is a flat id list) and turns every
// object of the "Collisions" object group into a static collider with a static rigid body.
//
// The entity registry is abstracted to the sequence of collision objects created, in order.

module HardcodedMapLoader {
  import opened Wrappers
  import opened TilemapComponent
  import Collision
  import TmxLoader

  /** A property value: a string, or any of the other kinds (bool, int, float, colour, class). */
  datatype PropertyValue = Text(text: string) | NotText

  datatype Property = Property(name: string, value: PropertyValue)

  /** An object of an object group: its top-left corner, its size and its optional properties. */
  datatype ObjectDesc = ObjectDesc(x: real, y: real, w: real, h: real, properties: Option<seq<Property>>)

  /** A tile layer's data: a flat list of global tile ids, or chunks. */
  datatype Payload = Gids(gids: seq<TmxLoader.U32>) | Chunks

  datatype LayerDesc =
    | TileLayerDesc(width: int, height: int, data: Option<Payload>)
    | ObjectGroupDesc(name: string, objects: seq<ObjectDesc>)
    | ImageLayerDesc
    | GroupLayerDesc

  /** A tileset: its name, its tile size and the source of its image, if it has one. */
  datatype TilesetDesc = TilesetDesc(name: string, tileWidth: int, tileHeight: int, image: Option<string>)

  datatype MapDesc = MapDesc(tilesets: seq<TilesetDesc>, layers: seq<LayerDesc>)

  datatype BodyType = Static | Kinematic | Dynamic

  /** The rigid body fields this loader sets. */
  datatype RigidBody = RigidBody(bodyType: BodyType, mass: real)

  /** The components of a created collision entity (no rigid body when its properties threw). */
  datatype CollisionObject = CollisionObject(transform: Collision.Transform, collider: Collision.Collider, rigidBody: Option<RigidBody>)

  /** `load` returned true, or a property of the wrong kind made `std::get` throw. */
  datatype Status = Loaded | Threw

  /**
   * What a load leaves behind: its outcome, the (tileset name, image source) pairs handed to the
   * resource manager, the tilemap component and the collision entities created.
   */
  datatype LoadResult = LoadResult(status: Status, tilesetRequests: seq<(string, string)>, tilemap: Tilemap, objects: seq<CollisionObject>)

  /** The property loop's state: the layer, the mask and whether it threw. */
  datatype PropState = PropState(layer: bv32, mask: bv32, threw: bool)

  /** Whether reading property `p` throws: a layer or mask property whose value is not a string. */
  predicate Throws(p: Property)
  {
    (p.name == TmxLoader.LAYER_KEY || p.name == TmxLoader.MASK_KEY) && !p.value.Text?
  }

  /**
   * The property loop: `collisionLayerName` sets the layer from its one name, every
   * `collisionMaskNames` ORs in the bit of its whole value as one name, other properties are
   * ignored; it stops at a property that throws.
   */
  function PropsOf(props: seq<Property>): PropState
  {
    if props == [] then PropState(0, 0, false)
    else
      var st := PropsOf(props[..|props| - 1]);
      var p := props[|props| - 1];
      if st.threw then st
      else if Throws(p) then st.(threw := true)
      else if p.name == TmxLoader.LAYER_KEY then st.(layer := TmxLoader.LayerBitmask(p.value.text))
      else if p.name == TmxLoader.MASK_KEY then st.(mask := st.mask | TmxLoader.LayerBitmask(p.value.text))
      else st
  }

  /** The property loop throws exactly when some layer or mask property is not a string. */
  lemma {:induction false} PropsThrow(props: seq<Property>)
    ensures PropsOf(props).threw <==> exists k :: 0 <= k < |props| && Throws(props[k])
  {
    if props != [] {
      var front := props[..|props| - 1];
      PropsThrow(front);
      if exists k :: 0 <= k < |front| && Throws(front[k]) {
        var k :| 0 <= k < |front| && Throws(front[k]);
        assert props[k] == front[k];
      }
      if exists k :: 0 <= k < |props| && Throws(props[k]) {
        var k :| 0 <= k < |props| && Throws(props[k]);
        if k < |front| {
          assert front[k] == props[k];
        }
      }
    }
  }

  /** A mask property's value names exactly `n`. */
  predicate MaskNames(props: seq<Property>, n: string)
  {
    exists k :: 0 <= k < |props| && props[k].name == TmxLoader.MASK_KEY && props[k].value == Text(n)
  }

  /**
   * Without a throw the mask holds WORLD's bit exactly when some mask property is exactly
   * "WORLD", and PLAYER's bit likewise: each value is one name, and a list is no known name.
   */
  lemma {:induction false} SingleNameMask(props: seq<Property>)
    requires !PropsOf(props).threw
    ensures PropsOf(props).mask == TmxLoader.BitIf(MaskNames(props, "WORLD"), 1) | TmxLoader.BitIf(MaskNames(props, "PLAYER"), 2)
  {
    if props != [] {
      var front := props[..|props| - 1];
      var p := props[|props| - 1];
      SingleNameMask(front);
      if p.name == TmxLoader.MASK_KEY {
        BitmaskIsPresence(p.value.text);
      }
      MaskNamesSplit(props, "WORLD");
      MaskNamesSplit(props, "PLAYER");
    }
  }

  /** A name's bit is WORLD's value 1 (bit 0) for "WORLD", PLAYER's value 2 (bit 1) for "PLAYER", and 0 otherwise. */
  lemma BitmaskIsPresence(n: string)
    ensures TmxLoader.LayerBitmask(n) == TmxLoader.BitIf(n == "WORLD", 1) | TmxLoader.BitIf(n == "PLAYER", 2)
  {
    if n == "WORLD" {
      assert TmxLoader.BitIf(n == "PLAYER", 2) == 0;
    } else if n == "PLAYER" {
    } else {
    }
  }

  lemma MaskNamesSplit(props: seq<Property>, n: string)
    requires props != []
    ensures var p := props[|props| - 1];
      MaskNames(props, n) <==> MaskNames(props[..|props| - 1], n) || (p.name == TmxLoader.MASK_KEY && p.value == Text(n))
  {
    var front := props[..|props| - 1];
    if MaskNames(front, n) {
      var k :| 0 <= k < |front| && front[k].name == TmxLoader.MASK_KEY && front[k].value == Text(n);
      assert props[k] == front[k];
    }
    if MaskNames(props, n) {
      var k :| 0 <= k < |props| && props[k].name == TmxLoader.MASK_KEY && props[k].value == Text(n);
      if k < |front| {
        assert front[k] == props[k];
      }
    }
  }

  /** Unlike the TMX loader, a comma-separated mask value sets no bit. */
  lemma CommaListIsNoName()
    ensures PropsOf([Property(TmxLoader.MASK_KEY, Text("WORLD,PLAYER"))]).mask == 0
    ensures TmxLoader.MaskOf("WORLD,PLAYER") == 3
  {
    var props := [Property(TmxLoader.MASK_KEY, Text("WORLD,PLAYER"))];
    assert props[..0] == [];
    TmxLoader.WorldAndPlayer();
  }

  /** Without a throw the layer is that of the last `collisionLayerName` property. */
  lemma {:induction false} LastLayerWins(props: seq<Property>, i: nat)
    requires !PropsOf(props).threw
    requires i < |props| && props[i].name == TmxLoader.LAYER_KEY
    requires forall j :: i < j < |props| ==> props[j].name != TmxLoader.LAYER_KEY
    ensures props[i].value.Text? && PropsOf(props).layer == TmxLoader.LayerBitmask(props[i].value.text)
  {
    if i < |props| - 1 {
      LastLayerWins(props[..|props| - 1], i);
    }
  }

  /** A static rigid body of mass 0. */
  const STATIC_BODY := RigidBody(Static, 0.0)

  /**
   * The entity an object becomes, and whether its properties threw: a static, non-trigger box
   * of the object's size centred on the middle of the object, at scale 1, with a static rigid
   * body of mass 0. An object without properties keeps layer and mask 0. When a property throws
   * the entity keeps the layer set so far, its mask is never written and it gets no rigid body.
   */
  function ObjectOf(o: ObjectDesc): (r: (CollisionObject, bool))
    ensures var c := r.0;
      c.transform.position.x - c.collider.size.x / 2.0 == o.x && c.transform.position.y - c.collider.size.y / 2.0 == o.y &&
      c.collider.size == Collision.Vec2(o.w, o.h) && c.transform.scale == Collision.Vec2(1.0, 1.0) &&
      c.collider.offset == Collision.Vec2(0.0, 0.0) && c.collider.isStatic && !c.collider.isTrigger &&
      (r.1 <==> (o.properties.Some? && PropsOf(o.properties.value).threw)) &&
      (o.properties.None? ==> c.collider.layer == 0 && c.collider.mask == 0) &&
      (r.1 ==> c.rigidBody.None? && c.collider.mask == 0) &&
      (!r.1 ==> c.rigidBody == Some(STATIC_BODY))
  {
    var st := if o.properties.Some? then PropsOf(o.properties.value) else PropState(0, 0, false);
    (CollisionObject(
       Collision.Transform(Collision.Vec2(o.x + o.w / 2.0, o.y + o.h / 2.0), Collision.Vec2(1.0, 1.0), 0.0),
       Collision.Collider(Collision.Vec2(0.0, 0.0), Collision.Vec2(o.w, o.h), st.layer, if st.threw then 0 else st.mask, true, false),
       if st.threw then None else Some(STATIC_BODY)),
     st.threw)
  }

  /** The object loop of `createCollisionObjects`: one entity per object, up to a throw. */
  function ObjectsOf(objects: seq<ObjectDesc>): (r: (seq<CollisionObject>, bool))
    ensures |r.0| <= |objects|
  {
    if objects == [] then ([], false)
    else
      var (front, threw) := ObjectsOf(objects[..|objects| - 1]);
      if threw then (front, threw)
      else
        var (c, t) := ObjectOf(objects[|objects| - 1]);
        (front + [c], t)
  }

  /** An object whose properties throw. */
  predicate BadObject(o: ObjectDesc)
  {
    o.properties.Some? && exists k :: 0 <= k < |o.properties.value| && Throws(o.properties.value[k])
  }

  /**
   * The object loop throws exactly when some object's properties throw; without a throw every
   * object becomes an entity with a static rigid body of mass 0, in order.
   */
  lemma {:induction false} ObjectsThrow(objects: seq<ObjectDesc>)
    ensures ObjectsOf(objects).1 <==> exists j :: 0 <= j < |objects| && BadObject(objects[j])
    ensures !ObjectsOf(objects).1 ==>
      |ObjectsOf(objects).0| == |objects| &&
      forall j :: 0 <= j < |objects| ==>
        ObjectsOf(objects).0[j] == ObjectOf(objects[j]).0 && ObjectsOf(objects).0[j].rigidBody == Some(STATIC_BODY)
  {
    if objects != [] {
      var front := objects[..|objects| - 1];
      var o := objects[|objects| - 1];
      ObjectsThrow(front);
      if o.properties.Some? {
        PropsThrow(o.properties.value);
      }
      if exists j :: 0 <= j < |front| && BadObject(front[j]) {
        var j :| 0 <= j < |front| && BadObject(front[j]);
        assert objects[j] == front[j];
      }
      if exists j :: 0 <= j < |objects| && BadObject(objects[j]) {
        var j :| 0 <= j < |objects| && BadObject(objects[j]);
        if j < |front| {
          assert front[j] == objects[j];
        }
      }
    }
  }

  /** The ids a tile layer gets: the flat id list when there is one, else none. */
  function IdsOf(data: Option<Payload>): seq<int>
  {
    if data.Some? && data.value.Gids? then TmxLoader.IntIds(data.value.gids) else []
  }

  /** The layer loop's effect so far: whether it threw, the layers appended, the objects created. */
  datatype Progress = Progress(threw: bool, layers: seq<TileLayer>, objects: seq<CollisionObject>)

  function Step(p: Progress, l: LayerDesc): Progress
  {
    match l
    case TileLayerDesc(w, h, data) => p.(layers := p.layers + [TileLayer(w, h, IdsOf(data))])
    case ObjectGroupDesc(name, objects) =>
      if name == TmxLoader.COLLISIONS then
        var (created, threw) := ObjectsOf(objects);
        p.(objects := p.objects + created, threw := threw)
      else p
    case ImageLayerDesc => p
    case GroupLayerDesc => p
  }

  /** The layer loop over the first layers: it stops at the first throw. */
  function ProcessLayers(layers: seq<LayerDesc>): Progress
  {
    if layers == [] then Progress(false, [], [])
    else
      var p := ProcessLayers(layers[..|layers| - 1]);
      if p.threw then p else Step(p, layers[|layers| - 1])
  }

  /** A "Collisions" group holding an object whose properties throw. */
  predicate BadLayer(l: LayerDesc)
  {
    l.ObjectGroupDesc? && l.name == TmxLoader.COLLISIONS && exists j :: 0 <= j < |l.objects| && BadObject(l.objects[j])
  }

  /** The tile layers, each with its copied ids, in order: no tile count is checked. */
  function TileLayersOf(layers: seq<LayerDesc>): seq<TileLayer>
  {
    if layers == [] then []
    else
      var l := layers[|layers| - 1];
      TileLayersOf(layers[..|layers| - 1]) + (if l.TileLayerDesc? then [TileLayer(l.width, l.height, IdsOf(l.data))] else [])
  }

  /**
   * The layer loop throws exactly when a "Collisions" group holds an object whose properties
   * throw; otherwise every tile layer is appended, whatever its tile count.
   */
  lemma {:induction false} LayersThrow(layers: seq<LayerDesc>)
    ensures ProcessLayers(layers).threw <==> exists i :: 0 <= i < |layers| && BadLayer(layers[i])
    ensures !ProcessLayers(layers).threw ==> ProcessLayers(layers).layers == TileLayersOf(layers)
  {
    if layers != [] {
      var front := layers[..|layers| - 1];
      var l := layers[|layers| - 1];
      LayersThrow(front);
      if l.ObjectGroupDesc? {
        ObjectsThrow(l.objects);
      }
      if exists i :: 0 <= i < |front| && BadLayer(front[i]) {
        var i :| 0 <= i < |front| && BadLayer(front[i]);
        assert layers[i] == front[i];
      }
      if exists i :: 0 <= i < |layers| && BadLayer(layers[i]) {
        var i :| 0 <= i < |layers| && BadLayer(layers[i]);
        if i < |front| {
          assert front[i] == layers[i];
        }
      }
    }
  }

  /** Every created object's rigid body, when it has one, is static with mass 0. */
  lemma {:induction false} StaticBodies(layers: seq<LayerDesc>)
    ensures forall c :: c in ProcessLayers(layers).objects ==> c.collider.isStatic && (c.rigidBody.Some? ==> c.rigidBody.value == STATIC_BODY)
  {
    if layers != [] {
      StaticBodies(layers[..|layers| - 1]);
      var l := layers[|layers| - 1];
      if l.ObjectGroupDesc? {
        ObjectsStatic(l.objects);
      }
    }
  }

  lemma {:induction false} ObjectsStatic(objects: seq<ObjectDesc>)
    ensures forall c :: c in ObjectsOf(objects).0 ==> c.collider.isStatic && (c.rigidBody.Some? ==> c.rigidBody.value == STATIC_BODY)
  {
    if objects != [] {
      ObjectsStatic(objects[..|objects| - 1]);
    }
  }

  /** The (name, image source) requests for the tilesets that have an image, in order. */
  function Requests(tilesets: seq<TilesetDesc>): seq<(string, string)>
  {
    if tilesets == [] then []
    else
      var t := tilesets[|tilesets| - 1];
      Requests(tilesets[..|tilesets| - 1]) + (if t.image.Some? then [(t.name, t.image.value)] else [])
  }

  /** Exactly the tilesets with an image are requested, each with its image source as the hint. */
  lemma {:induction false} RequestsAre(tilesets: seq<TilesetDesc>)
    ensures forall q :: q in Requests(tilesets) <==> exists t :: t in tilesets && t.image.Some? && q == (t.name, t.image.value)
  {
    if tilesets != [] {
      var front := tilesets[..|tilesets| - 1];
      RequestsAre(front);
      assert tilesets == front + [tilesets[|tilesets| - 1]];
    }
  }

  /** `HardcodedMapLoader::load`; the source indexes the first tileset without a check. */
  function LoadOf(m: MapDesc): LoadResult
    requires m.tilesets != []
  {
    var first := m.tilesets[0];
    var p := ProcessLayers(m.layers);
    LoadResult(if p.threw then Threw else Loaded, Requests(m.tilesets),
      Tilemap(first.tileWidth, first.tileHeight, first.name, p.layers), p.objects)
  }

  /**
   * A load takes the first tileset's tile size and name, requests the tilesets with an image,
   * and completes unless a collision object's layer or mask property is not a string; without
   * a throw it has appended every tile layer.
   */
  lemma LoadOutcome(m: MapDesc)
    requires m.tilesets != []
    ensures var r := LoadOf(m);
      r.tilemap.tileWidth == m.tilesets[0].tileWidth && r.tilemap.tileHeight == m.tilesets[0].tileHeight &&
      r.tilemap.tilesetAssetId == m.tilesets[0].name && r.tilesetRequests == Requests(m.tilesets) &&
      (r.status == Threw <==> exists i :: 0 <= i < |m.layers| && BadLayer(m.layers[i])) &&
      (r.status == Loaded ==> r.tilemap.layers == TileLayersOf(m.layers))
  {
    LayersThrow(m.layers);
  }

  /** The tileset loop, then the layer loop. */
  method Load(m: MapDesc) returns (r: LoadResult)
    requires m.tilesets != []
    ensures r == LoadOf(m)
  {
    var requests: seq<(string, string)> := [];
    for i := 0 to |m.tilesets|
      invariant requests == Requests(m.tilesets[..i])
    {
      assert m.tilesets[..i + 1][..i] == m.tilesets[..i];
      var t := m.tilesets[i];
      if t.image.Some? {
        requests := requests + [(t.name, t.image.value)];
      }
    }
    assert m.tilesets[..|m.tilesets|] == m.tilesets;
    var first := m.tilesets[0];
    var layers: seq<TileLayer> := [];
    var objects: seq<CollisionObject> := [];
    for i := 0 to |m.layers|
      invariant ProcessLayers(m.layers[..i]) == Progress(false, layers, objects)
    {
      assert m.layers[..i + 1][..i] == m.layers[..i];
      match m.layers[i]
      case TileLayerDesc(w, h, data) =>
        var ids: seq<int> := [];
        if data.Some? && data.value.Gids? {
          ids := TmxLoader.CopyIds(data.value.gids);
        }
        layers := layers + [TileLayer(w, h, ids)];
      case ObjectGroupDesc(name, objs) =>
        if name == TmxLoader.COLLISIONS {
          var created, threw := CreateCollisionObjects(objs);
          objects := objects + created;
          if threw {
            ThrownAt(m.layers, i);
            return LoadResult(Threw, requests, Tilemap(first.tileWidth, first.tileHeight, first.name, layers), objects);
          }
        }
      case ImageLayerDesc =>
      case GroupLayerDesc =>
    }
    assert m.layers[..|m.layers|] == m.layers;
    r := LoadResult(Loaded, requests, Tilemap(first.tileWidth, first.tileHeight, first.name, layers), objects);
  }

  /** A throw at layer `i` is the loop's final state. */
  lemma {:induction false} ThrownAt(layers: seq<LayerDesc>, i: nat)
    requires i < |layers| && !ProcessLayers(layers[..i]).threw && Step(ProcessLayers(layers[..i]), layers[i]).threw
    ensures ProcessLayers(layers) == Step(ProcessLayers(layers[..i]), layers[i])
  {
    assert layers[..i + 1][..i] == layers[..i];
    if i < |layers| - 1 {
      var front := layers[..|layers| - 1];
      assert front[..i] == layers[..i];
      ThrownAt(front, i);
    } else {
      assert layers[..|layers| - 1] == layers[..i];
    }
  }

  /** `createCollisionObjects`: the object loop, each object's property loop inside it. */
  method CreateCollisionObjects(objects: seq<ObjectDesc>) returns (created: seq<CollisionObject>, threw: bool)
    ensures (created, threw) == ObjectsOf(objects)
  {
    created := [];
    threw := false;
    for i := 0 to |objects|
      invariant ObjectsOf(objects[..i]) == (created, false)
    {
      assert objects[..i + 1][..i] == objects[..i];
      var c, t := CreateObject(objects[i]);
      created := created + [c];
      if t {
        ObjectsThrownAt(objects, i);
        return created, true;
      }
    }
    assert objects[..|objects|] == objects;
  }

  lemma {:induction false} ObjectsThrownAt(objects: seq<ObjectDesc>, i: nat)
    requires i < |objects| && !ObjectsOf(objects[..i]).1 && ObjectOf(objects[i]).1
    ensures ObjectsOf(objects) == (ObjectsOf(objects[..i]).0 + [ObjectOf(objects[i]).0], true)
  {
    assert objects[..i + 1][..i] == objects[..i];
    if i < |objects| - 1 {
      var front := objects[..|objects| - 1];
      assert front[..i] == objects[..i];
      ObjectsThrownAt(front, i);
    } else {
      assert objects[..|objects| - 1] == objects[..i];
    }
  }

  /** One object: the entity's components, then its property loop. */
  method CreateObject(o: ObjectDesc) returns (c: CollisionObject, threw: bool)
    ensures (c, threw) == ObjectOf(o)
  {
    var layer: bv32 := 0;
    var colliderMask: bv32 := 0;
    threw := false;
    if o.properties.Some? {
      var mask;
      layer, mask, threw := ReadProperties(o.properties.value);
      if !threw {
        colliderMask := mask;
      }
    }
    c := CollisionObject(
      Collision.Transform(Collision.Vec2(o.x + o.w / 2.0, o.y + o.h / 2.0), Collision.Vec2(1.0, 1.0), 0.0),
      Collision.Collider(Collision.Vec2(0.0, 0.0), Collision.Vec2(o.w, o.h), layer, colliderMask, true, false),
      if threw then None else Some(STATIC_BODY));
  }

  /** The property loop of one object; a throw ends it. */
  method ReadProperties(props: seq<Property>) returns (layer: bv32, mask: bv32, threw: bool)
    ensures PropState(layer, mask, threw) == PropsOf(props)
  {
    layer, mask, threw := 0, 0, false;
    var i := 0;
    while i < |props|
      invariant i <= |props|
      invariant PropsOf(props[..i]) == PropState(layer, mask, false)
    {
      assert props[..i + 1][..i] == props[..i];
      var prop := props[i];
      if prop.name == TmxLoader.LAYER_KEY {
        if !prop.value.Text? {
          PropsThrownAt(props, i);
          threw := true;
          return;
        }
        layer := TmxLoader.LayerBitmask(prop.value.text);
      } else if prop.name == TmxLoader.MASK_KEY {
        if !prop.value.Text? {
          PropsThrownAt(props, i);
          threw := true;
          return;
        }
        mask := mask | TmxLoader.LayerBitmask(prop.value.text);
      }
      i := i + 1;
    }
    assert props[..|props|] == props;
  }

  lemma {:induction false} PropsThrownAt(props: seq<Property>, i: nat)
    requires i < |props| && !PropsOf(props[..i]).threw && Throws(props[i])
    ensures PropsOf(props) == PropsOf(props[..i]).(threw := true)
  {
    assert props[..i + 1][..i] == props[..i];
    if i < |props| - 1 {
      var front := props[..|props| - 1];
      assert front[..i] == props[..i];
      PropsThrownAt(front, i);
    } else {
      assert props[..|props| - 1] == props[..i];
    }
  }
}
