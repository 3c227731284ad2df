// The TMX map loader: it requests every tileset of the map, copies the first tileset's tile
// size and name into the tilemap, appends one layer per tile layer after checking its tile
// count, and turns every object of the "Collisions" object layer into a static collider whose
// layer and mask come from the object's properties.
//
// The parsed map is given as a value (the TMX parsing library is not part of this model); the
// entity registry is abstracted to the sequence of collision bodies created, in order.

module TmxLoader {
  import opened Wrappers
  import opened TilemapComponent
  import Collision

  /** An object property, read through its string value. */
  datatype Property = Property(name: string, value: string)

  /** An object of an object layer: its bounding box and its properties. */
  datatype MapObject = MapObject(left: real, top: real, width: real, height: real, properties: seq<Property>)

  /** A layer of the parsed map: tiles (32-bit unsigned ids), objects, or any other kind. */
  datatype MapLayer =
    | TileData(name: string, width: nat, height: nat, ids: seq<U32>)
    | ObjectData(name: string, objects: seq<MapObject>)
    | OtherData(name: string)

  datatype MapTileset = MapTileset(name: string, tileWidth: int, tileHeight: int)

  datatype TmxMap = TmxMap(tilesets: seq<MapTileset>, layers: seq<MapLayer>)

  /** The components of a created collision entity. */
  datatype StaticBody = StaticBody(transform: Collision.Transform, collider: Collision.Collider)

  /** `load` returned true, returned false (the file could not be parsed), or threw. */
  datatype Status = Loaded | OpenFailed | Threw

  /**
   * What a load leaves behind: its outcome, the tileset ids handed to the resource manager, the
   * tilemap component written to the map entity and the collision entities created.
   */
  datatype LoadResult = LoadResult(status: Status, tilesetRequests: seq<string>, tilemap: Option<Tilemap>, bodies: seq<StaticBody>)

  const LAYER_KEY := "collisionLayerName"
  const MASK_KEY := "collisionMaskNames"
  const COLLISIONS := "Collisions"

  /** The physics layer bit of a layer name: WORLD is bit 0, PLAYER bit 1, any other name none. */
  function LayerBitmask(name: string): (r: bv32)
    ensures r & 0xFFFF_FFFC == 0 && r & (r - 1) == 0
    ensures r == 0 <==> name != "WORLD" && name != "PLAYER"
  {
    if name == "WORLD" then 1
    else if name == "PLAYER" then 2
    else 0
  }

  /** The two named layers are different bits. */
  lemma KnownLayers()
    ensures LayerBitmask("WORLD") == 1 && LayerBitmask("PLAYER") == 2
  {
  }

  /** The first comma at or after `i`, or the end of `s`. */
  function CommaFrom(s: string, i: nat): (j: nat)
    requires i <= |s|
    ensures i <= j <= |s| && (j < |s| ==> s[j] == ',')
    decreases |s| - i
  {
    if i == |s| || s[i] == ',' then i else CommaFrom(s, i + 1)
  }

  /** No comma comes before the first one. */
  lemma {:induction false} NoCommaBefore(s: string, i: nat)
    requires i <= |s|
    ensures forall k :: i <= k < CommaFrom(s, i) ==> s[k] != ','
    decreases |s| - i
  {
    if i < |s| && s[i] != ',' {
      NoCommaBefore(s, i + 1);
    }
  }

  /**
   * The names `std::getline(ss, name, ',')` extracts from position `i` on: the text up to each
   * comma, commas dropped; an empty name between two commas is extracted, but nothing is
   * extracted after a final comma or from an empty string.
   */
  function Tokens(s: string, i: nat): seq<string>
    requires i <= |s|
    decreases |s| - i
  {
    if i == |s| then []
    else
      var j := CommaFrom(s, i);
      [s[i..j]] + (if j < |s| then Tokens(s, j + 1) else [])
  }

  /** Names joined back with commas. */
  function Join(names: seq<string>): string
  {
    if names == [] then ""
    else if |names| == 1 then names[0]
    else names[0] + "," + Join(names[1..])
  }

  /** No name split at the commas holds a comma. */
  lemma {:induction false} TokensHaveNoComma(s: string, i: nat)
    requires i <= |s|
    ensures forall t :: t in Tokens(s, i) ==> ',' !in t
    decreases |s| - i
  {
    if i < |s| {
      var j := CommaFrom(s, i);
      NoCommaBefore(s, i);
      assert forall k :: 0 <= k < j - i ==> s[i..j][k] == s[i + k];
      if j < |s| {
        TokensHaveNoComma(s, j + 1);
      }
    }
  }

  /** Where the text from `i` ends once a final comma is dropped. */
  function TextEnd(s: string, i: nat): (e: nat)
    requires i <= |s|
    ensures i <= e <= |s|
  {
    if i < |s| && s[|s| - 1] == ',' then |s| - 1 else |s|
  }

  /** The names split at the commas, joined with commas, give back the text less a final comma. */
  lemma {:induction false} TokensJoin(s: string, i: nat)
    requires i <= |s|
    ensures Join(Tokens(s, i)) == s[i..TextEnd(s, i)]
    decreases |s| - i
  {
    if i < |s| {
      var j := CommaFrom(s, i);
      if j == |s| {
        JoinLast(s, i);
      } else if j + 1 == |s| {
        JoinFinalComma(s, i);
      } else {
        TokensJoin(s, j + 1);
        JoinStep(s, i, j);
      }
    }
  }

  /** The last name, with no comma after it, is the rest of the text. */
  lemma JoinLast(s: string, i: nat)
    requires i < |s| && CommaFrom(s, i) == |s|
    ensures Join(Tokens(s, i)) == s[i..TextEnd(s, i)]
  {
    NoCommaBefore(s, i);
    assert s[|s| - 1] != ',';
    assert Tokens(s, i) == [s[i..CommaFrom(s, i)]];
    assert s[i..CommaFrom(s, i)] == s[i..];
  }

  /** A name followed by a final comma is the text up to the comma. */
  lemma JoinFinalComma(s: string, i: nat)
    requires i < |s| && CommaFrom(s, i) == |s| - 1
    ensures Join(Tokens(s, i)) == s[i..TextEnd(s, i)]
  {
    assert Tokens(s, i) == [s[i..|s| - 1]];
  }

  lemma JoinStep(s: string, i: nat, j: nat)
    requires i <= j && j + 1 < |s| && s[j] == ',' && CommaFrom(s, i) == j
    requires Join(Tokens(s, j + 1)) == s[j + 1..TextEnd(s, j + 1)]
    ensures Join(Tokens(s, i)) == s[i..TextEnd(s, i)]
  {
    TokensStep(s, i, j);
    JoinFront(s[i..j], Tokens(s, j + 1));
    SliceAtComma(s, i, j, TextEnd(s, i));
  }

  lemma TokensStep(s: string, i: nat, j: nat)
    requires i <= j && j + 1 < |s| && CommaFrom(s, i) == j
    ensures Tokens(s, i) == [s[i..j]] + Tokens(s, j + 1) && Tokens(s, j + 1) != []
  {
  }

  lemma SliceAtComma(s: string, i: nat, j: nat, e: nat)
    requires i <= j < e <= |s| && s[j] == ','
    ensures s[i..e] == s[i..j] + "," + s[j + 1..e]
  {
    assert s[j..j + 1] == ",";
    assert s[i..e] == s[i..j] + s[j..j + 1] + s[j + 1..e];
  }

  lemma JoinFront(t: string, rest: seq<string>)
    requires rest != []
    ensures Join([t] + rest) == t + "," + Join(rest)
  {
    assert ([t] + rest)[1..] == rest;
  }

  /** The OR of the names' layer bits. */
  function OrMasks(names: seq<string>): bv32
  {
    if names == [] then 0 else LayerBitmask(names[0]) | OrMasks(names[1..])
  }

  /** `b`'s bit when `present`, else nothing. */
  function BitIf(present: bool, b: bv32): bv32
  {
    if present then b else 0
  }

  /**
   * The mask of some names holds WORLD's bit exactly when WORLD is one of them and PLAYER's bit
   * exactly when PLAYER is one of them, and nothing else.
   */
  lemma {:induction false} OrMasksPresence(names: seq<string>)
    ensures OrMasks(names) == BitIf("WORLD" in names, 1) | BitIf("PLAYER" in names, 2)
  {
    if names != [] {
      OrMasksPresence(names[1..]);
      assert names == [names[0]] + names[1..];
    }
  }

  /** Neither the order of the names nor their repetition changes the mask. */
  lemma MaskIgnoresOrder(a: seq<string>, b: seq<string>)
    requires forall n :: n in a <==> n in b
    ensures OrMasks(a) == OrMasks(b)
  {
    OrMasksPresence(a);
    OrMasksPresence(b);
  }

  /** The mask of one `collisionMaskNames` value. */
  function MaskOf(s: string): bv32
  {
    OrMasks(Tokens(s, 0))
  }

  /** A list naming both layers gives both bits. */
  lemma WorldAndPlayer()
    ensures MaskOf("WORLD,PLAYER") == 3
  {
    var s := "WORLD,PLAYER";
    CommaAt(s, 0, 5);
    CommaAt(s, 6, 12);
    assert s[0..5] == "WORLD" && s[6..12] == "PLAYER";
    assert Tokens(s, 0) == ["WORLD"] + Tokens(s, 6);
    assert Tokens(s, 6) == ["PLAYER"];
  }

  /** Names are not trimmed: a blank after the comma makes the second name unknown. */
  lemma BlankAfterComma()
    ensures MaskOf("WORLD, PLAYER") == 1
  {
    var u := "WORLD, PLAYER";
    CommaAt(u, 0, 5);
    CommaAt(u, 6, 13);
    assert u[0..5] == "WORLD" && u[6..13] == " PLAYER";
    assert Tokens(u, 0) == ["WORLD"] + Tokens(u, 6);
    assert Tokens(u, 6) == [" PLAYER"];
  }

  /** The `getline` loop over a mask string, OR-ing each name's bit into `mask0`. */
  method MaskNames(maskStr: string, mask0: bv32) returns (mask: bv32)
    ensures mask == mask0 | MaskOf(maskStr)
  {
    mask := mask0;
    var pos := 0;
    while pos < |maskStr|
      invariant pos <= |maskStr|
      invariant mask | OrMasks(Tokens(maskStr, pos)) == mask0 | MaskOf(maskStr)
      decreases |maskStr| - pos
    {
      var end := pos;
      while end < |maskStr| && maskStr[end] != ','
        invariant pos <= end <= |maskStr|
        invariant forall k :: pos <= k < end ==> maskStr[k] != ','
        decreases |maskStr| - end
      {
        end := end + 1;
      }
      CommaAt(maskStr, pos, end);
      mask := mask | LayerBitmask(maskStr[pos..end]);
      pos := if end < |maskStr| then end + 1 else end;
    }
  }

  /** The end a scan for a comma stops at is the first comma. */
  lemma CommaAt(s: string, i: nat, j: nat)
    requires i <= j <= |s| && (j < |s| ==> s[j] == ',')
    requires forall k :: i <= k < j ==> s[k] != ','
    ensures CommaFrom(s, i) == j
    decreases j - i
  {
    if i < j {
      CommaAt(s, i + 1, j);
    }
  }

  /** The layer and mask an object's properties set. */
  datatype LayerMask = LayerMask(layer: bv32, mask: bv32)

  /**
   * The property loop: `collisionLayerName` sets the layer, every `collisionMaskNames` ORs its
   * names into the mask, other properties are ignored; both start at 0.
   */
  function PropsOf(props: seq<Property>): LayerMask
  {
    if props == [] then LayerMask(0, 0)
    else
      var lm := PropsOf(props[..|props| - 1]);
      var p := props[|props| - 1];
      if p.name == LAYER_KEY then lm.(layer := LayerBitmask(p.value))
      else if p.name == MASK_KEY then lm.(mask := lm.mask | MaskOf(p.value))
      else lm
  }

  /**
   * The layer is that of the last `collisionLayerName` property, or 0 when there is none.
   */
  lemma {:induction false} LastLayerWins(props: seq<Property>, i: nat)
    requires i < |props| && props[i].name == LAYER_KEY
    requires forall j :: i < j < |props| ==> props[j].name != LAYER_KEY
    ensures PropsOf(props).layer == LayerBitmask(props[i].value)
  {
    if i < |props| - 1 {
      LastLayerWins(props[..|props| - 1], i);
    }
  }

  lemma {:induction false} NoLayerName(props: seq<Property>)
    requires forall j :: 0 <= j < |props| ==> props[j].name != LAYER_KEY
    ensures PropsOf(props).layer == 0
  {
    if props != [] {
      NoLayerName(props[..|props| - 1]);
    }
  }

  /** `n` is a name in one of the `collisionMaskNames` properties. */
  predicate MaskNamed(props: seq<Property>, n: string)
  {
    exists j :: 0 <= j < |props| && props[j].name == MASK_KEY && n in Tokens(props[j].value, 0)
  }

  /**
   * The mask holds WORLD's bit exactly when some `collisionMaskNames` property names WORLD, and
   * PLAYER's bit likewise: nothing depends on how the names are spread over the properties,
   * their order or their repetition.
   */
  lemma {:induction false} MaskIsPresence(props: seq<Property>)
    ensures PropsOf(props).mask == BitIf(MaskNamed(props, "WORLD"), 1) | BitIf(MaskNamed(props, "PLAYER"), 2)
  {
    if props != [] {
      var front := props[..|props| - 1];
      var p := props[|props| - 1];
      MaskIsPresence(front);
      OrMasksPresence(Tokens(p.value, 0));
      MaskNamedSplit(props, "WORLD");
      MaskNamedSplit(props, "PLAYER");
    }
  }

  lemma MaskNamedSplit(props: seq<Property>, n: string)
    requires props != []
    ensures var p := props[|props| - 1];
      MaskNamed(props, n) <==> MaskNamed(props[..|props| - 1], n) || (p.name == MASK_KEY && n in Tokens(p.value, 0))
  {
    var front := props[..|props| - 1];
    if MaskNamed(front, n) {
      var j :| 0 <= j < |front| && front[j].name == MASK_KEY && n in Tokens(front[j].value, 0);
      assert props[j] == front[j];
    }
    if MaskNamed(props, n) {
      var j :| 0 <= j < |props| && props[j].name == MASK_KEY && n in Tokens(props[j].value, 0);
      if j < |front| {
        assert front[j] == props[j];
      }
    }
    var p := props[|props| - 1];
    if p.name == MASK_KEY && n in Tokens(p.value, 0) {
      assert props[|props| - 1] == p;
    }
  }

  /**
   * The collision body of an object with the layer and mask `lm`: a static, non-trigger box of
   * the object's size, no offset, centred on the centre of the object's box, at scale 1.
   */
  function Body(o: MapObject, lm: LayerMask): (b: StaticBody)
    ensures b.transform.position.x - b.collider.size.x / 2.0 == o.left
    ensures b.transform.position.x + b.collider.size.x / 2.0 == o.left + o.width
    ensures b.transform.position.y - b.collider.size.y / 2.0 == o.top
    ensures b.transform.position.y + b.collider.size.y / 2.0 == o.top + o.height
    ensures b.transform.scale == Collision.Vec2(1.0, 1.0) && b.collider.offset == Collision.Vec2(0.0, 0.0)
    ensures b.collider.isStatic && !b.collider.isTrigger
    ensures b.collider.layer == lm.layer && b.collider.mask == lm.mask
  {
    StaticBody(
      Collision.Transform(Collision.Vec2(o.left + o.width / 2.0, o.top + o.height / 2.0), Collision.Vec2(1.0, 1.0), 0.0),
      Collision.Collider(Collision.Vec2(0.0, 0.0), Collision.Vec2(o.width, o.height), lm.layer, lm.mask, true, false))
  }

  /** The collision body of an object, with the layer and mask its properties set. */
  function BodyOf(o: MapObject): StaticBody
  {
    Body(o, PropsOf(o.properties))
  }

  /** The bodies of some objects, in order. */
  function Bodies(objects: seq<MapObject>): (r: seq<StaticBody>)
    ensures |r| == |objects|
  {
    if objects == [] then [] else Bodies(objects[..|objects| - 1]) + [BodyOf(objects[|objects| - 1])]
  }

  lemma {:induction false} BodiesAre(objects: seq<MapObject>, i: nat)
    requires i < |objects|
    ensures Bodies(objects)[i] == BodyOf(objects[i])
  {
    if i < |objects| - 1 {
      BodiesAre(objects[..|objects| - 1], i);
    }
  }

  /** The property loop of one object. */
  method ObjectBody(o: MapObject) returns (b: StaticBody)
    ensures b == BodyOf(o)
  {
    var layer: bv32 := 0;
    var finalMask: bv32 := 0;
    for i := 0 to |o.properties|
      invariant LayerMask(layer, finalMask) == PropsOf(o.properties[..i])
    {
      var prop := o.properties[i];
      assert o.properties[..i + 1][..i] == o.properties[..i];
      if prop.name == LAYER_KEY {
        layer := LayerBitmask(prop.value);
      } else if prop.name == MASK_KEY {
        finalMask := MaskNames(prop.value, finalMask);
      }
    }
    assert o.properties[..|o.properties|] == o.properties;
    b := Body(o, LayerMask(layer, finalMask));
  }

  /** A 32-bit unsigned tile id. */
  newtype U32 = x: int | 0 <= x < 0x1_0000_0000

  /** A tile id as the `int` the tilemap stores: ids from 2^31 on wrap to negative values. */
  function AsInt(g: U32): (r: int)
    ensures -0x8000_0000 <= r < 0x8000_0000
    ensures r == g as int || r + 0x1_0000_0000 == g as int
    ensures r >= 0 <==> g < 0x8000_0000
  {
    if g < 0x8000_0000 then g as int else g as int - 0x1_0000_0000
  }

  /** The ids of a layer as the tilemap stores them, in order. */
  function IntIds(ids: seq<U32>): (r: seq<int>)
    ensures |r| == |ids| && forall i :: 0 <= i < |ids| ==> r[i] == AsInt(ids[i])
  {
    seq(|ids|, i requires 0 <= i < |ids| => AsInt(ids[i]))
  }

  /** The tile copy loop of one layer. */
  method CopyIds(ids: seq<U32>) returns (tileIds: seq<int>)
    ensures tileIds == IntIds(ids)
  {
    tileIds := [];
    for i := 0 to |ids|
      invariant tileIds == IntIds(ids[..i])
    {
      tileIds := tileIds + [AsInt(ids[i])];
    }
    assert ids[..|ids|] == ids;
  }

  /** A tile layer whose tile count is not its width times its height. */
  predicate Mismatched(l: MapLayer)
  {
    l.TileData? && |l.ids| != l.width * l.height
  }

  /** The layer loop's effect so far: whether it threw, the layers appended, the bodies created. */
  datatype Progress = Progress(threw: bool, layers: seq<TileLayer>, bodies: seq<StaticBody>)

  /** One layer's effect on the loop's state. */
  function Step(p: Progress, l: MapLayer): Progress
  {
    match l
    case TileData(_, w, h, ids) =>
      if |ids| != w * h then p.(threw := true)
      else p.(layers := p.layers + [TileLayer(w, h, IntIds(ids))])
    case ObjectData(name, objects) =>
      if name == COLLISIONS then p.(bodies := p.bodies + Bodies(objects)) else p
    case OtherData(_) => p
  }

  /** The layer loop over the first layers: it stops at the first throw. */
  function ProcessLayers(layers: seq<MapLayer>): Progress
  {
    if layers == [] then Progress(false, [], [])
    else
      var p := ProcessLayers(layers[..|layers| - 1]);
      if p.threw then p else Step(p, layers[|layers| - 1])
  }

  /** The layer loop throws exactly when some tile layer's tile count does not match its size. */
  lemma {:induction false} ThrowsOnMismatch(layers: seq<MapLayer>)
    ensures ProcessLayers(layers).threw <==> exists i :: 0 <= i < |layers| && Mismatched(layers[i])
  {
    if layers != [] {
      var front := layers[..|layers| - 1];
      ThrowsOnMismatch(front);
      if exists i :: 0 <= i < |front| && Mismatched(front[i]) {
        var i :| 0 <= i < |front| && Mismatched(front[i]);
        assert layers[i] == front[i];
      }
      if exists i :: 0 <= i < |layers| && Mismatched(layers[i]) {
        var i :| 0 <= i < |layers| && Mismatched(layers[i]);
        if i < |front| {
          assert front[i] == layers[i];
        }
      }
    }
  }

  /** Every appended layer holds exactly width times height ids. */
  lemma {:induction false} LayersWellSized(layers: seq<MapLayer>)
    ensures forall l :: l in ProcessLayers(layers).layers ==> |l.tileIds| == l.widthInTiles * l.heightInTiles
  {
    if layers != [] {
      LayersWellSized(layers[..|layers| - 1]);
    }
  }

  /**
   * When the loop throws at the first mismatching tile layer `i`, it leaves exactly what the
   * layers before `i` produced.
   */
  lemma {:induction false} ThrowKeepsPrefix(layers: seq<MapLayer>, i: nat)
    requires i < |layers| && Mismatched(layers[i])
    requires forall j :: 0 <= j < i ==> !Mismatched(layers[j])
    ensures ProcessLayers(layers) == ProcessLayers(layers[..i]).(threw := true)
  {
    ThrowsOnMismatch(layers[..i]);
    ThrowAt(layers, i);
  }

  /** The tile layers of a map, each appended with its ids, in order. */
  function TileLayersOf(layers: seq<MapLayer>): seq<TileLayer>
  {
    if layers == [] then []
    else
      var l := layers[|layers| - 1];
      TileLayersOf(layers[..|layers| - 1]) + (if l.TileData? then [TileLayer(l.width, l.height, IntIds(l.ids))] else [])
  }

  /** The bodies of the objects of every "Collisions" object layer, in order. */
  function CollisionBodiesOf(layers: seq<MapLayer>): seq<StaticBody>
  {
    if layers == [] then []
    else
      var l := layers[|layers| - 1];
      CollisionBodiesOf(layers[..|layers| - 1]) + (if l.ObjectData? && l.name == COLLISIONS then Bodies(l.objects) else [])
  }

  /**
   * Without a mismatch every tile layer is appended, and every object of the "Collisions"
   * layers becomes a body, in map order; other object layers and other layer kinds add nothing.
   */
  lemma {:induction false} LoadsEveryLayer(layers: seq<MapLayer>)
    requires forall i :: 0 <= i < |layers| ==> !Mismatched(layers[i])
    ensures ProcessLayers(layers) == Progress(false, TileLayersOf(layers), CollisionBodiesOf(layers))
  {
    if layers != [] {
      LoadsEveryLayer(layers[..|layers| - 1]);
    }
  }

  /** The names of the tilesets, in order. */
  function Names(tilesets: seq<MapTileset>): (r: seq<string>)
    ensures |r| == |tilesets| && forall i :: 0 <= i < |tilesets| ==> r[i] == tilesets[i].name
  {
    if tilesets == [] then [] else Names(tilesets[..|tilesets| - 1]) + [tilesets[|tilesets| - 1].name]
  }

  /**
   * `TmxLoader::load` over a parsed map (None when the file cannot be parsed). The source indexes
   * the first tileset without a check, so a parsed map must have one.
   */
  function LoadOf(m: Option<TmxMap>): LoadResult
    requires m.Some? ==> m.value.tilesets != []
  {
    if m.None? then LoadResult(OpenFailed, [], None, [])
    else
      var first := m.value.tilesets[0];
      var p := ProcessLayers(m.value.layers);
      LoadResult(if p.threw then Threw else Loaded, Names(m.value.tilesets),
        Some(Tilemap(first.tileWidth, first.tileHeight, first.name, p.layers)), p.bodies)
  }

  /**
   * A load fails without effect when the map cannot be parsed; otherwise it requests every
   * tileset by name, takes the first tileset's tile size and name, and either throws at a
   * mismatching tile layer or loads every tile layer and every collision object.
   */
  lemma LoadOutcome(m: Option<TmxMap>)
    requires m.Some? ==> m.value.tilesets != []
    ensures m.None? ==> LoadOf(m) == LoadResult(OpenFailed, [], None, [])
    ensures m.Some? ==>
      var r := LoadOf(m);
      r.tilesetRequests == Names(m.value.tilesets) && r.tilemap.Some? &&
      r.tilemap.value.tileWidth == m.value.tilesets[0].tileWidth &&
      r.tilemap.value.tileHeight == m.value.tilesets[0].tileHeight &&
      r.tilemap.value.tilesetAssetId == m.value.tilesets[0].name &&
      (r.status == Threw <==> exists i :: 0 <= i < |m.value.layers| && Mismatched(m.value.layers[i])) &&
      (r.status != Threw ==>
         r.status == Loaded && r.tilemap.value.layers == TileLayersOf(m.value.layers) &&
         r.bodies == CollisionBodiesOf(m.value.layers)) &&
      forall l :: l in r.tilemap.value.layers ==> |l.tileIds| == l.widthInTiles * l.heightInTiles
  {
    if m.Some? {
      ThrowsOnMismatch(m.value.layers);
      LayersWellSized(m.value.layers);
      if !ProcessLayers(m.value.layers).threw {
        LoadsEveryLayer(m.value.layers);
      }
    }
  }

  /** `TmxLoader::load`: the tileset loop, then the layer loop, which a mismatch ends by throwing. */
  method Load(m: Option<TmxMap>) returns (r: LoadResult)
    requires m.Some? ==> m.value.tilesets != []
    ensures r == LoadOf(m)
  {
    if m.None? {
      return LoadResult(OpenFailed, [], None, []);
    }
    var tmx := m.value;
    var requests: seq<string> := [];
    for i := 0 to |tmx.tilesets|
      invariant requests == Names(tmx.tilesets[..i])
    {
      assert tmx.tilesets[..i + 1][..i] == tmx.tilesets[..i];
      requests := requests + [tmx.tilesets[i].name];
    }
    assert tmx.tilesets[..|tmx.tilesets|] == tmx.tilesets;
    var first := tmx.tilesets[0];
    var layers: seq<TileLayer> := [];
    var bodies: seq<StaticBody> := [];
    for i := 0 to |tmx.layers|
      invariant ProcessLayers(tmx.layers[..i]) == Progress(false, layers, bodies)
    {
      assert tmx.layers[..i + 1][..i] == tmx.layers[..i];
      var layer := tmx.layers[i];
      match layer
      case TileData(_, w, h, ids) =>
        if |ids| != w * h {
          ThrowAt(tmx.layers, i);
          return LoadResult(Threw, requests, Some(Tilemap(first.tileWidth, first.tileHeight, first.name, layers)), bodies);
        }
        var tileIds := CopyIds(ids);
        layers := layers + [TileLayer(w, h, tileIds)];
      case ObjectData(name, objects) =>
        if name == COLLISIONS {
          var created := CollisionBodies(objects);
          bodies := bodies + created;
        }
      case OtherData(_) =>
    }
    assert tmx.layers[..|tmx.layers|] == tmx.layers;
    r := LoadResult(Loaded, requests, Some(Tilemap(first.tileWidth, first.tileHeight, first.name, layers)), bodies);
  }

  /** A throw at layer `i` is the loop's final state. */
  lemma {:induction false} ThrowAt(layers: seq<MapLayer>, i: nat)
    requires i < |layers| && Mismatched(layers[i]) && !ProcessLayers(layers[..i]).threw
    ensures ProcessLayers(layers) == ProcessLayers(layers[..i]).(threw := true)
  {
    if i < |layers| - 1 {
      var front := layers[..|layers| - 1];
      assert front[..i] == layers[..i];
      ThrowAt(front, i);
    } else {
      assert layers[..|layers| - 1] == layers[..i];
    }
  }

  /** The object loop of the "Collisions" layer: one entity per object. */
  method CollisionBodies(objects: seq<MapObject>) returns (bodies: seq<StaticBody>)
    ensures bodies == Bodies(objects)
  {
    bodies := [];
    for i := 0 to |objects|
      invariant bodies == Bodies(objects[..i])
    {
      assert objects[..i + 1][..i] == objects[..i];
      var b := ObjectBody(objects[i]);
      bodies := bodies + [b];
    }
    assert objects[..|objects|] == objects;
  }
}
