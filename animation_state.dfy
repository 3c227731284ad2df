// `AnimationStateSystem::update`: every entity with a blackboard and a sprite plays "walk" while
// its blackboard says it moves and "idle" otherwise; a wrongly typed flag is reported and read
// as not moving.

module AnimationState {
  import opened Components
  import SpriteLoader
  import TextureAtlas
  import Animation
  import Renderer

  /** The blackboard holds `true` under the moving key. */
  predicate Moving(bb: Blackboard)
  {
    IS_MOVING in bb && bb[IS_MOVING] == BoolValue(true)
  }

  /** The animation an entity with blackboard `bb` plays. */
  function SelectState(bb: Blackboard): (r: string)
    ensures r == WALK || r == IDLE
    ensures r == WALK <==> Moving(bb)
  {
    var isMoving :=
      if IS_MOVING in bb then
        match bb[IS_MOVING]
        case BoolValue(b) => b
        case OtherValue => false
      else false;
    if isMoving then WALK else IDLE
  }

  /** A missing flag, `false` and a value of another type all select "idle". */
  lemma IdleUnlessMoving(bb: Blackboard)
    ensures IS_MOVING !in bb ==> SelectState(bb) == IDLE
    ensures IS_MOVING in bb && bb[IS_MOVING] == BoolValue(false) ==> SelectState(bb) == IDLE
    ensures IS_MOVING in bb && bb[IS_MOVING] == OtherValue ==> SelectState(bb) == IDLE
    ensures IS_MOVING in bb && bb[IS_MOVING] == BoolValue(true) ==> SelectState(bb) == WALK
  {
  }

  /**
   * The update loop: each entity of the view gets the state its blackboard selects written into
   * its sprite, and nothing else changes; the blackboards are only read.
   */
  method Update(view: seq<Entity>, sprites: map<Entity, Sprite>, blackboards: map<Entity, Blackboard>)
    returns (updated: map<Entity, Sprite>)
    requires forall e :: e in view ==> e in sprites && e in blackboards
    ensures updated.Keys == sprites.Keys
    ensures forall e :: e in sprites ==>
      updated[e] == if e in view then sprites[e].(currentState := SelectState(blackboards[e])) else sprites[e]
  {
    updated := sprites;
    for i := 0 to |view|
      invariant updated.Keys == sprites.Keys
      invariant forall e :: e in sprites ==>
        updated[e] == if e in view[..i] then sprites[e].(currentState := SelectState(blackboards[e])) else sprites[e]
    {
      var entity := view[i];
      var blackboard := blackboards[entity];
      assert forall e :: e in view[..i + 1] <==> e in view[..i] || e == entity;
      var isMoving := false;
      if IS_MOVING in blackboard {
        match blackboard[IS_MOVING] {
          case BoolValue(b) =>
            isMoving := b;
          case OtherValue =>
        }
      }
      var sprite := updated[entity];
      if isMoving {
        sprite := sprite.(currentState := WALK);
      } else {
        sprite := sprite.(currentState := IDLE);
      }
      updated := updated[entity := sprite];
    }
    assert view[..|view|] == view;
  }

  /**
   * Switching a sprite from a longer animation to a shorter one keeps its frame number: a sprite
   * on frame 3 of a four-frame "walk" that stops moving is on frame 3 of a two-frame "idle",
   * outside the animation the animation update reads without a check. The renderer's check sends
   * it to atlas cell 0; the checked update restarts the animation instead.
   */
  lemma ShorterAnimationOverruns(dt: real)
    ensures var walk := [SpriteLoader.Frame(0, 100), SpriteLoader.Frame(1, 100), SpriteLoader.Frame(2, 100), SpriteLoader.Frame(3, 100)];
      var idle := [SpriteLoader.Frame(4, 100), SpriteLoader.Frame(5, 100)];
      var asset := SpriteLoader.SpriteAsset("hero", 16, 16, map[WALK := walk, IDLE := idle], TextureAtlas.Atlas(64, 16, []));
      var assets := map["hero" := asset];
      var walking := Sprite("hero", 16, 16, 0, true, WALK, 3, 0.0);
      var stopped := walking.(currentState := SelectState(map[IS_MOVING := BoolValue(false)]));
      Animation.FrameInRange(walking, assets) &&
      !Animation.FrameInRange(stopped, assets) &&
      Renderer.FrameIndex(stopped, asset) == 0 &&
      Animation.AnimateChecked(stopped, assets, dt).currentFrame in {0, 1}
  {
    var walk := [SpriteLoader.Frame(0, 100), SpriteLoader.Frame(1, 100), SpriteLoader.Frame(2, 100), SpriteLoader.Frame(3, 100)];
    var idle := [SpriteLoader.Frame(4, 100), SpriteLoader.Frame(5, 100)];
    var asset := SpriteLoader.SpriteAsset("hero", 16, 16, map[WALK := walk, IDLE := idle], TextureAtlas.Atlas(64, 16, []));
    var assets := map["hero" := asset];
    var stopped := Sprite("hero", 16, 16, 0, true, IDLE, 3, 0.0);
    assert SelectState(map[IS_MOVING := BoolValue(false)]) == IDLE;
    assert Animation.Plays(stopped, assets);
    assert Animation.SequenceOf(stopped, assets) == idle;
  }
}
