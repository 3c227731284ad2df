// `AnimationSystem::update`: every animated sprite whose asset has a non-empty animation for the
// sprite's state accumulates the frame time, and moves on to the next frame of that animation,
// wrapping round at its end, once the current frame has been shown for its duration.

module Animation {
  import opened Components
  import SpriteLoader

  type SpriteAsset = SpriteLoader.SpriteAsset
  type Frame = SpriteLoader.Frame

  /** The sprite is animated, its asset is cached and has a non-empty animation for its state. */
  predicate Plays(s: Sprite, assets: map<string, SpriteAsset>)
  {
    s.isAnimated && s.assetId in assets && s.currentState in assets[s.assetId].animations &&
    assets[s.assetId].animations[s.currentState] != []
  }

  /** The animation a playing sprite shows. */
  function SequenceOf(s: Sprite, assets: map<string, SpriteAsset>): (r: seq<Frame>)
    requires Plays(s, assets)
    ensures r != []
  {
    assets[s.assetId].animations[s.currentState]
  }

  /** A playing sprite's frame number indexes its animation. */
  predicate FrameInRange(s: Sprite, assets: map<string, SpriteAsset>)
  {
    Plays(s, assets) ==> 0 <= s.currentFrame < |SequenceOf(s, assets)|
  }

  /**
   * One update of a playing sprite, as written: the timer grows by `dt`, and once the timer in
   * milliseconds reaches the current frame's duration it restarts at 0 and the next frame, modulo
   * the animation's length, is showing. The current frame must index the animation: it is read
   * without a check.
   */
  function Advance(s: Sprite, sequence: seq<Frame>, dt: real): (r: Sprite)
    requires 0 <= s.currentFrame < |sequence|
    ensures 0 <= r.currentFrame < |sequence|
    ensures r.(currentFrame := s.currentFrame, animationTimer := s.animationTimer) == s
    ensures (s.animationTimer + dt) * 1000.0 >= sequence[s.currentFrame].durationMs as real ==>
      r.animationTimer == 0.0 &&
      r.currentFrame == if s.currentFrame + 1 < |sequence| then s.currentFrame + 1 else 0
    ensures (s.animationTimer + dt) * 1000.0 < sequence[s.currentFrame].durationMs as real ==>
      r.animationTimer == s.animationTimer + dt && r.currentFrame == s.currentFrame
  {
    var timer := s.animationTimer + dt;
    if timer * 1000.0 >= sequence[s.currentFrame].durationMs as real then
      s.(animationTimer := 0.0, currentFrame := (s.currentFrame + 1) % |sequence|)
    else
      s.(animationTimer := timer)
  }

  /** One update of any sprite: sprites that do not play are left as they are. */
  function Animate(s: Sprite, assets: map<string, SpriteAsset>, dt: real): Sprite
    requires FrameInRange(s, assets)
  {
    if Plays(s, assets) then Advance(s, SequenceOf(s, assets), dt) else s
  }

  /** An update keeps a playing sprite's frame inside its animation, and changes only its frame and timer. */
  lemma AnimateKeepsRange(s: Sprite, assets: map<string, SpriteAsset>, dt: real)
    requires FrameInRange(s, assets)
    ensures FrameInRange(Animate(s, assets, dt), assets)
    ensures Plays(Animate(s, assets, dt), assets) == Plays(s, assets)
    ensures !Plays(s, assets) ==> Animate(s, assets, dt) == s
    ensures Animate(s, assets, dt).(currentFrame := s.currentFrame, animationTimer := s.animationTimer) == s
  {
  }

  /**
   * With a frame time at least as long as every frame of the animation, each update shows the
   * next frame: `k` updates from a non-negative timer move the frame on by `k`, round the
   * animation, so that after as many updates as the animation has frames it shows the frame it
   * started from.
   */
  lemma {:induction false} FramesCycle(s: Sprite, sequence: seq<Frame>, dt: real, k: nat)
    requires 0 <= s.currentFrame < |sequence| && s.animationTimer >= 0.0 && dt >= 0.0
    requires forall f :: f in sequence ==> f.durationMs as real <= dt * 1000.0
    requires k <= |sequence|
    ensures Steps(s, sequence, dt, k).currentFrame ==
      if s.currentFrame + k < |sequence| then s.currentFrame + k else s.currentFrame + k - |sequence|
    ensures k > 0 ==> Steps(s, sequence, dt, k).animationTimer == 0.0
  {
    if k > 0 {
      FramesCycle(s, sequence, dt, k - 1);
      var p := Steps(s, sequence, dt, k - 1);
      assert sequence[p.currentFrame] in sequence;
    }
  }

  /** `k` updates of a playing sprite with the same frame time. */
  function Steps(s: Sprite, sequence: seq<Frame>, dt: real, k: nat): (r: Sprite)
    requires 0 <= s.currentFrame < |sequence|
    ensures 0 <= r.currentFrame < |sequence|
  {
    if k == 0 then s else Advance(Steps(s, sequence, dt, k - 1), sequence, dt)
  }

  /**
   * The update loop: each sprite of the view in turn is left alone when it is not animated, its
   * asset is not cached or its state has no frames, and otherwise has its timer and frame
   * advanced.
   */
  method Update(view: seq<Entity>, sprites: map<Entity, Sprite>, assets: map<string, SpriteAsset>, dt: real)
    returns (updated: map<Entity, Sprite>)
    requires forall e :: e in view ==> e in sprites
    requires forall i, j :: 0 <= i < j < |view| ==> view[i] != view[j]
    requires forall e :: e in view ==> FrameInRange(sprites[e], assets)
    ensures updated.Keys == sprites.Keys
    ensures forall e :: e in sprites ==>
      updated[e] == if e in view then Animate(sprites[e], assets, dt) else sprites[e]
  {
    updated := sprites;
    for i := 0 to |view|
      invariant updated.Keys == sprites.Keys
      invariant forall e :: e in sprites ==>
        updated[e] == if e in view[..i] then Animate(sprites[e], assets, dt) else sprites[e]
    {
      var entity := view[i];
      assert entity !in view[..i];
      var sprite := updated[entity];
      assert forall e :: e in view[..i + 1] <==> e in view[..i] || e == entity;
      if !sprite.isAnimated {
        continue;
      }
      if sprite.assetId !in assets {
        continue;
      }
      var asset := assets[sprite.assetId];
      if sprite.currentState !in asset.animations || asset.animations[sprite.currentState] == [] {
        continue;
      }
      var sequence := asset.animations[sprite.currentState];
      sprite := sprite.(animationTimer := sprite.animationTimer + dt);
      var currentFrameDurationMs := sequence[sprite.currentFrame].durationMs;
      if sprite.animationTimer * 1000.0 >= currentFrameDurationMs as real {
        sprite := sprite.(animationTimer := 0.0, currentFrame := (sprite.currentFrame + 1) % |sequence|);
      }
      updated := updated[entity := sprite];
    }
    assert view[..|view|] == view;
  }

  /**
   * The update with the frame number checked, as the renderer checks it: a frame number outside
   * the animation (left over from a longer animation of an earlier state) restarts the animation
   * at frame 0 before the timer is advanced.
   */
  function AnimateChecked(s: Sprite, assets: map<string, SpriteAsset>, dt: real): (r: Sprite)
    ensures FrameInRange(r, assets)
    ensures Plays(r, assets) == Plays(s, assets)
  {
    if Plays(s, assets) then
      var sequence := SequenceOf(s, assets);
      var start := if 0 <= s.currentFrame < |sequence| then s else s.(currentFrame := 0);
      Advance(start, sequence, dt)
    else s
  }

  /** Where the unchecked update is defined, the checked one agrees with it. */
  lemma CheckedAgrees(s: Sprite, assets: map<string, SpriteAsset>, dt: real)
    requires FrameInRange(s, assets)
    ensures AnimateChecked(s, assets, dt) == Animate(s, assets, dt)
  {
  }
}
