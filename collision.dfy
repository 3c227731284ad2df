/**
 * The collision system: each frame it rebuilds the quadtree from every entity with a transform
 * and a collider, then, for every entity that also has a rigid body, queries the tree with the
 * entity's bounds, filters the candidates by layer and mask, tests strict box overlap, enqueues
 * a collision event and pushes the entity out of the other box unless either side is a trigger.
 *
 * The entity registry is abstracted to a World value (maps from entity to component); the two
 * registry views are given as the sequences of entities they visit, in their order.
 */
module Collision {
  import opened Geometry
  import Quadtree

  type Entity = Quadtree.Entity

  datatype Vec2 = Vec2(x: real, y: real)

  datatype Transform = Transform(position: Vec2, scale: Vec2, rotation: real)

  /** Layer and mask are 32-bit sets of physics layers. */
  datatype Collider = Collider(offset: Vec2, size: Vec2, layer: bv32, mask: bv32, isStatic: bool, isTrigger: bool)

  datatype World = World(transforms: map<Entity, Transform>, colliders: map<Entity, Collider>)

  /** A collision event names the moving entity first and the other entity second. */
  datatype Event = Event(a: Entity, b: Entity)

  /** `static_cast<int>` of a float: truncation toward zero. */
  function TruncToInt(x: real): (r: int)
    ensures 0.0 <= x ==> r as real <= x < r as real + 1.0
    ensures x < 0.0 ==> r as real - 1.0 < x <= r as real
  {
    if x >= 0.0 then x.Floor else -((-x).Floor)
  }

  /** TruncToInt drops the fraction toward zero, so it never grows a magnitude and keeps integers. */
  lemma TruncTowardZero(x: real)
    ensures -TruncToInt(x) == TruncToInt(-x)
    ensures x == x.Floor as real ==> TruncToInt(x) == x.Floor
  {
  }

  /**
   * The integer box of an entity: the scaled size, placed so that the transform position is its
   * centre before the scaled offset is added, every coordinate truncated toward zero.
   */
  function EntityBounds(t: Transform, c: Collider): (r: Rect)
    ensures r.w == TruncToInt(c.size.x * t.scale.x) && r.h == TruncToInt(c.size.y * t.scale.y)
    ensures r.x == TruncToInt(t.position.x - c.size.x * t.scale.x / 2.0 + c.offset.x * t.scale.x)
    ensures r.y == TruncToInt(t.position.y - c.size.y * t.scale.y / 2.0 + c.offset.y * t.scale.y)
  {
    var scaledWidth := c.size.x * t.scale.x;
    var scaledHeight := c.size.y * t.scale.y;
    var scaledOffsetX := c.offset.x * t.scale.x;
    var scaledOffsetY := c.offset.y * t.scale.y;
    Rect(TruncToInt(t.position.x - scaledWidth / 2.0 + scaledOffsetX),
         TruncToInt(t.position.y - scaledHeight / 2.0 + scaledOffsetY),
         TruncToInt(scaledWidth),
         TruncToInt(scaledHeight))
  }

  /** A box whose centre, size and offset are integers with even sizes sits exactly around its centre. */
  lemma EntityBoundsCentred(t: Transform, c: Collider, cx: int, cy: int, w: nat, h: nat)
    requires t.scale == Vec2(1.0, 1.0) && c.offset == Vec2(0.0, 0.0)
    requires t.position == Vec2(cx as real, cy as real) && c.size == Vec2((2 * w) as real, (2 * h) as real)
    ensures EntityBounds(t, c) == Rect(cx - w, cy - h, 2 * w, 2 * h)
  {
    assert ((2 * w) as real) / 2.0 == w as real;
    assert ((2 * h) as real) / 2.0 == h as real;
  }

  /** The narrow-phase overlap test, written out separately from the quadtree's. */
  predicate CheckAABBCollision(a: Rect, b: Rect)
  {
    a.x < b.x + b.w && a.x + a.w > b.x && a.y < b.y + b.h && a.y + a.h > b.y
  }

  /** The narrow-phase test is the quadtree's intersection test: symmetric, and false for touching boxes. */
  lemma CheckAABBCollisionAgrees(a: Rect, b: Rect)
    ensures CheckAABBCollision(a, b) <==> HasIntersection(a, b)
    ensures CheckAABBCollision(a, b) <==> CheckAABBCollision(b, a)
    ensures (a.x + a.w == b.x || b.x + b.w == a.x || a.y + a.h == b.y || b.y + b.h == a.y) ==> !CheckAABBCollision(a, b)
  {
  }

  /** Each collider's mask shares a bit with the other's layer. */
  predicate CanCollide(a: Collider, b: Collider)
  {
    a.mask & b.layer != 0 && b.mask & a.layer != 0
  }

  function Min(a: int, b: int): int
  {
    if a < b then a else b
  }

  /**
   * The integer displacement `dePenetrate` applies to an entity with box `e` against box `o`:
   * along the axis whose smaller one-sided overlap is smaller (Y on a tie), by that overlap,
   * toward the side with the smaller one-sided overlap.
   */
  function Push(e: Rect, o: Rect): (d: (int, int))
    ensures var ox, oy := Min(e.x + e.w - o.x, o.x + o.w - e.x), Min(e.y + e.h - o.y, o.y + o.h - e.y);
      if ox < oy then d.1 == 0 && (d.0 == ox || d.0 == -ox)
      else d.0 == 0 && (d.1 == oy || d.1 == -oy)
  {
    var overlapX1 := (e.x + e.w) - o.x;
    var overlapX2 := (o.x + o.w) - e.x;
    var overlapY1 := (e.y + e.h) - o.y;
    var overlapY2 := (o.y + o.h) - e.y;
    var overlapX := Min(overlapX1, overlapX2);
    var overlapY := Min(overlapY1, overlapY2);
    if overlapX < overlapY then
      (if overlapX1 < overlapX2 then (-overlapX, 0) else (overlapX, 0))
    else
      (if overlapY1 < overlapY2 then (0, -overlapY) else (0, overlapY))
  }

  /** After the push the entity's box, moved by the same displacement, just touches the other's. */
  lemma PushSeparates(e: Rect, o: Rect)
    ensures var d := Push(e, o); var s := Shift(e, d.0, d.1);
      (s.x + s.w == o.x || o.x + o.w == s.x || s.y + s.h == o.y || o.y + o.h == s.y) &&
      !HasIntersection(s, o)
  {
    var d := Push(e, o);
    TouchingIsNotIntersecting(Shift(e, d.0, d.1), o);
  }

  /** `dePenetrate`: the position moved by the push. */
  function DePenetrate(position: Vec2, e: Rect, o: Rect): (p: Vec2)
    ensures p.x - position.x == Push(e, o).0 as real && p.y - position.y == Push(e, o).1 as real
  {
    var d := Push(e, o);
    Vec2(position.x + d.0 as real, position.y + d.1 as real)
  }

  /** The world's transforms and colliders cover the given entities. */
  predicate InWorld(w: World, s: seq<Entity>)
  {
    forall x :: x in s ==> x in w.transforms && x in w.colliders
  }

  /** Every object stored in the tree is an entity of the world. */
  predicate TreeInWorld(w: World, tree: Quadtree.Quadtree)
  {
    forall p :: p in Quadtree.Contents(tree) ==> p.0 in w.transforms && p.0 in w.colliders
  }

  /** Whether candidate `o` of entity `e`, whose bounds before the loop are `eb`, makes an event. */
  predicate Hit(w: World, e: Entity, eb: Rect, o: Entity)
    requires e in w.colliders && o in w.transforms && o in w.colliders
  {
    e != o && CanCollide(w.colliders[e], w.colliders[o]) &&
    CheckAABBCollision(eb, EntityBounds(w.transforms[o], w.colliders[o]))
  }

  /** One candidate: the entity's new position and the events enqueued for it. */
  function Step(w: World, e: Entity, eb: Rect, pos: Vec2, o: Entity): (r: (Vec2, seq<Event>))
    requires e in w.colliders && o in w.transforms && o in w.colliders
  {
    if e == o then (pos, [])
    else
      var other := w.colliders[o];
      if !CanCollide(w.colliders[e], other) then (pos, [])
      else
        var ob := EntityBounds(w.transforms[o], other);
        if !CheckAABBCollision(eb, ob) then (pos, [])
        else if !w.colliders[e].isTrigger && !other.isTrigger then (DePenetrate(pos, eb, ob), [Event(e, o)])
        else (pos, [Event(e, o)])
  }

  /** The candidate loop of one entity over `cands`, from position `pos`. */
  function Candidates(w: World, e: Entity, eb: Rect, pos: Vec2, cands: seq<Entity>): (r: (Vec2, seq<Event>))
    requires e in w.colliders && InWorld(w, cands)
    decreases |cands|
  {
    if cands == [] then (pos, [])
    else
      var prev := Candidates(w, e, eb, pos, cands[..|cands| - 1]);
      var last := Step(w, e, eb, prev.0, cands[|cands| - 1]);
      (last.0, prev.1 + last.1)
  }

  /** One more candidate extends the candidate loop by one step. */
  lemma CandidatesStep(w: World, e: Entity, eb: Rect, pos: Vec2, cands: seq<Entity>, j: nat)
    requires e in w.colliders && InWorld(w, cands) && j < |cands|
    ensures InWorld(w, cands[..j]) && InWorld(w, cands[..j + 1])
    ensures var prev := Candidates(w, e, eb, pos, cands[..j]);
      Candidates(w, e, eb, pos, cands[..j + 1]) == (Step(w, e, eb, prev.0, cands[j]).0, prev.1 + Step(w, e, eb, prev.0, cands[j]).1)
  {
    assert cands[..j + 1][..j] == cands[..j];
  }

  /** The candidates that make an event, in candidate order. */
  function Hits(w: World, e: Entity, eb: Rect, cands: seq<Entity>): (h: seq<Entity>)
    requires e in w.colliders && InWorld(w, cands)
    ensures forall o :: o in h ==> o in cands && Hit(w, e, eb, o)
  {
    if cands == [] then []
    else Hits(w, e, eb, cands[..|cands| - 1]) + (if Hit(w, e, eb, cands[|cands| - 1]) then [cands[|cands| - 1]] else [])
  }

  function EventsOf(e: Entity, others: seq<Entity>): (r: seq<Event>)
    ensures |r| == |others| && forall i :: 0 <= i < |r| ==> r[i] == Event(e, others[i])
  {
    if others == [] then [] else EventsOf(e, others[..|others| - 1]) + [Event(e, others[|others| - 1])]
  }

  /**
   * The candidate loop enqueues exactly one event per permitted, overlapping candidate,
   * triggers included, in candidate order; which events it enqueues does not depend on the
   * pushes made along the way.
   */
  lemma {:induction false} CandidateEvents(w: World, e: Entity, eb: Rect, pos: Vec2, cands: seq<Entity>)
    requires e in w.colliders && InWorld(w, cands)
    ensures Candidates(w, e, eb, pos, cands).1 == EventsOf(e, Hits(w, e, eb, cands))
    decreases |cands|
  {
    if cands != [] {
      CandidateEvents(w, e, eb, pos, cands[..|cands| - 1]);
      var h := Hits(w, e, eb, cands[..|cands| - 1]);
      var o := cands[|cands| - 1];
      if Hit(w, e, eb, o) {
        assert (h + [o])[..|h|] == h;
      } else {
        assert h + [] == h;
      }
    }
  }

  /** Events are the same whatever position the entity starts the loop from. */
  lemma EventsIgnorePosition(w: World, e: Entity, eb: Rect, p1: Vec2, p2: Vec2, cands: seq<Entity>)
    requires e in w.colliders && InWorld(w, cands)
    ensures Candidates(w, e, eb, p1, cands).1 == Candidates(w, e, eb, p2, cands).1
  {
    CandidateEvents(w, e, eb, p1, cands);
    CandidateEvents(w, e, eb, p2, cands);
  }

  /** A trigger entity is never pushed, whatever it overlaps. */
  lemma {:induction false} TriggerStaysPut(w: World, e: Entity, eb: Rect, pos: Vec2, cands: seq<Entity>)
    requires e in w.colliders && InWorld(w, cands) && w.colliders[e].isTrigger
    ensures Candidates(w, e, eb, pos, cands).0 == pos
    decreases |cands|
  {
    if cands != [] {
      TriggerStaysPut(w, e, eb, pos, cands[..|cands| - 1]);
    }
  }

  /** A pair with a trigger on either side enqueues its event but moves nothing. */
  lemma TriggerPairDoesNotMove(w: World, e: Entity, eb: Rect, pos: Vec2, o: Entity)
    requires e in w.colliders && o in w.transforms && o in w.colliders
    requires w.colliders[e].isTrigger || w.colliders[o].isTrigger
    ensures Step(w, e, eb, pos, o).0 == pos
    ensures Step(w, e, eb, pos, o).1 == (if Hit(w, e, eb, o) then [Event(e, o)] else [])
  {
  }

  /** Every object a query of a tree holding only world entities returns is a world entity. */
  lemma QueryInWorld(w: World, tree: Quadtree.Quadtree, area: Rect)
    requires TreeInWorld(w, tree)
    ensures InWorld(w, Quadtree.QueryResult(tree, area))
  {
    var q := Quadtree.QueryResult(tree, area);
    forall i | 0 <= i < |q|
      ensures q[i] in w.transforms && q[i] in w.colliders
    {
      Quadtree.QuerySound(tree, area, q[i]);
    }
  }

  /** The world after entity `e` has processed the candidates the tree gives for its current bounds. */
  function Resolve(w: World, tree: Quadtree.Quadtree, e: Entity): (r: (World, seq<Event>))
    requires TreeInWorld(w, tree) && e in w.transforms && e in w.colliders
    ensures r.0.colliders == w.colliders && r.0.transforms.Keys == w.transforms.Keys
    ensures forall x :: x in w.transforms && x != e ==> r.0.transforms[x] == w.transforms[x]
    ensures r.0.transforms[e] == w.transforms[e].(position := r.0.transforms[e].position)
  {
    var t := w.transforms[e];
    var eb := EntityBounds(t, w.colliders[e]);
    QueryInWorld(w, tree, eb);
    var c := Candidates(w, e, eb, t.position, Quadtree.QueryResult(tree, eb));
    (w.(transforms := w.transforms[e := t.(position := c.0)]), c.1)
  }

  /** The narrow phase over the moving entities, in view order. */
  function NarrowPhase(w: World, tree: Quadtree.Quadtree, moving: seq<Entity>): (r: (World, seq<Event>))
    requires TreeInWorld(w, tree) && InWorld(w, moving)
    ensures r.0.colliders == w.colliders && r.0.transforms.Keys == w.transforms.Keys
    decreases |moving|
  {
    if moving == [] then (w, [])
    else
      var prev := NarrowPhase(w, tree, moving[..|moving| - 1]);
      var last := Resolve(prev.0, tree, moving[|moving| - 1]);
      (last.0, prev.1 + last.1)
  }

  /**
   * Only the transforms of the moving entities are written, and of those only the position:
   * scale and rotation are kept, and every other entity's transform is read-only.
   */
  lemma {:induction false} NarrowPhaseFrame(w: World, tree: Quadtree.Quadtree, moving: seq<Entity>)
    requires TreeInWorld(w, tree) && InWorld(w, moving)
    ensures var r := NarrowPhase(w, tree, moving).0;
      (forall x :: x in w.transforms && x !in moving ==> r.transforms[x] == w.transforms[x]) &&
      (forall x :: x in w.transforms ==>
        r.transforms[x].scale == w.transforms[x].scale && r.transforms[x].rotation == w.transforms[x].rotation)
    decreases |moving|
  {
    if moving != [] {
      NarrowPhaseFrame(w, tree, moving[..|moving| - 1]);
      assert forall x :: x in moving[..|moving| - 1] ==> x in moving;
    }
  }

  /** The events of one entity's candidate loop pair it with a different entity its mask accepts. */
  lemma ResolveEvents(w: World, tree: Quadtree.Quadtree, e: Entity)
    requires TreeInWorld(w, tree) && e in w.transforms && e in w.colliders
    ensures forall ev :: ev in Resolve(w, tree, e).1 ==>
      ev.a == e && ev.b != e && ev.b in w.colliders && CanCollide(w.colliders[e], w.colliders[ev.b])
  {
    var t := w.transforms[e];
    var eb := EntityBounds(t, w.colliders[e]);
    QueryInWorld(w, tree, eb);
    var cands := Quadtree.QueryResult(tree, eb);
    CandidateEvents(w, e, eb, t.position, cands);
    var h := Hits(w, e, eb, cands);
    assert forall i :: 0 <= i < |h| ==> h[i] in h;
  }

  /**
   * Every event pairs a moving entity with a different entity, and the two colliders' masks
   * each accept the other's layer.
   */
  lemma {:induction false} NarrowPhaseEvents(w: World, tree: Quadtree.Quadtree, moving: seq<Entity>)
    requires TreeInWorld(w, tree) && InWorld(w, moving)
    ensures forall ev :: ev in NarrowPhase(w, tree, moving).1 ==>
      ev.a in moving && ev.a != ev.b && ev.b in w.colliders && CanCollide(w.colliders[ev.a], w.colliders[ev.b])
    decreases |moving|
  {
    if moving != [] {
      var init := moving[..|moving| - 1];
      NarrowPhaseEvents(w, tree, init);
      var prev := NarrowPhase(w, tree, init);
      ResolveEvents(prev.0, tree, moving[|moving| - 1]);
      assert forall x :: x in init ==> x in moving;
    }
  }

  /** The (object, box) pairs the broad phase inserts, in view order. */
  function Pairs(w: World, order: seq<Entity>): (s: seq<(Entity, Rect)>)
    requires InWorld(w, order)
    ensures |s| == |order| && forall i :: 0 <= i < |s| ==> s[i] == (order[i], EntityBounds(w.transforms[order[i]], w.colliders[order[i]]))
  {
    if order == [] then [] else Pairs(w, order[..|order| - 1]) + [(order[|order| - 1], EntityBounds(w.transforms[order[|order| - 1]], w.colliders[order[|order| - 1]]))]
  }

  /** The transforms the narrow phase leaves behind have the same bounds-relevant domain. */
  lemma PairsInWorld(w: World, w2: World, order: seq<Entity>, tree: Quadtree.Quadtree)
    requires InWorld(w, order) && Quadtree.Contents(tree) == multiset(Pairs(w, order))
    requires w2.transforms.Keys == w.transforms.Keys && w2.colliders.Keys == w.colliders.Keys
    ensures TreeInWorld(w2, tree)
  {
    var s := Pairs(w, order);
    forall p | p in Quadtree.Contents(tree)
      ensures p.0 in w2.transforms && p.0 in w2.colliders
    {
      assert p in s;
      var i :| 0 <= i < |s| && s[i] == p;
    }
  }

  lemma PairsStep(w: World, order: seq<Entity>, i: nat)
    requires InWorld(w, order) && i < |order|
    ensures InWorld(w, order[..i]) && InWorld(w, order[..i + 1])
    ensures multiset(Pairs(w, order[..i + 1])) ==
      multiset(Pairs(w, order[..i])) + multiset{(order[i], EntityBounds(w.transforms[order[i]], w.colliders[order[i]]))}
  {
    assert order[..i + 1][..i] == order[..i];
  }

  /** Inserts the (entity, bounds) pair of every entity of `order` into `tree`, in order. */
  method InsertAll(w: World, order: seq<Entity>, tree: Quadtree.Quadtree) returns (r: Quadtree.Quadtree)
    requires Quadtree.Valid(tree) && InWorld(w, order)
    ensures Quadtree.Valid(r) && r.level == tree.level && r.bounds == tree.bounds
    ensures Quadtree.Contents(r) == Quadtree.Contents(tree) + multiset(Pairs(w, order))
  {
    r := tree;
    var i := 0;
    while i < |order|
      invariant 0 <= i <= |order|
      invariant Quadtree.Valid(r) && r.level == tree.level && r.bounds == tree.bounds
      invariant Quadtree.Contents(r) == Quadtree.Contents(tree) + multiset(Pairs(w, order[..i]))
    {
      var e := order[i];
      var box := EntityBounds(w.transforms[e], w.colliders[e]);
      PairsStep(w, order, i);
      UnionAssoc(Quadtree.Contents(tree), multiset(Pairs(w, order[..i])), multiset{(e, box)});
      r := Quadtree.Insert(r, e, box);
      i := i + 1;
    }
    assert order[..i] == order;
  }

  lemma UnionAssoc(a: multiset<(Entity, Rect)>, b: multiset<(Entity, Rect)>, c: multiset<(Entity, Rect)>)
    ensures (a + b) + c == a + (b + c)
  {
  }

  class CollisionSystem {
    /** The broad-phase tree, kept between frames; its root is level 0 over the world bounds. */
    var quadtree: Quadtree.Quadtree
    const worldBounds: Rect

    ghost predicate Valid()
      reads this
    {
      Quadtree.Valid(quadtree) && quadtree.level == 0 && quadtree.bounds == worldBounds
    }

    constructor (worldBounds: Rect)
      ensures Valid() && this.worldBounds == worldBounds && Quadtree.Contents(quadtree) == multiset{}
    {
      this.worldBounds := worldBounds;
      quadtree := Quadtree.Empty(0, worldBounds);
    }

    /** The broad phase: clear the tree, then insert every (entity, bounds) pair of the collider view. */
    method Rebuild(w: World, allColliders: seq<Entity>)
      requires Valid() && InWorld(w, allColliders)
      modifies this
      ensures Valid() && Quadtree.Contents(quadtree) == multiset(Pairs(w, allColliders))
    {
      var tree := Quadtree.Clear(quadtree);
      tree := InsertAll(w, allColliders, tree);
      quadtree := tree;
    }

    /**
     * One frame: the broad phase, then the narrow phase over the moving view against the
     * rebuilt tree.
     */
    method Update(w: World, allColliders: seq<Entity>, moving: seq<Entity>) returns (r: World, events: seq<Event>)
      requires Valid() && InWorld(w, allColliders) && InWorld(w, moving)
      modifies this
      ensures Valid() && Quadtree.Contents(quadtree) == multiset(Pairs(w, allColliders))
      ensures TreeInWorld(w, quadtree) && (r, events) == NarrowPhase(w, quadtree, moving)
    {
      Rebuild(w, allColliders);
      PairsInWorld(w, w, allColliders, quadtree);
      r, events := NarrowPhaseAll(w, quadtree, moving);
    }
  }

  /** The narrow phase: each moving entity in view order resolves against the same tree. */
  method NarrowPhaseAll(w: World, tree: Quadtree.Quadtree, moving: seq<Entity>) returns (r: World, events: seq<Event>)
    requires TreeInWorld(w, tree) && InWorld(w, moving)
    ensures (r, events) == NarrowPhase(w, tree, moving)
  {
    r, events := w, [];
    var k := 0;
    while k < |moving|
      invariant 0 <= k <= |moving| && InWorld(w, moving[..k])
      invariant (r, events) == NarrowPhase(w, tree, moving[..k])
    {
      NarrowPhaseStep(w, tree, moving, k);
      var found;
      r, found := ResolveEntity(r, tree, moving[k]);
      events := events + found;
      k := k + 1;
    }
    assert moving[..k] == moving;
  }

  /** Extending the moving prefix by one entity resolves that entity in the world left so far. */
  lemma NarrowPhaseStep(w: World, tree: Quadtree.Quadtree, moving: seq<Entity>, k: nat)
    requires TreeInWorld(w, tree) && InWorld(w, moving) && k < |moving|
    ensures InWorld(w, moving[..k]) && InWorld(w, moving[..k + 1])
    ensures var prev := NarrowPhase(w, tree, moving[..k]);
      TreeInWorld(prev.0, tree) && moving[k] in prev.0.transforms && moving[k] in prev.0.colliders &&
      NarrowPhase(w, tree, moving[..k + 1]) ==
        (Resolve(prev.0, tree, moving[k]).0, prev.1 + Resolve(prev.0, tree, moving[k]).1)
  {
    assert moving[..k + 1][..k] == moving[..k];
    assert moving[k] in moving;
    var prev := NarrowPhase(w, tree, moving[..k]);
    forall p | p in Quadtree.Contents(tree)
      ensures p.0 in prev.0.transforms && p.0 in prev.0.colliders
    {
    }
  }

  /**
   * The narrow phase of one moving entity: its bounds are computed once, the tree is queried
   * with them, and every candidate is checked against those bounds while the position is pushed.
   */
  method ResolveEntity(w: World, tree: Quadtree.Quadtree, e: Entity) returns (r: World, found: seq<Event>)
    requires TreeInWorld(w, tree) && e in w.transforms && e in w.colliders
    ensures (r, found) == Resolve(w, tree, e)
  {
    var transform := w.transforms[e];
    var collider := w.colliders[e];
    var entityBounds := EntityBounds(transform, collider);
    var potentialCollisions := Quadtree.Query(tree, entityBounds, []);
    QueryInWorld(w, tree, entityBounds);
    var position := transform.position;
    found := [];
    var j := 0;
    while j < |potentialCollisions|
      invariant 0 <= j <= |potentialCollisions|
      invariant (position, found) == Candidates(w, e, entityBounds, transform.position, potentialCollisions[..j])
    {
      var other := potentialCollisions[j];
      ghost var step := Step(w, e, entityBounds, position, other);
      CandidatesStep(w, e, entityBounds, transform.position, potentialCollisions, j);
      j := j + 1;
      if e == other {
        assert found + [] == found;
        continue;
      }
      var otherCollider := w.colliders[other];
      if !CanCollide(collider, otherCollider) {
        assert found + [] == found;
        continue;
      }
      var otherBounds := EntityBounds(w.transforms[other], otherCollider);
      if CheckAABBCollision(entityBounds, otherBounds) {
        found := found + [Event(e, other)];
        if !collider.isTrigger && !otherCollider.isTrigger {
          position := DePenetrate(position, entityBounds, otherBounds);
        }
      } else {
        assert found + [] == found;
      }
    }
    assert potentialCollisions[..j] == potentialCollisions;
    r := w.(transforms := w.transforms[e := transform.(position := position)]);
  }
}
