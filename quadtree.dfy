/**
 * The broad-phase spatial index: a quadtree over integer rectangles. Each node keeps a
 * bucket of (object, rectangle) pairs and either no children or exactly four.
 *
 * Children are owned exclusively by their parent, so a node is modelled as a value: an
 * operation that updates a node in place returns the updated node.
 */
module Quadtree {
  import opened Geometry

  type Entity = nat

  /** The maximum number of objects a node holds before it splits. */
  const MAX_OBJECTS: int := 10
  /** The deepest level at which a node may still split. */
  const MAX_LEVELS: int := 5

  datatype Quadtree = Quadtree(level: int, bounds: Rect, objects: seq<(Entity, Rect)>, nodes: seq<Quadtree>)

  /** Vertical midpoint test: 2 * value against 2 * x + w, so that x + w / 2.0 is compared exactly. */
  predicate LeftOfMid(bounds: Rect, rect: Rect)
  {
    2 * rect.x < 2 * bounds.x + bounds.w && 2 * (rect.x + rect.w) < 2 * bounds.x + bounds.w
  }

  predicate RightOfMid(bounds: Rect, rect: Rect)
  {
    2 * rect.x > 2 * bounds.x + bounds.w
  }

  predicate AboveMid(bounds: Rect, rect: Rect)
  {
    2 * rect.y < 2 * bounds.y + bounds.h && 2 * (rect.y + rect.h) < 2 * bounds.y + bounds.h
  }

  predicate BelowMid(bounds: Rect, rect: Rect)
  {
    2 * rect.y > 2 * bounds.y + bounds.h
  }

  /**
   * The child quadrant of a node with the given bounds that `rect` belongs to, or -1 when it
   * straddles a midpoint. The contract is stated against the half-integer midpoints themselves.
   */
  function GetIndex(bounds: Rect, rect: Rect): (index: int)
    ensures -1 <= index <= 3
    ensures (index == 1 || index == 2) ==>
      (rect.x as real) < (bounds.x as real) + (bounds.w as real) / 2.0 &&
      ((rect.x + rect.w) as real) < (bounds.x as real) + (bounds.w as real) / 2.0
    ensures (index == 0 || index == 3) ==>
      (rect.x as real) > (bounds.x as real) + (bounds.w as real) / 2.0
    ensures (index == 1 || index == 0) ==>
      (rect.y as real) < (bounds.y as real) + (bounds.h as real) / 2.0 &&
      ((rect.y + rect.h) as real) < (bounds.y as real) + (bounds.h as real) / 2.0
    ensures (index == 2 || index == 3) ==>
      (rect.y as real) > (bounds.y as real) + (bounds.h as real) / 2.0
    ensures index == -1 <==>
      !((LeftOfMid(bounds, rect) || RightOfMid(bounds, rect)) &&
        (AboveMid(bounds, rect) || BelowMid(bounds, rect)))
  {
    var top := AboveMid(bounds, rect);
    var bottom := BelowMid(bounds, rect);
    if LeftOfMid(bounds, rect) then
      (if top then 1 else if bottom then 2 else -1)
    else if RightOfMid(bounds, rect) then
      (if top then 0 else if bottom then 3 else -1)
    else -1
  }

  /** The bounds `split` gives child `i`: half the width and height by C++ integer division. */
  function ChildBounds(b: Rect, i: int): (c: Rect)
    requires 0 <= i < 4
    ensures c.w == TruncDiv(b.w, 2) && c.h == TruncDiv(b.h, 2)
    ensures c.x == (if i == 0 || i == 3 then b.x + c.w else b.x)
    ensures c.y == (if i == 2 || i == 3 then b.y + c.h else b.y)
  {
    var sw, sh := TruncDiv(b.w, 2), TruncDiv(b.h, 2);
    if i == 0 then Rect(b.x + sw, b.y, sw, sh)
    else if i == 1 then Rect(b.x, b.y, sw, sh)
    else if i == 2 then Rect(b.x, b.y + sh, sw, sh)
    else Rect(b.x + sw, b.y + sh, sw, sh)
  }

  /**
   * A child's width and height are the node's halved toward zero, as C++ `int` division does:
   * twice the half falls short of an odd size by one toward zero, for negative sizes too, and
   * children 0 and 3 start that half-width right of the node, children 2 and 3 that half-height below.
   */
  lemma ChildBoundsHalve(b: Rect, i: int)
    requires 0 <= i < 4
    ensures var c := ChildBounds(b, i);
      (b.w >= 0 ==> 0 <= b.w - 2 * c.w <= 1) && (b.w < 0 ==> -1 <= b.w - 2 * c.w <= 0) &&
      (b.h >= 0 ==> 0 <= b.h - 2 * c.h <= 1) && (b.h < 0 ==> -1 <= b.h - 2 * c.h <= 0) &&
      c.x - b.x == (if i == 0 || i == 3 then c.w else 0) && c.y - b.y == (if i == 2 || i == 3 then c.h else 0)
  {
    TruncDivMod(b.w, 2);
    TruncDivMod(b.h, 2);
  }

  /** A node with an empty bucket and no children, as the constructor makes it. */
  function Empty(level: int, bounds: Rect): (n: Quadtree)
    ensures Valid(n) && Contents(n) == multiset{}
    ensures n.level == level && n.bounds == bounds && n.nodes == []
  {
    Quadtree(level, bounds, [], [])
  }

  /** Every (object, rectangle) pair stored in a node or below it. */
  function Contents(n: Quadtree): multiset<(Entity, Rect)>
    decreases n
  {
    multiset(n.objects) + Forest(n.nodes)
  }

  /** The pairs stored in a sequence of sibling nodes. */
  function Forest(s: seq<Quadtree>): multiset<(Entity, Rect)>
    decreases s
  {
    if s == [] then multiset{} else Forest(s[..|s| - 1]) + Contents(s[|s| - 1])
  }

  /**
   * The node invariant with the bucket condition checked on the first `upto` pairs: four
   * children or none, splitting only below MAX_LEVELS, a leaf below MAX_LEVELS holding at most
   * MAX_OBJECTS pairs, each child one level deeper with the bounds `split` gives it and itself
   * valid, and the bucket pairs of a split node straddling a midpoint.
   */
  predicate Shape(n: Quadtree, upto: int)
    decreases n, 0
  {
    (|n.nodes| == 0 || (|n.nodes| == 4 && n.level < MAX_LEVELS)) &&
    (|n.nodes| == 0 && n.level < MAX_LEVELS ==> |n.objects| <= MAX_OBJECTS) &&
    (|n.nodes| == 4 ==> Straddle(n, upto)) &&
    forall i :: 0 <= i < |n.nodes| ==>
      n.nodes[i].level == n.level + 1 && n.nodes[i].bounds == ChildBounds(n.bounds, i) && Valid(n.nodes[i])
  }

  /** The first `upto` pairs of the bucket straddle a midpoint of the node. */
  predicate Straddle(n: Quadtree, upto: int)
  {
    forall k :: 0 <= k < upto && k < |n.objects| ==> GetIndex(n.bounds, n.objects[k].1) == -1
  }

  predicate Valid(n: Quadtree)
    decreases n, 1
  {
    Shape(n, |n.objects|)
  }

  /** `clear`: the bucket is emptied and every child dropped. */
  function Clear(n: Quadtree): (r: Quadtree)
    ensures Valid(r) && Contents(r) == multiset{} && r.nodes == []
    ensures r.level == n.level && r.bounds == n.bounds
  {
    Empty(n.level, n.bounds)
  }

  /** Clearing twice is clearing once. */
  lemma ClearIdempotent(n: Quadtree)
    ensures Clear(Clear(n)) == Clear(n)
  {
  }

  /** `split`: four empty children one level deeper, with the bounds ChildBounds gives. */
  function Split(n: Quadtree): (r: Quadtree)
    ensures r.level == n.level && r.bounds == n.bounds && r.objects == n.objects && |r.nodes| == 4
    ensures forall i :: 0 <= i < 4 ==> r.nodes[i] == Empty(n.level + 1, ChildBounds(n.bounds, i))
  {
    var l := n.level + 1;
    Quadtree(n.level, n.bounds, n.objects,
      [Empty(l, ChildBounds(n.bounds, 0)), Empty(l, ChildBounds(n.bounds, 1)),
       Empty(l, ChildBounds(n.bounds, 2)), Empty(l, ChildBounds(n.bounds, 3))])
  }

  /** Splitting a leaf below MAX_LEVELS keeps its contents and gives a node whose invariant holds, bucket aside. */
  lemma SplitKeepsContents(n: Quadtree)
    requires n.nodes == [] && n.level < MAX_LEVELS
    ensures Contents(Split(n)) == Contents(n) && Shape(Split(n), 0)
  {
    SplitContents(n);
    SplitShape(n);
  }

  lemma SplitContents(n: Quadtree)
    requires n.nodes == []
    ensures Contents(Split(n)) == Contents(n)
  {
    var s := Split(n).nodes;
    forall i | 0 <= i < |s|
      ensures Contents(s[i]) == multiset{}
    {
      assert s[i] == Empty(n.level + 1, ChildBounds(n.bounds, i));
    }
    ForestEmpty(s);
    assert Forest(n.nodes) == multiset{};
  }

  lemma SplitShape(n: Quadtree)
    requires n.level < MAX_LEVELS
    ensures Shape(Split(n), 0)
  {
    var s := Split(n).nodes;
    forall i | 0 <= i < |s|
      ensures s[i].level == n.level + 1 && s[i].bounds == ChildBounds(n.bounds, i) && Valid(s[i])
    {
      assert s[i] == Empty(n.level + 1, ChildBounds(n.bounds, i));
    }
  }

  lemma {:induction false} ForestEmpty(s: seq<Quadtree>)
    requires forall i :: 0 <= i < |s| ==> Contents(s[i]) == multiset{}
    ensures Forest(s) == multiset{}
    decreases s
  {
    if s != [] {
      ForestEmpty(s[..|s| - 1]);
    }
  }

  /** Growing one sibling's contents grows the forest's contents by the same pairs. */
  lemma {:induction false} ForestUpdate(s: seq<Quadtree>, i: int, c: Quadtree, extra: multiset<(Entity, Rect)>)
    requires 0 <= i < |s| && Contents(c) == Contents(s[i]) + extra
    ensures Forest(s[i := c]) == Forest(s) + extra
    decreases s
  {
    var t := s[i := c];
    assert Forest(t) == Forest(t[..|t| - 1]) + Contents(t[|t| - 1]);
    if i == |s| - 1 {
      assert t[..|t| - 1] == s[..|s| - 1];
    } else {
      assert t[..|t| - 1] == s[..|s| - 1][i := c];
      ForestUpdate(s[..|s| - 1], i, c, extra);
    }
  }

  /** Replacing a child by a valid node with the same level and bounds keeps the invariant. */
  lemma ReplaceChild(m: Quadtree, upto: int, index: int, child: Quadtree, extra: multiset<(Entity, Rect)>)
    requires Shape(m, upto) && 0 <= index < |m.nodes|
    requires Valid(child) && child.level == m.nodes[index].level && child.bounds == m.nodes[index].bounds
    requires Contents(child) == Contents(m.nodes[index]) + extra
    ensures Shape(m.(nodes := m.nodes[index := child]), upto)
    ensures Contents(m.(nodes := m.nodes[index := child])) == Contents(m) + extra
  {
    ReplaceChildShape(m, upto, index, child);
    ForestUpdate(m.nodes, index, child, extra);
    PairsAssoc(multiset(m.objects), Forest(m.nodes), extra);
  }

  lemma ReplaceChildShape(m: Quadtree, upto: int, index: int, child: Quadtree)
    requires Shape(m, upto) && 0 <= index < |m.nodes|
    requires Valid(child) && child.level == m.nodes[index].level && child.bounds == m.nodes[index].bounds
    ensures Shape(m.(nodes := m.nodes[index := child]), upto)
  {
    var nodes := m.nodes[index := child];
    forall i | 0 <= i < |nodes|
      ensures nodes[i].level == m.level + 1 && nodes[i].bounds == ChildBounds(m.bounds, i) && Valid(nodes[i])
    {
      if i != index {
        assert nodes[i] == m.nodes[i];
      }
    }
  }

  lemma PairsAssoc(a: multiset<(Entity, Rect)>, b: multiset<(Entity, Rect)>, c: multiset<(Entity, Rect)>)
    ensures (a + b) + c == a + (b + c)
  {
  }

  /**
   * One redistribution step of `insert`: the pair at position `i` goes into child `index`
   * (already grown by it) and leaves the bucket; the contents stay the same.
   */
  lemma MoveDown(m: Quadtree, i: int, index: int, child: Quadtree)
    requires Shape(m, i) && |m.nodes| == 4 && 0 <= i < |m.objects| && 0 <= index < 4
    requires Valid(child) && child.level == m.nodes[index].level && child.bounds == m.nodes[index].bounds
    requires Contents(child) == Contents(m.nodes[index]) + multiset{m.objects[i]}
    ensures Shape(Quadtree(m.level, m.bounds, m.objects[..i] + m.objects[i + 1..], m.nodes[index := child]), i)
    ensures Contents(Quadtree(m.level, m.bounds, m.objects[..i] + m.objects[i + 1..], m.nodes[index := child])) == Contents(m)
  {
    var p := m.objects[i];
    var rest := m.objects[..i] + m.objects[i + 1..];
    ReplaceChild(m, i, index, child, multiset{p});
    EraseKeepsShape(m.(nodes := m.nodes[index := child]), i);
    assert m.objects == m.objects[..i] + [p] + m.objects[i + 1..];
    ForestUpdate(m.nodes, index, child, multiset{p});
    calc {
      Contents(Quadtree(m.level, m.bounds, rest, m.nodes[index := child]));
      multiset(rest) + Forest(m.nodes[index := child]);
      multiset(rest) + (Forest(m.nodes) + multiset{p});
      (multiset(rest) + multiset{p}) + Forest(m.nodes);
      multiset(m.objects) + Forest(m.nodes);
    }
  }

  /** Erasing the pair at position `i` of a split node's bucket keeps the checked prefix. */
  lemma EraseKeepsShape(m: Quadtree, i: int)
    requires Shape(m, i) && |m.nodes| == 4 && 0 <= i < |m.objects|
    ensures Shape(m.(objects := m.objects[..i] + m.objects[i + 1..]), i)
  {
    var e := m.(objects := m.objects[..i] + m.objects[i + 1..]);
    assert forall k :: 0 <= k < i ==> e.objects[k] == m.objects[k];
  }

  /** A straddling pair at position `i` extends the checked prefix of the bucket. */
  lemma SkipStraddling(m: Quadtree, i: int)
    requires Shape(m, i) && |m.nodes| == 4 && 0 <= i < |m.objects| && GetIndex(m.bounds, m.objects[i].1) == -1
    ensures Shape(m, i + 1)
  {
  }

  /** Appending a pair to the bucket without splitting keeps a node valid when the pair's place is the bucket. */
  lemma AppendKeepsValid(n: Quadtree, p: (Entity, Rect))
    requires Valid(n)
    requires |n.nodes| == 4 ==> GetIndex(n.bounds, p.1) == -1
    requires |n.nodes| == 0 && n.level < MAX_LEVELS ==> |n.objects| + 1 <= MAX_OBJECTS
    ensures Valid(n.(objects := n.objects + [p])) && Contents(n.(objects := n.objects + [p])) == Contents(n) + multiset{p}
  {
    var e := n.(objects := n.objects + [p]);
    assert forall k :: 0 <= k < |n.objects| ==> e.objects[k] == n.objects[k];
  }

  /** Appending a pair to the bucket of a node about to split, the children made when there were none. */
  lemma AppendBeforeSplit(n: Quadtree, p: (Entity, Rect), nodes: seq<Quadtree>)
    requires Valid(n) && n.level < MAX_LEVELS
    requires nodes == (if |n.nodes| == 0 then Split(n).nodes else n.nodes)
    ensures |nodes| == 4 && Shape(Quadtree(n.level, n.bounds, n.objects + [p], nodes), 0)
    ensures Contents(Quadtree(n.level, n.bounds, n.objects + [p], nodes)) == Contents(n) + multiset{p}
  {
    if |n.nodes| == 0 {
      AppendToLeaf(n, p);
    } else {
      AppendToSplit(n, p);
    }
  }

  lemma AppendToLeaf(n: Quadtree, p: (Entity, Rect))
    requires n.level < MAX_LEVELS && |n.nodes| == 0
    ensures Shape(Quadtree(n.level, n.bounds, n.objects + [p], Split(n).nodes), 0)
    ensures Contents(Quadtree(n.level, n.bounds, n.objects + [p], Split(n).nodes)) == Contents(n) + multiset{p}
  {
    var e := n.(objects := n.objects + [p]);
    SplitAgain(n, e);
    SplitShape(e);
    SplitContents(e);
  }

  /** Split depends only on the level, bounds and bucket of a node. */
  lemma SplitAgain(n: Quadtree, e: Quadtree)
    requires e.level == n.level && e.bounds == n.bounds
    ensures Split(e) == Quadtree(n.level, n.bounds, e.objects, Split(n).nodes)
  {
  }

  lemma AppendToSplit(n: Quadtree, p: (Entity, Rect))
    requires Valid(n) && |n.nodes| != 0
    ensures |n.nodes| == 4 && Shape(Quadtree(n.level, n.bounds, n.objects + [p], n.nodes), 0)
    ensures Contents(Quadtree(n.level, n.bounds, n.objects + [p], n.nodes)) == Contents(n) + multiset{p}
  {
  }

  /**
   * `insert`: a split node hands the pair to the one child quadrant that takes it; otherwise
   * the pair joins the bucket, and a bucket over MAX_OBJECTS below MAX_LEVELS splits the node
   * (when it is a leaf) and moves every pair that fits a quadrant down into it.
   */
  method Insert(n: Quadtree, obj: Entity, rect: Rect) returns (r: Quadtree)
    requires Valid(n)
    ensures Valid(r) && Contents(r) == Contents(n) + multiset{(obj, rect)}
    ensures r.level == n.level && r.bounds == n.bounds
    ensures |n.nodes| == 4 ==> |r.nodes| == 4
    ensures |n.nodes| == 0 && |r.nodes| == 4 ==> |n.objects| + 1 > MAX_OBJECTS && n.level < MAX_LEVELS
    decreases MAX_LEVELS - n.level
  {
    var objects, nodes := n.objects, n.nodes;
    if |nodes| == 4 {
      var index := GetIndex(n.bounds, rect);
      if index != -1 {
        var child := Insert(nodes[index], obj, rect);
        ReplaceChild(n, |objects|, index, child, multiset{(obj, rect)});
        return Quadtree(n.level, n.bounds, objects, nodes[index := child]);
      }
    }
    objects := objects + [(obj, rect)];
    if |objects| > MAX_OBJECTS && n.level < MAX_LEVELS {
      if |nodes| == 0 {
        nodes := Split(n).nodes;
      }
      AppendBeforeSplit(n, (obj, rect), nodes);
      var i := 0;
      while i < |objects|
        invariant 0 <= i <= |objects| && |nodes| == 4
        invariant Shape(Quadtree(n.level, n.bounds, objects, nodes), i)
        invariant Contents(Quadtree(n.level, n.bounds, objects, nodes)) == Contents(n) + multiset{(obj, rect)}
        decreases |objects| - i
      {
        var index := GetIndex(n.bounds, objects[i].1);
        if index != -1 {
          var child := Insert(nodes[index], objects[i].0, objects[i].1);
          MoveDown(Quadtree(n.level, n.bounds, objects, nodes), i, index, child);
          objects, nodes := objects[..i] + objects[i + 1..], nodes[index := child];
        } else {
          SkipStraddling(Quadtree(n.level, n.bounds, objects, nodes), i);
          i := i + 1;
        }
      }
    } else {
      AppendKeepsValid(n, (obj, rect));
    }
    r := Quadtree(n.level, n.bounds, objects, nodes);
  }

  /** The objects of a bucket whose rectangle intersects `area`, in bucket order. */
  function BucketMatches(bucket: seq<(Entity, Rect)>, area: Rect): (r: seq<Entity>)
    ensures |r| <= |bucket|
  {
    if bucket == [] then []
    else
      var last := bucket[|bucket| - 1];
      BucketMatches(bucket[..|bucket| - 1], area) + (if HasIntersection(area, last.1) then [last.0] else [])
  }

  /** The objects `query` appends for a node: nothing when the area misses the node's bounds. */
  function QueryResult(n: Quadtree, area: Rect): seq<Entity>
    decreases n
  {
    if !HasIntersection(area, n.bounds) then []
    else BucketMatches(n.objects, area) + ForestQuery(n.nodes, area)
  }

  /** The objects `query` appends for a sequence of siblings, visited in order. */
  function ForestQuery(s: seq<Quadtree>, area: Rect): seq<Entity>
    decreases s
  {
    if s == [] then [] else ForestQuery(s[..|s| - 1], area) + QueryResult(s[|s| - 1], area)
  }

  /**
   * `query`: appends to `found` the objects of this node's bucket that intersect the area,
   * then the results of every child, unless the area misses the node's bounds.
   */
  method Query(n: Quadtree, area: Rect, found: seq<Entity>) returns (result: seq<Entity>)
    ensures result == found + QueryResult(n, area)
    ensures !HasIntersection(area, n.bounds) ==> result == found
    decreases n
  {
    result := found;
    if !HasIntersection(area, n.bounds) {
      return;
    }
    var k := 0;
    while k < |n.objects|
      invariant 0 <= k <= |n.objects|
      invariant result == found + BucketMatches(n.objects[..k], area)
    {
      assert n.objects[..k + 1][..k] == n.objects[..k];
      if HasIntersection(area, n.objects[k].1) {
        result := result + [n.objects[k].0];
      }
      k := k + 1;
    }
    assert n.objects[..k] == n.objects;
    var i := 0;
    while i < |n.nodes|
      invariant 0 <= i <= |n.nodes|
      invariant result == found + BucketMatches(n.objects, area) + ForestQuery(n.nodes[..i], area)
    {
      assert n.nodes[..i + 1][..i] == n.nodes[..i];
      result := Query(n.nodes[i], area, result);
      i := i + 1;
    }
    assert n.nodes[..i] == n.nodes;
  }

  /** Every object BucketMatches returns comes from a pair whose rectangle intersects the area. */
  lemma {:induction false} BucketMatchesSound(bucket: seq<(Entity, Rect)>, area: Rect, e: Entity)
    requires e in BucketMatches(bucket, area)
    ensures exists r :: (e, r) in multiset(bucket) && HasIntersection(area, r)
  {
    var init, last := bucket[..|bucket| - 1], bucket[|bucket| - 1];
    assert bucket == init + [last];
    if HasIntersection(area, last.1) && e == last.0 {
      assert last in multiset(bucket);
    } else {
      BucketMatchesSound(init, area, e);
      var r :| (e, r) in multiset(init) && HasIntersection(area, r);
      assert (e, r) in multiset(bucket);
    }
  }

  /** Every pair of the bucket whose rectangle intersects the area has its object returned. */
  lemma {:induction false} BucketMatchesComplete(bucket: seq<(Entity, Rect)>, area: Rect, p: (Entity, Rect))
    requires p in multiset(bucket) && HasIntersection(area, p.1)
    ensures p.0 in BucketMatches(bucket, area)
  {
    var init, last := bucket[..|bucket| - 1], bucket[|bucket| - 1];
    assert bucket == init + [last];
    if p != last {
      assert p in multiset(init);
      BucketMatchesComplete(init, area, p);
    }
  }

  /** Soundness of `query`: every object it appends was inserted with a rectangle meeting the area. */
  lemma {:induction false} QuerySound(n: Quadtree, area: Rect, e: Entity)
    requires e in QueryResult(n, area)
    ensures exists r :: (e, r) in Contents(n) && HasIntersection(area, r)
    decreases n, 1
  {
    if e in BucketMatches(n.objects, area) {
      BucketMatchesSound(n.objects, area, e);
    } else {
      ForestQuerySound(n.nodes, area, e);
    }
  }

  lemma {:induction false} ForestQuerySound(s: seq<Quadtree>, area: Rect, e: Entity)
    requires e in ForestQuery(s, area)
    ensures exists r :: (e, r) in Forest(s) && HasIntersection(area, r)
    decreases s, 0
  {
    if e in ForestQuery(s[..|s| - 1], area) {
      ForestQuerySound(s[..|s| - 1], area, e);
    } else {
      QuerySound(s[|s| - 1], area, e);
    }
  }

  /**
   * Completeness for a node without children: when the area meets the node's bounds, the object
   * of every stored pair whose rectangle meets the area is returned.
   */
  lemma LeafQueryComplete(n: Quadtree, area: Rect, p: (Entity, Rect))
    requires n.nodes == [] && HasIntersection(area, n.bounds)
    requires p in Contents(n) && HasIntersection(area, p.1)
    ensures p.0 in QueryResult(n, area)
  {
    BucketMatchesComplete(n.objects, area, p);
  }

  /** The odd-width split gives child 0 of a 5 by 5 node bounds that miss a rectangle routed to it. */
  lemma OddSplitRoutesOutside()
    ensures GetIndex(Rect(0, 0, 5, 5), Rect(4, 0, 1, 1)) == 0
    ensures !HasIntersection(ChildBounds(Rect(0, 0, 5, 5), 0), Rect(4, 0, 1, 1))
  {
  }

  /**
   * A query can miss a stored object: in a valid 5 by 5 tree whose child 0 holds the pair that
   * GetIndex sends there, a query over that pair's own rectangle meets the root but none of the
   * children's bounds, so it reports nothing.
   */
  lemma OddSplitQueryMisses()
    ensures var b := Rect(0, 0, 5, 5);
      var p := (7, Rect(4, 0, 1, 1));
      var t := Quadtree(0, b, [], [Quadtree(1, ChildBounds(b, 0), [p], []), Empty(1, ChildBounds(b, 1)),
                                   Empty(1, ChildBounds(b, 2)), Empty(1, ChildBounds(b, 3))]);
      Valid(t) && p in Contents(t) && GetIndex(b, p.1) == 0 &&
      HasIntersection(p.1, p.1) && HasIntersection(p.1, b) && QueryResult(t, p.1) == []
  {
    var b := Rect(0, 0, 5, 5);
    var p := (7, Rect(4, 0, 1, 1));
    var c0 := Quadtree(1, ChildBounds(b, 0), [p], []);
    var s := [c0, Empty(1, ChildBounds(b, 1)), Empty(1, ChildBounds(b, 2)), Empty(1, ChildBounds(b, 3))];
    assert Valid(c0);
    ForestOfFour(s);
    ForestQueryOfFour(s, p.1);
  }

  /**
   * The query as evidently intended: every node's bucket is tested against the area, and no
   * node's bounds stand in for the rectangles stored below it.
   */
  function FullQuery(n: Quadtree, area: Rect): seq<Entity>
    decreases n
  {
    BucketMatches(n.objects, area) + ForestFullQuery(n.nodes, area)
  }

  function ForestFullQuery(s: seq<Quadtree>, area: Rect): seq<Entity>
    decreases s
  {
    if s == [] then [] else ForestFullQuery(s[..|s| - 1], area) + FullQuery(s[|s| - 1], area)
  }

  /** Completeness: every stored pair whose rectangle meets the area has its object reported. */
  lemma {:induction false} FullQueryComplete(n: Quadtree, area: Rect, p: (Entity, Rect))
    requires p in Contents(n) && HasIntersection(area, p.1)
    ensures p.0 in FullQuery(n, area)
    decreases n, 1
  {
    if p in multiset(n.objects) {
      BucketMatchesComplete(n.objects, area, p);
    } else {
      ForestFullQueryComplete(n.nodes, area, p);
    }
  }

  lemma {:induction false} ForestFullQueryComplete(s: seq<Quadtree>, area: Rect, p: (Entity, Rect))
    requires p in Forest(s) && HasIntersection(area, p.1)
    ensures p.0 in ForestFullQuery(s, area)
    decreases s, 0
  {
    if p in Forest(s[..|s| - 1]) {
      ForestFullQueryComplete(s[..|s| - 1], area, p);
    } else {
      FullQueryComplete(s[|s| - 1], area, p);
    }
  }

  /** Soundness: every object reported was stored with a rectangle meeting the area. */
  lemma {:induction false} FullQuerySound(n: Quadtree, area: Rect, e: Entity)
    requires e in FullQuery(n, area)
    ensures exists r :: (e, r) in Contents(n) && HasIntersection(area, r)
    decreases n, 1
  {
    if e in BucketMatches(n.objects, area) {
      BucketMatchesSound(n.objects, area, e);
    } else {
      ForestFullQuerySound(n.nodes, area, e);
    }
  }

  lemma {:induction false} ForestFullQuerySound(s: seq<Quadtree>, area: Rect, e: Entity)
    requires e in ForestFullQuery(s, area)
    ensures exists r :: (e, r) in Forest(s) && HasIntersection(area, r)
    decreases s, 0
  {
    if e in ForestFullQuery(s[..|s| - 1], area) {
      ForestFullQuerySound(s[..|s| - 1], area, e);
    } else {
      FullQuerySound(s[|s| - 1], area, e);
    }
  }

  /** The corrected query reports every object the pruned query of `query` reports. */
  lemma FullQueryCovers(n: Quadtree, area: Rect, e: Entity)
    requires e in QueryResult(n, area)
    ensures e in FullQuery(n, area)
  {
    QuerySound(n, area, e);
    var r :| (e, r) in Contents(n) && HasIntersection(area, r);
    FullQueryComplete(n, area, (e, r));
  }

  /** The pairs of four siblings. */
  lemma ForestOfFour(s: seq<Quadtree>)
    requires |s| == 4
    ensures Forest(s) == Contents(s[0]) + Contents(s[1]) + Contents(s[2]) + Contents(s[3])
  {
    var s1, s2, s3 := s[..1], s[..2], s[..3];
    assert s3[..2] == s2 && s2[..1] == s1 && s1[..0] == [];
    assert s1[0] == s[0] && s2[1] == s[1] && s3[2] == s[2];
    assert Forest(s1) == Contents(s[0]);
    assert Forest(s2) == Forest(s1) + Contents(s[1]);
    assert Forest(s3) == Forest(s2) + Contents(s[2]);
    assert Forest(s) == Forest(s3) + Contents(s[3]);
  }

  /** The query results of four siblings, in order. */
  lemma ForestQueryOfFour(s: seq<Quadtree>, area: Rect)
    requires |s| == 4
    ensures ForestQuery(s, area) == QueryResult(s[0], area) + QueryResult(s[1], area) + QueryResult(s[2], area) + QueryResult(s[3], area)
  {
    var s1, s2, s3 := s[..1], s[..2], s[..3];
    assert s3[..2] == s2 && s2[..1] == s1 && s1[..0] == [];
    assert s1[0] == s[0] && s2[1] == s[1] && s3[2] == s[2];
    assert ForestQuery(s1, area) == [] + QueryResult(s[0], area) == QueryResult(s[0], area);
    assert ForestQuery(s2, area) == ForestQuery(s1, area) + QueryResult(s[1], area);
    assert ForestQuery(s3, area) == ForestQuery(s2, area) + QueryResult(s[2], area);
  }

  /** The number of levels below a node. */
  function Height(n: Quadtree): nat
    decreases n
  {
    if n.nodes == [] then 0 else 1 + ForestHeight(n.nodes)
  }

  function ForestHeight(s: seq<Quadtree>): nat
    decreases s
  {
    if s == [] then 0
    else
      var a, b := ForestHeight(s[..|s| - 1]), Height(s[|s| - 1]);
      if a < b then b else a
  }

  /** No node of a valid tree whose root lies at or above MAX_LEVELS sits deeper than MAX_LEVELS. */
  lemma {:induction false} HeightBounded(n: Quadtree)
    requires Valid(n) && n.level <= MAX_LEVELS
    ensures n.level + Height(n) <= MAX_LEVELS
    decreases n, 1
  {
    if n.nodes != [] {
      ForestHeightBounded(n, |n.nodes|);
      assert n.nodes[..|n.nodes|] == n.nodes;
    }
  }

  lemma {:induction false} ForestHeightBounded(n: Quadtree, k: nat)
    requires Valid(n) && n.level < MAX_LEVELS && 0 < k <= |n.nodes|
    ensures n.level + 1 + ForestHeight(n.nodes[..k]) <= MAX_LEVELS
    decreases n, 0, k
  {
    var s := n.nodes[..k];
    assert s[..|s| - 1] == n.nodes[..k - 1];
    HeightBounded(s[|s| - 1]);
    if k > 1 {
      ForestHeightBounded(n, k - 1);
    }
  }
}
