/** Integer rectangles shared by the spatial index and the collision system. */
module Geometry {

  /** An axis-aligned rectangle: top-left corner (x, y), width w and height h. */
  datatype Rect = Rect(x: int, y: int, w: int, h: int)

  /** Strict overlap on both axes: rectangles that only share an edge do not intersect. */
  predicate HasIntersection(a: Rect, b: Rect)
  {
    a.x < b.x + b.w && a.x + a.w > b.x &&
    a.y < b.y + b.h && a.y + a.h > b.y
  }

  /** The rectangle moved by (dx, dy). */
  function Shift(r: Rect, dx: int, dy: int): (s: Rect)
    ensures s.w == r.w && s.h == r.h
    ensures s.x - r.x == dx && s.y - r.y == dy
  {
    Rect(r.x + dx, r.y + dy, r.w, r.h)
  }

  /** Intersection is symmetric. */
  lemma IntersectionSymmetric(a: Rect, b: Rect)
    ensures HasIntersection(a, b) <==> HasIntersection(b, a)
  {
  }

  /** Sharing a vertical or horizontal edge is not an intersection. */
  lemma TouchingIsNotIntersecting(a: Rect, b: Rect)
    requires a.x + a.w == b.x || b.x + b.w == a.x || a.y + a.h == b.y || b.y + b.h == a.y
    ensures !HasIntersection(a, b)
  {
  }

  /** C++ `/` on `int`: the quotient truncated toward zero. */
  function TruncDiv(a: int, b: int): int
    requires b != 0
  {
    if a >= 0 then (if b > 0 then a / b else -(a / -b))
    else (if b > 0 then -((-a) / b) else (-a) / (-b))
  }

  /** C++ `%` on `int`: the remainder that goes with `TruncDiv`, with the sign of `a`. */
  function TruncMod(a: int, b: int): int
    requires b != 0
  {
    a - b * TruncDiv(a, b)
  }

  /** Truncating division undoes itself like Euclid's, and agrees with it on non-negative operands. */
  lemma TruncDivMod(a: int, b: int)
    requires b != 0
    ensures a == b * TruncDiv(a, b) + TruncMod(a, b)
    ensures a >= 0 ==> 0 <= TruncMod(a, b) < (if b > 0 then b else -b)
    ensures a < 0 ==> -(if b > 0 then b else -b) < TruncMod(a, b) <= 0
    ensures a >= 0 && b > 0 ==> TruncDiv(a, b) == a / b && TruncMod(a, b) == a % b
  {
    if a >= 0 && b > 0 {
      assert TruncDiv(a, b) == a / b;
    } else if a >= 0 {
      TruncModNegDivisor(a, b);
    } else if b > 0 {
      TruncModNegDividend(a, b);
    } else {
      TruncModBothNeg(a, b);
    }
  }

  lemma TruncModNegDivisor(a: int, b: int)
    requires a >= 0 && b < 0
    ensures 0 <= TruncMod(a, b) < -b
  {
    var q := a / -b;
    assert TruncDiv(a, b) == -q;
    assert TruncMod(a, b) == a - b * -q;
    assert b * -q == (-b) * q;
    assert a - (-b) * q == a % -b;
  }

  lemma TruncModNegDividend(a: int, b: int)
    requires a < 0 && b > 0
    ensures -b < TruncMod(a, b) <= 0
  {
    var q := (-a) / b;
    assert TruncDiv(a, b) == -q;
    assert TruncMod(a, b) == a - b * -q;
    assert b * -q == -(b * q);
    assert -a - b * q == (-a) % b;
  }

  lemma TruncModBothNeg(a: int, b: int)
    requires a < 0 && b < 0
    ensures b < TruncMod(a, b) <= 0
  {
    var q := (-a) / (-b);
    assert TruncDiv(a, b) == q;
    assert TruncMod(a, b) == a - b * q;
    assert b * q == -((-b) * q);
    assert -a - (-b) * q == (-a) % (-b);
  }
}
