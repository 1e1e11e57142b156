/** Plane geometry over integer coordinates: orientation, and the angular order of the points of a half plane. */
module Plane {

  datatype Pt = Pt(x: int, y: int)

  const ORIGIN := Pt(0, 0)

  function Cross(p: Pt, q: Pt): int { p.x * q.y - p.y * q.x }

  function Dot(p: Pt, q: Pt): int { p.x * q.x + p.y * q.y }

  function Minus(p: Pt, q: Pt): Pt { Pt(p.x - q.x, p.y - q.y) }

  function Norm(p: Pt): int { Dot(p, p) }

  /** Positive exactly when a, b, c turn left. */
  function Left(a: Pt, b: Pt, c: Pt): int { Cross(Minus(b, a), Minus(c, a)) }

  lemma LeftSum(a: Pt, b: Pt, c: Pt)
    ensures Left(a, b, c) == Cross(a, b) + Cross(b, c) + Cross(c, a)
    ensures Left(a, b, c) == Left(b, c, a) == -Left(b, a, c) == -Left(a, c, b)
  {
  }

  lemma CrossAnti(p: Pt, q: Pt)
    ensures Cross(p, q) == -Cross(q, p) && Cross(p, p) == 0
  {
  }

  /** Four points: the turn at d over the line from u to v is the one of b and c weighted by where d lies. */
  lemma TurnIdentity(u: Pt, v: Pt, b: Pt, c: Pt, d: Pt)
    ensures Cross(b, c) * Left(u, v, d) ==
            Left(b, c, d) * Cross(u, v) + Cross(d, c) * Left(u, v, b) + Cross(b, d) * Left(u, v, c)
  {
    TurnTerms(u, v, b, c, d);
    LeftSum(u, v, d);
    LeftSum(u, v, b);
    LeftSum(u, v, c);
    LeftSum(b, c, d);
  }

  lemma TurnTerms(u: Pt, v: Pt, b: Pt, c: Pt, d: Pt)
    ensures Cross(b, c) * (Cross(u, v) + Cross(v, d) + Cross(d, u)) ==
            (Cross(b, c) + Cross(c, d) + Cross(d, b)) * Cross(u, v)
            + Cross(d, c) * (Cross(u, v) + Cross(v, b) + Cross(b, u))
            + Cross(b, d) * (Cross(u, v) + Cross(v, c) + Cross(c, u))
  {
    Pluecker(b, c, d, v);
    Pluecker(b, c, d, u);
    CrossAnti(b, d);
    CrossAnti(d, c);
    CrossAnti(u, d);
    CrossAnti(u, b);
    CrossAnti(u, c);
    assert Cross(b, c) * Cross(v, d) == Cross(d, c) * Cross(v, b) + Cross(b, d) * Cross(v, c);
  }

  lemma Pluecker(b: Pt, c: Pt, d: Pt, v: Pt)
    ensures Cross(b, c) * Cross(v, d) == Cross(d, c) * Cross(v, b) + Cross(b, d) * Cross(v, c)
  {
  }

  /** The component of b along v carries its cross product with any p. */
  lemma AlongIdentity(p: Pt, v: Pt, b: Pt)
    ensures Cross(p, b) * Norm(v) == Cross(p, v) * Dot(v, b) + Dot(p, v) * Cross(v, b)
  {
  }

  lemma NormNonNegative(p: Pt)
    ensures 0 <= Norm(p) && (Norm(p) == 0 <==> p == ORIGIN)
  {
    Square(p.x);
    Square(p.y);
  }

  lemma Square(a: int)
    ensures 0 <= a * a && (a * a == 0 <==> a == 0)
  {
  }

  // ----- The angular order on the half plane above the origin -----

  /** Above the axis or on its right half: angles from 0 up to but not including 180 degrees. */
  predicate Upper(p: Pt) { p.y > 0 || (p.y == 0 && p.x >= 0) }

  /** The sort exchanges p and q: p is further round, or as far round and further out. */
  predicate Swaps(p: Pt, q: Pt) { Cross(p, q) < 0 || (Cross(p, q) == 0 && Norm(p) > Norm(q)) }

  predicate Upto(p: Pt, q: Pt) { !Swaps(p, q) }

  lemma UptoTotal(p: Pt, q: Pt)
    ensures Upto(p, q) || Upto(q, p)
  {
    CrossAnti(p, q);
  }

  lemma ProductSign(a: int, b: int)
    ensures a >= 0 && b >= 0 ==> a * b >= 0
    ensures a > 0 && b > 0 ==> a * b > 0
    ensures a > 0 && b < 0 ==> a * b < 0
    ensures a < 0 && b < 0 ==> a * b > 0
    ensures a * b == 0 ==> a == 0 || b == 0
  {
  }

  lemma MiddleIdentity(p: Pt, q: Pt, r: Pt)
    ensures q.y * Cross(p, r) == p.y * Cross(q, r) + r.y * Cross(p, q)
  {
  }

  /** Not to the right, twice, is not to the right; strictly so if one of the steps is. */
  lemma CrossTransitive(p: Pt, q: Pt, r: Pt)
    requires Upper(p) && Upper(q) && Upper(r) && q != ORIGIN && Cross(p, q) >= 0 && Cross(q, r) >= 0
    ensures Cross(p, r) >= 0
    ensures p != ORIGIN && r != ORIGIN && (Cross(p, q) > 0 || Cross(q, r) > 0) ==> Cross(p, r) > 0
  {
    MiddleIdentity(p, q, r);
    ProductSign(p.y, Cross(q, r));
    ProductSign(r.y, Cross(p, q));
    ProductSign(q.y, Cross(p, r));
    if q.y == 0 {
      OnAxis(p, q);
    }
    if p.y == 0 {
      ProductSign(p.x, q.y);
      ProductSign(p.x, r.y);
      if r.y == 0 && r.x > 0 && q.y > 0 {
        ProductSign(q.y, r.x);
      }
    } else if r.y == 0 && q.y > 0 {
      ProductSign(q.y, r.x);
    }
  }

  /** Nothing of the half plane is to the right of the axis. */
  lemma OnAxis(p: Pt, q: Pt)
    requires Upper(p) && Upper(q) && q.y == 0 && q != ORIGIN && Cross(p, q) >= 0
    ensures p.y == 0 && Cross(p, q) == 0
  {
    ProductSign(p.y, q.x);
  }

  lemma OriginLeast(p: Pt, q: Pt)
    requires p == ORIGIN || q == ORIGIN
    ensures Cross(p, q) == 0
  {
  }

  lemma UptoTransitive(p: Pt, q: Pt, r: Pt)
    requires Upper(p) && Upper(q) && Upper(r) && Upto(p, q) && Upto(q, r)
    ensures Upto(p, r)
  {
    NormNonNegative(p);
    NormNonNegative(q);
    NormNonNegative(r);
    OriginLeast(p, ORIGIN);
    if p == ORIGIN {
      OriginLeast(p, r);
    } else if q == ORIGIN {
      OriginLeast(p, q);
    } else if r == ORIGIN {
      OriginLeast(q, r);
    } else {
      CrossTransitive(p, q, r);
    }
  }

  /** Points of the half plane in one direction: their product is positive, and at least the nearer one's square. */
  lemma SameDirection(p: Pt, q: Pt)
    requires Upper(p) && Upper(q) && p != ORIGIN && q != ORIGIN && Cross(p, q) == 0
    ensures 0 < Dot(p, q)
    ensures Norm(p) <= Norm(q) ==> Norm(p) <= Dot(p, q) <= Norm(q)
  {
    if p.y == 0 {
      ProductSign(p.x, q.y);
      ProductSign(p.x, q.x);
    } else {
      SameSide(p, q);
    }
    if Norm(p) <= Norm(q) {
      NormNonNegative(p);
      Lagrange(p, q);
      BetweenSquares(Dot(p, q), Norm(p), Norm(q));
    }
  }

  lemma SameSide(p: Pt, q: Pt)
    requires p.y > 0 && Upper(q) && q != ORIGIN && p.x * q.y == p.y * q.x
    ensures 0 < Dot(p, q)
  {
    ProductSign(p.y, q.x);
    ProductSign(p.y, q.y);
    ProductSign(p.x, q.x);
    ProductSign(q.y, p.x);
    if q.y > 0 && p.x < 0 {
      ProductSign(q.y, p.x);
      ProductSign(p.x, q.x);
    }
  }

  lemma Lagrange(p: Pt, q: Pt)
    ensures Dot(p, q) * Dot(p, q) + Cross(p, q) * Cross(p, q) == Norm(p) * Norm(q)
  {
  }

  lemma BetweenSquares(d: int, a: int, b: int)
    requires 0 < d && 0 <= a <= b && d * d == a * b
    ensures a <= d <= b
  {
    if d < a {
      Monotone(d, a, d);
      Monotone(d, a, a);
      Monotone(a, b, a);
    }
    if b < d {
      Monotone(a, b, b);
      Monotone(b, d, b);
      Monotone(b, d, d);
    }
  }

  lemma Monotone(a: int, b: int, k: int)
    requires a <= b && 0 <= k
    ensures a * k <= b * k
    ensures a < b && 0 < k ==> a * k < b * k
  {
    ProductSign(b - a, k);
  }
}
