/**
 The corners of rotated boxes and the 24 candidate points of an intersection, in exact real arithmetic: 16 edge
 crossings, 4 corners of the first box inside the second, and 4 of the second inside the first.

 The main results: whatever values stand for the cosine and the sine, the corners form a right-angled
 parallelogram; every slot that is marked lies in both closed rectangles (MarkedSlotsAreShared); a slot is
 marked exactly when its edges cross or its corner is inside (CrossingExactly, ProjectionTestExactly). Whether the
 marked slots are enough is the subject of ClippingHull.
 */
module Clipping {
  import opened HullScan
  import O = HullOrder

  datatype Vec = Vec(x: real, y: real)

  function Plus(a: Vec, b: Vec): Vec { Vec(a.x + b.x, a.y + b.y) }
  function Minus(a: Vec, b: Vec): Vec { Vec(a.x - b.x, a.y - b.y) }
  function Times(a: Vec, t: real): Vec { Vec(a.x * t, a.y * t) }
  function Dot(a: Vec, b: Vec): real { a.x * b.x + a.y * b.y }
  function Cross(a: Vec, b: Vec): real { a.x * b.y - a.y * b.x }

  const ZERO := Vec(0.0, 0.0)

  /** Centre, width, height, and the values the hardware returns for cosine and sine of the angle. */
  datatype Box = Box(x: real, y: real, w: real, h: real, cos: real, sin: real)

  /** Four corners in order. */
  datatype Quad = Quad(p0: Vec, p1: Vec, p2: Vec, p3: Vec) {
    function Corner(i: nat): Vec { if i % 4 == 0 then p0 else if i % 4 == 1 then p1 else if i % 4 == 2 then p2 else p3 }

    /** The edge from corner i to the next. */
    function Side(i: nat): Vec { Minus(Corner(i + 1), Corner(i)) }

    /** The points a along the first side and b along the other one from corner 0. */
    function At(a: real, b: real): Vec { Plus(p0, Plus(Times(Side(0), a), Times(Minus(p3, p0), b))) }

    ghost predicate Contains(p: Vec) {
      exists a, b :: 0.0 <= a <= 1.0 && 0.0 <= b <= 1.0 && p == At(a, b)
    }

    predicate Parallelogram() { Minus(p1, p0) == Minus(p2, p3) }

    predicate RightAngled() { Dot(Minus(p1, p0), Minus(p3, p0)) == 0.0 }
  }

  function RotatedVertices(b: Box): Quad {
    var cos2, sin2 := b.cos * 0.5, b.sin * 0.5;
    var p0 := Vec(b.x - sin2 * b.h - cos2 * b.w, b.y + cos2 * b.h - sin2 * b.w);
    var p1 := Vec(b.x + sin2 * b.h - cos2 * b.w, b.y - cos2 * b.h - sin2 * b.w);
    Quad(p0, p1, Vec(2.0 * b.x - p0.x, 2.0 * b.y - p0.y), Vec(2.0 * b.x - p1.x, 2.0 * b.y - p1.y))
  }

  /** The sides from corner 0, in terms of the box. */
  lemma VertexSides(b: Box)
    ensures var q := RotatedVertices(b);
            Minus(q.p1, q.p0) == Vec(b.sin * b.h, -b.cos * b.h) && Minus(q.p3, q.p0) == Vec(b.cos * b.w, b.sin * b.w)
  {
  }

  lemma ProductSwap(a: real, b: real, c: real, d: real)
    ensures (a * b) * (c * d) == (a * c) * (b * d)
  {
  }

  /** For any cosine and sine the corners are those of a rectangle around the centre, with the sides the box
      has, scaled by the length of (cosine, sine). */
  lemma VerticesAreRectangle(b: Box)
    ensures var q := RotatedVertices(b);
            && q.Parallelogram() && q.RightAngled()
            && Plus(q.p0, q.p2) == Plus(q.p1, q.p3) == Times(Vec(b.x, b.y), 2.0)
            && Dot(q.Side(0), q.Side(0)) == (b.cos * b.cos + b.sin * b.sin) * (b.h * b.h)
            && Dot(q.Side(1), q.Side(1)) == (b.cos * b.cos + b.sin * b.sin) * (b.w * b.w)
  {
    var q := RotatedVertices(b);
    VertexSides(b);
    assert q.Side(0) == Minus(q.p1, q.p0) && q.Side(1) == Minus(q.p2, q.p1) == Minus(q.p3, q.p0);
    ProductSwap(b.sin, b.h, b.cos, b.w);
    ProductSwap(b.cos, b.h, b.sin, b.w);
    ProductSwap(b.sin, b.h, b.sin, b.h);
    ProductSwap(b.cos, b.h, b.cos, b.h);
    ProductSwap(b.sin, b.w, b.sin, b.w);
    ProductSwap(b.cos, b.w, b.cos, b.w);
  }

  // ----- Edge crossings -----

  const DET_THRESHOLD := 0.00000000000001

  /** A candidate point and whether it is marked valid; unmarked slots hold zero. */
  datatype Slot = Slot(marked: bool, p: Vec)

  function Abs(a: real): real { if a < 0.0 then -a else a }

  predicate Unit(t: real) { 0.0 <= t <= 1.0 }

  /** The point t of the way along side i. */
  function OnSide(q: Quad, i: nat, t: real): Vec { Plus(q.Corner(i), Times(q.Side(i), t)) }

  function Det(q1: Quad, q2: Quad, i: nat, j: nat): real { Cross(q2.Side(j), q1.Side(i)) }

  /** How far along side i of q1, and along side j of q2, their lines meet. */
  function Meet1(q1: Quad, q2: Quad, i: nat, j: nat): real
    requires Det(q1, q2, i, j) != 0.0
  {
    Cross(q2.Side(j), Minus(q2.Corner(j), q1.Corner(i))) / Det(q1, q2, i, j)
  }

  function Meet2(q1: Quad, q2: Quad, i: nat, j: nat): real
    requires Det(q1, q2, i, j) != 0.0
  {
    Cross(q1.Side(i), Minus(q2.Corner(j), q1.Corner(i))) / Det(q1, q2, i, j)
  }

  function Crossing(q1: Quad, q2: Quad, i: nat, j: nat): Slot {
    if Abs(Det(q1, q2, i, j)) <= DET_THRESHOLD then Slot(false, ZERO)
    else
      var t1, t2 := Meet1(q1, q2, i, j), Meet2(q1, q2, i, j);
      if Unit(t1) && Unit(t2) then Slot(true, OnSide(q1, i, t1)) else Slot(false, ZERO)
  }

  /** Cramer's rule. */
  lemma Cramer(a: Vec, b: Vec, d: Vec, s: real, t: real)
    requires Cross(b, a) != 0.0
    ensures s == Cross(b, d) / Cross(b, a) && t == Cross(a, d) / Cross(b, a) <==>
            Minus(Times(a, s), Times(b, t)) == d
  {
    var det := Cross(b, a);
    var s0, t0 := Cross(b, d) / det, Cross(a, d) / det;
    assert s0 * det == Cross(b, d) && t0 * det == Cross(a, d);
    if Minus(Times(a, s), Times(b, t)) == d {
      Solves(a, b, d, s, t);
      SameFactor(s, s0, det);
      SameFactor(t, t0, det);
    } else if s == s0 && t == t0 {
      Solution(a, b, d, s, t);
    }
  }

  lemma SameFactor(s: real, s': real, det: real)
    requires det != 0.0 && s * det == s' * det
    ensures s == s'
  {
    assert (s - s') * det == 0.0;
  }

  lemma Solves(a: Vec, b: Vec, d: Vec, s: real, t: real)
    requires Minus(Times(a, s), Times(b, t)) == d
    ensures s * Cross(b, a) == Cross(b, d) && t * Cross(b, a) == Cross(a, d)
  {
    assert d.x == a.x * s - b.x * t && d.y == a.y * s - b.y * t;
  }

  lemma Solution(a: Vec, b: Vec, d: Vec, s: real, t: real)
    requires s * Cross(b, a) == Cross(b, d) && t * Cross(b, a) == Cross(a, d) && Cross(b, a) != 0.0
    ensures Minus(Times(a, s), Times(b, t)) == d
  {
    var det := Cross(b, a);
    CramerCoordinate(a.x, b.x, Cross(b, d), Cross(a, d), d.x, det, s, t);
    CramerCoordinate(a.y, b.y, Cross(b, d), Cross(a, d), d.y, det, s, t);
  }

  /** One coordinate of Cramer's solution. */
  lemma CramerCoordinate(a: real, b: real, u: real, v: real, d: real, det: real, s: real, t: real)
    requires det != 0.0 && s * det == u && t * det == v && a * u - b * v == d * det
    ensures a * s - b * t == d
  {
    ProductOut(a, s, det);
    ProductOut(b, t, det);
    assert (a * s - b * t) * det == a * s * det - b * t * det;
    SameFactor(a * s - b * t, d, det);
  }

  lemma ProductOut(a: real, s: real, det: real)
    ensures a * s * det == a * (s * det)
  {
  }

  lemma SidesMeet(q1: Quad, q2: Quad, i: nat, j: nat, s: real, t: real)
    requires Det(q1, q2, i, j) != 0.0
    ensures s == Meet1(q1, q2, i, j) && t == Meet2(q1, q2, i, j) <==> OnSide(q1, i, s) == OnSide(q2, j, t)
  {
    hide Cross, Det, Quad.Side, Quad.Corner;
    var a, b, d := q1.Side(i), q2.Side(j), Minus(q2.Corner(j), q1.Corner(i));
    assert Det(q1, q2, i, j) == Cross(b, a) by { DetIs(q1, q2, i, j); }
    Cramer(a, b, d, s, t);
  }

  lemma DetIs(q1: Quad, q2: Quad, i: nat, j: nat)
    ensures Det(q1, q2, i, j) == Cross(q2.Side(j), q1.Side(i))
  {
  }

  /** A crossing is marked exactly when the two sides are not parallel and have a point in common, and then it
      is that point. */
  lemma CrossingExactly(q1: Quad, q2: Quad, i: nat, j: nat)
    ensures var r := Crossing(q1, q2, i, j);
            && (r.marked <==>
                Abs(Det(q1, q2, i, j)) > DET_THRESHOLD &&
                exists s, t :: Unit(s) && Unit(t) && OnSide(q1, i, s) == OnSide(q2, j, t))
            && (r.marked ==>
                forall s, t :: Unit(s) && Unit(t) && OnSide(q1, i, s) == OnSide(q2, j, t) ==> OnSide(q1, i, s) == r.p)
  {
    hide Meet1, Meet2, OnSide, Det;
    if Abs(Det(q1, q2, i, j)) > DET_THRESHOLD {
      var t1, t2 := Meet1(q1, q2, i, j), Meet2(q1, q2, i, j);
      SidesMeet(q1, q2, i, j, t1, t2);
      forall s, t | OnSide(q1, i, s) == OnSide(q2, j, t) ensures s == t1 && t == t2 {
        SidesMeet(q1, q2, i, j, s, t);
      }
    }
  }

  /** The sides of a parallelogram belong to it. */
  lemma SideInside(q: Quad, i: nat, t: real)
    requires q.Parallelogram() && Unit(t)
    ensures q.Contains(OnSide(q, i, t))
  {
    SideOf(q, i);
    AtIs(q, t);
    if i % 4 == 0 {
      assert OnSide(q, i, t) == q.At(t, 0.0);
    } else if i % 4 == 1 {
      assert OnSide(q, i, t) == q.At(1.0, t);
    } else if i % 4 == 2 {
      assert OnSide(q, i, t) == q.At(1.0 - t, 1.0);
    } else {
      assert OnSide(q, i, t) == q.At(0.0, 1.0 - t);
    }
  }

  /** The four sides of a parallelogram in coordinates. */
  lemma AtIs(q: Quad, t: real)
    requires q.Parallelogram()
    ensures q.At(t, 0.0) == Plus(q.p0, Times(Minus(q.p1, q.p0), t))
    ensures q.At(1.0, t) == Plus(q.p1, Times(Minus(q.p2, q.p1), t))
    ensures q.At(1.0 - t, 1.0) == Plus(q.p2, Times(Minus(q.p3, q.p2), t))
    ensures q.At(0.0, 1.0 - t) == Plus(q.p3, Times(Minus(q.p0, q.p3), t))
  {
    SideOf(q, 0);
    AtCoordinate(q.p0.x, q.p1.x, q.p2.x, q.p3.x, t);
    AtCoordinate(q.p0.y, q.p1.y, q.p2.y, q.p3.y, t);
  }

  lemma AtCoordinate(a: real, b: real, c: real, d: real, t: real)
    requires b - a == c - d
    ensures a + ((b - a) * t + (d - a) * 0.0) == a + (b - a) * t
    ensures a + ((b - a) * 1.0 + (d - a) * t) == b + (c - b) * t
    ensures a + ((b - a) * (1.0 - t) + (d - a) * 1.0) == c + (d - c) * t
    ensures a + ((b - a) * 0.0 + (d - a) * (1.0 - t)) == d + (a - d) * t
  {
    assert c - b == d - a && d - c == -(b - a);
  }

  lemma SideOf(q: Quad, i: nat)
    ensures q.Corner(i) == q.Corner(i % 4) && q.Side(i) == q.Side(i % 4)
    ensures i % 4 == 0 ==> q.Side(i) == Minus(q.p1, q.p0)
    ensures i % 4 == 1 ==> q.Side(i) == Minus(q.p2, q.p1)
    ensures i % 4 == 2 ==> q.Side(i) == Minus(q.p3, q.p2)
    ensures i % 4 == 3 ==> q.Side(i) == Minus(q.p0, q.p3)
  {
    assert (i + 1) % 4 == (i % 4 + 1) % 4;
  }

  lemma MarkedCrossingIsShared(q1: Quad, q2: Quad, i: nat, j: nat)
    requires q1.Parallelogram() && q2.Parallelogram() && Crossing(q1, q2, i, j).marked
    ensures q1.Contains(Crossing(q1, q2, i, j).p) && q2.Contains(Crossing(q1, q2, i, j).p)
  {
    hide Meet1, Meet2, OnSide, Det, Quad.Contains, Quad.Parallelogram;
    var t1, t2 := Meet1(q1, q2, i, j), Meet2(q1, q2, i, j);
    SidesMeet(q1, q2, i, j, t1, t2);
    SideInside(q1, i, t1);
    SideInside(q2, j, t2);
  }

  // ----- Corners inside the other box -----

  /** The test the kernel makes: the projections of p on both sides from corner 0 fall within them. */
  predicate Projects(q: Quad, p: Vec) {
    var ap, ab, da := Minus(p, q.p0), q.Side(0), q.Side(3);
    var apAb, apAd := Dot(ap, ab), Dot(ap, da) * -1.0;
    apAb >= 0.0 && apAd >= 0.0 && apAb <= Dot(ab, ab) && apAd <= Dot(da, da)
  }

  lemma DotLinear(p: Vec, a: Vec, b: Vec, s: real, t: real)
    ensures Dot(Plus(Times(a, s), Times(b, t)), p) == s * Dot(a, p) + t * Dot(b, p)
  {
  }

  lemma SquarePositive(a: Vec)
    ensures 0.0 <= Dot(a, a)
    ensures a != ZERO ==> 0.0 < Dot(a, a)
    ensures a == ZERO ==> Dot(a, a) == 0.0
  {
    var s, t := a.x * a.x, a.y * a.y;
    RealSquare(a.x, s);
    RealSquare(a.y, t);
    assert Dot(a, a) == s + t && a == Vec(a.x, a.y);
  }

  lemma RealSquare(x: real, s: real)
    requires s == x * x
    ensures 0.0 <= s && (x != 0.0 ==> 0.0 < s)
  {
    if x < 0.0 {
      PositiveProduct(-x, -x, s);
    } else if x > 0.0 {
      PositiveProduct(x, x, s);
    }
  }

  lemma PositiveProduct(a: real, b: real, s: real)
    requires 0.0 < a && 0.0 < b && s == a * b
    ensures 0.0 < s
  {
  }

  lemma ScaledUnit(t: real, n: real)
    requires 0.0 < n
    ensures Unit(t) <==> 0.0 <= t * n <= n
  {
    RealScale(t, 0.0, n);
    RealScale(1.0, t, n);
    assert 0.0 * n == 0.0 && 1.0 * n == n;
  }

  lemma RealScale(a: real, b: real, n: real)
    requires 0.0 < n
    ensures a < b <==> a * n < b * n
  {
    if a < b {
      assert (b - a) * n > 0.0;
    } else {
      assert (a - b) * n >= 0.0;
    }
  }

  lemma Reversed(a: Vec, b: Vec, v: Vec)
    ensures Dot(v, Minus(a, b)) * -1.0 == Dot(v, Minus(b, a))
    ensures Dot(Minus(a, b), Minus(a, b)) == Dot(Minus(b, a), Minus(b, a))
    ensures Minus(a, b) == ZERO <==> Minus(b, a) == ZERO
  {
  }

  /** The test, with both sides taken from corner 0. */
  lemma ProjectsIs(q: Quad, p: Vec)
    ensures q.Side(0) == Minus(q.p1, q.p0)
    ensures var (ap, ab, ad) := (Minus(p, q.p0), Minus(q.p1, q.p0), Minus(q.p3, q.p0));
            && Dot(ad, ad) == Dot(q.Side(3), q.Side(3)) && (ad == ZERO <==> q.Side(3) == ZERO)
            && (Projects(q, p) <==> 0.0 <= Dot(ap, ab) <= Dot(ab, ab) && 0.0 <= Dot(ap, ad) <= Dot(ad, ad))
  {
    SideOf(q, 0);
    SideOf(q, 3);
    Reversed(q.p0, q.p3, Minus(p, q.p0));
    hide Dot, Minus, Quad.Side, Quad.Corner;
  }

  lemma CoordinateDots(ab: Vec, ad: Vec, ap: Vec, a: real, b: real)
    requires Dot(ab, ad) == 0.0 && ap == Plus(Times(ab, a), Times(ad, b))
    ensures Dot(ap, ab) == a * Dot(ab, ab) && Dot(ap, ad) == b * Dot(ad, ad)
  {
    DotLinear(ab, ab, ad, a, b);
    DotLinear(ad, ab, ad, a, b);
    DotSym(ab, ad);
  }

  lemma AtFromCorner(q: Quad, a: real, b: real)
    ensures Minus(q.At(a, b), q.p0) == Plus(Times(Minus(q.p1, q.p0), a), Times(Minus(q.p3, q.p0), b))
  {
    SideOf(q, 0);
  }

  predicate Stays(t: real, n: real) { 0.0 <= t * n <= n }

  lemma StaysIff(t: real, n: real, d: real)
    requires d == t * n
    ensures Stays(t, n) <==> 0.0 <= d <= n
  {
  }

  /** The test in terms of coordinates along the sides. */
  lemma ProjectsAt(q: Quad, a: real, b: real)
    requires q.RightAngled()
    ensures Projects(q, q.At(a, b)) <==> Stays(a, Dot(q.Side(0), q.Side(0))) && Stays(b, Dot(q.Side(3), q.Side(3)))
  {
    hide Dot, Minus, Plus, Times, Quad.Side, Quad.At, Projects, Stays;
    var ab, ad, ap := Minus(q.p1, q.p0), Minus(q.p3, q.p0), Minus(q.At(a, b), q.p0);
    ProjectsIs(q, q.At(a, b));
    AtFromCorner(q, a, b);
    CoordinateDots(ab, ad, ap, a, b);
    StaysIff(a, Dot(ab, ab), Dot(ap, ab));
    StaysIff(b, Dot(ad, ad), Dot(ap, ad));
  }

  lemma DotSym(a: Vec, b: Vec)
    ensures Dot(a, b) == Dot(b, a)
  {
  }

  lemma InsideProjects(q: Quad, p: Vec)
    requires q.RightAngled() && q.Contains(p)
    ensures Projects(q, p)
  {
    hide Projects, Quad.Side, Quad.At, Dot;
    var a, b :| 0.0 <= a <= 1.0 && 0.0 <= b <= 1.0 && p == q.At(a, b);
    ProjectsAt(q, a, b);
    UnitScales(a, q.Side(0));
    UnitScales(b, q.Side(3));
  }

  lemma UnitScales(t: real, v: Vec)
    requires Unit(t)
    ensures 0.0 <= t * Dot(v, v) <= Dot(v, v)
  {
    SquarePositive(v);
    if v == ZERO {
      assert t * 0.0 == 0.0;
    } else {
      ScaledUnit(t, Dot(v, v));
    }
  }

  /** In a basis of two perpendicular sides every point has coordinates. */
  lemma Coordinates(q: Quad, p: Vec) returns (a: real, b: real)
    requires q.RightAngled() && q.Side(0) != ZERO && q.Side(3) != ZERO
    ensures p == q.At(a, b)
  {
    var ab, ad, ap := Minus(q.p1, q.p0), Minus(q.p3, q.p0), Minus(p, q.p0);
    ProjectsIs(q, p);
    hide Dot, Projects;
    SquarePositive(ab);
    SquarePositive(ad);
    a, b := Dot(ap, ab) / Dot(ab, ab), Dot(ap, ad) / Dot(ad, ad);
    var r := Minus(ap, Plus(Times(ab, a), Times(ad, b)));
    Residual(ap, ab, ad, a, b);
    PerpendicularToBoth(r, ab, ad);
    AtFromCorner(q, a, b);
    assert p.x - q.p0.x == q.At(a, b).x - q.p0.x && p.y - q.p0.y == q.At(a, b).y - q.p0.y;
  }

  lemma Residual(ap: Vec, ab: Vec, ad: Vec, a: real, b: real)
    requires Dot(ab, ad) == 0.0 && a * Dot(ab, ab) == Dot(ap, ab) && b * Dot(ad, ad) == Dot(ap, ad)
    ensures var r := Minus(ap, Plus(Times(ab, a), Times(ad, b))); Dot(r, ab) == 0.0 && Dot(r, ad) == 0.0
  {
    var s := Plus(Times(ab, a), Times(ad, b));
    DotLinear(ab, ab, ad, a, b);
    DotLinear(ad, ab, ad, a, b);
    DotSym(ab, ad);
    DotMinus(ap, s, ab);
    DotMinus(ap, s, ad);
  }

  lemma DotMinus(a: Vec, b: Vec, c: Vec)
    ensures Dot(Minus(a, b), c) == Dot(a, c) - Dot(b, c)
  {
  }

  lemma PerpendicularCross(ab: Vec, ad: Vec)
    requires Dot(ab, ad) == 0.0 && ab != ZERO && ad != ZERO
    ensures Cross(ab, ad) != 0.0
  {
    var k := Cross(ab, ad);
    SquarePositive(ab);
    SquarePositive(ad);
    SquaresMultiply(ab, ad);
    RealProduct(Dot(ab, ab), Dot(ad, ad));
  }

  lemma SquaresMultiply(a: Vec, b: Vec)
    ensures Cross(a, b) * Cross(a, b) + Dot(a, b) * Dot(a, b) == Dot(a, a) * Dot(b, b)
  {
  }

  lemma PerpendicularToBoth(r: Vec, ab: Vec, ad: Vec)
    requires Dot(ab, ad) == 0.0 && ab != ZERO && ad != ZERO && Dot(r, ab) == 0.0 && Dot(r, ad) == 0.0
    ensures r == ZERO
  {
    var k := Cross(ab, ad);
    PerpendicularCross(ab, ad);
    assert k * r.x == Dot(r, ab) * ad.y - Dot(r, ad) * ab.y;
    assert k * r.y == Dot(r, ad) * ab.x - Dot(r, ab) * ad.x;
    RealProduct(k, r.x);
    RealProduct(k, r.y);
  }

  lemma RealProduct(a: real, b: real)
    ensures a * b == 0.0 <==> a == 0.0 || b == 0.0
  {
  }

  lemma ProjectsInside(q: Quad, p: Vec)
    requires q.RightAngled() && q.Side(0) != ZERO && q.Side(3) != ZERO && Projects(q, p)
    ensures q.Contains(p)
  {
    var a, b := Coordinates(q, p);
    hide Projects, Quad.Side, Quad.At, Dot;
    ProjectsAt(q, a, b);
    SquarePositive(q.Side(0));
    SquarePositive(q.Side(3));
    ScaledUnit(a, Dot(q.Side(0), q.Side(0)));
    ScaledUnit(b, Dot(q.Side(3), q.Side(3)));
  }

  /** A vector off the line of v, or any but zero if v is none. */
  function OffLine(v: Vec): Vec { if v == ZERO then Vec(1.0, 0.0) else Vec(-v.y, v.x) }

  lemma OffLineIs(v: Vec, t: real)
    ensures Dot(OffLine(v), v) == 0.0 && OffLine(v) != Times(v, t)
  {
    QuarterTurn(v);
    TimesDot(v, t);
    SquarePositive(v);
    RealProduct(t, Dot(v, v));
    RealProduct(0.0, t);
    hide Dot;
  }

  lemma QuarterTurn(v: Vec)
    ensures Dot(OffLine(v), v) == 0.0
  {
  }

  lemma TimesDot(v: Vec, t: real)
    ensures Dot(Times(v, t), v) == t * Dot(v, v)
  {
  }

  /** With a side of length zero the test lets points through that are not in the box. */
  lemma FlatBoxLetsThrough(q: Quad) returns (p: Vec)
    requires q.RightAngled() && (q.Side(0) == ZERO || q.Side(3) == ZERO)
    ensures Projects(q, p) && !q.Contains(p)
  {
    hide Dot, Minus, Plus, Times, Quad.Side, Quad.At, Projects, OffLine;
    var ab, ad := Minus(q.p1, q.p0), Minus(q.p3, q.p0);
    var v := if ab != ZERO then ab else ad;
    p := Plus(q.p0, OffLine(v));
    ProjectsIs(q, p);
    PlusMinus(q.p0, OffLine(v));
    QuarterTurn(v);
    ZeroDot(OffLine(v));
    SquarePositive(ab);
    SquarePositive(ad);
    if q.Contains(p) {
      var a, b :| 0.0 <= a <= 1.0 && 0.0 <= b <= 1.0 && p == q.At(a, b);
      AtFromCorner(q, a, b);
      var t := if ab != ZERO then a else b;
      AlongOne(v, a, b);
      OffLineIs(v, t);
    }
  }

  lemma PlusMinus(a: Vec, b: Vec)
    ensures Minus(Plus(a, b), a) == b
  {
  }

  lemma AlongOne(v: Vec, s: real, t: real)
    ensures Plus(Times(v, s), Times(ZERO, t)) == Times(v, s) && Plus(Times(ZERO, s), Times(v, t)) == Times(v, t)
  {
  }

  lemma ZeroDot(a: Vec)
    ensures Dot(a, ZERO) == 0.0
  {
  }

  /** The test says exactly which points are in the box, unless a side has length zero. */
  lemma ProjectionTestExactly(q: Quad)
    requires q.RightAngled()
    ensures (forall p :: Projects(q, p) <==> q.Contains(p)) <==> q.Side(0) != ZERO && q.Side(3) != ZERO
  {
    hide Projects, Quad.Side, Quad.Contains;
    if q.Side(0) != ZERO && q.Side(3) != ZERO {
      forall p ensures Projects(q, p) <==> q.Contains(p) {
        if Projects(q, p) {
          ProjectsInside(q, p);
        }
        if q.Contains(p) {
          InsideProjects(q, p);
        }
      }
    } else {
      var p := FlatBoxLetsThrough(q);
    }
  }

  // ----- The 24 slots -----

  function CornerSlot(q: Quad, i: nat, other: Quad): Slot {
    if Projects(other, q.Corner(i)) then Slot(true, q.Corner(i)) else Slot(false, ZERO)
  }

  /** What slot k of a pair of boxes holds. */
  function SlotOf(q1: Quad, q2: Quad, k: nat): Slot {
    if k < 16 then Crossing(q1, q2, k / 4, k % 4)
    else if k < 20 then CornerSlot(q1, k - 16, q2)
    else CornerSlot(q2, k - 20, q1)
  }

  predicate ProperRectangle(q: Quad) {
    q.Parallelogram() && q.RightAngled() && q.Side(0) != ZERO && q.Side(3) != ZERO
  }

  lemma CornerInside(q: Quad, i: nat)
    requires q.Parallelogram()
    ensures q.Contains(q.Corner(i))
  {
    SideInside(q, i, 0.0);
    assert OnSide(q, i, 0.0) == q.Corner(i);
  }

  /** Every marked slot holds a point of both boxes. */
  lemma MarkedSlotsAreShared(q1: Quad, q2: Quad, k: nat)
    requires ProperRectangle(q1) && ProperRectangle(q2) && k < SLOTS && SlotOf(q1, q2, k).marked
    ensures q1.Contains(SlotOf(q1, q2, k).p) && q2.Contains(SlotOf(q1, q2, k).p)
  {
    hide Crossing, Projects, Quad.Contains, Quad.Corner, Quad.Side, Quad.RightAngled, Quad.Parallelogram;
    if k < 16 {
      MarkedCrossingIsShared(q1, q2, k / 4, k % 4);
    } else if k < 20 {
      CornerInside(q1, k - 16);
      ProjectsInside(q2, q1.Corner(k - 16));
    } else {
      CornerInside(q2, k - 20);
      ProjectsInside(q1, q2.Corner(k - 20));
    }
  }

  /** A box with an area, and any cosine and sine that are not both zero, has proper corners. */
  lemma BoxIsProper(b: Box)
    requires b.w != 0.0 && b.h != 0.0 && (b.cos != 0.0 || b.sin != 0.0)
    ensures ProperRectangle(RotatedVertices(b))
  {
    var q := RotatedVertices(b);
    VerticesAreRectangle(b);
    VertexSides(b);
    ProjectsIs(q, q.p0);
    hide Dot, Minus, Quad.Side, RotatedVertices, Projects, Quad.Parallelogram, Quad.RightAngled;
    RealProduct(b.sin, b.h);
    RealProduct(b.cos, b.h);
    RealProduct(b.sin, b.w);
    RealProduct(b.cos, b.w);
    RealProduct(-b.cos, b.h);
  }

  // ----- All lanes -----

  predicate SameLanes(q1: array<Quad>, q2: array<Quad>, pts: array2<Vec>, valid: array2<bool>) {
    q1.Length == q2.Length == pts.Length1 == valid.Length1 && pts.Length0 == valid.Length0 == SLOTS
  }

  /** Slots before k hold what they should, the others are unmarked. */
  ghost predicate FilledTo(q1: array<Quad>, q2: array<Quad>, pts: array2<Vec>, valid: array2<bool>, k: nat)
    requires SameLanes(q1, q2, pts, valid)
    reads q1, q2, pts, valid
  {
    && (forall a, l | 0 <= a < k && a < SLOTS && 0 <= l < q1.Length ::
          Slot(valid[a, l], pts[a, l]) == SlotOf(q1[l], q2[l], a))
    && (forall a, l | k <= a < SLOTS && 0 <= l < q1.Length :: !valid[a, l])
  }

  ghost predicate Counted(valid: array2<bool>, nums: array<nat>)
    reads valid, nums
  {
    nums.Length == valid.Length1 && forall l | 0 <= l < nums.Length :: nums[l] == O.Count(Col(valid, l))
  }

  /** Store slot k of all lanes at once. */
  method StoreSlot(q1: array<Quad>, q2: array<Quad>, pts: array2<Vec>, valid: array2<bool>, k: nat)
    requires SameLanes(q1, q2, pts, valid) && k < SLOTS && FilledTo(q1, q2, pts, valid, k)
    modifies pts, valid
    ensures FilledTo(q1, q2, pts, valid, k + 1)
    ensures forall l | 0 <= l < q1.Length :: Col(valid, l) == old(Col(valid, l))[k := SlotOf(q1[l], q2[l], k).marked]
  {
    hide SlotOf;
    forall l | 0 <= l < q1.Length {
      pts[k, l] := SlotOf(q1[l], q2[l], k).p;
    }
    forall l | 0 <= l < q1.Length {
      valid[k, l] := valid[k, l] || SlotOf(q1[l], q2[l], k).marked;
    }
  }

  /** Fill slot k of all lanes and count its marks. */
  method FillSlot(q1: array<Quad>, q2: array<Quad>, pts: array2<Vec>, valid: array2<bool>, nums: array<nat>, k: nat)
    requires SameLanes(q1, q2, pts, valid) && k < SLOTS && FilledTo(q1, q2, pts, valid, k) && Counted(valid, nums)
    modifies pts, valid, nums
    ensures FilledTo(q1, q2, pts, valid, k + 1) && Counted(valid, nums)
  {
    hide SlotOf, O.Count;
    label before:
    assert forall l | 0 <= l < q1.Length :: !Col(valid, l)[k];
    StoreSlot(q1, q2, pts, valid, k);
    hide FilledTo;
    forall l | 0 <= l < q1.Length {
      nums[l] := nums[l] + if SlotOf(q1[l], q2[l], k).marked then 1 else 0;
    }
    forall l | 0 <= l < q1.Length ensures nums[l] == O.Count(Col(valid, l)) {
      O.CountUpdate(old@before(Col(valid, l)), k, SlotOf(q1[l], q2[l], k).marked);
    }
  }

  /** Fill all 24 slots of all lanes: crossings, then corners of either box. */
  method GetIntersectionPoints(q1: array<Quad>, q2: array<Quad>, pts: array2<Vec>, valid: array2<bool>,
                               nums: array<nat>)
    requires SameLanes(q1, q2, pts, valid) && nums.Length == q1.Length
    requires forall a, l | 0 <= a < SLOTS && 0 <= l < q1.Length :: !valid[a, l]
    requires forall l | 0 <= l < nums.Length :: nums[l] == 0
    modifies pts, valid, nums
    ensures forall a, l | 0 <= a < SLOTS && 0 <= l < q1.Length ::
            Slot(valid[a, l], pts[a, l]) == SlotOf(q1[l], q2[l], a)
    ensures forall l | 0 <= l < nums.Length :: nums[l] == O.Count(Col(valid, l))
  {
    hide SlotOf, O.Count;
    forall l | 0 <= l < nums.Length ensures O.Count(Col(valid, l)) == 0 {
      NoMarks(Col(valid, l));
    }
    for i := 0 to 4
      invariant FilledTo(q1, q2, pts, valid, 4 * i) && Counted(valid, nums)
    {
      for j := 0 to 4
        invariant FilledTo(q1, q2, pts, valid, 4 * i + j) && Counted(valid, nums)
      {
        FillSlot(q1, q2, pts, valid, nums, 4 * i + j);
      }
    }
    for i := 0 to 4
      invariant FilledTo(q1, q2, pts, valid, 16 + i) && Counted(valid, nums)
    {
      FillSlot(q1, q2, pts, valid, nums, 16 + i);
    }
    for i := 0 to 4
      invariant FilledTo(q1, q2, pts, valid, 20 + i) && Counted(valid, nums)
    {
      FillSlot(q1, q2, pts, valid, nums, 20 + i);
    }
  }

  lemma {:induction false} NoMarks(v: seq<bool>)
    requires forall k | 0 <= k < |v| :: !v[k]
    ensures O.Count(v) == 0
  {
    if v != [] {
      NoMarks(v[..|v| - 1]);
    }
  }
}
