/**
 Whether the marked candidate points of two boxes are enough: whether their convex hull is the whole intersection.

 The main result (IntersectionExactly): it is, exactly if no two sides that are nearly, but not exactly, parallel
 cross strictly inside both; at the ends of sides a crossing that the threshold on the determinant suppresses is a
 marked corner. In numbers: the hull is the intersection for boxes with sides of a thousandth or more, if the sine
 and the cosine of the angle between them are each zero or above 1e-8 in size (IntersectionInNumbers). The threshold
 is absolute, so it is not always: for two boxes with sides of 1e-7 and the same centre, one turned, not a single
 point is marked (TinyBoxesMissed).
 */
module ClippingHull {
  import BoxTiling
  import H = HullScan
  import opened Clipping

  // ----- How far a point can move -----

  /** A coordinate that changes at a constant rate. */
  datatype Track = Track(start: real, rate: real) {
    function At(t: real): real { start + rate * t }
  }

  predicate Bounded(ts: seq<Track>, t: real) { forall k | 0 <= k < |ts| :: Unit(ts[k].At(t)) }

  predicate AtBound(r: Track, t: real) { r.rate != 0.0 && (r.At(t) == 0.0 || r.At(t) == 1.0) }

  lemma ScaleMonotone(r: real, u: real, t: real)
    requires u <= t
    ensures r >= 0.0 ==> r * u <= r * t
    ensures r <= 0.0 ==> r * t <= r * u
  {
    assert r * t - r * u == r * (t - u);
  }

  lemma ScaleSign(r: real, t: real)
    requires 0.0 <= t
    ensures r >= 0.0 ==> 0.0 <= r * t
    ensures r <= 0.0 ==> r * t <= 0.0
  {
  }

  /** A coordinate that is in range now and later is so in between. */
  lemma InBetween(r: Track, t: real, u: real)
    requires Unit(r.start) && Unit(r.At(t)) && 0.0 <= u <= t
    ensures Unit(r.At(u))
  {
    var x, y := r.rate * u, r.rate * t;
    assert r.At(u) == r.start + x && r.At(t) == r.start + y;
    ScaledBetween(r.rate, u, t);
    RangeBetween(r.start, x, y);
  }

  lemma ScaledBetween(r: real, u: real, t: real)
    requires 0.0 <= u <= t
    ensures 0.0 <= r * u <= r * t || r * t <= r * u <= 0.0
  {
    ScaleSign(r, u);
    ScaleMonotone(r, u, t);
  }

  lemma RangeBetween(start: real, x: real, y: real)
    requires Unit(start) && Unit(start + y) && (0.0 <= x <= y || y <= x <= 0.0)
    ensures Unit(start + x)
  {
  }

  lemma OppositeSigns(r: real, t: real)
    requires (r > 0.0 && t < 0.0) || (r < 0.0 && t > 0.0)
    ensures r * t < 0.0
  {
    if r > 0.0 {
      PositiveProduct(r, -t, r * -t);
    } else {
      PositiveProduct(-r, t, -r * t);
    }
  }

  /** A coordinate that changes reaches a bound. */
  lemma Hit(r: Track) returns (t: real)
    requires Unit(r.start) && r.rate != 0.0
    ensures 0.0 <= t && AtBound(r, t)
  {
    var left := if r.rate > 0.0 then 1.0 - r.start else -r.start;
    t := left / r.rate;
    assert r.rate * t == left;
    FactorSign(r.rate, t);
  }

  lemma FactorSign(r: real, t: real)
    requires (r > 0.0 && r * t >= 0.0) || (r < 0.0 && r * t <= 0.0)
    ensures 0.0 <= t
  {
    if t < 0.0 {
      if r > 0.0 {
        OppositeSigns(r, t);
      } else {
        PositiveProduct(-r, -t, r * t);
      }
    }
  }

  /** If a coordinate leaves its range by time t and others do not, it reaches a bound while the others are in range. */
  lemma Sooner(r: Track, others: seq<Track>, t: real) returns (t': real)
    requires Unit(r.start) && (forall k | 0 <= k < |others| :: Unit(others[k].start))
    requires 0.0 <= t && Bounded(others, t) && !Unit(r.At(t))
    ensures 0.0 <= t' && Bounded(others, t') && AtBound(r, t')
  {
    StillOnes(r, t);
    t' := Hit(r);
    BoundsInRange(r, t');
    if t < t' {
      InBetween(r, t', t);
    }
    hide Unit, AtBound, Track.At;
    forall k | 0 <= k < |others| ensures Unit(others[k].At(t')) {
      InBetween(others[k], t, t');
    }
  }

  /** Of three coordinates at least one of which changes, one that does is the first to reach a bound. */
  lemma Exit(r0: Track, r1: Track, r2: Track) returns (t: real, k: nat)
    requires Unit(r0.start) && Unit(r1.start) && Unit(r2.start) && r0.rate != 0.0
    ensures 0.0 <= t && Unit(r0.At(t)) && Unit(r1.At(t)) && Unit(r2.At(t)) && k <= 2
    ensures AtBound(if k == 0 then r0 else if k == 1 then r1 else r2, t)
  {
    t := Hit(r0);
    k := 0;
    BoundsInRange(r0, t);
    hide Unit, AtBound, Track.At;
    if !Unit(r1.At(t)) {
      t := Sooner(r1, [r0], t);
      k := 1;
      BoundsInRange(r1, t);
      assert Unit([r0][0].At(t));
    }
    if !Unit(r2.At(t)) {
      t := Sooner(r2, [r0, r1], t);
      k := 2;
      BoundsInRange(r2, t);
      assert Unit([r0, r1][0].At(t)) && Unit([r0, r1][1].At(t));
    }
  }

  lemma StillOnes(r: Track, t: real)
    ensures r.rate == 0.0 ==> r.At(t) == r.start
  {
  }

  lemma BoundsInRange(r: Track, t: real)
    requires AtBound(r, t)
    ensures Unit(r.At(t))
  {
  }

  // ----- Points of a box on the move -----

  function FirstSide(q: Quad): Vec { Minus(q.p1, q.p0) }
  function OtherSide(q: Quad): Vec { Minus(q.p3, q.p0) }

  /** Direction d in terms of the sides of a box. */
  predicate Splits(q: Quad, d: Vec, u: real, v: real) { d == Plus(Times(FirstSide(q), u), Times(OtherSide(q), v)) }

  lemma Components(q: Quad, d: Vec) returns (u: real, v: real)
    requires ProperRectangle(q)
    ensures Splits(q, d, u, v)
  {
    u, v := Coordinates(q, Plus(q.p0, d));
    AtFromCorner(q, u, v);
    PlusMinus(q.p0, d);
  }

  lemma AtMoves(q: Quad, d: Vec, u: real, v: real, a: real, b: real, t: real)
    requires Splits(q, d, u, v)
    ensures Plus(q.At(a, b), Times(d, t)) == q.At(Track(a, u).At(t), Track(b, v).At(t))
  {
    var ab, ad := FirstSide(q), OtherSide(q);
    SideOf(q, 0);
    CoordinateMoves(ab.x, ad.x, u, v, a, b, t);
    CoordinateMoves(ab.y, ad.y, u, v, a, b, t);
  }

  lemma CoordinateMoves(x: real, y: real, u: real, v: real, a: real, b: real, t: real)
    ensures (x * a + y * b) + (x * u + y * v) * t == x * (a + u * t) + y * (b + v * t)
  {
    ProductOut(x, u, t);
    ProductOut(y, v, t);
  }

  lemma SideDirections(q: Quad)
    requires q.Parallelogram()
    ensures q.Side(0) == FirstSide(q) && q.Side(1) == OtherSide(q)
    ensures q.Side(2) == Times(FirstSide(q), -1.0) && q.Side(3) == Times(OtherSide(q), -1.0)
  {
    SideOf(q, 0);
    SideOf(q, 1);
    SideOf(q, 2);
    SideOf(q, 3);
    hide Quad.Side, Quad.Corner;
    assert q.p1.x - q.p0.x == q.p2.x - q.p3.x && q.p1.y - q.p0.y == q.p2.y - q.p3.y;
  }

  lemma NoneNegated(v: Vec)
    ensures Times(v, -1.0) == ZERO <==> v == ZERO
  {
  }

  lemma ProperSides(q: Quad)
    requires ProperRectangle(q)
    ensures q.Side(0) == FirstSide(q) != ZERO && q.Side(1) == OtherSide(q) != ZERO
    ensures q.Side(2) == Times(FirstSide(q), -1.0) && q.Side(3) == Times(OtherSide(q), -1.0)
    ensures Cross(FirstSide(q), OtherSide(q)) != 0.0
  {
    hide Dot, Cross, Times, Minus, Quad.Side, Quad.Parallelogram;
    SideDirections(q);
    NoneNegated(OtherSide(q));
    PerpendicularCross(FirstSide(q), OtherSide(q));
  }

  /** At a bound of the first coordinate the point is on side 1 or 3, and moves across it. */
  lemma FirstBound(q: Quad, a: real, b: real, d: Vec, u: real, v: real) returns (j: nat, s: real)
    requires ProperRectangle(q) && Unit(b) && (a == 0.0 || a == 1.0) && Splits(q, d, u, v) && u != 0.0
    ensures j < 4 && Unit(s) && OnSide(q, j, s) == q.At(a, b) && Cross(q.Side(j), d) != 0.0
  {
    ProperSides(q);
    SideOf(q, 1);
    SideOf(q, 3);
    AcrossFirst(FirstSide(q), OtherSide(q), u, v);
    j, s := if a == 1.0 then 1 else 3, if a == 1.0 then b else 1.0 - b;
    AtIs(q, s);
  }

  lemma AcrossFirst(ab: Vec, ad: Vec, u: real, v: real)
    requires Cross(ab, ad) != 0.0 && u != 0.0
    ensures Cross(ad, Plus(Times(ab, u), Times(ad, v))) != 0.0
    ensures Cross(Times(ad, -1.0), Plus(Times(ab, u), Times(ad, v))) != 0.0
  {
    CrossSplit(ab, ad, u, v);
    RealProduct(Cross(ab, ad), u);
  }

  lemma CrossSplit(ab: Vec, ad: Vec, u: real, v: real)
    ensures Cross(ad, Plus(Times(ab, u), Times(ad, v))) == -(Cross(ab, ad) * u)
    ensures Cross(ab, Plus(Times(ab, u), Times(ad, v))) == Cross(ab, ad) * v
    ensures Cross(Times(ad, -1.0), Plus(Times(ab, u), Times(ad, v))) == Cross(ab, ad) * u
    ensures Cross(Times(ab, -1.0), Plus(Times(ab, u), Times(ad, v))) == -(Cross(ab, ad) * v)
  {
    var d := Plus(Times(ab, u), Times(ad, v));
    CrossOfSum(ad, ab, ad, u, v);
    CrossOfSum(ab, ab, ad, u, v);
    assert Cross(ad, ab) == -Cross(ab, ad) && Cross(ad, ad) == 0.0 && Cross(ab, ab) == 0.0;
    CrossNegated(ad, d);
    CrossNegated(ab, d);
  }

  lemma CrossOfSum(c: Vec, a: Vec, b: Vec, u: real, v: real)
    ensures Cross(c, Plus(Times(a, u), Times(b, v))) == Cross(c, a) * u + Cross(c, b) * v
  {
  }

  lemma CrossNegated(a: Vec, d: Vec)
    ensures Cross(Times(a, -1.0), d) == -Cross(a, d)
  {
  }

  lemma OtherBound(q: Quad, a: real, b: real, d: Vec, u: real, v: real) returns (j: nat, s: real)
    requires ProperRectangle(q) && Unit(a) && (b == 0.0 || b == 1.0) && Splits(q, d, u, v) && v != 0.0
    ensures j < 4 && Unit(s) && OnSide(q, j, s) == q.At(a, b) && Cross(q.Side(j), d) != 0.0
  {
    ProperSides(q);
    SideOf(q, 0);
    SideOf(q, 2);
    AcrossOther(FirstSide(q), OtherSide(q), u, v);
    j, s := if b == 0.0 then 0 else 2, if b == 0.0 then a else 1.0 - a;
    AtIs(q, s);
  }

  lemma AcrossOther(ab: Vec, ad: Vec, u: real, v: real)
    requires Cross(ab, ad) != 0.0 && v != 0.0
    ensures Cross(ab, Plus(Times(ab, u), Times(ad, v))) != 0.0
    ensures Cross(Times(ab, -1.0), Plus(Times(ab, u), Times(ad, v))) != 0.0
  {
    CrossSplit(ab, ad, u, v);
    RealProduct(Cross(ab, ad), v);
  }

  lemma DotMoves(n: Vec, p: Vec, d: Vec, t: real)
    requires 0.0 <= t && 0.0 <= Dot(n, d)
    ensures Dot(n, p) <= Dot(n, Plus(p, Times(d, t)))
  {
    DotOfSum(n, p, d, t);
    ScaleMonotone(Dot(n, d), 0.0, t);
  }

  lemma DotOfSum(n: Vec, p: Vec, d: Vec, t: real)
    ensures Dot(n, Plus(p, Times(d, t))) == Dot(n, p) + Dot(n, d) * t && Dot(n, d) * 0.0 == 0.0
  {
  }

  /** d or its opposite, whichever does not lead back as seen along n. */
  function Forward(n: Vec, d: Vec): real { if 0.0 <= Dot(n, d) then 1.0 else -1.0 }

  lemma ForwardIs(n: Vec, d: Vec)
    ensures 0.0 <= Dot(n, Times(d, Forward(n, d)))
  {
    TimesDotLeft(n, d, Forward(n, d));
  }

  lemma TimesDotLeft(n: Vec, d: Vec, f: real)
    ensures Dot(n, Times(d, f)) == Dot(n, d) * f
  {
  }

  // ----- Marked points and suppressed crossings -----

  /** p is in a marked slot. */
  ghost predicate Found(q1: Quad, q2: Quad, p: Vec) {
    exists k :: 0 <= k < H.SLOTS && SlotOf(q1, q2, k).marked && SlotOf(q1, q2, k).p == p
  }

  /** Side i of q1 and side j of q2 are nearly, but not exactly, parallel. */
  predicate NearlyParallel(q1: Quad, q2: Quad, i: nat, j: nat) {
    0.0 < Abs(Det(q1, q2, i, j)) <= DET_THRESHOLD
  }

  /** p is a crossing that the threshold suppresses. */
  ghost predicate Lost(q1: Quad, q2: Quad, p: Vec) {
    exists i: nat, j: nat, s: real, t: real ::
      i < 4 && j < 4 && Unit(s) && Unit(t) && OnSide(q1, i, s) == p && OnSide(q2, j, t) == p &&
        NearlyParallel(q1, q2, i, j)
  }

  /** Where two sides that are not parallel cross there is a marked point, or the crossing is suppressed. */
  lemma CrossingKnown(q1: Quad, q2: Quad, i: nat, j: nat, s: real, t: real)
    requires i < 4 && j < 4 && Unit(s) && Unit(t) && OnSide(q1, i, s) == OnSide(q2, j, t) && Det(q1, q2, i, j) != 0.0
    ensures Found(q1, q2, OnSide(q1, i, s)) || Lost(q1, q2, OnSide(q1, i, s))
  {
    var p := OnSide(q1, i, s);
    CrossingExactly(q1, q2, i, j);
    hide OnSide, Det, Crossing;
    if Abs(Det(q1, q2, i, j)) > DET_THRESHOLD {
      SlotOfCrossing(q1, q2, i, j);
      assert SlotOf(q1, q2, 4 * i + j).p == p;
    } else {
      assert NearlyParallel(q1, q2, i, j);
    }
  }

  lemma SlotOfCrossing(q1: Quad, q2: Quad, i: nat, j: nat)
    requires i < 4 && j < 4
    ensures SlotOf(q1, q2, 4 * i + j) == Crossing(q1, q2, i, j)
  {
    hide Crossing;
    assert (4 * i + j) / 4 == i && (4 * i + j) % 4 == j;
  }

  lemma CornerKnown(q1: Quad, q2: Quad, i: nat)
    requires ProperRectangle(q2) && i < 4 && q2.Contains(q1.Corner(i))
    ensures Found(q1, q2, q1.Corner(i))
  {
    InsideProjects(q2, q1.Corner(i));
    hide Projects, Quad.Contains, Crossing, Quad.Corner;
    assert SlotOf(q1, q2, 16 + i) == Slot(true, q1.Corner(i));
  }

  /** Exchanging the boxes exchanges slots. */
  lemma FoundEitherWay(q1: Quad, q2: Quad, p: Vec)
    requires Found(q1, q2, p)
    ensures Found(q2, q1, p)
  {
    hide Crossing, Projects, Quad.Corner;
    var k :| 0 <= k < H.SLOTS && SlotOf(q1, q2, k).marked && SlotOf(q1, q2, k).p == p;
    if k < 16 {
      CrossingEitherWay(q1, q2, k / 4, k % 4);
      SlotOfCrossing(q2, q1, k % 4, k / 4);
      assert SlotOf(q2, q1, 4 * (k % 4) + k / 4).p == p;
    } else if k < 20 {
      assert SlotOf(q2, q1, k + 4) == SlotOf(q1, q2, k);
    } else {
      assert SlotOf(q2, q1, k - 4) == SlotOf(q1, q2, k);
    }
  }

  lemma DetEitherWay(q1: Quad, q2: Quad, i: nat, j: nat)
    ensures Det(q2, q1, j, i) == -Det(q1, q2, i, j) && Abs(Det(q2, q1, j, i)) == Abs(Det(q1, q2, i, j))
  {
    CrossAnti(q2.Side(j), q1.Side(i));
    hide Cross, Quad.Side;
  }

  lemma CrossAnti(a: Vec, b: Vec)
    ensures Cross(a, b) == -Cross(b, a)
  {
  }

  lemma CrossingEitherWay(q1: Quad, q2: Quad, i: nat, j: nat)
    requires Crossing(q1, q2, i, j).marked
    ensures Crossing(q2, q1, j, i) == Crossing(q1, q2, i, j)
  {
    CrossingExactly(q1, q2, i, j);
    CrossingExactly(q2, q1, j, i);
    DetEitherWay(q1, q2, i, j);
    hide Crossing, OnSide, Det;
    var s, t :| Unit(s) && Unit(t) && OnSide(q1, i, s) == OnSide(q2, j, t);
    assert OnSide(q2, j, t) == OnSide(q1, i, s);
  }

  lemma LostEitherWay(q1: Quad, q2: Quad, p: Vec)
    requires Lost(q1, q2, p)
    ensures Lost(q2, q1, p)
  {
    hide OnSide, Det, Unit;
    var i: nat, j: nat, s: real, t: real :|
      i < 4 && j < 4 && Unit(s) && Unit(t) && OnSide(q1, i, s) == p && OnSide(q2, j, t) == p &&
        NearlyParallel(q1, q2, i, j);
    DetEitherWay(q1, q2, i, j);
    assert NearlyParallel(q2, q1, j, i) && OnSide(q2, j, t) == p;
  }

  // ----- From any shared point to a marked one -----

  lemma SideMoves(q: Quad, i: nat, s: real, f: real, t: real)
    ensures Plus(OnSide(q, i, s), Times(Times(q.Side(i), f), t)) == OnSide(q, i, Track(s, f).At(t))
  {
    var d := q.Side(i);
    CoordinateMoves(d.x, 0.0, f, 0.0, s, 0.0, t);
    CoordinateMoves(d.y, 0.0, f, 0.0, s, 0.0, t);
  }

  lemma CrossScaled(a: Vec, d: Vec, f: real)
    ensures Cross(a, Times(d, f)) == Cross(a, d) * f
  {
  }

  /** From a point of both boxes on a side of q1, forward along the side to a marked point or a suppressed crossing. */
  lemma SideReaches(q1: Quad, q2: Quad, i: nat, s: real, n: Vec) returns (w: Vec)
    requires ProperRectangle(q1) && ProperRectangle(q2) && i < 4 && Unit(s) && q2.Contains(OnSide(q1, i, s))
    ensures (Found(q1, q2, w) || Lost(q1, q2, w)) && Dot(n, OnSide(q1, i, s)) <= Dot(n, w)
  {
    hide OnSide, Quad.Side, Quad.At, Quad.Corner, Cross, Dot, ProperRectangle, Forward, Splits;
    var p, side := OnSide(q1, i, s), q1.Side(i);
    var f := Forward(n, side);
    var d := Times(side, f);
    ForwardIs(n, side);
    ForwardNotZero(n, side);
    var a, b :| 0.0 <= a <= 1.0 && 0.0 <= b <= 1.0 && p == q2.At(a, b);
    var u, v := Components(q2, d);
    var r0, r1, r2 := Track(s, f), Track(a, u), Track(b, v);
    var t, k := Exit(r0, r1, r2);
    w := OnSide(q1, i, r0.At(t));
    SideMoves(q1, i, s, f, t);
    AtMoves(q2, d, u, v, a, b, t);
    DotMoves(n, p, d, t);
    hide Track.At, Quad.Contains, Found, Lost;
    SideEnd(q1, q2, i, r0.At(t), r1.At(t), r2.At(t), f, u, v, k);
  }

  lemma ForwardNotZero(n: Vec, d: Vec)
    ensures Forward(n, d) != 0.0
  {
  }

  /** Where the move along the side ends. */
  lemma SideEnd(q1: Quad, q2: Quad, i: nat, s: real, a: real, b: real, f: real, u: real, v: real, k: nat)
    requires ProperRectangle(q1) && ProperRectangle(q2) && i < 4 && Unit(s) && Unit(a) && Unit(b) && f != 0.0
    requires OnSide(q1, i, s) == q2.At(a, b) && Splits(q2, Times(q1.Side(i), f), u, v)
    requires k == 0 ==> s == 0.0 || s == 1.0
    requires k == 1 ==> u != 0.0 && (a == 0.0 || a == 1.0)
    requires k == 2 ==> v != 0.0 && (b == 0.0 || b == 1.0)
    requires k <= 2
    ensures Found(q1, q2, OnSide(q1, i, s)) || Lost(q1, q2, OnSide(q1, i, s))
  {
    var w, side := OnSide(q1, i, s), q1.Side(i);
    hide OnSide, Quad.Side, Quad.At, Quad.Corner, Cross, Splits, ProperRectangle, Found, Lost;
    if k == 0 {
      var c := if s == 0.0 then i else (i + 1) % 4;
      SideEnds(q1, i);
      assert q2.Contains(w);
      CornerKnown(q1, q2, c);
    } else {
      var j, t;
      if k == 1 {
        j, t := FirstBound(q2, a, b, Times(side, f), u, v);
      } else {
        j, t := OtherBound(q2, a, b, Times(side, f), u, v);
      }
      CrossScaled(q2.Side(j), side, f);
      RealProduct(Cross(q2.Side(j), side), f);
      DetIs(q1, q2, i, j);
      CrossingKnown(q1, q2, i, j, s, t);
    }
  }

  lemma SideEnds(q: Quad, i: nat)
    requires i < 4
    ensures OnSide(q, i, 0.0) == q.Corner(i) && OnSide(q, i, 1.0) == q.Corner((i + 1) % 4)
  {
  }

  /** From any point of both boxes, forward to a marked point or a suppressed crossing. */
  lemma PointReaches(q1: Quad, q2: Quad, x: Vec, n: Vec) returns (w: Vec)
    requires ProperRectangle(q1) && ProperRectangle(q2) && q1.Contains(x) && q2.Contains(x)
    ensures (Found(q1, q2, w) || Lost(q1, q2, w)) && Dot(n, x) <= Dot(n, w)
  {
    hide OnSide, Quad.Side, Quad.At, Quad.Corner, Cross, Dot, ProperRectangle, Forward, Splits, Found, Lost;
    var side := FirstSide(q1);
    var f := Forward(n, side);
    var d := Times(side, f);
    ForwardIs(n, side);
    ForwardNotZero(n, side);
    var a1, b1 :| 0.0 <= a1 <= 1.0 && 0.0 <= b1 <= 1.0 && x == q1.At(a1, b1);
    var a2, b2 :| 0.0 <= a2 <= 1.0 && 0.0 <= b2 <= 1.0 && x == q2.At(a2, b2);
    SplitsSide(q1, f);
    var u, v := Components(q2, d);
    var r0, r1, r2 := Track(a1, f), Track(a2, u), Track(b2, v);
    var t, k := Exit(r0, r1, r2);
    var p := Plus(x, Times(d, t));
    AtMoves(q1, d, f, 0.0, a1, b1, t);
    StillOnes(Track(b1, 0.0), t);
    AtMoves(q2, d, u, v, a2, b2, t);
    DotMoves(n, x, d, t);
    assert q1.Contains(p) && q2.Contains(p);
    var a1', a2', b2' := r0.At(t), r1.At(t), r2.At(t);
    hide Track.At, Quad.Contains;
    if k == 0 {
      var j, s := FirstBound(q1, a1', b1, d, f, 0.0);
      w := SideReaches(q1, q2, j, s, n);
    } else {
      var j, s;
      if k == 1 {
        j, s := FirstBound(q2, a2', b2', d, u, v);
      } else {
        j, s := OtherBound(q2, a2', b2', d, u, v);
      }
      w := SideReaches(q2, q1, j, s, n);
      if Found(q2, q1, w) {
        FoundEitherWay(q2, q1, w);
      } else {
        LostEitherWay(q2, q1, w);
      }
    }
  }

  lemma SplitsSide(q: Quad, f: real)
    ensures Splits(q, Times(FirstSide(q), f), f, 0.0)
  {
  }

  // ----- The hull of the marked points -----

  /** Seen along n, some marked point is at least as far as x. */
  ghost predicate Passed(q1: Quad, q2: Quad, x: Vec, n: Vec) {
    exists k :: 0 <= k < H.SLOTS && SlotOf(q1, q2, k).marked && Dot(n, x) <= Dot(n, SlotOf(q1, q2, k).p)
  }

  /** x is in the convex hull of the marked points: no line has it strictly on one side and all of them on the other. */
  ghost predicate InHull(q1: Quad, q2: Quad, x: Vec) {
    forall n :: Passed(q1, q2, x, n)
  }

  lemma FoundPasses(q1: Quad, q2: Quad, x: Vec, n: Vec, w: Vec)
    requires Found(q1, q2, w) && Dot(n, x) <= Dot(n, w)
    ensures Passed(q1, q2, x, n)
  {
    hide SlotOf, Dot;
  }

  lemma PassedFurther(q1: Quad, q2: Quad, x: Vec, n: Vec, w: Vec)
    requires Passed(q1, q2, w, n) && Dot(n, x) <= Dot(n, w)
    ensures Passed(q1, q2, x, n)
  {
    hide SlotOf, Dot;
  }

  lemma LostShared(q1: Quad, q2: Quad, p: Vec)
    requires ProperRectangle(q1) && ProperRectangle(q2) && Lost(q1, q2, p)
    ensures q1.Contains(p) && q2.Contains(p)
  {
    hide OnSide, Quad.Contains, Det, Quad.RightAngled, Quad.Side;
    var i: nat, j: nat, s: real, t: real :|
      i < 4 && j < 4 && Unit(s) && Unit(t) && OnSide(q1, i, s) == p && OnSide(q2, j, t) == p &&
        NearlyParallel(q1, q2, i, j);
    SideInside(q1, i, s);
    SideInside(q2, j, t);
  }

  /** Some point of box q is as far along n as x. */
  lemma PointAlong(q1: Quad, q2: Quad, x: Vec, q: Quad, n: Vec) returns (p: Vec)
    requires ProperRectangle(q1) && ProperRectangle(q2) && (q == q1 || q == q2) && InHull(q1, q2, x)
    ensures q.Contains(p) && Dot(n, x) <= Dot(n, p)
  {
    hide SlotOf, Dot, Quad.Contains, ProperRectangle;
    assert Passed(q1, q2, x, n);
    var k :| 0 <= k < H.SLOTS && SlotOf(q1, q2, k).marked && Dot(n, x) <= Dot(n, SlotOf(q1, q2, k).p);
    p := SlotOf(q1, q2, k).p;
    MarkedSlotsAreShared(q1, q2, k);
  }

  lemma Relative(x: Vec, p: Vec, o: Vec, n: Vec)
    ensures Dot(n, x) <= Dot(n, p) ==> Dot(Minus(x, o), n) <= Dot(Minus(p, o), n)
    ensures Dot(Times(n, -1.0), x) <= Dot(Times(n, -1.0), p) ==> Dot(Minus(p, o), n) <= Dot(Minus(x, o), n)
  {
    DotMinus(x, o, n);
    DotMinus(p, o, n);
    DotNegated(n, x);
    DotNegated(n, p);
    DotSym(n, x);
    DotSym(n, p);
    hide Dot, Minus;
  }

  lemma DotNegated(n: Vec, x: Vec)
    ensures Dot(Times(n, -1.0), x) == -Dot(n, x)
  {
  }

  /** Along one side of the box, x is within the box. */
  lemma WithinSide(q1: Quad, q2: Quad, x: Vec, q: Quad, n: Vec)
    requires ProperRectangle(q1) && ProperRectangle(q2) && (q == q1 || q == q2) && InHull(q1, q2, x)
    requires n == FirstSide(q) || n == OtherSide(q)
    ensures 0.0 <= Dot(Minus(x, q.p0), n) <= Dot(n, n)
  {
    hide Dot, Minus, Times, Projects, Quad.Contains, InHull, Quad.Side;
    var far := PointAlong(q1, q2, x, q, n);
    var near := PointAlong(q1, q2, x, q, Times(n, -1.0));
    InsideProjects(q, far);
    InsideProjects(q, near);
    ProjectsIs(q, far);
    ProjectsIs(q, near);
    Relative(x, far, q.p0, n);
    Relative(x, near, q.p0, n);
  }

  /** The hull of the marked points is within both boxes. */
  lemma HullWithin(q1: Quad, q2: Quad, x: Vec, q: Quad)
    requires ProperRectangle(q1) && ProperRectangle(q2) && (q == q1 || q == q2) && InHull(q1, q2, x)
    ensures q.Contains(x)
  {
    hide Dot, Minus, Projects, Quad.Contains, InHull, Quad.Side;
    WithinSide(q1, q2, x, q, FirstSide(q));
    WithinSide(q1, q2, x, q, OtherSide(q));
    ProjectsIs(q, x);
    ProjectsInside(q, x);
  }

  /** A point of both boxes is in the hull of the marked points, if the crossings that are suppressed are. */
  lemma SharedInHull(q1: Quad, q2: Quad, x: Vec)
    requires ProperRectangle(q1) && ProperRectangle(q2) && q1.Contains(x) && q2.Contains(x)
    requires forall p :: Lost(q1, q2, p) ==> InHull(q1, q2, p)
    ensures InHull(q1, q2, x)
  {
    hide Found, Lost, Passed, Dot, Quad.Contains, ProperRectangle;
    forall n ensures Passed(q1, q2, x, n) {
      var w := PointReaches(q1, q2, x, n);
      if Found(q1, q2, w) {
        FoundPasses(q1, q2, x, n, w);
      } else {
        assert InHull(q1, q2, w) && Passed(q1, q2, w, n);
        PassedFurther(q1, q2, x, n, w);
      }
    }
  }

  /** All that matters is whether the suppressed crossings are in the hull. */
  lemma LostDecide(q1: Quad, q2: Quad)
    requires ProperRectangle(q1) && ProperRectangle(q2)
    ensures (forall x :: InHull(q1, q2, x) <==> q1.Contains(x) && q2.Contains(x)) <==>
            (forall p :: Lost(q1, q2, p) ==> InHull(q1, q2, p))
  {
    hide Lost, InHull, Quad.Contains, ProperRectangle;
    forall x | InHull(q1, q2, x) ensures q1.Contains(x) && q2.Contains(x) {
      HullWithin(q1, q2, x, q1);
      HullWithin(q1, q2, x, q2);
    }
    forall p | Lost(q1, q2, p) ensures q1.Contains(p) && q2.Contains(p) {
      LostShared(q1, q2, p);
    }
    if forall p :: Lost(q1, q2, p) ==> InHull(q1, q2, p) {
      forall x | q1.Contains(x) && q2.Contains(x) ensures InHull(q1, q2, x) {
        SharedInHull(q1, q2, x);
      }
    }
  }

  // ----- Crossings strictly inside both sides -----

  /** Where a point of side i has its coordinates along the first side and the other one. */
  function AlongFirst(i: nat, s: real): real {
    if i == 0 then s else if i == 1 then 1.0 else if i == 2 then 1.0 - s else 0.0
  }

  function AlongOther(i: nat, s: real): real {
    if i == 0 then 0.0 else if i == 1 then s else if i == 2 then 1.0 else 1.0 - s
  }

  lemma OnSideIs(q: Quad, i: nat, s: real)
    requires q.Parallelogram() && i < 4
    ensures OnSide(q, i, s) == q.At(AlongFirst(i, s), AlongOther(i, s))
  {
    SideOf(q, i);
    AtIs(q, s);
  }

  lemma BoxCoordinates(q: Quad, a: real, b: real)
    requires ProperRectangle(q)
    ensures Dot(Minus(q.At(a, b), q.p0), FirstSide(q)) == a * Dot(FirstSide(q), FirstSide(q))
    ensures Dot(Minus(q.At(a, b), q.p0), OtherSide(q)) == b * Dot(OtherSide(q), OtherSide(q))
    ensures 0.0 < Dot(FirstSide(q), FirstSide(q)) && 0.0 < Dot(OtherSide(q), OtherSide(q))
  {
    hide Dot, Minus, Plus, Times, Quad.Side, Quad.At;
    AtFromCorner(q, a, b);
    CoordinateDots(FirstSide(q), OtherSide(q), Minus(q.At(a, b), q.p0), a, b);
    ProperSides(q);
    SquarePositive(FirstSide(q));
    SquarePositive(OtherSide(q));
  }

  /** A point of a box has only one pair of coordinates. */
  lemma CoordinatesUnique(q: Quad, a: real, b: real, a': real, b': real)
    requires ProperRectangle(q) && q.At(a, b) == q.At(a', b')
    ensures a == a' && b == b'
  {
    hide Dot, Minus, Quad.At, ProperRectangle;
    BoxCoordinates(q, a, b);
    BoxCoordinates(q, a', b');
    SameFactor(a, a', Dot(FirstSide(q), FirstSide(q)));
    SameFactor(b, b', Dot(OtherSide(q), OtherSide(q)));
  }

  predicate StrictlyInside(s: real) { 0.0 < s < 1.0 }

  /** A point strictly inside a side is on no other side, and at no other place of its own. */
  lemma OnOneSide(q: Quad, i: nat, s: real, i': nat, s': real)
    requires ProperRectangle(q) && i < 4 && i' < 4 && StrictlyInside(s) && Unit(s')
    requires OnSide(q, i, s) == OnSide(q, i', s')
    ensures i == i' && s == s'
  {
    OnSideIs(q, i, s);
    OnSideIs(q, i', s');
    CoordinatesUnique(q, AlongFirst(i, s), AlongOther(i, s), AlongFirst(i', s'), AlongOther(i', s'));
  }

  lemma NoCorner(q: Quad, i: nat, s: real, c: nat)
    requires ProperRectangle(q) && i < 4 && c < 4 && StrictlyInside(s)
    ensures OnSide(q, i, s) != q.Corner(c)
  {
    SideEnds(q, c);
    hide OnSide, Quad.Corner, ProperRectangle;
    if OnSide(q, i, s) == q.Corner(c) {
      OnOneSide(q, i, s, c, 0.0);
    }
  }

  /** The direction out of the box across side i. */
  function Outward(q: Quad, i: nat): Vec {
    if i == 0 then Times(OtherSide(q), -1.0) else if i == 1 then FirstSide(q)
    else if i == 2 then OtherSide(q) else Times(FirstSide(q), -1.0)
  }

  lemma DotTimes(p: Vec, n: Vec)
    ensures Dot(p, Times(n, -1.0)) == -Dot(p, n)
  {
  }

  /** How far out, across side i, the point with coordinates a and b is, the squares of the sides being f and o. */
  function FarOut(i: nat, a: real, b: real, f: real, o: real): real {
    if i == 0 then -(b * o) else if i == 1 then a * f else if i == 2 then b * o else -(a * f)
  }

  lemma OutwardIs(q: Quad, i: nat, a: real, b: real)
    requires ProperRectangle(q) && i < 4
    ensures var (f, o) := (Dot(FirstSide(q), FirstSide(q)), Dot(OtherSide(q), OtherSide(q)));
            0.0 < f && 0.0 < o && Dot(Minus(q.At(a, b), q.p0), Outward(q, i)) == FarOut(i, a, b, f, o)
  {
    hide Dot, Minus, Times, Quad.At, ProperRectangle;
    BoxCoordinates(q, a, b);
    DotTimes(Minus(q.At(a, b), q.p0), FirstSide(q));
    DotTimes(Minus(q.At(a, b), q.p0), OtherSide(q));
  }

  lemma LowEnd(t: real, n: real)
    requires Unit(t) && 0.0 < n
    ensures -(t * n) <= -(0.0 * n) && (t * n == 0.0 * n ==> t == 0.0)
  {
    if t > 0.0 {
      PositiveProduct(t, n, t * n);
    }
  }

  lemma HighEnd(t: real, n: real)
    requires Unit(t) && 0.0 < n
    ensures t * n <= 1.0 * n && (t * n == 1.0 * n ==> t == 1.0)
  {
    assert 1.0 * n - t * n == (1.0 - t) * n;
    if t < 1.0 {
      PositiveProduct(1.0 - t, n, (1.0 - t) * n);
    }
  }

  /** No point of the box is further out than the points of a side, and those as far out are on the side. */
  lemma SideIsOutermost(q: Quad, i: nat, s: real, a: real, b: real)
    requires ProperRectangle(q) && i < 4 && Unit(s) && Unit(a) && Unit(b)
    ensures var (w, p) := (Minus(q.At(a, b), q.p0), Minus(OnSide(q, i, s), q.p0));
            && Dot(w, Outward(q, i)) <= Dot(p, Outward(q, i))
            && (Dot(w, Outward(q, i)) == Dot(p, Outward(q, i)) ==>
                exists s' :: Unit(s') && q.At(a, b) == OnSide(q, i, s'))
  {
    var f, o := Dot(FirstSide(q), FirstSide(q)), Dot(OtherSide(q), OtherSide(q));
    var s' := PlaceOn(i, a, b);
    OnSideIs(q, i, s);
    OnSideIs(q, i, s');
    OutwardIs(q, i, a, b);
    OutwardIs(q, i, AlongFirst(i, s), AlongOther(i, s));
    hide Dot, Minus, OnSide, Quad.At, ProperRectangle, Outward, FarOut, AlongFirst, AlongOther;
    Outermost(i, s, a, b, f, o);
  }

  /** Where on side i the point with coordinates a and b is, if it is. */
  function PlaceOn(i: nat, a: real, b: real): real {
    if i == 0 then a else if i == 1 then b else if i == 2 then 1.0 - a else 1.0 - b
  }

  lemma Outermost(i: nat, s: real, a: real, b: real, f: real, o: real)
    requires i < 4 && Unit(a) && Unit(b) && 0.0 < f && 0.0 < o
    ensures FarOut(i, a, b, f, o) <= FarOut(i, AlongFirst(i, s), AlongOther(i, s), f, o)
    ensures FarOut(i, a, b, f, o) == FarOut(i, AlongFirst(i, s), AlongOther(i, s), f, o) ==>
              AlongFirst(i, PlaceOn(i, a, b)) == a && AlongOther(i, PlaceOn(i, a, b)) == b
  {
    if i == 0 {
      LowEnd(b, o);
    } else if i == 1 {
      HighEnd(a, f);
    } else if i == 2 {
      HighEnd(b, o);
    } else {
      LowEnd(a, f);
    }
  }

  lemma RelativeBack(w: Vec, p: Vec, o: Vec, n: Vec)
    ensures Dot(Minus(w, o), n) <= Dot(Minus(p, o), n) <==> Dot(n, w) <= Dot(n, p)
    ensures Dot(Minus(w, o), n) == Dot(Minus(p, o), n) <==> Dot(n, w) == Dot(n, p)
  {
    DotMinus(w, o, n);
    DotMinus(p, o, n);
    DotSym(n, w);
    DotSym(n, p);
    hide Dot, Minus;
  }

  lemma NotBeyond(q: Quad, i: nat, s: real, w: Vec)
    requires ProperRectangle(q) && i < 4 && Unit(s) && q.Contains(w)
    ensures var n := Outward(q, i);
            && Dot(n, w) <= Dot(n, OnSide(q, i, s))
            && (Dot(n, w) == Dot(n, OnSide(q, i, s)) ==> exists s' :: Unit(s') && w == OnSide(q, i, s'))
  {
    hide Dot, Minus, OnSide, Quad.At, ProperRectangle, Outward;
    var a, b :| 0.0 <= a <= 1.0 && 0.0 <= b <= 1.0 && w == q.At(a, b);
    SideIsOutermost(q, i, s, a, b);
    RelativeBack(w, OnSide(q, i, s), q.p0, Outward(q, i));
  }

  lemma DotOfBoth(m: Vec, n: Vec, p: Vec)
    ensures Dot(Plus(m, n), p) == Dot(m, p) + Dot(n, p)
  {
  }

  /** Where two sides that are not parallel cross is the only outermost point of both boxes along the sum of the
      directions out of them. */
  lemma OnlyOutermost(q1: Quad, q2: Quad, i: nat, j: nat, s: real, t: real, w: Vec)
    requires ProperRectangle(q1) && ProperRectangle(q2) && i < 4 && j < 4 && Unit(s) && Unit(t)
    requires OnSide(q1, i, s) == OnSide(q2, j, t) && Det(q1, q2, i, j) != 0.0
    requires q1.Contains(w) && q2.Contains(w)
    requires var n := Plus(Outward(q1, i), Outward(q2, j)); Dot(n, OnSide(q1, i, s)) <= Dot(n, w)
    ensures w == OnSide(q1, i, s)
  {
    var p := OnSide(q1, i, s);
    hide Dot, Plus, OnSide, Det, Outward, Meet1, Meet2, ProperRectangle, Quad.Contains;
    NotBeyond(q1, i, s, w);
    NotBeyond(q2, j, t, w);
    DotOfBoth(Outward(q1, i), Outward(q2, j), p);
    DotOfBoth(Outward(q1, i), Outward(q2, j), w);
    var s' :| Unit(s') && w == OnSide(q1, i, s');
    var t' :| Unit(t') && w == OnSide(q2, j, t');
    SidesMeet(q1, q2, i, j, s, t);
    SidesMeet(q1, q2, i, j, s', t');
  }

  /** Sides i and j are nearly, but not exactly, parallel, and cross strictly inside both. */
  predicate CrossesInside(q1: Quad, q2: Quad, i: nat, j: nat) {
    && NearlyParallel(q1, q2, i, j)
    && StrictlyInside(Meet1(q1, q2, i, j)) && StrictlyInside(Meet2(q1, q2, i, j))
  }

  /** A suppressed crossing strictly inside both sides is in no marked slot. */
  lemma InsideNotFound(q1: Quad, q2: Quad, i: nat, j: nat, s: real, t: real)
    requires ProperRectangle(q1) && ProperRectangle(q2) && i < 4 && j < 4 && NearlyParallel(q1, q2, i, j)
    requires StrictlyInside(s) && StrictlyInside(t) && OnSide(q1, i, s) == OnSide(q2, j, t)
    ensures !Found(q1, q2, OnSide(q1, i, s))
  {
    var p := OnSide(q1, i, s);
    hide OnSide, Det, Crossing, Projects, Quad.Corner, ProperRectangle;
    forall k | 0 <= k < H.SLOTS && SlotOf(q1, q2, k).marked ensures SlotOf(q1, q2, k).p != p {
      if k < 16 {
        CrossingElsewhere(q1, q2, i, j, s, t, k / 4, k % 4);
      } else if k < 20 {
        NoCorner(q1, i, s, k - 16);
      } else {
        NoCorner(q2, j, t, k - 20);
      }
    }
  }

  lemma CrossingElsewhere(q1: Quad, q2: Quad, i: nat, j: nat, s: real, t: real, i': nat, j': nat)
    requires ProperRectangle(q1) && ProperRectangle(q2) && i < 4 && j < 4 && NearlyParallel(q1, q2, i, j)
    requires StrictlyInside(s) && StrictlyInside(t) && OnSide(q1, i, s) == OnSide(q2, j, t)
    requires i' < 4 && j' < 4 && Crossing(q1, q2, i', j').marked
    ensures Crossing(q1, q2, i', j').p != OnSide(q1, i, s)
  {
    CrossingExactly(q1, q2, i', j');
    hide OnSide, Det, Crossing, ProperRectangle;
    if Crossing(q1, q2, i', j').p == OnSide(q1, i, s) {
      var s', t' :| Unit(s') && Unit(t') && OnSide(q1, i', s') == OnSide(q2, j', t');
      OnOneSide(q1, i, s, i', s');
      OnOneSide(q2, j, t, j', t');
      assert false;
    }
  }

  /** Such a crossing is not in the hull of the marked points, but in both boxes. */
  lemma InsideMissed(q1: Quad, q2: Quad, i: nat, j: nat)
    requires ProperRectangle(q1) && ProperRectangle(q2) && i < 4 && j < 4 && CrossesInside(q1, q2, i, j)
    ensures Lost(q1, q2, OnSide(q1, i, Meet1(q1, q2, i, j))) && !InHull(q1, q2, OnSide(q1, i, Meet1(q1, q2, i, j)))
  {
    var s, t := Meet1(q1, q2, i, j), Meet2(q1, q2, i, j);
    var p, n := OnSide(q1, i, s), Plus(Outward(q1, i), Outward(q2, j));
    SidesMeet(q1, q2, i, j, s, t);
    hide OnSide, Det, Meet1, Meet2, Dot, Plus, Outward, SlotOf, Quad.Contains, ProperRectangle;
    assert OnSide(q2, j, t) == p;
    InsideNotFound(q1, q2, i, j, s, t);
    forall k | 0 <= k < H.SLOTS && SlotOf(q1, q2, k).marked ensures !(Dot(n, p) <= Dot(n, SlotOf(q1, q2, k).p)) {
      MarkedSlotsAreShared(q1, q2, k);
      if Dot(n, p) <= Dot(n, SlotOf(q1, q2, k).p) {
        OnlyOutermost(q1, q2, i, j, s, t, SlotOf(q1, q2, k).p);
      }
    }
    assert !Passed(q1, q2, p, n);
  }

  /** A suppressed crossing at an end of either side is a corner of one box inside the other, and marked as such. */
  lemma EndFound(q1: Quad, q2: Quad, i: nat, j: nat, s: real, t: real)
    requires ProperRectangle(q1) && ProperRectangle(q2) && i < 4 && j < 4 && Unit(s) && Unit(t)
    requires OnSide(q1, i, s) == OnSide(q2, j, t) && !(StrictlyInside(s) && StrictlyInside(t))
    ensures Found(q1, q2, OnSide(q1, i, s))
  {
    var p := OnSide(q1, i, s);
    SideEnds(q1, i);
    SideEnds(q2, j);
    assert q1.Contains(p) && q2.Contains(p) by {
      SideInside(q1, i, s);
      SideInside(q2, j, t);
    }
    hide OnSide, Found, Quad.Corner, Quad.Contains, ProperRectangle;
    if !StrictlyInside(s) {
      CornerKnown(q1, q2, if s == 0.0 then i else (i + 1) % 4);
    } else {
      CornerKnown(q2, q1, if t == 0.0 then j else (j + 1) % 4);
      FoundEitherWay(q2, q1, p);
    }
  }

  lemma FoundInHull(q1: Quad, q2: Quad, p: Vec)
    requires Found(q1, q2, p)
    ensures InHull(q1, q2, p)
  {
    hide Found, Passed, Dot;
    forall n ensures Passed(q1, q2, p, n) {
      FoundPasses(q1, q2, p, n, p);
    }
  }

  predicate NoneCrossInside(q1: Quad, q2: Quad) {
    forall i: nat, j: nat | i < 4 && j < 4 :: !CrossesInside(q1, q2, i, j)
  }

  lemma LostInHull(q1: Quad, q2: Quad, p: Vec)
    requires ProperRectangle(q1) && ProperRectangle(q2) && NoneCrossInside(q1, q2) && Lost(q1, q2, p)
    ensures InHull(q1, q2, p)
  {
    hide OnSide, Det, Meet1, Meet2, InHull, Found, ProperRectangle;
    var i: nat, j: nat, s: real, t: real :|
      i < 4 && j < 4 && Unit(s) && Unit(t) && OnSide(q1, i, s) == p && OnSide(q2, j, t) == p &&
        NearlyParallel(q1, q2, i, j);
    SidesMeet(q1, q2, i, j, s, t);
    assert !CrossesInside(q1, q2, i, j);
    EndFound(q1, q2, i, j, s, t);
    FoundInHull(q1, q2, p);
  }

  /** The hull of the marked points is the intersection of the boxes exactly if no two sides that are nearly, but not
      exactly, parallel cross strictly inside both. */
  lemma IntersectionExactly(q1: Quad, q2: Quad)
    requires ProperRectangle(q1) && ProperRectangle(q2)
    ensures (forall x :: InHull(q1, q2, x) <==> q1.Contains(x) && q2.Contains(x)) <==> NoneCrossInside(q1, q2)
  {
    LostDecide(q1, q2);
    hide Lost, InHull, Quad.Contains, ProperRectangle, OnSide, Meet1;
    if NoneCrossInside(q1, q2) {
      forall p | Lost(q1, q2, p) ensures InHull(q1, q2, p) {
        LostInHull(q1, q2, p);
      }
    } else {
      var i: nat, j: nat :| i < 4 && j < 4 && CrossesInside(q1, q2, i, j);
      InsideMissed(q1, q2, i, j);
    }
  }

  /** If no two sides are nearly, but not exactly, parallel, the hull of the marked points is the intersection. */
  lemma IntersectionIfNothingLost(q1: Quad, q2: Quad, x: Vec)
    requires ProperRectangle(q1) && ProperRectangle(q2)
    requires forall i: nat, j: nat | i < 4 && j < 4 :: !NearlyParallel(q1, q2, i, j)
    ensures InHull(q1, q2, x) <==> q1.Contains(x) && q2.Contains(x)
  {
    IntersectionExactly(q1, q2);
    hide Meet1, Meet2, NearlyParallel, InHull, Quad.Contains, ProperRectangle;
  }

  // ----- In numbers of the boxes -----

  /** The sine and the cosine of the angle between two boxes, if cosines and sines are those of angles. */
  function SineBetween(b1: Box, b2: Box): real { b2.sin * b1.cos - b2.cos * b1.sin }
  function CosineBetween(b1: Box, b2: Box): real { b1.cos * b2.cos + b1.sin * b2.sin }

  /** The direction and the length of side i. */
  function Heading(b: Box, i: nat): Vec {
    if i == 0 then Vec(b.sin, -b.cos) else if i == 1 then Vec(b.cos, b.sin)
    else if i == 2 then Vec(-b.sin, b.cos) else Vec(-b.cos, -b.sin)
  }

  function Length(b: Box, i: nat): real { if i % 2 == 0 then b.h else b.w }

  lemma SideHeads(b: Box, i: nat)
    requires i < 4
    ensures RotatedVertices(b).Side(i) == Times(Heading(b, i), Length(b, i))
  {
    var q := RotatedVertices(b);
    VerticesAreRectangle(b);
    VertexSides(b);
    hide RotatedVertices, Quad.Side, Quad.Parallelogram, Quad.RightAngled, Dot, Minus;
    SideDirections(q);
    assert FirstSide(q) == Vec(b.sin * b.h, -b.cos * b.h) && OtherSide(q) == Vec(b.cos * b.w, b.sin * b.w);
    NegatedProduct(b.sin, b.h);
    NegatedProduct(b.cos, b.h);
    NegatedProduct(b.cos, b.w);
    NegatedProduct(b.sin, b.w);
    hide FirstSide, OtherSide;
  }

  lemma NegatedProduct(x: real, y: real)
    ensures (x * y) * -1.0 == -x * y && (-x * y) * -1.0 == x * y
  {
  }

  lemma CrossOfScaled(a: Vec, b: Vec, s: real, t: real)
    ensures Cross(Times(a, s), Times(b, t)) == (s * t) * Cross(a, b)
  {
    ProductSwap(a.x, s, b.y, t);
    ProductSwap(a.y, s, b.x, t);
    ScaledDifference(s * t, a.x * b.y, a.y * b.x);
  }

  lemma ScaledDifference(k: real, u: real, v: real)
    ensures k * (u - v) == k * u - k * v
  {
  }

  /** The first two headings of either box. */
  lemma CrossOfFirst(b1: Box, b2: Box)
    ensures Cross(Heading(b2, 0), Heading(b1, 0)) == -SineBetween(b1, b2) == Cross(Heading(b2, 1), Heading(b1, 1))
    ensures Cross(Heading(b2, 0), Heading(b1, 1)) == CosineBetween(b1, b2) == -Cross(Heading(b2, 1), Heading(b1, 0))
  {
    NegatedProduct(b2.sin, b1.cos);
    NegatedProduct(b2.cos, b1.sin);
    NegatedProduct(b2.cos, b1.cos);
    NegatedProduct(b1.cos, b2.cos);
    NegatedProduct(b1.cos, b2.sin);
    NegatedProduct(b1.sin, b2.sin);
  }

  lemma HeadingBack(b: Box, i: nat)
    requires i < 4
    ensures Heading(b, i) == Times(Heading(b, i % 2), if i < 2 then 1.0 else -1.0)
  {
  }

  /** Headings enclose the angle between the boxes, or a quarter turn more. */
  lemma CrossOfHeadings(b1: Box, b2: Box, i: nat, j: nat)
    requires i < 4 && j < 4
    ensures Abs(Cross(Heading(b2, j), Heading(b1, i))) ==
            Abs(if i % 2 == j % 2 then SineBetween(b1, b2) else CosineBetween(b1, b2))
  {
    CrossOfFirst(b1, b2);
    HeadingBack(b1, i);
    HeadingBack(b2, j);
    hide Cross, Heading, Times, SineBetween, CosineBetween;
    var s, t := if i < 2 then 1.0 else -1.0, if j < 2 then 1.0 else -1.0;
    CrossOfScaled(Heading(b2, j % 2), Heading(b1, i % 2), t, s);
    assert t * s == 1.0 || t * s == -1.0;
  }

  predicate ZeroOrBeyond(x: real, bound: real) { x == 0.0 || x < -bound || bound < x }

  lemma DetInNumbers(b1: Box, b2: Box, i: nat, j: nat)
    requires i < 4 && j < 4
    requires b1.w >= 0.001 && b1.h >= 0.001 && b2.w >= 0.001 && b2.h >= 0.001
    requires ZeroOrBeyond(SineBetween(b1, b2), 0.00000001) && ZeroOrBeyond(CosineBetween(b1, b2), 0.00000001)
    ensures !NearlyParallel(RotatedVertices(b1), RotatedVertices(b2), i, j)
  {
    var q1, q2 := RotatedVertices(b1), RotatedVertices(b2);
    SideHeads(b1, i);
    SideHeads(b2, j);
    CrossOfHeadings(b1, b2, i, j);
    DetIs(q1, q2, i, j);
    CrossOfScaled(Heading(b2, j), Heading(b1, i), Length(b2, j), Length(b1, i));
    var x := Cross(Heading(b2, j), Heading(b1, i));
    hide RotatedVertices, Quad.Side, Det, Cross, Heading, Times, SineBetween, CosineBetween;
    AreaTimes(Length(b2, j), Length(b1, i), x);
  }

  lemma AreaTimes(s: real, t: real, x: real)
    requires s >= 0.001 && t >= 0.001 && ZeroOrBeyond(x, 0.00000001)
    ensures !(0.0 < Abs((s * t) * x) <= DET_THRESHOLD)
  {
    ScaleMonotone(s, 0.001, t);
    assert s * t >= 0.000001;
    var y := Abs(x);
    AbsScaled(s * t, x);
    if x != 0.0 {
      ScaleMonotone(y, 0.000001, s * t);
      assert y * (s * t) == (s * t) * y;
      assert y * 0.000001 > 0.00000000000001;
    }
  }

  lemma AbsScaled(k: real, x: real)
    requires 0.0 < k
    ensures Abs(k * x) == k * Abs(x) && (x == 0.0 ==> k * x == 0.0)
  {
    if x < 0.0 {
      PositiveProduct(k, -x, k * -x);
    } else if x > 0.0 {
      PositiveProduct(k, x, k * x);
    }
  }

  /** A record the kernel does not pass over has proper corners, whatever its angle. */
  lemma LetThroughIsProper(r: BoxTiling.Rec, cos: real, sin: real)
    requires !BoxTiling.TooSmall(r) && (cos != 0.0 || sin != 0.0)
    ensures ProperRectangle(RotatedVertices(Box(r.x, r.y, r.w, r.h, cos, sin)))
  {
    RealProduct(r.w, r.h);
    BoxIsProper(Box(r.x, r.y, r.w, r.h, cos, sin));
  }

  /** Boxes whose sides are a thousandth or more, and between which the sine and the cosine of the angle are each zero
      or above 1e-8 in size: the hull of the marked points is the intersection. */
  lemma IntersectionInNumbers(b1: Box, b2: Box, x: Vec)
    requires b1.w >= 0.001 && b1.h >= 0.001 && b2.w >= 0.001 && b2.h >= 0.001
    requires (b1.cos != 0.0 || b1.sin != 0.0) && (b2.cos != 0.0 || b2.sin != 0.0)
    requires ZeroOrBeyond(SineBetween(b1, b2), 0.00000001) && ZeroOrBeyond(CosineBetween(b1, b2), 0.00000001)
    ensures var (q1, q2) := (RotatedVertices(b1), RotatedVertices(b2));
            InHull(q1, q2, x) <==> q1.Contains(x) && q2.Contains(x)
  {
    var q1, q2 := RotatedVertices(b1), RotatedVertices(b2);
    BoxIsProper(b1);
    BoxIsProper(b2);
    hide RotatedVertices, NearlyParallel, InHull, Quad.Contains, ProperRectangle;
    forall i: nat, j: nat | i < 4 && j < 4 ensures !NearlyParallel(q1, q2, i, j) {
      DetInNumbers(b1, b2, i, j);
    }
    IntersectionIfNothingLost(q1, q2, x);
  }

  /** Two unit squares with one centre, one of them turned: their hull is the intersection, and not empty. */
  lemma UnitSquares(x: Vec)
    ensures var (q1, q2) := (RotatedVertices(Box(0.0, 0.0, 1.0, 1.0, 1.0, 0.0)),
                             RotatedVertices(Box(0.0, 0.0, 1.0, 1.0, 0.8, 0.6)));
            && (InHull(q1, q2, x) <==> q1.Contains(x) && q2.Contains(x))
            && exists k :: 0 <= k < H.SLOTS && SlotOf(q1, q2, k).marked
  {
    var b1, b2 := Box(0.0, 0.0, 1.0, 1.0, 1.0, 0.0), Box(0.0, 0.0, 1.0, 1.0, 0.8, 0.6);
    assert SineBetween(b1, b2) == 0.6 && CosineBetween(b1, b2) == 0.8;
    hide SineBetween, CosineBetween, SlotOf, RotatedVertices, Quad.Contains, Dot, InHull;
    IntersectionInNumbers(b1, b2, x);
    IntersectionInNumbers(b1, b2, ZERO);
    CentreInside(b1);
    CentreInside(b2);
    SomeMarked(RotatedVertices(b1), RotatedVertices(b2), ZERO);
  }

  lemma SomeMarked(q1: Quad, q2: Quad, x: Vec)
    requires InHull(q1, q2, x)
    ensures exists k :: 0 <= k < H.SLOTS && SlotOf(q1, q2, k).marked
  {
    hide SlotOf, Dot;
    assert Passed(q1, q2, x, ZERO);
  }

  // ----- Two boxes for which nothing is marked -----

  const TINY := 0.0000001
  const UPRIGHT := Box(0.0, 0.0, TINY, TINY, 1.0, 0.0)
  const TURNED := Box(0.0, 0.0, TINY, TINY, 0.6, 0.8)

  const TENTH := 0.00000001

  /** The corners, in units of a tenth of the side. */
  function InTenths(x0: real, y0: real, x1: real, y1: real, x2: real, y2: real, x3: real, y3: real): Quad {
    var u := TENTH;
    Quad(Vec(x0 * u, y0 * u), Vec(x1 * u, y1 * u), Vec(x2 * u, y2 * u), Vec(x3 * u, y3 * u))
  }

  lemma UprightCorners()
    ensures RotatedVertices(UPRIGHT) == InTenths(-5.0, 5.0, -5.0, -5.0, 5.0, -5.0, 5.0, 5.0)
  {
  }

  lemma TurnedCorners()
    ensures RotatedVertices(TURNED) == InTenths(-7.0, -1.0, 1.0, -7.0, 7.0, 1.0, -1.0, 7.0)
  {
  }

  /** Sides in units of a tenth. */
  function UprightSide(i: nat): Vec {
    if i == 0 then Vec(0.0, -10.0 * TENTH) else if i == 1 then Vec(10.0 * TENTH, 0.0)
    else if i == 2 then Vec(0.0, 10.0 * TENTH) else Vec(-10.0 * TENTH, 0.0)
  }

  function TurnedSide(j: nat): Vec {
    if j == 0 then Vec(8.0 * TENTH, -6.0 * TENTH) else if j == 1 then Vec(6.0 * TENTH, 8.0 * TENTH)
    else if j == 2 then Vec(-8.0 * TENTH, 6.0 * TENTH) else Vec(-6.0 * TENTH, -8.0 * TENTH)
  }

  lemma SidesAre(i: nat)
    requires i < 4
    ensures RotatedVertices(UPRIGHT).Side(i) == UprightSide(i) && RotatedVertices(TURNED).Side(i) == TurnedSide(i)
  {
    UprightCorners();
    TurnedCorners();
    SideOf(RotatedVertices(UPRIGHT), i);
    SideOf(RotatedVertices(TURNED), i);
    hide RotatedVertices, Quad.Side;
  }

  /** A cross product of an upright and a turned side is at most the square of the longer. */
  lemma TinyCross(i: nat, j: nat)
    requires i < 4 && j < 4
    ensures Abs(Cross(TurnedSide(j), UprightSide(i))) <= DET_THRESHOLD
  {
  }

  lemma TinySides(i: nat, j: nat)
    requires i < 4 && j < 4
    ensures Abs(Det(RotatedVertices(UPRIGHT), RotatedVertices(TURNED), i, j)) <= DET_THRESHOLD
  {
    SidesAre(i);
    SidesAre(j);
    TinyCross(i, j);
    DetIs(RotatedVertices(UPRIGHT), RotatedVertices(TURNED), i, j);
    hide RotatedVertices, Quad.Side, Det, Cross;
  }

  /** At 1e-14 itself a determinant still counts as zero: the crossing of two sides at right angles is suppressed. */
  lemma RightAngleSuppressed()
    ensures var q := RotatedVertices(UPRIGHT);
            && Det(q, q, 0, 1) == -0.00000000000001 && OnSide(q, 0, 1.0) == OnSide(q, 1, 0.0)
            && !Crossing(q, q, 0, 1).marked
  {
    var q := RotatedVertices(UPRIGHT);
    SidesAre(0);
    SidesAre(1);
    DetIs(q, q, 0, 1);
    SideEnds(q, 0);
    SideEnds(q, 1);
    hide RotatedVertices, Quad.Side, Quad.Corner, Meet1, Meet2, OnSide, Det;
    assert Cross(UprightSide(1), UprightSide(0)) == -0.00000000000001;
  }

  /** A point beyond the box along its first side. */
  lemma BeyondFirst(q: Quad, p: Vec, dot: real)
    requires dot == Dot(Minus(p, q.p0), Minus(q.p1, q.p0))
    requires dot < 0.0 || Dot(Minus(q.p1, q.p0), Minus(q.p1, q.p0)) < dot
    ensures !Projects(q, p)
  {
    ProjectsIs(q, p);
  }

  lemma BeyondOther(q: Quad, p: Vec, dot: real)
    requires dot == Dot(Minus(p, q.p0), Minus(q.p3, q.p0))
    requires dot < 0.0 || Dot(Minus(q.p3, q.p0), Minus(q.p3, q.p0)) < dot
    ensures !Projects(q, p)
  {
    ProjectsIs(q, p);
  }

  lemma TinyCorners(i: nat)
    requires i < 4
    ensures !Projects(RotatedVertices(TURNED), RotatedVertices(UPRIGHT).Corner(i))
    ensures !Projects(RotatedVertices(UPRIGHT), RotatedVertices(TURNED).Corner(i))
  {
    UprightCorners();
    TurnedCorners();
    var q1, q2 := RotatedVertices(UPRIGHT), RotatedVertices(TURNED);
    hide RotatedVertices, Projects;
    var p, p' := q1.Corner(i), q2.Corner(i);
    var d1, d3 := Dot(Minus(p, q2.p0), Minus(q2.p1, q2.p0)), Dot(Minus(p, q2.p0), Minus(q2.p3, q2.p0));
    var e1, e3 := Dot(Minus(p', q1.p0), Minus(q1.p1, q1.p0)), Dot(Minus(p', q1.p0), Minus(q1.p3, q1.p0));
    if i % 2 == 0 {
      BeyondFirst(q2, p, d1);
      BeyondOther(q1, p', e3);
    } else {
      BeyondOther(q2, p, d3);
      BeyondFirst(q1, p', e1);
    }
  }

  lemma CentreInside(b: Box)
    ensures RotatedVertices(b).Contains(Vec(b.x, b.y))
  {
    var q := RotatedVertices(b);
    VertexSides(b);
    AtFromCorner(q, 0.5, 0.5);
    assert q.At(0.5, 0.5) == Vec(b.x, b.y);
  }

  /** Two boxes that pass the test for an area, with the same centre: no slot is marked, so the hull is empty. */
  lemma TinyBoxesMissed()
    ensures var (q1, q2) := (RotatedVertices(UPRIGHT), RotatedVertices(TURNED));
            && ProperRectangle(q1) && ProperRectangle(q2) && q1.Contains(ZERO) && q2.Contains(ZERO)
            && (forall k | 0 <= k < H.SLOTS :: !SlotOf(q1, q2, k).marked) && !InHull(q1, q2, ZERO)
            && !(UPRIGHT.w * UPRIGHT.h < BoxTiling.AREA_THRESHOLD) && !(TURNED.w * TURNED.h < BoxTiling.AREA_THRESHOLD)
            && !NoneCrossInside(q1, q2)
  {
    var q1, q2 := RotatedVertices(UPRIGHT), RotatedVertices(TURNED);
    BoxIsProper(UPRIGHT);
    BoxIsProper(TURNED);
    CentreInside(UPRIGHT);
    CentreInside(TURNED);
    hide RotatedVertices, ProperRectangle, Quad.Contains, Det, Projects, Quad.Corner;
    forall k | 0 <= k < H.SLOTS ensures !SlotOf(q1, q2, k).marked {
      if k < 16 {
        TinySides(k / 4, k % 4);
      } else if k < 20 {
        TinyCorners(k - 16);
      } else {
        TinyCorners(k - 20);
      }
    }
    hide SlotOf;
    assert !Passed(q1, q2, ZERO, ZERO);
    hide Passed, NoneCrossInside;
    IntersectionExactly(q1, q2);
  }
}
