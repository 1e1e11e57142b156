/**
 The convex hull of every lane's valid points, lane by lane in place: translate, compact, sort, scan.

 The main result, in the contract of ConvexHullGraham: a lane whose valid points are not all the same ends with
 their convex hull in its front slots (the hull's corners are distinct points of the lane, every consecutive
 triple turns strictly left, and every point of the lane is on the inner side of every edge, the closing one
 included);
 a lane whose points are all the same is marked invalid. No lane touches another.
 */
module Hull {
  import opened Plane
  import opened HullScan
  import opened HullOrder

  function After(s: seq<Pt>, k: nat): nat { if k + 1 < |s| then k + 1 else 0 }

  /** All points are on the inner side of every edge. */
  ghost predicate Surrounds(s: seq<Pt>, ps: multiset<Pt>) {
    forall k, p | 0 <= k < |s| && p in ps :: Left(s[k], s[After(s, k)], p) >= 0
  }

  /** Every corner turns strictly left, the two at the closing edge included. */
  ghost predicate Turning(s: seq<Pt>) {
    forall k | 0 <= k < |s| :: Left(s[k], s[After(s, k)], s[After(s, After(s, k))]) > 0
  }

  predicate Distinct(s: seq<Pt>) { forall k, l | 0 <= k < l < |s| :: s[k] != s[l] }

  predicate Within(s: seq<Pt>, ps: multiset<Pt>)
    requires |s| == 2
  {
    s[0] == ORIGIN && forall p :: p in ps ==> Norm(p) <= Norm(s[1])
  }

  /**
   s runs once counter-clockwise around the points ps, turning strictly left at every corner; if all points lie on
   a line, s runs from the origin to the farthest of them and back.
   */
  ghost predicate IsHull(s: seq<Pt>, ps: multiset<Pt>) {
    && 2 <= |s| && Distinct(s)
    && (forall k | 0 <= k < |s| :: s[k] in ps)
    && Surrounds(s, ps)
    && (if |s| == 2 then Within(s, ps) else Turning(s))
  }

  /** The stack the scan leaves, closed from its top back to the origin, is the hull of everything scanned. */
  lemma StackIsHull(s: seq<Pt>, q: seq<Pt>, k: nat, n: nat)
    requires Fan(q, k, n) && 1 <= k < n && StackOk(s, q, k, n) && 2 <= |s| && s[|s| - 1] == q[n - 1]
    requires AtOriginTo(q, k)
    ensures IsHull(s, multiset(q[..n]))
  {
    assert n <= |q|;
    hide Cross, Left, Norm, Chain, Covers, Fan, StackOk, AtOriginTo, After, Surrounds, Turning, Distinct, Within;
    StackPoints(s, q, k, n);
    StackIsChain(s, q, k, n);
    ChainDistinct(s);
    AllCovered(s, q, k, n);
    if |s| == 2 {
      AllWithin(s, q, k, n);
    } else {
      CornersTurn(s);
    }
  }

  lemma AllCovered(s: seq<Pt>, q: seq<Pt>, k: nat, n: nat)
    requires Fan(q, k, n) && 1 <= k < n && StackOk(s, q, k, n) && 2 <= |s| && s[|s| - 1] == q[n - 1]
    requires AtOriginTo(q, k)
    ensures n <= |q| && Surrounds(s, multiset(q[..n]))
  {
    assert n <= |q|;
    hide Cross, Left, Norm, Chain, Covers, Fan, StackOk;
    forall e, p | 0 <= e < |s| && p in multiset(q[..n]) ensures Left(s[e], s[After(s, e)], p) >= 0 {
      var a :| 0 <= a < n && q[..n][a] == p;
      EdgeCovers(s, q, k, n, e, a);
    }
  }

  lemma AllWithin(s: seq<Pt>, q: seq<Pt>, k: nat, n: nat)
    requires Fan(q, k, n) && 1 <= k < n && StackOk(s, q, k, n) && |s| == 2 && s[1] == q[n - 1]
    requires AtOriginTo(q, k)
    ensures n <= |q| && Within(s, multiset(q[..n]))
  {
    assert n <= |q|;
    hide Cross, Left, Norm, Chain, Covers, Fan, StackOk;
    StackIsChain(s, q, k, n);
    ChainDistinct(s);
    forall p | p in multiset(q[..n]) ensures Norm(p) <= Norm(s[1]) {
      var a :| 0 <= a < n && q[..n][a] == p;
      FarthestLast(s, q, k, n, a);
    }
  }

  lemma StackIsChain(s: seq<Pt>, q: seq<Pt>, k: nat, n: nat)
    requires k <= n <= |q| && StackOk(s, q, k, n)
    ensures Chain(s)
  {
  }

  lemma ChainDistinct(s: seq<Pt>)
    requires Chain(s)
    ensures s != [] && s[0] == ORIGIN && Distinct(s)
  {
    hide Left, Upper;
  }

  lemma OnOneLine(p: Pt, b: Pt)
    requires Upto(p, b) && Left(ORIGIN, b, p) >= 0
    ensures Norm(p) <= Norm(b)
  {
    CrossAnti(p, b);
    hide Norm;
  }

  /** If the chain is a single edge, no point is farther out than its end. */
  lemma FarthestLast(s: seq<Pt>, q: seq<Pt>, k: nat, n: nat, a: nat)
    requires Fan(q, k, n) && 1 <= k < n && StackOk(s, q, k, n) && |s| == 2 && s[1] == q[n - 1]
    requires AtOriginTo(q, k) && a < n
    ensures Norm(q[a]) <= Norm(s[1])
  {
    hide Norm, Left, Cross, Upto, Upper;
    if a < k {
      NormNonNegative(ORIGIN);
      NormNonNegative(s[1]);
    } else if a < n - 1 {
      assert Covers(s, q[a]) && s[0] == ORIGIN;
      assert Left(s[1 - 1], s[1], q[a]) >= 0;
      OnOneLine(q[a], s[1]);
    }
  }

  lemma StackPoints(s: seq<Pt>, q: seq<Pt>, k: nat, n: nat)
    requires 1 <= k <= n <= |q| && StackOk(s, q, k, n) && AtOriginTo(q, k)
    ensures forall a | 0 <= a < |s| :: s[a] in multiset(q[..n])
  {
    hide Cross, Left, Upper, Covers;
    assert q[..n] == q[..k] + q[k..n];
    assert q[..n][0] == ORIGIN;
    forall a | 0 <= a < |s| ensures s[a] in q[..n] {
      assert a > 0 ==> s[a] in q[k..n];
    }
  }

  lemma TurnToOrigin(a: Pt, b: Pt)
    ensures Left(a, b, ORIGIN) == Cross(a, b)
  {
  }

  lemma TowardOrigin(a: Pt, p: Pt)
    ensures Left(a, ORIGIN, p) == Cross(p, a)
  {
  }

  lemma EdgeCovers(s: seq<Pt>, q: seq<Pt>, k: nat, n: nat, e: nat, a: nat)
    requires Fan(q, k, n) && 1 <= k < n && StackOk(s, q, k, n) && 2 <= |s| && s[|s| - 1] == q[n - 1]
    requires AtOriginTo(q, k)
    requires e < |s| && a < n
    ensures Left(s[e], s[After(s, e)], q[a]) >= 0
  {
    hide Cross, Left, Norm, Upper;
    var top := s[|s| - 1];
    if e == |s| - 1 {
      TowardOrigin(top, q[a]);
      if a < k {
        OriginLeast(q[a], top);
      } else {
        UptoSelf(top);
        assert Upto(q[a], q[n - 1]) by { if a < n - 1 { assert Fan(q, k, n); } }
      }
    } else if a < k {
      TurnToOrigin(s[e], s[e + 1]);
      if e == 0 {
        OriginLeast(s[0], s[1]);
      } else {
        assert Cross(s[e], s[e + 1]) > 0;
      }
    } else {
      assert Covers(s, q[a]);
      assert Left(s[(e + 1) - 1], s[e + 1], q[a]) >= 0;
    }
  }

  lemma CornerTurns(s: seq<Pt>, e: nat)
    requires Chain(s) && 3 <= |s| && e < |s|
    ensures Left(s[e], s[After(s, e)], s[After(s, After(s, e))]) > 0
  {
    hide Cross, Left, Norm, Upper;
    var n := |s|;
    if e + 2 < n {
      assert Left(s[(e + 2) - 2], s[(e + 2) - 1], s[e + 2]) > 0;
    } else if e + 1 < n {
      TurnToOrigin(s[e], s[e + 1]);
      assert Cross(s[e], s[e + 1]) > 0;
    } else {
      TowardOrigin(s[e], s[1]);
    }
  }

  lemma CornersTurn(s: seq<Pt>)
    requires Chain(s) && 3 <= |s|
    ensures Turning(s)
  {
    hide Chain, Cross, Left;
    forall e | 0 <= e < |s| ensures Left(s[e], s[After(s, e)], s[After(s, After(s, e))]) > 0 {
      CornerTurns(s, e);
    }
  }

  // ----- One lane -----

  /** The first slot behind slot 0 that is not at the origin. */
  method FindSecond(dist: array2<int>, i: nat, n: nat) returns (k: nat)
    requires dist.Length0 == SLOTS && i < dist.Length1 && 1 <= n <= SLOTS
    ensures 1 <= k <= n && (k < n ==> dist[k, i] > 0) && forall a | 1 <= a < k :: dist[a, i] <= 0
  {
    k := 1;
    while k < n
      invariant 1 <= k <= n && forall a | 1 <= a < k :: dist[a, i] <= 0
    {
      if dist[k, i] > 0 {
        break;
      }
      k := k + 1;
    }
  }

  ghost predicate AtOriginTo(q: seq<Pt>, k: nat) {
    k <= |q| && forall a | 0 <= a < k :: q[a] == ORIGIN
  }

  /** Sorted points start with those at the origin; the rest is a fan. */
  lemma SortedIsFan(q: seq<Pt>, d: seq<int>, k: nat, n: nat)
    requires |q| == |d| && 1 <= k <= n <= |q| && q[0] == ORIGIN && AllUpper(q, n) && SortedTo(q, n, n)
    requires k < n ==> d[k] > 0
    requires forall a | 1 <= a < k :: d[a] <= 0
    requires Dists(q, d)
    ensures Fan(q, k, n) && AtOriginTo(q, k)
  {
    hide Norm, Cross, Upper;
    forall a | 1 <= a < k ensures q[a] == ORIGIN {
      NormNonNegative(q[a]);
    }
    forall a | k <= a < n ensures q[a] != ORIGIN {
      NormNonNegative(q[k]);
      NormNonNegative(q[a]);
      if q[a] == ORIGIN && k < a {
        assert Upto(q[k], q[a]);
        OriginLeast(q[k], q[a]);
      }
    }
  }

  /** What is left in a lane: nothing but the hull, or a mark that its points are all the same. */
  ghost predicate HullOrPoint(s: seq<Pt>, v: seq<bool>, m: nat, box: bool, ps: multiset<Pt>) {
    if box then m <= |s| && IsHull(s[..m], ps) && Front(v, m) else forall p :: p in ps ==> p == ORIGIN
  }

  lemma AllAtOrigin(q: seq<Pt>, n: nat, ps: multiset<Pt>)
    requires AtOriginTo(q, n) && ps == multiset(q[..n])
    ensures forall p :: p in ps ==> p == ORIGIN
  {
    forall p | p in ps ensures p == ORIGIN {
      var a :| 0 <= a < n && q[..n][a] == p;
    }
  }

  lemma UpperFromLive(q: seq<Pt>, n: nat, ps: multiset<Pt>)
    requires n <= |q| && multiset(q[..n]) == ps && forall p :: p in ps ==> Upper(p)
    ensures AllUpper(q, n)
  {
    hide Upper;
    forall a | 0 <= a < n ensures Upper(q[a]) {
      assert q[..n][a] in ps;
    }
  }

  /** Slots from m to n-1 hold no corner. */
  method ClearFrom(valid: array2<bool>, i: nat, m: nat, n: nat)
    requires valid.Length0 == SLOTS && i < valid.Length1 && m <= n <= SLOTS && Front(Col(valid, i), n)
    modifies valid
    ensures Front(Col(valid, i), m) && OtherLanes(valid, i)
  {
    for a := m to n
      invariant forall b | 0 <= b < m || a <= b < SLOTS :: valid[b, i] == old(valid[b, i])
      invariant forall b | m <= b < a :: !valid[b, i]
      invariant OtherLanes(valid, i)
    {
      valid[a, i] := false;
    }
    ghost var v, v0 := Col(valid, i), old(Col(valid, i));
    assert forall b | 0 <= b < m :: v[b] == v0[b];
    assert forall b | n <= b < SLOTS :: v[b] == v0[b];
  }

  /** Everything before the scan: afterwards the front slots are sorted around the origin in slot 0. */
  method OrderLane(pts: array2<Pt>, dist: array2<int>, valid: array2<bool>, i: nat, n: nat, ghost q: seq<Pt>,
                   ghost d: seq<int>, ghost v: seq<bool>)
    returns (ghost q': seq<Pt>, ghost d': seq<int>)
    requires LaneIs(pts, dist, valid, i, q, d, v) && Tracked(q, d, v) && n == Count(v) && 1 <= n
    requires ORIGIN in Live(q, v) && forall p :: p in Live(q, v) ==> Upper(p)
    modifies pts, dist, valid
    ensures n <= SLOTS && q' == Col(pts, i) && d' == Col(dist, i) && Dists(q', d') && Front(Col(valid, i), n)
    ensures multiset(q'[..n]) == Live(q, v) && q'[0] == ORIGIN && AllUpper(q', n) && SortedTo(q', n, n)
    ensures OtherLanes(pts, i) && OtherLanes(dist, i) && OtherLanes(valid, i)
  {
    hide Upper, AllUpper, SortedTo, Live, Count, FrontFull, Front, Norm;
    ghost var v';
    q', d', v' := Compact(pts, dist, valid, i, q, d, v);
    FrontHolds(q', v');
    FrontWithin(v', n);
    q', d' := OriginFirst(pts, dist, i, n, q', d');
    UpperFromLive(q', n, Live(q, v));
    q', d' := ExchangeSort(pts, dist, i, n, q', d');
  }

  lemma FrontWithin(v: seq<bool>, n: nat)
    requires Front(v, n)
    ensures n <= |v|
  {
  }

  method HullOfLane(pts: array2<Pt>, dist: array2<int>, valid: array2<bool>, validBox: array<bool>, nums: array<nat>,
                    i: nat, ghost q: seq<Pt>, ghost d: seq<int>, ghost v: seq<bool>)
    requires LaneIs(pts, dist, valid, i, q, d, v) && Tracked(q, d, v)
    requires i < validBox.Length && i < nums.Length && validBox[i] && nums[i] == Count(v) && 1 <= nums[i]
    requires ORIGIN in Live(q, v) && forall p :: p in Live(q, v) ==> Upper(p)
    modifies pts, dist, valid, validBox, nums
    ensures HullOrPoint(Col(pts, i), Col(valid, i), nums[i], validBox[i], Live(q, v))
    ensures !validBox[i] ==> nums[i] == old(nums[i])
    ensures forall l | 0 <= l < pts.Length1 && l != i :: Col(pts, l) == old(Col(pts, l))
    ensures forall l | 0 <= l < dist.Length1 && l != i :: Col(dist, l) == old(Col(dist, l))
    ensures forall l | 0 <= l < valid.Length1 && l != i :: Col(valid, l) == old(Col(valid, l))
    ensures forall l | 0 <= l < validBox.Length && l != i :: validBox[l] == old(validBox[l])
    ensures forall l | 0 <= l < nums.Length && l != i :: nums[l] == old(nums[l])
  {
    hide Upper, AllUpper, SortedTo, Live, Count, Front, Norm, Dists, StackOk, Fan, IsHull, Tracked;
    var n := nums[i];
    ghost var q', d' := OrderLane(pts, dist, valid, i, n, q, d, v);
    var k := FindSecond(dist, i, n);
    SortedIsFan(q', d', k, n);
    if k == n {
      validBox[i] := false;
      AllAtOrigin(q', n, Live(q, v));
    } else {
      var m := Scan(pts, i, k, n);
      StackIsHull(Col(pts, i)[..m], q', k, n);
      ClearFrom(valid, i, m, n);
      nums[i] := m;
    }
    assert OtherLanes(pts, i) && OtherLanes(dist, i) && OtherLanes(valid, i);
  }

  // ----- All lanes -----

  /** o is a valid point of the lane, and no valid point is lower, or as low and further left. */
  ghost predicate IsLowest(q: seq<Pt>, v: seq<bool>, o: Pt) {
    && |q| == |v|
    && (exists k | 0 <= k < |q| :: v[k] && q[k] == o)
    && forall k | 0 <= k < |q| && v[k] :: o.y < q[k].y || (o.y == q[k].y && o.x <= q[k].x)
  }

  /** Seen from o, h is the convex hull of the points q with marks v: its corners are distinct and points of q, all
      points are on the inner side of every edge, and it turns strictly left at every corner; if all points are on a
      line, it runs from o to the farthest and back. */
  ghost predicate IsHullOf(q: seq<Pt>, v: seq<bool>, o: Pt, h: seq<Pt>)
    requires |q| == |v|
  {
    && 2 <= |h| && (forall k, l | 0 <= k < l < |h| :: h[k] != h[l])
    && (forall k | 0 <= k < |h| :: exists a | 0 <= a < |q| :: v[a] && h[k] == Minus(q[a], o))
    && (forall k, a | 0 <= k < |h| && 0 <= a < |q| && v[a] :: Left(h[k], h[After(h, k)], Minus(q[a], o)) >= 0)
    && (if |h| == 2 then h[0] == ORIGIN && forall a | 0 <= a < |q| && v[a] :: Norm(Minus(q[a], o)) <= Norm(h[1])
        else forall k | 0 <= k < |h| :: Left(h[k], h[After(h, k)], h[After(h, After(h, k))]) > 0)
  }

  /** The points that are left of a lane once it is translated. */
  lemma LiveTranslated(q: seq<Pt>, v: seq<bool>, o: Pt, p: Pt)
    requires |q| == |v|
    ensures p in Live(Translated(q, v, o), v) <==> exists a | 0 <= a < |q| :: v[a] && p == Minus(q[a], o)
  {
    hide Live;
    var t := Translated(q, v, o);
    LiveMember(t, v, p);
    assert forall a | 0 <= a < |q| && v[a] :: t[a] == Minus(q[a], o);
  }

  lemma HullOfTranslated(q: seq<Pt>, v: seq<bool>, o: Pt, h: seq<Pt>)
    requires |q| == |v|
    ensures IsHull(h, Live(Translated(q, v, o), v)) <==> IsHullOf(q, v, o, h)
  {
    hide Live, Left, Norm, Translated, Minus;
    var ps := Live(Translated(q, v, o), v);
    forall p ensures p in ps <==> exists a | 0 <= a < |q| :: v[a] && p == Minus(q[a], o) {
      LiveTranslated(q, v, o, p);
    }
    if IsHull(h, ps) {
      forall a | 0 <= a < |q| && v[a] ensures Minus(q[a], o) in ps {
      }
    }
  }

  /** The lane's points q with marks v have been replaced by their hull, seen from the lowest of them, in the first m
      slots; or it has been found that they are all the same. */
  ghost predicate LaneDone(q: seq<Pt>, v: seq<bool>, s: seq<Pt>, v': seq<bool>, m: nat, box: bool) {
    exists o ::
      IsLowest(q, v, o) &&
      if box then m <= |s| && Front(v', m) && IsHullOf(q, v, o, s[..m])
      else forall a | 0 <= a < |q| && v[a] :: q[a] == o
  }

  /** The largest coordinates over all slots of all lanes. */
  method Largest(pts: array2<Pt>) returns (topX: int, topY: int)
    requires pts.Length0 == SLOTS && 0 < pts.Length1
    ensures forall i | 0 <= i < pts.Length1 :: Above(Col(pts, i), topX, topY)
  {
    topX, topY := pts[0, 0].x, pts[0, 0].y;
    for k := 0 to SLOTS
      invariant forall a, i | 0 <= a < k && 0 <= i < pts.Length1 :: pts[a, i].x <= topX && pts[a, i].y <= topY
    {
      for l := 0 to pts.Length1
        invariant forall a, i | 0 <= a < k && 0 <= i < pts.Length1 :: pts[a, i].x <= topX && pts[a, i].y <= topY
        invariant forall i | 0 <= i < l :: pts[k, i].x <= topX && pts[k, i].y <= topY
      {
        topX := if topX < pts[k, l].x then pts[k, l].x else topX;
        topY := if topY < pts[k, l].y then pts[k, l].y else topY;
      }
    }
  }

  /** Translate all lanes at once, and take the squared distances. */
  method Translate(intersect: array2<Pt>, ordered: array2<Pt>, dist: array2<int>, valid: array2<bool>,
                   validBox: array<bool>)
    returns (topX: int, topY: int)
    requires intersect.Length0 == ordered.Length0 == dist.Length0 == valid.Length0 == SLOTS && intersect != ordered
    requires 0 < intersect.Length1 == ordered.Length1 == dist.Length1 == valid.Length1 == validBox.Length
    modifies ordered, dist
    ensures forall i | 0 <= i < intersect.Length1 :: Above(Col(intersect, i), topX, topY)
    ensures forall i | 0 <= i < intersect.Length1 ::
              var (q, v) := (Col(intersect, i), Col(valid, i));
              Col(ordered, i) == Translated(q, v, OriginOf(q, v, topX, topY, validBox[i]))
              && Tracked(Col(ordered, i), Col(dist, i), v)
  {
    hide OriginOf, Norm, Above;
    topX, topY := Largest(intersect);
    forall k, i | 0 <= k < SLOTS && 0 <= i < intersect.Length1 {
      ordered[k, i] := if valid[k, i]
      then Minus(intersect[k, i], OriginOf(Col(intersect, i), Col(valid, i), topX, topY, validBox[i]))
      else Pt(0, 0);
    }
    forall k, i | 0 <= k < SLOTS && 0 <= i < intersect.Length1 {
      dist[k, i] := Norm(ordered[k, i]);
    }
    forall i | 0 <= i < intersect.Length1
      ensures var (q, v) := (Col(intersect, i), Col(valid, i));
              Col(ordered, i) == Translated(q, v, OriginOf(q, v, topX, topY, validBox[i]))
              && Tracked(Col(ordered, i), Col(dist, i), v)
    {
      ghost var q, v := Col(intersect, i), Col(valid, i);
      assert Col(ordered, i) == Translated(q, v, OriginOf(q, v, topX, topY, validBox[i]));
    }
  }

  lemma LaneIsDone(q: seq<Pt>, v: seq<bool>, topX: int, topY: int, s: seq<Pt>, v': seq<bool>, m: nat, box: bool)
    requires |q| == |v| && true in v && Above(q, topX, topY)
    requires HullOrPoint(s, v', m, box, Live(Translated(q, v, OriginOf(q, v, topX, topY, true)), v))
    ensures LaneDone(q, v, s, v', m, box)
  {
    hide Live, OriginOf, Above, IsHull, IsHullOf, Front, Translated;
    var o := OriginOf(q, v, topX, topY, true);
    OriginIsLowest(q, v, topX, topY);
    assert IsLowest(q, v, o);
    if box {
      HullOfTranslated(q, v, o, s[..m]);
    } else {
      forall a | 0 <= a < |q| && v[a] ensures q[a] == o {
        LiveTranslated(q, v, o, Minus(q[a], o));
      }
    }
  }

  method ConvexHullGraham(intersect: array2<Pt>, ordered: array2<Pt>, dist: array2<int>, valid: array2<bool>,
                          validBox: array<bool>, nums: array<nat>, boxNum: nat)
    requires intersect.Length0 == ordered.Length0 == dist.Length0 == valid.Length0 == SLOTS && intersect != ordered
    requires 0 < intersect.Length1 == ordered.Length1 == dist.Length1 == valid.Length1 == validBox.Length == nums.Length
    requires boxNum <= nums.Length
    requires forall i | 0 <= i < boxNum && validBox[i] :: 1 <= nums[i] == Count(Col(valid, i))
    modifies ordered, dist, valid, validBox, nums
    ensures forall i | 0 <= i < boxNum && old(validBox[i]) ::
              LaneDone(old(Col(intersect, i)), old(Col(valid, i)), Col(ordered, i), Col(valid, i), nums[i], validBox[i])
              && (!validBox[i] ==> nums[i] == old(nums[i]))
    ensures forall i | 0 <= i < nums.Length && !(i < boxNum && old(validBox[i])) ::
              validBox[i] == old(validBox[i]) && nums[i] == old(nums[i]) && Col(valid, i) == old(Col(valid, i))
  {
    hide OriginOf, Norm, Above, Live, HullOrPoint, Count, Upper, Tracked, LaneDone;
    var topX, topY := Translate(intersect, ordered, dist, valid, validBox);
    label translated:
    for i := 0 to boxNum
      invariant forall l | i <= l < nums.Length ::
                  && validBox[l] == old(validBox[l]) && nums[l] == old(nums[l])
                  && Col(valid, l) == old(Col(valid, l)) && Col(ordered, l) == old@translated(Col(ordered, l))
                  && Col(dist, l) == old@translated(Col(dist, l))
      invariant forall l | 0 <= l < i && old(validBox[l]) ::
                  LaneDone(old(Col(intersect, l)), old(Col(valid, l)), Col(ordered, l), Col(valid, l), nums[l],
                           validBox[l])
                  && (!validBox[l] ==> nums[l] == old(nums[l]))
      invariant forall l | 0 <= l < i && !old(validBox[l]) ::
                  validBox[l] == old(validBox[l]) && nums[l] == old(nums[l]) && Col(valid, l) == old(Col(valid, l))
    {
      ghost var p, v := Col(intersect, i), Col(valid, i);
      ghost var o := OriginOf(p, v, topX, topY, validBox[i]);
      if validBox[i] {
        CountPositive(v);
        TranslatedPoints(p, v, topX, topY);
        HullOfLane(ordered, dist, valid, validBox, nums, i, Translated(p, v, o), Col(dist, i), v);
        LaneIsDone(p, v, topX, topY, Col(ordered, i), Col(valid, i), nums[i], validBox[i]);
      }
    }
  }
}
