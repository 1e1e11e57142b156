/**
 The area of every lane's hull, all lanes at once: the fan loop runs as long as the largest hull needs, and masks
 keep it from adding to lanes that are done. Each valid lane ends with the shoelace area of its own hull, each
 invalid lane with 0.
 */
module PolygonArea {
  import opened Plane
  import opened HullScan
  import opened HullOrder
  import opened Hull

  function Abs(a: int): int { if a < 0 then -a else a }

  /** Twice the area of the triangles s[0], s[t], s[t+1] for t from 1 to n-1. */
  function Fans(s: seq<Pt>, n: nat): int
    requires n < |s| || n <= 1
  {
    if n <= 1 then 0 else Fans(s, n - 1) + Abs(Left(s[0], s[n - 1], s[n]))
  }

  /** The sum of cross products of consecutive corners up to corner n. */
  function Turns(s: seq<Pt>, n: nat): int
    requires n < |s|
  {
    if n == 0 then 0 else Turns(s, n - 1) + Cross(s[n - 1], s[n])
  }

  /** Twice the signed area of a polygon: the shoelace formula. */
  function Shoelace(s: seq<Pt>): int
    requires s != []
  {
    Turns(s, |s| - 1) + Cross(s[|s| - 1], s[0])
  }

  /** For a rectangle that is twice the product of its sides. */
  lemma ShoelaceOfRectangle(x: int, y: int, w: int, h: int)
    ensures Shoelace([Pt(x, y), Pt(x + w, y), Pt(x + w, y + h), Pt(x, y + h)]) == 2 * (w * h)
  {
    var s := [Pt(x, y), Pt(x + w, y), Pt(x + w, y + h), Pt(x, y + h)];
    assert Turns(s, 0) == 0;
    assert Turns(s, 1) == Cross(s[0], s[1]);
    assert Turns(s, 3) == Cross(s[0], s[1]) + Cross(s[1], s[2]) + Cross(s[2], s[3]);
  }

  /** Triangles of a hull fan out without overlap: their areas add up to the shoelace sum. */
  lemma {:induction false} FansAreTurns(s: seq<Pt>, ps: multiset<Pt>, n: nat)
    requires IsHull(s, ps) && 1 <= n < |s|
    ensures Fans(s, n) == Turns(s, n) + Cross(s[n], s[0])
  {
    hide Cross, Left, Turning, Distinct, Within;
    if n == 1 {
      CrossAnti(s[0], s[1]);
      assert Turns(s, 0) == 0;
    } else {
      FansAreTurns(s, ps, n - 1);
      assert s[0] in ps && After(s, n - 1) == n;
      assert Left(s[n - 1], s[n], s[0]) >= 0;
      LeftSum(s[0], s[n - 1], s[n]);
      LeftSum(s[n - 1], s[n], s[0]);
      CrossAnti(s[0], s[n - 1]);
    }
  }

  lemma HullLength(s: seq<Pt>, ps: multiset<Pt>)
    requires IsHull(s, ps)
    ensures 2 <= |s|
  {
    hide Surrounds, Turning, Distinct, Within;
  }

  lemma HullArea(s: seq<Pt>, ps: multiset<Pt>)
    requires IsHull(s, ps)
    ensures 2 <= |s| && Fans(s, |s| - 1) == Shoelace(s)
  {
    hide IsHull, Fans, Turns, Cross;
    HullLength(s, ps);
    FansAreTurns(s, ps, |s| - 1);
  }

  /** A hull with at least three corners has positive area. */
  lemma {:induction false} FansGrow(s: seq<Pt>, n: nat)
    requires n < |s|
    ensures 0 <= Fans(s, n) && (2 <= n ==> Abs(Left(s[0], s[1], s[2])) <= Fans(s, n))
  {
    if n > 1 {
      FansGrow(s, n - 1);
    }
  }

  lemma HullAreaPositive(s: seq<Pt>, ps: multiset<Pt>)
    requires IsHull(s, ps) && 3 <= |s|
    ensures 0 < Shoelace(s)
  {
    hide Left, Cross, Surrounds, Distinct, Within;
    HullArea(s, ps);
    FansGrow(s, |s| - 1);
    assert After(s, 0) == 1 && After(s, 1) == 2;
    assert Left(s[0], s[After(s, 0)], s[After(s, After(s, 0))]) > 0;
  }

  // ----- The lane-parallel loop -----

  function Bit(b: bool): int { if b then 1 else 0 }

  /** What iteration t adds to a lane: differences masked by the mark of slot t+1. */
  function FanTerm(q0: Pt, qt: Pt, qn: Pt, mark: bool): int {
    var t5, t6 := (qt.x - q0.x) * Bit(mark), (qt.y - q0.y) * Bit(mark);
    var t7, t8 := (qn.x - q0.x) * Bit(mark), (qn.y - q0.y) * Bit(mark);
    Abs(t5 * t8 - t6 * t7)
  }

  lemma FanTermIs(q0: Pt, qt: Pt, qn: Pt, mark: bool)
    ensures FanTerm(q0, qt, qn, mark) == if mark then Abs(Left(q0, qt, qn)) else 0
  {
    if mark {
      assert (qt.x - q0.x) * 1 == qt.x - q0.x && (qt.y - q0.y) * 1 == qt.y - q0.y;
      assert (qn.x - q0.x) * 1 == qn.x - q0.x && (qn.y - q0.y) * 1 == qn.y - q0.y;
    }
  }

  /** How far a lane with m corners has come after iterations 1 to t-1. */
  function Progress(t: nat, m: nat): nat { if t < m then t else if m == 0 then 0 else m - 1 }

  /** One more iteration for one lane. */
  lemma OneTerm(q: seq<Pt>, v: seq<bool>, m: nat, t: nat)
    requires |q| == |v| && 1 <= t && t + 1 < |q| && Front(v, m)
    ensures Fans(q[..m], Progress(t, m)) + FanTerm(q[0], q[t], q[t + 1], v[t + 1]) == Fans(q[..m], Progress(t + 1, m))
  {
    hide Left;
    FanTermIs(q[0], q[t], q[t + 1], v[t + 1]);
    hide FanTerm;
    assert v[t + 1] <==> t + 1 < m;
  }

  method MaxNum(nums: array<nat>) returns (max: nat)
    requires 0 < nums.Length
    ensures max in nums[..] && forall l | 0 <= l < nums.Length :: nums[l] <= max
  {
    max := nums[0];
    for l := 1 to nums.Length
      invariant max in nums[..] && forall a | 0 <= a < l :: nums[a] <= max
    {
      if max < nums[l] {
        max := nums[l];
      }
    }
  }

  /** A lane's hull fills its marked slots. */
  ghost predicate LaneReady(q: seq<Pt>, v: seq<bool>, m: nat) {
    |q| == |v| == SLOTS && Front(v, m)
  }

  /** One iteration on all lanes at once. */
  method AddFan(ordered: array2<Pt>, valid: array2<bool>, twice: array<int>, t: nat)
    requires ordered.Length0 == valid.Length0 == SLOTS && ordered.Length1 == valid.Length1 == twice.Length &&
             t + 1 < SLOTS
    modifies twice
    ensures forall l | 0 <= l < twice.Length ::
              twice[l] == old(twice[l]) + FanTerm(ordered[0, l], ordered[t, l], ordered[t + 1, l], valid[t + 1, l])
  {
    hide FanTerm;
    forall l | 0 <= l < twice.Length {
      twice[l] := twice[l] + FanTerm(ordered[0, l], ordered[t, l], ordered[t + 1, l], valid[t + 1, l]);
    }
  }

  /** What the sum of lane l has come to before iteration t. */
  ghost predicate LaneSum(ordered: array2<Pt>, valid: array2<bool>, l: nat, m: nat, t: nat, sum: int)
    requires l < ordered.Length1 && l < valid.Length1
    reads ordered, valid
  {
    LaneReady(Col(ordered, l), Col(valid, l), m) && sum == Fans(Col(ordered, l)[..m], Progress(t, m))
  }

  lemma NextSum(ordered: array2<Pt>, valid: array2<bool>, l: nat, m: nat, t: nat, sum: int)
    requires l < ordered.Length1 && l < valid.Length1 && 1 <= t && t + 1 < SLOTS
    requires LaneSum(ordered, valid, l, m, t, sum)
    ensures ordered.Length0 == valid.Length0 == SLOTS
    ensures LaneSum(ordered, valid, l, m, t + 1,
                    sum + FanTerm(ordered[0, l], ordered[t, l], ordered[t + 1, l], valid[t + 1, l]))
  {
    hide FanTerm, Fans;
    OneTerm(Col(ordered, l), Col(valid, l), m, t);
  }

  method LaneAreas(ordered: array2<Pt>, valid: array2<bool>, validBox: array<bool>, nums: array<nat>, twice: array<int>)
    requires ordered.Length0 == valid.Length0 == SLOTS
    requires 0 < ordered.Length1 == valid.Length1 == validBox.Length == nums.Length == twice.Length
    requires forall l | 0 <= l < nums.Length :: nums[l] <= SLOTS
    requires forall l | 0 <= l < nums.Length && validBox[l] :: LaneReady(Col(ordered, l), Col(valid, l), nums[l])
    modifies validBox, twice
    ensures forall l | 0 <= l < nums.Length :: validBox[l] == (old(validBox[l]) && 2 < nums[l])
    ensures forall l | 0 <= l < nums.Length ::
              twice[l] == if validBox[l] then Fans(Col(ordered, l)[..nums[l]], nums[l] - 1) else 0
  {
    hide Front, Fans, FanTerm;
    forall l | 0 <= l < nums.Length {
      validBox[l] := validBox[l] && !(nums[l] <= 2);
    }
    forall l | 0 <= l < twice.Length {
      twice[l] := 0;
    }
    var max := MaxNum(nums);
    var t := 1;
    FansStart();
    hide LaneReady, Progress;
    while t + 1 < max
      invariant 1 <= t && (t + 1 <= max || t == 1)
      invariant forall l | 0 <= l < nums.Length :: validBox[l] == (old(validBox[l]) && 2 < nums[l])
      invariant forall l | 0 <= l < nums.Length && validBox[l] :: LaneSum(ordered, valid, l, nums[l], t, twice[l])
    {
      forall l | 0 <= l < nums.Length && validBox[l]
        ensures LaneSum(ordered, valid, l, nums[l], t + 1,
                        twice[l] + FanTerm(ordered[0, l], ordered[t, l], ordered[t + 1, l], valid[t + 1, l]))
      {
        NextSum(ordered, valid, l, nums[l], t, twice[l]);
      }
      AddFan(ordered, valid, twice, t);
      t := t + 1;
    }
    forall l | 0 <= l < nums.Length && validBox[l]
      ensures twice[l] == Fans(Col(ordered, l)[..nums[l]], nums[l] - 1)
    {
      ProgressEnds(t, nums[l]);
    }
    forall l | 0 <= l < twice.Length {
      twice[l] := twice[l] * Bit(validBox[l]);
    }
  }

  lemma ProgressEnds(t: nat, m: nat)
    requires 2 < m <= t + 1
    ensures Progress(t, m) == m - 1
  {
  }

  lemma FansStart()
    ensures forall s: seq<Pt> | 2 < |s| :: Fans(s, 1) == 0
    ensures forall m: nat | 2 < m :: Progress(1, m) == 1
  {
  }

  // ----- Hull and area together -----

  /** twice is twice the area of the hull of the lane's points q with marks v, or 0 if they are all the same. */
  ghost predicate HasArea(q: seq<Pt>, v: seq<bool>, twice: int) {
    exists o ::
      IsLowest(q, v, o) &&
      if forall a | 0 <= a < |q| && v[a] :: q[a] == o then twice == 0
      else exists h :: IsHullOf(q, v, o, h) && twice == Shoelace(h)
  }

  lemma DoneIsReady(q: seq<Pt>, v: seq<bool>, s: seq<Pt>, v': seq<bool>, m: nat)
    requires LaneDone(q, v, s, v', m, true) && |s| == |v'| == SLOTS
    ensures LaneReady(s, v', m) && m <= SLOTS
  {
    hide IsHull, Live, Translated;
    var o :| IsLowest(q, v, o) && m <= |s| && Front(v', m) && IsHullOf(q, v, o, s[..m]);
    HullOfTranslated(q, v, o, s[..m]);
    hide IsHullOf;
  }

  lemma DoneHasArea(q: seq<Pt>, v: seq<bool>, s: seq<Pt>, v': seq<bool>, m: nat, box: bool, twice: int)
    requires LaneDone(q, v, s, v', m, box)
    requires box && m <= |s| ==> twice == if 2 < m then Fans(s[..m], m - 1) else 0
    requires !box ==> twice == 0
    ensures HasArea(q, v, twice)
  {
    hide IsHull, Live, Translated, Front, Fans, Shoelace;
    var o :|
      IsLowest(q, v, o) &&
      if box then m <= |s| && Front(v', m) && IsHullOf(q, v, o, s[..m])
      else forall a | 0 <= a < |q| && v[a] :: q[a] == o;
    if box {
      HullOfTranslated(q, v, o, s[..m]);
      HullFans(s[..m], Live(Translated(q, v, o), v));
      NotAllSame(q, v, o, s[..m]);
    }
  }

  /** A hull has two corners, so the points are not all the same. */
  lemma NotAllSame(q: seq<Pt>, v: seq<bool>, o: Pt, h: seq<Pt>)
    requires |q| == |v| && IsHullOf(q, v, o, h)
    ensures exists a | 0 <= a < |q| && v[a] :: q[a] != o
  {
    hide Left, Norm;
    assert h[0] != h[1];
    var k := if h[0] != ORIGIN then 0 else 1;
    var a :| 0 <= a < |q| && v[a] && h[k] == Minus(q[a], o);
    assert q[a] != o;
  }

  lemma HullFans(s: seq<Pt>, ps: multiset<Pt>)
    requires IsHull(s, ps)
    ensures 2 <= |s| && Shoelace(s) == if 2 < |s| then Fans(s, |s| - 1) else 0
  {
    hide IsHull, Turns, Cross;
    HullArea(s, ps);
    if |s| == 2 {
      assert Fans(s, 1) == 0;
    }
  }

  /** A valid lane ends with twice the area of the hull of its points, every other lane with 0. */
  method HullAreas(intersect: array2<Pt>, ordered: array2<Pt>, dist: array2<int>, valid: array2<bool>,
                   validBox: array<bool>, nums: array<nat>, twice: array<int>, boxNum: nat)
    requires intersect.Length0 == ordered.Length0 == dist.Length0 == valid.Length0 == SLOTS && intersect != ordered
    requires 0 < intersect.Length1 == ordered.Length1 == dist.Length1 == valid.Length1 == validBox.Length
    requires validBox.Length == nums.Length == twice.Length && boxNum <= nums.Length
    requires forall i | 0 <= i < nums.Length :: nums[i] <= SLOTS && (boxNum <= i ==> !validBox[i])
    requires forall i | 0 <= i < boxNum && validBox[i] :: 1 <= nums[i] == Count(Col(valid, i))
    modifies ordered, dist, valid, validBox, nums, twice
    ensures forall i | 0 <= i < boxNum && old(validBox[i]) ::
            HasArea(old(Col(intersect, i)), old(Col(valid, i)), twice[i])
    ensures forall i | 0 <= i < nums.Length && !old(validBox[i]) :: twice[i] == 0
  {
    hide HasArea, LaneDone, Fans, LaneReady, Count;
    ConvexHullGraham(intersect, ordered, dist, valid, validBox, nums, boxNum);
    forall l | 0 <= l < boxNum && old(validBox[l]) && validBox[l]
      ensures LaneReady(Col(ordered, l), Col(valid, l), nums[l]) && nums[l] <= SLOTS
    {
      DoneIsReady(old(Col(intersect, l)), old(Col(valid, l)), Col(ordered, l), Col(valid, l), nums[l]);
    }
    label hulls:
    LaneAreas(ordered, valid, validBox, nums, twice);
    forall l | 0 <= l < boxNum && old(validBox[l])
      ensures HasArea(old(Col(intersect, l)), old(Col(valid, l)), twice[l])
    {
      DoneHasArea(old(Col(intersect, l)), old(Col(valid, l)), Col(ordered, l), Col(valid, l), nums[l],
                  old@hulls(validBox[l]), twice[l]);
    }
  }
}
