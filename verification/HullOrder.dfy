/**
 What happens to a lane's points before the scan: translation to the lowest point, leftmost among equals;
 compaction of the valid slots to the front; the origin moved to slot 0; an exchange sort by angle, then
 distance. Afterwards the front slots are a permutation of the translated valid points, origin first, sorted
 around it.
 */
module HullOrder {
  import opened Plane
  import opened HullScan

  // ----- Choosing the origin -----

  /** The least element, as the pooling instruction finds it. */
  function MinOf(s: seq<int>): (m: int)
    requires s != []
    ensures m in s && forall k | 0 <= k < |s| :: m <= s[k]
  {
    if |s| == 1 then s[0]
    else
      var rest := MinOf(s[1..]);
      assert forall k | 1 <= k < |s| :: s[k] == s[1..][k - 1];
      if s[0] <= rest then s[0] else rest
  }

  /** Invalid slots are pushed up to the largest value there is, so that they do not decide the minimum. */
  function MaskedY(q: seq<Pt>, v: seq<bool>, top: int): (ys: seq<int>)
    requires |q| == |v|
    ensures |ys| == |q|
  {
    seq(|q|, k requires 0 <= k < |q| => if v[k] then q[k].y else top)
  }

  /** Only valid slots at the least y take part in the choice of the least x. */
  function MaskedX(q: seq<Pt>, v: seq<bool>, top: int, topY: int, minY: int): (xs: seq<int>)
    requires |q| == |v|
    ensures |xs| == |q|
  {
    var ys := MaskedY(q, v, topY);
    seq(|q|, k requires 0 <= k < |q| => if ys[k] == minY && v[k] then q[k].x else top)
  }

  /** The point a lane is translated by; lanes of invalid boxes stay where they are. */
  function OriginOf(q: seq<Pt>, v: seq<bool>, topX: int, topY: int, box: bool): Pt
    requires |q| == |v| && q != []
  {
    if !box then Pt(0, 0)
    else
      var minY := MinOf(MaskedY(q, v, topY));
      Pt(MinOf(MaskedX(q, v, topX, topY, minY)), minY)
  }

  function Translated(q: seq<Pt>, v: seq<bool>, o: Pt): (t: seq<Pt>)
    requires |q| == |v|
    ensures |t| == |q|
  {
    seq(|q|, k requires 0 <= k < |q| => if v[k] then Minus(q[k], o) else Pt(0, 0))
  }

  /** Values at least as large as every coordinate of the lane. */
  ghost predicate Above(q: seq<Pt>, topX: int, topY: int) {
    forall k | 0 <= k < |q| :: q[k].x <= topX && q[k].y <= topY
  }

  /** The chosen origin is a valid point, and no valid point is lower, or as low and further left. */
  lemma OriginIsLowest(q: seq<Pt>, v: seq<bool>, topX: int, topY: int)
    requires |q| == |v| && Above(q, topX, topY) && true in v
    ensures var o := OriginOf(q, v, topX, topY, true);
            && (exists k | 0 <= k < |q| :: v[k] && q[k] == o)
            && forall k | 0 <= k < |q| && v[k] :: Upper(Minus(q[k], o))
  {
    var ys := MaskedY(q, v, topY);
    var minY := MinOf(ys);
    var w := LowestValid(q, v, topX, topY);
    var xs := MaskedX(q, v, topX, topY, minY);
    var minX := MinOf(xs);
    assert xs[w] == q[w].x;
    var k :| 0 <= k < |xs| && xs[k] == minX;
    var o := OriginOf(q, v, topX, topY, true);
    var best := if ys[k] == minY && v[k] then k else w;
    assert q[best] == o && v[best];
    forall k | 0 <= k < |q| && v[k] ensures Upper(Minus(q[k], o)) {
      assert ys[k] == q[k].y;
      if q[k].y == minY {
        assert xs[k] == q[k].x;
      }
    }
  }

  /** Some valid slot attains the masked minimum. */
  lemma LowestValid(q: seq<Pt>, v: seq<bool>, topX: int, topY: int) returns (w: nat)
    requires |q| == |v| && Above(q, topX, topY) && true in v
    ensures w < |q| && v[w] && q[w].y == MinOf(MaskedY(q, v, topY))
  {
    var ys := MaskedY(q, v, topY);
    var k :| 0 <= k < |ys| && ys[k] == MinOf(ys);
    var l :| 0 <= l < |v| && v[l];
    assert ys[l] == q[l].y;
    w := if v[k] then k else l;
  }

  // ----- The points in the valid slots -----

  function Live(q: seq<Pt>, v: seq<bool>): multiset<Pt>
    requires |q| == |v|
  {
    if q == [] then multiset{}
    else
      var n := |q| - 1;
      Live(q[..n], v[..n]) + if v[n] then multiset{q[n]} else multiset{}
  }

  function Count(v: seq<bool>): nat {
    if v == [] then 0 else Count(v[..|v| - 1]) + if v[|v| - 1] then 1 else 0
  }

  function OneIf(b: bool, p: Pt): multiset<Pt> { if b then multiset{p} else multiset{} }

  lemma {:induction false} LiveUpdate(q: seq<Pt>, v: seq<bool>, k: nat, p: Pt, b: bool)
    requires |q| == |v| && k < |q|
    ensures Live(q[k := p], v[k := b]) + OneIf(v[k], q[k]) == Live(q, v) + OneIf(b, p)
  {
    hide Live, OneIf;
    var n := |q| - 1;
    LiveSnoc(q, v);
    LiveSnoc(q[k := p], v[k := b]);
    if k < n {
      LiveUpdate(q[..n], v[..n], k, p, b);
      assert q[k := p][..n] == q[..n][k := p] && v[k := b][..n] == v[..n][k := b];
      AddLast(Live(q[k := p][..n], v[k := b][..n]), OneIf(v[k], q[k]), Live(q[..n], v[..n]), OneIf(b, p),
              OneIf(v[n], q[n]));
    } else {
      assert q[k := p][..n] == q[..n] && v[k := b][..n] == v[..n];
      SwapSum(Live(q[..n], v[..n]), OneIf(b, p), OneIf(v[k], q[k]));
    }
  }

  lemma LiveSnoc(q: seq<Pt>, v: seq<bool>)
    requires |q| == |v| && q != []
    ensures var n := |q| - 1; Live(q, v) == Live(q[..n], v[..n]) + OneIf(v[n], q[n])
  {
  }

  lemma SwapSum<T>(a: multiset<T>, x: multiset<T>, y: multiset<T>)
    ensures (a + x) + y == (a + y) + x
  {
  }

  lemma AddLast<T>(a: multiset<T>, x: multiset<T>, b: multiset<T>, y: multiset<T>, last: multiset<T>)
    requires a + x == b + y
    ensures (a + last) + x == (b + last) + y
  {
    assert (a + last) + x == (a + x) + last;
    assert (b + last) + y == (b + y) + last;
  }

  lemma {:induction false} CountUpdate(v: seq<bool>, k: nat, b: bool)
    requires k < |v|
    ensures Count(v[k := b]) + (if v[k] then 1 else 0) == Count(v) + (if b then 1 else 0)
  {
    var n := |v| - 1;
    if k < n {
      CountUpdate(v[..n], k, b);
      assert v[k := b][..n] == v[..n][k := b];
    } else {
      assert v[k := b][..n] == v[..n];
    }
  }

  /** No valid slot behind an invalid one. */
  ghost predicate FrontFull(v: seq<bool>) {
    forall a, b | 0 <= a < b < |v| :: v[b] ==> v[a]
  }

  /** Exactly the first c slots are valid. */
  ghost predicate Front(v: seq<bool>, c: nat) {
    c <= |v| && (forall k | 0 <= k < c :: v[k]) && forall k | c <= k < |v| :: !v[k]
  }

  lemma {:induction false} FrontEnd(v: seq<bool>) returns (c: nat)
    requires FrontFull(v)
    ensures Front(v, c)
  {
    c := 0;
    while c < |v| && v[c]
      invariant c <= |v| && forall k | 0 <= k < c :: v[k]
    {
      c := c + 1;
    }
  }

  lemma LiveStep(q: seq<Pt>, v: seq<bool>)
    requires |q| == |v| && q != []
    ensures var n := |q| - 1;
            Count(v) == Count(v[..n]) + (if v[n] then 1 else 0) &&
              Live(q, v) == Live(q[..n], v[..n]) + OneIf(v[n], q[n])
  {
  }

  lemma LiveNone()
    ensures Count([]) == 0 && Live([], []) == multiset{}
  {
  }

  lemma {:induction false} FrontLive(q: seq<Pt>, v: seq<bool>, c: nat)
    requires |q| == |v| && Front(v, c)
    ensures Count(v) == c && Live(q, v) == multiset(q[..c])
  {
    hide Count, Live;
    if q == [] {
      LiveNone();
      assert v == [];
    } else {
      var n := |q| - 1;
      LiveStep(q, v);
      if c == |v| {
        FrontLive(q[..n], v[..n], n);
        assert q[..n][..n] == q[..n] && q[..c] == q[..n] + [q[n]];
      } else {
        FrontLive(q[..n], v[..n], c);
        assert q[..n][..c] == q[..c];
      }
    }
  }

  /** Once the valid slots are in front, they are the first Count and hold exactly the valid points. */
  lemma FrontHolds(q: seq<Pt>, v: seq<bool>)
    requires |q| == |v| && FrontFull(v)
    ensures Front(v, Count(v)) && multiset(q[..Count(v)]) == Live(q, v)
  {
    var c := FrontEnd(v);
    FrontLive(q, v, c);
  }

  lemma {:induction false} LiveMember(q: seq<Pt>, v: seq<bool>, p: Pt)
    requires |q| == |v|
    ensures p in Live(q, v) <==> exists k :: 0 <= k < |q| && v[k] && q[k] == p
  {
    hide Count, Live;
    if q == [] {
      LiveNone();
      assert v == [];
    } else {
      var n := |q| - 1;
      LiveStep(q, v);
      LiveMember(q[..n], v[..n], p);
      if p in Live(q[..n], v[..n]) {
        var k :| 0 <= k < n && v[..n][k] && q[..n][k] == p;
        assert v[k] && q[k] == p;
      }
      if exists k :: 0 <= k < n && v[k] && q[k] == p {
        var k :| 0 <= k < n && v[k] && q[k] == p;
        assert v[..n][k] && q[..n][k] == p;
      }
    }
  }

  lemma {:induction false} CountPositive(v: seq<bool>)
    ensures 0 < Count(v) <==> true in v
  {
    if v != [] {
      var n := |v| - 1;
      CountPositive(v[..n]);
      assert v == v[..n] + [v[n]];
    }
  }

  /** After translation the valid points are in the half plane, the origin among them. */
  lemma TranslatedPoints(q: seq<Pt>, v: seq<bool>, topX: int, topY: int)
    requires |q| == |v| && Above(q, topX, topY) && true in v
    ensures var t := Translated(q, v, OriginOf(q, v, topX, topY, true));
            ORIGIN in Live(t, v) && forall p :: p in Live(t, v) ==> Upper(p)
  {
    var o := OriginOf(q, v, topX, topY, true);
    var t := Translated(q, v, o);
    OriginIsLowest(q, v, topX, topY);
    var k :| 0 <= k < |q| && v[k] && q[k] == o;
    assert t[k] == ORIGIN;
    LiveMember(t, v, ORIGIN);
    forall p | p in Live(t, v) ensures Upper(p) {
      LiveMember(t, v, p);
    }
  }

  // ----- Compaction -----

  /** dist holds the squared distances. */
  ghost predicate Tracked(q: seq<Pt>, d: seq<int>, v: seq<bool>) {
    |q| == |d| == |v| && forall k | 0 <= k < |q| :: d[k] == Norm(q[k])
  }

  /** Moving the point of valid slot b to slot a, which is not valid, keeps the lane's points. */
  lemma MoveKeepsLive(q: seq<Pt>, v: seq<bool>, a: nat, b: nat)
    requires |q| == |v| && a < b < |q| && !v[a] && v[b]
    ensures Live(q[a := q[b]][b := ORIGIN], v[a := true][b := false]) == Live(q, v)
    ensures Count(v[a := true][b := false]) == Count(v)
  {
    hide Live, Count;
    LiveUpdate(q, v, a, q[b], true);
    LiveUpdate(q[a := q[b]], v[a := true], b, ORIGIN, false);
    CountUpdate(v, a, true);
    CountUpdate(v[a := true], b, false);
    Cancel(Live(q[a := q[b]][b := ORIGIN], v[a := true][b := false]), Live(q, v), multiset{q[b]});
  }

  lemma Cancel<T>(a: multiset<T>, b: multiset<T>, c: multiset<T>)
    requires a + c == b + c
    ensures a == b
  {
    assert a == a + c - c && b == b + c - c;
  }

  /** Slots before n are valid, or nothing behind them is. */
  ghost predicate FrontFullTo(v: seq<bool>, n: nat) {
    forall a, b | 0 <= a < n && a < b < |v| :: v[b] ==> v[a]
  }

  /** The columns of a lane's buffers, as one fact. */
  ghost predicate LaneIs(pts: array2<Pt>, dist: array2<int>, valid: array2<bool>, i: nat, q: seq<Pt>, d: seq<int>,
                         v: seq<bool>)
    reads pts, dist, valid
  {
    && i < pts.Length1 && i < dist.Length1 && i < valid.Length1
    && pts.Length0 == dist.Length0 == valid.Length0 == SLOTS
    && q == Col(pts, i) && d == Col(dist, i) && v == Col(valid, i)
  }

  /** Move the point of slot jj to slot ii and clear slot jj. */
  method MoveUp(pts: array2<Pt>, dist: array2<int>, valid: array2<bool>, i: nat, ii: nat, jj: nat, ghost q: seq<Pt>,
                ghost d: seq<int>, ghost v: seq<bool>)
    requires LaneIs(pts, dist, valid, i, q, d, v) && ii < SLOTS && jj < SLOTS
    modifies pts, dist, valid
    ensures LaneIs(pts, dist, valid, i, q[ii := q[jj]][jj := ORIGIN], d[ii := d[jj]][jj := 0],
                   v[ii := true][jj := false])
    ensures OtherLanes(pts, i) && OtherLanes(dist, i) && OtherLanes(valid, i)
  {
    pts[ii, i] := pts[jj, i];
    dist[ii, i] := dist[jj, i];
    valid[ii, i] := true;
    pts[jj, i] := Pt(0, 0);
    dist[jj, i] := 0;
    valid[jj, i] := false;
    assert q[ii := q[jj]][jj := ORIGIN] == Col(pts, i);
    assert d[ii := d[jj]][jj := 0] == Col(dist, i);
    assert v[ii := true][jj := false] == Col(valid, i);
  }

  /** The first valid slot behind slot ii, if slot ii needs one. */
  method FindValid(valid: array2<bool>, i: nat, ii: nat) returns (jj: nat)
    requires valid.Length0 == SLOTS && i < valid.Length1 && ii < SLOTS
    ensures ii < jj <= SLOTS
    ensures jj < SLOTS ==> !valid[ii, i] && valid[jj, i]
    ensures jj == SLOTS ==> valid[ii, i] || forall b | ii < b < SLOTS :: !valid[b, i]
  {
    jj := ii + 1;
    while jj < SLOTS
      invariant ii < jj <= SLOTS
      invariant valid[ii, i] || forall b | ii < b < jj :: !valid[b, i]
    {
      if !valid[ii, i] && valid[jj, i] {
        return;
      }
      jj := jj + 1;
    }
  }

  /** Fill slot ii from the first valid slot behind it, if it needs one and there is one. */
  method FillSlot(pts: array2<Pt>, dist: array2<int>, valid: array2<bool>, i: nat, ii: nat, ghost q: seq<Pt>,
                  ghost d: seq<int>, ghost v: seq<bool>)
    returns (ghost q': seq<Pt>, ghost d': seq<int>, ghost v': seq<bool>)
    requires LaneIs(pts, dist, valid, i, q, d, v) && ii < SLOTS && Tracked(q, d, v) && FrontFullTo(v, ii)
    modifies pts, dist, valid
    ensures LaneIs(pts, dist, valid, i, q', d', v') && Tracked(q', d', v') && FrontFullTo(v', ii + 1)
    ensures Live(q', v') == Live(q, v) && Count(v') == Count(v)
    ensures OtherLanes(pts, i) && OtherLanes(dist, i) && OtherLanes(valid, i)
  {
    hide Live, Count, Tracked, FrontFullTo;
    q', d', v' := q, d, v;
    var jj := FindValid(valid, i, ii);
    if jj < SLOTS {
      MoveUp(pts, dist, valid, i, ii, jj, q, d, v);
      q', d', v' := q[ii := q[jj]][jj := ORIGIN], d[ii := d[jj]][jj := 0], v[ii := true][jj := false];
      MoveKeepsLive(q, v, ii, jj);
      MoveKeepsTracked(q, d, v, q', d', v', ii, jj);
      MoveKeepsFront(v, ii, jj);
    } else {
      FrontGrows(v, ii);
    }
  }

  lemma MoveKeepsTracked(q: seq<Pt>, d: seq<int>, v: seq<bool>, q': seq<Pt>, d': seq<int>, v': seq<bool>, ii: nat,
                         jj: nat)
    requires |q| == |d| == |v| && ii < jj < |v|
    requires q' == q[ii := q[jj]][jj := ORIGIN] && d' == d[ii := d[jj]][jj := 0] && v' == v[ii := true][jj := false]
    requires Tracked(q, d, v)
    ensures Tracked(q', d', v')
  {
    NormNonNegative(ORIGIN);
    hide Norm;
  }

  lemma MoveKeepsFront(v: seq<bool>, ii: nat, jj: nat)
    requires FrontFullTo(v, ii) && ii < jj < |v| && !v[ii] && v[jj]
    ensures FrontFullTo(v[ii := true][jj := false], ii + 1)
  {
  }

  lemma FrontGrows(v: seq<bool>, ii: nat)
    requires FrontFullTo(v, ii) && ii < |v| && (v[ii] || forall b | ii < b < |v| :: !v[b])
    ensures FrontFullTo(v, ii + 1)
  {
  }

  /** Bring the valid points to the front. */
  method Compact(pts: array2<Pt>, dist: array2<int>, valid: array2<bool>, i: nat, ghost q: seq<Pt>, ghost d: seq<int>,
                 ghost v: seq<bool>)
    returns (ghost q': seq<Pt>, ghost d': seq<int>, ghost v': seq<bool>)
    requires LaneIs(pts, dist, valid, i, q, d, v) && Tracked(q, d, v)
    modifies pts, dist, valid
    ensures LaneIs(pts, dist, valid, i, q', d', v') && Tracked(q', d', v') && FrontFull(v')
    ensures Live(q', v') == Live(q, v) && Count(v') == Count(v)
    ensures OtherLanes(pts, i) && OtherLanes(dist, i) && OtherLanes(valid, i)
  {
    hide Live, Count, Tracked;
    q', d', v' := q, d, v;
    for ii := 0 to SLOTS - 1
      invariant LaneIs(pts, dist, valid, i, q', d', v') && Tracked(q', d', v') && FrontFullTo(v', ii)
      invariant Live(q', v') == Live(q, v) && Count(v') == Count(v)
      invariant OtherLanes(pts, i) && OtherLanes(dist, i) && OtherLanes(valid, i)
    {
      q', d', v' := FillSlot(pts, dist, valid, i, ii, q', d', v');
    }
  }

  // ----- The origin to slot 0 -----

  ghost predicate Dists(q: seq<Pt>, d: seq<int>) {
    |q| == |d| && forall k | 0 <= k < |q| :: d[k] == Norm(q[k])
  }

  lemma SwapKeepsPoints(q: seq<Pt>, a: nat, b: nat, n: nat)
    requires a < n <= |q| && b < n
    ensures multiset(q[a := q[b]][b := q[a]][..n]) == multiset(q[..n])
  {
    var s := q[..n];
    assert q[a := q[b]][b := q[a]][..n] == s[a := s[b]][b := s[a]];
  }

  /** The first slot behind slot 0 at distance 0 from the origin. */
  method FindOrigin(dist: array2<int>, i: nat, n: nat) returns (ii: nat)
    requires dist.Length0 == SLOTS && i < dist.Length1 && 1 <= n <= SLOTS
    ensures 1 <= ii <= n && (ii < n ==> dist[ii, i] == 0) && forall k | 1 <= k < ii :: dist[k, i] != 0
  {
    ii := 1;
    while ii < n
      invariant 1 <= ii <= n && forall k | 1 <= k < ii :: dist[k, i] != 0
    {
      if dist[ii, i] == 0 {
        return;
      }
      ii := ii + 1;
    }
  }

  /** Exchange the first point found at the origin with slot 0. */
  method OriginFirst(pts: array2<Pt>, dist: array2<int>, i: nat, n: nat, ghost q: seq<Pt>, ghost d: seq<int>)
    returns (ghost q': seq<Pt>, ghost d': seq<int>)
    requires pts.Length0 == dist.Length0 == SLOTS && i < pts.Length1 && i < dist.Length1 && 1 <= n <= SLOTS
    requires q == Col(pts, i) && d == Col(dist, i) && Dists(q, d) && ORIGIN in q[..n]
    modifies pts, dist
    ensures q' == Col(pts, i) && d' == Col(dist, i) && Dists(q', d')
    ensures q'[0] == ORIGIN && multiset(q'[..n]) == multiset(q[..n])
    ensures OtherLanes(pts, i) && OtherLanes(dist, i)
  {
    hide Dists, Norm;
    q', d' := q, d;
    var ii := FindOrigin(dist, i, n);
    if ii < n {
      pts[ii, i] := pts[0, i];
      dist[ii, i] := dist[0, i];
      pts[0, i] := Pt(0, 0);
      dist[0, i] := 0;
      AtOrigin(q, d, ii);
      q', d' := q[ii := q[0]][0 := q[ii]], d[ii := d[0]][0 := d[ii]];
      assert q' == Col(pts, i) && d' == Col(dist, i);
      SwapKeepsPoints(q, ii, 0, n);
      SwapKeepsDists(q, d, ii, 0);
    } else {
      OriginAlreadyFirst(q, d, n);
    }
  }

  lemma AtOrigin(q: seq<Pt>, d: seq<int>, k: nat)
    requires Dists(q, d) && k < |q|
    ensures d[k] == 0 <==> q[k] == ORIGIN
  {
    NormNonNegative(q[k]);
  }

  lemma SwapKeepsDists(q: seq<Pt>, d: seq<int>, a: nat, b: nat)
    requires Dists(q, d) && a < |q| && b < |q|
    ensures Dists(q[a := q[b]][b := q[a]], d[a := d[b]][b := d[a]])
  {
  }

  lemma OriginAlreadyFirst(q: seq<Pt>, d: seq<int>, n: nat)
    requires n <= |q| == |d| && ORIGIN in q[..n] && forall k | 1 <= k < n :: d[k] != 0
    requires Dists(q, d)
    ensures q[0] == ORIGIN
  {
    hide Norm;
    var s := q[..n];
    var k :| 0 <= k < |s| && s[k] == ORIGIN;
    AtOrigin(q, d, k);
  }

  // ----- The exchange sort -----

  ghost predicate AllUpper(q: seq<Pt>, n: nat) {
    n <= |q| && forall k | 0 <= k < n :: Upper(q[k])
  }

  /** Slots 1 to m-1 are final: nothing behind them comes before them. */
  ghost predicate SortedTo(q: seq<Pt>, m: int, n: nat) {
    n <= |q| && forall a, b | 1 <= a < m && a < b < n :: Upto(q[a], q[b])
  }

  ghost predicate LeastTo(q: seq<Pt>, a: nat, m: int) {
    a < |q| && m <= |q| && forall b | a < b < m :: Upto(q[a], q[b])
  }

  /** One exchange of the sort. */
  lemma ExchangeStep(q: seq<Pt>, ii: nat, jj: nat, n: nat)
    requires 1 <= ii < jj < n <= |q| && AllUpper(q, n) && SortedTo(q, ii, n) && LeastTo(q, ii, jj)
    ensures var q' := if Swaps(q[ii], q[jj]) then q[ii := q[jj]][jj := q[ii]] else q;
            AllUpper(q', n) && SortedTo(q', ii, n) && LeastTo(q', ii, jj + 1)
  {
    hide Swaps, Upper;
    if Swaps(q[ii], q[jj]) {
      UptoTotal(q[ii], q[jj]);
      forall b | ii < b < jj ensures Upto(q[jj], q[b]) {
        UptoTransitive(q[jj], q[ii], q[b]);
      }
    }
  }

  lemma StartSort(q: seq<Pt>, n: nat)
    requires n <= |q|
    ensures SortedTo(q, 1, n)
  {
  }

  lemma NextSlot(q: seq<Pt>, ii: nat, n: nat)
    requires 1 <= ii < n <= |q| && SortedTo(q, ii, n) && LeastTo(q, ii, n)
    ensures SortedTo(q, ii + 1, n)
  {
    hide Upto;
  }

  method Exchange(pts: array2<Pt>, dist: array2<int>, i: nat, ii: nat, jj: nat, ghost q: seq<Pt>, ghost d: seq<int>)
    requires pts.Length0 == dist.Length0 == SLOTS && i < pts.Length1 && i < dist.Length1 && ii < jj < SLOTS
    requires q == Col(pts, i) && d == Col(dist, i)
    modifies pts, dist
    ensures Col(pts, i) == q[ii := q[jj]][jj := q[ii]] && Col(dist, i) == d[ii := d[jj]][jj := d[ii]]
    ensures OtherLanes(pts, i) && OtherLanes(dist, i)
  {
    var temp1, temp2 := pts[ii, i], pts[jj, i];
    var tempDist1, tempDist2 := dist[ii, i], dist[jj, i];
    pts[ii, i] := temp2;
    pts[jj, i] := temp1;
    dist[ii, i] := tempDist2;
    dist[jj, i] := tempDist1;
    assert q[ii := q[jj]][jj := q[ii]] == Col(pts, i);
    assert d[ii := d[jj]][jj := d[ii]] == Col(dist, i);
  }

  /** The lane's points during the search for slot ii, once slots up to jj-1 have been compared with it. */
  ghost predicate Selecting(q: seq<Pt>, d: seq<int>, ii: nat, jj: int, n: nat) {
    Dists(q, d) && AllUpper(q, n) && SortedTo(q, ii, n) && LeastTo(q, ii, jj)
  }

  /** Exchange the points of slots ii and jj if the second comes before the first. */
  method CompareExchange(pts: array2<Pt>, dist: array2<int>, i: nat, ii: nat, jj: nat, ghost n: nat, ghost q: seq<Pt>,
                         ghost d: seq<int>)
    returns (ghost q': seq<Pt>, ghost d': seq<int>)
    requires pts.Length0 == dist.Length0 == SLOTS && i < pts.Length1 && i < dist.Length1 && 1 <= ii < jj < n <= SLOTS
    requires q == Col(pts, i) && d == Col(dist, i) && Selecting(q, d, ii, jj, n)
    modifies pts, dist
    ensures q' == Col(pts, i) && d' == Col(dist, i) && Selecting(q', d', ii, jj + 1, n)
    ensures multiset(q'[..n]) == multiset(q[..n]) && q'[0] == q[0]
    ensures OtherLanes(pts, i) && OtherLanes(dist, i)
  {
    var temp := pts[ii, i].x * pts[jj, i].y - pts[ii, i].y * pts[jj, i].x;
    assert temp == Cross(q[ii], q[jj]) && dist[ii, i] == Norm(q[ii]) && dist[jj, i] == Norm(q[jj]);
    hide Cross, Norm, AllUpper, SortedTo, LeastTo, Dists, Upto;
    ExchangeStep(q, ii, jj, n);
    q', d' := q, d;
    if temp < 0 || (temp == 0 && dist[ii, i] > dist[jj, i]) {
      Exchange(pts, dist, i, ii, jj, q, d);
      SwapKeepsPoints(q, ii, jj, n);
      SwapKeepsDists(q, d, ii, jj);
      q', d' := q[ii := q[jj]][jj := q[ii]], d[ii := d[jj]][jj := d[ii]];
    }
  }

  /** Put the least of the points from slot ii on into slot ii. */
  method SelectSlot(pts: array2<Pt>, dist: array2<int>, i: nat, ii: nat, n: nat, ghost q: seq<Pt>, ghost d: seq<int>)
    returns (ghost q': seq<Pt>, ghost d': seq<int>)
    requires pts.Length0 == dist.Length0 == SLOTS && i < pts.Length1 && i < dist.Length1 && 1 <= ii < n <= SLOTS
    requires q == Col(pts, i) && d == Col(dist, i) && Dists(q, d) && AllUpper(q, n) && SortedTo(q, ii, n)
    modifies pts, dist
    ensures q' == Col(pts, i) && d' == Col(dist, i) && Dists(q', d') && AllUpper(q', n) && SortedTo(q', ii + 1, n)
    ensures multiset(q'[..n]) == multiset(q[..n]) && q'[0] == q[0]
    ensures OtherLanes(pts, i) && OtherLanes(dist, i)
  {
    hide AllUpper, SortedTo, LeastTo, Upto, Dists;
    q', d' := q, d;
    LeastStart(q, ii);
    for jj := ii + 1 to n
      invariant q' == Col(pts, i) && d' == Col(dist, i) && Selecting(q', d', ii, jj, n)
      invariant multiset(q'[..n]) == multiset(q[..n]) && q'[0] == q[0]
      invariant OtherLanes(pts, i) && OtherLanes(dist, i)
    {
      q', d' := CompareExchange(pts, dist, i, ii, jj, n, q', d');
    }
    NextSlot(q', ii, n);
  }

  lemma LeastStart(q: seq<Pt>, a: nat)
    requires a < |q|
    ensures LeastTo(q, a, a + 1)
  {
  }

  /** Sort slots 1 to n-1 by angle, then by distance. */
  method ExchangeSort(pts: array2<Pt>, dist: array2<int>, i: nat, n: nat, ghost q: seq<Pt>, ghost d: seq<int>)
    returns (ghost q': seq<Pt>, ghost d': seq<int>)
    requires pts.Length0 == dist.Length0 == SLOTS && i < pts.Length1 && i < dist.Length1 && 1 <= n <= SLOTS
    requires q == Col(pts, i) && d == Col(dist, i) && Dists(q, d) && AllUpper(q, n)
    modifies pts, dist
    ensures q' == Col(pts, i) && d' == Col(dist, i) && Dists(q', d') && AllUpper(q', n) && SortedTo(q', n, n)
    ensures multiset(q'[..n]) == multiset(q[..n]) && q'[0] == q[0]
    ensures OtherLanes(pts, i) && OtherLanes(dist, i)
  {
    hide AllUpper, SortedTo, Dists;
    q', d' := q, d;
    StartSort(q, n);
    var ii := 1;
    while ii < n - 1
      invariant 1 <= ii && (ii <= n - 1 || ii == 1)
      invariant q' == Col(pts, i) && d' == Col(dist, i) && Dists(q', d') && AllUpper(q', n) && SortedTo(q', ii, n)
      invariant multiset(q'[..n]) == multiset(q[..n]) && q'[0] == q[0]
      invariant OtherLanes(pts, i) && OtherLanes(dist, i)
    {
      q', d' := SelectSlot(pts, dist, i, ii, n, q', d');
      ii := ii + 1;
    }
    LastSlot(q', ii, n);
  }

  /** A single point that is left is in its place. */
  lemma LastSlot(q: seq<Pt>, ii: nat, n: nat)
    requires n <= |q| && n <= ii + 1 && SortedTo(q, ii, n)
    ensures SortedTo(q, n, n)
  {
  }
}
