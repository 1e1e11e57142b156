/**
 The scan of the convex hull: a stack kept in the front slots of the point column, popped while the next point
 does not turn left, then overwritten one slot at a time. The points come sorted around the origin.

 The main result, in the contract of Scan: the stack is a strictly convex chain out of the points it was given,
 and every one of those points lies on the inner side of all its edges.
 */
module HullScan {
  import opened Plane

  /** The lanes of a buffer of 24 slots; slot k of lane i is a[k, i]. */
  const SLOTS: nat := 24

  function Col<T(!new)>(a: array2<T>, i: nat): (q: seq<T>)
    requires i < a.Length1
    reads a
    ensures |q| == a.Length0 && forall k | 0 <= k < |q| :: q[k] == a[k, i]
  {
    seq(a.Length0, k requires 0 <= k < a.Length0 reads a => a[k, i])
  }

  /** Lanes other than i hold what they held. */
  twostate predicate OtherLanes<T(!new)>(a: array2<T>, i: nat)
    reads a
  {
    forall k, l | 0 <= k < a.Length0 && 0 <= l < a.Length1 && l != i :: a[k, l] == old(a[k, l])
  }

  // ----- Chains -----

  /** A stack: out from the origin, strictly further round every time, turning left every time. */
  ghost predicate Chain(s: seq<Pt>) {
    && s != [] && s[0] == ORIGIN
    && (forall a | 1 <= a < |s| :: Upper(s[a]) && s[a] != ORIGIN)
    && (forall a, b | 1 <= a < b < |s| :: Cross(s[a], s[b]) > 0)
    && (forall i | 2 <= i < |s| :: Left(s[i - 2], s[i - 1], s[i]) > 0)
  }

  /** p is on the inner side of every edge of the stack. */
  ghost predicate Covers(s: seq<Pt>, p: Pt) {
    forall i | 1 <= i < |s| :: Left(s[i - 1], s[i], p) >= 0
  }

  /** p, if not before the top of the stack, is on the inner side of the edge from there to b. */
  ghost predicate Beyond(s: seq<Pt>, b: Pt, p: Pt)
    requires s != []
  {
    var top := s[|s| - 1];
    Cross(top, p) >= 0 ==> Left(top, b, p) >= 0
  }

  lemma ChainPrefix(s: seq<Pt>, n: nat)
    requires Chain(s) && 1 <= n <= |s|
    ensures Chain(s[..n])
  {
  }

  lemma CoversPrefix(s: seq<Pt>, n: nat, p: Pt)
    requires Covers(s, p) && n <= |s|
    ensures Covers(s[..n], p)
  {
  }

  // ----- One pop -----

  /** Popping v between u and b leaves p on the inner side of the edge from u to b. */
  lemma PopKeepsInside(u: Pt, v: Pt, b: Pt, p: Pt)
    requires Cross(u, v) > 0 && Cross(u, b) >= 0 && Cross(u, p) >= 0
    requires Left(u, v, b) <= 0 && Left(u, v, p) >= 0
    ensures Left(u, b, p) >= 0
  {
    hide Cross, Left, Dot, Norm, Minus;
    TurnIdentity(u, b, u, v, p);
    LeftSum(u, v, b);
    LeftSum(u, b, v);
    assert Left(u, b, u) == 0 && Cross(p, v) * Left(u, b, u) == 0 by {
      LeftSum(u, b, u);
      CrossAnti(u, u);
      CrossAnti(u, b);
    }
    ProductSign(Left(u, v, p), Cross(u, b));
    ProductSign(Cross(u, p), -Left(u, v, b));
    ProductSign(Cross(u, v), Left(u, b, p));
  }

  /** A point in v's direction has the same points to its left. */
  lemma SameSideOf(v: Pt, b: Pt, p: Pt)
    requires Upper(v) && Upper(b) && v != ORIGIN && b != ORIGIN && Cross(v, b) == 0 && Cross(v, p) >= 0
    ensures Cross(b, p) >= 0
  {
    hide Cross, Left, Dot, Norm, Minus;
    SameDirection(v, b);
    NormNonNegative(v);
    AlongIdentity(p, v, b);
    CrossAnti(p, v);
    CrossAnti(p, b);
    ProductSign(Cross(v, p), Dot(v, b));
    ProductSign(Norm(v), Cross(b, p));
    assert Dot(p, v) * Cross(v, b) == 0;
  }

  lemma FromOrigin(b: Pt, p: Pt)
    ensures Left(ORIGIN, b, p) == Cross(b, p)
  {
  }

  lemma PopStep(s: seq<Pt>, b: Pt, p: Pt)
    requires |s| >= 2 && Chain(s) && Covers(s, p) && Upper(b) && b != ORIGIN
    requires Upto(s[|s| - 1], b) && Left(s[|s| - 2], s[|s| - 1], b) <= 0
    ensures Beyond(s[..|s| - 1], b, p)
  {
    hide Cross, Left, Dot, Norm, Minus;
    var u, v := s[|s| - 2], s[|s| - 1];
    assert Left(u, v, p) >= 0;
    if |s| == 2 {
      FromOrigin(v, b);
      FromOrigin(v, p);
      FromOrigin(b, p);
      SameSideOf(v, b, p);
    } else if Cross(u, p) >= 0 {
      CrossTransitive(u, v, b);
      PopKeepsInside(u, v, b, p);
    }
  }

  /** With no pop: a point in the direction of the top is no further out than the top. */
  lemma NoPopStep(v: Pt, b: Pt, p: Pt)
    requires Upper(v) && Upper(p) && v != ORIGIN && p != ORIGIN && Upto(p, v) && Cross(v, b) >= 0
    ensures Cross(v, p) >= 0 ==> Left(v, b, p) >= 0
  {
    hide Cross, Left, Dot, Norm, Minus;
    CrossAnti(v, p);
    if Cross(v, p) >= 0 {
      SameDirection(p, v);
      NormNonNegative(v);
      AlongIdentity(b, v, p);
      LeftSum(v, b, p);
      CrossAnti(b, p);
      CrossAnti(b, v);
      DotSym(v, p);
      assert Dot(b, v) * Cross(v, p) == 0;
      Monotone(Dot(v, p), Norm(v), Cross(v, b));
      NegateProduct(Cross(b, p), Norm(v), Cross(b, v), Dot(v, p));
      if Cross(p, b) > Cross(v, b) {
        Monotone(Cross(v, b), Cross(p, b), Norm(v));
      }
    }
  }

  lemma NegateProduct(a: int, x: int, c: int, y: int)
    requires a * x == c * y
    ensures -a * x == -c * y
  {
  }

  lemma DotSym(p: Pt, q: Pt)
    ensures Dot(p, q) == Dot(q, p)
  {
  }

  // ----- The push -----

  /** The new point is strictly further round than the top it turns left at. */
  lemma TopStrict(u: Pt, v: Pt, b: Pt)
    requires Upper(v) && v != ORIGIN && Upper(b) && b != ORIGIN && Upto(v, b) && Left(u, v, b) > 0
    requires u == ORIGIN || Cross(u, v) > 0
    ensures Cross(v, b) > 0
  {
    hide Cross, Left, Dot, Norm, Minus;
    if Cross(v, b) == 0 {
      if u == ORIGIN {
        FromOrigin(v, b);
      } else {
        SameDirection(v, b);
        NormNonNegative(v);
        AlongIdentity(u, v, b);
        assert Dot(u, v) * Cross(v, b) == 0;
        Monotone(Norm(v), Dot(v, b), Cross(u, v));
        LeftSum(u, v, b);
        CrossAnti(b, u);
        Monotone(Cross(u, b), Cross(u, v), Norm(v));
      }
    }
  }

  lemma PushChain(s: seq<Pt>, b: Pt)
    requires Chain(s) && Upper(b) && b != ORIGIN
    requires |s| >= 2 ==> Upto(s[|s| - 1], b) && Left(s[|s| - 2], s[|s| - 1], b) > 0
    ensures Chain(s + [b])
  {
    hide Cross, Left, Dot, Norm, Minus;
    var n := |s|;
    if n >= 2 {
      TopStrict(s[n - 2], s[n - 1], b);
    }
    forall a | 1 <= a < n ensures Cross(s[a], b) > 0 {
      if a < n - 1 {
        CrossTransitive(s[a], s[n - 1], b);
      }
    }
  }

  /** If b is to the left of the edge v, w and further round than v, it is to the left of the edge before. */
  lemma EdgeBefore(u: Pt, v: Pt, w: Pt, b: Pt)
    requires u == ORIGIN || Cross(u, v) > 0
    requires Cross(v, w) > 0 && Cross(v, b) >= 0 && Left(u, v, w) > 0 && Left(v, w, b) >= 0
    ensures Left(u, v, b) >= 0
  {
    hide Cross, Left, Dot, Norm, Minus;
    TurnIdentity(u, v, v, w, b);
    LeftSum(u, v, v);
    assert Left(u, v, v) == 0 && Cross(b, w) * Left(u, v, v) == 0 by { CrossAnti(v, v); CrossAnti(u, v); }
    CrossAnti(v, v);
    CrossAnti(u, v);
    if u == ORIGIN {
      OriginLeast(u, v);
    }
    ProductSign(Left(v, w, b), Cross(u, v));
    ProductSign(Cross(v, b), Left(u, v, w));
    ProductSign(Cross(v, w), Left(u, v, b));
  }

  /** The last point of a chain is on the inner side of all its edges. */
  lemma {:induction false} ChainCoversLast(s: seq<Pt>, i: nat)
    requires Chain(s) && 1 <= i < |s|
    ensures Left(s[i - 1], s[i], s[|s| - 1]) >= 0
    decreases |s| - i
  {
    hide Cross, Left, Dot, Norm, Minus;
    var b := s[|s| - 1];
    if i == |s| - 1 {
      LeftSum(s[i - 1], b, b);
      CrossAnti(s[i - 1], b);
      CrossAnti(b, b);
    } else {
      ChainCoversLast(s, i + 1);
      var w := s[i + 1];
      assert Left(s[i - 1], s[i], w) > 0;
      EdgeBefore(s[i - 1], s[i], w, b);
    }
  }

  /** A point before the top u of the stack is on the inner side of the edge from u to b. */
  lemma BeforeTop(w: Pt, u: Pt, b: Pt, p: Pt)
    requires w == ORIGIN || Cross(w, u) > 0
    requires Left(w, u, p) >= 0 && Left(w, u, b) > 0 && Cross(u, b) >= 0 && Cross(u, p) < 0
    ensures Left(u, b, p) >= 0
  {
    hide Cross, Left, Dot, Norm, Minus;
    CrossAnti(u, p);
    if w == ORIGIN {
      FromOrigin(u, p);
    } else {
      TurnIdentity(u, b, w, u, p);
      LeftSum(u, b, w);
      LeftSum(w, u, b);
      LeftSum(u, b, u);
      CrossAnti(u, b);
      CrossAnti(u, u);
      ProductSign(Left(w, u, p), Cross(u, b));
      ProductSign(Cross(p, u), Left(w, u, b));
      ProductSign(Cross(w, u), Left(u, b, p));
    }
  }

  /** Pushing b keeps every point seen so far inside. */
  lemma PushCovers(s: seq<Pt>, b: Pt, p: Pt)
    requires Chain(s) && Chain(s + [b]) && Covers(s, p) && Beyond(s, b, p)
    ensures Covers(s + [b], p)
  {
    hide Cross, Left, Dot, Norm, Minus;
    var n, s' := |s|, s + [b];
    var u := s[n - 1];
    assert s' [n - 1] == u && s'[n] == b;
    if Cross(u, p) < 0 {
      if n == 1 {
        OriginLeast(u, p);
      }
      assert Left(s'[n - 2], s'[n - 1], s'[n]) > 0;
      BeforeTop(s[n - 2], u, b, p);
    }
    forall i | 1 <= i < |s'| ensures Left(s'[i - 1], s'[i], p) >= 0 {
      if i < n {
        assert Left(s[i - 1], s[i], p) >= 0;
      }
    }
  }

  // ----- The whole scan -----

  /** Slots k to n-1 hold points other than the origin, sorted around it. */
  ghost predicate Fan(q: seq<Pt>, k: nat, n: nat) {
    && k <= n <= |q|
    && (forall a | k <= a < n :: Upper(q[a]) && q[a] != ORIGIN)
    && (forall a, b | k <= a < b < n :: Upto(q[a], q[b]))
  }

  /** The stack after points k to j-1 of q: a chain out of those points that has them all inside. */
  ghost predicate StackOk(s: seq<Pt>, q: seq<Pt>, k: nat, j: nat)
    requires k <= j <= |q|
  {
    && Chain(s)
    && (forall a | k <= a < j :: Covers(s, q[a]))
    && (forall a | 1 <= a < |s| :: s[a] in q[k..j])
  }

  ghost predicate BeyondAll(s: seq<Pt>, q: seq<Pt>, k: nat, j: nat)
    requires s != [] && k <= j < |q|
  {
    forall a | k <= a < j :: Beyond(s, q[j], q[a])
  }

  lemma FirstEdge(q: seq<Pt>, k: nat, n: nat)
    requires Fan(q, k, n) && k < n
    ensures StackOk([ORIGIN, q[k]], q, k, k + 1)
  {
    var s := [ORIGIN, q[k]];
    LeftSum(ORIGIN, q[k], q[k]);
    CrossAnti(q[k], q[k]);
    OriginLeast(ORIGIN, q[k]);
    OriginLeast(q[k], ORIGIN);
    assert q[k..k + 1] == [q[k]];
    assert Covers(s, q[k]);
  }

  lemma InFan(s: seq<Pt>, q: seq<Pt>, k: nat, j: nat, n: nat, a: nat)
    requires Fan(q, k, n) && k <= j < n && StackOk(s, q, k, j) && 1 <= a < |s|
    ensures Upto(s[a], q[j])
  {
    hide Upto, Upper, Chain;
    var part := q[k..j];
    assert s[a] in part;
    var i :| 0 <= i < |part| && part[i] == s[a];
    assert q[k + i] == s[a];
  }

  /** Before the first pop. */
  lemma StartPopping(s: seq<Pt>, q: seq<Pt>, k: nat, j: nat, n: nat)
    requires Fan(q, k, n) && k < j < n && StackOk(s, q, k, j) && s[|s| - 1] == q[j - 1]
    ensures BeyondAll(s, q, k, j)
  {
    hide Cross, Left, Norm;
    forall a | k <= a < j ensures Beyond(s, q[j], q[a]) {
      UptoSelf(q[j - 1]);
      NoPopStep(q[j - 1], q[j], q[a]);
    }
  }

  lemma UptoSelf(p: Pt)
    ensures Upto(p, p)
  {
    CrossAnti(p, p);
  }

  lemma PopOne(s: seq<Pt>, q: seq<Pt>, k: nat, j: nat, n: nat)
    requires Fan(q, k, n) && k <= j < n && StackOk(s, q, k, j)
    requires |s| >= 2 && Left(s[|s| - 2], s[|s| - 1], q[j]) <= 0
    ensures StackOk(s[..|s| - 1], q, k, j) && BeyondAll(s[..|s| - 1], q, k, j)
  {
    hide Cross, Left, Norm, Upto, Upper, Chain, Covers, Beyond;
    var t := s[..|s| - 1];
    ChainPrefix(s, |t|);
    InFan(s, q, k, j, n, |s| - 1);
    assert Upper(q[j]) && q[j] != ORIGIN;
    forall a | k <= a < j ensures Beyond(t, q[j], q[a]) && Covers(t, q[a]) {
      CoversPrefix(s, |t|, q[a]);
      PopStep(s, q[j], q[a]);
    }
  }

  lemma PushOne(s: seq<Pt>, q: seq<Pt>, k: nat, j: nat, n: nat)
    requires Fan(q, k, n) && k <= j < n && StackOk(s, q, k, j) && BeyondAll(s, q, k, j)
    requires |s| >= 2 ==> Left(s[|s| - 2], s[|s| - 1], q[j]) > 0
    ensures StackOk(s + [q[j]], q, k, j + 1)
  {
    hide Cross, Left, Norm, Upto, Upper, Chain, Covers, Beyond;
    var t := s + [q[j]];
    if |s| >= 2 {
      InFan(s, q, k, j, n, |s| - 1);
    }
    assert Upper(q[j]) && q[j] != ORIGIN;
    PushChain(s, q[j]);
    forall a | k <= a < j + 1 ensures Covers(t, q[a]) {
      if a < j {
        PushCovers(s, q[j], q[a]);
      } else {
        LastCovered(t);
      }
    }
    assert q[k..j + 1] == q[k..j] + [q[j]];
    forall a | 1 <= a < |t| ensures t[a] in q[k..j + 1] {
      assert a < |s| ==> t[a] == s[a];
    }
  }

  lemma LastCovered(t: seq<Pt>)
    requires Chain(t)
    ensures Covers(t, t[|t| - 1])
  {
    hide Cross, Left, Chain;
    forall i | 1 <= i < |t| ensures Left(t[i - 1], t[i], t[|t| - 1]) >= 0 {
      ChainCoversLast(t, i);
    }
  }

  /** Pop while the top two points and point j do not turn left. */
  method Pop(pts: array2<Pt>, i: nat, j: nat, top: nat, ghost all: seq<Pt>, ghost k: nat, ghost n: nat) returns (m: nat)
    requires i < pts.Length1 && 2 <= top <= j < n <= |all| == pts.Length0 && k < j && Fan(all, k, n)
    requires pts[j, i] == all[j]
    requires StackOk(Col(pts, i)[..top], all, k, j) && Col(pts, i)[top - 1] == all[j - 1]
    ensures 1 <= m <= top
    ensures StackOk(Col(pts, i)[..m], all, k, j) && BeyondAll(Col(pts, i)[..m], all, k, j)
    ensures m >= 2 ==> Left(pts[m - 2, i], pts[m - 1, i], all[j]) > 0
  {
    hide Cross, Left, Norm, Fan, StackOk, BeyondAll;
    ghost var q := Col(pts, i);
    m := top;
    StartPopping(q[..m], all, k, j, n);
    var temp := TurnAt(pts, i, j, m);
    while m > 1 && temp >= 0
      invariant 1 <= m <= top
      invariant StackOk(q[..m], all, k, j) && BeyondAll(q[..m], all, k, j)
      invariant m > 1 ==> temp == -Left(pts[m - 2, i], pts[m - 1, i], all[j])
    {
      PopOne(q[..m], all, k, j, n);
      m := m - 1;
      assert q[..m + 1][..m] == q[..m];
      if m > 1 {
        temp := TurnAt(pts, i, j, m);
      }
    }
  }

  method Scan(pts: array2<Pt>, i: nat, k: nat, n: nat) returns (m: nat)
    requires pts.Length0 == SLOTS && i < pts.Length1 && 1 <= k < n <= SLOTS
    requires Col(pts, i)[0] == ORIGIN && Fan(Col(pts, i), k, n)
    modifies pts
    ensures 2 <= m <= n && OtherLanes(pts, i)
    ensures StackOk(Col(pts, i)[..m], old(Col(pts, i)), k, n)
    ensures Col(pts, i)[m - 1] == old(Col(pts, i))[n - 1]
  {
    hide Cross, Left, Norm, Fan, StackOk, BeyondAll;
    ghost var all := Col(pts, i);
    pts[1, i] := pts[k, i];
    ghost var q := all[1 := all[k]];
    assert q == Col(pts, i);
    FirstEdge(all, k, n);
    assert q[..2] == [ORIGIN, all[k]];
    m := 2;
    for j := k + 1 to n
      invariant 2 <= m <= j && q == Col(pts, i) && OtherLanes(pts, i)
      invariant forall a | j <= a < n :: q[a] == all[a]
      invariant StackOk(q[..m], all, k, j) && q[m - 1] == all[j - 1]
    {
      m := Pop(pts, i, j, m, all, k, n);
      PushOne(q[..m], all, k, j, n);
      pts[m, i] := pts[j, i];
      q := q[m := q[j]];
      assert q == Col(pts, i);
      assert q[..m + 1] == q[..m] + [all[j]];
      m := m + 1;
    }
  }

  /** The cross product the scan pops by: not negative unless the top two points and point j turn left. */
  method TurnAt(pts: array2<Pt>, i: nat, j: nat, m: nat) returns (temp: int)
    requires i < pts.Length1 && 2 <= m <= pts.Length0 && j < pts.Length0
    ensures temp == -Left(pts[m - 2, i], pts[m - 1, i], pts[j, i])
  {
    var t1, t2 := Minus(pts[j, i], pts[m - 2, i]), Minus(pts[m - 1, i], pts[m - 2, i]);
    temp := t1.x * t2.y - t1.y * t2.x;
    CrossAnti(t1, t2);
  }
}
