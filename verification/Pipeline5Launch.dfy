/**
 The five-stage kernel on all clusters: every schedule of every launch leaves the same output, described
 element by element, and the output is the elementwise result exactly when no core is handed a part longer
 than the distance between the two input blocks of its private memory.
 */
module Pipeline5Launch {
  import opened AsyncMachine
  import opened Pipeline5
  import opened Pipeline5Effect
  import opened Pipeline5Races
  import Pipeline3
  import Rounding

  /** A launch on `clusters` clusters of `cores` cores; the last cluster also takes what does not divide evenly. */
  datatype Launch = Launch(x: int, y: int, z: int, total: nat, clusters: nat, cores: nat, span: nat, align: nat,
                           gap1: nat, gap2: nat) {
    /** The output is an input or apart from it. Nothing is demanded of the gaps. */
    predicate Valid() {
      && 0 < clusters && 0 < cores && 0 < span && 0 < align
      && (z == x || z + total <= x || x + total <= z)
      && (z == y || z + total <= y || y + total <= z)
    }

    function Per(): nat requires 0 < clusters { Rounding.Quotient(total, clusters) }

    function JobOf(c: nat): Job
      requires 0 < clusters
    {
      var off := c * Per();
      Job(c, x + off, y + off, z + off, Per() + (if c == clusters - 1 then total % clusters else 0),
          cores, span, align, gap1, gap2)
    }

    function Clusters(): seq<seq<Thread>>
      requires Valid()
    {
      seq(clusters, c requires 0 <= c < clusters => (JobIsValid(c); JobOf(c).Threads()))
    }

    function Start(m0: Mem): Config requires Valid() { Config(Clusters(), m0) }

    lemma JobIsValid(c: nat)
      requires Valid() && c < clusters
      ensures JobOf(c).Valid() && 0 <= c * Per() && c * Per() + JobOf(c).n == Covered(c + 1) <= total
    {
      var per := Per();
      assert total == clusters * per + total % clusters;
      Rounding.MulMonotone(c + 1, clusters, per);
      Rounding.MulMonotone(0, c, per);
      assert (c + 1) * per == c * per + per;
      if c == clusters - 1 {
        assert clusters * per == c * per + per;
      }
    }

    /** How many elements the first c clusters cover. */
    function Covered(c: nat): int requires 0 < clusters { if c < clusters then c * Per() else total }

    /** The cluster element e falls to. */
    function ClusterOf(e: nat): nat
      requires 0 < clusters
    {
      if Per() == 0 || clusters - 1 <= e / Per() then clusters - 1 else e / Per()
    }

    /** What the launch stores for element e. */
    function ResultAt(f: Fn, m0: Mem, e: nat): int
      requires Valid()
    {
      var c := ClusterOf(e);
      JobIsValid(c);
      JobOf(c).Result(f, m0, 0)(e - c * Per())
    }

    /** The distance between the input blocks in private memory. */
    function Distance(): nat { if gap1 < gap2 then gap2 - gap1 else gap1 - gap2 }

    /** No part a core of cluster c is handed is longer than the distance between the input blocks. */
    predicate PartsFit(c: nat)
      requires Valid() && c < clusters
    {
      JobIsValid(c);
      && (JobOf(c).Repeat() > 0 ==> span <= Distance())
      && (JobOf(c).Rem() > 0 ==> JobOf(c).Share(cores - 1) <= Distance())
    }

    predicate Fits()
      requires Valid()
    {
      forall c | 0 <= c < clusters :: PartsFit(c)
    }
  }

  lemma SlicesInOrder(w: Launch, c: nat, d: nat)
    requires w.Valid() && c < d < w.clusters
    ensures c * w.Per() + w.JobOf(c).n <= d * w.Per()
  {
    w.JobIsValid(c);
    Rounding.MulMonotone(c + 1, d, w.Per());
    assert (c + 1) * w.Per() == c * w.Per() + w.Per();
  }

  lemma ClusterOfIs(w: Launch, c: nat, i: nat)
    requires w.Valid() && c < w.clusters && i < w.JobOf(c).n
    ensures c * w.Per() + i >= 0 && w.ClusterOf(c * w.Per() + i) == c
  {
    var per := w.Per();
    w.JobIsValid(c);
    if per > 0 {
      if c < w.clusters - 1 {
        Rounding.DivModUnique(c * per + i, per, c, i);
      } else {
        Rounding.DivAtLeast(c * per + i, per, c);
      }
    }
  }

  // ----- No races between clusters -----

  predicate SlicesApart(p: int, n: nat, q: int, n': nat) {
    p + n <= q || q + n' <= p
  }

  lemma ConfinedApart(j: Job, j': Job, a: Op, b: Op)
    requires j.c != j'.c && Confined(j, a) && Confined(j', b)
    requires SlicesApart(j.z, j.n, j'.x, j'.n) && SlicesApart(j.z, j.n, j'.y, j'.n) && SlicesApart(j.z, j.n, j'.z, j'.n)
    requires SlicesApart(j'.z, j'.n, j.x, j.n) && SlicesApart(j'.z, j'.n, j.y, j.n)
    ensures Independent(a, b)
  {
  }

  lemma ClustersIndependent(w: Launch, c: nat, d: nat, a: Op, b: Op)
    requires w.Valid() && c < w.clusters && d < w.clusters && c != d
    requires Confined(w.JobOf(c), a) && Confined(w.JobOf(d), b)
    ensures Independent(a, b)
  {
    hide Confined, Independent;
    w.JobIsValid(c);
    w.JobIsValid(d);
    if c < d {
      SlicesInOrder(w, c, d);
    } else {
      SlicesInOrder(w, d, c);
    }
    ConfinedApart(w.JobOf(c), w.JobOf(d), a, b);
  }

  lemma ClustersAre(w: Launch)
    requires w.Valid()
    ensures |w.Clusters()| == w.clusters
    ensures forall c | 0 <= c < w.clusters :: w.JobOf(c).Valid() && w.Clusters()[c] == w.JobOf(c).Threads()
  {
    hide Job.Threads;
    forall c | 0 <= c < w.clusters ensures w.JobOf(c).Valid() {
      w.JobIsValid(c);
    }
  }

  /** No launch has a race, whatever the sizes: not within a cluster, not between clusters. */
  lemma LaunchRaceFree(w: Launch)
    requires w.Valid()
    ensures RaceFree(w.Clusters())
  {
    hide ClusterOk, ClusterOps, Confined, Independent, Job.Threads, Launch.Clusters, Job.Valid, Launch.JobOf;
    var cs := w.Clusters();
    ClustersAre(w);
    forall c | 0 <= c < |cs| ensures ClusterOk(cs[c]) {
      ClusterRaceFree(w.JobOf(c));
    }
    forall c, d | 0 <= c < |cs| && 0 <= d < |cs| && c != d
      ensures AllIndependent(ClusterOps(cs[c]), ClusterOps(cs[d]))
    {
      forall a, b | a in ClusterOps(cs[c]) && b in ClusterOps(cs[d]) ensures Independent(a, b) {
        ClusterConfined(w.JobOf(c), a);
        ClusterConfined(w.JobOf(d), b);
        ClustersIndependent(w, c, d, a, b);
      }
    }
  }

  // ----- What the launch computes -----

  /** Off-chip memory is m0 with the first d results in the output. */
  ghost predicate OutputHas(f: Fn, w: Launch, m0: Mem, m: Mem, d: int)
    requires w.Valid()
  {
    forall a :: m(Loc(Gdram, a)) == if w.z <= a < w.z + d then w.ResultAt(f, m0, a - w.z) else m0(Loc(Gdram, a))
  }

  /** Every lane lies in a part, and every part in the slice. */
  lemma LaneBounds(j: Job, e: nat)
    requires j.Valid() && e < j.n
    ensures var (lane, len) := j.LaneOf(e); lane < len && 0 <= e - lane && e - lane + len <= j.n
  {
    RemBelow(j);
    j.SramPositive();
    var s := j.SramNum();
    var full := j.Repeat() * s;
    if e < full {
      FullLaneBounds(j, e);
    } else {
      RemLaneBounds(j, e - full);
    }
  }

  lemma FullLaneBounds(j: Job, e: nat)
    requires j.Valid() && 0 < j.SramNum() && e < j.Repeat() * j.SramNum() <= j.n
    ensures var lane := e % j.SramNum() % j.span;
            lane < j.span && 0 <= e - lane && e - lane + j.span <= j.n
  {
    var s := j.SramNum();
    assert s == j.span * j.cores;
    Rounding.DivBelow(e, s, j.Repeat());
    FullTileWithin(j, e / s);
    hide Job.SramNum, Job.Repeat;
    TileParts(e, s);
    LaneWithin(e % s, j.span, j.cores);
  }

  lemma TileParts(e: nat, s: nat)
    requires 0 < s
    ensures e == e / s * s + e % s && e % s < s && 0 <= e / s * s
  {
    Rounding.MulMonotone(0, e / s, s);
  }

  lemma LaneWithin(r: nat, span: nat, cores: nat)
    requires 0 < span && r < span * cores
    ensures r % span < span && 0 <= r - r % span && r - r % span + span <= span * cores
  {
    var k := r / span;
    assert r == k * span + r % span;
    Rounding.DivBelow(r, span, cores);
    Rounding.MulMonotone(k + 1, cores, span);
    assert (k + 1) * span == k * span + span;
  }

  lemma RemLaneBounds(j: Job, p: nat)
    requires j.Valid() && p < j.Rem()
    ensures var q := j.EvenShare();
            var k := if q == 0 || j.cores - 1 <= p / q then j.cores - 1 else p / q;
            0 <= k * q <= p < k * q + j.Share(k) <= j.Rem()
  {
    assert j.Rem() == j.cores * (j.Rem() / j.cores) + j.Rem() % j.cores;
    hide Job.Rem;
    var q := j.EvenShare();
    var k := if q == 0 || j.cores - 1 <= p / q then j.cores - 1 else p / q;
    if q == 0 {
      assert k * q == 0 && j.cores * q == 0;
    } else if k == j.cores - 1 {
      PartAtEnd(p, q, j.cores);
    } else {
      MiddlePart(p, q, j.cores);
    }
  }

  lemma PartAtEnd(p: nat, q: nat, cores: nat)
    requires 0 < q && 0 < cores && cores - 1 <= p / q
    ensures 0 <= (cores - 1) * q <= p && cores * q == (cores - 1) * q + q
  {
    Rounding.MulMonotone(cores - 1, p / q, q);
    Rounding.MulMonotone(0, cores - 1, q);
    assert p == (p / q) * q + p % q;
  }

  lemma MiddlePart(p: nat, q: nat, cores: nat)
    requires 0 < q && p / q < cores
    ensures 0 <= p / q * q <= p < p / q * q + q <= cores * q
  {
    var k := p / q;
    assert p == k * q + p % q;
    Rounding.MulMonotone(k + 1, cores, q);
    assert (k + 1) * q == k * q + q;
  }

  /** The result of a slice depends on nothing but the slice's inputs. */
  lemma ResultFromInputs(f: Fn, j: Job, m0: Mem, m: Mem, e: nat)
    requires j.Valid() && e < j.n
    requires forall a :: j.x <= a < j.x + j.n || j.y <= a < j.y + j.n ==> m(Loc(Gdram, a)) == m0(Loc(Gdram, a))
    ensures j.Result(f, m, 0)(e) == j.Result(f, m0, 0)(e)
  {
    hide Job.LaneOf, Job.LaneResult;
    LaneBounds(j, e);
    var (lane, len) := j.LaneOf(e);
    LaneFromInputs(f, j, m0, m, e - lane, lane, len);
  }

  lemma LaneFromInputs(f: Fn, j: Job, m0: Mem, m: Mem, off: nat, lane: nat, len: nat)
    requires lane < len && off + len <= j.n
    requires forall a :: j.x <= a < j.x + j.n || j.y <= a < j.y + j.n ==> m(Loc(Gdram, a)) == m0(Loc(Gdram, a))
    ensures j.LaneResult(f, m, off, len)(lane) == j.LaneResult(f, m0, off, len)(lane)
  {
    var a1 := if j.Clobbered(lane, len) then j.y + off + lane + j.gap1 - j.gap2 else j.x + off + lane;
    var a2 := j.y + off + lane;
    assert m(Loc(Gdram, a1)) == m0(Loc(Gdram, a1)) && m(Loc(Gdram, a2)) == m0(Loc(Gdram, a2));
  }

  /** A cluster computes from m what it would have computed from the original inputs. */
  lemma ResultFromOriginal(f: Fn, w: Launch, m0: Mem, m: Mem, c: nat, i: nat)
    requires w.Valid() && c < w.clusters && w.JobOf(c).Valid() && i < w.JobOf(c).n
    requires OutputHas(f, w, m0, m, c * w.Per())
    ensures c * w.Per() + i >= 0 && w.JobOf(c).Result(f, m, 0)(i) == w.ResultAt(f, m0, c * w.Per() + i)
  {
    w.JobIsValid(c);
    ClusterOfIs(w, c, i);
    hide Launch.ResultAt, Job.Result, Launch.ClusterOf, Launch.Per;
    ResultFromInputs(f, w.JobOf(c), m0, m, i);
    ResultAtIs(f, w, m0, c, i);
  }

  lemma ResultAtIs(f: Fn, w: Launch, m0: Mem, c: nat, i: nat)
    requires w.Valid() && c < w.clusters && w.JobOf(c).Valid() && c * w.Per() + i >= 0 &&
             w.ClusterOf(c * w.Per() + i) == c
    ensures w.ResultAt(f, m0, c * w.Per() + i) == w.JobOf(c).Result(f, m0, 0)(i)
  {
    hide Job.Result, Launch.ClusterOf, Launch.Per;
  }

  lemma SliceJoins(f: Fn, w: Launch, m0: Mem, m: Mem, m': Mem, c: nat)
    requires w.Valid() && c < w.clusters && w.JobOf(c).Valid()
    requires OutputHas(f, w, m0, m, c * w.Per()) && Stored(f, w.JobOf(c), m, m', w.JobOf(c).n)
    ensures OutputHas(f, w, m0, m', w.Covered(c + 1))
  {
    w.JobIsValid(c);
    var j, base := w.JobOf(c), c * w.Per();
    assert j.z == w.z + base;
    hide Launch.ResultAt, Job.Result, Launch.Per, Launch.JobOf, Launch.Valid, Job.Valid;
    forall a ensures m'(Loc(Gdram, a)) ==
                     if w.z <= a < w.z + w.Covered(c + 1) then w.ResultAt(f, m0, a - w.z) else m0(Loc(Gdram, a))
    {
      if j.z <= a < j.z + j.n {
        ResultFromOriginal(f, w, m0, m, c, a - j.z);
        assert base + (a - j.z) == a - w.z;
      }
    }
  }

  lemma ClusterRuns(f: Fn, w: Launch, m: Mem, c: nat)
    requires w.Valid() && c < w.clusters && w.JobOf(c).Valid()
    ensures Stored(f, w.JobOf(c), m, Exec(f, ClusterOps(w.JobOf(c).Threads()), m), w.JobOf(c).n)
  {
    hide Stored, Exec, ClusterOps, PhasesOps, Job.Threads, Job.Phases;
    ClusterIsPhases(w.JobOf(c));
    ClusterEffect(f, w.JobOf(c), m);
  }

  lemma {:induction false} ClustersEffect(f: Fn, w: Launch, m0: Mem, n: nat)
    requires w.Valid() && n <= w.clusters
    ensures OutputHas(f, w, m0, Exec(f, Flatten(AllClusterOps(w.Clusters())[..n]), m0), w.Covered(n))
    decreases n
  {
    hide OutputHas, Stored, Exec, ClusterOps, Job.Threads, Launch.Clusters, Flatten, Launch.Per, Launch.JobOf,
         Job.Valid;
    var all := AllClusterOps(w.Clusters());
    ClustersAre(w);
    if n == 0 {
      assert Flatten(all[..0]) == [] by { assert all[..0] == []; NothingFlat(); }
      ExecNone(f, m0);
      NoOutput(f, w, m0);
    } else {
      ClustersEffect(f, w, m0, n - 1);
      var m := Exec(f, Flatten(all[..n - 1]), m0);
      assert all[..n] == all[..n - 1] + [all[n - 1]];
      FlattenSnoc(all[..n - 1], all[n - 1]);
      ExecAppend(f, Flatten(all[..n - 1]), all[n - 1], m0);
      ClusterRuns(f, w, m, n - 1);
      SliceJoins(f, w, m0, m, Exec(f, all[n - 1], m), n - 1);
    }
  }

  lemma NoOutput(f: Fn, w: Launch, m0: Mem)
    requires w.Valid()
    ensures w.Covered(0) == 0 && OutputHas(f, w, m0, m0, 0)
  {
    hide Launch.ResultAt;
  }

  /** Whatever order the queues of all clusters retire their operations in, a launch that has finished leaves
      ResultAt(e) in element e of the output and nothing else changed off chip. */
  lemma EveryScheduleGivesResult(f: Fn, w: Launch, m0: Mem, es: seq<Event>)
    requires w.Valid() && Schedule(w.Start(m0).clusters, es)
    requires Finished(After(f, w.Start(m0), es).clusters)
    ensures OutputHas(f, w, m0, After(f, w.Start(m0), es).mem, w.total)
  {
    hide Exec, Schedule, After, RaceFree, Finished, AllClusterOps, Flatten, Launch.Clusters, Launch.ResultAt;
    LaunchRaceFree(w);
    EveryScheduleIsSerial(f, w.Start(m0), es);
    ClustersEffect(f, w, m0, w.clusters);
    ClustersAre(w);
    assert AllClusterOps(w.Clusters())[..w.clusters] == AllClusterOps(w.Clusters()) by { AllOpsLength(w.Clusters()); }
    var m := Exec(f, Serial(w.Clusters()), m0);
    assert OutputHas(f, w, m0, m, w.total);
    forall a ensures After(f, w.Start(m0), es).mem(Loc(Gdram, a)) == m(Loc(Gdram, a)) {}
  }

  lemma AllOpsLength(cs: seq<seq<Thread>>)
    ensures |AllClusterOps(cs)| == |cs|
  {
  }

  // ----- When the output is the elementwise result -----

  /** Every part in use is at most as long as the longest one the two guards speak of. */
  lemma LaneFits(j: Job, e: nat, d: nat)
    requires j.Valid() && e < j.n
    requires (j.Repeat() > 0 ==> j.span <= d) && (j.Rem() > 0 ==> j.Share(j.cores - 1) <= d)
    ensures j.LaneOf(e).1 <= d
  {
    RemBelow(j);
    j.SramPositive();
    hide Job.Rem, Job.SramNum, Job.EvenShare;
    if e < j.Repeat() * j.SramNum() {
      PositiveFactor(j.Repeat(), j.SramNum());
    } else {
      assert j.Rem() > 0;
    }
  }

  lemma PositiveFactor(a: nat, b: nat)
    requires 0 < a * b
    ensures 0 < a
  {
  }

  lemma ShortPartsStayApart(j: Job, i: nat, len: nat)
    requires i < len <= (if j.gap1 < j.gap2 then j.gap2 - j.gap1 else j.gap1 - j.gap2)
    ensures !j.Clobbered(i, len)
  {
  }

  lemma ElementOfSlice(w: Launch, e: nat)
    requires w.Valid() && e < w.total
    ensures var c := w.ClusterOf(e);
            c < w.clusters && c * w.Per() <= e < c * w.Per() + w.JobOf(c).n && w.JobOf(c).Valid()
  {
    var c, per := w.ClusterOf(e), w.Per();
    w.JobIsValid(c);
    hide Job.Valid;
    if per == 0 {
      assert c * per == 0;
    } else {
      InSlice(e, per, c, w.clusters - 1);
    }
  }

  lemma InSlice(e: nat, per: nat, c: nat, last: nat)
    requires 0 < per && c == if last <= e / per then last else e / per
    ensures c * per <= e && (c < last ==> e < c * per + per)
  {
    assert e == e / per * per + e % per;
    Rounding.MulMonotone(c, e / per, per);
  }

  /** The result of element i of a slice is the elementwise one unless its lane is clobbered. */
  lemma ResultUnclobbered(f: Fn, j: Job, m0: Mem, i: nat)
    requires j.Valid() && i < j.n
    requires !j.Clobbered(j.LaneOf(i).0, j.LaneOf(i).1) || j.y + j.gap1 == j.x + j.gap2
    ensures j.Result(f, m0, 0)(i) == f(m0(Loc(Gdram, j.x + i)), m0(Loc(Gdram, j.y + i)))
  {
    hide Job.LaneOf;
    LaneBounds(j, i);
    var (lane, len) := j.LaneOf(i);
    var off := i - lane;
    assert j.Result(f, m0, 0)(i) == j.LaneResult(f, m0, off, len)(lane);
    assert j.x + off + lane == j.x + i && j.y + off + lane == j.y + i;
    if j.Clobbered(lane, len) {
      assert j.y + off + lane + j.gap1 - j.gap2 == j.x + i;
    }
  }

  lemma ResultClobbered(f: Fn, j: Job, m0: Mem, i: nat)
    requires j.Valid() && i < j.n && j.Clobbered(j.LaneOf(i).0, j.LaneOf(i).1)
    ensures j.Result(f, m0, 0)(i) == f(m0(Loc(Gdram, j.y + i + j.gap1 - j.gap2)), m0(Loc(Gdram, j.y + i)))
  {
    hide Job.LaneOf;
    LaneBounds(j, i);
    var (lane, len) := j.LaneOf(i);
    var off := i - lane;
    assert j.Result(f, m0, 0)(i) == j.LaneResult(f, m0, off, len)(lane);
    assert j.y + off + lane == j.y + i && j.y + off + lane + j.gap1 - j.gap2 == j.y + i + j.gap1 - j.gap2;
  }

  lemma PartsFitIsElementwise(f: Fn, w: Launch, m0: Mem, e: nat)
    requires w.Valid() && e < w.total && (w.Fits() || w.y + w.gap1 == w.x + w.gap2)
    ensures w.ResultAt(f, m0, e) == f(m0(Loc(Gdram, w.x + e)), m0(Loc(Gdram, w.y + e)))
  {
    hide Job.LaneOf, Launch.Per, Job.Result, Job.Clobbered, Launch.ClusterOf;
    ElementOfSlice(w, e);
    var c := w.ClusterOf(e);
    var j, i := w.JobOf(c), e - c * w.Per();
    if w.Fits() {
      assert w.PartsFit(c);
      LaneBounds(j, i);
      LaneFits(j, i, w.Distance());
      ShortPartsStayApart(j, j.LaneOf(i).0, j.LaneOf(i).1);
    }
    hide Launch.Fits, Launch.PartsFit;
    ResultUnclobbered(f, j, m0, i);
    assert j.x + i == w.x + e && j.y + i == w.y + e;
  }

  /** A part longer than the distance has a lane that computes with a wrong first operand. */
  lemma LongPart(j: Job, len: nat) returns (i: nat)
    requires (if j.gap1 < j.gap2 then j.gap2 - j.gap1 else j.gap1 - j.gap2) < len
    ensures i < len && j.Clobbered(i, len)
  {
    i := if j.gap1 < j.gap2 then j.gap2 - j.gap1 else 0;
  }

  lemma WrongLane(j: Job, d: nat) returns (e: nat)
    requires j.Valid() && d == (if j.gap1 < j.gap2 then j.gap2 - j.gap1 else j.gap1 - j.gap2)
    requires !((j.Repeat() > 0 ==> j.span <= d) && (j.Rem() > 0 ==> j.Share(j.cores - 1) <= d))
    ensures e < j.n && j.Clobbered(j.LaneOf(e).0, j.LaneOf(e).1)
  {
    hide Job.LaneOf, Job.Share, Job.EvenShare, Job.Rem, Job.Repeat, Job.SramNum;
    if j.Repeat() > 0 && d < j.span {
      e := LongPart(j, j.span);
      hide Job.Clobbered;
      FirstLane(j, e);
    } else {
      var i := LongPart(j, j.Share(j.cores - 1));
      hide Job.Clobbered;
      e := LastLane(j, i);
    }
  }

  lemma FirstLane(j: Job, i: nat)
    requires j.Valid() && 0 < j.Repeat() && i < j.span
    ensures i < j.n && j.LaneOf(i) == (i, j.span)
  {
    hide Job.LaneOf, Job.Repeat;
    FullTileWithin(j, 0);
    LaneOfFull(j, 0, 0, i);
    assert 0 * j.SramNum() + 0 * j.span + i == i;
    Rounding.MulMonotone(1, j.cores, j.span);
  }

  /** The last core's part of the remainder ends with the slice. */
  lemma LastLane(j: Job, i: nat) returns (e: nat)
    requires j.Valid() && i < j.Share(j.cores - 1)
    ensures e < j.n && j.LaneOf(e) == (i, j.Share(j.cores - 1))
  {
    hide Job.LaneOf, Job.Share, Job.EvenShare, Job.Rem, Job.Repeat, Job.SramNum;
    RemBelow(j);
    LastPart(j);
    var k, at := j.cores - 1, j.Repeat() * j.SramNum() + (j.cores - 1) * j.EvenShare() + i;
    LaneOfRem(j, k, i, at);
    e := at;
  }

  lemma LastPart(j: Job)
    requires j.Valid()
    ensures (j.cores - 1) * j.EvenShare() + j.Share(j.cores - 1) == j.Rem()
  {
    var q := j.EvenShare();
    assert j.Rem() == j.cores * (j.Rem() / j.cores) + j.Rem() % j.cores;
    assert j.cores * q == (j.cores - 1) * q + q;
  }

  lemma WrongElement(w: Launch) returns (e: nat)
    requires w.Valid() && !w.Fits()
    ensures e < w.total
    ensures forall f: Fn, m0: Mem ::
              w.ResultAt(f, m0, e) == f(m0(Loc(Gdram, w.y + e + w.gap1 - w.gap2)), m0(Loc(Gdram, w.y + e)))
  {
    var c: nat :| c < w.clusters && !w.PartsFit(c);
    w.JobIsValid(c);
    var j := w.JobOf(c);
    var i := WrongLane(j, w.Distance());
    hide Job.LaneOf, Launch.Per, Job.Result, Job.Clobbered, Launch.ClusterOf, Launch.Fits, Launch.PartsFit,
         Launch.ResultAt;
    ClusterOfIs(w, c, i);
    e := c * w.Per() + i;
    assert j.y + i == w.y + e;
    forall f: Fn, m0: Mem
      ensures w.ResultAt(f, m0, e) == f(m0(Loc(Gdram, w.y + e + w.gap1 - w.gap2)), m0(Loc(Gdram, w.y + e)))
    {
      ResultAtIs(f, w, m0, c, i);
      ResultClobbered(f, j, m0, i);
    }
  }

  /** The launch computes the elementwise result on all inputs exactly when every part fits between the two
      input blocks of private memory, or the two inputs are laid out so that overlaying them changes nothing. */
  lemma ElementwiseExactly(w: Launch)
    requires w.Valid()
    ensures (w.Fits() || w.y + w.gap1 == w.x + w.gap2) <==>
            forall f: Fn, m0: Mem, e: nat | e < w.total ::
              w.ResultAt(f, m0, e) == f(m0(Loc(Gdram, w.x + e)), m0(Loc(Gdram, w.y + e)))
  {
    hide Launch.ResultAt, Launch.Fits;
    if w.Fits() || w.y + w.gap1 == w.x + w.gap2 {
      forall f: Fn, m0: Mem, e: nat | e < w.total
        ensures w.ResultAt(f, m0, e) == f(m0(Loc(Gdram, w.x + e)), m0(Loc(Gdram, w.y + e)))
      {
        PartsFitIsElementwise(f, w, m0, e);
      }
    } else {
      var e, f, m0 := WrongInput(w);
      assert w.ResultAt(f, m0, e) != f(m0(Loc(Gdram, w.x + e)), m0(Loc(Gdram, w.y + e)));
    }
  }

  lemma WrongInput(w: Launch) returns (e: nat, f: Fn, m0: Mem)
    requires w.Valid() && !w.Fits() && w.y + w.gap1 != w.x + w.gap2
    ensures e < w.total && w.ResultAt(f, m0, e) != f(m0(Loc(Gdram, w.x + e)), m0(Loc(Gdram, w.y + e)))
  {
    hide Launch.ResultAt, Launch.Fits;
    e := WrongElement(w);
    f := (a, b) => a;
    m0 := l => if l == Loc(Gdram, w.x + e) then 1 else 0;
  }

  /** Where the parts fit, every schedule that finishes leaves the elementwise result. */
  lemma EveryScheduleIsElementwise(f: Fn, w: Launch, m0: Mem, es: seq<Event>)
    requires w.Valid() && (w.Fits() || w.y + w.gap1 == w.x + w.gap2)
    requires Schedule(w.Start(m0).clusters, es) && Finished(After(f, w.Start(m0), es).clusters)
    ensures Pipeline3.IsElementwise(f, w.x, w.y, w.z, w.total, m0, After(f, w.Start(m0), es).mem)
  {
    hide Schedule, After, Finished, Launch.Clusters, Launch.ResultAt, Launch.Fits;
    EveryScheduleGivesResult(f, w, m0, es);
    OutputIsElementwise(f, w, m0, After(f, w.Start(m0), es).mem);
  }

  lemma OutputIsElementwise(f: Fn, w: Launch, m0: Mem, m: Mem)
    requires w.Valid() && (w.Fits() || w.y + w.gap1 == w.x + w.gap2) && OutputHas(f, w, m0, m, w.total)
    ensures Pipeline3.IsElementwise(f, w.x, w.y, w.z, w.total, m0, m)
  {
    hide Launch.ResultAt, Launch.Fits;
    forall a
      ensures m(Loc(Gdram, a)) ==
              if w.z <= a < w.z + w.total then f(m0(Loc(Gdram, w.x + (a - w.z))), m0(Loc(Gdram, w.y + (a - w.z))))
              else m0(Loc(Gdram, a))
    {
      if w.z <= a < w.z + w.total {
        PartsFitIsElementwise(f, w, m0, a - w.z);
      }
    }
  }

  /** Where they do not, there are inputs on which no schedule leaves the elementwise result. */
  lemma NoScheduleIsElementwise(w: Launch) returns (f: Fn, m0: Mem)
    requires w.Valid() && !w.Fits() && w.y + w.gap1 != w.x + w.gap2
    ensures forall es | Schedule(w.Start(m0).clusters, es) && Finished(After(f, w.Start(m0), es).clusters) ::
              !Pipeline3.IsElementwise(f, w.x, w.y, w.z, w.total, m0, After(f, w.Start(m0), es).mem)
  {
    hide Schedule, After, Finished, Launch.Clusters, Launch.ResultAt, Launch.Fits, Pipeline3.IsElementwise;
    var e;
    e, f, m0 := WrongInput(w);
    forall es | Schedule(w.Start(m0).clusters, es) && Finished(After(f, w.Start(m0), es).clusters)
      ensures !Pipeline3.IsElementwise(f, w.x, w.y, w.z, w.total, m0, After(f, w.Start(m0), es).mem)
    {
      EveryScheduleGivesResult(f, w, m0, es);
      NotElementwiseAt(f, w, m0, After(f, w.Start(m0), es).mem, e);
    }
  }

  lemma NotElementwiseAt(f: Fn, w: Launch, m0: Mem, m: Mem, e: nat)
    requires w.Valid() && OutputHas(f, w, m0, m, w.total) && e < w.total
    requires w.ResultAt(f, m0, e) != f(m0(Loc(Gdram, w.x + e)), m0(Loc(Gdram, w.y + e)))
    ensures !Pipeline3.IsElementwise(f, w.x, w.y, w.z, w.total, m0, m)
  {
    hide Launch.ResultAt;
    var a := w.z + e;
    assert m(Loc(Gdram, a)) == w.ResultAt(f, m0, a - w.z);
  }

  /** A part is never longer than span + cores - 2 (or span): a distance of that size always suffices. */
  lemma SpareRoomSuffices(w: Launch)
    requires w.Valid() && w.span <= w.Distance() && w.span + w.cores - 2 <= w.Distance()
    ensures w.Fits()
  {
    forall c | 0 <= c < w.clusters ensures w.PartsFit(c) {
      w.JobIsValid(c);
      var j := w.JobOf(c);
      RemBelow(j);
      Rounding.DivBelow(j.Rem(), j.cores, j.span);
    }
  }

  /** A launch on one cluster with the second input directly behind the first, as auxFunc5DivFloat lays them out,
      and one element less than a tile for every core. */
  function AlmostFullTile(x: int, y: int, z: int, cores: nat, span: nat, align: nat): Launch
    requires 0 < cores && 0 < span
  {
    Rounding.MulMonotone(1, span, cores);
    Launch(x, y, z, span * cores - 1, 1, cores, span, align, 0, span)
  }

  /** From three cores on, the last core's part of such a launch runs over into the second input, whatever the span. */
  lemma DivLayoutOverlaps(x: int, y: int, z: int, cores: nat, span: nat, align: nat)
    requires 3 <= cores && 0 < span && 0 < align
    requires var n := span * cores - 1; (z == x || z + n <= x || x + n <= z) && (z == y || z + n <= y || y + n <= z)
    ensures var w := AlmostFullTile(x, y, z, cores, span, align); w.Valid() && !w.Fits()
  {
    var w := AlmostFullTile(x, y, z, cores, span, align);
    var rem := span * cores - 1;
    assert rem == (span - 1) * cores + (cores - 1);
    Rounding.MulMonotone(1, span, cores);
    Rounding.DivModUnique(rem, cores, span - 1, cores - 1);
    Rounding.DivModUnique(rem, 1, rem, 0);
    Rounding.DivModUnique(rem, span * cores, 0, rem);
    w.JobIsValid(0);
    var j := w.JobOf(0);
    assert j.Rem() == rem && j.Share(cores - 1) == span + cores - 2;
    assert !w.PartsFit(0);
  }

  /** The span auxFunc5DivFloat chooses for a private memory of nram bytes and a shared one as large as all of them. */
  function DivFloatSpan(nram: nat, cores: nat): nat {
    var inNram, inSram := nram / 4 / 4, cores * nram / 4 / 16;
    Rounding.PadDown(if inNram < inSram then inNram else inSram, 64)
  }

  /** It is the largest multiple of 64 of which four blocks of floats fit private memory and sixteen the shared one. */
  lemma DivFloatSpanIsLargest(nram: nat, cores: nat, n: nat)
    requires n % 64 == 0
    ensures DivFloatSpan(nram, cores) % 64 == 0
    ensures n <= DivFloatSpan(nram, cores) <==> 4 * n * 4 <= nram && 16 * n * 4 <= cores * nram
  {
    var inNram, inSram := nram / 4 / 4, cores * nram / 4 / 16;
    var least := if inNram < inSram then inNram else inSram;
    QuotientAtLeast(nram, n, 4);
    QuotientAtLeast(cores * nram, n, 16);
    assert DivFloatSpan(nram, cores) == Rounding.PadDown(least, 64);
    hide DivFloatSpan, Rounding.PadDown, Rounding.FloorAlign;
    Rounding.FloorAlignIsFloor(least, 64);
    Rounding.FloorAtLeast(least, 64, n);
  }

  lemma QuotientAtLeast(x: nat, n: nat, k: nat)
    requires 0 < k
    ensures n <= x / 4 / k <==> k * n * 4 <= x
  {
    if k * n <= x / 4 {
      Rounding.DivAtLeast(x / 4, k, n);
    } else {
      Rounding.DivBelow(x / 4, k, n);
    }
  }

  /** 512 KB of private memory with 112 KB set aside, four cores: the last of 102399 elements' parts does not fit. */
  lemma DivLaunchOverlaps(x: int, y: int, z: int)
    requires (z == x || z + 102399 <= x || x + 102399 <= z) && (z == y || z + 102399 <= y || y + 102399 <= z)
    ensures DivFloatSpan((512 - 112) * 1024, 4) == 25600
    ensures var w := Launch(x, y, z, 102399, 1, 4, 25600, 64, 0, 25600); w.Valid() && !w.Fits()
  {
    DivLayoutOverlaps(x, y, z, 4, 25600, 64);
    hide Launch.Fits;
    assert AlmostFullTile(x, y, z, 4, 25600, 64) == Launch(x, y, z, 102399, 1, 4, 25600, 64, 0, 25600);
  }

  /** The second input lies directly behind the first. */
  predicate Adjacent(w: Launch, cores: nat, span: nat) {
    w.Valid() && w.cores == cores && w.span == span && w.gap1 == 0 && w.gap2 == span
  }

  /** With that layout all launches fit exactly if a cluster has at most two cores. */
  lemma DivLayoutFitsExactly(cores: nat, span: nat)
    requires 0 < cores && 0 < span
    ensures (forall w: Launch | Adjacent(w, cores, span) :: w.Fits()) <==> cores <= 2
  {
    hide Launch.Fits;
    if cores <= 2 {
      forall w: Launch | Adjacent(w, cores, span) ensures w.Fits() {
        SpareRoomSuffices(w);
      }
    } else {
      DivLayoutOverlaps(0, 0, 0, cores, span, 1);
      assert Adjacent(AlmostFullTile(0, 0, 0, cores, span, 1), cores, span);
    }
  }
}
