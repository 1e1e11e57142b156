/**
 Race freedom of one cluster of the five-stage kernel: in every phase the memory core and the cores keep to
 different halves of the shared memory, and the cores to different parts of theirs; all of them keep to the
 memories of their cluster and to its slice of the arrays.
 */
module Pipeline5Races {
  import opened AsyncMachine
  import opened Pipeline5
  import opened Pipeline5Effect
  import Rounding

  // ----- What single operations touch -----

  predicate InCluster(c: nat, s: Space) {
    s == Sram(c) || (s.Nram? && s.cluster == c)
  }

  predicate Within(p: Loc, n: nat, base: int, len: nat) {
    base <= p.addr && p.addr + n <= base + len
  }

  /** The operation stays in the memories of the cluster and in its slice of the arrays. */
  predicate Confined(j: Job, op: Op) {
    match op
    case Copy(dst, src, n) =>
      && (InCluster(j.c, dst.space) || (dst.space.Gdram? && Within(dst, n, j.z, j.n)))
      && (InCluster(j.c, src.space) || (src.space.Gdram? && (Within(src, n, j.x, j.n) || Within(src, n, j.y, j.n))))
    case Compute(dst, a, b, _) => InCluster(j.c, dst.space) && InCluster(j.c, a.space) && InCluster(j.c, b.space)
  }

  /** A transfer of the memory core that uses the half at h. */
  predicate OnHalf(j: Job, op: Op, h: int) {
    && op.Copy? && op.n <= j.SramNum() && 0 <= h
    && ((op.dst.space.Gdram? && op.src == j.Shared1(h))
        || (op.src.space.Gdram? && (op.dst == j.Shared1(h) || op.dst == j.Shared2(h))))
  }

  /** An operation of core k on the len elements at offset off of the half at h. */
  predicate OfCore(j: Job, op: Op, k: nat, h: nat, off: nat, len: nat) {
    match op
    case Copy(dst, src, n) =>
      n == len && if dst.space == Nram(j.c, k) then src == j.Shared1(h).Plus(off) || src == j.Shared2(h).Plus(off)
                  else dst == j.Shared1(h).Plus(off) && src.space == Nram(j.c, k)
    case Compute(dst, a, b, _) => dst.space == a.space == b.space == Nram(j.c, k)
  }

  lemma CoreWorkIsOfCore(j: Job, p: Phase, k: nat, op: Op)
    requires j.Valid() && op in j.CoreWork(p, k)
    ensures !p.work.Idle? && OfCore(j, op, k, p.h, j.Offset(p.work, k), j.Length(p.work, k)) && Confined(j, op)
  {
    hide Job.Offset, Job.Length, Job.Padded, Job.SramNum;
  }

  lemma TransferAndCore(j: Job, x: Op, y: Op, k: nat, h: nat, o: nat, off: nat, len: nat)
    requires TwoHalves(j, h, o) && OnHalf(j, x, h) && OfCore(j, y, k, o, off, len) && off + len <= j.SramNum()
    ensures Independent(x, y)
  {
    hide Job.SramNum;
  }

  lemma TwoCores(j: Job, x: Op, y: Op, k: nat, k': nat, h: nat, off: nat, len: nat, off': nat, len': nat)
    requires OfCore(j, x, k, h, off, len) && OfCore(j, y, k', h, off', len') && k != k'
    requires off + len <= off' || off' + len' <= off
    requires off + len <= j.SramNum() && off' + len' <= j.SramNum()
    ensures Independent(x, y)
  {
    hide Job.SramNum;
  }

  lemma PartsApart(j: Job, w: Work, k: nat, k': nat)
    requires j.Valid() && !w.Idle? && k < k' < j.cores
    ensures j.Offset(w, k) + j.Length(w, k) <= j.Offset(w, k')
  {
    PartEnd(j, w, k);
    Rounding.MulMonotone(k + 1, k', j.span);
    Rounding.MulMonotone(k + 1, k', j.EvenShare());
  }

  // ----- Phases -----

  ghost predicate PhaseOk(j: Job, p: Phase) {
    && (forall op :: op in p.io ==> Confined(j, op))
    && (!p.work.Idle? ==> IsHalf(j, p.h) && forall op :: op in p.io ==> OnHalf(j, op, j.SramNum() - p.h))
  }

  function AgentOps(j: Job, p: Phase, a: Agent): seq<Op>
    requires j.Valid()
  {
    if a.MemoryCore? then p.io else j.CoreWork(p, a.k)
  }

  predicate IsAgent(j: Job, a: Agent) { a.ComputeCore? ==> a.k < j.cores }

  lemma PartFits(j: Job, w: Work, k: nat)
    requires j.Valid() && !w.Idle? && k < j.cores
    ensures j.Offset(w, k) + j.Length(w, k) <= j.SramNum()
  {
    hide Job.SramNum, Job.Offset, Job.Length;
    OffsetWithin(j, w, k);
    RemBelow(j);
  }

  lemma TransferApart(j: Job, p: Phase, k: nat, x: Op, y: Op)
    requires j.Valid() && PhaseOk(j, p) && k < j.cores
    requires x in p.io && y in j.CoreWork(p, k)
    ensures Independent(x, y) && Independent(y, x)
  {
    hide Job.SramNum, Job.Offset, Job.Length, Job.CoreWork, Independent, OfCore, OnHalf, Confined;
    CoreWorkIsOfCore(j, p, k, y);
    PartFits(j, p.work, k);
    TransferAndCore(j, x, y, k, j.SramNum() - p.h, p.h, j.Offset(p.work, k), j.Length(p.work, k));
    IndependentSym(x, y);
  }

  lemma IndependentSym(x: Op, y: Op)
    ensures Independent(x, y) <==> Independent(y, x)
  {
  }

  lemma CoresApart(j: Job, p: Phase, k: nat, k': nat, x: Op, y: Op)
    requires j.Valid() && k < j.cores && k' < j.cores && k != k'
    requires x in j.CoreWork(p, k) && y in j.CoreWork(p, k')
    ensures Independent(x, y)
  {
    hide Job.SramNum, Job.Offset, Job.Length, Job.CoreWork, Independent, OfCore;
    CoreWorkIsOfCore(j, p, k, x);
    CoreWorkIsOfCore(j, p, k', y);
    PartFits(j, p.work, k);
    PartFits(j, p.work, k');
    if k < k' {
      PartsApart(j, p.work, k, k');
    } else {
      PartsApart(j, p.work, k', k);
    }
    TwoCores(j, x, y, k, k', p.h, j.Offset(p.work, k), j.Length(p.work, k), j.Offset(p.work, k'), j.Length(p.work, k'));
  }

  /** In one phase different agents do not interfere. */
  lemma AgentsIndependent(j: Job, p: Phase, a: Agent, b: Agent)
    requires j.Valid() && PhaseOk(j, p) && IsAgent(j, a) && IsAgent(j, b) && a != b
    ensures AllIndependent(AgentOps(j, p, a), AgentOps(j, p, b))
  {
    hide Job.CoreWork, Independent, PhaseOk;
    forall x, y | x in AgentOps(j, p, a) && y in AgentOps(j, p, b) ensures Independent(x, y) {
      if a.MemoryCore? {
        TransferApart(j, p, b.k, x, y);
      } else if b.MemoryCore? {
        TransferApart(j, p, a.k, y, x);
      } else {
        CoresApart(j, p, a.k, b.k, x, y);
      }
    }
  }

  /** A phase that streams through one half while the cores use the other is fine. */
  lemma StreamsOk(j: Job, p: Phase, h: nat, o: nat, d: int, sl: nat, lb: int, ll: nat)
    requires j.Valid() && TwoHalves(j, h, o) && Streams(j, p, h, d, sl, lb, ll)
    requires sl <= j.SramNum() && ll <= j.SramNum() && (!p.work.Idle? ==> p.h == o)
    requires (sl > 0 ==> 0 <= d && d + sl <= j.n) && (ll > 0 ==> 0 <= lb && lb + ll <= j.n)
    ensures PhaseOk(j, p)
  {
    hide Job.SramNum;
    var st := if sl > 0 then j.StoreAt(h, d, sl) else [];
    var ld := if ll > 0 then j.LoadAt(h, lb, ll) else [];
    forall op | op in p.io ensures Confined(j, op) && OnHalf(j, op, h) {
      assert op in st || op in ld;
    }
    assert !p.work.Idle? ==> h == j.SramNum() - p.h;
  }

  ghost predicate PhasesOk(j: Job, ps: seq<Phase>) {
    forall i | 0 <= i < |ps| :: PhaseOk(j, ps[i])
  }

  lemma PhasesOkSnoc(j: Job, ps: seq<Phase>, p: Phase)
    requires PhasesOk(j, ps) && PhaseOk(j, p)
    ensures PhasesOk(j, ps + [p])
  {
    hide PhaseOk;
  }

  lemma PrologueOk(j: Job)
    requires j.Valid()
    ensures PhasesOk(j, j.Prologue())
  {
    hide Job.SramNum, PhaseOk, Job.Repeat, Job.LoadAt;
    var p0, p1 := Phase(j.LoadTile(0), 0, Idle), Phase(j.LoadTile(1), j.Half(0), Full);
    j.SramPositive();
    HalvesAlternate(j, 0);
    if j.Repeat() > 0 {
      FullTileWithin(j, 0);
      assert p0.io == [] + j.LoadTile(0);
      StreamsOk(j, p0, j.Half(0), j.Half(1), 0, 0, 0 * j.SramNum(), j.SramNum());
    }
    if j.Repeat() > 1 {
      FullTileWithin(j, 1);
      assert p1.io == [] + j.LoadTile(1);
      StreamsOk(j, p1, j.Half(1), j.Half(0), 0, 0, 1 * j.SramNum(), j.SramNum());
    }
  }

  lemma SteadyOk(j: Job, i: nat)
    requires j.Valid() && i + 2 < j.Repeat()
    ensures PhaseOk(j, j.Steady(i))
  {
    hide Job.SramNum, PhaseOk, Job.Repeat, Job.LoadAt, Job.StoreAt, Job.Half;
    j.SramPositive();
    HalvesAlternate(j, i);
    FullTileWithin(j, i);
    FullTileWithin(j, i + 2);
    StreamsOk(j, j.Steady(i), j.Half(i), j.Half(i + 1), i * j.SramNum(), j.SramNum(), (i + 2) * j.SramNum(),
              j.SramNum());
  }

  lemma {:induction false} HeadOk(j: Job, i: nat)
    requires j.Valid() && i <= j.Loops()
    ensures PhasesOk(j, j.Head(i))
    decreases i
  {
    hide PhaseOk, PhasesOk, Job.Prologue, Job.Repeat;
    if i == 0 {
      PrologueOk(j);
    } else {
      HeadOk(j, i - 1);
      SteadyOk(j, i - 1);
      PhasesOkSnoc(j, j.Head(i - 1), j.Steady(i - 1));
    }
  }

  lemma EndOk(j: Job)
    requires j.Valid()
    ensures PhaseOk(j, j.Drain()) && PhaseOk(j, j.Tail()) && PhasesOk(j, j.Last())
  {
    hide Job.SramNum, PhaseOk, Job.Repeat, Job.LoadAt, Job.StoreAt, Job.Half, Job.Rem, Streams, DrainFrom;
    var s, r := j.SramNum(), j.Repeat();
    RemBelow(j);
    j.SramPositive();
    DrainStreams(j);
    DrainWithin(j);
    TileSteps(r, s);
    if r > 0 {
      HalvesAlternate(j, r - 1);
    } else {
      HalvesAlternate(j, 0);
    }
    var o := if r > 0 then j.Half(r - 1) else j.Half(1);
    HalvesAlternate(j, r);
    StreamsOk(j, j.Drain(), j.Half(r), o, DrainFrom(j), DrainLen(j), r * s, j.Rem());
    TailOk(j);
    if j.Rem() > 0 {
      LastStoreOk(j);
    }
    var e := Phase([], 0, Idle);
    assert PhaseOk(j, e) by { NoTransfersOk(j, e); }
  }

  lemma NoTransfersOk(j: Job, e: Phase)
    requires e.io == [] && e.work.Idle?
    ensures PhaseOk(j, e)
  {
  }

  lemma DrainWithin(j: Job)
    requires j.Valid()
    ensures DrainFrom(j) + DrainLen(j) <= j.n && DrainLen(j) <= j.SramNum()
  {
    DrainStreams(j);
    RemBelow(j);
  }

  lemma TailOk(j: Job)
    requires j.Valid()
    ensures PhaseOk(j, j.Tail())
  {
    hide Job.SramNum, PhaseOk, Job.Repeat, Job.StoreAt, Job.Half, Job.Rem;
    var s, r := j.SramNum(), j.Repeat();
    RemBelow(j);
    j.SramPositive();
    if r > 0 {
      HalvesAlternate(j, r - 1);
      FullTileWithin(j, r - 1);
      assert j.Tail().io == j.StoreTile(r - 1) + [];
      StreamsOk(j, j.Tail(), j.Half(r - 1), j.Half(r), (r - 1) * s, s, 0, 0);
    } else {
      HalvesAlternate(j, 0);
      assert j.Tail().io == [] + [];
      StreamsOk(j, j.Tail(), j.Half(1), j.Half(0), 0, 0, 0, 0);
    }
  }

  lemma LastStoreOk(j: Job)
    requires j.Valid() && j.Rem() > 0
    ensures PhaseOk(j, Phase(j.StoreAt(j.Half(j.Repeat()), j.Repeat() * j.SramNum(), j.Rem()), 0, Idle))
  {
    hide Job.SramNum, PhaseOk, Job.Repeat, Job.StoreAt, Job.Half, Job.Rem;
    var s, r := j.SramNum(), j.Repeat();
    RemBelow(j);
    HalvesAlternate(j, r);
    TileSteps(r, s);
    var p := Phase(j.StoreAt(j.Half(r), r * s, j.Rem()), 0, Idle);
    assert p.io == j.StoreAt(j.Half(r), r * s, j.Rem()) + [];
    StreamsOk(j, p, j.Half(r), j.Half(r + 1), r * s, j.Rem(), 0, 0);
  }

  lemma AllPhasesOk(j: Job)
    requires j.Valid()
    ensures PhasesOk(j, j.Phases())
  {
    hide PhaseOk, Job.Head, Job.Drain, Job.Tail, Job.Last, Job.Repeat;
    HeadOk(j, j.Loops());
    EndOk(j);
  }

  // ----- The threads of a cluster -----

  lemma IssueThen(pend: seq<Pending>, q: Queue, op: Op, rest: seq<Instr>)
    requires FitsWith(Pending(q, op), pend) && WellSynced(pend + [Pending(q, op)], rest)
    ensures WellSynced(pend, [Issue(q, op)] + rest) && CodeOps([Issue(q, op)] + rest) == [op] + CodeOps(rest)
  {
    assert ([Issue(q, op)] + rest)[1..] == rest;
  }

  lemma SyncThen(pend: seq<Pending>, rest: seq<Instr>)
    requires WellSynced([], rest)
    ensures WellSynced(pend, [Sync] + rest) && CodeOps([Sync] + rest) == CodeOps(rest)
  {
    assert ([Sync] + rest)[1..] == rest;
  }

  /** The syncs of a core leave nothing to race with, and its operations run in program order. */
  lemma CoreCodeOk(ops: seq<Op>)
    requires |ops| == 0 || |ops| == 4
    ensures WellSynced([], CoreCodeOf(ops)) && CodeOps(CoreCodeOf(ops)) == ops
  {
    if |ops| == 4 {
      hide WellSynced, CodeOps;
      var a, b, c, d := ops[0], ops[1], ops[2], ops[3];
      NoCode([Pending(Move, d)]);
      IssueThen([], Move, d, []);
      var store := [Issue(Move, d)] + [];
      SyncThen([Pending(Alu, c)], store);
      IssueThen([], Alu, c, [Sync] + store);
      var compute := [Issue(Alu, c)] + ([Sync] + store);
      SyncThen([Pending(Move, a)] + [Pending(Move, b)], compute);
      IssueThen([Pending(Move, a)], Move, b, [Sync] + compute);
      assert [] + [Pending(Move, a)] == [Pending(Move, a)];
      IssueThen([], Move, a, [Issue(Move, b)] + ([Sync] + compute));
      assert CoreCodeOf(ops) == [Issue(Move, a)] + ([Issue(Move, b)] + ([Sync] + compute));
      assert [a] + ([b] + ([c] + ([d] + []))) == ops;
    } else {
      NoCode([]);
    }
  }

  lemma NoCode(pend: seq<Pending>)
    ensures WellSynced(pend, []) && CodeOps([]) == []
  {
  }

  lemma PhaseCodeOk(j: Job, p: Phase, a: Agent)
    requires j.Valid()
    ensures WellSynced([], j.PhaseCode(p, a)) && CodeOps(j.PhaseCode(p, a)) == AgentOps(j, p, a)
  {
    hide WellSynced, CodeOps;
    if a.MemoryCore? {
      IssuesWellSynced([], Io, p.io);
      IssuesOps(Io, p.io);
    } else {
      CoreCodeOk(j.CoreWork(p, a.k));
    }
  }

  lemma ThreadParts(j: Job, a: Agent)
    requires j.Valid()
    ensures var (th, ps) := (j.ThreadOf(j.Phases(), a), j.Phases());
            && Window(th) == AgentOps(j, ps[0], a) && |th.later| == |ps| - 1
            && forall e: nat | e < |ps| - 1 :: EpochOps(th, e) == AgentOps(j, ps[e + 1], a)
  {
    hide CodeOps, Job.PhaseCode, AgentOps, Job.Phases;
    var th, ps := j.ThreadOf(j.Phases(), a), j.Phases();
    PhaseCodeOk(j, ps[0], a);
    assert PendOps([]) + CodeOps(th.cur) == CodeOps(th.cur);
    forall e: nat | e < |ps| - 1 ensures EpochOps(th, e) == AgentOps(j, ps[e + 1], a) {
      PhaseCodeOk(j, ps[e + 1], a);
      assert ps[1..][e] == ps[e + 1];
    }
  }

  lemma ThreadIsOk(j: Job, a: Agent)
    requires j.Valid()
    ensures ThreadOk(j.ThreadOf(j.Phases(), a))
  {
    hide WellSynced, Job.PhaseCode, Job.Phases, AgentOps;
    var th, ps := j.ThreadOf(j.Phases(), a), j.Phases();
    PhaseCodeOk(j, ps[0], a);
    forall e | 0 <= e < |th.later| ensures WellSynced([], th.later[e]) {
      PhaseCodeOk(j, ps[1..][e], a);
    }
  }

  lemma PairIsOk(j: Job, a: Agent, b: Agent)
    requires j.Valid() && IsAgent(j, a) && IsAgent(j, b) && a != b
    ensures PairOk(j.ThreadOf(j.Phases(), a), j.ThreadOf(j.Phases(), b))
  {
    hide Window, EpochOps, Job.ThreadOf, AgentOps, Job.Phases, AllIndependent, PhaseOk, Independent;
    var ps := j.Phases();
    ThreadParts(j, a);
    ThreadParts(j, b);
    AllPhasesOk(j);
    AgentsIndependent(j, ps[0], a, b);
    var tha, thb := j.ThreadOf(ps, a), j.ThreadOf(ps, b);
    forall e: nat | e < |tha.later| ensures AllIndependent(EpochOps(tha, e), EpochOps(thb, e)) {
      AgentsIndependent(j, ps[e + 1], a, b);
    }
  }

  lemma ThreadsAre(j: Job)
    requires j.Valid()
    ensures |j.Threads()| == j.cores + 1
    ensures forall t | 0 <= t < j.cores + 1 ::
              j.Threads()[t] == j.ThreadOf(j.Phases(), j.AgentAt(t)) && IsAgent(j, j.AgentAt(t))
  {
    hide Job.ThreadOf, Job.Phases;
  }

  /** No two threads of a cluster, and no two queues of a thread, can race. */
  lemma ClusterRaceFree(j: Job)
    requires j.Valid()
    ensures ClusterOk(j.Threads())
  {
    hide ThreadOk, PairOk, Job.ThreadOf, Job.Threads, Job.Phases;
    ThreadsAre(j);
    var ths := j.Threads();
    forall t | 0 <= t < |ths| ensures ThreadOk(ths[t]) {
      ThreadIsOk(j, j.AgentAt(t));
    }
    forall t, u | 0 <= t < |ths| && 0 <= u < |ths| && t != u ensures PairOk(ths[t], ths[u]) {
      PairIsOk(j, j.AgentAt(t), j.AgentAt(u));
    }
  }

  // ----- Serially, the threads of a cluster work phase by phase -----

  function AllAgents(j: Job, p: Phase): seq<seq<Op>>
    requires j.Valid()
  {
    seq(j.cores + 1, t requires 0 <= t < j.cores + 1 => AgentOps(j, p, j.AgentAt(t)))
  }

  lemma FlattenSnoc<T>(ss: seq<seq<T>>, s: seq<T>)
    ensures Flatten(ss + [s]) == Flatten(ss) + s
  {
    FlattenAppend(ss, [s]);
    assert [s][1..] == [];
    assert Flatten([s]) == s + Flatten([]);
  }

  lemma {:induction false} AgentsTakeTurns(j: Job, p: Phase, n: nat)
    requires j.Valid() && n <= j.cores
    ensures Flatten(AllAgents(j, p)[..n + 1]) == p.io + CoresOps(j, p, n)
  {
    hide Flatten, Job.CoreWork;
    var all := AllAgents(j, p);
    assert all[..n + 1] == all[..n] + [all[n]];
    FlattenSnoc(all[..n], all[n]);
    if n == 0 {
      NothingFlat();
      assert Flatten(all[..0]) == [] by { assert all[..0] == []; }
      assert all[0] == p.io;
    } else {
      AgentsTakeTurns(j, p, n - 1);
      assert all[n] == j.CoreWork(p, n - 1);
      assert p.io + CoresOps(j, p, n - 1) + all[n] == p.io + (CoresOps(j, p, n - 1) + all[n]);
    }
  }

  lemma NothingFlat()
    ensures Flatten<Op>([]) == []
  {
  }

  lemma AgentsFlat(j: Job, p: Phase)
    requires j.Valid()
    ensures Flatten(AllAgents(j, p)) == PhaseOps(j, p)
  {
    AgentsTakeTurns(j, p, j.cores);
    assert AllAgents(j, p)[..j.cores + 1] == AllAgents(j, p);
  }

  lemma {:induction false} LaterPhases(j: Job, e: nat)
    requires j.Valid() && e < |j.Phases()|
    ensures LaterOps(j.Threads(), e, |j.Phases()| - 1) == PhasesOps(j, j.Phases()[e + 1..])
    decreases |j.Phases()| - e
  {
    hide Job.Phases, Job.ThreadOf, PhaseOps, PhasesOps, EpochOps, AgentOps, Flatten, Job.Threads;
    var ps, ths := j.Phases(), j.Threads();
    OnePhase(j, ps[e]);
    if e + 1 < |ps| {
      LaterPhases(j, e + 1);
      ThreadsAre(j);
      forall t | 0 <= t < j.cores + 1 ensures EpochOps(ths[t], e) == AgentOps(j, ps[e + 1], j.AgentAt(t)) {
        ThreadParts(j, j.AgentAt(t));
      }
      assert EpochWindows(ths, e) == AllAgents(j, ps[e + 1]);
      AgentsFlat(j, ps[e + 1]);
      OnePhase(j, ps[e + 1]);
      PhasesOpsAppend(j, [ps[e + 1]], ps[e + 2..]);
      assert ps[e + 1..] == [ps[e + 1]] + ps[e + 2..];
      assert LaterOps(ths, e, |ps| - 1) == Flatten(EpochWindows(ths, e)) + LaterOps(ths, e + 1, |ps| - 1);
    } else {
      assert ps[e + 1..] == [] && LaterOps(ths, e, |ps| - 1) == [];
    }
  }

  /** The serial reading of a cluster's threads is its phases one after the other. */
  lemma ClusterIsPhases(j: Job)
    requires j.Valid()
    ensures ClusterOps(j.Threads()) == PhasesOps(j, j.Phases())
  {
    hide Job.Phases, Job.ThreadOf, PhaseOps, PhasesOps, Window, AgentOps, Flatten, Job.Threads, LaterOps;
    var ps, ths := j.Phases(), j.Threads();
    ThreadsAre(j);
    forall t | 0 <= t < j.cores + 1 ensures Window(ths[t]) == AgentOps(j, ps[0], j.AgentAt(t)) {
      ThreadParts(j, j.AgentAt(t));
    }
    assert Windows(ths) == AllAgents(j, ps[0]);
    AgentsFlat(j, ps[0]);
    ThreadParts(j, j.AgentAt(0));
    LaterPhases(j, 0);
    OnePhase(j, ps[0]);
    PhasesOpsAppend(j, [ps[0]], ps[1..]);
    assert ps == [ps[0]] + ps[1..];
  }

  /** Everything a cluster does stays in its memories and its slice. */
  lemma {:induction false} PhasesConfined(j: Job, ps: seq<Phase>, op: Op)
    requires j.Valid() && PhasesOk(j, ps) && op in PhasesOps(j, ps)
    ensures Confined(j, op)
  {
    hide PhaseOk, Confined, PhaseOps;
    if ps != [] {
      var n := |ps| - 1;
      if op in PhasesOps(j, ps[..n]) {
        PhasesConfined(j, ps[..n], op);
      } else {
        PhaseConfined(j, ps[n], op);
      }
    }
  }

  lemma PhaseConfined(j: Job, p: Phase, op: Op)
    requires j.Valid() && PhaseOk(j, p) && op in PhaseOps(j, p)
    ensures Confined(j, op)
  {
    hide Confined, OnHalf, CoresOps;
    if op in p.io {
    } else {
      InCores(j, p, j.cores, op);
    }
  }

  lemma {:induction false} InCores(j: Job, p: Phase, n: nat, op: Op)
    requires j.Valid() && op in CoresOps(j, p, n)
    ensures Confined(j, op)
  {
    hide Confined, Job.CoreWork, OfCore;
    if n > 0 {
      if op in CoresOps(j, p, n - 1) {
        InCores(j, p, n - 1, op);
      } else {
        CoreWorkIsOfCore(j, p, n - 1, op);
      }
    }
  }

  lemma ClusterConfined(j: Job, op: Op)
    requires j.Valid() && op in ClusterOps(j.Threads())
    ensures Confined(j, op)
  {
    hide Confined, PhasesOps, ClusterOps, Job.Phases, Job.Threads, PhasesOk;
    ClusterIsPhases(j);
    AllPhasesOk(j);
    PhasesConfined(j, j.Phases(), op);
  }
}
