/**
 The accelerator as the pipelined kernels see it: clusters of threads, each thread with its own instruction
 queues. A thread issues asynchronous operations in program order; every queue retires its operations first
 in, first out; operations on different queues retire in any order. `Sync` blocks a thread until its own
 queues are empty, and a barrier blocks every thread of a cluster until all of them have reached it with
 empty queues.

 The main results hold for every schedule. If operations that no sync and no barrier orders never touch the
 same cell with a write, then every schedule that finishes leaves the memory the operations would have left
 one after the other (EveryScheduleIsSerial), no reachable state has two conflicting operations ready at once
 (NoReachableRace), and no schedule gets stuck or runs forever (NeverStuck, EveryScheduleIsBounded).
 */
module AsyncMachine {

  // ----- Memory -----

  /** An address space: off-chip memory, the shared memory of a cluster, or the private memory of a core. */
  datatype Space = Gdram | Sram(cluster: nat) | Nram(cluster: nat, core: nat)

  /** A cell, also used as a pointer to a run of cells. Addresses count elements. */
  datatype Loc = Loc(space: Space, addr: int) {
    function Plus(i: int): Loc { Loc(space, addr + i) }
  }

  type Mem = Loc -> int

  ghost predicate Same(m: Mem, m': Mem) {
    forall l :: m(l) == m'(l)
  }

  predicate In(l: Loc, p: Loc, n: nat) {
    l.space == p.space && p.addr <= l.addr < p.addr + n
  }

  predicate Overlap(p: Loc, n: nat, q: Loc, m: nat) {
    p.space == q.space && p.addr < q.addr + m && q.addr < p.addr + n && 0 < n && 0 < m
  }

  // ----- Operations -----

  type Fn = (int, int) -> int

  /** A block copy, or the elementwise computation the kernel applies to two staged blocks. */
  datatype Op =
    | Copy(dst: Loc, src: Loc, n: nat)
    | Compute(dst: Loc, a: Loc, b: Loc, n: nat)
  {
    predicate Writes(l: Loc) { In(l, dst, n) }

    predicate Reads(l: Loc) {
      match this
      case Copy(_, src, n) => In(l, src, n)
      case Compute(_, a, b, n) => In(l, a, n) || In(l, b, n)
    }

    /** The cells of [p, p+m) overlap those this operation reads. */
    predicate ReadsFrom(p: Loc, m: nat) {
      match this
      case Copy(_, src, n) => Overlap(src, n, p, m)
      case Compute(_, a, b, n) => Overlap(a, n, p, m) || Overlap(b, n, p, m)
    }
  }

  /** Neither operation writes a cell that the other touches. */
  predicate Independent(x: Op, y: Op) {
    && !Overlap(x.dst, x.n, y.dst, y.n)
    && !x.ReadsFrom(y.dst, y.n)
    && !y.ReadsFrom(x.dst, x.n)
  }

  /** Independence says exactly that no cell is written by one operation and touched by the other. */
  lemma IndependentIffNoSharedCell(x: Op, y: Op)
    ensures Independent(x, y) <==>
            forall l :: !(x.Writes(l) && (y.Writes(l) || y.Reads(l))) && !(y.Writes(l) && x.Reads(l))
  {
    if !Independent(x, y) {
      if Overlap(x.dst, x.n, y.dst, y.n) {
        var l := Loc(x.dst.space, if x.dst.addr < y.dst.addr then y.dst.addr else x.dst.addr);
        assert x.Writes(l) && y.Writes(l);
      } else if x.ReadsFrom(y.dst, y.n) {
        var r := SharedRead(x, y);
        assert y.Writes(r) && x.Reads(r);
      } else {
        var r := SharedRead(y, x);
        assert x.Writes(r) && y.Reads(r);
      }
    }
  }

  lemma SharedRead(x: Op, y: Op) returns (l: Loc)
    requires x.ReadsFrom(y.dst, y.n)
    ensures x.Reads(l) && y.Writes(l)
  {
    var p := match x
      case Copy(_, src, _) => src
      case Compute(_, a, b, _) => if Overlap(a, x.n, y.dst, y.n) then a else b;
    l := Loc(p.space, if p.addr < y.dst.addr then y.dst.addr else p.addr);
  }

  /** What op stores at l, a cell it writes. */
  function Result(f: Fn, op: Op, m: Mem, l: Loc): int {
    match op
    case Copy(dst, src, _) => m(src.Plus(l.addr - dst.addr))
    case Compute(dst, a, b, _) => f(m(a.Plus(l.addr - dst.addr)), m(b.Plus(l.addr - dst.addr)))
  }

  function Apply(f: Fn, op: Op, m: Mem): Mem {
    (l: Loc) => if op.Writes(l) then Result(f, op, m, l) else m(l)
  }

  function Exec(f: Fn, ops: seq<Op>, m: Mem): Mem
    decreases |ops|
  {
    if ops == [] then m else Exec(f, ops[1..], Apply(f, ops[0], m))
  }

  lemma ApplySame(f: Fn, op: Op, m: Mem, m': Mem)
    requires Same(m, m')
    ensures Same(Apply(f, op, m), Apply(f, op, m'))
  {
    forall l ensures Apply(f, op, m)(l) == Apply(f, op, m')(l) {
      assert Result(f, op, m, l) == Result(f, op, m', l);
    }
  }

  lemma {:induction false} ExecSame(f: Fn, ops: seq<Op>, m: Mem, m': Mem)
    requires Same(m, m')
    ensures Same(Exec(f, ops, m), Exec(f, ops, m'))
    decreases |ops|
  {
    if ops != [] {
      ApplySame(f, ops[0], m, m');
      ExecSame(f, ops[1..], Apply(f, ops[0], m), Apply(f, ops[0], m'));
    }
  }

  lemma {:induction false} ExecAppend(f: Fn, xs: seq<Op>, ys: seq<Op>, m: Mem)
    ensures Exec(f, xs + ys, m) == Exec(f, ys, Exec(f, xs, m))
    decreases |xs|
  {
    if xs == [] {
      assert xs + ys == ys;
    } else {
      assert (xs + ys)[1..] == xs[1..] + ys;
      ExecAppend(f, xs[1..], ys, Apply(f, xs[0], m));
    }
  }

  lemma Commute(f: Fn, x: Op, y: Op, m: Mem)
    requires Independent(x, y)
    ensures Same(Apply(f, y, Apply(f, x, m)), Apply(f, x, Apply(f, y, m)))
  {
    var xy, yx := Apply(f, y, Apply(f, x, m)), Apply(f, x, Apply(f, y, m));
    forall l ensures xy(l) == yx(l) {
      if x.Writes(l) {
        CommuteAt(f, x, y, m, l);
      } else if y.Writes(l) {
        CommuteAt(f, y, x, m, l);
      }
    }
  }

  /** What x writes at l does not depend on whether y ran first. */
  lemma CommuteAt(f: Fn, x: Op, y: Op, m: Mem, l: Loc)
    requires Independent(x, y) && x.Writes(l)
    ensures Apply(f, x, Apply(f, y, m))(l) == Apply(f, x, m)(l) == Apply(f, y, Apply(f, x, m))(l)
  {
    assert forall r :: x.Reads(r) ==> !y.Writes(r) by {
      IndependentIffNoSharedCell(x, y);
    }
    match x
    case Copy(dst, src, _) => assert x.Reads(src.Plus(l.addr - dst.addr));
    case Compute(dst, a, b, _) =>
      assert x.Reads(a.Plus(l.addr - dst.addr)) && x.Reads(b.Plus(l.addr - dst.addr));
  }

  ghost predicate IndependentOfAll(x: Op, ys: seq<Op>) {
    forall y :: y in ys ==> Independent(x, y)
  }

  /** An operation independent of all that precede it may run first. */
  lemma {:induction false} MoveToFront(f: Fn, xs: seq<Op>, x: Op, ys: seq<Op>, m: Mem)
    requires IndependentOfAll(x, xs)
    ensures Same(Exec(f, xs + [x] + ys, m), Exec(f, xs + ys, Apply(f, x, m)))
    decreases |xs|
  {
    if xs == [] {
      assert xs + [x] + ys == [x] + ys;
      assert ([x] + ys)[1..] == ys && xs + ys == ys;
    } else {
      var y, rest := xs[0], xs[1..];
      assert (xs + [x] + ys)[1..] == rest + [x] + ys;
      assert (xs + ys)[1..] == rest + ys;
      MoveToFront(f, rest, x, ys, Apply(f, y, m));
      assert y in xs;
      Commute(f, y, x, m);
      ExecSame(f, rest + ys, Apply(f, x, Apply(f, y, m)), Apply(f, y, Apply(f, x, m)));
    }
  }

  // ----- Threads, clusters and schedules -----

  /** The io, move and compute pipelines of the hardware. */
  datatype Queue = Io | Move | Alu

  datatype Instr = Issue(q: Queue, op: Op) | Sync

  datatype Pending = Pending(q: Queue, op: Op)

  /** A thread: operations issued but not retired, the rest of the current epoch, and the epochs that follow,
      each separated from the one before by a cluster barrier. */
  datatype Thread = Thread(pend: seq<Pending>, cur: seq<Instr>, later: seq<seq<Instr>>)

  datatype Config = Config(clusters: seq<seq<Thread>>, mem: Mem)

  datatype Event =
    | DoIssue(c: nat, t: nat)
    | DoSync(c: nat, t: nat)
    | Retire(c: nat, t: nat, k: nat)
    | DoBarrier(c: nat)

  predicate HasThread(cs: seq<seq<Thread>>, c: nat, t: nat) {
    c < |cs| && t < |cs[c]|
  }

  /** Nothing issued earlier on the same queue is still pending. */
  predicate AtHead(pend: seq<Pending>, k: nat)
    requires k < |pend|
  {
    forall j | 0 <= j < k :: pend[j].q != pend[k].q
  }

  predicate CanRetire(cs: seq<seq<Thread>>, c: nat, t: nat, k: nat) {
    HasThread(cs, c, t) && k < |cs[c][t].pend| && AtHead(cs[c][t].pend, k)
  }

  predicate AtBarrier(th: Thread) {
    th.pend == [] && th.cur == [] && th.later != []
  }

  predicate Enabled(cs: seq<seq<Thread>>, e: Event) {
    match e
    case DoIssue(c, t) => HasThread(cs, c, t) && cs[c][t].cur != [] && cs[c][t].cur[0].Issue?
    case DoSync(c, t) => HasThread(cs, c, t) && cs[c][t].cur != [] && cs[c][t].cur[0].Sync? && cs[c][t].pend == []
    case Retire(c, t, k) => CanRetire(cs, c, t, k)
    case DoBarrier(c) => c < |cs| && cs[c] != [] && forall t | 0 <= t < |cs[c]| :: AtBarrier(cs[c][t])
  }

  function NextThread(th: Thread, e: Event): Thread
    requires e.DoIssue? ==> th.cur != [] && th.cur[0].Issue?
    requires e.DoSync? ==> th.cur != []
    requires e.Retire? ==> e.k < |th.pend|
    requires e.DoBarrier? ==> th.later != []
  {
    match e
    case DoIssue(_, _) => th.(pend := th.pend + [Pending(th.cur[0].q, th.cur[0].op)], cur := th.cur[1..])
    case DoSync(_, _) => th.(cur := th.cur[1..])
    case Retire(_, _, k) => th.(pend := th.pend[..k] + th.pend[k + 1..])
    case DoBarrier(_) => Thread([], th.later[0], th.later[1..])
  }

  function NextClusters(cs: seq<seq<Thread>>, e: Event): (r: seq<seq<Thread>>)
    requires Enabled(cs, e)
  {
    if e.DoBarrier? then
      cs[e.c := seq(|cs[e.c]|, t requires 0 <= t < |cs[e.c]| => NextThread(cs[e.c][t], e))]
    else
      cs[e.c := cs[e.c][e.t := NextThread(cs[e.c][e.t], e)]]
  }

  function Next(f: Fn, cfg: Config, e: Event): Config
    requires Enabled(cfg.clusters, e)
  {
    Config(NextClusters(cfg.clusters, e),
           if e.Retire? then Apply(f, cfg.clusters[e.c][e.t].pend[e.k].op, cfg.mem) else cfg.mem)
  }

  /** es is a schedule the machine can follow from cfg. */
  predicate Schedule(cs: seq<seq<Thread>>, es: seq<Event>)
    decreases |es|
  {
    es == [] || (Enabled(cs, es[0]) && Schedule(NextClusters(cs, es[0]), es[1..]))
  }

  function After(f: Fn, cfg: Config, es: seq<Event>): Config
    requires Schedule(cfg.clusters, es)
    decreases |es|
  {
    if es == [] then cfg else After(f, Next(f, cfg, es[0]), es[1..])
  }

  predicate ThreadDone(th: Thread) {
    th.pend == [] && th.cur == [] && th.later == []
  }

  predicate Finished(cs: seq<seq<Thread>>) {
    forall c, t | 0 <= c < |cs| && 0 <= t < |cs[c]| :: ThreadDone(cs[c][t])
  }

  /** One thread with two operations issued. */
  function TwoOps(qx: Queue, x: Op, qy: Queue, y: Op, m: Mem): Config {
    Config([[Thread([Pending(qx, x), Pending(qy, y)], [], [])]], m)
  }

  /** The later of two operations can be done before the earlier exactly if they are on different queues. */
  lemma OvertakesExactly(f: Fn, qx: Queue, x: Op, qy: Queue, y: Op, m: Mem)
    ensures var (cfg, es) := (TwoOps(qx, x, qy, y, m), [Retire(0, 0, 1), Retire(0, 0, 0)]);
            && (Schedule(cfg.clusters, es) <==> qx != qy)
            && (qx != qy ==> Finished(After(f, cfg, es).clusters) &&
                             After(f, cfg, es).mem == Apply(f, x, Apply(f, y, m)))
  {
    hide Apply;
    var later, earlier := Retire(0, 0, 1), Retire(0, 0, 0);
    var th, th' := Thread([Pending(qx, x), Pending(qy, y)], [], []), Thread([Pending(qx, x)], [], []);
    assert th.pend[0].q == qx && th.pend[1].q == qy;
    assert AtHead(th.pend, 1) <==> qx != qy;
    if qx != qy {
      OneThread(th, later, th');
      OneThread(th', earlier, Thread([], [], []));
      assert [later, earlier][1..] == [earlier] && [earlier][1..] == [];
    }
  }

  lemma OneThread(th: Thread, e: Event, th': Thread)
    requires !e.DoBarrier? && e.c == e.t == 0 && Enabled([[th]], e) && th' == NextThread(th, e)
    ensures NextClusters([[th]], e) == [[th']]
  {
    assert [th][0 := th'] == [th'] && [[th]][0 := [th']] == [[th']];
  }

  // ----- The serial reading of a state: epoch by epoch, thread by thread -----

  function PendOps(pend: seq<Pending>): (ops: seq<Op>)
    ensures |ops| == |pend|
    ensures forall k | 0 <= k < |pend| :: ops[k] == pend[k].op
  {
    seq(|pend|, k requires 0 <= k < |pend| => pend[k].op)
  }

  function CodeOps(code: seq<Instr>): seq<Op> {
    if code == [] then []
    else (if code[0].Issue? then [code[0].op] else []) + CodeOps(code[1..])
  }

  function Window(th: Thread): seq<Op> {
    PendOps(th.pend) + CodeOps(th.cur)
  }

  function Flatten<T>(ss: seq<seq<T>>): seq<T> {
    if ss == [] then [] else ss[0] + Flatten(ss[1..])
  }

  function Windows(ths: seq<Thread>): seq<seq<Op>> {
    seq(|ths|, t requires 0 <= t < |ths| => Window(ths[t]))
  }

  /** What thread th still has to do in epoch e after the current one. */
  function EpochOps(th: Thread, e: nat): seq<Op> {
    if e < |th.later| then CodeOps(th.later[e]) else []
  }

  function EpochWindows(ths: seq<Thread>, e: nat): seq<seq<Op>> {
    seq(|ths|, t requires 0 <= t < |ths| => EpochOps(ths[t], e))
  }

  /** Epochs e, e+1, .. n-1 after the current one, serially. */
  function LaterOps(ths: seq<Thread>, e: nat, n: nat): seq<Op>
    decreases n - e
  {
    if n <= e then [] else Flatten(EpochWindows(ths, e)) + LaterOps(ths, e + 1, n)
  }

  function Epochs(ths: seq<Thread>): nat {
    if ths == [] then 0 else |ths[0].later|
  }

  function ClusterOps(ths: seq<Thread>): seq<Op> {
    Flatten(Windows(ths)) + LaterOps(ths, 0, Epochs(ths))
  }

  function AllClusterOps(cs: seq<seq<Thread>>): seq<seq<Op>> {
    seq(|cs|, c requires 0 <= c < |cs| => ClusterOps(cs[c]))
  }

  function Serial(cs: seq<seq<Thread>>): seq<Op> {
    Flatten(AllClusterOps(cs))
  }

  // ----- Race freedom -----

  ghost predicate AllIndependent(xs: seq<Op>, ys: seq<Op>) {
    forall x, y :: x in xs && y in ys ==> Independent(x, y)
  }

  /** Pending operations on different queues are independent. */
  ghost predicate PendOk(pend: seq<Pending>) {
    forall i, j | 0 <= i < j < |pend| :: pend[i].q == pend[j].q || Independent(pend[i].op, pend[j].op)
  }

  ghost predicate FitsWith(p: Pending, pend: seq<Pending>) {
    forall i | 0 <= i < |pend| :: pend[i].q == p.q || Independent(pend[i].op, p.op)
  }

  /** Whatever may be pending when an operation is issued on one queue, it is independent of everything
      pending on the other queues. */
  ghost predicate WellSynced(pend: seq<Pending>, code: seq<Instr>)
    decreases |code|
  {
    code == [] ||
    match code[0]
    case Issue(q, op) =>
      FitsWith(Pending(q, op), pend) && WellSynced(pend + [Pending(q, op)], code[1..])
    case Sync => WellSynced([], code[1..])
  }

  ghost predicate ThreadOk(th: Thread) {
    PendOk(th.pend) && WellSynced(th.pend, th.cur) && forall e | 0 <= e < |th.later| :: WellSynced([], th.later[e])
  }

  ghost predicate PairOk(a: Thread, b: Thread) {
    && |a.later| == |b.later|
    && AllIndependent(Window(a), Window(b))
    && forall e: nat | e < |a.later| :: AllIndependent(EpochOps(a, e), EpochOps(b, e))
  }

  ghost predicate ClusterOk(ths: seq<Thread>) {
    && (forall t | 0 <= t < |ths| :: ThreadOk(ths[t]))
    && (forall t, u | 0 <= t < |ths| && 0 <= u < |ths| && t != u :: PairOk(ths[t], ths[u]))
  }

  /** Threads of one cluster are independent epoch by epoch, clusters are independent throughout. */
  ghost predicate RaceFree(cs: seq<seq<Thread>>) {
    && (forall c | 0 <= c < |cs| :: ClusterOk(cs[c]))
    && (forall c, d | 0 <= c < |cs| && 0 <= d < |cs| && c != d :: AllIndependent(ClusterOps(cs[c]), ClusterOps(cs[d])))
  }

  // ----- Sequences of sequences -----

  lemma {:induction false} FlattenAt<T>(ss: seq<seq<T>>, k: nat)
    requires k < |ss|
    ensures Flatten(ss) == Flatten(ss[..k]) + ss[k] + Flatten(ss[k + 1..])
    decreases k
  {
    if k == 0 {
      assert ss[..0] == [];
    } else {
      FlattenAt(ss[1..], k - 1);
      assert ss[1..][..k - 1] == ss[..k][1..];
      assert ss[1..][k..] == ss[k + 1..];
    }
  }

  lemma {:induction false} InFlatten<T>(ss: seq<seq<T>>, x: T)
    ensures x in Flatten(ss) <==> exists i :: 0 <= i < |ss| && x in ss[i]
  {
    if ss != [] {
      InFlatten(ss[1..], x);
      if x in Flatten(ss[1..]) {
        var i :| 0 <= i < |ss[1..]| && x in ss[1..][i];
        assert x in ss[i + 1];
      }
      if exists i :: 1 <= i < |ss| && x in ss[i] {
        var i :| 1 <= i < |ss| && x in ss[i];
        assert x in ss[1..][i - 1];
      }
    }
  }

  lemma {:induction false} FlattenEmpties<T>(ss: seq<seq<T>>)
    requires forall i | 0 <= i < |ss| :: ss[i] == []
    ensures Flatten(ss) == []
  {
    if ss != [] {
      FlattenEmpties(ss[1..]);
    }
  }

  lemma {:induction false} FlattenAppend<T>(xs: seq<seq<T>>, ys: seq<seq<T>>)
    ensures Flatten(xs + ys) == Flatten(xs) + Flatten(ys)
  {
    if xs == [] {
      assert xs + ys == ys;
    } else {
      assert (xs + ys)[1..] == xs[1..] + ys;
      FlattenAppend(xs[1..], ys);
    }
  }

  // ----- One step of one thread -----

  lemma {:induction false} FewerPending(pend: seq<Pending>, pend': seq<Pending>, code: seq<Instr>)
    requires WellSynced(pend, code)
    requires forall p :: p in pend' ==> p in pend
    ensures WellSynced(pend', code)
    decreases |code|
  {
    if code != [] && code[0].Issue? {
      var p := Pending(code[0].q, code[0].op);
      forall i | 0 <= i < |pend'| ensures pend'[i].q == p.q || Independent(pend'[i].op, p.op) {
        assert pend'[i] in pend;
      }
      FewerPending(pend + [p], pend' + [p], code[1..]);
    }
  }

  predicate ThreadEvent(th: Thread, e: Event) {
    match e
    case DoIssue(_, _) => th.cur != [] && th.cur[0].Issue?
    case DoSync(_, _) => th.cur != [] && th.cur[0].Sync? && th.pend == []
    case Retire(_, _, k) => k < |th.pend| && AtHead(th.pend, k)
    case DoBarrier(_) => false
  }

  lemma IssueKeepsWindow(th: Thread, e: Event)
    requires ThreadEvent(th, e) && !e.Retire?
    ensures Window(NextThread(th, e)) == Window(th)
    ensures NextThread(th, e).later == th.later
  {
    var th' := NextThread(th, e);
    if e.DoIssue? {
      assert PendOps(th'.pend) == PendOps(th.pend) + [th.cur[0].op];
    }
  }

  /** Operations retired before k, and those that stay behind it, in the serial order of the thread. */
  function PreOps(th: Thread, k: nat): seq<Op>
    requires k < |th.pend|
  {
    PendOps(th.pend[..k])
  }

  function PostOps(th: Thread, k: nat): seq<Op>
    requires k < |th.pend|
  {
    PendOps(th.pend[k + 1..]) + CodeOps(th.cur)
  }

  lemma RetireSplitsWindow(th: Thread, e: Event)
    requires ThreadEvent(th, e) && e.Retire?
    ensures Window(th) == PreOps(th, e.k) + [th.pend[e.k].op] + PostOps(th, e.k)
    ensures Window(NextThread(th, e)) == PreOps(th, e.k) + PostOps(th, e.k)
    ensures NextThread(th, e).later == th.later
  {
    var pend, k := th.pend, e.k;
    assert PendOps(pend) == PendOps(pend[..k]) + [pend[k].op] + PendOps(pend[k + 1..]);
    assert PendOps(pend[..k] + pend[k + 1..]) == PendOps(pend[..k]) + PendOps(pend[k + 1..]);
  }

  lemma ThreadStepShrinks(th: Thread, e: Event)
    requires ThreadEvent(th, e)
    ensures NextThread(th, e).later == th.later
    ensures forall x :: x in Window(NextThread(th, e)) ==> x in Window(th)
  {
    if e.Retire? {
      RetireSplitsWindow(th, e);
    } else {
      IssueKeepsWindow(th, e);
    }
  }

  lemma ThreadStepOk(th: Thread, e: Event)
    requires ThreadOk(th) && ThreadEvent(th, e)
    ensures ThreadOk(NextThread(th, e))
  {
    if e.Retire? {
      var pend' := NextThread(th, e).pend;
      FewerPending(th.pend, pend', th.cur);
      forall i, j | 0 <= i < j < |pend'|
        ensures pend'[i].q == pend'[j].q || Independent(pend'[i].op, pend'[j].op)
      {
        var i', j' := if i < e.k then i else i + 1, if j < e.k then j else j + 1;
        assert pend'[i] == th.pend[i'] && pend'[j] == th.pend[j'];
      }
    }
  }

  // ----- Where a thread stands in the serial order -----

  function Before(cs: seq<seq<Thread>>, c: nat, t: nat): seq<Op>
    requires HasThread(cs, c, t)
  {
    Flatten(AllClusterOps(cs)[..c]) + Flatten(Windows(cs[c])[..t])
  }

  function Behind(cs: seq<seq<Thread>>, c: nat, t: nat): seq<Op>
    requires HasThread(cs, c, t)
  {
    Flatten(Windows(cs[c])[t + 1..]) + LaterOps(cs[c], 0, Epochs(cs[c])) + Flatten(AllClusterOps(cs)[c + 1..])
  }

  lemma SerialAt(cs: seq<seq<Thread>>, c: nat, t: nat)
    requires HasThread(cs, c, t)
    ensures Serial(cs) == Before(cs, c, t) + Window(cs[c][t]) + Behind(cs, c, t)
  {
    FlattenAt(AllClusterOps(cs), c);
    FlattenAt(Windows(cs[c]), t);
    Regroup(Flatten(AllClusterOps(cs)[..c]), Flatten(Windows(cs[c])[..t]), Window(cs[c][t]),
            Flatten(Windows(cs[c])[t + 1..]), LaterOps(cs[c], 0, Epochs(cs[c])), Flatten(AllClusterOps(cs)[c + 1..]));
  }

  lemma Regroup<T>(a: seq<T>, b: seq<T>, w: seq<T>, d: seq<T>, e: seq<T>, g: seq<T>)
    ensures a + ((b + w + d) + e) + g == (a + b) + w + (d + e + g)
  {
  }

  lemma {:induction false} LaterOpsSame(ths: seq<Thread>, ths': seq<Thread>, e: nat, n: nat)
    requires |ths| == |ths'|
    requires forall t | 0 <= t < |ths| :: ths'[t].later == ths[t].later
    ensures LaterOps(ths', e, n) == LaterOps(ths, e, n)
    decreases n - e
  {
    if e < n {
      assert EpochWindows(ths', e) == EpochWindows(ths, e);
      LaterOpsSame(ths, ths', e + 1, n);
    }
  }

  /** Replacing one thread's window leaves what comes before and behind it. */
  lemma ReplaceThread(cs: seq<seq<Thread>>, c: nat, t: nat, th: Thread)
    requires HasThread(cs, c, t) && th.later == cs[c][t].later
    ensures var cs' := cs[c := cs[c][t := th]];
            Before(cs', c, t) == Before(cs, c, t) && Behind(cs', c, t) == Behind(cs, c, t)
  {
    var cs' := cs[c := cs[c][t := th]];
    LaterOpsSame(cs[c], cs'[c], 0, Epochs(cs[c]));
    assert AllClusterOps(cs')[..c] == AllClusterOps(cs)[..c];
    assert AllClusterOps(cs')[c + 1..] == AllClusterOps(cs)[c + 1..];
    assert Windows(cs'[c])[..t] == Windows(cs[c])[..t];
    assert Windows(cs'[c])[t + 1..] == Windows(cs[c])[t + 1..];
  }

  lemma WindowInCluster(ths: seq<Thread>, t: nat, x: Op)
    requires t < |ths| && x in Window(ths[t])
    ensures x in ClusterOps(ths)
  {
    assert x in Windows(ths)[t];
    InFlatten(Windows(ths), x);
  }

  /** In a race-free state an operation that can retire is independent of all that precedes it serially. */
  lemma RetireIndependent(cs: seq<seq<Thread>>, c: nat, t: nat, k: nat)
    requires RaceFree(cs) && CanRetire(cs, c, t, k)
    ensures IndependentOfAll(cs[c][t].pend[k].op, Before(cs, c, t) + PreOps(cs[c][t], k))
  {
    var th := cs[c][t];
    var x := th.pend[k].op;
    assert x in Window(th) by { assert PendOps(th.pend)[k] == x; }
    WindowInCluster(cs[c], t, x);
    forall y | y in Before(cs, c, t) + PreOps(th, k) ensures Independent(x, y) {
      if y in Flatten(AllClusterOps(cs)[..c]) {
        InFlatten(AllClusterOps(cs)[..c], y);
        var d :| 0 <= d < c && y in AllClusterOps(cs)[..c][d];
        assert y in ClusterOps(cs[d]);
        assert AllIndependent(ClusterOps(cs[c]), ClusterOps(cs[d]));
      } else if y in Flatten(Windows(cs[c])[..t]) {
        InFlatten(Windows(cs[c])[..t], y);
        var u :| 0 <= u < t && y in Windows(cs[c])[..t][u];
        assert PairOk(cs[c][t], cs[c][u]);
      } else {
        var j :| 0 <= j < k && PreOps(th, k)[j] == y;
        assert th.pend[j].op == y;
        assert PendOk(th.pend);
      }
    }
  }

  // ----- Every step keeps race freedom and the serial reading -----

  /** A state's serial reading: what memory will hold once everything left has run in serial order. */
  ghost function Outcome(f: Fn, cfg: Config): Mem {
    Exec(f, Serial(cfg.clusters), cfg.mem)
  }

  lemma EnabledThreadEvent(cs: seq<seq<Thread>>, e: Event)
    requires Enabled(cs, e) && !e.DoBarrier?
    ensures HasThread(cs, e.c, e.t) && ThreadEvent(cs[e.c][e.t], e)
    ensures NextClusters(cs, e) == cs[e.c := cs[e.c][e.t := NextThread(cs[e.c][e.t], e)]]
  {
  }

  /** The serial readings before and after a thread's step differ only in that thread's window. */
  lemma ThreadStepSerial(cs: seq<seq<Thread>>, e: Event)
    requires Enabled(cs, e) && !e.DoBarrier?
    ensures HasThread(cs, e.c, e.t) && ThreadEvent(cs[e.c][e.t], e)
    ensures var (c, t) := (e.c, e.t);
            && Serial(cs) == Before(cs, c, t) + Window(cs[c][t]) + Behind(cs, c, t)
            && Serial(NextClusters(cs, e)) == Before(cs, c, t) + Window(NextThread(cs[c][t], e)) + Behind(cs, c, t)
  {
    EnabledThreadEvent(cs, e);
    var th' := NextThread(cs[e.c][e.t], e);
    ThreadStepShrinks(cs[e.c][e.t], e);
    ReplaceThread(cs, e.c, e.t, th');
    SerialAt(cs, e.c, e.t);
    SerialAt(NextClusters(cs, e), e.c, e.t);
  }

  lemma RegroupAround<T>(a: seq<T>, pre: seq<T>, mid: seq<T>, post: seq<T>, b: seq<T>)
    ensures a + (pre + mid + post) + b == (a + pre) + mid + (post + b)
    ensures a + (pre + post) + b == (a + pre) + (post + b)
  {
  }

  lemma ThreadStepKeepsOutcome(f: Fn, cfg: Config, e: Event)
    requires RaceFree(cfg.clusters) && Enabled(cfg.clusters, e) && !e.DoBarrier?
    ensures Same(Outcome(f, Next(f, cfg, e)), Outcome(f, cfg))
  {
    var cs, c, t := cfg.clusters, e.c, e.t;
    ThreadStepSerial(cs, e);
    var th := cs[c][t];
    var A, B := Before(cs, c, t), Behind(cs, c, t);
    if e.Retire? {
      RetireSplitsWindow(th, e);
      RetireIndependent(cs, c, t, e.k);
      var pre, post, x := PreOps(th, e.k), PostOps(th, e.k), th.pend[e.k].op;
      RegroupAround(A, pre, [x], post, B);
      MoveToFront(f, A + pre, x, post + B, cfg.mem);
    } else {
      IssueKeepsWindow(th, e);
    }
  }

  lemma {:induction false} LaterOpsShift(ths: seq<Thread>, ths': seq<Thread>, e: nat, n: nat)
    requires |ths| == |ths'|
    requires forall t | 0 <= t < |ths| :: ths[t].later != [] && ths'[t].later == ths[t].later[1..]
    ensures LaterOps(ths', e, n) == LaterOps(ths, e + 1, n + 1)
    decreases n - e
  {
    if e < n {
      assert EpochWindows(ths', e) == EpochWindows(ths, e + 1);
      LaterOpsShift(ths, ths', e + 1, n);
    }
  }

  /** Passing a barrier with nothing pending leaves the cluster's serial reading as it is. */
  lemma BarrierKeepsClusterOps(ths: seq<Thread>, ths': seq<Thread>, e: Event)
    requires ths != [] && |ths'| == |ths| && e.DoBarrier?
    requires forall t | 0 <= t < |ths| :: AtBarrier(ths[t]) && ths'[t] == NextThread(ths[t], e)
    requires forall t | 0 <= t < |ths| :: |ths[t].later| == Epochs(ths)
    ensures ClusterOps(ths') == ClusterOps(ths)
  {
    forall t | 0 <= t < |ths| ensures Windows(ths)[t] == [] && Windows(ths')[t] == EpochWindows(ths, 0)[t] {
      assert AtBarrier(ths[t]);
    }
    FlattenEmpties(Windows(ths));
    assert Windows(ths') == EpochWindows(ths, 0);
    LaterOpsShift(ths, ths', 0, Epochs(ths'));
  }

  lemma BarrierKeepsSerial(cs: seq<seq<Thread>>, e: Event)
    requires RaceFree(cs) && Enabled(cs, e) && e.DoBarrier?
    ensures AllClusterOps(NextClusters(cs, e)) == AllClusterOps(cs)
  {
    forall t | 0 <= t < |cs[e.c]| ensures |cs[e.c][t].later| == Epochs(cs[e.c]) {
      assert t != 0 ==> PairOk(cs[e.c][0], cs[e.c][t]);
    }
    BarrierKeepsClusterOps(cs[e.c], NextClusters(cs, e)[e.c], e);
  }

  lemma StepKeepsOutcome(f: Fn, cfg: Config, e: Event)
    requires RaceFree(cfg.clusters) && Enabled(cfg.clusters, e)
    ensures Same(Outcome(f, Next(f, cfg, e)), Outcome(f, cfg))
  {
    if e.DoBarrier? {
      BarrierKeepsSerial(cfg.clusters, e);
    } else {
      ThreadStepKeepsOutcome(f, cfg, e);
    }
  }

  lemma ShrunkClusterOps(ths: seq<Thread>, t: nat, th: Thread, x: Op)
    requires t < |ths| && th.later == ths[t].later
    requires forall y :: y in Window(th) ==> y in Window(ths[t])
    requires x in ClusterOps(ths[t := th])
    ensures x in ClusterOps(ths)
  {
    var ths' := ths[t := th];
    LaterOpsSame(ths, ths', 0, Epochs(ths));
    if x in Flatten(Windows(ths')) {
      InFlatten(Windows(ths'), x);
      var u :| 0 <= u < |ths| && x in Windows(ths')[u];
      WindowInCluster(ths, u, x);
    }
  }

  lemma ThreadStepKeepsRaceFree(cs: seq<seq<Thread>>, e: Event)
    requires RaceFree(cs) && Enabled(cs, e) && !e.DoBarrier?
    ensures RaceFree(NextClusters(cs, e))
  {
    EnabledThreadEvent(cs, e);
    var c, t := e.c, e.t;
    var th, th' := cs[c][t], NextThread(cs[c][t], e);
    var cs' := NextClusters(cs, e);
    ThreadStepShrinks(th, e);
    ThreadStepOk(th, e);
    forall u | 0 <= u < |cs[c]| && u != t ensures PairOk(th', cs[c][u]) && PairOk(cs[c][u], th') {
      assert PairOk(th, cs[c][u]) && PairOk(cs[c][u], th);
      StepKeepsPair(th, th', cs[c][u]);
    }
    assert ClusterOk(cs'[c]) by {
      forall u | 0 <= u < |cs'[c]| ensures ThreadOk(cs'[c][u]) {}
      forall u, v | 0 <= u < |cs'[c]| && 0 <= v < |cs'[c]| && u != v ensures PairOk(cs'[c][u], cs'[c][v]) {}
    }
    forall b, d | 0 <= b < |cs'| && 0 <= d < |cs'| && b != d
      ensures AllIndependent(ClusterOps(cs'[b]), ClusterOps(cs'[d]))
    {
      assert AllIndependent(ClusterOps(cs[b]), ClusterOps(cs[d]));
      forall x | x in ClusterOps(cs'[c]) ensures x in ClusterOps(cs[c]) {
        ShrunkClusterOps(cs[c], t, th', x);
      }
    }
  }

  lemma StepKeepsPair(th: Thread, th': Thread, u: Thread)
    requires PairOk(th, u) && PairOk(u, th)
    requires th'.later == th.later
    requires forall x :: x in Window(th') ==> x in Window(th)
    ensures PairOk(th', u) && PairOk(u, th')
  {
    forall e: nat | e < |th.later|
      ensures AllIndependent(EpochOps(th', e), EpochOps(u, e)) && AllIndependent(EpochOps(u, e), EpochOps(th', e))
    {
      assert EpochOps(th', e) == EpochOps(th, e);
    }
  }

  lemma BarrierKeepsRaceFree(cs: seq<seq<Thread>>, e: Event)
    requires RaceFree(cs) && Enabled(cs, e) && e.DoBarrier?
    ensures RaceFree(NextClusters(cs, e))
  {
    var c, cs' := e.c, NextClusters(cs, e);
    BarrierKeepsSerial(cs, e);
    assert forall d | 0 <= d < |cs| ::
             ClusterOps(cs'[d]) == AllClusterOps(cs')[d] == AllClusterOps(cs)[d] == ClusterOps(cs[d]);
    assert ClusterOk(cs'[c]) by {
      forall u | 0 <= u < |cs'[c]| ensures ThreadOk(cs'[c][u]) {
        assert ThreadOk(cs[c][u]) && AtBarrier(cs[c][u]);
        assert forall i | 0 <= i < |cs'[c][u].later| :: cs'[c][u].later[i] == cs[c][u].later[i + 1];
      }
      forall u, v | 0 <= u < |cs'[c]| && 0 <= v < |cs'[c]| && u != v ensures PairOk(cs'[c][u], cs'[c][v]) {
        assert PairOk(cs[c][u], cs[c][v]) && AtBarrier(cs[c][u]) && AtBarrier(cs[c][v]);
        BarrierKeepsPair(cs[c][u], cs[c][v], e);
      }
    }
  }

  lemma BarrierKeepsPair(a: Thread, b: Thread, e: Event)
    requires e.DoBarrier? && AtBarrier(a) && AtBarrier(b) && PairOk(a, b)
    ensures PairOk(NextThread(a, e), NextThread(b, e))
  {
    var a', b' := NextThread(a, e), NextThread(b, e);
    assert Window(a') == EpochOps(a, 0) && Window(b') == EpochOps(b, 0);
    forall i: nat | i < |a'.later| ensures AllIndependent(EpochOps(a', i), EpochOps(b', i)) {
      assert EpochOps(a', i) == EpochOps(a, i + 1) && EpochOps(b', i) == EpochOps(b, i + 1);
    }
  }

  lemma StepKeepsRaceFree(cs: seq<seq<Thread>>, e: Event)
    requires RaceFree(cs) && Enabled(cs, e)
    ensures RaceFree(NextClusters(cs, e))
  {
    if e.DoBarrier? {
      BarrierKeepsRaceFree(cs, e);
    } else {
      ThreadStepKeepsRaceFree(cs, e);
    }
  }

  // ----- The results, over every schedule -----

  lemma {:induction false} ScheduleKeeps(f: Fn, cfg: Config, es: seq<Event>)
    requires RaceFree(cfg.clusters) && Schedule(cfg.clusters, es)
    ensures RaceFree(After(f, cfg, es).clusters)
    ensures Same(Outcome(f, After(f, cfg, es)), Outcome(f, cfg))
    decreases |es|
  {
    if es != [] {
      StepKeepsOutcome(f, cfg, es[0]);
      StepKeepsRaceFree(cfg.clusters, es[0]);
      ScheduleKeeps(f, Next(f, cfg, es[0]), es[1..]);
    }
  }

  /** Every schedule that finishes leaves what the serial order would have left. */
  lemma EveryScheduleIsSerial(f: Fn, cfg: Config, es: seq<Event>)
    requires RaceFree(cfg.clusters) && Schedule(cfg.clusters, es)
    requires Finished(After(f, cfg, es).clusters)
    ensures Same(After(f, cfg, es).mem, Exec(f, Serial(cfg.clusters), cfg.mem))
  {
    ScheduleKeeps(f, cfg, es);
    FinishedHasNoOps(After(f, cfg, es).clusters);
  }

  lemma FinishedHasNoOps(cs: seq<seq<Thread>>)
    requires Finished(cs)
    ensures Serial(cs) == []
  {
    forall c | 0 <= c < |cs| ensures AllClusterOps(cs)[c] == [] {
      forall t | 0 <= t < |cs[c]| ensures Windows(cs[c])[t] == [] {
        assert ThreadDone(cs[c][t]);
      }
      FlattenEmpties(Windows(cs[c]));
      if cs[c] != [] {
        assert ThreadDone(cs[c][0]);
      }
    }
    FlattenEmpties(AllClusterOps(cs));
  }

  /** In every reachable state, two different operations that could retire next touch no common cell with a write. */
  lemma NoReachableRace(f: Fn, cfg: Config, es: seq<Event>, c: nat, t: nat, k: nat, c': nat, t': nat, k': nat)
    requires RaceFree(cfg.clusters) && Schedule(cfg.clusters, es)
    requires CanRetire(After(f, cfg, es).clusters, c, t, k) && CanRetire(After(f, cfg, es).clusters, c', t', k')
    requires (c, t, k) != (c', t', k')
    ensures var cs: seq<seq<Thread>> := After(f, cfg, es).clusters;
            Independent(cs[c][t].pend[k].op, cs[c'][t'].pend[k'].op)
  {
    ScheduleKeeps(f, cfg, es);
    var cs: seq<seq<Thread>> := After(f, cfg, es).clusters;
    var x, y := cs[c][t].pend[k].op, cs[c'][t'].pend[k'].op;
    assert x in Window(cs[c][t]) by { assert PendOps(cs[c][t].pend)[k] == x; }
    assert y in Window(cs[c'][t']) by { assert PendOps(cs[c'][t'].pend)[k'] == y; }
    if c != c' {
      WindowInCluster(cs[c], t, x);
      WindowInCluster(cs[c'], t', y);
      assert AllIndependent(ClusterOps(cs[c]), ClusterOps(cs[c']));
    } else if t != t' {
      assert PairOk(cs[c][t], cs[c][t']);
    } else {
      assert PendOk(cs[c][t].pend);
      if k < k' {
        assert cs[c][t].pend[k].q != cs[c][t].pend[k'].q;
      } else {
        assert cs[c][t].pend[k'].q != cs[c][t].pend[k].q;
      }
    }
  }

  /** A state in which something is left to do always has a step. */
  lemma NeverStuck(f: Fn, cfg: Config, es: seq<Event>)
    requires RaceFree(cfg.clusters) && Schedule(cfg.clusters, es)
    requires !Finished(After(f, cfg, es).clusters)
    ensures exists e :: Enabled(After(f, cfg, es).clusters, e)
  {
    ScheduleKeeps(f, cfg, es);
    var cs: seq<seq<Thread>> := After(f, cfg, es).clusters;
    var c, t :| 0 <= c < |cs| && 0 <= t < |cs[c]| && !ThreadDone(cs[c][t]);
    if u :| 0 <= u < |cs[c]| && cs[c][u].pend != [] {
      assert Enabled(cs, Retire(c, u, 0));
    } else if u :| 0 <= u < |cs[c]| && cs[c][u].cur != [] {
      assert Enabled(cs, if cs[c][u].cur[0].Issue? then DoIssue(c, u) else DoSync(c, u));
    } else {
      forall u | 0 <= u < |cs[c]| ensures AtBarrier(cs[c][u]) {
        assert u != t ==> PairOk(cs[c][t], cs[c][u]);
      }
      assert Enabled(cs, DoBarrier(c));
    }
  }

  // ----- Every schedule is finite -----

  function EpochWork(es: seq<seq<Instr>>): nat {
    if es == [] then 0 else 2 * |es[0]| + 1 + EpochWork(es[1..])
  }

  function ThreadWork(th: Thread): nat {
    |th.pend| + 2 * |th.cur| + EpochWork(th.later)
  }

  function ClusterWork(ths: seq<Thread>): nat {
    if ths == [] then 0 else ThreadWork(ths[0]) + ClusterWork(ths[1..])
  }

  function Work(cs: seq<seq<Thread>>): nat {
    if cs == [] then 0 else ClusterWork(cs[0]) + Work(cs[1..])
  }

  lemma {:induction false} ClusterWorkAt(ths: seq<Thread>, t: nat)
    requires t < |ths|
    ensures ClusterWork(ths) == ClusterWork(ths[..t]) + ThreadWork(ths[t]) + ClusterWork(ths[t + 1..])
  {
    if t > 0 {
      ClusterWorkAt(ths[1..], t - 1);
      assert ths[1..][..t - 1] == ths[..t][1..];
      assert ths[1..][t..] == ths[t + 1..];
    }
  }

  lemma {:induction false} WorkAt(cs: seq<seq<Thread>>, c: nat)
    requires c < |cs|
    ensures Work(cs) == Work(cs[..c]) + ClusterWork(cs[c]) + Work(cs[c + 1..])
  {
    if c > 0 {
      WorkAt(cs[1..], c - 1);
      assert cs[1..][..c - 1] == cs[..c][1..];
      assert cs[1..][c..] == cs[c + 1..];
    }
  }

  lemma {:induction false} BarrierLowersWork(ths: seq<Thread>, ths': seq<Thread>, e: Event)
    requires e.DoBarrier? && |ths| == |ths'|
    requires forall t | 0 <= t < |ths| :: AtBarrier(ths[t]) && ths'[t] == NextThread(ths[t], e)
    ensures ClusterWork(ths') == ClusterWork(ths) - |ths|
  {
    if ths != [] {
      BarrierLowersWork(ths[1..], ths'[1..], e);
    }
  }

  lemma ThreadLowersWork(cs: seq<seq<Thread>>, e: Event)
    requires Enabled(cs, e) && !e.DoBarrier?
    ensures ThreadWork(NextThread(cs[e.c][e.t], e)) < ThreadWork(cs[e.c][e.t])
  {
  }

  lemma ClusterLowersWork(cs: seq<seq<Thread>>, e: Event)
    requires Enabled(cs, e)
    ensures ClusterWork(NextClusters(cs, e)[e.c]) < ClusterWork(cs[e.c])
  {
    hide ThreadWork, NextThread;
    var ths, ths' := cs[e.c], NextClusters(cs, e)[e.c];
    if e.DoBarrier? {
      BarrierLowersWork(ths, ths', e);
    } else {
      ThreadLowersWork(cs, e);
      ClusterWorkAt(ths, e.t);
      ClusterWorkAt(ths', e.t);
      assert ths'[..e.t] == ths[..e.t] && ths'[e.t + 1..] == ths[e.t + 1..];
    }
  }

  lemma StepLowersWork(cs: seq<seq<Thread>>, e: Event)
    requires Enabled(cs, e)
    ensures Work(NextClusters(cs, e)) < Work(cs)
  {
    var cs' := NextClusters(cs, e);
    assert cs'[..e.c] == cs[..e.c] && cs'[e.c + 1..] == cs[e.c + 1..];
    hide ClusterWork, NextClusters;
    ClusterLowersWork(cs, e);
    WorkAt(cs, e.c);
    WorkAt(cs', e.c);
  }

  /** No schedule is longer than the work left. */
  lemma {:induction false} EveryScheduleIsBounded(cs: seq<seq<Thread>>, es: seq<Event>)
    requires Schedule(cs, es)
    ensures |es| <= Work(cs)
    decreases |es|
  {
    if es != [] {
      StepLowersWork(cs, es[0]);
      EveryScheduleIsBounded(NextClusters(cs, es[0]), es[1..]);
    }
  }

  // ----- Building race-free code -----

  lemma {:induction false} CodeOpsAppend(a: seq<Instr>, b: seq<Instr>)
    ensures CodeOps(a + b) == CodeOps(a) + CodeOps(b)
  {
    if a == [] {
      assert a + b == b;
    } else {
      assert (a + b)[1..] == a[1..] + b;
      CodeOpsAppend(a[1..], b);
      var first := if a[0].Issue? then [a[0].op] else [];
      assert CodeOps(a) == first + CodeOps(a[1..]);
      assert CodeOps(a + b) == first + CodeOps(a[1..] + b);
    }
  }

  /** What may still be pending when code has been issued on top of pend. */
  function PendAfter(pend: seq<Pending>, code: seq<Instr>): seq<Pending>
    decreases |code|
  {
    if code == [] then pend
    else PendAfter(if code[0].Sync? then [] else pend + [Pending(code[0].q, code[0].op)], code[1..])
  }

  lemma {:induction false} WellSyncedAppend(pend: seq<Pending>, a: seq<Instr>, b: seq<Instr>)
    requires WellSynced(pend, a) && WellSynced(PendAfter(pend, a), b)
    ensures WellSynced(pend, a + b)
    ensures PendAfter(pend, a + b) == PendAfter(PendAfter(pend, a), b)
    decreases |a|
  {
    if a == [] {
      assert a + b == b;
    } else {
      assert (a + b)[1..] == a[1..] + b;
      WellSyncedAppend(if a[0].Sync? then [] else pend + [Pending(a[0].q, a[0].op)], a[1..], b);
    }
  }

  /** Issue every operation of ops on queue q. */
  function Issues(q: Queue, ops: seq<Op>): (code: seq<Instr>)
    ensures |code| == |ops|
    ensures forall k | 0 <= k < |ops| :: code[k] == Issue(q, ops[k])
  {
    if ops == [] then [] else [Issue(q, ops[0])] + Issues(q, ops[1..])
  }

  lemma {:induction false} IssuesOps(q: Queue, ops: seq<Op>)
    ensures CodeOps(Issues(q, ops)) == ops
  {
    if ops != [] {
      IssuesOps(q, ops[1..]);
    }
  }

  /** Issuing ops on one queue is race free if they are independent of what is pending on the others. */
  lemma {:induction false} IssuesWellSynced(pend: seq<Pending>, q: Queue, ops: seq<Op>)
    requires forall i, k | 0 <= i < |pend| && 0 <= k < |ops| :: pend[i].q == q || Independent(pend[i].op, ops[k])
    ensures WellSynced(pend, Issues(q, ops))
    ensures |PendAfter(pend, Issues(q, ops))| == |pend| + |ops|
    ensures forall k | 0 <= k < |pend| :: PendAfter(pend, Issues(q, ops))[k] == pend[k]
    ensures forall k | 0 <= k < |ops| :: PendAfter(pend, Issues(q, ops))[|pend| + k] == Pending(q, ops[k])
    decreases |ops|
  {
    if ops != [] {
      var p := Pending(q, ops[0]);
      assert Issues(q, ops)[1..] == Issues(q, ops[1..]);
      IssuesWellSynced(pend + [p], q, ops[1..]);
      var after := PendAfter(pend, Issues(q, ops));
      assert after == PendAfter(pend + [p], Issues(q, ops[1..]));
      forall k | 0 <= k < |ops| ensures after[|pend| + k] == Pending(q, ops[k]) {
        if k > 0 {
          assert ops[1..][k - 1] == ops[k];
          assert after[|pend + [p]| + (k - 1)] == Pending(q, ops[k]);
        } else {
          assert after[|pend|] == (pend + [p])[|pend|];
        }
      }
    }
  }

  /** The stretch between two syncs of a thread that keeps its io and compute pipelines busy at once. */
  function Overlapped(io: seq<Op>, alu: seq<Op>): seq<Instr> {
    Issues(Io, io) + Issues(Alu, alu)
  }

  lemma OverlappedWellSynced(io: seq<Op>, alu: seq<Op>)
    requires AllIndependent(io, alu)
    ensures WellSynced([], Overlapped(io, alu))
    ensures CodeOps(Overlapped(io, alu)) == io + alu
  {
    IssuesWellSynced([], Io, io);
    var pend := PendAfter([], Issues(Io, io));
    assert forall k | 0 <= k < |io| :: pend[0 + k] == Pending(Io, io[k]);
    forall i, k | 0 <= i < |pend| && 0 <= k < |alu| ensures Independent(pend[i].op, alu[k]) {
      assert pend[0 + i] == Pending(Io, io[i]);
    }
    IssuesWellSynced(pend, Alu, alu);
    WellSyncedAppend([], Issues(Io, io), Issues(Alu, alu));
    CodeOpsAppend(Issues(Io, io), Issues(Alu, alu));
    IssuesOps(Io, io);
    IssuesOps(Alu, alu);
  }

  /** The io and compute operations of one stretch. */
  datatype Stretch = Stretch(io: seq<Op>, alu: seq<Op>)

  /** Stretches each followed by a sync. */
  function Synced(ss: seq<Stretch>): seq<Instr> {
    if ss == [] then []
    else
      var n := |ss| - 1;
      Synced(ss[..n]) + (Overlapped(ss[n].io, ss[n].alu) + [Sync])
  }

  function StretchOps(ss: seq<Stretch>): seq<Op> {
    if ss == [] then []
    else
      var n := |ss| - 1;
      StretchOps(ss[..n]) + (ss[n].io + ss[n].alu)
  }

  lemma StretchOpsSnoc(ss: seq<Stretch>, s: Stretch)
    ensures StretchOps(ss + [s]) == StretchOps(ss) + (s.io + s.alu)
    ensures Synced(ss + [s]) == Synced(ss) + (Overlapped(s.io, s.alu) + [Sync])
  {
    assert (ss + [s])[..|ss|] == ss;
  }

  ghost predicate StretchesOk(ss: seq<Stretch>) {
    forall k | 0 <= k < |ss| :: AllIndependent(ss[k].io, ss[k].alu)
  }

  lemma {:induction false} SyncedIsWellSynced(ss: seq<Stretch>)
    requires StretchesOk(ss)
    ensures WellSynced([], Synced(ss)) && PendAfter([], Synced(ss)) == []
    ensures CodeOps(Synced(ss)) == StretchOps(ss)
  {
    if ss != [] {
      var n := |ss| - 1;
      var io, alu := ss[n].io, ss[n].alu;
      SyncedIsWellSynced(ss[..n]);
      OverlappedWellSynced(io, alu);
      assert [Sync][1..] == [];
      WellSyncedAppend([], Overlapped(io, alu), [Sync]);
      WellSyncedAppend([], Synced(ss[..n]), Overlapped(io, alu) + [Sync]);
      CodeOpsAppend(Overlapped(io, alu), [Sync]);
      CodeOpsAppend(Synced(ss[..n]), Overlapped(io, alu) + [Sync]);
    }
  }

  /** Code whose stretches are separated by syncs, with no sync after the last. */
  function StretchCode(ss: seq<Stretch>, last: Stretch): seq<Instr> {
    Synced(ss) + Overlapped(last.io, last.alu)
  }

  lemma StretchCodeOk(ss: seq<Stretch>, last: Stretch)
    requires StretchesOk(ss + [last])
    ensures WellSynced([], StretchCode(ss, last))
    ensures CodeOps(StretchCode(ss, last)) == StretchOps(ss + [last])
  {
    assert last == (ss + [last])[|ss|];
    assert forall k | 0 <= k < |ss| :: ss[k] == (ss + [last])[k];
    SyncedIsWellSynced(ss);
    OverlappedWellSynced(last.io, last.alu);
    WellSyncedAppend([], Synced(ss), Overlapped(last.io, last.alu));
    CodeOpsAppend(Synced(ss), Overlapped(last.io, last.alu));
    StretchOpsSnoc(ss, last);
  }

  /** How many operations write cell l. */
  function Writers(ops: seq<Op>, l: Loc): nat {
    if ops == [] then 0 else (if ops[0].Writes(l) then 1 else 0) + Writers(ops[1..], l)
  }

  lemma {:induction false} WritersAppend(a: seq<Op>, b: seq<Op>, l: Loc)
    ensures Writers(a + b, l) == Writers(a, l) + Writers(b, l)
  {
    if a == [] {
      assert a + b == b;
    } else {
      assert (a + b)[1..] == a[1..] + b;
      WritersAppend(a[1..], b, l);
    }
  }

  // ----- What single operations do to blocks of memory -----

  /** Cell i of the n cells from p holds g(i). */
  ghost predicate Holds(m: Mem, p: Loc, n: int, g: int -> int) {
    forall a :: p.addr <= a < p.addr + n ==> m(Loc(p.space, a)) == g(a - p.addr)
  }

  lemma CellHolds(m: Mem, p: Loc, n: int, g: int -> int, i: int)
    requires Holds(m, p, n, g) && 0 <= i < n
    ensures m(p.Plus(i)) == g(i)
  {
    var a := p.addr + i;
    assert m(Loc(p.space, a)) == g(a - p.addr);
    assert a - p.addr == i;
  }

  lemma CopyHolds(f: Fn, op: Op, m: Mem, g: int -> int)
    requires op.Copy? && Holds(m, op.src, op.n, g)
    ensures Holds(Apply(f, op, m), op.dst, op.n, g)
  {
    forall a | op.dst.addr <= a < op.dst.addr + op.n
      ensures Apply(f, op, m)(Loc(op.dst.space, a)) == g(a - op.dst.addr)
    {
      var i := a - op.dst.addr;
      CellHolds(m, op.src, op.n, g, i);
      var l := Loc(op.dst.space, a);
      assert op.Writes(l) && l.addr - op.dst.addr == i;
      assert Apply(f, op, m)(l) == Result(f, op, m, l) == m(op.src.Plus(i));
    }
  }

  /** Computing over n cells gives the right result in the first len of them if those were staged. */
  lemma ComputeHolds(f: Fn, op: Op, m: Mem, len: nat, ga: int -> int, gb: int -> int, g: int -> int)
    requires op.Compute? && len <= op.n
    requires Holds(m, op.a, len, ga) && Holds(m, op.b, len, gb)
    requires forall i :: g(i) == f(ga(i), gb(i))
    ensures Holds(Apply(f, op, m), op.dst, len, g)
  {
    forall a | op.dst.addr <= a < op.dst.addr + len
      ensures Apply(f, op, m)(Loc(op.dst.space, a)) == g(a - op.dst.addr)
    {
      var i := a - op.dst.addr;
      CellHolds(m, op.a, len, ga, i);
      CellHolds(m, op.b, len, gb, i);
      var l := Loc(op.dst.space, a);
      assert op.Writes(l) && l.addr - op.dst.addr == i;
      assert Apply(f, op, m)(l) == Result(f, op, m, l) == f(m(op.a.Plus(i)), m(op.b.Plus(i)));
    }
  }

  lemma ApplyKeeps(f: Fn, op: Op, m: Mem, p: Loc, n: nat, g: int -> int)
    requires !Overlap(op.dst, op.n, p, n) && Holds(m, p, n, g)
    ensures Holds(Apply(f, op, m), p, n, g)
  {
  }

  /** What a block at p that held g holds after a copy of n cells of h to q. */
  function Overlaid(p: Loc, q: Loc, n: nat, g: int -> int, h: int -> int): int -> int {
    i => if In(p.Plus(i), q, n) then h(p.addr + i - q.addr) else g(i)
  }

  /** A copy that lands on part of a block replaces that part. */
  lemma CopyOver(f: Fn, op: Op, m: Mem, p: Loc, n: nat, g: int -> int, h: int -> int)
    requires op.Copy? && Holds(m, p, n, g) && Holds(m, op.src, op.n, h)
    ensures Holds(Apply(f, op, m), p, n, Overlaid(p, op.dst, op.n, g, h))
  {
    var m' := Apply(f, op, m);
    var r := Overlaid(p, op.dst, op.n, g, h);
    CopyHolds(f, op, m, h);
    forall i | 0 <= i < n ensures m'(p.Plus(i)) == r(i) {
      CopyOverCell(f, op, m, p, n, g, h, i);
    }
    hide Holds, Apply;
    HoldsCells(m', p, n, r);
  }

  lemma CopyOverCell(f: Fn, op: Op, m: Mem, p: Loc, n: nat, g: int -> int, h: int -> int, i: nat)
    requires op.Copy? && Holds(m, p, n, g) && Holds(Apply(f, op, m), op.dst, op.n, h) && i < n
    ensures Apply(f, op, m)(p.Plus(i)) == Overlaid(p, op.dst, op.n, g, h)(i)
  {
    hide Holds, Apply;
    if In(p.Plus(i), op.dst, op.n) {
      CellHolds(Apply(f, op, m), op.dst, op.n, h, p.addr + i - op.dst.addr);
      assert op.dst.Plus(p.addr + i - op.dst.addr) == p.Plus(i);
    } else {
      CellHolds(m, p, n, g, i);
      CellKept(f, op, m, p.Plus(i));
    }
  }

  lemma CellKept(f: Fn, op: Op, m: Mem, l: Loc)
    requires !op.Writes(l)
    ensures Apply(f, op, m)(l) == m(l)
  {
  }

  lemma HoldsEqual(m: Mem, p: Loc, n: int, g: int -> int, g': int -> int)
    requires Holds(m, p, n, g) && forall i | 0 <= i < n :: g'(i) == g(i)
    ensures Holds(m, p, n, g')
  {
  }

  lemma HoldsCells(m: Mem, p: Loc, n: int, g: int -> int)
    requires forall i | 0 <= i < n :: m(p.Plus(i)) == g(i)
    ensures Holds(m, p, n, g)
  {
    forall a | p.addr <= a < p.addr + n ensures m(Loc(p.space, a)) == g(a - p.addr) {
      assert p.Plus(a - p.addr) == Loc(p.space, a);
    }
  }

  lemma ExecNone(f: Fn, m: Mem)
    ensures Exec(f, [], m) == m
  {
  }

  lemma ExecOne(f: Fn, a: Op, m: Mem)
    ensures Exec(f, [a], m) == Apply(f, a, m)
  {
    assert [a][1..] == [];
  }

  lemma ExecTwo(f: Fn, a: Op, b: Op, m: Mem)
    ensures Exec(f, [a, b], m) == Apply(f, b, Apply(f, a, m))
  {
    assert [a, b][1..] == [b];
    ExecOne(f, b, Apply(f, a, m));
  }

  /** Two adjacent blocks that hold consecutive parts of g hold g together. */
  lemma HoldsJoin(m: Mem, p: Loc, n: nat, n': nat, g: int -> int, g': int -> int)
    requires Holds(m, p, n, g) && Holds(m, p.Plus(n), n', g')
    requires forall i | 0 <= i < n' :: g'(i) == g(n + i)
    ensures Holds(m, p, n + n', g)
  {
    forall a | p.addr <= a < p.addr + (n + n') ensures m(Loc(p.space, a)) == g(a - p.addr) {
      if p.addr + n <= a {
        var i := a - p.addr - n;
        CellHolds(m, p.Plus(n), n', g', i);
        assert p.Plus(n).Plus(i) == Loc(p.space, a);
        assert g'(i) == g(n + i);
      }
    }
  }

  /** Part of a block holds the corresponding part of g. */
  lemma HoldsPart(m: Mem, p: Loc, n: int, g: int -> int, off: nat, len: nat, g': int -> int)
    requires Holds(m, p, n, g) && off + len <= n
    requires forall i | 0 <= i < len :: g'(i) == g(off + i)
    ensures Holds(m, p.Plus(off), len, g')
  {
    forall a | p.addr + off <= a < p.addr + off + len ensures m(Loc(p.space, a)) == g'(a - p.Plus(off).addr) {
      var i := a - p.addr - off;
      CellHolds(m, p, n, g, off + i);
      assert p.Plus(off + i) == Loc(p.space, a) && g'(i) == g(off + i) && a - p.Plus(off).addr == i;
    }
  }

  /** Memory that has not changed on a block still holds what it held there. */
  lemma HoldsFrame(m: Mem, m': Mem, p: Loc, n: int, g: int -> int)
    requires Holds(m, p, n, g)
    requires forall a :: p.addr <= a < p.addr + n ==> m'(Loc(p.space, a)) == m(Loc(p.space, a))
    ensures Holds(m', p, n, g)
  {
  }
}
