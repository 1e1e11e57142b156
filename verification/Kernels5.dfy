/**
 The five-stage kernel as the instruction stream each of its threads issues. The memory core and the compute
 cores run the same program; KernelStream drops what is not for them. The kernel issues, epoch by epoch, the
 code of the thread that Pipeline5Launch reasons about.
 */
module Kernels5 {
  import opened AsyncMachine
  import opened KernelStream
  import opened Pipeline5
  import opened Pipeline5Launch
  import Rounding

  function AgentOf(memoryCore: bool, taskIdX: nat): Agent {
    if memoryCore then MemoryCore else ComputeCore(taskIdX)
  }

  lemma CodesSnoc(j: Job, ps: seq<Phase>, p: Phase, a: Agent)
    requires j.Valid()
    ensures j.Codes(ps + [p], a) == j.Codes(ps, a) + [j.PhaseCode(p, a)]
  {
    hide Job.PhaseCode;
  }

  /** What a thread issues for transfers, which are the memory core's, and for a core's part. */
  function Transfers(memoryCore: bool, io: seq<Op>): seq<Instr> {
    if memoryCore then Issues(Io, io) else []
  }

  function Part(memoryCore: bool, ops: seq<Op>): seq<Instr> {
    if memoryCore then [] else CoreCodeOf(ops)
  }

  lemma {:induction false} IssuesAppend(q: Queue, xs: seq<Op>, ys: seq<Op>)
    ensures Issues(q, xs + ys) == Issues(q, xs) + Issues(q, ys)
  {
    if xs == [] {
      assert xs + ys == ys;
    } else {
      assert (xs + ys)[1..] == xs[1..] + ys;
      IssuesAppend(q, xs[1..], ys);
    }
  }

  lemma PhaseIssued(j: Job, p: Phase, memoryCore: bool, k: nat, st: seq<Op>, ld: seq<Op>, ops: seq<Op>)
    requires j.Valid() && p.io == st + ld && j.CoreWork(p, k) == ops
    ensures j.PhaseCode(p, AgentOf(memoryCore, k)) == Transfers(memoryCore, st) + Transfers(memoryCore, ld) +
            Part(memoryCore, ops)
    ensures Transfers(memoryCore, []) == [] && Part(memoryCore, []) == []
  {
    IssuesAppend(Io, st, ld);
  }

  lemma PartIs(j: Job, p: Phase, k: nat)
    requires j.Valid()
    ensures p.work.Full? ==> j.CoreWork(p, k) == j.CoreOps(k, p.h, k * j.span, j.span, j.span)
    ensures p.work.Remainder? ==>
              j.CoreWork(p, k) == j.CoreOps(k, p.h, k * j.EvenShare(), j.Share(k), Rounding.PadUp(j.Share(k), j.align))
    ensures p.work.Idle? ==> j.CoreWork(p, k) == []
  {
    hide Job.CoreOps, Job.EvenShare, Job.Share;
  }

  lemma ParityHalf(j: Job, k: nat)
    ensures k % 2 * j.SramNum() == j.Half(k)
  {
    hide Job.SramNum;
    assert k % 2 == 0 || k % 2 == 1;
  }

  // ----- The transfers and the work of a phase -----

  method LoadInputs(s: Stream, j: Job, h: nat, base: int, len: nat)
    requires s.Valid()
    modifies s
    ensures s.Valid() && s.Past() == old(s.Past())
    ensures s.Issued() == old(s.Issued()) + Transfers(s.memoryCore, j.LoadAt(h, base, len))
  {
    s.MemcpyAsync(j.Shared1(h), Loc(Gdram, j.x + base), len, GDRAM2SRAM);
    s.MemcpyAsync(j.Shared2(h), Loc(Gdram, j.y + base), len, GDRAM2SRAM);
  }

  method StoreOutput(s: Stream, j: Job, h: nat, base: int, len: nat)
    requires s.Valid()
    modifies s
    ensures s.Valid() && s.Past() == old(s.Past())
    ensures s.Issued() == old(s.Issued()) + Transfers(s.memoryCore, j.StoreAt(h, base, len))
  {
    s.MemcpyAsync(Loc(Gdram, j.z + base), j.Shared1(h), len, SRAM2GDRAM);
  }

  /** Move the inputs of a part in, compute, and move the result out over the first input. */
  method WorkOn(s: Stream, j: Job, taskIdX: nat, h: nat, off: nat, len: nat, padded: nat)
    requires s.Valid() && 0 < len
    modifies s
    ensures s.Valid() && s.Past() == old(s.Past())
    ensures s.Issued() == old(s.Issued()) + Part(s.memoryCore, j.CoreOps(taskIdX, h, off, len, padded))
  {
    s.MemcpyAsync(j.Private(taskIdX, j.gap1), j.Shared1(h).Plus(off), len, SRAM2NRAM);
    s.MemcpyAsync(j.Private(taskIdX, j.gap2), j.Shared2(h).Plus(off), len, SRAM2NRAM);
    s.SyncThread();
    s.ComputeBlock(j.Private(taskIdX, 0), j.Private(taskIdX, j.gap1), j.Private(taskIdX, j.gap2), padded);
    s.SyncThread();
    s.MemcpyAsync(j.Shared1(h).Plus(off), j.Private(taskIdX, 0), len, NRAM2SRAM);
  }

  // ----- The kernel -----

  /** The loads of the first two tiles, with the work on tile 0. */
  method Start(s: Stream, j: Job, taskIdX: nat, repeat: nat)
    requires j.Valid() && repeat == j.Repeat() && s.Valid() && s.Past() == [] && s.Issued() == []
    modifies s
    ensures s.Valid() && s.Issued() == []
    ensures s.Past() == j.Codes(j.Head(0), AgentOf(s.memoryCore, taskIdX))
  {
    hide Job.LoadAt, Job.SramNum, Job.CoreOps, Job.Repeat, Job.PhaseCode, Job.CoreWork, Job.Codes, Transfers, Part;
    ghost var a := AgentOf(s.memoryCore, taskIdX);
    var sramNum := j.SramNum();
    ghost var p0, p1 := Phase(j.LoadTile(0), 0, Idle), Phase(j.LoadTile(1), j.Half(0), Full);
    CodesStart(j, p0, p1, a);
    PartIs(j, p0, taskIdX);
    PartIs(j, p1, taskIdX);
    PhaseIssued(j, p0, s.memoryCore, taskIdX, [], j.LoadTile(0), []);
    PhaseIssued(j, p1, s.memoryCore, taskIdX, [], j.LoadTile(1), j.CoreWork(p1, taskIdX));
    if repeat > 0 {
      LoadInputs(s, j, 0, 0, sramNum);
      assert s.Issued() == j.PhaseCode(p0, a);
      s.SyncCluster();
      assert s.Past() == [j.PhaseCode(p0, a)];
    }
    if repeat > 1 {
      LoadInputs(s, j, sramNum, sramNum, sramNum);
      WorkOn(s, j, taskIdX, 0, taskIdX * j.span, j.span, j.span);
      assert s.Issued() == j.PhaseCode(p1, a);
      s.SyncCluster();
      assert j.Prologue() == [p0] + [p1];
    } else {
      assert j.Prologue() == if repeat > 0 then [p0] else [];
    }
  }

  lemma CodesStart(j: Job, p0: Phase, p1: Phase, a: Agent)
    requires j.Valid()
    ensures j.Codes([], a) == [] && j.Codes([p0], a) == [j.PhaseCode(p0, a)]
    ensures j.Codes([p0] + [p1], a) == [j.PhaseCode(p0, a)] + [j.PhaseCode(p1, a)]
  {
    hide Job.PhaseCode;
  }

  /** Store tile i and load tile i+2 in its place while the cores work on tile i+1. */
  method OverlapTiles(s: Stream, j: Job, taskIdX: nat, i: nat)
    requires j.Valid() && s.Valid() && s.Issued() == []
    requires s.Past() == j.Codes(j.Head(i), AgentOf(s.memoryCore, taskIdX))
    modifies s
    ensures s.Valid() && s.Issued() == []
    ensures s.Past() == j.Codes(j.Head(i + 1), AgentOf(s.memoryCore, taskIdX))
  {
    hide Job.LoadAt, Job.StoreAt, Job.SramNum, Job.CoreOps, Job.Half, Job.Codes, Job.PhaseCode, Job.CoreWork, Transfers,
         Part;
    ghost var p := j.Steady(i);
    var sramNum := j.SramNum();
    StepFacts(j, i, s.memoryCore, taskIdX);
    StoreOutput(s, j, i % 2 * sramNum, i * sramNum, sramNum);
    LoadInputs(s, j, i % 2 * sramNum, (i + 2) * sramNum, sramNum);
    WorkOn(s, j, taskIdX, (i + 1) % 2 * sramNum, taskIdX * j.span, j.span, j.span);
    assert s.Issued() == j.PhaseCode(p, AgentOf(s.memoryCore, taskIdX));
    s.SyncCluster();
    CodesSnoc(j, j.Head(i), p, AgentOf(s.memoryCore, taskIdX));
  }

  lemma StepFacts(j: Job, i: nat, memoryCore: bool, k: nat)
    requires j.Valid()
    ensures i % 2 * j.SramNum() == j.Half(i) == j.Half(i + 2) && (i + 1) % 2 * j.SramNum() == j.Half(i + 1)
    ensures j.PhaseCode(j.Steady(i), AgentOf(memoryCore, k)) ==
            [] + Transfers(memoryCore, j.StoreTile(i)) + Transfers(memoryCore, j.LoadTile(i + 2))
            + Part(memoryCore, j.CoreOps(k, j.Half(i + 1), k * j.span, j.span, j.span))
  {
    hide Job.LoadAt, Job.StoreAt, Job.SramNum, Job.CoreOps, Job.PhaseCode, Job.CoreWork, Transfers, Part;
    ParityHalf(j, i);
    ParityHalf(j, i + 1);
    assert j.Half(i) == j.Half(i + 2);
    var p := j.Steady(i);
    PartIs(j, p, k);
    PhaseIssued(j, p, memoryCore, k, j.StoreTile(i), j.LoadTile(i + 2), j.CoreWork(p, k));
  }

  /** Store the last tile but one and load the remainder while the cores work on the last tile. */
  method DrainTiles(s: Stream, j: Job, taskIdX: nat, repeat: nat, clusterRem: nat)
    requires j.Valid() && repeat == j.Repeat() && clusterRem == j.Rem() && s.Valid() && s.Issued() == []
    requires s.Past() == j.Codes(j.Head(j.Loops()), AgentOf(s.memoryCore, taskIdX))
    modifies s
    ensures s.Valid() && s.Issued() == []
    ensures s.Past() == j.Codes(j.Head(j.Loops()) + [j.Drain()], AgentOf(s.memoryCore, taskIdX))
  {
    hide Job.LoadAt, Job.StoreAt, Job.SramNum, Job.CoreOps, Job.Half, Job.Codes, Job.Head, Job.Repeat, Job.Rem,
         Job.PhaseCode, Job.CoreWork, Transfers, Part;
    ghost var p, a := j.Drain(), AgentOf(s.memoryCore, taskIdX);
    var sramNum := j.SramNum();
    DrainFacts(j, s.memoryCore, taskIdX);
    if repeat >= 2 {
      StoreOutput(s, j, repeat % 2 * sramNum, (repeat - 2) * sramNum, sramNum);
    }
    assert s.Issued() == Transfers(s.memoryCore, j.DrainStore());
    if clusterRem > 0 {
      LoadInputs(s, j, repeat % 2 * sramNum, repeat * sramNum, clusterRem);
    }
    assert s.Issued() == Transfers(s.memoryCore, j.DrainStore()) + Transfers(s.memoryCore, j.DrainLoad());
    if repeat > 0 {
      WorkOn(s, j, taskIdX, (repeat - 1) % 2 * sramNum, taskIdX * j.span, j.span, j.span);
    }
    assert s.Issued() == j.PhaseCode(p, a);
    s.SyncCluster();
    CodesSnoc(j, j.Head(j.Loops()), p, a);
  }

  lemma DrainFacts(j: Job, memoryCore: bool, k: nat)
    requires j.Valid()
    ensures j.Repeat() >= 2 ==> j.Repeat() % 2 * j.SramNum() == j.Half(j.Repeat() - 2)
    ensures j.Repeat() % 2 * j.SramNum() == j.Half(j.Repeat())
    ensures j.Repeat() > 0 ==> (j.Repeat() - 1) % 2 * j.SramNum() == j.Half(j.Repeat() - 1)
    ensures j.PhaseCode(j.Drain(), AgentOf(memoryCore, k)) ==
            Transfers(memoryCore, j.DrainStore()) + Transfers(memoryCore, j.DrainLoad())
            + Part(memoryCore, if j.Repeat() > 0 then j.CoreOps(k, j.Half(j.Repeat() - 1), k * j.span, j.span, j.span)
                   else [])
    ensures Transfers(memoryCore, []) == [] && Part(memoryCore, []) == []
  {
    hide Job.LoadAt, Job.StoreAt, Job.SramNum, Job.CoreOps, Job.PhaseCode, Job.CoreWork, Transfers, Part, Job.Repeat,
         Job.DrainLoad;
    var r, p := j.Repeat(), j.Drain();
    ParityHalf(j, r);
    if r > 0 {
      ParityHalf(j, r - 1);
    }
    PartIs(j, p, k);
    PhaseIssued(j, p, memoryCore, k, j.DrainStore(), j.DrainLoad(), j.CoreWork(p, k));
  }

  /** Store the last full tile while the cores work on the remainder, then store the remainder. */
  method FinishTiles(s: Stream, j: Job, taskIdX: nat, repeat: nat, clusterRem: nat, remCoreOffset: nat,
                     clusterRemToCore: nat, alignClusterRemToCore: nat)
    requires j.Valid() && repeat == j.Repeat() && clusterRem == j.Rem() && s.Valid() && s.Issued() == []
    requires remCoreOffset == taskIdX * j.EvenShare() && clusterRemToCore == j.Share(taskIdX)
    requires alignClusterRemToCore == Rounding.PadUp(clusterRemToCore, j.align)
    requires s.Past() == j.Codes(j.Head(j.Loops()) + [j.Drain()], AgentOf(s.memoryCore, taskIdX))
    modifies s
    ensures s.Valid() && s.epochs == j.Codes(j.Phases(), AgentOf(s.memoryCore, taskIdX))
  {
    hide Job.LoadAt, Job.StoreAt, Job.SramNum, Job.CoreOps, Job.Half, Job.Codes, Job.Head, Job.Repeat, Job.Rem,
         Job.Drain, Job.Share, Job.EvenShare, Job.PhaseCode, Job.CoreWork, Transfers, Part, Rounding.PadUp, Job.Phases,
         Job.Tail;
    ghost var a, front := AgentOf(s.memoryCore, taskIdX), j.Head(j.Loops()) + [j.Drain()];
    var sramNum := j.SramNum();
    TailFacts(j, s.memoryCore, taskIdX);
    if repeat > 0 {
      StoreOutput(s, j, (repeat - 1) % 2 * sramNum, (repeat - 1) * sramNum, sramNum);
    }
    assert s.Issued() == Transfers(s.memoryCore, j.Tail().io);
    if clusterRem > 0 {
      if clusterRemToCore != 0 {
        WorkOn(s, j, taskIdX, repeat % 2 * sramNum, remCoreOffset, clusterRemToCore, alignClusterRemToCore);
      }
      assert s.Issued() == j.PhaseCode(j.Tail(), a);
      s.SyncCluster();
      CodesSnoc(j, front, j.Tail(), a);
      StoreOutput(s, j, repeat % 2 * sramNum, repeat * sramNum, clusterRem);
      LastFacts(j, s.memoryCore, taskIdX);
      assert s.Issued() == j.PhaseCode(j.Last()[0], a);
      s.SyncCluster();
      LastCodes(j, front + [j.Tail()], a);
    } else {
      assert s.Issued() == j.PhaseCode(j.Tail(), a);
      CodesSnoc(j, front, j.Tail(), a);
    }
    PhasesEnd(j);
    assert s.epochs == s.Past() + [s.Issued()];
  }

  lemma TailFacts(j: Job, memoryCore: bool, k: nat)
    requires j.Valid()
    ensures j.Repeat() % 2 * j.SramNum() == j.Half(j.Repeat())
    ensures j.Repeat() > 0 ==> (j.Repeat() - 1) % 2 * j.SramNum() == j.Half(j.Repeat() - 1)
    ensures j.Tail().io == if j.Repeat() > 0 then j.StoreTile(j.Repeat() - 1) else []
    ensures j.PhaseCode(j.Tail(), AgentOf(memoryCore, k)) ==
            Transfers(memoryCore, j.Tail().io)
            + Part(memoryCore, if j.Rem() > 0 && j.Share(k) != 0
                               then j.CoreOps(k, j.Half(j.Repeat()), k * j.EvenShare(), j.Share(k),
                                              Rounding.PadUp(j.Share(k), j.align))
                               else [])
    ensures Transfers(memoryCore, []) == [] && Part(memoryCore, []) == []
  {
    hide Job.StoreAt, Job.SramNum, Job.PhaseCode, Job.CoreWork, Transfers, Part, Job.Repeat, Job.Share, Job.EvenShare,
         Rounding.PadUp;
    var r, p := j.Repeat(), j.Tail();
    ParityHalf(j, r);
    if r > 0 {
      ParityHalf(j, r - 1);
    }
    PartIs(j, p, k);
    PhaseIssued(j, p, memoryCore, k, p.io, [], j.CoreWork(p, k));
    assert p.io == p.io + [];
  }

  lemma LastFacts(j: Job, memoryCore: bool, k: nat)
    requires j.Valid() && j.Rem() > 0
    ensures |j.Last()| == 2
    ensures j.PhaseCode(j.Last()[0], AgentOf(memoryCore, k)) ==
            [] + Transfers(memoryCore, j.StoreAt(j.Half(j.Repeat()), j.Repeat() * j.SramNum(), j.Rem()))
  {
    hide Job.StoreAt, Job.SramNum, Job.PhaseCode, Job.CoreWork, Transfers, Part, Job.Repeat, Job.Rem;
    var p := j.Last()[0];
    PartIs(j, p, k);
    PhaseIssued(j, p, memoryCore, k, p.io, [], []);
    assert p.io == p.io + [];
  }

  /** Nothing is issued after the barrier behind the last store. */
  lemma LastCodes(j: Job, ps: seq<Phase>, a: Agent)
    requires j.Valid() && j.Rem() > 0
    ensures |j.Last()| == 2 && j.Codes(ps + j.Last(), a) == j.Codes(ps, a) + [j.PhaseCode(j.Last()[0], a)] + [[]]
  {
    hide Job.Codes, Job.StoreAt, Job.Repeat, Job.Rem, Job.SramNum;
    var p, e := j.Last()[0], j.Last()[1];
    CodesSnoc(j, ps, p, a);
    CodesSnoc(j, ps + [p], e, a);
    assert ps + j.Last() == ps + [p] + [e];
    assert j.PhaseCode(e, a) == [];
  }

  lemma PhasesEnd(j: Job)
    requires j.Valid()
    ensures var ps := j.Head(j.Loops()) + [j.Drain()] + [j.Tail()];
            j.Phases() == if j.Rem() > 0 then ps + j.Last() else ps
  {
    hide Job.Head, Job.Drain, Job.Tail, Job.Repeat;
    if j.Rem() == 0 {
      assert j.Last() == [];
    }
  }

  /** The kernel on one thread: cluster taskIdY, core taskIdX. */
  method Kernel5StagePipeline(s: Stream, x: int, y: int, z: int, dataNum: nat, taskDimY: nat, taskIdY: nat,
                              coreDim: nat, taskIdX: nat, spanNumDeal: nat, alignNum: nat, gap1: nat, gap2: nat)
    requires var w := Launch(x, y, z, dataNum, taskDimY, coreDim, spanNumDeal, alignNum, gap1, gap2);
             w.Valid() && taskIdY < taskDimY && taskIdX < coreDim
    requires s.Valid() && s.Past() == [] && s.Issued() == []
    modifies s
    ensures s.Valid()
    ensures var w := Launch(x, y, z, dataNum, taskDimY, coreDim, spanNumDeal, alignNum, gap1, gap2);
            var j := w.JobOf(taskIdY);
            && j.Valid() && s.epochs == j.Codes(j.Phases(), AgentOf(s.memoryCore, taskIdX))
            && Thread([], s.epochs[0], s.epochs[1..]) == j.ThreadOf(j.Phases(), AgentOf(s.memoryCore, taskIdX))
  {
    hide Job.SramNum, Job.Codes, Job.ThreadOf, Job.Head, Job.Drain, Job.Tail, Job.Last, Job.Phases, Launch.JobOf;
    var j := ClusterSlice(x, y, z, dataNum, taskDimY, taskIdY, coreDim, spanNumDeal, alignNum, gap1, gap2);
    j.SramPositive();
    var sramNum := j.SramNum();
    var repeat, clusterRem := Rounding.Quotient(j.n, sramNum), j.n % sramNum;
    var clusterRemToCore, remainCore := Rounding.Quotient(clusterRem, coreDim), clusterRem % coreDim;
    var remCoreOffset := taskIdX * clusterRemToCore;
    if remainCore > 0 && taskIdX == coreDim - 1 {
      clusterRemToCore := clusterRemToCore + remainCore;
    }
    var alignClusterRemToCore := Rounding.PadUp(clusterRemToCore, alignNum);
    assert repeat == j.Repeat();
    Start(s, j, taskIdX, repeat);
    var i: int := 0;
    while i + 2 < repeat
      invariant 0 <= i && (i + 2 <= repeat || i == 0) && s.Valid() && s.Issued() == []
      invariant s.Past() == j.Codes(j.Head(i), AgentOf(s.memoryCore, taskIdX))
    {
      OverlapTiles(s, j, taskIdX, i);
      i := i + 1;
    }
    assert i == j.Loops();
    DrainTiles(s, j, taskIdX, repeat, clusterRem);
    FinishTiles(s, j, taskIdX, repeat, clusterRem, remCoreOffset, clusterRemToCore, alignClusterRemToCore);
    ThreadFromCodes(j, AgentOf(s.memoryCore, taskIdX));
  }

  lemma ThreadFromCodes(j: Job, a: Agent)
    requires j.Valid()
    ensures var codes := j.Codes(j.Phases(), a);
            codes != [] && j.ThreadOf(j.Phases(), a) == Thread([], codes[0], codes[1..])
  {
    hide Job.PhaseCode, Job.Phases;
  }

  /** The slice of a cluster; the last one also takes what does not divide evenly. */
  method ClusterSlice(x: int, y: int, z: int, dataNum: nat, taskDimY: nat, taskIdY: nat, coreDim: nat, spanNumDeal: nat,
                      alignNum: nat, gap1: nat, gap2: nat) returns (j: Job)
    requires var w := Launch(x, y, z, dataNum, taskDimY, coreDim, spanNumDeal, alignNum, gap1, gap2);
             w.Valid() && taskIdY < taskDimY
    ensures j == Launch(x, y, z, dataNum, taskDimY, coreDim, spanNumDeal, alignNum, gap1, gap2).JobOf(taskIdY) &&
            j.Valid()
    ensures j.cores == coreDim && j.align == alignNum && j.span == spanNumDeal
  {
    ghost var w := Launch(x, y, z, dataNum, taskDimY, coreDim, spanNumDeal, alignNum, gap1, gap2);
    var numPerCluster, numRemCluster := Rounding.Quotient(dataNum, taskDimY), dataNum % taskDimY;
    var clusterOffset := taskIdY * numPerCluster;
    if numRemCluster > 0 && taskIdY == taskDimY - 1 {
      numPerCluster := numPerCluster + numRemCluster;
    }
    j := Job(taskIdY, x + clusterOffset, y + clusterOffset, z + clusterOffset, numPerCluster, coreDim, spanNumDeal,
             alignNum, gap1, gap2);
    w.JobIsValid(taskIdY);
  }
}
