/**
 The two three-stage kernels as the instruction streams they issue. The first picks the ping or pong half by
 the parity of the tile number, the second toggles two offsets with exclusive or; both issue the very program
 that Pipeline3 proves correct.
 */
module Kernels3 {
  import opened AsyncMachine
  import opened KernelStream
  import opened MachineInts
  import opened Pipeline3

  /** Bitwise exclusive or. */
  function Xor(a: nat, b: nat): nat
    decreases a + b
  {
    if a == 0 && b == 0 then 0
    else 2 * Xor(a / 2, b / 2) + if a % 2 != b % 2 then 1 else 0
  }

  lemma {:induction false} XorToggles(g: nat)
    ensures Xor(g, g) == 0 && Xor(0, g) == g
  {
    if g > 0 {
      XorToggles(g / 2);
    }
  }

  /** The split the first kernel makes on the device. */
  function DeviceSplit(x: int, y: int, z: int, total: nat, lay: Layout, taskDim: nat): Launch
    requires 0 < taskDim
  {
    Launch(x, y, z, total, lay, taskDim, total / taskDim, total / taskDim + total % taskDim)
  }

  lemma DeviceSplitAddsUp(total: nat, taskDim: nat)
    requires 0 < taskDim
    ensures (taskDim - 1) * (total / taskDim) + (total / taskDim + total % taskDim) == total
  {
    var q := total / taskDim;
    assert (taskDim - 1) * q == taskDim * q - q;
  }

  /** The first kernel on the device's own split computes the elementwise result over the whole array. */
  lemma DeviceSplitIsElementwise(f: Fn, x: int, y: int, z: int, total: nat, lay: Layout, taskDim: nat, m0: Mem,
                                 es: seq<Event>)
    requires lay.Valid() && 0 < taskDim
    requires (z == x || z + total <= x || x + total <= z) && (z == y || z + total <= y || y + total <= z)
    requires Schedule(DeviceSplit(x, y, z, total, lay, taskDim).Start(m0).clusters, es)
    requires Finished(After(f, DeviceSplit(x, y, z, total, lay, taskDim).Start(m0), es).clusters)
    ensures IsElementwise(f, x, y, z, total, m0, After(f, DeviceSplit(x, y, z, total, lay, taskDim).Start(m0), es).mem)
  {
    hide Layout.Valid, Schedule, After, Finished, IsElementwise;
    DeviceSplitAddsUp(total, taskDim);
    EveryScheduleIsElementwise(f, DeviceSplit(x, y, z, total, lay, taskDim), m0, es);
  }

  /** What a stretch of up to four operations looks like when issued one by one. */
  lemma IssuedOneByOne(io: seq<Op>, alu: seq<Op>)
    requires |io| <= 3 && |alu| <= 1
    ensures Overlapped(io, alu) ==
            (if |io| > 0 then [Issue(Io, io[0])] else []) + (if |io| > 1 then [Issue(Io, io[1])] else [])
            + (if |io| > 2 then [Issue(Io, io[2])] else []) + (if |alu| > 0 then [Issue(Alu, alu[0])] else [])
  {
  }

  /** The offset of tile k's half as the first kernel computes it. */
  function ParityOffset(k: nat, gap: nat): (offset: nat)
    ensures offset == if k % 2 == 0 then 0 else gap
  {
    assert k % 2 == 0 || k % 2 == 1;
    k % 2 * gap
  }

  /** Appending a synced stretch to the one epoch of the stream. */
  lemma SyncedSnoc(ss: seq<Stretch>, s: Stretch)
    ensures Synced(ss + [s]) == Synced(ss) + Overlapped(s.io, s.alu) + [Sync]
  {
    StretchOpsSnoc(ss, s);
  }


  // ----- The pieces both kernels share -----

  /** Load tile 0; load tile 1 while tile 0 is computed. */
  method Start(s: Stream, j: Job, repeat: nat)
    requires 0 < j.lay.span && repeat == j.Repeat()
    requires !s.memoryCore && s.Valid() && s.Issued() == []
    modifies s
    ensures s.Valid() && s.Past() == old(s.Past()) && s.Issued() == Synced(j.Head(0))
  {
    hide Synced;
    var span, gap := j.lay.span, j.lay.pingPong;
    if repeat > 0 {
      s.MemcpyAsync(j.In1(0), Loc(Gdram, j.x), span, GDRAM2NRAM);
      s.MemcpyAsync(j.In2(0), Loc(Gdram, j.y), span, GDRAM2NRAM);
      s.SyncThread();
    }
    if repeat > 1 {
      s.MemcpyAsync(j.In1(gap), Loc(Gdram, j.x + span), span, GDRAM2NRAM);
      s.MemcpyAsync(j.In2(gap), Loc(Gdram, j.y + span), span, GDRAM2NRAM);
      s.ComputeBlock(j.Out(0), j.In1(0), j.In2(0), span);
      s.SyncThread();
    }
    PrologueIssued(j);
    HeadZero(j);
  }

  /** Store tile i and load tile i+2 through the half at ith while the half at next is computed. */
  method OverlapTiles(s: Stream, j: Job, i: nat, ith: nat, next: nat)
    requires 0 < j.lay.span && ith == j.lay.Half(i) && next == j.lay.Half(i + 1)
    requires !s.memoryCore && s.Valid() && s.Issued() == Synced(j.Head(i))
    modifies s
    ensures s.Valid() && s.Past() == old(s.Past()) && s.Issued() == Synced(j.Head(i + 1))
  {
    hide Synced, Job.Head;
    var span := j.lay.span;
    s.MemcpyAsync(Loc(Gdram, j.z + i * span), j.Out(ith), span, NRAM2GDRAM);
    s.MemcpyAsync(j.In1(ith), Loc(Gdram, j.x + (i + 2) * span), span, GDRAM2NRAM);
    s.MemcpyAsync(j.In2(ith), Loc(Gdram, j.y + (i + 2) * span), span, GDRAM2NRAM);
    s.ComputeBlock(j.Out(next), j.In1(next), j.In2(next), span);
    s.SyncThread();
    SteadyIssued(j, i);
  }

  /** Store tile stored, the last but one, and load the remainder while the last tile is computed. */
  method DrainTiles(s: Stream, j: Job, repeat: nat, rem: nat, stored: int, storedAt: nat, remAt: nat, lastAt: nat)
    requires 0 < j.lay.span && repeat == j.Repeat() && rem == j.Rem()
    requires repeat > 1 ==> stored == repeat - 2 && storedAt == j.lay.Half(repeat - 2)
    requires remAt == j.lay.Half(repeat) && (repeat > 0 ==> lastAt == j.lay.Half(repeat - 1))
    requires !s.memoryCore && s.Valid() && s.Issued() == Synced(j.Head(j.Loops()))
    modifies s
    ensures s.Valid() && s.Past() == old(s.Past()) && s.Issued() == Synced(j.Head(j.Loops()) + [j.Drain()])
  {
    hide Synced, Job.Head, Job.Drain;
    var span := j.lay.span;
    if repeat > 1 {
      s.MemcpyAsync(Loc(Gdram, j.z + stored * span), j.Out(storedAt), span, NRAM2GDRAM);
    }
    if rem > 0 {
      s.MemcpyAsync(j.In1(remAt), Loc(Gdram, j.x + repeat * span), rem, GDRAM2NRAM);
      s.MemcpyAsync(j.In2(remAt), Loc(Gdram, j.y + repeat * span), rem, GDRAM2NRAM);
    }
    if repeat > 0 {
      s.ComputeBlock(j.Out(lastAt), j.In1(lastAt), j.In2(lastAt), span);
    }
    s.SyncThread();
    DrainIssued(j);
  }

  /** Store the last tile while the remainder is computed, then store the remainder. */
  method FinishTiles(s: Stream, j: Job, repeat: nat, rem: nat, alignRem: nat, remAt: nat, lastAt: nat)
    requires 0 < j.lay.span && 0 < j.lay.align && repeat == j.Repeat() && rem == j.Rem() && alignRem == j.AlignRem()
    requires remAt == j.lay.Half(repeat) && (repeat > 0 ==> lastAt == j.lay.Half(repeat - 1))
    requires !s.memoryCore && s.Valid() && s.Issued() == Synced(j.Head(j.Loops()) + [j.Drain()])
    modifies s
    ensures s.Valid() && s.Past() == old(s.Past()) && s.Issued() == j.Program()
  {
    hide Synced, Job.Head, Job.Drain, Job.Program, Rounding.CeilAlign;
    var span := j.lay.span;
    if repeat > 0 {
      s.MemcpyAsync(Loc(Gdram, j.z + (repeat - 1) * span), j.Out(lastAt), span, NRAM2GDRAM);
    }
    if rem > 0 {
      s.ComputeBlock(j.Out(remAt), j.In1(remAt), j.In2(remAt), alignRem);
      s.SyncThread();
      s.MemcpyAsync(Loc(Gdram, j.z + repeat * span), j.Out(remAt), rem, NRAM2GDRAM);
    }
    EndIssued(j);
  }

  // ----- The kernel that goes by parity -----

  /** The slice of this core; the last core also takes what does not divide evenly. */
  method DeviceSlice(input1: int, input2: int, output: int, elementNum: nat, lay: Layout, taskDim: nat, taskId: nat)
    returns (j: Job)
    requires taskId < taskDim
    ensures j == DeviceSplit(input1, input2, output, elementNum, lay, taskDim).JobOf(taskId)
    ensures j.lay == lay && j.core == taskId && j.n <= elementNum / taskDim + elementNum % taskDim
  {
    hide DeviceSplit;
    var numRem := elementNum % taskDim;
    var numPerCore := elementNum / taskDim;
    var start1, start2, startOut := input1 + taskId * numPerCore, input2 + taskId * numPerCore,
      output + taskId * numPerCore;
    if numRem > 0 && taskId == taskDim - 1 {
      numPerCore := numPerCore + numRem;
    }
    j := Job(start1, start2, startOut, numPerCore, lay, taskId);
    DeviceJob(j, input1, input2, output, elementNum, lay, taskDim, taskId);
  }

  method Kernel3StagePipeline(s: Stream, isMpu: bool, input1: int, input2: int, output: int, elementNum: nat,
                              lay: Layout, taskDim: nat, taskId: nat)
    requires taskId < taskDim && 0 < lay.span && 0 < lay.align
    requires (elementNum / taskDim + elementNum % taskDim) / lay.span <= INT32_MAX
    requires !s.memoryCore && s.Valid() && s.Past() == [] && s.Issued() == []
    modifies s
    ensures s.Valid() && s.Past() == []
    ensures s.Issued() ==
            if isMpu then [] else DeviceSplit(input1, input2, output, elementNum, lay, taskDim).JobOf(taskId).Program()
  {
    hide Synced, Job.Head, Job.Drain, Job.Program, Rounding.CeilAlign, ToInt32, ParityOffset, Launch.JobOf, DeviceSplit;
    if isMpu {
      return;
    }
    var j := DeviceSlice(input1, input2, output, elementNum, lay, taskDim, taskId);
    RepeatFits(j.n, elementNum, taskDim, lay.span);
    var repeat: int := ToInt32(j.n / lay.span);
    var rem := j.n % lay.span;
    var gap := lay.pingPong;

    Start(s, j, repeat);
    var i := 0;
    while i < repeat - 2
      invariant 0 <= i && (i == 0 || i <= repeat - 2)
      invariant s.Valid() && s.Past() == [] && s.Issued() == Synced(j.Head(i))
    {
      OverlapTiles(s, j, i, ParityOffset(i, gap), ParityOffset(i + 1, gap));
      i := i + 1;
    }
    var storedAt := if repeat > 1 then ParityOffset(repeat - 2, gap) else 0;
    var lastAt := if repeat > 0 then ParityOffset(repeat - 1, gap) else 0;
    DrainTiles(s, j, repeat, rem, repeat - 2, storedAt, ParityOffset(repeat, gap), lastAt);
    FinishTiles(s, j, repeat, rem, Rounding.CeilAlign(rem, lay.align), ParityOffset(repeat, gap), lastAt);
  }

  // ----- The kernel that toggles offsets -----

  /** Both offsets of the second kernel, before its loop's iteration i. */
  predicate TracksParity(lay: Layout, i: nat, ith: nat, next: nat) {
    ith == lay.Half(i) && next == lay.Half(i + 1)
  }

  /** Toggling both offsets moves them on to the next tile. */
  lemma ToggleStep(lay: Layout, i: nat, ith: nat, next: nat)
    requires TracksParity(lay, i, ith, next)
    ensures TracksParity(lay, i + 1, Xor(ith, lay.pingPong), Xor(Xor(ith, lay.pingPong), lay.pingPong))
  {
    XorToggles(lay.pingPong);
  }

  method Kernel3StagePipelineV2(s: Stream, input1: int, input2: int, output: int, normalCoreElemNum: nat,
                                tailCoreElemNum: nat, lay: Layout, taskDim: nat, taskId: nat)
    requires taskId < taskDim && 0 < lay.span && 0 < lay.align && lay.pingPong <= UINT32_MAX
    requires normalCoreElemNum / lay.span <= UINT32_MAX && tailCoreElemNum / lay.span <= UINT32_MAX
    requires !s.memoryCore && s.Valid() && s.Past() == [] && s.Issued() == []
    modifies s
    ensures s.Valid() && s.Past() == []
    ensures s.Issued() ==
            HostSplit(input1, input2, output, lay, taskDim, normalCoreElemNum, tailCoreElemNum).JobOf(taskId).Program()
  {
    hide Synced, Job.Head, Job.Drain, Job.Program, Rounding.CeilAlign, Xor, ToUint32, Launch.JobOf, HostSplit;
    var start1, start2, startOut :=
      input1 + taskId * normalCoreElemNum, input2 + taskId * normalCoreElemNum, output + taskId * normalCoreElemNum;
    var numCurCore := if taskId + 1 == taskDim then tailCoreElemNum else normalCoreElemNum;
    var j := Job(start1, start2, startOut, numCurCore, lay, taskId);
    var repeat := ToUint32(numCurCore / lay.span);
    HostJob(j, input1, input2, output, lay, taskDim, taskId, normalCoreElemNum, tailCoreElemNum);
    DivMonotone(0, numCurCore, lay.span);
    Uint32Fits(numCurCore / lay.span);
    Uint32Fits(lay.pingPong);
    Uint32Fits(0);
    var rem := numCurCore % lay.span;
    var gap := lay.pingPong;

    Start(s, j, repeat);
    XorToggles(gap);
    var lcsLoopNum := if repeat >= 2 then repeat - 2 else 0;
    var ith := 0;
    var next := ToUint32(Xor(ith, gap));
    var i := 0;
    while i < lcsLoopNum
      invariant 0 <= i <= lcsLoopNum && TracksParity(lay, i, ith, next)
      invariant s.Valid() && s.Past() == [] && s.Issued() == Synced(j.Head(i))
    {
      OverlapTiles(s, j, i, ith, next);
      ToggleStep(lay, i, ith, next);
      ith := ToUint32(Xor(ith, gap));
      next := ToUint32(Xor(ith, gap));
      i := i + 1;
    }
    HalvesAlternate(lay, lcsLoopNum);
    var repeatAt := if repeat == 1 then next else ith;
    var lastAt := if repeat == 1 then ith else next;
    DrainTiles(s, j, repeat, rem, lcsLoopNum, ith, repeatAt, lastAt);
    FinishTiles(s, j, repeat, rem, Rounding.CeilAlign(rem, lay.align), repeatAt, lastAt);
  }

  /** The split the host hands to the second kernel. */
  function HostSplit(x: int, y: int, z: int, lay: Layout, taskDim: nat, normal: nat, tail: nat): Launch
    requires 0 < taskDim
  {
    Launch(x, y, z, (taskDim - 1) * normal + tail, lay, taskDim, normal, tail)
  }

  // ----- What the issued code looks like -----

  lemma DeviceJob(j: Job, x: int, y: int, z: int, total: nat, lay: Layout, taskDim: nat, taskId: nat)
    requires taskId < taskDim
    requires var per := total / taskDim;
             && j.x == x + taskId * per && j.y == y + taskId * per && j.z == z + taskId * per
             && j.lay == lay && j.core == taskId
             && j.n == if total % taskDim > 0 && taskId == taskDim - 1 then per + total % taskDim else per
    ensures j == DeviceSplit(x, y, z, total, lay, taskDim).JobOf(taskId)
  {
  }

  lemma HostJob(j: Job, x: int, y: int, z: int, lay: Layout, taskDim: nat, taskId: nat, normal: nat, tail: nat)
    requires taskId < taskDim
    requires j.x == x + taskId * normal && j.y == y + taskId * normal && j.z == z + taskId * normal
    requires j.lay == lay && j.core == taskId && j.n == if taskId + 1 == taskDim then tail else normal
    ensures j == HostSplit(x, y, z, lay, taskDim, normal, tail).JobOf(taskId)
  {
  }

  lemma Uint32Fits(x: nat)
    requires x <= UINT32_MAX
    ensures ToUint32(x) == x
  {
  }

  lemma RepeatFits(n: nat, total: nat, taskDim: nat, span: nat)
    requires 0 < taskDim && 0 < span && n <= total / taskDim + total % taskDim
    requires (total / taskDim + total % taskDim) / span <= INT32_MAX
    ensures ToInt32(n / span) == n / span
  {
    DivMonotone(n, total / taskDim + total % taskDim, span);
  }

  lemma DivMonotone(a: nat, b: nat, d: nat)
    requires a <= b && 0 < d
    ensures 0 <= a / d <= b / d
  {
    if b / d < a / d {
      Rounding.MulMonotone(b / d + 1, a / d, d);
    }
  }

  lemma PrologueIssued(j: Job)
    requires 0 < j.lay.span
    ensures var (n, r) := (j.lay.span, j.Repeat());
            Synced(j.Prologue()) ==
            (if r > 0 then [Issue(Io, j.LoadOps(0, n)[0]), Issue(Io, j.LoadOps(0, n)[1]), Sync] else [])
            + if r > 1 then [Issue(Io, j.LoadOps(1, n)[0]), Issue(Io, j.LoadOps(1, n)[1]),
                             Issue(Alu, j.ComputeOps(0, n)[0]), Sync]
              else []
  {
    var n, r := j.lay.span, j.Repeat();
    var s0, s1 := Stretch(j.LoadOps(0, n), []), Stretch(j.LoadOps(1, n), j.ComputeOps(0, n));
    assert Synced([]) == [];
    IssuedOneByOne(s0.io, s0.alu);
    IssuedOneByOne(s1.io, s1.alu);
    SyncedSnoc([], s0);
    SyncedSnoc([s0], s1);
    assert [] + [s0] == [s0];
    assert r > 1 ==> j.Prologue() == [s0] + [s1];
    assert r == 1 ==> j.Prologue() == [s0];
    assert r == 0 ==> j.Prologue() == [];
  }

  lemma SteadyIssued(j: Job, i: nat)
    requires 0 < j.lay.span
    ensures var n := j.lay.span;
            Synced(j.Head(i + 1)) ==
            Synced(j.Head(i)) + [Issue(Io, j.StoreOps(i, n)[0])] + [Issue(Io, j.LoadOps(i + 2, n)[0])]
            + [Issue(Io, j.LoadOps(i + 2, n)[1])] + [Issue(Alu, j.ComputeOps(i + 1, n)[0])] + [Sync]
  {
    assert j.Head(i + 1) == j.Head(i) + [j.Steady(i)];
    hide Job.Head, Synced, Layout.Half;
    var st := j.Steady(i);
    SyncedSnoc(j.Head(i), st);
    IssuedOneByOne(st.io, st.alu);
  }

  lemma DrainIssued(j: Job)
    requires 0 < j.lay.span
    ensures var (n, r, rem) := (j.lay.span, j.Repeat(), j.Rem());
            Synced(j.Head(j.Loops()) + [j.Drain()]) ==
            Synced(j.Head(j.Loops())) + (if r > 1 then [Issue(Io, j.StoreOps(r - 2, n)[0])] else [])
            + (if rem > 0 then [Issue(Io, j.LoadOps(r, rem)[0])] + [Issue(Io, j.LoadOps(r, rem)[1])] else [])
            + (if r > 0 then [Issue(Alu, j.ComputeOps(r - 1, n)[0])] else []) + [Sync]
  {
    hide Synced, Overlapped, Job.Head, StretchOps;
    SyncedSnoc(j.Head(j.Loops()), j.Drain());
    IssuedOneByOne(j.Drain().io, j.Drain().alu);
    var rem := j.Rem();
    assert j.Repeat() > 1 && rem > 0 ==> j.Drain().io == j.DrainStore() + j.DrainLoad();
  }

  lemma EndIssued(j: Job)
    requires 0 < j.lay.span && 0 < j.lay.align
    ensures var (n, r, rem) := (j.lay.span, j.Repeat(), j.Rem());
            j.Program() ==
            Synced(j.Head(j.Loops()) + [j.Drain()]) + (if r > 0 then [Issue(Io, j.StoreOps(r - 1, n)[0])] else [])
            + if rem > 0 then [Issue(Alu, j.ComputeOps(r, j.AlignRem())[0])] + [Sync] +
              [Issue(Io, j.StoreOps(r, rem)[0])]
              else []
  {
    hide Synced, Overlapped, Job.Head, Job.Drain, StretchOps;
    var front := j.Head(j.Loops()) + [j.Drain()];
    IssuedOneByOne(j.Tail().io, j.Tail().alu);
    IssuedOneByOne(j.Final().io, j.Final().alu);
    if j.Rem() > 0 {
      SyncedSnoc(front, j.Tail());
      assert j.Body() == front + [j.Tail()];
    } else {
      assert j.Body() == front;
    }
  }
}
