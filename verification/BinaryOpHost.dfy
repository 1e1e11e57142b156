/**
 How the host splits an element count over the cores for the second three-stage kernel: every task but the
 last takes `normal` elements, a multiple of the alignment, and the last takes `tail`.
 */
module BinaryOpHost {
  import opened AsyncMachine
  import opened MachineInts
  import opened Rounding
  import P = Pipeline3
  import K = Kernels3

  datatype Split = Split(taskNum: nat, normal: nat, tail: nat)

  const LLC_PENDING_SIZE := 512

  function Max(a: nat, b: nat): nat { if a < b then b else a }

  /** The elements every task but the last takes. */
  function NormalNum(elementNum: nat, coreNumber: nat, aligned: nat): (normal: nat)
    requires 0 < coreNumber && 0 < aligned
    ensures 0 < normal
  {
    Max(aligned, CeilAlign(Quotient(elementNum, coreNumber), aligned))
  }

  /** Hand out normal elements a task; the remainder passes through a 32-bit variable. */
  function SplitBy(elementNum: nat, coreNumber: nat, normal: nat): Split
    requires 0 < normal
  {
    var rem := ToUint32(elementNum % normal);
    var tasks := Quotient(elementNum, normal);
    if 0 < rem && tasks < coreNumber then Split(tasks + 1, normal, rem)
    else Split(tasks, normal, normal + rem)
  }

  /** The split as the host computes it. */
  function SplitOf(elementNum: nat, coreNumber: nat, aligned: nat): Split
    requires 0 < coreNumber && 0 < aligned
  {
    SplitBy(elementNum, coreNumber, NormalNum(elementNum, coreNumber, aligned))
  }

  function AlignedNum(padUpSize: nat, dtypeSize: nat, is590: bool): nat
    requires 0 < dtypeSize
  {
    DivUp(if is590 then Max(LLC_PENDING_SIZE, padUpSize) else padUpSize, dtypeSize)
  }

  method BlockPolicy(coreNumber: nat, elementNum: nat, dtypeSize: nat, padUpSize: nat, is590: bool)
    returns (taskNum: nat, normal: nat, tail: nat)
    requires 0 < coreNumber && 0 < dtypeSize && 0 < padUpSize
    ensures 0 < AlignedNum(padUpSize, dtypeSize, is590)
    ensures Split(taskNum, normal, tail) == SplitOf(elementNum, coreNumber, AlignedNum(padUpSize, dtypeSize, is590))
  {
    hide CeilAlign, DivUp, ToUint32, Quotient;
    var pad := padUpSize;
    if is590 {
      pad := Max(LLC_PENDING_SIZE, pad);
    }
    var aligned := DivUp(pad, dtypeSize);
    AlignedPositive(pad, dtypeSize);
    normal := Max(aligned, CeilAlign(Quotient(elementNum, coreNumber), aligned));
    var remNum := ToUint32(elementNum % normal);
    taskNum := Quotient(elementNum, normal);
    if 0 < remNum && taskNum < coreNumber {
      taskNum := taskNum + 1;
      tail := remNum;
    } else {
      tail := normal + remNum;
    }
  }

  lemma AlignedPositive(pad: nat, dtypeSize: nat)
    requires 0 < pad && 0 < dtypeSize
    ensures 0 < DivUp(pad, dtypeSize)
  {
    if pad % dtypeSize == 0 {
      assert pad == dtypeSize * (pad / dtypeSize);
    }
  }

  /** The elements to align to fill the padding, and on an MLU590 a pending line of the cache, and are the least that
      do. */
  lemma AlignedIsLeast(padUpSize: nat, dtypeSize: nat, is590: bool, n: nat)
    requires 0 < dtypeSize
    ensures AlignedNum(padUpSize, dtypeSize, is590) <= n <==>
            padUpSize <= n * dtypeSize && (is590 ==> 512 <= n * dtypeSize)
  {
    DivUpAtMost(if is590 then Max(LLC_PENDING_SIZE, padUpSize) else padUpSize, dtypeSize, n);
  }

  lemma DivUpAtMost(x: nat, y: nat, n: nat)
    requires 0 < y
    ensures DivUp(x, y) <= n <==> x <= n * y
  {
    var q, r := x / y, x % y;
    assert x == y * q + r;
    if n < q {
      MulMonotone(n + 1, q, y);
    } else if n > q {
      MulMonotone(q + 1, n, y);
    }
  }

  /** A normal share is the least positive multiple of the alignment that is not below the even share. */
  lemma NormalIsAligned(elementNum: nat, coreNumber: nat, aligned: nat)
    requires 0 < coreNumber && 0 < aligned
    ensures var normal := NormalNum(elementNum, coreNumber, aligned);
            && normal % aligned == 0 && aligned <= normal && elementNum / coreNumber <= normal
            && forall m: nat | 0 < m && m % aligned == 0 && elementNum / coreNumber <= m :: normal <= m
  {
    var q := elementNum / coreNumber;
    CeilAlignIsCeiling(q, aligned);
    MultipleMod(1, aligned);
    hide CeilAlign;
    forall m: nat | 0 < m && m % aligned == 0 && q <= m ensures NormalNum(elementNum, coreNumber, aligned) <= m {
      MultiplesApart(0, m, aligned);
      if m < CeilAlign(q, aligned) {
        MultiplesApart(m, CeilAlign(q, aligned), aligned);
      }
    }
  }

  /** No element is lost or handed out twice, exactly when the remainder fits its 32-bit variable. */
  lemma SplitConserves(elementNum: nat, coreNumber: nat, aligned: nat)
    requires 0 < elementNum && 0 < coreNumber && 0 < aligned
    ensures var s := SplitOf(elementNum, coreNumber, aligned);
            && ((s.taskNum - 1) * s.normal + s.tail == elementNum <==> elementNum % s.normal <= UINT32_MAX)
            && (elementNum % s.normal <= UINT32_MAX ==> 0 < s.taskNum)
  {
    var normal := NormalNum(elementNum, coreNumber, aligned);
    var rem, tasks := elementNum % normal, elementNum / normal;
    var rem32 := ToUint32(rem);
    assert elementNum == normal * tasks + rem;
    assert (tasks + 1 - 1) * normal == normal * tasks;
    assert (tasks - 1) * normal == normal * tasks - normal;
    TruncationExact(rem);
  }

  lemma TruncationExact(x: nat)
    ensures ToUint32(x) == x <==> x <= UINT32_MAX
  {
  }

  /** The split uses at most the cores there are, unless the even share is already aligned and the elements
      left over are at least one more share. */
  lemma TasksFitExactly(elementNum: nat, coreNumber: nat, aligned: nat)
    requires 0 < elementNum && 0 < coreNumber && 0 < aligned
    ensures var q := elementNum / coreNumber;
            SplitOf(elementNum, coreNumber, aligned).taskNum <= coreNumber <==>
            !(aligned <= q && q % aligned == 0 && q <= elementNum % coreNumber)
  {
    var q, r := elementNum / coreNumber, elementNum % coreNumber;
    var normal := NormalNum(elementNum, coreNumber, aligned);
    var tasks := elementNum / normal;
    NormalIsAligned(elementNum, coreNumber, aligned);
    CeilAlignIsCeiling(q, aligned);
    assert elementNum == coreNumber * q + r;
    if q < normal {
      FewTasks(elementNum, coreNumber, q, normal);
      if aligned <= q && q % aligned == 0 {
        CeilingUnique(CeilAlign(q, aligned), q, q, aligned);
        assert false;
      }
    } else {
      TasksOfEvenShare(elementNum, coreNumber, q, r);
    }
  }

  /** A share above the even one needs fewer tasks than cores. */
  lemma FewTasks(elementNum: nat, coreNumber: nat, q: nat, normal: nat)
    requires 0 < coreNumber && q == elementNum / coreNumber && q < normal
    ensures elementNum / normal < coreNumber
  {
    MulMonotone(q + 1, normal, coreNumber);
    assert elementNum == coreNumber * q + elementNum % coreNumber;
    assert (q + 1) * coreNumber == coreNumber * q + coreNumber;
    DivBelow(elementNum, normal, coreNumber);
  }

  lemma TasksOfEvenShare(elementNum: nat, coreNumber: nat, q: nat, r: nat)
    requires 0 < q && elementNum == coreNumber * q + r
    ensures coreNumber <= elementNum / q
    ensures elementNum / q == coreNumber <==> r < q
  {
    var k := elementNum / q;
    assert elementNum == q * k + elementNum % q;
    assert q * (k - coreNumber) == r - elementNum % q;
    if k < coreNumber {
      MulMonotone(k - coreNumber, -1, q);
    } else if k > coreNumber {
      MulMonotone(1, k - coreNumber, q);
    }
  }

  /** With at most as many cores as elements to align to, the tasks fit and the tail stays near a normal share. */
  lemma SplitBalanced(elementNum: nat, coreNumber: nat, aligned: nat)
    requires 0 < elementNum && 0 < coreNumber <= aligned
    requires elementNum % NormalNum(elementNum, coreNumber, aligned) <= UINT32_MAX
    ensures var s := SplitOf(elementNum, coreNumber, aligned);
            0 < s.taskNum <= coreNumber && 0 < s.tail < s.normal + coreNumber
  {
    var q, r := elementNum / coreNumber, elementNum % coreNumber;
    var normal := NormalNum(elementNum, coreNumber, aligned);
    NormalIsAligned(elementNum, coreNumber, aligned);
    TruncationExact(elementNum % normal);
    if q < normal {
      FewTasks(elementNum, coreNumber, q, normal);
      BalancedBelow(elementNum, coreNumber, normal);
    } else {
      assert elementNum == coreNumber * q + r;
      DivModUnique(elementNum, q, coreNumber, r);
    }
  }

  lemma BalancedBelow(elementNum: nat, coreNumber: nat, normal: nat)
    requires 0 < elementNum && 0 < normal && elementNum / normal < coreNumber
    requires elementNum % normal <= UINT32_MAX
    ensures var s := SplitBy(elementNum, coreNumber, normal);
            0 < s.taskNum <= coreNumber && 0 < s.tail <= s.normal
  {
    TruncationExact(elementNum % normal);
    assert elementNum == normal * (elementNum / normal) + elementNum % normal;
    DivAtLeast(elementNum, normal, 0);
  }

  /** 528 elements of 8 bytes padded to 128, on 32 cores: 33 tasks are asked for. No operator in the library calls
      the policy; this is what one would get. */
  lemma MoreTasksThanCores()
    ensures AlignedNum(128, 8, false) == 16 && SplitOf(528, 32, 16) == Split(33, 16, 16)
  {
    DivModUnique(528, 32, 16, 16);
    DivModUnique(528, 16, 33, 0);
    MultipleMod(1, 16);
  }

  lemma SplitNormal(elementNum: nat, coreNumber: nat, aligned: nat)
    requires 0 < coreNumber && 0 < aligned
    ensures SplitOf(elementNum, coreNumber, aligned).normal == NormalNum(elementNum, coreNumber, aligned)
  {
  }

  /** The launch of the second kernel on the host's split. */
  function HostLaunch(x: int, y: int, z: int, lay: P.Layout, elementNum: nat, coreNumber: nat, aligned: nat): P.Launch
    requires 0 < elementNum && 0 < coreNumber && 0 < aligned
    requires elementNum % NormalNum(elementNum, coreNumber, aligned) <= UINT32_MAX
  {
    SplitNormal(elementNum, coreNumber, aligned);
    SplitConserves(elementNum, coreNumber, aligned);
    var s := SplitOf(elementNum, coreNumber, aligned);
    K.HostSplit(x, y, z, lay, s.taskNum, s.normal, s.tail)
  }

  /** The second kernel on the host's split computes the elementwise result over the whole array, under every
      schedule, with nothing left out and nothing done twice. */
  lemma HostSplitIsElementwise(f: Fn, x: int, y: int, z: int, lay: P.Layout, elementNum: nat, coreNumber: nat,
                               aligned: nat, m0: Mem, es: seq<Event>)
    requires lay.Valid() && 0 < elementNum && 0 < coreNumber && 0 < aligned
    requires elementNum % NormalNum(elementNum, coreNumber, aligned) <= UINT32_MAX
    requires z == x || z + elementNum <= x || x + elementNum <= z
    requires z == y || z + elementNum <= y || y + elementNum <= z
    requires Schedule(HostLaunch(x, y, z, lay, elementNum, coreNumber, aligned).Start(m0).clusters, es)
    requires Finished(After(f, HostLaunch(x, y, z, lay, elementNum, coreNumber, aligned).Start(m0), es).clusters)
    ensures P.IsElementwise(f, x, y, z, elementNum, m0,
                            After(f, HostLaunch(x, y, z, lay, elementNum, coreNumber, aligned).Start(m0), es).mem)
  {
    hide SplitOf, NormalNum, Schedule, After, Finished, P.Layout.Valid, P.IsElementwise;
    SplitNormal(elementNum, coreNumber, aligned);
    SplitConserves(elementNum, coreNumber, aligned);
    P.EveryScheduleIsElementwise(f, HostLaunch(x, y, z, lay, elementNum, coreNumber, aligned), m0, es);
  }
}
