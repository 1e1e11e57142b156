/**
 The instruction stream a thread of the kernel issues. Every `__memcpy_async` goes to the io or the move
 pipeline according to its direction, every `compute` call to the compute pipeline. Transfers between
 off-chip memory and the shared memory of a cluster are carried out once, by the cluster's memory core; all
 other operations are carried out by the compute cores.
 */
module KernelStream {
  import opened AsyncMachine

  datatype Dir = GDRAM2NRAM | NRAM2GDRAM | GDRAM2SRAM | SRAM2GDRAM | SRAM2NRAM | NRAM2SRAM

  function QueueOf(d: Dir): Queue {
    if d.SRAM2NRAM? || d.NRAM2SRAM? then Move else Io
  }

  predicate ForMemoryCore(d: Dir) {
    d.GDRAM2SRAM? || d.SRAM2GDRAM?
  }

  class Stream {
    const memoryCore: bool
    var epochs: seq<seq<Instr>>

    ghost predicate Valid()
      reads this
    {
      epochs != []
    }

    /** What has been issued since the last barrier, and before it. */
    ghost function Issued(): seq<Instr>
      reads this
      requires Valid()
    {
      epochs[|epochs| - 1]
    }

    ghost function Past(): seq<seq<Instr>>
      reads this
      requires Valid()
    {
      epochs[..|epochs| - 1]
    }

    constructor (memoryCore: bool)
      ensures this.memoryCore == memoryCore && Valid() && Past() == [] && Issued() == []
    {
      this.memoryCore := memoryCore;
      epochs := [[]];
    }

    method MemcpyAsync(dst: Loc, src: Loc, n: nat, dir: Dir)
      requires Valid()
      modifies this
      ensures Valid() && Past() == old(Past())
      ensures Issued() == old(Issued()) + if memoryCore == ForMemoryCore(dir)
              then [Issue(QueueOf(dir), Copy(dst, src, n))] else []
      ensures dir == GDRAM2SRAM || dir == SRAM2GDRAM ==>
                Issued() == old(Issued()) + if memoryCore then [Issue(Io, Copy(dst, src, n))] else []
      ensures dir == GDRAM2NRAM || dir == NRAM2GDRAM ==>
                Issued() == old(Issued()) + if memoryCore then [] else [Issue(Io, Copy(dst, src, n))]
      ensures dir == SRAM2NRAM || dir == NRAM2SRAM ==>
                Issued() == old(Issued()) + if memoryCore then [] else [Issue(Move, Copy(dst, src, n))]
    {
      if memoryCore == ForMemoryCore(dir) {
        Append(Issue(QueueOf(dir), Copy(dst, src, n)));
      }
    }

    method ComputeBlock(dst: Loc, a: Loc, b: Loc, n: nat)
      requires Valid()
      modifies this
      ensures Valid() && Past() == old(Past())
      ensures Issued() == old(Issued()) + if memoryCore then [] else [Issue(Alu, Compute(dst, a, b, n))]
    {
      if !memoryCore {
        Append(Issue(Alu, Compute(dst, a, b, n)));
      }
    }

    method SyncThread()
      requires Valid()
      modifies this
      ensures Valid() && Past() == old(Past())
      ensures Issued() == old(Issued()) + if memoryCore then [] else [Sync]
    {
      if !memoryCore {
        Append(Sync);
      }
    }

    method SyncCluster()
      requires Valid()
      modifies this
      ensures Valid() && Past() == old(Past()) + [old(Issued())] && Issued() == []
    {
      epochs := epochs + [[]];
    }

    method Append(i: Instr)
      requires Valid()
      modifies this
      ensures Valid() && Past() == old(Past()) && Issued() == old(Issued()) + [i]
    {
      var n := |epochs| - 1;
      epochs := epochs[n := epochs[n] + [i]];
    }
  }
}
