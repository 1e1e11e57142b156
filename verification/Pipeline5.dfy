/**
 The five-stage kernel: the memory core of every cluster streams tiles between off-chip memory and the two
 halves of the cluster's shared memory, while each compute core moves its part of the other half into its
 private memory, computes, and moves the result back over the first input. A cluster barrier separates the
 phases.

 The main results say what the kernel leaves in the output under every schedule of every cluster
 (EveryScheduleGivesResult), and that this is the elementwise result exactly when no core is handed a part
 longer than the distance between the two input blocks of its private memory (ElementwiseExactly).
 */
module Pipeline5 {
  import opened AsyncMachine
  import Rounding

  /** What the compute cores do in a phase: nothing, their part of a full tile, or of the remainder. */
  datatype Work = Idle | Full | Remainder

  /** One phase between barriers: the memory core's transfers, and the half the compute cores work on. */
  datatype Phase = Phase(io: seq<Op>, h: nat, work: Work)

  datatype Agent = MemoryCore | ComputeCore(k: nat)

  /** Move the inputs in, wait, compute, wait, move the result out. */
  function CoreCodeOf(ops: seq<Op>): seq<Instr> {
    if |ops| < 4 then []
    else [Issue(Move, ops[0]), Issue(Move, ops[1]), Sync, Issue(Alu, ops[2]), Sync, Issue(Move, ops[3])]
  }

  /** One cluster's slice: n elements from x and y to z. Addresses count elements. */
  datatype Job = Job(c: nat, x: int, y: int, z: int, n: nat, cores: nat, span: nat, align: nat, gap1: nat, gap2: nat) {

    predicate Valid() {
      && 0 < cores && 0 < span && 0 < align
      && (z == x || z + n <= x || x + n <= z)
      && (z == y || z + n <= y || y + n <= z)
    }

    function SramNum(): nat { span * cores }
    function Half(k: int): nat { if k % 2 == 0 then 0 else SramNum() }
    function Shared1(h: nat): Loc { Loc(Sram(c), h) }
    function Shared2(h: nat): Loc { Loc(Sram(c), 2 * SramNum() + h) }
    function Private(k: nat, a: int): Loc { Loc(Nram(c, k), a) }

    function LoadAt(h: nat, base: int, len: nat): seq<Op> {
      [Copy(Shared1(h), Loc(Gdram, x + base), len), Copy(Shared2(h), Loc(Gdram, y + base), len)]
    }

    function StoreAt(h: nat, base: int, len: nat): seq<Op> {
      [Copy(Loc(Gdram, z + base), Shared1(h), len)]
    }

    /** Core k works through the len elements at offset off of the half at h. */
    function CoreOps(k: nat, h: nat, off: nat, len: nat, padded: nat): seq<Op> {
      if len == 0 then []
      else [Copy(Private(k, gap1), Shared1(h).Plus(off), len), Copy(Private(k, gap2), Shared2(h).Plus(off), len),
            Compute(Private(k, 0), Private(k, gap1), Private(k, gap2), padded),
            Copy(Shared1(h).Plus(off), Private(k, 0), len)]
    }

    function Repeat(): nat requires Valid() { SramPositive(); Rounding.Quotient(n, SramNum()) }
    function Rem(): nat requires Valid() { SramPositive(); n % SramNum() }

    lemma SramPositive()
      requires Valid()
      ensures 0 < SramNum()
    {
      Rounding.MulMonotone(1, cores, span);
    }

    /** The even share of the remainder, and what core k gets: the last core also takes what is left over. */
    function EvenShare(): nat requires Valid() { Rounding.Quotient(Rem(), cores) }

    function Share(k: nat): nat
      requires Valid()
    {
      if k == cores - 1 then EvenShare() + Rem() % cores else EvenShare()
    }

    function Offset(w: Work, k: nat): nat requires Valid() { if w.Full? then k * span else k * EvenShare() }
    function Length(w: Work, k: nat): nat requires Valid() { if w.Full? then span else Share(k) }
    function Padded(w: Work, k: nat): nat requires Valid() {
      if w.Full? then span else Rounding.PadUp(Share(k), align)
    }

    function CoreWork(p: Phase, k: nat): seq<Op>
      requires Valid()
    {
      if p.work.Idle? then [] else CoreOps(k, p.h, Offset(p.work, k), Length(p.work, k), Padded(p.work, k))
    }

    // ----- The phases, in program order -----

    function LoadTile(k: nat): seq<Op> { LoadAt(Half(k), k * SramNum(), SramNum()) }
    function StoreTile(k: nat): seq<Op> { StoreAt(Half(k), k * SramNum(), SramNum()) }

    function Prologue(): seq<Phase>
      requires Valid()
    {
      (if Repeat() > 0 then [Phase(LoadTile(0), 0, Idle)] else [])
      + if Repeat() > 1 then [Phase(LoadTile(1), Half(0), Full)] else []
    }

    /** Store tile i and load tile i+2 while the cores work on tile i+1. */
    function Steady(i: nat): Phase {
      Phase(StoreTile(i) + LoadTile(i + 2), Half(i + 1), Full)
    }

    function Head(i: nat): seq<Phase>
      requires Valid()
      decreases i
    {
      if i == 0 then Prologue() else Head(i - 1) + [Steady(i - 1)]
    }

    function Loops(): nat requires Valid() { if Repeat() >= 2 then Repeat() - 2 else 0 }

    function DrainStore(): seq<Op> requires Valid() { if Repeat() >= 2 then StoreTile(Repeat() - 2) else [] }

    function DrainLoad(): seq<Op> requires Valid() {
      if Rem() > 0 then LoadAt(Half(Repeat()), Repeat() * SramNum(), Rem()) else []
    }

    /** Store the last tile but one and load the remainder while the cores work on the last tile. */
    function Drain(): Phase
      requires Valid()
    {
      Phase(DrainStore() + DrainLoad(), if Repeat() > 0 then Half(Repeat() - 1) else 0,
            if Repeat() > 0 then Full else Idle)
    }

    /** Store the last tile while the cores work on the remainder. */
    function Tail(): Phase
      requires Valid()
    {
      Phase(if Repeat() > 0 then StoreTile(Repeat() - 1) else [], Half(Repeat()), if Rem() > 0 then Remainder else Idle)
    }

    /** Store the remainder; nothing follows its barrier. */
    function Last(): seq<Phase>
      requires Valid()
    {
      if Rem() > 0 then [Phase(StoreAt(Half(Repeat()), Repeat() * SramNum(), Rem()), 0, Idle), Phase([], 0, Idle)]
        else []
    }

    function Phases(): (ps: seq<Phase>)
      requires Valid()
      ensures 2 <= |ps|
    {
      Head(Loops()) + [Drain()] + [Tail()] + Last()
    }

    // ----- The code the threads of the cluster issue -----

    function PhaseCode(p: Phase, a: Agent): seq<Instr>
      requires Valid()
    {
      if a.MemoryCore? then Issues(Io, p.io) else CoreCodeOf(CoreWork(p, a.k))
    }

    function Codes(ps: seq<Phase>, a: Agent): seq<seq<Instr>>
      requires Valid()
    {
      seq(|ps|, e requires 0 <= e < |ps| => PhaseCode(ps[e], a))
    }

    function ThreadOf(ps: seq<Phase>, a: Agent): Thread
      requires Valid() && ps != []
    {
      Thread([], PhaseCode(ps[0], a), Codes(ps[1..], a))
    }

    /** The memory core and the compute cores. */
    function AgentAt(t: nat): Agent { if t == 0 then MemoryCore else ComputeCore(t - 1) }

    function Threads(): seq<Thread>
      requires Valid()
    {
      seq(cores + 1, t requires 0 <= t < cores + 1 => ThreadOf(Phases(), AgentAt(t)))
    }

    // ----- What the cluster leaves in element e of its slice -----

    /** The position of element e within the part its core is handed, and the length of that part. */
    function LaneOf(e: nat): (nat, nat)
      requires Valid()
    {
      SramPositive();
      var full := Repeat() * SramNum();
      if e < full then (e % SramNum() % span, span)
      else
        var p, q := e - full, EvenShare();
        var k := if q == 0 || cores - 1 <= p / q then cores - 1 else p / q;
        LaneInPart(p, q, k);
        (p - k * q, Share(k))
    }

    lemma LaneInPart(p: nat, q: nat, k: nat)
      requires q > 0 ==> k <= p / q
      ensures 0 <= p - k * q
    {
      if q > 0 {
        Rounding.MulMonotone(k, p / q, q);
        assert p == q * (p / q) + p % q;
      } else {
        assert k * q == 0;
      }
    }

    /** In a part of length len the second input's block reaches lane i of the first input's block. */
    predicate Clobbered(i: int, len: nat) {
      gap2 <= gap1 + i < gap2 + len
    }

    /** Lane i of a part that starts at offset off: what the computation finds as its first operand is the
        first input, or an element of the second input loaded over it. */
    function LaneResult(f: Fn, m0: Mem, off: int, len: nat): int -> int {
      i => f(m0(if Clobbered(i, len) then Loc(Gdram, y + off + i + gap1 - gap2) else Loc(Gdram, x + off + i)),
             m0(Loc(Gdram, y + off + i)))
    }

    function Result(f: Fn, m0: Mem, base: int): int -> int
      requires Valid()
    {
      i => if base + i < 0 then 0
           else
             var (lane, len) := LaneOf(base + i);
             LaneResult(f, m0, base + i - lane, len)(lane)
    }
  }

  // ----- One core's part -----

  /** Element base + i of an input slice that starts at p. */
  function Slice(m0: Mem, p: int, base: int): int -> int {
    i => m0(Loc(Gdram, p + base + i))
  }

  /** What the first operand's block holds once both inputs have been moved in. */
  function FirstOperand(j: Job, m0: Mem, off: int, len: nat): int -> int {
    i => m0(if j.Clobbered(i, len) then Loc(Gdram, j.y + off + i + j.gap1 - j.gap2) else Loc(Gdram, j.x + off + i))
  }

  /** Both inputs moved into private memory, the second one possibly over part of the first. */
  lemma InputsMoved(f: Fn, j: Job, m0: Mem, m: Mem, k: nat, h: nat, off: nat, at: int, len: nat)
    requires Holds(m, j.Shared1(h).Plus(off), len, Slice(m0, j.x, at))
    requires Holds(m, j.Shared2(h).Plus(off), len, Slice(m0, j.y, at))
    ensures var m1 := Apply(f, Copy(j.Private(k, j.gap1), j.Shared1(h).Plus(off), len), m);
            var m2 := Apply(f, Copy(j.Private(k, j.gap2), j.Shared2(h).Plus(off), len), m1);
            && Holds(m2, j.Private(k, j.gap1), len, FirstOperand(j, m0, at, len))
            && Holds(m2, j.Private(k, j.gap2), len, Slice(m0, j.y, at))
  {
    hide Holds, Apply, Slice, Overlaid;
    var p, q := j.Private(k, j.gap1), j.Private(k, j.gap2);
    var op1, op2 := Copy(p, j.Shared1(h).Plus(off), len), Copy(q, j.Shared2(h).Plus(off), len);
    var m1 := Apply(f, op1, m);
    CopyHolds(f, op1, m, Slice(m0, j.x, at));
    ApplyKeeps(f, op1, m, j.Shared2(h).Plus(off), len, Slice(m0, j.y, at));
    CopyHolds(f, op2, m1, Slice(m0, j.y, at));
    CopyOver(f, op2, m1, p, len, Slice(m0, j.x, at), Slice(m0, j.y, at));
    FirstOperandIs(j, m0, k, at, len);
    HoldsEqual(Apply(f, op2, m1), p, len, Overlaid(p, q, len, Slice(m0, j.x, at), Slice(m0, j.y, at)),
               FirstOperand(j, m0, at, len));
  }

  lemma FirstOperandIs(j: Job, m0: Mem, k: nat, at: int, len: nat)
    ensures var p, q := j.Private(k, j.gap1), j.Private(k, j.gap2);
            var r := Overlaid(p, q, len, Slice(m0, j.x, at), Slice(m0, j.y, at));
            forall i | 0 <= i < len :: FirstOperand(j, m0, at, len)(i) == r(i)
  {
    var p, q := j.Private(k, j.gap1), j.Private(k, j.gap2);
    var r := Overlaid(p, q, len, Slice(m0, j.x, at), Slice(m0, j.y, at));
    forall i | 0 <= i < len ensures FirstOperand(j, m0, at, len)(i) == r(i) {
      if j.Clobbered(i, len) {
        assert In(p.Plus(i), q, len) && p.addr + i - q.addr == j.gap1 + i - j.gap2;
        assert r(i) == Slice(m0, j.y, at)(j.gap1 + i - j.gap2);
      } else {
        assert !In(p.Plus(i), q, len) && r(i) == Slice(m0, j.x, at)(i);
      }
    }
  }

  lemma ExecFour(f: Fn, a: Op, b: Op, c: Op, d: Op, m: Mem)
    ensures Exec(f, [a, b, c, d], m) == Apply(f, d, Apply(f, c, Apply(f, b, Apply(f, a, m))))
  {
    assert [a, b, c, d] == [a, b] + [c, d];
    ExecAppend(f, [a, b], [c, d], m);
    ExecTwo(f, a, b, m);
    ExecTwo(f, c, d, Apply(f, b, Apply(f, a, m)));
  }

  lemma ResultIsPointwise(f: Fn, j: Job, m0: Mem, at: int, len: nat)
    ensures forall i :: j.LaneResult(f, m0, at, len)(i) == f(FirstOperand(j, m0, at, len)(i), Slice(m0, j.y, at)(i))
  {
  }

  /** A core replaces its part of the first input by the result. */
  lemma CoreEffect(f: Fn, j: Job, m0: Mem, m: Mem, k: nat, h: nat, off: nat, at: int, len: nat, padded: nat)
    requires len <= padded
    requires Holds(m, j.Shared1(h).Plus(off), len, Slice(m0, j.x, at))
    requires Holds(m, j.Shared2(h).Plus(off), len, Slice(m0, j.y, at))
    ensures Holds(Exec(f, j.CoreOps(k, h, off, len, padded), m), j.Shared1(h).Plus(off), len,
                  j.LaneResult(f, m0, at, len))
  {
    hide Exec, Holds, Apply;
    var ops := j.CoreOps(k, h, off, len, padded);
    if len == 0 {
      HoldsNone(Exec(f, ops, m), j.Shared1(h).Plus(off), j.LaneResult(f, m0, at, len));
    } else {
      ExecFour(f, ops[0], ops[1], ops[2], ops[3], m);
      InputsMoved(f, j, m0, m, k, h, off, at, len);
      var m2 := Apply(f, ops[1], Apply(f, ops[0], m));
      ResultIsPointwise(f, j, m0, at, len);
      ComputeHolds(f, ops[2], m2, len, FirstOperand(j, m0, at, len), Slice(m0, j.y, at), j.LaneResult(f, m0, at, len));
      HoldsPart(Apply(f, ops[2], m2), j.Private(k, 0), len, j.LaneResult(f, m0, at, len), 0, len,
                j.LaneResult(f, m0, at, len));
      CopyHolds(f, ops[3], Apply(f, ops[2], m2), j.LaneResult(f, m0, at, len));
    }
  }

  /** A core changes nothing but its own memory and its part of the first input. */
  lemma CoreFrame(f: Fn, j: Job, m: Mem, k: nat, h: nat, off: nat, len: nat, padded: nat, l: Loc)
    requires l.space != Nram(j.c, k) && !In(l, j.Shared1(h).Plus(off), len)
    ensures Exec(f, j.CoreOps(k, h, off, len, padded), m)(l) == m(l)
  {
    hide Exec;
    var ops := j.CoreOps(k, h, off, len, padded);
    if len == 0 {
      ExecNone(f, m);
    } else {
      ExecFour(f, ops[0], ops[1], ops[2], ops[3], m);
    }
  }

  lemma HoldsNone(m: Mem, p: Loc, g: int -> int)
    ensures Holds(m, p, 0, g)
  {
  }
}
