/**
 The three-stage kernels: every core streams its slice through two halves of its private memory, so that the
 io pipeline stores tile i and loads tile i+2 while the compute pipeline works on tile i+1.

 The simple thing this speeds up is out[i] = f(in1[i], in2[i]). The main results say that both kernels do
 exactly that, under every schedule of every core's two pipelines, also when the output is one of the inputs.
 */
module Pipeline3 {
  import opened AsyncMachine
  import opened KernelStream
  import Rounding

  // ----- One core's work -----

  /** The tile size and private-memory layout the kernel gets from its operator. Addresses and sizes count
      elements; all three tensors have one element size. */
  datatype Layout = Layout(span: nat, align: nat, gap1: nat, gap2: nat, pingPong: nat) {

    predicate Apart(a: int, b: int) {
      a + span <= b || b + span <= a
    }

    /** The input blocks of a half are apart, and all its blocks are from the other half's. */
    predicate Valid() {
      && 0 < span && 0 < align && span % align == 0
      && Apart(gap1, gap2)
      && ApartFromPong(0) && ApartFromPong(gap1) && ApartFromPong(gap2)
    }

    /** A block of the ping half starting at a shares no cell with the pong half. */
    predicate ApartFromPong(a: int) {
      Apart(a, pingPong) && Apart(a, gap1 + pingPong) && Apart(a, gap2 + pingPong)
    }

    function Half(k: int): nat {
      if k % 2 == 0 then 0 else pingPong
    }
  }

  /** The two layouts of the square root's gradient, block behind block, are such: the output in place of the first
      input and the halves of each side by side, or all blocks apart and one half behind the other. */
  lemma SqrtLayouts(span: nat, align: nat)
    requires 0 < span && 0 < align && span % align == 0
    ensures Layout(span, align, 0, 2 * span, span).Valid()
    ensures Layout(span, align, span, span + 2 * span, 4 * span).Valid()
  {
  }

  /** One core's slice: n elements from x and y to z, through the core's private memory. */
  datatype Job = Job(x: int, y: int, z: int, n: nat, lay: Layout, core: nat) {

    ghost predicate Valid() {
      && lay.Valid()
      && (z == x || z + n <= x || x + n <= z)
      && (z == y || z + n <= y || y + n <= z)
    }

    function Private(a: int): Loc { Loc(Nram(0, core), a) }

    /** The blocks of the half at offset h. */
    function Out(h: nat): Loc { Private(h) }
    function In1(h: nat): Loc { Private(lay.gap1 + h) }
    function In2(h: nat): Loc { Private(lay.gap2 + h) }

    /** Load, compute and store len elements at offset base of the slice through the half at h. */
    function LoadAt(h: nat, base: int, len: nat): seq<Op> {
      [Copy(In1(h), Loc(Gdram, x + base), len), Copy(In2(h), Loc(Gdram, y + base), len)]
    }

    function ComputeAt(h: nat, len: nat): seq<Op> {
      [Compute(Out(h), In1(h), In2(h), len)]
    }

    function StoreAt(h: nat, base: int, len: nat): seq<Op> {
      [Copy(Loc(Gdram, z + base), Out(h), len)]
    }

    /** The same for tile k, in the half that tile uses. */
    function LoadOps(k: nat, len: nat): seq<Op> { LoadAt(lay.Half(k), k * lay.span, len) }
    function ComputeOps(k: nat, len: nat): seq<Op> { ComputeAt(lay.Half(k), len) }
    function StoreOps(k: nat, len: nat): seq<Op> { StoreAt(lay.Half(k), k * lay.span, len) }

    function Repeat(): nat requires 0 < lay.span { n / lay.span }
    function Rem(): nat requires 0 < lay.span { n % lay.span }
    function AlignRem(): nat requires 0 < lay.span && 0 < lay.align { Rounding.CeilAlign(Rem(), lay.align) }

    function Prologue(): seq<Stretch>
      requires 0 < lay.span
    {
      (if Repeat() > 0 then [Stretch(LoadOps(0, lay.span), [])] else [])
      + if Repeat() > 1 then [Stretch(LoadOps(1, lay.span), ComputeOps(0, lay.span))] else []
    }

    /** Store tile i and load tile i+2 while tile i+1 is computed. */
    function Steady(i: nat): Stretch {
      Stretch(StoreOps(i, lay.span) + LoadOps(i + 2, lay.span), ComputeOps(i + 1, lay.span))
    }

    /** The stretches issued before the loop reaches iteration i. */
    function Head(i: nat): seq<Stretch>
      requires 0 < lay.span
      decreases i
    {
      if i == 0 then Prologue() else Head(i - 1) + [Steady(i - 1)]
    }

    function DrainStore(): seq<Op> requires 0 < lay.span {
      if Repeat() > 1 then StoreOps(Repeat() - 2, lay.span) else []
    }

    function DrainLoad(): seq<Op> requires 0 < lay.span {
      if Rem() > 0 then LoadOps(Repeat(), Rem()) else []
    }

    function DrainCompute(): seq<Op> requires 0 < lay.span {
      if Repeat() > 0 then ComputeOps(Repeat() - 1, lay.span) else []
    }

    /** Store the last tile but one and load the remainder while the last tile is computed. */
    function Drain(): Stretch
      requires 0 < lay.span
    {
      Stretch(DrainStore() + DrainLoad(), DrainCompute())
    }

    /** Store the last tile while the remainder is computed, padded up to the alignment. */
    function Tail(): Stretch
      requires 0 < lay.span && 0 < lay.align
    {
      var r := Repeat();
      Stretch(if r > 0 then StoreOps(r - 1, lay.span) else [],
              if Rem() > 0 then ComputeOps(r, AlignRem()) else [])
    }

    function Loops(): nat requires 0 < lay.span { if Repeat() >= 2 then Repeat() - 2 else 0 }

    function Body(): seq<Stretch>
      requires 0 < lay.span && 0 < lay.align
    {
      Head(Loops()) + [Drain()] + if Rem() > 0 then [Tail()] else []
    }

    function Final(): Stretch
      requires 0 < lay.span && 0 < lay.align
    {
      if Rem() > 0 then Stretch(StoreOps(Repeat(), Rem()), []) else Tail()
    }

    /** Everything the core issues, in program order. */
    function Program(): seq<Instr>
      requires 0 < lay.span && 0 < lay.align
    {
      StretchCode(Body(), Final())
    }
  }

  // ----- What each operation does to a tile -----

  /** Element base + i of an input slice that starts at p. */
  function Slice(m0: Mem, p: int, base: int): int -> int {
    i => m0(Loc(Gdram, p + base + i))
  }

  /** The result the kernel owes for element base + i of its slice. */
  function Want(f: Fn, j: Job, m0: Mem, base: int): int -> int {
    i => f(m0(Loc(Gdram, j.x + base + i)), m0(Loc(Gdram, j.y + base + i)))
  }

  lemma WantIsPointwise(f: Fn, j: Job, m0: Mem, base: int)
    ensures forall i :: Want(f, j, m0, base)(i) == f(Slice(m0, j.x, base)(i), Slice(m0, j.y, base)(i))
  {
  }

  lemma WantShift(f: Fn, j: Job, m0: Mem, base: int, i: int)
    ensures Want(f, j, m0, base)(i) == Want(f, j, m0, 0)(base + i)
  {
    assert j.x + base + i == j.x + 0 + (base + i);
    assert j.y + base + i == j.y + 0 + (base + i);
  }

  /** The inputs from offset base are staged in the half at h. */
  ghost predicate Staged(j: Job, m0: Mem, m: Mem, h: nat, base: int, len: nat) {
    && Holds(m, j.In1(h), len, Slice(m0, j.x, base))
    && Holds(m, j.In2(h), len, Slice(m0, j.y, base))
  }

  /** The result for the elements from offset base is in the output block of the half at h. */
  ghost predicate Ready(f: Fn, j: Job, m0: Mem, m: Mem, h: nat, base: int, len: nat) {
    Holds(m, j.Out(h), len, Want(f, j, m0, base))
  }

  /** Off-chip memory holds the result in the first d elements of the slice and is otherwise as it was. */
  ghost predicate Stored(f: Fn, j: Job, m0: Mem, m: Mem, d: int) {
    forall a :: m(Loc(Gdram, a)) == if j.z <= a < j.z + d then Want(f, j, m0, 0)(a - j.z) else m0(Loc(Gdram, a))
  }

  /** h and h' are the two halves. */
  predicate TwoHalves(lay: Layout, h: nat, h': nat) {
    (h == 0 && h' == lay.pingPong) || (h == lay.pingPong && h' == 0)
  }

  lemma PrivateKeepsStored(f: Fn, j: Job, m0: Mem, m: Mem, op: Op, d: int)
    requires op.dst.space != Gdram && Stored(f, j, m0, m, d)
    ensures Stored(f, j, m0, Apply(f, op, m), d)
  {
  }

  lemma HalfKept(f: Fn, j: Job, m0: Mem, m: Mem, op: Op, h: nat, base: int, len: nat)
    requires !Overlap(op.dst, op.n, j.In1(h), len) && !Overlap(op.dst, op.n, j.In2(h), len)
    requires !Overlap(op.dst, op.n, j.Out(h), len)
    ensures Staged(j, m0, m, h, base, len) ==> Staged(j, m0, Apply(f, op, m), h, base, len)
    ensures Ready(f, j, m0, m, h, base, len) ==> Ready(f, j, m0, Apply(f, op, m), h, base, len)
  {
    if Staged(j, m0, m, h, base, len) {
      ApplyKeeps(f, op, m, j.In1(h), len, Slice(m0, j.x, base));
      ApplyKeeps(f, op, m, j.In2(h), len, Slice(m0, j.y, base));
    }
    if Ready(f, j, m0, m, h, base, len) {
      ApplyKeeps(f, op, m, j.Out(h), len, Want(f, j, m0, base));
    }
  }

  /** An operation within one half does not reach the other. */
  lemma OtherHalfApart(j: Job, op: Op, h: nat, h': nat)
    requires j.Valid() && TwoHalves(j.lay, h, h') && op.n <= j.lay.span
    requires op.dst == j.In1(h) || op.dst == j.In2(h) || op.dst == j.Out(h)
    ensures !Overlap(op.dst, op.n, j.In1(h'), j.lay.span)
    ensures !Overlap(op.dst, op.n, j.In2(h'), j.lay.span)
    ensures !Overlap(op.dst, op.n, j.Out(h'), j.lay.span)
  {
  }

  /** The part of an input behind what has been stored is still the original, even if it is the output. */
  lemma InputIntact(f: Fn, j: Job, m0: Mem, m: Mem, p: int, base: int, len: nat, d: int)
    requires j.z == p || j.z + j.n <= p || p + j.n <= j.z
    requires Stored(f, j, m0, m, d) && 0 <= d <= base && base + len <= j.n
    ensures Holds(m, Loc(Gdram, p + base), len, Slice(m0, p, base))
  {
  }

  lemma NothingStoredYet(f: Fn, j: Job, m: Mem)
    ensures Stored(f, j, m, m, 0)
  {
  }

  /** One input copied into its block of the half at h, the half at h' left alone. */
  lemma LoadOneEffect(f: Fn, j: Job, m0: Mem, m: Mem, op: Op, p: int, h: nat, h': nat, base: int, base': int, len': nat,
                      d: int)
    requires j.Valid() && TwoHalves(j.lay, h, h') && len' <= j.lay.span && op.n <= j.lay.span && base + op.n <= j.n
    requires op.Copy? && op.src == Loc(Gdram, p + base) && (p == j.x || p == j.y)
    requires op.dst == j.In1(h) || op.dst == j.In2(h)
    requires 0 <= d <= base && Stored(f, j, m0, m, d)
    ensures var m' := Apply(f, op, m);
            && Holds(m', op.dst, op.n, Slice(m0, p, base)) && Stored(f, j, m0, m', d)
            && (Staged(j, m0, m, h', base', len') ==> Staged(j, m0, m', h', base', len'))
            && (Ready(f, j, m0, m, h', base', len') ==> Ready(f, j, m0, m', h', base', len'))
  {
    hide Exec, Holds, Stored, Staged, Ready, Apply;
    InputIntact(f, j, m0, m, p, base, op.n, d);
    CopyHolds(f, op, m, Slice(m0, p, base));
    PrivateKeepsStored(f, j, m0, m, op, d);
    OtherHalfApart(j, op, h, h');
    HalfKept(f, j, m0, m, op, h', base', len');
  }

  /** Loading stages the inputs in the half at h and leaves the half at h' alone. */
  lemma LoadEffect(f: Fn, j: Job, m0: Mem, m: Mem, h: nat, h': nat, base: int, base': int, len': nat, len: nat, d: int)
    requires j.Valid() && len' <= j.lay.span && TwoHalves(j.lay, h, h') && len <= j.lay.span && base + len <= j.n
    requires 0 <= d <= base && Stored(f, j, m0, m, d)
    ensures var m' := Exec(f, j.LoadAt(h, base, len), m);
            && Staged(j, m0, m', h, base, len) && Stored(f, j, m0, m', d)
            && (Staged(j, m0, m, h', base', len') ==> Staged(j, m0, m', h', base', len'))
            && (Ready(f, j, m0, m, h', base', len') ==> Ready(f, j, m0, m', h', base', len'))
  {
    var op1, op2 := j.LoadAt(h, base, len)[0], j.LoadAt(h, base, len)[1];
    var m1 := Apply(f, op1, m);
    ExecTwo(f, op1, op2, m);
    LoadOneEffect(f, j, m0, m, op1, j.x, h, h', base, base', len', d);
    LoadOneEffect(f, j, m0, m1, op2, j.y, h, h', base, base', len', d);
    assert !Overlap(op2.dst, len, j.In1(h), len);
    ApplyKeeps(f, op2, m1, j.In1(h), len, Slice(m0, j.x, base));
    hide Exec, Holds, Stored, Ready, Apply, Layout.Apart, Layout.ApartFromPong;
  }

  /** Computing a staged block leaves the result and does not touch the other half; lanes past len may hold
      anything. */
  lemma ComputeEffect(f: Fn, j: Job, m0: Mem, m: Mem, h: nat, h': nat, base: int, base': int, len': nat, len: nat,
                      padded: nat, d: int)
    requires j.Valid() && len' <= j.lay.span && TwoHalves(j.lay, h, h') && len <= padded <= j.lay.span
    requires Staged(j, m0, m, h, base, len) && Stored(f, j, m0, m, d)
    ensures var m' := Exec(f, j.ComputeAt(h, padded), m);
            && Ready(f, j, m0, m', h, base, len) && Stored(f, j, m0, m', d)
            && (Staged(j, m0, m, h', base', len') ==> Staged(j, m0, m', h', base', len'))
            && (Ready(f, j, m0, m, h', base', len') ==> Ready(f, j, m0, m', h', base', len'))
  {
    var op := j.ComputeAt(h, padded)[0];
    ExecOne(f, op, m);
    WantIsPointwise(f, j, m0, base);
    ComputeHolds(f, op, m, len, Slice(m0, j.x, base), Slice(m0, j.y, base), Want(f, j, m0, base));
    PrivateKeepsStored(f, j, m0, m, op, d);
    OtherHalfApart(j, op, h, h');
    HalfKept(f, j, m0, m, op, h', base', len');
  }

  /** Storing a ready block extends the finished part of the output and leaves private memory alone. */
  lemma StoreEffect(f: Fn, j: Job, m0: Mem, m: Mem, h: nat, h': nat, base: int, base': int, len': nat, len: nat)
    requires j.Valid() && Ready(f, j, m0, m, h, base, len) && 0 <= base
    requires Stored(f, j, m0, m, base)
    ensures var m' := Exec(f, j.StoreAt(h, base, len), m);
            && Stored(f, j, m0, m', base + len)
            && (Staged(j, m0, m, h', base', len') ==> Staged(j, m0, m', h', base', len'))
            && (Ready(f, j, m0, m, h', base', len') ==> Ready(f, j, m0, m', h', base', len'))
  {
    var op := j.StoreAt(h, base, len)[0];
    ExecOne(f, op, m);
    CopyHolds(f, op, m, Want(f, j, m0, base));
    StoreExtends(f, j, m0, m, Apply(f, op, m), base, len);
    HalfKept(f, j, m0, m, op, h', base', len');
  }

  lemma StoreExtends(f: Fn, j: Job, m0: Mem, m: Mem, m': Mem, base: int, len: nat)
    requires 0 <= base && Stored(f, j, m0, m, base)
    requires Holds(m', Loc(Gdram, j.z + base), len, Want(f, j, m0, base))
    requires forall a :: !(j.z + base <= a < j.z + base + len) ==> m'(Loc(Gdram, a)) == m(Loc(Gdram, a))
    ensures Stored(f, j, m0, m', base + len)
  {
    forall a | j.z + base <= a < j.z + base + len
      ensures m'(Loc(Gdram, a)) == Want(f, j, m0, 0)(a - j.z)
    {
      var i := a - (j.z + base);
      CellHolds(m', Loc(Gdram, j.z + base), len, Want(f, j, m0, base), i);
      WantShift(f, j, m0, base, i);
      assert Loc(Gdram, j.z + base).Plus(i) == Loc(Gdram, a) && base + i == a - j.z;
    }
  }

  // ----- The whole program of one core, run serially -----

  lemma TileBounds(n: nat, span: nat, k: nat)
    requires 0 < span && k < n / span
    ensures k * span + span <= n
    ensures (k + 1) * span == k * span + span
  {
    Rounding.MulMonotone(k + 1, n / span, span);
    assert n == span * (n / span) + n % span;
  }

  lemma RemBounds(n: nat, span: nat)
    requires 0 < span
    ensures n / span * span + n % span == n
  {
  }

  /** The two halves in play around tile k. */
  lemma HalvesAlternate(lay: Layout, k: nat)
    ensures TwoHalves(lay, lay.Half(k), lay.Half(k + 1)) && TwoHalves(lay, lay.Half(k + 1), lay.Half(k))
    ensures lay.Half(k + 2) == lay.Half(k)
  {
  }

  /** What holds before the loop's iteration i: tile i is computed, tile i+1 is staged, the tiles before are stored. */
  ghost predicate LoopState(f: Fn, j: Job, m0: Mem, m: Mem, i: nat) {
    var n := j.lay.span;
    && Ready(f, j, m0, m, j.lay.Half(i), i * n, n)
    && Staged(j, m0, m, j.lay.Half(i + 1), (i + 1) * n, n)
    && Stored(f, j, m0, m, i * n)
  }

  lemma PrologueParts(j: Job)
    requires 0 < j.lay.span && j.Repeat() >= 2
    ensures var (n, h, h') := (j.lay.span, j.lay.Half(0), j.lay.Half(1));
            StretchOps(j.Prologue()) == j.LoadAt(h, 0, n) + (j.LoadAt(h', n, n) + j.ComputeAt(h, n))
  {
    hide Job.LoadAt, Job.ComputeAt, Job.Repeat;
    var n := j.lay.span;
    var l0, l1, c0 := j.LoadOps(0, n), j.LoadOps(1, n), j.ComputeOps(0, n);
    assert j.Prologue() == ([] + [Stretch(l0, [])]) + [Stretch(l1, c0)];
    assert [] + [Stretch(l0, [])] == [Stretch(l0, [])] && StretchOps([]) == [];
    hide StretchOps, Job.Prologue, Layout.Half;
    StretchOpsSnoc([], Stretch(l0, []));
    StretchOpsSnoc([Stretch(l0, [])], Stretch(l1, c0));
    assert [] + (l0 + []) == l0;
  }

  lemma PrologueEffect(f: Fn, j: Job, m0: Mem)
    requires j.Valid() && j.Repeat() >= 2
    ensures LoopState(f, j, m0, Exec(f, StretchOps(j.Prologue()), m0), 0)
  {
    hide Exec, Holds, Stored, Staged, Ready, Layout.Apart, Layout.ApartFromPong, Job.LoadAt, Job.ComputeAt, StretchOps;
    var n := j.lay.span;
    TileBounds(j.n, n, 0);
    TileBounds(j.n, n, 1);
    PrologueParts(j);
    assert 0 < n;
    hide Job.Repeat, Job.Valid, Layout.Valid, Job.Prologue;
    HalvesAlternate(j.lay, 0);
    NothingStoredYet(f, j, m0);
    hide TwoHalves, Layout.Half;
    var h, h' := j.lay.Half(0), j.lay.Half(1);
    var l0, l1, c0 := j.LoadAt(h, 0, n), j.LoadAt(h', n, n), j.ComputeAt(h, n);
    ExecAppend(f, l0, l1 + c0, m0);
    var m1 := Exec(f, l0, m0);
    ExecAppend(f, l1, c0, m1);
    LoadEffect(f, j, m0, m0, h, h', 0, 0, 0, n, 0);
    LoadEffect(f, j, m0, m1, h', h, n, 0, n, n, 0);
    ComputeEffect(f, j, m0, Exec(f, l1, m1), h, h', 0, n, n, n, n, 0);
  }

  lemma SteadyEffect(f: Fn, j: Job, m0: Mem, m: Mem, i: nat)
    requires j.Valid() && i + 2 < j.Repeat() && LoopState(f, j, m0, m, i)
    ensures LoopState(f, j, m0, Exec(f, j.Steady(i).io + j.Steady(i).alu, m), i + 1)
  {
    hide Exec, Holds, Stored, Staged, Ready, Layout.Apart, Layout.ApartFromPong, Job.LoadAt, Job.StoreAt, Job.ComputeAt;
    var n := j.lay.span;
    TileBounds(j.n, n, i);
    TileBounds(j.n, n, i + 1);
    TileBounds(j.n, n, i + 2);
    HalvesAlternate(j.lay, i);
    var h, h' := j.lay.Half(i), j.lay.Half(i + 1);
    var st, ld, cp := j.StoreOps(i, n), j.LoadOps(i + 2, n), j.ComputeOps(i + 1, n);
    ExecAppend(f, st + ld, cp, m);
    ExecAppend(f, st, ld, m);
    var m1 := Exec(f, st, m);
    var m2 := Exec(f, ld, m1);
    StoreEffect(f, j, m0, m, h, h', i * n, (i + 1) * n, n, n);
    LoadEffect(f, j, m0, m1, h, h', (i + 2) * n, (i + 1) * n, n, n, (i + 1) * n);
    ComputeEffect(f, j, m0, m2, h', h, (i + 1) * n, (i + 2) * n, n, n, n, (i + 1) * n);
  }

  lemma {:induction false} HeadEffect(f: Fn, j: Job, m0: Mem, i: nat)
    requires j.Valid() && i + 2 <= j.Repeat()
    ensures LoopState(f, j, m0, Exec(f, StretchOps(j.Head(i)), m0), i)
    decreases i
  {
    hide Exec, Holds, Stored, Staged, Ready, LoopState, StretchOps, Job.LoadAt, Job.StoreAt, Job.ComputeAt, Job.Repeat,
         Job.Prologue, Layout.Apart, Layout.ApartFromPong;
    if i == 0 {
      PrologueEffect(f, j, m0);
    } else {
      HeadEffect(f, j, m0, i - 1);
      var s := j.Steady(i - 1);
      StretchOpsSnoc(j.Head(i - 1), s);
      ExecAppend(f, StretchOps(j.Head(i - 1)), s.io + s.alu, m0);
      SteadyEffect(f, j, m0, Exec(f, StretchOps(j.Head(i - 1)), m0), i - 1);
    }
  }

  /** What holds when the last full tile has been computed and the remainder staged. */
  ghost predicate DrainState(f: Fn, j: Job, m0: Mem, m: Mem)
    requires 0 < j.lay.span
  {
    var n, r := j.lay.span, j.Repeat();
    && Stored(f, j, m0, m, if r > 0 then (r - 1) * n else 0)
    && (r > 0 ==> Ready(f, j, m0, m, j.lay.Half(r - 1), (r - 1) * n, n))
    && Staged(j, m0, m, j.lay.Half(r), r * n, j.Rem())
  }

  lemma RemBelowSpan(j: Job)
    requires 0 < j.lay.span
    ensures j.Rem() < j.lay.span
  {
  }

  lemma EmptyStaged(j: Job, m0: Mem, m: Mem, h: nat, base: int)
    ensures Staged(j, m0, m, h, base, 0)
  {
  }

  lemma EmptyReady(f: Fn, j: Job, m0: Mem, m: Mem, h: nat, base: int)
    ensures Ready(f, j, m0, m, h, base, 0)
  {
  }

  /** How much of the slice is stored once tile Repeat()-2 is. */
  function DrainDone(j: Job): int
    requires 0 < j.lay.span
  {
    if j.Repeat() > 0 then (j.Repeat() - 1) * j.lay.span else 0
  }

  ghost predicate LastTileStaged(f: Fn, j: Job, m0: Mem, m: Mem)
    requires 0 < j.lay.span
  {
    && Stored(f, j, m0, m, DrainDone(j))
    && (j.Repeat() > 0 ==> Staged(j, m0, m, j.lay.Half(j.Repeat() - 1), (j.Repeat() - 1) * j.lay.span, j.lay.span))
  }

  lemma OneTileEffect(f: Fn, j: Job, m0: Mem)
    requires j.Valid() && j.Repeat() == 1
    ensures LastTileStaged(f, j, m0, Exec(f, StretchOps(j.Prologue()), m0))
  {
    hide Exec, Holds, Stored, Staged, Ready, Synced, Layout.Apart, Layout.ApartFromPong;
    var n := j.lay.span;
    var l0 := j.LoadOps(0, n);
    assert j.Prologue() == [] + [Stretch(l0, [])];
    StretchOpsSnoc([], Stretch(l0, []));
    assert StretchOps(j.Prologue()) == l0;
    TileBounds(j.n, n, 0);
    HalvesAlternate(j.lay, 0);
    NothingStoredYet(f, j, m0);
    LoadEffect(f, j, m0, m0, j.lay.Half(0), j.lay.Half(1), 0, 0, 0, n, 0);
  }

  lemma HeadZero(j: Job)
    requires 0 < j.lay.span
    ensures j.Head(0) == j.Prologue()
    ensures j.Repeat() == 0 ==> StretchOps(j.Head(0)) == []
  {
  }

  /** Once tile Repeat()-2 has been stored, the last full tile is staged and all before it is stored. */
  lemma DrainStoreEffect(f: Fn, j: Job, m0: Mem, m: Mem)
    requires j.Valid() && m == Exec(f, StretchOps(j.Head(j.Loops())), m0)
    ensures LastTileStaged(f, j, m0, Exec(f, j.DrainStore(), m))
  {
    hide Exec, Holds, Stored, Staged, Ready, Synced, LoopState, Layout.Apart, Layout.ApartFromPong, Job.Head;
    var n, r := j.lay.span, j.Repeat();
    HeadZero(j);
    NothingStoredYet(f, j, m0);
    ExecNone(f, m);
    ExecNone(f, m0);
    if r == 1 {
      OneTileEffect(f, j, m0);
    } else if r > 1 {
      HeadEffect(f, j, m0, r - 2);
      LastStoreEffect(f, j, m0, m);
    }
  }

  lemma LastStoreEffect(f: Fn, j: Job, m0: Mem, m: Mem)
    requires j.Valid() && j.Repeat() > 1 && LoopState(f, j, m0, m, j.Repeat() - 2)
    ensures LastTileStaged(f, j, m0, Exec(f, j.DrainStore(), m))
  {
    hide Exec, Holds, Stored, Staged, Ready, Layout.Apart, Layout.ApartFromPong;
    var n, r := j.lay.span, j.Repeat();
    TileBounds(j.n, n, r - 1);
    TileBounds(j.n, n, r - 2);
    HalvesAlternate(j.lay, r - 2);
    StoreEffect(f, j, m0, m, j.lay.Half(r - 2), j.lay.Half(r - 1), (r - 2) * n, (r - 1) * n, n, n);
  }

  lemma DrainLoadEffect(f: Fn, j: Job, m0: Mem, m: Mem)
    requires j.Valid() && LastTileStaged(f, j, m0, m)
    ensures var m' := Exec(f, j.DrainLoad(), m);
            && LastTileStaged(f, j, m0, m')
            && Staged(j, m0, m', j.lay.Half(j.Repeat()), j.Repeat() * j.lay.span, j.Rem())
  {
    hide Exec, Holds, Stored, Staged, Ready, Layout.Apart, Layout.ApartFromPong, Job.LoadAt;
    var n, r, rem := j.lay.span, j.Repeat(), j.Rem();
    RemBelowSpan(j);
    RemBounds(j.n, n);
    ExecNone(f, m);
    EmptyStaged(j, m0, m, j.lay.Half(r), r * n);
    if rem > 0 {
      if r == 0 {
        HalvesAlternate(j.lay, 0);
        LoadEffect(f, j, m0, m, j.lay.Half(0), j.lay.Half(1), 0, 0, 0, rem, 0);
      } else {
        TileBounds(j.n, n, r - 1);
        HalvesAlternate(j.lay, r - 1);
        LoadEffect(f, j, m0, m, j.lay.Half(r), j.lay.Half(r - 1), r * n, (r - 1) * n, n, rem, (r - 1) * n);
      }
    }
  }

  lemma DrainComputeEffect(f: Fn, j: Job, m0: Mem, m: Mem)
    requires j.Valid() && LastTileStaged(f, j, m0, m)
    requires Staged(j, m0, m, j.lay.Half(j.Repeat()), j.Repeat() * j.lay.span, j.Rem())
    ensures DrainState(f, j, m0, Exec(f, j.DrainCompute(), m))
  {
    hide Exec, Holds, Stored, Staged, Ready, Layout.Apart, Layout.ApartFromPong, Job.ComputeAt;
    RemBelowSpan(j);
    hide Job.Repeat, Job.Rem;
    var n, r, rem := j.lay.span, j.Repeat(), j.Rem();
    ExecNone(f, m);
    if r > 0 {
      HalvesAlternate(j.lay, r - 1);
      ComputeEffect(f, j, m0, m, j.lay.Half(r - 1), j.lay.Half(r), (r - 1) * n, r * n, rem, n, n, (r - 1) * n);
    }
  }

  lemma DrainEffect(f: Fn, j: Job, m0: Mem, m: Mem)
    requires j.Valid() && m == Exec(f, StretchOps(j.Head(j.Loops())), m0)
    ensures DrainState(f, j, m0, Exec(f, j.Drain().io + j.Drain().alu, m))
  {
    hide Exec, Holds, Stored, Staged, Ready, DrainState, LastTileStaged;
    ExecAppend(f, j.DrainStore() + j.DrainLoad(), j.DrainCompute(), m);
    ExecAppend(f, j.DrainStore(), j.DrainLoad(), m);
    var m1 := Exec(f, j.DrainStore(), m);
    DrainStoreEffect(f, j, m0, m);
    DrainLoadEffect(f, j, m0, m1);
    DrainComputeEffect(f, j, m0, Exec(f, j.DrainLoad(), m1));
  }

  lemma TailEffect(f: Fn, j: Job, m0: Mem, m: Mem)
    requires j.Valid() && DrainState(f, j, m0, m)
    ensures var m' := Exec(f, j.Tail().io + j.Tail().alu, m);
            && Stored(f, j, m0, m', j.Repeat() * j.lay.span)
            && Ready(f, j, m0, m', j.lay.Half(j.Repeat()), j.Repeat() * j.lay.span, j.Rem())
  {
    hide Exec, Holds, Stored, Staged, Ready, Layout.Apart, Layout.ApartFromPong, Job.StoreAt, Job.ComputeAt;
    var n, r, rem := j.lay.span, j.Repeat(), j.Rem();
    HalvesAlternate(j.lay, r);
    var h, h' := j.lay.Half(r), j.lay.Half(r + 1);
    var st := j.Tail().io;
    ExecAppend(f, st, j.Tail().alu, m);
    var m1 := Exec(f, st, m);
    ExecNone(f, m);
    ExecNone(f, m1);
    EmptyReady(f, j, m0, m1, h, r * n);
    if r > 0 {
      TileBounds(j.n, n, r - 1);
      HalvesAlternate(j.lay, r - 1);
      StoreEffect(f, j, m0, m, h', h, (r - 1) * n, r * n, rem, n);
    }
    if rem > 0 {
      Rounding.CeilAlignIsCeiling(rem, j.lay.align);
      Rounding.CeilAlignWithin(rem, n, j.lay.align);
      ComputeEffect(f, j, m0, m1, h, h', r * n, 0, 0, rem, j.AlignRem(), r * n);
    }
  }

  lemma HeadThenDrain(f: Fn, j: Job, m0: Mem)
    requires j.Valid()
    ensures DrainState(f, j, m0, Exec(f, StretchOps(j.Head(j.Loops()) + [j.Drain()]), m0))
  {
    hide Exec, DrainState, StretchOps, Synced, Job.Drain;
    var head, drain := j.Head(j.Loops()), j.Drain();
    StretchOpsSnoc(head, drain);
    ExecAppend(f, StretchOps(head), drain.io + drain.alu, m0);
    DrainEffect(f, j, m0, Exec(f, StretchOps(head), m0));
  }

  /** Run serially, a core's program leaves its slice of the output computed and the rest of off-chip memory
      alone. The padded lanes of the remainder never get there. */
  lemma ProgramEffect(f: Fn, j: Job, m0: Mem)
    requires j.Valid()
    ensures Stored(f, j, m0, Exec(f, StretchOps(j.Body() + [j.Final()]), m0), j.n)
  {
    hide Exec, Holds, Stored, Staged, Ready, DrainState, StretchOps, Synced, Job.Head, Job.Drain;
    var n, r, rem := j.lay.span, j.Repeat(), j.Rem();
    RemBounds(j.n, n);
    HeadThenDrain(f, j, m0);
    var front, tail := j.Head(j.Loops()) + [j.Drain()], j.Tail();
    var m1 := Exec(f, StretchOps(front), m0);
    StretchOpsSnoc(front, tail);
    ExecAppend(f, StretchOps(front), tail.io + tail.alu, m0);
    TailEffect(f, j, m0, m1);
    var m2 := Exec(f, StretchOps(front + [tail]), m0);
    assert r * n + rem == j.n;
    if rem == 0 {
      assert j.Body() + [j.Final()] == front + [tail];
    } else {
      var fin := j.Final();
      assert j.Body() + [fin] == front + [tail] + [fin];
      StretchOpsSnoc(front + [tail], fin);
      ExecAppend(f, StretchOps(front + [tail]), fin.io + fin.alu, m0);
      assert fin.io + fin.alu == j.StoreOps(r, rem);
      StoreEffect(f, j, m0, m2, j.lay.Half(r), j.lay.Half(r), r * n, 0, 0, rem);
    }
  }

  // ----- No race within a core -----

  /** Io operations on one half and computations on the other are independent. */
  lemma HalvesIndependent(j: Job, h: nat, h': nat, base: int, base': int, len: nat, len': nat, padded: nat)
    requires j.Valid() && TwoHalves(j.lay, h, h')
    requires len <= j.lay.span && len' <= j.lay.span && padded <= j.lay.span
    ensures AllIndependent(j.StoreAt(h, base, len) + j.LoadAt(h, base', len'), j.ComputeAt(h', padded))
    ensures AllIndependent(j.StoreAt(h, base, len), j.ComputeAt(h', padded))
    ensures AllIndependent(j.LoadAt(h, base', len'), j.ComputeAt(h', padded))
  {
    var st, ld, cp := j.StoreAt(h, base, len), j.LoadAt(h, base', len'), j.ComputeAt(h', padded);
    forall x, y | x in st + ld && y in cp ensures Independent(x, y) {
      if x == st[0] {
        StoreIndependent(j, h, h', base, len, padded);
      } else {
        LoadIndependent(j, h, h', base', len', padded);
      }
    }
  }

  lemma StoreIndependent(j: Job, h: nat, h': nat, base: int, len: nat, padded: nat)
    requires j.Valid() && TwoHalves(j.lay, h, h') && len <= j.lay.span && padded <= j.lay.span
    ensures Independent(j.StoreAt(h, base, len)[0], j.ComputeAt(h', padded)[0])
  {
  }

  lemma LoadIndependent(j: Job, h: nat, h': nat, base: int, len: nat, padded: nat)
    requires j.Valid() && TwoHalves(j.lay, h, h') && len <= j.lay.span && padded <= j.lay.span
    ensures Independent(j.LoadAt(h, base, len)[0], j.ComputeAt(h', padded)[0])
    ensures Independent(j.LoadAt(h, base, len)[1], j.ComputeAt(h', padded)[0])
  {
  }

  lemma PrologueOk(j: Job)
    requires j.Valid()
    ensures StretchesOk(j.Prologue())
  {
    hide Layout.Apart, Layout.ApartFromPong;
    var n := j.lay.span;
    HalvesAlternate(j.lay, 0);
    HalvesIndependent(j, j.lay.Half(1), j.lay.Half(0), 0, n, n, n, n);
  }

  lemma SteadyOk(j: Job, i: nat)
    requires j.Valid()
    ensures AllIndependent(j.Steady(i).io, j.Steady(i).alu)
  {
    hide Layout.Apart, Layout.ApartFromPong;
    var n := j.lay.span;
    HalvesAlternate(j.lay, i);
    HalvesIndependent(j, j.lay.Half(i), j.lay.Half(i + 1), i * n, (i + 2) * n, n, n, n);
  }

  lemma {:induction false} HeadOk(j: Job, i: nat)
    requires j.Valid()
    ensures StretchesOk(j.Head(i))
    decreases i
  {
    if i == 0 {
      PrologueOk(j);
    } else {
      HeadOk(j, i - 1);
      SteadyOk(j, i - 1);
    }
  }

  lemma DrainOk(j: Job)
    requires j.Valid()
    ensures AllIndependent(j.Drain().io, j.Drain().alu)
  {
    hide Layout.Apart, Layout.ApartFromPong, AllIndependent, Job.LoadAt, Job.StoreAt, Job.ComputeAt;
    RemBelowSpan(j);
    hide Job.Repeat, Job.Rem, Job.AlignRem;
    if j.Repeat() > 0 {
      DrainComputesOk(j);
    } else {
      NoneIndependent(j.Drain().io);
    }
  }

  /** Storing and loading two tiles of one half while a tile of the other is computed. */
  lemma TilesIndependent(j: Job, s: nat, l: nat, c: nat, len: nat)
    requires j.Valid() && TwoHalves(j.lay, j.lay.Half(l), j.lay.Half(c)) && len <= j.lay.span
    ensures AllIndependent(j.LoadOps(l, len), j.ComputeOps(c, j.lay.span))
    ensures j.lay.Half(s) == j.lay.Half(l) ==>
              && AllIndependent(j.StoreOps(s, j.lay.span) + j.LoadOps(l, len), j.ComputeOps(c, j.lay.span))
              && AllIndependent(j.StoreOps(s, j.lay.span), j.ComputeOps(c, j.lay.span))
  {
    hide Layout.Apart, Layout.ApartFromPong, AllIndependent, Job.LoadAt, Job.StoreAt, Job.ComputeAt, Layout.Half;
    HalvesIndependent(j, j.lay.Half(l), j.lay.Half(c), s * j.lay.span, l * j.lay.span, j.lay.span, len, j.lay.span);
  }

  lemma DrainComputesOk(j: Job)
    requires j.Valid() && 0 < j.Repeat() && j.Rem() < j.lay.span
    ensures AllIndependent(j.DrainStore() + j.DrainLoad(), j.DrainCompute())
  {
    hide Layout.Apart, Layout.ApartFromPong, AllIndependent, Job.LoadOps, Job.StoreOps, Job.ComputeOps, Job.Repeat,
         Job.Rem;
    var r := j.Repeat();
    HalvesAlternate(j.lay, r - 1);
    if r > 1 {
      HalvesAlternate(j.lay, r - 2);
    }
    TilesIndependent(j, if r > 1 then r - 2 else r, r, r - 1, j.Rem());
    NoneIndependent(j.DrainCompute());
    hide Layout.Half, TwoHalves, Job.Valid, Layout.Valid;
    assert [] + j.DrainLoad() == j.DrainLoad() && j.DrainStore() + [] == j.DrainStore();
  }

  lemma NoneIndependent(xs: seq<Op>)
    ensures AllIndependent(xs, []) && AllIndependent([], xs)
  {
  }

  lemma AlignRemWithin(j: Job)
    requires j.Valid()
    ensures j.Rem() > 0 ==> j.AlignRem() <= j.lay.span
  {
    RemBelowSpan(j);
    hide Layout.Apart, Layout.ApartFromPong;
    Rounding.CeilAlignWithin(j.Rem(), j.lay.span, j.lay.align);
  }

  lemma TailOk(j: Job)
    requires j.Valid()
    ensures AllIndependent(j.Tail().io, j.Tail().alu)
  {
    hide Layout.Apart, Layout.ApartFromPong, AllIndependent, Job.LoadAt, Job.StoreAt, Job.ComputeAt;
    RemBelowSpan(j);
    AlignRemWithin(j);
    hide Job.Repeat, Job.Rem, Job.AlignRem;
    var n, r := j.lay.span, j.Repeat();
    NoneIndependent(j.Tail().io);
    NoneIndependent(j.Tail().alu);
    if r > 0 && j.Rem() > 0 {
      HalvesAlternate(j.lay, r - 1);
      HalvesIndependent(j, j.lay.Half(r - 1), j.lay.Half(r), (r - 1) * n, 0, n, 0, j.AlignRem());
    }
  }

  /** Between two syncs, nothing on the io pipeline conflicts with anything on the compute pipeline. */
  lemma ProgramOk(j: Job)
    requires j.Valid()
    ensures StretchesOk(j.Body() + [j.Final()])
    ensures WellSynced([], j.Program()) && CodeOps(j.Program()) == StretchOps(j.Body() + [j.Final()])
  {
    hide AllIndependent, WellSynced, StretchOps, Synced, CodeOps, Layout.Apart, Layout.ApartFromPong;
    HeadOk(j, j.Loops());
    DrainOk(j);
    TailOk(j);
    NoneIndependent(j.StoreOps(j.Repeat(), j.Rem()));
    StretchCodeOk(j.Body(), j.Final());
  }

  // ----- Where a core's operations may touch off-chip memory -----

  predicate Within(p: Loc, n: nat, base: int, len: nat) {
    p.space == Gdram && base <= p.addr && p.addr + n <= base + len
  }

  /** Reads inside the input slices, writes inside the output slice, all else in the core's private memory. */
  predicate Confined(j: Job, op: Op) {
    var own := Nram(0, j.core);
    match op
    case Copy(dst, src, n) =>
      || (dst.space == own && (Within(src, n, j.x, j.n) || Within(src, n, j.y, j.n)))
      || (src.space == own && Within(dst, n, j.z, j.n))
    case Compute(dst, a, b, n) => dst.space == own && a.space == own && b.space == own
  }

  ghost predicate AllConfined(j: Job, ops: seq<Op>) {
    forall op :: op in ops ==> Confined(j, op)
  }

  lemma TileConfined(j: Job, h: nat, base: int, len: nat, padded: nat)
    requires 0 <= base && base + len <= j.n
    ensures AllConfined(j, j.LoadAt(h, base, len)) && AllConfined(j, j.StoreAt(h, base, len))
    ensures AllConfined(j, j.ComputeAt(h, padded))
  {
  }

  lemma SnocConfined(j: Job, ss: seq<Stretch>, s: Stretch)
    requires AllConfined(j, StretchOps(ss)) && AllConfined(j, s.io) && AllConfined(j, s.alu)
    ensures AllConfined(j, StretchOps(ss + [s]))
  {
    StretchOpsSnoc(ss, s);
  }

  lemma PrologueConfined(j: Job)
    requires j.Valid()
    ensures AllConfined(j, StretchOps(j.Prologue()))
  {
    hide Confined, StretchOps, Synced, Layout.Apart, Layout.ApartFromPong;
    var n := j.lay.span;
    assert StretchOps([]) == [] by { StretchOpsNone(); }
    if j.Repeat() > 0 {
      TileBounds(j.n, n, 0);
      TileConfined(j, j.lay.Half(0), 0, n, n);
      SnocConfined(j, [], Stretch(j.LoadOps(0, n), []));
      assert [] + [Stretch(j.LoadOps(0, n), [])] == [Stretch(j.LoadOps(0, n), [])];
    }
    if j.Repeat() > 1 {
      TileBounds(j.n, n, 1);
      TileConfined(j, j.lay.Half(1), n, n, n);
      TileConfined(j, j.lay.Half(0), 0, 0, n);
      SnocConfined(j, [Stretch(j.LoadOps(0, n), [])], Stretch(j.LoadOps(1, n), j.ComputeOps(0, n)));
      assert j.Prologue() == [Stretch(j.LoadOps(0, n), [])] + [Stretch(j.LoadOps(1, n), j.ComputeOps(0, n))];
    } else if j.Repeat() == 1 {
      assert j.Prologue() == [Stretch(j.LoadOps(0, n), [])];
    }
  }

  lemma StretchOpsNone()
    ensures StretchOps([]) == []
  {
  }

  lemma {:induction false} HeadConfined(j: Job, i: nat)
    requires j.Valid() && (i == 0 || i + 2 <= j.Repeat())
    ensures AllConfined(j, StretchOps(j.Head(i)))
    decreases i
  {
    hide Confined, AllConfined, StretchOps, Synced, Layout.Apart, Layout.ApartFromPong, Job.LoadAt, Job.StoreAt,
         Job.ComputeAt, Job.Prologue;
    var n := j.lay.span;
    if i == 0 {
      PrologueConfined(j);
    } else {
      HeadConfined(j, i - 1);
      TileBounds(j.n, n, i - 1);
      TileBounds(j.n, n, i + 1);
      TileConfined(j, j.lay.Half(i - 1), (i - 1) * n, n, n);
      TileConfined(j, j.lay.Half(i + 1), (i + 1) * n, n, n);
      TileConfined(j, j.lay.Half(i), 0, 0, n);
      SnocConfined(j, j.Head(i - 1), j.Steady(i - 1));
    }
  }

  lemma EndConfined(j: Job)
    requires j.Valid()
    ensures AllConfined(j, j.Drain().io) && AllConfined(j, j.Drain().alu)
    ensures AllConfined(j, j.Tail().io) && AllConfined(j, j.Tail().alu)
    ensures j.Rem() > 0 ==> AllConfined(j, j.Final().io) && AllConfined(j, j.Final().alu)
  {
    hide AllConfined, Job.LoadOps, Job.StoreOps, Job.ComputeOps, Job.Repeat, Job.Rem, Job.AlignRem;
    var r := j.Repeat();
    RemConfined(j);
    NoneConfined(j);
    if r > 0 {
      FullConfined(j, r - 1);
    }
    if r > 1 {
      FullConfined(j, r - 2);
    }
    BothConfined(j, j.DrainStore(), j.DrainLoad());
  }

  lemma RemConfined(j: Job)
    requires j.Valid()
    ensures AllConfined(j, j.LoadOps(j.Repeat(), j.Rem())) && AllConfined(j, j.StoreOps(j.Repeat(), j.Rem()))
    ensures AllConfined(j, j.ComputeOps(j.Repeat(), j.AlignRem()))
  {
    hide Confined, Layout.Apart, Layout.ApartFromPong;
    RemBounds(j.n, j.lay.span);
    TileConfined(j, j.lay.Half(j.Repeat()), j.Repeat() * j.lay.span, j.Rem(), j.AlignRem());
  }

  lemma FullConfined(j: Job, k: nat)
    requires j.Valid() && k < j.Repeat()
    ensures AllConfined(j, j.StoreOps(k, j.lay.span)) && AllConfined(j, j.ComputeOps(k, j.lay.span))
  {
    hide Confined, Layout.Apart, Layout.ApartFromPong;
    TileBounds(j.n, j.lay.span, k);
    TileConfined(j, j.lay.Half(k), k * j.lay.span, j.lay.span, j.lay.span);
  }

  lemma NoneConfined(j: Job)
    ensures AllConfined(j, [])
  {
  }

  lemma BothConfined(j: Job, xs: seq<Op>, ys: seq<Op>)
    requires AllConfined(j, xs) && AllConfined(j, ys)
    ensures AllConfined(j, xs + ys)
  {
    hide Confined;
  }

  lemma ProgramConfined(j: Job)
    requires j.Valid()
    ensures AllConfined(j, StretchOps(j.Body() + [j.Final()]))
  {
    hide Confined, StretchOps, Synced, Layout.Apart, Layout.ApartFromPong, AllConfined, Job.Head, Job.Drain, Job.Tail;
    HeadConfined(j, j.Loops());
    EndConfined(j);
    var head := j.Head(j.Loops());
    SnocConfined(j, head, j.Drain());
    SnocConfined(j, head + [j.Drain()], j.Tail());
    if j.Rem() > 0 {
      SnocConfined(j, head + [j.Drain()] + [j.Tail()], j.Final());
      assert j.Body() + [j.Final()] == head + [j.Drain()] + [j.Tail()] + [j.Final()];
    } else {
      assert j.Body() + [j.Final()] == head + [j.Drain()] + [j.Tail()];
    }
  }

  // ----- All cores -----

  /** A launch: total elements from x and y to z, split into per elements for every core but the last, which
      takes tail. */
  datatype Launch = Launch(x: int, y: int, z: int, total: nat, lay: Layout, cores: nat, per: nat, tail: nat) {

    /** Nothing but what the launch needs: a layout whose blocks do not clash, a split that adds up, and an
        output that is one of the inputs or apart from them. */
    ghost predicate Valid() {
      && lay.Valid() && 0 < cores && (cores - 1) * per + tail == total
      && (z == x || z + total <= x || x + total <= z)
      && (z == y || z + total <= y || y + total <= z)
    }

    function JobOf(t: nat): Job {
      Job(x + t * per, y + t * per, z + t * per, if t + 1 == cores then tail else per, lay, t)
    }

    function Threads(): seq<Thread>
      requires 0 < lay.span && 0 < lay.align
    {
      seq(cores, t requires 0 <= t < cores => Thread([], JobOf(t).Program(), []))
    }

    function Start(m0: Mem): Config
      requires 0 < lay.span && 0 < lay.align
    {
      Config([Threads()], m0)
    }

    /** How many elements the first t cores cover. */
    function Covered(t: nat): int {
      if t < cores then t * per else total
    }
  }

  lemma SliceBounds(w: Launch, t: nat)
    requires w.Valid() && t < w.cores
    ensures 0 <= t * w.per && t * w.per + w.JobOf(t).n == w.Covered(t + 1) <= w.total
    ensures w.JobOf(t).Valid()
  {
    hide Layout.Valid;
    SharesWithin(w.per, t, w.cores);
  }

  lemma SharesWithin(per: nat, t: nat, cores: nat)
    requires t < cores
    ensures 0 <= t * per && (t + 1) * per == t * per + per
    ensures t + 1 < cores ==> (t + 1) * per <= (cores - 1) * per
  {
    Rounding.MulMonotone(0, t, per);
    if t + 1 < cores {
      Rounding.MulMonotone(t + 1, cores - 1, per);
    }
  }

  lemma SlicesInOrder(w: Launch, t: nat, u: nat)
    requires w.Valid() && t < u < w.cores
    ensures t * w.per + w.JobOf(t).n <= u * w.per
  {
    Rounding.MulMonotone(t + 1, u, w.per);
    assert (t + 1) * w.per == t * w.per + w.per;
  }

  predicate SlicesApart(p: int, n: nat, q: int, n': nat) {
    p + n <= q || q + n' <= p
  }

  /** Cores whose output slice is apart from all slices of the other do not interfere. */
  lemma ConfinedApart(j: Job, j': Job, a: Op, b: Op)
    requires j.core != j'.core && Confined(j, a) && Confined(j', b)
    requires SlicesApart(j.z, j.n, j'.x, j'.n) && SlicesApart(j.z, j.n, j'.y, j'.n) && SlicesApart(j.z, j.n, j'.z, j'.n)
    requires SlicesApart(j'.z, j'.n, j.x, j.n) && SlicesApart(j'.z, j'.n, j.y, j.n)
    ensures Independent(a, b)
  {
  }

  /** What different cores do is independent, also when the output is an input. */
  lemma CoresIndependent(w: Launch, t: nat, u: nat, a: Op, b: Op)
    requires w.Valid() && t < w.cores && u < w.cores && t != u
    requires Confined(w.JobOf(t), a) && Confined(w.JobOf(u), b)
    ensures Independent(a, b)
  {
    hide Layout.Valid, Confined, Independent;
    SliceBounds(w, t);
    SliceBounds(w, u);
    if t < u {
      SlicesInOrder(w, t, u);
    } else {
      SlicesInOrder(w, u, t);
    }
    ConfinedApart(w.JobOf(t), w.JobOf(u), a, b);
  }

  lemma ThreadWindow(w: Launch, t: nat)
    requires w.Valid() && t < w.cores
    ensures ThreadOk(w.Threads()[t]) && w.JobOf(t).Valid()
    ensures Window(w.Threads()[t]) == StretchOps(w.JobOf(t).Body() + [w.JobOf(t).Final()])
    ensures AllConfined(w.JobOf(t), Window(w.Threads()[t]))
  {
    hide WellSynced, StretchOps, Synced, CodeOps, Confined, Job.Body, Job.Final, Job.Program, Layout.Apart,
         Layout.ApartFromPong;
    SliceBounds(w, t);
    var j := w.JobOf(t);
    ProgramOk(j);
    ProgramConfined(j);
    assert PendOps([]) == [];
    assert PendOps([]) + CodeOps(j.Program()) == CodeOps(j.Program());
  }

  /** No launch has a race: not between the pipelines of a core, not between cores. */
  lemma LaunchRaceFree(w: Launch, m0: Mem)
    requires w.Valid()
    ensures RaceFree(w.Start(m0).clusters)
  {
    hide WellSynced, Window, Confined, Independent, Layout.Apart, Layout.ApartFromPong, Job.Program;
    var ths := w.Threads();
    forall t | 0 <= t < |ths| ensures ThreadOk(ths[t]) {
      ThreadWindow(w, t);
    }
    forall t, u | 0 <= t < |ths| && 0 <= u < |ths| && t != u ensures PairOk(ths[t], ths[u]) {
      ThreadWindow(w, t);
      ThreadWindow(w, u);
      forall a, b | a in Window(ths[t]) && b in Window(ths[u]) ensures Independent(a, b) {
        CoresIndependent(w, t, u, a, b);
      }
    }
    assert ClusterOk(ths);
  }

  /** The whole launch seen as one slice. */
  function Whole(w: Launch): Job {
    Job(w.x, w.y, w.z, w.total, w.lay, 0)
  }

  lemma {:induction false} CoresEffect(f: Fn, w: Launch, m0: Mem, t: nat)
    requires w.Valid() && t <= w.cores
    ensures Stored(f, Whole(w), m0, Exec(f, Flatten(Windows(w.Threads())[..t]), m0), w.Covered(t))
    decreases t
  {
    hide Exec, Stored, Window, WellSynced, StretchOps, Confined, Layout.Apart, Layout.ApartFromPong, Job.Program,
         Job.Body, Job.Final;
    var ws := Windows(w.Threads());
    if t == 0 {
      assert ws[..0] == [] && w.Covered(0) == 0;
      ExecNone(f, m0);
      NothingStoredYet(f, Whole(w), m0);
    } else {
      CoresEffect(f, w, m0, t - 1);
      var m := Exec(f, Flatten(ws[..t - 1]), m0);
      assert ws[..t] == ws[..t - 1] + [ws[t - 1]];
      FlattenAppend(ws[..t - 1], [ws[t - 1]]);
      assert Flatten([ws[t - 1]]) == ws[t - 1] by { assert [ws[t - 1]][1..] == []; }
      ExecAppend(f, Flatten(ws[..t - 1]), ws[t - 1], m0);
      ThreadWindow(w, t - 1);
      ProgramEffect(f, w.JobOf(t - 1), m);
      SliceBounds(w, t - 1);
      SliceJoins(f, w, m0, m, Exec(f, ws[t - 1], m), t - 1);
    }
  }

  /** An input element of a slice that is still to come has not been overwritten. */
  lemma InputFromOriginal(f: Fn, j: Job, m0: Mem, m: Mem, p: int, base: int, i: int)
    requires j.z == p || j.z + j.n <= p || p + j.n <= j.z
    requires 0 <= base && 0 <= i && base + i < j.n && Stored(f, j, m0, m, base)
    ensures m(Loc(Gdram, p + base + 0 + i)) == m0(Loc(Gdram, p + 0 + (base + i)))
  {
    var a := p + base + i;
    assert !(j.z <= a < j.z + base);
    assert p + base + 0 + i == a && p + 0 + (base + i) == a;
  }

  /** A core computes from m what it would have computed from the original inputs. */
  lemma WantFromOriginal(f: Fn, w: Launch, m0: Mem, m: Mem, t: nat, i: int)
    requires w.Valid() && t < w.cores && 0 <= i < w.JobOf(t).n
    requires Stored(f, Whole(w), m0, m, t * w.per)
    ensures Want(f, w.JobOf(t), m, 0)(i) == Want(f, Whole(w), m0, 0)(t * w.per + i)
  {
    hide Stored, Layout.Valid;
    SliceBounds(w, t);
    InputFromOriginal(f, Whole(w), m0, m, w.x, t * w.per, i);
    InputFromOriginal(f, Whole(w), m0, m, w.y, t * w.per, i);
  }

  /** One more slice done on top of those before it. */
  lemma SliceJoins(f: Fn, w: Launch, m0: Mem, m: Mem, m': Mem, t: nat)
    requires w.Valid() && t < w.cores
    requires Stored(f, Whole(w), m0, m, t * w.per) && Stored(f, w.JobOf(t), m, m', w.JobOf(t).n)
    ensures Stored(f, Whole(w), m0, m', w.Covered(t + 1))
  {
    hide Stored, Want, Slice, Layout.Apart, Layout.ApartFromPong, Job.Valid, Launch.Valid, Launch.JobOf, Launch.Covered;
    SliceBounds(w, t);
    JobOrigin(w, t);
    SliceFromOriginal(f, w, m0, m, t, w.JobOf(t), t * w.per);
    JoinStored(f, Whole(w), w.JobOf(t), m0, m, m', t * w.per);
  }

  lemma SliceFromOriginal(f: Fn, w: Launch, m0: Mem, m: Mem, t: nat, j: Job, base: int)
    requires w.Valid() && t < w.cores && j == w.JobOf(t) && base == t * w.per && Stored(f, Whole(w), m0, m, base)
    ensures forall i | 0 <= i < j.n :: Want(f, j, m, 0)(i) == Want(f, Whole(w), m0, 0)(base + i)
  {
    hide Stored, Want, Slice, Layout.Apart, Layout.ApartFromPong, Job.Valid, Launch.Valid, Launch.JobOf;
    forall i | 0 <= i < j.n ensures Want(f, j, m, 0)(i) == Want(f, Whole(w), m0, 0)(base + i) {
      WantFromOriginal(f, w, m0, m, t, i);
    }
  }

  lemma JoinStored(f: Fn, whole: Job, j: Job, m0: Mem, m: Mem, m': Mem, base: int)
    requires 0 <= base && j.z == whole.z + base
    requires Stored(f, whole, m0, m, base) && Stored(f, j, m, m', j.n)
    requires forall i | 0 <= i < j.n :: Want(f, j, m, 0)(i) == Want(f, whole, m0, 0)(base + i)
    ensures Stored(f, whole, m0, m', base + j.n)
  {
    hide Want;
    var g, g' := Want(f, whole, m0, 0), Want(f, j, m, 0);
    forall a
      ensures m'(Loc(Gdram, a)) == if whole.z <= a < whole.z + (base + j.n) then g(a - whole.z) else m0(Loc(Gdram, a))
    {
      if whole.z + base <= a < whole.z + base + j.n {
        var i := a - j.z;
        assert g'(i) == g(base + i) && base + i == a - whole.z;
      }
    }
  }

  lemma JobOrigin(w: Launch, t: nat)
    ensures w.JobOf(t).z == w.z + t * w.per
  {
  }

  /** Off-chip memory m is m0 with the elementwise result at z. */
  ghost predicate IsElementwise(f: Fn, x: int, y: int, z: int, total: nat, m0: Mem, m: Mem) {
    forall a :: m(Loc(Gdram, a)) ==
                if z <= a < z + total then f(m0(Loc(Gdram, x + (a - z))), m0(Loc(Gdram, y + (a - z))))
                else m0(Loc(Gdram, a))
  }

  /** Whatever order the pipelines of all cores retire their operations in, a launch that has finished leaves
      the elementwise result in the output and nothing else changed off chip. */
  lemma EveryScheduleIsElementwise(f: Fn, w: Launch, m0: Mem, es: seq<Event>)
    requires w.Valid() && Schedule(w.Start(m0).clusters, es)
    requires Finished(After(f, w.Start(m0), es).clusters)
    ensures IsElementwise(f, w.x, w.y, w.z, w.total, m0, After(f, w.Start(m0), es).mem)
  {
    hide Exec, WellSynced, Windows, Schedule, After, RaceFree, Finished, Layout.Apart, Layout.ApartFromPong,
         Job.Program, Stored, IsElementwise, Serial, Flatten;
    var ths := w.Threads();
    LaunchRaceFree(w, m0);
    EveryScheduleIsSerial(f, w.Start(m0), es);
    CoresEffect(f, w, m0, w.cores);
    SerialOfOne(ths);
    assert Windows(ths)[..w.cores] == Windows(ths) by { WindowsLength(ths); }
    StoredIsElementwise(f, w, m0, Exec(f, Serial([ths]), m0), After(f, w.Start(m0), es).mem);
  }

  lemma StoredIsElementwise(f: Fn, w: Launch, m0: Mem, m: Mem, m': Mem)
    requires Stored(f, Whole(w), m0, m, w.total) && Same(m', m)
    ensures IsElementwise(f, w.x, w.y, w.z, w.total, m0, m')
  {
    hide Want, Slice;
    forall a ensures m'(Loc(Gdram, a)) ==
                     if w.z <= a < w.z + w.total
                       then f(m0(Loc(Gdram, w.x + (a - w.z))), m0(Loc(Gdram, w.y + (a - w.z))))
                     else m0(Loc(Gdram, a))
    {
      WantAt(f, w, m0, a - w.z);
    }
  }

  lemma WantAt(f: Fn, w: Launch, m0: Mem, i: int)
    ensures Want(f, Whole(w), m0, 0)(i) == f(m0(Loc(Gdram, w.x + i)), m0(Loc(Gdram, w.y + i)))
  {
  }

  lemma WindowsLength(ths: seq<Thread>)
    ensures |Windows(ths)| == |ths|
  {
  }

  lemma SerialOfOne(ths: seq<Thread>)
    requires forall t | 0 <= t < |ths| :: ths[t].later == []
    ensures Serial([ths]) == Flatten(Windows(ths))
  {
    assert Epochs(ths) == 0 && LaterOps(ths, 0, 0) == [];
    assert ClusterOps(ths) == Flatten(Windows(ths));
    assert AllClusterOps([ths]) == [ClusterOps(ths)];
    assert [ClusterOps(ths)][1..] == [];
    assert Flatten([ClusterOps(ths)]) == ClusterOps(ths) + Flatten([]);
  }

  // ----- Every element is written exactly once -----

  lemma {:induction false} NoWriters(ops: seq<Op>, l: Loc)
    requires forall op :: op in ops ==> !op.Writes(l)
    ensures Writers(ops, l) == 0
  {
    if ops != [] {
      NoWriters(ops[1..], l);
    }
  }

  /** 1 if off-chip address a is in [base, base + len), else 0. */
  function Hit(a: int, base: int, len: int): nat {
    if base <= a < base + len then 1 else 0
  }

  lemma StoreWriters(j: Job, h: nat, base: int, len: nat, a: int)
    ensures Writers(j.StoreAt(h, base, len), Loc(Gdram, a)) == Hit(a, j.z + base, len)
  {
    var op := j.StoreAt(h, base, len)[0];
    assert [op][1..] == [];
    assert Writers([], Loc(Gdram, a)) == 0;
  }

  lemma OthersWriteNone(j: Job, h: nat, base: int, len: nat, a: int)
    ensures Writers(j.LoadAt(h, base, len), Loc(Gdram, a)) == 0
    ensures Writers(j.ComputeAt(h, len), Loc(Gdram, a)) == 0
    ensures Writers([], Loc(Gdram, a)) == 0
  {
    NoWriters(j.LoadAt(h, base, len), Loc(Gdram, a));
    NoWriters(j.ComputeAt(h, len), Loc(Gdram, a));
  }

  lemma SnocWriters(ss: seq<Stretch>, s: Stretch, l: Loc)
    ensures Writers(StretchOps(ss + [s]), l) == Writers(StretchOps(ss), l) + Writers(s.io, l) + Writers(s.alu, l)
  {
    StretchOpsSnoc(ss, s);
    WritersAppend(StretchOps(ss), s.io + s.alu, l);
    WritersAppend(s.io, s.alu, l);
  }

  lemma PrologueWriters(j: Job, a: int)
    requires j.Valid()
    ensures Writers(StretchOps(j.Prologue()), Loc(Gdram, a)) == 0
  {
    hide Layout.Apart, Layout.ApartFromPong, Writers, StretchOps, Synced;
    var n, l := j.lay.span, Loc(Gdram, a);
    OthersWriteNone(j, j.lay.Half(0), 0, n, a);
    OthersWriteNone(j, j.lay.Half(1), n, n, a);
    StretchOpsNone();
    var s0, s1 := Stretch(j.LoadOps(0, n), []), Stretch(j.LoadOps(1, n), j.ComputeOps(0, n));
    SnocWriters([], s0, l);
    assert [] + [s0] == [s0];
    SnocWriters([s0], s1, l);
    assert j.Repeat() == 0 ==> j.Prologue() == [];
    assert j.Repeat() > 1 ==> j.Prologue() == [s0] + [s1];
    assert j.Repeat() == 1 ==> j.Prologue() == [s0];
  }

  lemma {:induction false} HeadWriters(j: Job, i: nat, a: int)
    requires j.Valid()
    ensures Writers(StretchOps(j.Head(i)), Loc(Gdram, a)) == Hit(a, j.z, i * j.lay.span)
    decreases i
  {
    hide Layout.Apart, Layout.ApartFromPong, Writers, StretchOps, Synced;
    var n, l := j.lay.span, Loc(Gdram, a);
    if i == 0 {
      PrologueWriters(j, a);
    } else {
      HeadWriters(j, i - 1, a);
      var s := j.Steady(i - 1);
      SnocWriters(j.Head(i - 1), s, l);
      StoreWriters(j, j.lay.Half(i - 1), (i - 1) * n, n, a);
      OthersWriteNone(j, j.lay.Half(i + 1), (i + 1) * n, n, a);
      OthersWriteNone(j, j.lay.Half(i), i * n, n, a);
      WritersAppend(j.StoreOps(i - 1, n), j.LoadOps(i + 1, n), l);
      assert i * n == (i - 1) * n + n;
      Rounding.MulMonotone(0, i - 1, n);
    }
  }

  lemma DrainWriters(j: Job, a: int, r: int, n: int)
    requires j.Valid() && r == j.Repeat() && n == j.lay.span
    ensures Writers(j.Drain().io, Loc(Gdram, a)) == if r > 1 then Hit(a, j.z + (r - 2) * n, n) else 0
    ensures Writers(j.Drain().alu, Loc(Gdram, a)) == 0
  {
    hide Layout.Apart, Layout.ApartFromPong, Writers, Hit;
    OthersWriteNone(j, j.lay.Half(r), r * n, j.Rem(), a);
    WritersAppend(j.DrainStore(), j.DrainLoad(), Loc(Gdram, a));
    if r > 0 {
      OthersWriteNone(j, j.lay.Half(r - 1), 0, n, a);
    }
    if r > 1 {
      StoreWriters(j, j.lay.Half(r - 2), (r - 2) * n, n, a);
    }
  }

  lemma TailWriters(j: Job, a: int, r: int, n: int)
    requires j.Valid() && r == j.Repeat() && n == j.lay.span
    ensures Writers(j.Tail().alu, Loc(Gdram, a)) == 0
    ensures Writers(j.Tail().io, Loc(Gdram, a)) == if r > 0 then Hit(a, j.z + (r - 1) * n, n) else 0
    ensures Writers(j.StoreAt(j.lay.Half(r), r * n, j.Rem()), Loc(Gdram, a)) == Hit(a, j.z + r * n, j.Rem())
  {
    hide Layout.Apart, Layout.ApartFromPong, Writers, Hit;
    OthersWriteNone(j, j.lay.Half(r), r * n, j.AlignRem(), a);
    StoreWriters(j, j.lay.Half(r), r * n, j.Rem(), a);
    if r > 0 {
      StoreWriters(j, j.lay.Half(r - 1), (r - 1) * n, n, a);
    }
  }

  /** A core writes every off-chip cell of its output slice exactly once, and no other. */
  lemma ProgramWriters(j: Job, a: int)
    requires j.Valid()
    ensures Writers(StretchOps(j.Body() + [j.Final()]), Loc(Gdram, a)) == Hit(a, j.z, j.n)
  {
    hide Layout.Apart, Layout.ApartFromPong, Writers, StretchOps, Synced, Job.Head, Job.Drain, Job.Tail;
    var n, r, l := j.lay.span, j.Repeat(), Loc(Gdram, a);
    var front := j.Head(j.Loops()) + [j.Drain()];
    RemBounds(j.n, n);
    HeadWriters(j, j.Loops(), a);
    DrainWriters(j, a, r, n);
    TailWriters(j, a, r, n);
    OthersWriteNone(j, 0, 0, 0, a);
    SnocWriters(j.Head(j.Loops()), j.Drain(), l);
    SnocWriters(front, j.Tail(), l);
    if j.Rem() > 0 {
      SnocWriters(front + [j.Tail()], j.Final(), l);
      assert j.Body() + [j.Final()] == front + [j.Tail()] + [j.Final()];
    } else {
      assert j.Body() + [j.Final()] == front + [j.Tail()];
    }
    TilesAddUp(r, n);
    assert r * n + j.Rem() == j.n;
  }

  lemma TilesAddUp(r: nat, n: nat)
    ensures r > 0 ==> (r - 1) * n + n == r * n && 0 <= (r - 1) * n
    ensures r > 1 ==> (r - 2) * n + n == (r - 1) * n && 0 <= (r - 2) * n
  {
    if r > 0 {
      Rounding.MulMonotone(0, r - 1, n);
    }
    if r > 1 {
      Rounding.MulMonotone(0, r - 2, n);
    }
  }

  lemma {:induction false} CoresWriters(w: Launch, t: nat, a: int)
    requires w.Valid() && t <= w.cores
    ensures Writers(Flatten(Windows(w.Threads())[..t]), Loc(Gdram, a)) == Hit(a, w.z, w.Covered(t))
    decreases t
  {
    hide Writers, Window, WellSynced, StretchOps, Confined, Layout.Apart, Layout.ApartFromPong, Job.Program, Job.Body,
         Job.Final;
    var ws := Windows(w.Threads());
    if t == 0 {
      assert ws[..0] == [] && w.Covered(0) == 0;
      OthersWriteNone(Whole(w), 0, 0, 0, a);
    } else {
      CoresWriters(w, t - 1, a);
      assert ws[..t] == ws[..t - 1] + [ws[t - 1]];
      FlattenAppend(ws[..t - 1], [ws[t - 1]]);
      assert Flatten([ws[t - 1]]) == ws[t - 1] by { assert [ws[t - 1]][1..] == []; }
      WritersAppend(Flatten(ws[..t - 1]), ws[t - 1], Loc(Gdram, a));
      ThreadWindow(w, t - 1);
      ProgramWriters(w.JobOf(t - 1), a);
      SliceBounds(w, t - 1);
    }
  }

  /** All cores together write every element of the output exactly once and no other off-chip cell. */
  lemma EveryElementWrittenOnce(w: Launch, m0: Mem, a: int)
    requires w.Valid()
    ensures Writers(Serial(w.Start(m0).clusters), Loc(Gdram, a)) == if w.z <= a < w.z + w.total then 1 else 0
  {
    hide Writers, Windows, Layout.Apart, Layout.ApartFromPong, Job.Program;
    CoresWriters(w, w.cores, a);
    SerialOfOne(w.Threads());
    assert Windows(w.Threads())[..w.cores] == Windows(w.Threads()) by { WindowsLength(w.Threads()); }
  }
}
