/**
 The jobs of the carafe forward kernel: each fills a block in private memory and stores it.

 The main result (CarafeForward): the operation is refused exactly if a block of one element does not fit private
 memory; otherwise every element of the output is what the operation makes it, whatever private memory and the output
 held before.
 */
module CarafeKernel {
  import opened Carafe
  import opened CarafeBlock
  import opened CarafeJobs
  import opened CarafeLayout
  import opened CarafeLoad
  import opened CarafeOperation
  import opened CarafeStep
  import opened Rounding

  // ----- Storing -----

  /** The output has the size the operation gives it. */
  predicate Sized(output: array4<real>, k: Plan) {
    && output.Length0 == k.i.n && output.Length1 == k.p.scale * k.i.h && output.Length2 == k.p.scale * k.i.w
    && output.Length3 == k.i.groups * k.i.perGroup
  }

  /** An element of the output. */
  ghost function Element(output: array4<real>, n: nat, y: nat, x: nat, ch: nat): real
    reads output
  {
    if n < output.Length0 && y < output.Length1 && x < output.Length2 && ch < output.Length3 then output[n, y, x, ch]
    else 0.0
  }

  predicate Inside(k: Plan, n: int, y: int, x: int, ch: int) {
    0 <= n < k.i.n && 0 <= y < k.p.scale * k.i.h && 0 <= x < k.p.scale * k.i.w && 0 <= ch < k.i.groups * k.i.perGroup
  }

  /** The element is what the operation makes it. */
  ghost predicate Right(output: array4<real>, k: Plan, n: nat, y: nat, x: nat, ch: nat)
    requires k.Valid()
    reads output
  {
    Element(output, n, y, x, ch) == Site(k.i, k.p, k.input, k.mask, n, y, x, ch).Value()
  }

  /** The element belongs to the block. */
  ghost predicate Covers(k: Plan, t: Part, n: nat, y: nat, x: nat, ch: nat) {
    && n == t.n && k.p.scale * t.h0 <= y < k.p.scale * t.h0 + k.p.scale * t.bh
    && k.p.scale * t.w0 <= x < k.p.scale * t.w0 + k.p.scale * t.bw
    && exists g: nat, c: nat :: g < t.bg && c < t.bc && ch == t.Channel(g, c)
  }

  lemma PixelInside(scale: nat, x0: nat, n: nat, dim: nat, xo: nat)
    requires 0 < scale && x0 + n <= dim && xo < scale * n
    ensures scale * x0 + xo < scale * dim
  {
    MulMonotone(x0 + n, dim, scale);
    assert scale * (x0 + n) == scale * x0 + scale * n;
  }

  /** Where the block's pixels and channels are in the output. */
  lemma ElementInside(k: Plan, t: Part, ho: nat, wo: nat, g: nat, c: nat)
    requires k.Valid() && PartOk(k, t) && ho < k.p.scale * t.bh && wo < k.p.scale * t.bw && g < t.bg && c < t.bc
    ensures Inside(k, t.n, k.p.scale * t.h0 + ho, k.p.scale * t.w0 + wo, t.Channel(g, c))
    ensures Covers(k, t, t.n, k.p.scale * t.h0 + ho, k.p.scale * t.w0 + wo, t.Channel(g, c))
  {
    hide Part.Channel, Planned, Quotient;
    PixelInside(k.p.scale, t.h0, t.bh, k.i.h, ho);
    PixelInside(k.p.scale, t.w0, t.bw, k.i.w, wo);
  }

  /** Store one element of the block. */
  method StoreElement(output: array4<real>, k: Plan, t: Part, y: nat, x: nat, g: nat, c: nat, v: real)
    requires k.Valid() && Sized(output, k) && Inside(k, t.n, y, x, t.Channel(g, c))
    requires Covers(k, t, t.n, y, x, t.Channel(g, c))
    requires v == Site(k.i, k.p, k.input, k.mask, t.n, y, x, t.Channel(g, c)).Value()
    modifies output
    ensures forall n: nat, y: nat, x: nat, ch: nat ::
              Element(output, n, y, x, ch) == old(Element(output, n, y, x, ch)) ||
              (Covers(k, t, n, y, x, ch) && Right(output, k, n, y, x, ch))
    ensures Right(output, k, t.n, y, x, t.Channel(g, c))
  {
    hide Planned, Site.Value, Covers, Part.Channel;
    output[t.n, y, x, t.Channel(g, c)] := v;
  }

  /** Store the channels of one group of a pixel. */
  method StoreGroup(nram: array<real>, output: array4<real>, k: Plan, t: Part, ho: nat, wo: nat, g: nat)
    requires k.Valid() && PartOk(k, t) && Ready(nram.Length, k.b, k.p) && Sized(output, k)
    requires ho < k.p.scale * t.bh && wo < k.p.scale * t.bw && g < t.bg && Done(nram[..], k, t, ho, wo)
    modifies output
    ensures forall n: nat, y: nat, x: nat, ch: nat ::
              Element(output, n, y, x, ch) == old(Element(output, n, y, x, ch)) ||
              (Covers(k, t, n, y, x, ch) && Right(output, k, n, y, x, ch))
    ensures forall c: nat | c < t.bc ::
              Right(output, k, t.n, k.p.scale * t.h0 + ho, k.p.scale * t.w0 + wo, t.Channel(g, c))
  {
    var y: nat, x: nat := k.p.scale * t.h0 + ho, k.p.scale * t.w0 + wo;
    var a := OutputCell(ho, wo, g, 0).Address(k.b, k.p);
    hide Planned, Cell.Address, Done, Site.Value, PartOk, Ready, Covers, Part.Channel, Get, Element, Inside, Sized;
    for c := 0 to t.bc
      invariant forall n: nat, y: nat, x: nat, ch: nat ::
                  Element(output, n, y, x, ch) == old(Element(output, n, y, x, ch)) ||
                  (Covers(k, t, n, y, x, ch) && Right(output, k, n, y, x, ch))
      invariant forall c': nat | c' < c :: Right(output, k, t.n, y, x, t.Channel(g, c'))
    {
      ElementInside(k, t, ho, wo, g, c);
      CellToStore(nram[..], k, t, ho, wo, g, c);
      StoreElement(output, k, t, y, x, g, c, nram[a + c]);
    }
  }

  lemma CellToStore(m: Memory, k: Plan, t: Part, ho: nat, wo: nat, g: nat, c: nat)
    requires k.Valid() && PartOk(k, t) && Ready(|m|, k.b, k.p) && Done(m, k, t, ho, wo)
    requires ho < k.p.scale * t.bh && wo < k.p.scale * t.bw && g < t.bg && c < t.bc
    ensures var a := OutputCell(ho, wo, g, 0).Address(k.b, k.p);
            0 <= a + c < |m| && m[a + c] == SiteOf(k, t, ho, wo, g, c).Value()
  {
    MulMonotone(t.bh, k.b.h, k.p.scale);
    MulMonotone(t.bw, k.b.w, k.p.scale);
    hide Planned, Site.Value, NramUsage, SiteOf, Part.Channel;
    EverythingFits(OutputCell(ho, wo, g, c), k.b, k.p, |m|);
    assert Held(m, OutputCell(ho, wo, g, c), k.b, k.p) == SiteOf(k, t, ho, wo, g, c).Value();
    OutputChannel(k.b, k.p, ho, wo, g, c);
  }

  lemma OutputChannel(b: Block, p: Shape, ho: nat, wo: nat, g: nat, c: nat)
    requires p.Valid()
    ensures OutputCell(ho, wo, g, c).Address(b, p) == OutputCell(ho, wo, g, 0).Address(b, p) + c
  {
  }

  /** Pixel (ho, wo) of the block is right in the output. */
  ghost predicate PixelRight(output: array4<real>, k: Plan, t: Part, ho: nat, wo: nat)
    requires k.Valid()
    reads output
  {
    forall g: nat, c: nat | g < t.bg && c < t.bc ::
      Right(output, k, t.n, k.p.scale * t.h0 + ho, k.p.scale * t.w0 + wo, t.Channel(g, c))
  }

  method StorePixel(nram: array<real>, output: array4<real>, k: Plan, t: Part, ho: nat, wo: nat)
    requires k.Valid() && PartOk(k, t) && Ready(nram.Length, k.b, k.p) && Sized(output, k)
    requires ho < k.p.scale * t.bh && wo < k.p.scale * t.bw && Done(nram[..], k, t, ho, wo)
    modifies output
    ensures forall n: nat, y: nat, x: nat, ch: nat ::
              Element(output, n, y, x, ch) == old(Element(output, n, y, x, ch)) ||
              (Covers(k, t, n, y, x, ch) && Right(output, k, n, y, x, ch))
    ensures PixelRight(output, k, t, ho, wo)
    ensures forall ho': nat, wo': nat | old(PixelRight(output, k, t, ho', wo')) :: PixelRight(output, k, t, ho', wo')
  {
    hide Planned, Done, Site.Value, PartOk, Ready, Covers, Part.Channel, Element, Inside, Sized;
    for g := 0 to t.bg
      invariant forall n: nat, y: nat, x: nat, ch: nat ::
                  Element(output, n, y, x, ch) == old(Element(output, n, y, x, ch)) ||
                  (Covers(k, t, n, y, x, ch) && Right(output, k, n, y, x, ch))
      invariant forall g': nat, c: nat | g' < g && c < t.bc ::
                  Right(output, k, t.n, k.p.scale * t.h0 + ho, k.p.scale * t.w0 + wo, t.Channel(g', c))
    {
      StoreGroup(nram, output, k, t, ho, wo, g);
    }
  }

  method StoreLine(nram: array<real>, output: array4<real>, k: Plan, t: Part, ho: nat)
    requires k.Valid() && PartOk(k, t) && Ready(nram.Length, k.b, k.p) && Sized(output, k) && ho < k.p.scale * t.bh
    requires forall wo | 0 <= wo < k.p.scale * t.bw :: Done(nram[..], k, t, ho, wo)
    modifies output
    ensures forall n: nat, y: nat, x: nat, ch: nat ::
              Element(output, n, y, x, ch) == old(Element(output, n, y, x, ch)) ||
              (Covers(k, t, n, y, x, ch) && Right(output, k, n, y, x, ch))
    ensures forall wo: nat | wo < k.p.scale * t.bw :: PixelRight(output, k, t, ho, wo)
    ensures forall ho': nat, wo': nat | old(PixelRight(output, k, t, ho', wo')) :: PixelRight(output, k, t, ho', wo')
  {
    hide Planned, Done, Site.Value, PartOk, Ready, Covers, Part.Channel, PixelRight, Element, Inside, Sized;
    for wo := 0 to k.p.scale * t.bw
      invariant forall n: nat, y: nat, x: nat, ch: nat ::
                  Element(output, n, y, x, ch) == old(Element(output, n, y, x, ch)) ||
                  (Covers(k, t, n, y, x, ch) && Right(output, k, n, y, x, ch))
      invariant forall wo': nat | wo' < wo :: PixelRight(output, k, t, ho, wo')
      invariant forall ho': nat, wo': nat | old(PixelRight(output, k, t, ho', wo')) ::
                  PixelRight(output, k, t, ho', wo')
    {
      StorePixel(nram, output, k, t, ho, wo);
    }
  }

  /** The loop over the block's rows of pixels. */
  method StoreBlock(nram: array<real>, output: array4<real>, k: Plan, t: Part)
    requires k.Valid() && PartOk(k, t) && Ready(nram.Length, k.b, k.p) && Sized(output, k)
    requires forall ho, wo | 0 <= ho < k.p.scale * t.bh && 0 <= wo < k.p.scale * t.bw :: Done(nram[..], k, t, ho, wo)
    modifies output
    ensures forall n: nat, y: nat, x: nat, ch: nat ::
              Element(output, n, y, x, ch) == old(Element(output, n, y, x, ch)) ||
              (Covers(k, t, n, y, x, ch) && Right(output, k, n, y, x, ch))
    ensures forall ho: nat, wo: nat | ho < k.p.scale * t.bh && wo < k.p.scale * t.bw :: PixelRight(output, k, t, ho, wo)
  {
    hide Planned, Done, Site.Value, PartOk, Ready, Covers, Part.Channel, PixelRight, Element, Inside, Sized;
    for ho := 0 to k.p.scale * t.bh
      invariant forall n: nat, y: nat, x: nat, ch: nat ::
                  Element(output, n, y, x, ch) == old(Element(output, n, y, x, ch)) ||
                  (Covers(k, t, n, y, x, ch) && Right(output, k, n, y, x, ch))
      invariant forall ho': nat, wo: nat | ho' < ho && wo < k.p.scale * t.bw :: PixelRight(output, k, t, ho', wo)
    {
      StoreLine(nram, output, k, t, ho);
    }
  }

  /** A block all of whose pixels are right is right everywhere. */
  lemma BlockRight(output: array4<real>, k: Plan, t: Part, n: nat, y: nat, x: nat, ch: nat)
    requires k.Valid() && PartOk(k, t) && Covers(k, t, n, y, x, ch)
    requires forall ho: nat, wo: nat | ho < k.p.scale * t.bh && wo < k.p.scale * t.bw ::
               PixelRight(output, k, t, ho, wo)
    ensures Right(output, k, n, y, x, ch)
  {
    var ho: nat, wo: nat := y - k.p.scale * t.h0, x - k.p.scale * t.w0;
    assert PixelRight(output, k, t, ho, wo);
    hide Planned, Site.Value, PartOk, Part.Channel;
  }

  // ----- Jobs -----

  lemma ExtentsPositive(k: Plan, j: nat)
    requires k.Valid() && j < Jobs(k.i.n, k.grid)
    ensures 0 < k.grid.h && 0 < k.grid.w && 0 < k.grid.g && 0 < k.grid.c
    ensures var (i, g, b, job) := (k.i, k.grid, k.b, JobAt(j, k.grid));
            && job.In(i.n, g)
            && 1 <= Extent(i.h, g.h, b.h, job.h) <= b.h && 1 <= Extent(i.w, g.w, b.w, job.w) <= b.w
            && 1 <= Extent(i.groups, g.g, b.g, job.g) <= b.g && 1 <= Extent(i.perGroup, g.c, b.c, job.c) <= b.c
            && job.h * b.h + Extent(i.h, g.h, b.h, job.h) <= i.h
            && job.w * b.w + Extent(i.w, g.w, b.w, job.w) <= i.w
            && job.g * b.g + Extent(i.groups, g.g, b.g, job.g) <= i.groups
            && job.c * b.c + Extent(i.perGroup, g.c, b.c, job.c) <= i.perGroup
  {
    EvenCovers(k.i, k.grid, k.b);
    hide CeilDiv, Jobs, Extent, LastBlock, JobAt;
    JobOfNumber(k.i.n, k.grid, j);
    var job := JobAt(j, k.grid);
    ExtentWithin(k.i.h, k.grid.h, k.b.h, job.h);
    ExtentWithin(k.i.w, k.grid.w, k.b.w, job.w);
    ExtentWithin(k.i.groups, k.grid.g, k.b.g, job.g);
    ExtentWithin(k.i.perGroup, k.grid.c, k.b.c, job.c);
  }

  lemma ExtentWithin(dim: nat, grid: nat, block: nat, x: nat)
    requires 0 < block && dim <= grid * block && LastBlock(dim, grid, block) && x < grid
    ensures 1 <= Extent(dim, grid, block, x) <= block && x * block + Extent(dim, grid, block, x) <= dim
  {
    assert grid * block == (grid - 1) * block + block;
    if x < grid - 1 {
      MulMonotone(x + 1, grid - 1, block);
      assert (x + 1) * block == x * block + block;
    }
  }

  /** The block of job j. */
  function PartOf(k: Plan, j: nat): Part
    requires k.Valid() && j < Jobs(k.i.n, k.grid)
  {
    ExtentsPositive(k, j);
    var job := JobAt(j, k.grid);
    Part(job.n, job.h * k.b.h, job.w * k.b.w, job.g * k.b.g, job.g * k.b.g * k.i.perGroup + job.c * k.b.c,
         Extent(k.i.h, k.grid.h, k.b.h, job.h), Extent(k.i.w, k.grid.w, k.b.w, job.w),
         Extent(k.i.groups, k.grid.g, k.b.g, job.g), Extent(k.i.perGroup, k.grid.c, k.b.c, job.c))
  }

  lemma PartOfOk(k: Plan, j: nat)
    requires k.Valid() && j < Jobs(k.i.n, k.grid)
    ensures PartOk(k, PartOf(k, j))
  {
    ExtentsPositive(k, j);
    var t, job := PartOf(k, j), JobAt(j, k.grid);
    hide CeilDiv, Jobs, Extent, LastBlock, JobAt, Quotient, Even;
    forall g, c | 0 <= g < t.bg && 0 <= c < t.bc
      ensures Quotient(t.Channel(g, c), k.i.perGroup) == t.g0 + g && t.Channel(g, c) < k.i.groups * k.i.perGroup
    {
      ChannelSplits(k.i, k.grid, k.b, job, g, c);
      Digit(job.g * k.b.g + g, k.i.groups, k.i.perGroup, job.c * k.b.c + c);
    }
  }

  /** A block covers what its job stores. */
  lemma CoversStores(k: Plan, j: nat, n: nat, y: nat, x: nat, ch: nat)
    requires k.Valid() && j < Jobs(k.i.n, k.grid)
    ensures 0 < k.grid.h && 0 < k.grid.w && 0 < k.grid.g && 0 < k.grid.c
    ensures Covers(k, PartOf(k, j), n, y, x, ch) <==>
            exists g: nat, c: nat :: Stores(k.i, k.p, k.grid, k.b, j, g, c, n, y, x, ch)
  {
    ExtentsPositive(k, j);
    var t, job := PartOf(k, j), JobAt(j, k.grid);
    hide CeilDiv, Jobs, Extent, LastBlock, JobAt, Planned;
    if Covers(k, t, n, y, x, ch) {
      var g: nat, c: nat :| g < t.bg && c < t.bc && ch == t.Channel(g, c);
      assert Stores(k.i, k.p, k.grid, k.b, j, g, c, n, y, x, ch);
    }
    if g: nat, c: nat :| Stores(k.i, k.p, k.grid, k.b, j, g, c, n, y, x, ch) {
      assert ch == t.Channel(g, c);
    }
  }

  /** One job: fill the block in private memory and store it. */
  method RunJob(nram: array<real>, output: array4<real>, k: Plan, j: nat)
    requires k.Valid() && Ready(nram.Length, k.b, k.p) && Sized(output, k) && j < Jobs(k.i.n, k.grid)
    modifies nram, output
    ensures forall n: nat, y: nat, x: nat, ch: nat ::
              if Covers(k, PartOf(k, j), n, y, x, ch) then Right(output, k, n, y, x, ch)
              else Element(output, n, y, x, ch) == old(Element(output, n, y, x, ch))
  {
    ExtentsPositive(k, j);
    PartOfOk(k, j);
    var job := JobAt(j, k.grid);
    var h0, w0, g0 := job.h * k.b.h, job.w * k.b.w, job.g * k.b.g;
    var c0 := g0 * k.i.perGroup + job.c * k.b.c;
    var bh, bw, bg, bc := k.b.h, k.b.w, k.b.g, k.b.c;
    if job.h == k.grid.h - 1 {
      bh := k.i.h - (k.grid.h - 1) * k.b.h;
    }
    if job.w == k.grid.w - 1 {
      bw := k.i.w - (k.grid.w - 1) * k.b.w;
    }
    if job.g == k.grid.g - 1 {
      bg := k.i.groups - (k.grid.g - 1) * k.b.g;
    }
    if job.c == k.grid.c - 1 {
      bc := k.i.perGroup - (k.grid.c - 1) * k.b.c;
    }
    var t := Part(job.n, h0, w0, g0, c0, bh, bw, bg, bc);
    assert t == PartOf(k, j);
    hide Planned, Site.Value, PartOk, Ready, Covers, Part.Channel, PixelRight, PartOf, Jobs, JobAt, Done;
    FillBlock(nram, k, t);
    StoreBlock(nram, output, k, t);
    forall n: nat, y: nat, x: nat, ch: nat | Covers(k, t, n, y, x, ch)
      ensures Right(output, k, n, y, x, ch)
    {
      BlockRight(output, k, t, n, y, x, ch);
    }
  }

  // ----- All jobs -----

  /** Everything job j stores is right. */
  ghost predicate JobRight(output: array4<real>, k: Plan, j: nat)
    requires k.Valid() && j < Jobs(k.i.n, k.grid)
    reads output
  {
    forall n: nat, y: nat, x: nat, ch: nat | Covers(k, PartOf(k, j), n, y, x, ch) ::
      Right(output, k, n, y, x, ch)
  }

  /** A job makes what it stores right, and leaves right what is. */
  method DoJob(nram: array<real>, output: array4<real>, k: Plan, j: nat)
    requires k.Valid() && Ready(nram.Length, k.b, k.p) && Sized(output, k) && j < Jobs(k.i.n, k.grid)
    modifies nram, output
    ensures JobRight(output, k, j)
    ensures forall j': nat | j' < Jobs(k.i.n, k.grid) && old(JobRight(output, k, j')) :: JobRight(output, k, j')
  {
    hide Planned, Ready, Covers, PartOf, Jobs, Site.Value;
    RunJob(nram, output, k, j);
  }

  lemma NextOfTask(taskId: nat, taskDim: nat, j: nat)
    requires taskId < taskDim && j % taskDim == taskId
    ensures (j + taskDim) % taskDim == taskId
    ensures forall j': nat | j' % taskDim == taskId && j' < j + taskDim :: j' <= j
  {
    var q := j / taskDim;
    assert j == taskDim * q + taskId;
    DivModUnique(j + taskDim, taskDim, q + 1, taskId);
    forall j': nat | j' % taskDim == taskId && j' < j + taskDim ensures j' <= j {
      var q' := j' / taskDim;
      assert j' == taskDim * q' + taskId;
      if q < q' {
        MulMonotone(q + 1, q', taskDim);
      } else {
        MulMonotone(q', q, taskDim);
      }
    }
  }

  /** The jobs of one task: the one with its number, and every taskDim-th from there. */
  method RunTask(nram: array<real>, output: array4<real>, k: Plan, taskId: nat, taskDim: nat)
    requires k.Valid() && Ready(nram.Length, k.b, k.p) && Sized(output, k) && taskId < taskDim
    modifies nram, output
    ensures forall j: nat | j < Jobs(k.i.n, k.grid) && (j % taskDim == taskId || old(JobRight(output, k, j))) ::
              JobRight(output, k, j)
  {
    var jobNum := Jobs(k.i.n, k.grid);
    var j := taskId;
    hide Planned, Ready, JobRight, Jobs;
    FirstOfTask(taskId, taskDim);
    while j < jobNum
      invariant j % taskDim == taskId
      invariant forall j': nat | j' < jobNum && ((j' % taskDim == taskId && j' < j) || old(JobRight(output, k, j'))) ::
                  JobRight(output, k, j')
    {
      DoJob(nram, output, k, j);
      NextOfTask(taskId, taskDim, j);
      j := j + taskDim;
    }
  }

  lemma FirstOfTask(taskId: nat, taskDim: nat)
    requires taskId < taskDim
    ensures taskId % taskDim == taskId
    ensures forall j: nat | j % taskDim == taskId :: taskId <= j
  {
    DivModUnique(taskId, taskDim, 0, taskId);
  }

  /** All tasks of the launch. */
  method Forward(nram: array<real>, output: array4<real>, k: Plan, taskDim: nat)
    requires k.Valid() && Ready(nram.Length, k.b, k.p) && Sized(output, k) && 0 < taskDim
    modifies nram, output
    ensures forall n: nat, y: nat, x: nat, ch: nat | Inside(k, n, y, x, ch) :: Right(output, k, n, y, x, ch)
  {
    hide Planned, Ready, JobRight, Right, Jobs;
    for taskId := 0 to taskDim
      invariant forall j: nat | j < Jobs(k.i.n, k.grid) && j % taskDim < taskId :: JobRight(output, k, j)
    {
      RunTask(nram, output, k, taskId, taskDim);
    }
    forall n: nat, y: nat, x: nat, ch: nat | Inside(k, n, y, x, ch) ensures Right(output, k, n, y, x, ch) {
      EveryElementRight(output, k, n, y, x, ch);
    }
  }

  /** Every element is some job's. */
  lemma EveryElementRight(output: array4<real>, k: Plan, n: nat, y: nat, x: nat, ch: nat)
    requires k.Valid() && Inside(k, n, y, x, ch)
    requires forall j: nat | j < Jobs(k.i.n, k.grid) :: JobRight(output, k, j)
    ensures Right(output, k, n, y, x, ch)
  {
    hide Stores, Jobs, Right, Covers, PartOf, Planned, Even, GroupsFirst, NoneEmpty;
    var j, g, c := OwnStores(k.i, k.p, k.grid, k.b, n, y, x, ch);
    CoversStores(k, j, n, y, x, ch);
    assert JobRight(output, k, j);
  }

  /** The operation: choose blocks, and run the kernel with them. It is refused exactly if a block of one element does
      not fit private memory; otherwise every element of the output is what the operation makes it. */
  method CarafeForward(i: Input, p: Shape, input: Tensor, mask: Tensor, nram: array<real>, output: array4<real>,
                       taskDim: nat) returns (done: bool)
    requires i.Valid() && p.Valid() && p.kernel % 2 == 1 && 0 < taskDim
    requires output.Length0 == i.n && output.Length1 == p.scale * i.h && output.Length2 == p.scale * i.w &&
             output.Length3 == i.groups * i.perGroup
    modifies nram, output
    ensures done <==> ClosedForm(p) <= nram.Length
    ensures done ==> forall n, y, x, ch | 0 <= n < i.n && 0 <= y < p.scale * i.h && 0 <= x < p.scale * i.w &&
                                          0 <= ch < i.groups * i.perGroup ::
              output[n, y, x, ch] == Site(i, p, input, mask, n, y, x, ch).Value()
  {
    hide ClosedForm, NramUsage, Even, GroupsFirst, NoneEmpty, Needed, Site.Value, Jobs;
    var policy := GenPolicy(i, p, nram.Length);
    if !policy.Blocks? {
      return false;
    }
    EvenCovers(i, policy.grid, policy.block);
    var k := Plan(i, p, policy.grid, policy.block, input, mask);
    Forward(nram, output, k, taskDim);
    done := true;
    forall n, y, x, ch | 0 <= n < i.n && 0 <= y < p.scale * i.h && 0 <= x < p.scale * i.w &&
                         0 <= ch < i.groups * i.perGroup
      ensures output[n, y, x, ch] == Site(i, p, input, mask, n, y, x, ch).Value()
    {
      assert Inside(k, n, y, x, ch) && Right(output, k, n, y, x, ch);
    }
  }
}
