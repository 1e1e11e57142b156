/**
 Which part of the output each job of the carafe forward kernel writes. A job takes its block apart from its number;
 the last block along a direction takes what is left.

 The main result (EveryOutputOnce): with the blocks GenPolicy returns, every element of the output is written by
 exactly one job, at one place of its block, and nothing outside the output is. This needs that no last block is
 empty, which even blocks alone do not give, and that channels are whole wherever a block spans groups: the kernel
 takes the groups of a block to be as far apart as it has channels.
 */
module CarafeJobs {
  import opened Carafe
  import opened Rounding

  /** The sample, and the block along each direction. */
  datatype Job = Job(n: nat, h: nat, w: nat, g: nat, c: nat) {
    predicate In(n: nat, grid: Grid) {
      this.n < n && h < grid.h && w < grid.w && g < grid.g && c < grid.c
    }
  }

  /** The job with number j. */
  function JobAt(j: nat, grid: Grid): Job
    requires 0 < grid.h && 0 < grid.w && 0 < grid.g && 0 < grid.c
  {
    Job(Quotient(Quotient(Quotient(Quotient(j, grid.c), grid.g), grid.w), grid.h),
        Quotient(Quotient(Quotient(j, grid.c), grid.g), grid.w) % grid.h,
        Quotient(Quotient(j, grid.c), grid.g) % grid.w,
        Quotient(j, grid.c) % grid.g,
        j % grid.c)
  }

  /** How far the k-th block goes along a direction. */
  function Extent(dim: nat, grid: nat, block: nat, k: nat): int {
    if k == grid - 1 then dim - (grid - 1) * block else block
  }

  /** Channel c of group g of a job's block, as a channel of the whole output. */
  function ChannelAt(i: Input, grid: Grid, b: Block, job: Job, g: nat, c: nat): int {
    job.g * b.g * i.perGroup + job.c * b.c + g * Extent(i.perGroup, grid.c, b.c, job.c) + c
  }

  /** x is within the k-th block along a direction. */
  predicate InBlock(dim: nat, grid: nat, block: nat, k: nat, x: nat) {
    k * block <= x < k * block + Extent(dim, grid, block, k)
  }

  /** Rows and columns of the output are scale times those of the input. */
  predicate InScaledBlock(scale: nat, dim: nat, grid: nat, block: nat, k: nat, x: nat) {
    scale * (k * block) <= x < scale * (k * block) + scale * Extent(dim, grid, block, k)
  }

  /** Element (n, ho, wo, ch) of the output is what the job with number j stores for channel c of its group g. */
  predicate Stores(i: Input, p: Shape, grid: Grid, b: Block, j: nat, g: nat, c: nat, n: nat, ho: nat, wo: nat, ch: nat)
    requires 0 < grid.h && 0 < grid.w && 0 < grid.g && 0 < grid.c
  {
    var job := JobAt(j, grid);
    && job.n == n
    && InScaledBlock(p.scale, i.h, grid.h, b.h, job.h, ho)
    && InScaledBlock(p.scale, i.w, grid.w, b.w, job.w, wo)
    && g < Extent(i.groups, grid.g, b.g, job.g) && c < Extent(i.perGroup, grid.c, b.c, job.c)
    && ch == ChannelAt(i, grid, b, job, g, c)
  }

  // ----- Numbers of jobs -----

  lemma Digit(q: nat, most: nat, d: nat, r: nat)
    requires q < most && r < d
    ensures 0 <= q * d + r < most * d && Quotient(q * d + r, d) == q && (q * d + r) % d == r
  {
    DivModUnique(q * d + r, d, q, r);
    MulMonotone(q + 1, most, d);
    assert (q + 1) * d == q * d + d;
  }

  lemma Digits(x: nat, most: nat, d: nat)
    requires 0 < d && x < most * d
    ensures Quotient(x, d) < most && x == Quotient(x, d) * d + x % d
  {
    DivBelow(x, d, most);
  }

  /** The number of a job. */
  function Number(job: Job, grid: Grid): nat {
    (((job.n * grid.h + job.h) * grid.w + job.w) * grid.g + job.g) * grid.c + job.c
  }

  lemma NumberOfJob(n: nat, grid: Grid, job: Job)
    requires job.In(n, grid)
    ensures Number(job, grid) < Jobs(n, grid) && JobAt(Number(job, grid), grid) == job
  {
    var x1: nat := job.n * grid.h + job.h;
    var x2: nat := x1 * grid.w + job.w;
    var x3: nat := x2 * grid.g + job.g;
    hide Quotient;
    Digit(job.n, n, grid.h, job.h);
    Digit(x1, n * grid.h, grid.w, job.w);
    Digit(x2, n * grid.h * grid.w, grid.g, job.g);
    Digit(x3, n * grid.h * grid.w * grid.g, grid.c, job.c);
  }

  lemma JobOfNumber(n: nat, grid: Grid, j: nat)
    requires 0 < grid.h && 0 < grid.w && 0 < grid.g && 0 < grid.c && j < Jobs(n, grid)
    ensures JobAt(j, grid).In(n, grid) && Number(JobAt(j, grid), grid) == j
  {
    var x3 := Quotient(j, grid.c);
    var x2 := Quotient(x3, grid.g);
    var x1 := Quotient(x2, grid.w);
    hide Quotient;
    Digits(j, n * grid.h * grid.w * grid.g, grid.c);
    Digits(x3, n * grid.h * grid.w, grid.g);
    Digits(x2, n * grid.h, grid.w);
    Digits(x1, n, grid.h);
  }

  // ----- One direction -----

  /** Every place along a direction is in exactly one block, and all places in blocks are along it. */
  lemma OneBlockExactly(dim: nat, grid: nat, block: nat, k: nat, x: nat)
    requires 0 < block && dim <= grid * block && LastBlock(dim, grid, block) && k < grid
    ensures InBlock(dim, grid, block, k, x) <==> x < dim && k == x / block
  {
    assert k * block >= 0;
    assert (k + 1) * block == k * block + block;
    if k < grid - 1 {
      MulMonotone(k + 1, grid - 1, block);
    }
    if x < dim {
      assert x == x / block * block + x % block;
    }
    assert grid * block == (grid - 1) * block + block;
    if InBlock(dim, grid, block, k, x) {
      DivModUnique(x, block, k, x - k * block);
    }
  }

  lemma BlockOf(dim: nat, grid: nat, block: nat, x: nat)
    requires 0 < block && dim <= grid * block && x < dim
    ensures x / block < grid
  {
    DivBelow(x, block, grid);
  }

  lemma ScaledBlock(scale: nat, dim: nat, grid: nat, block: nat, k: nat, x: nat)
    requires 0 < scale && 0 < block && dim <= grid * block && LastBlock(dim, grid, block) && k < grid
    ensures InScaledBlock(scale, dim, grid, block, k, x) <==> InBlock(dim, grid, block, k, x / scale)
  {
    var lo, hi := k * block, k * block + Extent(dim, grid, block, k);
    assert scale * hi == scale * lo + scale * Extent(dim, grid, block, k);
    ScaledBetween(scale, lo, x);
    ScaledBetween(scale, hi, x);
  }

  lemma ScaledBetween(scale: nat, y: int, x: nat)
    requires 0 < scale
    ensures scale * y <= x <==> y <= x / scale
  {
    assert x == scale * (x / scale) + x % scale;
    if y <= x / scale {
      MulMonotone(y, x / scale, scale);
    } else {
      MulMonotone(x / scale + 1, y, scale);
    }
  }

  // ----- Channels -----

  /** Groups of a block are as far apart as the kernel takes them to be. */
  lemma ChannelSplits(i: Input, grid: Grid, b: Block, job: Job, g: nat, c: nat)
    requires i.Valid() && Even(i, grid, b) && GroupsFirst(i, grid, b) && NoneEmpty(i, grid, b)
    requires job.g < grid.g && job.c < grid.c && g < Extent(i.groups, grid.g, b.g, job.g)
    ensures ChannelAt(i, grid, b, job, g, c) == (job.g * b.g + g) * i.perGroup + (job.c * b.c + c)
  {
    EvenCovers(i, grid, b);
    hide CeilDiv, LastBlock;
    assert (job.g * b.g + g) * i.perGroup == job.g * b.g * i.perGroup + g * i.perGroup;
    if b.g > 1 {
      assert job.c == 0 && Extent(i.perGroup, grid.c, b.c, job.c) == i.perGroup;
    } else {
      assert grid.g * b.g == grid.g && (grid.g - 1) * b.g == grid.g - 1;
      assert g == 0;
    }
  }

  // ----- Every element of the output once -----

  predicate InOutput(i: Input, p: Shape, n: nat, ho: nat, wo: nat, ch: nat) {
    n < i.n && ho < p.scale * i.h && wo < p.scale * i.w && ch < i.groups * i.perGroup
  }

  predicate Planned(i: Input, p: Shape, grid: Grid, b: Block) {
    i.Valid() && p.Valid() && Even(i, grid, b) && GroupsFirst(i, grid, b) && NoneEmpty(i, grid, b)
  }

  /** The least there can be: an image of one element, one job. */
  lemma OneElement()
    ensures Planned(Input(1, 1, 1, 1, 1), Shape(1, 1, 16, 32), Grid(1, 1, 1, 1), UNIT) && Jobs(1, Grid(1, 1, 1, 1)) == 1
  {
    CeilDivIs(1, 1);
  }

  /** The job an element belongs to. */
  function JobFor(i: Input, p: Shape, b: Block, n: nat, ho: nat, wo: nat, ch: nat): Job
    requires i.Valid() && p.Valid() && 0 < b.h && 0 < b.w && 0 < b.g && 0 < b.c
  {
    Job(n, Quotient(Quotient(ho, p.scale), b.h), Quotient(Quotient(wo, p.scale), b.w),
        Quotient(Quotient(ch, i.perGroup), b.g), Quotient(ch % i.perGroup, b.c))
  }

  lemma ScaledIn(scale: nat, dim: nat, x: nat)
    requires 0 < scale
    ensures x < scale * dim <==> x / scale < dim
  {
    ScaledBetween(scale, dim, x);
  }

  /** A row or column in a block, scaled, lies in the output and names the block. */
  lemma ScaledOwn(scale: nat, dim: nat, grid: nat, block: nat, k: nat, x: nat)
    requires 0 < scale && 0 < block && dim <= grid * block && LastBlock(dim, grid, block) && k < grid
    requires InScaledBlock(scale, dim, grid, block, k, x)
    ensures x < scale * dim && k == Quotient(Quotient(x, scale), block)
  {
    ScaledBlock(scale, dim, grid, block, k, x);
    OneBlockExactly(dim, grid, block, k, x / scale);
    ScaledIn(scale, dim, x);
    hide InBlock, InScaledBlock, LastBlock;
  }

  /** A place in a block names the block. */
  lemma PlaceOwn(dim: nat, grid: nat, block: nat, k: nat, x: nat)
    requires 0 < block && dim <= grid * block && LastBlock(dim, grid, block) && k < grid
    requires x < Extent(dim, grid, block, k)
    ensures k * block + x < dim && k == Quotient(k * block + x, block)
  {
    InBlockOffset(dim, grid, block, k, x);
    OneBlockExactly(dim, grid, block, k, k * block + x);
    hide InBlock, Extent, LastBlock;
  }

  /** A channel of a block is in the output and names the block and its place there. */
  lemma ChannelOwn(i: Input, grid: Grid, b: Block, job: Job, g: nat, c: nat)
    requires i.Valid() && Even(i, grid, b) && GroupsFirst(i, grid, b) && NoneEmpty(i, grid, b)
    requires job.g < grid.g && job.c < grid.c && 0 < b.g && 0 < b.c
    requires g < Extent(i.groups, grid.g, b.g, job.g) && c < Extent(i.perGroup, grid.c, b.c, job.c)
    ensures 0 <= ChannelAt(i, grid, b, job, g, c) < i.groups * i.perGroup
    ensures var ch: nat := ChannelAt(i, grid, b, job, g, c);
            && job.g == Quotient(Quotient(ch, i.perGroup), b.g) && job.c == Quotient(ch % i.perGroup, b.c)
            && g == Quotient(ch, i.perGroup) - job.g * b.g && c == ch % i.perGroup - job.c * b.c
  {
    EvenCovers(i, grid, b);
    hide CeilDiv, LastBlock, Extent, ChannelAt;
    ChannelSplits(i, grid, b, job, g, c);
    PlaceOwn(i.groups, grid.g, b.g, job.g, g);
    PlaceOwn(i.perGroup, grid.c, b.c, job.c, c);
    hide Quotient;
    Digit(job.g * b.g + g, i.groups, i.perGroup, job.c * b.c + c);
  }

  /** Where a job stores channel c of its group g, the element is in the output, and the job is the element's. */
  lemma StoresOwn(i: Input, p: Shape, grid: Grid, b: Block, j: nat, g: nat, c: nat, n: nat, ho: nat, wo: nat, ch: nat)
    requires Planned(i, p, grid, b) && j < Jobs(i.n, grid) && Stores(i, p, grid, b, j, g, c, n, ho, wo, ch)
    ensures 0 < b.h && 0 < b.w && 0 < b.g && 0 < b.c
    ensures InOutput(i, p, n, ho, wo, ch)
    ensures var job := JobFor(i, p, b, n, ho, wo, ch);
            && JobAt(j, grid) == job
            && g == Quotient(ch, i.perGroup) - job.g * b.g && c == ch % i.perGroup - job.c * b.c
  {
    EvenCovers(i, grid, b);
    hide CeilDiv, LastBlock, Jobs, JobAt, Number, Quotient, Extent, InScaledBlock, ChannelAt, GroupsFirst;
    JobOfNumber(i.n, grid, j);
    var job := JobAt(j, grid);
    ScaledOwn(p.scale, i.h, grid.h, b.h, job.h, ho);
    ScaledOwn(p.scale, i.w, grid.w, b.w, job.w, wo);
    ChannelOwn(i, grid, b, job, g, c);
  }

  lemma InBlockOffset(dim: nat, grid: nat, block: nat, k: nat, x: nat)
    ensures InBlock(dim, grid, block, k, k * block + x) <==> x < Extent(dim, grid, block, k)
  {
  }

  /** A place along a direction, within its block. */
  lemma PlaceInBlock(dim: nat, grid: nat, block: nat, x: nat)
    requires 0 < block && dim <= grid * block && LastBlock(dim, grid, block) && x < dim
    ensures Quotient(x, block) < grid && x == Quotient(x, block) * block + x % block
    ensures InBlock(dim, grid, block, Quotient(x, block), x)
    ensures x % block < Extent(dim, grid, block, Quotient(x, block))
  {
    BlockOf(dim, grid, block, x);
    OneBlockExactly(dim, grid, block, x / block, x);
    InBlockOffset(dim, grid, block, x / block, x % block);
  }

  /** A row or column of the output, within its block. */
  lemma ScaledPlace(scale: nat, dim: nat, grid: nat, block: nat, x: nat)
    requires 0 < scale && 0 < block && dim <= grid * block && LastBlock(dim, grid, block) && x < scale * dim
    ensures var k := Quotient(Quotient(x, scale), block); k < grid && InScaledBlock(scale, dim, grid, block, k, x)
  {
    ScaledIn(scale, dim, x);
    PlaceInBlock(dim, grid, block, x / scale);
    ScaledBlock(scale, dim, grid, block, x / scale / block, x);
    hide InBlock, InScaledBlock, LastBlock;
  }

  /** Every element of the output is stored by its job. */
  lemma OwnStores(i: Input, p: Shape, grid: Grid, b: Block, n: nat, ho: nat, wo: nat, ch: nat)
    returns (j: nat, g: nat, c: nat)
    requires Planned(i, p, grid, b) && InOutput(i, p, n, ho, wo, ch)
    ensures 0 < grid.h && 0 < grid.w && 0 < grid.g && 0 < grid.c
    ensures j < Jobs(i.n, grid) && Stores(i, p, grid, b, j, g, c, n, ho, wo, ch)
  {
    EvenCovers(i, grid, b);
    hide CeilDiv, LastBlock, Jobs, JobAt, Number, Extent, InScaledBlock, ChannelAt, GroupsFirst, JobFor;
    OwnPixel(i, p, grid, b, n, ho, wo, ch);
    g, c := OwnChannel(i, p, grid, b, n, ho, wo, ch);
    var job := JobFor(i, p, b, n, ho, wo, ch);
    NumberOfJob(i.n, grid, job);
    j := Number(job, grid);
  }

  lemma OwnPixel(i: Input, p: Shape, grid: Grid, b: Block, n: nat, ho: nat, wo: nat, ch: nat)
    requires Planned(i, p, grid, b) && InOutput(i, p, n, ho, wo, ch)
    ensures 0 < b.h && 0 < b.w && 0 < b.g && 0 < b.c
    ensures var job := JobFor(i, p, b, n, ho, wo, ch);
            && job.n == n && job.h < grid.h && job.w < grid.w
            && InScaledBlock(p.scale, i.h, grid.h, b.h, job.h, ho)
            && InScaledBlock(p.scale, i.w, grid.w, b.w, job.w, wo)
  {
    EvenCovers(i, grid, b);
    hide CeilDiv, LastBlock, InScaledBlock, Quotient;
    ScaledPlace(p.scale, i.h, grid.h, b.h, ho);
    ScaledPlace(p.scale, i.w, grid.w, b.w, wo);
  }

  lemma OwnChannel(i: Input, p: Shape, grid: Grid, b: Block, n: nat, ho: nat, wo: nat, ch: nat)
    returns (g: nat, c: nat)
    requires Planned(i, p, grid, b) && ch < i.groups * i.perGroup
    ensures 0 < b.h && 0 < b.w && 0 < b.g && 0 < b.c
    ensures var job := JobFor(i, p, b, n, ho, wo, ch);
            && job.g < grid.g && job.c < grid.c
            && g < Extent(i.groups, grid.g, b.g, job.g) && c < Extent(i.perGroup, grid.c, b.c, job.c)
            && ch == ChannelAt(i, grid, b, job, g, c)
  {
    var gg, cc := Quotient(ch, i.perGroup), ch % i.perGroup;
    Digits(ch, i.groups, i.perGroup);
    EvenCovers(i, grid, b);
    hide CeilDiv, Extent, LastBlock, Quotient, ChannelAt, InBlock;
    PlaceInBlock(i.groups, grid.g, b.g, gg);
    PlaceInBlock(i.perGroup, grid.c, b.c, cc);
    g, c := gg % b.g, cc % b.c;
    ChannelSplits(i, grid, b, JobFor(i, p, b, n, ho, wo, ch), g, c);
  }

  /** An element is stored once. */
  lemma StoredOnce(i: Input, p: Shape, grid: Grid, b: Block, j: nat, g: nat, c: nat, j': nat, g': nat, c': nat,
                   n: nat, ho: nat, wo: nat, ch: nat)
    requires Planned(i, p, grid, b) && j < Jobs(i.n, grid) && j' < Jobs(i.n, grid)
    requires Stores(i, p, grid, b, j, g, c, n, ho, wo, ch) && Stores(i, p, grid, b, j', g', c', n, ho, wo, ch)
    ensures j == j' && g == g' && c == c'
  {
    EvenCovers(i, grid, b);
    hide Stores, Jobs, JobFor, JobAt, Number;
    StoresOwn(i, p, grid, b, j, g, c, n, ho, wo, ch);
    StoresOwn(i, p, grid, b, j', g', c', n, ho, wo, ch);
    JobOfNumber(i.n, grid, j);
    JobOfNumber(i.n, grid, j');
  }

  /** Element (n, ho, wo, ch) of the output is stored. */
  ghost predicate Stored(i: Input, p: Shape, grid: Grid, b: Block, n: nat, ho: nat, wo: nat, ch: nat)
    requires 0 < grid.h && 0 < grid.w && 0 < grid.g && 0 < grid.c
  {
    exists j: nat, g: nat, c: nat :: j < Jobs(i.n, grid) && Stores(i, p, grid, b, j, g, c, n, ho, wo, ch)
  }

  /** What jobs store is the output, and every element of it is stored by one job, for one channel of its block. */
  lemma EveryOutputOnce(i: Input, p: Shape, grid: Grid, b: Block, n: nat, ho: nat, wo: nat, ch: nat)
    requires Planned(i, p, grid, b)
    ensures Stored(i, p, grid, b, n, ho, wo, ch) <==> InOutput(i, p, n, ho, wo, ch)
    ensures forall j: nat, g: nat, c: nat, j': nat, g': nat, c': nat |
              && j < Jobs(i.n, grid) && Stores(i, p, grid, b, j, g, c, n, ho, wo, ch)
              && j' < Jobs(i.n, grid) && Stores(i, p, grid, b, j', g', c', n, ho, wo, ch) ::
              j == j' && g == g' && c == c'
  {
    assert 0 < grid.h && 0 < grid.w && 0 < grid.g && 0 < grid.c;
    hide Stores, Jobs, InOutput, Planned, JobFor, JobAt;
    if InOutput(i, p, n, ho, wo, ch) {
      var j, g, c := OwnStores(i, p, grid, b, n, ho, wo, ch);
    }
    if Stored(i, p, grid, b, n, ho, wo, ch) {
      var j: nat, g: nat, c: nat :| j < Jobs(i.n, grid) && Stores(i, p, grid, b, j, g, c, n, ho, wo, ch);
      StoresOwn(i, p, grid, b, j, g, c, n, ho, wo, ch);
    }
    forall j: nat, g: nat, c: nat, j': nat, g': nat, c': nat |
      && j < Jobs(i.n, grid) && Stores(i, p, grid, b, j, g, c, n, ho, wo, ch)
      && j' < Jobs(i.n, grid) && Stores(i, p, grid, b, j', g', c', n, ho, wo, ch)
      ensures j == j' && g == g' && c == c'
    {
      StoredOnce(i, p, grid, b, j, g, c, j', g', c', n, ho, wo, ch);
    }
  }
}
