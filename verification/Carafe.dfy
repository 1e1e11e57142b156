/**
 Block sizes for the carafe forward kernel. The search shrinks the blocks in a fixed order, widening them again
 along height and width whenever the group or channel grid grows, until one fits in private memory.

 The main results: the search always ends; it succeeds exactly when a block of one element in every direction
 fits, which is a closed-form inequality; on success the blocks fit, cover the input, were split only as needed and
 never split channels while they span groups (the contract of GenPolicy); and no even blocks that fit get by with
 fewer splits of the channels, or of the groups (FewestSplits).
 */
module Carafe {
  import opened Rounding

  /** Kernel and scale of the operation, and the alignments of the two memories, counted in elements. */
  datatype Shape = Shape(kernel: nat, scale: nat, alignNram: nat, alignNfu: nat) {
    predicate Valid() { 1 <= kernel && 1 <= scale && 0 < alignNram <= alignNfu }
  }

  /** A block of height h, width w, g groups and c channels of each. */
  datatype Block = Block(h: nat, w: nat, g: nat, c: nat)

  function Max(a: nat, b: nat): nat { if a < b then b else a }

  function ChannelStride(b: Block, p: Shape): nat requires p.Valid() { CeilAlign(b.c, p.alignNram) }

  function SumForAdd(b: Block, p: Shape): nat requires p.Valid() { CeilAlign(ChannelStride(b, p) * b.g, p.alignNfu) }

  function InputSize(b: Block, p: Shape): nat
    requires p.Valid()
  {
    (b.h + p.kernel - 1) * ((b.w + p.kernel - 1) * (ChannelStride(b, p) * b.g))
  }

  function MaskSize(b: Block, p: Shape): nat
    requires p.Valid()
  {
    CeilAlign((p.scale * b.h) * ((p.scale * b.w) * (p.kernel * p.kernel * b.g)), p.alignNram)
  }

  function OutputSize(b: Block, p: Shape): nat
    requires p.Valid()
  {
    (p.scale * b.h) * ((p.scale * b.w) * SumForAdd(b, p))
  }

  function SumSize(b: Block, p: Shape): nat
    requires p.Valid() && 1 <= b.g
  {
    Max(SumForAdd(b, p), (b.g - 1) * ChannelStride(b, p) + CeilAlign(ChannelStride(b, p), p.alignNfu))
  }

  /** The private memory a block takes. */
  function NramUsage(b: Block, p: Shape): nat
    requires p.Valid() && 1 <= b.g
  {
    InputSize(b, p) + MaskSize(b, p) + OutputSize(b, p) + SumSize(b, p)
  }

  predicate Within(b: Block, b': Block) { b.h <= b'.h && b.w <= b'.w && b.g <= b'.g && b.c <= b'.c }

  lemma ProductMonotone(a: nat, a': nat, b: nat, b': nat)
    requires a <= a' && b <= b'
    ensures a * b <= a' * b'
  {
    MulMonotone(a, a', b);
    MulMonotone(b, b', a');
  }

  lemma StrideMonotone(b: Block, b': Block, p: Shape)
    requires p.Valid() && Within(b, b')
    ensures ChannelStride(b, p) <= ChannelStride(b', p)
    ensures ChannelStride(b, p) * b.g <= ChannelStride(b', p) * b'.g
    ensures SumForAdd(b, p) <= SumForAdd(b', p)
  {
    CeilAlignMonotone(b.c, b'.c, p.alignNram);
    ProductMonotone(ChannelStride(b, p), ChannelStride(b', p), b.g, b'.g);
    CeilAlignMonotone(ChannelStride(b, p) * b.g, ChannelStride(b', p) * b'.g, p.alignNfu);
  }

  /** A larger block takes at least as much memory. */
  lemma UsageMonotone(b: Block, b': Block, p: Shape)
    requires p.Valid() && Within(b, b') && 1 <= b.g
    ensures NramUsage(b, p) <= NramUsage(b', p)
  {
    StrideMonotone(b, b', p);
    hide ChannelStride, SumForAdd, CeilAlign;
    InputMonotone(b, b', p);
    MaskMonotone(b, b', p);
    OutputMonotone(b, b', p);
    SumMonotone(b, b', p);
    hide InputSize, MaskSize, OutputSize, SumSize;
  }

  lemma InputMonotone(b: Block, b': Block, p: Shape)
    requires p.Valid() && Within(b, b')
    ensures InputSize(b, p) <= InputSize(b', p)
  {
    StrideMonotone(b, b', p);
    hide ChannelStride, SumForAdd;
    ProductMonotone(b.w + p.kernel - 1, b'.w + p.kernel - 1, ChannelStride(b, p) * b.g, ChannelStride(b', p) * b'.g);
    ProductMonotone(b.h + p.kernel - 1, b'.h + p.kernel - 1,
                    (b.w + p.kernel - 1) * (ChannelStride(b, p) * b.g),
                    (b'.w + p.kernel - 1) * (ChannelStride(b', p) * b'.g));
  }

  /** Rows and columns scaled, times what each cell takes. */
  function Product3(scale: nat, h: nat, w: nat, x: nat): nat { (scale * h) * ((scale * w) * x) }

  lemma Product3Monotone(scale: nat, h: nat, h': nat, w: nat, w': nat, x: nat, x': nat)
    requires h <= h' && w <= w' && x <= x'
    ensures Product3(scale, h, w, x) <= Product3(scale, h', w', x')
  {
    ProductMonotone(scale, scale, h, h');
    ProductMonotone(scale, scale, w, w');
    ProductMonotone(scale * w, scale * w', x, x');
    ProductMonotone(scale * h, scale * h', (scale * w) * x, (scale * w') * x');
  }

  lemma MaskMonotone(b: Block, b': Block, p: Shape)
    requires p.Valid() && Within(b, b')
    ensures MaskSize(b, p) <= MaskSize(b', p)
  {
    MaskIs(b, p);
    MaskIs(b', p);
    var k := p.kernel * p.kernel;
    hide MaskSize, CeilAlign;
    ProductMonotone(k, k, b.g, b'.g);
    Product3Monotone(p.scale, b.h, b'.h, b.w, b'.w, k * b.g, k * b'.g);
    CeilAlignMonotone(Product3(p.scale, b.h, b.w, k * b.g), Product3(p.scale, b'.h, b'.w, k * b'.g), p.alignNram);
  }

  lemma MaskIs(b: Block, p: Shape)
    requires p.Valid()
    ensures MaskSize(b, p) == CeilAlign(Product3(p.scale, b.h, b.w, p.kernel * p.kernel * b.g), p.alignNram)
  {
  }

  lemma OutputMonotone(b: Block, b': Block, p: Shape)
    requires p.Valid() && Within(b, b')
    ensures OutputSize(b, p) <= OutputSize(b', p)
  {
    StrideMonotone(b, b', p);
    hide SumForAdd, ChannelStride;
    Product3Monotone(p.scale, b.h, b'.h, b.w, b'.w, SumForAdd(b, p), SumForAdd(b', p));
  }

  lemma SumMonotone(b: Block, b': Block, p: Shape)
    requires p.Valid() && Within(b, b') && 1 <= b.g
    ensures SumSize(b, p) <= SumSize(b', p)
  {
    hide SumForAdd, ChannelStride, CeilAlign;
    StrideMonotone(b, b', p);
    var s, s' := ChannelStride(b, p), ChannelStride(b', p);
    ProductMonotone(b.g - 1, b'.g - 1, s, s');
    CeilAlignMonotone(s, s', p.alignNfu);
    MaxMonotone(SumForAdd(b, p), SumForAdd(b', p), (b.g - 1) * s + CeilAlign(s, p.alignNfu),
                (b'.g - 1) * s' + CeilAlign(s', p.alignNfu));
  }

  lemma MaxMonotone(x: nat, x': nat, y: nat, y': nat)
    requires x <= x' && y <= y'
    ensures Max(x, y) <= Max(x', y')
  {
  }

  // ----- The smallest block -----

  const UNIT := Block(1, 1, 1, 1)

  /** The bound the code's comment states: squares of scale and kernel against the alignments. */
  function ClosedForm(p: Shape): nat
    requires p.Valid()
  {
    (p.scale * p.scale + 1) * p.alignNfu + p.kernel * p.kernel * p.alignNram
    + CeilAlign(p.scale * p.scale * (p.kernel * p.kernel), p.alignNram)
  }

  lemma CeilOfSmall(x: nat, align: nat)
    requires 0 < x <= align
    ensures CeilAlign(x, align) == align
  {
    CeilAlignIsCeiling(x, align);
    MultipleMod(1, align);
    CeilingUnique(CeilAlign(x, align), align, x, align);
  }

  /** What a block of one element takes is the closed form. */
  lemma UnitUsage(p: Shape)
    requires p.Valid()
    ensures NramUsage(UNIT, p) == ClosedForm(p)
  {
    CeilOfSmall(1, p.alignNram);
    CeilOfSmall(p.alignNram, p.alignNfu);
    assert ChannelStride(UNIT, p) == p.alignNram && SumForAdd(UNIT, p) == p.alignNfu;
    hide CeilAlign, ChannelStride, SumForAdd;
    var k, s := p.kernel, p.scale;
    assert InputSize(UNIT, p) == k * (k * (p.alignNram * 1)) == k * k * p.alignNram by { Associate(k, k, p.alignNram); }
    assert OutputSize(UNIT, p) == (s * 1) * ((s * 1) * p.alignNfu) == s * s * p.alignNfu by {
      Associate(s, s, p.alignNfu);
    }
    assert (s * 1) * ((s * 1) * (k * k * 1)) == s * s * (k * k) by { Associate(s, s, k * k); }
    assert (s * s + 1) * p.alignNfu == s * s * p.alignNfu + p.alignNfu;
  }

  lemma Associate(a: nat, b: nat, c: nat)
    ensures a * (b * c) == a * b * c
  {
  }

  /** A block of 16 rows and columns of 64 channels, floats, a window of 5 and a scale of 2; and one of one element
      with neither window nor scale. */
  lemma UsageInNumbers()
    ensures NramUsage(Block(16, 16, 1, 64), Shape(5, 2, 16, 32)) == 116800
    ensures NramUsage(UNIT, Shape(1, 1, 16, 32)) == 96
  {
  }

  // ----- The search -----

  /** The input, and how many blocks there are along each of its directions. */
  datatype Input = Input(n: nat, h: nat, w: nat, groups: nat, perGroup: nat) {
    predicate Valid() { 1 <= h && 1 <= w && 1 <= groups && 1 <= perGroup }
  }

  datatype Grid = Grid(h: nat, w: nat, g: nat, c: nat)

  function CeilDiv(a: nat, b: nat): nat
    requires 0 < b
  {
    Quotient(a + b - 1, b)
  }

  /** Blocks divide every direction evenly, rounded up, and no direction has more of them than elements. */
  predicate Even(i: Input, g: Grid, b: Block) {
    && 1 <= g.h <= i.h && 1 <= g.w <= i.w && 1 <= g.g <= i.groups && 1 <= g.c <= i.perGroup
    && b.h == CeilDiv(i.h, g.h) && b.w == CeilDiv(i.w, g.w)
    && b.g == CeilDiv(i.groups, g.g) && b.c == CeilDiv(i.perGroup, g.c)
  }

  /** Channels are split only once every block is within one group. */
  predicate GroupsFirst(i: Input, g: Grid, b: Block) { b.g > 1 ==> g.c == 1 && b.c == i.perGroup }

  lemma CeilDivIs(a: nat, b: nat)
    requires 1 <= b <= a
    ensures 1 <= CeilDiv(a, b) && a <= b * CeilDiv(a, b) && (CeilDiv(a, b) > 1 ==> b < a)
    ensures b == 1 ==> CeilDiv(a, b) == a
  {
    var x := a + b - 1;
    assert x == b * (x / b) + x % b;
    if a == b {
      DivModUnique(x, b, 1, b - 1);
    }
    DivAtLeast(x, b, 1);
    if b == 1 {
      DivModUnique(a, 1, a, 0);
    }
  }

  lemma EvenCovers(i: Input, g: Grid, b: Block)
    requires i.Valid() && Even(i, g, b)
    ensures 1 <= b.h && 1 <= b.w && 1 <= b.g && 1 <= b.c
    ensures i.h <= g.h * b.h && i.w <= g.w * b.w && i.groups <= g.g * b.g && i.perGroup <= g.c * b.c
    ensures (b.h > 1 ==> g.h < i.h) && (b.w > 1 ==> g.w < i.w) && (b.g > 1 ==> g.g < i.groups) &&
            (b.c > 1 ==> g.c < i.perGroup)
  {
    CeilDivIs(i.h, g.h);
    CeilDivIs(i.w, g.w);
    CeilDivIs(i.groups, g.g);
    CeilDivIs(i.perGroup, g.c);
  }

  lemma OneBlock(i: Input)
    requires i.Valid()
    ensures var (g, b) := (Grid(1, 1, 1, 1), Block(i.h, i.w, i.groups, i.perGroup));
            Even(i, g, b) && GroupsFirst(i, g, b)
  {
    CeilDivIs(i.h, 1);
    CeilDivIs(i.w, 1);
    CeilDivIs(i.groups, 1);
    CeilDivIs(i.perGroup, 1);
  }

  /** Every way to shrink keeps the blocks even. */
  lemma ShrinkKeeps(i: Input, g: Grid, b: Block)
    requires i.Valid() && Even(i, g, b) && GroupsFirst(i, g, b)
    ensures b.h > 1 ==> var g' := g.(h := g.h + 1); var b' := b.(h := CeilDiv(i.h, g'.h));
                        Even(i, g', b') && GroupsFirst(i, g', b')
    ensures b.w > 1 ==> var g' := g.(w := g.w + 1); var b' := b.(w := CeilDiv(i.w, g'.w));
                        Even(i, g', b') && GroupsFirst(i, g', b')
    ensures b.g > 1 ==> var g' := Grid(1, 1, g.g + 1, g.c); var b' := Block(i.h, i.w, CeilDiv(i.groups, g'.g), b.c);
                        Even(i, g', b') && GroupsFirst(i, g', b')
    ensures b.g <= 1 && b.c > 1 ==> var g' := Grid(1, 1, g.g, g.c + 1);
                                    var b' := Block(i.h, i.w, b.g, CeilDiv(i.perGroup, g'.c));
                                    Even(i, g', b') && GroupsFirst(i, g', b')
  {
    EvenCovers(i, g, b);
    CeilDivIs(i.h, 1);
    CeilDivIs(i.w, 1);
    hide CeilDiv;
  }

  // ----- Why every split was needed -----

  /** With fewer splits of the groups or of the channels, not even blocks of a single row and column fit. */
  predicate SplitsNeeded(i: Input, p: Shape, maxNram: int, g: Grid)
    requires i.Valid() && p.Valid()
  {
    && (forall s | 1 <= s < g.g :: 1 <= CeilDiv(i.groups, s) ==>
        maxNram < NramUsage(Block(1, 1, CeilDiv(i.groups, s), i.perGroup), p))
    && (forall s | 1 <= s < g.c :: maxNram < NramUsage(Block(1, 1, 1, CeilDiv(i.perGroup, s)), p))
  }

  /** Rows and columns were split only for lack of room, and the longer of the two first. */
  predicate NearSquare(i: Input, p: Shape, maxNram: int, g: Grid, b: Block)
    requires i.Valid() && p.Valid() && 1 <= b.g
  {
    && (g.h > 1 ==> b.w <= CeilDiv(i.h, g.h - 1))
    && (g.w > 1 ==> b.h < CeilDiv(i.w, g.w - 1))
    && (g.h > 1 || g.w > 1 ==>
        || (g.h > 1 && maxNram < NramUsage(b.(h := CeilDiv(i.h, g.h - 1)), p))
        || (g.w > 1 && maxNram < NramUsage(b.(w := CeilDiv(i.w, g.w - 1)), p)))
  }

  predicate Needed(i: Input, p: Shape, maxNram: int, g: Grid, b: Block)
    requires i.Valid() && p.Valid()
  {
    1 <= b.g && SplitsNeeded(i, p, maxNram, g) && NearSquare(i, p, maxNram, g, b)
  }

  lemma StartNeeded(i: Input, p: Shape, maxNram: int)
    requires i.Valid() && p.Valid()
    ensures Needed(i, p, maxNram, Grid(1, 1, 1, 1), Block(i.h, i.w, i.groups, i.perGroup))
  {
  }

  lemma SplitNonEmpty(i: Input, g: Grid, b: Block)
    requires i.Valid() && Even(i, g, b) && 1 < b.g
    ensures 1 <= CeilDiv(i.groups, g.g + 1)
  {
    EvenCovers(i, g, b);
    CeilDivIs(i.groups, g.g + 1);
  }

  lemma CeilDivAntitone(a: nat, s: nat)
    requires 1 <= a && 1 <= s
    ensures CeilDiv(a, s + 1) <= CeilDiv(a, s)
  {
    var (x, y) := (a + s, a + s - 1);
    var q := CeilDiv(a, s + 1);
    assert q == x / (s + 1);
    assert x == (s + 1) * q + x % (s + 1);
    if q > 0 {
      assert q * s <= x - q <= y;
      DivAtLeast(y, s, q);
    }
  }

  lemma RowsNeeded(i: Input, p: Shape, maxNram: int, g: Grid, b: Block)
    requires i.Valid() && p.Valid() && Even(i, g, b) && Needed(i, p, maxNram, g, b) && maxNram < NramUsage(b, p)
    requires b.h >= b.w
    ensures Needed(i, p, maxNram, g.(h := g.h + 1), b.(h := CeilDiv(i.h, g.h + 1)))
  {
    hide CeilDiv, NramUsage;
    CeilDivAntitone(i.h, g.h);
    var b' := b.(h := CeilDiv(i.h, g.h + 1));
    assert b'.(h := CeilDiv(i.h, g.h)) == b;
  }

  lemma ColumnsNeeded(i: Input, p: Shape, maxNram: int, g: Grid, b: Block)
    requires i.Valid() && p.Valid() && Even(i, g, b) && Needed(i, p, maxNram, g, b) && maxNram < NramUsage(b, p)
    requires b.w > b.h
    ensures Needed(i, p, maxNram, g.(w := g.w + 1), b.(w := CeilDiv(i.w, g.w + 1)))
  {
    hide CeilDiv, NramUsage;
    CeilDivAntitone(i.w, g.w);
    var b' := b.(w := CeilDiv(i.w, g.w + 1));
    assert b'.(w := CeilDiv(i.w, g.w)) == b;
  }

  lemma GroupsNeeded(i: Input, p: Shape, maxNram: int, g: Grid, b: Block)
    requires i.Valid() && p.Valid() && Even(i, g, b) && GroupsFirst(i, g, b)
    requires Needed(i, p, maxNram, g, b) && maxNram < NramUsage(b, p) && b.h == b.w == 1 && 1 < b.g
    ensures 1 <= CeilDiv(i.groups, g.g + 1) ==>
              Needed(i, p, maxNram, Grid(1, 1, g.g + 1, g.c), Block(i.h, i.w, CeilDiv(i.groups, g.g + 1), b.c))
  {
    hide CeilDiv, NramUsage;
    assert b == Block(1, 1, CeilDiv(i.groups, g.g), i.perGroup);
  }

  lemma ChannelsNeeded(i: Input, p: Shape, maxNram: int, g: Grid, b: Block)
    requires i.Valid() && p.Valid() && Even(i, g, b)
    requires Needed(i, p, maxNram, g, b) && maxNram < NramUsage(b, p) && b.h == b.w == b.g == 1
    ensures Needed(i, p, maxNram, Grid(1, 1, g.g, g.c + 1), Block(i.h, i.w, b.g, CeilDiv(i.perGroup, g.c + 1)))
  {
    hide CeilDiv, NramUsage;
    assert b == Block(1, 1, 1, CeilDiv(i.perGroup, g.c));
  }

  // ----- No block is empty -----

  /** The last block along a direction has something left. */
  predicate LastBlock(dim: nat, grid: nat, block: nat) { (grid - 1) * block < dim }

  predicate NoneEmpty(i: Input, g: Grid, b: Block) {
    && LastBlock(i.h, g.h, b.h) && LastBlock(i.w, g.w, b.w)
    && LastBlock(i.groups, g.g, b.g) && LastBlock(i.perGroup, g.c, b.c)
  }

  /** Even blocks can leave the last one empty: five rows, in four blocks of two. */
  lemma EvenLeavesEmpty()
    ensures CeilDiv(5, 4) == 2 && !LastBlock(5, 4, 2)
  {
  }

  /** An empty last block is one more block than needed: one less gives blocks of the same size. */
  lemma EmptyIsSpare(dim: nat, grid: nat)
    requires 1 <= grid <= dim && !LastBlock(dim, grid, CeilDiv(dim, grid))
    ensures 2 <= grid && CeilDiv(dim, grid - 1) == CeilDiv(dim, grid)
  {
    var q := CeilDiv(dim, grid);
    CeilDivIs(dim, grid);
    if grid >= 2 {
      CeilDivAntitone(dim, grid - 1);
      var x := dim + (grid - 1) - 1;
      assert x < (grid - 1) * (q + 1);
      assert (grid - 1) * (q + 1) == (q + 1) * (grid - 1);
      DivBelow(x, grid - 1, q + 1);
    }
  }

  /** While the last block of rows or columns is empty, nothing fits and the same direction is split again. */
  predicate SplitAgain(i: Input, p: Shape, maxNram: int, g: Grid, b: Block)
    requires i.Valid() && p.Valid() && 1 <= b.g
  {
    && (!LastBlock(i.h, g.h, b.h) ==> b.h >= b.w && maxNram < NramUsage(b, p))
    && (!LastBlock(i.w, g.w, b.w) ==> b.w > b.h && maxNram < NramUsage(b, p))
  }

  lemma RowsAgain(i: Input, p: Shape, maxNram: int, g: Grid, b: Block)
    requires i.Valid() && p.Valid() && Even(i, g, b) && 1 <= b.g && SplitAgain(i, p, maxNram, g, b)
    requires b.h >= b.w && b.h > 1 && maxNram < NramUsage(b, p)
    ensures SplitAgain(i, p, maxNram, g.(h := g.h + 1), b.(h := CeilDiv(i.h, g.h + 1)))
  {
    EvenCovers(i, g, b);
    hide NramUsage, CeilDiv, LastBlock;
    if !LastBlock(i.h, g.h + 1, CeilDiv(i.h, g.h + 1)) {
      EmptyIsSpare(i.h, g.h + 1);
      assert b.(h := b.h) == b;
    }
  }

  lemma ColumnsAgain(i: Input, p: Shape, maxNram: int, g: Grid, b: Block)
    requires i.Valid() && p.Valid() && Even(i, g, b) && 1 <= b.g && SplitAgain(i, p, maxNram, g, b)
    requires b.w > b.h && b.w > 1 && maxNram < NramUsage(b, p)
    ensures SplitAgain(i, p, maxNram, g.(w := g.w + 1), b.(w := CeilDiv(i.w, g.w + 1)))
  {
    EvenCovers(i, g, b);
    hide NramUsage, CeilDiv, LastBlock;
    if !LastBlock(i.w, g.w + 1, CeilDiv(i.w, g.w + 1)) {
      EmptyIsSpare(i.w, g.w + 1);
      assert b.(w := b.w) == b;
    }
  }

  lemma WholeAgain(i: Input, p: Shape, maxNram: int, g: Grid, b: Block)
    requires i.Valid() && p.Valid() && 1 <= b.g && g.h == g.w == 1
    ensures SplitAgain(i, p, maxNram, g, b)
  {
    hide NramUsage;
  }

  /** Once something fits, no block along any direction is empty. */
  lemma FittingNoneEmpty(i: Input, p: Shape, maxNram: int, g: Grid, b: Block)
    requires i.Valid() && p.Valid() && Even(i, g, b) && GroupsFirst(i, g, b) && 1 <= b.g
    requires Needed(i, p, maxNram, g, b) && SplitAgain(i, p, maxNram, g, b) && NramUsage(b, p) <= maxNram
    ensures NoneEmpty(i, g, b)
  {
    EvenCovers(i, g, b);
    hide NramUsage, CeilDiv, NearSquare;
    if !LastBlock(i.groups, g.g, b.g) {
      assert b.g > 1;
      EmptyIsSpare(i.groups, g.g);
      UsageMonotone(Block(1, 1, CeilDiv(i.groups, g.g - 1), i.perGroup), b, p);
    }
    if !LastBlock(i.perGroup, g.c, b.c) {
      EmptyIsSpare(i.perGroup, g.c);
      UsageMonotone(Block(1, 1, 1, CeilDiv(i.perGroup, g.c - 1)), b, p);
    }
  }

  /**
   Among all even blocks that fit, the ones found split the channels of a group into the fewest parts, and, where
   the channels stay together, the groups into the fewest.
   */
  lemma FewestSplits(i: Input, p: Shape, maxNram: int, g: Grid, b: Block, g': Grid, b': Block)
    requires i.Valid() && p.Valid() && Needed(i, p, maxNram, g, b)
    requires Even(i, g', b') && 1 <= b'.g && NramUsage(b', p) <= maxNram
    ensures g.c <= g'.c && (g'.c == 1 ==> g.g <= g'.g)
  {
    EvenCovers(i, g', b');
    CeilDivIs(i.perGroup, 1);
    hide CeilDiv, NramUsage;
    if g'.c < g.c {
      UsageMonotone(Block(1, 1, 1, CeilDiv(i.perGroup, g'.c)), b', p);
    } else if g'.c == 1 && g'.g < g.g {
      UsageMonotone(Block(1, 1, CeilDiv(i.groups, g'.g), i.perGroup), b', p);
    }
  }

  /** One job for every block of every image. */
  function Jobs(n: nat, g: Grid): nat { n * g.h * g.w * g.g * g.c }

  datatype Policy = Blocks(grid: Grid, block: Block, jobs: nat) | NramTooSmall | WrongBlocks

  /** Shrink blocks until one fits. */
  method GenPolicy(i: Input, p: Shape, maxNram: int) returns (r: Policy)
    requires i.Valid() && p.Valid()
    ensures !r.WrongBlocks?
    ensures r.NramTooSmall? <==> maxNram < ClosedForm(p)
    ensures r.Blocks? ==> Even(i, r.grid, r.block) && GroupsFirst(i, r.grid, r.block) && 1 <= r.block.g
    ensures r.Blocks? ==> NramUsage(r.block, p) <= maxNram
    ensures r.Blocks? ==> Needed(i, p, maxNram, r.grid, r.block)
    ensures r.Blocks? ==> NoneEmpty(i, r.grid, r.block)
    ensures r.Blocks? ==> r.jobs == Jobs(i.n, r.grid)
  {
    hide NramUsage, CeilDiv, Even, GroupsFirst, ClosedForm, Jobs, Needed, SplitAgain, NoneEmpty;
    var g, b := Grid(1, 1, 1, 1), Block(i.h, i.w, i.groups, i.perGroup);
    OneBlock(i);
    StartNeeded(i, p, maxNram);
    WholeAgain(i, p, maxNram, g, b);
    var usage := 0;
    while true
      invariant Even(i, g, b) && GroupsFirst(i, g, b) && Needed(i, p, maxNram, g, b)
      invariant 1 <= b.g && SplitAgain(i, p, maxNram, g, b)
      decreases i.perGroup - g.c, i.groups - g.g, (i.h - g.h) + (i.w - g.w)
    {
      EvenCovers(i, g, b);
      ShrinkKeeps(i, g, b);
      GridWithin(i, g, b);
      usage := NramUsage(b, p);
      if usage > maxNram {
        if b.h > 1 && b.h >= b.w {
          RowsNeeded(i, p, maxNram, g, b);
          RowsAgain(i, p, maxNram, g, b);
          g := g.(h := g.h + 1);
          b := b.(h := CeilDiv(i.h, g.h));
        } else if b.w > 1 && b.w > b.h {
          ColumnsNeeded(i, p, maxNram, g, b);
          ColumnsAgain(i, p, maxNram, g, b);
          g := g.(w := g.w + 1);
          b := b.(w := CeilDiv(i.w, g.w));
        } else if b.g > 1 {
          GroupsNeeded(i, p, maxNram, g, b);
          SplitNonEmpty(i, g, b);
          g := Grid(1, 1, g.g + 1, g.c);
          b := Block(i.h, i.w, CeilDiv(i.groups, g.g), b.c);
          WholeAgain(i, p, maxNram, g, b);
        } else if b.c > 1 {
          ChannelsNeeded(i, p, maxNram, g, b);
          g := Grid(1, 1, g.g, g.c + 1);
          b := Block(i.h, i.w, b.g, CeilDiv(i.perGroup, g.c));
          WholeAgain(i, p, maxNram, g, b);
        } else {
          break;
        }
      } else {
        break;
      }
    }
    UnitLeast(b, p);
    NeverWrong(i, g, b);
    if usage > maxNram {
      return NramTooSmall;
    }
    if b.g > 1 && !(g.c == 1 && b.c == i.perGroup) {
      return WrongBlocks;
    }
    FittingNoneEmpty(i, p, maxNram, g, b);
    r := Blocks(g, b, Jobs(i.n, g));
  }

  /** No block takes less than a block of one element. */
  lemma UnitLeast(b: Block, p: Shape)
    requires p.Valid() && 1 <= b.h && 1 <= b.w && 1 <= b.g && 1 <= b.c
    ensures ClosedForm(p) <= NramUsage(b, p)
    ensures b.h <= 1 && b.w <= 1 && b.g <= 1 && b.c <= 1 ==> NramUsage(b, p) == ClosedForm(p)
  {
    hide NramUsage, ClosedForm;
    UnitUsage(p);
    UsageMonotone(UNIT, b, p);
    assert b == Block(b.h, b.w, b.g, b.c);
  }

  lemma GridWithin(i: Input, g: Grid, b: Block)
    requires Even(i, g, b)
    ensures g.h <= i.h && g.w <= i.w && g.g <= i.groups && g.c <= i.perGroup
  {
  }

  lemma NeverWrong(i: Input, g: Grid, b: Block)
    requires GroupsFirst(i, g, b)
    ensures b.g > 1 ==> g.c == 1 && b.c == i.perGroup
  {
  }

  /** The blocks GenPolicy returns cover the input in every direction. */
  lemma BlocksCover(i: Input, g: Grid, b: Block, h: nat, w: nat)
    requires i.Valid() && Even(i, g, b) && h < i.h && w < i.w
    ensures 0 < b.h && 0 < b.w && h / b.h < g.h && w / b.w < g.w
  {
    EvenCovers(i, g, b);
    hide CeilDiv;
    DivBelow(h, b.h, g.h);
    DivBelow(w, b.w, g.w);
  }
}
