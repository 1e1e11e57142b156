/**
 Where the carafe forward kernel keeps a block in private memory: the input with a border of kernel - 1 rows and
 columns, the mask, the output and the sums of one product, one behind the other.

 The main results: different cells have different addresses, each within its own buffer (CellsApart); no operation on
 a run of cells leaves the memory the host counts, however far it is rounded up (ProductsWithin, RowsApart); and the
 host counts not one element too many (UsageExactly, NoRoomToSpare). So whatever blocks GenPolicy accepts, the kernel
 stays within private memory (EverythingFits).
 */
module CarafeLayout {
  import opened Carafe
  import opened MixedRadix
  import opened Rounding

  // ----- Addresses, as the kernel computes them -----

  function InputStrideW(b: Block, p: Shape): nat requires p.Valid() { ChannelStride(b, p) * b.g }
  function InputStrideH(b: Block, p: Shape): nat requires p.Valid() { (b.w + p.kernel - 1) * InputStrideW(b, p) }
  function MaskStrideW(b: Block, p: Shape): nat { p.kernel * p.kernel * b.g }
  function MaskStrideH(b: Block, p: Shape): nat { (p.scale * b.w) * MaskStrideW(b, p) }
  function OutputStrideW(b: Block, p: Shape): nat requires p.Valid() { SumForAdd(b, p) }
  function OutputStrideH(b: Block, p: Shape): nat requires p.Valid() { (p.scale * b.w) * OutputStrideW(b, p) }

  function MaskStart(b: Block, p: Shape): nat
    requires p.Valid()
  {
    (b.h + p.kernel - 1) * InputStrideH(b, p)
  }

  function MaskLength(b: Block, p: Shape): nat
    requires p.Valid()
  {
    CeilAlign((p.scale * b.h) * MaskStrideH(b, p), p.alignNram)
  }

  function OutputStart(b: Block, p: Shape): nat
    requires p.Valid()
  {
    MaskStart(b, p) + MaskLength(b, p)
  }

  function SumStart(b: Block, p: Shape): nat
    requires p.Valid()
  {
    OutputStart(b, p) + (p.scale * b.h) * OutputStrideH(b, p)
  }

  /** A cell of the input by row, column, group and channel; of the mask by row, column, group and place in the window;
      of the output; and of the sums. */
  datatype Cell =
    | InputCell(y: nat, x: nat, g: nat, c: nat)
    | MaskCell(ho: nat, wo: nat, g: nat, kh: nat, kw: nat)
    | OutputCell(ho: nat, wo: nat, g: nat, c: nat)
    | SumCell(g: nat, c: nat)
  {
    predicate In(b: Block, p: Shape) {
      g < b.g &&
      match this
      case InputCell(y, x, _, c) => y < b.h + p.kernel - 1 && x < b.w + p.kernel - 1 && c < b.c
      case MaskCell(ho, wo, _, kh, kw) => ho < p.scale * b.h && wo < p.scale * b.w && kh < p.kernel && kw < p.kernel
      case OutputCell(ho, wo, _, c) => ho < p.scale * b.h && wo < p.scale * b.w && c < b.c
      case SumCell(_, c) => c < b.c
    }

    function Address(b: Block, p: Shape): int
      requires p.Valid()
    {
      match this
      case InputCell(y, x, g, c) => InputStrideH(b, p) * y + InputStrideW(b, p) * x + ChannelStride(b, p) * g + c
      case MaskCell(ho, wo, g, kh, kw) =>
        MaskStart(b, p) + MaskStrideH(b, p) * ho + MaskStrideW(b, p) * wo +
        (p.kernel * kh + kw + p.kernel * p.kernel * g)
      case OutputCell(ho, wo, g, c) =>
        OutputStart(b, p) + OutputStrideH(b, p) * ho + OutputStrideW(b, p) * wo + ChannelStride(b, p) * g + c
      case SumCell(g, c) => SumStart(b, p) + ChannelStride(b, p) * g + c
    }
  }

  // ----- Addresses as positions in shapes -----

  function InputDims(b: Block, p: Shape): seq<int>
    requires p.Valid()
  {
    [b.h + p.kernel - 1, b.w + p.kernel - 1, b.g, ChannelStride(b, p)]
  }

  function MaskDims(b: Block, p: Shape): seq<int> {
    [p.scale * b.h, p.scale * b.w, b.g, p.kernel, p.kernel]
  }

  function OutputDims(b: Block, p: Shape): seq<int>
    requires p.Valid()
  {
    [p.scale * b.h, p.scale * b.w, SumForAdd(b, p)]
  }

  function SumDims(b: Block, p: Shape): seq<int>
    requires p.Valid()
  {
    [b.g, ChannelStride(b, p)]
  }

  lemma RadixEmpty()
    ensures Position([], []) == 0 && Product([]) == 1
  {
  }

  lemma Radix2(x: seq<int>, d: seq<int>)
    requires |x| == |d| == 2
    ensures Position(x, d) == x[0] * d[1] + x[1] && Product(d) == d[0] * d[1]
  {
    RadixNext(x, d);
    RadixNext(x[1..], d[1..]);
    assert x[1..][1..] == [] && d[1..][1..] == [];
    RadixEmpty();
    hide Position, Product;
  }

  lemma RadixNext(x: seq<int>, d: seq<int>)
    requires |x| == |d| >= 1
    ensures Position(x, d) == x[0] * Product(d[1..]) + Position(x[1..], d[1..]) && Product(d) == d[0] * Product(d[1..])
  {
  }

  lemma Radix3(x: seq<int>, d: seq<int>)
    requires |x| == |d| == 3
    ensures Position(x, d) == x[0] * (d[1] * d[2]) + (x[1] * d[2] + x[2]) && Product(d) == d[0] * (d[1] * d[2])
  {
    RadixNext(x, d);
    Radix2(x[1..], d[1..]);
    hide Position, Product;
  }

  lemma Radix4(x: seq<int>, d: seq<int>)
    requires |x| == |d| == 4
    ensures Position(x, d) == x[0] * (d[1] * (d[2] * d[3])) + (x[1] * (d[2] * d[3]) + (x[2] * d[3] + x[3]))
    ensures Product(d) == d[0] * (d[1] * (d[2] * d[3]))
  {
    RadixNext(x, d);
    Radix3(x[1..], d[1..]);
    hide Position, Product;
  }

  lemma Radix5(x: seq<int>, d: seq<int>)
    requires |x| == |d| == 5
    ensures Position(x, d) == x[0] * (d[1] * (d[2] * (d[3] * d[4]))) +
                              (x[1] * (d[2] * (d[3] * d[4])) + (x[2] * (d[3] * d[4]) + (x[3] * d[4] + x[4])))
    ensures Product(d) == d[0] * (d[1] * (d[2] * (d[3] * d[4])))
  {
    RadixNext(x, d);
    Radix4(x[1..], d[1..]);
    hide Position, Product;
  }

  lemma InputPosition(b: Block, p: Shape, y: nat, x: nat, g: nat, c: nat)
    requires p.Valid()
    ensures InputCell(y, x, g, c).Address(b, p) == Position([y, x, g, c], InputDims(b, p))
    ensures Product(InputDims(b, p)) == MaskStart(b, p)
  {
    var d := InputDims(b, p);
    Radix4([y, x, g, c], d);
    hide Position, Product, ChannelStride;
    assert d[2] * d[3] == InputStrideW(b, p);
    assert d[1] * (d[2] * d[3]) == InputStrideH(b, p);
    hide InputStrideW, InputStrideH;
  }

  lemma MaskPosition(b: Block, p: Shape, ho: nat, wo: nat, g: nat, kh: nat, kw: nat)
    requires p.Valid()
    ensures MaskCell(ho, wo, g, kh, kw).Address(b, p) ==
            MaskStart(b, p) + Position([ho, wo, g, kh, kw], MaskDims(b, p))
    ensures Product(MaskDims(b, p)) == (p.scale * b.h) * MaskStrideH(b, p)
    ensures MaskStart(b, p) + Product(MaskDims(b, p)) <= OutputStart(b, p)
  {
    var d := MaskDims(b, p);
    Radix5([ho, wo, g, kh, kw], d);
    hide Position, Product;
    assert d[2] * (d[3] * d[4]) == MaskStrideW(b, p);
    assert d[1] * (d[2] * (d[3] * d[4])) == MaskStrideH(b, p);
    CeilAlignIsCeiling((p.scale * b.h) * MaskStrideH(b, p), p.alignNram);
    hide MaskStrideW, MaskStrideH, MaskStart, CeilAlign;
  }

  /** Groups and channels of a pixel as lanes of its row of sums. */
  lemma LanePosition(b: Block, p: Shape, g: nat, c: nat)
    requires p.Valid()
    ensures ChannelStride(b, p) * g + c == Position([g, c], SumDims(b, p))
    ensures Product(SumDims(b, p)) == InputStrideW(b, p) <= SumForAdd(b, p)
  {
    Radix2([g, c], SumDims(b, p));
    CeilAlignIsCeiling(ChannelStride(b, p) * b.g, p.alignNfu);
  }

  lemma LaneWithin(b: Block, p: Shape, g: nat, c: nat)
    requires p.Valid() && g < b.g && c < ChannelStride(b, p)
    ensures ChannelStride(b, p) * g + c < InputStrideW(b, p) <= SumForAdd(b, p)
  {
    LanePosition(b, p, g, c);
    IndexOfPosition([g, c], SumDims(b, p));
  }

  lemma OutputPosition(b: Block, p: Shape, ho: nat, wo: nat, lane: nat)
    requires p.Valid()
    ensures OutputStrideH(b, p) * ho + OutputStrideW(b, p) * wo + lane == Position([ho, wo, lane], OutputDims(b, p))
    ensures OutputStart(b, p) + Product(OutputDims(b, p)) == SumStart(b, p)
  {
    var d := OutputDims(b, p);
    Radix3([ho, wo, lane], d);
    hide Position, Product, SumForAdd, OutputStart;
    assert d[1] * d[2] == OutputStrideH(b, p);
    hide OutputStrideH;
  }

  lemma StrideCovers(b: Block, p: Shape)
    requires p.Valid()
    ensures b.c <= ChannelStride(b, p) && ChannelStride(b, p) % p.alignNram == 0
  {
    CeilAlignIsCeiling(b.c, p.alignNram);
  }

  // ----- Different cells have different addresses -----

  /** The buffer a cell belongs to. */
  function Start(cell: Cell, b: Block, p: Shape): nat
    requires p.Valid()
  {
    match cell
    case InputCell(_, _, _, _) => 0
    case MaskCell(_, _, _, _, _) => MaskStart(b, p)
    case OutputCell(_, _, _, _) => OutputStart(b, p)
    case SumCell(_, _) => SumStart(b, p)
  }

  function End(cell: Cell, b: Block, p: Shape): nat
    requires p.Valid()
  {
    match cell
    case InputCell(_, _, _, _) => MaskStart(b, p)
    case MaskCell(_, _, _, _, _) => OutputStart(b, p)
    case OutputCell(_, _, _, _) => SumStart(b, p)
    case SumCell(_, _) => SumStart(b, p) + SumForAdd(b, p)
  }

  lemma CellInBuffer(cell: Cell, b: Block, p: Shape)
    requires p.Valid() && cell.In(b, p)
    ensures Start(cell, b, p) <= cell.Address(b, p) < End(cell, b, p)
  {
    StrideCovers(b, p);
    hide ChannelStride, SumForAdd, MaskStart, OutputStart, SumStart, Position, Product;
    match cell
    case InputCell(y, x, g, c) =>
      InputPosition(b, p, y, x, g, c);
      IndexOfPosition([y, x, g, c], InputDims(b, p));
    case MaskCell(ho, wo, g, kh, kw) =>
      MaskPosition(b, p, ho, wo, g, kh, kw);
      IndexOfPosition([ho, wo, g, kh, kw], MaskDims(b, p));
    case OutputCell(ho, wo, g, c) =>
      var lane := ChannelStride(b, p) * g + c;
      LaneWithin(b, p, g, c);
      OutputPosition(b, p, ho, wo, lane);
      IndexOfPosition([ho, wo, lane], OutputDims(b, p));
    case SumCell(g, c) => LaneWithin(b, p, g, c);
  }

  lemma BuffersInOrder(b: Block, p: Shape)
    requires p.Valid()
    ensures MaskStart(b, p) <= OutputStart(b, p) <= SumStart(b, p)
  {
    hide MaskStart, MaskStrideH, OutputStrideH, CeilAlign;
    var x: nat := (p.scale * b.h) * MaskStrideH(b, p);
    var y: nat := (p.scale * b.h) * OutputStrideH(b, p);
    assert SumStart(b, p) == OutputStart(b, p) + y && OutputStart(b, p) == MaskStart(b, p) + CeilAlign(x, p.alignNram);
  }

  lemma PositionsApart(i: seq<int>, j: seq<int>, dims: seq<int>)
    requires Positive(dims) && InRange(i, dims) && InRange(j, dims) && Position(i, dims) == Position(j, dims)
    ensures i == j
  {
    IndexOfPosition(i, dims);
    IndexOfPosition(j, dims);
  }

  lemma InputApart(x: Cell, y: Cell, b: Block, p: Shape)
    requires p.Valid() && x.InputCell? && y.InputCell?
    requires x.In(b, p) && y.In(b, p) && x.Address(b, p) == y.Address(b, p)
    ensures x == y
  {
    StrideCovers(b, p);
    hide ChannelStride, Position, Product, Cell.Address;
    var i, j := [x.y, x.x, x.g, x.c], [y.y, y.x, y.g, y.c];
    InputPosition(b, p, x.y, x.x, x.g, x.c);
    InputPosition(b, p, y.y, y.x, y.g, y.c);
    PositionsApart(i, j, InputDims(b, p));
    assert i[0] == j[0] && i[1] == j[1] && i[2] == j[2] && i[3] == j[3];
  }

  lemma MaskApart(x: Cell, y: Cell, b: Block, p: Shape)
    requires p.Valid() && x.MaskCell? && y.MaskCell?
    requires x.In(b, p) && y.In(b, p) && x.Address(b, p) == y.Address(b, p)
    ensures x == y
  {
    hide Position, Product, Cell.Address, MaskStart, OutputStart;
    var i, j := [x.ho, x.wo, x.g, x.kh, x.kw], [y.ho, y.wo, y.g, y.kh, y.kw];
    MaskPosition(b, p, x.ho, x.wo, x.g, x.kh, x.kw);
    MaskPosition(b, p, y.ho, y.wo, y.g, y.kh, y.kw);
    PositionsApart(i, j, MaskDims(b, p));
    assert i[0] == j[0] && i[1] == j[1] && i[2] == j[2] && i[3] == j[3] && i[4] == j[4];
  }

  lemma LanesApart(b: Block, p: Shape, g: nat, c: nat, g': nat, c': nat)
    requires p.Valid() && g < b.g && g' < b.g && c < ChannelStride(b, p) && c' < ChannelStride(b, p)
    requires ChannelStride(b, p) * g + c == ChannelStride(b, p) * g' + c'
    ensures g == g' && c == c'
  {
    hide ChannelStride, Position, Product;
    LanePosition(b, p, g, c);
    LanePosition(b, p, g', c');
    PositionsApart([g, c], [g', c'], SumDims(b, p));
    assert [g, c][0] == [g', c'][0] && [g, c][1] == [g', c'][1];
  }

  lemma OutputApart(x: Cell, y: Cell, b: Block, p: Shape)
    requires p.Valid() && x.OutputCell? && y.OutputCell?
    requires x.In(b, p) && y.In(b, p) && x.Address(b, p) == y.Address(b, p)
    ensures x == y
  {
    StrideCovers(b, p);
    LaneWithin(b, p, x.g, x.c);
    LaneWithin(b, p, y.g, y.c);
    hide ChannelStride, SumForAdd, Position, Product, InputStrideW;
    var l, l' := ChannelStride(b, p) * x.g + x.c, ChannelStride(b, p) * y.g + y.c;
    OutputPosition(b, p, x.ho, x.wo, l);
    OutputPosition(b, p, y.ho, y.wo, l');
    PositionsApart([x.ho, x.wo, l], [y.ho, y.wo, l'], OutputDims(b, p));
    assert [x.ho, x.wo, l][0] == [y.ho, y.wo, l'][0] && [x.ho, x.wo, l][1] == [y.ho, y.wo, l'][1];
    assert [x.ho, x.wo, l][2] == [y.ho, y.wo, l'][2];
    LanesApart(b, p, x.g, x.c, y.g, y.c);
  }

  /** Every cell lies within its own buffer, the buffers follow each other, and no two cells share an address. */
  lemma CellsApart(x: Cell, y: Cell, b: Block, p: Shape)
    requires p.Valid() && x.In(b, p) && y.In(b, p)
    ensures Start(x, b, p) <= x.Address(b, p) < End(x, b, p)
    ensures MaskStart(b, p) <= OutputStart(b, p) <= SumStart(b, p)
    ensures x.Address(b, p) == y.Address(b, p) ==> x == y
  {
    CellInBuffer(x, b, p);
    CellInBuffer(y, b, p);
    BuffersInOrder(b, p);
    StrideCovers(b, p);
    hide Cell.Address, ChannelStride, SumForAdd, MaskStart, OutputStart, SumStart;
    if x.Address(b, p) == y.Address(b, p) {
      if x.InputCell? && y.InputCell? {
        InputApart(x, y, b, p);
      } else if x.MaskCell? && y.MaskCell? {
        MaskApart(x, y, b, p);
      } else if x.OutputCell? && y.OutputCell? {
        OutputApart(x, y, b, p);
      } else if x.SumCell? && y.SumCell? {
        SumAddress(x, b, p);
        SumAddress(y, b, p);
        LanesApart(b, p, x.g, x.c, y.g, y.c);
      }
    }
  }

  lemma SumAddress(x: Cell, b: Block, p: Shape)
    requires p.Valid() && x.SumCell?
    ensures x.Address(b, p) == SumStart(b, p) + (ChannelStride(b, p) * x.g + x.c)
  {
  }

  // ----- What operations on runs of cells touch -----

  /** How many cells the product of one group's channels reads and writes. */
  function ProductRun(b: Block, p: Shape): nat requires p.Valid() { CeilAlign(b.c, p.alignNfu) }

  /** The host's sizes are the kernel's. */
  lemma HostCounts(b: Block, p: Shape)
    requires p.Valid() && 1 <= b.g
    ensures NramUsage(b, p) == SumStart(b, p) + SumSize(b, p)
    ensures SumForAdd(b, p) <= SumSize(b, p)
    ensures ChannelStride(b, p) * (b.g - 1) + CeilAlign(ChannelStride(b, p), p.alignNfu) <= SumSize(b, p)
  {
    hide ChannelStride, SumForAdd, CeilAlign, SumSize;
    assert InputSize(b, p) == MaskStart(b, p);
    assert MaskSize(b, p) == OutputStart(b, p) - MaskStart(b, p);
    assert OutputSize(b, p) == SumStart(b, p) - OutputStart(b, p);
    hide InputSize, MaskSize, OutputSize, MaskStart, OutputStart, SumStart;
    SumSizeIs(b, p);
  }

  lemma SumSizeIs(b: Block, p: Shape)
    requires p.Valid() && 1 <= b.g
    ensures SumSize(b, p) ==
            Max(SumForAdd(b, p), ChannelStride(b, p) * (b.g - 1) + CeilAlign(ChannelStride(b, p), p.alignNfu))
  {
  }

  /** Rounding the channels up twice is at least rounding them up once, and the same where one alignment is a multiple
      of the other. */
  lemma RunAtMost(b: Block, p: Shape)
    requires p.Valid()
    ensures ProductRun(b, p) <= CeilAlign(ChannelStride(b, p), p.alignNfu)
    ensures p.alignNfu % p.alignNram == 0 ==> ProductRun(b, p) == CeilAlign(ChannelStride(b, p), p.alignNfu)
    ensures ProductRun(b, p) < ChannelStride(b, p) + p.alignNfu
  {
    StrideCovers(b, p);
    CeilAlignMonotone(b.c, ChannelStride(b, p), p.alignNfu);
    CeilAlignIsCeiling(b.c, p.alignNfu);
    if p.alignNfu % p.alignNram == 0 {
      MultipleOfMultiple(ProductRun(b, p), p.alignNfu, p.alignNram);
      CeilAlignWithin(b.c, ProductRun(b, p), p.alignNram);
      CeilAlignWithin(ChannelStride(b, p), ProductRun(b, p), p.alignNfu);
    }
  }

  lemma MultipleOfMultiple(x: nat, y: nat, z: nat)
    requires 0 < y && 0 < z && x % y == 0 && y % z == 0
    ensures x % z == 0
  {
    var k, l := x / y, y / z;
    assert x == y * k && y == z * l;
    assert x == (k * l) * z;
    MultipleMod(k * l, z);
  }

  /** The group's channels end within the input. */
  lemma GroupWithin(b: Block, p: Shape, y: nat, x: nat, g: nat)
    requires p.Valid() && 1 <= b.c && InputCell(y, x, g, 0).In(b, p)
    ensures 0 <= InputCell(y, x, g, 0).Address(b, p)
    ensures InputCell(y, x, g, 0).Address(b, p) + ChannelStride(b, p) <= MaskStart(b, p)
  {
    StrideCovers(b, p);
    var last := ChannelStride(b, p) - 1;
    InputPosition(b, p, y, x, g, 0);
    InputPosition(b, p, y, x, g, last);
    hide ChannelStride, MaskStart, Position, Product, InputStrideH, InputStrideW;
    IndexOfPosition([y, x, g, 0], InputDims(b, p));
    IndexOfPosition([y, x, g, last], InputDims(b, p));
  }

  /** The output takes at least one whole row of sums. */
  lemma RowOfSums(b: Block, p: Shape)
    requires p.Valid() && 1 <= b.h && 1 <= b.w && 1 <= b.g && 1 <= b.c
    ensures p.alignNfu <= SumForAdd(b, p) && MaskStart(b, p) + SumForAdd(b, p) <= SumStart(b, p)
  {
    StrideCovers(b, p);
    MulMonotone(1, b.g, ChannelStride(b, p));
    CeilAlignIsCeiling(ChannelStride(b, p) * b.g, p.alignNfu);
    AtLeastOneMultiple(SumForAdd(b, p), p.alignNfu);
    BuffersInOrder(b, p);
    hide ChannelStride, SumForAdd, MaskStart;
    assert OutputStart(b, p) + (p.scale * b.h) * OutputStrideH(b, p) == SumStart(b, p);
    hide OutputStart, SumStart;
    MulMonotone(1, p.scale, b.w);
    MulMonotone(1, p.scale, b.h);
    MulMonotone(1, p.scale * b.w, SumForAdd(b, p));
    assert SumForAdd(b, p) <= OutputStrideH(b, p);
    hide OutputStrideH;
    MulMonotone(1, p.scale * b.h, OutputStrideH(b, p));
  }

  lemma AtLeastOneMultiple(x: nat, y: nat)
    requires 0 < y && 0 < x && x % y == 0
    ensures y <= x
  {
    MultiplesApart(0, x, y);
  }

  /** The product of a group reads the input from the group's first channel on and stops before the sums; it writes its
      sums within what the host counts. */
  lemma ProductsWithin(b: Block, p: Shape, y: nat, x: nat, g: nat)
    requires p.Valid() && 1 <= b.h && 1 <= b.w && 1 <= b.c && InputCell(y, x, g, 0).In(b, p)
    ensures 0 <= InputCell(y, x, g, 0).Address(b, p)
    ensures InputCell(y, x, g, 0).Address(b, p) + ProductRun(b, p) <= SumStart(b, p)
    ensures SumCell(g, 0).Address(b, p) + ProductRun(b, p) <= NramUsage(b, p)
  {
    RunAtMost(b, p);
    GroupWithin(b, p, y, x, g);
    RowOfSums(b, p);
    HostCounts(b, p);
    SumAddress(SumCell(g, 0), b, p);
    hide ChannelStride, SumForAdd, MaskStart, SumStart, CeilAlign, ProductRun, NramUsage, SumSize, Cell.Address;
    MulMonotone(g, b.g - 1, ChannelStride(b, p));
  }

  /** Adding the sums to a pixel touches that pixel's row of the output, which lies within the output, and no other
      pixel's; and it reads no more sums than the host counts. */
  lemma RowsApart(b: Block, p: Shape, ho: nat, wo: nat, ho': nat, wo': nat, l: nat, l': nat)
    requires p.Valid() && OutputCell(ho, wo, 0, 0).In(b, p) && OutputCell(ho', wo', 0, 0).In(b, p)
    requires l < SumForAdd(b, p) && l' < SumForAdd(b, p)
    ensures var (row, row') := (OutputCell(ho, wo, 0, 0).Address(b, p), OutputCell(ho', wo', 0, 0).Address(b, p));
            && OutputStart(b, p) <= row + l < SumStart(b, p)
            && (row + l == row' + l' ==> ho == ho' && wo == wo' && l == l')
    ensures SumStart(b, p) + SumForAdd(b, p) <= NramUsage(b, p)
  {
    HostCounts(b, p);
    OutputPosition(b, p, ho, wo, l);
    OutputPosition(b, p, ho', wo', l');
    RowAddress(b, p, ho, wo);
    RowAddress(b, p, ho', wo');
    hide SumForAdd, OutputStart, SumStart, NramUsage, SumSize, OutputStrideH, OutputStrideW, Cell.Address;
    var i, j, dims := [ho, wo, l], [ho', wo', l'], OutputDims(b, p);
    hide Position, Product;
    IndexOfPosition(i, dims);
    if Position(i, dims) == Position(j, dims) {
      PositionsApart(i, j, dims);
      assert i[0] == j[0] && i[1] == j[1] && i[2] == j[2];
    }
  }

  lemma RowAddress(b: Block, p: Shape, ho: nat, wo: nat)
    requires p.Valid()
    ensures OutputCell(ho, wo, 0, 0).Address(b, p) ==
            OutputStart(b, p) + (OutputStrideH(b, p) * ho + OutputStrideW(b, p) * wo)
  {
  }

  // ----- Not one element too many -----

  /** What the host counts ends where the last operation does, if the larger alignment is a multiple of the smaller, as
      128 and 64 bytes are. */
  lemma UsageExactly(b: Block, p: Shape)
    requires p.Valid() && 1 <= b.g && p.alignNfu % p.alignNram == 0
    ensures NramUsage(b, p) ==
            Max(SumStart(b, p) + SumForAdd(b, p), SumCell(b.g - 1, 0).Address(b, p) + ProductRun(b, p))
  {
    HostCounts(b, p);
    SumSizeIs(b, p);
    RunAtMost(b, p);
    SumAddress(SumCell(b.g - 1, 0), b, p);
    hide ChannelStride, SumForAdd, SumStart, CeilAlign, ProductRun, NramUsage, SumSize, Cell.Address;
  }

  /** The input buffer has nothing but its cells and, behind the channels of a group, those up to its stride. */
  lemma InputDense(b: Block, p: Shape, a: nat) returns (y: nat, x: nat, g: nat, c: nat)
    requires p.Valid() && 1 <= b.h && 1 <= b.w && 1 <= b.g && 1 <= b.c && a < MaskStart(b, p)
    ensures y < b.h + p.kernel - 1 && x < b.w + p.kernel - 1 && g < b.g && c < ChannelStride(b, p)
    ensures InputCell(y, x, g, c).Address(b, p) == a
  {
    var dims := InputDims(b, p);
    StrideCovers(b, p);
    InputPosition(b, p, 0, 0, 0, 0);
    hide ChannelStride, MaskStart, Position, Product, IndexAt, Cell.Address;
    PositionOfIndex(a, dims);
    var i := IndexAt(a, dims);
    y, x, g, c := i[0], i[1], i[2], i[3];
    assert i == [y, x, g, c];
    InputPosition(b, p, y, x, g, c);
  }

  /** The mask buffer has nothing but its cells and less than one alignment behind them. */
  lemma MaskDense(b: Block, p: Shape, a: nat) returns (cell: Cell)
    requires p.Valid() && 1 <= b.h && 1 <= b.w && 1 <= b.g
    requires MaskStart(b, p) <= a && a + p.alignNram <= OutputStart(b, p)
    ensures cell.MaskCell? && cell.In(b, p) && cell.Address(b, p) == a
  {
    var dims := MaskDims(b, p);
    MaskPosition(b, p, 0, 0, 0, 0, 0);
    CeilAlignIsCeiling((p.scale * b.h) * MaskStrideH(b, p), p.alignNram);
    MulMonotone(1, p.scale, b.h);
    MulMonotone(1, p.scale, b.w);
    hide MaskStart, Position, Product, IndexAt, Cell.Address, MaskStrideH, CeilAlign;
    PositionOfIndex(a - MaskStart(b, p), dims);
    var i := IndexAt(a - MaskStart(b, p), dims);
    cell := MaskCell(i[0], i[1], i[2], i[3], i[4]);
    assert i == [i[0], i[1], i[2], i[3], i[4]];
    MaskPosition(b, p, i[0], i[1], i[2], i[3], i[4]);
  }

  /** The output buffer has nothing but rows of sums. */
  lemma OutputDense(b: Block, p: Shape, a: nat) returns (ho: nat, wo: nat, l: nat)
    requires p.Valid() && 1 <= b.h && 1 <= b.w && 1 <= b.g && 1 <= b.c && OutputStart(b, p) <= a < SumStart(b, p)
    ensures OutputCell(ho, wo, 0, 0).In(b, p) && l < SumForAdd(b, p)
    ensures OutputCell(ho, wo, 0, 0).Address(b, p) + l == a
  {
    var dims := OutputDims(b, p);
    OutputPosition(b, p, 0, 0, 0);
    RowOfSums(b, p);
    MulMonotone(1, p.scale, b.h);
    MulMonotone(1, p.scale, b.w);
    hide SumForAdd, MaskStart, OutputStart, SumStart, Position, Product, IndexAt, Cell.Address;
    hide OutputStrideH, OutputStrideW;
    PositionOfIndex(a - OutputStart(b, p), dims);
    var i := IndexAt(a - OutputStart(b, p), dims);
    ho, wo, l := i[0], i[1], i[2];
    assert i == [ho, wo, l];
    OutputPosition(b, p, ho, wo, l);
    RowAddress(b, p, ho, wo);
  }

  // ----- What the policy accepts -----

  /** If the usage fits a memory, so does every cell. */
  lemma EverythingFits(cell: Cell, b: Block, p: Shape, maxNram: int)
    requires p.Valid() && cell.In(b, p) && NramUsage(b, p) <= maxNram
    ensures 0 <= cell.Address(b, p) < maxNram
  {
    CellInBuffer(cell, b, p);
    BuffersInOrder(b, p);
    HostCounts(b, p);
    hide Cell.Address, SumForAdd, MaskStart, OutputStart, SumStart, NramUsage, SumSize, ChannelStride;
  }
}
