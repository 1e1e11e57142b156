/**
 One step of the carafe forward kernel in private memory: the products of all groups for one place of the window, and
 their sum added to one pixel of the output.

 The product of a group goes over more lanes than the group has channels and overruns the sums of the next, which are
 then written again. The main results: after the loop over the groups every lane holds its own product (ProductsHeld),
 and a step adds to each channel of its pixel exactly that, and changes no other pixel, no input and no mask
 (StepAdds, StepKeeps).
 */
module CarafeStep {
  import opened Carafe
  import opened CarafeLayout
  import opened Rounding

  // ----- Private memory as a value -----

  type Memory = seq<real>

  function Get(m: Memory, a: int): real { if 0 <= a < |m| then m[a] else 0.0 }

  /** What a cell holds. */
  function Held(m: Memory, cell: Cell, b: Block, p: Shape): real
    requires p.Valid()
  {
    Get(m, cell.Address(b, p))
  }

  predicate Ready(len: int, b: Block, p: Shape) {
    p.Valid() && 1 <= b.h && 1 <= b.w && 1 <= b.g && 1 <= b.c && NramUsage(b, p) <= len
  }

  /** A run multiplied by a number. */
  function Multiplied(m: Memory, dst: int, src: int, scalar: real, n: nat): (m': Memory)
    ensures |m'| == |m|
  {
    seq(|m|, a requires 0 <= a < |m| => if dst <= a < dst + n then Get(m, src + (a - dst)) * scalar else m[a])
  }

  /** A run added to another. */
  function Added(m: Memory, dst: int, src: int, n: nat): (m': Memory)
    ensures |m'| == |m|
  {
    seq(|m|, a requires 0 <= a < |m| => if dst <= a < dst + n then m[a] + Get(m, src + (a - dst)) else m[a])
  }

  lemma GetMultiplied(m: Memory, dst: int, src: int, scalar: real, n: nat, a: int)
    ensures Get(Multiplied(m, dst, src, scalar, n), a) ==
            if dst <= a < dst + n && 0 <= a < |m| then Get(m, src + (a - dst)) * scalar else Get(m, a)
  {
  }

  lemma GetAdded(m: Memory, dst: int, src: int, n: nat, a: int)
    ensures Get(Added(m, dst, src, n), a) ==
            if dst <= a < dst + n && 0 <= a < |m| then Get(m, a) + Get(m, src + (a - dst)) else Get(m, a)
  {
  }

  method MultiplyScalar(nram: array<real>, dst: nat, src: nat, scalar: real, n: nat)
    requires dst + n <= nram.Length && src + n <= nram.Length
    modifies nram
    ensures nram[..] == Multiplied(old(nram[..]), dst, src, scalar, n)
  {
    ghost var m := nram[..];
    forall a | dst <= a < dst + n {
      nram[a] := nram[src + (a - dst)] * scalar;
    }
    forall a | 0 <= a < nram.Length ensures nram[a] == Multiplied(m, dst, src, scalar, n)[a] {
      assert m[a] == old(nram[a]);
      if dst <= a < dst + n {
        assert m[src + (a - dst)] == old(nram[src + (a - dst)]);
        assert nram[a] == old(nram[src + (a - dst)]) * scalar;
        assert Multiplied(m, dst, src, scalar, n)[a] == Get(m, src + (a - dst)) * scalar;
      } else {
        assert Multiplied(m, dst, src, scalar, n)[a] == m[a];
      }
    }
  }

  method AddRun(nram: array<real>, dst: nat, src: nat, n: nat)
    requires dst + n <= nram.Length && src + n <= nram.Length
    modifies nram
    ensures nram[..] == Added(old(nram[..]), dst, src, n)
  {
    ghost var m := nram[..];
    forall a | dst <= a < dst + n {
      nram[a] := nram[a] + nram[src + (a - dst)];
    }
    forall a | 0 <= a < nram.Length ensures nram[a] == Added(m, dst, src, n)[a] {
      assert m[a] == old(nram[a]);
      if dst <= a < dst + n {
        assert m[src + (a - dst)] == old(nram[src + (a - dst)]);
        assert nram[a] == old(nram[a]) + old(nram[src + (a - dst)]);
        assert Added(m, dst, src, n)[a] == m[a] + Get(m, src + (a - dst));
      } else {
        assert Added(m, dst, src, n)[a] == m[a];
      }
    }
  }

  // ----- One place of the window -----

  /** The products of the first groups, the input at (y, x) times the mask of pixel (ho, wo) at place (kh, kw). */
  function GroupsMultiplied(m: Memory, b: Block, p: Shape, y: nat, x: nat, ho: nat, wo: nat, kh: nat, kw: nat, g: nat)
    : (m': Memory)
    requires p.Valid()
    ensures |m'| == |m|
  {
    if g == 0 then m
    else
      var m1 := GroupsMultiplied(m, b, p, y, x, ho, wo, kh, kw, g - 1);
      Multiplied(m1, SumCell(g - 1, 0).Address(b, p), InputCell(y, x, g - 1, 0).Address(b, p),
                 Held(m1, MaskCell(ho, wo, g - 1, kh, kw), b, p), ProductRun(b, p))
  }

  lemma GroupsNext(m: Memory, b: Block, p: Shape, y: nat, x: nat, ho: nat, wo: nat, kh: nat, kw: nat, g: nat)
    requires p.Valid()
    ensures var m1 := GroupsMultiplied(m, b, p, y, x, ho, wo, kh, kw, g);
            GroupsMultiplied(m, b, p, y, x, ho, wo, kh, kw, g + 1) ==
            Multiplied(m1, SumCell(g, 0).Address(b, p), InputCell(y, x, g, 0).Address(b, p),
                       Get(m1, MaskCell(ho, wo, g, kh, kw).Address(b, p)), ProductRun(b, p))
  {
    hide Multiplied, Cell.Address, ProductRun, Get;
  }

  /** The next groups' addresses. */
  lemma NextGroup(b: Block, p: Shape, y: nat, x: nat, ho: nat, wo: nat, g: nat, kh: nat, kw: nat)
    requires p.Valid()
    ensures InputCell(y, x, g + 1, 0).Address(b, p) == InputCell(y, x, g, 0).Address(b, p) + ChannelStride(b, p)
    ensures SumCell(g + 1, 0).Address(b, p) == SumCell(g, 0).Address(b, p) + ChannelStride(b, p)
    ensures MaskCell(ho, wo, g + 1, kh, kw).Address(b, p) ==
            MaskCell(ho, wo, g, kh, kw).Address(b, p) + p.kernel * p.kernel
  {
    hide ChannelStride, SumStart, InputStrideH, InputStrideW, MaskStart, MaskStrideH, MaskStrideW;
    assert ChannelStride(b, p) * (g + 1) == ChannelStride(b, p) * g + ChannelStride(b, p);
    assert p.kernel * p.kernel * (g + 1) == p.kernel * p.kernel * g + p.kernel * p.kernel;
  }

  lemma ChannelAddress(b: Block, p: Shape, y: nat, x: nat, g: nat, c: nat)
    requires p.Valid()
    ensures InputCell(y, x, g, c).Address(b, p) == InputCell(y, x, g, 0).Address(b, p) + c
    ensures SumCell(g, c).Address(b, p) == SumCell(g, 0).Address(b, p) + c
  {
    hide ChannelStride, SumStart, InputStrideH, InputStrideW;
  }

  lemma SumsInOrder(b: Block, p: Shape, g: nat, g': nat)
    requires p.Valid() && g <= g'
    ensures SumStart(b, p) <= SumCell(g, 0).Address(b, p) <= SumCell(g', 0).Address(b, p)
  {
    MulMonotone(g, g', ChannelStride(b, p));
    MulMonotone(0, g, ChannelStride(b, p));
    hide ChannelStride, SumStart;
  }

  lemma RunCovers(b: Block, p: Shape)
    requires p.Valid()
    ensures b.c <= ProductRun(b, p) && b.c <= ChannelStride(b, p)
  {
    CeilAlignIsCeiling(b.c, p.alignNfu);
    CeilAlignIsCeiling(b.c, p.alignNram);
  }

  /** The loop over the groups. */
  method MultiplyGroups(nram: array<real>, b: Block, p: Shape, y: nat, x: nat, ho: nat, wo: nat, kh: nat, kw: nat,
                        bg: nat)
    requires Ready(nram.Length, b, p) && bg <= b.g
    requires InputCell(y, x, 0, 0).In(b, p) && MaskCell(ho, wo, 0, kh, kw).In(b, p)
    modifies nram
    ensures nram[..] == GroupsMultiplied(old(nram[..]), b, p, y, x, ho, wo, kh, kw, bg)
  {
    var sum := SumCell(0, 0).Address(b, p);
    var src := InputCell(y, x, 0, 0).Address(b, p);
    var weight := MaskCell(ho, wo, 0, kh, kw).Address(b, p);
    hide Cell.Address, NramUsage, ProductRun, ChannelStride, Multiplied;
    for g := 0 to bg
      invariant sum == SumCell(g, 0).Address(b, p) && src == InputCell(y, x, g, 0).Address(b, p)
      invariant weight == MaskCell(ho, wo, g, kh, kw).Address(b, p)
      invariant nram[..] == GroupsMultiplied(old(nram[..]), b, p, y, x, ho, wo, kh, kw, g)
    {
      ProductsWithin(b, p, y, x, g);
      SumsInOrder(b, p, 0, g);
      EverythingFits(MaskCell(ho, wo, g, kh, kw), b, p, nram.Length);
      MultiplyScalar(nram, sum, src, nram[weight], ProductRun(b, p));
      NextGroup(b, p, y, x, ho, wo, g, kh, kw);
      sum := sum + ChannelStride(b, p);
      src := src + ChannelStride(b, p);
      weight := weight + p.kernel * p.kernel;
    }
  }

  /** Cells before the sums lie before the sums of every group. */
  lemma BeforeSums(cell: Cell, b: Block, p: Shape, g: nat)
    requires p.Valid() && cell.In(b, p) && !cell.SumCell?
    ensures 0 <= cell.Address(b, p) < SumStart(b, p) <= SumCell(g, 0).Address(b, p)
  {
    CellInBuffer(cell, b, p);
    BuffersInOrder(b, p);
    SumsInOrder(b, p, g, g);
    hide Cell.Address, MaskStart, OutputStart, SumStart, SumForAdd;
  }

  /** Multiplying changes no cell before the sums. */
  lemma {:induction false} MultiplyKeeps(m: Memory, b: Block, p: Shape, y: nat, x: nat, ho: nat, wo: nat, kh: nat,
                                         kw: nat, g: nat, a: int)
    requires p.Valid() && a < SumStart(b, p)
    ensures Get(GroupsMultiplied(m, b, p, y, x, ho, wo, kh, kw, g), a) == Get(m, a)
  {
    hide Get, Multiplied, Cell.Address, ProductRun, SumStart;
    if g > 0 {
      var m1 := GroupsMultiplied(m, b, p, y, x, ho, wo, kh, kw, g - 1);
      SumsInOrder(b, p, g - 1, g - 1);
      MultiplyKeeps(m, b, p, y, x, ho, wo, kh, kw, g - 1, a);
      GetMultiplied(m1, SumCell(g - 1, 0).Address(b, p), InputCell(y, x, g - 1, 0).Address(b, p),
                    Held(m1, MaskCell(ho, wo, g - 1, kh, kw), b, p), ProductRun(b, p), a);
    }
  }

  /** Where the operands and the product of a channel are. */
  lemma ProductPlaces(len: int, b: Block, p: Shape, y: nat, x: nat, ho: nat, wo: nat, kh: nat, kw: nat, g: nat, c: nat)
    requires Ready(len, b, p) && c < b.c && InputCell(y, x, g, c).In(b, p) && MaskCell(ho, wo, g, kh, kw).In(b, p)
    ensures 0 <= InputCell(y, x, g, c).Address(b, p) < SumStart(b, p)
    ensures 0 <= MaskCell(ho, wo, g, kh, kw).Address(b, p) < SumStart(b, p)
    ensures InputCell(y, x, g, c).Address(b, p) == InputCell(y, x, g, 0).Address(b, p) + c
    ensures SumCell(g, c).Address(b, p) == SumCell(g, 0).Address(b, p) + c
    ensures 0 <= SumCell(g, c).Address(b, p) < len && c < ProductRun(b, p)
  {
    hide Cell.Address, ProductRun, ChannelStride, SumStart, NramUsage;
    RunCovers(b, p);
    EverythingFits(SumCell(g, c), b, p, len);
    BeforeSums(InputCell(y, x, g, c), b, p, g);
    BeforeSums(MaskCell(ho, wo, g, kh, kw), b, p, g);
    ChannelAddress(b, p, y, x, g, c);
  }

  /** The product of the last group so far. */
  lemma LastProduct(m: Memory, b: Block, p: Shape, y: nat, x: nat, ho: nat, wo: nat, kh: nat, kw: nat, g: nat, c: nat)
    requires Ready(|m|, b, p) && c < b.c && InputCell(y, x, g, c).In(b, p) && MaskCell(ho, wo, g, kh, kw).In(b, p)
    ensures Held(GroupsMultiplied(m, b, p, y, x, ho, wo, kh, kw, g + 1), SumCell(g, c), b, p) ==
            Held(m, InputCell(y, x, g, c), b, p) * Held(m, MaskCell(ho, wo, g, kh, kw), b, p)
  {
    hide Get, Multiplied, Cell.Address, Cell.In, ProductRun, SumStart, NramUsage, GroupsMultiplied;
    var m1 := GroupsMultiplied(m, b, p, y, x, ho, wo, kh, kw, g);
    var sum, src := SumCell(g, 0).Address(b, p), InputCell(y, x, g, 0).Address(b, p);
    var from, weight := InputCell(y, x, g, c).Address(b, p), MaskCell(ho, wo, g, kh, kw).Address(b, p);
    GroupsNext(m, b, p, y, x, ho, wo, kh, kw, g);
    ProductPlaces(|m|, b, p, y, x, ho, wo, kh, kw, g, c);
    MultiplyKeeps(m, b, p, y, x, ho, wo, kh, kw, g, from);
    MultiplyKeeps(m, b, p, y, x, ho, wo, kh, kw, g, weight);
    GetMultiplied(m1, sum, src, Get(m1, weight), ProductRun(b, p), sum + c);
    assert src + (sum + c - sum) == from;
  }

  /** The product of a later group leaves the sums alone. */
  lemma LaterProduct(m: Memory, b: Block, p: Shape, y: nat, x: nat, ho: nat, wo: nat, kh: nat, kw: nat, bg: nat,
                     g: nat, c: nat)
    requires Ready(|m|, b, p) && g < bg < b.g && c < b.c
    ensures Held(GroupsMultiplied(m, b, p, y, x, ho, wo, kh, kw, bg + 1), SumCell(g, c), b, p) ==
            Held(GroupsMultiplied(m, b, p, y, x, ho, wo, kh, kw, bg), SumCell(g, c), b, p)
  {
    var m1 := GroupsMultiplied(m, b, p, y, x, ho, wo, kh, kw, bg);
    RunCovers(b, p);
    hide Get, Multiplied, Cell.Address, Cell.In, ProductRun, ChannelStride, SumStart, NramUsage;
    ChannelAddress(b, p, y, x, g, c);
    NextGroup(b, p, y, x, ho, wo, g, kh, kw);
    SumsInOrder(b, p, g + 1, bg);
    GetMultiplied(m1, SumCell(bg, 0).Address(b, p), InputCell(y, x, bg, 0).Address(b, p),
                  Held(m1, MaskCell(ho, wo, bg, kh, kw), b, p), ProductRun(b, p), SumCell(g, c).Address(b, p));
  }

  /** After the loop every group's sums hold its products: what a group's product overruns is written again. */
  lemma {:induction false} ProductsHeld(m: Memory, b: Block, p: Shape, y: nat, x: nat, ho: nat, wo: nat, kh: nat,
                                        kw: nat, bg: nat, g: nat, c: nat)
    requires Ready(|m|, b, p) && g < bg <= b.g && c < b.c
    requires InputCell(y, x, 0, 0).In(b, p) && MaskCell(ho, wo, 0, kh, kw).In(b, p)
    ensures Held(GroupsMultiplied(m, b, p, y, x, ho, wo, kh, kw, bg), SumCell(g, c), b, p) ==
            Held(m, InputCell(y, x, g, c), b, p) * Held(m, MaskCell(ho, wo, g, kh, kw), b, p)
  {
    assert InputCell(y, x, g, c).In(b, p) && MaskCell(ho, wo, g, kh, kw).In(b, p);
    hide Held, GroupsMultiplied, Ready, Cell.In;
    if g < bg - 1 {
      LaterProduct(m, b, p, y, x, ho, wo, kh, kw, bg - 1, g, c);
      ProductsHeld(m, b, p, y, x, ho, wo, kh, kw, bg - 1, g, c);
    } else {
      LastProduct(m, b, p, y, x, ho, wo, kh, kw, g, c);
    }
  }

  /** One place of the window for all groups: multiply, and add the sums to the pixel. */
  function Stepped(m: Memory, b: Block, p: Shape, y: nat, x: nat, ho: nat, wo: nat, kh: nat, kw: nat, bg: nat)
    : (m': Memory)
    requires p.Valid()
    ensures |m'| == |m|
  {
    Added(GroupsMultiplied(m, b, p, y, x, ho, wo, kh, kw, bg), OutputCell(ho, wo, 0, 0).Address(b, p), SumStart(b, p),
          SumForAdd(b, p))
  }

  /** A pixel's row of the output, and where its lanes are. */
  lemma PixelRow(len: int, b: Block, p: Shape, ho: nat, wo: nat)
    requires Ready(len, b, p) && OutputCell(ho, wo, 0, 0).In(b, p)
    ensures var row := OutputCell(ho, wo, 0, 0).Address(b, p);
            0 <= row && row + SumForAdd(b, p) <= SumStart(b, p) && SumStart(b, p) + SumForAdd(b, p) <= len
  {
    hide Cell.Address, NramUsage, SumForAdd, SumStart, OutputStart;
    RowOfSums(b, p);
    RowsApart(b, p, ho, wo, ho, wo, 0, 0);
    RowsApart(b, p, ho, wo, ho, wo, SumForAdd(b, p) - 1, 0);
  }

  lemma LaneAddress(b: Block, p: Shape, ho: nat, wo: nat, g: nat, c: nat)
    requires p.Valid() && g < b.g && c < b.c
    ensures 0 <= ChannelStride(b, p) * g + c < SumForAdd(b, p)
    ensures OutputCell(ho, wo, g, c).Address(b, p) ==
            OutputCell(ho, wo, 0, 0).Address(b, p) + (ChannelStride(b, p) * g + c)
    ensures SumCell(g, c).Address(b, p) == SumStart(b, p) + (ChannelStride(b, p) * g + c)
  {
    StrideCovers(b, p);
    LaneWithin(b, p, g, c);
    hide ChannelStride, SumForAdd, SumStart, OutputStart, OutputStrideH, OutputStrideW, InputStrideW;
  }

  /** What lies in a pixel's row is that pixel's. */
  lemma RowMissed(cell: Cell, b: Block, p: Shape, ho: nat, wo: nat)
    requires p.Valid() && 1 <= b.g && cell.In(b, p) && !cell.SumCell? && OutputCell(ho, wo, 0, 0).In(b, p)
    requires !(cell.OutputCell? && cell.ho == ho && cell.wo == wo)
    ensures var row := OutputCell(ho, wo, 0, 0).Address(b, p);
            !(row <= cell.Address(b, p) < row + SumForAdd(b, p))
  {
    var row := OutputCell(ho, wo, 0, 0).Address(b, p);
    hide Cell.Address, SumForAdd, SumStart, OutputStart, MaskStart, NramUsage;
    var l := cell.Address(b, p) - row;
    if 0 <= l < SumForAdd(b, p) {
      if cell.OutputCell? {
        LaneAddress(b, p, cell.ho, cell.wo, cell.g, cell.c);
        RowsApart(b, p, ho, wo, cell.ho, cell.wo, l, ChannelStride(b, p) * cell.g + cell.c);
      } else {
        CellInBuffer(cell, b, p);
        BuffersInOrder(b, p);
        RowsApart(b, p, ho, wo, ho, wo, l, l);
      }
    }
  }

  /** Only pixel (ho, wo) of the output may differ, and the sums. */
  ghost predicate OnlyPixel(m: Memory, m': Memory, b: Block, p: Shape, ho: nat, wo: nat)
    requires p.Valid()
  {
    |m'| == |m| &&
    forall cell: Cell | cell.In(b, p) && !cell.SumCell? && !(cell.OutputCell? && cell.ho == ho && cell.wo == wo) ::
      Held(m', cell, b, p) == Held(m, cell, b, p)
  }

  lemma StepKeeps(m: Memory, b: Block, p: Shape, y: nat, x: nat, ho: nat, wo: nat, kh: nat, kw: nat, bg: nat)
    requires Ready(|m|, b, p) && OutputCell(ho, wo, 0, 0).In(b, p)
    ensures OnlyPixel(m, Stepped(m, b, p, y, x, ho, wo, kh, kw, bg), b, p, ho, wo)
  {
    var m1, m2 := GroupsMultiplied(m, b, p, y, x, ho, wo, kh, kw, bg), Stepped(m, b, p, y, x, ho, wo, kh, kw, bg);
    var row := OutputCell(ho, wo, 0, 0).Address(b, p);
    forall cell: Cell | cell.In(b, p) && !cell.SumCell? && !(cell.OutputCell? && cell.ho == ho && cell.wo == wo)
      ensures Held(m2, cell, b, p) == Held(m, cell, b, p)
    {
      hide Get, Added, Cell.Address, Cell.In, SumForAdd, SumStart, NramUsage, GroupsMultiplied;
      RowMissed(cell, b, p, ho, wo);
      BeforeSums(cell, b, p, 0);
      MultiplyKeeps(m, b, p, y, x, ho, wo, kh, kw, bg, cell.Address(b, p));
      GetAdded(m1, row, SumStart(b, p), SumForAdd(b, p), cell.Address(b, p));
    }
  }

  /** A step adds to every lane of the pixel its product. */
  lemma StepAdds(m: Memory, b: Block, p: Shape, y: nat, x: nat, ho: nat, wo: nat, kh: nat, kw: nat, bg: nat,
                 g: nat, c: nat)
    requires Ready(|m|, b, p) && g < bg <= b.g && c < b.c && OutputCell(ho, wo, 0, 0).In(b, p)
    requires InputCell(y, x, 0, 0).In(b, p) && MaskCell(ho, wo, 0, kh, kw).In(b, p)
    ensures Held(Stepped(m, b, p, y, x, ho, wo, kh, kw, bg), OutputCell(ho, wo, g, c), b, p) ==
            Held(m, OutputCell(ho, wo, g, c), b, p) +
            Held(m, InputCell(y, x, g, c), b, p) * Held(m, MaskCell(ho, wo, g, kh, kw), b, p)
  {
    var m1 := GroupsMultiplied(m, b, p, y, x, ho, wo, kh, kw, bg);
    var row, lane := OutputCell(ho, wo, 0, 0).Address(b, p), ChannelStride(b, p) * g + c;
    ProductsHeld(m, b, p, y, x, ho, wo, kh, kw, bg, g, c);
    hide Get, Added, Cell.Address, Cell.In, SumForAdd, SumStart, NramUsage, GroupsMultiplied, ChannelStride;
    LaneAddress(b, p, ho, wo, g, c);
    PixelRow(|m|, b, p, ho, wo);
    MultiplyKeeps(m, b, p, y, x, ho, wo, kh, kw, bg, row + lane);
    GetAdded(m1, row, SumStart(b, p), SumForAdd(b, p), row + lane);
  }

  method Step(nram: array<real>, b: Block, p: Shape, y: nat, x: nat, ho: nat, wo: nat, kh: nat, kw: nat, bg: nat)
    requires Ready(nram.Length, b, p) && bg <= b.g && OutputCell(ho, wo, 0, 0).In(b, p)
    requires InputCell(y, x, 0, 0).In(b, p) && MaskCell(ho, wo, 0, kh, kw).In(b, p)
    modifies nram
    ensures nram[..] == Stepped(old(nram[..]), b, p, y, x, ho, wo, kh, kw, bg)
  {
    hide Cell.Address, NramUsage, SumForAdd, SumStart, GroupsMultiplied, Added;
    PixelRow(nram.Length, b, p, ho, wo);
    MultiplyGroups(nram, b, p, y, x, ho, wo, kh, kw, bg);
    AddRun(nram, OutputCell(ho, wo, 0, 0).Address(b, p), SumStart(b, p), SumForAdd(b, p));
  }
}
