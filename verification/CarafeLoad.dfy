/**
 How the carafe forward kernel fills its private memory: strided copies of the mask and of the input with its border, as
 far as it is in the image, and zeros for the output.

 The main result (FillBlock): whatever private memory held before, a block's pixels end up with their elements of the
 output.
 */
module CarafeLoad {
  import opened Carafe
  import opened CarafeBlock
  import opened CarafeJobs
  import opened CarafeLayout
  import opened CarafeOperation
  import opened CarafeStep
  import opened Rounding

  // ----- Loading -----

  /** Element x of row y of layer z of a strided copy. */
  function Place(dst: int, layerStride: nat, rowStride: nat, z: nat, y: nat, x: nat): int {
    dst + layerStride * z + rowStride * y + x
  }

  predicate RowBefore(z: nat, y: nat, z': nat, y': nat) { z < z' || (z == z' && y < y') }

  /** Rows follow each other without overlap. */
  lemma PlacesInOrder(dst: int, layerStride: nat, rowStride: nat, size: nat, rows: nat, z: nat, y: nat, x: nat,
                      z': nat, y': nat)
    requires size <= rowStride && rowStride * rows <= layerStride && x < size && y < rows && RowBefore(z, y, z', y')
    ensures dst <= Place(dst, layerStride, rowStride, z, y, x) < Place(dst, layerStride, rowStride, z', y', 0)
  {
    MulMonotone(y + 1, rows, rowStride);
    MulMonotone(0, y', rowStride);
    MulMonotone(0, z, layerStride);
    MulMonotone(0, y, rowStride);
    if z < z' {
      MulMonotone(z + 1, z', layerStride);
    } else {
      MulMonotone(y + 1, y', rowStride);
    }
  }

  /** The rows before row y of layer z have been copied, and nothing else has changed but what follows from dst on. */
  ghost predicate Copied(m0: Memory, m: Memory, dst: int, layerStride: nat, rowStride: nat, size: nat, rows: nat,
                         src: (int, int, int) -> real, z: nat, y: nat, end: int) {
    && |m| == |m0|
    && (forall a | a < dst || end <= a :: Get(m, a) == Get(m0, a))
    && forall z': nat, y': nat, x: nat | RowBefore(z', y', z, y) && y' < rows && x < size ::
         Get(m, Place(dst, layerStride, rowStride, z', y', x)) == src(z', y', x)
  }

  /** Memory m with row y of layer z copied to a. */
  ghost predicate WithRow(m: Memory, m': Memory, a: int, size: nat, src: (int, int, int) -> real, z: nat, y: nat) {
    && |m'| == |m|
    && forall b: int :: Get(m', b) == if a <= b < a + size then src(z, y, b - a) else Get(m, b)
  }

  /** Copy one row. */
  method LoadRow(nram: array<real>, a: nat, size: nat, z: nat, y: nat, src: (int, int, int) -> real)
    requires a + size <= nram.Length
    modifies nram
    ensures WithRow(old(nram[..]), nram[..], a, size, src, z, y)
  {
    forall x | 0 <= x < size {
      nram[a + x] := src(z, y, x);
    }
    forall b: int
      ensures Get(nram[..], b) == if a <= b < a + size then src(z, y, b - a) else Get(old(nram[..]), b)
    {
      if a <= b < a + size {
        assert nram[a + (b - a)] == src(z, y, b - a);
      } else if 0 <= b < nram.Length {
        assert nram[b] == old(nram[b]) == old(nram[..])[b];
      }
    }
  }

  lemma PlaceOffset(dst: int, layerStride: nat, rowStride: nat, z: nat, y: nat, x: nat)
    ensures Place(dst, layerStride, rowStride, z, y, x) == Place(dst, layerStride, rowStride, z, y, 0) + x
  {
  }

  lemma NextCopied(m0: Memory, m: Memory, m': Memory, dst: int, layerStride: nat, rowStride: nat, size: nat, rows: nat,
                   src: (int, int, int) -> real, z: nat, y: nat, end: int)
    requires size <= rowStride && rowStride * rows <= layerStride && y < rows
    requires Copied(m0, m, dst, layerStride, rowStride, size, rows, src, z, y, end)
    requires var a := Place(dst, layerStride, rowStride, z, y, 0);
             dst <= a && a + size <= end && WithRow(m, m', a, size, src, z, y)
    ensures Copied(m0, m', dst, layerStride, rowStride, size, rows, src, z, y + 1, end)
  {
    hide Get, Place;
    var a := Place(dst, layerStride, rowStride, z, y, 0);
    forall z': nat, y': nat, x: nat | RowBefore(z', y', z, y + 1) && y' < rows && x < size
      ensures Get(m', Place(dst, layerStride, rowStride, z', y', x)) == src(z', y', x)
    {
      if RowBefore(z', y', z, y) {
        PlacesInOrder(dst, layerStride, rowStride, size, rows, z', y', x, z, y);
      } else {
        PlaceOffset(dst, layerStride, rowStride, z, y, x);
      }
    }
  }

  lemma RowEndsWithin(dst: int, layerStride: nat, rowStride: nat, size: nat, rows: nat, layers: nat, z: nat, y: nat)
    requires size <= rowStride && rowStride * rows <= layerStride && y < rows && z < layers
    ensures dst <= Place(dst, layerStride, rowStride, z, y, 0)
    ensures Place(dst, layerStride, rowStride, z, y, 0) + size <= dst + layerStride * layers
  {
    MulMonotone(y + 1, rows, rowStride);
    MulMonotone(z + 1, layers, layerStride);
    MulMonotone(0, z, layerStride);
    MulMonotone(0, y, rowStride);
  }

  /** A strided copy of layers of rows. */
  method Load3D(nram: array<real>, dst: nat, src: (int, int, int) -> real, size: nat, rows: nat, layers: nat,
                rowStride: nat, layerStride: nat)
    requires size <= rowStride && rowStride * rows <= layerStride && dst + layerStride * layers <= nram.Length
    modifies nram
    ensures Copied(old(nram[..]), nram[..], dst, layerStride, rowStride, size, rows, src, layers, 0,
                   dst + layerStride * layers)
  {
    ghost var m0, end := nram[..], dst + layerStride * layers;
    hide Get, Place;
    for z := 0 to layers
      invariant Copied(m0, nram[..], dst, layerStride, rowStride, size, rows, src, z, 0, end)
    {
      for y := 0 to rows
        invariant Copied(m0, nram[..], dst, layerStride, rowStride, size, rows, src, z, y, end)
      {
        ghost var m := nram[..];
        RowEndsWithin(dst, layerStride, rowStride, size, rows, layers, z, y);
        LoadRow(nram, Place(dst, layerStride, rowStride, z, y, 0), size, z, y, src);
        NextCopied(m0, m, nram[..], dst, layerStride, rowStride, size, rows, src, z, y, end);
      }
    }
  }

  /** Addresses of the mask as places of the copy. */
  lemma MaskPlaces(k: Plan, t: Part)
    requires k.Valid() && PartOk(k, t)
    ensures var (b, p, kk) := (k.b, k.p, k.p.kernel * k.p.kernel);
            && t.bg * kk <= MaskStrideW(b, p) && MaskStrideW(b, p) * (p.scale * t.bw) <= MaskStrideH(b, p)
            && MaskStart(b, p) + MaskStrideH(b, p) * (p.scale * t.bh) <= OutputStart(b, p)
  {
    var b, p, kk := k.b, k.p, k.p.kernel * k.p.kernel;
    hide MaskStart, Planned;
    MulMonotone(t.bg, b.g, kk);
    MulMonotone(t.bw, b.w, p.scale);
    MulMonotone(t.bh, b.h, p.scale);
    MulMonotone(p.scale * t.bw, p.scale * b.w, MaskStrideW(b, p));
    MulMonotone(p.scale * t.bh, p.scale * b.h, MaskStrideH(b, p));
    MaskPosition(b, p, 0, 0, 0, 0, 0);
    hide MaskStrideW, MaskStrideH, OutputStart, Cell.Address;
  }

  /** Place (kh, kw) of group g in a pixel's row of the mask. */
  function InRow(kernel: nat, g: nat, kh: nat, kw: nat): nat { kernel * kh + kw + kernel * kernel * g }

  lemma MaskPlace(b: Block, p: Shape, ho: nat, wo: nat, g: nat, kh: nat, kw: nat)
    requires p.Valid()
    ensures MaskCell(ho, wo, g, kh, kw).Address(b, p) ==
            Place(MaskStart(b, p), MaskStrideH(b, p), MaskStrideW(b, p), ho, wo, InRow(p.kernel, g, kh, kw))
  {
    hide MaskStart, MaskStrideH, MaskStrideW;
  }

  lemma InRowBelow(kernel: nat, g: nat, kh: nat, kw: nat, n: nat)
    requires kh < kernel && kw < kernel && g < n
    ensures InRow(kernel, g, kh, kw) < n * (kernel * kernel)
  {
    var kk := kernel * kernel;
    MulMonotone(kh + 1, kernel, kernel);
    assert kernel * kh + kernel == (kh + 1) * kernel;
    MulMonotone(g + 1, n, kk);
    assert (g + 1) * kk == kk * g + kk;
  }

  lemma WeightIs(kernel: nat, g0: nat, g: nat, kh: nat, kw: nat)
    ensures g0 * (kernel * kernel) + InRow(kernel, g, kh, kw) == Weight(kernel, g0 + g, kh, kw)
  {
    assert (g0 + g) * kernel * kernel == g0 * (kernel * kernel) + kernel * kernel * g;
  }

  lemma CopiedElsewhere(m0: Memory, m: Memory, dst: int, layerStride: nat, rowStride: nat, size: nat, rows: nat,
                        src: (int, int, int) -> real, layers: nat, end: int, a: int)
    requires Copied(m0, m, dst, layerStride, rowStride, size, rows, src, layers, 0, end) && (a < dst || end <= a)
    ensures Get(m, a) == Get(m0, a)
  {
  }

  /** The source of the copy of the mask. */
  ghost predicate FromMask(k: Plan, t: Part, src: (int, int, int) -> real) {
    forall z: int, y: int, x: int ::
      src(z, y, x) == k.mask(t.n, k.p.scale * t.h0 + z, k.p.scale * t.w0 + y, t.g0 * (k.p.kernel * k.p.kernel) + x)
  }

  ghost predicate MaskCopy(m0: Memory, m: Memory, k: Plan, t: Part, src: (int, int, int) -> real, end: int)
    requires k.Valid()
  {
    Copied(m0, m, MaskStart(k.b, k.p), MaskStrideH(k.b, k.p), MaskStrideW(k.b, k.p),
           t.bg * (k.p.kernel * k.p.kernel), k.p.scale * t.bw, src, k.p.scale * t.bh, 0, end)
  }

  lemma MaskCellCopied(m0: Memory, m: Memory, k: Plan, t: Part, src: (int, int, int) -> real, end: int,
                       ho: nat, wo: nat, g: nat, kh: nat, kw: nat)
    requires k.Valid() && MaskCopy(m0, m, k, t, src, end)
    requires ho < k.p.scale * t.bh && wo < k.p.scale * t.bw && g < t.bg && kh < k.p.kernel && kw < k.p.kernel
    ensures Held(m, MaskCell(ho, wo, g, kh, kw), k.b, k.p) == src(ho, wo, InRow(k.p.kernel, g, kh, kw))
  {
    hide Get, Place, Copied, Cell.Address, MaskStart, MaskStrideH, MaskStrideW, InRow, Planned;
    MaskPlace(k.b, k.p, ho, wo, g, kh, kw);
    InRowBelow(k.p.kernel, g, kh, kw, t.bg);
    CopiedAt(m0, m, MaskStart(k.b, k.p), MaskStrideH(k.b, k.p), MaskStrideW(k.b, k.p),
             t.bg * (k.p.kernel * k.p.kernel), k.p.scale * t.bw, src, k.p.scale * t.bh, end,
             ho, wo, InRow(k.p.kernel, g, kh, kw));
  }

  lemma MaskCopied(m0: Memory, m: Memory, k: Plan, t: Part, src: (int, int, int) -> real, end: int)
    requires k.Valid() && MaskCopy(m0, m, k, t, src, end) && FromMask(k, t, src)
    ensures MaskLoaded(m, k, t)
  {
    hide Held, MaskCopy, Weight, InRow, Planned;
    forall ho, wo, g, kh, kw |
      0 <= ho < k.p.scale * t.bh && 0 <= wo < k.p.scale * t.bw && 0 <= g < t.bg && 0 <= kh < k.p.kernel &&
      0 <= kw < k.p.kernel
      ensures Held(m, MaskCell(ho, wo, g, kh, kw), k.b, k.p) ==
              k.mask(t.n, k.p.scale * t.h0 + ho, k.p.scale * t.w0 + wo, Weight(k.p.kernel, t.g0 + g, kh, kw))
    {
      MaskCellCopied(m0, m, k, t, src, end, ho, wo, g, kh, kw);
      WeightIs(k.p.kernel, t.g0, g, kh, kw);
    }
  }

  lemma CopiedAt(m0: Memory, m: Memory, dst: int, layerStride: nat, rowStride: nat, size: nat, rows: nat,
                 src: (int, int, int) -> real, layers: nat, end: int, z: nat, y: nat, x: nat)
    requires Copied(m0, m, dst, layerStride, rowStride, size, rows, src, layers, 0, end)
    requires z < layers && y < rows && x < size
    ensures Get(m, Place(dst, layerStride, rowStride, z, y, x)) == src(z, y, x)
  {
    hide Get, Place;
    assert RowBefore(z, y, layers, 0);
  }

  method LoadMask(nram: array<real>, k: Plan, t: Part)
    requires k.Valid() && PartOk(k, t) && Ready(nram.Length, k.b, k.p)
    modifies nram
    ensures MaskLoaded(nram[..], k, t)
  {
    var kk := k.p.kernel * k.p.kernel;
    var src := (z: int, y: int, x: int) => k.mask(t.n, k.p.scale * t.h0 + z, k.p.scale * t.w0 + y, t.g0 * kk + x);
    ghost var m0 := nram[..];
    MaskPlaces(k, t);
    BuffersInOrder(k.b, k.p);
    HostCounts(k.b, k.p);
    hide MaskStart, MaskStrideH, MaskStrideW, OutputStart, SumStart, NramUsage, SumSize, SumForAdd, ChannelStride;
    hide CeilAlign, Planned, PartOk;
    Load3D(nram, MaskStart(k.b, k.p), src, t.bg * kk, k.p.scale * t.bw, k.p.scale * t.bh, MaskStrideW(k.b, k.p),
           MaskStrideH(k.b, k.p));
    MaskCopied(m0, nram[..], k, t, src, MaskStart(k.b, k.p) + MaskStrideH(k.b, k.p) * (k.p.scale * t.bh));
  }

  /** A row of the loaded input is in the image exactly between the first and the last. */
  lemma LoadedExactly(kernel: nat, dim: nat, x0: nat, n: nat)
    requires kernel % 2 == 1 && 1 <= n && x0 + n <= dim
    ensures var half: nat := (kernel - 1) / 2;
            var (first, last) := (FirstLoaded(half, x0), LastLoaded(kernel, half, dim, x0, n));
            && 0 <= x0 - half + first && first <= last < n + kernel - 1
            && forall y: nat | y < n + kernel - 1 :: 0 <= Under(half, x0, y) < dim <==> first <= y <= last
  {
    assert kernel == 2 * ((kernel - 1) / 2) + 1;
  }

  /** The rows of the input below row `upTo` have been loaded, from column firstW to lastW. */
  ghost predicate RowsLoaded(m: Memory, k: Plan, t: Part, firstH: nat, upTo: int, firstW: nat, lastW: int)
    requires k.Valid()
  {
    forall y: nat, x: nat, g, c | firstH <= y < upTo && firstW <= x <= lastW && 0 <= g < t.bg && 0 <= c < t.bc ::
      Held(m, InputCell(y, x, g, c), k.b, k.p) ==
      k.input(t.n, Under(k.Half(), t.h0, y), Under(k.Half(), t.w0, x), t.Channel(g, c))
  }

  lemma RowsAreInput(m: Memory, k: Plan, t: Part, firstH: nat, lastH: int, firstW: nat, lastW: int)
    requires k.Valid() && PartOk(k, t)
    requires firstH == FirstLoaded(k.Half(), t.h0) && lastH == LastLoaded(k.p.kernel, k.Half(), k.i.h, t.h0, t.bh)
    requires firstW == FirstLoaded(k.Half(), t.w0) && lastW == LastLoaded(k.p.kernel, k.Half(), k.i.w, t.w0, t.bw)
    requires RowsLoaded(m, k, t, firstH, lastH + 1, firstW, lastW)
    ensures InputLoaded(m, k, t)
  {
    LoadedExactly(k.p.kernel, k.i.h, t.h0, t.bh);
    LoadedExactly(k.p.kernel, k.i.w, t.w0, t.bw);
    hide Held, Planned, PartOk, FirstLoaded, LastLoaded, Part.Channel;
    forall y, x, g, c |
      && 0 <= y < t.bh + k.p.kernel - 1 && 0 <= x < t.bw + k.p.kernel - 1 && 0 <= g < t.bg && 0 <= c < t.bc
      && 0 <= t.h0 - k.Half() + y < k.i.h && 0 <= t.w0 - k.Half() + x < k.i.w
      ensures Held(m, InputCell(y, x, g, c), k.b, k.p) ==
              k.input(t.n, t.h0 - k.Half() + y, t.w0 - k.Half() + x, t.Channel(g, c))
    {
      assert 0 <= Under(k.Half(), t.h0, y) < k.i.h && 0 <= Under(k.Half(), t.w0, x) < k.i.w;
    }
  }

  /** Cells of the input as places of the copy of a row. */
  lemma InputPlace(b: Block, p: Shape, y: nat, x0: nat, x: nat, g: nat, c: nat)
    requires p.Valid()
    ensures InputCell(y, x0 + x, g, c).Address(b, p) ==
            Place(InputCell(y, x0, 0, 0).Address(b, p), InputStrideW(b, p), ChannelStride(b, p), x, g, c)
  {
    hide InputStrideH, InputStrideW, ChannelStride;
    assert InputStrideW(b, p) * (x0 + x) == InputStrideW(b, p) * x0 + InputStrideW(b, p) * x;
  }

  /** Rows of the input follow each other, and the mask them. */
  lemma InputRows(b: Block, p: Shape, y: nat, x0: nat, n: nat)
    requires p.Valid() && y < b.h + p.kernel - 1 && x0 + n <= b.w + p.kernel - 1
    ensures var row := InputCell(y, x0, 0, 0).Address(b, p);
            && 0 <= InputStrideH(b, p) * y <= row
            && row + InputStrideW(b, p) * n <= InputStrideH(b, p) * (y + 1) <= MaskStart(b, p)
  {
    hide InputStrideW;
    MulMonotone(x0 + n, b.w + p.kernel - 1, InputStrideW(b, p));
    MulMonotone(0, x0, InputStrideW(b, p));
    assert InputStrideW(b, p) * (x0 + n) == InputStrideW(b, p) * x0 + InputStrideW(b, p) * n;
    var h := InputStrideH(b, p);
    assert h == (b.w + p.kernel - 1) * InputStrideW(b, p);
    hide InputStrideH;
    MulMonotone(y + 1, b.h + p.kernel - 1, h);
    MulMonotone(0, y, h);
  }

  lemma InputBelow(b: Block, p: Shape, y: nat, x: nat, g: nat, c: nat)
    requires p.Valid() && InputCell(y, x, g, c).In(b, p)
    ensures InputCell(y, x, g, c).Address(b, p) < InputStrideH(b, p) * (y + 1)
  {
    StrideCovers(b, p);
    LaneWithin(b, p, g, c);
    hide ChannelStride, InputStrideW;
    MulMonotone(x + 1, b.w + p.kernel - 1, InputStrideW(b, p));
    assert InputStrideW(b, p) * (x + 1) == InputStrideW(b, p) * x + InputStrideW(b, p);
    assert InputStrideH(b, p) == (b.w + p.kernel - 1) * InputStrideW(b, p);
    hide InputStrideH;
    assert InputStrideH(b, p) * (y + 1) == InputStrideH(b, p) * y + InputStrideH(b, p);
  }

  /** The source of the copy of row y. */
  ghost predicate FromInput(k: Plan, t: Part, y: nat, firstW: nat, src: (int, int, int) -> real)
    requires k.Valid()
  {
    forall z: int, g: int, c: int ::
      src(z, g, c) ==
      k.input(t.n, Under(k.Half(), t.h0, y), Under(k.Half(), t.w0, firstW) + z, t.c0 + g * t.bc + c)
  }

  ghost predicate RowCopy(m0: Memory, m: Memory, k: Plan, t: Part, y: nat, x0: nat, n: nat,
                          src: (int, int, int) -> real)
    requires k.Valid()
  {
    var row, strideW := InputCell(y, x0, 0, 0).Address(k.b, k.p), InputStrideW(k.b, k.p);
    Copied(m0, m, row, strideW, ChannelStride(k.b, k.p), t.bc, t.bg, src, n, 0, row + strideW * n)
  }

  /** A row that has been copied holds the input. */
  lemma RowCellCopied(m0: Memory, m: Memory, k: Plan, t: Part, y: nat, x0: nat, n: nat, src: (int, int, int) -> real,
                      x: nat, g: nat, c: nat)
    requires k.Valid() && RowCopy(m0, m, k, t, y, x0, n, src) && FromInput(k, t, y, x0, src)
    requires x < n && g < t.bg && c < t.bc
    ensures Held(m, InputCell(y, x0 + x, g, c), k.b, k.p) ==
            k.input(t.n, Under(k.Half(), t.h0, y), Under(k.Half(), t.w0, x0 + x), t.Channel(g, c))
  {
    hide Get, Place, Copied, Cell.Address, InputStrideW, ChannelStride, Planned, Plan.Half;
    var row, strideW := InputCell(y, x0, 0, 0).Address(k.b, k.p), InputStrideW(k.b, k.p);
    InputPlace(k.b, k.p, y, x0, x, g, c);
    CopiedAt(m0, m, row, strideW, ChannelStride(k.b, k.p), t.bc, t.bg, src, n, row + strideW * n, x, g, c);
    assert src(x, g, c) ==
           k.input(t.n, Under(k.Half(), t.h0, y), Under(k.Half(), t.w0, x0) + x, t.c0 + g * t.bc + c);
  }

  /** Copying a row leaves the rows before it and the mask alone. */
  lemma RowCopyKeeps(m0: Memory, m: Memory, k: Plan, t: Part, y: nat, x0: nat, n: nat, src: (int, int, int) -> real,
                     cell: Cell)
    requires k.Valid() && RowCopy(m0, m, k, t, y, x0, n, src)
    requires y < k.b.h + k.p.kernel - 1 && x0 + n <= k.b.w + k.p.kernel - 1 && cell.In(k.b, k.p)
    requires cell.MaskCell? || (cell.InputCell? && cell.y < y)
    ensures Held(m, cell, k.b, k.p) == Held(m0, cell, k.b, k.p)
  {
    hide Get, Place, Copied, Cell.Address, InputStrideW, InputStrideH, ChannelStride, Planned, MaskStart, OutputStart;
    InputRows(k.b, k.p, y, x0, n);
    if cell.MaskCell? {
      CellInBuffer(cell, k.b, k.p);
    } else {
      InputBelow(k.b, k.p, cell.y, cell.x, cell.g, cell.c);
      MulMonotone(cell.y + 1, y, InputStrideH(k.b, k.p));
    }
    var row, strideW := InputCell(y, x0, 0, 0).Address(k.b, k.p), InputStrideW(k.b, k.p);
    CopiedElsewhere(m0, m, row, strideW, ChannelStride(k.b, k.p), t.bc, t.bg, src, n, row + strideW * n,
                    cell.Address(k.b, k.p));
  }

  lemma NextRowLoaded(m0: Memory, m: Memory, k: Plan, t: Part, y: nat, firstH: nat, firstW: nat, lastW: int,
                      src: (int, int, int) -> real)
    requires k.Valid() && PartOk(k, t) && firstW <= lastW < t.bw + k.p.kernel - 1 && y < t.bh + k.p.kernel - 1
    requires RowCopy(m0, m, k, t, y, firstW, lastW - firstW + 1, src) && FromInput(k, t, y, firstW, src)
    requires MaskLoaded(m0, k, t) && firstH <= y && RowsLoaded(m0, k, t, firstH, y, firstW, lastW)
    ensures MaskLoaded(m, k, t) && RowsLoaded(m, k, t, firstH, y + 1, firstW, lastW)
  {
    hide Held, RowCopy, FromInput, Planned, Part.Channel, Plan.Half, Under, Weight;
    var n := lastW - firstW + 1;
    forall y': nat, x: nat, g, c | firstH <= y' < y + 1 && firstW <= x <= lastW && 0 <= g < t.bg && 0 <= c < t.bc
      ensures Held(m, InputCell(y', x, g, c), k.b, k.p) ==
              k.input(t.n, Under(k.Half(), t.h0, y'), Under(k.Half(), t.w0, x), t.Channel(g, c))
    {
      if y' < y {
        RowCopyKeeps(m0, m, k, t, y, firstW, n, src, InputCell(y', x, g, c));
      } else {
        RowCellCopied(m0, m, k, t, y, firstW, n, src, x - firstW, g, c);
      }
    }
    MulMonotone(t.bh, k.b.h, k.p.scale);
    MulMonotone(t.bw, k.b.w, k.p.scale);
    forall ho, wo, g, kh, kw |
      0 <= ho < k.p.scale * t.bh && 0 <= wo < k.p.scale * t.bw && 0 <= g < t.bg && 0 <= kh < k.p.kernel &&
      0 <= kw < k.p.kernel
      ensures Held(m, MaskCell(ho, wo, g, kh, kw), k.b, k.p) == Held(m0, MaskCell(ho, wo, g, kh, kw), k.b, k.p)
    {
      RowCopyKeeps(m0, m, k, t, y, firstW, n, src, MaskCell(ho, wo, g, kh, kw));
    }
  }

  /** Load one row of the block's input with its border, columns firstW to lastW. */
  method LoadInputRow(nram: array<real>, k: Plan, t: Part, y: nat, srcRow: int, srcColumn: int,
                      firstH: nat, firstW: nat, lastW: int)
    requires k.Valid() && PartOk(k, t) && Ready(nram.Length, k.b, k.p)
    requires firstW <= lastW < t.bw + k.p.kernel - 1 && firstH <= y < t.bh + k.p.kernel - 1
    requires srcRow == Under(k.Half(), t.h0, y) && srcColumn == Under(k.Half(), t.w0, firstW)
    requires MaskLoaded(nram[..], k, t) && RowsLoaded(nram[..], k, t, firstH, y, firstW, lastW)
    modifies nram
    ensures MaskLoaded(nram[..], k, t) && RowsLoaded(nram[..], k, t, firstH, y + 1, firstW, lastW)
  {
    var n: nat := lastW - firstW + 1;
    var src := (z: int, g: int, c: int) => k.input(t.n, srcRow, srcColumn + z, t.c0 + g * t.bc + c);
    ghost var m0 := nram[..];
    BlockSizes(k, t);
    InputRows(k.b, k.p, y, firstW, n);
    RunCovers(k.b, k.p);
    MulMonotone(t.bg, k.b.g, ChannelStride(k.b, k.p));
    BuffersInOrder(k.b, k.p);
    HostCounts(k.b, k.p);
    hide Cell.Address, InputStrideH, MaskStart, OutputStart, SumStart, NramUsage, SumSize, SumForAdd, ChannelStride;
    hide Planned, MaskLoaded, RowsLoaded, PartOk, Copied;
    Load3D(nram, InputCell(y, firstW, 0, 0).Address(k.b, k.p), src, t.bc, t.bg, n, ChannelStride(k.b, k.p),
           InputStrideW(k.b, k.p));
    assert FromInput(k, t, y, firstW, src);
    NextRowLoaded(m0, nram[..], k, t, y, firstH, firstW, lastW, src);
  }

  /** Load the block's input with its border, as far as it is in the image. */
  method LoadInput(nram: array<real>, k: Plan, t: Part) returns (firstH: nat, lastH: int, firstW: nat, lastW: int)
    requires k.Valid() && PartOk(k, t) && Ready(nram.Length, k.b, k.p) && MaskLoaded(nram[..], k, t)
    modifies nram
    ensures Loaded(nram[..], k, t)
    ensures firstH == FirstLoaded(k.Half(), t.h0) && lastH == LastLoaded(k.p.kernel, k.Half(), k.i.h, t.h0, t.bh)
    ensures firstW == FirstLoaded(k.Half(), t.w0) && lastW == LastLoaded(k.p.kernel, k.Half(), k.i.w, t.w0, t.bw)
  {
    PartFits(k, t);
    LoadedExactly(k.p.kernel, k.i.h, t.h0, t.bh);
    LoadedExactly(k.p.kernel, k.i.w, t.w0, t.bw);
    hide Planned, PartOk, Ready, MaskLoaded, RowsLoaded;
    var i0: int := t.h0 - k.Half();
    firstH := 0;
    var srcRow := i0;
    if i0 < 0 {
      firstH := -i0;
      srcRow := 0;
    }
    var i1 := t.h0 + t.bh - 1 + k.Half();
    lastH := t.bh + k.p.kernel - 2;
    if i1 > k.i.h - 1 {
      lastH := t.bh + k.p.kernel - 2 - (i1 - (k.i.h - 1));
    }
    var j0: int := t.w0 - k.Half();
    firstW := 0;
    var srcColumn := j0;
    if j0 < 0 {
      firstW := -j0;
      srcColumn := 0;
    }
    var j1 := t.w0 + t.bw - 1 + k.Half();
    lastW := t.bw + k.p.kernel - 2;
    if j1 > k.i.w - 1 {
      lastW := t.bw + k.p.kernel - 2 - (j1 - (k.i.w - 1));
    }
    assert RowsLoaded(nram[..], k, t, firstH, firstH, firstW, lastW) by {
      NoRowsYet(nram[..], k, t, firstH, firstW, lastW);
    }
    for i := 0 to lastH - firstH + 1
      invariant MaskLoaded(nram[..], k, t) && RowsLoaded(nram[..], k, t, firstH, firstH + i, firstW, lastW)
    {
      LoadInputRow(nram, k, t, firstH + i, srcRow + i, srcColumn, firstH, firstW, lastW);
    }
    RowsAreInput(nram[..], k, t, firstH, lastH, firstW, lastW);
  }

  lemma NoRowsYet(m: Memory, k: Plan, t: Part, firstH: nat, firstW: nat, lastW: int)
    requires k.Valid()
    ensures RowsLoaded(m, k, t, firstH, firstH, firstW, lastW)
  {
  }

  /** Write zeros from a on. */
  method WriteZeros(nram: array<real>, a: nat, n: nat)
    requires a + n <= nram.Length
    modifies nram
    ensures forall c: int :: Get(nram[..], c) == if a <= c < a + n then 0.0 else Get(old(nram[..]), c)
  {
    forall c | a <= c < a + n {
      nram[c] := 0.0;
    }
    forall c: int ensures Get(nram[..], c) == if a <= c < a + n then 0.0 else Get(old(nram[..]), c) {
      if 0 <= c < nram.Length {
        assert old(nram[..])[c] == old(nram[c]) && nram[..][c] == nram[c];
      }
    }
  }

  /** With the output zeroed no pixel is done, and all are blank. */
  lemma ZerosAreBlank(m0: Memory, m: Memory, k: Plan, t: Part)
    requires k.Valid() && PartOk(k, t) && Loaded(m0, k, t)
    requires var (a, end) := (OutputStart(k.b, k.p), SumStart(k.b, k.p));
             forall c: int :: Get(m, c) == if a <= c < end then 0.0 else Get(m0, c)
    ensures PixelsDone(m, k, t, 0, 0, 0, 0)
  {
    MulMonotone(t.bh, k.b.h, k.p.scale);
    MulMonotone(t.bw, k.b.w, k.p.scale);
    BuffersInOrder(k.b, k.p);
    hide Get, Planned, Cell.Address, OutputStart, SumStart, MaskStart, Part.Channel, Weight, Plan.Half;
    forall cell: Cell | cell.In(k.b, k.p) && (cell.InputCell? || cell.MaskCell?)
      ensures Held(m, cell, k.b, k.p) == Held(m0, cell, k.b, k.p)
    {
      CellInBuffer(cell, k.b, k.p);
    }
    forall cell: Cell | cell.In(k.b, k.p) && cell.OutputCell? ensures Held(m, cell, k.b, k.p) == 0.0 {
      CellInBuffer(cell, k.b, k.p);
    }
    hide Held;
    BlankStart(m0, m, k, t);
  }

  lemma StaysLoaded(m0: Memory, m: Memory, k: Plan, t: Part)
    requires k.Valid() && PartOk(k, t) && Loaded(m0, k, t)
    requires forall cell: Cell | cell.In(k.b, k.p) && (cell.InputCell? || cell.MaskCell?) ::
               Held(m, cell, k.b, k.p) == Held(m0, cell, k.b, k.p)
    ensures Loaded(m, k, t)
  {
    MulMonotone(t.bh, k.b.h, k.p.scale);
    MulMonotone(t.bw, k.b.w, k.p.scale);
    hide Held, Planned, Part.Channel, Weight, Plan.Half;
    assert MaskLoaded(m, k, t) by {
      hide InputLoaded;
    }
    hide MaskLoaded;
  }

  lemma BlankPixel(m: Memory, k: Plan, t: Part, ho: nat, wo: nat)
    requires k.Valid() && PartOk(k, t) && ho < k.p.scale * t.bh && wo < k.p.scale * t.bw
    requires forall cell: Cell | cell.In(k.b, k.p) && cell.OutputCell? :: Held(m, cell, k.b, k.p) == 0.0
    ensures Blank(m, k, t, ho, wo)
  {
    MulMonotone(t.bh, k.b.h, k.p.scale);
    MulMonotone(t.bw, k.b.w, k.p.scale);
    hide Held, Planned, Part.Channel, Plan.Half;
  }

  lemma BlankStart(m0: Memory, m: Memory, k: Plan, t: Part)
    requires k.Valid() && PartOk(k, t) && Loaded(m0, k, t)
    requires forall cell: Cell | cell.In(k.b, k.p) && (cell.InputCell? || cell.MaskCell?) ::
               Held(m, cell, k.b, k.p) == Held(m0, cell, k.b, k.p)
    requires forall cell: Cell | cell.In(k.b, k.p) && cell.OutputCell? :: Held(m, cell, k.b, k.p) == 0.0
    ensures PixelsDone(m, k, t, 0, 0, 0, 0)
  {
    hide Held, Planned, Loaded, Blank, PartOk, Cell.In, Before;
    StaysLoaded(m0, m, k, t);
    forall ho, wo | 0 <= ho < k.p.scale * t.bh && 0 <= wo < k.p.scale * t.bw
      ensures !Before(k.p.scale, 0, 0, 0, 0, ho, wo) && Blank(m, k, t, ho, wo)
    {
      NoneBefore(k.p.scale, ho, wo);
      BlankPixel(m, k, t, ho, wo);
    }
  }

  lemma NoneBefore(scale: nat, ho: nat, wo: nat)
    requires 0 < scale
    ensures !Before(scale, 0, 0, 0, 0, ho, wo)
  {
  }

  /** Load a job's block and compute it. */
  method FillBlock(nram: array<real>, k: Plan, t: Part)
    requires k.Valid() && PartOk(k, t) && Ready(nram.Length, k.b, k.p)
    modifies nram
    ensures forall ho, wo | 0 <= ho < k.p.scale * t.bh && 0 <= wo < k.p.scale * t.bw :: Done(nram[..], k, t, ho, wo)
  {
    hide Planned, PartOk, Loaded, MaskLoaded, FirstLoaded, LastLoaded, PixelsDone, Done;
    LoadMask(nram, k, t);
    var firstH, lastH, firstW, lastW := LoadInput(nram, k, t);
    ghost var m0 := nram[..];
    BuffersInOrder(k.b, k.p);
    HostCounts(k.b, k.p);
    hide MaskStart, OutputStart, SumStart, NramUsage, SumSize, SumForAdd, CeilAlign, ChannelStride, Get;
    WriteZeros(nram, OutputStart(k.b, k.p), SumStart(k.b, k.p) - OutputStart(k.b, k.p));
    ZerosAreBlank(m0, nram[..], k, t);
    ComputeBlock(nram, k, t, firstH, lastH, firstW, lastW);
    AllDone(nram[..], k, t);
  }

  lemma AllDone(m: Memory, k: Plan, t: Part)
    requires k.Valid() && PixelsDone(m, k, t, t.bh, 0, 0, 0)
    ensures forall ho, wo | 0 <= ho < k.p.scale * t.bh && 0 <= wo < k.p.scale * t.bw :: Done(m, k, t, ho, wo)
  {
    hide Done, Blank, Loaded, Planned;
    forall ho, wo | 0 <= ho < k.p.scale * t.bh && 0 <= wo < k.p.scale * t.bw ensures Done(m, k, t, ho, wo) {
      DivBelow(ho, k.p.scale, t.bh);
    }
  }
}
