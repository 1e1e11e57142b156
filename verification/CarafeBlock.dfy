/**
 The loops of the carafe forward kernel over the pixels of a block and the window of each.

 The main result (ComputeBlock): if the input, its border and the mask are loaded and the output is blank, the loops
 leave in every pixel and channel the element of the output it is. The window is cut to what is in the image; the loop
 bounds the kernel takes from its loads do exactly that (WindowExactly).
 */
module CarafeBlock {
  import opened Carafe
  import opened CarafeJobs
  import opened CarafeLayout
  import opened CarafeOperation
  import opened CarafeStep
  import opened Rounding

  // ----- The block of one job -----

  /** What the kernel is called with. */
  datatype Plan = Plan(i: Input, p: Shape, grid: Grid, b: Block, input: Tensor, mask: Tensor) {
    predicate Valid() { i.Valid() && p.Valid() && Planned(i, p, grid, b) && p.kernel % 2 == 1 }

    /** Half the window without its centre. */
    function Half(): nat requires Valid() { (p.kernel - 1) / 2 }
  }

  /** A job's sample, where its block starts, and how far it goes. */
  datatype Part = Part(n: nat, h0: nat, w0: nat, g0: nat, c0: nat, bh: nat, bw: nat, bg: nat, bc: nat) {
    function Channel(g: nat, c: nat): nat { c0 + g * bc + c }
  }

  /** The block lies in the output, and channels are those of their groups. */
  predicate PartOk(k: Plan, t: Part) {
    && t.n < k.i.n && 1 <= t.bh <= k.b.h && 1 <= t.bw <= k.b.w && 1 <= t.bg <= k.b.g && 1 <= t.bc <= k.b.c
    && t.h0 + t.bh <= k.i.h && t.w0 + t.bw <= k.i.w && t.g0 + t.bg <= k.i.groups && 1 <= k.i.perGroup
    && forall g, c | 0 <= g < t.bg && 0 <= c < t.bc ::
         Quotient(t.Channel(g, c), k.i.perGroup) == t.g0 + g && t.Channel(g, c) < k.i.groups * k.i.perGroup
  }

  /** The element of the output that channel c of group g of the block's pixel (ho, wo) is. */
  function SiteOf(k: Plan, t: Part, ho: nat, wo: nat, g: nat, c: nat): Site {
    Site(k.i, k.p, k.input, k.mask, t.n, k.p.scale * t.h0 + ho, k.p.scale * t.w0 + wo, t.Channel(g, c))
  }

  /** What lies under place k of the window around a place, along one direction. */
  function Under(half: nat, at: nat, k: nat): int { at - half + k }

  /** The part of the window that is in the image, along one direction. */
  predicate InWindow(half: nat, kernel: nat, dim: nat, at: nat, lo: nat, hi: nat) {
    && lo <= hi <= kernel
    && forall k: nat | k < kernel :: lo <= k < hi <==> 0 <= Under(half, at, k) < dim
  }

  /** The mask of the block is in private memory. */
  ghost predicate MaskLoaded(m: Memory, k: Plan, t: Part)
    requires k.Valid()
  {
    forall ho, wo, g, kh, kw |
      0 <= ho < k.p.scale * t.bh && 0 <= wo < k.p.scale * t.bw && 0 <= g < t.bg && 0 <= kh < k.p.kernel &&
      0 <= kw < k.p.kernel ::
      Held(m, MaskCell(ho, wo, g, kh, kw), k.b, k.p) ==
      k.mask(t.n, k.p.scale * t.h0 + ho, k.p.scale * t.w0 + wo, Weight(k.p.kernel, t.g0 + g, kh, kw))
  }

  /** So is the input of the block and its border, as far as it is in the image. */
  ghost predicate InputLoaded(m: Memory, k: Plan, t: Part)
    requires k.Valid()
  {
    forall y, x, g, c |
      && 0 <= y < t.bh + k.p.kernel - 1 && 0 <= x < t.bw + k.p.kernel - 1 && 0 <= g < t.bg && 0 <= c < t.bc
      && 0 <= t.h0 - k.Half() + y < k.i.h && 0 <= t.w0 - k.Half() + x < k.i.w ::
      Held(m, InputCell(y, x, g, c), k.b, k.p) ==
      k.input(t.n, t.h0 - k.Half() + y, t.w0 - k.Half() + x, t.Channel(g, c))
  }

  ghost predicate Loaded(m: Memory, k: Plan, t: Part)
    requires k.Valid()
  {
    MaskLoaded(m, k, t) && InputLoaded(m, k, t)
  }

  /** Work on a pixel keeps what is loaded. */
  lemma PixelKeepsLoaded(m: Memory, m': Memory, k: Plan, t: Part, ho: nat, wo: nat)
    requires k.Valid() && PartOk(k, t) && Loaded(m, k, t) && OnlyPixel(m, m', k.b, k.p, ho, wo)
    ensures Loaded(m', k, t)
  {
    hide Held;
    MulMonotone(t.bh, k.b.h, k.p.scale);
    MulMonotone(t.bw, k.b.w, k.p.scale);
  }

  /** A pixel of the block: i rows and j columns into what row h and column w of the input grow to. */
  predicate PixelAt(k: Plan, t: Part, h: nat, w: nat, ho: nat, wo: nat)
    requires k.Valid()
  {
    && h < t.bh && k.p.scale * h <= ho < k.p.scale * h + k.p.scale
    && w < t.bw && k.p.scale * w <= wo < k.p.scale * w + k.p.scale
  }

  lemma PixelIn(k: Plan, t: Part, h: nat, w: nat, ho: nat, wo: nat)
    requires k.Valid() && PartOk(k, t) && PixelAt(k, t, h, w, ho, wo)
    ensures h < t.bh && ho < k.p.scale * t.bh <= k.p.scale * k.b.h
    ensures w < t.bw && wo < k.p.scale * t.bw <= k.p.scale * k.b.w
    ensures Quotient(k.p.scale * t.h0 + ho, k.p.scale) == t.h0 + h
    ensures Quotient(k.p.scale * t.w0 + wo, k.p.scale) == t.w0 + w
  {
    GrownIn(k.p.scale, t.h0, h, t.bh, k.b.h, ho);
    GrownIn(k.p.scale, t.w0, w, t.bw, k.b.w, wo);
  }

  lemma GrownIn(scale: nat, x0: nat, x: nat, n: nat, most: nat, xo: nat)
    requires 0 < scale && x < n <= most && scale * x <= xo < scale * x + scale
    ensures xo < scale * n <= scale * most && Quotient(scale * x0 + xo, scale) == x0 + x
  {
    MulMonotone(n, most, scale);
    MulMonotone(x + 1, n, scale);
    assert scale * x0 + xo == (x0 + x) * scale + (xo - scale * x);
    DivModUnique(scale * x0 + xo, scale, x0 + x, xo - scale * x);
  }

  /** What a step adds is the site's term. */
  lemma TermIs(m: Memory, k: Plan, t: Part, h: nat, w: nat, ho: nat, wo: nat, kh: nat, kw: nat, g: nat, c: nat)
    requires k.Valid() && PartOk(k, t) && Loaded(m, k, t) && PixelAt(k, t, h, w, ho, wo)
    requires kh < k.p.kernel && kw < k.p.kernel && g < t.bg && c < t.bc
    requires 0 <= Under(k.Half(), t.h0 + h, kh) < k.i.h && 0 <= Under(k.Half(), t.w0 + w, kw) < k.i.w
    ensures SiteOf(k, t, ho, wo, g, c).Valid()
    ensures Held(m, InputCell(h + kh, w + kw, g, c), k.b, k.p) * Held(m, MaskCell(ho, wo, g, kh, kw), k.b, k.p) ==
            SiteOf(k, t, ho, wo, g, c).Term(kh, kw)
  {
    hide MaskLoaded, InputLoaded, Held, Quotient, PixelAt, PartOk, Site.Row, Site.Column, Weight, Plan.Half;
    hide Planned, Part.Channel;
    SiteAt(k, t, h, w, ho, wo, g, c);
    PixelIn(k, t, h, w, ho, wo);
    var s := SiteOf(k, t, ho, wo, g, c);
    assert s.Row(kh) == Under(k.Half(), t.h0 + h, kh) && s.Column(kw) == Under(k.Half(), t.w0 + w, kw);
    InputHeld(m, k, t, h + kh, w + kw, g, c);
    MaskHeld(m, k, t, ho, wo, g, kh, kw);
  }

  lemma InputHeld(m: Memory, k: Plan, t: Part, y: nat, x: nat, g: nat, c: nat)
    requires k.Valid() && InputLoaded(m, k, t)
    requires y < t.bh + k.p.kernel - 1 && x < t.bw + k.p.kernel - 1 && g < t.bg && c < t.bc
    requires 0 <= t.h0 - k.Half() + y < k.i.h && 0 <= t.w0 - k.Half() + x < k.i.w
    ensures Held(m, InputCell(y, x, g, c), k.b, k.p) ==
            k.input(t.n, t.h0 - k.Half() + y, t.w0 - k.Half() + x, t.Channel(g, c))
  {
    hide Held, Planned, Part.Channel;
  }

  lemma MaskHeld(m: Memory, k: Plan, t: Part, ho: nat, wo: nat, g: nat, kh: nat, kw: nat)
    requires k.Valid() && MaskLoaded(m, k, t)
    requires ho < k.p.scale * t.bh && wo < k.p.scale * t.bw && g < t.bg && kh < k.p.kernel && kw < k.p.kernel
    ensures Held(m, MaskCell(ho, wo, g, kh, kw), k.b, k.p) ==
            k.mask(t.n, k.p.scale * t.h0 + ho, k.p.scale * t.w0 + wo, Weight(k.p.kernel, t.g0 + g, kh, kw))
  {
    hide Held, Planned;
  }

  /** The window of a site, in terms of the block. */
  lemma SiteAt(k: Plan, t: Part, h: nat, w: nat, ho: nat, wo: nat, g: nat, c: nat)
    requires k.Valid() && PartOk(k, t) && PixelAt(k, t, h, w, ho, wo) && g < t.bg && c < t.bc
    ensures var s := SiteOf(k, t, ho, wo, g, c);
            && s.Valid() && Quotient(s.ch, s.i.perGroup) == t.g0 + g
            && (forall kh: nat :: s.Row(kh) == Under(k.Half(), t.h0 + h, kh))
            && (forall kw: nat :: s.Column(kw) == Under(k.Half(), t.w0 + w, kw))
  {
    PixelIn(k, t, h, w, ho, wo);
    hide Part.Channel, Planned, PixelAt;
    assert Quotient(t.Channel(g, c), k.i.perGroup) == t.g0 + g;
  }

  // ----- One pixel -----

  /** To every channel of the pixel, the first places of a row of the window have been added. */
  ghost predicate RowAdded(m0: Memory, m: Memory, k: Plan, t: Part, ho: nat, wo: nat, kh: nat, kws: nat)
    requires k.Valid()
  {
    forall g, c | 0 <= g < t.bg && 0 <= c < t.bc ::
      Held(m, OutputCell(ho, wo, g, c), k.b, k.p) ==
      Held(m0, OutputCell(ho, wo, g, c), k.b, k.p) + SiteOf(k, t, ho, wo, g, c).RowSum(kh, kws)
  }

  /** The first rows of the window have been added. */
  ghost predicate RowsAdded(m0: Memory, m: Memory, k: Plan, t: Part, ho: nat, wo: nat, khs: nat)
    requires k.Valid()
  {
    forall g, c | 0 <= g < t.bg && 0 <= c < t.bc ::
      Held(m, OutputCell(ho, wo, g, c), k.b, k.p) ==
      Held(m0, OutputCell(ho, wo, g, c), k.b, k.p) + SiteOf(k, t, ho, wo, g, c).Sum(khs)
  }

  lemma OnlyPixelTwice(m0: Memory, m1: Memory, m2: Memory, b: Block, p: Shape, ho: nat, wo: nat)
    requires p.Valid() && OnlyPixel(m0, m1, b, p, ho, wo) && OnlyPixel(m1, m2, b, p, ho, wo)
    ensures OnlyPixel(m0, m2, b, p, ho, wo)
  {
    hide Held, Cell.In;
  }

  /** Cells of the block are cells of private memory. */
  lemma CellsIn(k: Plan, t: Part, h: nat, w: nat, ho: nat, wo: nat, kh: nat, kw: nat)
    requires k.Valid() && PartOk(k, t) && PixelAt(k, t, h, w, ho, wo) && kh < k.p.kernel && kw < k.p.kernel
    ensures OutputCell(ho, wo, 0, 0).In(k.b, k.p) && MaskCell(ho, wo, 0, kh, kw).In(k.b, k.p)
    ensures InputCell(h + kh, w + kw, 0, 0).In(k.b, k.p)
  {
    PixelIn(k, t, h, w, ho, wo);
    hide PixelAt, Planned, Quotient;
  }

  lemma BlockSizes(k: Plan, t: Part)
    requires PartOk(k, t)
    ensures t.bg <= k.b.g && t.bc <= k.b.c
  {
  }

  lemma NextPlace(m0: Memory, m: Memory, k: Plan, t: Part, h: nat, w: nat, ho: nat, wo: nat, kh: nat, kw: nat)
    requires k.Valid() && PartOk(k, t) && Ready(|m|, k.b, k.p) && PixelAt(k, t, h, w, ho, wo) && Loaded(m, k, t)
    requires kh < k.p.kernel && kw < k.p.kernel
    requires 0 <= Under(k.Half(), t.h0 + h, kh) < k.i.h && 0 <= Under(k.Half(), t.w0 + w, kw) < k.i.w
    requires OnlyPixel(m0, m, k.b, k.p, ho, wo) && RowAdded(m0, m, k, t, ho, wo, kh, kw)
    ensures var m' := Stepped(m, k.b, k.p, h + kh, w + kw, ho, wo, kh, kw, t.bg);
            && OnlyPixel(m0, m', k.b, k.p, ho, wo) && RowAdded(m0, m', k, t, ho, wo, kh, kw + 1) && Loaded(m', k, t)
  {
    hide Held, Stepped, OnlyPixel, Loaded, Cell.In, PixelAt, PartOk, Ready, Under, Planned, Site.Term, Plan.Half;
    hide RowAdded;
    var m' := Stepped(m, k.b, k.p, h + kh, w + kw, ho, wo, kh, kw, t.bg);
    CellsIn(k, t, h, w, ho, wo, kh, kw);
    StepKeeps(m, k.b, k.p, h + kh, w + kw, ho, wo, kh, kw, t.bg);
    OnlyPixelTwice(m0, m, m', k.b, k.p, ho, wo);
    PixelKeepsLoaded(m, m', k, t, ho, wo);
    NextAdded(m0, m, k, t, h, w, ho, wo, kh, kw);
  }

  lemma NextAdded(m0: Memory, m: Memory, k: Plan, t: Part, h: nat, w: nat, ho: nat, wo: nat, kh: nat, kw: nat)
    requires k.Valid() && PartOk(k, t) && Ready(|m|, k.b, k.p) && PixelAt(k, t, h, w, ho, wo) && Loaded(m, k, t)
    requires kh < k.p.kernel && kw < k.p.kernel
    requires 0 <= Under(k.Half(), t.h0 + h, kh) < k.i.h && 0 <= Under(k.Half(), t.w0 + w, kw) < k.i.w
    requires RowAdded(m0, m, k, t, ho, wo, kh, kw)
    ensures RowAdded(m0, Stepped(m, k.b, k.p, h + kh, w + kw, ho, wo, kh, kw, t.bg), k, t, ho, wo, kh, kw + 1)
  {
    hide Held, Stepped, Loaded, Cell.In, PixelAt, PartOk, Ready, Under, Planned, Site.Term, Plan.Half;
    var m' := Stepped(m, k.b, k.p, h + kh, w + kw, ho, wo, kh, kw, t.bg);
    BlockSizes(k, t);
    CellsIn(k, t, h, w, ho, wo, kh, kw);
    forall g, c | 0 <= g < t.bg && 0 <= c < t.bc
      ensures Held(m', OutputCell(ho, wo, g, c), k.b, k.p) ==
              Held(m0, OutputCell(ho, wo, g, c), k.b, k.p) + SiteOf(k, t, ho, wo, g, c).RowSum(kh, kw + 1)
    {
      StepAdds(m, k.b, k.p, h + kh, w + kw, ho, wo, kh, kw, t.bg, g, c);
      TermIs(m, k, t, h, w, ho, wo, kh, kw, g, c);
    }
  }

  /** Work on the pixel since m0: what is loaded stays, and the first places of a row have been added. */
  ghost predicate RowSoFar(m0: Memory, m: Memory, k: Plan, t: Part, ho: nat, wo: nat, kh: nat, kws: nat)
    requires k.Valid()
  {
    OnlyPixel(m0, m, k.b, k.p, ho, wo) && Loaded(m, k, t) && RowAdded(m0, m, k, t, ho, wo, kh, kws)
  }

  /** Add one place of the window to the pixel. */
  method AddPlace(nram: array<real>, k: Plan, t: Part, h: nat, w: nat, ho: nat, wo: nat, kh: nat, kw: nat,
                  ghost m0: Memory)
    requires k.Valid() && PartOk(k, t) && Ready(nram.Length, k.b, k.p) && PixelAt(k, t, h, w, ho, wo)
    requires kh < k.p.kernel && kw < k.p.kernel
    requires 0 <= Under(k.Half(), t.h0 + h, kh) < k.i.h && 0 <= Under(k.Half(), t.w0 + w, kw) < k.i.w
    requires RowSoFar(m0, nram[..], k, t, ho, wo, kh, kw)
    modifies nram
    ensures RowSoFar(m0, nram[..], k, t, ho, wo, kh, kw + 1)
  {
    hide Stepped, OnlyPixel, Loaded, Cell.In, PixelAt, PartOk, RowAdded, Planned, Plan.Half, Under, Ready;
    CellsIn(k, t, h, w, ho, wo, kh, kw);
    BlockSizes(k, t);
    NextPlace(m0, nram[..], k, t, h, w, ho, wo, kh, kw);
    Step(nram, k.b, k.p, h + kh, w + kw, ho, wo, kh, kw, t.bg);
  }

  /** Add a row of the window to the pixel, places lo to hi of it being in the image. */
  method AddWindowRow(nram: array<real>, k: Plan, t: Part, h: nat, w: nat, ho: nat, wo: nat, kh: nat, lo: nat, hi: nat)
    requires k.Valid() && PartOk(k, t) && Ready(nram.Length, k.b, k.p) && PixelAt(k, t, h, w, ho, wo)
    requires Loaded(nram[..], k, t) && kh < k.p.kernel && 0 <= Under(k.Half(), t.h0 + h, kh) < k.i.h
    requires InWindow(k.Half(), k.p.kernel, k.i.w, t.w0 + w, lo, hi)
    modifies nram
    ensures RowSoFar(old(nram[..]), nram[..], k, t, ho, wo, kh, k.p.kernel)
  {
    ghost var m0 := nram[..];
    RowStarts(m0, k, t, h, w, ho, wo, kh, lo, hi);
    WindowIn(k.Half(), k.p.kernel, k.i.w, t.w0 + w, lo, hi);
    hide OnlyPixel, Loaded, PixelAt, PartOk, RowAdded, Planned, Plan.Half, Under, Ready, InWindow;
    for kw := lo to hi
      invariant RowSoFar(m0, nram[..], k, t, ho, wo, kh, kw)
    {
      AddPlace(nram, k, t, h, w, ho, wo, kh, kw, m0);
    }
    RowEnds(m0, nram[..], k, t, h, w, ho, wo, kh, lo, hi);
  }

  lemma WindowIn(half: nat, kernel: nat, dim: nat, at: nat, lo: nat, hi: nat)
    requires InWindow(half, kernel, dim, at, lo, hi)
    ensures lo <= hi <= kernel && forall k: nat | lo <= k < hi :: 0 <= Under(half, at, k) < dim
  {
    hide Under;
  }

  /** Before the window's first place in the image nothing is to be added. */
  lemma RowStarts(m: Memory, k: Plan, t: Part, h: nat, w: nat, ho: nat, wo: nat, kh: nat, lo: nat, hi: nat)
    requires k.Valid() && PartOk(k, t) && PixelAt(k, t, h, w, ho, wo)
    requires InWindow(k.Half(), k.p.kernel, k.i.w, t.w0 + w, lo, hi)
    ensures OnlyPixel(m, m, k.b, k.p, ho, wo) && RowAdded(m, m, k, t, ho, wo, kh, lo)
  {
    hide Held, PixelAt, PartOk, Planned, Plan.Half, Under, Site.Column, Site.Row, Site.Term;
    forall g, c | 0 <= g < t.bg && 0 <= c < t.bc ensures SiteOf(k, t, ho, wo, g, c).RowSum(kh, lo) == 0.0 {
      var s := SiteOf(k, t, ho, wo, g, c);
      SiteAt(k, t, h, w, ho, wo, g, c);
      forall kw | 0 <= kw < lo ensures !(0 <= s.Column(kw) < s.i.w) {
        assert s.Column(kw) == Under(k.Half(), t.w0 + w, kw);
      }
      NothingInColumns(s, kh, 0, lo);
    }
  }

  /** Nor after its last. */
  lemma RowEnds(m0: Memory, m: Memory, k: Plan, t: Part, h: nat, w: nat, ho: nat, wo: nat, kh: nat, lo: nat, hi: nat)
    requires k.Valid() && PartOk(k, t) && PixelAt(k, t, h, w, ho, wo)
    requires InWindow(k.Half(), k.p.kernel, k.i.w, t.w0 + w, lo, hi) && RowAdded(m0, m, k, t, ho, wo, kh, hi)
    ensures RowAdded(m0, m, k, t, ho, wo, kh, k.p.kernel)
  {
    hide Held, PixelAt, PartOk, Planned, Plan.Half, Under, Site.Column, Site.Row, Site.Term;
    forall g, c | 0 <= g < t.bg && 0 <= c < t.bc
      ensures SiteOf(k, t, ho, wo, g, c).RowSum(kh, k.p.kernel) == SiteOf(k, t, ho, wo, g, c).RowSum(kh, hi)
    {
      var s := SiteOf(k, t, ho, wo, g, c);
      SiteAt(k, t, h, w, ho, wo, g, c);
      forall kw | hi <= kw < k.p.kernel ensures !(0 <= s.Column(kw) < s.i.w) {
        assert s.Column(kw) == Under(k.Half(), t.w0 + w, kw);
      }
      NothingInColumns(s, kh, hi, k.p.kernel);
    }
  }

  /** Work on the pixel since m0: what is loaded stays, and the first rows of the window have been added. */
  ghost predicate RowsSoFar(m0: Memory, m: Memory, k: Plan, t: Part, ho: nat, wo: nat, khs: nat)
    requires k.Valid()
  {
    OnlyPixel(m0, m, k.b, k.p, ho, wo) && Loaded(m, k, t) && RowsAdded(m0, m, k, t, ho, wo, khs)
  }

  lemma NextRow(m0: Memory, m1: Memory, m2: Memory, k: Plan, t: Part, ho: nat, wo: nat, kh: nat)
    requires k.Valid() && RowsSoFar(m0, m1, k, t, ho, wo, kh) && RowSoFar(m1, m2, k, t, ho, wo, kh, k.p.kernel)
    ensures RowsSoFar(m0, m2, k, t, ho, wo, kh + 1)
  {
    hide Held, OnlyPixel, Loaded, Planned, Site.RowSum;
    OnlyPixelTwice(m0, m1, m2, k.b, k.p, ho, wo);
  }

  lemma RowsStart(m: Memory, k: Plan, t: Part, h: nat, w: nat, ho: nat, wo: nat, lo: nat, hi: nat)
    requires k.Valid() && PartOk(k, t) && PixelAt(k, t, h, w, ho, wo) && Loaded(m, k, t)
    requires InWindow(k.Half(), k.p.kernel, k.i.h, t.h0 + h, lo, hi)
    ensures RowsSoFar(m, m, k, t, ho, wo, lo)
  {
    hide Held, PixelAt, PartOk, Planned, Plan.Half, Under, Loaded, Site.Column, Site.Row, Site.Term;
    forall g, c | 0 <= g < t.bg && 0 <= c < t.bc ensures SiteOf(k, t, ho, wo, g, c).Sum(lo) == 0.0 {
      var s := SiteOf(k, t, ho, wo, g, c);
      SiteAt(k, t, h, w, ho, wo, g, c);
      forall kh | 0 <= kh < lo ensures !(0 <= s.Row(kh) < s.i.h) {
        assert s.Row(kh) == Under(k.Half(), t.h0 + h, kh);
      }
      NothingInRows(s, 0, lo);
    }
  }

  lemma RowsEnd(m0: Memory, m: Memory, k: Plan, t: Part, h: nat, w: nat, ho: nat, wo: nat, lo: nat, hi: nat)
    requires k.Valid() && PartOk(k, t) && PixelAt(k, t, h, w, ho, wo)
    requires InWindow(k.Half(), k.p.kernel, k.i.h, t.h0 + h, lo, hi) && RowsSoFar(m0, m, k, t, ho, wo, hi)
    ensures RowsSoFar(m0, m, k, t, ho, wo, k.p.kernel)
  {
    hide Held, PixelAt, PartOk, Planned, Plan.Half, Under, Loaded, OnlyPixel, Site.Column, Site.Row, Site.Term;
    forall g, c | 0 <= g < t.bg && 0 <= c < t.bc
      ensures SiteOf(k, t, ho, wo, g, c).Sum(k.p.kernel) == SiteOf(k, t, ho, wo, g, c).Sum(hi)
    {
      var s := SiteOf(k, t, ho, wo, g, c);
      SiteAt(k, t, h, w, ho, wo, g, c);
      forall kh | hi <= kh < k.p.kernel ensures !(0 <= s.Row(kh) < s.i.h) {
        assert s.Row(kh) == Under(k.Half(), t.h0 + h, kh);
      }
      NothingInRows(s, hi, k.p.kernel);
    }
  }

  /** Add the window to the pixel, rows and columns of it from lo to hi being in the image. */
  method AddWindow(nram: array<real>, k: Plan, t: Part, h: nat, w: nat, ho: nat, wo: nat,
                   loH: nat, hiH: nat, loW: nat, hiW: nat)
    requires k.Valid() && PartOk(k, t) && Ready(nram.Length, k.b, k.p) && PixelAt(k, t, h, w, ho, wo)
    requires Loaded(nram[..], k, t)
    requires InWindow(k.Half(), k.p.kernel, k.i.h, t.h0 + h, loH, hiH)
    requires InWindow(k.Half(), k.p.kernel, k.i.w, t.w0 + w, loW, hiW)
    modifies nram
    ensures RowsSoFar(old(nram[..]), nram[..], k, t, ho, wo, k.p.kernel)
  {
    ghost var m0 := nram[..];
    RowsStart(m0, k, t, h, w, ho, wo, loH, hiH);
    WindowIn(k.Half(), k.p.kernel, k.i.h, t.h0 + h, loH, hiH);
    hide OnlyPixel, PixelAt, PartOk, RowsAdded, RowSoFar, Planned, Plan.Half, Under, Ready, InWindow, Loaded;
    for kh := loH to hiH
      invariant RowsSoFar(m0, nram[..], k, t, ho, wo, kh)
    {
      ghost var m1 := nram[..];
      AddWindowRow(nram, k, t, h, w, ho, wo, kh, loW, hiW);
      NextRow(m0, m1, nram[..], k, t, ho, wo, kh);
    }
    RowsEnd(m0, nram[..], k, t, h, w, ho, wo, loH, hiH);
  }

  // ----- All pixels of the block -----

  /** The pixel holds its elements of the output. */
  ghost predicate Done(m: Memory, k: Plan, t: Part, ho: nat, wo: nat)
    requires k.Valid()
  {
    forall g, c | 0 <= g < t.bg && 0 <= c < t.bc ::
      Held(m, OutputCell(ho, wo, g, c), k.b, k.p) == SiteOf(k, t, ho, wo, g, c).Value()
  }

  ghost predicate Blank(m: Memory, k: Plan, t: Part, ho: nat, wo: nat)
    requires k.Valid()
  {
    forall g, c | 0 <= g < t.bg && 0 <= c < t.bc :: Held(m, OutputCell(ho, wo, g, c), k.b, k.p) == 0.0
  }

  /** Pixel (ho, wo) comes before the one at (i, j) of what row h and column w grow to. */
  predicate Before(scale: nat, h: nat, w: nat, i: nat, j: nat, ho: nat, wo: nat)
    requires 0 < scale
  {
    || ho / scale < h
    || (ho / scale == h && wo / scale < w)
    || (ho / scale == h && wo / scale == w && (ho % scale < i || (ho % scale == i && wo % scale < j)))
  }

  /** Pixels so far are done, the others blank. */
  ghost predicate PixelsDone(m: Memory, k: Plan, t: Part, h: nat, w: nat, i: nat, j: nat)
    requires k.Valid()
  {
    && Loaded(m, k, t)
    && forall ho, wo | 0 <= ho < k.p.scale * t.bh && 0 <= wo < k.p.scale * t.bw ::
         if Before(k.p.scale, h, w, i, j, ho, wo) then Done(m, k, t, ho, wo) else Blank(m, k, t, ho, wo)
  }

  /** Cells of other pixels stay. */
  lemma OthersStay(m: Memory, m': Memory, k: Plan, t: Part, ho: nat, wo: nat, ho': nat, wo': nat)
    requires k.Valid() && PartOk(k, t) && OnlyPixel(m, m', k.b, k.p, ho, wo) && (ho' != ho || wo' != wo)
    requires ho' < k.p.scale * t.bh && wo' < k.p.scale * t.bw
    ensures Done(m, k, t, ho', wo') ==> Done(m', k, t, ho', wo')
    ensures Blank(m, k, t, ho', wo') ==> Blank(m', k, t, ho', wo')
  {
    MulMonotone(t.bh, k.b.h, k.p.scale);
    MulMonotone(t.bw, k.b.w, k.p.scale);
    hide Held, Planned, SiteOf, Site.Value;
    forall g, c | 0 <= g < t.bg && 0 <= c < t.bc
      ensures Held(m', OutputCell(ho', wo', g, c), k.b, k.p) == Held(m, OutputCell(ho', wo', g, c), k.b, k.p)
    {
      assert OutputCell(ho', wo', g, c).In(k.b, k.p);
    }
  }

  /** A blank pixel to which the window has been added is done. */
  lemma BlankDone(m: Memory, m': Memory, k: Plan, t: Part, ho: nat, wo: nat)
    requires k.Valid() && Blank(m, k, t, ho, wo) && RowsSoFar(m, m', k, t, ho, wo, k.p.kernel)
    ensures Done(m', k, t, ho, wo)
  {
    hide Held, Planned, OnlyPixel, Loaded, Site.Sum;
  }

  lemma NextPixel(m: Memory, m': Memory, k: Plan, t: Part, h: nat, w: nat, i: nat, j: nat)
    requires k.Valid() && PartOk(k, t) && h < t.bh && w < t.bw && i < k.p.scale && j < k.p.scale
    requires PixelsDone(m, k, t, h, w, i, j)
    requires RowsSoFar(m, m', k, t, k.p.scale * h + i, k.p.scale * w + j, k.p.kernel)
    ensures PixelsDone(m', k, t, h, w, i, j + 1)
  {
    var ho, wo := k.p.scale * h + i, k.p.scale * w + j;
    GrownIn(k.p.scale, 0, h, t.bh, t.bh, ho);
    GrownIn(k.p.scale, 0, w, t.bw, t.bw, wo);
    hide Done, Blank, Planned, OnlyPixel, Loaded, RowsAdded, PartOk;
    PixelOnly(k.p.scale, h, w, i, j, ho, wo);
    BlankDone(m, m', k, t, ho, wo);
    forall ho', wo' | 0 <= ho' < k.p.scale * t.bh && 0 <= wo' < k.p.scale * t.bw
      ensures if Before(k.p.scale, h, w, i, j + 1, ho', wo') then Done(m', k, t, ho', wo')
              else Blank(m', k, t, ho', wo')
    {
      PixelOnly(k.p.scale, h, w, i, j, ho', wo');
      if ho' != ho || wo' != wo {
        OthersStay(m, m', k, t, ho, wo, ho', wo');
      }
    }
  }

  lemma PixelOnly(scale: nat, h: nat, w: nat, i: nat, j: nat, ho: nat, wo: nat)
    requires 0 < scale && i < scale && j < scale
    ensures var here := ho == scale * h + i && wo == scale * w + j;
            && (Before(scale, h, w, i, j + 1, ho, wo) <==> Before(scale, h, w, i, j, ho, wo) || here)
            && (here ==> !Before(scale, h, w, i, j, ho, wo))
  {
    assert ho == scale * (ho / scale) + ho % scale && wo == scale * (wo / scale) + wo % scale;
    if ho == scale * h + i {
      DivModUnique(ho, scale, h, i);
    }
    if wo == scale * w + j {
      DivModUnique(wo, scale, w, j);
    }
  }

  // ----- The loops over pixels -----

  /** The first and the last row (or column) of the loaded input that is in the image, as the load computes them. */
  function FirstLoaded(half: nat, x0: nat): (r: nat) { if x0 - half < 0 then half - x0 else 0 }

  function LastLoaded(kernel: nat, half: nat, dim: nat, x0: nat, n: nat): int {
    var x1 := x0 + n - 1 + half;
    n + kernel - 2 - if x1 > dim - 1 then x1 - (dim - 1) else 0
  }

  function LoopFrom(first: nat, x: nat): (lo: nat) { if first - x > 0 then first - x else 0 }

  function LoopTo(kernel: nat, last: int, x: nat): int { if last - x < kernel - 1 then last - x else kernel - 1 }

  /** The loops over the window go over exactly what of it is in the image. */
  lemma WindowExactly(kernel: nat, dim: nat, x0: nat, n: nat, x: nat)
    requires kernel % 2 == 1 && x < n && x0 + n <= dim
    ensures var half: nat := (kernel - 1) / 2;
            var last := LastLoaded(kernel, half, dim, x0, n);
            && 0 <= LoopTo(kernel, last, x)
            && InWindow(half, kernel, dim, x0 + x, LoopFrom(FirstLoaded(half, x0), x), LoopTo(kernel, last, x) + 1)
  {
    assert kernel == 2 * ((kernel - 1) / 2) + 1;
  }

  lemma WindowOf(k: Plan, dim: nat, x0: nat, n: nat, x: nat)
    requires k.Valid() && x < n && x0 + n <= dim
    ensures var last := LastLoaded(k.p.kernel, k.Half(), dim, x0, n);
            && 0 <= LoopTo(k.p.kernel, last, x)
            && InWindow(k.Half(), k.p.kernel, dim, x0 + x, LoopFrom(FirstLoaded(k.Half(), x0), x),
                        LoopTo(k.p.kernel, last, x) + 1)
  {
    hide Planned, InWindow, FirstLoaded, LastLoaded, LoopFrom, LoopTo;
    WindowExactly(k.p.kernel, dim, x0, n, x);
  }

  lemma NextRowOfPixels(m: Memory, k: Plan, t: Part, h: nat, w: nat, i: nat)
    requires k.Valid() && PixelsDone(m, k, t, h, w, i, k.p.scale)
    ensures PixelsDone(m, k, t, h, w, i + 1, 0)
  {
    hide Done, Blank, Planned, Loaded;
  }

  lemma NextColumn(m: Memory, k: Plan, t: Part, h: nat, w: nat)
    requires k.Valid() && PixelsDone(m, k, t, h, w, k.p.scale, 0)
    ensures PixelsDone(m, k, t, h, w + 1, 0, 0)
  {
    hide Done, Blank, Planned, Loaded;
  }

  lemma NextLine(m: Memory, k: Plan, t: Part, h: nat)
    requires k.Valid() && PixelsDone(m, k, t, h, t.bw, 0, 0)
    ensures PixelsDone(m, k, t, h + 1, 0, 0, 0)
  {
    hide Done, Blank, Planned, Loaded;
    forall wo | 0 <= wo < k.p.scale * t.bw ensures wo / k.p.scale < t.bw {
      DivBelow(wo, k.p.scale, t.bw);
    }
  }

  /** The pixels that row h and column w of the input grow to. */
  method Grow(nram: array<real>, k: Plan, t: Part, h: nat, w: nat, loH: nat, hiH: nat, loW: nat, hiW: nat)
    requires k.Valid() && PartOk(k, t) && Ready(nram.Length, k.b, k.p) && h < t.bh && w < t.bw
    requires PixelsDone(nram[..], k, t, h, w, 0, 0)
    requires InWindow(k.Half(), k.p.kernel, k.i.h, t.h0 + h, loH, hiH)
    requires InWindow(k.Half(), k.p.kernel, k.i.w, t.w0 + w, loW, hiW)
    modifies nram
    ensures PixelsDone(nram[..], k, t, h, w + 1, 0, 0)
  {
    hide PartOk, Ready, InWindow, Planned, Plan.Half, RowsSoFar, Loaded, Before;
    for i := 0 to k.p.scale
      invariant PixelsDone(nram[..], k, t, h, w, i, 0)
    {
      for j := 0 to k.p.scale
        invariant PixelsDone(nram[..], k, t, h, w, i, j)
      {
        ghost var m := nram[..];
        AddWindow(nram, k, t, h, w, k.p.scale * h + i, k.p.scale * w + j, loH, hiH, loW, hiW);
        NextPixel(m, nram[..], k, t, h, w, i, j);
      }
      NextRowOfPixels(nram[..], k, t, h, w, i);
    }
    NextColumn(nram[..], k, t, h, w);
  }

  /** The loop over the columns of row h. */
  method ComputeLine(nram: array<real>, k: Plan, t: Part, h: nat, loH: nat, hiH: nat, firstW: nat, lastW: int)
    requires k.Valid() && PartOk(k, t) && Ready(nram.Length, k.b, k.p) && h < t.bh
    requires firstW == FirstLoaded(k.Half(), t.w0) && lastW == LastLoaded(k.p.kernel, k.Half(), k.i.w, t.w0, t.bw)
    requires InWindow(k.Half(), k.p.kernel, k.i.h, t.h0 + h, loH, hiH)
    requires PixelsDone(nram[..], k, t, h, 0, 0, 0)
    modifies nram
    ensures PixelsDone(nram[..], k, t, h + 1, 0, 0, 0)
  {
    PartFits(k, t);
    hide PartOk, Ready, InWindow, Planned, PixelsDone, FirstLoaded, LastLoaded, LoopFrom, LoopTo, Plan.Half;
    for w := 0 to t.bw
      invariant PixelsDone(nram[..], k, t, h, w, 0, 0)
    {
      var loW := LoopFrom(firstW, w);
      var hiW := LoopTo(k.p.kernel, lastW, w);
      WindowOf(k, k.i.w, t.w0, t.bw, w);
      Grow(nram, k, t, h, w, loH, hiH, loW, hiW + 1);
    }
    NextLine(nram[..], k, t, h);
  }

  /** The loops over rows and columns of the block. */
  method ComputeBlock(nram: array<real>, k: Plan, t: Part, firstH: nat, lastH: int, firstW: nat, lastW: int)
    requires k.Valid() && PartOk(k, t) && Ready(nram.Length, k.b, k.p)
    requires firstH == FirstLoaded(k.Half(), t.h0) && lastH == LastLoaded(k.p.kernel, k.Half(), k.i.h, t.h0, t.bh)
    requires firstW == FirstLoaded(k.Half(), t.w0) && lastW == LastLoaded(k.p.kernel, k.Half(), k.i.w, t.w0, t.bw)
    requires PixelsDone(nram[..], k, t, 0, 0, 0, 0)
    modifies nram
    ensures PixelsDone(nram[..], k, t, t.bh, 0, 0, 0)
  {
    PartFits(k, t);
    hide PartOk, Ready, InWindow, Planned, PixelsDone, FirstLoaded, LastLoaded, LoopFrom, LoopTo, Plan.Half;
    for h := 0 to t.bh
      invariant PixelsDone(nram[..], k, t, h, 0, 0, 0)
    {
      var loH := LoopFrom(firstH, h);
      var hiH := LoopTo(k.p.kernel, lastH, h);
      WindowOf(k, k.i.h, t.h0, t.bh, h);
      ComputeLine(nram, k, t, h, loH, hiH + 1, firstW, lastW);
    }
  }

  lemma PartFits(k: Plan, t: Part)
    requires PartOk(k, t)
    ensures t.h0 + t.bh <= k.i.h && t.w0 + t.bw <= k.i.w
  {
  }
}
