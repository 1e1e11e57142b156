/**
 What the carafe operation makes of an input and a mask: every element of the output is a sum over the window around
 the pixel of the input it grows from, each place times its weight in the mask of the pixel and the channel's group,
 places outside the image left out. The definition is that of the operation's design document (section 1.2 of
 docs/design_docs/carafe_forward/carafe_forward.md).

 A mask with a single weight picks one place of the window (OneWeightShifts).
 */
module CarafeOperation {
  import opened Carafe
  import opened Rounding

  /** A tensor that is only read. */
  type Tensor = (int, int, int, int) -> real

  /** Where the mask has the weight of group g at place (kh, kw) of the window. */
  function Weight(kernel: nat, g: nat, kh: nat, kw: nat): int { (g * kernel + kh) * kernel + kw }

  /** The arguments, and one element of the output. */
  datatype Site = Site(i: Input, p: Shape, input: Tensor, mask: Tensor, n: nat, ho: nat, wo: nat, ch: nat) {
    predicate Valid() { i.Valid() && p.Valid() }

    /** The row and column of the input under place (kh, kw) of the window. */
    function Row(kh: nat): int requires Valid() { Quotient(ho, p.scale) - (p.kernel - 1) / 2 + kh }
    function Column(kw: nat): int requires Valid() { Quotient(wo, p.scale) - (p.kernel - 1) / 2 + kw }

    /** What that place adds: nothing outside the image. */
    function Term(kh: nat, kw: nat): real
      requires Valid()
    {
      if 0 <= Row(kh) < i.h && 0 <= Column(kw) < i.w then
        input(n, Row(kh), Column(kw), ch) * mask(n, ho, wo, Weight(p.kernel, Quotient(ch, i.perGroup), kh, kw))
      else 0.0
    }

    /** The first places of a row of the window, and the first rows. */
    function RowSum(kh: nat, kws: nat): real
      requires Valid()
    {
      if kws == 0 then 0.0 else RowSum(kh, kws - 1) + Term(kh, kws - 1)
    }

    function Sum(khs: nat): real
      requires Valid()
    {
      if khs == 0 then 0.0 else Sum(khs - 1) + RowSum(khs - 1, p.kernel)
    }

    /** The element: the sum over the whole window. */
    function Value(): real requires Valid() { Sum(p.kernel) }
  }

  /** Rows of the window outside the image add nothing. */
  lemma {:induction false} NothingInRow(s: Site, kh: nat, kws: nat)
    requires s.Valid() && !(0 <= s.Row(kh) < s.i.h)
    ensures s.RowSum(kh, kws) == 0.0
  {
    if kws > 0 {
      NothingInRow(s, kh, kws - 1);
    }
  }

  /** Nor do columns, from one place of a row to another. */
  lemma {:induction false} NothingInColumns(s: Site, kh: nat, from: nat, kws: nat)
    requires s.Valid() && from <= kws && forall kw | from <= kw < kws :: !(0 <= s.Column(kw) < s.i.w)
    ensures s.RowSum(kh, kws) == s.RowSum(kh, from)
    decreases kws
  {
    if from < kws {
      NothingInColumns(s, kh, from, kws - 1);
    }
  }

  lemma {:induction false} NothingInRows(s: Site, from: nat, khs: nat)
    requires s.Valid() && from <= khs && forall kh | from <= kh < khs :: !(0 <= s.Row(kh) < s.i.h)
    ensures s.Sum(khs) == s.Sum(from)
    decreases khs
  {
    if from < khs {
      NothingInRows(s, from, khs - 1);
      NothingInRow(s, khs - 1, s.p.kernel);
    }
  }

  /** The mask has a single weight, 1, at place (a, b). */
  predicate OneWeight(s: Site, a: nat, b: nat)
    requires s.Valid()
  {
    forall kh: nat, kw: nat | kh < s.p.kernel && kw < s.p.kernel ::
      s.mask(s.n, s.ho, s.wo, Weight(s.p.kernel, s.ch / s.i.perGroup, kh, kw)) ==
      if kh == a && kw == b then 1.0 else 0.0
  }

  /** What the single weight picks. */
  function Picked(s: Site, a: nat, b: nat): real
    requires s.Valid()
  {
    var y, x := s.ho / s.p.scale + a - (s.p.kernel - 1) / 2, s.wo / s.p.scale + b - (s.p.kernel - 1) / 2;
    if 0 <= y < s.i.h && 0 <= x < s.i.w then s.input(s.n, y, x, s.ch) else 0.0
  }

  lemma OneTerm(s: Site, a: nat, b: nat, kh: nat, kw: nat)
    requires s.Valid() && OneWeight(s, a, b) && kh < s.p.kernel && kw < s.p.kernel
    ensures s.Term(kh, kw) == if kh == a && kw == b then Picked(s, a, b) else 0.0
  {
    hide Weight;
    var weight := s.mask(s.n, s.ho, s.wo, Weight(s.p.kernel, s.ch / s.i.perGroup, kh, kw));
    assert weight == if kh == a && kw == b then 1.0 else 0.0;
  }

  lemma {:induction false} OneRow(s: Site, a: nat, b: nat, kh: nat, kws: nat)
    requires s.Valid() && OneWeight(s, a, b) && kh < s.p.kernel && kws <= s.p.kernel
    ensures s.RowSum(kh, kws) == if kh == a && b < kws then Picked(s, a, b) else 0.0
  {
    hide OneWeight, Picked, Site.Term;
    if kws > 0 {
      OneRow(s, a, b, kh, kws - 1);
      OneTerm(s, a, b, kh, kws - 1);
    }
  }

  lemma {:induction false} OneSum(s: Site, a: nat, b: nat, khs: nat)
    requires s.Valid() && OneWeight(s, a, b) && b < s.p.kernel && khs <= s.p.kernel
    ensures s.Sum(khs) == if a < khs then Picked(s, a, b) else 0.0
  {
    hide OneWeight, Picked, Site.RowSum;
    if khs > 0 {
      OneSum(s, a, b, khs - 1);
      OneRow(s, a, b, khs - 1, s.p.kernel);
    }
  }

  /** A mask with a single weight moves the image, enlarged, by the weight's distance from the centre of the window. */
  lemma OneWeightShifts(s: Site, a: nat, b: nat)
    requires s.Valid() && OneWeight(s, a, b) && a < s.p.kernel && b < s.p.kernel
    ensures var y, x := s.ho / s.p.scale + a - (s.p.kernel - 1) / 2, s.wo / s.p.scale + b - (s.p.kernel - 1) / 2;
            s.Value() == if 0 <= y < s.i.h && 0 <= x < s.i.w then s.input(s.n, y, x, s.ch) else 0.0
  {
    OneSum(s, a, b, s.p.kernel);
  }

  /** Weights follow each other by group, row and column of the window. */
  lemma WeightsInOrder(kernel: nat, g: nat, kh: nat, kw: nat)
    requires kh < kernel && kw < kernel
    ensures Weight(kernel, 0, 0, 0) == 0
    ensures Weight(kernel, g, kh, kw) + 1 ==
            if kw + 1 < kernel then Weight(kernel, g, kh, kw + 1)
            else if kh + 1 < kernel then Weight(kernel, g, kh + 1, 0)
            else Weight(kernel, g + 1, 0, 0)
  {
    assert (g * kernel + kh + 1) * kernel == (g * kernel + kh) * kernel + kernel;
    if kh + 1 == kernel {
      assert (g + 1) * kernel == g * kernel + kernel;
    }
  }
}
