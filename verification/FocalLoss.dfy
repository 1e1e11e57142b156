/**
 How the backward focal loss sizes its tiles: the host picks how many rows to deal with at once and the largest
 channel count it accepts; the kernel then lays out two rounds of five compute buffers and a target buffer, two
 constant lines and the weights in private memory. Sizes are in bytes.

 The main results: every accepted channel count gets at least one row (AcceptedGetsRows), and on
 memories that are multiples of 256 bytes exactly those that would get one are accepted (AcceptedExactly); what the
 kernel then lays out fits (LayoutFits).
 */
module FocalLoss {
  import opened Rounding

  const NFU_ALIGN_SIZE: nat := 128
  const SPLIT_NUM: nat := 5
  const SPLIT_PINGPONG: nat := 2
  const FLOAT_BYTES: nat := 4
  const INT32_BYTES: nat := 4

  /** Division as the host's language does it: towards zero. */
  function CDiv(a: int, b: int): int
    requires 0 < b
  {
    if a >= 0 then a / b else -(-a / b)
  }

  function ComputeAlign(isHalf: bool): nat { if isHalf then 2 * NFU_ALIGN_SIZE else NFU_ALIGN_SIZE }

  function AlignNum(isHalf: bool): (n: nat)
    ensures 4 * n == ComputeAlign(isHalf)
  {
    if isHalf then 64 else 32
  }

  /** Bytes left for the two rounds of buffers before any weights. */
  function PingPong(nram: int, hasWeight: bool, isHalf: bool): int {
    nram - ((SPLIT_NUM + 1) * SPLIT_PINGPONG + 2) * ComputeAlign(isHalf) - if hasWeight then NFU_ALIGN_SIZE else 0
  }

  function ThresholdC(nram: int, hasWeight: bool, isHalf: bool): int {
    var pp := PingPong(nram, hasWeight, isHalf);
    if hasWeight then
      CDiv(CDiv(pp - SPLIT_PINGPONG * INT32_BYTES, FLOAT_BYTES * (SPLIT_NUM * SPLIT_PINGPONG + 1)),
           AlignNum(isHalf)) * AlignNum(isHalf)
    else CDiv(CDiv(pp, SPLIT_PINGPONG) - INT32_BYTES, SPLIT_NUM * FLOAT_BYTES)
  }

  function WeightSpace(c: nat, hasWeight: bool): nat { if hasWeight then PadUp(c * FLOAT_BYTES, NFU_ALIGN_SIZE) else 0 }

  function ComputeC(c: nat, hasWeight: bool, isHalf: bool): nat { if hasWeight then PadUp(c, AlignNum(isHalf)) else c }

  /** What one row takes in both rounds, as the host estimates it. */
  function RowBytes(c: nat, hasWeight: bool, isHalf: bool): (b: nat)
    ensures 0 < b
  {
    (SPLIT_NUM * ComputeC(c, hasWeight, isHalf) * FLOAT_BYTES + INT32_BYTES) * SPLIT_PINGPONG
  }

  function DealN(nram: int, c: nat, hasWeight: bool, isHalf: bool): int {
    CDiv(PingPong(nram, hasWeight, isHalf) - WeightSpace(c, hasWeight), RowBytes(c, hasWeight, isHalf))
  }

  method GetDealNAndThresholdC(nramSize: int, totalC: nat, hasWeight: bool, isHalf: bool)
    returns (dealN: int, thresholdC: int)
    ensures dealN == DealN(nramSize, totalC, hasWeight, isHalf) && thresholdC == ThresholdC(nramSize, hasWeight, isHalf)
  {
    hide PadUp, CDiv;
    var computeAlignSize := NFU_ALIGN_SIZE;
    if isHalf {
      computeAlignSize := computeAlignSize + NFU_ALIGN_SIZE;
    }
    var computeAlignNum := computeAlignSize / FLOAT_BYTES;
    assert computeAlignNum == AlignNum(isHalf);
    var reserved := ((SPLIT_NUM + 1) * SPLIT_PINGPONG + 2) * computeAlignSize;
    var pingPong := nramSize - reserved;
    var computeC := totalC;
    if hasWeight {
      pingPong := pingPong - NFU_ALIGN_SIZE;
      thresholdC := CDiv(pingPong - SPLIT_PINGPONG * INT32_BYTES, FLOAT_BYTES * (SPLIT_NUM * SPLIT_PINGPONG + 1));
      thresholdC := CDiv(thresholdC, computeAlignNum) * computeAlignNum;
      var weightSpace := PadUp(totalC * FLOAT_BYTES, NFU_ALIGN_SIZE);
      pingPong := pingPong - weightSpace;
      computeC := PadUp(totalC, computeAlignNum);
    } else {
      thresholdC := CDiv(CDiv(pingPong, SPLIT_PINGPONG) - INT32_BYTES, SPLIT_NUM * FLOAT_BYTES);
    }
    dealN := CDiv(pingPong, (SPLIT_NUM * computeC * FLOAT_BYTES + INT32_BYTES) * SPLIT_PINGPONG);
  }

  // ----- Division -----

  lemma CDivAtLeast(a: int, b: int, q: int)
    requires 0 < b && 1 <= q
    ensures q <= CDiv(a, b) <==> q * b <= a
  {
    if a >= 0 {
      if q * b <= a {
        DivAtLeast(a, b, q);
      } else {
        DivBelow(a, b, q);
      }
    } else {
      MulMonotone(1, q, b);
      assert -(-a / b) <= 0;
    }
  }

  /** A multiple of y below x. */
  lemma PadDownAtLeast(x: int, y: nat, m: nat)
    requires 0 < y && m % y == 0 && 1 <= m
    ensures m <= CDiv(x, y) * y <==> m <= x
  {
    var k := m / y;
    assert m == y * k;
    if k <= 0 {
      MulMonotone(k, 0, y);
    }
    CDivAtLeast(x, y, k);
    var d := CDiv(x, y);
    if k <= d {
      MulMonotone(k, d, y);
    } else {
      MulMonotone(d + 1, k, y);
      assert (d + 1) * y == d * y + y;
    }
  }

  // ----- Accepted channel counts get rows -----

  /** With weights: c channels padded, times what a channel takes in all buffers, stay within the threshold's bound. */
  lemma PaddedC(c: nat, isHalf: bool)
    requires 1 <= c
    ensures var cc := ComputeC(c, true, isHalf);
            && cc % AlignNum(isHalf) == 0 && c <= cc && 4 * cc % NFU_ALIGN_SIZE == 0
            && WeightSpace(c, true) <= 4 * cc && (!isHalf ==> WeightSpace(c, true) == 4 * cc)
  {
    var y := AlignNum(isHalf);
    var cc := ComputeC(c, true, isHalf);
    PadUpIsCeiling(c, y);
    PadUpIsCeiling(c * FLOAT_BYTES, NFU_ALIGN_SIZE);
    assert cc == y * (cc / y);
    if isHalf {
      assert 4 * cc == 2 * (cc / y) * NFU_ALIGN_SIZE;
      MultipleMod(2 * (cc / y), NFU_ALIGN_SIZE);
    } else {
      assert 4 * cc == (cc / y) * NFU_ALIGN_SIZE;
      MultipleMod(cc / y, NFU_ALIGN_SIZE);
    }
    if 4 * cc < WeightSpace(c, true) {
      MultiplesApart(4 * cc, WeightSpace(c, true), NFU_ALIGN_SIZE);
    }
    if !isHalf && WeightSpace(c, true) < 4 * cc {
      MultiplesApart(WeightSpace(c, true), 4 * cc, NFU_ALIGN_SIZE);
    }
  }

  /** The threshold in terms of one row of c channels. */
  lemma ThresholdMeans(nram: int, c: nat, hasWeight: bool, isHalf: bool)
    requires 1 <= c
    ensures var (cc, pp) := (ComputeC(c, hasWeight, isHalf), PingPong(nram, hasWeight, isHalf));
            c <= ThresholdC(nram, hasWeight, isHalf) <==> if hasWeight then 44 * cc + 8 <= pp else 40 * c + 8 <= pp
  {
    var pp := PingPong(nram, hasWeight, isHalf);
    var cc := ComputeC(c, hasWeight, isHalf);
    if hasWeight {
      var y, t := AlignNum(isHalf), CDiv(pp - 8, 44);
      PaddedC(c, isHalf);
      PadUpIsCeiling(c, y);
      PadDownAtLeast(t, y, cc);
      CDivAtLeast(pp - 8, 44, cc);
      var th := CDiv(t, y) * y;
      MultipleMod(CDiv(t, y), y);
      if c <= th && th < cc {
        MultiplesApart(th, cc, y);
      }
    } else {
      CDivAtLeast(CDiv(pp, 2) - 4, 20, c);
      CDivAtLeast(pp, 2, 20 * c + 4);
    }
  }

  lemma RowsMean(nram: int, c: nat, hasWeight: bool, isHalf: bool)
    requires 1 <= c
    ensures 1 <= DealN(nram, c, hasWeight, isHalf) <==>
            40 * ComputeC(c, hasWeight, isHalf) + 8 + WeightSpace(c, hasWeight) <= PingPong(nram, hasWeight, isHalf)
  {
    hide PadUp;
    CDivAtLeast(PingPong(nram, hasWeight, isHalf) - WeightSpace(c, hasWeight), RowBytes(c, hasWeight, isHalf), 1);
  }

  /** A channel count the guard lets through gets at least one row. */
  lemma AcceptedGetsRows(nram: int, c: nat, hasWeight: bool, isHalf: bool)
    requires 1 <= c <= ThresholdC(nram, hasWeight, isHalf)
    ensures 1 <= DealN(nram, c, hasWeight, isHalf)
  {
    hide ThresholdC, DealN, ComputeC, WeightSpace;
    ThresholdMeans(nram, c, hasWeight, isHalf);
    RowsMean(nram, c, hasWeight, isHalf);
    if hasWeight {
      PaddedC(c, isHalf);
    }
    NoWeights(c, isHalf);
  }

  lemma NoWeights(c: nat, isHalf: bool)
    ensures ComputeC(c, false, isHalf) == c && WeightSpace(c, false) == 0
  {
  }

  /** How much longer a line of compute values is than the line of the weights as they are laid out. */
  function Slack(c: nat, hasWeight: bool, isHalf: bool): int {
    if hasWeight then FLOAT_BYTES * ComputeC(c, true, isHalf) - WeightSpace(c, true) else 0
  }

  /** The slack is nothing without weights and for floats, and at most one line of 128 bytes for halves. */
  lemma SlackBounded(c: nat, hasWeight: bool, isHalf: bool)
    requires 1 <= c
    ensures 0 <= Slack(c, hasWeight, isHalf) <= NFU_ALIGN_SIZE &&
            (!hasWeight || !isHalf ==> Slack(c, hasWeight, isHalf) == 0)
  {
    PaddedC(c, isHalf);
    if hasWeight && isHalf {
      PadUpIsCeiling(c, 64);
      PadUpIsCeiling(c * FLOAT_BYTES, NFU_ALIGN_SIZE);
    }
  }

  /** For a memory of any size: exactly the counts that would get a row with the slack taken off it. */
  lemma AcceptedWithSlack(nram: int, c: nat, hasWeight: bool, isHalf: bool)
    requires 1 <= c
    ensures c <= ThresholdC(nram, hasWeight, isHalf) <==>
            1 <= DealN(nram - Slack(c, hasWeight, isHalf), c, hasWeight, isHalf)
  {
    hide ThresholdC, DealN, ComputeC, WeightSpace;
    ThresholdMeans(nram, c, hasWeight, isHalf);
    RowsMean(nram - Slack(c, hasWeight, isHalf), c, hasWeight, isHalf);
    NoWeights(c, isHalf);
  }

  /** For a memory that is a multiple of 256 bytes, as any whole number of kilobytes is, the guard lets through
      exactly the counts that get a row. */
  lemma AcceptedExactly(nram: int, c: nat, hasWeight: bool, isHalf: bool)
    requires 1 <= c && nram % 256 == 0
    ensures c <= ThresholdC(nram, hasWeight, isHalf) <==> 1 <= DealN(nram, c, hasWeight, isHalf)
  {
    hide ThresholdC, DealN, ComputeC, WeightSpace, PingPong;
    ThresholdMeans(nram, c, hasWeight, isHalf);
    RowsMean(nram, c, hasWeight, isHalf);
    NoWeights(c, isHalf);
    if hasWeight {
      PaddedC(c, isHalf);
      if isHalf && 1 <= DealN(nram, c, hasWeight, isHalf) {
        LineLeft(nram, c);
      }
    }
  }

  /** With halves and weights a row that fits leaves the line of the slack free as well: both are counted in lines of
      256 bytes, and 8 bytes are never a line. */
  lemma LineLeft(nram: int, c: nat)
    requires 1 <= c && nram % 256 == 0
    requires 40 * ComputeC(c, true, true) + 8 + WeightSpace(c, true) <= PingPong(nram, true, true)
    ensures 44 * ComputeC(c, true, true) + 8 <= PingPong(nram, true, true)
  {
    var k := ComputeC(c, true, true) / 64;
    SlackBounded(c, true, true);
    PaddedC(c, true);
    assert ComputeC(c, true, true) == 64 * k && nram == 256 * (nram / 256);
    hide PadUp, ComputeC, WeightSpace;
    LinesLeft(nram / 256, k, WeightSpace(c, true));
  }

  lemma LinesLeft(a: int, k: int, weights: int)
    requires 2560 * k + 8 + weights <= 256 * (a - 15) + 128 && 256 * k - 128 <= weights
    ensures 2816 * k + 8 <= 256 * (a - 15) + 128
  {
  }

  /** Without the multiple, a count can be turned away although a row would fit. */
  lemma OddSizesTurnAway()
    ensures ThresholdC(6500, true, true) < 1 && 1 <= DealN(6500, 1, true, true)
  {
    ThresholdMeans(6500, 1, true, true);
    RowsMean(6500, 1, true, true);
    assert PadUp(1, 64) == 64 && PadUp(4, 128) == 128;
  }

  // ----- The kernel's layout -----

  /** One compute buffer for n rows of c channels. */
  function ComputeSize(n: nat, c: nat, hasWeight: bool, isHalf: bool): nat {
    if hasWeight then n * PadUp(c, AlignNum(isHalf)) * FLOAT_BYTES else PadUp(n * c * FLOAT_BYTES, ComputeAlign(isHalf))
  }

  function TargetSize(n: nat): nat { PadUp(n * INT32_BYTES, NFU_ALIGN_SIZE) }

  /** Where the second round starts, and where the constants do, counted from the end. */
  function PingPongOffset(n: nat, c: nat, hasWeight: bool, isHalf: bool): nat {
    ComputeSize(n, c, hasWeight, isHalf) * SPLIT_NUM + TargetSize(n)
  }

  function Tail(c: nat, hasWeight: bool, isHalf: bool): nat {
    2 * NFU_ALIGN_SIZE + if hasWeight then PadUp(c * (if isHalf then 2 else FLOAT_BYTES), NFU_ALIGN_SIZE) else 0
  }

  lemma TailWithin(c: nat, hasWeight: bool, isHalf: bool)
    ensures Tail(c, hasWeight, isHalf) <= 2 * NFU_ALIGN_SIZE + WeightSpace(c, hasWeight)
  {
    RoundingUpAgrees(c * 2, NFU_ALIGN_SIZE);
    RoundingUpAgrees(c * FLOAT_BYTES, NFU_ALIGN_SIZE);
    CeilAlignMonotone(c * 2, c * FLOAT_BYTES, NFU_ALIGN_SIZE);
  }

  lemma ProductsUp(n: nat, k: nat)
    ensures n * (20 * k + 4) * 2 == 40 * (n * k) + 8 * n
  {
  }

  /** The rows the host deals with are as many as the room behind its reserve takes: five buffers of four bytes a
      channel and four bytes of target for each row, twice, behind the weights, 14 lines, and one more with weights. */
  lemma MostRows(nram: int, c: nat, hasWeight: bool, isHalf: bool, n: nat)
    requires 1 <= n
    ensures n <= DealN(nram, c, hasWeight, isHalf) <==>
            40 * (n * if hasWeight then PadUp(c, if isHalf then 64 else 32) else c) + 8 * n
            + 14 * (if isHalf then 256 else 128) + (if hasWeight then 128 + PadUp(4 * c, 128) else 0) <= nram
  {
    CDivAtLeast(PingPong(nram, hasWeight, isHalf) - WeightSpace(c, hasWeight), RowBytes(c, hasWeight, isHalf), n);
    ProductsUp(n, ComputeC(c, hasWeight, isHalf));
    hide PadUp;
    assert n * RowBytes(c, hasWeight, isHalf) == n * (20 * ComputeC(c, hasWeight, isHalf) + 4) * 2;
  }

  /** For every accepted channel count both rounds end before the constants, and every buffer is aligned and holds what
      it is for: values for n rows of c channels, n targets, two lines and the weights. */
  lemma LayoutFits(nram: int, c: nat, hasWeight: bool, isHalf: bool)
    requires 1 <= c <= ThresholdC(nram, hasWeight, isHalf)
    ensures var n := DealN(nram, c, hasWeight, isHalf);
            && 1 <= n && SPLIT_PINGPONG * PingPongOffset(n, c, hasWeight, isHalf) + Tail(c, hasWeight, isHalf) <= nram
            && ComputeSize(n, c, hasWeight, isHalf) % NFU_ALIGN_SIZE == 0 && TargetSize(n) % NFU_ALIGN_SIZE == 0
            && 4 * (n * c) <= ComputeSize(n, c, hasWeight, isHalf) && 4 * n <= TargetSize(n)
            && 5 * ComputeSize(n, c, hasWeight, isHalf) + TargetSize(n) <= PingPongOffset(n, c, hasWeight, isHalf)
            && 256 <= Tail(c, hasWeight, isHalf) - (if hasWeight then c * (if isHalf then 2 else 4) else 0) < 384
  {
    hide DealN, ThresholdC, ComputeSize, TargetSize, Tail, WeightSpace, RowBytes, PadUp, ComputeC;
    AcceptedGetsRows(nram, c, hasWeight, isHalf);
    var n := DealN(nram, c, hasWeight, isHalf);
    RowsFit(nram, c, hasWeight, isHalf, n);
    TailWithin(c, hasWeight, isHalf);
    BuffersWithin(n, c, hasWeight, isHalf);
    BuffersHold(n, c, hasWeight, isHalf);
    NoWeights(c, isHalf);
  }

  /** The rows the host deals with take no more than it left for them. */
  lemma RowsFit(nram: int, c: nat, hasWeight: bool, isHalf: bool, n: nat)
    requires n == DealN(nram, c, hasWeight, isHalf) && 1 <= n
    ensures 40 * (n * ComputeC(c, hasWeight, isHalf)) + 8 * n +
            WeightSpace(c, hasWeight) <= PingPong(nram, hasWeight, isHalf)
  {
    hide PadUp, ComputeC, WeightSpace;
    CDivAtLeast(PingPong(nram, hasWeight, isHalf) - WeightSpace(c, hasWeight), RowBytes(c, hasWeight, isHalf), n);
    ProductsUp(n, ComputeC(c, hasWeight, isHalf));
    assert RowBytes(c, hasWeight, isHalf) == (20 * ComputeC(c, hasWeight, isHalf) + 4) * 2;
    assert n * RowBytes(c, hasWeight, isHalf) == n * (20 * ComputeC(c, hasWeight, isHalf) + 4) * 2;
  }

  lemma BuffersWithin(n: nat, c: nat, hasWeight: bool, isHalf: bool)
    requires 1 <= c
    ensures ComputeSize(n, c, hasWeight, isHalf) % NFU_ALIGN_SIZE == 0
    ensures ComputeSize(n, c, hasWeight, isHalf) <=
            4 * (n * ComputeC(c, hasWeight, isHalf)) + if hasWeight then 0 else ComputeAlign(isHalf)
    ensures TargetSize(n) % NFU_ALIGN_SIZE == 0 && TargetSize(n) < 4 * n + NFU_ALIGN_SIZE
  {
    TargetWithin(n);
    hide TargetSize;
    if hasWeight {
      PaddedC(c, isHalf);
      hide WeightSpace;
      ScaledMultiple(n, ComputeC(c, true, isHalf), NFU_ALIGN_SIZE);
    } else {
      var s := ComputeSize(n, c, false, isHalf);
      PadUpIsCeiling(n * c * FLOAT_BYTES, ComputeAlign(isHalf));
      hide PadUp;
      if isHalf {
        HalfAligned(s);
      }
    }
  }

  lemma BuffersHold(n: nat, c: nat, hasWeight: bool, isHalf: bool)
    ensures 4 * (n * c) <= ComputeSize(n, c, hasWeight, isHalf) && 4 * n <= TargetSize(n)
    ensures 256 <= Tail(c, hasWeight, isHalf) - (if hasWeight then c * (if isHalf then 2 else 4) else 0) < 384
  {
    PadUpIsCeiling(n * INT32_BYTES, NFU_ALIGN_SIZE);
    PadUpIsCeiling(c * (if isHalf then 2 else FLOAT_BYTES), NFU_ALIGN_SIZE);
    hide PadUp;
    if hasWeight {
      PadUpIsCeiling(c, AlignNum(isHalf));
      MulMonotone(c, PadUp(c, AlignNum(isHalf)), n);
      assert c * n == n * c && PadUp(c, AlignNum(isHalf)) * n == n * PadUp(c, AlignNum(isHalf));
    } else {
      PadUpIsCeiling(n * c * FLOAT_BYTES, ComputeAlign(isHalf));
    }
  }

  lemma TargetWithin(n: nat)
    ensures TargetSize(n) % NFU_ALIGN_SIZE == 0 && TargetSize(n) < 4 * n + NFU_ALIGN_SIZE
  {
    PadUpIsCeiling(n * INT32_BYTES, NFU_ALIGN_SIZE);
  }

  lemma HalfAligned(s: nat)
    requires s % (2 * NFU_ALIGN_SIZE) == 0
    ensures s % NFU_ALIGN_SIZE == 0
  {
  }

  lemma ScaledMultiple(n: nat, cc: nat, y: nat)
    requires 0 < y && 4 * cc % y == 0
    ensures n * cc * 4 % y == 0 && n * cc * 4 == 4 * (n * cc)
  {
    var k := 4 * cc / y;
    assert 4 * cc == y * k;
    assert n * cc * 4 == n * (4 * cc) == n * k * y;
    MultipleMod(n * k, y);
  }
}
