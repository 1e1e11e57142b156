/**
 Strides, contiguity tests and element counts of tensor descriptors. Machine products wrap.

 The main results: the strides a descriptor infers for itself are never reported as strided by isStrideTensor,
 on any dimensions (DenseNeverStrided); the same test in gen_case keeps its running product in 32 bits and
 agrees on all strides exactly when every suffix product that matters fits (TestsAgreeExactly, DifferExactly);
 the stride count is one more than the largest offset of any element (StrideCountReached), and gen_case's count is
 the same under an exact condition (CountsEqualExactly); a tensor is not strided exactly if every element lies at its
 dense position (NotStridedExactly), and then multi-indices and positions correspond one to one (DensePositions).
 */
module TensorLayout {
  import opened MachineInts
  import opened MixedRadix
  import Rounding

  // ----- A descriptor -----

  class Tensor {
    const dtypeSize: nat
    var dims: seq<int>
    var strides: seq<int>
    var totalElementNum: nat
    var totalTensorSize: nat

    constructor (dtypeSize: nat)
      ensures this.dtypeSize == dtypeSize && dims == [] && strides == [] && totalElementNum == 0 && totalTensorSize == 0
    {
      this.dtypeSize := dtypeSize;
      dims, strides, totalElementNum, totalTensorSize := [], [], 0, 0;
    }

    /** Set the dimensions; infer dense strides and the sizes. */
    method SetTensorDescriptorDim(dimSize: seq<int>)
      modifies this
      ensures dims == dimSize && strides == DenseStrides(dimSize)
      ensures totalElementNum == ToUint64(Product(dimSize)) && totalTensorSize == ToUint64(Product(dimSize) * dtypeSize)
    {
      hide ToUint64, ToInt64;
      dims := dimSize;
      strides := dimSize;
      var base := 1;
      var i := |dimSize| - 1;
      WrapOne();
      assert dimSize[i + 1..] == [];
      while 0 <= i
        invariant -1 <= i < |dimSize| && dims == dimSize && |strides| == |dimSize|
        invariant base == ToUint64(Product(dimSize[i + 1..]))
        invariant forall k | i < k < |dimSize| :: strides[k] == ToInt64(Suffix(dimSize, k))
      {
        SuffixStep(dimSize, i);
        WrapTimes(Suffix(dimSize, i), dimSize[i]);
        strides := strides[i := ToInt64(base)];
        base := ToUint64(base * dimSize[i]);
        i := i - 1;
      }
      assert dimSize[0..] == dimSize;
      totalElementNum := base;
      WrapTimes(Product(dimSize), dtypeSize);
      totalTensorSize := ToUint64(totalElementNum * dtypeSize);
    }
  }

  function DenseStrides(dims: seq<int>): (s: seq<int>)
    ensures |s| == |dims|
  {
    seq(|dims|, i requires 0 <= i < |dims| => ToInt64(Suffix(dims, i)))
  }

  lemma WrapOne()
    ensures ToUint64(1) == 1 && ToInt64(1) == 1 && ToInt32(1) == 1
  {
  }

  lemma SuffixStep(dims: seq<int>, i: nat)
    requires i < |dims|
    ensures Product(dims[i..]) == dims[i] * Suffix(dims, i)
  {
    assert dims[i..][1..] == dims[i + 1..];
  }

  // ----- The two tests -----

  /** Some dimension other than 1 has another stride than a dense tensor's. */
  predicate Strided(dims: seq<int>, strides: seq<int>)
    requires |dims| == |strides|
  {
    exists i :: 0 <= i < |dims| && dims[i] != 1 && strides[i] != ToInt64(Suffix(dims, i))
  }

  /** The same with products in 32 bits. */
  predicate Strided32(dims: seq<int>, strides: seq<int>)
    requires |dims| == |strides|
  {
    exists i :: 0 <= i < |dims| && dims[i] != 1 && strides[i] != ToInt32(Suffix(dims, i))
  }

  method IsStrideTensor(dims: seq<int>, strides: seq<int>) returns (strided: bool)
    requires |dims| == |strides|
    ensures strided <==> Strided(dims, strides)
  {
    hide ToInt64;
    var base := 1;
    var i := |dims| - 1;
    WrapOne();
    assert dims[i + 1..] == [];
    strided := false;
    while 0 <= i
      invariant -1 <= i < |dims| && base == ToInt64(Product(dims[i + 1..])) && !strided
      invariant forall k | i < k < |dims| :: dims[k] == 1 || strides[k] == ToInt64(Suffix(dims, k))
    {
      SuffixStep(dims, i);
      WrapTimes(Suffix(dims, i), dims[i]);
      if dims[i] != 1 && strides[i] != base {
        strided := true;
        break;
      }
      base := ToInt64(base * dims[i]);
      i := i - 1;
    }
  }

  method IfNeedTensorStrideProcess(dims: seq<int>, strides: seq<int>) returns (need: bool)
    requires |dims| == |strides|
    ensures need <==> Strided32(dims, strides)
  {
    hide ToInt32;
    var base := 1;
    need := false;
    var i := |dims| - 1;
    WrapOne();
    assert dims[i + 1..] == [];
    while 0 <= i
      invariant -1 <= i < |dims| && base == ToInt32(Product(dims[i + 1..])) && !need
      invariant forall k | i < k < |dims| :: dims[k] == 1 || strides[k] == ToInt32(Suffix(dims, k))
    {
      SuffixStep(dims, i);
      WrapTimes(Suffix(dims, i), dims[i]);
      if dims[i] != 1 {
        if strides[i] == base {
          base := ToInt32(base * dims[i]);
        } else {
          need := true;
          break;
        }
      }
      i := i - 1;
    }
  }

  /** Inferred strides are never reported as strided, whatever the dimensions. */
  lemma DenseNeverStrided(dims: seq<int>)
    ensures !Strided(dims, DenseStrides(dims))
  {
  }

  /** The elements behind dimension i, where it matters, can be counted in 32 bits. */
  predicate Fits32(dims: seq<int>, i: nat)
    requires i < |dims|
  {
    dims[i] == 1 || ToInt32(Suffix(dims, i)) == ToInt64(Suffix(dims, i))
  }

  predicate SuffixesFit(dims: seq<int>) {
    forall i | 0 <= i < |dims| :: Fits32(dims, i)
  }

  /** The strides a dense tensor would have if they were kept in 32 bits. */
  function CutStrides(dims: seq<int>): (s: seq<int>)
    ensures |s| == |dims|
  {
    seq(|dims|, i requires 0 <= i < |dims| => ToInt32(Suffix(dims, i)))
  }

  /** The strides are those of `dense` for every dimension that has a step. */
  predicate Matches(dims: seq<int>, strides: seq<int>, dense: seq<int>)
    requires |dims| == |strides| == |dense|
  {
    forall i | 0 <= i < |dims| && dims[i] != 1 :: strides[i] == dense[i]
  }

  /** On one descriptor the tests differ exactly if a product that matters is cut, and the strides are the dense
      ones, cut or uncut. */
  lemma DifferExactly(dims: seq<int>, strides: seq<int>)
    requires |dims| == |strides|
    ensures (Strided(dims, strides) <==> !Strided32(dims, strides)) <==>
            !SuffixesFit(dims) && (Matches(dims, strides, DenseStrides(dims)) ||
                                   Matches(dims, strides, CutStrides(dims)))
  {
    hide ToInt32, ToInt64;
    PassesMeans(dims, strides);
    hide Matches, Strided, Strided32;
    if SuffixesFit(dims) {
      FittingAgree(dims, strides);
    } else if !Strided(dims, strides) && !Strided32(dims, strides) {
      CutDiffers(dims, strides);
    }
  }

  lemma PassesMeans(dims: seq<int>, strides: seq<int>)
    requires |dims| == |strides|
    ensures Strided(dims, strides) <==> !Matches(dims, strides, DenseStrides(dims))
    ensures Strided32(dims, strides) <==> !Matches(dims, strides, CutStrides(dims))
  {
    hide ToInt32, ToInt64;
  }

  lemma FittingAgree(dims: seq<int>, strides: seq<int>)
    requires |dims| == |strides| && SuffixesFit(dims)
    ensures Strided(dims, strides) <==> Strided32(dims, strides)
  {
    hide ToInt32, ToInt64;
    if Strided(dims, strides) {
      var i :| 0 <= i < |dims| && dims[i] != 1 && strides[i] != ToInt64(Suffix(dims, i));
      assert Fits32(dims, i);
    }
    if Strided32(dims, strides) {
      var i :| 0 <= i < |dims| && dims[i] != 1 && strides[i] != ToInt32(Suffix(dims, i));
      assert Fits32(dims, i);
    }
  }

  /** No strides pass both tests if a product that matters is cut. */
  lemma CutDiffers(dims: seq<int>, strides: seq<int>)
    requires |dims| == |strides| && !SuffixesFit(dims)
    ensures Strided(dims, strides) || Strided32(dims, strides)
  {
    hide ToInt32, ToInt64;
    var i :| 0 <= i < |dims| && !Fits32(dims, i);
    assert strides[i] != ToInt32(Suffix(dims, i)) || strides[i] != ToInt64(Suffix(dims, i));
  }

  /** The tests agree on all strides exactly when every product that matters fits 32 bits. */
  lemma TestsAgreeExactly(dims: seq<int>)
    ensures (forall strides | |strides| == |dims| :: Strided(dims, strides) <==> Strided32(dims, strides)) <==>
            SuffixesFit(dims)
  {
    hide Strided, Strided32, SuffixesFit, DenseStrides, CutStrides;
    forall strides | |strides| == |dims| && SuffixesFit(dims)
      ensures Strided(dims, strides) <==> Strided32(dims, strides)
    {
      FittingAgree(dims, strides);
    }
    DenseNeverStrided(dims);
    if !SuffixesFit(dims) {
      CutDiffers(dims, DenseStrides(dims));
    }
  }

  /** On inferred strides gen_case reports a stride exactly when a product that matters leaves 32 bits. */
  lemma DenseReportedExactly(dims: seq<int>)
    ensures Strided32(dims, DenseStrides(dims)) <==> !SuffixesFit(dims)
  {
    hide ToInt32, ToInt64;
    if !SuffixesFit(dims) {
      var i :| 0 <= i < |dims| && !Fits32(dims, i);
      assert DenseStrides(dims)[i] == ToInt64(Suffix(dims, i));
    } else {
      forall i | 0 <= i < |dims| && dims[i] != 1 ensures DenseStrides(dims)[i] == ToInt32(Suffix(dims, i)) {
        assert Fits32(dims, i);
      }
    }
  }

  /** Two rows of 2^31 elements: dense, but reported as strided by gen_case. */
  lemma LargeDenseReported()
    ensures !Strided([2, 0x8000_0000], [0x8000_0000, 1]) && Strided32([2, 0x8000_0000], [0x8000_0000, 1])
  {
    var dims := [2, 0x8000_0000];
    LargeSuffixes(0x8000_0000);
    assert [0x8000_0000, 1][0] != ToInt32(Suffix(dims, 0)) && dims[0] != 1;
  }

  lemma LargeSuffixes(d: int)
    ensures Suffix([2, d], 0) == d && Suffix([2, d], 1) == 1
  {
    assert [2, d][1..] == [d] && [2, d][2..] == [] && [d][1..] == [];
    assert Product([d]) == d * Product([]);
  }

  // ----- The two element counts -----

  /** One more than the offset of the last element; StrideCountReached says that none is further. */
  function Reach(dims: seq<int>, strides: seq<int>): int
    requires |dims| == |strides|
  {
    if dims == [] then 1 else Reach(dims[1..], strides[1..]) + (dims[0] - 1) * strides[0]
  }

  function StrideCount(dims: seq<int>, strides: seq<int>): nat
    requires |dims| == |strides|
  {
    if 0 in dims then 0 else ToUint64(Reach(dims, strides))
  }

  function TensorSize(dims: seq<int>, strides: seq<int>): nat
    requires |dims| == |strides|
  {
    var count := ToUint64(Product(dims));
    if count == 1 then 1 else if Strided32(dims, strides) then StrideCount(dims, strides) else count
  }

  /** Reach counts the dimensions up to i from the front. */
  lemma {:induction false} ReachTake(dims: seq<int>, strides: seq<int>, i: nat)
    requires |dims| == |strides| && i < |dims|
    ensures Reach(dims[..i + 1], strides[..i + 1]) == Reach(dims[..i], strides[..i]) + (dims[i] - 1) * strides[i]
    decreases i
  {
    if i == 0 {
      assert dims[..1] == [dims[0]] && strides[..1] == [strides[0]] && [dims[0]][1..] == [] && [strides[0]][1..] == [];
    } else {
      ReachTake(dims[1..], strides[1..], i - 1);
      assert dims[..i + 1][1..] == dims[1..][..i] && strides[..i + 1][1..] == strides[1..][..i];
      assert dims[..i][1..] == dims[1..][..i - 1] && strides[..i][1..] == strides[1..][..i - 1];
    }
  }

  method ShapeStrideCount(dims: seq<int>, strides: seq<int>) returns (total: nat)
    requires |dims| == |strides|
    ensures total == StrideCount(dims, strides)
  {
    hide ToUint64;
    total := 1;
    WrapOne();
    assert dims[..0] == [] && strides[..0] == [];
    for i := 0 to |dims|
      invariant 0 !in dims[..i] && total == ToUint64(Reach(dims[..i], strides[..i]))
    {
      if dims[i] == 0 {
        return 0;
      }
      ReachTake(dims, strides, i);
      WrapPlus(Reach(dims[..i], strides[..i]), (dims[i] - 1) * strides[i]);
      total := ToUint64(total + (dims[i] - 1) * strides[i]);
      assert dims[..i + 1] == dims[..i] + [dims[i]];
    }
    assert dims[..|dims|] == dims && strides[..|dims|] == strides;
  }

  lemma WrapPlus(x: int, y: int)
    ensures ToUint64(ToUint64(x) + y) == ToUint64(x + y)
  {
    var k := x / TWO_64;
    assert x == k * TWO_64 + x % TWO_64;
    ModPlus(x % TWO_64 + y, k, TWO_64);
    assert x % TWO_64 + y + k * TWO_64 == x + y;
  }

  method GetTensorSize(dims: seq<int>, strides: seq<int>) returns (total: nat)
    requires |dims| == |strides|
    ensures total == TensorSize(dims, strides)
  {
    hide ToUint64;
    var count := 1;
    WrapOne();
    assert dims[..0] == [];
    for i := 0 to |dims|
      invariant count == ToUint64(Product(dims[..i]))
    {
      ProductSnoc(dims, i);
      WrapTimes(Product(dims[..i]), dims[i]);
      count := ToUint64(count * dims[i]);
    }
    assert dims[..|dims|] == dims;
    total := 1;
    if count != 1 {
      var need := IfNeedTensorStrideProcess(dims, strides);
      if need {
        total := ShapeStrideCount(dims, strides);
      } else {
        total := count;
      }
    }
  }

  /** The multi-index of the last element. */
  function LastIndex(dims: seq<int>): (index: seq<int>)
    ensures |index| == |dims|
  {
    seq(|dims|, i requires 0 <= i < |dims| => dims[i] - 1)
  }

  lemma {:induction false} WithinReach(index: seq<int>, dims: seq<int>, strides: seq<int>)
    requires |dims| == |strides| && NonNegative(strides) && InRange(index, dims)
    ensures 0 <= Weighted(index, strides) < Reach(dims, strides)
    decreases |dims|
  {
    if dims != [] {
      InRangeTail(index, dims);
      WithinReach(index[1..], dims[1..], strides[1..]);
      Rounding.MulMonotone(0, index[0], strides[0]);
      Rounding.MulMonotone(index[0], dims[0] - 1, strides[0]);
    }
  }

  lemma {:induction false} LastReaches(dims: seq<int>, strides: seq<int>)
    requires |dims| == |strides|
    ensures Weighted(LastIndex(dims), strides) == Reach(dims, strides) - 1
    decreases |dims|
  {
    if dims != [] {
      LastReaches(dims[1..], strides[1..]);
      assert LastIndex(dims)[1..] == LastIndex(dims[1..]);
    }
  }

  lemma NothingInRange(index: seq<int>, dims: seq<int>, k: nat)
    requires k < |dims| && dims[k] == 0
    ensures !InRange(index, dims)
  {
  }

  /** The stride count is one more than the largest offset of any element, and 0 if there is none, for all strides;
      all offsets being below 2^64 - 1. */
  lemma StrideCountReached(dims: seq<int>, strides: seq<int>)
    requires |dims| == |strides| && NonNegative(dims) && NonNegative(strides)
    requires forall index | InRange(index, dims) :: Weighted(index, strides) < TWO_64 - 1
    ensures forall index | InRange(index, dims) :: 0 <= Weighted(index, strides) < StrideCount(dims, strides)
    ensures 0 < StrideCount(dims, strides) ==>
              exists index :: InRange(index, dims) && Weighted(index, strides) == StrideCount(dims, strides) - 1
    ensures StrideCount(dims, strides) == 0 <==> forall index :: !InRange(index, dims)
  {
    if 0 in dims {
      var k :| 0 <= k < |dims| && dims[k] == 0;
      forall index ensures !InRange(index, dims) {
        NothingInRange(index, dims, k);
      }
    } else {
      ToPositive(dims);
      LastReaches(dims, strides);
      assert InRange(LastIndex(dims), dims);
      WithinReach(LastIndex(dims), dims, strides);
      FitsInt32(Reach(dims, strides));
      forall index | InRange(index, dims) ensures 0 <= Weighted(index, strides) < Reach(dims, strides) {
        WithinReach(index, dims, strides);
      }
    }
  }

  /** Two rows of three, each padded to four: the last element lies at offset 6. */
  lemma PaddedRowsCount()
    ensures StrideCount([2, 3], [4, 1]) == 7 && TensorSize([2, 3], [4, 1]) == 7
  {
    LargeSuffixes(3);
    assert [2, 3][1..] == [3] && [3][1..] == [] && [4, 1][1..] == [1] && [1][1..] == [];
    assert Product([3]) == 3 * Product([]) && Product([2, 3]) == 2 * Product([3]);
    assert Reach([3], [1]) == Reach([], []) + (3 - 1) * 1 && Reach([2, 3], [4, 1]) == Reach([3], [1]) + (2 - 1) * 4;
    assert [2, 3][0] != 1 && [4, 1][0] != ToInt32(Suffix([2, 3], 0));
  }

  lemma {:induction false} ZeroProduct(dims: seq<int>)
    requires 0 in dims
    ensures Product(dims) == 0
  {
    if dims[0] != 0 {
      assert 0 in dims[1..];
      ZeroProduct(dims[1..]);
    }
  }

  lemma ToPositive(dims: seq<int>)
    requires NonNegative(dims) && 0 !in dims
    ensures Positive(dims)
  {
    forall i | 0 <= i < |dims| ensures 1 <= dims[i] {
      assert dims[i] in dims;
    }
  }

  /** Strides that pass the 32-bit test. */
  predicate Passes32(dims: seq<int>, strides: seq<int>) {
    |dims| == |strides| && forall i | 0 <= i < |dims| :: dims[i] == 1 || strides[i] == ToInt32(Suffix(dims, i))
  }

  lemma PassesTail(dims: seq<int>, strides: seq<int>)
    requires Passes32(dims, strides) && dims != []
    ensures Passes32(dims[1..], strides[1..])
  {
    forall i | 0 <= i < |dims| - 1 ensures dims[1..][i] == 1 || strides[1..][i] == ToInt32(Suffix(dims[1..], i)) {
      assert dims[1..][i + 1..] == dims[(i + 1) + 1..];
      assert dims[1..][i] == dims[i + 1] && strides[1..][i] == strides[i + 1];
    }
  }

  lemma FitsTail(dims: seq<int>)
    requires dims != []
    ensures SuffixesFit(dims) <==> Fits32(dims, 0) && SuffixesFit(dims[1..])
  {
    forall i | 0 <= i < |dims| - 1 ensures Fits32(dims[1..], i) <==> Fits32(dims, i + 1) {
      assert dims[1..][i + 1..] == dims[(i + 1) + 1..];
    }
    if Fits32(dims, 0) && SuffixesFit(dims[1..]) {
      forall i | 0 <= i < |dims| ensures Fits32(dims, i) {
        assert i > 0 ==> Fits32(dims[1..], i - 1);
      }
    }
    if SuffixesFit(dims) {
      assert Fits32(dims, 0);
      forall i | 0 <= i < |dims[1..]| ensures Fits32(dims[1..], i) {
        assert Fits32(dims, i + 1);
      }
    }
  }

  /** (d-1) times a product that may have been cut to 32 bits, against the product itself. */
  lemma OneStride(d: int, p: int, s: int)
    requires 1 <= d && 1 <= p && d * p <= 0x7fff_ffff_ffff_ffff && (d == 1 || s == ToInt32(p))
    ensures -((d - 1) * p) <= (d - 1) * s <= (d - 1) * p
    ensures (d - 1) * s == (d - 1) * p <==> d == 1 || ToInt32(p) == ToInt64(p)
  {
    Rounding.MulMonotone(1, d, p);
    FitsInt32(p);
    if d > 1 {
      assert -p <= s <= p && (s == p <==> ToInt32(p) == ToInt64(p));
      hide ToInt32, ToInt64;
      ScaledWithin(d - 1, s, p);
    }
  }

  lemma ScaledWithin(k: nat, s: int, p: int)
    requires 0 < k && -p <= s <= p
    ensures -(k * p) <= k * s <= k * p && (k * s == k * p <==> s == p)
  {
    Rounding.MulMonotone(-p, s, k);
    Rounding.MulMonotone(s, p, k);
    if s < p {
      Rounding.MulMonotone(s + 1, p, k);
      assert (s + 1) * k == s * k + k;
    }
  }

  lemma Together(rest: int, term: int, p: int, most: int, fits: bool, restFits: bool)
    requires 2 - p <= rest <= p && (rest == p <==> restFits)
    requires -most <= term <= most && (term == most <==> fits)
    ensures 2 - (p + most) <= rest + term <= p + most && (rest + term == p + most <==> fits && restFits)
  {
  }

  /** What strides that pass the 32-bit test reach: the element count, or less if one was cut. */
  lemma {:induction false} ReachOfPassing(dims: seq<int>, strides: seq<int>)
    requires Positive(dims) && Passes32(dims, strides) && Product(dims) <= 0x7fff_ffff_ffff_ffff
    ensures 2 - Product(dims) <= Reach(dims, strides) <= Product(dims)
    ensures Reach(dims, strides) == Product(dims) <==> SuffixesFit(dims)
    decreases |dims|
  {
    if dims != [] {
      var d, p, s := dims[0], Product(dims[1..]), strides[0];
      ProductPositive(dims[1..]);
      PassesTail(dims, strides);
      assert Suffix(dims, 0) == p by { assert dims[0 + 1..] == dims[1..]; }
      assert Product(dims) == d * p && Reach(dims, strides) == Reach(dims[1..], strides[1..]) + (d - 1) * s;
      assert d == 1 || s == ToInt32(p);
      FitsTail(dims);
      assert Fits32(dims, 0) <==> d == 1 || ToInt32(p) == ToInt64(p);
      hide SuffixesFit, ToInt32, ToInt64, Fits32, Product, Reach, Passes32;
      Rounding.MulMonotone(1, d, p);
      ReachOfPassing(dims[1..], strides[1..]);
      OneStride(d, p, s);
      Distribute(d, p);
      Together(Reach(dims[1..], strides[1..]), (d - 1) * s, p, (d - 1) * p, Fits32(dims, 0), SuffixesFit(dims[1..]));
    }
  }

  lemma Distribute(d: int, p: int)
    ensures d * p == p + (d - 1) * p
  {
  }

  lemma NotStrided32(dims: seq<int>, strides: seq<int>)
    requires |dims| == |strides|
    ensures !Strided32(dims, strides) <==> Passes32(dims, strides)
  {
    hide ToInt32;
  }

  lemma {:induction false} OnesReachOne(dims: seq<int>, strides: seq<int>)
    requires |dims| == |strides| && Positive(dims) && Product(dims) == 1
    ensures Reach(dims, strides) == 1
  {
    if dims != [] {
      ProductPositive(dims[1..]);
      if dims[0] > 1 {
        Rounding.MulMonotone(2, dims[0], Product(dims[1..]));
      }
      OnesReachOne(dims[1..], strides[1..]);
    }
  }

  /** gen_case's element count is the stride count exactly when a dimension is 0, gen_case takes the strides
      into account, or no product that matters leaves 32 bits. */
  lemma CountsEqualExactly(dims: seq<int>, strides: seq<int>)
    requires |dims| == |strides| && NonNegative(dims) && Product(dims) <= 0x7fff_ffff_ffff_ffff
    ensures TensorSize(dims, strides) == StrideCount(dims, strides) <==>
            0 in dims || Strided32(dims, strides) || SuffixesFit(dims)
  {
    hide ToInt32, ToInt64, Strided32, SuffixesFit;
    var p := Product(dims);
    if 0 in dims {
      ZeroProduct(dims);
      FitsInt32(0);
    } else {
      ToPositive(dims);
      ProductPositive(dims);
      FitsInt32(p);
      if p == 1 {
        OnesReachOne(dims, strides);
        OnesFit(dims);
      } else if !Strided32(dims, strides) {
        NotStrided32(dims, strides);
        ReachOfPassing(dims, strides);
        WrapInjective(Reach(dims, strides), p);
      }
    }
  }

  lemma {:induction false} OnesFit(dims: seq<int>)
    requires Positive(dims) && Product(dims) == 1
    ensures SuffixesFit(dims)
  {
    if dims != [] {
      ProductPositive(dims[1..]);
      if dims[0] > 1 {
        Rounding.MulMonotone(2, dims[0], Product(dims[1..]));
      }
      OnesFit(dims[1..]);
      FitsTail(dims);
    }
  }

  lemma WrapInjective(x: int, y: int)
    requires -0x8000_0000_0000_0000 < x <= y && 0 <= y <= 0x7fff_ffff_ffff_ffff
    ensures ToUint64(x) == ToUint64(y) <==> x == y
  {
  }

  /** Descriptor strides [0, 1] on dimensions [2, 2^32]: gen_case counts twice the elements there are. */
  lemma CutStrideMiscounts()
    ensures TensorSize([2, TWO_32], [0, 1]) == 2 * TWO_32 && StrideCount([2, TWO_32], [0, 1]) == TWO_32
  {
    var dims, strides := [2, TWO_32], [0, 1];
    LargeSuffixes(TWO_32);
    assert dims[1..] == [TWO_32] && [TWO_32][1..] == [] && strides[1..] == [1] && [1][1..] == [];
    assert Product([TWO_32]) == TWO_32 * Product([]) && Product(dims) == 2 * Product([TWO_32]);
    assert Reach([TWO_32], [1]) == Reach([], []) + (TWO_32 - 1) * 1;
    assert !Strided32(dims, strides);
  }

  // ----- Multi-indices and positions -----

  /** In a tensor that is not strided, a multi-index times the strides is its position in the dense order. */
  lemma {:induction false} WeightedIsPosition(index: seq<int>, dims: seq<int>, strides: seq<int>)
    requires |dims| == |strides| && Positive(dims) && InRange(index, dims) && Product(dims) <= 0x7fff_ffff_ffff_ffff
    requires !Strided(dims, strides)
    ensures Weighted(index, strides) == Position(index, dims)
    decreases |dims|
  {
    if dims != [] {
      var p := Product(dims[1..]);
      ProductPositive(dims[1..]);
      Rounding.MulMonotone(1, dims[0], p);
      FitsInt32(p);
      assert Suffix(dims, 0) == p by { assert dims[0 + 1..] == dims[1..]; }
      assert dims[0] == 1 || strides[0] == p;
      StridedTail(dims, strides);
      InRangeTail(index, dims);
      WeightedIsPosition(index[1..], dims[1..], strides[1..]);
      assert index[0] * strides[0] == index[0] * p by { if dims[0] == 1 { assert index[0] == 0; } }
    }
  }

  lemma InRangeTail(index: seq<int>, dims: seq<int>)
    requires InRange(index, dims) && dims != []
    ensures InRange(index[1..], dims[1..])
  {
  }

  lemma StridedTail(dims: seq<int>, strides: seq<int>)
    requires |dims| == |strides| && dims != [] && !Strided(dims, strides)
    ensures !Strided(dims[1..], strides[1..])
  {
    hide ToInt64;
    forall i | 0 <= i < |dims| - 1 ensures dims[1..][i] == 1 || strides[1..][i] == ToInt64(Suffix(dims[1..], i)) {
      assert dims[1..][i + 1..] == dims[(i + 1) + 1..];
      assert dims[1..][i] == dims[i + 1] && strides[1..][i] == strides[i + 1];
    }
  }

  /** 1 along dimension i, 0 along the others. */
  function Step(n: nat, i: nat): (index: seq<int>)
    ensures |index| == n
  {
    seq(n, k => if k == i then 1 else 0)
  }

  lemma {:induction false} StepWeighted(n: nat, i: nat, strides: seq<int>)
    requires |strides| == n
    ensures Weighted(Step(n, i), strides) == if i < n then strides[i] else 0
    decreases n
  {
    if n > 0 {
      assert Step(n, i)[1..] == if i > 0 then Step(n - 1, i - 1) else Step(n - 1, n);
      StepWeighted(n - 1, if i > 0 then i - 1 else n, strides[1..]);
    }
  }

  /** A tensor is not strided exactly if every element lies at its dense position. */
  lemma NotStridedExactly(dims: seq<int>, strides: seq<int>)
    requires |dims| == |strides| && Positive(dims) && Product(dims) <= 0x7fff_ffff_ffff_ffff
    ensures !Strided(dims, strides) <==>
            forall index | InRange(index, dims) :: Weighted(index, strides) == Position(index, dims)
  {
    hide ToInt64, Position, Weighted;
    if Strided(dims, strides) {
      var i :| 0 <= i < |dims| && dims[i] != 1 && strides[i] != ToInt64(Suffix(dims, i));
      var index := Step(|dims|, i);
      assert InRange(index, dims);
      SuffixWithin(dims, i);
      FitsInt32(Suffix(dims, i));
      StepWeighted(|dims|, i, strides);
      StepWeighted(|dims|, i, SuffixProducts(dims));
      PositionIsWeighted(index, dims);
    } else {
      forall index | InRange(index, dims) ensures Weighted(index, strides) == Position(index, dims) {
        WeightedIsPosition(index, dims, strides);
      }
    }
  }

  /** One to one: a multi-index of a tensor that is not strided reaches a position in [0, product of dims) that
      gives it back, and every such position is reached. */
  lemma DensePositions(dims: seq<int>, strides: seq<int>, index: seq<int>, n: int)
    requires |dims| == |strides| && Positive(dims) && Product(dims) <= 0x7fff_ffff_ffff_ffff && !Strided(dims, strides)
    ensures InRange(index, dims) ==>
              0 <= Weighted(index, strides) < Product(dims) && IndexAt(Weighted(index, strides), dims) == index
    ensures 0 <= n < Product(dims) ==> InRange(IndexAt(n, dims), dims) && Weighted(IndexAt(n, dims), strides) == n
  {
    if InRange(index, dims) {
      WeightedIsPosition(index, dims, strides);
      IndexOfPosition(index, dims);
    }
    if 0 <= n < Product(dims) {
      PositionOfIndex(n, dims);
      WeightedIsPosition(IndexAt(n, dims), dims, strides);
    }
  }
}
