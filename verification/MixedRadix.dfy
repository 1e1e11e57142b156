/** Positions in a shape: the map from multi-indices to positions by suffix products, and its inverse. */
module MixedRadix {
  import Rounding

  function Product(dims: seq<int>): int {
    if dims == [] then 1 else dims[0] * Product(dims[1..])
  }

  /** The product of the dimensions behind dimension i. */
  function Suffix(dims: seq<int>, i: nat): int
    requires i < |dims|
  {
    Product(dims[i + 1..])
  }

  predicate Positive(dims: seq<int>) { forall i | 0 <= i < |dims| :: 1 <= dims[i] }

  predicate NonNegative(dims: seq<int>) { forall i | 0 <= i < |dims| :: 0 <= dims[i] }

  predicate InRange(index: seq<int>, dims: seq<int>) {
    |index| == |dims| && forall i | 0 <= i < |dims| :: 0 <= index[i] < dims[i]
  }

  /** The sum of index times stride. */
  function Weighted(index: seq<int>, strides: seq<int>): int
    requires |index| == |strides|
  {
    if index == [] then 0 else index[0] * strides[0] + Weighted(index[1..], strides[1..])
  }

  function SuffixProducts(dims: seq<int>): (s: seq<int>)
    ensures |s| == |dims|
  {
    seq(|dims|, i requires 0 <= i < |dims| => Suffix(dims, i))
  }

  /** The position of a multi-index in a dense shape. */
  function Position(index: seq<int>, dims: seq<int>): int
    requires |index| == |dims|
  {
    if dims == [] then 0 else index[0] * Product(dims[1..]) + Position(index[1..], dims[1..])
  }

  /** The multi-index at a position. */
  function IndexAt(n: int, dims: seq<int>): (index: seq<int>)
    requires Positive(dims)
    ensures |index| == |dims|
    decreases |dims|
  {
    if dims == [] then []
    else
      ProductPositive(dims[1..]);
      [n / Product(dims[1..])] + IndexAt(n % Product(dims[1..]), dims[1..])
  }

  lemma {:induction false} ProductPositive(dims: seq<int>)
    requires Positive(dims)
    ensures 1 <= Product(dims)
  {
    if dims != [] {
      ProductPositive(dims[1..]);
      Rounding.MulMonotone(1, dims[0], Product(dims[1..]));
    }
  }

  lemma {:induction false} ProductNonNegative(dims: seq<int>)
    requires NonNegative(dims)
    ensures 0 <= Product(dims)
  {
    if dims != [] {
      ProductNonNegative(dims[1..]);
      Rounding.MulMonotone(0, dims[0], Product(dims[1..]));
    }
  }

  lemma {:induction false} ProductSnoc(dims: seq<int>, i: nat)
    requires i < |dims|
    ensures Product(dims[..i + 1]) == Product(dims[..i]) * dims[i]
    decreases i
  {
    if i == 0 {
      assert dims[..1] == [dims[0]] && [dims[0]][1..] == [];
    } else {
      ProductSnoc(dims[1..], i - 1);
      assert dims[..i + 1][1..] == dims[1..][..i] && dims[..i][1..] == dims[1..][..i - 1];
    }
  }

  lemma {:induction false} SuffixWithin(dims: seq<int>, i: nat)
    requires Positive(dims) && i < |dims|
    ensures 1 <= Suffix(dims, i) <= Product(dims)
    decreases i
  {
    ProductPositive(dims[1..]);
    Rounding.MulMonotone(1, dims[0], Product(dims[1..]));
    if i > 0 {
      SuffixWithin(dims[1..], i - 1);
      assert dims[1..][i - 1 + 1..] == dims[i + 1..];
    }
  }

  lemma {:induction false} PositionIsWeighted(index: seq<int>, dims: seq<int>)
    requires |index| == |dims|
    ensures Weighted(index, SuffixProducts(dims)) == Position(index, dims)
  {
    if dims != [] {
      PositionIsWeighted(index[1..], dims[1..]);
      assert SuffixProducts(dims)[1..] == SuffixProducts(dims[1..]) by { TailSuffixes(dims); }
      assert dims[0 + 1..] == dims[1..];
    }
  }

  lemma TailSuffixes(dims: seq<int>)
    requires dims != []
    ensures SuffixProducts(dims)[1..] == SuffixProducts(dims[1..])
  {
    forall i | 0 <= i < |dims| - 1 ensures SuffixProducts(dims)[1..][i] == SuffixProducts(dims[1..])[i] {
      assert dims[1..][i + 1..] == dims[(i + 1) + 1..];
    }
  }

  /** Multi-indices in range have positions in range, and are found there again. */
  lemma {:induction false} IndexOfPosition(index: seq<int>, dims: seq<int>)
    requires Positive(dims) && InRange(index, dims)
    ensures 0 <= Position(index, dims) < Product(dims) && IndexAt(Position(index, dims), dims) == index
  {
    if dims != [] {
      var p := Product(dims[1..]);
      ProductPositive(dims[1..]);
      IndexOfPosition(index[1..], dims[1..]);
      var rest := Position(index[1..], dims[1..]);
      Rounding.DivModUnique(index[0] * p + rest, p, index[0], rest);
      Rounding.MulMonotone(0, index[0], p);
      Rounding.MulMonotone(index[0] + 1, dims[0], p);
      assert (index[0] + 1) * p == index[0] * p + p;
      assert index == [index[0]] + index[1..];
    }
  }

  lemma PositionCons(k: int, rest: seq<int>, dims: seq<int>)
    requires dims != [] && |rest| == |dims| - 1
    ensures Position([k] + rest, dims) == k * Product(dims[1..]) + Position(rest, dims[1..])
    ensures InRange([k] + rest, dims) <==> 0 <= k < dims[0] && InRange(rest, dims[1..])
  {
    var index := [k] + rest;
    assert index[1..] == rest;
    if 0 <= k < dims[0] && InRange(rest, dims[1..]) {
      forall i | 0 <= i < |dims| ensures 0 <= index[i] < dims[i] {
        assert i > 0 ==> index[i] == rest[i - 1] && dims[i] == dims[1..][i - 1];
      }
    }
    if InRange(index, dims) {
      forall i | 0 <= i < |rest| ensures 0 <= rest[i] < dims[1..][i] {
        assert index[i + 1] == rest[i] && dims[i + 1] == dims[1..][i];
      }
    }
  }

  /** Every position is that of a multi-index in range. */
  lemma {:induction false} PositionOfIndex(n: int, dims: seq<int>)
    requires Positive(dims) && 0 <= n < Product(dims)
    ensures InRange(IndexAt(n, dims), dims) && Position(IndexAt(n, dims), dims) == n
    decreases |dims|
  {
    if dims != [] {
      var p := Product(dims[1..]);
      ProductPositive(dims[1..]);
      var k, r := n / p, n % p;
      assert n == k * p + r;
      Rounding.DivBelow(n, p, dims[0]);
      Rounding.DivAtLeast(n, p, 0);
      assert IndexAt(n, dims) == [k] + IndexAt(r, dims[1..]);
      hide Position, Product, InRange;
      PositionOfIndex(r, dims[1..]);
      PositionCons(k, IndexAt(r, dims[1..]), dims);
    }
  }
}
