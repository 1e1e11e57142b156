/**
 A set of tensors addressed by multi-index, its members laid out one behind the other.

 The main results: in-range multi-indices and members correspond one to one (IndexOneToOne); every byte of the
 set belongs to exactly one member (BytesTile); and the offsets computed all at once, through a 32-bit sum, are
 those computed one by one exactly as long as they stay below 2^31 (OffsetsAgreeExactly).
 */
module TensorSet {
  import opened MachineInts
  import opened MixedRadix
  import Rounding

  /** The bytes of the members before member k. */
  function Before(sizes: seq<nat>, k: nat): nat
    requires k <= |sizes|
  {
    if k == 0 then 0 else Before(sizes, k - 1) + sizes[k - 1]
  }

  /** What a sum kept in 32 bits and stored in 64 makes of an offset. */
  function Through32(x: int): nat { ToUint64(ToInt32(x)) }

  class Set {
    var dimSet: seq<int>
    var dimOffsetBase: seq<int>
    /** The sizes of the members in bytes. */
    var sizes: seq<nat>
    var dataOffset: seq<nat>

    /** The products of the dimensions fit their 32-bit variables, and the sizes leave no 64-bit sum overflowing. */
    ghost predicate Valid()
      reads this
    {
      && ProductsFit(dimSet) && dimOffsetBase == SuffixProducts(dimSet)
      && |sizes| == |dataOffset| == Product(dimSet) && Before(sizes, |sizes|) <= 0x7fff_ffff_ffff_ffff
    }

    /** Products are kept in 32 bits. A negative number of members cannot be allocated. */
    constructor (dims: seq<int>)
      requires 0 <= ToInt32(Product(dims))
      ensures dimSet == dims && sizes == dataOffset == seq(ToInt32(Product(dims)), i => 0)
      ensures |dimOffsetBase| == |dims| && forall k | 0 <= k < |dims| :: dimOffsetBase[k] == ToInt32(Suffix(dims, k))
      ensures Valid() <==> ProductsFit(dims)
    {
      hide ToInt32, ProductsFit;
      dimSet, dimOffsetBase := dims, [];
      sizes, dataOffset := [], [];
      new;
      var setSize := 1;
      OneWraps();
      assert dims[..0] == [];
      for i := 0 to |dims|
        invariant setSize == ToInt32(Product(dims[..i])) && dimSet == dims
        invariant |dimOffsetBase| == i && forall k | 0 <= k < i :: dimOffsetBase[k] == ToInt32(Suffix(dims, k))
      {
        ProductSnoc(dims, i);
        WrapTimes(Product(dims[..i]), dims[i]);
        setSize := ToInt32(setSize * dims[i]);
        var base := OffsetBase(dims, i);
        dimOffsetBase := dimOffsetBase + [base];
      }
      assert dims[..|dims|] == dims;
      sizes := seq(setSize, i => 0);
      dataOffset := seq(setSize, i => 0);
      NoBytes(sizes, |sizes|);
      if ProductsFit(dims) {
        ProductsKept(dims, dimOffsetBase);
      }
    }

    method GetIndex(tensorIndex: seq<int>) returns (index: int)
      requires Valid() && |tensorIndex| == |dimSet|
      ensures index == Position(tensorIndex, dimSet)
    {
      index := 0;
      assert tensorIndex[..0] == [] && dimOffsetBase[..0] == [];
      for i := 0 to |dimSet|
        invariant index == Weighted(tensorIndex[..i], dimOffsetBase[..i])
      {
        WeightedSnoc(tensorIndex, dimOffsetBase, i);
        index := index + tensorIndex[i] * dimOffsetBase[i];
      }
      assert tensorIndex[..|dimSet|] == tensorIndex && dimOffsetBase[..|dimSet|] == dimOffsetBase;
      PositionIsWeighted(tensorIndex, dimSet);
    }

    /** Give member k its size, as initialising its descriptor does. */
    method InitMember(tensorIndex: seq<int>, size: nat)
      requires Valid() && InRange(tensorIndex, dimSet)
      requires Before(sizes, |sizes|) + size <= 0x7fff_ffff_ffff_ffff
      modifies this`sizes
      ensures Valid()
      ensures 0 <= Position(tensorIndex, dimSet) < |sizes| && sizes == old(sizes)[Position(tensorIndex, dimSet) := size]
    {
      var k := GetIndex(tensorIndex);
      InRangePositive(tensorIndex, dimSet);
      IndexOfPosition(tensorIndex, dimSet);
      ResizedBytes(sizes, k, size, |sizes|);
      sizes := sizes[k := size];
    }

    method GetSize() returns (size: nat)
      requires Valid() && sizes != []
      ensures size == Before(sizes, |sizes|)
    {
      size := 0;
      for i := 0 to |sizes|
        invariant size == Before(sizes, i)
      {
        size := size + sizes[i];
      }
    }

    /** The offset of one member, also recorded. */
    method GetOffset(tensorIndex: seq<int>) returns (offset: nat)
      requires Valid() && InRange(tensorIndex, dimSet)
      modifies this`dataOffset
      ensures Valid() && 0 <= Position(tensorIndex, dimSet) < |sizes|
      ensures offset == Before(sizes, Position(tensorIndex, dimSet))
      ensures dataOffset == old(dataOffset)[Position(tensorIndex, dimSet) := offset]
    {
      offset := 0;
      var index := GetIndex(tensorIndex);
      InRangePositive(tensorIndex, dimSet);
      IndexOfPosition(tensorIndex, dimSet);
      for i := 0 to index
        invariant offset == Before(sizes, i)
      {
        offset := offset + sizes[i];
      }
      dataOffset := dataOffset[index := offset];
    }

    /** All offsets at once, through a 32-bit sum. */
    method GetDataOffsets() returns (offsets: seq<nat>)
      requires Valid()
      modifies this`dataOffset
      ensures Valid() && offsets == dataOffset
      ensures forall k | 0 <= k < |offsets| :: offsets[k] == Through32(Before(sizes, k))
    {
      hide ToInt32, ToUint64, Before, ProductsFit, Through32;
      if |dataOffset| == 0 {
        return dataOffset;
      }
      var offset := 0;
      ZeroWraps(sizes);
      dataOffset := dataOffset[0 := offset];
      for i := 0 to |sizes| - 1
        invariant Valid() && offset == ToInt32(Before(sizes, i))
        invariant forall k | 0 <= k <= i :: dataOffset[k] == Through32(Before(sizes, k))
      {
        NextOffset(sizes, i);
        offset := ToInt32(offset + sizes[i]);
        dataOffset := dataOffset[i + 1 := ToUint64(offset)];
      }
      return dataOffset;
    }
  }

  /** The product of the dimensions behind dimension i, in 32 bits. */
  method OffsetBase(dims: seq<int>, i: nat) returns (base: int)
    requires i < |dims|
    ensures base == ToInt32(Suffix(dims, i))
  {
    hide ToInt32;
    var j := i + 1;
    base := 1;
    OneWraps();
    assert dims[i + 1..j] == [];
    while j < |dims|
      invariant i < j <= |dims| && base == ToInt32(Product(dims[i + 1..j]))
    {
      ProductSnoc(dims[i + 1..], j - i - 1);
      assert dims[i + 1..][..j - i - 1] == dims[i + 1..j] && dims[i + 1..][..j - i] == dims[i + 1..j + 1];
      WrapTimes(Product(dims[i + 1..j]), dims[j]);
      base := ToInt32(base * dims[j]);
      j := j + 1;
    }
    assert dims[i + 1..|dims|] == dims[i + 1..];
  }

  lemma OneWraps()
    ensures ToInt32(1) == 1
  {
  }

  /** The number of members and every offset base fit 32 bits. */
  predicate ProductsFit(dims: seq<int>) {
    && 0 <= Product(dims) <= INT32_MAX
    && forall i | 0 <= i < |dims| :: ToInt32(Suffix(dims, i)) == Suffix(dims, i)
  }

  lemma ProductsKept(dims: seq<int>, bases: seq<int>)
    requires ProductsFit(dims) && |bases| == |dims| &&
             forall k | 0 <= k < |dims| :: bases[k] == ToInt32(Suffix(dims, k))
    ensures bases == SuffixProducts(dims) && ToInt32(Product(dims)) == Product(dims)
  {
  }

  /** A set is what it should be exactly if no product is 2^31 or more; with at least one member along every dimension
      this is the number of members, without any it is that of members behind the empty dimension. */
  lemma ProductsFitExactly(dims: seq<int>)
    requires NonNegative(dims)
    ensures ProductsFit(dims) <==>
            Product(dims) <= INT32_MAX && (forall i | 0 <= i < |dims| :: Suffix(dims, i) <= INT32_MAX)
    ensures Positive(dims) ==> (ProductsFit(dims) <==> Product(dims) <= INT32_MAX)
  {
    ProductNonNegative(dims);
    forall i | 0 <= i < |dims| ensures ToInt32(Suffix(dims, i)) == Suffix(dims, i) <==> Suffix(dims, i) <= INT32_MAX {
      ProductNonNegative(dims[i + 1..]);
      FitsInt32(Suffix(dims, i));
    }
    if Positive(dims) {
      forall i | 0 <= i < |dims| ensures Suffix(dims, i) <= Product(dims) {
        SuffixWithin(dims, i);
      }
    }
  }

  lemma {:induction false} WeightedSnoc(index: seq<int>, base: seq<int>, i: nat)
    requires |index| == |base| && i < |index|
    ensures Weighted(index[..i + 1], base[..i + 1]) == Weighted(index[..i], base[..i]) + index[i] * base[i]
    decreases i
  {
    if i == 0 {
      assert index[..1] == [index[0]] && base[..1] == [base[0]] && [index[0]][1..] == [] && [base[0]][1..] == [];
    } else {
      WeightedSnoc(index[1..], base[1..], i - 1);
      assert index[..i + 1][1..] == index[1..][..i] && base[..i + 1][1..] == base[1..][..i];
      assert index[..i][1..] == index[1..][..i - 1] && base[..i][1..] == base[1..][..i - 1];
    }
  }

  lemma {:induction false} NoBytes(sizes: seq<nat>, k: nat)
    requires k <= |sizes| && forall i | 0 <= i < |sizes| :: sizes[i] == 0
    ensures Before(sizes, k) == 0
  {
    if k > 0 {
      NoBytes(sizes, k - 1);
    }
  }

  lemma {:induction false} ResizedBytes(sizes: seq<nat>, k: nat, size: nat, n: nat)
    requires k < |sizes| && n <= |sizes|
    ensures Before(sizes[k := size], n) <= Before(sizes, n) + if k < n then size else 0
  {
    if n > 0 {
      ResizedBytes(sizes, k, size, n - 1);
    }
  }

  lemma InRangePositive(index: seq<int>, dims: seq<int>)
    requires InRange(index, dims)
    ensures Positive(dims)
  {
  }

  lemma ZeroWraps(sizes: seq<nat>)
    ensures ToInt32(Before(sizes, 0)) == 0 && Through32(Before(sizes, 0)) == 0
  {
  }

  lemma NextOffset(sizes: seq<nat>, i: nat)
    requires i < |sizes|
    ensures ToInt32(ToInt32(Before(sizes, i)) + sizes[i]) == ToInt32(Before(sizes, i + 1))
    ensures ToUint64(ToInt32(Before(sizes, i + 1))) == Through32(Before(sizes, i + 1))
  {
    WrapPlus32(Before(sizes, i), sizes[i]);
  }

  lemma WrapPlus32(x: int, y: int)
    ensures ToInt32(ToInt32(x) + y) == ToInt32(x + y)
  {
    WrapsAreCongruent(x);
    var k := CongruentDiff(ToInt32(x), x, TWO_32);
    ModPlus(x + y, k, TWO_32);
    SameWrap(ToInt32(x) + y, x + y);
  }

  // ----- Members and bytes -----

  /** In-range multi-indices and members of the set correspond one to one. */
  lemma IndexOneToOne(dims: seq<int>, index: seq<int>, index': seq<int>, k: int)
    requires Positive(dims)
    ensures InRange(index, dims) ==> 0 <= Position(index, dims) < Product(dims)
    ensures InRange(index, dims) && InRange(index', dims) && Position(index, dims) == Position(index', dims) ==>
            index == index'
    ensures 0 <= k < Product(dims) ==> exists i :: InRange(i, dims) && Position(i, dims) == k
  {
    if InRange(index, dims) {
      IndexOfPosition(index, dims);
    }
    if InRange(index', dims) {
      IndexOfPosition(index', dims);
    }
    if 0 <= k < Product(dims) {
      PositionOfIndex(k, dims);
    }
  }

  lemma {:induction false} BeforeMonotone(sizes: seq<nat>, i: nat, k: nat)
    requires i <= k <= |sizes|
    ensures Before(sizes, i) <= Before(sizes, k)
  {
    if i < k {
      BeforeMonotone(sizes, i, k - 1);
    }
  }

  /** Byte b is one of member k's. */
  predicate Owns(sizes: seq<nat>, k: nat, b: int)
    requires k < |sizes|
  {
    Before(sizes, k) <= b < Before(sizes, k) + sizes[k]
  }

  lemma {:induction false} FindOwner(sizes: seq<nat>, n: nat, b: nat) returns (k: nat)
    requires n <= |sizes| && b < Before(sizes, n)
    ensures k < n && Owns(sizes, k, b)
    decreases n
  {
    if Before(sizes, n - 1) <= b {
      k := n - 1;
    } else {
      k := FindOwner(sizes, n - 1, b);
    }
  }

  /** Every byte of the set belongs to exactly one member, and no member reaches beyond the set. */
  lemma BytesTile(sizes: seq<nat>, b: int)
    ensures 0 <= b < Before(sizes, |sizes|) <==> exists k :: 0 <= k < |sizes| && Owns(sizes, k, b)
    ensures forall i, k | 0 <= i < |sizes| && 0 <= k < |sizes| && Owns(sizes, i, b) && Owns(sizes, k, b) :: i == k
  {
    if 0 <= b < Before(sizes, |sizes|) {
      var k := FindOwner(sizes, |sizes|, b);
    }
    forall k | 0 <= k < |sizes| && Owns(sizes, k, b) ensures 0 <= b < Before(sizes, |sizes|) {
      BeforeMonotone(sizes, k + 1, |sizes|);
    }
    forall i, k | 0 <= i < |sizes| && 0 <= k < |sizes| && Owns(sizes, i, b) && Owns(sizes, k, b) ensures i == k {
      if i < k {
        BeforeMonotone(sizes, i + 1, k);
      } else if k < i {
        BeforeMonotone(sizes, k + 1, i);
      }
    }
  }

  /** The offsets computed all at once are right exactly as far as they stay below 2^31. */
  lemma OffsetsAgreeExactly(sizes: seq<nat>, k: nat)
    requires k <= |sizes| && Before(sizes, |sizes|) <= 0x7fff_ffff_ffff_ffff
    ensures Through32(Before(sizes, k)) == Before(sizes, k) <==> Before(sizes, k) <= INT32_MAX
  {
    BeforeMonotone(sizes, k, |sizes|);
    WrappedOffset(Before(sizes, k));
  }

  lemma WrappedOffset(x: nat)
    requires x <= 0x7fff_ffff_ffff_ffff
    ensures Through32(x) == x <==> x <= INT32_MAX
  {
    WrapsAreCongruent(x);
    FitsInt32(x);
    FitsInt32(ToInt32(x));
    if INT32_MAX < x && ToInt32(x) < 0 {
      assert ToUint64(ToInt32(x)) == ToInt32(x) + TWO_64;
    }
  }
}
