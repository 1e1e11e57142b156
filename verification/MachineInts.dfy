/** Conversions to the machine integers of the host and the device, two's complement. */
module MachineInts {
  import Rounding

  const INT32_MAX := 0x7fff_ffff
  const UINT32_MAX := 0xffff_ffff
  const TWO_32: int := 0x1_0000_0000
  const TWO_64: int := 0x1_0000_0000_0000_0000

  function ToInt32(x: int): int {
    var r := x % TWO_32;
    if r > INT32_MAX then r - TWO_32 else r
  }

  function ToUint32(x: int): nat {
    x % TWO_32
  }

  function ToInt64(x: int): int {
    var r := x % TWO_64;
    if r >= TWO_64 / 2 then r - TWO_64 else r
  }

  function ToUint64(x: int): nat {
    x % TWO_64
  }

  lemma ModPlus(x: int, k: int, m: int)
    requires 0 < m
    ensures (x + k * m) % m == x % m
  {
    var q, r := x / m, x % m;
    assert x + k * m == (q + k) * m + r;
    Rounding.DivModUnique(x + k * m, m, q + k, r);
  }

  /** Equal up to multiples of m. */
  predicate Congruent(x: int, y: int, m: int) requires 0 < m { x % m == y % m }

  lemma CongruentDiff(x: int, y: int, m: int) returns (k: int)
    requires 0 < m && Congruent(x, y, m)
    ensures x == y + k * m
  {
    k := x / m - y / m;
    assert x == x / m * m + x % m && y == y / m * m + y % m;
  }

  lemma CongruentTimes(x: int, y: int, d: int, m: int)
    requires 0 < m && Congruent(x, y, m)
    ensures Congruent(x * d, y * d, m)
  {
    var k := CongruentDiff(x, y, m);
    ScaledDiff(x, y, k, d, m);
    ModPlus(y * d, k * d, m);
  }

  lemma ScaledDiff(x: int, y: int, k: int, d: int, m: int)
    requires x == y + k * m
    ensures x * d == y * d + k * d * m
  {
    assert k * m * d == k * d * m;
  }

  lemma WrapsAreCongruent(x: int)
    ensures Congruent(ToInt32(x), x, TWO_32) && Congruent(ToInt64(x), x, TWO_64) && Congruent(ToUint64(x), x, TWO_64)
    ensures -0x8000_0000 <= ToInt32(x) <= INT32_MAX && -0x8000_0000_0000_0000 <= ToInt64(x) <= 0x7fff_ffff_ffff_ffff
  {
  }

  /** Wrapping depends only on the value up to multiples. */
  lemma SameWrap(x: int, y: int)
    ensures Congruent(x, y, TWO_32) ==> ToInt32(x) == ToInt32(y)
    ensures Congruent(x, y, TWO_64) ==> ToInt64(x) == ToInt64(y) && ToUint64(x) == ToUint64(y)
  {
  }

  lemma Congruent64Is32(x: int, y: int)
    requires Congruent(x, y, TWO_64)
    ensures Congruent(x, y, TWO_32)
  {
    var k := CongruentDiff(x, y, TWO_64);
    ModPlus(y, k * TWO_32, TWO_32);
    assert x == y + k * TWO_32 * TWO_32;
  }

  /** A product may be wrapped as it goes. */
  lemma WrapTimes(x: int, d: int)
    ensures ToInt32(ToInt32(x) * d) == ToInt32(x * d)
    ensures ToInt64(ToInt64(x) * d) == ToInt64(x * d) && ToUint64(ToUint64(x) * d) == ToUint64(x * d)
    ensures ToInt32(ToInt64(x)) == ToInt32(x) && ToInt64(ToUint64(x)) == ToInt64(x)
  {
    WrapsAreCongruent(x);
    CongruentTimes(ToInt32(x), x, d, TWO_32);
    CongruentTimes(ToInt64(x), x, d, TWO_64);
    CongruentTimes(ToUint64(x), x, d, TWO_64);
    Congruent64Is32(ToInt64(x), x);
    hide ToInt32, ToInt64, ToUint64, Congruent;
    SameWrap(ToInt32(x) * d, x * d);
    SameWrap(ToInt64(x) * d, x * d);
    SameWrap(ToUint64(x) * d, x * d);
    SameWrap(ToInt64(x), x);
    SameWrap(ToUint64(x), x);
  }

  lemma FitsInt32(x: int)
    ensures ToInt32(x) == x <==> -0x8000_0000 <= x <= INT32_MAX
    ensures -0x8000_0000_0000_0000 <= x <= 0x7fff_ffff_ffff_ffff <==> ToInt64(x) == x
    ensures 0 <= x < TWO_64 <==> ToUint64(x) == x
  {
  }
}
