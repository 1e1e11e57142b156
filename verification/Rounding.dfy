/** The rounding macros of kernels/kernel.h, on the non-negative operands the library gives them. */
module Rounding {

  function PadUp(x: nat, y: nat): nat
    requires 0 < y
  {
    (x / y + (if x % y > 0 then 1 else 0)) * y
  }

  function PadDown(x: nat, y: nat): nat
    requires 0 < y
  {
    x / y * y
  }

  function DivUp(x: nat, y: nat): nat
    requires 0 < y
  {
    if x % y > 0 then x / y + 1 else x / y
  }

  function CeilAlign(x: nat, align: nat): nat
    requires 0 < align
  {
    (x + align - 1) / align * align
  }

  function FloorAlign(x: nat, align: nat): nat
    requires 0 < align
  {
    x / align * align
  }

  function Quotient(x: nat, y: nat): nat
    requires 0 < y
  {
    x / y
  }

  /** m is the least multiple of y that is at least x. */
  ghost predicate IsCeiling(m: int, x: int, y: int)
    requires 0 < y
  {
    m % y == 0 && x <= m < x + y
  }

  lemma MultipleMod(k: int, y: int)
    requires 0 < y
    ensures (k * y) % y == 0 && (k * y) / y == k
  {
    assert k * y == k * y + 0;
    DivModUnique(k * y, y, k, 0);
  }

  lemma MulMonotone(a: int, b: int, y: int)
    requires a <= b && 0 <= y
    ensures a * y <= b * y
  {
    assert (b - a) * y >= 0;
  }

  lemma DivModUnique(x: int, y: int, q: int, r: int)
    requires 0 <= r < y && x == q * y + r
    ensures x / y == q && x % y == r
  {
    var q', r' := x / y, x % y;
    assert x == y * q' + r';
    assert (q - q') * y == r' - r;
    if q' < q {
      MulMonotone(1, q - q', y);
    } else if q < q' {
      MulMonotone(q - q', -1, y);
    }
  }

  lemma MultiplesApart(a: int, b: int, y: int)
    requires 0 < y && a % y == 0 && b % y == 0 && a < b
    ensures a + y <= b
  {
    var i, j := a / y, b / y;
    assert a == y * i && b == y * j;
    if j <= i {
      MulMonotone(j, i, y);
    } else {
      MulMonotone(i + 1, j, y);
    }
  }

  lemma CeilingUnique(m: int, m': int, x: int, y: int)
    requires 0 < y && IsCeiling(m, x, y) && IsCeiling(m', x, y)
    ensures m == m'
  {
    if m < m' {
      MultiplesApart(m, m', y);
    } else if m' < m {
      MultiplesApart(m', m, y);
    }
  }

  lemma PadUpIsCeiling(x: nat, y: nat)
    requires 0 < y
    ensures IsCeiling(PadUp(x, y), x, y)
  {
    MultipleMod(x / y + (if x % y > 0 then 1 else 0), y);
  }

  lemma CeilAlignIsCeiling(x: nat, y: nat)
    requires 0 < y
    ensures IsCeiling(CeilAlign(x, y), x, y)
  {
    MultipleMod((x + y - 1) / y, y);
  }

  /** FLOOR_ALIGN and PAD_DOWN are the greatest multiple of y that is at most x. */
  lemma FloorAlignIsFloor(x: nat, y: nat)
    requires 0 < y
    ensures FloorAlign(x, y) == PadDown(x, y) && FloorAlign(x, y) % y == 0 && FloorAlign(x, y) <= x
    ensures forall m: nat | m % y == 0 && m <= x :: m <= FloorAlign(x, y)
  {
    MultipleMod(x / y, y);
    forall m: nat | m % y == 0 && m <= x ensures m <= FloorAlign(x, y) {
      if FloorAlign(x, y) < m {
        MultiplesApart(FloorAlign(x, y), m, y);
      }
    }
  }

  lemma FloorAtLeast(x: nat, y: nat, m: nat)
    requires 0 < y && m % y == 0
    ensures m <= PadDown(x, y) <==> m <= x
  {
    FloorAlignIsFloor(x, y);
  }

  /** The two rounding-up macros agree, and both are DIV_UP scaled back. */
  lemma RoundingUpAgrees(x: nat, y: nat)
    requires 0 < y
    ensures PadUp(x, y) == CeilAlign(x, y) == DivUp(x, y) * y
  {
    PadUpIsCeiling(x, y);
    CeilAlignIsCeiling(x, y);
    CeilingUnique(PadUp(x, y), CeilAlign(x, y), x, y);
  }

  lemma CeilAlignMonotone(x: nat, x': nat, y: nat)
    requires 0 < y && x <= x'
    ensures CeilAlign(x, y) <= CeilAlign(x', y)
  {
    CeilAlignIsCeiling(x, y);
    CeilAlignIsCeiling(x', y);
    if CeilAlign(x', y) < CeilAlign(x, y) {
      MultiplesApart(CeilAlign(x', y), CeilAlign(x, y), y);
    }
  }

  /** A bound that is itself aligned survives rounding up. */
  lemma CeilAlignWithin(x: nat, bound: nat, y: nat)
    requires 0 < y && x <= bound && bound % y == 0
    ensures CeilAlign(x, y) <= bound
  {
    CeilAlignIsCeiling(x, y);
    if bound < CeilAlign(x, y) {
      MultiplesApart(bound, CeilAlign(x, y), y);
    }
  }

  lemma DivBelow(a: nat, b: nat, c: int)
    requires 0 < b && a < c * b
    ensures a / b < c
  {
    if c <= a / b {
      MulMonotone(c, a / b, b);
    }
  }

  lemma DivAtLeast(a: nat, b: nat, c: int)
    requires 0 < b && c * b <= a
    ensures c <= a / b
  {
    if a / b < c {
      MulMonotone(a / b + 1, c, b);
    }
  }
}
