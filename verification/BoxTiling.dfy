/**
 The tile loops of the rotated-box kernel, on the flat private memory they share. Rows of the map below are
 max_box_pair elements long; within a region the rows of a smaller tile are packed closer together.

   row 0        area2                         rows 66..129   box2_onchip, then corner points and long temps
   row 1        valid_box, then the result    rows 130..193  box1_trans, then intersection points
   rows 2..65   box1_onchip and temps         rows 194..257  box2_trans, then ordered points

 The main result, in the contract of NonAligned: every cell of the num_box1 x num_box2 matrix is written exactly
 once, with the value for box1[i] and box2[j], although scratch buffers overlap and box2_trans is masked anew
 for every box1.
 */
module BoxTiling {
  import Rounding

  datatype Rec = Rec(x: real, y: real, w: real, h: real, a: real)

  /** The value the kernel computes for two boxes that both have an area. */
  type PairFn = (Rec, Rec) -> real

  const AREA_THRESHOLD := 0.00000000000001
  const BOX_DIM: nat := 5
  const COMPUTE_COUNT_ALIGN: nat := 64

  const IOUS: nat := 1
  const BOX1: nat := 2
  const TEMP9: nat := BOX1 + 14
  const BOX2: nat := 66
  const BOX1_TRANS: nat := 130
  const BOX2_TRANS: nat := 194
  const ROWS: nat := 258

  /** Record i of an array of boxes, five numbers each. */
  function RecOf(b: seq<real>, i: nat): Rec
    requires 5 * i + 5 <= |b|
  {
    Rec(b[5 * i], b[5 * i + 1], b[5 * i + 2], b[5 * i + 3], b[5 * i + 4])
  }

  predicate TooSmall(b: Rec) { b.w * b.h < AREA_THRESHOLD }

  /** A box without width or height gets no value, nor does one with both sides below 1e-7; a box with both sides
      1e-7 or longer does. */
  lemma SmallInNumbers(b: Rec)
    ensures b.w == 0.0 || b.h == 0.0 ==> TooSmall(b)
    ensures 0.0 <= b.w < 0.0000001 && 0.0 <= b.h < 0.0000001 ==> TooSmall(b)
    ensures 0.0000001 <= b.w && 0.0000001 <= b.h ==> !TooSmall(b)
  {
    if 0.0 <= b.w < 0.0000001 && 0.0 <= b.h < 0.0000001 {
      ProductUpTo(b.w, 0.0000001, b.h);
      assert b.w * b.h <= 0.0000001 * b.h < 0.00000000000001;
    }
    if 0.0000001 <= b.w && 0.0000001 <= b.h {
      ProductUpTo(0.0000001, b.w, b.h);
    }
  }

  lemma ProductUpTo(x: real, y: real, z: real)
    requires x <= y && 0.0 <= z
    ensures x * z <= y * z
  {
    assert (y - x) * z >= 0.0;
  }

  /** What belongs in the cell of two boxes. */
  function Cell(pair: PairFn, b1: Rec, b2: Rec): real {
    if TooSmall(b1) || TooSmall(b2) then 0.0 else pair(b1, b2)
  }

  // ----- One tile in private memory -----

  /** Lane l of five packed rows starting at base, in a snapshot of the private memory. */
  function RecAt(s: seq<real>, base: nat, n: nat, l: nat): Rec
    requires l < n && base + 5 * n <= |s|
  {
    Rec(s[base + l], s[base + n + l], s[base + 2 * n + l], s[base + 3 * n + l], s[base + 4 * n + l])
  }

  /** Cells that must survive the work on one pair: area2, the loaded box1 records, the saved marks, box2_trans. */
  predicate IsLive(m: nat, n: nat, num1: nat, k: int) {
    || 0 <= k < n
    || BOX1 * m <= k < BOX1 * m + BOX_DIM * num1
    || TEMP9 * m <= k < TEMP9 * m + n
    || BOX2_TRANS * m <= k < BOX2_TRANS * m + BOX_DIM * n
  }

  /** Rows that hold nothing live. */
  predicate FreeRows(row: nat, rows: nat) {
    && 1 <= row && row + rows <= ROWS
    && (row + rows <= BOX1 || BOX1 + BOX_DIM <= row)
    && (row + rows <= TEMP9 || TEMP9 + 1 <= row)
    && (row + rows <= BOX2_TRANS || BOX2_TRANS + BOX_DIM <= row)
  }

  /** Packed rows before or behind others do not reach them. */
  lemma RowsApart(m: nat, n: nat, row: nat, rows: nat, other: nat, others: nat)
    requires n <= m
    ensures row * m + rows * n <= (row + rows) * m
    ensures row + rows <= other ==> row * m + rows * n <= other * m
    ensures other + others <= row ==> other * m + others * m <= row * m
  {
    Rounding.MulMonotone(n, m, rows);
    assert row * m + rows * m == (row + rows) * m && other * m + others * m == (other + others) * m;
    if row + rows <= other {
      Rounding.MulMonotone(row + rows, other, m);
    }
    if other + others <= row {
      Rounding.MulMonotone(other + others, row, m);
    }
  }

  lemma FreeCells(m: nat, n: nat, num1: nat, row: nat, rows: nat)
    requires FreeRows(row, rows) && n <= m && num1 <= m
    ensures 0 <= row * m <= row * m + rows * n <= ROWS * m
    ensures forall k | row * m <= k < row * m + rows * n :: !IsLive(m, n, num1, k)
  {
    RowsApart(m, n, row, rows, BOX1, BOX_DIM);
    RowsApart(m, n, row, rows, TEMP9, 1);
    RowsApart(m, n, row, rows, BOX2_TRANS, BOX_DIM);
    RowsApart(m, n, row, rows, ROWS, 0);
    Rounding.MulMonotone(1, row, m);
    Rounding.MulMonotone(0, rows, n);
  }

  method Havoc(nram: array<real>, lo: nat, hi: nat)
    requires lo <= hi <= nram.Length
    modifies nram
    ensures forall k | 0 <= k < nram.Length && !(lo <= k < hi) :: nram[k] == old(nram[k])
  {
    for i := lo to hi
      invariant forall k | 0 <= k < nram.Length && !(lo <= k < hi) :: nram[k] == old(nram[k])
    {
      nram[i] := *;
    }
  }

  /** A scratch buffer of some packed rows: its contents are not modelled. */
  method Scratch(nram: array<real>, m: nat, n: nat, num1: nat, row: nat, rows: nat)
    requires nram.Length == ROWS * m && n <= m && num1 <= m && FreeRows(row, rows)
    modifies nram
    ensures forall k | 0 <= k < nram.Length && IsLive(m, n, num1, k) :: nram[k] == old(nram[k])
  {
    hide IsLive, FreeRows;
    FreeCells(m, n, num1, row, rows);
    Havoc(nram, row * m, row * m + rows * n);
  }

  /** All buffers the work on one pair writes before the result. */
  method ScratchAll(nram: array<real>, m: nat, n: nat, num1: nat)
    requires nram.Length == ROWS * m && n <= m && num1 <= m
    modifies nram
    ensures forall k | 0 <= k < nram.Length && IsLive(m, n, num1, k) :: nram[k] == old(nram[k])
  {
    hide IsLive;
    Scratch(nram, m, n, num1, IOUS, 1);
    Scratch(nram, m, n, num1, BOX1 + 5, 5);
    Scratch(nram, m, n, num1, BOX1 + 10, 1);
    Scratch(nram, m, n, num1, BOX1 + 11, 3);
    Scratch(nram, m, n, num1, BOX1 + 16, 24);
    Scratch(nram, m, n, num1, BOX1 + 40, 24);
    Scratch(nram, m, n, num1, BOX2, 32);
    Scratch(nram, m, n, num1, BOX2, 24);
    Scratch(nram, m, n, num1, BOX2 + 24, 24);
    Scratch(nram, m, n, num1, BOX2 + 48, 24);
    Scratch(nram, m, n, num1, BOX1_TRANS, 5);
    Scratch(nram, m, n, num1, BOX1_TRANS + 16, 24);
    Scratch(nram, m, n, num1, BOX1_TRANS + 40, 24);
    Scratch(nram, m, n, num1, BOX2_TRANS + 5, 5);
    Scratch(nram, m, n, num1, BOX2_TRANS + 16, 24);
    Scratch(nram, m, n, num1, BOX2_TRANS + 40, 24);
  }

  // ----- The work on one box1 against a tile of box2 -----

  /** Lane l holds a box with an area. */
  predicate ValidLane(b2: seq<Rec>, num2: nat, l: nat)
    requires l < |b2|
  {
    l < num2 && !TooSmall(b2[l])
  }

  /** area2 belongs to the tile's boxes b2, and box2_trans still holds those that have an area. */
  ghost predicate Loaded2(s: seq<real>, m: nat, n: nat, num2: nat, b2: seq<Rec>) {
    && |s| == ROWS * m && |b2| == n <= m
    && (forall l | 0 <= l < n :: s[l] == b2[l].w * b2[l].h)
    && forall l | 0 <= l < n && ValidLane(b2, num2, l) :: RecAt(s, BOX2_TRANS * m, n, l) == b2[l]
  }

  /** The loaded records of box1. */
  ghost predicate Loaded1(s: seq<real>, m: nat, b1: seq<real>) {
    |s| == ROWS * m && |b1| <= BOX_DIM * m && forall k | BOX1 * m <= k < BOX1 * m + |b1| :: s[k] == b1[k - BOX1 * m]
  }

  /** Two snapshots agree on [lo, hi). */
  ghost predicate Same(s: seq<real>, s': seq<real>, lo: nat, hi: nat) {
    |s| == |s'| && hi <= |s| && forall k | lo <= k < hi :: s'[k] == s[k]
  }

  lemma RecKept(s: seq<real>, s': seq<real>, base: nat, n: nat, l: nat)
    requires l < n && Same(s, s', base, base + BOX_DIM * n)
    ensures RecAt(s', base, n, l) == RecAt(s, base, n, l)
  {
  }

  lemma Loaded2Kept(s: seq<real>, s': seq<real>, m: nat, n: nat, num2: nat, b2: seq<Rec>)
    requires Loaded2(s, m, n, num2, b2)
    requires Same(s, s', 0, n) && Same(s, s', BOX2_TRANS * m, BOX2_TRANS * m + BOX_DIM * n)
    ensures Loaded2(s', m, n, num2, b2)
  {
    hide RecAt;
    forall l | 0 <= l < n && ValidLane(b2, num2, l) ensures RecAt(s', BOX2_TRANS * m, n, l) == b2[l] {
      RecKept(s, s', BOX2_TRANS * m, n, l);
    }
  }

  lemma Loaded1Kept(s: seq<real>, s': seq<real>, m: nat, b1: seq<real>)
    requires Loaded1(s, m, b1) && Same(s, s', BOX1 * m, BOX1 * m + |b1|)
    ensures Loaded1(s', m, b1)
  {
  }

  /** Write the same box into every lane of box1_trans. */
  method Broadcast(nram: array<real>, m: nat, n: nat, b: Rec)
    requires nram.Length == ROWS * m && n <= m
    modifies nram
    ensures forall l | 0 <= l < n :: RecAt(nram[..], BOX1_TRANS * m, n, l) == b
    ensures forall k | 0 <= k < nram.Length &&
            !(BOX1_TRANS * m <= k < BOX1_TRANS * m + BOX_DIM * n) :: nram[k] == old(nram[k])
  {
    Fill(nram, BOX1_TRANS * m, n, b.x);
    Fill(nram, BOX1_TRANS * m + n, n, b.y);
    Fill(nram, BOX1_TRANS * m + 2 * n, n, b.w);
    Fill(nram, BOX1_TRANS * m + 3 * n, n, b.h);
    Fill(nram, BOX1_TRANS * m + 4 * n, n, b.a);
  }

  method Fill(nram: array<real>, base: nat, n: nat, v: real)
    requires base + n <= nram.Length
    modifies nram
    ensures forall k | base <= k < base + n :: nram[k] == v
    ensures forall k | 0 <= k < nram.Length && !(base <= k < base + n) :: nram[k] == old(nram[k])
  {
    forall k | base <= k < base + n {
      nram[k] := v;
    }
  }

  /** 1 for lanes whose area, d cells before their mark, reaches the threshold, else 0. */
  method MarkAreas(nram: array<real>, marks: nat, n: nat, d: nat)
    requires n <= d <= marks && marks + n <= nram.Length
    modifies nram
    ensures forall k | marks <= k < marks + n :: nram[k] == Mark(!(old(nram[k - d]) < AREA_THRESHOLD))
    ensures forall k | 0 <= k < nram.Length && !(marks <= k < marks + n) :: nram[k] == old(nram[k])
  {
    forall k | marks <= k < marks + n {
      nram[k] := if nram[k - d] < AREA_THRESHOLD then 0.0 else 1.0;
    }
  }

  /** And each mark with the one d cells behind it. */
  method AndRow(nram: array<real>, dst: nat, n: nat, d: nat)
    requires n <= d && dst + d + n <= nram.Length
    modifies nram
    ensures forall k | dst <= k < dst + n :: nram[k] == Mark(old(nram[k]) != 0.0 && old(nram[k + d]) != 0.0)
    ensures forall k | 0 <= k < nram.Length && !(dst <= k < dst + n) :: nram[k] == old(nram[k])
  {
    forall k | dst <= k < dst + n {
      nram[k] := if nram[k] != 0.0 && nram[k + d] != 0.0 then 1.0 else 0.0;
    }
  }

  /** Copy the row d cells before dst. */
  method MoveRow(nram: array<real>, dst: nat, n: nat, d: nat)
    requires n <= d <= dst && dst + n <= nram.Length
    modifies nram
    ensures forall k | dst <= k < dst + n :: nram[k] == old(nram[k - d])
    ensures forall k | 0 <= k < nram.Length && !(dst <= k < dst + n) :: nram[k] == old(nram[k])
  {
    forall k | dst <= k < dst + n {
      nram[k] := nram[k - d];
    }
  }

  function Mark(b: bool): real { if b then 1.0 else 0.0 }

  /** The mark of lane l: a real box with an area. */
  function MarkOf(area: real, num2: nat, l: int): real { Mark(l < num2 && !(area < AREA_THRESHOLD)) }

  /** Row `base` of s' holds the marks of the areas in row 0 of s. */
  ghost predicate MarksAt(s: seq<real>, s': seq<real>, base: nat, n: nat, num2: nat) {
    |s'| == |s| && n <= base && base + n <= |s| &&
      forall k | base <= k < base + n :: s'[k] == MarkOf(s[k - base], num2, k - base)
  }

  lemma SameWithin(s: seq<real>, s': seq<real>, lo: nat, hi: nat, lo': nat, hi': nat)
    requires Same(s, s', lo, hi) && lo <= lo' && hi' <= hi
    ensures Same(s, s', lo', hi')
  {
  }

  /** 1 for lanes that hold a box, else 0. */
  method MarkReal(nram: array<real>, valid: nat, n: nat, num2: nat)
    requires num2 <= n && valid + n <= nram.Length
    modifies nram
    ensures forall k | valid <= k < valid + n :: nram[k] == Mark(k - valid < num2)
    ensures forall k | 0 <= k < nram.Length && !(valid <= k < valid + n) :: nram[k] == old(nram[k])
  {
    Fill(nram, valid, n, 1.0);
    if num2 < n {
      Fill(nram, valid + num2, n - num2, 0.0);
    }
  }

  /** 1 for lanes that hold a box with an area, else 0. */
  method MarkValid(nram: array<real>, valid: nat, temp: nat, n: nat, num2: nat)
    requires num2 <= n <= valid && valid + n <= temp && temp + n <= nram.Length
    modifies nram
    ensures MarksAt(old(nram[..]), nram[..], valid, n, num2)
    ensures Same(old(nram[..]), nram[..], 0, valid) && Same(old(nram[..]), nram[..], valid + n, temp)
    ensures Same(old(nram[..]), nram[..], temp + n, nram.Length)
  {
    MarkReal(nram, valid, n, num2);
    MarkAreas(nram, temp, n, temp);
    assert forall k | valid <= k < valid + n :: nram[k] == Mark(k - valid < num2);
    AndRow(nram, valid, n, temp - valid);
  }

  lemma MovedMarks(s: seq<real>, s': seq<real>, s'': seq<real>, valid: nat, saved: nat, n: nat, num2: nat)
    requires MarksAt(s, s', valid, n, num2) && valid + n <= saved && saved + n <= |s| == |s''|
    requires forall k | saved <= k < saved + n :: s''[k] == s'[k - (saved - valid)]
    ensures MarksAt(s, s'', saved, n, num2)
  {
    hide MarkOf;
  }

  /** Mark the lanes and keep a copy of the marks in the last temp. */
  method MarkAndSave(nram: array<real>, valid: nat, temp: nat, saved: nat, n: nat, num2: nat)
    requires num2 <= n <= valid && valid + n <= temp && temp + n <= saved && saved + n <= nram.Length
    modifies nram
    ensures MarksAt(old(nram[..]), nram[..], valid, n, num2) && MarksAt(old(nram[..]), nram[..], saved, n, num2)
    ensures Same(old(nram[..]), nram[..], 0, valid) && Same(old(nram[..]), nram[..], valid + n, temp)
    ensures Same(old(nram[..]), nram[..], saved + n, nram.Length)
  {
    hide MarkOf;
    MarkValid(nram, valid, temp, n, num2);
    ghost var s' := nram[..];
    MoveRow(nram, saved, n, saved - valid);
    MovedMarks(old(nram[..]), s', nram[..], valid, saved, n, num2);
  }

  /** Multiply five packed rows by the marks. */
  method MaskRows(nram: array<real>, m: nat, n: nat, base: nat)
    requires nram.Length == ROWS * m && n <= m && 2 * m <= base && base + BOX_DIM * n <= nram.Length
    modifies nram
    ensures forall l | 0 <= l < n && nram[m + l] == 1.0 ::
            RecAt(nram[..], base, n, l) == RecAt(old(nram[..]), base, n, l)
    ensures forall k | 0 <= k < nram.Length && !(base <= k < base + BOX_DIM * n) :: nram[k] == old(nram[k])
  {
    MaskRow(nram, m, n, base);
    MaskRow(nram, m, n, base + n);
    MaskRow(nram, m, n, base + 2 * n);
    MaskRow(nram, m, n, base + 3 * n);
    MaskRow(nram, m, n, base + 4 * n);
  }

  method MaskRow(nram: array<real>, m: nat, n: nat, base: nat)
    requires n <= m && 2 * m <= base && base + n <= nram.Length
    modifies nram
    ensures forall k | base <= k < base + n && nram[m + k - base] == 1.0 :: nram[k] == old(nram[k])
    ensures forall k | 0 <= k < nram.Length && !(base <= k < base + n) :: nram[k] == old(nram[k])
  {
    forall k | base <= k < base + n {
      nram[k] := nram[k] * nram[m + k - base];
    }
  }

  /** The values of all lanes, read off box1_trans and box2_trans. */
  function PairValues(s: seq<real>, m: nat, n: nat, pair: PairFn): (v: seq<real>)
    requires |s| == ROWS * m && n <= m
    ensures |v| == n
  {
    seq(n, l requires 0 <= l < n => pair(RecAt(s, BOX1_TRANS * m, n, l), RecAt(s, BOX2_TRANS * m, n, l)))
  }

  /** The marks of a tile are saved, and box1_trans holds box b in every lane with a mark. */
  ghost predicate Prepared(s: seq<real>, m: nat, n: nat, num2: nat, b: Rec, b2: seq<Rec>) {
    && |s| == ROWS * m && |b2| == n <= m
    && Saved(s, m, n, num2, b2)
    && forall l | 0 <= l < n && ValidLane(b2, num2, l) :: RecAt(s, BOX1_TRANS * m, n, l) == b
  }

  ghost predicate Saved(s: seq<real>, m: nat, n: nat, num2: nat, b2: seq<Rec>) {
    && |s| == ROWS * m && |b2| == n <= m
    && forall k | TEMP9 * m <= k < TEMP9 * m + n :: s[k] == Mark(ValidLane(b2, num2, k - TEMP9 * m))
  }

  lemma MarkIsValid(s: seq<real>, m: nat, n: nat, num2: nat, b2: seq<Rec>, l: nat)
    requires Loaded2(s, m, n, num2, b2) && l < n
    ensures MarkOf(s[l], num2, l) == Mark(ValidLane(b2, num2, l))
  {
    hide RecAt;
  }

  lemma MarksSaved(s: seq<real>, s': seq<real>, m: nat, n: nat, num2: nat, b2: seq<Rec>)
    requires Loaded2(s, m, n, num2, b2) && MarksAt(s, s', TEMP9 * m, n, num2)
    ensures Saved(s', m, n, num2, b2)
  {
    hide RecAt, MarkOf, Mark, ValidLane;
    forall k | TEMP9 * m <= k < TEMP9 * m + n ensures s'[k] == Mark(ValidLane(b2, num2, k - TEMP9 * m)) {
      MarkIsValid(s, m, n, num2, b2, k - TEMP9 * m);
    }
  }

  lemma MarksSet(s: seq<real>, s': seq<real>, m: nat, n: nat, num2: nat, b2: seq<Rec>, l: nat)
    requires Loaded2(s, m, n, num2, b2) && MarksAt(s, s', m, n, num2) && l < n && ValidLane(b2, num2, l)
    ensures s'[m + l] == 1.0
  {
    hide RecAt;
    MarkIsValid(s, m, n, num2, b2, l);
    hide MarkOf, ValidLane;
    assert s'[m + l] == MarkOf(s[(m + l) - m], num2, (m + l) - m);
  }

  /** What is kept when row 1, row 8 and the last temp are written. */
  lemma MarksKeep(s: seq<real>, s': seq<real>, m: nat, n: nat, num2: nat, b1: seq<real>, b2: seq<Rec>)
    requires Loaded1(s, m, b1) && Loaded2(s, m, n, num2, b2)
    requires Same(s, s', 0, m) && Same(s, s', m + n, 8 * m) && Same(s, s', TEMP9 * m + n, |s|)
    ensures Loaded1(s', m, b1) && Loaded2(s', m, n, num2, b2)
    ensures Same(s, s', BOX1_TRANS * m, BOX1_TRANS * m + BOX_DIM * n)
  {
    hide RecAt, Loaded1, Loaded2, Same;
    LoadedSizes(s, m, n, num2, b1, b2);
    SameWithin(s, s', m + n, 8 * m, BOX1 * m, BOX1 * m + |b1|);
    SameWithin(s, s', 0, m, 0, n);
    SameWithin(s, s', TEMP9 * m + n, |s|, BOX1_TRANS * m, BOX1_TRANS * m + BOX_DIM * n);
    SameWithin(s, s', TEMP9 * m + n, |s|, BOX2_TRANS * m, BOX2_TRANS * m + BOX_DIM * n);
    Loaded1Kept(s, s', m, b1);
    Loaded2Kept(s, s', m, n, num2, b2);
  }

  method PrepareMarks(nram: array<real>, m: nat, n: nat, num2: nat, ghost b1: seq<real>, ghost b2: seq<Rec>)
    requires num2 <= n && Loaded1(nram[..], m, b1) && Loaded2(nram[..], m, n, num2, b2)
    modifies nram
    ensures Loaded1(nram[..], m, b1) && Loaded2(nram[..], m, n, num2, b2) && Saved(nram[..], m, n, num2, b2)
    ensures forall l | 0 <= l < n && ValidLane(b2, num2, l) :: nram[m + l] == 1.0
    ensures Same(old(nram[..]), nram[..], BOX1_TRANS * m, BOX1_TRANS * m + BOX_DIM * n)
  {
    hide RecAt, Loaded1, Loaded2, Saved, Mark, MarkOf, ValidLane, MarksAt, Same;
    assert nram.Length == ROWS * m && |b2| == n <= m && |b1| <= BOX_DIM * m by {
      LoadedSizes(nram[..], m, n, num2, b1, b2);
    }
    ghost var s := nram[..];
    MarkAndSave(nram, IOUS * m, (BOX1 + 6) * m, TEMP9 * m, n, num2);
    ghost var s' := nram[..];
    MarksKeep(s, s', m, n, num2, b1, b2);
    MarksSaved(s, s', m, n, num2, b2);
    forall l | 0 <= l < n && ValidLane(b2, num2, l) ensures nram[m + l] == 1.0 {
      MarksSet(s, s', m, n, num2, b2, l);
      assert s'[m + l] == nram[m + l];
    }
  }

  lemma SavedKept(s: seq<real>, s': seq<real>, m: nat, n: nat, num2: nat, b2: seq<Rec>)
    requires Saved(s, m, n, num2, b2) && Same(s, s', TEMP9 * m, TEMP9 * m + n)
    ensures Saved(s', m, n, num2, b2)
  {
    hide Mark, ValidLane;
  }

  /** Broadcast, as it looks in snapshots. */
  method BroadcastBox(nram: array<real>, m: nat, n: nat, b: Rec, ghost b1: seq<real>, ghost b2: seq<Rec>, num2: nat)
    requires Loaded1(nram[..], m, b1) && Loaded2(nram[..], m, n, num2, b2)
    modifies nram
    ensures Loaded1(nram[..], m, b1) && Loaded2(nram[..], m, n, num2, b2)
    ensures forall l | 0 <= l < n :: RecAt(nram[..], BOX1_TRANS * m, n, l) == b
  {
    hide RecAt, Loaded1, Loaded2;
    assert nram.Length == ROWS * m && |b2| == n <= m && |b1| <= BOX_DIM * m by {
      LoadedSizes(nram[..], m, n, num2, b1, b2);
    }
    ghost var s := nram[..];
    Broadcast(nram, m, n, b);
    Loaded1Kept(s, nram[..], m, b1);
    Loaded2Kept(s, nram[..], m, n, num2, b2);
  }

  /** Masking box1_trans leaves box b in the lanes with a mark. */
  method MaskBox1(nram: array<real>, m: nat, n: nat, num2: nat, b: Rec, ghost b1: seq<real>, ghost b2: seq<Rec>)
    requires Loaded1(nram[..], m, b1) && Loaded2(nram[..], m, n, num2, b2) && Saved(nram[..], m, n, num2, b2)
    requires forall l | 0 <= l < n && ValidLane(b2, num2, l) :: nram[m + l] == 1.0
    requires forall l | 0 <= l < n :: RecAt(nram[..], BOX1_TRANS * m, n, l) == b
    modifies nram
    ensures Loaded1(nram[..], m, b1) && Loaded2(nram[..], m, n, num2, b2) && Prepared(nram[..], m, n, num2, b, b2)
    ensures forall l | 0 <= l < n && ValidLane(b2, num2, l) :: nram[m + l] == 1.0
  {
    hide RecAt, Loaded1, Loaded2, Saved, ValidLane;
    assert nram.Length == ROWS * m && |b2| == n <= m && |b1| <= BOX_DIM * m by {
      LoadedSizes(nram[..], m, n, num2, b1, b2);
    }
    ghost var s := nram[..];
    MaskRows(nram, m, n, BOX1_TRANS * m);
    Loaded1Kept(s, nram[..], m, b1);
    Loaded2Kept(s, nram[..], m, n, num2, b2);
    SavedKept(s, nram[..], m, n, num2, b2);
    assert forall l | 0 <= l < n && ValidLane(b2, num2, l) :: nram[m + l] == s[m + l];
  }

  lemma PreparedKept(s: seq<real>, s': seq<real>, m: nat, n: nat, num2: nat, b: Rec, b2: seq<Rec>)
    requires Prepared(s, m, n, num2, b, b2) && Same(s, s', 0, BOX2_TRANS * m)
    ensures Prepared(s', m, n, num2, b, b2)
  {
    hide RecAt, ValidLane, Saved;
    SavedKept(s, s', m, n, num2, b2);
    forall l | 0 <= l < n && ValidLane(b2, num2, l) ensures RecAt(s', BOX1_TRANS * m, n, l) == b {
      RecKept(s, s', BOX1_TRANS * m, n, l);
    }
  }

  lemma MaskedIsLoaded(s: seq<real>, s': seq<real>, m: nat, n: nat, num2: nat, b2: seq<Rec>)
    requires Loaded2(s, m, n, num2, b2) && Same(s, s', 0, n)
    requires forall l | 0 <= l < n && ValidLane(b2, num2, l) ::
               RecAt(s', BOX2_TRANS * m, n, l) == RecAt(s, BOX2_TRANS * m, n, l)
    ensures Loaded2(s', m, n, num2, b2)
  {
    hide RecAt, ValidLane;
  }

  /** Masking box2_trans, however often, leaves the boxes with an area as they were. */
  method MaskBox2(nram: array<real>, m: nat, n: nat, num2: nat, b: Rec, ghost b1: seq<real>, ghost b2: seq<Rec>)
    requires Loaded1(nram[..], m, b1) && Loaded2(nram[..], m, n, num2, b2) && Prepared(nram[..], m, n, num2, b, b2)
    requires forall l | 0 <= l < n && ValidLane(b2, num2, l) :: nram[m + l] == 1.0
    modifies nram
    ensures Loaded1(nram[..], m, b1) && Loaded2(nram[..], m, n, num2, b2) && Prepared(nram[..], m, n, num2, b, b2)
  {
    hide RecAt, Loaded1, Loaded2, Prepared, ValidLane;
    assert nram.Length == ROWS * m && |b2| == n <= m && |b1| <= BOX_DIM * m by {
      LoadedSizes(nram[..], m, n, num2, b1, b2);
    }
    ghost var s := nram[..];
    MaskRows(nram, m, n, BOX2_TRANS * m);
    Loaded1Kept(s, nram[..], m, b1);
    PreparedKept(s, nram[..], m, n, num2, b, b2);
    MaskedIsLoaded(s, nram[..], m, n, num2, b2);
  }

  method Prepare(nram: array<real>, m: nat, n: nat, num2: nat, b: Rec, ghost b1: seq<real>, ghost b2: seq<Rec>)
    requires num2 <= n && Loaded1(nram[..], m, b1) && Loaded2(nram[..], m, n, num2, b2)
    modifies nram
    ensures Loaded1(nram[..], m, b1) && Loaded2(nram[..], m, n, num2, b2) && Prepared(nram[..], m, n, num2, b, b2)
  {
    hide RecAt, Loaded1, Loaded2, Saved, ValidLane, Prepared;
    BroadcastBox(nram, m, n, b, b1, b2, num2);
    ghost var s := nram[..];
    PrepareMarks(nram, m, n, num2, b1, b2);
    forall l | 0 <= l < n ensures RecAt(nram[..], BOX1_TRANS * m, n, l) == b {
      RecKept(s, nram[..], BOX1_TRANS * m, n, l);
    }
    MaskBox1(nram, m, n, num2, b, b1, b2);
    MaskBox2(nram, m, n, num2, b, b1, b2);
  }

  lemma LoadedSizes(s: seq<real>, m: nat, n: nat, num2: nat, b1: seq<real>, b2: seq<Rec>)
    requires Loaded1(s, m, b1) && Loaded2(s, m, n, num2, b2)
    ensures |s| == ROWS * m && |b2| == n <= m && |b1| <= BOX_DIM * m
  {
  }

  /** Store the values of lanes with a mark, and 0 for the others. */
  method StoreValues(nram: array<real>, m: nat, n: nat, v: seq<real>)
    requires nram.Length == ROWS * m && |v| == n <= m
    modifies nram
    ensures forall k | m <= k < m + n :: nram[k] == if old(nram[k + 15 * m]) == 0.0 then 0.0 else v[k - m]
    ensures forall k | 0 <= k < nram.Length && !(m <= k < m + n) :: nram[k] == old(nram[k])
  {
    forall k | m <= k < m + n {
      nram[k] := v[k - m];
    }
    forall k | m <= k < m + n {
      nram[k] := if nram[k + 15 * m] == 0.0 then 0.0 else nram[k];
    }
  }

  lemma ValuesAre(s: seq<real>, m: nat, n: nat, num2: nat, pair: PairFn, b: Rec, b2: seq<Rec>, l: nat)
    requires Prepared(s, m, n, num2, b, b2) && Loaded2(s, m, n, num2, b2) && l < n && ValidLane(b2, num2, l)
    ensures PairValues(s, m, n, pair)[l] == pair(b, b2[l])
  {
    hide RecAt, Saved;
  }

  /** Scratch buffers leave everything live as it was. */
  lemma LiveKept(s: seq<real>, s': seq<real>, m: nat, n: nat, num2: nat, b1: seq<real>, b2: seq<Rec>)
    requires Loaded1(s, m, b1) && Loaded2(s, m, n, num2, b2) && Saved(s, m, n, num2, b2) && |s'| == |s|
    requires |b1| % BOX_DIM == 0
    requires forall k | 0 <= k < |s| && IsLive(m, n, |b1| / BOX_DIM, k) :: s'[k] == s[k]
    ensures Loaded1(s', m, b1) && Loaded2(s', m, n, num2, b2) && Saved(s', m, n, num2, b2)
  {
    hide Loaded1, Loaded2, Saved;
    assert |s| == ROWS * m && |b2| == n <= m && |b1| <= BOX_DIM * m by { LoadedSizes(s, m, n, num2, b1, b2); }
    Loaded1Kept(s, s', m, b1);
    Loaded2Kept(s, s', m, n, num2, b2);
    SavedKept(s, s', m, n, num2, b2);
  }

  /** A row of results. */
  ghost predicate Results(s: seq<real>, m: nat, num2: nat, pair: PairFn, b: Rec, b2: seq<Rec>)
    requires num2 <= |b2|
  {
    m + num2 <= |s| && forall k | m <= k < m + num2 :: s[k] == Cell(pair, b, b2[k - m])
  }

  lemma StoredResults(s: seq<real>, s': seq<real>, v: seq<real>, m: nat, n: nat, num2: nat, pair: PairFn, b: Rec,
                      b2: seq<Rec>)
    requires num2 <= n && Saved(s, m, n, num2, b2) && |v| == n && |s'| == |s| && !TooSmall(b)
    requires forall l | 0 <= l < n && ValidLane(b2, num2, l) :: v[l] == pair(b, b2[l])
    requires forall k | m <= k < m + n :: s'[k] == if s[k + 15 * m] == 0.0 then 0.0 else v[k - m]
    ensures Results(s', m, num2, pair, b, b2)
  {
    hide TooSmall;
    forall k | m <= k < m + num2 ensures s'[k] == Cell(pair, b, b2[k - m]) {
      assert s[k + 15 * m] == Mark(ValidLane(b2, num2, k - m));
    }
  }

  /** Work on a box1 that has an area. */
  method WorkOnPair(nram: array<real>, m: nat, n: nat, num1: nat, num2: nat, pair: PairFn, b: Rec, ghost b1: seq<real>,
                    ghost b2: seq<Rec>)
    requires num2 <= n && num1 <= m && |b1| == BOX_DIM * num1 && !TooSmall(b)
    requires Loaded1(nram[..], m, b1) && Loaded2(nram[..], m, n, num2, b2)
    modifies nram
    ensures |b2| == n && Loaded1(nram[..], m, b1) && Loaded2(nram[..], m, n, num2, b2)
    ensures Results(nram[..], m, num2, pair, b, b2)
  {
    hide RecAt, Loaded1, Loaded2, Saved, ValidLane, Prepared, IsLive, TooSmall, Results, PairValues;
    assert nram.Length == ROWS * m && |b2| == n <= m && |b1| <= BOX_DIM * m by {
      LoadedSizes(nram[..], m, n, num2, b1, b2);
    }
    Prepare(nram, m, n, num2, b, b1, b2);
    ghost var s := nram[..];
    PreparedSaved(s, m, n, num2, b, b2);
    var values := PairValues(nram[..], m, n, pair);
    forall l | 0 <= l < n && ValidLane(b2, num2, l) ensures values[l] == pair(b, b2[l]) {
      ValuesAre(s, m, n, num2, pair, b, b2, l);
    }
    ScratchAll(nram, m, n, num1);
    ghost var s' := nram[..];
    LiveKept(s, s', m, n, num2, b1, b2);
    StoreValues(nram, m, n, values);
    StoredResults(s', nram[..], values, m, n, num2, pair, b, b2);
    Loaded1Kept(s', nram[..], m, b1);
    Loaded2Kept(s', nram[..], m, n, num2, b2);
  }

  lemma PreparedSaved(s: seq<real>, m: nat, n: nat, num2: nat, b: Rec, b2: seq<Rec>)
    requires Prepared(s, m, n, num2, b, b2)
    ensures Saved(s, m, n, num2, b2)
  {
    hide RecAt;
  }

  lemma RecordIs(s: seq<real>, m: nat, b1: seq<real>, i: nat)
    requires Loaded1(s, m, b1) && 5 * i + 5 <= |b1|
    ensures var at := BOX1 * m + BOX_DIM * i;
            at + 5 <= |s| && Rec(s[at], s[at + 1], s[at + 2], s[at + 3], s[at + 4]) == RecOf(b1, i)
  {
  }

  lemma ZeroResults(s: seq<real>, m: nat, num2: nat, pair: PairFn, b: Rec, b2: seq<Rec>)
    requires num2 <= |b2| && TooSmall(b) && m + num2 <= |s| && forall k | m <= k < m + num2 :: s[k] == 0.0
    ensures Results(s, m, num2, pair, b, b2)
  {
  }

  /** The values of one box1 against the tile, in the result row. */
  method OnePair(nram: array<real>, m: nat, n: nat, num1: nat, num2: nat, i: nat, pair: PairFn, ghost b1: seq<real>,
                 ghost b2: seq<Rec>)
    requires num2 <= n && i < num1 <= m && |b1| == BOX_DIM * num1
    requires Loaded1(nram[..], m, b1) && Loaded2(nram[..], m, n, num2, b2)
    modifies nram
    ensures |b2| == n && Loaded1(nram[..], m, b1) && Loaded2(nram[..], m, n, num2, b2)
    ensures Results(nram[..], m, num2, pair, RecOf(b1, i), b2)
  {
    hide RecAt, Loaded1, Loaded2, Results;
    assert nram.Length == ROWS * m && |b2| == n <= m by { LoadedSizes(nram[..], m, n, num2, b1, b2); }
    ghost var s := nram[..];
    RecordIs(s, m, b1, i);
    var at := BOX1 * m + BOX_DIM * i;
    var b := Rec(nram[at], nram[at + 1], nram[at + 2], nram[at + 3], nram[at + 4]);
    var area1 := b.h * b.w;
    if area1 < AREA_THRESHOLD {
      Fill(nram, IOUS * m, n, 0.0);
      Loaded1Kept(s, nram[..], m, b1);
      Loaded2Kept(s, nram[..], m, n, num2, b2);
      ZeroResults(nram[..], m, num2, pair, b, b2);
    } else {
      WorkOnPair(nram, m, n, num1, num2, pair, b, b1, b2);
    }
  }

  // ----- Loading tiles -----

  method LoadBox1(nram: array<real>, m: nat, box1: array<real>, from: nat, num: nat)
    requires nram.Length == ROWS * m && num <= m && 5 * from + 5 * num <= box1.Length && nram != box1
    modifies nram
    ensures Loaded1(nram[..], m, box1[5 * from..5 * from + 5 * num])
  {
    forall k | BOX1 * m <= k < BOX1 * m + 5 * num {
      nram[k] := box1[5 * from + (k - BOX1 * m)];
    }
  }

  /** Component c of n records at `from` in s lies in the row at `at` of s'. */
  ghost predicate Column(s: seq<real>, s': seq<real>, from: nat, at: nat, n: nat, c: nat) {
    && c < 5 && |s'| == |s| && from + 5 * n <= at && at + n <= |s|
    && forall k | at <= k < at + n :: s'[k] == s[from + 5 * (k - at) + c]
  }

  /** The first c components are transposed, and nothing before them has changed. */
  ghost predicate Columns(s: seq<real>, s': seq<real>, from: nat, to: nat, n: nat, c: nat) {
    && c <= 5 && from + 5 * n <= to && Same(s, s', 0, to)
    && forall c' | 0 <= c' < c :: Column(s, s', from, to + c' * n, n, c')
  }

  method TransposeRow(nram: array<real>, from: nat, at: nat, n: nat, c: nat)
    requires c < 5 && from + 5 * n <= at && at + n <= nram.Length
    modifies nram
    ensures Column(old(nram[..]), nram[..], from, at, n, c)
    ensures Same(old(nram[..]), nram[..], 0, at) && Same(old(nram[..]), nram[..], at + n, nram.Length)
  {
    forall k | at <= k < at + n {
      nram[k] := nram[from + 5 * (k - at) + c];
    }
  }

  lemma ColumnKept(s: seq<real>, s': seq<real>, s'': seq<real>, from: nat, at: nat, n: nat, c: nat)
    requires Column(s, s', from, at, n, c) && Same(s', s'', 0, at + n)
    ensures Column(s, s'', from, at, n, c)
  {
  }

  lemma ColumnOf(s: seq<real>, s': seq<real>, s'': seq<real>, from: nat, at: nat, n: nat, c: nat)
    requires Column(s', s'', from, at, n, c) && Same(s, s', 0, from + 5 * n)
    ensures Column(s, s'', from, at, n, c)
  {
  }

  lemma SameTwice(s: seq<real>, s': seq<real>, s'': seq<real>, lo: nat, hi: nat)
    requires Same(s, s', lo, hi) && Same(s', s'', lo, hi)
    ensures Same(s, s'', lo, hi)
  {
  }

  /** One more row. */
  lemma NextColumn(s: seq<real>, s': seq<real>, s'': seq<real>, from: nat, to: nat, n: nat, c: nat)
    requires Columns(s, s', from, to, n, c) && c < 5
    requires 0 <= to + c * n && Column(s', s'', from, to + c * n, n, c) && Same(s', s'', 0, to + c * n)
    ensures Columns(s, s'', from, to, n, c + 1)
  {
    hide Column, Same;
    Rounding.MulMonotone(0, c, n);
    SameWithin(s', s'', 0, to + c * n, 0, to);
    SameTwice(s, s', s'', 0, to);
    SameWithin(s, s', 0, to, 0, from + 5 * n);
    ColumnOf(s, s', s'', from, to + c * n, n, c);
    forall c' | 0 <= c' < c ensures Column(s, s'', from, to + c' * n, n, c') {
      Rounding.MulMonotone(c' + 1, c, n);
      assert (c' + 1) * n == c' * n + n;
      SameWithin(s', s'', 0, to + c * n, 0, to + c' * n + n);
      ColumnKept(s, s', s'', from, to + c' * n, n, c');
    }
  }

  lemma ColumnAt(s: seq<real>, s': seq<real>, from: nat, to: nat, n: nat, c: nat, at: nat, l: nat)
    requires Columns(s, s', from, to, n, 5) && c < 5 && at == to + c * n && l < n
    ensures at + n <= |s'| == |s| && from + 5 * n <= |s| && s'[at + l] == s[from + 5 * l + c]
  {
    assert Column(s, s', from, to + c * n, n, c);
    hide Columns;
    ColumnCell(s, s', from, at, n, c, l);
  }

  lemma ColumnCell(s: seq<real>, s': seq<real>, from: nat, at: nat, n: nat, c: nat, l: nat)
    requires Column(s, s', from, at, n, c) && l < n
    ensures at + n <= |s'| == |s| && from + 5 * n <= |s| && s'[at + l] == s[from + 5 * l + c]
  {
    assert at <= at + l < at + n;
  }

  lemma RecordOf(s: seq<real>, s': seq<real>, from: nat, to: nat, n: nat, l: nat)
    requires Columns(s, s', from, to, n, 5) && l < n && |s| == |s'| && from + 5 * n <= |s| && to + BOX_DIM * n <= |s'|
    ensures var at := from + 5 * l; RecAt(s', to, n, l) == Rec(s[at], s[at + 1], s[at + 2], s[at + 3], s[at + 4])
  {
    hide Columns;
    ColumnAt(s, s', from, to, n, 0, to, l);
    ColumnAt(s, s', from, to, n, 1, to + n, l);
    ColumnAt(s, s', from, to, n, 2, to + 2 * n, l);
    ColumnAt(s, s', from, to, n, 3, to + 3 * n, l);
    ColumnAt(s, s', from, to, n, 4, to + 4 * n, l);
  }

  /** The records as they lie in box2_onchip. */
  function Onchip(s: seq<real>, m: nat, n: nat): (b: seq<Rec>)
    requires |s| == ROWS * m && n <= m
    ensures |b| == n
  {
    seq(n, l requires 0 <= l < n => RecOf(s[BOX2 * m..BOX2 * m + 5 * m], l))
  }

  lemma OnchipAt(s: seq<real>, m: nat, n: nat, l: nat)
    requires |s| == ROWS * m && n <= m && l < n
    ensures var at := BOX2 * m + 5 * l; Onchip(s, m, n)[l] == Rec(s[at], s[at + 1], s[at + 2], s[at + 3], s[at + 4])
  {
  }

  method Transpose(nram: array<real>, m: nat, n: nat)
    requires nram.Length == ROWS * m && n <= m
    modifies nram
    ensures forall l | 0 <= l < n :: RecAt(nram[..], BOX2_TRANS * m, n, l) == Onchip(old(nram[..]), m, n)[l]
    ensures Same(old(nram[..]), nram[..], 0, BOX2_TRANS * m)
  {
    hide Onchip, Column, Columns, RecAt;
    ghost var s := nram[..];
    var from, to := BOX2 * m, BOX2_TRANS * m;
    NoColumns(s, from, to, n);
    for c := 0 to 5
      invariant Columns(s, nram[..], from, to, n, c)
    {
      ghost var s' := nram[..];
      RowWithin(to, n, c);
      TransposeRow(nram, from, to + c * n, n, c);
      NextColumn(s, s', nram[..], from, to, n, c);
    }
    forall l | 0 <= l < n ensures RecAt(nram[..], to, n, l) == Onchip(s, m, n)[l] {
      RecordOf(s, nram[..], from, to, n, l);
      OnchipAt(s, m, n, l);
    }
    ColumnsSame(s, nram[..], from, to, n);
  }

  lemma NoColumns(s: seq<real>, from: nat, to: nat, n: nat)
    requires from + 5 * n <= to <= |s|
    ensures Columns(s, s, from, to, n, 0)
  {
  }

  lemma ColumnsSame(s: seq<real>, s': seq<real>, from: nat, to: nat, n: nat)
    requires Columns(s, s', from, to, n, 5)
    ensures Same(s, s', 0, to)
  {
  }

  lemma RowWithin(to: nat, n: nat, c: nat)
    requires c < 5
    ensures to <= to + c * n <= to + 4 * n
  {
    Rounding.MulMonotone(0, c, n);
    Rounding.MulMonotone(c, 4, n);
  }

  method Areas(nram: array<real>, m: nat, n: nat, ghost num2: nat, ghost b2: seq<Rec>)
    requires nram.Length == ROWS * m && n <= m && |b2| == n
    requires forall l | 0 <= l < n :: RecAt(nram[..], BOX2_TRANS * m, n, l) == b2[l]
    modifies nram
    ensures Loaded2(nram[..], m, n, num2, b2)
    ensures forall k | n <= k < nram.Length :: nram[k] == old(nram[k])
  {
    ghost var s := nram[..];
    forall k | 0 <= k < n {
      nram[k] := nram[BOX2_TRANS * m + 2 * n + k] * nram[BOX2_TRANS * m + 3 * n + k];
    }
    hide ValidLane;
    forall l | 0 <= l < n ensures RecAt(nram[..], BOX2_TRANS * m, n, l) == b2[l] && nram[l] == b2[l].w * b2[l].h {
      RecKept(s, nram[..], BOX2_TRANS * m, n, l);
    }
  }

  /** Load num2 boxes from box number `from` on, transpose them and take their areas. */
  method LoadBox2(nram: array<real>, m: nat, n: nat, num2: nat, box2: array<real>, from: nat, ghost b1: seq<real>)
    returns (ghost b2: seq<Rec>)
    requires num2 <= n <= m && 5 * from + 5 * num2 <= box2.Length && nram != box2 && Loaded1(nram[..], m, b1)
    modifies nram
    ensures Loaded1(nram[..], m, b1) && Loaded2(nram[..], m, n, num2, b2)
    ensures |b2| == n && forall l | 0 <= l < num2 :: b2[l] == RecOf(box2[..], from + l)
  {
    hide Loaded1, Loaded2, Onchip, RecAt;
    assert nram.Length == ROWS * m && |b1| <= BOX_DIM * m by { Loaded1Size(nram[..], m, b1); }
    ghost var s := nram[..];
    forall k | BOX2 * m <= k < BOX2 * m + 5 * num2 {
      nram[k] := box2[5 * from + (k - BOX2 * m)];
    }
    Loaded1Kept(s, nram[..], m, b1);
    s := nram[..];
    b2 := Onchip(s, m, n);
    forall l | 0 <= l < num2 ensures b2[l] == RecOf(box2[..], from + l) {
      OnchipAt(s, m, n, l);
    }
    Transpose(nram, m, n);
    Loaded1Kept(s, nram[..], m, b1);
    s := nram[..];
    Areas(nram, m, n, num2, b2);
    Loaded1Kept(s, nram[..], m, b1);
  }

  lemma Loaded1Size(s: seq<real>, m: nat, b1: seq<real>)
    requires Loaded1(s, m, b1)
    ensures |s| == ROWS * m && |b1| <= BOX_DIM * m
  {
  }

  // ----- The matrix -----

  /** Row i of the matrix: the first done cells hold what they should and have been written once, the others
      have not been written. */
  ghost predicate Row(s: seq<real>, w: seq<nat>, i: nat, cols: nat, done: nat, pair: PairFn, box1: seq<real>,
                      box2: seq<real>)
    requires 5 * i + 5 <= |box1| && 5 * cols <= |box2|
  {
    var start := i * cols;
    && 0 <= start && start + cols <= |s| == |w| && done <= cols
    && (forall k | start <= k < start + done :: w[k] == 1 && s[k] == Cell(pair, RecOf(box1, i), RecOf(box2, k - start)))
    && forall k | start + done <= k < start + cols :: w[k] == 0
  }

  /** How many cells of row i are done once the rows before t0 are, and of the tile's num rows the first `at`
      have come as far as j1, the others as far as j0. */
  function DoneIn(i: nat, cols: nat, t0: nat, at: nat, num: nat, j0: nat, j1: nat): nat {
    if i < t0 then cols else if i < t0 + at then j1 else if i < t0 + num then j0 else 0
  }

  ghost predicate Matrix(s: seq<real>, w: seq<nat>, rows: nat, cols: nat, t0: nat, at: nat, num: nat, j0: nat, j1: nat,
                         pair: PairFn, box1: seq<real>, box2: seq<real>)
    requires 5 * rows <= |box1| && 5 * cols <= |box2|
  {
    forall i | 0 <= i < rows :: Row(s, w, i, cols, DoneIn(i, cols, t0, at, num, j0, j1), pair, box1, box2)
  }

  /** A run of cells in row i is written: values v from column j0 on. */
  ghost predicate Wrote(s: seq<real>, w: seq<nat>, s': seq<real>, w': seq<nat>, start: int, v: seq<real>) {
    && |s| == |w| == |s'| == |w'| && 0 <= start && start + |v| <= |s|
    && (forall k | 0 <= k < |s| && !(start <= k < start + |v|) :: s'[k] == s[k] && w'[k] == w[k])
    && forall k | start <= k < start + |v| :: s'[k] == v[k - start] && w'[k] == w[k] + 1
  }

  /** The values v belong to box b and the boxes of box2 from number j0 on. */
  ghost predicate CellsFrom(v: seq<real>, pair: PairFn, b: Rec, box2: seq<real>, j0: nat) {
    5 * (j0 + |v|) <= |box2| && forall l | 0 <= l < |v| :: v[l] == Cell(pair, b, RecOf(box2, j0 + l))
  }

  lemma RowElsewhere(s: seq<real>, w: seq<nat>, s': seq<real>, w': seq<nat>, i: nat, i': nat, cols: nat, done: nat,
                     j0: nat, v: seq<real>, pair: PairFn, box1: seq<real>, box2: seq<real>)
    requires 5 * i' + 5 <= |box1| && 5 * cols <= |box2| && i != i' && j0 + |v| <= cols
    requires Row(s, w, i', cols, done, pair, box1, box2) && Wrote(s, w, s', w', i * cols + j0, v)
    ensures Row(s', w', i', cols, done, pair, box1, box2)
  {
    hide Cell, RecOf;
    if i < i' {
      Rounding.MulMonotone(i + 1, i', cols);
      assert (i + 1) * cols == i * cols + cols;
    } else {
      Rounding.MulMonotone(i' + 1, i, cols);
      assert (i' + 1) * cols == i' * cols + cols;
    }
  }

  lemma RowExtended(s: seq<real>, w: seq<nat>, s': seq<real>, w': seq<nat>, i: nat, cols: nat, j0: nat, v: seq<real>,
                    pair: PairFn, box1: seq<real>, box2: seq<real>)
    requires 5 * i + 5 <= |box1| && 5 * cols <= |box2| && j0 + |v| <= cols
    requires Row(s, w, i, cols, j0, pair, box1, box2) && Wrote(s, w, s', w', i * cols + j0, v)
    requires CellsFrom(v, pair, RecOf(box1, i), box2, j0)
    ensures Row(s', w', i, cols, j0 + |v|, pair, box1, box2)
  {
    hide Cell, RecOf;
    var start := i * cols;
    forall k | start <= k < start + (j0 + |v|)
      ensures w'[k] == 1 && s'[k] == Cell(pair, RecOf(box1, i), RecOf(box2, k - start))
    {
      if start + j0 <= k {
        assert v[k - (start + j0)] == Cell(pair, RecOf(box1, i), RecOf(box2, j0 + (k - (start + j0))));
      }
    }
  }

  /** One more row of the tile has come as far as j1. */
  lemma MatrixStep(s: seq<real>, w: seq<nat>, s': seq<real>, w': seq<nat>, rows: nat, cols: nat, t0: nat, at: nat,
                   num: nat, j0: nat, j1: nat, v: seq<real>, pair: PairFn, box1: seq<real>, box2: seq<real>)
    requires 5 * rows <= |box1| && 5 * cols <= |box2| && at < num && t0 + num <= rows && j1 == j0 + |v| <= cols
    requires Matrix(s, w, rows, cols, t0, at, num, j0, j1, pair, box1, box2)
    requires Wrote(s, w, s', w', (t0 + at) * cols + j0, v)
    requires CellsFrom(v, pair, RecOf(box1, t0 + at), box2, j0)
    ensures Matrix(s', w', rows, cols, t0, at + 1, num, j0, j1, pair, box1, box2)
  {
    hide Row, Wrote, Cell, RecOf, CellsFrom;
    var next := at + 1;
    forall i | 0 <= i < rows
      ensures Row(s', w', i, cols, DoneIn(i, cols, t0, next, num, j0, j1), pair, box1, box2)
    {
      if i == t0 + at {
        assert DoneIn(i, cols, t0, at, num, j0, j1) == j0;
        assert Row(s, w, i, cols, j0, pair, box1, box2);
        assert Wrote(s, w, s', w', i * cols + j0, v);
        RowExtended(s, w, s', w', i, cols, j0, v, pair, box1, box2);
      } else {
        RowElsewhere(s, w, s', w', t0 + at, i, cols, DoneIn(i, cols, t0, at, num, j0, j1), j0, v, pair, box1, box2);
      }
    }
  }

  /** Two descriptions of the same progress. */
  lemma MatrixSame(s: seq<real>, w: seq<nat>, rows: nat, cols: nat, t0: nat, at: nat, num: nat, j0: nat, j1: nat,
                   t0': nat, at': nat, num': nat, j0': nat, j1': nat, pair: PairFn, box1: seq<real>, box2: seq<real>)
    requires 5 * rows <= |box1| && 5 * cols <= |box2|
    requires Matrix(s, w, rows, cols, t0, at, num, j0, j1, pair, box1, box2)
    requires forall i | 0 <= i < rows ::
               DoneIn(i, cols, t0, at, num, j0, j1) == DoneIn(i, cols, t0', at', num', j0', j1')
    ensures Matrix(s, w, rows, cols, t0', at', num', j0', j1', pair, box1, box2)
  {
    hide Row;
  }

  /** Copy the result row out. */
  method StoreRow(nram: array<real>, m: nat, num2: nat, ious: array<real>, start: nat, ghost w: seq<nat>)
    returns (ghost w': seq<nat>)
    requires m + num2 <= nram.Length && start + num2 <= ious.Length == |w| && nram != ious
    modifies ious
    ensures Wrote(old(ious[..]), w, ious[..], w', start, nram[m..m + num2])
  {
    forall k | start <= k < start + num2 {
      ious[k] := nram[m + (k - start)];
    }
    w' := seq(|w|, k requires 0 <= k < |w| => if start <= k < start + num2 then w[k] + 1 else w[k]);
  }

  // ----- The tile loops -----

  /** Nothing the kernel writes is an input. */
  predicate Separate(box1: array<real>, box2: array<real>, ious: array<real>, nram: array<real>) {
    nram != box1 && nram != box2 && ious != box1 && ious != box2 && nram != ious
  }

  /** How many tiles of m cover total, and the size of tile t. */
  function Tiles(total: nat, m: nat): nat
    requires 0 < m
  {
    Rounding.Quotient(total, m) + if total % m > 0 then 1 else 0
  }

  function TileSize(total: nat, m: nat, t: nat): nat
    requires 0 < m
  {
    if total % m != 0 then if t + 1 == Tiles(total, m) then total % m else m else m
  }

  lemma TilesCover(total: nat, m: nat, t: nat)
    requires 0 < m && t < Tiles(total, m)
    ensures 0 < TileSize(total, m, t) <= m && t * m + TileSize(total, m, t) ==
            if t + 1 == Tiles(total, m) then total else (t + 1) * m
    ensures 0 <= t * m && t * m + TileSize(total, m, t) <= total
  {
    var q := total / m;
    assert total == m * q + total % m;
    assert (t + 1) * m == t * m + m;
    Rounding.MulMonotone(t, q, m);
    Rounding.MulMonotone(0, t, m);
    if t + 1 <= q {
      Rounding.MulMonotone(t + 1, q, m);
    }
  }

  /** Where tile t starts. */
  function TileStart(total: nat, m: nat, t: nat): nat
    requires 0 < m
  {
    if t < Tiles(total, m) then t * m else total
  }

  lemma NextStart(total: nat, m: nat, t: nat)
    requires 0 < m && t < Tiles(total, m)
    ensures TileStart(total, m, t) + TileSize(total, m, t) == TileStart(total, m, t + 1) <= total
    ensures TileStart(total, m, 0) == 0
  {
    TilesCover(total, m, t);
  }

  lemma CellStart(i: nat, rows: nat, cols: nat, j0: nat, num: nat)
    requires i < rows && j0 + num <= cols
    ensures 0 <= i * cols + j0 && i * cols + j0 + num <= rows * cols
  {
    Rounding.MulMonotone(i + 1, rows, cols);
    assert (i + 1) * cols == i * cols + cols;
    Rounding.MulMonotone(0, i, cols);
  }

  /** One tile of box2 against the loaded tile of box1. */
  method Box2Tile(box1: array<real>, box2: array<real>, ious: array<real>, nram: array<real>, m: nat, rows: nat,
                  cols: nat, t0: nat, num1: nat, j0: nat, num2: nat, pair: PairFn, ghost w: seq<nat>)
    returns (ghost w': seq<nat>)
    requires Separate(box1, box2, ious, nram) && nram.Length == ROWS * m && m % COMPUTE_COUNT_ALIGN == 0
    requires box1.Length == 5 * rows && box2.Length == 5 * cols && ious.Length == rows * cols == |w|
    requires num1 <= m && t0 + num1 <= rows && num2 <= m && j0 + num2 <= cols
    requires Loaded1(nram[..], m, box1[5 * t0..5 * t0 + 5 * num1])
    requires Matrix(ious[..], w, rows, cols, t0, 0, num1, j0, j0 + num2, pair, box1[..], box2[..])
    modifies nram, ious
    ensures Loaded1(nram[..], m, box1[5 * t0..5 * t0 + 5 * num1])
    ensures |w'| == |w| && Matrix(ious[..], w', rows, cols, t0, num1, num1, j0, j0 + num2, pair, box1[..], box2[..])
  {
    hide Loaded1, Loaded2, Matrix, Results, Wrote, Cell, RecOf, CellsFrom;
    ghost var b1 := box1[5 * t0..5 * t0 + 5 * num1];
    var n := Rounding.CeilAlign(num2, COMPUTE_COUNT_ALIGN);
    Rounding.CeilAlignIsCeiling(num2, COMPUTE_COUNT_ALIGN);
    Rounding.CeilAlignWithin(num2, m, COMPUTE_COUNT_ALIGN);
    ghost var b2 := LoadBox2(nram, m, n, num2, box2, j0, b1);
    w' := w;
    for i := 0 to num1
      invariant Loaded1(nram[..], m, b1) && Loaded2(nram[..], m, n, num2, b2) && |w'| == |w|
      invariant Matrix(ious[..], w', rows, cols, t0, i, num1, j0, j0 + num2, pair, box1[..], box2[..])
    {
      OnePair(nram, m, n, num1, num2, i, pair, b1, b2);
      CellStart(t0 + i, rows, cols, j0, num2);
      ghost var s, v, before := ious[..], nram[m..m + num2], w';
      w' := StoreRow(nram, m, num2, ious, (t0 + i) * cols + j0, w');
      ResultsAreCells(nram[..], m, num2, pair, b1, i, b2, box1[..], t0, box2[..], j0);
      WroteLength(s, before, ious[..], w', (t0 + i) * cols + j0, v);
      MatrixStep(s, before, ious[..], w', rows, cols, t0, i, num1, j0, j0 + num2, v, pair, box1[..], box2[..]);
    }
  }

  lemma WroteLength(s: seq<real>, w: seq<nat>, s': seq<real>, w': seq<nat>, start: int, v: seq<real>)
    requires Wrote(s, w, s', w', start, v)
    ensures |w'| == |w|
  {
  }

  /** The result row holds the cells of the matrix. */
  lemma ResultsAreCells(s: seq<real>, m: nat, num2: nat, pair: PairFn, b1: seq<real>, i: nat, b2: seq<Rec>,
                        box1: seq<real>, t0: nat, box2: seq<real>, j0: nat)
    requires 5 * t0 + |b1| <= |box1| && b1 == box1[5 * t0..5 * t0 + |b1|] && 5 * i + 5 <= |b1|
    requires num2 <= |b2| && 5 * (j0 + num2) <= |box2| && forall l | 0 <= l < num2 :: b2[l] == RecOf(box2, j0 + l)
    requires Results(s, m, num2, pair, RecOf(b1, i), b2)
    ensures m + num2 <= |s| && CellsFrom(s[m..m + num2], pair, RecOf(box1, t0 + i), box2, j0)
  {
    assert RecOf(b1, i) == RecOf(box1, t0 + i);
    hide Cell, RecOf;
  }

  /** All tiles of box2 against one tile of box1. */
  method Box1Tile(box1: array<real>, box2: array<real>, ious: array<real>, nram: array<real>, m: nat, rows: nat,
                  cols: nat, t0: nat, num1: nat, pair: PairFn, ghost w: seq<nat>)
    returns (ghost w': seq<nat>)
    requires Separate(box1, box2, ious, nram) && nram.Length == ROWS * m && m % COMPUTE_COUNT_ALIGN == 0 && 0 < m
    requires box1.Length == 5 * rows && box2.Length == 5 * cols && ious.Length == rows * cols == |w|
    requires num1 <= m && t0 + num1 <= rows
    requires Matrix(ious[..], w, rows, cols, t0, 0, num1, 0, 0, pair, box1[..], box2[..])
    modifies nram, ious
    ensures |w'| == |w| && Matrix(ious[..], w', rows, cols, t0, 0, num1, cols, cols, pair, box1[..], box2[..])
  {
    hide Loaded1, Matrix, TileSize, Tiles;
    LoadBox1(nram, m, box1, t0, num1);
    w' := w;
    TilesEnd(cols, m);
    for t := 0 to Tiles(cols, m)
      invariant Loaded1(nram[..], m, box1[5 * t0..5 * t0 + 5 * num1]) && |w'| == |w|
      invariant Matrix(ious[..], w', rows, cols, t0, 0, num1, TileStart(cols, m, t), TileStart(cols, m, t), pair,
                       box1[..], box2[..])
    {
      var num2 := TileSize(cols, m, t);
      TilesCover(cols, m, t);
      NextStart(cols, m, t);
      var j0 := t * m;
      MatrixSame(ious[..], w', rows, cols, t0, 0, num1, j0, j0, t0, 0, num1, j0, j0 + num2, pair, box1[..], box2[..]);
      w' := Box2Tile(box1, box2, ious, nram, m, rows, cols, t0, num1, j0, num2, pair, w');
      MatrixSame(ious[..], w', rows, cols, t0, num1, num1, j0, j0 + num2, t0, 0, num1, j0 + num2, j0 + num2, pair,
                 box1[..], box2[..]);
    }
  }

  lemma TilesEnd(total: nat, m: nat)
    requires 0 < m
    ensures TileStart(total, m, 0) == 0 && TileStart(total, m, Tiles(total, m)) == total
  {
    if Tiles(total, m) == 0 {
      assert total == m * (total / m) + total % m;
    }
  }

  /** Every cell of the matrix has been written once, with the value for its two boxes. */
  ghost predicate Finished(s: seq<real>, w: seq<nat>, rows: nat, cols: nat, pair: PairFn, box1: seq<real>,
                           box2: seq<real>)
    requires 5 * rows <= |box1| && 5 * cols <= |box2|
  {
    forall i | 0 <= i < rows :: Row(s, w, i, cols, cols, pair, box1, box2)
  }

  /** The kernel on one core. Every cell of the matrix is written exactly once, with the value for its two boxes. */
  method NonAligned(box1: array<real>, box2: array<real>, ious: array<real>, nram: array<real>, numBox1: int,
                    numBox2: nat, maxBoxPair: nat, pair: PairFn)
    returns (ghost writes: seq<nat>)
    requires Separate(box1, box2, ious, nram) && nram.Length == 258 * maxBoxPair
    requires 0 < maxBoxPair && maxBoxPair % 64 == 0
    requires 0 < numBox1 ==> box1.Length == 5 * numBox1 && ious.Length == numBox1 * numBox2
    requires box2.Length == 5 * numBox2
    modifies nram, ious
    ensures |writes| == ious.Length
    ensures numBox1 <= 0 ==> ious[..] == old(ious[..])
    ensures forall k | 0 <= k < ious.Length && 0 < numBox1 ::
              0 < numBox2 && k / numBox2 < numBox1 && writes[k] == 1 &&
              ious[k] == Cell(pair, RecOf(box1[..], k / numBox2), RecOf(box2[..], k % numBox2))
  {
    hide Matrix, TileSize, Tiles, Finished, Cell, RecOf;
    writes := seq(ious.Length, k => 0);
    if numBox1 <= 0 {
      return;
    }
    var rows, cols, m := numBox1, numBox2, maxBoxPair;
    TilesEnd(rows, m);
    EmptyMatrix(ious[..], writes, rows, cols, pair, box1[..], box2[..]);
    for t := 0 to Tiles(rows, m)
      invariant |writes| == ious.Length
      invariant Matrix(ious[..], writes, rows, cols, TileStart(rows, m, t), 0, 0, 0, 0, pair, box1[..], box2[..])
    {
      var num1 := TileSize(rows, m, t);
      TilesCover(rows, m, t);
      NextStart(rows, m, t);
      var t0 := t * m;
      MatrixSame(ious[..], writes, rows, cols, t0, 0, 0, 0, 0, t0, 0, num1, 0, 0, pair, box1[..], box2[..]);
      writes := Box1Tile(box1, box2, ious, nram, m, rows, cols, t0, num1, pair, writes);
      MatrixSame(ious[..], writes, rows, cols, t0, 0, num1, cols, cols, t0 + num1, 0, 0, 0, 0, pair, box1[..],
                 box2[..]);
    }
    FullMatrix(ious[..], writes, rows, cols, pair, box1[..], box2[..]);
    AllCells(ious[..], writes, rows, cols, pair, box1[..], box2[..]);
  }

  lemma AllCells(s: seq<real>, w: seq<nat>, rows: nat, cols: nat, pair: PairFn, box1: seq<real>, box2: seq<real>)
    requires 5 * rows <= |box1| && 5 * cols <= |box2| && |s| == |w| == rows * cols
    requires Finished(s, w, rows, cols, pair, box1, box2)
    ensures forall k | 0 <= k < |s| ::
              0 < cols && k / cols < rows && w[k] == 1 &&
              s[k] == Cell(pair, RecOf(box1, k / cols), RecOf(box2, k % cols))
  {
    hide Cell, RecOf, Finished;
    forall k | 0 <= k < |s|
      ensures 0 < cols && k / cols < rows && w[k] == 1
      ensures s[k] == Cell(pair, RecOf(box1, k / cols), RecOf(box2, k % cols))
    {
      CellOf(s, w, rows, cols, pair, box1, box2, k);
    }
  }

  /** Cell k of the matrix is that of row k / cols and column k % cols. */
  lemma CellOf(s: seq<real>, w: seq<nat>, rows: nat, cols: nat, pair: PairFn, box1: seq<real>, box2: seq<real>, k: nat)
    requires 5 * rows <= |box1| && 5 * cols <= |box2| && |s| == |w| == rows * cols && k < rows * cols
    requires Finished(s, w, rows, cols, pair, box1, box2)
    ensures 0 < cols && k / cols < rows && w[k] == 1
    ensures s[k] == Cell(pair, RecOf(box1, k / cols), RecOf(box2, k % cols))
  {
    hide Cell, RecOf;
    Rounding.DivBelow(k, cols, rows);
    assert k == k / cols * cols + k % cols;
    assert Row(s, w, k / cols, cols, cols, pair, box1, box2);
  }

  lemma EmptyMatrix(s: seq<real>, w: seq<nat>, rows: nat, cols: nat, pair: PairFn, box1: seq<real>, box2: seq<real>)
    requires 5 * rows <= |box1| && 5 * cols <= |box2| && |s| == |w| == rows * cols &&
             forall k | 0 <= k < |w| :: w[k] == 0
    ensures Matrix(s, w, rows, cols, 0, 0, 0, 0, 0, pair, box1, box2)
  {
    forall i | 0 <= i < rows ensures Row(s, w, i, cols, DoneIn(i, cols, 0, 0, 0, 0, 0), pair, box1, box2) {
      CellStart(i, rows, cols, 0, cols);
    }
  }

  lemma FullMatrix(s: seq<real>, w: seq<nat>, rows: nat, cols: nat, pair: PairFn, box1: seq<real>, box2: seq<real>)
    requires 5 * rows <= |box1| && 5 * cols <= |box2|
    requires Matrix(s, w, rows, cols, rows, 0, 0, 0, 0, pair, box1, box2)
    ensures Finished(s, w, rows, cols, pair, box1, box2)
  {
    hide Row;
    forall i | 0 <= i < rows ensures Row(s, w, i, cols, cols, pair, box1, box2) {
      assert Row(s, w, i, cols, DoneIn(i, cols, rows, 0, 0, 0, 0), pair, box1, box2);
    }
  }
}
