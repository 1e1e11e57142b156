/**
 What one cluster of the five-stage kernel computes when its operations run one after the other: phase by
 phase the memory core stores and loads one half of the shared memory while the cores work on the other.
 */
module Pipeline5Effect {
  import opened AsyncMachine
  import opened Pipeline5
  import Rounding

  // ----- The serial reading of a phase -----

  /** What the first n cores do in a phase, one core after the other. */
  function CoresOps(j: Job, p: Phase, n: nat): seq<Op>
    requires j.Valid()
  {
    if n == 0 then [] else CoresOps(j, p, n - 1) + j.CoreWork(p, n - 1)
  }

  function PhaseOps(j: Job, p: Phase): seq<Op>
    requires j.Valid()
  {
    p.io + CoresOps(j, p, j.cores)
  }

  function PhasesOps(j: Job, ps: seq<Phase>): seq<Op>
    requires j.Valid()
  {
    if ps == [] then [] else PhasesOps(j, ps[..|ps| - 1]) + PhaseOps(j, ps[|ps| - 1])
  }

  lemma PhasesOpsSnoc(j: Job, ps: seq<Phase>, p: Phase)
    requires j.Valid()
    ensures PhasesOps(j, ps + [p]) == PhasesOps(j, ps) + PhaseOps(j, p)
  {
    assert (ps + [p])[..|ps|] == ps;
  }

  // ----- States of the memories -----

  /** Both inputs of the len elements from base are staged in the half at h. */
  ghost predicate Loaded(j: Job, m0: Mem, m: Mem, h: nat, base: int, len: nat) {
    && Holds(m, j.Shared1(h), len, Slice(m0, j.x, base))
    && Holds(m, j.Shared2(h), len, Slice(m0, j.y, base))
  }

  /** The result of the len elements from base has replaced the first input in the half at h. */
  ghost predicate Computed(f: Fn, j: Job, m0: Mem, m: Mem, h: nat, base: int, len: nat)
    requires j.Valid()
  {
    Holds(m, j.Shared1(h), len, j.Result(f, m0, base))
  }

  /** Off-chip memory is m0 with the first d results stored. */
  ghost predicate Stored(f: Fn, j: Job, m0: Mem, m: Mem, d: int)
    requires j.Valid()
  {
    forall a :: m(Loc(Gdram, a)) == if j.z <= a < j.z + d then j.Result(f, m0, 0)(a - j.z) else m0(Loc(Gdram, a))
  }

  predicate InHalf(j: Job, h: nat, a: int) {
    h <= a < h + j.SramNum() || 2 * j.SramNum() + h <= a < 2 * j.SramNum() + h + j.SramNum()
  }

  ghost predicate SameHalf(j: Job, m: Mem, m': Mem, h: nat) {
    forall a :: InHalf(j, h, a) ==> m'(Loc(Sram(j.c), a)) == m(Loc(Sram(j.c), a))
  }

  ghost predicate SameGdram(m: Mem, m': Mem) {
    forall a :: m'(Loc(Gdram, a)) == m(Loc(Gdram, a))
  }

  /** h and o are the two halves. */
  predicate TwoHalves(j: Job, h: nat, o: nat) {
    (h == 0 && o == j.SramNum()) || (o == 0 && h == j.SramNum())
  }

  lemma HalvesAlternate(j: Job, k: int)
    ensures TwoHalves(j, j.Half(k), j.Half(k + 1)) && TwoHalves(j, j.Half(k + 1), j.Half(k)) &&
            j.Half(k) == j.Half(k + 2)
  {
    assert (k + 1) % 2 == 0 <==> k % 2 != 0;
  }

  lemma LoadedKept(j: Job, m0: Mem, m: Mem, m': Mem, h: nat, base: int, len: nat)
    requires Loaded(j, m0, m, h, base, len) && SameHalf(j, m, m', h) && len <= j.SramNum()
    ensures Loaded(j, m0, m', h, base, len)
  {
    hide Slice, Job.SramNum;
    var p, q := j.Shared1(h), j.Shared2(h);
    assert forall a :: p.addr <= a < p.addr + len ==> InHalf(j, h, a);
    assert forall a :: q.addr <= a < q.addr + len ==> InHalf(j, h, a);
    HoldsFrame(m, m', p, len, Slice(m0, j.x, base));
    HoldsFrame(m, m', q, len, Slice(m0, j.y, base));
  }

  lemma StoredKept(f: Fn, j: Job, m0: Mem, m: Mem, m': Mem, d: int)
    requires j.Valid() && Stored(f, j, m0, m, d) && SameGdram(m, m')
    ensures Stored(f, j, m0, m', d)
  {
    hide Job.Result;
  }

  lemma SameHalfTwice(j: Job, m: Mem, m': Mem, m'': Mem, h: nat)
    requires SameHalf(j, m, m', h) && SameHalf(j, m', m'', h)
    ensures SameHalf(j, m, m'', h)
  {
    hide InHalf;
  }

  lemma SameGdramTwice(m: Mem, m': Mem, m'': Mem)
    requires SameGdram(m, m') && SameGdram(m', m'')
    ensures SameGdram(m, m'')
  {
  }

  // ----- Loads and stores -----

  /** Inputs at or beyond what has been stored are still the original ones. */
  lemma InputIntact(f: Fn, j: Job, m0: Mem, m: Mem, p: int, base: int, len: nat, d: int)
    requires j.Valid() && Stored(f, j, m0, m, d) && 0 <= d <= base && base + len <= j.n
    requires j.z == p || j.z + j.n <= p || p + j.n <= j.z
    ensures Holds(m, Loc(Gdram, p + base), len, Slice(m0, p, base))
  {
    hide Job.Result;
  }

  lemma TransferKeepsHalf(f: Fn, j: Job, m: Mem, op: Op, h: nat, o: nat)
    requires TwoHalves(j, h, o) && op.n <= j.SramNum()
    requires op.dst == j.Shared1(h) || op.dst == j.Shared2(h)
    ensures SameHalf(j, m, Apply(f, op, m), o) && SameGdram(m, Apply(f, op, m))
  {
    hide Job.SramNum;
  }

  lemma LoadEffect(f: Fn, j: Job, m0: Mem, m: Mem, h: nat, o: nat, base: int, len: nat, d: int)
    requires j.Valid() && TwoHalves(j, h, o) && len <= j.SramNum()
    requires Stored(f, j, m0, m, d) && 0 <= d <= base && base + len <= j.n
    ensures var m' := Exec(f, j.LoadAt(h, base, len), m);
            Loaded(j, m0, m', h, base, len) && SameHalf(j, m, m', o) && SameGdram(m, m')
  {
    hide Exec, Apply, Holds, Stored, SameHalf, SameGdram, Slice, Job.SramNum;
    var op1, op2 := Copy(j.Shared1(h), Loc(Gdram, j.x + base), len), Copy(j.Shared2(h), Loc(Gdram, j.y + base), len);
    var m1 := Apply(f, op1, m);
    var m2 := Apply(f, op2, m1);
    ExecTwo(f, op1, op2, m);
    InputIntact(f, j, m0, m, j.x, base, len, d);
    InputIntact(f, j, m0, m, j.y, base, len, d);
    CopyHolds(f, op1, m, Slice(m0, j.x, base));
    ApplyKeeps(f, op1, m, Loc(Gdram, j.y + base), len, Slice(m0, j.y, base));
    CopyHolds(f, op2, m1, Slice(m0, j.y, base));
    ApplyKeeps(f, op2, m1, j.Shared1(h), len, Slice(m0, j.x, base));
    TransferKeepsHalf(f, j, m, op1, h, o);
    TransferKeepsHalf(f, j, m1, op2, h, o);
    SameHalfTwice(j, m, m1, m2, o);
    SameGdramTwice(m, m1, m2);
  }

  lemma ResultShift(f: Fn, j: Job, m0: Mem, base: int, i: int)
    requires j.Valid()
    ensures j.Result(f, m0, base)(i) == j.Result(f, m0, 0)(base + i)
  {
  }

  /** Storing the results from d on extends what is stored. */
  lemma StoreExtends(f: Fn, j: Job, m0: Mem, m: Mem, m': Mem, d: int, len: nat)
    requires j.Valid() && 0 <= d && Stored(f, j, m0, m, d)
    requires Holds(m', Loc(Gdram, j.z + d), len, j.Result(f, m0, d))
    requires forall a :: !(j.z + d <= a < j.z + d + len) ==> m'(Loc(Gdram, a)) == m(Loc(Gdram, a))
    ensures Stored(f, j, m0, m', d + len)
  {
    hide Job.Result;
    forall a
      ensures m'(Loc(Gdram, a)) ==
              if j.z <= a < j.z + (d + len) then j.Result(f, m0, 0)(a - j.z) else m0(Loc(Gdram, a))
    {
      if j.z + d <= a < j.z + d + len {
        ResultShift(f, j, m0, d, a - (j.z + d));
        assert d + (a - (j.z + d)) == a - j.z;
      }
    }
  }

  lemma StoreEffect(f: Fn, j: Job, m0: Mem, m: Mem, h: nat, o: nat, d: int, len: nat)
    requires j.Valid() && 0 <= d && Stored(f, j, m0, m, d) && Computed(f, j, m0, m, h, d, len)
    ensures var m' := Exec(f, j.StoreAt(h, d, len), m);
            Stored(f, j, m0, m', d + len) && SameHalf(j, m, m', o)
  {
    hide Exec, Holds, Stored, Job.Result, Job.SramNum, InHalf;
    var op := j.StoreAt(h, d, len)[0];
    ExecOne(f, op, m);
    CopyHolds(f, op, m, j.Result(f, m0, d));
    StoreExtends(f, j, m0, m, Apply(f, op, m), d, len);
  }

  // ----- The parts of a half -----

  function WorkLen(j: Job, w: Work): nat
    requires j.Valid()
  {
    if w.Full? then j.SramNum() else if w.Remainder? then j.Rem() else 0
  }

  /** Tile t is one of the full tiles, or the one the remainder is in. */
  predicate TileOf(j: Job, w: Work, t: nat)
    requires j.Valid()
  {
    if w.Full? then t < j.Repeat() else t == j.Repeat()
  }

  lemma RemBelow(j: Job)
    requires j.Valid()
    ensures j.Rem() < j.SramNum() && j.Repeat() * j.SramNum() + j.Rem() == j.n
  {
    j.SramPositive();
    assert j.n == j.SramNum() * (j.n / j.SramNum()) + j.n % j.SramNum();
  }

  lemma FullTileWithin(j: Job, t: nat)
    requires j.Valid() && t < j.Repeat()
    ensures 0 <= t * j.SramNum() && t * j.SramNum() + j.SramNum() <= j.Repeat() * j.SramNum() <= j.n
  {
    RemBelow(j);
    Rounding.MulMonotone(t + 1, j.Repeat(), j.SramNum());
    assert (t + 1) * j.SramNum() == t * j.SramNum() + j.SramNum();
  }

  lemma WorkWithin(j: Job, w: Work, t: nat)
    requires j.Valid() && TileOf(j, w, t)
    ensures WorkLen(j, w) <= j.SramNum() && 0 <= t * j.SramNum() && t * j.SramNum() + WorkLen(j, w) <= j.n
  {
    hide Job.SramNum;
    RemBelow(j);
    if w.Full? {
      FullTileWithin(j, t);
    }
  }

  /** The parts of the cores follow one another and fill the half. */
  lemma PartEnd(j: Job, w: Work, k: nat)
    requires j.Valid() && !w.Idle? && k < j.cores
    ensures j.Offset(w, k) + j.Length(w, k) == if k + 1 == j.cores then WorkLen(j, w) else j.Offset(w, k + 1)
    ensures j.Length(w, k) <= j.Padded(w, k)
  {
    var q := j.EvenShare();
    assert (k + 1) * q == k * q + q && (k + 1) * j.span == k * j.span + j.span;
    if w.Remainder? {
      assert j.Rem() == j.cores * (j.Rem() / j.cores) + j.Rem() % j.cores;
      Rounding.PadUpIsCeiling(j.Share(k), j.align);
    }
  }

  lemma LaneOfFull(j: Job, t: nat, k: nat, i: nat)
    requires j.Valid() && t < j.Repeat() && k < j.cores && i < j.span
    ensures j.LaneOf(t * j.SramNum() + k * j.span + i) == (i, j.span)
  {
    hide Job.Share, Job.EvenShare;
    var s, r := j.SramNum(), k * j.span + i;
    FullTileWithin(j, t);
    Rounding.MulMonotone(k + 1, j.cores, j.span);
    assert (k + 1) * j.span == k * j.span + j.span && s == j.cores * j.span;
    Rounding.DivModUnique(t * s + r, s, t, r);
    Rounding.DivModUnique(r, j.span, k, i);
  }

  lemma LaneOfRem(j: Job, k: nat, i: nat, e: int)
    requires j.Valid() && k < j.cores && i < j.Share(k)
    requires e == j.Repeat() * j.SramNum() + k * j.EvenShare() + i
    ensures 0 <= e && j.LaneOf(e) == (i, j.Share(k))
  {
    hide Job.EvenShare, Job.Repeat, Job.SramNum, Job.Rem;
    var q := j.EvenShare();
    Rounding.MulMonotone(0, k, q);
    Rounding.MulMonotone(0, j.Repeat(), j.SramNum());
    var p := k * q + i;
    if q > 0 {
      if k < j.cores - 1 {
        Rounding.DivModUnique(p, q, k, i);
      } else {
        Rounding.DivAtLeast(p, q, k);
      }
    }
  }

  /** What a core computes in its part is the result of the elements it holds. */
  lemma LaneIsResult(f: Fn, j: Job, m0: Mem, w: Work, t: nat, k: nat, i: nat)
    requires j.Valid() && !w.Idle? && TileOf(j, w, t) && k < j.cores && i < j.Length(w, k)
    ensures var (base, off) := (t * j.SramNum(), j.Offset(w, k));
            j.Result(f, m0, base)(off + i) == j.LaneResult(f, m0, base + off, j.Length(w, k))(i)
  {
    if w.Full? {
      LaneOfFull(j, t, k, i);
    } else {
      LaneOfRem(j, k, i, j.Repeat() * j.SramNum() + k * j.EvenShare() + i);
    }
    hide Job.SramNum, Job.LaneOf, Job.Share, Job.EvenShare, Job.LaneResult;
    var base, off := t * j.SramNum(), j.Offset(w, k);
    assert base + (off + i) - i == base + off;
  }

  // ----- The cores of a phase -----

  /** The parts before offset d hold results, the others still inputs. */
  ghost predicate PartlyDone(f: Fn, j: Job, m0: Mem, m: Mem, h: nat, base: int, d: nat, len: nat)
    requires j.Valid()
  {
    && d <= len
    && Holds(m, j.Shared1(h), d, j.Result(f, m0, base))
    && Holds(m, j.Shared1(h).Plus(d), len - d, Slice(m0, j.x, base + d))
    && Holds(m, j.Shared2(h), len, Slice(m0, j.y, base))
  }

  lemma NothingDone(f: Fn, j: Job, m0: Mem, m: Mem, h: nat, base: int, len: nat)
    requires j.Valid() && Loaded(j, m0, m, h, base, len)
    ensures PartlyDone(f, j, m0, m, h, base, 0, len)
  {
    hide Job.Result, Job.SramNum, Slice;
    assert j.Shared1(h).Plus(0) == j.Shared1(h) && base + 0 == base;
  }

  /** A core finds the inputs of its part staged. */
  lemma PartStaged(f: Fn, j: Job, m0: Mem, m: Mem, h: nat, base: int, d: nat, len: nat, n: nat)
    requires j.Valid() && PartlyDone(f, j, m0, m, h, base, d, len) && d + n <= len
    ensures Holds(m, j.Shared1(h).Plus(d), n, Slice(m0, j.x, base + d))
    ensures Holds(m, j.Shared2(h).Plus(d), n, Slice(m0, j.y, base + d))
  {
    hide Holds, Job.Result, Job.SramNum;
    var p, q := j.Shared1(h).Plus(d), j.Shared2(h);
    assert p.Plus(0) == p && Holds(m, q, len, Slice(m0, j.y, base)) && Holds(m, p, len - d, Slice(m0, j.x, base + d));
    hide Job.Shared1, Job.Shared2, PartlyDone, Loc.Plus;
    HoldsPart(m, p, len - d, Slice(m0, j.x, base + d), 0, n, Slice(m0, j.x, base + d));
    HoldsPart(m, q, len, Slice(m0, j.y, base), d, n, Slice(m0, j.y, base + d));
  }

  /** The cells a core's part of a phase may change. */
  predicate CoreTouches(j: Job, k: nat, h: nat, d: nat, n: nat, l: Loc) {
    l.space == Nram(j.c, k) || In(l, j.Shared1(h).Plus(d), n)
  }

  /** m' is m but for the cells core k may change. */
  ghost predicate OnlyCore(j: Job, m: Mem, m': Mem, k: nat, h: nat, d: nat, n: nat) {
    forall l :: !CoreTouches(j, k, h, d, n, l) ==> m'(l) == m(l)
  }

  lemma PartJoins(j: Job, m: Mem, m': Mem, k: nat, h: nat, d: nat, n: nat, res: int -> int, r: int -> int)
    requires OnlyCore(j, m, m', k, h, d, n)
    requires Holds(m, j.Shared1(h), d, res) && Holds(m', j.Shared1(h).Plus(d), n, r)
    requires forall i | 0 <= i < n :: r(i) == res(d + i)
    ensures Holds(m', j.Shared1(h), d + n, res)
  {
    hide Holds, Job.SramNum, OnlyCore;
    HoldsOutside(m, m', j.Shared1(h), d, res, j, k, h, d, n);
    HoldsJoin(m', j.Shared1(h), d, n, res, r);
  }

  lemma RestKept(j: Job, m0: Mem, m: Mem, m': Mem, k: nat, h: nat, base: int, d: nat, n: nat, len: nat)
    requires OnlyCore(j, m, m', k, h, d, n) && d + n <= len
    requires Holds(m, j.Shared1(h).Plus(d), len - d, Slice(m0, j.x, base + d))
    ensures Holds(m', j.Shared1(h).Plus(d + n), len - (d + n), Slice(m0, j.x, base + (d + n)))
  {
    hide Holds, Job.SramNum, OnlyCore;
    var p := j.Shared1(h);
    var rest := Slice(m0, j.x, base + (d + n));
    HoldsPart(m, p.Plus(d), len - d, Slice(m0, j.x, base + d), n, len - (d + n), rest);
    assert p.Plus(d).Plus(n) == p.Plus(d + n);
    HoldsOutside(m, m', p.Plus(d + n), len - (d + n), rest, j, k, h, d, n);
  }

  /** After a core, its part holds results too. */
  lemma PartDone(f: Fn, j: Job, m0: Mem, m: Mem, m': Mem, k: nat, h: nat, base: int, d: nat, n: nat, len: nat,
                 r: int -> int)
    requires j.Valid() && PartlyDone(f, j, m0, m, h, base, d, len) && d + n <= len <= j.SramNum() && IsHalf(j, h)
    requires OnlyCore(j, m, m', k, h, d, n) && Holds(m', j.Shared1(h).Plus(d), n, r)
    requires var res := j.Result(f, m0, base); forall i | 0 <= i < n :: r(i) == res(d + i)
    ensures PartlyDone(f, j, m0, m', h, base, d + n, len)
  {
    hide Job.Result, Job.SramNum, Holds, OnlyCore, Slice;
    PartJoins(j, m, m', k, h, d, n, j.Result(f, m0, base), r);
    RestKept(j, m0, m, m', k, h, base, d, n, len);
    HoldsOutside(m, m', j.Shared2(h), len, Slice(m0, j.y, base), j, k, h, d, n);
  }

  predicate IsHalf(j: Job, h: nat) { h == 0 || h == j.SramNum() }

  lemma HoldsOutside(m: Mem, m': Mem, p: Loc, len: nat, g: int -> int, j: Job, k: nat, h: nat, d: nat, n: nat)
    requires Holds(m, p, len, g)
    requires p.space == Sram(j.c) && !Overlap(p, len, j.Shared1(h).Plus(d), n)
    requires OnlyCore(j, m, m', k, h, d, n)
    ensures Holds(m', p, len, g)
  {
    hide Job.SramNum;
    forall a | p.addr <= a < p.addr + len ensures m'(Loc(p.space, a)) == m(Loc(p.space, a)) {
      assert !CoreTouches(j, k, h, d, n, Loc(p.space, a));
    }
    HoldsFrame(m, m', p, len, g);
  }

  /** Core k works through its part. */
  lemma CoreStep(f: Fn, j: Job, m0: Mem, m: Mem, p: Phase, t: nat, k: nat)
    requires j.Valid() && !p.work.Idle? && TileOf(j, p.work, t) && k < j.cores && IsHalf(j, p.h)
    requires PartlyDone(f, j, m0, m, p.h, t * j.SramNum(), j.Offset(p.work, k), WorkLen(j, p.work))
    ensures var (m', d, n) := (Exec(f, j.CoreWork(p, k), m), j.Offset(p.work, k), j.Length(p.work, k));
            && PartlyDone(f, j, m0, m', p.h, t * j.SramNum(), d + n, WorkLen(j, p.work))
            && OnlyCore(j, m, m', k, p.h, d, n) && d + n <= WorkLen(j, p.work) <= j.SramNum()
  {
    hide Exec, Holds, PartlyDone, OnlyCore, Job.Result, Job.LaneResult, Slice, Job.Repeat, Job.Rem, Job.CoreOps;
    var w, h, base := p.work, p.h, t * j.SramNum();
    var d, n := j.Offset(w, k), j.Length(w, k);
    var m' := Exec(f, j.CoreWork(p, k), m);
    assert d + n <= WorkLen(j, w) <= j.SramNum() && n <= j.Padded(w, k) by {
      PartEnd(j, w, k);
      OffsetWithin(j, w, k);
      WorkWithin(j, w, t);
    }
    hide Job.SramNum, WorkLen, Job.Offset, Job.Length, Job.Padded, TileOf;
    PartStaged(f, j, m0, m, h, base, d, WorkLen(j, w), n);
    CoreEffect(f, j, m0, m, k, h, d, base + d, n, j.Padded(w, k));
    CoreKeeps(f, j, m, k, h, d, n, j.Padded(w, k));
    var r, res := j.LaneResult(f, m0, base + d, n), j.Result(f, m0, base);
    forall i | 0 <= i < n ensures r(i) == res(d + i) {
      LaneIsResult(f, j, m0, w, t, k, i);
    }
    PartDone(f, j, m0, m, m', k, h, base, d, n, WorkLen(j, w), r);
  }

  lemma OffsetWithin(j: Job, w: Work, k: nat)
    requires j.Valid() && !w.Idle? && k < j.cores
    ensures j.Offset(w, k) + j.Length(w, k) <= WorkLen(j, w)
  {
    PartEnd(j, w, k);
    if k + 1 < j.cores {
      if w.Full? {
        Rounding.MulMonotone(k + 1, j.cores, j.span);
      } else {
        Rounding.MulMonotone(k + 1, j.cores, j.EvenShare());
        assert j.Rem() == j.cores * j.EvenShare() + j.Rem() % j.cores;
      }
    }
  }

  lemma CoreKeeps(f: Fn, j: Job, m: Mem, k: nat, h: nat, d: nat, n: nat, padded: nat)
    ensures OnlyCore(j, m, Exec(f, j.CoreOps(k, h, d, n, padded), m), k, h, d, n)
  {
    hide Exec, Job.CoreOps;
    forall l | !CoreTouches(j, k, h, d, n, l) ensures Exec(f, j.CoreOps(k, h, d, n, padded), m)(l) == m(l) {
      CoreFrame(f, j, m, k, h, d, n, padded, l);
    }
  }

  /** A core leaves off-chip memory and the other half alone. */
  lemma OnlyCoreKeeps(j: Job, m: Mem, m': Mem, k: nat, h: nat, o: nat, d: nat, n: nat)
    requires OnlyCore(j, m, m', k, h, d, n) && TwoHalves(j, h, o) && d + n <= j.SramNum()
    ensures SameHalf(j, m, m', o) && SameGdram(m, m')
  {
    hide Job.SramNum;
    forall a ensures m'(Loc(Gdram, a)) == m(Loc(Gdram, a)) {
      assert !CoreTouches(j, k, h, d, n, Loc(Gdram, a));
    }
    forall a | InHalf(j, o, a) ensures m'(Loc(Sram(j.c), a)) == m(Loc(Sram(j.c), a)) {
      assert !CoreTouches(j, k, h, d, n, Loc(Sram(j.c), a));
    }
  }

  function DoneAt(j: Job, w: Work, n: nat): nat
    requires j.Valid()
  {
    if n == j.cores then WorkLen(j, w) else j.Offset(w, n)
  }

  lemma {:induction false} CoresEffect(f: Fn, j: Job, m0: Mem, m: Mem, p: Phase, o: nat, t: nat, n: nat)
    requires j.Valid() && !p.work.Idle? && TileOf(j, p.work, t) && n <= j.cores && TwoHalves(j, p.h, o)
    requires Loaded(j, m0, m, p.h, t * j.SramNum(), WorkLen(j, p.work))
    ensures var m' := Exec(f, CoresOps(j, p, n), m);
            && PartlyDone(f, j, m0, m', p.h, t * j.SramNum(), DoneAt(j, p.work, n), WorkLen(j, p.work))
            && SameHalf(j, m, m', o) && SameGdram(m, m')
    decreases n
  {
    hide Exec, PartlyDone, Loaded, SameHalf, SameGdram, Job.SramNum, WorkLen, Job.Length, Job.CoreWork, TileOf,
         OnlyCore;
    if n == 0 {
      ExecNone(f, m);
      NothingDone(f, j, m0, m, p.h, t * j.SramNum(), WorkLen(j, p.work));
      assert j.Offset(p.work, 0) == 0;
      SameRefl(j, m, o);
    } else {
      CoresEffect(f, j, m0, m, p, o, t, n - 1);
      var m1 := Exec(f, CoresOps(j, p, n - 1), m);
      var m2 := Exec(f, j.CoreWork(p, n - 1), m1);
      ExecAppend(f, CoresOps(j, p, n - 1), j.CoreWork(p, n - 1), m);
      CoreStep(f, j, m0, m1, p, t, n - 1);
      PartEnd(j, p.work, n - 1);
      OnlyCoreKeeps(j, m1, m2, n - 1, p.h, o, j.Offset(p.work, n - 1), j.Length(p.work, n - 1));
      SameHalfTwice(j, m, m1, m2, o);
      SameGdramTwice(m, m1, m2);
    }
  }

  lemma SameRefl(j: Job, m: Mem, o: nat)
    ensures SameHalf(j, m, m, o) && SameGdram(m, m)
  {
  }

  lemma AllDone(f: Fn, j: Job, m0: Mem, m: Mem, h: nat, base: int, len: nat)
    requires j.Valid() && PartlyDone(f, j, m0, m, h, base, len, len)
    ensures Computed(f, j, m0, m, h, base, len)
  {
    hide Job.Result, Job.SramNum, Holds;
  }

  // ----- A whole phase -----

  /** A phase whose transfers use the half at h: store the sl elements from d, then load the ll elements from lb. */
  predicate Streams(j: Job, p: Phase, h: nat, d: int, sl: nat, lb: int, ll: nat) {
    p.io == (if sl > 0 then j.StoreAt(h, d, sl) else []) + (if ll > 0 then j.LoadAt(h, lb, ll) else [])
  }

  lemma StreamEffect(f: Fn, j: Job, m0: Mem, m: Mem, p: Phase, h: nat, o: nat, d: int, sl: nat, lb: int, ll: nat)
    requires j.Valid() && TwoHalves(j, h, o) && Streams(j, p, h, d, sl, lb, ll) && ll <= j.SramNum()
    requires 0 <= d && Stored(f, j, m0, m, d) && (sl > 0 ==> Computed(f, j, m0, m, h, d, sl))
    requires ll > 0 ==> d + sl <= lb && lb + ll <= j.n
    ensures var m' := Exec(f, p.io, m);
            && Stored(f, j, m0, m', d + sl) && SameHalf(j, m, m', o) && (ll > 0 ==> Loaded(j, m0, m', h, lb, ll))
  {
    hide Exec, Computed, Loaded, SameHalf, SameGdram, Job.SramNum, Stored, TwoHalves, Job.StoreAt, Job.LoadAt;
    var st := if sl > 0 then j.StoreAt(h, d, sl) else [];
    var ld := if ll > 0 then j.LoadAt(h, lb, ll) else [];
    var m1 := Exec(f, st, m);
    ExecAppend(f, st, ld, m);
    SameRefl(j, m, o);
    ExecNone(f, m);
    if sl > 0 {
      StoreEffect(f, j, m0, m, h, o, d, sl);
    }
    ExecNone(f, m1);
    if ll > 0 {
      LoadEffect(f, j, m0, m1, h, o, lb, ll, d + sl);
      StoredKept(f, j, m0, m1, Exec(f, ld, m1), d + sl);
      SameHalfTwice(j, m, m1, Exec(f, ld, m1), o);
    }
  }

  /** Transfers on one half, computation on the other. */
  lemma PhaseEffect(f: Fn, j: Job, m0: Mem, m: Mem, p: Phase, h: nat, o: nat, d: int, sl: nat, lb: int, ll: nat, t: nat)
    requires j.Valid() && TwoHalves(j, h, o) && Streams(j, p, h, d, sl, lb, ll) && ll <= j.SramNum()
    requires 0 <= d && Stored(f, j, m0, m, d) && (sl > 0 ==> Computed(f, j, m0, m, h, d, sl))
    requires ll > 0 ==> d + sl <= lb && lb + ll <= j.n
    requires !p.work.Idle? ==> p.h == o && TileOf(j, p.work, t)
    requires !p.work.Idle? ==> Loaded(j, m0, m, o, t * j.SramNum(), WorkLen(j, p.work))
    ensures var m' := Exec(f, PhaseOps(j, p), m);
            && Stored(f, j, m0, m', d + sl)
            && (ll > 0 ==> Loaded(j, m0, m', h, lb, ll))
            && (!p.work.Idle? ==> Computed(f, j, m0, m', o, t * j.SramNum(), WorkLen(j, p.work)))
  {
    hide Exec, Computed, Loaded, SameHalf, SameGdram, Job.SramNum, Stored, Job.CoreWork, PartlyDone, WorkLen, TileOf;
    var m1 := Exec(f, p.io, m);
    StreamEffect(f, j, m0, m, p, h, o, d, sl, lb, ll);
    ExecAppend(f, p.io, CoresOps(j, p, j.cores), m);
    var m2 := Exec(f, CoresOps(j, p, j.cores), m1);
    if p.work.Idle? {
      NoCoreOps(j, p, j.cores);
      ExecNone(f, m1);
    } else {
      WorkWithin(j, p.work, t);
      LoadedKept(j, m0, m, m1, o, t * j.SramNum(), WorkLen(j, p.work));
      CoresEffect(f, j, m0, m1, p, h, t, j.cores);
      AllDone(f, j, m0, m2, o, t * j.SramNum(), WorkLen(j, p.work));
      StoredKept(f, j, m0, m1, m2, d + sl);
      if ll > 0 {
        LoadedKept(j, m0, m1, m2, h, lb, ll);
      }
    }
  }

  lemma {:induction false} NoCoreOps(j: Job, p: Phase, n: nat)
    requires j.Valid() && p.work.Idle?
    ensures CoresOps(j, p, n) == []
  {
    if n > 0 {
      NoCoreOps(j, p, n - 1);
    }
  }

  // ----- The whole program of a cluster -----

  /** Before Steady(i): tile i computed, tile i+1 staged, the tiles before stored. */
  ghost predicate LoopState(f: Fn, j: Job, m0: Mem, m: Mem, i: nat)
    requires j.Valid()
  {
    && Stored(f, j, m0, m, i * j.SramNum())
    && Computed(f, j, m0, m, j.Half(i), i * j.SramNum(), j.SramNum())
    && Loaded(j, m0, m, j.Half(i + 1), (i + 1) * j.SramNum(), j.SramNum())
  }

  lemma NothingStored(f: Fn, j: Job, m0: Mem)
    requires j.Valid()
    ensures Stored(f, j, m0, m0, 0)
  {
  }

  lemma TileSteps(k: nat, s: nat)
    ensures (k + 1) * s == k * s + s && (k + 2) * s == (k + 1) * s + s && 0 <= k * s
  {
    Rounding.MulMonotone(0, k, s);
  }

  lemma FirstLoadEffect(f: Fn, j: Job, m0: Mem)
    requires j.Valid() && j.Repeat() > 0
    ensures var m := Exec(f, PhaseOps(j, Phase(j.LoadTile(0), 0, Idle)), m0);
            Stored(f, j, m0, m, 0) && Loaded(j, m0, m, j.Half(0), 0 * j.SramNum(), j.SramNum())
  {
    hide Exec, Computed, Loaded, Job.SramNum, Stored, Job.CoreWork, PhaseOps, Job.Repeat;
    NothingStored(f, j, m0);
    FullTileWithin(j, 0);
    j.SramPositive();
    HalvesAlternate(j, 0);
    var p := Phase(j.LoadTile(0), 0, Idle);
    assert p.io == [] + j.LoadTile(0);
    PhaseEffect(f, j, m0, m0, p, j.Half(0), j.Half(1), 0, 0, 0 * j.SramNum(), j.SramNum(), 0);
  }

  lemma SecondLoadEffect(f: Fn, j: Job, m0: Mem, m: Mem)
    requires j.Valid() && j.Repeat() > 1
    requires Stored(f, j, m0, m, 0) && Loaded(j, m0, m, j.Half(0), 0 * j.SramNum(), j.SramNum())
    ensures LoopState(f, j, m0, Exec(f, PhaseOps(j, Phase(j.LoadTile(1), j.Half(0), Full)), m), 0)
  {
    hide Exec, Computed, Loaded, Job.SramNum, Stored, Job.CoreWork, PhaseOps, Job.Repeat;
    FullTileWithin(j, 1);
    j.SramPositive();
    HalvesAlternate(j, 0);
    var p := Phase(j.LoadTile(1), j.Half(0), Full);
    assert p.io == [] + j.LoadTile(1);
    PhaseEffect(f, j, m0, m, p, j.Half(1), j.Half(0), 0, 0, 1 * j.SramNum(), j.SramNum(), 0);
  }

  lemma SteadyEffect(f: Fn, j: Job, m0: Mem, m: Mem, i: nat)
    requires j.Valid() && i + 2 < j.Repeat() && LoopState(f, j, m0, m, i)
    ensures LoopState(f, j, m0, Exec(f, PhaseOps(j, j.Steady(i)), m), i + 1)
  {
    hide Exec, Computed, Loaded, Job.SramNum, Stored, Job.CoreWork, PhaseOps, Job.Repeat, Job.Half;
    var s := j.SramNum();
    j.SramPositive();
    FullTileWithin(j, i + 2);
    HalvesAlternate(j, i);
    TileSteps(i, s);
    PhaseEffect(f, j, m0, m, j.Steady(i), j.Half(i), j.Half(i + 1), i * s, s, (i + 2) * s, s, i + 1);
  }

  lemma {:induction false} HeadEffect(f: Fn, j: Job, m0: Mem, i: nat)
    requires j.Valid() && j.Repeat() >= 2 && i <= j.Loops()
    ensures LoopState(f, j, m0, Exec(f, PhasesOps(j, j.Head(i)), m0), i)
    decreases i
  {
    hide Exec, LoopState, Job.SramNum, Job.CoreWork, PhaseOps, PhasesOps, Job.Repeat, Job.Half, Stored, Loaded;
    if i == 0 {
      var p0, p1 := Phase(j.LoadTile(0), 0, Idle), Phase(j.LoadTile(1), j.Half(0), Full);
      assert j.Prologue() == [p0] + [p1];
      OnePhase(j, p0);
      PhasesOpsSnoc(j, [p0], p1);
      ExecAppend(f, PhaseOps(j, p0), PhaseOps(j, p1), m0);
      FirstLoadEffect(f, j, m0);
      SecondLoadEffect(f, j, m0, Exec(f, PhaseOps(j, p0), m0));
    } else {
      HeadEffect(f, j, m0, i - 1);
      PhasesOpsSnoc(j, j.Head(i - 1), j.Steady(i - 1));
      ExecAppend(f, PhasesOps(j, j.Head(i - 1)), PhaseOps(j, j.Steady(i - 1)), m0);
      SteadyEffect(f, j, m0, Exec(f, PhasesOps(j, j.Head(i - 1)), m0), i - 1);
    }
  }

  lemma OnePhase(j: Job, p: Phase)
    requires j.Valid()
    ensures PhasesOps(j, [p]) == PhaseOps(j, p) && PhasesOps(j, []) == []
  {
    PhasesOpsSnoc(j, [], p);
    assert [] + [p] == [p];
  }

  /** Elements stored before the drain phase, and by it. */
  function DrainFrom(j: Job): nat requires j.Valid() { if j.Repeat() >= 2 then (j.Repeat() - 2) * j.SramNum() else 0 }
  function DrainLen(j: Job): nat requires j.Valid() { if j.Repeat() >= 2 then j.SramNum() else 0 }

  /** Before the drain phase: the last tile is staged, the one before it computed. */
  ghost predicate DrainState(f: Fn, j: Job, m0: Mem, m: Mem)
    requires j.Valid()
  {
    && Stored(f, j, m0, m, DrainFrom(j))
    && (j.Repeat() >= 2 ==> Computed(f, j, m0, m, j.Half(j.Repeat() - 2), DrainFrom(j), j.SramNum()))
    && (j.Repeat() >= 1 ==> Loaded(j, m0, m, j.Half(j.Repeat() - 1), (j.Repeat() - 1) * j.SramNum(), j.SramNum()))
  }

  lemma FrontEffect(f: Fn, j: Job, m0: Mem)
    requires j.Valid()
    ensures DrainState(f, j, m0, Exec(f, PhasesOps(j, j.Head(j.Loops())), m0))
  {
    hide Exec, Job.SramNum, Job.CoreWork, PhaseOps, PhasesOps, Job.Repeat, Job.Half, Stored, Loaded, Computed;
    if j.Repeat() >= 2 {
      HeadEffect(f, j, m0, j.Loops());
    } else if j.Repeat() == 1 {
      var p0 := Phase(j.LoadTile(0), 0, Idle);
      assert j.Prologue() == [p0];
      OnePhase(j, p0);
      FirstLoadEffect(f, j, m0);
    } else {
      OnePhase(j, Phase([], 0, Idle));
      ExecNone(f, m0);
      NothingStored(f, j, m0);
    }
  }

  /** After the drain phase: the last full tile is computed, the remainder staged, the tiles before stored. */
  ghost predicate TailState(f: Fn, j: Job, m0: Mem, m: Mem)
    requires j.Valid()
  {
    && Stored(f, j, m0, m, if j.Repeat() > 0 then (j.Repeat() - 1) * j.SramNum() else 0)
    && (j.Repeat() > 0 ==> Computed(f, j, m0, m, j.Half(j.Repeat() - 1), (j.Repeat() - 1) * j.SramNum(), j.SramNum()))
    && (j.Rem() > 0 ==> Loaded(j, m0, m, j.Half(j.Repeat()), j.Repeat() * j.SramNum(), j.Rem()))
  }

  lemma DrainStreams(j: Job)
    requires j.Valid()
    ensures Streams(j, j.Drain(), j.Half(j.Repeat()), DrainFrom(j), DrainLen(j), j.Repeat() * j.SramNum(), j.Rem())
    ensures DrainFrom(j) + DrainLen(j) == if j.Repeat() > 0 then (j.Repeat() - 1) * j.SramNum() else 0
    ensures DrainFrom(j) + DrainLen(j) <= j.Repeat() * j.SramNum()
  {
    j.SramPositive();
    hide Job.SramNum, Job.Rem, Job.Repeat, Job.StoreAt, Job.LoadAt, Job.Half;
    var r := j.Repeat();
    if r >= 2 {
      HalvesAlternate(j, r - 2);
      TileSteps(r - 2, j.SramNum());
    } else if r == 1 {
      assert (r - 1) * j.SramNum() == 0;
    }
  }

  lemma DrainEffect(f: Fn, j: Job, m0: Mem, m: Mem)
    requires j.Valid() && DrainState(f, j, m0, m)
    ensures TailState(f, j, m0, Exec(f, PhaseOps(j, j.Drain()), m))
  {
    hide Exec, Computed, Loaded, Job.SramNum, Stored, Job.CoreWork, PhaseOps, Job.Repeat, Job.Half, Job.Rem, Streams,
         DrainFrom;
    var s, r := j.SramNum(), j.Repeat();
    RemBelow(j);
    DrainStreams(j);
    if r >= 2 {
      HalvesAlternate(j, r - 2);
    }
    if r > 0 {
      HalvesAlternate(j, r - 1);
      PhaseEffect(f, j, m0, m, j.Drain(), j.Half(r), j.Half(r - 1), DrainFrom(j), DrainLen(j), r * s, j.Rem(), r - 1);
    } else {
      HalvesAlternate(j, 0);
      PhaseEffect(f, j, m0, m, j.Drain(), j.Half(0), j.Half(1), DrainFrom(j), DrainLen(j), r * s, j.Rem(), 0);
    }
  }

  /** After the tail phase only the remainder is left to store, and it is computed. */
  ghost predicate LastState(f: Fn, j: Job, m0: Mem, m: Mem)
    requires j.Valid()
  {
    && Stored(f, j, m0, m, j.Repeat() * j.SramNum())
    && (j.Rem() > 0 ==> Computed(f, j, m0, m, j.Half(j.Repeat()), j.Repeat() * j.SramNum(), j.Rem()))
  }

  lemma TailEffect(f: Fn, j: Job, m0: Mem, m: Mem)
    requires j.Valid() && TailState(f, j, m0, m)
    ensures LastState(f, j, m0, Exec(f, PhaseOps(j, j.Tail()), m))
  {
    hide Exec, Computed, Loaded, Job.SramNum, Stored, Job.CoreWork, PhaseOps, Job.Repeat, Job.Half, Job.Rem,
         Job.StoreAt;
    var s, r := j.SramNum(), j.Repeat();
    j.SramPositive();
    RemBelow(j);
    if r > 0 {
      TileSteps(r - 1, s);
      HalvesAlternate(j, r - 1);
      assert j.Tail().io == j.StoreTile(r - 1) + [];
      PhaseEffect(f, j, m0, m, j.Tail(), j.Half(r - 1), j.Half(r), (r - 1) * s, s, r * s, 0, r);
    } else {
      HalvesAlternate(j, 0);
      assert j.Tail().io == [] + [] && r * s == 0;
      PhaseEffect(f, j, m0, m, j.Tail(), j.Half(1), j.Half(0), 0, 0, r * s, 0, r);
    }
  }

  lemma LastEffect(f: Fn, j: Job, m0: Mem, m: Mem)
    requires j.Valid() && LastState(f, j, m0, m)
    ensures Stored(f, j, m0, Exec(f, PhasesOps(j, j.Last()), m), j.n)
  {
    hide Exec, Computed, Loaded, Job.SramNum, Stored, Job.CoreWork, PhaseOps, PhasesOps, Job.Repeat, Job.Half, Job.Rem,
         Job.StoreAt;
    var s, r := j.SramNum(), j.Repeat();
    RemBelow(j);
    ExecNone(f, m);
    if j.Rem() > 0 {
      HalvesAlternate(j, r);
      TileSteps(r, s);
      var p, e := Phase(j.StoreAt(j.Half(r), r * s, j.Rem()), 0, Idle), Phase([], 0, Idle);
      assert p.io == j.StoreAt(j.Half(r), r * s, j.Rem()) + [];
      PhaseEffect(f, j, m0, m, p, j.Half(r), j.Half(r + 1), r * s, j.Rem(), r * s, 0, r);
      assert j.Last() == [p] + [e];
      OnePhase(j, p);
      PhasesOpsSnoc(j, [p], e);
      EmptyPhase(j, e);
      assert PhasesOps(j, j.Last()) == PhaseOps(j, p);
    } else {
      OnePhase(j, Phase([], 0, Idle));
      assert j.Last() == [];
    }
  }

  lemma EmptyPhase(j: Job, e: Phase)
    requires j.Valid() && e.io == [] && e.work.Idle?
    ensures PhaseOps(j, e) == []
  {
    NoCoreOps(j, e, j.cores);
  }

  lemma {:induction false} PhasesOpsAppend(j: Job, ps: seq<Phase>, qs: seq<Phase>)
    requires j.Valid()
    ensures PhasesOps(j, ps + qs) == PhasesOps(j, ps) + PhasesOps(j, qs)
    decreases |qs|
  {
    if qs == [] {
      assert ps + qs == ps;
    } else {
      var n := |qs| - 1;
      assert (ps + qs)[..|ps + qs| - 1] == ps + qs[..n];
      PhasesOpsAppend(j, ps, qs[..n]);
    }
  }

  /** One cluster after the other: a cluster stores the results of its slice and changes nothing else off chip. */
  lemma ClusterEffect(f: Fn, j: Job, m0: Mem)
    requires j.Valid()
    ensures Stored(f, j, m0, Exec(f, PhasesOps(j, j.Phases()), m0), j.n)
  {
    hide Exec, Stored, DrainState, TailState, LastState, PhaseOps, PhasesOps, Job.Head, Job.Drain, Job.Tail, Job.Last,
         Job.Repeat, Job.Rem;
    var front := j.Head(j.Loops());
    var m1 := Exec(f, PhasesOps(j, front), m0);
    var m2 := Exec(f, PhaseOps(j, j.Drain()), m1);
    var m3 := Exec(f, PhaseOps(j, j.Tail()), m2);
    FrontEffect(f, j, m0);
    DrainEffect(f, j, m0, m1);
    TailEffect(f, j, m0, m2);
    LastEffect(f, j, m0, m3);
    PhasesOpsSnoc(j, front, j.Drain());
    PhasesOpsSnoc(j, front + [j.Drain()], j.Tail());
    PhasesOpsAppend(j, front + [j.Drain()] + [j.Tail()], j.Last());
    ExecAppend(f, PhasesOps(j, front), PhaseOps(j, j.Drain()), m0);
    ExecAppend(f, PhasesOps(j, front + [j.Drain()]), PhaseOps(j, j.Tail()), m0);
    ExecAppend(f, PhasesOps(j, front + [j.Drain()] + [j.Tail()]), PhasesOps(j, j.Last()), m0);
  }
}
