/**
 The work on one box1 against a tile of box2 keeps more than twenty buffers in five regions of private memory,
 many of them in the same rows. Here every buffer also has a store of its own, and the two ways to run the work
 are compared.

 The main result (SharedRowsSuffice): run in the shared rows, the kernel's sequence of steps leaves in the
 result, the areas, box1 and box2_trans what it leaves with separate stores, whatever the steps compute. It
 follows from a condition on each step (StepOk), checked for the kernel's map: what a step writes shares no row
 with anything that is still to be read.
 */
module BoxRegions {
  import T = BoxTiling

  /** A buffer: a number to tell it by, its first row, and how many rows it takes. */
  datatype Buffer = Buffer(id: nat, row: nat, rows: nat) {
    predicate Has(r: int) { row <= r < row + rows }
  }

  const AREA2 := Buffer(0, 0, 1)
  const VALID_BOX := Buffer(1, 1, 1)
  const IOUS := Buffer(2, 1, 1)
  const BOX1 := Buffer(3, 2, 5)
  const TEMPS := Buffer(4, 7, 5)
  const NUMS := Buffer(5, 12, 1)
  const TEMPS2 := Buffer(6, 13, 3)
  const TEMP9 := Buffer(7, 16, 1)
  const DIST := Buffer(8, 18, 24)
  const VALID_PTS := Buffer(9, 42, 24)
  const PTS1 := Buffer(10, 66, 8)
  const PTS2 := Buffer(11, 74, 8)
  const VEC1 := Buffer(12, 82, 8)
  const VEC2 := Buffer(13, 90, 8)
  const LONG1 := Buffer(14, 66, 24)
  const LONG2 := Buffer(15, 90, 24)
  const LONG3 := Buffer(16, 114, 24)
  const BOX1_TRANS := Buffer(17, 130, 5)
  const INTERSECT := Buffer(18, 146, 48)
  const BOX2_TRANS := Buffer(19, 194, 5)
  const NEW_PTS2 := Buffer(20, 199, 5)
  const ORDERED := Buffer(21, 210, 48)

  predicate Apart(a: Buffer, b: Buffer) { a.row + a.rows <= b.row || b.row + b.rows <= a.row }

  /** The regions start where the tiling puts them, and the buffers lie in them one behind the other; only the last of
      the long temporaries reaches eight rows into the next region. */
  lemma BuffersInRegions()
    ensures AREA2.row == 0 && AREA2.rows == VALID_BOX.row == IOUS.row == T.IOUS && IOUS.row + IOUS.rows == BOX1.row
    ensures BOX1.row == T.BOX1 && BOX1.rows == T.BOX_DIM && BOX1.row + BOX1.rows == TEMPS.row
    ensures TEMPS.row + TEMPS.rows == NUMS.row && NUMS.row + NUMS.rows == TEMPS2.row
    ensures TEMPS2.row + TEMPS2.rows == TEMP9.row == T.TEMP9 && TEMP9.row < DIST.row == BOX1.row + 16
    ensures DIST.row + DIST.rows == VALID_PTS.row && VALID_PTS.row + VALID_PTS.rows == PTS1.row
    ensures PTS1.row == LONG1.row == T.BOX2 && PTS1.row + PTS1.rows == PTS2.row && PTS2.row + PTS2.rows == VEC1.row
    ensures VEC1.row + VEC1.rows == VEC2.row && LONG1.row + LONG1.rows == LONG2.row
    ensures VEC2.row + VEC2.rows <= LONG2.row + LONG2.rows == LONG3.row && LONG3.row + LONG3.rows == T.BOX1_TRANS + 8
    ensures BOX1_TRANS.row == T.BOX1_TRANS && BOX1_TRANS.rows == T.BOX_DIM && INTERSECT.row == BOX1_TRANS.row + 16
    ensures INTERSECT.row + INTERSECT.rows == BOX2_TRANS.row == T.BOX2_TRANS && BOX2_TRANS.rows == T.BOX_DIM
    ensures BOX2_TRANS.row + BOX2_TRANS.rows == NEW_PTS2.row && NEW_PTS2.row + NEW_PTS2.rows <= ORDERED.row
    ensures ORDERED.row + ORDERED.rows == T.ROWS
  {
  }

  /** What a row holds. */
  type Contents = int

  /** A step gives each buffer it writes rows computed from the buffers it reads; what it computes is left open. */
  datatype Step = Step(outs: seq<Buffer>, ins: seq<Buffer>, compute: (Buffer, seq<seq<Contents>>) -> (int -> Contents))

  /** Separate stores, and the shared rows. */
  type Stores = (Buffer, int) -> Contents
  type Memory = int -> Contents

  function Stored(s: Stores, b: Buffer): (v: seq<Contents>)
    ensures |v| == b.rows
  {
    seq(b.rows, i requires 0 <= i < b.rows => s(b, i))
  }

  function Loaded(m: Memory, b: Buffer): (v: seq<Contents>)
    ensures |v| == b.rows
  {
    seq(b.rows, i requires 0 <= i < b.rows => m(b.row + i))
  }

  function AllStored(s: Stores, bs: seq<Buffer>): (v: seq<seq<Contents>>)
    ensures |v| == |bs|
  {
    seq(|bs|, k requires 0 <= k < |bs| => Stored(s, bs[k]))
  }

  function AllLoaded(m: Memory, bs: seq<Buffer>): (v: seq<seq<Contents>>)
    ensures |v| == |bs|
  {
    seq(|bs|, k requires 0 <= k < |bs| => Loaded(m, bs[k]))
  }

  function Separately(st: Step, s: Stores): Stores {
    (b: Buffer, i: int) => if b in st.outs then st.compute(b, AllStored(s, st.ins))(i) else s(b, i)
  }

  /** The first buffer of bs that has row r. */
  function Owner(bs: seq<Buffer>, r: int): (k: nat)
    ensures k <= |bs| && (k < |bs| ==> bs[k].Has(r)) && forall i | 0 <= i < k :: !bs[i].Has(r)
  {
    if bs == [] || bs[0].Has(r) then 0 else 1 + Owner(bs[1..], r)
  }

  function Shared(st: Step, m: Memory): Memory {
    (r: int) =>
      var k := Owner(st.outs, r);
      if k < |st.outs| then st.compute(st.outs[k], AllLoaded(m, st.ins))(r - st.outs[k].row) else m(r)
  }

  function RunSeparately(steps: seq<Step>, s: Stores): Stores
    decreases |steps|
  {
    if steps == [] then s else RunSeparately(steps[1..], Separately(steps[0], s))
  }

  function RunShared(steps: seq<Step>, m: Memory): Memory
    decreases |steps|
  {
    if steps == [] then m else RunShared(steps[1..], Shared(steps[0], m))
  }

  // ----- Liveness -----

  /** The live buffers hold in the shared rows what they hold in their own stores. */
  ghost predicate Agree(m: Memory, s: Stores, live: set<Buffer>) {
    forall b :: b in live ==> Loaded(m, b) == Stored(s, b)
  }

  /** What a step reads is live before it; what it writes shares no row with another buffer it reads or writes,
      nor with one that is live after it; and nothing else becomes live. */
  ghost predicate StepOk(st: Step, before: set<Buffer>, after: set<Buffer>) {
    && (forall b :: b in st.ins ==> b in before)
    && (forall b, w :: b in after && w in st.outs ==> b == w || Apart(b, w))
    && (forall b, w :: b in st.ins && w in st.outs ==> b == w || Apart(b, w))
    && (forall b, w :: b in st.outs && w in st.outs ==> b == w || Apart(b, w))
    && (forall b :: b in after && b !in st.outs ==> b in before)
  }

  lemma SameReads(m: Memory, s: Stores, live: set<Buffer>, bs: seq<Buffer>)
    requires Agree(m, s, live) && forall b :: b in bs ==> b in live
    ensures AllLoaded(m, bs) == AllStored(s, bs)
  {
    hide Loaded, Stored;
    forall k | 0 <= k < |bs| ensures AllLoaded(m, bs)[k] == AllStored(s, bs)[k] {
      assert bs[k] in bs;
    }
  }

  /** A row of a written buffer is written as that buffer's. */
  lemma WrittenRow(st: Step, before: set<Buffer>, after: set<Buffer>, b: Buffer, r: int)
    requires StepOk(st, before, after) && b in st.outs && b.Has(r)
    ensures var k := Owner(st.outs, r); k < |st.outs| && st.outs[k] == b
  {
    var k := Owner(st.outs, r);
    var j :| 0 <= j < |st.outs| && st.outs[j] == b;
    assert k <= j by { OwnerFirst(st.outs, r, j); }
    assert st.outs[k] in st.outs;
  }

  lemma KeptRow(st: Step, before: set<Buffer>, after: set<Buffer>, b: Buffer, r: int)
    requires StepOk(st, before, after) && b in after && b !in st.outs && b.Has(r)
    ensures Owner(st.outs, r) == |st.outs|
  {
    hide Apart, Buffer.Has;
    forall w | w in st.outs ensures !w.Has(r) {
      ApartRows(b, w, r);
    }
  }

  lemma OwnerFirst(bs: seq<Buffer>, r: int, j: nat)
    requires j < |bs| && bs[j].Has(r)
    ensures Owner(bs, r) <= j
  {
    hide Buffer.Has;
  }

  lemma ApartRows(b: Buffer, w: Buffer, r: int)
    requires Apart(b, w) && b.Has(r)
    ensures !w.Has(r)
  {
  }

  lemma RowAgrees(st: Step, before: set<Buffer>, after: set<Buffer>, m: Memory, s: Stores, b: Buffer, i: nat)
    requires StepOk(st, before, after) && Agree(m, s, before) && b in after && i < b.rows
    requires AllLoaded(m, st.ins) == AllStored(s, st.ins)
    ensures Shared(st, m)(b.row + i) == Separately(st, s)(b, i)
  {
    hide AllLoaded, AllStored, StepOk, Agree, Loaded, Stored, Owner;
    var r := b.row + i;
    if b in st.outs {
      WrittenRow(st, before, after, b, r);
    } else {
      KeptRow(st, before, after, b, r);
      KeptBefore(st, before, after, b);
      LiveRow(m, s, before, b, i);
    }
  }

  lemma KeptBefore(st: Step, before: set<Buffer>, after: set<Buffer>, b: Buffer)
    requires StepOk(st, before, after) && b in after && b !in st.outs
    ensures b in before
  {
    hide Apart;
  }

  lemma LiveRow(m: Memory, s: Stores, live: set<Buffer>, b: Buffer, i: nat)
    requires Agree(m, s, live) && b in live && i < b.rows
    ensures m(b.row + i) == s(b, i)
  {
    assert Loaded(m, b)[i] == Stored(s, b)[i];
  }

  lemma StepAgrees(st: Step, before: set<Buffer>, after: set<Buffer>, m: Memory, s: Stores)
    requires StepOk(st, before, after) && Agree(m, s, before)
    ensures Agree(Shared(st, m), Separately(st, s), after)
  {
    SameReads(m, s, before, st.ins);
    hide Shared, Separately, AllLoaded, AllStored, StepOk;
    var m', s' := Shared(st, m), Separately(st, s);
    forall b | b in after ensures Loaded(m', b) == Stored(s', b) {
      forall i | 0 <= i < b.rows ensures Loaded(m', b)[i] == Stored(s', b)[i] {
        RowAgrees(st, before, after, m, s, b, i);
      }
    }
  }

  ghost predicate PlanOk(steps: seq<Step>, live: seq<set<Buffer>>) {
    |live| == |steps| + 1 && forall k | 0 <= k < |steps| :: StepOk(steps[k], live[k], live[k + 1])
  }

  lemma {:induction false} PlanAgrees(steps: seq<Step>, live: seq<set<Buffer>>, m: Memory, s: Stores)
    requires PlanOk(steps, live) && Agree(m, s, live[0])
    ensures Agree(RunShared(steps, m), RunSeparately(steps, s), live[|steps|])
    decreases |steps|
  {
    hide StepOk, Agree, Shared, Separately;
    if steps != [] {
      assert StepOk(steps[0], live[0], live[0 + 1]);
      StepAgrees(steps[0], live[0], live[1], m, s);
      forall k | 0 <= k < |steps| - 1 ensures StepOk(steps[1..][k], live[1..][k], live[1..][k + 1]) {
        assert StepOk(steps[k + 1], live[k + 1], live[k + 1 + 1]);
      }
      PlanAgrees(steps[1..], live[1..], Shared(steps[0], m), Separately(steps[0], s));
    }
  }

  // ----- The kernel's steps -----

  /** What every step of the kernel computes, by number. */
  type Kernel = (nat, Buffer, seq<seq<Contents>>) -> (int -> Contents)

  /** Any two of the buffers, one from each list, are the same or share no row. */
  predicate AllApart(bs: seq<Buffer>, ws: seq<Buffer>) {
    forall b, w :: b in bs && w in ws ==> b == w || Apart(b, w)
  }

  function StepOf(c: Kernel, k: nat, outs: seq<Buffer>, ins: seq<Buffer>): Step {
    Step(outs, ins, (b: Buffer, v: seq<seq<Contents>>) => c(k, b, v))
  }

  // What is live before every step, and after the last.
  const LIVE0 := {AREA2, BOX1, BOX2_TRANS}
  const LIVE1 := {AREA2, BOX1, BOX1_TRANS, BOX2_TRANS}
  const LIVE2 := {AREA2, VALID_BOX, BOX1, BOX1_TRANS, BOX2_TRANS}
  const LIVE3 := {AREA2, VALID_BOX, BOX1, TEMP9, BOX1_TRANS, BOX2_TRANS}
  const LIVE4 := {AREA2, VALID_BOX, BOX1, TEMP9, BOX1_TRANS, BOX2_TRANS}
  const LIVE5 := {AREA2, VALID_BOX, BOX1, TEMP9, BOX1_TRANS, BOX2_TRANS}
  const LIVE6 := {AREA2, VALID_BOX, BOX1, TEMPS, TEMP9, BOX1_TRANS, BOX2_TRANS}
  const LIVE7 := {AREA2, VALID_BOX, BOX1, TEMPS, TEMP9, BOX1_TRANS, BOX2_TRANS}
  const LIVE8 := {AREA2, VALID_BOX, BOX1, TEMP9, BOX1_TRANS, BOX2_TRANS, NEW_PTS2}
  const LIVE9 := {AREA2, VALID_BOX, BOX1, TEMP9, PTS1, BOX2_TRANS, NEW_PTS2}
  const LIVE10 := {AREA2, VALID_BOX, BOX1, TEMP9, PTS1, PTS2, BOX2_TRANS}
  const LIVE11 := {AREA2, VALID_BOX, BOX1, NUMS, TEMP9, VALID_PTS, PTS1, PTS2, BOX2_TRANS}
  const LIVE12 := {AREA2, VALID_BOX, BOX1, NUMS, TEMP9, VALID_PTS, PTS1, PTS2, VEC1, VEC2, BOX2_TRANS}
  const LIVE13 := {AREA2, VALID_BOX, BOX1, NUMS, TEMP9, VALID_PTS, INTERSECT, BOX2_TRANS}
  const LIVE14 := {AREA2, VALID_BOX, BOX1, NUMS, TEMP9, VALID_PTS, INTERSECT, BOX2_TRANS}
  const LIVE15 := {AREA2, VALID_BOX, BOX1, NUMS, TEMP9, VALID_PTS, INTERSECT, BOX2_TRANS}
  const LIVE16 := {AREA2, VALID_BOX, BOX1, TEMPS, NUMS, TEMP9, VALID_PTS, INTERSECT, BOX2_TRANS}
  const LIVE17 := {AREA2, VALID_BOX, BOX1, NUMS, TEMP9, VALID_PTS, BOX2_TRANS, ORDERED}
  const LIVE18 := {AREA2, VALID_BOX, BOX1, NUMS, TEMP9, DIST, VALID_PTS, BOX2_TRANS, ORDERED}
  const LIVE19 := {AREA2, VALID_BOX, BOX1, NUMS, TEMP9, VALID_PTS, BOX2_TRANS, ORDERED}
  const LIVE20 := {AREA2, BOX1, TEMPS, TEMP9, BOX2_TRANS}
  const LIVE21 := {AREA2, BOX1, TEMPS, TEMP9, BOX2_TRANS}
  const LIVE22 := {AREA2, IOUS, BOX1, TEMP9, BOX2_TRANS}
  const LIVE23 := {AREA2, IOUS, BOX1, BOX2_TRANS}

  /** Broadcast box1, mark the lanes, and mask both boxes. */
  function Mask(c: Kernel): seq<Step> {
    [
      StepOf(c, 0, [BOX1_TRANS], [BOX1]),
      StepOf(c, 1, [VALID_BOX, TEMPS], [AREA2]),
      StepOf(c, 2, [TEMP9], [VALID_BOX]),
      StepOf(c, 3, [BOX1_TRANS], [BOX1_TRANS, VALID_BOX]),
      StepOf(c, 4, [BOX2_TRANS], [BOX2_TRANS, VALID_BOX])
    ]
  }

  lemma Step0Ok(c: Kernel)
    ensures StepOk(StepOf(c, 0, [BOX1_TRANS], [BOX1]), LIVE0, LIVE1)
  {
  }

  lemma Step1Ok(c: Kernel)
    ensures StepOk(StepOf(c, 1, [VALID_BOX, TEMPS], [AREA2]), LIVE1, LIVE2)
  {
  }

  lemma Step2Ok(c: Kernel)
    ensures StepOk(StepOf(c, 2, [TEMP9], [VALID_BOX]), LIVE2, LIVE3)
  {
  }

  lemma Step3Ok(c: Kernel)
    ensures StepOk(StepOf(c, 3, [BOX1_TRANS], [BOX1_TRANS, VALID_BOX]), LIVE3, LIVE4)
  {
  }

  lemma Step4Ok(c: Kernel)
    ensures StepOk(StepOf(c, 4, [BOX2_TRANS], [BOX2_TRANS, VALID_BOX]), LIVE4, LIVE5)
  {
  }

  lemma MaskAgrees(c: Kernel, m: Memory, s: Stores)
    requires Agree(m, s, LIVE0)
    ensures Agree(RunShared(Mask(c), m), RunSeparately(Mask(c), s), LIVE5)
  {
    hide StepOk, StepOf, Agree, RunShared, RunSeparately;
    Step0Ok(c);
    Step1Ok(c);
    Step2Ok(c);
    Step3Ok(c);
    Step4Ok(c);
    PlanAgrees(Mask(c), [LIVE0, LIVE1, LIVE2, LIVE3, LIVE4, LIVE5], m, s);
  }

  /** Move both boxes to the point between their centres. */
  function Centre(c: Kernel): seq<Step> {
    [
      StepOf(c, 5, [TEMPS], [BOX1_TRANS, BOX2_TRANS]),
      StepOf(c, 6, [BOX1_TRANS], [BOX1_TRANS, TEMPS]),
      StepOf(c, 7, [NEW_PTS2], [BOX2_TRANS, TEMPS])
    ]
  }

  lemma Step5Ok(c: Kernel)
    ensures StepOk(StepOf(c, 5, [TEMPS], [BOX1_TRANS, BOX2_TRANS]), LIVE5, LIVE6)
  {
  }

  lemma Step6Ok(c: Kernel)
    ensures StepOk(StepOf(c, 6, [BOX1_TRANS], [BOX1_TRANS, TEMPS]), LIVE6, LIVE7)
  {
  }

  lemma Step7Ok(c: Kernel)
    ensures StepOk(StepOf(c, 7, [NEW_PTS2], [BOX2_TRANS, TEMPS]), LIVE7, LIVE8)
  {
  }

  lemma CentreAgrees(c: Kernel, m: Memory, s: Stores)
    requires Agree(m, s, LIVE5)
    ensures Agree(RunShared(Centre(c), m), RunSeparately(Centre(c), s), LIVE8)
  {
    hide StepOk, StepOf, Agree, RunShared, RunSeparately;
    Step5Ok(c);
    Step6Ok(c);
    Step7Ok(c);
    PlanAgrees(Centre(c), [LIVE5, LIVE6, LIVE7, LIVE8], m, s);
  }

  /** The corners of both boxes, and their sides. */
  function Corners(c: Kernel): seq<Step> {
    [
      StepOf(c, 8, [PTS1, TEMPS], [BOX1_TRANS]),
      StepOf(c, 9, [PTS2, TEMPS], [NEW_PTS2]),
      StepOf(c, 10, [VALID_PTS, NUMS], []),
      StepOf(c, 11, [VEC1, VEC2], [PTS1, PTS2])
    ]
  }

  lemma Step8Ok(c: Kernel)
    ensures StepOk(StepOf(c, 8, [PTS1, TEMPS], [BOX1_TRANS]), LIVE8, LIVE9)
  {
  }

  lemma Step9Ok(c: Kernel)
    ensures StepOk(StepOf(c, 9, [PTS2, TEMPS], [NEW_PTS2]), LIVE9, LIVE10)
  {
  }

  lemma Step10Ok(c: Kernel)
    ensures StepOk(StepOf(c, 10, [VALID_PTS, NUMS], []), LIVE10, LIVE11)
  {
  }

  lemma Step11Ok(c: Kernel)
    ensures StepOk(StepOf(c, 11, [VEC1, VEC2], [PTS1, PTS2]), LIVE11, LIVE12)
  {
  }

  lemma CornersAgrees(c: Kernel, m: Memory, s: Stores)
    requires Agree(m, s, LIVE8)
    ensures Agree(RunShared(Corners(c), m), RunSeparately(Corners(c), s), LIVE12)
  {
    hide StepOk, StepOf, Agree, RunShared, RunSeparately;
    Step8Ok(c);
    Step9Ok(c);
    Step10Ok(c);
    Step11Ok(c);
    PlanAgrees(Corners(c), [LIVE8, LIVE9, LIVE10, LIVE11, LIVE12], m, s);
  }

  /** The candidate points, and which lanes have more than two. */
  function Clip(c: Kernel): seq<Step> {
    [
      StepOf(c, 12, [INTERSECT, VALID_PTS, NUMS, TEMPS, TEMPS2], [PTS1, PTS2, VEC1, VEC2, VALID_PTS, NUMS]),
      StepOf(c, 13, [VALID_BOX, TEMPS], [VALID_BOX, NUMS]),
      StepOf(c, 14, [VALID_PTS], [VALID_PTS, VALID_BOX])
    ]
  }

  lemma Step12Ok(c: Kernel)
    ensures StepOk(StepOf(c, 12, [INTERSECT, VALID_PTS, NUMS, TEMPS, TEMPS2],
                          [PTS1, PTS2, VEC1, VEC2, VALID_PTS, NUMS]), LIVE12, LIVE13)
  {
    Step12After();
    Step12Within();
    hide Apart;
  }

  lemma Step12After()
    ensures forall b, w :: b in LIVE13 && w in [INTERSECT, VALID_PTS, NUMS, TEMPS, TEMPS2] ==> b == w || Apart(b, w)
  {
  }

  lemma Step12Within()
    ensures AllApart([PTS1, PTS2, VEC1, VEC2, VALID_PTS, NUMS], [INTERSECT, VALID_PTS, NUMS, TEMPS, TEMPS2])
    ensures AllApart([INTERSECT, VALID_PTS, NUMS, TEMPS, TEMPS2], [INTERSECT, VALID_PTS, NUMS, TEMPS, TEMPS2])
  {
  }

  lemma Step13Ok(c: Kernel)
    ensures StepOk(StepOf(c, 13, [VALID_BOX, TEMPS], [VALID_BOX, NUMS]), LIVE13, LIVE14)
  {
  }

  lemma Step14Ok(c: Kernel)
    ensures StepOk(StepOf(c, 14, [VALID_PTS], [VALID_PTS, VALID_BOX]), LIVE14, LIVE15)
  {
  }

  lemma ClipAgrees(c: Kernel, m: Memory, s: Stores)
    requires Agree(m, s, LIVE12)
    ensures Agree(RunShared(Clip(c), m), RunSeparately(Clip(c), s), LIVE15)
  {
    hide StepOk, StepOf, Agree, RunShared, RunSeparately;
    Step12Ok(c);
    Step13Ok(c);
    Step14Ok(c);
    PlanAgrees(Clip(c), [LIVE12, LIVE13, LIVE14, LIVE15], m, s);
  }

  /** The hull: lowest point, translation, distances, and the lane by lane scan. */
  function Scan(c: Kernel): seq<Step> {
    [
      StepOf(c, 15, [TEMPS, LONG1, LONG2, LONG3], [INTERSECT, VALID_PTS, VALID_BOX]),
      StepOf(c, 16, [ORDERED], [INTERSECT, VALID_PTS, TEMPS]),
      StepOf(c, 17, [DIST, LONG3], [ORDERED]),
      StepOf(c, 18, [ORDERED, DIST, VALID_PTS, VALID_BOX, NUMS], [ORDERED, DIST, VALID_PTS, VALID_BOX, NUMS])
    ]
  }

  lemma Step15Ok(c: Kernel)
    ensures StepOk(StepOf(c, 15, [TEMPS, LONG1, LONG2, LONG3], [INTERSECT, VALID_PTS, VALID_BOX]), LIVE15, LIVE16)
  {
  }

  lemma Step16Ok(c: Kernel)
    ensures StepOk(StepOf(c, 16, [ORDERED], [INTERSECT, VALID_PTS, TEMPS]), LIVE16, LIVE17)
  {
  }

  lemma Step17Ok(c: Kernel)
    ensures StepOk(StepOf(c, 17, [DIST, LONG3], [ORDERED]), LIVE17, LIVE18)
  {
  }

  lemma Step18Ok(c: Kernel)
    ensures StepOk(StepOf(c, 18, [ORDERED, DIST, VALID_PTS, VALID_BOX, NUMS],
                          [ORDERED, DIST, VALID_PTS, VALID_BOX, NUMS]), LIVE18, LIVE19)
  {
    Step18After();
    Step18Within();
    hide Apart;
  }

  lemma Step18After()
    ensures forall b, w :: b in LIVE19 && w in [ORDERED, DIST, VALID_PTS, VALID_BOX, NUMS] ==> b == w || Apart(b, w)
  {
  }

  lemma Step18Within()
    ensures AllApart([ORDERED, DIST, VALID_PTS, VALID_BOX, NUMS], [ORDERED, DIST, VALID_PTS, VALID_BOX, NUMS])
  {
  }

  lemma ScanAgrees(c: Kernel, m: Memory, s: Stores)
    requires Agree(m, s, LIVE15)
    ensures Agree(RunShared(Scan(c), m), RunSeparately(Scan(c), s), LIVE19)
  {
    hide StepOk, StepOf, Agree, RunShared, RunSeparately;
    Step15Ok(c);
    Step16Ok(c);
    Step17Ok(c);
    Step18Ok(c);
    PlanAgrees(Scan(c), [LIVE15, LIVE16, LIVE17, LIVE18, LIVE19], m, s);
  }

  /** The area, the value, and the mask of the result. */
  function Measure(c: Kernel): seq<Step> {
    [
      StepOf(c, 19, [VALID_BOX, TEMPS, TEMPS2], [ORDERED, VALID_BOX, VALID_PTS, NUMS]),
      StepOf(c, 20, [TEMPS], [TEMPS]),
      StepOf(c, 21, [IOUS, TEMPS], [TEMPS, AREA2]),
      StepOf(c, 22, [IOUS, TEMP9], [IOUS, TEMP9])
    ]
  }

  lemma Step19Ok(c: Kernel)
    ensures StepOk(StepOf(c, 19, [VALID_BOX, TEMPS, TEMPS2], [ORDERED, VALID_BOX, VALID_PTS, NUMS]), LIVE19, LIVE20)
  {
  }

  lemma Step20Ok(c: Kernel)
    ensures StepOk(StepOf(c, 20, [TEMPS], [TEMPS]), LIVE20, LIVE21)
  {
  }

  lemma Step21Ok(c: Kernel)
    ensures StepOk(StepOf(c, 21, [IOUS, TEMPS], [TEMPS, AREA2]), LIVE21, LIVE22)
  {
  }

  lemma Step22Ok(c: Kernel)
    ensures StepOk(StepOf(c, 22, [IOUS, TEMP9], [IOUS, TEMP9]), LIVE22, LIVE23)
  {
  }

  lemma MeasureAgrees(c: Kernel, m: Memory, s: Stores)
    requires Agree(m, s, LIVE19)
    ensures Agree(RunShared(Measure(c), m), RunSeparately(Measure(c), s), LIVE23)
  {
    hide StepOk, StepOf, Agree, RunShared, RunSeparately;
    Step19Ok(c);
    Step20Ok(c);
    Step21Ok(c);
    Step22Ok(c);
    PlanAgrees(Measure(c), [LIVE19, LIVE20, LIVE21, LIVE22, LIVE23], m, s);
  }

  /** The whole work in shared rows, and with separate stores. */
  function WorkShared(c: Kernel, m: Memory): Memory {
    var drawn := RunShared(Clip(c), RunShared(Corners(c), RunShared(Centre(c), RunShared(Mask(c), m))));
    RunShared(Measure(c), RunShared(Scan(c), drawn))
  }

  function WorkSeparately(c: Kernel, s: Stores): Stores {
    RunSeparately(Measure(c), RunSeparately(Scan(c), RunSeparately(Clip(c),
                  RunSeparately(Corners(c), RunSeparately(Centre(c), RunSeparately(Mask(c), s))))))
  }

  /** Shared rows suffice: whatever the steps compute, the result, the areas, box1 and box2_trans come out as if
      every buffer had a store of its own. */
  lemma SharedRowsSuffice(c: Kernel, m: Memory, s: Stores)
    requires Agree(m, s, {AREA2, BOX1, BOX2_TRANS})
    ensures Agree(WorkShared(c, m), WorkSeparately(c, s), {AREA2, IOUS, BOX1, BOX2_TRANS})
  {
    hide Agree, RunShared, RunSeparately, Mask, Centre, Corners, Clip, Scan, Measure;
    MaskAgrees(c, m, s);
    var m1, s1 := RunShared(Mask(c), m), RunSeparately(Mask(c), s);
    CentreAgrees(c, m1, s1);
    var m2, s2 := RunShared(Centre(c), m1), RunSeparately(Centre(c), s1);
    CornersAgrees(c, m2, s2);
    var m3, s3 := RunShared(Corners(c), m2), RunSeparately(Corners(c), s2);
    ClipAgrees(c, m3, s3);
    var m4, s4 := RunShared(Clip(c), m3), RunSeparately(Clip(c), s3);
    ScanAgrees(c, m4, s4);
    var m5, s5 := RunShared(Scan(c), m4), RunSeparately(Scan(c), s4);
    MeasureAgrees(c, m5, s5);
  }
}
