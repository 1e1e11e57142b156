# Verification of the operator library's host and device code

This project models the parts of the library in which a mistake would be silent: kernels that overlap loads,
computation and stores on asynchronous queues, the in-place geometry of rotated boxes, the searches that size
blocks and tiles, the arithmetic of tensor layouts, and the two pieces of shared mutable state (the descriptor
pool and the recorder of API calls). Check everything with `dafny verify dfyconfig.toml`.

**Asynchronous kernels.** `AsyncMachine` is the accelerator: clusters of threads, each thread with an io, a move and
a compute queue. Queues are first in, first out; different queues and different threads interleave freely; a sync
waits for the thread's own queues and a cluster barrier for everybody's. If operations that nothing orders never
conflict, every schedule leaves what the serial order leaves, no conflict is ever ready, and nothing gets stuck.
`Pipeline3`, `Pipeline5`, `Pipeline5Effect`, `Pipeline5Races` and `Pipeline5Launch` prove that the three-stage and
five-stage programs meet that condition and what they compute in serial order. `Kernels3` and `Kernels5` are the
kernels themselves, statement by statement, issuing exactly those programs into the instruction stream of
`KernelStream`. `BinaryOpHost` is the host's split for the second three-stage kernel. `Rounding` and `MachineInts`
hold the rounding macros and the conversions to machine integers.

The five-stage kernel computes the elementwise result *exactly* when no core is handed a part longer than the
distance between its two private input blocks (`Pipeline5Launch.ElementwiseExactly`). The division kernel lays its
second input directly behind the first, one span apart. With that layout every launch fits exactly if a cluster has
at most two cores (`DivLayoutFitsExactly`); from three cores on, whatever the span, a remainder one short of a tile
leaves the last core with `span + cores - 2` elements (`DivLayoutOverlaps`). On a device with 512 KB of private memory
and four cores the kernel chooses a span of 25600, and 102399 elements are such a launch (`DivLaunchOverlaps`).
`NoScheduleIsElementwise` shows that inputs exist on which no schedule of a launch that does not fit is right. Room
for `span + cores - 2` elements always suffices (`SpareRoomSuffices`).

**Rotated boxes.** `Clipping` fills the 24 candidate points of an intersection, in real arithmetic. `ClippingHull`
shows what they are for: their convex hull is the whole intersection exactly if no two sides that are nearly, but not
exactly, parallel cross strictly inside both (`IntersectionExactly`), which the determinant and the two parameters of
a crossing decide. What counts as nearly parallel is an absolute threshold of 1e-14. In numbers of the boxes: the hull
is the intersection if all sides are a thousandth or longer and the sine and the cosine of the angle between the boxes
are each zero or above 1e-8 in size (`IntersectionInNumbers`). Below that the condition can fail: two boxes with sides
of 1e-7 and the same centre, one turned, get no marked point at all, although both pass the kernel's test for an area
(`TinyBoxesMissed`). `Plane`, `HullOrder`, `HullScan` and `Hull` are the in-place Graham scan, on integer points, where
the thresholds 1e-6 and 1e-8 say "negative" and "not zero". `PolygonArea` is the lane-parallel fan. `BoxTiling` runs
the tile loops on flat private memory whose regions overlap; `BoxRegions` shows that the overlaps do no harm.

**Carafe.** `CarafeOperation` is the operation as its design document defines it: every element of the output is a sum
over a window of the input. `Carafe` is the host's search for blocks that fit private memory, `CarafeLayout` the
addresses the kernel gives the cells of a block there, and `CarafeJobs` which job stores what. `CarafeStep`,
`CarafeBlock`, `CarafeLoad` and `CarafeKernel` are the kernel, from one vector product to all tasks of a launch. Put
together (`CarafeKernel.CarafeForward`): the operation is refused exactly if a block of one element does not fit, and
otherwise the output is what the definition says, whatever private memory held before. Three things on the way are not
obvious from the code. Blocks that divide the input evenly can leave the last one empty, and the kernel would then get
a negative size; the search never ends on such blocks (`Carafe.FittingNoneEmpty`). The kernel takes the groups of a
block to be as far apart as it has channels, which is right only because a block that spans groups has all their
channels (`CarafeJobs.ChannelSplits`). And the vector products overrun the place of the next group's
(`CarafeStep.ProductsHeld`).

**Focal loss.** `FocalLoss` is the sizing of tiles and the layout it is for. The focal loss accepts exactly the channel
counts for which a row fits, on any memory that is a multiple of 256 bytes.

**Layouts.** `TensorLayout`, `MixedRadix` and `TensorSet` are strides, contiguity tests, element counts and the
tensor set. Some functions keep 64-bit quantities in 32-bit variables; the project says exactly when that changes the
answer (`TestsAgreeExactly`, `CountsEqualExactly`, `TensorSet.OffsetsAgreeExactly`, `TensorSet.ProductsFitExactly`).

**State.** `DescriptorPool` is the free list under its spin lock with any number of threads; `GenCase` the mode
stack and node slots of one thread. Group creation hands out slots in which no descriptor has been constructed, while
destruction runs the destructor on each slot. A live slot holds a constructed descriptor exactly if no group create
handed it out (`EveryRunIsSafe`), and the destructor runs on a slot in which nothing was constructed at exactly the
destroys of those (`DestroysNothingExactly`). The pool is modelled twice, as steps of threads and as an object with
methods; in every run the steps of one section add up to what the method does (`EverySectionServes`).

## Model

| member | source | states |
|---|---|---|
| AsyncMachine.IndependentIffNoSharedCell | kernels/binary_op/binary_op_5pipeline.h:43-55 | the race condition used throughout says exactly that no cell is written by one operation and touched by the other |
| AsyncMachine.Commute | kernels/binary_op/binary_op_5pipeline.h:43-55 | independent operations can retire in either order |
| AsyncMachine.OvertakesExactly | kernels/binary_op/binary_op_5pipeline.h:43-55 | of two operations a thread has issued, the later can be carried out first exactly if they are on different queues |
| AsyncMachine.ScheduleKeeps | kernels/binary_op/binary_op_5pipeline.h:43-55 | along any schedule race freedom and the memory that will be left stay the same |
| AsyncMachine.EveryScheduleIsSerial | kernels/binary_op/binary_op_5pipeline.h:43-55 | every finished schedule of io, move and compute queues leaves what issuing order would have left |
| AsyncMachine.NoReachableRace | kernels/binary_op/binary_op_5pipeline.h:43-55 | in no reachable state are two conflicting operations ready at once |
| AsyncMachine.NeverStuck | kernels/binary_op/binary_op_5pipeline.h:43-55 | until everything is done some queue, sync or barrier can proceed |
| AsyncMachine.EveryScheduleIsBounded | kernels/binary_op/binary_op_5pipeline.h:43-55 | no schedule is longer than the work |
| KernelStream.Stream.MemcpyAsync | kernels/binary_op/binary_op_5pipeline.h:101-104 | copies between shared and private memory go to the move queue, all others to the io queue; those between off-chip and shared memory are issued by the memory core alone, the others by compute cores alone |
| KernelStream.Stream.ComputeBlock | kernels/binary_op/binary_op_5pipeline.h:117-119 | a computation goes to the compute queue of a compute core |
| KernelStream.Stream.SyncThread | kernels/binary_op/binary_op_5pipeline.h:116 | a sync orders what a thread issues before and after it |
| KernelStream.Stream.SyncCluster | kernels/binary_op/binary_op_5pipeline.h:105 | a cluster barrier closes the thread's current epoch |
| Rounding.PadUpIsCeiling | kernels/kernel.h:92-94 | PAD_UP is the least multiple not below its operand |
| Rounding.CeilAlignIsCeiling | kernels/kernel.h:108 | CEIL_ALIGN is the least multiple not below its operand |
| Rounding.FloorAlignIsFloor | kernels/kernel.h:96-98 | FLOOR_ALIGN and PAD_DOWN are the greatest multiple not above their operand |
| Rounding.RoundingUpAgrees | kernels/kernel.h:92-108 | PAD_UP, CEIL_ALIGN and DIV_UP scaled back are the same number |
| Pipeline3.ProgramEffect | kernels/binary_op/binary_op_3pipeline.h:82-154 | in issuing order a core stores f of its inputs over its whole slice and touches nothing else off chip |
| Pipeline3.ProgramOk | kernels/binary_op/binary_op_3pipeline.h:82-154 | between two syncs io and compute never conflict, for every number of tiles and remainder |
| Pipeline3.LaunchRaceFree | kernels/binary_op/binary_op_3pipeline.h:40-155 | no launch has a race, within a core or between cores |
| Pipeline3.EveryScheduleIsElementwise | kernels/binary_op/binary_op_3pipeline.h:40-155 | every finished schedule leaves out[i] = f(in1[i], in2[i]) for all i and changes nothing else off chip, also when the output is an input |
| Pipeline3.ProgramWriters | kernels/binary_op/binary_op_3pipeline.h:102-153 | a core writes each cell of its output slice once and no other; padded lanes never leave the chip |
| Pipeline3.EveryElementWrittenOnce | kernels/binary_op/binary_op_3pipeline.h:57-67 | all cores together write every output element exactly once |
| Pipeline3.SqrtLayouts | kernels/sqrt/sqrt_union1.mlu:108-148 | the two layouts the square root's gradient chooses meet what the kernels demand, with blocks directly behind each other |
| Kernels3.Kernel3StagePipeline | kernels/binary_op/binary_op_3pipeline.h:40-155 | the first kernel issues exactly the program of its slice, and nothing on the memory core |
| Kernels3.DeviceSplitIsElementwise | kernels/binary_op/binary_op_3pipeline.h:57-67 | with the device's own split the first kernel computes the elementwise result over the whole array, for every length and number of tasks |
| Kernels3.XorToggles | kernels/binary_op/binary_op_3pipeline.h:222-223 | exclusive or with the gap toggles between 0 and the gap |
| Kernels3.ToggleStep | kernels/binary_op/binary_op_3pipeline.h:239-240 | the two toggled offsets are those of tiles i and i+1, in every iteration |
| Kernels3.Kernel3StagePipelineV2 | kernels/binary_op/binary_op_3pipeline.h:165-286 | the toggling kernel issues exactly the program of the first, with no, one, two or more full tiles |
| BinaryOpHost.BlockPolicy | kernels/binary_op/binary_op_host.cpp:63-94 | the host computes the split the following rows are about, on every architecture |
| BinaryOpHost.AlignedIsLeast | kernels/binary_op/binary_op_host.cpp:73-77 | the elements to align to are the fewest that fill the padding, and on an MLU590 512 bytes as well |
| BinaryOpHost.NormalIsAligned | kernels/binary_op/binary_op_host.cpp:78-81 | a normal share is the least positive multiple of the alignment that is not below an even share |
| BinaryOpHost.SplitConserves | kernels/binary_op/binary_op_host.cpp:78-93 | normal shares and the tail add up to all elements exactly when the remainder fits its 32-bit variable, and then there is a task |
| BinaryOpHost.TasksFitExactly | kernels/binary_op/binary_op_host.cpp:78-93 | there are more tasks than cores exactly when the even share is itself aligned and what is left over reaches another share |
| BinaryOpHost.SplitBalanced | kernels/binary_op/binary_op_host.cpp:78-93 | with no more cores than elements to align to, every task has a core, the tail is not empty and below normal + cores |
| BinaryOpHost.MoreTasksThanCores | kernels/binary_op/binary_op_host.cpp:78-93 | 528 elements of 8 bytes padded to 128 on 32 cores: 33 tasks are asked for |
| BinaryOpHost.HostSplitIsElementwise | kernels/binary_op/binary_op_3pipeline.h:165-286 | the toggling kernel on the host's split computes the elementwise result over the whole array under every schedule |
| Pipeline5Effect.PhaseEffect | kernels/binary_op/binary_op_5pipeline.h:127-154 | one phase stores a half, reloads it, and leaves the results of the other half in place of the first input |
| Pipeline5Effect.ClusterEffect | kernels/binary_op/binary_op_5pipeline.h:100-219 | in issuing order a cluster stores the results of its slice and changes nothing else off chip |
| Pipeline5Races.ClusterRaceFree | kernels/binary_op/binary_op_5pipeline.h:100-219 | within a phase the memory core and the compute cores never conflict, whatever the sizes |
| Pipeline5Races.ClusterIsPhases | kernels/binary_op/binary_op_5pipeline.h:100-219 | the threads of a cluster, read serially, are its phases one after the other |
| Pipeline5Launch.LaunchRaceFree | kernels/binary_op/binary_op_5pipeline.h:58-220 | no launch on any number of clusters and cores has a race |
| Pipeline5Launch.EveryScheduleGivesResult | kernels/binary_op/binary_op_5pipeline.h:58-220 | every finished schedule leaves the same output, described element by element, and changes nothing else off chip |
| Pipeline5Launch.ElementwiseExactly | kernels/binary_op/binary_op_5pipeline.h:84-95 | that output is the elementwise result on all inputs exactly when every core's part fits between the input blocks (or the overlapping operands coincide) |
| Pipeline5Launch.EveryScheduleIsElementwise | kernels/binary_op/binary_op_5pipeline.h:58-220 | where the parts fit, every finished schedule leaves out[i] = f(in1[i], in2[i]) |
| Pipeline5Launch.NoScheduleIsElementwise | kernels/binary_op/binary_op_5pipeline.h:84-95 | where they do not, some inputs get a wrong result under every schedule |
| Pipeline5Launch.SpareRoomSuffices | kernels/binary_op/binary_op_5pipeline.h:84-91 | blocks span + cores - 2 apart always fit |
| Pipeline5Launch.DivLayoutOverlaps | kernels/div/div_union1.mlu:42-57 | with the inputs one span apart and three cores or more, a share runs over into the second input, for every span |
| Pipeline5Launch.DivLaunchOverlaps | kernels/div/div_union1.mlu:42-57 | at the span the division kernel chooses for 512 KB and four cores, 102399 elements do not fit |
| Pipeline5Launch.DivFloatSpanIsLargest | kernels/div/div_union1.mlu:42-52 | the span the division kernel chooses is the largest multiple of 64 of which four blocks of floats fit private memory and sixteen the shared memory |
| Pipeline5Launch.DivLayoutFitsExactly | kernels/div/div_union1.mlu:42-57 | with the inputs one span apart every launch fits exactly if a cluster has at most two cores |
| Kernels5.ClusterSlice | kernels/binary_op/binary_op_5pipeline.h:70-78 | the slice of a cluster, the last one taking the remainder |
| Kernels5.WorkOn | kernels/binary_op/binary_op_5pipeline.h:137-152 | move in, sync, compute, sync, move out over the first input |
| Kernels5.Start | kernels/binary_op/binary_op_5pipeline.h:100-125 | the prologue issues the first phases |
| Kernels5.OverlapTiles | kernels/binary_op/binary_op_5pipeline.h:127-154 | one iteration issues the phase that stores tile i, loads tile i+2 and works on tile i+1 |
| Kernels5.DrainTiles | kernels/binary_op/binary_op_5pipeline.h:156-187 | the phase that works on the last full tile while the remainder is loaded |
| Kernels5.FinishTiles | kernels/binary_op/binary_op_5pipeline.h:189-219 | the phases that store the last tile and the remainder, shared out over the cores |
| Kernels5.Kernel5StagePipeline | kernels/binary_op/binary_op_5pipeline.h:58-220 | on every thread the kernel issues exactly the program the launch theorems are about |
| Plane.TurnIdentity | kernels/box_iou_rotated/box_iou_rotated_utils.h:678-682 | the identity behind the order: a turn at one point is the weighted sum of two others |
| Plane.CrossTransitive | kernels/box_iou_rotated/box_iou_rotated_utils.h:678-682 | comparison by cross product is transitive among points of the half plane, and strict where a step is |
| Plane.UptoTransitive | kernels/box_iou_rotated/box_iou_rotated_utils.h:681-682 | the comparator of the sort is transitive |
| HullOrder.OriginIsLowest | kernels/box_iou_rotated/box_iou_rotated_utils.h:466-505 | the masked minima pick a valid point, lowest of all valid ones and leftmost among those |
| HullOrder.TranslatedPoints | kernels/box_iou_rotated/box_iou_rotated_utils.h:613-621 | after translation the valid points lie in the half plane, the origin among them |
| HullOrder.Compact | kernels/box_iou_rotated/box_iou_rotated_utils.h:635-653 | valid slots move to the front with their distances; no point is lost or duplicated; other lanes stay |
| HullOrder.FrontHolds | kernels/box_iou_rotated/box_iou_rotated_utils.h:635-654 | the first nums_in slots then hold exactly the valid points |
| HullOrder.OriginFirst | kernels/box_iou_rotated/box_iou_rotated_utils.h:655-668 | slot 0 becomes the origin and the front slots stay a permutation |
| HullOrder.ExchangeStep | kernels/box_iou_rotated/box_iou_rotated_utils.h:678-689 | one exchange keeps the sorted part sorted and slot ii least so far |
| HullOrder.ExchangeSort | kernels/box_iou_rotated/box_iou_rotated_utils.h:669-691 | slots 1 on are sorted by angle, ties by distance; a permutation; slot 0 and other lanes stay |
| HullScan.PopStep | kernels/box_iou_rotated/box_iou_rotated_utils.h:736-753 | popping keeps every point seen so far inside, because the popped corner lies within what comes next |
| HullScan.PushChain | kernels/box_iou_rotated/box_iou_rotated_utils.h:754-759 | pushing a point that turns left keeps the stack strictly convex |
| HullScan.PushCovers | kernels/box_iou_rotated/box_iou_rotated_utils.h:754-759 | and keeps every point seen so far on the inner side of every edge |
| HullScan.ChainCoversLast | kernels/box_iou_rotated/box_iou_rotated_utils.h:754-759 | the point pushed is on the inner side of all earlier edges |
| HullScan.Scan | kernels/box_iou_rotated/box_iou_rotated_utils.h:708-760 | the in-place scan never overwrites an unread point and leaves a strictly convex chain with all points inside, ending at the last point |
| Hull.StackIsHull | kernels/box_iou_rotated/box_iou_rotated_utils.h:708-765 | the stack closed back to the origin is the convex hull of everything scanned, run once round |
| Hull.SortedIsFan | kernels/box_iou_rotated/box_iou_rotated_utils.h:693-701 | sorted points start with those at the origin, and index k is where the rest begins |
| Hull.HullOfLane | kernels/box_iou_rotated/box_iou_rotated_utils.h:633-767 | one lane: its hull in the front slots with their marks, or no valid box if all points coincide; no other lane changes |
| Hull.ConvexHullGraham | kernels/box_iou_rotated/box_iou_rotated_utils.h:443-769 | every valid lane ends with the convex hull of its own valid points, distinct corners, strict left turns, all points inside |
| PolygonArea.FansAreTurns | kernels/box_iou_rotated/box_iou_rotated_utils.h:816-825 | on a hull the absolute triangle areas add up to the signed sum |
| PolygonArea.HullArea | kernels/box_iou_rotated/box_iou_rotated_utils.h:816-825 | the fan over a hull is its shoelace area |
| PolygonArea.ShoelaceOfRectangle | kernels/box_iou_rotated/box_iou_rotated_utils.h:816-825 | the shoelace sum of a rectangle is twice the product of its sides |
| PolygonArea.HullAreaPositive | kernels/box_iou_rotated/box_iou_rotated_utils.h:816-825 | a hull with three corners or more has positive area |
| PolygonArea.LaneAreas | kernels/box_iou_rotated/box_iou_rotated_utils.h:771-833 | the loop to the largest nums_in gives every lane its own fan and every invalid lane 0 |
| PolygonArea.HullAreas | kernels/box_iou_rotated/box_iou_rotated_utils.h:443-833 | hull and area together: each valid lane's result is the shoelace area of the hull of its valid points |
| Clipping.VerticesAreRectangle | kernels/box_iou_rotated/box_iou_rotated_utils.h:57-130 | whatever the cosine and sine, the corners are a right-angled parallelogram around the centre, with sides scaled by cos² + sin² |
| Clipping.BoxIsProper | kernels/box_iou_rotated/box_iou_rotated_utils.h:57-130 | a box with an area, and cosine and sine not both zero, has no side of length zero |
| Clipping.SidesMeet | kernels/box_iou_rotated/box_iou_rotated_utils.h:163-217 | the two parameters computed are exactly those at which the side lines meet |
| Clipping.CrossingExactly | kernels/box_iou_rotated/box_iou_rotated_utils.h:163-284 | a crossing slot is marked exactly when the sides are not nearly parallel and share a point, and then holds it |
| Clipping.MarkedCrossingIsShared | kernels/box_iou_rotated/box_iou_rotated_utils.h:163-284 | a marked crossing lies in both closed boxes |
| Clipping.ProjectionTestExactly | kernels/box_iou_rotated/box_iou_rotated_utils.h:287-300 | the projection test says exactly which points are in a box if and only if neither side has length zero |
| Clipping.FlatBoxLetsThrough | kernels/box_iou_rotated/box_iou_rotated_utils.h:287-300 | for a box with a side of length zero it accepts a point outside |
| Clipping.MarkedSlotsAreShared | kernels/box_iou_rotated/box_iou_rotated_utils.h:132-441 | every marked slot lies in both closed boxes |
| Clipping.GetIntersectionPoints | kernels/box_iou_rotated/box_iou_rotated_utils.h:132-441 | all 24 slots of all lanes are filled, and nums_in counts the marked ones |
| ClippingHull.SideReaches | kernels/box_iou_rotated/box_iou_rotated_utils.h:163-441 | from a shared point on a side, in every direction along it, a marked point or a suppressed crossing is reached |
| ClippingHull.PointReaches | kernels/box_iou_rotated/box_iou_rotated_utils.h:163-441 | so it is from any shared point, in any direction of the plane |
| ClippingHull.HullWithin | kernels/box_iou_rotated/box_iou_rotated_utils.h:132-441 | the convex hull of the marked points lies in both boxes |
| ClippingHull.InsideMissed | kernels/box_iou_rotated/box_iou_rotated_utils.h:163-284 | a crossing strictly inside two nearly parallel sides is in both boxes and outside the hull of the marked points |
| ClippingHull.EndFound | kernels/box_iou_rotated/box_iou_rotated_utils.h:163-441 | a crossing at an end of a side is marked as a corner, whatever the threshold does |
| ClippingHull.IntersectionExactly | kernels/box_iou_rotated/box_iou_rotated_utils.h:132-441 | the hull of the marked points is the intersection exactly if no two sides that are nearly, but not exactly, parallel cross strictly inside both |
| ClippingHull.IntersectionIfNothingLost | kernels/box_iou_rotated/box_iou_rotated_utils.h:132-441 | it is if no two sides are nearly, but not exactly, parallel |
| ClippingHull.IntersectionInNumbers | kernels/box_iou_rotated/box_iou_rotated_utils.h:132-441 | for boxes with sides of a thousandth or more, between which the sine and the cosine of the angle are each zero or above 1e-8 in size, the hull of the marked points is the intersection |
| ClippingHull.UnitSquares | kernels/box_iou_rotated/box_iou_rotated_utils.h:132-441 | two unit squares with one centre, one turned, are such boxes, and some point is marked |
| ClippingHull.RightAngleSuppressed | kernels/box_iou_rotated/box_iou_rotated_utils.h:172-176 | at a determinant of 1e-14 itself a crossing is suppressed, even of sides at right angles |
| ClippingHull.LetThroughIsProper | kernels/box_iou_rotated/box_iou_rotated_nonaligned.h:190-192 | a box the kernel does not pass over has proper corners, whatever its angle |
| ClippingHull.TinyBoxesMissed | kernels/box_iou_rotated/box_iou_rotated_utils.h:165-176 | two boxes of side 1e-7 with the same centre, one turned, that pass the area test and get no marked point, an instance where sides cross inside |
| BoxTiling.LoadBox2 | kernels/box_iou_rotated/box_iou_rotated_nonaligned.h:162-177 | the tile of box2 is loaded, transposed and measured without touching loaded box1 |
| BoxTiling.Prepare | kernels/box_iou_rotated/box_iou_rotated_nonaligned.h:203-260 | broadcast and masking keep box1 and the boxes of box2 that have an area |
| BoxTiling.MaskBox2 | kernels/box_iou_rotated/box_iou_rotated_nonaligned.h:247-260 | masking box2_trans, however often, leaves the boxes with an area as they were |
| BoxTiling.WorkOnPair | kernels/box_iou_rotated/box_iou_rotated_nonaligned.h:200-374 | the result row gets the value of each pair, and box1, box2_trans and the areas survive the work |
| BoxTiling.OnePair | kernels/box_iou_rotated/box_iou_rotated_nonaligned.h:179-374 | the same with the branch for a box1 without an area |
| BoxTiling.SmallInNumbers | kernels/box_iou_rotated/box_iou_rotated_nonaligned.h:190-227 | a box without width or height, or with both sides below 1e-7, is passed over; one with both sides 1e-7 or longer is not |
| BoxTiling.Box2Tile | kernels/box_iou_rotated/box_iou_rotated_nonaligned.h:154-379 | one tile of box2 fills its columns for the loaded rows, each cell once |
| BoxTiling.Box1Tile | kernels/box_iou_rotated/box_iou_rotated_nonaligned.h:140-380 | all tiles of box2 fill the rows of one tile of box1 |
| BoxTiling.NonAligned | kernels/box_iou_rotated/box_iou_rotated_nonaligned.h:56-381 | every cell k of the matrix is written exactly once, with the value for box1[k / num_box2] and box2[k % num_box2]; nothing happens without box1 |
| BoxRegions.StepAgrees | kernels/box_iou_rotated/box_iou_rotated_nonaligned.h:34-52 | a step that writes no row still to be read does the same in shared rows as in separate stores |
| BoxRegions.PlanAgrees | kernels/box_iou_rotated/box_iou_rotated_nonaligned.h:34-52 | so does any sequence of such steps |
| BoxRegions.BuffersInRegions | kernels/box_iou_rotated/box_iou_rotated_nonaligned.h:70-126 | the buffers of the map lie one behind the other from where the tiling puts the regions to the last of 258 rows |
| BoxRegions.SharedRowsSuffice | kernels/box_iou_rotated/box_iou_rotated_nonaligned.h:70-126 | the kernel's own map and order of steps is such a sequence: overlapping buffers never corrupt the result, the areas, box1 or box2_trans |
| Carafe.UsageMonotone | kernels/carafe/carafe.cpp:77-115 | a larger block never takes less memory |
| Carafe.UnitUsage | kernels/carafe/carafe.cpp:206-210 | the block of one element takes what the closed form says |
| Carafe.UsageInNumbers | kernels/carafe/carafe.cpp:77-115 | a block of 16 rows and columns of 64 channels, with a window of 5 and a scale of 2, takes 116800 floats |
| Carafe.UnitLeast | kernels/carafe/carafe.cpp:206-216 | no block takes less than the closed form |
| Carafe.GenPolicy | kernels/carafe/carafe.cpp:150-229 | the search ends; it fails exactly when the closed form does not fit; otherwise the blocks are even, fit, were split only as needed, nearly square, never split channels while spanning groups, and no last block along any direction is empty |
| Carafe.FewestSplits | kernels/carafe/carafe.cpp:174-201 | no even blocks that fit have fewer splits of the channels, or, with channels whole, of the groups |
| Carafe.EvenCovers | kernels/carafe/carafe.cpp:178-194 | grid times block covers every direction |
| Carafe.BlocksCover | kernels/carafe/carafe.cpp:178-194 | every row and column falls into a block of the grid |
| Carafe.EvenLeavesEmpty | kernels/carafe/carafe.cpp:178-194 | even blocks alone can leave the last one empty |
| Carafe.FittingNoneEmpty | kernels/carafe/carafe.cpp:166-204 | the search never stops on such blocks: one block less would be as small, so the same direction is split again |
| CarafeLayout.CellsApart | kernels/carafe/carafe_block.mlu:65-95 | input with border, mask, output and sums follow each other in private memory, every cell lies in its own buffer, and no two cells share an address |
| CarafeLayout.ProductsWithin | kernels/carafe/carafe_block.mlu:249-272 | the product of a group, rounded up as it is, reads nothing from the sums on and writes nothing beyond what the host counts |
| CarafeLayout.RowsApart | kernels/carafe/carafe_block.mlu:274-278 | adding the sums to a pixel touches the row of that pixel alone, within the output |
| CarafeLayout.UsageExactly | kernels/carafe/carafe.cpp:77-115 | the host counts up to the last cell an operation touches and no further, the larger alignment being a multiple of the smaller, as 128 and 64 bytes are |
| CarafeLayout.InputDense | kernels/carafe/carafe_block.mlu:70-76 | the input buffer has no place that is not a cell or channel padding |
| CarafeLayout.MaskDense | kernels/carafe/carafe_block.mlu:78-84 | the mask buffer has none but less than one alignment |
| CarafeLayout.OutputDense | kernels/carafe/carafe_block.mlu:86-92 | the output buffer has none but rows of sums |
| CarafeLayout.EverythingFits | kernels/carafe/carafe.cpp:77-115 | if the usage fits a memory, every cell lies in it |
| CarafeJobs.NumberOfJob | kernels/carafe/carafe_block.mlu:100-106 | every sample and block has a job number below the number of jobs, from which it is taken apart again |
| CarafeJobs.JobOfNumber | kernels/carafe/carafe_block.mlu:100-106 | every job number is that of a sample and a block |
| CarafeJobs.ChannelSplits | kernels/carafe/carafe.cpp:218-223 | groups of a block are as far apart as the kernel takes them to be, because channels are whole where a block spans groups |
| CarafeJobs.EveryOutputOnce | kernels/carafe/carafe_block.mlu:100-131 | every element of the output is stored by exactly one job, for one channel of its block, and what jobs store is in the output |
| CarafeJobs.OneElement | kernels/carafe/carafe_block.mlu:100-131 | an image of one element is one job |
| CarafeOperation.OneWeightShifts | docs/design_docs/carafe_forward/carafe_forward.md:96-124 | what the operation is, on a mask with a single weight: the enlarged image, moved by the distance of the weight from the centre of the window |
| CarafeOperation.WeightsInOrder | test/mlu_op_gtest/pb_gtest/src/zoo/carafe_forward/carafe_forward.cpp:151 | the weights of a pixel follow each other by group, row and column of the window |
| CarafeStep.ProductsHeld | kernels/carafe/carafe_block.mlu:255-273 | after the loop over the groups every lane holds the product of its own group and channel, although each product overruns the next |
| CarafeStep.StepAdds | kernels/carafe/carafe_block.mlu:249-278 | one place of the window adds to every channel of its pixel the input there times the weight there |
| CarafeStep.StepKeeps | kernels/carafe/carafe_block.mlu:249-278 | and changes no other pixel, no input and no mask |
| CarafeBlock.WindowExactly | kernels/carafe/carafe_block.mlu:230-236 | the loop bounds taken from the loads leave exactly the part of the window that is in the image |
| CarafeBlock.AddWindow | kernels/carafe/carafe_block.mlu:247-281 | the loops over the window add to a pixel the sums the operation is defined by |
| CarafeBlock.ComputeBlock | kernels/carafe/carafe_block.mlu:224-284 | from loaded input and mask and a blank output the loops leave every pixel of the block with its elements of the output |
| CarafeLoad.Load3D | kernels/carafe/carafe_block.mlu:147-149 | a strided copy puts every element in its place and changes nothing before or behind |
| CarafeLoad.LoadInput | kernels/carafe/carafe_block.mlu:168-219 | the input of the block with its border is loaded as far as it is in the image |
| CarafeLoad.FillBlock | kernels/carafe/carafe_block.mlu:139-284 | whatever private memory held before, the block ends up with its elements of the output |
| CarafeKernel.RunJob | kernels/carafe/carafe_block.mlu:102-300 | a job makes the elements of its block right and changes no other |
| CarafeKernel.Forward | kernels/carafe/carafe_block.mlu:100-300 | all tasks together make every element of the output what the operation makes it |
| CarafeKernel.CarafeForward | kernels/carafe/carafe.cpp:117-229 | the operation is refused exactly if a block of one element does not fit; otherwise every element of the output is the sum over the window in the image of input times weight |
| FocalLoss.GetDealNAndThresholdC | kernels/focal_loss_sigmoid/focal_loss_sigmoid.cpp:259-321 | the host computes the row count and threshold the following rows are about |
| FocalLoss.AcceptedGetsRows | kernels/focal_loss_sigmoid/focal_loss_sigmoid.cpp:495-501 | a channel count the guard accepts gets at least one row, for both types, with or without weights |
| FocalLoss.AcceptedExactly | kernels/focal_loss_sigmoid/focal_loss_sigmoid.cpp:495-501 | on a memory that is a multiple of 256 bytes the guard accepts exactly the counts that get a row, for both types, with or without weights |
| FocalLoss.MostRows | kernels/focal_loss_sigmoid/focal_loss_sigmoid.cpp:287-321 | the row count is the largest that fits behind the weights and the 14 or 15 lines kept back, in numbers of the memory and the channels |
| FocalLoss.AcceptedWithSlack | kernels/focal_loss_sigmoid/focal_loss_sigmoid.cpp:294-311 | for memories of any size: exactly the counts that get a row once the slack of the weight line is taken off |
| FocalLoss.SlackBounded | kernels/focal_loss_sigmoid/focal_loss_sigmoid.cpp:300-305 | the slack is nothing without weights and for floats, and at most 128 bytes otherwise |
| FocalLoss.OddSizesTurnAway | kernels/focal_loss_sigmoid/focal_loss_sigmoid.cpp:297-300 | a size that is no multiple of 256 bytes, at which a count is turned away although a row would fit |
| FocalLoss.LayoutFits | kernels/focal_loss_sigmoid/focal_loss_sigmoid_backward_union1.mlu:244-320 | the padded buffers of both rounds, the two lines and the padded weights fit, are aligned, and hold the values, targets and weights they are for |
| MixedRadix.PositionIsWeighted | core/tensor.h:263-269 | summing index times suffix product gives the mixed-radix position |
| MixedRadix.IndexOfPosition | core/tensor.h:263-269 | an in-range multi-index has a position in range and is found again from it |
| MixedRadix.PositionOfIndex | core/tensor.h:263-269 | every position is that of an in-range multi-index |
| TensorLayout.Tensor.SetTensorDescriptorDim | core/tensor.cpp:341-358 | strides are the wrapped suffix products, the totals the wrapped product and its bytes |
| TensorLayout.IsStrideTensor | core/util.cpp:43-56 | reports exactly a dimension other than 1 with another stride than the 64-bit suffix product |
| TensorLayout.IfNeedTensorStrideProcess | core/gen_case.cpp:741-765 | reports exactly the same with the product kept in 32 bits, although it skips dimensions of 1 |
| TensorLayout.DenseNeverStrided | core/tensor.cpp:346-354 | strides a descriptor infers are never reported by isStrideTensor, on any dimensions |
| TensorLayout.NotStridedExactly | core/util.cpp:43-56 | in a tensor that is not empty no stride is reported exactly if every index in range is at its dense position |
| TensorLayout.DenseReportedExactly | core/gen_case.cpp:751-756 | gen_case reports inferred strides exactly when a product that matters leaves 32 bits |
| TensorLayout.LargeDenseReported | core/gen_case.cpp:751-756 | a dense tensor that is reported |
| TensorLayout.TestsAgreeExactly | core/gen_case.cpp:739-765 | the two tests agree on all strides exactly when every suffix product that matters fits 32 bits |
| TensorLayout.DifferExactly | core/gen_case.cpp:739-765 | on one descriptor they differ exactly if such a product is cut and the strides are the dense ones, cut or uncut |
| TensorLayout.ShapeStrideCount | core/tensor.h:567-577 | one more than the largest reachable offset, 0 for an empty tensor |
| TensorLayout.StrideCountReached | core/tensor.h:567-577 | on all dimensions and strides that are not negative the count is one more than the largest offset an index in range has, and 0 exactly if there is no such index |
| TensorLayout.PaddedRowsCount | core/tensor.h:567-577 | two rows of three, four apart, count 7 |
| TensorLayout.GetTensorSize | core/gen_case.h:451-486 | the count gen_case takes, with its special cases |
| TensorLayout.CountsEqualExactly | core/gen_case.h:451-486 | both counts are equal exactly when the tensor is empty, reported by gen_case, or its products fit 32 bits |
| TensorLayout.CutStrideMiscounts | core/gen_case.h:451-486 | a descriptor on which they differ |
| TensorLayout.DensePositions | core/util.cpp:43-56 | in a non-strided non-empty tensor multi-indices and positions below the element count correspond one to one |
| TensorSet.Set.constructor | core/tensor.cpp:867-893 | the number of members and the offset bases are the products kept in 32 bits; the set is valid exactly if they fit |
| TensorSet.ProductsFitExactly | core/tensor.cpp:871-884 | with no empty dimension they fit exactly if there are less than 2^31 members |
| TensorSet.Set.GetIndex | core/tensor.h:263-269 | the index is the mixed-radix position |
| TensorSet.Set.GetSize | core/tensor.h:254-261 | the size is the sum over all members |
| TensorSet.Set.GetOffset | core/tensor.h:271-279 | the offset is the sum of the sizes before the member, and is recorded there only |
| TensorSet.Set.GetDataOffsets | core/tensor.h:311-322 | all offsets at once, through a 32-bit sum |
| TensorSet.Set.InitMember | core/tensor.h:254-261 | setting up one member changes its size alone |
| TensorSet.IndexOneToOne | core/tensor.h:263-269 | in-range multi-indices and members correspond one to one |
| TensorSet.BytesTile | core/tensor.h:271-279 | members' byte ranges are disjoint and fill the set |
| TensorSet.OffsetsAgreeExactly | core/tensor.h:311-322 | getDataOffsets and getOffset agree on a member exactly as long as its offset stays below 2^31 |
| DescriptorPool.StepKeepsSafe | core/tensor.cpp:205-241 | every step of every thread keeps the invariant |
| DescriptorPool.EveryRunIsSafe | core/tensor.cpp:559-600 | in every run: critical sections exclusive, each slot ever allocated in exactly one place, no front of an empty list; a create leaves with one slot and a group create with as many as it asked for; a live slot holds a descriptor exactly if no group create handed it out |
| DescriptorPool.EverySectionServes | core/tensor.cpp:559-600 | however the threads interleave, a critical section makes of the pool it entered, and gets, what the same call does to the pool alone |
| DescriptorPool.OthersLeavePool | core/tensor.cpp:223-227 | while a thread is inside, no step of another changes the pool |
| DescriptorPool.DestroysNothingExactly | core/tensor.cpp:816-850 | in every run the destructor runs on a slot with nothing constructed exactly when a slot from a group create is destroyed |
| DescriptorPool.GroupDestroysNothing | core/tensor.cpp:577-600 | creating a group of one and destroying it is such a run, whatever the pool |
| DescriptorPool.NeverStuck | core/tensor.cpp:223-227 | while some thread is in a call, some thread can make progress |
| DescriptorPool.EmptyPoolBreaks | core/tensor.cpp:210-214 | a pool constructed empty takes the front of an empty list |
| DescriptorPool.SafeExactly | core/tensor.cpp:206-214 | no run does so exactly if the pool was constructed with a slot |
| DescriptorPool.DescriptorQueue.Extend | core/tensor.cpp:228-234 | new slots go to the front, last one first |
| DescriptorPool.DescriptorQueue.CreateTensorDescriptor | core/tensor.cpp:559-576 | takes and constructs the front slot, growing and doubling only when empty; the same as a section of the call in a run |
| DescriptorPool.DescriptorQueue.CreateGroupTensorDescriptors | core/tensor.cpp:577-600 | takes the front slots in order, growing only when there are too few, and constructs none; the same as a section of the call in a run |
| DescriptorPool.DescriptorQueue.DestroyGroupTensorDescriptors | core/tensor.cpp:832-850 | puts the slots back in reverse order, none of them constructed |
| DescriptorPool.Regroup | core/tensor.cpp:577-600 | destroying a group and creating one as large gives the same slots in reverse, and leaves the free list as it was |
| GenCase.Recorder.GenCaseModeGet | core/gen_case.cpp:105-137 | the stack grows by one: the call's mode at the back, and at the front the set mode with internal dumping on, 0 with it off |
| GenCase.Recorder.GenCaseModeRestore | core/gen_case.cpp:139-153 | the stack shrinks by one |
| GenCase.Recorder.GenCaseStart | core/gen_case.cpp:247-272 | the first empty slot is named, or one is added |
| GenCase.Recorder.Begin | core/gen_case.h:39-43 | entering a call: see the mode, take a slot if it is dumped |
| GenCase.Recorder.GenCaseEnd | core/gen_case.cpp:380-403 | returning: reset the last used slot if the call was dumped, restore the stack |
| GenCase.EnterNests | core/gen_case.cpp:105-137 | a call sees the set mode if outermost, else the set mode or 0, and takes the slot behind those in use |
| GenCase.LeaveNests | core/gen_case.cpp:380-403 | the innermost call's return gives back its own slot and uncovers the stack as it was |
| GenCase.RunNests | core/gen_case.cpp:380-403 | stack and slots always say exactly which calls are open |
| GenCase.NestsExactly | core/gen_case.cpp:105-153 | calls and returns nest exactly if every call has a name and nowhere more calls have returned than were made |
| GenCase.EveryRunNests | core/gen_case.cpp:105-153 | at every point of every nesting run, by the flag for internal dumping: with it on every call has the set mode and every open call a slot, in order; with it off only the outermost has either |
| GenCase.BalancedRunEndsClean | core/gen_case.cpp:380-403 | when all calls have returned, the stack holds the set mode alone and no slot is in use |

## Left out

- Element sizes in the pipelined kernels: memory is addressed in elements and both inputs and the output have the same size, as the host demands (kernels/binary_op/binary_op_host.cpp:121-122).
- Auxiliary buffers of the compute functions, and the capacity of private and shared memory: the gaps between blocks are parameters. The three-stage kernels demand that the two input blocks do not overlap each other, nor any block of one half one of the other, and that the span is a multiple of the alignment; the five-stage kernel demands nothing and says when the result is right.
- Compute functions read both operands as they are when the operation retires; partial overlap of the output block with an input block inside one vector operation is not modelled.
- The memory core of a cluster carries out only the transfers between off-chip and shared memory; its own syncs are dropped, which allows more schedules, not fewer.
- Kernels5.Kernel5StagePipeline: does not model the 32-bit variable that holds the number of full tiles, because that number stays far below 2^31 on any memory; the methods of Kernels3 state the bound as a precondition.
- Floating-point rounding, NaN and infinities: the hull works on integers, clipping and tiling on reals; cosine and sine are arbitrary numbers.
- The hull for newer architectures (`__BANG_ARCH__ >= 592`) and the half-precision branches.
- Vector intrinsics are elementwise assignments; x and y arrays are one array of points, and buffers of slots times lanes are two-dimensional arrays.
- ClippingHull.IntersectionExactly: speaks of the candidate points in real arithmetic; the scan that takes their hull is proved on integers.
- BoxTiling.NonAligned: takes the value of a pair of boxes as a given function of the two, and does not model the initial fill with zeros or the choice of the row length from the size of private memory.
- BoxRegions.SharedRowsSuffice: works with whole rows of the map; that a smaller tile, whose rows lie closer together, stays inside them is part of BoxTiling.
- CarafeKernel.CarafeForward: runs the tasks of a launch one after the other on one private memory; what that holds does not matter, and no two jobs store the same element (CarafeJobs.EveryOutputOnce). Elements are reals, input and mask functions of four indices, the output a four-dimensional array: the flat addresses of the tensors off chip are not modelled.
- CarafeLayout.UsageExactly: asks for a larger alignment that is a multiple of the smaller, as 128 and 64 bytes are.
- The backward pass of carafe, and the limits of 45 and 5 on its window and scale, which are checked before.
- Carafe.GenPolicy: does not model 32-bit wrap-around, because the sizes it compares are bounded by private memory and tensor dimensions.
- FocalLoss.GetDealNAndThresholdC: does not model 32-bit wrap-around, for the same reason; the target element size is the 4 bytes its caller passes, and compute elements are the 4 bytes of a float.
- FocalLoss.AcceptedExactly: asks for a memory that is a multiple of 256 bytes, as every whole number of kilobytes is; other sizes are covered by FocalLoss.AcceptedWithSlack.
- FocalLoss.LayoutFits: takes the host's and the kernel's size of private memory as one number.
- TensorLayout.StrideCountReached: asks for offsets below 2^64 - 1, beyond which the count wraps around; TensorLayout.NotStridedExactly for an element count below 2^63.
- TensorLayout.DensePositions: asks for an element count below 2^63, because strides are 64-bit numbers; TensorLayout.CountsEqualExactly asks for the same.
- TensorLayout: descriptors of more than eight dimensions and the overflow warning, which changes no result.
- TensorSet.Set.constructor: asks for a number of members that is not negative after wrapping, because allocating a negative number of them fails.
- TensorSet.Set.GetIndex: does not model 32-bit wrap-around for indices out of range; in range the index is below the number of members, which fits.
- TensorSet.Set.GetOffset: asks for total sizes below 2^63.
- DescriptorPool: failure of malloc, the effect of running a destructor on a slot nothing was constructed in, and the release of memory at exit.
- GenCase: changing the mode in the middle of a call, returns that skip the end of recording, references to nodes that become invalid when the list grows, other threads' stacks, and writing files.
- kernels/box_overlap_bev (the same hull code), the stride and tensor-scalar pipelines (the same schedule), parameter checks, logging, driver calls.
