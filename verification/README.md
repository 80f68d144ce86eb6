# BVH: a bounding-volume hierarchy over game objects, modelled in Dafny

The program keeps a list of game objects, each with a name and an
axis-aligned bounding box. It builds a binary hierarchy over them:

1. It sorts the objects by the left edge of their boxes.
2. It puts them all into a master node.
3. It splits every node holding more than two objects at index `size / 2`.
4. It runs a top-down pass that gives each node a box.

A query rectangle is answered in two steps. First the tree is walked, pruning
every subtree whose box misses the rectangle and recording the small nodes it
reaches. Then the objects of those nodes are tested one by one. A brute-force
scan of the whole list serves as the reference answer. Every step uses the
same strict overlap test.

The model replaces the process-wide vectors with values and pure functions:

- the object list is a sequence;
- the hierarchy is an immutable tree datatype whose nodes keep their object
  slice, internal nodes included, as the program does;
- search results are returned instead of appended to globals.

Coordinates are unbounded integers. The program only adds, subtracts and compares them.

Modules, in dependency order:

- `Geometry` (geometry.dfy): rectangles and the overlap test.
- `Objects` (objects.dfy): game objects, the sort and the scan filter `Hits`.
- `Hierarchy` (hierarchy.dfy): the tree and the median-split builder.
- `Bounds` (bounds.dfy): the bounds pass as written.
- `Search` (search.dfy): the pruned search, the per-node check and the scan.
- `Pipeline` (pipeline.dfy): the whole build and the end-to-end theorems.
- `Correction` (correction.dfy): the defect in the bounds pass and its repair.
- `Demo` (demo.dfy): the eight-object scene.

The central result is `Search.SearchMatchesScan`. Suppose every node's box
encloses the boxes of its objects. Then searching the tree and checking the
recorded nodes returns exactly the objects the brute-force scan of the root
slice returns, in the same order.

The pass as written guarantees that enclosure when the sorted list also has
non-decreasing right edges; that condition is sufficient, not necessary. `Pipeline` asks for a condition that does not
depend on how the sort orders ties: an object that starts no further right
than another also ends no further right (`RightsFollowLefts`). Equal-width
objects, as in the demonstration scene, always meet it. Without such a
condition the search can miss objects; see Findings. `Correction` repairs the
pass and proves the equivalence for every input.

In `main` the calls to the search and to the scan are commented out. The
model composes build, search and check directly.

Some details of the program that the model keeps:

- The sort is `std::sort`, which is not stable. Only a sorted permutation is
  promised, and the order of ties is left open.
- Bounds are computed top-down from each node's own slice, not as a union of
  the children's boxes. The left edge comes from the first object and the
  right edge from the last. The vertical range is a min/max scan seeded from
  the node's default zero box.
- Internal nodes keep their whole slice.
- An empty object list is not supported, because the pass reads `front()` of
  the master node's slice.

## Model

| member | source | states |
|---|---|---|
| Geometry.BoxBoxCollision | BVH/source/main.cpp:142-152 | two boxes collide when each one's left edge is strictly left of the other's right edge and each one's top is strictly above the other's bottom |
| Geometry.CollisionSymmetric | BVH/source/main.cpp:142-152 | the overlap test gives the same answer with its two boxes swapped |
| Geometry.TouchingEdgesDoNotCollide | BVH/source/main.cpp:142-152 | boxes that only meet along an edge (one's right edge is the other's left, or one's bottom is the other's top) never collide, in either order |
| Geometry.CollisionIffSharedPoint | BVH/source/main.cpp:142-152 | for boxes of positive width and height, the strict test holds exactly when some point lies in the half-open areas of both |
| Geometry.CollisionWithEnclosed | BVH/source/main.cpp:142-152 | a rectangle that collides with a box lying inside another box also collides with the outer box, which is why pruning a subtree is safe |
| Objects.LessByLeft | BVH/source/main.cpp:56-59 | one object orders before another when its box's left edge is strictly smaller |
| Objects.LessByLeftIsStrictWeakOrder | BVH/source/main.cpp:56-59 | the comparison is irreflexive and transitive and its incomparability is transitive, so it is a valid sort order; a list is sorted by left edge exactly when no later object compares less than an earlier one |
| Objects.Insert | BVH/source/main.cpp:56-59 | inserting into a list sorted by left edge keeps it sorted and adds exactly the one object |
| Objects.OrganiseGameObjects | BVH/source/main.cpp:188-191 | the result is a permutation of the input (same multiset, same length) that is non-decreasing in left edge; the order of ties is not promised |
| Objects.Hits | BVH/source/main.cpp:159-172 | the filter keeps an object exactly when it is in the list and collides with the rectangle, and the result is never longer than the list |
| Objects.HitsAppend | BVH/source/main.cpp:162-168 | scanning two lists one after the other gives the concatenation of the two scans |
| Objects.HitsMultiplicity | BVH/source/main.cpp:162-168 | the scan keeps each colliding object as many times as it occurs and drops every other object |
| Objects.HitsOfPermutation | BVH/source/main.cpp:159-172 | scanning any reordering of the same objects finds the same objects up to order |
| Objects.EqualWidthsGiveRightsFollowLefts | BVH/source/main.cpp:132-139 | among objects of equal width, one that starts no further right also ends no further right |
| Objects.SortedRightsNonDecreasing | BVH/source/main.cpp:188-191 | if right edges follow left edges, any sorted permutation has non-decreasing right edges, however the sort orders ties |
| Hierarchy.CreateNewNode | BVH/source/main.cpp:203-236 | the node keeps its slice and has no children exactly when it holds at most two objects; otherwise childA gets the first size/2 objects and childB the rest, recursively, so the children concatenate to the slice, split at the median and still hold the default box |
| Hierarchy.LeavesPartitionSlice | BVH/source/main.cpp:206-235 | reading the leaves of a split tree from childA to childB gives back its slice, so each object is in exactly one leaf; every leaf holds at most two objects, and at least one when the slice is non-empty |
| Hierarchy.PartitionedNonEmpty | BVH/source/main.cpp:225-231 | splitting a non-empty slice never produces an empty node |
| Bounds.ScanTop | BVH/source/main.cpp:245-253 | the top scan returns the smallest of the seed and all object tops: no larger than any of them and equal to one of them |
| Bounds.ScanBottom | BVH/source/main.cpp:246-253 | the bottom scan returns the largest of the seed and all object bottoms: no smaller than any of them and equal to one of them |
| Bounds.NodeBounds | BVH/source/main.cpp:240-255 | a node's box starts at the first object's left edge and ends at the last object's right edge; vertically it spans the node's current box and every object, and each vertical edge comes from the current box or from an object |
| Bounds.CalculateNodeBounds | BVH/source/main.cpp:238-266 | the pass leaves shape and slices unchanged, and afterwards every node's vertical range covers every object of its slice |
| Bounds.SameSlicesKeepPartition | BVH/source/main.cpp:257-264 | recomputing boxes keeps every internal node split into a non-empty prefix and suffix of its slice, with leaves of at most two objects |
| Bounds.SameSlicesKeepMedian | BVH/source/main.cpp:257-264 | recomputing boxes keeps every internal node split at index size/2 |
| Bounds.NodeBoundsEnclose | BVH/source/main.cpp:240-255 | on a slice sorted by left edge with non-decreasing right edges, the node's box encloses every object's box |
| Bounds.BoundsEncloseObjects | BVH/source/main.cpp:238-266 | if the root slice is sorted by left edge with non-decreasing right edges, after the pass every node's box encloses all its objects' boxes |
| Bounds.EndsNestedFromOrder | BVH/source/main.cpp:225-227 | under the same ordering, each child slice starts no further left and ends no further right than its parent's slice |
| Bounds.PartVerticallyInside | BVH/source/main.cpp:245-253 | the vertical range computed for part of a slice lies inside the range computed for the whole slice from the same seed |
| Bounds.HalvesInside | BVH/source/main.cpp:238-255 | when both halves' ends lie inside the slice's ends, both halves' boxes lie inside the slice's box |
| Bounds.PassGivesSliceBoxes | BVH/source/main.cpp:238-266 | on a freshly built tree, every node ends up with the box its own slice gives from the zero box |
| Bounds.NestedFromEnds | BVH/source/main.cpp:238-266 | if child slice ends lie inside parent slice ends and boxes come from slices, every child's box lies inside its parent's |
| Bounds.ChildBoxesInsideParent | BVH/source/main.cpp:238-266 | if the root slice is sorted by left edge with non-decreasing right edges, after the pass on a freshly built tree each child's box lies inside its parent's |
| Search.RecursiveSearchBVH | BVH/source/main.cpp:300-322 | every recorded node is a present node below the start node that holds at most two objects and whose box collides with the search rectangle |
| Search.CheckCollisionsWithinNodes | BVH/source/main.cpp:324-338 | an object is reported exactly when it belongs to one of the recorded nodes and collides with the rectangle |
| Search.WithinNodesAppend | BVH/source/main.cpp:326-336 | checking two runs of recorded nodes one after the other gives the concatenation of the two results |
| Search.PrunedNodeHasNoHits | BVH/source/main.cpp:307-311 | a node whose box encloses its objects and misses the rectangle holds no colliding object |
| Search.SearchMatchesScan | BVH/source/main.cpp:300-338 | if every node's box encloses its objects, search followed by the per-node check returns exactly the brute-force scan of the root slice, in the same order |
| Search.SubtreeInside | BVH/source/main.cpp:238-266 | when every child box lies inside its parent's, every node below a root lies inside the root's box |
| Search.SearchRecordsEveryCollidingLeaf | BVH/source/main.cpp:300-322 | when every child box lies inside its parent's, every node of at most two objects below the start whose box collides with the rectangle is recorded |
| Search.CheckCollison | BVH/source/main.cpp:159-172 | the loop collects exactly the colliding objects, in list order |
| Pipeline.MasterNode | BVH/source/main.cpp:284-290 | the master node holds the whole sorted list and every internal node is split at index size/2 down to leaves, with no empty node and default boxes |
| Pipeline.PassKeepsShape | BVH/source/main.cpp:290-293 | after the pass the root still holds the sorted list and every internal node is still split into a non-empty prefix and suffix of its slice |
| Pipeline.BuiltTreeSplitsAtMedian | BVH/source/main.cpp:282-293 | every internal node of the built tree splits its slice at index size/2 |
| Pipeline.CreateBVH | BVH/source/main.cpp:269-297 | the build keeps a sorted permutation of the objects, and its root holds that list and is split down to leaves |
| Pipeline.BuiltBoxesEncloseVertically | BVH/source/main.cpp:282-293 | every node of the built tree covers its objects vertically, whatever the input |
| Pipeline.BuiltBoxesEnclose | BVH/source/main.cpp:282-293 | if right edges follow left edges among the objects, every node box of the built tree encloses its objects |
| Pipeline.BuiltBoxesNested | BVH/source/main.cpp:282-293 | under the same condition, each child box of the built tree lies inside its parent's |
| Pipeline.SearchBVH | BVH/source/main.cpp:355-356 | searching the tree then checking the recorded nodes returns only objects that collide with the rectangle |
| Pipeline.BuiltLeavesPartitionObjects | BVH/source/main.cpp:282-290 | the leaves of the built tree, read in order, are the sorted list |
| Pipeline.SearchBVHMatchesScan | BVH/source/main.cpp:282-338 | if right edges follow left edges among the objects, searching the built tree returns exactly the brute-force scan of the sorted list, in the same order |
| Pipeline.SearchBVHFindsAllHits | BVH/source/main.cpp:159-172 | under the same condition, searching the built tree finds, up to order, what the scan of the objects as given finds |
| Demo.SceneScan | BVH/source/main.cpp:124-139 | the brute-force scan of the scene with the bird finds circle, chair, chicken and jockey |
| Demo.SceneSearch | BVH/source/main.cpp:124-139 | searching the built tree with the bird finds exactly circle, chair, chicken and jockey |
| Demo.CorrectedSceneSearch | BVH/source/main.cpp:124-139 | the build with the corrected bounds pass also finds exactly circle, chair, chicken and jockey for the bird |
| Demo.FarAwaySearch | BVH/source/main.cpp:300-311 | a rectangle far outside the scene finds nothing in the tree |
| Correction.WideIsKeptInOrder | BVH/source/main.cpp:188-191 | the three-object example is already in sorted order |
| Correction.WideScan | BVH/source/main.cpp:159-172 | the brute-force scan of the example with the probe finds the wide object only |
| Correction.WideRootMissesProbe | BVH/source/main.cpp:241-242 | the root box computed as written misses the probe although the probe lies inside the wide object |
| Correction.AsWrittenMissesWideObject | BVH/source/main.cpp:238-322 | as written, the scan finds the wide object but the tree search returns nothing |
| Correction.MaxRight | BVH/source/main.cpp:242 | the corrected right edge is the largest right edge of the slice |
| Correction.CorrectedNodeBounds | BVH/source/main.cpp:240-255 | the corrected box reaches every object's right edge, and encloses every object on any slice sorted by left edge |
| Correction.CorrectedCalculateNodeBounds | BVH/source/main.cpp:238-266 | the corrected pass leaves shape and slices unchanged |
| Correction.CorrectedBoundsEncloseObjects | BVH/source/main.cpp:238-266 | after the corrected pass every box encloses its objects whenever the root slice is sorted by left edge |
| Correction.CorrectedCreateBVH | BVH/source/main.cpp:269-297 | the build with the corrected pass keeps a sorted permutation and splits it down to leaves |
| Correction.CorrectedBoxesEnclose | BVH/source/main.cpp:282-293 | every node box of the corrected build encloses its objects, for every input |
| Correction.CorrectedSearchMatchesScan | BVH/source/main.cpp:282-338 | with the corrected pass, the tree search equals the brute-force scan of the sorted list, for every input and rectangle |
| Correction.CorrectedSearchFindsAllHits | BVH/source/main.cpp:159-172 | with the corrected pass, the tree search finds, up to order, what the scan of the original list finds |
| Correction.CorrectedFindsWideObject | BVH/source/main.cpp:300-338 | on the example that defeats the pass as written, the corrected search finds the wide object |

## Left out

- Drawing is not modelled. This covers SFML, the visual boxes attached to objects and nodes, the window and the event loop; it is user interface in a foreign library.
- Timing is not modelled: the clock readings and the time accumulators are wall-clock I/O with no bearing on results.
- Logging, the name printer and all console output are not modelled.
- The random colours given to objects are not modelled; they are only for drawing.
- Heap allocation of nodes is replaced by the tree value. The never-freed node list and the parent back-pointer are dropped too, because no logic reads the parent link.
- The process-wide vectors are not modelled. Object list, tree, recorded nodes and results are values passed and returned. As a result, repeated searches do not accumulate into one shared result vector the way the globals would.
- Floating-point rounding is not modelled. Coordinates are integers, since the code only adds, subtracts and compares them.
- An empty object list is not modelled. `CreateBVH`, `MasterNode` and the bounds pass require at least one object, because the program reads the first element of an empty vector there, which is undefined behaviour.
- Objects are compared by value, not by address. Two objects with the same name and box are indistinguishable in the model, while the program holds pointers to distinct objects.
- Hierarchy.LeavesPartitionSlice: the leaf-size bound is stated for any split tree. `Pipeline.BuiltLeavesPartitionObjects` states only the flattening for the built tree, which is split by `CreateBVH`'s contract.
- Search.RecursiveSearchBVH: its own contract states only that recorded nodes are colliding small nodes of the tree. That every such node is recorded when child boxes lie inside their parents' is proved by `Search.SearchRecordsEveryCollidingLeaf` (the built tree meets that condition when right edges follow left edges, by `Pipeline.BuiltBoxesNested`; the pass as written does not guarantee it in general, see Findings), and that pruning loses no colliding object is proved by `Search.SearchMatchesScan`.
- Pipeline.SearchBVHMatchesScan: it asks that right edges follow left edges among the objects as given. This is slightly stronger than non-decreasing right edges in the sorted list, which is itself only a sufficient condition for the pass; the stronger form does not depend on how the sort orders ties. `Bounds.BoundsEncloseObjects` and `Bounds.ChildBoxesInsideParent` state the condition on the sorted slice.
- Geometry.CollisionIffSharedPoint: this needs positive width and height. A zero-width box strictly inside another passes the strict test although it covers no point.

## Findings

| source | as written | input that shows it | evidently intended | confidence | as-written member | corrected member |
|---|---|---|---|---|---|---|
| BVH/source/main.cpp:242 | a node's right edge is the right edge of the last object of its slice, which is sorted by left edge only | objects a {0,0,100,10}, b {10,0,5,10}, c {20,0,5,10} and search rectangle {50,0,1,1}: the root box is {0,0,25,10}, so the search prunes everything and returns nothing, while the scan returns a | the right edge is the largest right edge in the slice, so that every node box encloses its objects and the search agrees with the scan | high; derived by proof, not executed | Correction.AsWrittenMissesWideObject | Correction.CorrectedSearchMatchesScan |
