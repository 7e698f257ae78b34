# Register layouts of atomic, struct and union types

This project models, in Dafny, the core of a small TypeScript tool that
registers data types and computes how their fields lie in memory.

A *program* is a list of named types:

- an **atomic** type has a size `rep` in bytes and an `alignment`;
- a **struct** and a **union** have a list of member types and nothing else,
  so the two have the identical shape `{ name, types }`.

Three operations append to a caller-owned program. Each one either appends
exactly one entry and returns the same program, or returns `null` and
changes nothing:

- `newAtomic` rejects a name that is already taken;
- `newStruct` rejects an empty member list, a taken name or an undefined
  member, and stores the registered entries for the listed names;
- `newUnion` rejects the same inputs, and stores only one member: the
  widest atomic leaf of the flattened members.

Three functions lay a member list out as half-open byte ranges `[start, end)`,
one per atomic leaf of the flattened list (`plainRegister`), and
`getWastedBlocks` sums the gaps between consecutive ranges. The
order-preserving layouts place the first member at the start offset `base`.
For each later member they compute a cursor: `base` plus the end of the
previous range.

- `getUnpacked` puts a later atomic member at the first multiple of its
  alignment at or after the cursor. A later composite member is laid out from
  the cursor itself, with no rounding.
- `getPacked` puts every later member, atomic or composite, at the cursor.
  The range ends are already absolute, so `base` is counted twice. At the top
  level `base` is 0, so consecutive top-level members lie back to back.
  Inside a composite laid out from a non-zero offset, gaps appear (see
  Findings).
- `getOptimized` reorders the leaves greedily: it moves a cursor up one byte
  at a time and places the first remaining leaf whose alignment divides it.

The Dafny modules follow the source:

- `RegisterTypes` is the `Type` datatype and its well-formedness;
- `Leaves` holds `isAtomic` and the flattening;
- `Alignment` holds the two multiple-searching loops;
- `Blocks` holds ranges and the waste metric;
- `Layout` and `LayoutRules` hold the unpacked and packed layouts and their
  placement rules;
- `Optimized` holds the greedy layout: a method with the source's loops,
  proved equal to a recursive specification;
- `Registry` holds the registry class;
- `PackedFix` holds the finding below;
- `Scenarios` holds the worked examples of the project's tests.

The registry is a class whose `program` field the three methods reassign.
Each method returns `this` or `null`, as the source returns the array or
`null`. `getOptimizedR`, `getWastedBlocks` and the name lookups are methods
with loops. The order-preserving layouts and the flattening are recursive
functions.

Struct and union values are built from entries already in the program.
They are datatype values, so the type graph cannot hold a cycle.

## Model

| member | source | states |
|---|---|---|
| Leaves.IsAtomic | src/registers/registers.ts:81 | On a well-formed type, a truthy `rep` holds exactly for the atomic constructor. A struct and a union are never atomic, whichever of the two they are. |
| Leaves.Head | src/registers/registers.ts:141-147 | The leaves one member contributes to the flattening are atomic leaves only, and there is at least one. |
| Leaves.Flatten | src/registers/registers.ts:138-151 | The flattening contains atomic leaves only. A non-empty list flattens to a non-empty list. |
| Leaves.FlattenAppend | src/registers/registers.ts:141-148 | Flattening a concatenation gives the concatenation of the two flattenings. |
| Leaves.FlattenOfLeaves | src/registers/registers.ts:145-147 | A list of atomic leaves is its own flattening. |
| Leaves.FlattenIdempotent | src/registers/registers.ts:138-151 | Flattening twice gives the same list as flattening once. |
| Leaves.CompositeTransparent | src/registers/registers.ts:142-144 | A struct or union nested anywhere in a member list contributes its own members' leaves in its place. |
| Alignment.AlignUp | src/registers/registers.ts:98-104 | The aligned offset is a multiple of the alignment in the window `[n, n + a)`. |
| Alignment.AlignUpIsLeast | src/registers/registers.ts:98-104 | No multiple of the alignment at or above `n` is smaller than the aligned offset. |
| Alignment.AlignUpStep | src/registers/registers.ts:182 | Moving a cursor that is not a multiple up by one byte leaves its aligned offset unchanged. This bounds the optimized layout's cursor search. |
| Alignment.FirstMultipleAtLeast | src/registers/registers.ts:98-104 | The scan over `alignment * i` stops at the smallest multiple at or above the cursor, i.e. `((n + a - 1) / a) * a`. |
| Alignment.IsMultiple | src/registers/registers.ts:172-178 | The scan over `alignment * j` finds the cursor exactly when the alignment divides it. |
| Blocks.GetWastedBlocks | src/registers/registers.ts:193-200 | The loop returns the sum of next start minus previous end over consecutive pairs. The sum is 0 for zero or one range. |
| Blocks.WasteTelescopes | src/registers/registers.ts:193-200 | The waste plus the occupied bytes equals the span from the first start to the last end. |
| Blocks.Waste | src/registers/registers.ts:193-200 | The sum of the gaps between consecutive ranges is non-negative when no range starts before the previous one ends. It is 0 when the ranges lie back to back. |
| Layout.UnpackedR | src/registers/registers.ts:83-108 | One range per flattened leaf, each as long as its leaf's `rep`, the first starting at `base`, none starting before the previous one ends. |
| Layout.UnpackedRest | src/registers/registers.ts:88-105 | The `forEach` appends one range per leaf of the remaining members, and it keeps an ordered list ordered. |
| Layout.UnpackedNext | src/registers/registers.ts:89-104 | An atomic member starts at a multiple of its alignment at or after the cursor and less than one alignment past it. A composite member starts at the cursor itself, with no rounding. |
| Layout.Unpacked | src/registers/registers.ts:110-112 | The unpacked layout from offset 0 fits the flattened leaves, starts at 0 and is ordered. |
| Layout.PackedR | src/registers/registers.ts:114-132 | One range per flattened leaf, each as long as its leaf's `rep`, the first starting at `base`, in order. |
| Layout.PackedRest | src/registers/registers.ts:119-129 | The packed `forEach` appends one range per leaf of the remaining members and keeps the list ordered. |
| Layout.PackedNext | src/registers/registers.ts:120-128 | Each member, atomic or composite, starts exactly at the cursor. |
| Layout.Packed | src/registers/registers.ts:134-136 | The packed layout from offset 0 fits the flattened leaves, starts at 0 and is ordered. |
| LayoutRules.UnpackedLeavesPlacement | src/registers/registers.ts:83-108 | On a list of atomics, the first range is `[base, base + rep)`. Every later range starts at the smallest multiple of its alignment at or after `base` plus the previous end. |
| LayoutRules.PackedLeavesPlacement | src/registers/registers.ts:114-132 | On a list of atomics, the first range is `[base, base + rep)`. Every later range starts at `base` plus the previous end. |
| LayoutRules.PackedLeavesNoWaste | src/registers/registers.ts:134-136 | The packed layout of a list of atomics is back to back and wastes 0 bytes. |
| Optimized.FirstFit | src/registers/registers.ts:165-180 | At one cursor, the scan yields the first remaining leaf whose alignment divides the cursor, or none when no leaf fits. |
| Optimized.NextCursor | src/registers/registers.ts:160-183 | The cursor search ends at the smallest cursor at or after the start where some leaf fits. |
| Optimized.FindFit | src/registers/registers.ts:165-180 | The labelled `find` loop returns the index `FirstFit` specifies. |
| Optimized.NextPlacement | src/registers/registers.ts:164-183 | The inner `while` stops at the next cursor, with the index of the first leaf that fits there. |
| Optimized.Greedy | src/registers/registers.ts:160-184 | The greedy rounds give one placement per remaining leaf. The first one is at or after the cursor `base` plus the previous end, at a multiple of its leaf's alignment. |
| Optimized.GreedyAt | src/registers/registers.ts:165-180 | A round at a cursor where some leaf fits places a leaf at exactly that cursor, on its alignment, then continues with the other leaves. |
| Optimized.PlaceLeaves | src/registers/registers.ts:154-158 | The first leaf is placed at `base`, and every leaf gets one placement. |
| Optimized.OptimizedPlacements | src/registers/registers.ts:152-158 | The optimized layout places the first flattened leaf at `base` and gives one placement per flattened leaf. |
| Optimized.GetOptimizedR | src/registers/registers.ts:152-187 | The splice-and-push loops return the blocks of the greedy placement of the flattened leaves from `base`. |
| Optimized.GetOptimized | src/registers/registers.ts:189-191 | `getOptimized` is the greedy placement from offset 0. |
| Optimized.RemoveAtMultiset | src/registers/registers.ts:158-175 | `splice(i, 1)` removes exactly the `i`-th leaf from the multiset of remaining leaves. |
| Optimized.GreedyIsPermutation | src/registers/registers.ts:160-184 | The greedy rounds place every remaining leaf exactly as often as it occurs. |
| Optimized.OptimizedIsReordering | src/registers/registers.ts:152-187 | The optimized layout is a permutation of the flattened leaves. |
| Optimized.GreedyPlacementRules | src/registers/registers.ts:160-184 | Every greedily placed leaf starts at a multiple of its alignment, at or after the first cursor. Every later leaf starts at or after `base` plus every earlier end. |
| Optimized.OptimizedPlacementRules | src/registers/registers.ts:152-187 | The first leaf is at `base`. Every other leaf is at a multiple of its alignment. The ranges are in increasing order and never overlap. |
| Registry.Matches | src/registers/registers.ts:33-35 | The inner loop collects only entries of the program carrying the looked-up name. |
| Registry.Resolve | src/registers/registers.ts:30-36 | The collected members are all entries of the program. |
| Registry.MatchesOfDistinct | src/registers/registers.ts:32-36 | With distinct names, a taken name matches exactly its one entry. |
| Registry.ResolveFollowsNames | src/registers/registers.ts:30-41 | With distinct names and every name defined, the members are one registered entry per listed name, in the caller's order, with repeats kept. |
| Registry.AppendFresh | src/registers/registers.ts:8-15 | Appending an entry under a name not yet taken keeps all names distinct. |
| Registry.ReduceWidest | src/registers/registers.ts:68-70 | The `reduce` ends at a leaf no other leaf is wider than. Every leaf after it is strictly narrower, so on a tie the later leaf wins. |
| Registry.Widest | src/registers/registers.ts:68-70 | The `reduce` result is one of the leaves, an atomic leaf, and no leaf is wider. |
| Registry.UnionMember | src/registers/registers.ts:59-75 | The union's one member is an atomic leaf of the flattened collected members, and no leaf of that flattening is wider. |
| Registry.WidestIsLastMaximal | src/registers/registers.ts:67-75 | The union's member is one of the flattened leaves, of maximal size, and no later leaf is as wide. |
| Registry.ResolveWellFormed | src/registers/registers.ts:59-67 | The members collected from well-formed entries are well-formed and, when every name is defined, non-empty. So the flattening and the `reduce` have a leaf to start from. |
| Registry.FindName | src/registers/registers.ts:8 | The lookup finds a name exactly when some entry carries it. |
| Registry.AllNamesTaken | src/registers/registers.ts:25-28 | The check passes exactly when every listed name is defined. |
| Registry.CollectMembers | src/registers/registers.ts:30-36 | The nested loops collect, for each listed name in order, every entry carrying it. |
| Registry.Registry.NewAtomic | src/registers/registers.ts:2-16 | A taken name gives `null` and an unchanged program. Otherwise the atomic is appended at the end, the same registry is returned, and distinct names stay distinct. |
| Registry.Registry.NewStruct | src/registers/registers.ts:18-45 | An empty list, a taken name or an undefined member gives `null` and an unchanged program. Otherwise the struct of the collected members is appended and the same registry returned. Distinct names stay distinct. |
| Registry.Registry.NewUnion | src/registers/registers.ts:47-79 | The same rejections as `newStruct`. Otherwise a union holding the one widest leaf of the flattened members is appended. Distinct names stay distinct. |
| PackedFix.PackedNestedGap | src/registers/registers.ts:114-132 | For a one-byte atomic followed by a struct of two one-byte atomics, the packed layout is `[0,1] [1,2] [3,4]` and wastes a byte. The corrected layout is `[0,1] [1,2] [2,3]`. |
| PackedFix.FixedPackedR | src/registers/registers.ts:114-132 | With the cursor at the previous end, the packed layout fits the flattened leaves and is back to back at every nesting. |
| PackedFix.FixedPackedNoWaste | src/registers/registers.ts:114-132 | The corrected packed layout wastes nothing, and its last end is `base` plus the occupied bytes. |
| PackedFix.FixedPackedAgreesOnLeaves | src/registers/registers.ts:134-136 | On a list of atomics from offset 0, the corrected and the written packed layouts coincide. |
| Scenarios.WidestKeepsLaterOnTie | src/registers/registers.ts:68-70 | Of two leaves of equal size, the union keeps the later one. |
| Scenarios.BarUnpacked | test/registers.test.ts:176-184 | `bar { foo(2,2); int(4,4); bool(1,1) }` lays out unpacked as `[0,2] [4,8] [8,9]`. It wastes 2 bytes (line 204). |
| Scenarios.BarPacked | test/registers.test.ts:224-234 | `bar` lays out packed as `[0,2] [2,6] [6,7]`. It wastes nothing (line 255). |
| Scenarios.BarOptimized | test/registers.test.ts:275-281 | `bar` lays out optimized as `[0,2] [2,3] [4,8]`. It wastes 1 byte (line 302). |
| Scenarios.BarResolves | test/registers.test.ts:163-166 | The struct `bar` holds the entries `foo`, `int`, `bool` in that order. |
| Scenarios.UFooBarMember | test/registers.test.ts:167 | The union over `bar`, `int`, `bool` keeps `int`. |
| Scenarios.BuildTestProgram | test/registers.test.ts:160-168 | Registering `foo`, `int`, `bool`, `bar`, `ufoobar` and `sfoobar` yields exactly those six entries, with distinct names. |
| Scenarios.UnionUnpacked | test/registers.test.ts:186-194 | `ufoobar` and `sfoobar` each lay out unpacked as `[0,4]`. |
| Scenarios.UnionPacked | test/registers.test.ts:236-244 | `ufoobar` and `sfoobar` each lay out packed as `[0,4]`. |
| Scenarios.UnionOptimized | test/registers.test.ts:283-291 | `ufoobar` and `sfoobar` each lay out optimized as `[0,4]`. |

## Left out

- The interactive command line (`src/index.ts`) is not part of this model. It only parses input, prints and composes `getWastedBlocks` with a layout.
- `src/atomicTypes.ts` is not part of this model. It is an earlier registry that nothing imports.
- JavaScript number semantics are not modelled: sizes and alignments are natural numbers, with no NaN and no fractions.
  - `newAtomic` accepts a zero size or alignment, as the source does.
  - The layouts require well-formed types: every size and alignment at least 1, and every composite non-empty. Zero values are outside this model.
  - On a zero size the source's `isAtomic` is false, and the layout then reads the missing member list and crashes.
  - A zero alignment makes the source loop forever only where it searches for an aligned offset. That happens for a later atomic member in `getUnpackedR` (registers.ts:98-104) and for the cursor test in `getOptimizedR` (registers.ts:172).
  - `getPackedR` never reads the alignment. No layout reads the alignment of the first leaf of a list, which is placed at `base` without a search (registers.ts:84-86, 115-117, 154-156). On such inputs the source returns a layout, and the model leaves them out all the same.
- Layout.UnpackedR, Layout.PackedR and Optimized.GetOptimizedR require a non-empty member list. The source reads `types[0]` and fails on an empty one.
- Registry.Registry.NewUnion: requires every listed entry to be well-formed when the call succeeds.
  - An entry with size 0 is not atomic for the source. Its flattening then recurses into the missing member list and throws (registers.ts:142-143). The model excludes this case instead of modelling the exception.
  - An entry with alignment 0 is also excluded, although the source accepts it: neither the flattening nor the `reduce` reads the alignment. The model's flattening is defined on well-formed types only.
- Optimized.GetOptimizedR: the composite branches of `getOptimizedR` (registers.ts:154-156 and 167-170) have no counterpart. They cannot run, because the flattened list holds atomic leaves only (`Leaves.Flatten`).
- Optimized.GetOptimizedR: the source's inner loops are split into the methods `NextPlacement` and `FindFit`. The array `splice` is modelled as removal from a sequence. The permutation is stated on the placed leaf records, not on the ranges.
- The unions `tufoobar` of the tests (a union over `int` and `sfoobar`, resp. over `int` and `ufoobar`) are not among the worked examples.
- Caller aliasing is not modelled: the registry holds its list, and the source's returned array is represented by returning the same registry object.

## Findings

| source | as written | input that shows it | evidently intended | confidence | as-written member | corrected member |
|---|---|---|---|---|---|---|
| src/registers/registers.ts:120 | The cursor for the next member is `base + end of the last range`, but the ends are already absolute. A composite laid out from a non-zero offset pushes each later member `base` bytes too far. The same expression is at lines 89 and 161. | `getPacked([a, s])` with `a` a 1-byte atomic and `s` a struct of two 1-byte atomics gives `[0,1] [1,2] [3,4]` and waste 1. | The cursor is the end of the previous range, giving `[0,1] [1,2] [2,3]` and no waste at any nesting. | not executed | PackedFix.PackedNestedGap | PackedFix.FixedPackedNoWaste |
