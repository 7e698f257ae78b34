/**
 * The greedy reordering layout `getOptimizedR`/`getOptimized`
 * (src/registers/registers.ts:152-191).
 *
 * The member list is flattened to its atomic leaves; the first leaf is placed
 * at `base`; then, while leaves remain, a cursor starts at `base + end of the
 * last block` and moves up one byte at a time until some remaining leaf's
 * alignment divides it; the first such leaf in the current order is placed
 * there and removed. The source's branches for composite entries of the
 * flattened list (registers.ts:154-156 and 167-170) cannot run, because the
 * flattening yields atomic leaves only, so they have no counterpart here.
 */
module Optimized {
  import opened RegisterTypes
  import opened Leaves
  import opened Alignment
  import opened Blocks

  /** A positive number: the alignment of a leaf. */
  type Pos = n: nat | n >= 1 witness 1

  /**
   * An atomic leaf of a flattened member list, as the greedy layout sees it:
   * the name, size and alignment of an atomic `Type` (`AsLeaf` converts).
   * It is a record of its own so that the alignment is positive by its type,
   * which makes the divisibility test total, and so that the proofs about the
   * greedy rounds never have to rule out the composite constructors of `Type`.
   */
  datatype Leaf = Leaf(name: string, rep: nat, alignment: Pos)

  function AsLeaf(t: Type): (l: Leaf)
    requires IsLeaf(t)
    ensures l.name == t.name && l.rep == t.rep && l.alignment == t.alignment
  {
    Leaf(t.name, t.rep, t.alignment)
  }

  function AsLeaves(ts: seq<Type>): (r: seq<Leaf>)
    requires AllLeaves(ts)
    ensures |r| == |ts| && forall i :: 0 <= i < |ts| ==> r[i] == AsLeaf(ts[i])
  {
    if ts == [] then [] else [AsLeaf(ts[0])] + AsLeaves(ts[1..])
  }

  /** A leaf and the offset the layout gives it. */
  datatype Placement = Placement(leaf: Leaf, start: nat)

  function BlockOf(p: Placement): Block
  {
    Block(p.start, p.start + p.leaf.rep)
  }

  function BlocksOf(ps: seq<Placement>): (r: seq<Block>)
    ensures |r| == |ps| && forall i :: 0 <= i < |ps| ==> r[i] == BlockOf(ps[i])
  {
    if ps == [] then [] else [BlockOf(ps[0])] + BlocksOf(ps[1..])
  }

  function LeavesOf(ps: seq<Placement>): (r: seq<Leaf>)
    ensures |r| == |ps| && forall i :: 0 <= i < |ps| ==> r[i] == ps[i].leaf
  {
    if ps == [] then [] else [ps[0].leaf] + LeavesOf(ps[1..])
  }

  /** The list without its `i`-th entry: `list.splice(i, 1)`. */
  function RemoveAt(list: seq<Leaf>, i: nat): (r: seq<Leaf>)
    requires i < |list|
    ensures |r| == |list| - 1
  {
    list[..i] + list[i + 1..]
  }

  /** Removing one entry takes exactly that entry out of the multiset. */
  lemma {:induction false} RemoveAtMultiset(list: seq<Leaf>, i: nat)
    requires i < |list|
    ensures multiset(RemoveAt(list, i)) + multiset{list[i]} == multiset(list)
  {
    assert list == list[..i] + [list[i]] + list[i + 1..];
  }

  /** A leaf may start at offset `c` when its alignment divides `c`. */
  predicate FitsAt(l: Leaf, c: nat)
  {
    c % l.alignment == 0
  }

  /**
   * The scan of the remaining leaves at one cursor value: the index of the
   * first leaf that fits at `c`, if there is one.
   */
  function FirstFit(list: seq<Leaf>, c: nat): (r: Option<nat>)
    ensures r.Some? ==> r.value < |list| && FitsAt(list[r.value], c)
    ensures r.Some? ==> forall k :: 0 <= k < r.value ==> !FitsAt(list[k], c)
    ensures r.None? ==> forall k :: 0 <= k < |list| ==> !FitsAt(list[k], c)
  {
    if list == [] then None
    else if FitsAt(list[0], c) then Some(0)
    else match FirstFit(list[1..], c)
      case Some(k) => Some(k + 1)
      case None => None
  }

  /**
   * The smallest cursor at or after `c` at which some remaining leaf fits.
   * It is never beyond the first leaf's own aligned position, which bounds
   * the byte-by-byte search.
   */
  function NextCursor(list: seq<Leaf>, c: nat): (r: nat)
    requires list != []
    ensures c <= r
    ensures FirstFit(list, r).Some?
    ensures forall c' :: c <= c' < r ==> FirstFit(list, c').None?
    decreases AlignUp(c, list[0].alignment) - c
  {
    if FirstFit(list, c).Some? then c
    else
      AlignUpStep(c, list[0].alignment);
      NextCursor(list, c + 1)
  }

  /**
   * The placements of the remaining leaves, the last block having ended at
   * `prevEnd`: each step takes the next cursor from `base + prevEnd` and the
   * first leaf that fits there.
   */
  function Greedy(list: seq<Leaf>, base: nat, prevEnd: nat): (ps: seq<Placement>)
    ensures |ps| == |list|
    ensures list != [] ==> base + prevEnd <= ps[0].start && FitsAt(ps[0].leaf, ps[0].start)
    decreases |list|, 1
  {
    if list == [] then [] else GreedyAt(list, base, NextCursor(list, base + prevEnd))
  }

  /** One round at cursor `c`, where some leaf fits: the first such leaf goes to `c`, the rest follow it. */
  function GreedyAt(list: seq<Leaf>, base: nat, c: nat): (ps: seq<Placement>)
    requires FirstFit(list, c).Some?
    ensures |ps| == |list| && ps[0].start == c && FitsAt(ps[0].leaf, c)
    decreases |list|, 0
  {
    var i := FirstFit(list, c).value;
    [Placement(list[i], c)] + Greedy(RemoveAt(list, i), base, c + list[i].rep)
  }

  /** The optimized placements of a member list laid out from `base`. */
  function OptimizedPlacements(types: seq<Type>, base: nat): (ps: seq<Placement>)
    requires types != [] && WellFormedSeq(types)
    ensures |ps| == |Flatten(types)| && ps[0] == Placement(AsLeaf(Flatten(types)[0]), base)
  {
    PlaceLeaves(AsLeaves(Flatten(types)), base)
  }

  /** The first leaf at `base`, the others placed greedily after it. */
  function PlaceLeaves(leaves: seq<Leaf>, base: nat): (ps: seq<Placement>)
    requires leaves != []
    ensures |ps| == |leaves| && ps[0] == Placement(leaves[0], base)
  {
    [Placement(leaves[0], base)] + Greedy(leaves[1..], base, base + leaves[0].rep)
  }

  /** One step of the greedy placement, written out: the leaf chosen at the next cursor, then the rest. */
  lemma {:induction false} GreedyStep(list: seq<Leaf>, base: nat, prevEnd: nat, c: nat, i: nat, l: seq<Leaf>, e: nat)
    requires list != []
    requires NextCursor(list, base + prevEnd) == c && FirstFit(list, c) == Some(i)
    requires l == RemoveAt(list, i) && e == c + list[i].rep
    ensures Greedy(list, base, prevEnd) == [Placement(list[i], c)] + Greedy(l, base, e)
  {
    assert Greedy(list, base, prevEnd) == GreedyAt(list, base, c);
  }

  /** The cursor and index of the first greedy step. */
  lemma {:induction false} GreedyChoice(list: seq<Leaf>, base: nat, prevEnd: nat) returns (c: nat, i: nat)
    requires list != []
    ensures NextCursor(list, base + prevEnd) == c && FirstFit(list, c) == Some(i) && i < |list|
  {
    c := NextCursor(list, base + prevEnd);
    i := FirstFit(list, c).value;
  }

  /** The greedy placements place every remaining leaf exactly once. */
  lemma {:induction false} GreedyIsPermutation(list: seq<Leaf>, base: nat, prevEnd: nat)
    ensures multiset(LeavesOf(Greedy(list, base, prevEnd))) == multiset(list)
    decreases |list|
  {
    if list == [] {
      assert Greedy(list, base, prevEnd) == [];
    } else {
      var c, i := GreedyChoice(list, base, prevEnd);
      var l, e := RemoveAt(list, i), c + list[i].rep;
      GreedyStep(list, base, prevEnd, c, i, l, e);
      GreedyIsPermutation(l, base, e);
      var rest, ps := Greedy(l, base, e), Greedy(list, base, prevEnd);
      LeavesCons(Placement(list[i], c), rest, ps);
      RemoveAtMultiset(list, i);
    }
  }

  /**
   * The optimized layout is a reordering of the flattened leaves: every leaf
   * is placed, as often as it occurs, and nothing else is.
   */
  lemma {:induction false} OptimizedIsReordering(types: seq<Type>, base: nat)
    requires types != [] && WellFormedSeq(types)
    ensures multiset(LeavesOf(OptimizedPlacements(types, base))) == multiset(AsLeaves(Flatten(types)))
  {
    PlaceLeavesIsPermutation(AsLeaves(Flatten(types)), base);
  }

  lemma {:induction false} PlaceLeavesIsPermutation(leaves: seq<Leaf>, base: nat)
    requires leaves != []
    ensures multiset(LeavesOf(PlaceLeaves(leaves, base))) == multiset(leaves)
  {
    var tail, end := leaves[1..], base + leaves[0].rep;
    var rest := Greedy(tail, base, end);
    GreedyIsPermutation(tail, base, end);
    LeavesCons(Placement(leaves[0], base), rest, PlaceLeaves(leaves, base));
    assert leaves == [leaves[0]] + tail;
  }

  /**
   * Every placement starts at a multiple of its leaf's alignment and at or
   * after `base + from`, and every later placement starts at or after `base`
   * plus the end of every earlier one.
   */
  predicate PlacedAfter(ps: seq<Placement>, base: nat, from: nat)
  {
    (forall k :: 0 <= k < |ps| ==> FitsAt(ps[k].leaf, ps[k].start) && base + from <= ps[k].start) &&
    (forall j, k :: 0 <= j < k < |ps| ==> base + BlockOf(ps[j]).end <= ps[k].start)
  }

  /**
   * The optimized layout's rules: every leaf after the first starts at a
   * multiple of its alignment, and the blocks come in increasing order without
   * overlap.
   */
  ghost predicate OptimizedRules(ps: seq<Placement>)
  {
    (forall k :: 0 < k < |ps| ==> FitsAt(ps[k].leaf, ps[k].start)) && Ordered(BlocksOf(ps))
  }

  /**
   * Every leaf the greedy step places starts at a multiple of its alignment,
   * at or after `base + prevEnd`, and every later leaf starts at or after
   * `base` plus the end of every earlier one.
   */
  lemma {:induction false} GreedyPlacementRules(list: seq<Leaf>, base: nat, prevEnd: nat)
    ensures PlacedAfter(Greedy(list, base, prevEnd), base, prevEnd)
    decreases |list|
  {
    if list != [] {
      var c, i := GreedyChoice(list, base, prevEnd);
      var l, e := RemoveAt(list, i), c + list[i].rep;
      GreedyStep(list, base, prevEnd, c, i, l, e);
      GreedyPlacementRules(l, base, e);
      ConsRules(Placement(list[i], c), Greedy(l, base, e), Greedy(list, base, prevEnd), base, prevEnd, e);
    }
  }

  /** The placement rules of a step in front of the placements that follow it. */
  lemma {:induction false} ConsRules(p: Placement, rest: seq<Placement>, ps: seq<Placement>, base: nat, prevEnd: nat, e: nat)
    requires ps == [p] + rest && FitsAt(p.leaf, p.start) && base + prevEnd <= p.start
    requires e == BlockOf(p).end && PlacedAfter(rest, base, e)
    ensures PlacedAfter(ps, base, prevEnd)
  {
    forall k | 0 <= k < |ps|
      ensures FitsAt(ps[k].leaf, ps[k].start) && base + prevEnd <= ps[k].start
    {
      if k > 0 {
        assert ps[k] == rest[k - 1];
      }
    }
    forall j, k | 0 <= j < k < |ps|
      ensures base + BlockOf(ps[j]).end <= ps[k].start
    {
      assert ps[k] == rest[k - 1];
      if j > 0 {
        assert ps[j] == rest[j - 1];
      }
    }
  }

  /**
   * The optimized layout's rules: the first leaf at `base`, every other leaf
   * at a multiple of its alignment, and the blocks in increasing order without
   * overlap.
   */
  lemma {:induction false} OptimizedPlacementRules(types: seq<Type>, base: nat)
    requires types != [] && WellFormedSeq(types)
    ensures OptimizedPlacements(types, base)[0] == Placement(AsLeaf(Flatten(types)[0]), base)
    ensures OptimizedRules(OptimizedPlacements(types, base))
  {
    PlaceLeavesRules(AsLeaves(Flatten(types)), base);
  }

  lemma {:induction false} PlaceLeavesRules(leaves: seq<Leaf>, base: nat)
    requires leaves != []
    ensures PlaceLeaves(leaves, base)[0] == Placement(leaves[0], base)
    ensures OptimizedRules(PlaceLeaves(leaves, base))
  {
    var tail, end := leaves[1..], base + leaves[0].rep;
    var rest, ps := Greedy(tail, base, end), PlaceLeaves(leaves, base);
    GreedyPlacementRules(tail, base, end);
    FirstThenRules(Placement(leaves[0], base), rest, ps, base, end);
  }

  /** A first placement followed by placements obeying the greedy rules gives ordered blocks. */
  lemma {:induction false} FirstThenRules(first: Placement, rest: seq<Placement>, ps: seq<Placement>, base: nat, end: nat)
    requires ps == [first] + rest && end == BlockOf(first).end
    requires PlacedAfter(rest, base, end)
    ensures OptimizedRules(ps)
  {
    forall k | 0 < k < |ps|
      ensures FitsAt(ps[k].leaf, ps[k].start) && BlockOf(ps[k - 1]).end <= ps[k].start
    {
      assert ps[k] == rest[k - 1];
      if k > 1 {
        assert ps[k - 1] == rest[k - 2];
      }
    }
    var bs := BlocksOf(ps);
    forall k | 0 <= k < |bs| - 1
      ensures bs[k].end <= bs[k + 1].start
    {
      assert bs[k] == BlockOf(ps[k]) && bs[k + 1] == BlockOf(ps[k + 1]);
    }
  }

  /** The leaves of a placement in front of others. */
  lemma {:induction false} LeavesCons(p: Placement, rest: seq<Placement>, ps: seq<Placement>)
    requires ps == [p] + rest
    ensures LeavesOf(ps) == [p.leaf] + LeavesOf(rest)
  {
    assert ps[0] == p && ps[1..] == rest;
  }

  /** The blocks of a placement in front of others. */
  lemma {:induction false} BlocksCons(p: Placement, rest: seq<Placement>, ps: seq<Placement>, b: Block)
    requires b == BlockOf(p) && ps == [p] + rest
    ensures BlocksOf(ps) == [b] + BlocksOf(rest)
  {
    assert ps[0] == p && ps[1..] == rest;
  }

  /**
   * `getOptimizedR`, run as the source runs it: a working copy of the
   * flattened leaves shrunk with `splice`, and an outer loop that places one
   * leaf per round at the cursor `NextPlacement` finds.
   */
  method GetOptimizedR(types: seq<Type>, base: nat) returns (blocks: seq<Block>)
    requires types != [] && WellFormedSeq(types)
    ensures blocks == BlocksOf(OptimizedPlacements(types, base))
  {
    var list := AsLeaves(Flatten(types));
    var first := Block(base, base + list[0].rep);
    ghost var goal := BlocksOf(OptimizedPlacements(types, base));
    FirstPlacement(types, base, list, first);
    blocks := [first];
    list := list[1..];
    ghost var prev := first.end;
    while list != []
      invariant blocks != [] && prev == Last(blocks).end
      invariant blocks + BlocksOf(Greedy(list, base, prev)) == goal
      decreases |list|
    {
      var c, i := NextPlacement(list, base + Last(blocks).end);
      var l, e := RemoveAt(list, i), c + list[i].rep;
      GreedyStep(list, base, prev, c, i, l, e);
      var b := Block(c, e);
      BlocksCons(Placement(list[i], c), Greedy(l, base, e), Greedy(list, base, prev), b);
      AppendPlacement(blocks, b, BlocksOf(Greedy(l, base, e)), goal);
      blocks := blocks + [b];
      list := l;
      prev := e;
    }
  }

  /** `getOptimized`: the optimized layout from offset 0. */
  method GetOptimized(types: seq<Type>) returns (blocks: seq<Block>)
    requires types != [] && WellFormedSeq(types)
    ensures blocks == BlocksOf(OptimizedPlacements(types, 0))
  {
    blocks := GetOptimizedR(types, 0);
  }

  /**
   * One pass of the source's inner `while`: from the cursor `lastEnd`, scan
   * the list; if nothing fits, move the cursor up by one and scan again. It
   * returns the cursor and the index of the leaf to place there.
   */
  method NextPlacement(list: seq<Leaf>, lastEnd: nat) returns (c: nat, i: nat)
    requires list != []
    ensures c == NextCursor(list, lastEnd) && FirstFit(list, c) == Some(i)
  {
    ghost var target := NextCursor(list, lastEnd);
    c := lastEnd;
    while true
      invariant lastEnd <= c <= target
      decreases target - c
    {
      var found := FindFit(list, c);
      if found.Some? {
        CursorReached(list, lastEnd, target, c);
        return c, found.value;
      }
      CursorNotReached(list, lastEnd, target, c);
      c := c + 1;
    }
  }

  /**
   * The source's labelled `find` loop at one cursor: the first leaf whose
   * alignment divides the cursor, tested by the multiple search of
   * `IsMultiple`.
   */
  method FindFit(list: seq<Leaf>, c: nat) returns (found: Option<nat>)
    ensures found == FirstFit(list, c)
  {
    var i := 0;
    while i < |list|
      invariant 0 <= i <= |list|
      invariant forall k :: 0 <= k < i ==> !FitsAt(list[k], c)
    {
      var fits := IsMultiple(c, list[i].alignment);
      if fits {
        FirstFitIs(list, c, i);
        return Some(i);
      }
      i := i + 1;
    }
    return None;
  }

  /** The first leaf that fits is the one the scan stops at. */
  lemma {:induction false} FirstFitIs(list: seq<Leaf>, c: nat, i: nat)
    requires i < |list| && FitsAt(list[i], c)
    requires forall k :: 0 <= k < i ==> !FitsAt(list[k], c)
    ensures FirstFit(list, c) == Some(i)
  {
  }

  /** The first leaf takes `base`; the rest are placed greedily after it. */
  lemma {:induction false} FirstPlacement(types: seq<Type>, base: nat, leaves: seq<Leaf>, first: Block)
    requires types != [] && WellFormedSeq(types) && leaves == AsLeaves(Flatten(types))
    requires first == Block(base, base + leaves[0].rep)
    ensures BlocksOf(OptimizedPlacements(types, base)) == [first] + BlocksOf(Greedy(leaves[1..], base, first.end))
  {
    PlaceLeavesBlocks(leaves, base, first);
  }

  lemma {:induction false} PlaceLeavesBlocks(leaves: seq<Leaf>, base: nat, first: Block)
    requires leaves != [] && first == Block(base, base + leaves[0].rep)
    ensures BlocksOf(PlaceLeaves(leaves, base)) == [first] + BlocksOf(Greedy(leaves[1..], base, first.end))
  {
    var tail := leaves[1..];
    BlocksCons(Placement(leaves[0], base), Greedy(tail, base, first.end), PlaceLeaves(leaves, base), first);
  }

  /** A cursor between the search start and the next cursor at which a leaf fits is the next cursor. */
  lemma {:induction false} CursorReached(list: seq<Leaf>, start: nat, target: nat, c: nat)
    requires list != [] && target == NextCursor(list, start) && start <= c <= target
    requires FirstFit(list, c).Some?
    ensures c == target
  {
  }

  /** A cursor at which nothing fits is short of the next cursor. */
  lemma {:induction false} CursorNotReached(list: seq<Leaf>, start: nat, target: nat, c: nat)
    requires list != [] && target == NextCursor(list, start) && start <= c <= target
    requires FirstFit(list, c).None?
    ensures c < target
  {
  }

  lemma {:induction false} AppendPlacement(blocks: seq<Block>, b: Block, rest: seq<Block>, goal: seq<Block>)
    requires blocks + ([b] + rest) == goal
    ensures (blocks + [b]) + rest == goal
  {
    assert blocks + ([b] + rest) == (blocks + [b]) + rest;
  }
}
