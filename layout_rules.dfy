/**
 * The placement rules of the order-preserving layouts on a flat member list,
 * where every member is atomic (src/registers/registers.ts:83-136).
 */
module LayoutRules {
  import opened RegisterTypes
  import opened Leaves
  import opened Alignment
  import opened Blocks
  import opened Layout

  /**
   * Every block after the first sits at the smallest multiple of its leaf's
   * alignment at or after the cursor `base + end of the previous block`.
   */
  ghost predicate UnpackedPlacement(r: seq<Block>, leaves: seq<Type>, base: nat)
    requires AllLeaves(leaves)
  {
    |r| == |leaves| &&
    forall k :: 0 < k < |r| ==>
      r[k].start % leaves[k].alignment == 0 &&
      base + r[k - 1].end <= r[k].start < base + r[k - 1].end + leaves[k].alignment
  }

  /** The same rule from index `from` on, for the leaves `rest` that follow the first `from` blocks. */
  ghost predicate UnpackedPlacementFrom(r: seq<Block>, rest: seq<Type>, base: nat, from: nat)
    requires AllLeaves(rest)
  {
    |r| == from + |rest| &&
    forall k :: 0 < from <= k < |r| ==>
      r[k].start % rest[k - from].alignment == 0 &&
      base + r[k - 1].end <= r[k].start < base + r[k - 1].end + rest[k - from].alignment
  }

  /** Every block after the first starts exactly at the cursor `base + end of the previous block`. */
  ghost predicate PackedPlacement(r: seq<Block>, base: nat)
  {
    forall k :: 0 < k < |r| ==> r[k].start == base + r[k - 1].end
  }

  /** An atomic leaf is its own flattening. */
  lemma {:induction false} LeafIsAtomic(t: Type)
    requires IsLeaf(t)
    ensures WellFormed(t) && IsAtomic(t)
  {
  }

  lemma {:induction false} UnpackedRestPlacement(rest: seq<Type>, base: nat, acc: seq<Block>)
    requires acc != [] && AllLeaves(rest)
    ensures WellFormedSeq(rest)
    ensures UnpackedPlacementFrom(UnpackedRest(rest, base, acc), rest, base, |acc|)
    decreases |rest|
  {
    FlattenOfLeaves(rest);
    if rest != [] {
      var tail := rest[1..];
      FlattenOfLeaves(tail);
      var next := UnpackedNextOfLeaf(rest[0], base + Last(acc).end);
      var acc' := acc + next;
      var r := UnpackedRest(tail, base, acc');
      assert UnpackedRest(rest, base, acc) == r;
      UnpackedRestPlacement(tail, base, acc');
      UnpackedCons(r, acc, next[0], rest, base);
    }
  }

  /** The unpacked step places an atomic member at the first aligned offset from the cursor. */
  lemma {:induction false} UnpackedNextOfLeaf(t: Type, cursor: nat) returns (next: seq<Block>)
    requires IsLeaf(t)
    ensures WellFormed(t) && next == UnpackedNext(t, cursor)
    ensures next == [Block(AlignUp(cursor, t.alignment), AlignUp(cursor, t.alignment) + t.rep)]
  {
    LeafIsAtomic(t);
    next := UnpackedNext(t, cursor);
  }

  /** The rule for one more block in front of blocks that already keep it. */
  lemma {:induction false} UnpackedCons(r: seq<Block>, acc: seq<Block>, b: Block, rest: seq<Type>, base: nat)
    requires acc != [] && rest != [] && AllLeaves(rest)
    requires Extends(r, acc + [b], rest[1..])
    requires b.start % rest[0].alignment == 0
    requires base + Last(acc).end <= b.start < base + Last(acc).end + rest[0].alignment
    requires UnpackedPlacementFrom(r, rest[1..], base, |acc| + 1)
    ensures UnpackedPlacementFrom(r, rest, base, |acc|)
  {
    forall k | 0 < |acc| <= k < |r|
      ensures r[k].start % rest[k - |acc|].alignment == 0 &&
              base + r[k - 1].end <= r[k].start < base + r[k - 1].end + rest[k - |acc|].alignment
    {
      if k == |acc| {
        assert r[k] == r[..|acc| + 1][k] && r[k - 1] == r[..|acc| + 1][k - 1];
      } else {
        assert rest[1..][k - |acc| - 1] == rest[k - |acc|];
      }
    }
  }

  /**
   * On a flat member list, `getUnpackedR` places the first member at `base`
   * and every later one at the first multiple of its alignment at or after
   * `base` plus the previous block's end.
   */
  lemma {:induction false} UnpackedLeavesPlacement(types: seq<Type>, base: nat)
    requires types != [] && AllLeaves(types)
    ensures WellFormedSeq(types)
    ensures UnpackedR(types, base)[0] == Block(base, base + types[0].rep)
    ensures UnpackedPlacement(UnpackedR(types, base), types, base)
  {
    var r := UnpackedFirstOfLeaves(types, base);
    var tail, first := types[1..], [Block(base, base + types[0].rep)];
    UnpackedRestPlacement(tail, base, first);
    PlacementFromSecond(r, types, tail, base);
  }

  /** The rule from the second block on, for the members after the first, is the rule for the whole list. */
  lemma {:induction false} PlacementFromSecond(r: seq<Block>, types: seq<Type>, tail: seq<Type>, base: nat)
    requires types != [] && AllLeaves(types) && tail == types[1..]
    requires UnpackedPlacementFrom(r, tail, base, 1)
    ensures UnpackedPlacement(r, types, base)
  {
    forall k | 0 < k < |r|
      ensures r[k].start % types[k].alignment == 0 &&
              base + r[k - 1].end <= r[k].start < base + r[k - 1].end + types[k].alignment
    {
      assert tail[k - 1] == types[k];
    }
  }

  /** On a flat list `getUnpackedR` puts the first member at `base` and runs the `forEach` on the rest. */
  lemma {:induction false} UnpackedFirstOfLeaves(types: seq<Type>, base: nat) returns (r: seq<Block>)
    requires types != [] && AllLeaves(types)
    ensures WellFormedSeq(types) && AllLeaves(types[1..]) && WellFormedSeq(types[1..])
    ensures r == UnpackedR(types, base)
    ensures r == UnpackedRest(types[1..], base, [Block(base, base + types[0].rep)])
    ensures |r| == |types| && r[0] == Block(base, base + types[0].rep)
  {
    FlattenOfLeaves(types);
    FlattenOfLeaves(types[1..]);
    LeafIsAtomic(types[0]);
    var first := [Block(base, base + types[0].rep)];
    r := UnpackedR(types, base);
    assert r == UnpackedRest(types[1..], base, first);
    assert r[..1] == first;
  }

  lemma {:induction false} PackedRestPlacement(rest: seq<Type>, base: nat, acc: seq<Block>)
    requires acc != [] && AllLeaves(rest) && PackedPlacement(acc, base)
    ensures WellFormedSeq(rest)
    ensures PackedPlacement(PackedRest(rest, base, acc), base)
    decreases |rest|
  {
    FlattenOfLeaves(rest);
    if rest != [] {
      var tail := rest[1..];
      FlattenOfLeaves(tail);
      var next := PackedNextOfLeaf(rest[0], base + Last(acc).end);
      var acc' := acc + next;
      assert PackedRest(rest, base, acc) == PackedRest(tail, base, acc');
      PackedSnoc(acc, next[0], base);
      PackedRestPlacement(tail, base, acc');
    }
  }

  /** The packed step places an atomic member at the cursor itself. */
  lemma {:induction false} PackedNextOfLeaf(t: Type, cursor: nat) returns (next: seq<Block>)
    requires IsLeaf(t)
    ensures WellFormed(t) && next == PackedNext(t, cursor)
    ensures next == [Block(cursor, cursor + t.rep)]
  {
    LeafIsAtomic(t);
    next := PackedNext(t, cursor);
  }

  /** One more block at the cursor keeps the packed rule. */
  lemma {:induction false} PackedSnoc(acc: seq<Block>, b: Block, base: nat)
    requires acc != [] && PackedPlacement(acc, base) && b.start == base + Last(acc).end
    ensures PackedPlacement(acc + [b], base)
  {
    var r := acc + [b];
    forall k | 0 < k < |r| ensures r[k].start == base + r[k - 1].end {
      if k < |acc| {
        assert r[k] == acc[k] && r[k - 1] == acc[k - 1];
      }
    }
  }

  /**
   * On a flat member list, `getPackedR` places the first member at `base` and
   * every later one at `base` plus the previous block's end.
   */
  lemma {:induction false} PackedLeavesPlacement(types: seq<Type>, base: nat)
    requires types != [] && AllLeaves(types)
    ensures WellFormedSeq(types)
    ensures PackedR(types, base)[0] == Block(base, base + types[0].rep)
    ensures PackedPlacement(PackedR(types, base), base)
  {
    FlattenOfLeaves(types);
    LeafIsAtomic(types[0]);
    var first := [Block(base, base + types[0].rep)];
    assert PackedR(types, base) == PackedRest(types[1..], base, first);
    PackedRestPlacement(types[1..], base, first);
  }

  /** `getPacked` of a flat member list leaves no gap: its waste is zero. */
  lemma {:induction false} PackedLeavesNoWaste(types: seq<Type>)
    requires types != [] && AllLeaves(types)
    ensures WellFormedSeq(types)
    ensures Contiguous(Packed(types)) && Waste(Packed(types)) == 0
  {
    PackedLeavesPlacement(types, 0);
    var r := PackedR(types, 0);
    assert Packed(types) == r;
    forall i | 0 <= i < |r| - 1 ensures r[i].end == r[i + 1].start {
      assert r[i + 1].start == 0 + r[i + 1 - 1].end;
    }
  }
}
