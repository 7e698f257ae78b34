/**
 * The cursor of the order-preserving layouts (src/registers/registers.ts:89
 * and :120) is `base + end of the last block`, but the ends in the list are
 * already absolute. At the top level `base` is 0 and nothing shows; a
 * composite member laid out from a non-zero cursor pushes each of its later
 * members `base` bytes too far. This module exhibits the gap the packed
 * layout then leaves, and proves that the packed layout with the cursor at
 * the previous block's end is gap-free for every nesting.
 */
module PackedFix {
  import opened RegisterTypes
  import opened Leaves
  import opened Blocks
  import opened Layout

  /** The packed layout with the cursor at the previous block's end. */
  function FixedPackedR(types: seq<Type>, base: nat): (r: seq<Block>)
    requires types != [] && WellFormedSeq(types)
    ensures Fits(r, Flatten(types)) && r[0].start == base && Contiguous(r)
    decreases types, 1
  {
    var first := FixedPackedNext(types[0], base);
    var r := FixedPackedRest(types[1..], first);
    FixedFirstStep(types, r, first);
    r
  }

  /** The packed `forEach` with the corrected cursor. */
  function FixedPackedRest(rest: seq<Type>, acc: seq<Block>): (r: seq<Block>)
    requires acc != [] && WellFormedSeq(rest) && Contiguous(acc)
    ensures Extends(r, acc, Flatten(rest)) && Contiguous(r)
    decreases rest, 0
  {
    if rest == [] then acc
    else
      var next := FixedPackedNext(rest[0], Last(acc).end);
      ContiguousAppend(acc, next);
      var r := FixedPackedRest(rest[1..], acc + next);
      AppendStep(acc, next, rest, Last(acc).end);
      ExtendsChain(r, acc, next, Head(rest[0]), Flatten(rest[1..]));
      r
  }

  /** One member laid out from the cursor: its own block, or its members' layout. */
  function FixedPackedNext(t: Type, cursor: nat): (r: seq<Block>)
    requires WellFormed(t)
    ensures Fits(r, Head(t)) && r != [] && r[0].start == cursor && Contiguous(r)
    decreases t, 2
  {
    if IsAtomic(t) then [Block(cursor, cursor + t.rep)]
    else FixedPackedR(t.types, cursor)
  }

  /** Contiguous blocks followed by contiguous blocks starting at the last end stay contiguous. */
  lemma {:induction false} ContiguousAppend(acc: seq<Block>, next: seq<Block>)
    requires acc != [] && next != [] && Contiguous(acc) && Contiguous(next)
    requires next[0].start == Last(acc).end
    ensures Contiguous(acc + next)
  {
    var r := acc + next;
    forall i | 0 <= i < |r| - 1 ensures r[i].end == r[i + 1].start {
      if i + 1 < |acc| {
        assert r[i] == acc[i] && r[i + 1] == acc[i + 1];
      } else if i + 1 == |acc| {
        assert r[i] == Last(acc) && r[i + 1] == next[0];
      } else {
        assert r[i] == next[i - |acc|] && r[i + 1] == next[i - |acc| + 1];
      }
    }
  }

  /** The first member's blocks followed by the rest's fit the whole flattening. */
  lemma {:induction false} FixedFirstStep(types: seq<Type>, r: seq<Block>, first: seq<Block>)
    requires types != [] && WellFormedSeq(types)
    requires Fits(first, Head(types[0])) && Extends(r, first, Flatten(types[1..]))
    requires first != []
    ensures Fits(r, Flatten(types)) && r[0].start == first[0].start
  {
    ExtendsFits(r, first, Head(types[0]), Flatten(types[1..]));
    assert Flatten(types) == Head(types[0]) + Flatten(types[1..]);
    assert r[0] == r[..|first|][0];
  }

  /**
   * The corrected packed layout wastes nothing at any nesting, and spans
   * exactly the bytes its leaves occupy.
   */
  lemma {:induction false} FixedPackedNoWaste(types: seq<Type>, base: nat)
    requires types != [] && WellFormedSeq(types)
    ensures Waste(FixedPackedR(types, base)) == 0
    ensures Last(FixedPackedR(types, base)).end == base + Occupied(FixedPackedR(types, base))
  {
    var r := FixedPackedR(types, base);
    WasteTelescopes(r);
  }

  /** On a flat list from offset 0 the two cursors coincide, so the correction changes no top-level layout. */
  lemma {:induction false} FixedPackedAgreesOnLeaves(types: seq<Type>)
    requires types != [] && AllLeaves(types)
    ensures WellFormedSeq(types) && FixedPackedR(types, 0) == Packed(types)
  {
    FlattenOfLeaves(types);
    var first := FixedPackedNext(types[0], 0);
    assert IsAtomic(types[0]);
    assert first == [Block(0, types[0].rep)];
    assert Packed(types) == PackedRest(types[1..], 0, first);
    RestAgreesOnLeaves(types[1..], first);
  }

  lemma {:induction false} RestAgreesOnLeaves(rest: seq<Type>, acc: seq<Block>)
    requires acc != [] && AllLeaves(rest) && Contiguous(acc)
    ensures WellFormedSeq(rest) && FixedPackedRest(rest, acc) == PackedRest(rest, 0, acc)
    decreases |rest|
  {
    FlattenOfLeaves(rest);
    if rest != [] {
      var tail := rest[1..];
      FlattenOfLeaves(tail);
      assert IsAtomic(rest[0]);
      var next := FixedPackedNext(rest[0], Last(acc).end);
      assert next == PackedNext(rest[0], 0 + Last(acc).end);
      var acc' := acc + next;
      assert FixedPackedRest(rest, acc) == FixedPackedRest(tail, acc');
      assert PackedRest(rest, 0, acc) == PackedRest(tail, 0, acc');
      RestAgreesOnLeaves(tail, acc');
    }
  }

  /** The members of the counterexample: one-byte atomics `a`, `x`, `y` and the struct `s { x; y }`. */
  const GapA := Atomic("a", 1, 1)
  const GapX := Atomic("x", 1, 1)
  const GapY := Atomic("y", 1, 1)
  const GapS := Struct("s", [GapX, GapY])

  /**
   * The counterexample: `a` followed by `s`. As written, `s` is laid out from
   * cursor 1 and its second member lands at 1 + 2 = 3, one byte after the
   * first member's end, so the packed layout wastes a byte; the corrected
   * layout places it at 2.
   */
  lemma PackedNestedGap()
    ensures WellFormedSeq([GapA, GapS])
    ensures Packed([GapA, GapS]) == [Block(0, 1), Block(1, 2), Block(3, 4)]
    ensures Waste(Packed([GapA, GapS])) == 1
    ensures FixedPackedR([GapA, GapS], 0) == [Block(0, 1), Block(1, 2), Block(2, 3)]
  {
    var r := GapAsWritten();
    assert r[..2][..1] == r[..1];
    assert Waste(r) == Waste(r[..2]) + 1;
    GapFixed();
  }

  lemma GapInnerAsWritten()
    ensures WellFormedSeq([GapX, GapY]) && PackedR([GapX, GapY], 1) == [Block(1, 2), Block(3, 4)]
  {
    assert WellFormed(GapX) && WellFormed(GapY);
    PackedRStep([GapX, GapY], 1, GapX, [GapY]);
    PackedRestStep([GapY], 1, [Block(1, 2)], GapY, []);
    assert PackedNext(GapY, 3) == [Block(3, 4)];
  }

  lemma GapAsWritten() returns (r: seq<Block>)
    ensures WellFormedSeq([GapA, GapS])
    ensures r == Packed([GapA, GapS]) && r == [Block(0, 1), Block(1, 2), Block(3, 4)]
  {
    GapInnerAsWritten();
    assert WellFormed(GapA) && WellFormed(GapS);
    r := Packed([GapA, GapS]);
    assert r == PackedRest([GapS], 0, [Block(0, 1)]);
    assert PackedNext(GapS, 1) == PackedR([GapX, GapY], 1);
    assert r == PackedRest([], 0, [Block(0, 1)] + [Block(1, 2), Block(3, 4)]);
  }

  lemma GapInnerFixed()
    ensures WellFormedSeq([GapX, GapY]) && FixedPackedR([GapX, GapY], 1) == [Block(1, 2), Block(2, 3)]
  {
    assert WellFormed(GapX) && WellFormed(GapY);
    assert FixedPackedNext(GapX, 1) == [Block(1, 2)];
    assert FixedPackedR([GapX, GapY], 1) == FixedPackedRest([GapY], [Block(1, 2)]);
    assert FixedPackedNext(GapY, 2) == [Block(2, 3)];
    assert FixedPackedRest([GapY], [Block(1, 2)]) == FixedPackedRest([], [Block(1, 2), Block(2, 3)]);
  }

  lemma GapFixed()
    ensures WellFormedSeq([GapA, GapS])
    ensures FixedPackedR([GapA, GapS], 0) == [Block(0, 1), Block(1, 2), Block(2, 3)]
  {
    GapInnerFixed();
    assert WellFormed(GapA) && WellFormed(GapS);
    assert FixedPackedNext(GapA, 0) == [Block(0, 1)];
    assert FixedPackedR([GapA, GapS], 0) == FixedPackedRest([GapS], [Block(0, 1)]);
    assert FixedPackedNext(GapS, 1) == FixedPackedR([GapX, GapY], 1);
    assert FixedPackedRest([GapS], [Block(0, 1)]) == FixedPackedRest([], [Block(0, 1)] + [Block(1, 2), Block(2, 3)]);
  }
}
