/** Byte ranges and the wasted-space metric (src/registers/registers.ts:193-200). */
module Blocks {
  import opened RegisterTypes

  /** A half-open byte range `[start, end)`: the source's `[number, number]` pair. */
  datatype Block = Block(start: nat, end: nat)

  function Last(b: seq<Block>): Block
    requires b != []
  {
    b[|b| - 1]
  }

  /** Blocks `b` place the atomic `leaves` one for one, each as long as its leaf's size. */
  ghost predicate Fits(b: seq<Block>, leaves: seq<Type>)
  {
    |b| == |leaves| &&
    forall i :: 0 <= i < |b| ==> leaves[i].Atomic? && b[i].end == b[i].start + leaves[i].rep
  }

  /**
   * `r` is `acc` followed by one block per leaf of `leaves`, each as long as
   * its leaf's size.
   */
  ghost predicate Extends(r: seq<Block>, acc: seq<Block>, leaves: seq<Type>)
  {
    |r| == |acc| + |leaves| && r[..|acc|] == acc &&
    forall i :: 0 <= i < |leaves| ==> leaves[i].Atomic? && r[|acc| + i].end == r[|acc| + i].start + leaves[i].rep
  }

  /** Extending `acc + next` is extending `acc`, when `next` fits its own leaves. */
  lemma {:induction false} ExtendsChain(r: seq<Block>, acc: seq<Block>, next: seq<Block>, head: seq<Type>, tail: seq<Type>)
    requires Extends(r, acc + next, tail) && Fits(next, head)
    ensures Extends(r, acc, head + tail)
  {
    var leaves := head + tail;
    assert r[..|acc|] == (acc + next)[..|acc|] == acc by {
      assert r[..|acc|] == r[..|acc| + |next|][..|acc|];
    }
    forall i | 0 <= i < |leaves|
      ensures leaves[i].Atomic? && r[|acc| + i].end == r[|acc| + i].start + leaves[i].rep
    {
      if i < |head| {
        assert r[|acc| + i] == r[..|acc| + |next|][|acc| + i] == next[i];
      } else {
        var k := i - |head|;
        assert r[|acc| + |next| + k] == r[|acc| + i];
      }
    }
  }

  /** A list that extends a fitted first part fits all the leaves. */
  lemma {:induction false} ExtendsFits(r: seq<Block>, first: seq<Block>, head: seq<Type>, tail: seq<Type>)
    requires Extends(r, first, tail) && Fits(first, head)
    ensures Fits(r, head + tail)
  {
    ExtendsChain(r, [], first, head, tail);
    assert [] + first == first;
  }

  /** No block starts before the previous one ends. */
  ghost predicate Ordered(b: seq<Block>)
  {
    forall i :: 0 <= i < |b| - 1 ==> b[i].end <= b[i + 1].start
  }

  /** Every block starts exactly where the previous one ends. */
  ghost predicate Contiguous(b: seq<Block>)
  {
    forall i :: 0 <= i < |b| - 1 ==> b[i].end == b[i + 1].start
  }

  /** The bytes the blocks occupy, counted block by block. */
  function Occupied(b: seq<Block>): int
  {
    if b == [] then 0 else Occupied(b[..|b| - 1]) + (Last(b).end - Last(b).start)
  }

  /**
   * The wasted-space metric: the sum, over consecutive pairs, of the gap
   * between one block's end and the next block's start. Zero for zero or one
   * block; never negative when no block overlaps the next, and zero when the
   * blocks lie back to back.
   */
  function Waste(b: seq<Block>): (r: int)
    ensures Ordered(b) ==> r >= 0
    ensures Contiguous(b) ==> r == 0
    decreases |b|
  {
    if |b| <= 1 then 0
    else
      PrefixKeepsOrder(b);
      Waste(b[..|b| - 1]) + (b[|b| - 1].start - b[|b| - 2].end)
  }

  /** Dropping the last block keeps the blocks ordered, and keeps them back to back. */
  lemma {:induction false} PrefixKeepsOrder(b: seq<Block>)
    requires b != []
    ensures Ordered(b) ==> Ordered(b[..|b| - 1])
    ensures Contiguous(b) ==> Contiguous(b[..|b| - 1])
  {
    var p := b[..|b| - 1];
    if Ordered(b) {
      forall i | 0 <= i < |p| - 1 ensures p[i].end <= p[i + 1].start {
        assert p[i] == b[i] && p[i + 1] == b[i + 1];
      }
    }
    if Contiguous(b) {
      forall i | 0 <= i < |p| - 1 ensures p[i].end == p[i + 1].start {
        assert p[i] == b[i] && p[i + 1] == b[i + 1];
      }
    }
  }

  /**
   * The gaps telescope: the span from the first start to the last end is the
   * occupied bytes plus the waste.
   */
  lemma {:induction false} WasteTelescopes(b: seq<Block>)
    requires b != []
    ensures Waste(b) + Occupied(b) == Last(b).end - b[0].start
  {
    if |b| > 1 {
      var p := b[..|b| - 1];
      WasteTelescopes(p);
      assert Last(p) == b[|b| - 2] && p[0] == b[0];
    } else {
      assert b[..0] == [];
    }
  }

  /**
   * `getWastedBlocks`: the loop over consecutive pairs of registers.ts:195-197,
   * which does not run at all for an empty list.
   */
  method GetWastedBlocks(blocks: seq<Block>) returns (w: int)
    ensures w == Waste(blocks)
  {
    w := 0;
    var i := 0;
    while i < |blocks| - 1
      invariant 0 <= i && (blocks != [] ==> i <= |blocks| - 1)
      invariant blocks == [] ==> w == 0
      invariant blocks != [] ==> w == Waste(blocks[..i + 1])
    {
      assert blocks[..i + 2][..i + 1] == blocks[..i + 1];
      w := w + (blocks[i + 1].start - blocks[i].end);
      i := i + 1;
    }
    assert blocks != [] ==> blocks[..i + 1] == blocks;
  }
}
