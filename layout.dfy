/**
 * The order-preserving layouts `getUnpackedR`/`getUnpacked` and
 * `getPackedR`/`getPacked` (src/registers/registers.ts:83-136).
 *
 * Both start from the first member placed at `base` and then, member by
 * member, compute the cursor as `base + end of the last block`. The ends in
 * the list are already absolute, so inside a composite laid out at a non-zero
 * `base` every later member is pushed `base` bytes further than the previous
 * end; this is modelled as written.
 */
module Layout {
  import opened RegisterTypes
  import opened Leaves
  import opened Alignment
  import opened Blocks

  /** The block list of a member that leads a list: its own block, or its members' layout. */
  function UnpackedR(types: seq<Type>, base: nat): (r: seq<Block>)
    requires types != [] && WellFormedSeq(types)
    ensures Fits(r, Flatten(types)) && r[0].start == base && Ordered(r)
    decreases types, 1
  {
    var first := if IsAtomic(types[0]) then [Block(base, base + types[0].rep)]
                 else UnpackedR(types[0].types, base);
    var r := UnpackedRest(types[1..], base, first);
    FirstStep(types, r, first);
    r
  }

  /**
   * The `forEach` over the remaining members: an atomic member goes to the
   * smallest multiple of its alignment at or after the cursor, a composite
   * member is laid out from the cursor itself, without rounding.
   */
  function UnpackedRest(rest: seq<Type>, base: nat, acc: seq<Block>): (r: seq<Block>)
    requires acc != [] && WellFormedSeq(rest)
    ensures Extends(r, acc, Flatten(rest))
    ensures Ordered(acc) ==> Ordered(r)
    decreases rest, 0
  {
    if rest == [] then acc
    else
      var cursor := base + Last(acc).end;
      var next := UnpackedNext(rest[0], cursor);
      var r := UnpackedRest(rest[1..], base, acc + next);
      AppendStep(acc, next, rest, cursor);
      ExtendsChain(r, acc, next, Head(rest[0]), Flatten(rest[1..]));
      r
  }

  /** The blocks of one member laid out from the cursor by the unpacked `forEach`. */
  function UnpackedNext(t: Type, cursor: nat): (r: seq<Block>)
    requires WellFormed(t)
    ensures Fits(r, Head(t)) && r != [] && cursor <= r[0].start && Ordered(r)
    ensures t.Atomic? ==> r[0].start % t.alignment == 0 && r[0].start < cursor + t.alignment
    ensures !t.Atomic? ==> r[0].start == cursor
    decreases t, 2
  {
    if IsAtomic(t) then [Block(AlignUp(cursor, t.alignment), AlignUp(cursor, t.alignment) + t.rep)]
    else UnpackedR(t.types, cursor)
  }

  /** `getUnpacked`: the unpacked layout of a member list from offset 0. */
  function Unpacked(types: seq<Type>): (r: seq<Block>)
    requires types != [] && WellFormedSeq(types)
    ensures Fits(r, Flatten(types)) && r[0].start == 0 && Ordered(r)
  {
    UnpackedR(types, 0)
  }

  /** The block list of a member that leads a list, packed. */
  function PackedR(types: seq<Type>, base: nat): (r: seq<Block>)
    requires types != [] && WellFormedSeq(types)
    ensures Fits(r, Flatten(types)) && r[0].start == base && Ordered(r)
    decreases types, 1
  {
    var first := if IsAtomic(types[0]) then [Block(base, base + types[0].rep)]
                 else PackedR(types[0].types, base);
    var r := PackedRest(types[1..], base, first);
    FirstStep(types, r, first);
    r
  }

  /** The packed `forEach`: every member, atomic or composite, starts at the cursor. */
  function PackedRest(rest: seq<Type>, base: nat, acc: seq<Block>): (r: seq<Block>)
    requires acc != [] && WellFormedSeq(rest)
    ensures Extends(r, acc, Flatten(rest))
    ensures Ordered(acc) ==> Ordered(r)
    decreases rest, 0
  {
    if rest == [] then acc
    else
      var cursor := base + Last(acc).end;
      var next := PackedNext(rest[0], cursor);
      var r := PackedRest(rest[1..], base, acc + next);
      AppendStep(acc, next, rest, cursor);
      ExtendsChain(r, acc, next, Head(rest[0]), Flatten(rest[1..]));
      r
  }

  /** The blocks of one member laid out from the cursor by the packed `forEach`. */
  function PackedNext(t: Type, cursor: nat): (r: seq<Block>)
    requires WellFormed(t)
    ensures Fits(r, Head(t)) && r != [] && cursor == r[0].start && Ordered(r)
    decreases t, 2
  {
    if IsAtomic(t) then [Block(cursor, cursor + t.rep)]
    else PackedR(t.types, cursor)
  }

  /** `getPacked`: the packed layout of a member list from offset 0. */
  function Packed(types: seq<Type>): (r: seq<Block>)
    requires types != [] && WellFormedSeq(types)
    ensures Fits(r, Flatten(types)) && r[0].start == 0 && Ordered(r)
  {
    PackedR(types, 0)
  }

  /** The first member's blocks followed by the rest's fit the whole flattening. */
  lemma {:induction false} FirstStep(types: seq<Type>, r: seq<Block>, first: seq<Block>)
    requires types != [] && WellFormedSeq(types)
    requires Fits(first, Head(types[0])) && Extends(r, first, Flatten(types[1..]))
    requires first != [] && Ordered(r)
    ensures Fits(r, Flatten(types)) && r[0].start == first[0].start && Ordered(r)
  {
    ExtendsFits(r, first, Head(types[0]), Flatten(types[1..]));
    assert r[0] == r[..|first|][0];
  }

  /**
   * One step of either `forEach`: appending the first remaining member's
   * blocks, laid out from `cursor` onwards, keeps the accumulated list ordered
   * and fitted to the leaves.
   */
  lemma {:induction false} AppendStep(acc: seq<Block>, next: seq<Block>, rest: seq<Type>, cursor: nat)
    requires acc != [] && rest != [] && WellFormedSeq(rest)
    requires Last(acc).end <= cursor
    requires Fits(next, Head(rest[0]))
    requires next != [] && cursor <= next[0].start && Ordered(next)
    ensures Flatten(rest) == (Head(rest[0])) + Flatten(rest[1..])
    ensures Ordered(acc) ==> Ordered(acc + next)
  {
    if Ordered(acc) {
      var r := acc + next;
      forall i | 0 <= i < |r| - 1 ensures r[i].end <= r[i + 1].start {
        if i + 1 < |acc| {
          assert r[i] == acc[i] && r[i + 1] == acc[i + 1];
        } else if i + 1 == |acc| {
          assert r[i] == Last(acc) && r[i + 1] == next[0];
        } else {
          assert r[i] == next[i - |acc|] && r[i + 1] == next[i - |acc| + 1];
        }
      }
    }
  }

  /** One step of the unpacked `forEach`, for a list written as its first member and the rest. */
  lemma {:induction false} UnpackedRestStep(rest: seq<Type>, base: nat, acc: seq<Block>, t: Type, tail: seq<Type>)
    requires rest == [t] + tail && acc != [] && WellFormed(t) && WellFormedSeq(tail)
    ensures WellFormedSeq(rest)
    ensures UnpackedRest(rest, base, acc) == UnpackedRest(tail, base, acc + UnpackedNext(t, base + Last(acc).end))
  {
    assert rest[0] == t && rest[1..] == tail;
  }

  /** One step of the packed `forEach`, for a list written as its first member and the rest. */
  lemma {:induction false} PackedRestStep(rest: seq<Type>, base: nat, acc: seq<Block>, t: Type, tail: seq<Type>)
    requires rest == [t] + tail && acc != [] && WellFormed(t) && WellFormedSeq(tail)
    ensures WellFormedSeq(rest)
    ensures PackedRest(rest, base, acc) == PackedRest(tail, base, acc + PackedNext(t, base + Last(acc).end))
  {
    assert rest[0] == t && rest[1..] == tail;
  }

  /** The first member's blocks, then the unpacked `forEach` over the others. */
  lemma {:induction false} UnpackedRStep(types: seq<Type>, base: nat, t: Type, tail: seq<Type>)
    requires types == [t] + tail && WellFormed(t) && WellFormedSeq(tail)
    ensures WellFormedSeq(types)
    ensures IsAtomic(t) ==> UnpackedR(types, base) == UnpackedRest(tail, base, [Block(base, base + t.rep)])
    ensures !IsAtomic(t) ==> UnpackedR(types, base) == UnpackedRest(tail, base, UnpackedR(t.types, base))
  {
    assert types[0] == t && types[1..] == tail;
  }

  /** The first member's blocks, then the packed `forEach` over the others. */
  lemma {:induction false} PackedRStep(types: seq<Type>, base: nat, t: Type, tail: seq<Type>)
    requires types == [t] + tail && WellFormed(t) && WellFormedSeq(tail)
    ensures WellFormedSeq(types)
    ensures IsAtomic(t) ==> PackedR(types, base) == PackedRest(tail, base, [Block(base, base + t.rep)])
    ensures !IsAtomic(t) ==> PackedR(types, base) == PackedRest(tail, base, PackedR(t.types, base))
  {
    assert types[0] == t && types[1..] == tail;
  }
}
