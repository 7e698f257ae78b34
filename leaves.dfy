/** The atomic test and the flattening of member lists (src/registers/registers.ts). */
module Leaves {
  import opened RegisterTypes

  /**
   * The source's runtime test for "atomic": a truthy `rep`. On well-formed
   * types it is exactly the `Atomic` constructor; a struct and a union are
   * never atomic, whichever of the two they are.
   */
  predicate IsAtomic(t: Type)
    ensures WellFormed(t) ==> (IsAtomic(t) <==> t.Atomic?)
    ensures IsAtomic(t) ==> t.Atomic? && t.rep >= 1
  {
    t.Atomic? && t.rep != 0
  }

  /**
   * `plainRegister`: every member list replaced, recursively and in order,
   * by the atomic leaves it is made of. Only atomic leaves come out, and a
   * non-empty well-formed list has at least one.
   */
  function Flatten(ts: seq<Type>): (r: seq<Type>)
    requires WellFormedSeq(ts)
    ensures AllLeaves(r)
    ensures ts != [] ==> r != []
    decreases ts
  {
    if ts == [] then [] else Head(ts[0]) + Flatten(ts[1..])
  }

  /** The leaves one member contributes to the flattening: itself, or its members' leaves. */
  function Head(t: Type): (r: seq<Type>)
    requires WellFormed(t)
    ensures AllLeaves(r) && r != []
    decreases t
  {
    if IsAtomic(t) then [t] else Flatten(t.types)
  }

  /** Flattening distributes over concatenation of member lists. */
  lemma {:induction false} FlattenAppend(a: seq<Type>, b: seq<Type>)
    requires WellFormedSeq(a) && WellFormedSeq(b)
    ensures WellFormedSeq(a + b) && Flatten(a + b) == Flatten(a) + Flatten(b)
  {
    WellFormedAppend(a, b);
    if a == [] {
      assert a + b == b;
    } else {
      var h, a' := a[0], a[1..];
      assert a == [h] + a';
      WellFormedAppend(a', b);
      FlattenAppend(a', b);
      FlattenCons(a, h, a');
      var ab := a + b;
      assert ab == [h] + (a' + b);
      FlattenCons(ab, h, a' + b);
      var hd, fa, fb := Head(h), Flatten(a'), Flatten(b);
      assert hd + (fa + fb) == (hd + fa) + fb;
    }
  }

  /** The flattening of a list is the first member's leaves, then the rest's. */
  lemma {:induction false} FlattenCons(ts: seq<Type>, h: Type, rest: seq<Type>)
    requires ts == [h] + rest && WellFormed(h) && WellFormedSeq(rest)
    ensures WellFormedSeq(ts) && Flatten(ts) == Head(h) + Flatten(rest)
  {
    assert ts[0] == h && ts[1..] == rest;
  }

  lemma {:induction false} WellFormedAppend(a: seq<Type>, b: seq<Type>)
    requires WellFormedSeq(a) && WellFormedSeq(b)
    ensures WellFormedSeq(a + b)
  {
    var ab := a + b;
    forall i | 0 <= i < |ab| ensures WellFormed(ab[i]) {
      if i < |a| {
        assert ab[i] == a[i];
      } else {
        assert ab[i] == b[i - |a|];
      }
    }
  }

  /** A list of atomic leaves is its own flattening. */
  lemma {:induction false} FlattenOfLeaves(ls: seq<Type>)
    requires AllLeaves(ls)
    ensures WellFormedSeq(ls) && Flatten(ls) == ls
  {
    if ls != [] {
      FlattenOfLeaves(ls[1..]);
    }
  }

  /** Flattening is idempotent: what it returns is already flat. */
  lemma {:induction false} FlattenIdempotent(ts: seq<Type>)
    requires WellFormedSeq(ts)
    ensures WellFormedSeq(Flatten(ts)) && Flatten(Flatten(ts)) == Flatten(ts)
  {
    FlattenOfLeaves(Flatten(ts));
  }

  /**
   * A composite member contributes its own leaves in its place, so a struct
   * or union nested in a member list is transparent to the flattening.
   */
  lemma {:induction false} CompositeTransparent(pre: seq<Type>, c: Type, post: seq<Type>)
    requires WellFormedSeq(pre) && WellFormed(c) && !c.Atomic? && WellFormedSeq(post)
    ensures WellFormedSeq(pre + [c] + post)
    ensures Flatten(pre + [c] + post) == Flatten(pre) + Flatten(c.types) + Flatten(post)
  {
    assert Flatten([c]) == Head(c) + Flatten([]);
    FlattenAppend(pre, [c]);
    FlattenAppend(pre + [c], post);
  }
}
