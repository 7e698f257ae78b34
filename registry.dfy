/**
 * The type registry: `newAtomic`, `newStruct` and `newUnion`
 * (src/registers/registers.ts:2-79), which append one entry to a
 * caller-owned list of types or return `null` with nothing changed.
 */
module Registry {
  import opened RegisterTypes
  import opened Leaves

  /** Some entry of the program carries `name`: what `program.find(el => el.name == name)` looks for. */
  predicate Taken(program: seq<Type>, name: string)
  {
    exists i :: 0 <= i < |program| && program[i].name == name
  }

  /** Every listed name is carried by some entry. */
  predicate AllTaken(program: seq<Type>, names: seq<string>)
  {
    forall k :: 0 <= k < |names| ==> Taken(program, names[k])
  }

  /** No two entries share a name: the invariant the three operations keep. */
  predicate DistinctNames(program: seq<Type>)
  {
    forall i, j :: 0 <= i < j < |program| ==> program[i].name != program[j].name
  }

  /** The entries named `n`, in program order: what the inner `for j` loop pushes for one name. */
  function Matches(program: seq<Type>, n: string): (r: seq<Type>)
    ensures forall i :: 0 <= i < |r| ==> r[i].name == n && r[i] in program
  {
    if program == [] then []
    else
      var p := program[..|program| - 1];
      var r := Matches(p, n) + (if program[|program| - 1].name == n then [program[|program| - 1]] else []);
      assert forall t :: t in p ==> t in program;
      r
  }

  /** The members collected for the listed names, in the caller's order (registers.ts:30-36, 59-65). */
  function Resolve(program: seq<Type>, names: seq<string>): (r: seq<Type>)
    ensures forall i :: 0 <= i < |r| ==> r[i] in program
  {
    if names == [] then []
    else Resolve(program, names[..|names| - 1]) + Matches(program, names[|names| - 1])
  }

  /** The members for a list of names are those for all but the last, then the last name's matches. */
  lemma {:induction false} ResolveSnoc(program: seq<Type>, names: seq<string>, front: seq<string>, n: string)
    requires names == front + [n]
    ensures Resolve(program, names) == Resolve(program, front) + Matches(program, n)
  {
    assert names[..|names| - 1] == front && names[|names| - 1] == n;
  }

  /** A name nobody carries matches nothing. */
  lemma {:induction false} MatchesNone(program: seq<Type>, n: string)
    requires !Taken(program, n)
    ensures Matches(program, n) == []
  {
    if program != [] {
      var p := program[..|program| - 1];
      assert !Taken(p, n) by {
        forall i | 0 <= i < |p| ensures p[i].name != n {
          assert p[i] == program[i];
        }
      }
      MatchesNone(p, n);
    }
  }

  /** With distinct names, a taken name matches exactly its one entry. */
  lemma {:induction false} MatchesOfDistinct(program: seq<Type>, n: string, k: nat)
    requires DistinctNames(program) && k < |program| && program[k].name == n
    ensures Matches(program, n) == [program[k]]
  {
    var p := program[..|program| - 1];
    assert DistinctNames(p) by {
      forall i, j | 0 <= i < j < |p| ensures p[i].name != p[j].name {
        assert p[i] == program[i] && p[j] == program[j];
      }
    }
    if k == |program| - 1 {
      assert !Taken(p, n) by {
        forall i | 0 <= i < |p| ensures p[i].name != n {
          assert p[i] == program[i];
        }
      }
      MatchesNone(p, n);
    } else {
      assert p[k] == program[k];
      MatchesOfDistinct(p, n, k);
    }
  }

  /**
   * With distinct names and every listed name taken, the collected members
   * are the registered entries for the listed names: one per name, in the
   * caller's order, repeats kept.
   */
  lemma {:induction false} ResolveFollowsNames(program: seq<Type>, names: seq<string>)
    requires DistinctNames(program) && AllTaken(program, names)
    ensures |Resolve(program, names)| == |names|
    ensures forall i :: 0 <= i < |names| ==>
      Resolve(program, names)[i].name == names[i] && Resolve(program, names)[i] in program
  {
    if names != [] {
      var front, n := names[..|names| - 1], names[|names| - 1];
      assert names == front + [n];
      assert AllTaken(program, front) by {
        forall k | 0 <= k < |front| ensures Taken(program, front[k]) {
          assert front[k] == names[k];
        }
      }
      ResolveFollowsNames(program, front);
      assert Taken(program, n);
      var k :| 0 <= k < |program| && program[k].name == n;
      MatchesOfDistinct(program, n, k);
      ResolveSnoc(program, names, front, n);
      NamesSnoc(Resolve(program, front), program[k], front, n, names);
    }
  }

  /** Members that follow `front`, then one entry named `n`, follow `front + [n]`. */
  lemma {:induction false} NamesSnoc(members: seq<Type>, e: Type, front: seq<string>, n: string, names: seq<string>)
    requires names == front + [n] && e.name == n && |members| == |front|
    requires forall i :: 0 <= i < |front| ==> members[i].name == front[i]
    ensures forall i :: 0 <= i < |names| ==> (members + [e])[i].name == names[i]
  {
    var r := members + [e];
    forall i | 0 <= i < |names| ensures r[i].name == names[i] {
      if i < |front| {
        assert r[i] == members[i] && names[i] == front[i];
      }
    }
  }

  /** Appending an entry under a fresh name keeps the names distinct. */
  lemma {:induction false} AppendFresh(program: seq<Type>, t: Type)
    requires DistinctNames(program) && !Taken(program, t.name)
    ensures DistinctNames(program + [t])
  {
    var q := program + [t];
    forall i, j | 0 <= i < j < |q| ensures q[i].name != q[j].name {
      assert q[i] == program[i];
      if j < |program| {
        assert q[j] == program[j];
      }
    }
  }

  /**
   * The `reduce` of registers.ts:68-70 over the leaves, as indices: `k` is
   * the index of `prev`, `i` that of `current`; `prev` is kept only when
   * strictly wider, so on equal sizes the later leaf wins. The result is a
   * widest leaf, and no later leaf is as wide.
   */
  function ReduceWidest(leaves: seq<Type>, k: nat, i: nat): (w: nat)
    requires AllLeaves(leaves) && k < i <= |leaves|
    requires forall j :: 0 <= j < i ==> leaves[j].rep <= leaves[k].rep
    requires forall j :: k < j < i ==> leaves[j].rep < leaves[k].rep
    ensures w < |leaves|
    ensures forall j :: 0 <= j < |leaves| ==> leaves[j].rep <= leaves[w].rep
    ensures forall j :: w < j < |leaves| ==> leaves[j].rep < leaves[w].rep
    decreases |leaves| - i
  {
    if i == |leaves| then k
    else ReduceWidest(leaves, if leaves[k].rep > leaves[i].rep then k else i, i + 1)
  }

  /** The union's one member: the last leaf of maximal size. */
  function Widest(leaves: seq<Type>): (w: Type)
    requires leaves != [] && AllLeaves(leaves)
    ensures w in leaves && IsLeaf(w)
    ensures forall j :: 0 <= j < |leaves| ==> leaves[j].rep <= w.rep
  {
    leaves[ReduceWidest(leaves, 0, 1)]
  }

  /**
   * The widest leaf is one of the leaves, no leaf is wider, and every leaf
   * after its position is strictly narrower.
   */
  lemma {:induction false} WidestIsLastMaximal(leaves: seq<Type>)
    requires leaves != [] && AllLeaves(leaves)
    ensures exists k :: 0 <= k < |leaves| && leaves[k] == Widest(leaves) &&
                        (forall j :: k < j < |leaves| ==> leaves[j].rep < leaves[k].rep)
    ensures forall j :: 0 <= j < |leaves| ==> leaves[j].rep <= Widest(leaves).rep
  {
    var k := ReduceWidest(leaves, 0, 1);
    assert leaves[k] == Widest(leaves);
  }

  /** Every listed entry is well-formed, so the union's flattening is defined. */
  predicate ListedWellFormed(program: seq<Type>, names: seq<string>)
  {
    forall i :: 0 <= i < |program| && program[i].name in names ==> WellFormed(program[i])
  }

  /** The members collected for the listed names are well-formed when the listed entries are. */
  lemma {:induction false} ResolveWellFormed(program: seq<Type>, names: seq<string>)
    requires ListedWellFormed(program, names)
    ensures WellFormedSeq(Resolve(program, names))
    ensures AllTaken(program, names) && names != [] ==> Resolve(program, names) != []
  {
    if names != [] {
      var front := names[..|names| - 1];
      var n := names[|names| - 1];
      assert ListedWellFormed(program, front) by {
        forall i | 0 <= i < |program| && program[i].name in front ensures WellFormed(program[i]) {
          assert program[i].name in names;
        }
      }
      ResolveWellFormed(program, front);
      var m := Matches(program, n);
      forall i | 0 <= i < |m| ensures WellFormed(m[i]) {
        var j :| 0 <= j < |program| && program[j] == m[i];
        assert program[j].name in names;
      }
      if AllTaken(program, names) {
        assert Taken(program, n);
        var k :| 0 <= k < |program| && program[k].name == n;
        MatchesAtLeastOne(program, n, k);
      }
    }
  }

  /** A taken name matches at least one entry. */
  lemma {:induction false} MatchesAtLeastOne(program: seq<Type>, n: string, k: nat)
    requires k < |program| && program[k].name == n
    ensures Matches(program, n) != []
  {
    if k < |program| - 1 {
      var p := program[..|program| - 1];
      assert p[k] == program[k];
      MatchesAtLeastOne(p, n, k);
    }
  }

  /** The member a union stores: the widest leaf of the flattened members. */
  function UnionMember(program: seq<Type>, names: seq<string>): (w: Type)
    requires names != [] && AllTaken(program, names) && ListedWellFormed(program, names)
    ensures IsLeaf(w) && WellFormedSeq(Resolve(program, names))
    ensures w in Flatten(Resolve(program, names))
    ensures forall t :: t in Flatten(Resolve(program, names)) ==> t.rep <= w.rep
  {
    ResolveWellFormed(program, names);
    Widest(Flatten(Resolve(program, names)))
  }

  /** `program.find(el => el.name == name) != undefined`, as a scan. */
  method FindName(program: seq<Type>, name: string) returns (found: bool)
    ensures found <==> Taken(program, name)
  {
    var i := 0;
    while i < |program| && program[i].name != name
      invariant 0 <= i <= |program|
      invariant forall j :: 0 <= j < i ==> program[j].name != name
    {
      i := i + 1;
    }
    found := i < |program|;
  }

  /** The check that every listed name is defined (registers.ts:25-28, 54-57). */
  method AllNamesTaken(program: seq<Type>, names: seq<string>) returns (ok: bool)
    ensures ok <==> AllTaken(program, names)
  {
    var i := 0;
    while i < |names|
      invariant 0 <= i <= |names|
      invariant forall k :: 0 <= k < i ==> Taken(program, names[k])
    {
      var found := FindName(program, names[i]);
      if !found {
        return false;
      }
      i := i + 1;
    }
    return true;
  }

  /** The nested collection loops (registers.ts:30-36, 59-65). */
  method CollectMembers(program: seq<Type>, names: seq<string>) returns (members: seq<Type>)
    ensures members == Resolve(program, names)
  {
    members := [];
    var i := 0;
    while i < |names|
      invariant 0 <= i <= |names|
      invariant members == Resolve(program, names[..i])
    {
      var j := 0;
      while j < |program|
        invariant 0 <= j <= |program|
        invariant members == Resolve(program, names[..i]) + Matches(program[..j], names[i])
      {
        assert program[..j + 1][..j] == program[..j];
        if names[i] == program[j].name {
          members := members + [program[j]];
        }
        j := j + 1;
      }
      assert program[..j] == program;
      assert names[..i + 1][..i] == names[..i];
      i := i + 1;
    }
    assert names[..i] == names;
  }

  /** The caller-owned list of types the three operations append to. */
  class Registry {
    var program: seq<Type>

    predicate Valid()
      reads this
    {
      DistinctNames(program)
    }

    constructor()
      ensures program == [] && Valid()
    {
      program := [];
    }

    /** `newAtomic`: refused when the name is taken; the size and alignment are not checked. */
    method NewAtomic(name: string, rep: nat, alignment: nat) returns (r: Registry?)
      modifies this
      ensures Taken(old(program), name) ==> r == null && program == old(program)
      ensures !Taken(old(program), name) ==> r == this && program == old(program) + [Atomic(name, rep, alignment)]
      ensures old(Valid()) ==> Valid()
    {
      var taken := FindName(program, name);
      if taken {
        return null;
      }
      if Valid() {
        AppendFresh(program, Atomic(name, rep, alignment));
      }
      program := program + [Atomic(name, rep, alignment)];
      return this;
    }

    /**
     * `newStruct`: refused for an empty member list, a taken name or an
     * undefined member; otherwise the struct of the collected members is appended.
     */
    method NewStruct(name: string, names: seq<string>) returns (r: Registry?)
      modifies this
      ensures names == [] || Taken(old(program), name) || !AllTaken(old(program), names) ==>
        r == null && program == old(program)
      ensures names != [] && !Taken(old(program), name) && AllTaken(old(program), names) ==>
        r == this && program == old(program) + [Struct(name, Resolve(old(program), names))]
      ensures old(Valid()) ==> Valid()
    {
      if |names| == 0 {
        return null;
      }
      var taken := FindName(program, name);
      if taken {
        return null;
      }
      var defined := AllNamesTaken(program, names);
      if !defined {
        return null;
      }
      var members := CollectMembers(program, names);
      if Valid() {
        AppendFresh(program, Struct(name, members));
      }
      program := program + [Struct(name, members)];
      return this;
    }

    /**
     * `newUnion`: refused like `newStruct`; otherwise a union holding only
     * the widest leaf of the flattened members is appended. The flattening
     * needs the listed entries to be well-formed.
     */
    method NewUnion(name: string, names: seq<string>) returns (r: Registry?)
      requires names != [] && !Taken(program, name) && AllTaken(program, names) ==>
        ListedWellFormed(program, names)
      modifies this
      ensures names == [] || Taken(old(program), name) || !AllTaken(old(program), names) ==>
        r == null && program == old(program)
      ensures names != [] && !Taken(old(program), name) && AllTaken(old(program), names) ==>
        r == this && program == old(program) + [Union(name, [UnionMember(old(program), names)])]
      ensures old(Valid()) ==> Valid()
    {
      if |names| == 0 {
        return null;
      }
      var taken := FindName(program, name);
      if taken {
        return null;
      }
      var defined := AllNamesTaken(program, names);
      if !defined {
        return null;
      }
      var members := CollectMembers(program, names);
      ResolveWellFormed(program, names);
      var widest := Widest(Flatten(members));
      var u := Union(name, [widest]);
      if Valid() {
        AppendFresh(program, u);
      }
      program := program + [u];
      return this;
    }
  }
}
