/**
 * The worked examples of test/registers.test.ts, stated on the model: the
 * struct `bar { foo; int; bool }` with `foo` of size 2 and alignment 2, `int`
 * of size 4 and alignment 4 and `bool` of size 1 and alignment 1, and the
 * unions and structs built over it.
 */
module Scenarios {
  import opened RegisterTypes
  import opened Leaves
  import opened Alignment
  import opened Blocks
  import opened Layout
  import opened Optimized
  import opened Registry

  const Foo := Atomic("foo", 2, 2)
  const Int := Atomic("int", 4, 4)
  const Bool := Atomic("bool", 1, 1)
  const BarTypes := [Foo, Int, Bool]

  lemma BarWellFormed()
    ensures WellFormedSeq(BarTypes) && AllLeaves(BarTypes)
  {
    assert IsLeaf(Foo) && IsLeaf(Int) && IsLeaf(Bool);
  }

  /** The unpacked layout of `bar` is `[[0,2],[4,8],[8,9]]`, wasting 2 bytes. */
  lemma BarUnpacked()
    ensures WellFormedSeq(BarTypes)
    ensures Unpacked(BarTypes) == [Block(0, 2), Block(4, 8), Block(8, 9)]
    ensures Waste(Unpacked(BarTypes)) == 2
  {
    BarWellFormed();
    UnpackedRStep(BarTypes, 0, Foo, [Int, Bool]);
    BarUnpackedRest();
    WasteOfThree(Unpacked(BarTypes));
  }

  lemma BarUnpackedRest()
    ensures WellFormedSeq([Int, Bool])
    ensures UnpackedRest([Int, Bool], 0, [Block(0, 2)]) == [Block(0, 2), Block(4, 8), Block(8, 9)]
  {
    BarWellFormed();
    UnpackedRestStep([Int, Bool], 0, [Block(0, 2)], Int, [Bool]);
    IntAfterFoo();
    assert [Block(0, 2)] + [Block(4, 8)] == [Block(0, 2), Block(4, 8)];
    BarUnpackedLast();
  }

  /** `int` after `foo` goes to 4, the first multiple of 4 at or after 2. */
  lemma IntAfterFoo()
    ensures WellFormed(Int) && UnpackedNext(Int, 2) == [Block(4, 8)]
  {
    AlignUpIsLeast(2, 4, 4);
    assert AlignUp(2, 4) == 4;
  }

  lemma BarUnpackedLast()
    ensures WellFormedSeq([Bool])
    ensures UnpackedRest([Bool], 0, [Block(0, 2), Block(4, 8)]) == [Block(0, 2), Block(4, 8), Block(8, 9)]
  {
    assert WellFormed(Bool);
    UnpackedRestStep([Bool], 0, [Block(0, 2), Block(4, 8)], Bool, []);
    assert AlignUp(8, 1) == 8;
    assert UnpackedNext(Bool, 8) == [Block(8, 9)];
  }

  /** The packed layout of `bar` is `[[0,2],[2,6],[6,7]]`, wasting nothing. */
  lemma BarPacked()
    ensures WellFormedSeq(BarTypes)
    ensures Packed(BarTypes) == [Block(0, 2), Block(2, 6), Block(6, 7)]
    ensures Waste(Packed(BarTypes)) == 0
  {
    BarWellFormed();
    PackedRStep(BarTypes, 0, Foo, [Int, Bool]);
    BarPackedRest();
    WasteOfThree(Packed(BarTypes));
  }

  lemma BarPackedRest()
    ensures WellFormedSeq([Int, Bool])
    ensures PackedRest([Int, Bool], 0, [Block(0, 2)]) == [Block(0, 2), Block(2, 6), Block(6, 7)]
  {
    BarWellFormed();
    PackedRestStep([Int, Bool], 0, [Block(0, 2)], Int, [Bool]);
    assert PackedNext(Int, 2) == [Block(2, 6)];
    assert [Block(0, 2)] + [Block(2, 6)] == [Block(0, 2), Block(2, 6)];
    BarPackedLast();
  }

  lemma BarPackedLast()
    ensures WellFormedSeq([Bool])
    ensures PackedRest([Bool], 0, [Block(0, 2), Block(2, 6)]) == [Block(0, 2), Block(2, 6), Block(6, 7)]
  {
    assert WellFormed(Bool);
    PackedRestStep([Bool], 0, [Block(0, 2), Block(2, 6)], Bool, []);
    assert PackedNext(Bool, 6) == [Block(6, 7)];
  }

  /** The waste of three blocks, as the two gaps. */
  lemma WasteOfThree(r: seq<Block>)
    requires |r| == 3
    ensures Waste(r) == (r[1].start - r[0].end) + (r[2].start - r[1].end)
  {
    assert r[..2][..1] == r[..1];
    assert Waste(r[..2]) == r[1].start - r[0].end;
  }

  const FooLeaf := Leaf("foo", 2, 2)
  const IntLeaf := Leaf("int", 4, 4)
  const BoolLeaf := Leaf("bool", 1, 1)

  /**
   * The optimized layout of `bar`: `foo` at 0; at cursor 2 `int` does not
   * fit and `bool` does; at cursor 3 nothing fits and at 4 `int` does. The
   * blocks are `[[0,2],[2,3],[4,8]]` (in placement order), wasting 1 byte.
   */
  lemma BarOptimized()
    ensures WellFormedSeq(BarTypes)
    ensures BlocksOf(OptimizedPlacements(BarTypes, 0)) == [Block(0, 2), Block(2, 3), Block(4, 8)]
    ensures Waste(BlocksOf(OptimizedPlacements(BarTypes, 0))) == 1
  {
    BarWellFormed();
    FlattenOfLeaves(BarTypes);
    var leaves := AsLeaves(Flatten(BarTypes));
    assert leaves == [FooLeaf, IntLeaf, BoolLeaf];
    FirstPlacement(BarTypes, 0, leaves, Block(0, 2));
    var g := BarGreedy();
    var r := BlocksOf(OptimizedPlacements(BarTypes, 0));
    assert r == [Block(0, 2)] + BlocksOf(g);
    assert BlocksOf(g) == [Block(2, 3), Block(4, 8)];
    WasteOfThree(r);
  }

  /** The greedy steps after `foo`: `bool` at 2, then `int` at 4. */
  lemma BarGreedy() returns (g: seq<Placement>)
    ensures g == Greedy([IntLeaf, BoolLeaf], 0, 2)
    ensures g == [Placement(BoolLeaf, 2), Placement(IntLeaf, 4)]
  {
    assert [IntLeaf, BoolLeaf][1..] == [BoolLeaf];
    assert FirstFit([IntLeaf, BoolLeaf], 2) == Some(1) by {
      assert FirstFit([BoolLeaf], 2) == Some(0);
    }
    assert NextCursor([IntLeaf, BoolLeaf], 2) == 2;
    assert RemoveAt([IntLeaf, BoolLeaf], 1) == [IntLeaf];
    GreedyStep([IntLeaf, BoolLeaf], 0, 2, 2, 1, [IntLeaf], 3);
    assert FirstFit([IntLeaf], 3) == None;
    assert FirstFit([IntLeaf], 4) == Some(0);
    assert NextCursor([IntLeaf], 3) == 4 by {
      assert NextCursor([IntLeaf], 4) == 4;
    }
    assert RemoveAt([IntLeaf], 0) == [];
    GreedyStep([IntLeaf], 0, 3, 4, 0, [], 8);
    g := Greedy([IntLeaf, BoolLeaf], 0, 2);
  }

  /** With equal sizes the union keeps the later leaf. */
  lemma WidestKeepsLaterOnTie()
    ensures AllLeaves([Atomic("a", 4, 1), Atomic("b", 4, 2)])
    ensures Widest([Atomic("a", 4, 1), Atomic("b", 4, 2)]) == Atomic("b", 4, 2)
  {
    assert ReduceWidest([Atomic("a", 4, 1), Atomic("b", 4, 2)], 0, 1) == 1;
  }

  const Bar := Struct("bar", BarTypes)
  const UFooBar := Union("ufoobar", [Int])
  const SFooBar := Struct("sfoobar", [UFooBar])
  const Program4 := [Foo, Int, Bool, Bar]
  const Program5 := [Foo, Int, Bool, Bar, UFooBar]
  const Program6 := [Foo, Int, Bool, Bar, UFooBar, SFooBar]

  /** The program the layout tests build: three atomics, `bar`, and the union `ufoobar` over `bar`, `int`, `bool`. */
  method BuildTestProgram() returns (reg: Registry)
    ensures reg.program == Program6 && reg.Valid()
  {
    reg := BuildAtomics();
    AddBar(reg);
    AddUnionAndStruct(reg);
  }

  /** `foo`, `int` and `bool`, registered in that order. */
  method BuildAtomics() returns (reg: Registry)
    ensures fresh(reg) && reg.program == BarTypes && reg.Valid()
  {
    reg := new Registry();
    FreshAtomics();
    var r := reg.NewAtomic("foo", 2, 2);
    assert reg.program == [Foo];
    r := reg.NewAtomic("int", 4, 4);
    assert reg.program == [Foo, Int];
    r := reg.NewAtomic("bool", 1, 1);
  }

  /** The struct `bar` over `foo`, `int`, `bool`. */
  method AddBar(reg: Registry)
    requires reg.program == BarTypes && reg.Valid()
    modifies reg
    ensures reg.program == Program4 && reg.Valid()
  {
    BarDefined();
    var r := reg.NewStruct("bar", ["foo", "int", "bool"]);
    BarResolves();
  }

  /** The union `ufoobar` over `bar`, `int`, `bool`, then the struct `sfoobar` over `ufoobar`. */
  method AddUnionAndStruct(reg: Registry)
    requires reg.program == Program4 && reg.Valid()
    modifies reg
    ensures reg.program == Program6 && reg.Valid()
  {
    UFooBarDefined();
    var r := reg.NewUnion("ufoobar", ["bar", "int", "bool"]);
    UFooBarMember();
    assert reg.program == Program5;
    SFooBarDefined();
    r := reg.NewStruct("sfoobar", ["ufoobar"]);
    SFooBarResolves();
  }

  lemma FreshAtomics()
    ensures !Taken([], "foo") && !Taken([Foo], "int") && !Taken([Foo, Int], "bool")
  {
  }

  lemma BarDefined()
    ensures AllTaken(BarTypes, ["foo", "int", "bool"]) && DistinctNames(BarTypes) && !Taken(BarTypes, "bar")
  {
    assert BarTypes[0].name == "foo" && BarTypes[1].name == "int" && BarTypes[2].name == "bool";
  }

  /** `bar`'s members are the entries `foo`, `int`, `bool`, in that order. */
  lemma BarResolves()
    ensures Resolve(BarTypes, ["foo", "int", "bool"]) == BarTypes
  {
    BarDefined();
    MatchesOfDistinct(BarTypes, "foo", 0);
    MatchesOfDistinct(BarTypes, "int", 1);
    MatchesOfDistinct(BarTypes, "bool", 2);
    ResolveSnoc(BarTypes, ["foo"], [], "foo");
    ResolveSnoc(BarTypes, ["foo", "int"], ["foo"], "int");
    ResolveSnoc(BarTypes, ["foo", "int", "bool"], ["foo", "int"], "bool");
  }

  lemma UFooBarDefined()
    ensures AllTaken(Program4, ["bar", "int", "bool"])
    ensures !Taken(Program4, "ufoobar")
    ensures DistinctNames(Program4)
    ensures ListedWellFormed(Program4, ["bar", "int", "bool"])
  {
    var p := Program4;
    assert p[3].name == "bar" && p[1].name == "int" && p[2].name == "bool";
    BarWellFormed();
    assert WellFormed(Bar);
  }

  /**
   * The union over `bar`, `int` and `bool` flattens to `foo, int, bool, int,
   * bool` and keeps `int`, the widest; of its two occurrences the later one.
   */
  lemma UFooBarMember()
    ensures AllTaken(Program4, ["bar", "int", "bool"])
    ensures ListedWellFormed(Program4, ["bar", "int", "bool"])
    ensures UnionMember(Program4, ["bar", "int", "bool"]) == Int
  {
    UFooBarResolves();
    var leaves := UFooBarLeaves();
    WidestOfUFooBar(leaves);
  }

  /** The union's members are the entries `bar`, `int`, `bool`. */
  lemma UFooBarResolves()
    ensures AllTaken(Program4, ["bar", "int", "bool"])
    ensures ListedWellFormed(Program4, ["bar", "int", "bool"])
    ensures Resolve(Program4, ["bar", "int", "bool"]) == [Bar, Int, Bool]
  {
    UFooBarDefined();
    var p := Program4;
    MatchesOfDistinct(p, "bar", 3);
    MatchesOfDistinct(p, "int", 1);
    MatchesOfDistinct(p, "bool", 2);
    ResolveSnoc(p, ["bar"], [], "bar");
    ResolveSnoc(p, ["bar", "int"], ["bar"], "int");
    ResolveSnoc(p, ["bar", "int", "bool"], ["bar", "int"], "bool");
  }

  /** The `reduce` over `foo, int, bool, int, bool` ends at the second `int`: it is widest and nothing after it is as wide. */
  lemma WidestOfUFooBar(leaves: seq<Type>)
    requires leaves == [Foo, Int, Bool, Int, Bool]
    ensures AllLeaves(leaves) && Widest(leaves) == Int
  {
    assert IsLeaf(Foo) && IsLeaf(Int) && IsLeaf(Bool);
    var w := ReduceWidest(leaves, 0, 1);
    assert leaves[1].rep <= leaves[w].rep;
    assert w == 1 || w == 3;
    assert leaves[3].rep <= leaves[w].rep;
    assert w == 3;
  }

  lemma UFooBarLeaves() returns (leaves: seq<Type>)
    ensures WellFormedSeq([Bar, Int, Bool])
    ensures leaves == Flatten([Bar, Int, Bool]) && leaves == [Foo, Int, Bool, Int, Bool]
  {
    BarWellFormed();
    assert WellFormed(Bar);
    FlattenOfLeaves(BarTypes);
    FlattenOfLeaves([Int, Bool]);
    FlattenCons([Bar, Int, Bool], Bar, [Int, Bool]);
    leaves := Flatten([Bar, Int, Bool]);
  }

  lemma SFooBarDefined()
    ensures AllTaken(Program5, ["ufoobar"])
    ensures !Taken(Program5, "sfoobar")
    ensures DistinctNames(Program5)
  {
    var p := Program5;
    assert p[4].name == "ufoobar";
  }

  lemma SFooBarResolves()
    ensures Resolve(Program5, ["ufoobar"]) == [UFooBar]
  {
    SFooBarDefined();
    MatchesOfDistinct(Program5, "ufoobar", 4);
    ResolveSnoc(Program5, ["ufoobar"], [], "ufoobar");
  }

  /** `ufoobar` and `sfoobar` each lay out as the single block `[0,4]`, unpacked. */
  lemma UnionUnpacked()
    ensures WellFormedSeq(UFooBar.types) && WellFormedSeq(SFooBar.types)
    ensures Unpacked(UFooBar.types) == [Block(0, 4)] && Unpacked(SFooBar.types) == [Block(0, 4)]
  {
    assert WellFormed(Int) && WellFormed(UFooBar);
    UnpackedRStep([Int], 0, Int, []);
    UnpackedRStep([UFooBar], 0, UFooBar, []);
  }

  /** `ufoobar` and `sfoobar` each lay out as the single block `[0,4]`, packed. */
  lemma UnionPacked()
    ensures WellFormedSeq(UFooBar.types) && WellFormedSeq(SFooBar.types)
    ensures Packed(UFooBar.types) == [Block(0, 4)] && Packed(SFooBar.types) == [Block(0, 4)]
  {
    assert WellFormed(Int) && WellFormed(UFooBar);
    PackedRStep([Int], 0, Int, []);
    PackedRStep([UFooBar], 0, UFooBar, []);
  }

  /** `ufoobar` and `sfoobar` each lay out as the single block `[0,4]`, optimized. */
  lemma UnionOptimized()
    ensures WellFormedSeq(UFooBar.types) && WellFormedSeq(SFooBar.types)
    ensures BlocksOf(OptimizedPlacements(UFooBar.types, 0)) == [Block(0, 4)]
    ensures BlocksOf(OptimizedPlacements(SFooBar.types, 0)) == [Block(0, 4)]
  {
    assert WellFormed(Int) && WellFormed(UFooBar);
    FlattenOfLeaves([Int]);
    FlattenCons([UFooBar], UFooBar, []);
    assert Flatten([UFooBar]) == [Int];
    assert AsLeaves([Int]) == [IntLeaf];
    assert PlaceLeaves([IntLeaf], 0) == [Placement(IntLeaf, 0)];
  }
}
