/** The entities of the register model (src/registers/registers.types.ts). */
module RegisterTypes {

  /** The conventional optional value, used where the source yields `undefined`. */
  datatype Option<T> = None | Some(value: T)

  /**
   * A registered type. An atomic type is a name, a size `rep` in bytes and an
   * alignment; a struct and a union have the identical shape `{ name, types }`,
   * so only the constructor used to build them tells them apart. Composite
   * members are themselves types, so types nest (union in struct, struct in union).
   */
  datatype Type =
    | Atomic(name: string, rep: nat, alignment: nat)
    | Struct(name: string, types: seq<Type>)
    | Union(name: string, types: seq<Type>)

  /**
   * A type the layouts can work on: every atomic has a positive size and a
   * positive alignment, and every composite has at least one member.
   */
  predicate WellFormed(t: Type)
    decreases t
  {
    match t
    case Atomic(_, rep, alignment) => rep >= 1 && alignment >= 1
    case Struct(_, types) => types != [] && forall i :: 0 <= i < |types| ==> WellFormed(types[i])
    case Union(_, types) => types != [] && forall i :: 0 <= i < |types| ==> WellFormed(types[i])
  }

  predicate WellFormedSeq(ts: seq<Type>)
  {
    forall i :: 0 <= i < |ts| ==> WellFormed(ts[i])
  }

  /** A well-formed atomic type: what the flattening of a member list is made of. */
  predicate IsLeaf(t: Type)
  {
    t.Atomic? && t.rep >= 1 && t.alignment >= 1
  }

  predicate AllLeaves(ts: seq<Type>)
  {
    forall i :: 0 <= i < |ts| ==> IsLeaf(ts[i])
  }
}
