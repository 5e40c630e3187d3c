/** The discriminant of a tag and its wire id (blocky-nbt/src/tag/kind.rs). */
module Kinds {
  import opened Ints

  /** `List` carries the wire id of its element kind. */
  datatype Kind =
    | End | Byte | Short | Int | Long | Float | Double
    | ByteArray | String | List(elem: u8) | Compound | IntArray | LongArray

  /** `Kind::id`: the one-byte wire id of a kind. */
  function Id(k: Kind): (id: u8)
    ensures id <= 12
  {
    match k
    case End => 0
    case Byte => 1
    case Short => 2
    case Int => 3
    case Long => 4
    case Float => 5
    case Double => 6
    case ByteArray => 7
    case String => 8
    case List(_) => 9
    case Compound => 10
    case IntArray => 11
    case LongArray => 12
  }

  /** `Into<u8> for Kind`. */
  function IntoU8(k: Kind): (b: u8)
    ensures b == Id(k)
  {
    Id(k)
  }

  /** The variants in declaration order (the List payload is arbitrary). */
  const Declared: seq<Kind> :=
    [End, Byte, Short, Int, Long, Float, Double, ByteArray, String, List(0), Compound, IntArray, LongArray]

  /** The ids are 0..12 in declaration order. */
  lemma IdsFollowDeclarationOrder()
    ensures |Declared| == 13
    ensures forall i :: 0 <= i < |Declared| ==> Id(Declared[i]) == i
  {
  }

  /** Two kinds share an id exactly when they are equal or both lists: the list payload never reaches the id. */
  lemma IdsDistinct(a: Kind, b: Kind)
    ensures Id(a) == Id(b) <==> a == b || (a.List? && b.List?)
  {
  }

  lemma ListIdIgnoresElement(x: u8)
    ensures Id(List(x)) == 9
  {
  }
}
