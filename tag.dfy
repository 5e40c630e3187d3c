/**
 * The NBT tag tree (blocky-nbt/src/tag/mod.rs): the recursive `Tag` union, its kind and the
 * conversions between tags and plain values.
 */
module Tags {
  import opened Ints
  import opened Results
  import K = Kinds

  /**
   * A tag. Floats and doubles are kept as their IEEE-754 bit patterns. A list stores the wire
   * id of its elements (the binary codec's `List(id, items)`); a compound is an ordered
   * sequence of (name, tag) entries.
   */
  datatype Tag =
    | End
    | Byte(b: i8)
    | Short(s: i16)
    | Int(i: i32)
    | Long(l: i64)
    | Float(fbits: u32)
    | Double(dbits: u64)
    | ByteArray(bytes: seq<i8>)
    | String(str: string)
    | List(elemId: u8, items: seq<Tag>)
    | Compound(entries: seq<(string, Tag)>)
    | IntArray(ints: seq<i32>)
    | LongArray(longs: seq<i64>)

  /**
   * `Tag::kind`. A list's kind carries the id of its FIRST element's kind (0 when empty);
   * the stored element id and the later elements are not consulted.
   */
  function KindOf(t: Tag): (k: K.Kind)
    ensures k.List? <==> t.List?
    ensures k == K.End <==> t.End?
  {
    match t
    case End => K.End
    case Byte(_) => K.Byte
    case Short(_) => K.Short
    case Int(_) => K.Int
    case Long(_) => K.Long
    case Float(_) => K.Float
    case Double(_) => K.Double
    case ByteArray(_) => K.ByteArray
    case String(_) => K.String
    case List(_, items) => K.List(if |items| == 0 then K.Id(K.End) else K.Id(KindOf(items[0])))
    case Compound(_) => K.Compound
    case IntArray(_) => K.IntArray
    case LongArray(_) => K.LongArray
  }

  /** Both tags are built by the same variant, whatever their payloads. */
  predicate SameVariant(t: Tag, u: Tag) {
    (t.End? && u.End?) || (t.Byte? && u.Byte?) || (t.Short? && u.Short?) || (t.Int? && u.Int?)
    || (t.Long? && u.Long?) || (t.Float? && u.Float?) || (t.Double? && u.Double?)
    || (t.ByteArray? && u.ByteArray?) || (t.String? && u.String?) || (t.List? && u.List?)
    || (t.Compound? && u.Compound?) || (t.IntArray? && u.IntArray?) || (t.LongArray? && u.LongArray?)
  }

  /** The kind of a non-list tag depends only on its variant, never on its payload. */
  lemma KindIgnoresPayload(t: Tag, u: Tag)
    requires !t.List?
    ensures SameVariant(t, u) <==> KindOf(t) == KindOf(u)
  {
  }

  /** The kind id of any tag is the wire id of its variant, in declaration order. */
  lemma KindIdIsVariantIndex(t: Tag)
    ensures K.Id(KindOf(t)) == VariantIndex(t)
  {
  }

  /** The position of the tag's variant in the declaration of `Tag`. */
  function VariantIndex(t: Tag): (n: nat)
    ensures n <= 12
  {
    if t.End? then 0 else if t.Byte? then 1 else if t.Short? then 2 else if t.Int? then 3
    else if t.Long? then 4 else if t.Float? then 5 else if t.Double? then 6
    else if t.ByteArray? then 7 else if t.String? then 8 else if t.List? then 9
    else if t.Compound? then 10 else if t.IntArray? then 11 else 12
  }

  /**
   * A list's kind is determined by its first element alone: two lists whose first elements
   * have the same kind (or that are both empty) have the same kind.
   */
  lemma ListKindFromFirst(a: Tag, b: Tag)
    requires a.List? && b.List?
    requires (|a.items| == 0 && |b.items| == 0)
             || (|a.items| > 0 && |b.items| > 0 && KindOf(a.items[0]) == KindOf(b.items[0]))
    ensures KindOf(a) == KindOf(b)
  {
  }

  lemma EmptyListKind(id: u8)
    ensures KindOf(List(id, [])) == K.List(0)
  {
  }

  lemma ListKindOfNonEmpty(id: u8, items: seq<Tag>)
    requires |items| > 0
    ensures KindOf(List(id, items)) == K.List(K.Id(KindOf(items[0])))
    ensures forall later: seq<Tag> :: KindOf(List(id, [items[0]] + later)) == KindOf(List(id, items))
  {
  }

  /** The ten plain value types with conversions to and from tags (`into_tags!`). */
  datatype Primitive =
    | I8(i8v: i8)
    | I16(i16v: i16)
    | I32(i32v: i32)
    | I64(i64v: i64)
    | F32(f32bits: u32)
    | F64(f64bits: u64)
    | Str(s: string)
    | I8s(i8vs: seq<i8>)
    | I32s(i32vs: seq<i32>)
    | I64s(i64vs: seq<i64>)

  datatype PrimitiveType = I8T | I16T | I32T | I64T | F32T | F64T | StrT | I8sT | I32sT | I64sT

  function TypeOf(p: Primitive): PrimitiveType {
    match p
    case I8(_) => I8T
    case I16(_) => I16T
    case I32(_) => I32T
    case I64(_) => I64T
    case F32(_) => F32T
    case F64(_) => F64T
    case Str(_) => StrT
    case I8s(_) => I8sT
    case I32s(_) => I32sT
    case I64s(_) => I64sT
  }

  /** `Into<Tag>` for each plain type: wrap the value in its variant. */
  function IntoTag(p: Primitive): (t: Tag)
    ensures !t.End? && !t.List? && !t.Compound?
  {
    match p
    case I8(v) => Byte(v)
    case I16(v) => Short(v)
    case I32(v) => Int(v)
    case I64(v) => Long(v)
    case F32(v) => Float(v)
    case F64(v) => Double(v)
    case Str(v) => String(v)
    case I8s(v) => ByteArray(v)
    case I32s(v) => IntArray(v)
    case I64s(v) => LongArray(v)
  }

  /** The source panics with "cannot convert tag". */
  datatype ConversionError = CannotConvert

  /**
   * `Into<T> for Tag` and `Into<T> for &Tag` (both behave alike): unwrap the value when the
   * tag has the variant of `ty`, fail otherwise.
   */
  function Narrow(t: Tag, ty: PrimitiveType): (r: Result<Primitive, ConversionError>)
    ensures r.Ok? ==> TypeOf(r.value) == ty && IntoTag(r.value) == t
    ensures r.Err? ==> forall p: Primitive :: TypeOf(p) == ty ==> IntoTag(p) != t
  {
    match (t, ty)
    case (Byte(v), I8T) => Ok(I8(v))
    case (Short(v), I16T) => Ok(I16(v))
    case (Int(v), I32T) => Ok(I32(v))
    case (Long(v), I64T) => Ok(I64(v))
    case (Float(v), F32T) => Ok(F32(v))
    case (Double(v), F64T) => Ok(F64(v))
    case (String(v), StrT) => Ok(Str(v))
    case (ByteArray(v), I8sT) => Ok(I8s(v))
    case (IntArray(v), I32sT) => Ok(I32s(v))
    case (LongArray(v), I64sT) => Ok(I64s(v))
    case _ => Err(CannotConvert)
  }

  /** value -> Tag -> value is the identity for each of the ten types. */
  lemma NarrowIntoTag(p: Primitive)
    ensures Narrow(IntoTag(p), TypeOf(p)) == Ok(p)
  {
  }

  /** Narrowing to any other type fails. */
  lemma NarrowOtherTypeFails(p: Primitive, ty: PrimitiveType)
    requires ty != TypeOf(p)
    ensures Narrow(IntoTag(p), ty) == Err(CannotConvert)
  {
  }

  /** Tags that are not produced by any conversion (End, List, Compound) never narrow. */
  lemma NarrowStructuralFails(t: Tag, ty: PrimitiveType)
    requires t.End? || t.List? || t.Compound?
    ensures Narrow(t, ty).Err?
  {
  }
}
