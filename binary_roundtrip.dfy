/**
 * The binary format round trip: what `encode_nbt` writes, `decode_nbt` reads back as the same
 * name and tag, whatever bytes follow. It holds for the tags the format represents exactly:
 * no End anywhere (the encoder panics on a written End and skips an End compound value),
 * list elements of the list's stored element id, lengths that fit their prefixes (an i16
 * string length, a u16 name length, i32 counts) and compounds without repeated keys.
 */
module BinaryRoundTrip {
  import opened Ints
  import opened Results
  import opened Tags
  import Utf8
  import K = Kinds
  import M = OrderedMap
  import E = Encoder
  import D = Decoder

  /** A name whose UTF-8 length fits the u16 prefix. */
  predicate NameFits(name: string) {
    |Utf8.Encode(name)| < 0x1_0000
  }

  /** The id byte that announces a tag of this kind on the wire. */
  function WireId(t: Tag): u8 {
    K.Id(KindOf(t))
  }

  /** A string whose UTF-8 length fits the i16 prefix. */
  predicate StringFits(s: string) {
    |Utf8.Encode(s)| < 0x8000
  }

  /** The tags the wire format represents exactly. */
  predicate Representable(t: Tag)
    decreases t
  {
    match t
    case End => false
    case String(s) => StringFits(s)
    case List(id, items) =>
      |items| < 0x8000_0000 && forall i :: 0 <= i < |items| ==> Representable(items[i]) && WireId(items[i]) == id
    case Compound(m) =>
      M.UniqueKeys(m) && forall i :: 0 <= i < |m| ==> NameFits(m[i].0) && Representable(m[i].1)
    case ByteArray(v) => |v| < 0x8000_0000
    case IntArray(v) => |v| < 0x8000_0000
    case LongArray(v) => |v| < 0x8000_0000
    case _ => true
  }

/**
   * `Representable`, as the lemmas below require it of the tags they read back: a predicate
   * that is not recursive, so that the requirement is passed on to them as it stands.
   */
  predicate TagOk(t: Tag) {
    Representable(t)
  }

  /** A list element: representable, with the list's element id as its own kind id. */
  predicate ItemOk(items: seq<Tag>, i: nat, id: u8)
    requires i < |items|
  {
    TagOk(items[i]) && WireId(items[i]) == id
  }

  /** A compound entry: a name that fits its prefix and a representable value. */
  predicate EntryOk(m: seq<(string, Tag)>, i: nat)
    requires i < |m|
  {
    NameFits(m[i].0) && TagOk(m[i].1)
  }

  /** A representable tag is one the encoder writes without panicking. */
  lemma {:induction false} RepresentableEncodable(t: Tag)
    requires Representable(t)
    ensures E.Encodable(t)
    decreases t
  {
    match t
    case List(id, items) =>
      forall i | 0 <= i < |items|
        ensures E.Encodable(items[i])
      {
        assert ItemOk(items, i, id);
        RepresentableEncodable(items[i]);
      }
    case Compound(m) =>
      forall i | 0 <= i < |m|
        ensures m[i].1.End? || E.Encodable(m[i].1)
      {
        assert EntryOk(m, i);
        assert m[i].1 < m[i];
        RepresentableEncodable(m[i].1);
      }
    case _ =>
  }

  /** The bytes `b` occur in `data` at offset `pos`. */
  predicate Holds(data: seq<u8>, pos: nat, b: seq<u8>) {
    pos + |b| <= |data| && data[pos..pos + |b|] == b
  }

  lemma HoldsSplit(data: seq<u8>, pos: nat, a: seq<u8>, b: seq<u8>)
    requires Holds(data, pos, a + b)
    ensures Holds(data, pos, a) && Holds(data, pos + |a|, b)
  {
    var ab := data[pos..pos + |a| + |b|];
    assert data[pos..pos + |a|] == ab[..|a|];
    assert data[pos + |a|..pos + |a| + |b|] == ab[|a|..];
  }

  /** `HoldsSplit` for a sequence known to be `a + b`. */
  lemma Split(data: seq<u8>, pos: nat, ab: seq<u8>, a: seq<u8>, b: seq<u8>)
    requires Holds(data, pos, ab) && ab == a + b
    ensures Holds(data, pos, a) && Holds(data, pos + |a|, b)
  {
    HoldsSplit(data, pos, a, b);
  }

  /*
   * The lemmas below state their facts through the following functions and predicates, none
   * of them recursive, so that a fact one lemma proves is exactly the fact the next one needs:
   * a recursive function in a contract would be unfolded once more wherever the fact is passed on.
   */

  /** What `encode_tag` writes for `t`. */
  function Payload(t: Tag): seq<u8> {
    E.TagBytes(t)
  }

  /** What `encode_nbt` writes for `name` and `t`. */
  function Named(name: string, t: Tag): seq<u8> {
    E.NamedBytes(name, t)
  }

  /** The elements of a typed array from index `k` on. */
  function Elements(v: seq<int>, width: nat, k: nat): seq<u8>
    requires AllFit(v, width) && k <= |v|
  {
    E.ArrayBytes(v[k..], width)
  }

  /** The list elements from index `k` on. */
  function ItemsFrom(items: seq<Tag>, k: nat): seq<u8>
    requires k <= |items|
  {
    E.ItemsBytes(items[k..])
  }

  /** The bytes the compound loop reads from entry `k` on: the remaining named tags, then End. */
  function Rest(m: seq<(string, Tag)>, k: nat): seq<u8>
    requires k <= |m|
  {
    E.EntriesBytes(m[k..]) + [0]
  }

  /** `decode_tag` with id `id` at `pos` yields `r`. */
  predicate TagYield(data: seq<u8>, pos: nat, id: u8, r: D.Read<Tag>) {
    pos <= |data| && D.TagAt(data, pos, id) == r
  }

  /** `decode_nbt` at `pos` yields `r`. */
  predicate NamedYield(data: seq<u8>, pos: nat, r: D.Read<(string, Tag)>) {
    pos <= |data| && D.NamedAt(data, pos) == r
  }

  /** The typed-array loop, `n` more elements after `acc`, yields `r`. */
  predicate ElementsYield(data: seq<u8>, pos: nat, width: nat, n: nat, acc: seq<int>, r: D.Read<seq<int>>) {
    pos <= |data| && width > 0 && AllFit(acc, width) && D.ArrayAt(data, pos, width, n, acc) == r
  }

  /** The list loop, `n` more elements of id `id` after `acc`, yields `r`. */
  predicate ItemsYield(data: seq<u8>, pos: nat, id: u8, n: nat, acc: seq<Tag>, r: D.Read<seq<Tag>>) {
    pos <= |data| && D.ItemsAt(data, pos, id, n, acc) == r
  }

  /** The compound loop, after the entries `acc`, yields `r`. */
  predicate EntriesYield(data: seq<u8>, pos: nat, acc: seq<(string, Tag)>, r: D.Read<Tag>) {
    pos <= |data| && D.EntriesAt(data, pos, acc) == r
  }

  lemma ReadByte(data: seq<u8>, pos: nat, x: u8)
    requires Holds(data, pos, [x])
    ensures D.UnsignedAt(data, pos, 1) == Ok((x as nat, pos + 1))
  {
    assert FromBE([x]) == x by {
      assert [x][..0] == [];
    }
  }

  lemma ReadUnsigned(data: seq<u8>, pos: nat, x: nat, width: nat)
    requires x < Pow256(width) && Holds(data, pos, ToBE(x, width))
    ensures D.UnsignedAt(data, pos, width) == Ok((x, pos + width))
  {
    FromToBE(x, width);
  }

  lemma ReadSigned(data: seq<u8>, pos: nat, x: int, width: nat)
    requires FitsSigned(x, width) && Holds(data, pos, SignedBE(x, width))
    ensures D.SignedAt(data, pos, width) == Ok((x, pos + width))
  {
    SignedFromToBE(x, width);
  }

  /** A string payload: the i16 length, then the UTF-8 bytes. */
  lemma ReadString(data: seq<u8>, pos: nat, s: string)
    requires StringFits(s) && Holds(data, pos, Payload(String(s)))
    ensures D.StringAt(data, pos) == Ok((s, pos + |Payload(String(s))|))
  {
    var b := Utf8.Encode(s);
    StringBytes(s);
    Split(data, pos, Payload(String(s)), SignedBE(|b|, 2), b);
    ReadSigned(data, pos, |b|, 2);
    Utf8.DecodeEncode(s);
    StringAtStep(data, pos, b, s);
  }

  lemma StringBytes(s: string)
    requires StringFits(s)
    ensures FitsSigned(|Utf8.Encode(s)|, 2)
    ensures Payload(String(s)) == SignedBE(|Utf8.Encode(s)|, 2) + Utf8.Encode(s)
  {
    Pow256Values();
    HalfValues();
  }

  lemma StringAtStep(data: seq<u8>, pos: nat, b: seq<u8>, s: string)
    requires pos + 2 + |b| <= |data|
    requires D.SignedAt(data, pos, 2) == Ok((|b|, pos + 2))
    requires data[pos + 2..pos + 2 + |b|] == b && Utf8.Decode(b) == Some(s)
    ensures D.StringAt(data, pos) == Ok((s, pos + 2 + |b|))
  {
  }

  /** What `encode_nbt` writes for a name: the u16 length, then the UTF-8 bytes. */
  function NameBytes(name: string): seq<u8> {
    Pow256Values();
    ToBE(WrapU16(|Utf8.Encode(name)|), 2) + Utf8.Encode(name)
  }

  /** A name: the u16 length, then the UTF-8 bytes; a zero length is the empty name. */
  lemma ReadName(data: seq<u8>, pos: nat, name: string, e: nat)
    requires NameFits(name) && Holds(data, pos, NameBytes(name)) && e == pos + |NameBytes(name)|
    ensures D.NameAt(data, pos) == Ok((name, e))
  {
    Pow256Values();
    var b := Utf8.Encode(name);
    assert WrapU16(|b|) == |b|;
    Split(data, pos, NameBytes(name), ToBE(|b|, 2), b);
    ReadUnsigned(data, pos, |b|, 2);
    if |b| == 0 {
      assert name == "";
    } else {
      Utf8.DecodeEncode(name);
    }
  }

  /** A named tag is its id byte, its name and its payload, one after the other. */
  lemma NamedSplit(data: seq<u8>, pos: nat, name: string, t: Tag)
    requires Holds(data, pos, Named(name, t))
    ensures Holds(data, pos, [WireId(t)]) && Holds(data, pos + 1, NameBytes(name))
    ensures Holds(data, pos + 1 + |NameBytes(name)|, Payload(t))
    ensures |Named(name, t)| == 1 + |NameBytes(name)| + |Payload(t)|
  {
    assert Named(name, t) == [WireId(t)] + NameBytes(name) + Payload(t);
    Split(data, pos, Named(name, t), [WireId(t)] + NameBytes(name), Payload(t));
    HoldsSplit(data, pos, [WireId(t)], NameBytes(name));
  }

  /** The typed-array loop reads the elements from index `k` on after the first `k`. */
  lemma {:induction false} ReadElements(data: seq<u8>, pos: nat, v: seq<int>, width: nat, k: nat, e: nat)
    requires width > 0 && AllFit(v, width) && k <= |v|
    requires Holds(data, pos, Elements(v, width, k)) && e == pos + |Elements(v, width, k)|
    ensures ElementsYield(data, pos, width, |v| - k, v[..k], Ok((v, e)))
    decreases |v| - k
  {
    if k == |v| {
      assert v[..k] == v && v[k..] == [];
    } else {
      ElementsNext(data, pos, v, width, k);
      ReadSigned(data, pos, v[k], width);
      ReadElements(data, pos + width, v, width, k + 1, e);
      assert v[..k] + [v[k]] == v[..k + 1];
      ElementStep(data, pos, width, |v| - k, v[..k], v[k], v[..k + 1], Ok((v, e)));
    }
  }

  lemma ElementsNext(data: seq<u8>, pos: nat, v: seq<int>, width: nat, k: nat)
    requires AllFit(v, width) && k < |v| && Holds(data, pos, Elements(v, width, k))
    ensures Holds(data, pos, SignedBE(v[k], width)) && Holds(data, pos + width, Elements(v, width, k + 1))
    ensures |Elements(v, width, k)| == width + |Elements(v, width, k + 1)|
  {
    assert v[k..][1..] == v[k + 1..];
    assert Elements(v, width, k) == SignedBE(v[k], width) + Elements(v, width, k + 1);
    Split(data, pos, Elements(v, width, k), SignedBE(v[k], width), Elements(v, width, k + 1));
  }

  lemma ElementStep(data: seq<u8>, pos: nat, width: nat, n: nat, acc: seq<int>, x: int, acc': seq<int>, r: D.Read<seq<int>>)
    requires n > 0 && pos <= |data| && width > 0 && AllFit(acc, width)
    requires D.SignedAt(data, pos, width) == Ok((x, pos + width)) && acc + [x] == acc'
    requires ElementsYield(data, pos + width, width, n - 1, acc', r)
    ensures ElementsYield(data, pos, width, n, acc, r)
  {
  }

  /** A typed-array payload: the i32 count, then the elements. */
  lemma ReadArray(data: seq<u8>, pos: nat, v: seq<int>, width: nat)
    requires width > 0 && AllFit(v, width) && |v| < 0x8000_0000
    requires Holds(data, pos, E.CountBytes(|v|) + Elements(v, width, 0))
    ensures D.ArrayPayloadAt(data, pos, width) == Ok((v, pos + 4 + |Elements(v, width, 0)|))
  {
    HalfValues();
    HoldsSplit(data, pos, E.CountBytes(|v|), Elements(v, width, 0));
    ReadSigned(data, pos, |v|, 4);
    assert v[..0] == [];
    var e := pos + 4 + |Elements(v, width, 0)|;
    ReadElements(data, pos + 4, v, width, 0, e);
    PayloadStep(data, pos, width, |v|, v, e);
  }

  lemma PayloadStep(data: seq<u8>, pos: nat, width: nat, n: nat, v: seq<int>, e: nat)
    requires pos <= |data| && width > 0
    requires D.SignedAt(data, pos, 4) == Ok((n, pos + 4))
    requires ElementsYield(data, pos + 4, width, n, [], Ok((v, e)))
    ensures D.ArrayPayloadAt(data, pos, width) == Ok((v, e))
  {
  }

  /** How the decoder's functions unfold once the reads they start with are known. */
  lemma NamedStep(data: seq<u8>, pos: nat, id: u8, name: string, q: nat, t: Tag, e: nat, e': nat)
    requires pos <= |data| && id != 0
    requires D.UnsignedAt(data, pos, 1) == Ok((id as nat, pos + 1))
    requires D.NameAt(data, pos + 1) == Ok((name, q))
    requires TagYield(data, q, id, Ok((t, e))) && e' == e
    ensures NamedYield(data, pos, Ok(((name, t), e')))
  {
  }

  lemma NamedEnd(data: seq<u8>, pos: nat)
    requires pos <= |data| && D.UnsignedAt(data, pos, 1) == Ok((0, pos + 1))
    ensures NamedYield(data, pos, Ok((("", End), pos + 1)))
  {
  }

  lemma EntriesEnd(data: seq<u8>, pos: nat, acc: seq<(string, Tag)>, name: string, t: Tag, p: nat)
    requires NamedYield(data, pos, Ok(((name, t), p))) && t.End?
    ensures EntriesYield(data, pos, acc, Ok((Compound(acc), p)))
  {
  }

  lemma EntryStep(data: seq<u8>, pos: nat, m: seq<(string, Tag)>, k: nat, name: string, t: Tag, p: nat,
                  r: D.Read<Tag>)
    requires k < |m| && M.UniqueKeys(m) && name == m[k].0 && t == m[k].1 && !t.End?
    requires NamedYield(data, pos, Ok(((name, t), p))) && EntriesYield(data, p, m[..k + 1], r)
    ensures EntriesYield(data, pos, m[..k], r)
  {
    PutBackNext(m, k, name, t);
  }

  lemma ItemStep(data: seq<u8>, pos: nat, id: u8, n: nat, acc: seq<Tag>, t: Tag, p: nat, acc': seq<Tag>,
                 r: D.Read<seq<Tag>>)
    requires n > 0 && TagYield(data, pos, id, Ok((t, p))) && acc + [t] == acc'
    requires ItemsYield(data, p, id, n - 1, acc', r)
    ensures ItemsYield(data, pos, id, n, acc, r)
  {
  }

  lemma ListStep(data: seq<u8>, pos: nat, id: u8, n: nat, items: seq<Tag>, e: nat)
    requires pos + 5 <= |data|
    requires D.UnsignedAt(data, pos, 1) == Ok((id as nat, pos + 1))
    requires D.SignedAt(data, pos + 1, 4) == Ok((n, pos + 5))
    requires ItemsYield(data, pos + 5, id, n, [], Ok((items, e)))
    ensures TagYield(data, pos, 9, Ok((List(id, items), e)))
  {
  }

  lemma CompoundStep(data: seq<u8>, pos: nat, r: D.Read<Tag>)
    requires EntriesYield(data, pos, [], r)
    ensures TagYield(data, pos, 10, r)
  {
  }

  lemma StringStep(data: seq<u8>, pos: nat, s: string, e: nat)
    requires pos <= |data| && D.StringAt(data, pos) == Ok((s, e))
    ensures TagYield(data, pos, 8, Ok((String(s), e)))
  {
  }

  /** The fixed-width payloads read back as the tag that wrote them. */
  lemma ReadScalar(data: seq<u8>, pos: nat, t: Tag)
    requires t.Byte? || t.Short? || t.Int? || t.Long? || t.Float? || t.Double?
    requires Holds(data, pos, Payload(t))
    ensures TagYield(data, pos, WireId(t), Ok((t, pos + |Payload(t)|)))
  {
    Pow256Values();
    HalfValues();
    match t
    case Byte(v) => ReadSigned(data, pos, v, 1);
    case Short(v) => ReadSigned(data, pos, v, 2);
    case Int(v) => ReadSigned(data, pos, v, 4);
    case Long(v) => ReadSigned(data, pos, v, 8);
    case Float(v) => ReadUnsigned(data, pos, v, 4);
    case Double(v) => ReadUnsigned(data, pos, v, 8);
  }

  /** The typed-array arms of `decode_tag`, once the payload is read. */
  lemma ArrayStep(data: seq<u8>, pos: nat, id: u8, v: seq<int>, e: nat)
    requires pos <= |data| && (id == 7 || id == 11 || id == 12)
    requires D.ArrayPayloadAt(data, pos, if id == 7 then 1 else if id == 11 then 4 else 8) == Ok((v, e))
    ensures TagYield(data, pos, id, Ok((if id == 7 then ByteArray(v) else if id == 11 then IntArray(v) else LongArray(v), e)))
  {
  }

  /** The typed arrays read back as the array that wrote them. */
  lemma ReadByteArray(data: seq<u8>, pos: nat, v: seq<i8>)
    requires |v| < 0x8000_0000 && Holds(data, pos, Payload(ByteArray(v)))
    ensures TagYield(data, pos, 7, Ok((ByteArray(v), pos + |Payload(ByteArray(v))|)))
  {
    TypedFit(v, [], []);
    assert v[0..] == v;
    assert Payload(ByteArray(v)) == E.CountBytes(|v|) + Elements(v, 1, 0);
    ReadArray(data, pos, v, 1);
    ArrayStep(data, pos, 7, v, pos + 4 + |Elements(v, 1, 0)|);
  }

  lemma ReadIntArray(data: seq<u8>, pos: nat, v: seq<i32>)
    requires |v| < 0x8000_0000 && Holds(data, pos, Payload(IntArray(v)))
    ensures TagYield(data, pos, 11, Ok((IntArray(v), pos + |Payload(IntArray(v))|)))
  {
    TypedFit([], v, []);
    assert v[0..] == v;
    assert Payload(IntArray(v)) == E.CountBytes(|v|) + Elements(v, 4, 0);
    ReadArray(data, pos, v, 4);
    ArrayStep(data, pos, 11, v, pos + 4 + |Elements(v, 4, 0)|);
  }

  lemma ReadLongArray(data: seq<u8>, pos: nat, v: seq<i64>)
    requires |v| < 0x8000_0000 && Holds(data, pos, Payload(LongArray(v)))
    ensures TagYield(data, pos, 12, Ok((LongArray(v), pos + |Payload(LongArray(v))|)))
  {
    TypedFit([], [], v);
    assert v[0..] == v;
    assert Payload(LongArray(v)) == E.CountBytes(|v|) + Elements(v, 8, 0);
    ReadArray(data, pos, v, 8);
    ArrayStep(data, pos, 12, v, pos + 4 + |Elements(v, 8, 0)|);
  }

  /** `decode_tag` reads back the payload `encode_tag` wrote, under the tag's own id. */
  lemma {:induction false} ReadTag(data: seq<u8>, pos: nat, t: Tag)
    requires TagOk(t) && Holds(data, pos, Payload(t))
    ensures TagYield(data, pos, WireId(t), Ok((t, pos + |Payload(t)|)))
    decreases t, 1
  {
    if t.String? {
      ReadStringTagArm(data, pos, t);
    } else if t.List? {
      ReadListArm(data, pos, t);
    } else if t.Compound? {
      ReadCompoundArm(data, pos, t);
    } else if t.ByteArray? {
      ReadByteArrayArm(data, pos, t);
    } else if t.IntArray? {
      ReadIntArrayArm(data, pos, t);
    } else if t.LongArray? {
      ReadLongArrayArm(data, pos, t);
    } else {
      ReadScalar(data, pos, t);
    }
  }

  lemma {:induction false} ReadStringTagArm(data: seq<u8>, pos: nat, t: Tag)
    requires t.String? && TagOk(t) && Holds(data, pos, Payload(t))
    ensures TagYield(data, pos, WireId(t), Ok((t, pos + |Payload(t)|)))
    decreases t, 0
  {
    ReadStringTag(data, pos, t.str);
  }

  lemma {:induction false} ReadListArm(data: seq<u8>, pos: nat, t: Tag)
    requires t.List? && TagOk(t) && Holds(data, pos, Payload(t))
    ensures TagYield(data, pos, WireId(t), Ok((t, pos + |Payload(t)|)))
    decreases t, 0
  {
    ReadList(data, pos, t.elemId, t.items);
  }

  lemma {:induction false} ReadCompoundArm(data: seq<u8>, pos: nat, t: Tag)
    requires t.Compound? && TagOk(t) && Holds(data, pos, Payload(t))
    ensures TagYield(data, pos, WireId(t), Ok((t, pos + |Payload(t)|)))
    decreases t, 0
  {
    ReadCompound(data, pos, t.entries);
  }

  lemma {:induction false} ReadByteArrayArm(data: seq<u8>, pos: nat, t: Tag)
    requires t.ByteArray? && TagOk(t) && Holds(data, pos, Payload(t))
    ensures TagYield(data, pos, WireId(t), Ok((t, pos + |Payload(t)|)))
    decreases t, 0
  {
    ReadByteArray(data, pos, t.bytes);
    YieldUnderOwnId(data, pos, t, 7, Ok((t, pos + |Payload(t)|)));
  }

  lemma {:induction false} ReadIntArrayArm(data: seq<u8>, pos: nat, t: Tag)
    requires t.IntArray? && TagOk(t) && Holds(data, pos, Payload(t))
    ensures TagYield(data, pos, WireId(t), Ok((t, pos + |Payload(t)|)))
    decreases t, 0
  {
    ReadIntArray(data, pos, t.ints);
    YieldUnderOwnId(data, pos, t, 11, Ok((t, pos + |Payload(t)|)));
  }

  lemma {:induction false} ReadLongArrayArm(data: seq<u8>, pos: nat, t: Tag)
    requires t.LongArray? && TagOk(t) && Holds(data, pos, Payload(t))
    ensures TagYield(data, pos, WireId(t), Ok((t, pos + |Payload(t)|)))
    decreases t, 0
  {
    ReadLongArray(data, pos, t.longs);
    YieldUnderOwnId(data, pos, t, 12, Ok((t, pos + |Payload(t)|)));
  }

  /** A tag read under the id that is its own wire id. */
  lemma YieldUnderOwnId(data: seq<u8>, pos: nat, t: Tag, id: u8, r: D.Read<Tag>)
    requires WireId(t) == id && TagYield(data, pos, id, r)
    ensures TagYield(data, pos, WireId(t), r)
  {
  }

  lemma ReadStringTag(data: seq<u8>, pos: nat, s: string)
    requires StringFits(s) && Holds(data, pos, Payload(String(s)))
    ensures TagYield(data, pos, 8, Ok((String(s), pos + |Payload(String(s))|)))
  {
    ReadString(data, pos, s);
    StringStep(data, pos, s, pos + |Payload(String(s))|);
  }

  /** Every element of a list is representable and of the list's element id. */
  predicate ItemsOk(items: seq<Tag>, id: u8) {
    forall i :: 0 <= i < |items| ==> ItemOk(items, i, id)
  }

  /** A list payload: the element id, the i32 count, then the elements. */
  lemma {:induction false} ReadList(data: seq<u8>, pos: nat, id: u8, items: seq<Tag>)
    requires TagOk(List(id, items)) && Holds(data, pos, Payload(List(id, items)))
    ensures TagYield(data, pos, 9, Ok((List(id, items), pos + |Payload(List(id, items))|)))
    decreases items, 3
  {
    HalfValues();
    assert ItemsOk(items, id) by {
      forall i | 0 <= i < |items|
        ensures ItemOk(items, i, id)
      {
      }
    }
    assert items[0..] == items && items[..0] == [];
    assert Payload(List(id, items)) == [id] + E.CountBytes(|items|) + ItemsFrom(items, 0);
    Split(data, pos, Payload(List(id, items)), [id] + E.CountBytes(|items|), ItemsFrom(items, 0));
    HoldsSplit(data, pos, [id], E.CountBytes(|items|));
    ReadByte(data, pos, id);
    ReadSigned(data, pos + 1, |items|, 4);
    var e := pos + 5 + |ItemsFrom(items, 0)|;
    ReadItems(data, pos + 5, id, items, 0, e);
    ListStep(data, pos, id, |items|, items, e);
  }

  lemma ItemsNext(data: seq<u8>, pos: nat, items: seq<Tag>, k: nat)
    requires k < |items| && Holds(data, pos, ItemsFrom(items, k))
    ensures Holds(data, pos, Payload(items[k])) && Holds(data, pos + |Payload(items[k])|, ItemsFrom(items, k + 1))
    ensures |ItemsFrom(items, k)| == |Payload(items[k])| + |ItemsFrom(items, k + 1)|
  {
    assert items[k..][1..] == items[k + 1..];
    assert ItemsFrom(items, k) == Payload(items[k]) + ItemsFrom(items, k + 1);
    Split(data, pos, ItemsFrom(items, k), Payload(items[k]), ItemsFrom(items, k + 1));
  }

  /** The list loop reads the elements from index `k` on after the first `k`. */
  lemma {:induction false} ReadItems(data: seq<u8>, pos: nat, id: u8, items: seq<Tag>, k: nat, e: nat)
    requires k <= |items| && ItemsOk(items, id)
    requires Holds(data, pos, ItemsFrom(items, k)) && e == pos + |ItemsFrom(items, k)|
    ensures ItemsYield(data, pos, id, |items| - k, items[..k], Ok((items, e)))
    decreases items, 2, |items| - k
  {
    if k == |items| {
      assert items[..k] == items && items[k..] == [];
    } else {
      ItemsNext(data, pos, items, k);
      var p := pos + |Payload(items[k])|;
      ReadItems(data, p, id, items, k + 1, e);
      ReadItem(data, pos, id, items, k, p, Ok((items, e)));
    }
  }

  /** One iteration of the list loop: element `k` is read and pushed, then the loop goes on. */
  lemma {:induction false} ReadItem(data: seq<u8>, pos: nat, id: u8, items: seq<Tag>, k: nat, p: nat,
                                    r: D.Read<seq<Tag>>)
    requires k < |items| && ItemsOk(items, id) && Holds(data, pos, Payload(items[k]))
    requires p == pos + |Payload(items[k])| && ItemsYield(data, p, id, |items| - (k + 1), items[..k + 1], r)
    ensures ItemsYield(data, pos, id, |items| - k, items[..k], r)
    decreases items, 1
  {
    assert TagYield(data, pos, id, Ok((items[k], p))) by {
      assert ItemOk(items, k, id);
      ReadTag(data, pos, items[k]);
      YieldAs(data, pos, items[k], id, p);
    }
    Snoc(items, k);
    ItemStep(data, pos, id, |items| - k, items[..k], items[k], p, items[..k + 1], r);
  }

  /** A list element read with the list's id, which is the element's own id. */
  lemma YieldAs(data: seq<u8>, pos: nat, t: Tag, id: u8, p: nat)
    requires WireId(t) == id && p == pos + |Payload(t)| && TagYield(data, pos, WireId(t), Ok((t, pos + |Payload(t)|)))
    ensures TagYield(data, pos, id, Ok((t, p)))
  {
  }

  lemma Snoc(items: seq<Tag>, k: nat)
    requires k < |items|
    ensures items[..k] + [items[k]] == items[..k + 1]
  {
  }

  /** The entries of a compound the round trip covers: distinct keys, each entry representable. */
  predicate EntriesOk(m: seq<(string, Tag)>) {
    M.UniqueKeys(m) && forall i :: 0 <= i < |m| ==> EntryOk(m, i)
  }

  /** A compound payload: the entries, then the End id. */
  lemma {:induction false} ReadCompound(data: seq<u8>, pos: nat, m: seq<(string, Tag)>)
    requires TagOk(Compound(m)) && Holds(data, pos, Payload(Compound(m)))
    ensures TagYield(data, pos, 10, Ok((Compound(m), pos + |Payload(Compound(m))|)))
    decreases m, 3
  {
    assert EntriesOk(m) by {
      forall i | 0 <= i < |m|
        ensures EntryOk(m, i)
      {
      }
    }
    assert m[0..] == m && m[..0] == [];
    assert Payload(Compound(m)) == Rest(m, 0);
    var e := pos + |Rest(m, 0)|;
    ReadEntries(data, pos, m, 0, e);
    CompoundStep(data, pos, Ok((Compound(m), e)));
  }

  lemma EntriesSplit(m: seq<(string, Tag)>, k: nat)
    requires k < |m| && !m[k].1.End?
    ensures Rest(m, k) == Named(m[k].0, m[k].1) + Rest(m, k + 1)
  {
    assert m[k..][1..] == m[k + 1..];
    var a, b := E.NamedBytes(m[k].0, m[k].1), E.EntriesBytes(m[k + 1..]);
    assert E.EntriesBytes(m[k..]) == a + b;
    assert (a + b) + [0] == a + (b + [0]);
  }

  lemma EntriesNext(data: seq<u8>, pos: nat, m: seq<(string, Tag)>, k: nat)
    requires k < |m| && EntriesOk(m) && Holds(data, pos, Rest(m, k))
    ensures Holds(data, pos, Named(m[k].0, m[k].1)) && Holds(data, pos + |Named(m[k].0, m[k].1)|, Rest(m, k + 1))
    ensures |Rest(m, k)| == |Named(m[k].0, m[k].1)| + |Rest(m, k + 1)|
  {
    assert EntryOk(m, k);
    EntryNotEnd(m, k);
    EntriesSplit(m, k);
    Split(data, pos, Rest(m, k), Named(m[k].0, m[k].1), Rest(m, k + 1));
  }

  /** Inserting an entry whose key is not yet present appends it. */
  lemma PutBackNext(m: seq<(string, Tag)>, k: nat, name: string, t: Tag)
    requires M.UniqueKeys(m) && k < |m| && name == m[k].0 && t == m[k].1
    ensures M.PutBack(m[..k], name, t) == m[..k + 1]
  {
    M.UniqueBefore(m, k);
    assert m[..k] + [(name, t)] == m[..k + 1];
  }

  /** The compound loop reads the entries from index `k` on, then the closing End at `e - 1`. */
  lemma {:induction false} ReadEntries(data: seq<u8>, pos: nat, m: seq<(string, Tag)>, k: nat, e: nat)
    requires k <= |m| && EntriesOk(m) && Holds(data, pos, Rest(m, k)) && e == pos + |Rest(m, k)|
    ensures EntriesYield(data, pos, m[..k], Ok((Compound(m), e)))
    decreases m, 2, |m| - k
  {
    if k == |m| {
      assert m[..k] == m && m[k..] == [] && Rest(m, k) == [0];
      ReadEnd(data, pos, m);
    } else {
      assert EntryOk(m, k);
      EntryNotEnd(m, k);
      EntriesNext(data, pos, m, k);
      var p := pos + |Named(m[k].0, m[k].1)|;
      ReadEntries(data, p, m, k + 1, e);
      ReadEntry(data, pos, m, k, m[k].0, m[k].1, p, Ok((Compound(m), e)));
    }
  }

  lemma EntryNotEnd(m: seq<(string, Tag)>, k: nat)
    requires k < |m| && EntryOk(m, k)
    ensures !m[k].1.End? && NameFits(m[k].0) && TagOk(m[k].1)
  {
  }

  /** The End id stops the compound loop, which yields the entries read so far. */
  lemma ReadEnd(data: seq<u8>, pos: nat, m: seq<(string, Tag)>)
    requires Holds(data, pos, [0])
    ensures EntriesYield(data, pos, m, Ok((Compound(m), pos + 1)))
  {
    ReadByte(data, pos, 0);
    NamedEnd(data, pos);
    EntriesEnd(data, pos, m, "", End, pos + 1);
  }

  /** One iteration of the compound loop: entry `k` is read and inserted, then the loop goes on. */
  lemma {:induction false} ReadEntry(data: seq<u8>, pos: nat, m: seq<(string, Tag)>, k: nat, name: string, t: Tag,
                                     p: nat, r: D.Read<Tag>)
    requires k < |m| && M.UniqueKeys(m) && name == m[k].0 && t == m[k].1
    requires NameFits(name) && TagOk(t) && !t.End?
    requires Holds(data, pos, Named(name, t)) && p == pos + |Named(name, t)|
    requires EntriesYield(data, p, m[..k + 1], r)
    ensures EntriesYield(data, pos, m[..k], r)
    decreases m, 1
  {
    assert t < m[k];
    ReadNamed(data, pos, name, t, p);
    EntryStep(data, pos, m, k, name, t, p, r);
  }

  /** `decode_nbt` reads back the id, name and payload `encode_nbt` wrote. */
  lemma {:induction false} ReadNamed(data: seq<u8>, pos: nat, name: string, t: Tag, e: nat)
    requires NameFits(name) && TagOk(t) && Holds(data, pos, Named(name, t)) && e == pos + |Named(name, t)|
    ensures NamedYield(data, pos, Ok(((name, t), e)))
    decreases t, 2
  {
    var q := pos + 1 + |NameBytes(name)|;
    ReadHeader(data, pos, name, t, q, e);
    ReadTag(data, q, t);
    NamedStep(data, pos, WireId(t), name, q, t, q + |Payload(t)|, e);
  }

  /** The id byte and the name in front of a named tag. */
  lemma ReadHeader(data: seq<u8>, pos: nat, name: string, t: Tag, q: nat, e: nat)
    requires NameFits(name) && TagOk(t) && Holds(data, pos, Named(name, t))
    requires q == pos + 1 + |NameBytes(name)| && e == pos + |Named(name, t)|
    ensures WireId(t) != 0 && D.UnsignedAt(data, pos, 1) == Ok((WireId(t) as nat, pos + 1))
    ensures D.NameAt(data, pos + 1) == Ok((name, q))
    ensures Holds(data, q, Payload(t))
    ensures e == q + |Payload(t)|
  {
    NamedSplit(data, pos, name, t);
    ReadByte(data, pos, WireId(t));
    ReadName(data, pos + 1, name, q);
  }

  /** `Nbt::decode` gives back the name and tag `Nbt::encode` wrote, whatever follows them. */
  lemma DecodeEncode(name: string, t: Tag, rest: seq<u8>)
    requires NameFits(name) && Representable(t)
    ensures E.Encodable(t)
    ensures D.Decode(E.Encode(name, t) + rest) == Ok((name, t))
  {
    RepresentableEncodable(t);
    var data := E.Encode(name, t) + rest;
    assert data[0..|data|] == data;
    HoldsSplit(data, 0, E.Encode(name, t), rest);
    ReadNamed(data, 0, name, t, |E.Encode(name, t)|);
  }
}
