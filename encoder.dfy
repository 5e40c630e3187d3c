/**
 * The binary NBT encoder (nbt/src/encoder.rs): `encode_tag`, `encode_nbt` and the in-memory
 * part of `Nbt::encode`, appending the big-endian wire format to a `BytesMut` buffer.
 *
 * The bytes each call appends are given by functions of the tag; the buffer class performs
 * the appends in place and is proved to append exactly those bytes. The length prefixes are
 * written with Rust's truncating casts (`len as i16`, `len as i32`, `len as u16`).
 */
module Encoder {
  import opened Ints
  import opened Tags
  import Utf8
  import K = Kinds
  import NbtRoot

  /**
   * The tags `encode_tag` writes without panicking: the source panics on an End payload,
   * which a list element or the root can be; End values inside a compound are skipped.
   */
  predicate Encodable(t: Tag)
    decreases t
  {
    match t
    case End => false
    case List(_, items) => forall i :: 0 <= i < |items| ==> Encodable(items[i])
    case Compound(m) => forall i :: 0 <= i < |m| ==> m[i].1.End? || Encodable(m[i].1)
    case _ => true
  }

  predicate AllEncodable(items: seq<Tag>) {
    forall i :: 0 <= i < |items| ==> Encodable(items[i])
  }

  predicate EntriesEncodable(m: seq<(string, Tag)>) {
    forall i :: 0 <= i < |m| ==> m[i].1.End? || Encodable(m[i].1)
  }

  /** The elements of a typed array, each as a `width`-byte two's-complement field. */
  function ArrayBytes(v: seq<int>, width: nat): (b: seq<u8>)
    requires AllFit(v, width)
    ensures width > 0 ==> (b == [] <==> v == [])
  {
    if v == [] then [] else SignedBE(v[0], width) + ArrayBytes(v[1..], width)
  }

  /** An i32 count prefix, as `len as i32` writes it. */
  function CountBytes(n: nat): (b: seq<u8>)
    ensures |b| == 4
  {
    Pow256Values();
    SignedBE(WrapI32(n), 4)
  }

  /** What `encode_tag(buf, t)` appends. */
  function TagBytes(t: Tag): (b: seq<u8>)
    ensures t.End? <==> b == []
    decreases t, 0
  {
    Pow256Values();
    match t
    case End => []
    case Byte(v) => SignedBE(v, 1)
    case Short(v) => SignedBE(v, 2)
    case Int(v) => SignedBE(v, 4)
    case Long(v) => SignedBE(v, 8)
    case Float(v) => ToBE(v, 4)
    case Double(v) => ToBE(v, 8)
    case String(s) => SignedBE(WrapI16(|Utf8.Encode(s)|), 2) + Utf8.Encode(s)
    case List(id, items) => [id] + CountBytes(|items|) + ItemsBytes(items)
    case Compound(m) => EntriesBytes(m) + [K.Id(K.End)]
    case ByteArray(v) => CountBytes(|v|) + ArrayBytes(v, 1)
    case IntArray(v) => CountBytes(|v|) + ArrayBytes(v, 4)
    case LongArray(v) => CountBytes(|v|) + ArrayBytes(v, 8)
  }

  /** The list loop: each element's payload, with no header, in order. */
  function ItemsBytes(items: seq<Tag>): (b: seq<u8>)
    ensures AllEncodable(items) ==> |b| >= |items|
    decreases items
  {
    if items == [] then [] else TagBytes(items[0]) + ItemsBytes(items[1..])
  }

  /** The compound loop: each entry whose value is not End, as a named tag, in order. */
  function EntriesBytes(m: seq<(string, Tag)>): (b: seq<u8>)
    decreases m
  {
    if m == [] then [] else EntryBytes(m[0]) + EntriesBytes(m[1..])
  }

  /** One compound entry: nothing for an End value, otherwise the named tag. */
  function EntryBytes(e: (string, Tag)): (b: seq<u8>)
    ensures b == [] <==> e.1.End?
    ensures !e.1.End? ==> b[0] == K.Id(KindOf(e.1))
    decreases e, 2
  {
    assert e.1 < e;
    if e.1.End? then [] else NamedBytes(e.0, e.1)
  }

  /** What `encode_nbt(buf, name, t)` appends: the name header, then the payload. */
  function NamedBytes(name: string, t: Tag): (b: seq<u8>)
    ensures |b| >= 3 && b[0] == K.Id(KindOf(t))
    decreases t, 1
  {
    HeaderBytes(name, t) + TagBytes(t)
  }

  /** The kind id, a u16 name length, the name. */
  function HeaderBytes(name: string, t: Tag): (b: seq<u8>)
    ensures |b| == 3 + |Utf8.Encode(name)|
  {
    Pow256Values();
    [K.Id(KindOf(t))] + ToBE(WrapU16(|Utf8.Encode(name)|), 2) + Utf8.Encode(name)
  }

  /** `Nbt::encode` without compression: the bytes written to the destination. */
  function Encode(name: string, t: Tag): (b: seq<u8>)
    requires Encodable(t)
    ensures |b| >= 3 + |Utf8.Encode(name)| + 1
    ensures b[0] == K.Id(KindOf(t)) && b[0] != K.Id(K.End)
  {
    KindIdIsVariantIndex(t);
    NamedBytes(name, t)
  }

  lemma ItemsFirst(items: seq<Tag>, i: nat)
    requires AllEncodable(items) && i < |items|
    ensures AllEncodable(items[i + 1..]) && Encodable(items[i])
    ensures ItemsBytes(items[i..]) == TagBytes(items[i]) + ItemsBytes(items[i + 1..])
  {
    assert items[i..][1..] == items[i + 1..];
  }

  lemma EntriesFirst(m: seq<(string, Tag)>, i: nat)
    requires EntriesEncodable(m) && i < |m|
    ensures EntriesEncodable(m[i + 1..]) && (m[i].1.End? || Encodable(m[i].1))
    ensures EntriesBytes(m[i..]) == EntryBytes(m[i]) + EntriesBytes(m[i + 1..])
  {
    assert m[i..][1..] == m[i + 1..];
  }

  lemma {:induction false} ArrayAppend(v: seq<int>, x: int, width: nat)
    requires AllFit(v, width) && FitsSigned(x, width)
    ensures ArrayBytes(v + [x], width) == ArrayBytes(v, width) + SignedBE(x, width)
  {
    if v == [] {
      assert [] + [x] == [x];
    } else {
      assert (v + [x])[1..] == v[1..] + [x];
      ArrayAppend(v[1..], x, width);
    }
  }

  /** The `BytesMut` buffer: everything written so far. */
  class Buffer {
    var bytes: seq<u8>

    constructor ()
      ensures bytes == []
    {
      bytes := [];
    }

    /** `put_u8`, `put_i16`, `put_slice`, ...: append raw bytes. */
    method Put(b: seq<u8>)
      modifies this
      ensures bytes == old(bytes) + b
    {
      bytes := bytes + b;
    }

    /** The typed-array loops: the count, then `put_i8`/`put_i32`/`put_i64` per element. */
    method PutArray(v: seq<int>, width: nat)
      requires width > 0 && AllFit(v, width)
      modifies this
      ensures bytes == old(bytes) + CountBytes(|v|) + ArrayBytes(v, width)
    {
      Put(CountBytes(|v|));
      var i := 0;
      while i < |v|
        invariant 0 <= i <= |v|
        invariant bytes == old(bytes) + CountBytes(|v|) + ArrayBytes(v[..i], width)
      {
        Put(SignedBE(v[i], width));
        ArrayAppend(v[..i], v[i], width);
        assert v[..i + 1] == v[..i] + [v[i]];
        i := i + 1;
      }
      assert v[..i] == v;
    }

    /** `encode_tag(buf, t)`. */
    method EncodeTag(t: Tag)
      requires Encodable(t)
      modifies this
      ensures bytes == old(bytes) + TagBytes(t)
      decreases t, 0
    {
      match t
      case String(s) => PutString(s);
      case List(id, items) => PutList(id, items);
      case Compound(m) => PutCompound(m);
      case ByteArray(_) => PutTypedArray(t);
      case IntArray(_) => PutTypedArray(t);
      case LongArray(_) => PutTypedArray(t);
      case Byte(_) => PutScalar(t);
      case Short(_) => PutScalar(t);
      case Int(_) => PutScalar(t);
      case Long(_) => PutScalar(t);
      case Float(_) => PutScalar(t);
      case Double(_) => PutScalar(t);
    }

    /** The arms of the six scalars: a fixed-width big-endian value. */
    method PutScalar(t: Tag)
      requires t.Byte? || t.Short? || t.Int? || t.Long? || t.Float? || t.Double?
      modifies this
      ensures bytes == old(bytes) + TagBytes(t)
    {
      match t
      case Byte(v) => Put(SignedBE(v, 1));
      case Short(v) => Pow256Values(); Put(SignedBE(v, 2));
      case Int(v) => HalfValues(); Put(SignedBE(v, 4));
      case Long(v) => HalfValues(); Put(SignedBE(v, 8));
      case Float(v) => Pow256Values(); Put(ToBE(v, 4));
      case Double(v) => HalfValues(); Pow256Values(); Put(ToBE(v, 8));
    }

    /** The arms of the three typed arrays: an i32 count, then the fixed-width elements. */
    method PutTypedArray(t: Tag)
      requires t.ByteArray? || t.IntArray? || t.LongArray?
      modifies this
      ensures bytes == old(bytes) + TagBytes(t)
    {
      match t
      case ByteArray(v) => TypedFit(v, [], []); PutArray(v, 1);
      case IntArray(v) => TypedFit([], v, []); PutArray(v, 4);
      case LongArray(v) => TypedFit([], [], v); PutArray(v, 8);
    }

    /** The String arm: an i16 byte length, then the bytes. */
    method PutString(s: string)
      modifies this
      ensures bytes == old(bytes) + TagBytes(String(s))
    {
      Pow256Values();
      var b := Utf8.Encode(s);
      Put(SignedBE(WrapI16(|b|), 2));
      Put(b);
    }

    /** The List arm: the element id, an i32 count, then the elements' payloads. */
    method PutList(id: u8, items: seq<Tag>)
      requires AllEncodable(items)
      modifies this
      ensures bytes == old(bytes) + TagBytes(List(id, items))
      decreases items, 2
    {
      Put([id]);
      Put(CountBytes(|items|));
      PutItems(items);
    }

    /** The Compound arm: the entries, then the End id that closes the compound. */
    method PutCompound(m: seq<(string, Tag)>)
      requires EntriesEncodable(m)
      modifies this
      ensures bytes == old(bytes) + TagBytes(Compound(m))
      decreases m, 2
    {
      PutEntries(m);
      Put([K.Id(K.End)]);
    }

    /** The list loop of `encode_tag`: each element's payload in order. */
    method PutItems(items: seq<Tag>)
      requires AllEncodable(items)
      modifies this
      ensures bytes == old(bytes) + ItemsBytes(items)
      decreases items, 1
    {
      var i := 0;
      assert items[0..] == items;
      while i < |items|
        invariant 0 <= i <= |items|
        invariant bytes + ItemsBytes(items[i..]) == old(bytes) + ItemsBytes(items)
      {
        PutItem(items, i);
        i := i + 1;
      }
    }

    /** One iteration of the list loop: the payload of element `i`. */
    method PutItem(items: seq<Tag>, i: nat)
      requires AllEncodable(items) && i < |items|
      modifies this
      ensures bytes + ItemsBytes(items[i + 1..]) == old(bytes) + ItemsBytes(items[i..])
      decreases items, 0
    {
      ItemsFirst(items, i);
      EncodeTag(items[i]);
    }

    /** The compound loop of `encode_tag`: every entry whose value is not End, as a named tag. */
    method PutEntries(m: seq<(string, Tag)>)
      requires EntriesEncodable(m)
      modifies this
      ensures bytes == old(bytes) + EntriesBytes(m)
      decreases m, 1
    {
      var i := 0;
      assert m[0..] == m;
      while i < |m|
        invariant 0 <= i <= |m|
        invariant bytes + EntriesBytes(m[i..]) == old(bytes) + EntriesBytes(m)
      {
        PutNextEntry(m, i);
        i := i + 1;
      }
    }

    /** One iteration of the compound loop: entry `i`, or nothing when its value is End. */
    method PutNextEntry(m: seq<(string, Tag)>, i: nat)
      requires EntriesEncodable(m) && i < |m|
      modifies this
      ensures bytes + EntriesBytes(m[i + 1..]) == old(bytes) + EntriesBytes(m[i..])
      decreases m, 0
    {
      EntriesFirst(m, i);
      PutEntry(m[i]);
    }

    /** One compound entry: an End value is skipped. */
    method PutEntry(e: (string, Tag))
      requires e.1.End? || Encodable(e.1)
      modifies this
      ensures bytes == old(bytes) + EntryBytes(e)
      decreases e, 2
    {
      if !e.1.End? {
        assert e.1 < e;
        EncodeNbt(e.0, e.1);
      }
    }

    /** `encode_nbt(buf, name, t)`. */
    method EncodeNbt(name: string, t: Tag)
      requires Encodable(t)
      modifies this
      ensures bytes == old(bytes) + NamedBytes(name, t)
      decreases t, 1
    {
      Pow256Values();
      var n := Utf8.Encode(name);
      Put([K.Id(KindOf(t))]);
      Put(ToBE(WrapU16(|n|), 2));
      Put(n);
      assert bytes == old(bytes) + HeaderBytes(name, t);
      EncodeTag(t);
    }
  }

  /** `Nbt::encode(dst, false)`: the bytes of the root, written into a fresh buffer. */
  method EncodeRoot(root: NbtRoot.Nbt) returns (out: seq<u8>)
    requires Encodable(root.tag)
    ensures out == Encode(root.name, root.tag)
  {
    var buf := new Buffer();
    buf.EncodeNbt(root.name, root.tag);
    out := buf.bytes;
  }
}
