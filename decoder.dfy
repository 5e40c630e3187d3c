/**
 * The binary NBT decoder (nbt/src/decoder.rs): `decode_tag`, `decode_nbt` and the in-memory
 * part of `Nbt::decode`, reading the big-endian wire format from a `Bytes` cursor.
 *
 * Each reader is a function of the whole input and a start offset that gives the value read
 * and the offset just past it, or the failure. The cursor class runs the same reads in place
 * and is proved to agree with these functions. A `get_*` or slice that needs more bytes than
 * remain panics in the source; here it is the failure `Truncated`.
 */
module Decoder {
  import opened Ints
  import opened Results
  import opened Tags
  import Utf8
  import M = OrderedMap
  import NbtRoot

  datatype DecodeError =
    | Truncated        // a read past the end of the input (a panic in the source)
    | InvalidString    // "failed to decode string"
    | InvalidName      // "failed to decode name"
    | UnknownId(id: u8) // "unknown id: {}"

  /** A value read from the input and the offset just past it, or why reading failed. */
  type Read<T> = Result<(T, nat), DecodeError>

  /** The `n` bytes at `pos`. */
  function BytesAt(data: seq<u8>, pos: nat, n: nat): (r: Read<seq<u8>>)
    requires pos <= |data|
    ensures r.Ok? <==> pos + n <= |data|
    ensures r.Ok? ==> r.value.1 == pos + n && r.value.0 == data[pos..pos + n]
  {
    if pos + n <= |data| then Ok((data[pos..pos + n], pos + n)) else Err(Truncated)
  }

  /** `get_u8`, `get_u16`, `get_u32` (as float bits) and `get_u64`: an unsigned big-endian field. */
  function UnsignedAt(data: seq<u8>, pos: nat, width: nat): (r: Read<nat>)
    requires pos <= |data|
    ensures r.Ok? <==> pos + width <= |data|
    ensures r.Ok? ==> r.value.1 == pos + width && r.value.0 == FromBE(data[pos..pos + width])
    ensures r.Ok? ==> r.value.0 < Pow256(width)
  {
    match BytesAt(data, pos, width)
    case Ok((b, p)) => Ok((FromBE(b), p))
    case Err(e) => Err(e)
  }

  /** `get_i8`, `get_i16`, `get_i32`, `get_i64`: a two's-complement big-endian field. */
  function SignedAt(data: seq<u8>, pos: nat, width: nat): (r: Read<int>)
    requires pos <= |data| && width > 0
    ensures r.Ok? <==> pos + width <= |data|
    ensures r.Ok? ==> r.value.1 == pos + width && r.value.0 == SignedFromBE(data[pos..pos + width])
    ensures r.Ok? ==> FitsSigned(r.value.0, width)
  {
    match BytesAt(data, pos, width)
    case Ok((b, p)) => Ok((SignedFromBE(b), p))
    case Err(e) => Err(e)
  }

  /** `for _ in 0..len` runs no iteration when `len` is negative. */
  function Count(len: int): (n: nat)
    ensures len <= 0 <==> n == 0
    ensures len > 0 ==> n == len
  {
    if len < 0 then 0 else len
  }

  /**
   * A string payload: an i16 length, then that many bytes of UTF-8. A negative length,
   * cast to `usize`, is beyond any input, so the slice fails.
   */
  function StringAt(data: seq<u8>, pos: nat): (r: Read<string>)
    requires pos <= |data|
    ensures r.Ok? ==> pos + 2 <= r.value.1 <= |data|
  {
    match SignedAt(data, pos, 2)
    case Err(e) => Err(e)
    case Ok((len, p)) =>
      if len < 0 then Err(Truncated)
      else
        match BytesAt(data, p, len)
        case Err(e) => Err(e)
        case Ok((b, q)) =>
          match Utf8.Decode(b)
          case None => Err(InvalidString)
          case Some(s) => Ok((s, q))
  }

  /** The `n` elements of a typed array, each a `width`-byte signed field, after `acc`. */
  function ArrayAt(data: seq<u8>, pos: nat, width: nat, n: nat, acc: seq<int>): (r: Read<seq<int>>)
    requires pos <= |data| && width > 0
    requires AllFit(acc, width)
    ensures r.Ok? ==> pos <= r.value.1 <= |data| && |r.value.0| == |acc| + n
    ensures r.Ok? ==> AllFit(r.value.0, width) && r.value.0[..|acc|] == acc
    ensures r.Err? ==> r.error == Truncated
    decreases n
  {
    if n == 0 then Ok((acc, pos))
    else
      match SignedAt(data, pos, width)
      case Err(e) => Err(e)
      case Ok((x, p)) => ArrayAt(data, p, width, n - 1, acc + [x])
  }

  /** The array payload with elements of `width` bytes: an i32 count, then the elements. */
  function ArrayPayloadAt(data: seq<u8>, pos: nat, width: nat): (r: Read<seq<int>>)
    requires pos <= |data| && width > 0
    ensures r.Ok? ==> pos + 4 <= r.value.1 <= |data|
    ensures r.Ok? ==> AllFit(r.value.0, width)
    ensures r.Err? ==> r.error == Truncated
  {
    match SignedAt(data, pos, 4)
    case Err(e) => Err(e)
    case Ok((len, p)) => ArrayAt(data, p, width, Count(len), [])
  }

  /** The payload width of the fixed-width ids 1 to 6. */
  function ScalarWidth(id: u8): (w: nat)
    ensures w == 1 || w == 2 || w == 4 || w == 8
  {
    if id == 1 then 1 else if id == 2 then 2 else if id == 3 || id == 5 then 4 else 8
  }

  /**
   * The fixed-width payloads, ids 1 to 6: integers, then float and double bit patterns.
   * The only failure is running out of bytes, and the tag read has the variant of `id`.
   */
  function ScalarAt(data: seq<u8>, pos: nat, id: u8): (r: Read<Tag>)
    requires pos <= |data| && 1 <= id <= 6
    ensures r.Ok? <==> pos + ScalarWidth(id) <= |data|
    ensures r.Err? ==> r.error == Truncated
    ensures r.Ok? ==> r.value.1 == pos + ScalarWidth(id) && VariantIndex(r.value.0) == id as int
  {
    Pow256Values();
    HalfValues();
    var width := ScalarWidth(id);
    if id <= 4 then
      match SignedAt(data, pos, width)
      case Err(e) => Err(e)
      case Ok((x, p)) =>
        Ok((if id == 1 then Byte(x) else if id == 2 then Short(x) else if id == 3 then Int(x) else Long(x), p))
    else
      match UnsignedAt(data, pos, width)
      case Err(e) => Err(e)
      case Ok((x, p)) => Ok((if id == 5 then Float(x) else Double(x), p))
  }

  /** The typed-array payloads, ids 7, 11 and 12, with 1-, 4- and 8-byte elements. */
  function TypedArrayAt(data: seq<u8>, pos: nat, id: u8): (r: Read<Tag>)
    requires pos <= |data| && (id == 7 || id == 11 || id == 12)
    ensures r.Ok? ==> pos + 4 <= r.value.1 <= |data| && VariantIndex(r.value.0) == id as int
    ensures r.Err? ==> r.error == Truncated
  {
    Pow256Values();
    HalfValues();
    match ArrayPayloadAt(data, pos, if id == 7 then 1 else if id == 11 then 4 else 8)
    case Err(e) => Err(e)
    case Ok((v, p)) => Ok((if id == 7 then ByteArray(v) else if id == 11 then IntArray(v) else LongArray(v), p))
  }

  /** The list payload, id 9: an element id byte, an i32 count, then that many payloads. */
  function ListAt(data: seq<u8>, pos: nat): (r: Read<Tag>)
    requires pos <= |data|
    ensures r.Ok? ==> pos + 5 <= r.value.1 <= |data| && r.value.0.List?
    decreases |data| - pos, 2, 1
  {
    match UnsignedAt(data, pos, 1)
    case Err(e) => Err(e)
    case Ok((elem, p)) =>
      match SignedAt(data, p, 4)
      case Err(e) => Err(e)
      case Ok((len, q)) =>
        match ItemsAt(data, q, elem, Count(len), [])
        case Err(e) => Err(e)
        case Ok((items, e)) => Ok((List(elem, items), e))
  }

  /**
   * `decode_tag(buf, id)`: the payload of a tag with wire id `id`. Id 0 reads nothing and
   * is End; ids above 12 fail.
   */
  function TagAt(data: seq<u8>, pos: nat, id: u8): (r: Read<Tag>)
    requires pos <= |data|
    ensures r.Ok? ==> pos <= r.value.1 <= |data|
    ensures id == 0 ==> r == Ok((End, pos))
    ensures id > 12 ==> r == Err(UnknownId(id))
    ensures r.Ok? ==> VariantIndex(r.value.0) == id as int
    decreases |data| - pos, 3, 0
  {
    if id == 0 then Ok((End, pos))
    else if id <= 6 then ScalarAt(data, pos, id)
    else if id == 7 || id == 11 || id == 12 then TypedArrayAt(data, pos, id)
    else if id == 8 then
      match StringAt(data, pos)
      case Err(e) => Err(e)
      case Ok((s, p)) => Ok((String(s), p))
    else if id == 9 then ListAt(data, pos)
    else if id == 10 then EntriesAt(data, pos, [])
    else Err(UnknownId(id))
  }

  /** The list loop: `n` more payloads of wire id `id`, pushed after `acc`. */
  function ItemsAt(data: seq<u8>, pos: nat, id: u8, n: nat, acc: seq<Tag>): (r: Read<seq<Tag>>)
    requires pos <= |data|
    ensures r.Ok? ==> pos <= r.value.1 <= |data| && |r.value.0| == |acc| + n
    decreases |data| - pos, 4, n
  {
    if n == 0 then Ok((acc, pos))
    else
      match TagAt(data, pos, id)
      case Err(e) => Err(e)
      case Ok((t, p)) => ItemsAt(data, p, id, n - 1, acc + [t])
  }

  /**
   * The compound loop: named tags up to the first End, each inserted into `m` with
   * `LinkedHashMap::insert`. The End that stops the loop is consumed but not inserted.
   */
  function EntriesAt(data: seq<u8>, pos: nat, m: seq<(string, Tag)>): (r: Read<Tag>)
    requires pos <= |data|
    ensures r.Ok? ==> pos < r.value.1 <= |data| && r.value.0.Compound?
    decreases |data| - pos, 2, 0
  {
    match NamedAt(data, pos)
    case Err(e) => Err(e)
    case Ok(((name, t), p)) =>
      if t.End? then Ok((Compound(m), p))
      else EntriesAt(data, p, M.PutBack(m, name, t))
  }

  /**
   * The name of a named tag: a u16 length and that many bytes of UTF-8. A zero length
   * reads no bytes and is the empty name.
   */
  function NameAt(data: seq<u8>, pos: nat): (r: Read<string>)
    requires pos <= |data|
    ensures r.Ok? ==> pos + 2 <= r.value.1 <= |data|
  {
    match UnsignedAt(data, pos, 2)
    case Err(e) => Err(e)
    case Ok((len, p)) =>
      if len == 0 then Ok(("", p))
      else
        match BytesAt(data, p, len)
        case Err(e) => Err(e)
        case Ok((b, q)) =>
          match Utf8.Decode(b)
          case None => Err(InvalidName)
          case Some(s) => Ok((s, q))
  }

  /**
   * `decode_nbt`: an id byte; unless it is 0, a name; then the payload for that id. The
   * name is read before the id is checked, so a bad name is reported before an unknown id.
   */
  function NamedAt(data: seq<u8>, pos: nat): (r: Read<(string, Tag)>)
    requires pos <= |data|
    ensures r.Ok? ==> pos < r.value.1 <= |data|
    decreases |data| - pos, 1, 0
  {
    match UnsignedAt(data, pos, 1)
    case Err(e) => Err(e)
    case Ok((id, p)) =>
      var name: Read<string> := if id == 0 then Ok(("", p)) else NameAt(data, p);
      match name
      case Err(e) => Err(e)
      case Ok((s, q)) =>
        match TagAt(data, q, id)
        case Err(e) => Err(e)
        case Ok((t, e)) => Ok(((s, t), e))
  }

  /** `Nbt::decode` on uncompressed input: one named tag from the start; trailing bytes are ignored. */
  function Decode(data: seq<u8>): (r: Result<(string, Tag), DecodeError>)
    ensures r.Ok? <==> NamedAt(data, 0).Ok?
    ensures r.Ok? ==> r.value == NamedAt(data, 0).value.0
  {
    match NamedAt(data, 0)
    case Ok((nt, _)) => Ok(nt)
    case Err(e) => Err(e)
  }

  /** A method's result and final offset agree with a reader's. */
  predicate Agrees<T(==)>(spec: Read<T>, r: Result<T, DecodeError>, pos: nat) {
    match spec
    case Ok((v, p)) => r == Ok(v) && pos == p
    case Err(e) => r == Err(e)
  }

  /** The `Bytes` cursor: the input and the offset of the next unread byte. */
  class Cursor {
    const data: seq<u8>
    var pos: nat

    constructor (data: seq<u8>)
      ensures this.data == data && pos == 0
    {
      this.data := data;
      pos := 0;
    }

    /** `copy_to_bytes`-style read of `n` raw bytes (`bytes()[0..n]` then `advance(n)`). */
    method GetBytes(n: nat) returns (r: Result<seq<u8>, DecodeError>)
      requires pos <= |data|
      modifies this
      ensures old(pos) <= pos <= |data|
      ensures Agrees(BytesAt(data, old(pos), n), r, pos)
    {
      if pos + n > |data| {
        return Err(Truncated);
      }
      r := Ok(data[pos..pos + n]);
      pos := pos + n;
    }

    /** `get_u8` .. `get_u64`, `get_f32`, `get_f64` (as bits). */
    method GetUnsigned(width: nat) returns (r: Result<nat, DecodeError>)
      requires pos <= |data|
      modifies this
      ensures old(pos) <= pos <= |data|
      ensures Agrees(UnsignedAt(data, old(pos), width), r, pos)
    {
      var b := GetBytes(width);
      if b.Err? {
        return Err(b.error);
      }
      return Ok(FromBE(b.value));
    }

    /** `get_i8` .. `get_i64`. */
    method GetSigned(width: nat) returns (r: Result<int, DecodeError>)
      requires pos <= |data| && width > 0
      modifies this
      ensures old(pos) <= pos <= |data|
      ensures Agrees(SignedAt(data, old(pos), width), r, pos)
    {
      var b := GetBytes(width);
      if b.Err? {
        return Err(b.error);
      }
      return Ok(SignedFromBE(b.value));
    }

    /** A string payload (decoder.rs, id 8). */
    method GetString() returns (r: Result<string, DecodeError>)
      requires pos <= |data|
      modifies this
      ensures old(pos) <= pos <= |data|
      ensures Agrees(StringAt(data, old(pos)), r, pos)
    {
      var len := GetSigned(2);
      if len.Err? {
        return Err(len.error);
      }
      if len.value < 0 {
        return Err(Truncated);
      }
      var b := GetBytes(len.value);
      if b.Err? {
        return Err(b.error);
      }
      match Utf8.Decode(b.value)
      case None => return Err(InvalidString);
      case Some(s) => return Ok(s);
    }

    /** A name (decoder.rs:100-119). */
    method GetName() returns (r: Result<string, DecodeError>)
      requires pos <= |data|
      modifies this
      ensures old(pos) <= pos <= |data|
      ensures Agrees(NameAt(data, old(pos)), r, pos)
    {
      var len := GetUnsigned(2);
      if len.Err? {
        return Err(len.error);
      }
      if len.value == 0 {
        return Ok("");
      }
      var b := GetBytes(len.value);
      if b.Err? {
        return Err(b.error);
      }
      match Utf8.Decode(b.value)
      case None => return Err(InvalidName);
      case Some(s) => return Ok(s);
    }

    /** The typed-array loops: an i32 count, then that many `width`-byte elements. */
    method GetArray(width: nat) returns (r: Result<seq<int>, DecodeError>)
      requires pos <= |data| && width > 0
      modifies this
      ensures old(pos) <= pos <= |data|
      ensures Agrees(ArrayPayloadAt(data, old(pos), width), r, pos)
    {
      var start := pos;
      var len := GetSigned(4);
      if len.Err? {
        return Err(len.error);
      }
      var n := Count(len.value);
      var v: seq<int> := [];
      var i := 0;
      while i < n
        invariant 0 <= i <= n && start <= pos <= |data|
        invariant AllFit(v, width)
        invariant ArrayAt(data, pos, width, n - i, v) == ArrayPayloadAt(data, start, width)
      {
        var x := GetSigned(width);
        if x.Err? {
          return Err(x.error);
        }
        v := v + [x.value];
        i := i + 1;
      }
      return Ok(v);
    }

    /** `decode_tag(buf, id)`. */
    method DecodeTag(id: u8) returns (r: Result<Tag, DecodeError>)
      requires pos <= |data|
      modifies this
      ensures old(pos) <= pos <= |data|
      ensures Agrees(TagAt(data, old(pos), id), r, pos)
      decreases |data| - pos, 3, 0
    {
      Pow256Values();
      HalfValues();
      var start := pos;
      if id == 0 {
        return Ok(End);
      } else if 1 <= id <= 4 {
        var width := if id == 1 then 1 else if id == 2 then 2 else if id == 3 then 4 else 8;
        var x := GetSigned(width);
        if x.Err? {
          return Err(x.error);
        }
        r := if id == 1 then Ok(Byte(x.value)) else if id == 2 then Ok(Short(x.value))
             else if id == 3 then Ok(Int(x.value)) else Ok(Long(x.value));
      } else if id == 5 || id == 6 {
        var x := GetUnsigned(if id == 5 then 4 else 8);
        if x.Err? {
          return Err(x.error);
        }
        r := if id == 5 then Ok(Float(x.value)) else Ok(Double(x.value));
      } else if id == 8 {
        var s := GetString();
        if s.Err? {
          return Err(s.error);
        }
        r := Ok(String(s.value));
      } else if id == 9 {
        r := DecodeList();
      } else if id == 10 {
        r := DecodeCompound();
      } else if id == 7 || id == 11 || id == 12 {
        var v := GetArray(if id == 7 then 1 else if id == 11 then 4 else 8);
        if v.Err? {
          return Err(v.error);
        }
        r := if id == 7 then Ok(ByteArray(v.value)) else if id == 11 then Ok(IntArray(v.value))
             else Ok(LongArray(v.value));
      } else {
        r := Err(UnknownId(id));
      }
    }

    /** The list case of `decode_tag` (decoder.rs:34-44). */
    method DecodeList() returns (r: Result<Tag, DecodeError>)
      requires pos <= |data|
      modifies this
      ensures old(pos) <= pos <= |data|
      ensures Agrees(ListAt(data, old(pos)), r, pos)
      decreases |data| - pos, 2, 1
    {
      var start := pos;
      var elem := GetUnsigned(1);
      if elem.Err? {
        return Err(elem.error);
      }
      var len := GetSigned(4);
      if len.Err? {
        return Err(len.error);
      }
      Pow256Values();
      HalfValues();
      var id: u8 := elem.value;
      var n := Count(len.value);
      var v: seq<Tag> := [];
      var i := 0;
      while i < n
        invariant 0 <= i <= n && start + 5 <= pos <= |data|
        invariant ItemsAt(data, pos, id, n - i, v) == ItemsAt(data, start + 5, id, n, [])
      {
        var t := DecodeTag(id);
        if t.Err? {
          return Err(t.error);
        }
        v := v + [t.value];
        i := i + 1;
      }
      return Ok(List(id, v));
    }

    /** The compound case of `decode_tag` (decoder.rs:46-60). */
    method DecodeCompound() returns (r: Result<Tag, DecodeError>)
      requires pos <= |data|
      modifies this
      ensures old(pos) <= pos <= |data|
      ensures Agrees(EntriesAt(data, old(pos), []), r, pos)
      decreases |data| - pos, 2, 0
    {
      var start := pos;
      var m: seq<(string, Tag)> := [];
      while true
        invariant start <= pos <= |data|
        invariant EntriesAt(data, pos, m) == EntriesAt(data, start, [])
        decreases |data| - pos
      {
        var nt := DecodeNbt();
        if nt.Err? {
          return Err(nt.error);
        }
        var (name, t) := nt.value;
        if t.End? {
          return Ok(Compound(m));
        }
        m := M.PutBack(m, name, t);
      }
    }

    /** `decode_nbt`. */
    method DecodeNbt() returns (r: Result<(string, Tag), DecodeError>)
      requires pos <= |data|
      modifies this
      ensures old(pos) <= pos <= |data|
      ensures r.Ok? ==> old(pos) < pos
      ensures Agrees(NamedAt(data, old(pos)), r, pos)
      decreases |data| - pos, 1, 0
    {
      var id := GetUnsigned(1);
      if id.Err? {
        return Err(id.error);
      }
      Pow256Values();
      HalfValues();
      var name := "";
      if id.value != 0 {
        var s := GetName();
        if s.Err? {
          return Err(s.error);
        }
        name := s.value;
      }
      var t := DecodeTag(id.value);
      if t.Err? {
        return Err(t.error);
      }
      return Ok((name, t.value));
    }
  }

  /** `Nbt::decode` minus decompression: a cursor over the bytes and one `decode_nbt`. */
  method DecodeRoot(data: seq<u8>) returns (r: Result<NbtRoot.Nbt, DecodeError>)
    ensures r.Ok? <==> Decode(data).Ok?
    ensures r.Ok? ==> fresh(r.value) && (r.value.name, r.value.tag) == Decode(data).value
    ensures r.Err? ==> r.error == Decode(data).error
  {
    var buf := new Cursor(data);
    var nt := buf.DecodeNbt();
    if nt.Err? {
      return Err(nt.error);
    }
    var n := new NbtRoot.Nbt(nt.value.0, nt.value.1);
    return Ok(n);
  }
}
