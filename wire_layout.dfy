/**
 * Byte-level facts about the binary codec (nbt/src/decoder.rs, nbt/src/encoder.rs): the
 * widths of the fixed-size payloads on both sides, how the decoder treats id 0, ids above 12,
 * negative counts and an exhausted input, and which entries of a compound the encoder writes.
 */
module WireLayout {
  import opened Ints
  import opened Results
  import opened Tags
  import Utf8
  import K = Kinds
  import D = Decoder
  import E = Encoder

  /** The payload width of wire ids 1 to 6: Byte, Short, Int, Long, Float, Double. */
  function Width(id: u8): (w: nat)
    requires 1 <= id <= 6
    ensures w == 1 || w == 2 || w == 4 || w == 8
  {
    [1, 2, 4, 8, 4, 8][id - 1]
  }

  predicate Scalar(t: Tag) {
    t.Byte? || t.Short? || t.Int? || t.Long? || t.Float? || t.Double?
  }

  /** The encoder writes a scalar as exactly `Width` bytes of its kind's id. */
  lemma EncodedScalarWidth(t: Tag)
    requires Scalar(t)
    ensures 1 <= K.Id(KindOf(t)) <= 6
    ensures |E.TagBytes(t)| == Width(K.Id(KindOf(t)))
  {
  }

  /**
   * Decoding ids 1 to 6 needs exactly `Width(id)` bytes: with fewer it fails as truncated;
   * otherwise it reads a two's-complement integer (ids 1 to 4) or a bit pattern (5 and 6)
   * and stops just past it.
   */
  lemma DecodeScalar(data: seq<u8>, pos: nat, id: u8)
    requires pos <= |data| && 1 <= id <= 6
    ensures D.TagAt(data, pos, id).Ok? <==> pos + Width(id) <= |data|
    ensures D.TagAt(data, pos, id).Err? ==> D.TagAt(data, pos, id).error == D.Truncated
    ensures D.TagAt(data, pos, id).Ok? ==>
      var (t, e) := D.TagAt(data, pos, id).value;
      var b := data[pos..pos + Width(id)];
      && e == pos + Width(id)
      && K.Id(KindOf(t)) == id
      && (id == 1 ==> t == Byte(SignedFromBE(b)))
      && (id == 2 ==> t == Short(SignedFromBE(b)))
      && (id == 3 ==> t == Int(SignedFromBE(b)))
      && (id == 4 ==> t == Long(SignedFromBE(b)))
      && (id == 5 ==> t == Float(FromBE(b)))
      && (id == 6 ==> t == Double(FromBE(b)))
  {
    Pow256Values();
    HalfValues();
  }

  /** Id 0 reads nothing and is End. */
  lemma DecodeEnd(data: seq<u8>, pos: nat)
    requires pos <= |data|
    ensures D.TagAt(data, pos, 0) == Ok((End, pos))
  {
  }

  /** An id above 12 fails as unknown, whatever follows it. */
  lemma DecodeUnknown(data: seq<u8>, pos: nat, id: u8)
    requires pos <= |data| && id > 12
    ensures D.TagAt(data, pos, id) == Err(D.UnknownId(id))
  {
  }

  /** Every id from 1 to 12 needs at least one more byte: at the end of input it fails as truncated. */
  lemma DecodeAtEnd(data: seq<u8>, id: u8)
    requires 1 <= id <= 12
    ensures D.TagAt(data, |data|, id) == Err(D.Truncated)
    ensures D.NamedAt(data, |data|) == Err(D.Truncated)
  {
    var n := |data|;
    if id <= 6 {
      DecodeScalar(data, n, id);
    } else if id == 8 {
      assert D.StringAt(data, n) == Err(D.Truncated);
    } else if id == 9 {
      assert D.ListAt(data, n) == Err(D.Truncated);
    } else if id == 10 {
      assert D.EntriesAt(data, n, []) == Err(D.Truncated);
    } else {
      assert D.ArrayPayloadAt(data, n, 1) == Err(D.Truncated);
      assert D.ArrayPayloadAt(data, n, 4) == Err(D.Truncated);
      assert D.ArrayPayloadAt(data, n, 8) == Err(D.Truncated);
    }
  }

  /** A single byte read as an unsigned field is that byte. */
  lemma OneByte(data: seq<u8>, pos: nat)
    requires pos < |data|
    ensures D.UnsignedAt(data, pos, 1) == Ok((data[pos], pos + 1))
  {
    assert data[pos..pos + 1] == [data[pos]];
    assert [data[pos]][1..] == [];
  }

  /** A named tag whose id byte is 0 is the empty name with End, and occupies that one byte. */
  lemma DecodeNamedEnd(data: seq<u8>, pos: nat)
    requires pos < |data| && data[pos] == 0
    ensures D.NamedAt(data, pos) == Ok((("", End), pos + 1))
  {
    OneByte(data, pos);
  }

  /** The compound loop stops at an End entry, consuming it, and inserts nothing for it. */
  lemma CompoundStopsAtEnd(data: seq<u8>, pos: nat, m: seq<(string, Tag)>)
    requires pos < |data| && data[pos] == 0
    ensures D.EntriesAt(data, pos, m) == Ok((Compound(m), pos + 1))
  {
    DecodeNamedEnd(data, pos);
  }

  /** A zero-length name reads no bytes and is the empty name. */
  lemma DecodeEmptyName(data: seq<u8>, pos: nat)
    requires pos + 2 <= |data| && data[pos] == 0 && data[pos + 1] == 0
    ensures D.NameAt(data, pos) == Ok(("", pos + 2))
  {
    assert data[pos..pos + 2] == [0, 0];
    assert FromBE([0, 0]) == 0 by {
      assert [0, 0][..1] == [0];
      assert [0, 0][1..] == [0];
    }
  }

  /** The count read by the typed-array and list payloads: an i32 at `pos`. */
  function CountAt(data: seq<u8>, pos: nat): int
    requires pos + 4 <= |data|
  {
    SignedFromBE(data[pos..pos + 4])
  }

  /** A negative array count gives the empty array, after the four count bytes. */
  lemma NegativeArrayCount(data: seq<u8>, pos: nat, width: nat)
    requires pos + 4 <= |data| && width > 0 && CountAt(data, pos) < 0
    ensures D.ArrayPayloadAt(data, pos, width) == Ok(([], pos + 4))
  {
  }

  /** A negative list count gives the empty list of the stored element id, after five bytes. */
  lemma NegativeListCount(data: seq<u8>, pos: nat)
    requires pos + 5 <= |data| && CountAt(data, pos + 1) < 0
    ensures D.ListAt(data, pos) == Ok((List(data[pos], []), pos + 5))
  {
    OneByte(data, pos);
  }

  /**
   * A list payload: the stored element id byte, an i32 count, then exactly that many
   * payloads (none for a negative count).
   */
  lemma DecodeList(data: seq<u8>, pos: nat)
    requires pos <= |data|
    ensures D.ListAt(data, pos).Ok? ==>
      var (t, e) := D.ListAt(data, pos).value;
      && pos + 5 <= e
      && t.List? && t.elemId == data[pos]
      && |t.items| == D.Count(CountAt(data, pos + 1))
  {
    if pos < |data| {
      OneByte(data, pos);
    }
  }

  /**
   * A non-negative array count gives exactly that many elements, and the bytes after the
   * count are the elements' signed big-endian fields in order: the encoder's layout of them.
   */
  lemma ArrayCount(data: seq<u8>, pos: nat, width: nat)
    requires pos + 4 <= |data| && width > 0
    ensures D.ArrayPayloadAt(data, pos, width).Ok? ==>
      var (v, e) := D.ArrayPayloadAt(data, pos, width).value;
      |v| == D.Count(CountAt(data, pos)) && pos + 4 <= e
      && AllFit(v, width) && data[pos + 4..e] == E.ArrayBytes(v, width)
  {
    if D.ArrayPayloadAt(data, pos, width).Ok? {
      assert data[pos + 4..pos + 4] == [];
      Elements(data, pos + 4, width, D.Count(CountAt(data, pos)), [], pos + 4);
    }
  }

  /** A field read as signed and written back at the same width is the same bytes. */
  lemma SignedBytes(b: seq<u8>)
    requires |b| > 0
    ensures FitsSigned(SignedFromBE(b), |b|) && SignedBE(SignedFromBE(b), |b|) == b
  {
    UnsignedRoundTrip(FromBE(b), |b|);
    ToFromBE(b);
  }

  /** The element loop of a typed array, at `pos`, with `acc` already read from `start`. */
  lemma {:induction false} Elements(data: seq<u8>, pos: nat, width: nat, n: nat, acc: seq<int>, start: nat)
    requires start <= pos <= |data| && width > 0 && AllFit(acc, width)
    requires data[start..pos] == E.ArrayBytes(acc, width)
    ensures D.ArrayAt(data, pos, width, n, acc).Ok? ==>
      var (v, e) := D.ArrayAt(data, pos, width, n, acc).value;
      pos <= e && data[start..e] == E.ArrayBytes(v, width)
    decreases n
  {
    if n > 0 && pos + width <= |data| {
      var x := SignedFromBE(data[pos..pos + width]);
      ArrayStep(data, pos, width, n, acc);
      ElementBytes(data, start, pos, width, acc);
      Elements(data, pos + width, width, n - 1, acc + [x], start);
    }
  }

  /** The bytes read so far grow by the element's own bytes. */
  lemma ElementBytes(data: seq<u8>, start: nat, pos: nat, width: nat, acc: seq<int>)
    requires start <= pos && pos + width <= |data| && width > 0 && AllFit(acc, width)
    requires data[start..pos] == E.ArrayBytes(acc, width)
    ensures AllFit(acc + [SignedFromBE(data[pos..pos + width])], width)
    ensures data[start..pos + width] == E.ArrayBytes(acc + [SignedFromBE(data[pos..pos + width])], width)
  {
    var b := data[pos..pos + width];
    assert data[start..pos + width] == data[start..pos] + b;
    var x := SignedFromBE(b);
    SignedBytes(b);
    E.ArrayAppend(acc, x, width);
  }

  /** One element of the loop: read it, then go on with it appended. */
  lemma ArrayStep(data: seq<u8>, pos: nat, width: nat, n: nat, acc: seq<int>)
    requires pos + width <= |data| && width > 0 && n > 0 && AllFit(acc, width)
    ensures FitsSigned(SignedFromBE(data[pos..pos + width]), width)
    ensures D.ArrayAt(data, pos, width, n, acc)
         == D.ArrayAt(data, pos + width, width, n - 1, acc + [SignedFromBE(data[pos..pos + width])])
  {
    assert D.SignedAt(data, pos, width).Ok?;
  }

  /**
   * A string payload: a non-negative i16 length, then that many bytes that must be UTF-8.
   * A short input or a negative length fails as truncated, invalid UTF-8 as an invalid string.
   */
  lemma DecodeString(data: seq<u8>, pos: nat)
    requires pos <= |data|
    ensures pos + 2 > |data| ==> D.StringAt(data, pos) == Err(D.Truncated)
    ensures pos + 2 <= |data| ==>
      var len := SignedFromBE(data[pos..pos + 2]);
      && (len < 0 || pos + 2 + len > |data| ==> D.StringAt(data, pos) == Err(D.Truncated))
      && (0 <= len && pos + 2 + len <= |data| ==>
            D.StringAt(data, pos) ==
              match Utf8.Decode(data[pos + 2..pos + 2 + len])
              case None => Err(D.InvalidString)
              case Some(s) => Ok((s, pos + 2 + len)))
  {
  }

  /**
   * A name: a u16 length (never negative), then that many bytes that must be UTF-8; a short
   * input fails as truncated and invalid UTF-8 as an invalid name.
   */
  lemma DecodeName(data: seq<u8>, pos: nat)
    requires pos <= |data|
    ensures pos + 2 > |data| ==> D.NameAt(data, pos) == Err(D.Truncated)
    ensures pos + 2 <= |data| ==>
      var len := FromBE(data[pos..pos + 2]);
      && (pos + 2 + len > |data| ==> D.NameAt(data, pos) == Err(D.Truncated))
      && (0 < len && pos + 2 + len <= |data| ==>
            D.NameAt(data, pos) ==
              match Utf8.Decode(data[pos + 2..pos + 2 + len])
              case None => Err(D.InvalidName)
              case Some(s) => Ok((s, pos + 2 + len)))
  {
  }

  /** The entries of a compound that `encode_tag` writes: those whose value is not End. */
  function Present(m: seq<(string, Tag)>): (p: seq<(string, Tag)>)
    ensures forall i :: 0 <= i < |p| ==> !p[i].1.End?
    ensures |p| <= |m|
  {
    if m == [] then []
    else if m[0].1.End? then Present(m[1..])
    else [m[0]] + Present(m[1..])
  }

  /**
   * An End value in a compound leaves no trace on the wire: the compound encodes exactly as
   * the compound of its other entries, in the same order, each as a named tag.
   */
  lemma {:induction false} CompoundSkipsEnd(m: seq<(string, Tag)>)
    ensures E.TagBytes(Compound(m)) == E.TagBytes(Compound(Present(m)))
    ensures E.TagBytes(Compound(m)) == Written(Present(m)) + [0]
  {
    SkipEnd(m);
    NoEnd(Present(m));
  }

  /** Each entry's named-tag bytes, back to back. */
  function Written(m: seq<(string, Tag)>): seq<u8> {
    if m == [] then [] else E.NamedBytes(m[0].0, m[0].1) + Written(m[1..])
  }

  lemma {:induction false} SkipEnd(m: seq<(string, Tag)>)
    ensures E.EntriesBytes(m) == E.EntriesBytes(Present(m))
  {
    if m != [] {
      SkipEnd(m[1..]);
      if !m[0].1.End? {
        assert ([m[0]] + Present(m[1..]))[1..] == Present(m[1..]);
      }
    }
  }

  lemma {:induction false} NoEnd(m: seq<(string, Tag)>)
    requires forall i :: 0 <= i < |m| ==> !m[i].1.End?
    ensures E.EntriesBytes(m) == Written(m)
  {
    if m != [] {
      NoEnd(m[1..]);
    }
  }

  /** A named tag on the wire: its kind id, the u16 name length, the name, then the payload. */
  lemma NamedLayout(name: string, t: Tag)
    ensures var b := E.NamedBytes(name, t); var n := Utf8.Encode(name);
      && b[0] == K.Id(KindOf(t))
      && FromBE(b[1..3]) == |n| % 0x1_0000
      && b[3..3 + |n|] == n
      && b[3 + |n|..] == E.TagBytes(t)
  {
    Pow256Values();
    var n := Utf8.Encode(name);
    var b := E.NamedBytes(name, t);
    var len := ToBE(WrapU16(|n|), 2);
    assert b == [K.Id(KindOf(t))] + len + n + E.TagBytes(t);
    assert b[1..3] == len;
    FromToBE(WrapU16(|n|), 2);
  }
}
