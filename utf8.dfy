/**
 * UTF-8 as Rust strings use it (RFC 3629): `str::as_bytes` is `Encode`, and
 * `str::from_utf8`, which accepts exactly the well-formed byte sequences, is `Decode`.
 * A Dafny `char` is a Unicode scalar value, as a Rust `char` is.
 */
module Utf8 {
  import opened Ints
  import opened Results

  /** The one to four bytes that encode one scalar value. */
  function EncodeChar(c: char): (r: seq<u8>)
    ensures 1 <= |r| <= 4
    ensures |r| == 1 <==> c as int < 0x80
  {
    var n := c as int;
    if n < 0x80 then [n]
    else if n < 0x800 then [0xC0 + n / 64, 0x80 + n % 64]
    else if n < 0x1_0000 then [0xE0 + n / 4096, 0x80 + (n / 64) % 64, 0x80 + n % 64]
    else [0xF0 + n / 0x4_0000, 0x80 + (n / 4096) % 64, 0x80 + (n / 64) % 64, 0x80 + n % 64]
  }

  /** The UTF-8 bytes of a string. */
  function Encode(s: string): (r: seq<u8>)
    ensures |r| >= |s|
  {
    if s == [] then [] else EncodeChar(s[0]) + Encode(s[1..])
  }

  predicate IsContinuation(b: u8) {
    0x80 <= b < 0xC0
  }

  /** The scalar value of a two-byte sequence: five bits from the lead byte, six from the continuation. */
  function Scalar2(b0: int, b1: int): (c: char)
    requires 0xC2 <= b0 < 0xE0 && 0x80 <= b1 < 0xC0
    ensures 0x80 <= c as int < 0x800
    ensures c as int / 64 == b0 - 0xC0 && c as int % 64 == b1 - 0x80
  {
    ((b0 - 0xC0) * 64 + (b1 - 0x80)) as char
  }

  /** The scalar value of a three-byte sequence; the guards exclude overlong forms and surrogates. */
  function Scalar3(b0: int, b1: int, b2: int): (c: char)
    requires 0xE0 <= b0 < 0xF0 && 0x80 <= b1 < 0xC0 && 0x80 <= b2 < 0xC0
    requires (b0 != 0xE0 || b1 >= 0xA0) && (b0 != 0xED || b1 < 0xA0)
    ensures 0x800 <= c as int < 0x1_0000
    ensures c as int / 4096 == b0 - 0xE0 && (c as int / 64) % 64 == b1 - 0x80 && c as int % 64 == b2 - 0x80
  {
    var n := (b0 - 0xE0) * 4096 + (b1 - 0x80) * 64 + (b2 - 0x80);
    assert n / 64 == (b0 - 0xE0) * 64 + (b1 - 0x80);
    n as char
  }

  /** The scalar value of a four-byte sequence; the guards exclude overlong forms and values above U+10FFFF. */
  function Scalar4(b0: int, b1: int, b2: int, b3: int): (c: char)
    requires 0xF0 <= b0 < 0xF5 && 0x80 <= b1 < 0xC0 && 0x80 <= b2 < 0xC0 && 0x80 <= b3 < 0xC0
    requires (b0 != 0xF0 || b1 >= 0x90) && (b0 != 0xF4 || b1 < 0x90)
    ensures 0x1_0000 <= c as int
    ensures c as int / 0x4_0000 == b0 - 0xF0 && (c as int / 4096) % 64 == b1 - 0x80
    ensures (c as int / 64) % 64 == b2 - 0x80 && c as int % 64 == b3 - 0x80
  {
    var n := (b0 - 0xF0) * 0x4_0000 + (b1 - 0x80) * 4096 + (b2 - 0x80) * 64 + (b3 - 0x80);
    assert n / 4096 == (b0 - 0xF0) * 64 + (b1 - 0x80);
    assert n / 64 == ((b0 - 0xF0) * 64 + (b1 - 0x80)) * 64 + (b2 - 0x80);
    n as char
  }

  /**
   * The scalar value that `b` starts with and the length of its encoding, or None when `b`
   * does not start with a well-formed sequence (overlong forms, surrogates and values above
   * U+10FFFF are ill-formed, as are stray continuation bytes and truncated sequences).
   */
  function DecodeFirst(b: seq<u8>): (r: Option<(char, nat)>)
    requires |b| > 0
    ensures r.Some? ==> 1 <= r.value.1 <= |b|
  {
    var b0: int := b[0];
    if b0 < 0x80 then
      Some((b0 as char, 1))
    else if 0xC2 <= b0 < 0xE0 then
      if |b| >= 2 && IsContinuation(b[1]) then Some((Scalar2(b0, b[1]), 2)) else None
    else if 0xE0 <= b0 < 0xF0 then
      if |b| >= 3 && IsContinuation(b[1]) && IsContinuation(b[2])
         && (b0 != 0xE0 || b[1] >= 0xA0) && (b0 != 0xED || b[1] < 0xA0)
      then Some((Scalar3(b0, b[1], b[2]), 3))
      else None
    else if 0xF0 <= b0 < 0xF5 then
      if |b| >= 4 && IsContinuation(b[1]) && IsContinuation(b[2]) && IsContinuation(b[3])
         && (b0 != 0xF0 || b[1] >= 0x90) && (b0 != 0xF4 || b[1] < 0x90)
      then Some((Scalar4(b0, b[1], b[2], b[3]), 4))
      else None
    else None
  }

  /** `str::from_utf8`: the decoded string, or None when the bytes are not well-formed UTF-8. */
  function Decode(b: seq<u8>): (r: Option<string>)
    ensures r.Some? ==> |r.value| <= |b|
    decreases |b|
  {
    if b == [] then Some([])
    else
      match DecodeFirst(b)
      case None => None
      case Some((c, n)) =>
        match Decode(b[n..])
        case None => None
        case Some(rest) => Some([c] + rest)
  }

  /** ASCII bytes always decode, one char per byte. */
  lemma {:induction false} AsciiDecodes(b: seq<u8>)
    requires forall i :: 0 <= i < |b| ==> b[i] < 0x80
    ensures Decode(b).Some? && |Decode(b).value| == |b|
  {
    if b != [] {
      AsciiDecodes(b[1..]);
    }
  }

  /** Each scalar value's encoding decodes back to it, whatever follows. */
  lemma DecodeEncodeChar(c: char, rest: seq<u8>)
    ensures DecodeFirst(EncodeChar(c) + rest) == Some((c, |EncodeChar(c)|))
  {
    var n := c as int;
    var b := EncodeChar(c) + rest;
    if n < 0x80 {
    } else if n < 0x800 {
      assert b[0] == 0xC0 + n / 64 && b[1] == 0x80 + n % 64;
      Encode2(n);
    } else if n < 0x1_0000 {
      assert b[0] == 0xE0 + n / 4096 && b[1] == 0x80 + (n / 64) % 64 && b[2] == 0x80 + n % 64;
      Encode3(c);
    } else {
      assert b[0] == 0xF0 + n / 0x4_0000 && b[1] == 0x80 + (n / 4096) % 64;
      assert b[2] == 0x80 + (n / 64) % 64 && b[3] == 0x80 + n % 64;
      Encode4(c);
    }
  }

  lemma Encode2(n: int)
    requires 0x80 <= n < 0x800
    ensures Scalar2(0xC0 + n / 64, 0x80 + n % 64) as int == n
  {
    DivDiv(n);
    DivDiv(Scalar2(0xC0 + n / 64, 0x80 + n % 64) as int);
  }

  lemma Encode3(c: char)
    requires 0x800 <= c as int < 0x1_0000
    ensures var n := c as int;
      (0xE0 + n / 4096 != 0xE0 || 0x80 + (n / 64) % 64 >= 0xA0) && (0xE0 + n / 4096 != 0xED || 0x80 + (n / 64) % 64 < 0xA0)
    ensures var n := c as int; Scalar3(0xE0 + n / 4096, 0x80 + (n / 64) % 64, 0x80 + n % 64) == c
  {
    var n := c as int;
    DivDiv(n);
    DivDiv(Scalar3(0xE0 + n / 4096, 0x80 + (n / 64) % 64, 0x80 + n % 64) as int);
  }

  lemma Encode4(c: char)
    requires 0x1_0000 <= c as int
    ensures var n := c as int;
      (0xF0 + n / 0x4_0000 != 0xF0 || 0x80 + (n / 4096) % 64 >= 0x90) && (0xF0 + n / 0x4_0000 != 0xF4 || 0x80 + (n / 4096) % 64 < 0x90)
    ensures var n := c as int; Scalar4(0xF0 + n / 0x4_0000, 0x80 + (n / 4096) % 64, 0x80 + (n / 64) % 64, 0x80 + n % 64) == c
  {
    var n := c as int;
    DivDiv(n);
    DivDiv(Scalar4(0xF0 + n / 0x4_0000, 0x80 + (n / 4096) % 64, 0x80 + (n / 64) % 64, 0x80 + n % 64) as int);
  }

  lemma DivDiv(n: nat)
    ensures (n / 64) / 64 == n / 4096 && (n / 4096) / 64 == n / 0x4_0000
    ensures n == (n / 64) * 64 + n % 64
    ensures n == (n / 4096) * 4096 + ((n / 64) % 64) * 64 + n % 64
    ensures n == (n / 0x4_0000) * 0x4_0000 + ((n / 4096) % 64) * 4096 + ((n / 64) % 64) * 64 + n % 64
  {
  }

  /** A decoded scalar value re-encodes to exactly the bytes it was read from. */
  lemma EncodeDecodeFirst(b: seq<u8>)
    requires |b| > 0 && DecodeFirst(b).Some?
    ensures EncodeChar(DecodeFirst(b).value.0) == b[..DecodeFirst(b).value.1]
  {
    var b0: int := b[0];
    if 0x80 <= b0 < 0xE0 {
      assert b[..2] == [b[0], b[1]];
    } else if 0xE0 <= b0 < 0xF0 {
      assert b[..3] == [b[0], b[1], b[2]];
    } else if 0xF0 <= b0 {
      assert b[..4] == [b[0], b[1], b[2], b[3]];
    }
  }

  lemma {:induction false} EncodeAppend(s: string, t: string)
    ensures Encode(s + t) == Encode(s) + Encode(t)
  {
    if s == [] {
      assert s + t == t;
    } else {
      assert (s + t)[0] == s[0] && (s + t)[1..] == s[1..] + t;
      EncodeAppend(s[1..], t);
    }
  }

  /** `from_utf8` accepts what `as_bytes` produces and gives the string back. */
  lemma {:induction false} DecodeEncode(s: string)
    ensures Decode(Encode(s)) == Some(s)
  {
    if s != [] {
      var e := EncodeChar(s[0]);
      DecodeEncodeChar(s[0], Encode(s[1..]));
      assert (e + Encode(s[1..]))[|e|..] == Encode(s[1..]);
      DecodeEncode(s[1..]);
      assert [s[0]] + s[1..] == s;
    }
  }

  /** `from_utf8` accepts only the encodings of strings: a decoded string re-encodes to the same bytes. */
  lemma {:induction false} EncodeDecode(b: seq<u8>)
    requires Decode(b).Some?
    ensures Encode(Decode(b).value) == b
    decreases |b|
  {
    if b != [] {
      var first := DecodeFirst(b).value;
      EncodeDecodeFirst(b);
      EncodeDecode(b[first.1..]);
      var s := Decode(b).value;
      assert s[0] == first.0 && s[1..] == Decode(b[first.1..]).value;
      assert b == b[..first.1] + b[first.1..];
    }
  }

  /** The encoded length in bytes, which the wire format's length prefixes count. */
  function ByteLength(s: string): nat {
    |Encode(s)|
  }

  predicate IsAscii(s: string) {
    forall i :: 0 <= i < |s| ==> s[i] as int < 0x80
  }

  /** On ASCII text byte length and character count agree, so byte offsets are character offsets. */
  lemma {:induction false} AsciiByteLength(s: string)
    requires IsAscii(s)
    ensures |Encode(s)| == |s|
    ensures forall i :: 0 <= i < |s| ==> Encode(s)[i] == s[i] as int
  {
    if s != [] {
      AsciiByteLength(s[1..]);
    }
  }
}
