/**
 * Fixed-width integers and their big-endian byte layouts, as `bytes::Buf::get_*`
 * and `bytes::BufMut::put_*` read and write them (network byte order, two's complement).
 * Integers are unbounded in Dafny, so every width, wrap-around and truncating cast is explicit here.
 */
module Ints {

  type u8 = x: int | 0 <= x < 0x100
  type u16 = x: int | 0 <= x < 0x1_0000
  type u32 = x: int | 0 <= x < 0x1_0000_0000
  type u64 = x: int | 0 <= x < 0x1_0000_0000_0000_0000
  type i8 = x: int | -0x80 <= x < 0x80
  type i16 = x: int | -0x8000 <= x < 0x8000
  type i32 = x: int | -0x8000_0000 <= x < 0x8000_0000
  type i64 = x: int | -0x8000_0000_0000_0000 <= x < 0x8000_0000_0000_0000

  /** 256 to the power n: the number of distinct values of an n-byte field. */
  function Pow256(n: nat): (r: nat)
    ensures r >= 1
  {
    if n == 0 then 1 else 256 * Pow256(n - 1)
  }

  lemma Pow256Values()
    ensures Pow256(1) == 0x100 && Pow256(2) == 0x1_0000
    ensures Pow256(4) == 0x1_0000_0000 && Pow256(8) == 0x1_0000_0000_0000_0000
  {
  }

  /** The value of a big-endian unsigned byte string. */
  function FromBE(s: seq<u8>): (v: nat)
    ensures v < Pow256(|s|)
  {
    if |s| == 0 then 0 else FromBE(s[..|s| - 1]) * 256 + s[|s| - 1]
  }

  /** The big-endian unsigned layout of `v` in exactly `width` bytes. */
  function ToBE(v: nat, width: nat): (r: seq<u8>)
    requires v < Pow256(width)
    ensures |r| == width
  {
    if width == 0 then [] else ToBE(v / 256, width - 1) + [v % 256]
  }

  /** Reading back a written field gives the written value. */
  lemma {:induction false} FromToBE(v: nat, width: nat)
    requires v < Pow256(width)
    ensures FromBE(ToBE(v, width)) == v
  {
    if width > 0 {
      var s := ToBE(v, width);
      assert s[..width - 1] == ToBE(v / 256, width - 1);
      FromToBE(v / 256, width - 1);
    }
  }

  /** Writing back a read field gives the same bytes: every byte string is the layout of its value. */
  lemma {:induction false} ToFromBE(s: seq<u8>)
    ensures ToBE(FromBE(s), |s|) == s
  {
    if |s| > 0 {
      var p := s[..|s| - 1];
      ToFromBE(p);
      assert FromBE(s) / 256 == FromBE(p);
      assert s == p + [s[|s| - 1]];
    }
  }

  /** Half of the range of a `width`-byte field: the bound of its signed interpretation. */
  function Half(width: nat): (h: int)
    requires width > 0
    ensures 0 < h < Pow256(width)
  {
    128 * Pow256(width - 1)
  }

  lemma HalfValues()
    ensures Half(1) == 0x80 && Half(2) == 0x8000
    ensures Half(4) == 0x8000_0000 && Half(8) == 0x8000_0000_0000_0000
  {
    assert Pow256(3) == 0x100_0000;
    assert Pow256(7) == 0x100_0000_0000_0000 by {
      assert Pow256(5) == 0x100_0000_0000;
    }
  }

  predicate FitsSigned(x: int, width: nat) {
    width > 0 && -Half(width) <= x < Half(width)
  }

  /** Every element fits a `width`-byte signed field. */
  predicate AllFit(v: seq<int>, width: nat) {
    forall i :: 0 <= i < |v| ==> FitsSigned(v[i], width)
  }

  /** The elements of the typed arrays fit their fields, and values that fit are of the typed range. */
  lemma TypedFit(b: seq<i8>, w: seq<i32>, l: seq<i64>)
    ensures AllFit(b, 1) && AllFit(w, 4) && AllFit(l, 8)
  {
    HalfValues();
  }

  lemma FitTyped(v: seq<int>, width: nat)
    requires AllFit(v, width) && (width == 1 || width == 4 || width == 8)
    ensures width == 1 ==> forall i :: 0 <= i < |v| ==> -0x80 <= v[i] < 0x80
    ensures width == 4 ==> forall i :: 0 <= i < |v| ==> -0x8000_0000 <= v[i] < 0x8000_0000
    ensures width == 8 ==> forall i :: 0 <= i < |v| ==> -0x8000_0000_0000_0000 <= v[i] < 0x8000_0000_0000_0000
  {
    HalfValues();
  }

  /** The two's-complement bit pattern of a signed value. */
  function ToUnsigned(x: int, width: nat): (v: nat)
    requires FitsSigned(x, width)
    ensures v < Pow256(width)
    ensures x >= 0 ==> v == x
  {
    if x < 0 then x + Pow256(width) else x
  }

  /** The signed value of a two's-complement bit pattern. */
  function ToSigned(v: nat, width: nat): (x: int)
    requires width > 0 && v < Pow256(width)
    ensures FitsSigned(x, width)
    ensures (x >= 0) == (v < Half(width))
  {
    if v >= Half(width) then v - Pow256(width) else v
  }

  lemma SignedRoundTrip(x: int, width: nat)
    requires FitsSigned(x, width)
    ensures ToSigned(ToUnsigned(x, width), width) == x
  {
  }

  lemma UnsignedRoundTrip(v: nat, width: nat)
    requires width > 0 && v < Pow256(width)
    ensures ToUnsigned(ToSigned(v, width), width) == v
  {
  }

  /** The big-endian two's-complement layout of a signed value (`put_i16`, `put_i32`, ...). */
  function SignedBE(x: int, width: nat): (r: seq<u8>)
    requires FitsSigned(x, width)
    ensures |r| == width
  {
    ToBE(ToUnsigned(x, width), width)
  }

  /** The signed value of a big-endian two's-complement field (`get_i16`, `get_i32`, ...). */
  function SignedFromBE(s: seq<u8>): (x: int)
    requires |s| > 0
    ensures FitsSigned(x, |s|)
  {
    ToSigned(FromBE(s), |s|)
  }

  lemma {:induction false} SignedFromToBE(x: int, width: nat)
    requires FitsSigned(x, width)
    ensures SignedFromBE(SignedBE(x, width)) == x
  {
    FromToBE(ToUnsigned(x, width), width);
  }

  /** Rust's `n as u16` on a non-negative integer: keep the low 16 bits. */
  function WrapU16(n: nat): (r: u16)
    ensures n < 0x1_0000 ==> r == n
  {
    n % 0x1_0000
  }

  /** Rust's `n as i16` on a `usize`: keep the low 16 bits, read them as two's complement. */
  function WrapI16(n: nat): (r: i16)
    ensures n < 0x8000 ==> r == n
  {
    Pow256Values();
    ToSigned(n % 0x1_0000, 2)
  }

  /** Rust's `n as i32` on a `usize`: keep the low 32 bits, read them as two's complement. */
  function WrapI32(n: nat): (r: i32)
    ensures n < 0x8000_0000 ==> r == n
  {
    Pow256Values();
    ToSigned(n % 0x1_0000_0000, 4)
  }
}
