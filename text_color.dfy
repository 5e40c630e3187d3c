/**
 * Text colours of chat components (blocky-net/src/chat/text_color.rs): a 32-bit colour value
 * with an optional name, printed as the name or as `#RRGGBB`, and built from a formatting colour.
 */
module TextColors {
  import opened Ints
  import opened Results
  import CF = ChatFormatting

  datatype TextColor = TextColor(value: u32, name: Option<string>)

  /** `TextColor::new`. */
  function New(value: u32, name: Option<string>): (c: TextColor)
    ensures c.value == value && c.name == name
  {
    TextColor(value, name)
  }

  /** `new_with_empty_name`: no name. */
  function NewWithEmptyName(value: u32): (c: TextColor)
    ensures c.value == value && c.name.None?
  {
    New(value, None)
  }

  /** An upper-case hexadecimal digit. */
  function HexDigit(d: nat): (c: char)
    requires d < 16
    ensures IsHexDigit(c) && DigitValue(c) == d
  {
    if d < 10 then ('0' as int + d) as char else ('A' as int + d - 10) as char
  }

  predicate IsHexDigit(c: char) {
    '0' <= c <= '9' || 'A' <= c <= 'F'
  }

  function DigitValue(c: char): (d: nat)
    requires IsHexDigit(c)
    ensures d < 16
  {
    if c <= '9' then c as int - '0' as int else c as int - 'A' as int + 10
  }

  predicate AllHex(s: string) {
    forall i :: 0 <= i < |s| ==> IsHexDigit(s[i])
  }

  /** The upper-case hexadecimal digits of `v`, with no leading zero (`0` for zero). */
  function Hex(v: nat): (s: string)
    ensures |s| >= 1 && AllHex(s)
    ensures v < 16 <==> |s| == 1
  {
    if v < 16 then [HexDigit(v)] else Hex(v / 16) + [HexDigit(v % 16)]
  }

  /** The value of a hexadecimal numeral, most significant digit first. */
  function HexValue(s: string): nat
    requires AllHex(s)
  {
    if s == [] then 0 else HexValue(s[..|s| - 1]) * 16 + DigitValue(s[|s| - 1])
  }

  /** `{:06X}`: the digits padded on the left with zeros to at least six. */
  function Pad6(s: string): (p: string)
    ensures |p| == if |s| < 6 then 6 else |s|
    ensures p[|p| - |s|..] == s && forall i :: 0 <= i < |p| - |s| ==> p[i] == '0'
    ensures AllHex(s) ==> AllHex(p)
  {
    if |s| < 6 then seq(6 - |s|, _ => '0') + s else s
  }

  /** `format_value`: `#` and the value in upper-case hexadecimal, at least six digits. */
  function FormatValue(c: TextColor): (s: string)
    ensures |s| >= 7 && s[0] == '#' && AllHex(s[1..])
  {
    "#" + Pad6(Hex(c.value))
  }

  lemma {:induction false} HexRoundTrip(v: nat)
    ensures HexValue(Hex(v)) == v
  {
    if v >= 16 {
      var s := Hex(v);
      assert s[..|s| - 1] == Hex(v / 16);
      HexRoundTrip(v / 16);
    }
  }

  /** Leading zeros do not change the value of a numeral. */
  lemma {:induction false} LeadingZeros(z: string, s: string)
    requires AllHex(s) && forall i :: 0 <= i < |z| ==> z[i] == '0'
    ensures AllHex(z + s) && HexValue(z + s) == HexValue(s)
    decreases |s|
  {
    if s == [] {
      assert z + s == z;
      Zeros(z);
    } else {
      var n := |s| - 1;
      assert (z + s)[..|z + s| - 1] == z + s[..n];
      LeadingZeros(z, s[..n]);
    }
  }

  lemma {:induction false} Zeros(z: string)
    requires forall i :: 0 <= i < |z| ==> z[i] == '0'
    ensures AllHex(z) && HexValue(z) == 0
  {
    if z != [] {
      Zeros(z[..|z| - 1]);
    }
  }

  /** The hexadecimal text of `format_value` reads back as the value: no two values print alike. */
  lemma FormatValueRoundTrip(c: TextColor)
    ensures HexValue(FormatValue(c)[1..]) == c.value
  {
    var h := Hex(c.value);
    var p := Pad6(h);
    assert FormatValue(c)[1..] == p;
    HexRoundTrip(c.value);
    if |h| < 6 {
      LeadingZeros(seq(6 - |h|, _ => '0'), h);
    }
  }

  /** A 32-bit value needs at most eight digits, so `format_value` is seven to nine characters. */
  lemma FormatValueLength(c: TextColor)
    ensures 7 <= |FormatValue(c)| <= 9
    ensures c.value < 0x100_0000 ==> |FormatValue(c)| == 7
  {
    HexLength(c.value, 8);
    HexLength(c.value, 6);
  }

  /** `Pow16(n)` bounds the values with `n` digits. */
  function Pow16(n: nat): (p: nat)
    ensures p >= 1
  {
    if n == 0 then 1 else 16 * Pow16(n - 1)
  }

  lemma {:induction false} HexLength(v: nat, n: nat)
    requires n >= 1
    ensures v < Pow16(n) ==> |Hex(v)| <= n
  {
    if v >= 16 && n > 1 {
      HexLength(v / 16, n - 1);
    }
  }

  /** `Display`: the name when there is one, otherwise `format_value`. */
  function Display(c: TextColor): (s: string)
    ensures c.name.Some? ==> s == c.name.value
    ensures c.name.None? ==> s == FormatValue(c)
  {
    match c.name
    case Some(n) => n
    case None => FormatValue(c)
  }

  /** A colour made with `new_with_empty_name` displays as its hexadecimal value. */
  lemma EmptyNameDisplaysHex(value: u32)
    ensures Display(NewWithEmptyName(value)) == FormatValue(NewWithEmptyName(value))
    ensures HexValue(Display(NewWithEmptyName(value))[1..]) == value
  {
    FormatValueRoundTrip(NewWithEmptyName(value));
  }

  /** Why a formatting code cannot be converted (a panic in the source). */
  datatype ConversionError =
    | NotAColor     // "only colors can be converted": a format or RESET
    | MissingValue  // `color().unwrap()` on a colour constructed without a value

  /** `Into<TextColor> for ChatFormatting`: the colour value, named after the formatting. */
  function FromFormatting(f: CF.Formatting): (r: Result<TextColor, ConversionError>)
    ensures r.Ok? <==> CF.IsColor(f) && f.color.Some?
    ensures r.Ok? ==> r.value == TextColor(f.color.value, Some(f.name))
    ensures !CF.IsColor(f) ==> r == Err(NotAColor)
  {
    if !CF.IsColor(f) then Err(NotAColor)
    else if f.color.None? then Err(MissingValue)
    else Ok(New(f.color.value, Some(f.name)))
  }

  /** Every one of the sixteen colours converts, and displays as its upper-case name. */
  lemma ColorsConvert(i: nat)
    requires i < |CF.Colors|
    ensures FromFormatting(CF.Colors[i]) == Ok(TextColor(CF.Colors[i].color.value, Some(CF.Colors[i].name)))
    ensures Display(FromFormatting(CF.Colors[i]).value) == CF.Colors[i].name
  {
    CF.ColorsAreColors();
  }

  /** No format converts, and neither does RESET. */
  lemma NonColorsFail(i: nat)
    requires i < |CF.Formats|
    ensures FromFormatting(CF.Formats[i]) == Err(NotAColor)
    ensures FromFormatting(CF.RESET) == Err(NotAColor)
  {
    CF.FormatsAreNotColors();
  }
}
