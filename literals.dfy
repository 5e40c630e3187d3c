/**
 * `Parser::parse_type` (nbt/src/tag/parser/mod.rs): the typed reading of an unquoted token.
 * Each regex is an explicit predicate; all are case-insensitive in their letters (`(?i)`).
 */
module Literals {
  import opened Ints
  import opened Results
  import opened Tags
  import opened Floats
  import D = Decimal

  /** The length of an optional leading `+` or `-`. */
  function SignLen(s: string): (n: nat)
    ensures n <= 1 && n <= |s|
  {
    if |s| > 0 && (s[0] == '+' || s[0] == '-') then 1 else 0
  }

  /** `(?:0|[1-9][0-9]*)`. */
  predicate IntBody(s: string) {
    s == "0" || (|s| > 0 && '1' <= s[0] <= '9' && D.AllDigits(s))
  }

  /** `[-+]?(?:0|[1-9][0-9]*)`. */
  predicate IntForm(s: string) {
    IntBody(s[SignLen(s)..])
  }

  predicate NoDot(s: string) {
    forall i :: 0 <= i < |s| ==> s[i] != '.'
  }

  predicate DigitsAndDots(s: string) {
    forall i :: 0 <= i < |s| ==> D.IsDigit(s[i]) || s[i] == '.'
  }

  predicate HasDigit(s: string) {
    exists i :: 0 <= i < |s| && D.IsDigit(s[i])
  }

  /** The number of dots in `s`. */
  function Dots(s: string): nat {
    if s == [] then 0 else (if s[0] == '.' then 1 else 0) + Dots(s[1..])
  }

  /**
   * The mantissa `(?:[0-9]+[.]?|[0-9]*[.][0-9]+)` (digits with at most one dot and at least
   * one digit) or, when `needDot`, `(?:[0-9]+[.]|[0-9]*[.][0-9]+)` (exactly one dot).
   */
  predicate Mantissa(s: string, needDot: bool) {
    DigitsAndDots(s) && HasDigit(s) && (if needDot then Dots(s) == 1 else Dots(s) <= 1)
  }

  /** `e[-+]?[0-9]+` without its `e`. */
  predicate ExponentDigits(s: string) {
    var d := s[SignLen(s)..];
    |d| > 0 && D.AllDigits(d)
  }

  predicate IsE(c: char) {
    c == 'e' || c == 'E'
  }

  /** The index of the first `e`/`E` in `s`, or `|s|`. */
  function FirstE(s: string): (i: nat)
    ensures i <= |s|
    ensures i < |s| ==> IsE(s[i])
    ensures forall j :: 0 <= j < i ==> !IsE(s[j])
  {
    if s == [] then 0 else if IsE(s[0]) then 0 else 1 + FirstE(s[1..])
  }

  /** `[-+]?MANTISSA(?:e[-+]?[0-9]+)?`; the mantissa holds no `e`, so the exponent starts at the first one. */
  predicate DecimalForm(s: string, needDot: bool) {
    var body := s[SignLen(s)..];
    var i := FirstE(body);
    Mantissa(body[..i], needDot) && (i == |body| || ExponentDigits(body[i + 1..]))
  }

  /** The last char is the given suffix letter, in either case. */
  predicate EndsWith(s: string, lower: char, upper: char) {
    |s| > 0 && (s[|s| - 1] == lower || s[|s| - 1] == upper)
  }

  function Init(s: string): string
    requires |s| > 0
  {
    s[..|s| - 1]
  }

  /** Text of the integer pattern holds no dot, ends in a digit and is read by `str::parse`. */
  lemma IntFormParses(s: string)
    requires IntForm(s)
    ensures NoDot(s) && |s| > 0 && D.IsDigit(s[|s| - 1]) && D.ParseInt(s).Some?
  {
    var body := s[SignLen(s)..];
    assert D.AllDigits(body);
    assert forall i :: SignLen(s) <= i < |s| ==> s[i] == body[i - SignLen(s)];
  }

  /** A mantissa holds a digit, and its digits and dot sit at the same places in the whole text. */
  lemma DecimalFormDigit(s: string, needDot: bool)
    requires DecimalForm(s, needDot)
    ensures HasDigit(s)
  {
    var body := s[SignLen(s)..];
    var i := FirstE(body);
    var j :| 0 <= j < i && D.IsDigit(body[..i][j]);
    assert s[SignLen(s) + j] == body[..i][j];
  }

  /** A text with exactly one dot holds a dot. */
  lemma {:induction false} DotsWitness(s: string)
    requires Dots(s) > 0
    ensures !NoDot(s)
  {
    if s[0] != '.' {
      DotsWitness(s[1..]);
      var j :| 0 <= j < |s[1..]| && s[1..][j] == '.';
      assert s[j + 1] == '.';
    }
  }

  /** The dot that `(?:[0-9]+[.]|[0-9]*[.][0-9]+)` demands is a dot of the whole text. */
  lemma DecimalFormDot(s: string)
    requires DecimalForm(s, true)
    ensures !NoDot(s)
  {
    var body := s[SignLen(s)..];
    var i := FirstE(body);
    DotsWitness(body[..i]);
    var j :| 0 <= j < i && body[..i][j] == '.';
    assert s[SignLen(s) + j] == '.';
  }

  predicate IsFloatPattern(s: string)
    ensures IsFloatPattern(s) ==> |s| >= 2 && HasDigit(Init(s)) && s[|s| - 1] in "fF"
  {
    var r := EndsWith(s, 'f', 'F') && DecimalForm(Init(s), false);
    if r then DecimalFormDigit(Init(s), false); r else r
  }

  predicate IsBytePattern(s: string)
    ensures IsBytePattern(s) ==> |s| >= 2 && D.ParseInt(Init(s)).Some? && s[|s| - 1] in "bB"
  {
    var r := EndsWith(s, 'b', 'B') && IntForm(Init(s));
    if r then IntFormParses(Init(s)); r else r
  }

  predicate IsLongPattern(s: string)
    ensures IsLongPattern(s) ==> |s| >= 2 && D.ParseInt(Init(s)).Some? && s[|s| - 1] in "lL"
  {
    var r := EndsWith(s, 'l', 'L') && IntForm(Init(s));
    if r then IntFormParses(Init(s)); r else r
  }

  predicate IsShortPattern(s: string)
    ensures IsShortPattern(s) ==> |s| >= 2 && D.ParseInt(Init(s)).Some? && s[|s| - 1] in "sS"
  {
    var r := EndsWith(s, 's', 'S') && IntForm(Init(s));
    if r then IntFormParses(Init(s)); r else r
  }

  predicate IsIntPattern(s: string)
    ensures IsIntPattern(s) ==> D.ParseInt(s).Some? && NoDot(s) && D.IsDigit(s[|s| - 1])
  {
    if IntForm(s) then IntFormParses(s); true else false
  }

  predicate IsDoublePattern(s: string)
    ensures IsDoublePattern(s) ==> |s| >= 2 && HasDigit(Init(s)) && s[|s| - 1] in "dD"
  {
    var r := EndsWith(s, 'd', 'D') && DecimalForm(Init(s), false);
    if r then DecimalFormDigit(Init(s), false); r else r
  }

  predicate IsDoubleNoSuffixPattern(s: string)
    ensures IsDoubleNoSuffixPattern(s) ==> HasDigit(s) && !NoDot(s) && !IsIntPattern(s)
  {
    if DecimalForm(s, true) then DecimalFormDigit(s, true); DecimalFormDot(s); true else false
  }

  /** ASCII lowercase; the tokens handed to `parse_type` are ASCII, for which it is `to_lowercase`. */
  function Lower(s: string): (r: string)
    ensures |r| == |s|
  {
    if s == [] then [] else [if 'A' <= s[0] <= 'Z' then (s[0] as int + 32) as char else s[0]] + Lower(s[1..])
  }

  /** `str::parse` of a signed integer of the given range: the value, when it is in range. */
  function ParseRanged(s: string, lo: int, hi: int): (r: Option<int>)
    ensures r.Some? ==> lo <= r.value <= hi && D.ParseInt(s) == Some(r.value)
  {
    match D.ParseInt(s)
    case Some(v) => if D.InRange(v, lo, hi) then Some(v) else None
    case None => None
  }

  /**
   * `parse_type`: the first pattern that matches decides the type; when the number then
   * does not fit that type the whole call fails (None) with no later pattern tried.
   */
  function ParseType(s: string, fl: FloatText): (r: Option<Tag>)
    ensures r.Some? ==> r.value.Byte? || r.value.Short? || r.value.Int? || r.value.Long? || r.value.Float? || r.value.Double?
  {
    if IsFloatPattern(s) then Some(Float(fl.parseSingle(Init(s))))
    else if IsBytePattern(s) then
      match ParseRanged(Init(s), -0x80, 0x7F) case Some(v) => Some(Byte(v)) case None => None
    else if IsLongPattern(s) then
      match ParseRanged(Init(s), -0x8000_0000_0000_0000, 0x7FFF_FFFF_FFFF_FFFF) case Some(v) => Some(Long(v)) case None => None
    else if IsShortPattern(s) then
      match ParseRanged(Init(s), -0x8000, 0x7FFF) case Some(v) => Some(Short(v)) case None => None
    else if IsIntPattern(s) then
      match ParseRanged(s, -0x8000_0000, 0x7FFF_FFFF) case Some(v) => Some(Int(v)) case None => None
    else if IsDoublePattern(s) then Some(Double(fl.parseDouble(Init(s))))
    else if IsDoubleNoSuffixPattern(s) then Some(Double(fl.parseDouble(s)))
    else if Lower(s) == "true" then Some(Byte(1))
    else if Lower(s) == "false" then Some(Byte(0))
    else None
  }

  /** The tag of an unquoted token: its typed reading, or the token as a String (`or_else`). */
  function TypedToken(s: string, fl: FloatText): (t: Tag)
    requires |s| > 0
    ensures ParseType(s, fl).Some? ==> t == ParseType(s, fl).value
    ensures ParseType(s, fl).None? ==> t == String(s)
  {
    ParseType(s, fl).GetOr(String(s))
  }

  /** Printed integer digits have the shape the integer patterns require. */
  lemma IntTextForm(x: int)
    ensures IntForm(D.IntToString(x))
    ensures D.ParseInt(D.IntToString(x)) == Some(x)
  {
    D.IntToStringRoundTrip(x);
    var s := D.IntToString(x);
    if x < 0 {
      assert SignLen(s) == 1;
    } else {
      assert SignLen(s) == 0;
      assert s[0..] == s;
    }
  }

  lemma InitOf(s: string, c: char)
    ensures Init(s + [c]) == s
  {
  }

  /** `Display` of Byte (`<n>b`) is read back by `parse_type` as that Byte. */
  lemma ByteTextParses(v: i8, fl: FloatText)
    ensures ParseType(D.IntToString(v) + "b", fl) == Some(Byte(v))
  {
    var s := D.IntToString(v) + "b";
    InitOf(D.IntToString(v), 'b');
    IntTextForm(v);
    assert !IsFloatPattern(s);
  }

  /** `Display` of Short (`<n>s`) is read back as that Short. */
  lemma ShortTextParses(v: i16, fl: FloatText)
    ensures ParseType(D.IntToString(v) + "s", fl) == Some(Short(v))
  {
    var s := D.IntToString(v) + "s";
    InitOf(D.IntToString(v), 's');
    IntTextForm(v);
    assert !IsFloatPattern(s) && !IsBytePattern(s) && !IsLongPattern(s);
  }

  /** `Display` of Long (`<n>L`) is read back as that Long. */
  lemma LongTextParses(v: i64, fl: FloatText)
    ensures ParseType(D.IntToString(v) + "L", fl) == Some(Long(v))
  {
    var s := D.IntToString(v) + "L";
    InitOf(D.IntToString(v), 'L');
    IntTextForm(v);
    assert !IsFloatPattern(s) && !IsBytePattern(s);
  }

  /** `Display` of Int (bare digits) is read back as that Int. */
  lemma IntTextParses(v: i32, fl: FloatText)
    ensures ParseType(D.IntToString(v), fl) == Some(Int(v))
  {
    var s := D.IntToString(v);
    IntTextForm(v);
    assert D.IsDigit(s[|s| - 1]);
    assert !IsFloatPattern(s) && !IsBytePattern(s) && !IsLongPattern(s) && !IsShortPattern(s);
  }

  /** The matched pattern decides, even when the number does not fit: `300b` is no Byte. */
  lemma OutOfRangeByte(fl: FloatText)
    ensures ParseType("300b", fl) == None
    ensures TypedToken("300b", fl) == String("300b")
  {
    assert Init("300b") == "300";
    assert IntBody("300");
    assert D.ParseInt("300") == Some(300) by {
      assert D.DigitsValue("300") == 300 by {
        assert "300"[..2] == "30" && "30"[..1] == "3" && "3"[..0] == "";
      }
    }
    assert !IsFloatPattern("300b");
  }

  /** A token no pattern accepts is a String: `12x`. */
  lemma UnknownToken(fl: FloatText)
    ensures ParseType("12x", fl) == None
  {
    var s := "12x";
    assert s[SignLen(s)..] == s;
    assert !EndsWith(s, 'f', 'F') && !EndsWith(s, 'b', 'B') && !EndsWith(s, 'l', 'L');
    assert !EndsWith(s, 's', 'S') && !EndsWith(s, 'd', 'D');
    assert !IntForm(s) by { assert !D.IsDigit(s[2]); }
    assert !DecimalForm(s, true) by {
      assert FirstE(s) == 3;
      assert s[..3] == s;
      assert !DigitsAndDots(s) by { assert !D.IsDigit(s[2]) && s[2] != '.'; }
    }
    assert Lower(s) == s;
  }

  /** A token that starts with a letter has no sign and is no integer. */
  lemma LetterStart(s: string)
    requires |s| > 0 && ('a' <= s[0] <= 'z' || 'A' <= s[0] <= 'Z')
    ensures SignLen(s) == 0 && s[SignLen(s)..] == s && !IntForm(s)
  {
    assert s[0..] == s;
    assert !IntBody(s) by {
      assert s != "0" by { assert s[0] != '0'; }
    }
  }

  /** A word of letters other than `e`/`E` in its first `k` chars, followed by an `e`, is no decimal. */
  lemma WordNotDecimal(s: string, k: nat)
    requires 0 < k < |s| && IsE(s[k]) && ('a' <= s[0] <= 'z' || 'A' <= s[0] <= 'Z')
    requires forall j :: 0 <= j < k ==> !IsE(s[j])
    ensures !DecimalForm(s, true)
  {
    LetterStart(s);
    FirstEAt(s, k);
    assert !DigitsAndDots(s[..k]) by { assert s[..k][0] == s[0]; }
  }

  lemma {:induction false} FirstEAt(s: string, k: nat)
    requires k < |s| && IsE(s[k])
    requires forall j :: 0 <= j < k ==> !IsE(s[j])
    ensures FirstE(s) == k
  {
    if k > 0 {
      assert s[1..][k - 1] == s[k];
      FirstEAt(s[1..], k - 1);
    }
  }

  /** ASCII lowercase, char by char. */
  lemma {:induction false} LowerAt(s: string, i: nat)
    requires i < |s|
    ensures Lower(s)[i] == if 'A' <= s[i] <= 'Z' then (s[i] as int + 32) as char else s[i]
  {
    if i > 0 {
      LowerAt(s[1..], i - 1);
    }
  }

  /** The chars whose ASCII lowercase is `c`, a lower-case letter. */
  lemma LowerIs(s: string, i: nat, c: char, upper: char)
    requires i < |s| && 'a' <= c <= 'z' && upper as int == c as int - 32 && Lower(s)[i] == c
    ensures s[i] == c || s[i] == upper
  {
    LowerAt(s, i);
  }

  /** `true` in any case (`true`, `TRUE`, `True`, ...) is the Byte 1. */
  lemma TrueIsOne(s: string, fl: FloatText)
    requires Lower(s) == "true"
    ensures ParseType(s, fl) == Some(Byte(1))
  {
    LowerIs(s, 0, 't', 'T');
    LowerIs(s, 1, 'r', 'R');
    LowerIs(s, 2, 'u', 'U');
    LowerIs(s, 3, 'e', 'E');
    LetterStart(s);
    WordNotDecimal(s, 3);
  }

  /** `false` in any case is the Byte 0. */
  lemma FalseIsZero(s: string, fl: FloatText)
    requires Lower(s) == "false"
    ensures ParseType(s, fl) == Some(Byte(0))
  {
    LowerIs(s, 0, 'f', 'F');
    LowerIs(s, 1, 'a', 'A');
    LowerIs(s, 2, 'l', 'L');
    LowerIs(s, 3, 's', 'S');
    LowerIs(s, 4, 'e', 'E');
    LetterStart(s);
    WordNotDecimal(s, 4);
    assert Lower(s) != "true";
  }
}
