/**
 * The SNBT cursor of blocky-nbt/src/tag/parser/reader.rs as written, where it differs from
 * the char model of `TextReader`: `len` counts the bytes of the UTF-8 text while `position`
 * counts chars, so `done` can be false after the last char, and `read_unquoted_string`
 * slices the text at byte offsets equal to the char positions. On ASCII text both agree with
 * `TextReader`; on other text a scan that reaches the end fails, and a slice returns the
 * wrong bytes or panics off a char boundary.
 */
module ReaderAsWritten {
  import opened Ints
  import opened Results
  import Utf8
  import opened TextReader

  /** `len`: the length of the text in bytes. */
  function ByteLen(text: string): nat {
    |Utf8.Encode(text)|
  }

  /** `str::is_char_boundary`: the end, or a byte that does not continue a char. */
  predicate CharBoundary(bytes: seq<u8>, b: nat) {
    b == |bytes| || (b < |bytes| && !Utf8.IsContinuation(bytes[b]))
  }

  /**
   * The loop of `skip_whitespace` as written: it stops when the position reaches the byte
   * length, and `peek` fails once the chars run out before that.
   */
  function SkipWsAsWritten(text: string, pos: nat): (r: Result<nat, ReadError>)
    requires pos <= |text|
    ensures r.Ok? ==> pos <= r.value <= |text|
    ensures r.Err? ==> r.error == NotEnoughChars
    decreases |text| - pos
  {
    if pos >= ByteLen(text) then Ok(pos)
    else if pos >= |text| then Err(NotEnoughChars)
    else if IsWhitespace(text[pos]) then SkipWsAsWritten(text, pos + 1)
    else Ok(pos)
  }

  /** The loop of `read_unquoted_string` as written, stopping and failing in the same way. */
  function UnquotedEndAsWritten(text: string, pos: nat): (r: Result<nat, ReadError>)
    requires pos <= |text|
    ensures r.Ok? ==> pos <= r.value <= |text|
    ensures r.Err? ==> r.error == NotEnoughChars
    decreases |text| - pos
  {
    if pos >= ByteLen(text) then Ok(pos)
    else if pos >= |text| then Err(NotEnoughChars)
    else if IsAllowedInUnquotedString(text[pos]) then UnquotedEndAsWritten(text, pos + 1)
    else Ok(pos)
  }

  /** The outcome of `read_unquoted_string` as written, with the position it leaves. */
  datatype Unquoted =
    | Sliced(bytes: seq<u8>, pos: nat)   // the bytes `text[start..position]`
    | Failed(error: ReadError, pos: nat) // `peek` failed inside the loop
    | Panic                              // a slice bound is not a char boundary

  function ReadUnquotedAsWritten(text: string, pos: nat): (r: Unquoted)
    requires pos <= |text|
    ensures r.Failed? ==> r.error == NotEnoughChars && r.pos == |text|
  {
    var bytes := Utf8.Encode(text);
    match UnquotedEndAsWritten(text, pos)
    case Err(e) => Failed(e, |text|)
    case Ok(e) =>
      if CharBoundary(bytes, pos) && CharBoundary(bytes, e) then Sliced(bytes[pos..e], e) else Panic
  }

  /**
   * The byte-length test changes where whitespace skipping ends only when the whitespace runs
   * to the last char of a text with a non-ASCII char: then `peek` fails.
   */
  lemma {:induction false} SkipWsAgrees(text: string, pos: nat)
    requires pos <= |text|
    ensures SkipWsAsWritten(text, pos) ==
      if SkipWs(text, pos) == |text| < ByteLen(text) then Err(NotEnoughChars) else Ok(SkipWs(text, pos))
    decreases |text| - pos
  {
    if pos < |text| && IsWhitespace(text[pos]) {
      SkipWsAgrees(text, pos + 1);
    }
  }

  /** The same holds for the end of an unquoted string. */
  lemma {:induction false} UnquotedEndAgrees(text: string, pos: nat)
    requires pos <= |text|
    ensures UnquotedEndAsWritten(text, pos) ==
      if UnquotedEnd(text, pos) == |text| < ByteLen(text) then Err(NotEnoughChars) else Ok(UnquotedEnd(text, pos))
    decreases |text| - pos
  {
    if pos < |text| && IsAllowedInUnquotedString(text[pos]) {
      UnquotedEndAgrees(text, pos + 1);
    }
  }

  /** On ASCII text the source's `read_unquoted_string` is the char model's, in bytes. */
  lemma AsciiAgrees(text: string, pos: nat)
    requires pos <= |text| && Utf8.IsAscii(text)
    ensures ReadUnquotedAsWritten(text, pos) ==
      Sliced(Utf8.Encode(ReadUnquoted(text, pos).result.value), ReadUnquoted(text, pos).pos)
  {
    var e := UnquotedEnd(text, pos);
    var bytes := Utf8.Encode(text);
    Utf8.AsciiByteLength(text);
    UnquotedEndAgrees(text, pos);
    var s := text[pos..e];
    assert Utf8.IsAscii(s);
    Utf8.AsciiByteLength(s);
    assert bytes[pos..e] == Utf8.Encode(s);
  }

  /** The text `["é",a]` and its UTF-8 bytes: `é` takes two bytes. */
  const Sample: string := "[\"\U{00E9}\",a]"

  lemma SampleBytes()
    ensures Utf8.Encode(Sample) == [0x5B, 0x22, 0xC3, 0xA9, 0x22, 0x2C, 0x61, 0x5D]
  {
  }

  lemma SampleUnquotedEnd()
    ensures UnquotedEnd(Sample, 5) == 6
    ensures UnquotedEndAsWritten(Sample, 5) == Ok(6)
    ensures Sample[5..6] == "a"
  {
    SampleBytes();
    assert IsAllowedInUnquotedString(Sample[5]) && !IsAllowedInUnquotedString(Sample[6]);
    assert Sample[5..6] == [Sample[5]];
  }

  /**
   * In `["é",a]` the unquoted element `a` starts at char 5; the source slices bytes 5 to 6,
   * which hold the comma before it.
   */
  lemma UnquotedSliceCounterexample()
    ensures ReadUnquoted(Sample, 5) == Scan(Ok("a"), 6)
    ensures ReadUnquotedAsWritten(Sample, 5) == Sliced(Utf8.Encode(","), 6)
    ensures Utf8.Encode(",") != Utf8.Encode("a")
  {
    SampleBytes();
    SampleUnquotedEnd();
    assert Utf8.Encode(",") == [0x2C] && Utf8.Encode("a") == [0x61];
  }

  /** At the end of `é a`, reading the unquoted `a` fails in the source. */
  lemma UnquotedEndCounterexample()
    ensures ReadUnquoted("\U{00E9} a", 2) == Scan(Ok("a"), 3)
    ensures ReadUnquotedAsWritten("\U{00E9} a", 2) == Failed(NotEnoughChars, 3)
  {
    var text := "\U{00E9} a";
    assert ByteLen(text) == 4;
    assert IsAllowedInUnquotedString(text[2]);
    assert text[2..3] == "a";
  }
}
