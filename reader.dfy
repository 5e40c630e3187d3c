/**
 * The SNBT character cursor (blocky-nbt/src/tag/parser/reader.rs).
 *
 * The text is a sequence of chars and every position is a char index. (The source measures
 * the remaining input in bytes and slices unquoted strings by byte offsets; see
 * `ReaderAsWritten` for that behaviour and why it differs for non-ASCII text.)
 *
 * Each cursor operation is specified by a function of (text, position) returning a
 * `Scan(result, new position)`; the methods of `Reader` are proved equal to those functions.
 */
module TextReader {
  import opened Results

  datatype ReadError =
    | NotEnoughChars                        // peek/read past the end
    | Unexpected(wanted: char, got: char)   // `expect` saw another char
    | InvalidQuote                          // `read_quoted_string` not at a quote
    | InvalidEscape                         // a backslash before anything but the quote or `\`
    | UnexpectedEndOfString                 // no closing quote

  predicate IsQuote(c: char)
    ensures IsQuote(c) ==> !IsAllowedInUnquotedString(c) && !IsWhitespace(c)
  {
    c == '"' || c == '\''
  }

  /** `Reader::is_allowed_in_unquoted_string`: `[0-9A-Za-z_\-.+]`. */
  predicate IsAllowedInUnquotedString(c: char)
    ensures IsAllowedInUnquotedString(c) ==> !IsWhitespace(c) && c as int < 128
    ensures IsAllowedInUnquotedString(c) ==> c !in "{}[],:;\\"
  {
    ('0' <= c <= '9') || ('A' <= c <= 'Z') || ('a' <= c <= 'z') || c == '_' || c == '-' || c == '.' || c == '+'
  }

  /** `char::is_whitespace`: the Unicode White_Space property. */
  predicate IsWhitespace(c: char)
    ensures c as int < 128 ==> (IsWhitespace(c) <==> c == ' ' || '\t' <= c <= '\r')
  {
    ('\t' <= c <= '\r') || c == ' ' || c == '\U{0085}' || c == '\U{00A0}' || c == '\U{1680}'
    || ('\U{2000}' <= c <= '\U{200A}') || c == '\U{2028}' || c == '\U{2029}' || c == '\U{202F}'
    || c == '\U{205F}' || c == '\U{3000}'
  }

  /** Where `skip_whitespace` stops: the first non-whitespace at or after `pos`, or the end. */
  function SkipWs(text: string, pos: nat): (r: nat)
    requires pos <= |text|
    ensures pos <= r <= |text|
    ensures forall i :: pos <= i < r ==> IsWhitespace(text[i])
    ensures r == |text| || !IsWhitespace(text[r])
    decreases |text| - pos
  {
    if pos < |text| && IsWhitespace(text[pos]) then SkipWs(text, pos + 1) else pos
  }

  /** Where `read_unquoted_string` stops: the end of the maximal run of allowed chars. */
  function UnquotedEnd(text: string, pos: nat): (r: nat)
    requires pos <= |text|
    ensures pos <= r <= |text|
    ensures forall i :: pos <= i < r ==> IsAllowedInUnquotedString(text[i])
    ensures r == |text| || !IsAllowedInUnquotedString(text[r])
    decreases |text| - pos
  {
    if pos < |text| && IsAllowedInUnquotedString(text[pos]) then UnquotedEnd(text, pos + 1) else pos
  }

  /** `read_unquoted_string` (never fails). */
  function ReadUnquoted(text: string, pos: nat): (r: Scan<string, ReadError>)
    requires pos <= |text|
    ensures r.result.Ok? && r.pos == UnquotedEnd(text, pos)
    ensures r.result.value == text[pos..r.pos]
  {
    var e := UnquotedEnd(text, pos);
    Scan(Ok(text[pos..e]), e)
  }

  /** `s` occurs in `text` at position `p`. */
  predicate At(text: string, p: nat, s: string) {
    p + |s| <= |text| && text[p..p + |s|] == s
  }

  lemma AtSplit(text: string, p: nat, a: string, b: string)
    requires At(text, p, a + b)
    ensures At(text, p, a) && At(text, p + |a|, b)
  {
    assert text[p..p + |a|] == text[p..p + |a + b|][..|a|];
    assert text[p + |a|..p + |a| + |b|] == text[p..p + |a + b|][|a|..];
  }

  lemma AtChar(text: string, p: nat, s: string, k: nat)
    requires At(text, p, s) && k < |s|
    ensures text[p + k] == s[k]
  {
    assert text[p + k] == text[p..p + |s|][k];
  }

  /**
   * `read_string_until(q)` from `pos`, with `escaped` and `acc` the loop's flag and builder:
   * a backslash escapes the next char, which must be `q` or a backslash; an unescaped `q`
   * ends the string and is consumed. A bad escape leaves the position on the offending char.
   */
  function Until(text: string, pos: nat, q: char, escaped: bool, acc: string): (r: Scan<string, ReadError>)
    requires pos <= |text|
    ensures pos <= r.pos <= |text|
    ensures r.result.Ok? ==> pos < r.pos && text[r.pos - 1] == q
    ensures r.result.Err? && r.result.error == UnexpectedEndOfString ==> r.pos == |text|
    decreases |text| - pos
  {
    if pos == |text| then Scan(Err(UnexpectedEndOfString), pos)
    else
      var c := text[pos];
      if escaped then
        if c == q || c == '\\' then Until(text, pos + 1, q, false, acc + [c])
        else Scan(Err(InvalidEscape), pos)
      else if c == '\\' then Until(text, pos + 1, q, true, acc)
      else if c == q then Scan(Ok(acc), pos + 1)
      else Until(text, pos + 1, q, false, acc + [c])
  }

  /**
   * `read_quoted_string`: the empty string at the end of input, a failure when the next char
   * is not a quote, otherwise the text up to the matching unescaped quote.
   */
  function ReadQuoted(text: string, pos: nat): (r: Scan<string, ReadError>)
    requires pos <= |text|
    ensures pos <= r.pos <= |text|
    ensures pos == |text| ==> r == Scan(Ok(""), pos)
    ensures pos < |text| && !IsQuote(text[pos]) ==> r == Scan(Err(InvalidQuote), pos)
    ensures pos < |text| && r.result.Ok? ==> IsQuote(text[pos]) && pos + 2 <= r.pos && text[r.pos - 1] == text[pos]
  {
    if pos == |text| then Scan(Ok(""), pos)
    else if !IsQuote(text[pos]) then Scan(Err(InvalidQuote), pos)
    else Until(text, pos + 1, text[pos], false, "")
  }

  /** `read_string`: quoted when the next char is a quote, unquoted otherwise. */
  function ReadStr(text: string, pos: nat): (r: Scan<string, ReadError>)
    requires pos <= |text|
    ensures pos <= r.pos <= |text|
    ensures pos < |text| && IsQuote(text[pos]) ==> r == ReadQuoted(text, pos)
    ensures (pos == |text| || !IsQuote(text[pos])) ==> r == ReadUnquoted(text, pos)
  {
    if pos == |text| then Scan(Ok(""), pos)
    else if IsQuote(text[pos]) then ReadQuoted(text, pos)
    else ReadUnquoted(text, pos)
  }

  /** A backslash followed by anything but the quote or a backslash is rejected at the second char. */
  lemma BadEscape(text: string, pos: nat, q: char, acc: string)
    requires pos + 1 < |text| && text[pos] == '\\' && text[pos + 1] != q && text[pos + 1] != '\\'
    ensures Until(text, pos, q, false, acc) == Scan(Err(InvalidEscape), pos + 1)
  {
  }

  /** Text without the quote and without backslashes is copied up to the end and then fails. */
  lemma {:induction false} UnterminatedFails(text: string, pos: nat, q: char, acc: string)
    requires pos <= |text|
    requires forall i :: pos <= i < |text| ==> text[i] != q && text[i] != '\\'
    ensures Until(text, pos, q, false, acc) == Scan(Err(UnexpectedEndOfString), |text|)
    decreases |text| - pos
  {
    if pos < |text| {
      UnterminatedFails(text, pos + 1, q, acc + [text[pos]]);
    }
  }

  /** The cursor: the text as chars and a position into it. */
  class Reader {
    const chars: seq<char>
    var position: nat

    predicate Valid()
      reads this
    {
      position <= |chars|
    }

    /** `Reader::new`. */
    constructor (text: string)
      ensures chars == text && position == 0 && Valid()
    {
      chars := text;
      position := 0;
    }

    /** `set_position`: the parser's backtracking. */
    method SetPosition(p: nat)
      requires p <= |chars|
      modifies this
      ensures position == p && Valid()
    {
      position := p;
    }

    /** `len`, counted in chars. */
    function Len(): (n: nat)
      ensures n == |chars|
    {
      |chars|
    }

    function Remaining(): (n: nat)
      reads this
      requires Valid()
      ensures position + n == Len()
    {
      |chars| - position
    }

    predicate HasRemaining(n: nat)
      reads this
      requires Valid()
      ensures HasRemaining(n) <==> position + n <= |chars|
    {
      Remaining() >= n
    }

    predicate Done()
      reads this
      requires Valid()
      ensures Done() <==> position == |chars|
    {
      !HasRemaining(1)
    }

    /** `peek_nth`: the char `n` ahead of the position, without moving. */
    function PeekNth(n: nat): (r: Result<char, ReadError>)
      reads this
      ensures r.Ok? <==> position + n < |chars|
      ensures r.Ok? ==> r.value == chars[position + n]
      ensures r.Err? ==> r.error == NotEnoughChars
    {
      if position + n < |chars| then Ok(chars[position + n]) else Err(NotEnoughChars)
    }

    function Peek(): (r: Result<char, ReadError>)
      reads this
      ensures r == PeekNth(0)
    {
      PeekNth(0)
    }

    /** `read_nth`: on success the char `n` ahead, having advanced by `n + 1`; else no move. */
    method ReadNth(n: nat) returns (r: Result<char, ReadError>)
      requires Valid()
      modifies this
      ensures Valid()
      ensures r == old(PeekNth(n))
      ensures position == if r.Ok? then old(position) + n + 1 else old(position)
    {
      r := PeekNth(n);
      if r.Ok? {
        position := position + 1 + n;
      }
    }

    method Read() returns (r: Result<char, ReadError>)
      requires Valid()
      modifies this
      ensures Valid()
      ensures r == old(PeekNth(0))
      ensures position == if r.Ok? then old(position) + 1 else old(position)
    {
      r := ReadNth(0);
    }

    /** `skip`: step over one char (every caller has seen that char, or knows it is there). */
    method Skip()
      requires position < |chars|
      modifies this
      ensures position == old(position) + 1 && Valid()
    {
      position := position + 1;
    }

    /** `skip_whitespace` (its result is always `Ok`). */
    method SkipWhitespace()
      requires Valid()
      modifies this
      ensures Valid() && position == SkipWs(chars, old(position))
    {
      while !Done()
        invariant Valid()
        invariant SkipWs(chars, position) == SkipWs(chars, old(position))
        decreases |chars| - position
      {
        var c := Peek();
        if IsWhitespace(c.value) {
          Skip();
        } else {
          break;
        }
      }
    }

    /** `expect(c)`: read one char and fail if it is not `c`; the char is consumed either way. */
    method Expect(c: char) returns (r: Result<(), ReadError>)
      requires Valid()
      modifies this
      ensures Valid()
      ensures old(position) == |chars| ==> r == Err(NotEnoughChars) && position == old(position)
      ensures old(position) < |chars| ==> position == old(position) + 1
      ensures old(position) < |chars| ==>
                r == if chars[old(position)] == c then Ok(()) else Err(Unexpected(c, chars[old(position)]))
    {
      var got := Read();
      if got.Err? {
        return Err(got.error);
      }
      if got.value != c {
        return Err(Unexpected(c, got.value));
      }
      return Ok(());
    }

    /** `read_unquoted_string` (its result is always `Ok`). */
    method ReadUnquotedString() returns (s: string)
      requires Valid()
      modifies this
      ensures Valid()
      ensures Scan(Ok(s), position) == ReadUnquoted(chars, old(position))
    {
      var start := position;
      while !Done() && IsAllowedInUnquotedString(Peek().value)
        invariant start <= position <= |chars|
        invariant UnquotedEnd(chars, position) == UnquotedEnd(chars, start)
        decreases |chars| - position
      {
        Skip();
      }
      s := chars[start..position];
    }

    /** `read_string_until(q)`: the loop over `escaped` and `builder`. */
    method ReadStringUntil(q: char) returns (r: Result<string, ReadError>)
      requires Valid()
      modifies this
      ensures Valid()
      ensures Scan(r, position) == Until(chars, old(position), q, false, "")
    {
      var builder := "";
      var escaped := false;
      while !Done()
        invariant Valid()
        invariant Until(chars, position, q, escaped, builder) == Until(chars, old(position), q, false, "")
        decreases |chars| - position
      {
        var c := Read();
        var readChr := c.value;
        if escaped {
          if readChr == q || readChr == '\\' {
            builder := builder + [readChr];
            escaped := false;
          } else {
            position := position - 1;
            return Err(InvalidEscape);
          }
        } else if readChr == '\\' {
          escaped := true;
        } else if readChr == q {
          return Ok(builder);
        } else {
          builder := builder + [readChr];
        }
      }
      return Err(UnexpectedEndOfString);
    }

    /** `read_quoted_string`. */
    method ReadQuotedString() returns (r: Result<string, ReadError>)
      requires Valid()
      modifies this
      ensures Valid()
      ensures Scan(r, position) == ReadQuoted(chars, old(position))
    {
      if Done() {
        return Ok("");
      }
      var c := Peek();
      if !IsQuote(c.value) {
        return Err(InvalidQuote);
      }
      Skip();
      r := ReadStringUntil(c.value);
    }

    /** `read_string`. */
    method ReadString() returns (r: Result<string, ReadError>)
      requires Valid()
      modifies this
      ensures Valid()
      ensures Scan(r, position) == ReadStr(chars, old(position))
    {
      if Done() {
        return Ok("");
      }
      var c := Peek();
      if IsQuote(c.value) {
        r := ReadQuotedString();
      } else {
        var s := ReadUnquotedString();
        r := Ok(s);
      }
    }
  }
}
