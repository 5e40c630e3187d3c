/**
 * The SNBT recursive-descent parser (nbt/src/tag/parser/mod.rs).
 *
 * Each parser operation is first a function of (text, position) returning the result and
 * the position the reader is left at, including after a failure (the parser saves and
 * restores positions to backtrack). `Parser`'s methods, which drive a `Reader`, are proved
 * equal to these functions.
 */
module Snbt {
  import opened Ints
  import opened Results
  import opened Tags
  import opened Floats
  import opened TextReader
  import opened Literals
  import K = Kinds
  import M = OrderedMap

  datatype ParseError =
    | Read(cause: ReadError)   // a reader failure propagated with `?`
    | MissingValue             // "missing expected value"
    | MissingKey               // "missing expected key"
    | MissingArrayValue        // "missing expected array value"
    | ExpectedStructClosure
    | ExpectedArrayClosure
    | MixedTags                // a typed-array element of another kind
    | MixedTypes               // a list element of another kind than the first
    | UnknownArrayType

  /**
   * The shape of every tag the parser returns: no End; each list has one element kind and
   * stores its id (0 when empty); compound keys are non-empty and unique.
   */
  predicate Canonical(t: Tag) {
    match t
    case End => false
    case List(id, items) =>
      id == (if |items| == 0 then 0 else K.Id(KindOf(items[0])))
      && forall i :: 0 <= i < |items| ==> KindOf(items[i]) == KindOf(items[0]) && Canonical(items[i])
    case Compound(m) =>
      M.UniqueKeys(m) && forall i :: 0 <= i < |m| ==> m[i].0 != "" && Canonical(m[i].1)
    case _ => true
  }

  predicate CanonicalEntries(m: seq<(string, Tag)>) {
    M.UniqueKeys(m) && forall i :: 0 <= i < |m| ==> m[i].0 != "" && Canonical(m[i].1)
  }

  /** Putting a non-empty key and a canonical value keeps a compound canonical. */
  lemma PutCanonical(m: seq<(string, Tag)>, k: string, v: Tag)
    requires CanonicalEntries(m) && k != "" && Canonical(v)
    ensures CanonicalEntries(M.Put(m, k, v))
  {
    M.PutUnique(m, k, v);
    M.PutPreserves(m, k, v, (e: (string, Tag)) => e.0 != "" && Canonical(e.1));
  }

  /** What the char a value starts with says about it: `{` a compound, `[` a list or typed array, else neither. */
  predicate Opens(c: char, t: Tag) {
    if c == '{' then t.Compound?
    else if c == '[' then t.List? || IsTypedArray(t)
    else !t.Compound? && !t.List? && !IsTypedArray(t)
  }

  /** The loop state of `read_list_tag`: `kind` is End before the first element, then its kind. */
  predicate ListState(kind: K.Kind, items: seq<Tag>) {
    if |items| == 0 then kind == K.End
    else kind == KindOf(items[0]) && forall i :: 0 <= i < |items| ==> KindOf(items[i]) == kind && Canonical(items[i])
  }

  /** `Parser::expect(c)`: skip whitespace, then `Reader::expect(c)`. */
  function ExpectAt(text: string, p: nat, c: char): (r: Scan<(), ParseError>)
    requires p <= |text|
    ensures p <= r.pos <= |text|
    ensures r.result.Ok? ==> r.pos == SkipWs(text, p) + 1 && text[r.pos - 1] == c
  {
    var q := SkipWs(text, p);
    if q == |text| then Scan(Err(Read(NotEnoughChars)), q)
    else if text[q] != c then Scan(Err(Read(Unexpected(c, text[q]))), q + 1)
    else Scan(Ok(()), q + 1)
  }

  /** `has_separator`: after whitespace, a `,` is consumed together with the whitespace after it. */
  function SeparatorAt(text: string, p: nat): (r: (bool, nat))
    requires p <= |text|
    ensures p <= r.1 <= |text|
    ensures r.0 <==> SkipWs(text, p) < |text| && text[SkipWs(text, p)] == ','
    ensures r.0 ==> r.1 == SkipWs(text, SkipWs(text, p) + 1)
    ensures !r.0 ==> r.1 == SkipWs(text, p)
  {
    var q := SkipWs(text, p);
    if q < |text| && text[q] == ',' then (true, SkipWs(text, q + 1)) else (false, q)
  }

  /** `read_key`: whitespace, then a (quoted or unquoted) string; the end of input is a missing key. */
  function ReadKeyAt(text: string, p: nat): (r: Scan<string, ParseError>)
    requires p <= |text|
    ensures p <= r.pos <= |text|
  {
    var q := SkipWs(text, p);
    if q == |text| then Scan(Err(MissingKey), q)
    else
      var s := ReadStr(text, q);
      match s.result
      case Ok(key) => Scan(Ok(key), s.pos)
      case Err(e) => Scan(Err(Read(e)), s.pos)
  }

  /**
   * `read_typed_value`: a token that starts with a quote is read as a quoted string and
   * gives a String or the reader's error; otherwise the unquoted run is typed by
   * `parse_type`, falling back to a String, and an empty run is a missing value with the
   * position restored to the token's start.
   */
  function TypedValueAt(text: string, p: nat, fl: FloatText): (r: Scan<Tag, ParseError>)
    requires p <= |text|
    ensures p <= r.pos <= |text|
    ensures r.result.Ok? ==> p < r.pos
    ensures r.result.Ok? ==> Canonical(r.result.value)
    ensures SkipWs(text, p) == |text| ==> r == Scan(Err(Read(NotEnoughChars)), |text|)
    ensures var q := SkipWs(text, p);
      q < |text| && IsQuote(text[q]) ==>
        r.pos == ReadQuoted(text, q).pos
        && (r.result.Ok? <==> ReadQuoted(text, q).result.Ok?)
        && (r.result.Ok? ==> r.result.value == String(ReadQuoted(text, q).result.value))
    ensures var q := SkipWs(text, p);
      q < |text| && !IsQuote(text[q]) && UnquotedEnd(text, q) == q ==> r == Scan(Err(MissingValue), q)
    ensures var q := SkipWs(text, p); var e := UnquotedEnd(text, q);
      q < |text| && !IsQuote(text[q]) && e > q ==> r == Scan(Ok(TypedToken(text[q..e], fl)), e)
  {
    var q := SkipWs(text, p);
    if q == |text| then Scan(Err(Read(NotEnoughChars)), q)
    else if IsQuote(text[q]) then
      var s := ReadQuoted(text, q);
      match s.result
      case Ok(str) => Scan(Ok(String(str)), s.pos)
      case Err(e) => Scan(Err(Read(e)), s.pos)
    else
      var e := UnquotedEnd(text, q);
      if e == q then Scan(Err(MissingValue), q)
      else Scan(Ok(TypedToken(text[q..e], fl)), e)
  }

  /**
   * `read_value`: dispatch on the first non-whitespace char. Empty or all-whitespace text
   * is a missing value; a `{` starts a compound, a `[` a list or typed array, and anything
   * else a scalar or string.
   */
  function ValueAt(text: string, p: nat, fl: FloatText): (r: Scan<Tag, ParseError>)
    requires p <= |text|
    ensures p <= r.pos <= |text|
    ensures r.result.Ok? ==> p < r.pos
    ensures r.result.Ok? ==> Canonical(r.result.value)
    decreases |text| - p, 3
  {
    var q := SkipWs(text, p);
    if q == |text| then Scan(Err(MissingValue), q)
    else if text[q] == '{' then StructAt(text, q, fl)
    else if text[q] == '[' then ListAt(text, q, fl)
    else TypedValueAt(text, q, fl)
  }

  /** `expect(close)` and, on success, `t`. */
  function CloseAt(text: string, p: nat, close: char, t: Tag): (r: Scan<Tag, ParseError>)
    requires p <= |text|
    ensures p <= r.pos <= |text|
    ensures r.result.Ok? ==> r.result.value == t && p < r.pos && text[r.pos - 1] == close
  {
    var e := ExpectAt(text, p, close);
    if e.result.Err? then Scan(Err(e.result.error), e.pos) else Scan(Ok(t), e.pos)
  }

  /** `read_struct`: a compound between `{` and `}`. */
  function StructAt(text: string, p: nat, fl: FloatText): (r: Scan<Tag, ParseError>)
    requires p <= |text|
    ensures p <= r.pos <= |text|
    ensures r.result.Ok? ==> p < r.pos
    ensures r.result.Ok? ==> Canonical(r.result.value)
    decreases |text| - p, 1
  {
    var e := ExpectAt(text, p, '{');
    if e.result.Err? then Scan(Err(e.result.error), e.pos)
    else StructLoop(text, SkipWs(text, e.pos), [], fl)
  }

  /**
   * The loop of `read_struct`, at position `p` with the entries `m` read so far. Each entry
   * is a non-empty key, a `:` and a value, inserted into `m` as it is read, so the keys
   * already in `m` keep their places in front of those read later.
   */
  function StructLoop(text: string, p: nat, m: seq<(string, Tag)>, fl: FloatText): (r: Scan<Tag, ParseError>)
    requires p <= |text|
    ensures p <= r.pos <= |text|
    ensures r.result.Ok? ==> p < r.pos
    ensures r.result.Ok? && CanonicalEntries(m) ==> Canonical(r.result.value)
    decreases |text| - p, 4
  {
    if p == |text| then Scan(Err(Read(NotEnoughChars)), p)
    else if text[p] == '}' then CloseAt(text, p, '}', Compound(m))
    else
      var k := ReadKeyAt(text, p);
      if k.result.Err? then Scan(Err(k.result.error), k.pos)
      else if k.result.value == "" then Scan(Err(MissingKey), p)
      else
        var colon := ExpectAt(text, k.pos, ':');
        if colon.result.Err? then Scan(Err(colon.result.error), colon.pos)
        else
          var v := ValueAt(text, colon.pos, fl);
          if v.result.Err? then v
          else
            var m' := M.Put(m, k.result.value, v.result.value);
            assert CanonicalEntries(m) ==> CanonicalEntries(m') by {
              if CanonicalEntries(m) {
                PutCanonical(m, k.result.value, v.result.value);
              }
            }
            var (more, q) := SeparatorAt(text, v.pos);
            if !more then CloseAt(text, q, '}', Compound(m'))
            else if q == |text| then Scan(Err(ExpectedStructClosure), q)
            else StructLoop(text, q, m', fl)
  }

  /** The list `read_list_tag` builds: its element id is the first element's kind id, or 0. */
  function MakeList(items: seq<Tag>): (t: Tag)
    ensures t.List? && t.items == items
    ensures KindOf(t) == K.List(t.elemId)
  {
    List(if |items| == 0 then 0 else K.Id(KindOf(items[0])), items)
  }

  /** `read_list`: a typed array when at least 3 chars remain, the 2nd is no quote and the 3rd is `;`. */
  function ListAt(text: string, p: nat, fl: FloatText): (r: Scan<Tag, ParseError>)
    requires p < |text| && text[p] == '['
    ensures p <= r.pos <= |text|
    ensures r.result.Ok? ==> p < r.pos
    ensures r.result.Ok? ==> Canonical(r.result.value)
    decreases |text| - p, 2
  {
    if |text| - p >= 3 && !IsQuote(text[p + 1]) && text[p + 2] == ';' then ArrayTagAt(text, p, fl)
    else ListTagAt(text, p, fl)
  }

  /** `read_list_tag`: a list between `[` and `]`; `[]` is the empty list with element id 0. */
  function ListTagAt(text: string, p: nat, fl: FloatText): (r: Scan<Tag, ParseError>)
    requires p <= |text|
    ensures p <= r.pos <= |text|
    ensures r.result.Ok? ==> p < r.pos
    ensures r.result.Ok? ==> Canonical(r.result.value)
    decreases |text| - p, 1
  {
    var e := ExpectAt(text, p, '[');
    if e.result.Err? then Scan(Err(e.result.error), e.pos)
    else
      var q := SkipWs(text, e.pos);
      if q == |text| then Scan(Err(MissingArrayValue), q)
      else ListLoop(text, q, K.End, [], fl)
  }

  /**
   * The loop of `read_list_tag`: `kind` is End until the first element fixes it, and an
   * element of another kind fails with the position reset to that element's start.
   */
  function ListLoop(text: string, p: nat, kind: K.Kind, items: seq<Tag>, fl: FloatText): (r: Scan<Tag, ParseError>)
    requires p <= |text|
    ensures p <= r.pos <= |text|
    ensures r.result.Ok? ==> p < r.pos
    ensures r.result.Ok? && ListState(kind, items) ==> Canonical(r.result.value)
    decreases |text| - p, 4
  {
    if p == |text| then Scan(Err(Read(NotEnoughChars)), p)
    else if text[p] == ']' then CloseAt(text, p, ']', MakeList(items))
    else
      var v := ValueAt(text, p, fl);
      if v.result.Err? then v
      else if kind != K.End && kind != KindOf(v.result.value) then Scan(Err(MixedTypes), p)
      else
        var kind' := if kind == K.End then KindOf(v.result.value) else kind;
        var items' := items + [v.result.value];
        assert ListState(kind, items) ==> ListState(kind', items') by {
          if ListState(kind, items) && |items| > 0 {
            assert items'[0] == items[0];
          }
        }
        var (more, q) := SeparatorAt(text, v.pos);
        if !more then CloseAt(text, q, ']', MakeList(items'))
        else if q == |text| then Scan(Err(ExpectedArrayClosure), q)
        else ListLoop(text, q, kind', items', fl)
  }

  predicate IsTypedArray(t: Tag) {
    t.ByteArray? || t.IntArray? || t.LongArray?
  }

  /** The kind each element of a typed array must have. */
  function ElementKind(acc: Tag): K.Kind
    requires IsTypedArray(acc)
  {
    if acc.ByteArray? then K.Byte else if acc.IntArray? then K.Int else K.Long
  }

  /** `u` is the typed array `t` with zero or more elements appended. */
  predicate Extends(t: Tag, u: Tag) {
    match t
    case ByteArray(bs) => u.ByteArray? && bs <= u.bytes
    case IntArray(xs) => u.IntArray? && xs <= u.ints
    case LongArray(ls) => u.LongArray? && ls <= u.longs
    case _ => false
  }

  /** `v.push(tag.into())`. */
  function Push(acc: Tag, v: Tag): (r: Tag)
    requires IsTypedArray(acc) && KindOf(v) == ElementKind(acc)
    ensures IsTypedArray(r) && ElementKind(r) == ElementKind(acc)
    ensures Extends(acc, r)
  {
    match acc
    case ByteArray(bs) => ByteArray(bs + [v.b])
    case IntArray(xs) => IntArray(xs + [v.i])
    case LongArray(ls) => LongArray(ls + [v.l])
  }

  /**
   * `read_array_tag`. It is reached only from `read_list`, which has seen `[` and at least
   * two further chars; the source steps over the third (the `;`) without looking. The
   * letter after `[` selects the array; running out of text restores the position to the
   * letter, and any other letter is an unknown array type.
   */
  function ArrayTagAt(text: string, p: nat, fl: FloatText): (r: Scan<Tag, ParseError>)
    requires p + 3 <= |text| && text[p] == '['
    ensures p <= r.pos <= |text|
    ensures r.result.Ok? ==> p < r.pos
    ensures r.result.Ok? ==> Canonical(r.result.value)
    decreases |text| - p, 1
  {
    var start := p + 1;
    var letter := text[p + 1];
    var q := SkipWs(text, p + 3);
    if q == |text| then Scan(Err(MissingArrayValue), start)
    else
      match EmptyArray(letter)
      case None => Scan(Err(UnknownArrayType), q)
      case Some(empty) => ArrayLoop(text, q, empty, fl)
  }

  /** The empty array the type letter selects: `B` bytes, `L` longs, `I` ints. */
  function EmptyArray(letter: char): (r: Option<Tag>)
    ensures r.Some? <==> letter == 'B' || letter == 'L' || letter == 'I'
    ensures letter == 'B' ==> r == Some(ByteArray([]))
    ensures letter == 'I' ==> r == Some(IntArray([]))
    ensures letter == 'L' ==> r == Some(LongArray([]))
    ensures r.Some? ==> IsTypedArray(r.value)
  {
    if letter == 'B' then Some(ByteArray([]))
    else if letter == 'L' then Some(LongArray([]))
    else if letter == 'I' then Some(IntArray([]))
    else None
  }

  /**
   * The `read_array!` loop, accumulating into the typed array `acc`; an element of another
   * kind fails with the position reset to that element's start.
   */
  function ArrayLoop(text: string, p: nat, acc: Tag, fl: FloatText): (r: Scan<Tag, ParseError>)
    requires p <= |text| && IsTypedArray(acc)
    ensures p <= r.pos <= |text|
    ensures r.result.Ok? ==> p < r.pos
    ensures r.result.Ok? ==> IsTypedArray(r.result.value)
    decreases |text| - p, 4
  {
    if p == |text| then Scan(Err(Read(NotEnoughChars)), p)
    else if text[p] == ']' then CloseAt(text, p, ']', acc)
    else
      var v := ValueAt(text, p, fl);
      if v.result.Err? then v
      else if KindOf(v.result.value) != ElementKind(acc) then Scan(Err(MixedTags), p)
      else
        var acc' := Push(acc, v.result.value);
        var (more, q) := SeparatorAt(text, v.pos);
        if !more then CloseAt(text, q, ']', acc')
        else if q == |text| then Scan(Err(ExpectedArrayClosure), q)
        else ArrayLoop(text, q, acc', fl)
  }

  /**
   * `Nbt::parse`: one value from the start of the text; anything after it is ignored. Blank
   * text has no value, and a text that starts with a quote is the string that quote reads.
   */
  function Parse(text: string, fl: FloatText): (r: Result<Tag, ParseError>)
    ensures SkipWs(text, 0) == |text| ==> r == Err(MissingValue)
    ensures var q := SkipWs(text, 0);
      q < |text| && IsQuote(text[q]) ==>
        (r.Ok? <==> ReadQuoted(text, q).result.Ok?)
        && (r.Ok? ==> r.value == String(ReadQuoted(text, q).result.value))
  {
    ValueAt(text, 0, fl).result
  }
}

/** The `Parser` object: a `Reader` it advances and rewinds, proved against the `Snbt` functions. */
module SnbtParser {
  import opened Results
  import opened Tags
  import opened Floats
  import opened TextReader
  import opened Literals
  import opened Snbt
  import K = Kinds
  import M = OrderedMap
  import SnbtLaws

  class Parser {
    const reader: Reader
    /** The float text functions `parse_type` relies on. */
    const fl: FloatText

    /** `Parser::new`. */
    constructor (s: string, fl: FloatText)
      ensures fresh(reader) && reader.chars == s && reader.position == 0 && reader.Valid()
      ensures this.fl == fl
    {
      reader := new Reader(s);
      this.fl := fl;
    }

    /** `Parser::expect`. */
    method Expect(c: char) returns (r: Result<(), ParseError>)
      requires reader.Valid()
      modifies reader
      ensures reader.Valid()
      ensures Scan(r, reader.position) == ExpectAt(reader.chars, old(reader.position), c)
    {
      reader.SkipWhitespace();
      var e := reader.Expect(c);
      if e.Err? {
        return Err(Read(e.error));
      }
      return Ok(());
    }

    /** `read_key`. */
    method ReadKey() returns (r: Result<string, ParseError>)
      requires reader.Valid()
      modifies reader
      ensures reader.Valid()
      ensures Scan(r, reader.position) == ReadKeyAt(reader.chars, old(reader.position))
    {
      reader.SkipWhitespace();
      if reader.Done() {
        return Err(MissingKey);
      }
      var s := reader.ReadString();
      if s.Err? {
        return Err(Read(s.error));
      }
      return Ok(s.value);
    }

    /** `read_typed_value`. */
    method ReadTypedValue() returns (r: Result<Tag, ParseError>)
      requires reader.Valid()
      modifies reader
      ensures reader.Valid()
      ensures Scan(r, reader.position) == TypedValueAt(reader.chars, old(reader.position), fl)
    {
      reader.SkipWhitespace();
      var start := reader.position;
      var c := reader.Peek();
      if c.Err? {
        return Err(Read(c.error));
      }
      if IsQuote(c.value) {
        var s := reader.ReadQuotedString();
        if s.Err? {
          return Err(Read(s.error));
        }
        return Ok(String(s.value));
      } else {
        var s := reader.ReadUnquotedString();
        if s == "" {
          reader.SetPosition(start);
          return Err(MissingValue);
        }
        return Ok(TypedToken(s, fl));
      }
    }

    /** `read_value`. */
    method ReadValue() returns (r: Result<Tag, ParseError>)
      requires reader.Valid()
      modifies reader
      ensures reader.Valid()
      ensures Scan(r, reader.position) == ValueAt(reader.chars, old(reader.position), fl)
      decreases |reader.chars| - reader.position, 3
    {
      reader.SkipWhitespace();
      if reader.Done() {
        return Err(MissingValue);
      }
      var c := reader.Peek();
      if c.value == '{' {
        r := ReadStruct();
      } else if c.value == '[' {
        r := ReadList();
      } else {
        r := ReadTypedValue();
      }
    }

    /** `has_separator`. */
    method HasSeparator() returns (more: bool)
      requires reader.Valid()
      modifies reader
      ensures reader.Valid()
      ensures (more, reader.position) == SeparatorAt(reader.chars, old(reader.position))
    {
      reader.SkipWhitespace();
      if !reader.Done() && reader.Peek().value == ',' {
        reader.Skip();
        reader.SkipWhitespace();
        return true;
      }
      return false;
    }

    /** `read_struct`: entries are inserted in textual order (a repeated key keeps its place). */
    method ReadStruct() returns (r: Result<Tag, ParseError>)
      requires reader.Valid()
      modifies reader
      ensures reader.Valid()
      ensures Scan(r, reader.position) == StructAt(reader.chars, old(reader.position), fl)
      decreases |reader.chars| - reader.position, 1
    {
      ghost var text := reader.chars;
      var open := Expect('{');
      if open.Err? {
        return Err(open.error);
      }
      reader.SkipWhitespace();
      ghost var target := StructAt(text, old(reader.position), fl);
      var m: seq<(string, Tag)> := [];
      while true
        invariant reader.Valid() && old(reader.position) < reader.position
        invariant StructLoop(text, reader.position, m, fl) == target
        decreases |text| - reader.position
      {
        var c := reader.Peek();
        if c.Err? {
          return Err(Read(c.error));
        }
        if c.value == '}' {
          break;
        }
        var start := reader.position;
        var key := ReadKey();
        if key.Err? {
          return Err(key.error);
        }
        if key.value == "" {
          reader.SetPosition(start);
          return Err(MissingKey);
        }
        var colon := Expect(':');
        if colon.Err? {
          return Err(colon.error);
        }
        var value := ReadValue();
        if value.Err? {
          return value;
        }
        m := M.Put(m, key.value, value.value);
        var more := HasSeparator();
        if !more {
          break;
        }
        if reader.Done() {
          return Err(ExpectedStructClosure);
        }
      }
      var close := Expect('}');
      if close.Err? {
        return Err(close.error);
      }
      return Ok(Compound(m));
    }

    /** `read_list`. */
    method ReadList() returns (r: Result<Tag, ParseError>)
      requires reader.Valid() && reader.position < |reader.chars| && reader.chars[reader.position] == '['
      modifies reader
      ensures reader.Valid()
      ensures Scan(r, reader.position) == ListAt(reader.chars, old(reader.position), fl)
      decreases |reader.chars| - reader.position, 2
    {
      if reader.HasRemaining(3) && !IsQuote(reader.PeekNth(1).value) && reader.PeekNth(2).value == ';' {
        r := ReadArrayTag();
      } else {
        r := ReadListTag();
      }
    }

    /** `read_list_tag`: every element must have the kind of the first. */
    method ReadListTag() returns (r: Result<Tag, ParseError>)
      requires reader.Valid()
      modifies reader
      ensures reader.Valid()
      ensures Scan(r, reader.position) == ListTagAt(reader.chars, old(reader.position), fl)
      decreases |reader.chars| - reader.position, 1
    {
      ghost var text := reader.chars;
      var open := Expect('[');
      if open.Err? {
        return Err(open.error);
      }
      reader.SkipWhitespace();
      if reader.Done() {
        return Err(MissingArrayValue);
      }
      ghost var target := ListTagAt(text, old(reader.position), fl);
      var kind := K.End;
      var v: seq<Tag> := [];
      while true
        invariant reader.Valid() && old(reader.position) < reader.position
        invariant ListLoop(text, reader.position, kind, v, fl) == target
        decreases |text| - reader.position
      {
        var c := reader.Peek();
        if c.Err? {
          return Err(Read(c.error));
        }
        if c.value == ']' {
          break;
        }
        var start := reader.position;
        var tag := ReadValue();
        if tag.Err? {
          return tag;
        }
        if kind == K.End {
          kind := KindOf(tag.value);
        } else if kind != KindOf(tag.value) {
          reader.SetPosition(start);
          return Err(MixedTypes);
        }
        v := v + [tag.value];
        var more := HasSeparator();
        if !more {
          break;
        }
        if reader.Done() {
          return Err(ExpectedArrayClosure);
        }
      }
      var close := Expect(']');
      if close.Err? {
        return Err(close.error);
      }
      return Ok(MakeList(v));
    }

    /** `read_array_tag`. */
    method ReadArrayTag() returns (r: Result<Tag, ParseError>)
      requires reader.Valid() && reader.position + 3 <= |reader.chars| && reader.chars[reader.position] == '['
      modifies reader
      ensures reader.Valid()
      ensures Scan(r, reader.position) == ArrayTagAt(reader.chars, old(reader.position), fl)
      decreases |reader.chars| - reader.position, 1
    {
      ghost var text := reader.chars;
      ghost var p := reader.position;
      var open := Expect('[');
      assert reader.position == p + 1;
      var start := reader.position;
      var kind := reader.Read();
      reader.Skip();
      reader.SkipWhitespace();
      assert reader.position == SkipWs(text, p + 3) && start == p + 1 && kind.value == text[p + 1];
      r := ReadArrayOfKind(start, kind.value);
      SnbtLaws.ArrayTagStep(text, p, fl);
    }

    /**
     * The rest of `read_array_tag` once the letter and the `;` are read: at the end of the
     * text the position goes back to the letter; a letter that names no array type fails.
     */
    method ReadArrayOfKind(start: nat, letter: char) returns (r: Result<Tag, ParseError>)
      requires reader.Valid() && start <= reader.position
      modifies reader
      ensures reader.Valid()
      ensures var q := old(reader.position);
        Scan(r, reader.position) ==
          if q == |reader.chars| then Scan(Err(MissingArrayValue), start)
          else if EmptyArray(letter).None? then Scan(Err(UnknownArrayType), q)
          else ArrayLoop(reader.chars, q, EmptyArray(letter).value, fl)
      decreases |reader.chars| - reader.position, 6
    {
      if reader.Done() {
        reader.SetPosition(start);
        return Err(MissingArrayValue);
      }
      var empty := EmptyArray(letter);
      if empty.None? {
        return Err(UnknownArrayType);
      }
      r := ReadArrayClosed(empty.value);
    }

    /** The element loop of `read_array_tag`, then the closing `]`. */
    method ReadArrayClosed(empty: Tag) returns (r: Result<Tag, ParseError>)
      requires reader.Valid() && IsTypedArray(empty)
      modifies reader
      ensures reader.Valid()
      ensures Scan(r, reader.position) == ArrayLoop(reader.chars, old(reader.position), empty, fl)
      decreases |reader.chars| - reader.position, 5
    {
      r := ReadArray(empty);
      if r.Err? {
        return r;
      }
      var close := Expect(']');
      if close.Err? {
        return Err(close.error);
      }
    }

    /**
     * The loop of `read_array!`, started with the empty array of the chosen type: every
     * element must have that array's element kind, or the position goes back to it.
     */
    method ReadArray(empty: Tag) returns (r: Result<Tag, ParseError>)
      requires reader.Valid() && IsTypedArray(empty)
      modifies reader
      ensures reader.Valid()
      ensures r.Err? ==> Scan(r, reader.position) == ArrayLoop(reader.chars, old(reader.position), empty, fl)
      ensures r.Ok? ==> CloseAt(reader.chars, reader.position, ']', r.value)
                        == ArrayLoop(reader.chars, old(reader.position), empty, fl)
      decreases |reader.chars| - reader.position, 4
    {
      ghost var text := reader.chars;
      ghost var target := ArrayLoop(text, old(reader.position), empty, fl);
      var acc := empty;
      while true
        invariant reader.Valid() && old(reader.position) <= reader.position && IsTypedArray(acc)
        invariant ArrayLoop(text, reader.position, acc, fl) == target
        decreases |text| - reader.position
      {
        var c := reader.Peek();
        if c.Err? {
          return Err(Read(c.error));
        }
        if c.value == ']' {
          break;
        }
        var start := reader.position;
        var tag := ReadValue();
        if tag.Err? {
          return tag;
        }
        if KindOf(tag.value) != ElementKind(acc) {
          reader.SetPosition(start);
          return Err(MixedTags);
        }
        acc := Push(acc, tag.value);
        var more := HasSeparator();
        if !more {
          break;
        }
        if reader.Done() {
          return Err(ExpectedArrayClosure);
        }
      }
      return Ok(acc);
    }
  }

  /** `Nbt::parse`: a fresh parser reads one value. */
  method ParseText(s: string, fl: FloatText) returns (r: Result<Tag, ParseError>)
    ensures r == Parse(s, fl)
  {
    var parser := new Parser(s, fl);
    r := parser.ReadValue();
  }
}
