/**
 * The SNBT printer: `quote_and_escape` and `Display for Tag` (blocky-nbt/src/tag/mod.rs).
 * Printing End is a fault in the source (a panic); here it is the error `CannotPrintEnd`.
 */
module Printer {
  import opened Ints
  import opened Results
  import opened Tags
  import opened Floats
  import Decimal
  import TextReader

  /** The first `"` or `'` in `s`. */
  function FirstQuote(s: string): (r: Option<char>)
    ensures r.Some? ==> TextReader.IsQuote(r.value)
  {
    if s == [] then None
    else if TextReader.IsQuote(s[0]) then Some(s[0])
    else FirstQuote(s[1..])
  }

  /** `FirstQuote` finds the quote at the smallest index holding one, and none when there is none. */
  lemma {:induction false} FirstQuoteIsFirst(s: string)
    ensures FirstQuote(s).None? <==> forall i :: 0 <= i < |s| ==> !TextReader.IsQuote(s[i])
    ensures FirstQuote(s).Some? ==>
              exists i :: 0 <= i < |s| && s[i] == FirstQuote(s).value
                          && forall j :: 0 <= j < i ==> !TextReader.IsQuote(s[j])
  {
    if s != [] && !TextReader.IsQuote(s[0]) {
      FirstQuoteIsFirst(s[1..]);
      assert forall i :: 1 <= i < |s| ==> s[i] == s[1..][i - 1];
      if FirstQuote(s).Some? {
        var i :| 0 <= i < |s[1..]| && s[1..][i] == FirstQuote(s).value
                 && forall j :: 0 <= j < i ==> !TextReader.IsQuote(s[1..][j]);
        assert s[i + 1] == FirstQuote(s).value;
      }
    }
  }

  /** The quote `quote_and_escape` wraps `s` in: the other one than the first quote in `s`, else `"`. */
  function QuoteFor(s: string): (q: char)
    ensures TextReader.IsQuote(q)
    ensures FirstQuote(s) == Some('"') ==> q == '\''
    ensures FirstQuote(s) != Some('"') ==> q == '"'
  {
    if FirstQuote(s) == Some('"') then '\'' else '"'
  }

  /** One char inside quotes `q`: backslashes are doubled and `q` is preceded by a backslash. */
  function EscapeChar(c: char, q: char): string {
    if c == '\\' then ['\\', '\\'] else if c == q then ['\\', q] else [c]
  }

  function Escape(s: string, q: char): (r: string)
    ensures |r| >= |s|
  {
    if s == [] then [] else EscapeChar(s[0], q) + Escape(s[1..], q)
  }

  lemma {:induction false} EscapeAppend(s: string, t: string, q: char)
    ensures Escape(s + t, q) == Escape(s, q) + Escape(t, q)
  {
    if s != [] {
      assert (s + t)[0] == s[0] && (s + t)[1..] == s[1..] + t;
      EscapeAppend(s[1..], t, q);
      assert Escape(s + t, q) == EscapeChar(s[0], q) + (Escape(s[1..], q) + Escape(t, q));
    } else {
      assert s + t == t;
    }
  }

  /** What `quote_and_escape(s)` returns. */
  function Quoted(s: string): (r: string)
    ensures |r| >= |s| + 2
    ensures r[0] == QuoteFor(s) && r[|r| - 1] == QuoteFor(s)
    ensures r[1..|r| - 1] == Escape(s, QuoteFor(s))
  {
    var q := QuoteFor(s);
    [q] + Escape(s, q) + [q]
  }

  /**
   * Without a backslash or the chosen quote, the text between the quotes is `s` itself;
   * in particular a string without quotes or backslashes is wrapped in `"` unchanged.
   */
  lemma {:induction false} EscapeIdentity(s: string, q: char)
    requires forall i :: 0 <= i < |s| ==> s[i] != '\\' && s[i] != q
    ensures Escape(s, q) == s
  {
    if s != [] {
      EscapeIdentity(s[1..], q);
    }
  }

  /**
   * `quote_and_escape`: one pass over the chars that remembers the first quote seen and
   * escapes backslashes and the chosen quote; the quote is then put at both ends.
   */
  method QuoteAndEscape(s: string) returns (r: string)
    ensures r == Quoted(s)
  {
    var builder: string := "";
    var quoteChr: Option<char> := None;
    var i := 0;
    while i < |s|
      invariant 0 <= i <= |s|
      invariant quoteChr.None? <==> FirstQuote(s[..i]).None?
      invariant quoteChr.Some? ==> quoteChr.value == QuoteFor(s)
      invariant builder == Escape(s[..i], QuoteFor(s))
    {
      var chr := s[i];
      QuoteStep(s, i, QuoteFor(s));
      if chr == '\\' {
        builder := builder + ['\\'];
      } else if chr == '"' || chr == '\'' {
        if quoteChr.None? {
          quoteChr := Some(if chr == '"' then '\'' else '"');
        }
        if quoteChr.Some? && quoteChr.value == chr {
          builder := builder + ['\\'];
        }
      }
      builder := builder + [chr];
      i := i + 1;
    }
    assert s[..i] == s;
    var q := if quoteChr.Some? then quoteChr.value else '"';
    builder := [q] + builder;
    builder := builder + [q];
    return builder;
  }

  /** One step of the loop in `QuoteAndEscape`: how the first quote and the escaped text grow. */
  lemma QuoteStep(s: string, i: nat, q: char)
    requires i < |s|
    ensures FirstQuote(s[..i + 1]) ==
              if FirstQuote(s[..i]).Some? then FirstQuote(s[..i])
              else if TextReader.IsQuote(s[i]) then Some(s[i]) else None
    ensures FirstQuote(s[..i]).Some? ==> FirstQuote(s) == FirstQuote(s[..i])
    ensures FirstQuote(s[..i]).None? && TextReader.IsQuote(s[i]) ==> FirstQuote(s) == Some(s[i])
    ensures Escape(s[..i + 1], q) == Escape(s[..i], q) + EscapeChar(s[i], q)
  {
    assert s[..i] + [s[i]] == s[..i + 1];
    assert s[..i + 1] + s[i + 1..] == s;
    assert s[..i] + s[i..] == s;
    FirstQuoteAppend(s[..i], [s[i]]);
    FirstQuoteAppend(s[..i + 1], s[i + 1..]);
    FirstQuoteAppend(s[..i], s[i..]);
    FirstQuoteAppend([s[i]], s[i + 1..]);
    assert [s[i]] + s[i + 1..] == s[i..];
    EscapeAppend(s[..i], [s[i]], q);
    assert Escape([s[i]], q) == EscapeChar(s[i], q) + Escape([], q);
  }

  lemma {:induction false} FirstQuoteAppend(s: string, t: string)
    ensures FirstQuote(s + t) == if FirstQuote(s).Some? then FirstQuote(s) else FirstQuote(t)
  {
    if s != [] {
      assert (s + t)[0] == s[0] && (s + t)[1..] == s[1..] + t;
      FirstQuoteAppend(s[1..], t);
    } else {
      assert s + t == t;
    }
  }

  /**
   * The reader's string loop undoes `Escape`: started just after an opening quote `q`, on
   * the escaped text of `s` followed by `q`, it yields `s` and stops just after that `q`.
   */
  lemma {:induction false} UntilEscaped(text: string, p: nat, q: char, s: string, acc: string)
    requires q != '\\'
    requires TextReader.At(text, p, Escape(s, q) + [q])
    ensures TextReader.Until(text, p, q, false, acc) == Scan(Ok(acc + s), p + |Escape(s, q)| + 1)
    decreases s
  {
    if s == [] {
      assert Escape(s, q) + [q] == [q];
      TextReader.AtChar(text, p, [q], 0);
      assert acc + s == acc;
    } else {
      var c := s[0];
      var e := EscapeChar(c, q);
      var rest := Escape(s[1..], q);
      assert Escape(s, q) + [q] == e + (rest + [q]);
      TextReader.AtSplit(text, p, e, rest + [q]);
      UntilEscaped(text, p + |e|, q, s[1..], acc + [c]);
      UntilOne(text, p, q, c, acc);
      MoveHead(acc, s);
    }
  }

  lemma MoveHead(acc: string, s: string)
    requires |s| > 0
    ensures acc + [s[0]] + s[1..] == acc + s
  {
    assert [s[0]] + s[1..] == s;
  }

  /** The reader's string loop consumes one escaped char and adds it to the accumulator. */
  lemma UntilOne(text: string, p: nat, q: char, c: char, acc: string)
    requires q != '\\'
    requires TextReader.At(text, p, EscapeChar(c, q)) && p + |EscapeChar(c, q)| < |text|
    ensures TextReader.Until(text, p, q, false, acc) == TextReader.Until(text, p + |EscapeChar(c, q)|, q, false, acc + [c])
  {
    var e := EscapeChar(c, q);
    TextReader.AtChar(text, p, e, 0);
    if c == '\\' || c == q {
      TextReader.AtChar(text, p, e, 1);
    }
  }

  /** `read_quoted_string` reads back exactly what `quote_and_escape` wrote, whatever surrounds it. */
  lemma ReadQuotedRoundTrip(s: string, text: string, p: nat)
    requires TextReader.At(text, p, Quoted(s))
    ensures TextReader.ReadQuoted(text, p) == Scan(Ok(s), p + |Quoted(s)|)
  {
    var q := QuoteFor(s);
    var body := Escape(s, q) + [q];
    assert Quoted(s) == [q] + body;
    TextReader.AtSplit(text, p, [q], body);
    TextReader.AtChar(text, p, [q], 0);
    UntilEscaped(text, p + 1, q, s, "");
    assert TextReader.ReadQuoted(text, p) == TextReader.Until(text, p + 1, q, false, "");
    assert "" + s == s;
  }

  /** `SIMPLE_PATTERN`, `^[A-Za-z0-9._+-]+$`: the compound keys printed without quotes. */
  predicate IsSimpleChar(c: char) {
    ('A' <= c <= 'Z') || ('a' <= c <= 'z') || ('0' <= c <= '9') || c == '.' || c == '_' || c == '+' || c == '-'
  }

  predicate IsSimple(name: string)
    ensures IsSimple(name) ==> name != [] && TextReader.UnquotedEnd(name, 0) == |name|
  {
    |name| > 0 && forall i :: 0 <= i < |name| ==> IsSimpleChar(name[i])
  }

  /** The simple-key chars are exactly the chars the reader accepts in an unquoted string. */
  lemma SimpleIsUnquoted(c: char)
    ensures IsSimpleChar(c) <==> TextReader.IsAllowedInUnquotedString(c)
  {
  }

  /** How a compound key is printed. */
  function Key(name: string): (r: string)
    ensures IsSimple(name) ==> r == name
    ensures !IsSimple(name) ==> r == Quoted(name)
  {
    if IsSimple(name) then name else Quoted(name)
  }

  /** `[T]::join(sep)`. */
  function Join(parts: seq<string>, sep: string): (r: string)
    ensures |parts| == 0 ==> r == ""
    ensures |parts| == 1 ==> r == parts[0]
  {
    if |parts| == 0 then ""
    else if |parts| == 1 then parts[0]
    else Join(parts[..|parts| - 1], sep) + sep + parts[|parts| - 1]
  }

  /** Appending one part: the joined prefix, the separator, the part. */
  lemma JoinSnoc(parts: seq<string>, p: string, sep: string)
    requires |parts| > 0
    ensures Join(parts + [p], sep) == Join(parts, sep) + sep + p
  {
    assert (parts + [p])[..|parts|] == parts;
  }

  datatype PrintError = CannotPrintEnd

  /** An End tag occurs somewhere in `t`. */
  predicate ContainsEnd(t: Tag) {
    match t
    case End => true
    case List(_, items) => exists i :: 0 <= i < |items| && ContainsEnd(items[i])
    case Compound(entries) => exists i :: 0 <= i < |entries| && ContainsEnd(entries[i].1)
    case _ => false
  }

  function ByteText(v: i8): string {
    Decimal.IntToString(v) + "b"
  }

  function ShortText(v: i16): string {
    Decimal.IntToString(v) + "s"
  }

  function IntText(v: i32): string {
    Decimal.IntToString(v)
  }

  function LongText(v: i64): string {
    Decimal.IntToString(v) + "L"
  }

  function ByteItems(v: seq<i8>): (r: seq<string>)
    ensures |r| == |v| && forall i :: 0 <= i < |v| ==> r[i] == ByteText(v[i])
  {
    seq(|v|, i requires 0 <= i < |v| => ByteText(v[i]))
  }

  function IntItems(v: seq<i32>): (r: seq<string>)
    ensures |r| == |v| && forall i :: 0 <= i < |v| ==> r[i] == IntText(v[i])
  {
    seq(|v|, i requires 0 <= i < |v| => IntText(v[i]))
  }

  function LongItems(v: seq<i64>): (r: seq<string>)
    ensures |r| == |v| && forall i :: 0 <= i < |v| ==> r[i] == LongText(v[i])
  {
    seq(|v|, i requires 0 <= i < |v| => LongText(v[i]))
  }

  /**
   * `Display for Tag`. Scalars carry their suffix (`b`, `s`, none, `L`, `f`, `d`), strings are
   * quoted and escaped, lists and typed arrays print their elements joined by `,` inside
   * `[..]` / `[B;..]` / `[I;..]` / `[L;..]`, and compounds print `key:value` entries in order
   * inside `{..}`. Printing fails exactly when an End occurs anywhere in the tag.
   */
  function Print(t: Tag, fl: FloatText): (r: Result<string, PrintError>)
    ensures r.Err? <==> ContainsEnd(t)
    decreases t, 1, 0
  {
    match t
    case End => Err(CannotPrintEnd)
    case Byte(v) => Ok(ByteText(v))
    case Short(v) => Ok(ShortText(v))
    case Int(v) => Ok(IntText(v))
    case Long(v) => Ok(LongText(v))
    case Float(bits) => Ok(fl.formatSingle(bits) + "f")
    case Double(bits) => Ok(fl.formatDouble(bits) + "d")
    case String(s) => Ok(Quoted(s))
    case List(_, items) =>
      var parts :- PrintItems(t, |items|, fl);
      Ok("[" + Join(parts, ",") + "]")
    case Compound(entries) =>
      var parts :- PrintEntries(t, |entries|, fl);
      Ok("{" + Join(parts, ",") + "}")
    case ByteArray(v) => Ok("[B;" + Join(ByteItems(v), ",") + "]")
    case IntArray(v) => Ok("[I;" + Join(IntItems(v), ",") + "]")
    case LongArray(v) => Ok("[L;" + Join(LongItems(v), ",") + "]")
  }

  /** The printed forms of the first `n` list elements. */
  function PrintItems(t: Tag, n: nat, fl: FloatText): (r: Result<seq<string>, PrintError>)
    requires t.List? && n <= |t.items|
    ensures r.Err? <==> exists i :: 0 <= i < n && ContainsEnd(t.items[i])
    ensures r.Ok? ==> |r.value| == n && forall i :: 0 <= i < n ==> Print(t.items[i], fl) == Ok(r.value[i])
    decreases t, 0, n
  {
    if n == 0 then Ok([])
    else
      ItemsEndSplit(t, n);
      var init :- PrintItems(t, n - 1, fl);
      var last :- Print(t.items[n - 1], fl);
      Ok(init + [last])
  }

  /** `part` is entry `i` printed: its key, a colon and its printed value. */
  predicate EntryPrinted(t: Tag, i: nat, fl: FloatText, part: string)
    requires t.Compound? && i < |t.entries|
    decreases t.entries[i].1, 2
  {
    Print(t.entries[i].1, fl).Ok? && part == Key(t.entries[i].0) + ":" + Print(t.entries[i].1, fl).value
  }

  /** The printed `key:value` forms of the first `n` compound entries. */
  function PrintEntries(t: Tag, n: nat, fl: FloatText): (r: Result<seq<string>, PrintError>)
    requires t.Compound? && n <= |t.entries|
    ensures r.Err? <==> exists i :: 0 <= i < n && ContainsEnd(t.entries[i].1)
    ensures r.Ok? ==> |r.value| == n && forall i :: 0 <= i < n ==> EntryPrinted(t, i, fl, r.value[i])
    decreases t, 0, n
  {
    if n == 0 then Ok([])
    else
      EntriesEndSplit(t, n);
      var init :- PrintEntries(t, n - 1, fl);
      var value :- Print(t.entries[n - 1].1, fl);
      var parts := init + [Key(t.entries[n - 1].0) + ":" + value];
      EntriesPrintedSnoc(t, n, fl, init, value, parts);
      Ok(parts)
  }

  /** Appending the printed last entry keeps every part the printed form of its entry. */
  lemma EntriesPrintedSnoc(t: Tag, n: nat, fl: FloatText, init: seq<string>, value: string, parts: seq<string>)
    requires t.Compound? && 0 < n <= |t.entries| && |init| == n - 1
    requires forall i :: 0 <= i < n - 1 ==> EntryPrinted(t, i, fl, init[i])
    requires Print(t.entries[n - 1].1, fl) == Ok(value)
    requires parts == init + [Key(t.entries[n - 1].0) + ":" + value]
    ensures forall i :: 0 <= i < n ==> EntryPrinted(t, i, fl, parts[i])
    decreases t, 0, n - 1
  {
    forall i | 0 <= i < n
      ensures EntryPrinted(t, i, fl, parts[i])
    {
      if i < n - 1 {
        assert parts[i] == init[i];
      }
    }
  }

  /** An End among the first `n` elements is among the first `n - 1` or is the last. */
  lemma ItemsEndSplit(t: Tag, n: nat)
    requires t.List? && 0 < n <= |t.items|
    ensures (exists i :: 0 <= i < n && ContainsEnd(t.items[i]))
        <==> (exists i :: 0 <= i < n - 1 && ContainsEnd(t.items[i])) || ContainsEnd(t.items[n - 1])
  {
  }

  lemma EntriesEndSplit(t: Tag, n: nat)
    requires t.Compound? && 0 < n <= |t.entries|
    ensures (exists i :: 0 <= i < n && ContainsEnd(t.entries[i].1))
        <==> (exists i :: 0 <= i < n - 1 && ContainsEnd(t.entries[i].1)) || ContainsEnd(t.entries[n - 1].1)
  {
  }

  /**
   * `Display for Tag` as the source runs it: a recursive walk whose list, compound and array
   * cases collect the printed items in a loop and join them.
   */
  method Display(t: Tag, fl: FloatText) returns (r: Result<string, PrintError>)
    ensures r == Print(t, fl)
    decreases t, 1
  {
    match t {
      case End => return Err(CannotPrintEnd);
      case Byte(v) => return Ok(ByteText(v));
      case Short(v) => return Ok(ShortText(v));
      case Int(v) => return Ok(IntText(v));
      case Long(v) => return Ok(LongText(v));
      case Float(bits) => return Ok(fl.formatSingle(bits) + "f");
      case Double(bits) => return Ok(fl.formatDouble(bits) + "d");
      case String(s) =>
        var q := QuoteAndEscape(s);
        return Ok(q);
      case List(_, _) => r := DisplayList(t, fl);
      case Compound(_) => r := DisplayCompound(t, fl);
      case ByteArray(v) =>
        var items := DisplayBytes(v);
        return Ok("[B;" + Join(items, ",") + "]");
      case IntArray(v) =>
        var items := DisplayInts(v);
        return Ok("[I;" + Join(items, ",") + "]");
      case LongArray(v) =>
        var items := DisplayLongs(v);
        return Ok("[L;" + Join(items, ",") + "]");
    }
  }

  lemma PrintListFails(t: Tag, i: nat, fl: FloatText)
    requires t.List? && i < |t.items| && Print(t.items[i], fl).Err?
    ensures Print(t, fl) == Err(CannotPrintEnd)
  {
    assert ContainsEnd(t.items[i]);
    assert ContainsEnd(t);
    match Print(t, fl).error { case CannotPrintEnd => }
  }

  lemma PrintItemsSnoc(t: Tag, i: nat, fl: FloatText)
    requires t.List? && i < |t.items| && PrintItems(t, i, fl).Ok? && Print(t.items[i], fl).Ok?
    ensures PrintItems(t, i + 1, fl) == Ok(PrintItems(t, i, fl).value + [Print(t.items[i], fl).value])
  {
  }

  lemma PrintListDone(t: Tag, items: seq<string>, fl: FloatText)
    requires t.List? && PrintItems(t, |t.items|, fl) == Ok(items)
    ensures Print(t, fl) == Ok("[" + Join(items, ",") + "]")
  {
  }

  lemma PrintCompoundFails(t: Tag, i: nat, fl: FloatText)
    requires t.Compound? && i < |t.entries| && Print(t.entries[i].1, fl).Err?
    ensures Print(t, fl) == Err(CannotPrintEnd)
  {
    assert ContainsEnd(t.entries[i].1);
    assert ContainsEnd(t);
    match Print(t, fl).error { case CannotPrintEnd => }
  }

  lemma PrintEntriesSnoc(t: Tag, i: nat, fl: FloatText)
    requires t.Compound? && i < |t.entries| && PrintEntries(t, i, fl).Ok? && Print(t.entries[i].1, fl).Ok?
    ensures PrintEntries(t, i + 1, fl)
            == Ok(PrintEntries(t, i, fl).value + [Key(t.entries[i].0) + ":" + Print(t.entries[i].1, fl).value])
  {
  }

  /** Joining from the front: the first part, then the separator and the rest joined. */
  lemma {:induction false} JoinCons(p: string, rest: seq<string>, sep: string)
    requires |rest| > 0
    ensures Join([p] + rest, sep) == p + sep + Join(rest, sep)
    decreases |rest|
  {
    var all := [p] + rest;
    if |rest| == 1 {
      assert all[..1] == [p];
    } else {
      var init := rest[..|rest| - 1];
      assert all[..|all| - 1] == [p] + init;
      JoinCons(p, init, sep);
      assert rest == init + [rest[|rest| - 1]];
      JoinSnoc(init, rest[|rest| - 1], sep);
    }
  }

  /** The parts joined from index `i` on: part `i`, then (if more follow) the separator and the rest. */
  lemma JoinFrom(parts: seq<string>, i: nat, sep: string)
    requires i < |parts|
    ensures Join(parts[i..], sep) == parts[i] + (if i + 1 < |parts| then sep + Join(parts[i + 1..], sep) else "")
  {
    assert parts[i..] == [parts[i]] + parts[i + 1..];
    if i + 1 < |parts| {
      JoinCons(parts[i], parts[i + 1..], sep);
    } else {
      assert parts[i..] == [parts[i]];
    }
  }

  lemma PrintCompoundDone(t: Tag, items: seq<string>, fl: FloatText)
    requires t.Compound? && PrintEntries(t, |t.entries|, fl) == Ok(items)
    ensures Print(t, fl) == Ok("{" + Join(items, ",") + "}")
  {
  }

  method DisplayList(t: Tag, fl: FloatText) returns (r: Result<string, PrintError>)
    requires t.List?
    ensures r == Print(t, fl)
    decreases t, 0
  {
    var v := t.items;
    var items: seq<string> := [];
    var i := 0;
    while i < |v|
      invariant 0 <= i <= |v|
      invariant PrintItems(t, i, fl) == Ok(items)
    {
      var s := Display(v[i], fl);
      if s.Err? {
        PrintListFails(t, i, fl);
        return Err(CannotPrintEnd);
      }
      PrintItemsSnoc(t, i, fl);
      items := items + [s.value];
      i := i + 1;
    }
    PrintListDone(t, items, fl);
    return Ok("[" + Join(items, ",") + "]");
  }

  method DisplayCompound(t: Tag, fl: FloatText) returns (r: Result<string, PrintError>)
    requires t.Compound?
    ensures r == Print(t, fl)
    decreases t, 0
  {
    var m := t.entries;
    var items: seq<string> := [];
    var i := 0;
    while i < |m|
      invariant 0 <= i <= |m|
      invariant PrintEntries(t, i, fl) == Ok(items)
    {
      var name := m[i].0;
      var value := Display(m[i].1, fl);
      if value.Err? {
        PrintCompoundFails(t, i, fl);
        return Err(CannotPrintEnd);
      }
      PrintEntriesSnoc(t, i, fl);
      var key := name;
      if !IsSimple(name) {
        key := QuoteAndEscape(name);
      }
      items := items + [key + ":" + value.value];
      i := i + 1;
    }
    PrintCompoundDone(t, items, fl);
    return Ok("{" + Join(items, ",") + "}");
  }

  method DisplayBytes(v: seq<i8>) returns (items: seq<string>)
    ensures items == ByteItems(v)
  {
    items := [];
    var i := 0;
    while i < |v|
      invariant 0 <= i <= |v|
      invariant items == ByteItems(v[..i])
    {
      items := items + [ByteText(v[i])];
      i := i + 1;
    }
    assert v[..i] == v;
  }

  method DisplayInts(v: seq<i32>) returns (items: seq<string>)
    ensures items == IntItems(v)
  {
    items := [];
    var i := 0;
    while i < |v|
      invariant 0 <= i <= |v|
      invariant items == IntItems(v[..i])
    {
      items := items + [IntText(v[i])];
      i := i + 1;
    }
    assert v[..i] == v;
  }

  method DisplayLongs(v: seq<i64>) returns (items: seq<string>)
    ensures items == LongItems(v)
  {
    items := [];
    var i := 0;
    while i < |v|
      invariant 0 <= i <= |v|
      invariant items == LongItems(v[..i])
    {
      items := items + [LongText(v[i])];
      i := i + 1;
    }
    assert v[..i] == v;
  }
}
