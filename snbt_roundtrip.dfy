/**
 * The SNBT text round trip, piece by piece: what `Display for Tag` prints for an integer tag,
 * a string and a compound key, the parser functions read back as the same thing.
 *
 * The lemmas are stated for printed text found at position `p` of a longer text, followed by
 * what can follow a printed tag inside printed text: the end, `,`, `]` or `}`.
 */
module SnbtRoundTrip {
  import opened Results
  import opened Tags
  import opened Floats
  import opened TextReader
  import opened Printer
  import opened Snbt
  import D = Decimal
  import L = Literals
  import K = Kinds
  import M = OrderedMap

  /** What may follow a printed tag inside printed text, at position `e`. */
  predicate FollowsAt(text: string, e: nat) {
    e == |text| || (e < |text| && (text[e] == ',' || text[e] == ']' || text[e] == '}'))
  }

  /** The digits of a printed integer and a suffix letter are all unquoted-string chars. */
  lemma NumberChars(x: int, suffix: string)
    requires forall i :: 0 <= i < |suffix| ==> 'A' <= suffix[i] <= 'z' && IsAllowedInUnquotedString(suffix[i])
    ensures var s := D.IntToString(x) + suffix;
            |s| > 0 && (D.IsDigit(s[0]) || s[0] == '-')
            && (|s| > 1 ==> D.IsDigit(s[1]) || 'A' <= s[1] <= 'z')
            && forall i :: 0 <= i < |s| ==> IsAllowedInUnquotedString(s[i])
  {
    var n := D.IntToString(x);
    var s := n + suffix;
    assert forall i :: 0 <= i < |n| ==> IsAllowedInUnquotedString(n[i]) by {
      forall i | 0 <= i < |n| ensures IsAllowedInUnquotedString(n[i]) {
        if n[0] == '-' && i > 0 {
          assert n[i] == n[1..][i - 1];
        }
      }
    }
    if |s| > 1 && |n| > 1 {
      if n[0] == '-' {
        assert n[1] == n[1..][0];
      }
    }
  }

  /** An unquoted token runs exactly to the first char outside the set. */
  lemma {:induction false} UnquotedRun(text: string, p: nat, e: nat)
    requires p <= e <= |text|
    requires forall i :: p <= i < e ==> IsAllowedInUnquotedString(text[i])
    requires e == |text| || !IsAllowedInUnquotedString(text[e])
    ensures UnquotedEnd(text, p) == e
    decreases e - p
  {
    if p < e {
      UnquotedRun(text, p + 1, e);
    }
  }

  /** What follows a printed tag ends an unquoted token. */
  lemma FollowsEndsToken(text: string, e: nat)
    requires FollowsAt(text, e)
    ensures e == |text| || !IsAllowedInUnquotedString(text[e])
  {
  }

  /** Unquoted-string chars at `p`, followed by what may follow a tag, are one whole token. */
  lemma TokenAt(text: string, p: nat, s: string, e: nat)
    requires At(text, p, s) && e == p + |s| && FollowsAt(text, e)
    requires forall i :: 0 <= i < |s| ==> IsAllowedInUnquotedString(s[i])
    ensures UnquotedEnd(text, p) == e && text[p..e] == s
  {
    assert forall i :: p <= i < e ==> IsAllowedInUnquotedString(text[i]) by {
      forall i | p <= i < e ensures IsAllowedInUnquotedString(text[i]) {
        AtChar(text, p, s, i - p);
      }
    }
    FollowsEndsToken(text, e);
    UnquotedRun(text, p, e);
  }

  /** The integer tags, printed as digits and a suffix letter. */
  predicate IsScalar(t: Tag) {
    t.Byte? || t.Short? || t.Int? || t.Long?
  }

  /** The printed text of a scalar. */
  function ScalarText(t: Tag): string
    requires IsScalar(t)
  {
    match t
    case Byte(v) => ByteText(v)
    case Short(v) => ShortText(v)
    case Int(v) => IntText(v)
    case Long(v) => LongText(v)
  }

  /** An integer tag prints as its digits and its suffix letter. */
  lemma ScalarPrint(t: Tag, fl: FloatText)
    requires IsScalar(t)
    ensures Print(t, fl) == Ok(ScalarText(t))
  {
  }

  lemma ScalarChars(t: Tag)
    requires IsScalar(t)
    ensures var s := ScalarText(t);
            |s| > 0 && (D.IsDigit(s[0]) || s[0] == '-')
            && (|s| > 1 ==> D.IsDigit(s[1]) || 'A' <= s[1] <= 'z')
            && (forall i :: 0 <= i < |s| ==> IsAllowedInUnquotedString(s[i]))
  {
    match t
    case Byte(v) => NumberChars(v, "b");
    case Short(v) => NumberChars(v, "s");
    case Int(v) => NumberChars(v, ""); assert D.IntToString(v) + "" == D.IntToString(v);
    case Long(v) => NumberChars(v, "L");
  }

  /** `parse_type` reads the printed scalar back. */
  lemma ScalarToken(t: Tag, fl: FloatText)
    requires IsScalar(t)
    ensures |ScalarText(t)| > 0 && L.TypedToken(ScalarText(t), fl) == t
  {
    match t
    case Byte(v) => L.ByteTextParses(v, fl);
    case Short(v) => L.ShortTextParses(v, fl);
    case Int(v) => L.IntTextParses(v, fl);
    case Long(v) => L.LongTextParses(v, fl);
  }

  /** A value that starts with an unquoted token is that token, typed. */
  lemma UnquotedValue(text: string, p: nat, e: nat, fl: FloatText, tok: string, t: Tag)
    requires p < e <= |text| && UnquotedEnd(text, p) == e
    requires !IsWhitespace(text[p]) && !IsQuote(text[p]) && text[p] != '{' && text[p] != '['
    requires text[p..e] == tok && L.TypedToken(tok, fl) == t
    ensures ValueAt(text, p, fl) == Scan(Ok(t), e)
  {
    assert SkipWs(text, p) == p;
    assert ValueAt(text, p, fl) == TypedValueAt(text, p, fl);
  }

  /** A printed scalar at `p` is an unquoted token that `parse_type` reads back. */
  lemma ScalarTokenAt(t: Tag, fl: FloatText, text: string, p: nat, e: nat)
    requires IsScalar(t) && e == p + |ScalarText(t)|
    requires At(text, p, ScalarText(t)) && FollowsAt(text, e)
    ensures p < e <= |text| && UnquotedEnd(text, p) == e
    ensures !IsWhitespace(text[p]) && !IsQuote(text[p]) && text[p] != '{' && text[p] != '['
    ensures text[p..e] == ScalarText(t) && L.TypedToken(ScalarText(t), fl) == t
  {
    var s := ScalarText(t);
    ScalarChars(t);
    TokenAt(text, p, s, e);
    AtChar(text, p, s, 0);
    ScalarToken(t, fl);
  }

  /** A printed scalar is read back as itself. */
  lemma ScalarRoundTrip(t: Tag, fl: FloatText, text: string, p: nat)
    requires IsScalar(t)
    requires At(text, p, ScalarText(t)) && FollowsAt(text, p + |ScalarText(t)|)
    ensures ValueAt(text, p, fl) == Scan(Ok(t), p + |ScalarText(t)|)
  {
    var e := p + |ScalarText(t)|;
    ScalarTokenAt(t, fl, text, p, e);
    UnquotedValue(text, p, e, fl, ScalarText(t), t);
  }

  /** A value that starts with a quote is the quoted string. */
  lemma QuotedValue(text: string, p: nat, fl: FloatText, s: string, e: nat)
    requires p < |text| && IsQuote(text[p]) && ReadQuoted(text, p) == Scan(Ok(s), e)
    ensures ValueAt(text, p, fl) == Scan(Ok(String(s)), e)
  {
    assert SkipWs(text, p) == p;
    assert ValueAt(text, p, fl) == TypedValueAt(text, p, fl);
  }

  /** A printed string is read back as itself, whatever follows it. */
  lemma StringRoundTrip(s: string, fl: FloatText, text: string, p: nat)
    requires At(text, p, Quoted(s))
    ensures ValueAt(text, p, fl) == Scan(Ok(String(s)), p + |Quoted(s)|)
  {
    ReadQuotedRoundTrip(s, text, p);
    AtChar(text, p, Quoted(s), 0);
    QuotedValue(text, p, fl, s, p + |Quoted(s)|);
  }

  /** A printed compound key starts with a simple-key char or a quote. */
  lemma KeyStart(name: string)
    requires name != ""
    ensures |Key(name)| > 0 && (IsSimpleChar(Key(name)[0]) || IsQuote(Key(name)[0]))
  {
  }

  /** A compound key printed at `pos` and followed by `:` is what `read_key` returns. */
  lemma KeyRoundTrip(name: string, text: string, pos: nat)
    requires name != "" && At(text, pos, Key(name) + ":")
    ensures pos < |text| && !IsWhitespace(text[pos]) && text[pos] != '}'
    ensures ReadKeyAt(text, pos) == Scan(Ok(name), pos + |Key(name)|)
    ensures pos + |Key(name)| < |text| && text[pos + |Key(name)|] == ':'
  {
    var k := Key(name);
    AtSplit(text, pos, k, ":");
    KeyStart(name);
    AtChar(text, pos, k, 0);
    AtChar(text, pos + |k|, ":", 0);
    assert SkipWs(text, pos) == pos;
    if IsSimple(name) {
      assert forall i :: pos <= i < pos + |name| ==> IsAllowedInUnquotedString(text[i]) by {
        forall i | pos <= i < pos + |name| ensures IsAllowedInUnquotedString(text[i]) {
          AtChar(text, pos, k, i - pos);
          SimpleIsUnquoted(text[i]);
        }
      }
      UnquotedRun(text, pos, pos + |name|);
    } else {
      ReadQuotedRoundTrip(name, text, pos);
    }
  }

  /** Printing an integer tag and parsing the text gives the tag back. */
  lemma ScalarPrintParse(t: Tag, fl: FloatText)
    requires IsScalar(t)
    ensures Print(t, fl).Ok? && Parse(Print(t, fl).value, fl) == Ok(t)
  {
    ScalarPrint(t, fl);
    var s := ScalarText(t);
    assert s[0..|s|] == s;
    ScalarRoundTrip(t, fl, s, 0);
  }

  /** Printing a String tag and parsing the text gives the tag back. */
  lemma StringPrintParse(s: string, fl: FloatText)
    ensures Print(String(s), fl) == Ok(Quoted(s)) && Parse(Quoted(s), fl) == Ok(String(s))
  {
    var q := Quoted(s);
    assert q[0..|q|] == q;
    StringRoundTrip(s, fl, q, 0);
  }
}
