/**
 * The printed forms that the tests of nbt/src/lib.rs expect, for the tags the `tag!` texts
 * parse to. Each is proved from a general lemma about a shape of tag.
 */
module PrintExamples {
  import opened Ints
  import opened Results
  import opened Tags
  import opened Floats
  import opened Printer
  import Decimal
  import TextReader

  lemma Digits()
    ensures Decimal.IntToString(1) == "1" && Decimal.IntToString(2) == "2"
    ensures Decimal.IntToString(6) == "6" && Decimal.IntToString(10) == "10"
    ensures Decimal.IntToString(5) == "5" && Decimal.IntToString(20) == "20"
  {
  }

  lemma Join3(a: string, b: string, c: string)
    ensures Join([a, b, c], ",") == a + "," + b + "," + c
  {
    assert [a] + [b] == [a, b] && [a, b] + [c] == [a, b, c];
    JoinSnoc([a], b, ",");
    JoinSnoc([a, b], c, ",");
  }

  lemma Join4(a: string, b: string, c: string, d: string)
    ensures Join([a, b, c, d], ",") == a + "," + b + "," + c + "," + d
  {
    assert [a] + [b] == [a, b] && [a, b] + [c] == [a, b, c] && [a, b, c] + [d] == [a, b, c, d];
    JoinSnoc([a], b, ",");
    JoinSnoc([a, b], c, ",");
    JoinSnoc([a, b, c], d, ",");
  }

  /** `[B;1B,2B,6b,10b]` prints as `[B;1b,2b,6b,10b]`. */
  lemma ByteArrayExample(fl: FloatText)
    ensures Print(ByteArray([1, 2, 6, 10]), fl) == Ok("[B;1b,2b,6b,10b]")
  {
    ByteItemsExample();
    ByteJoinExample();
  }

  lemma ByteItemsExample()
    ensures ByteItems([1, 2, 6, 10]) == ["1b", "2b", "6b", "10b"]
  {
    Digits();
    var items := ByteItems([1, 2, 6, 10]);
    assert items[0] == "1b" && items[1] == "2b" && items[2] == "6b" && items[3] == "10b";
  }

  lemma ByteJoinExample()
    ensures "[B;" + Join(["1b", "2b", "6b", "10b"], ",") + "]" == "[B;1b,2b,6b,10b]"
  {
    Join4("1b", "2b", "6b", "10b");
    assert "[B;" + ("1b" + "," + "2b" + "," + "6b" + "," + "10b") + "]" == "[B;1b,2b,6b,10b]";
  }

  /** A list of three longs prints each with the suffix `L`. */
  lemma ThreeLongs(a: i64, b: i64, c: i64, fl: FloatText)
    ensures Print(List(4, [Long(a), Long(b), Long(c)]), fl)
         == Ok("[" + (LongText(a) + "," + LongText(b) + "," + LongText(c)) + "]")
  {
    var t := List(4, [Long(a), Long(b), Long(c)]);
    var r := PrintItems(t, 3, fl);
    assert !ContainsEnd(t.items[0]) && !ContainsEnd(t.items[1]) && !ContainsEnd(t.items[2]);
    assert r.Ok? && r.value == [LongText(a), LongText(b), LongText(c)];
    assert Print(t, fl) == Ok("[" + Join(r.value, ",") + "]");
    Join3(LongText(a), LongText(b), LongText(c));
  }

  /** `[5l,10L,20l]` prints as `[5L,10L,20L]`. */
  lemma LongListExample(fl: FloatText)
    ensures Print(List(4, [Long(5), Long(10), Long(20)]), fl) == Ok("[5L,10L,20L]")
  {
    ThreeLongs(5, 10, 20, fl);
    LongTexts();
  }

  lemma LongTexts()
    ensures "[" + (LongText(5) + "," + LongText(10) + "," + LongText(20)) + "]" == "[5L,10L,20L]"
  {
    Digits();
    assert LongText(5) == "5L" && LongText(10) == "10L" && LongText(20) == "20L";
    assert "[" + ("5L" + "," + "10L" + "," + "20L") + "]" == "[5L,10L,20L]";
  }

  /** A string without quotes or backslashes is wrapped in double quotes unchanged. */
  lemma QuotedPlain(s: string)
    requires forall i :: 0 <= i < |s| ==> s[i] != '\\' && !TextReader.IsQuote(s[i])
    ensures Quoted(s) == "\"" + s + "\""
  {
    FirstQuoteIsFirst(s);
    EscapeIdentity(s, '"');
  }

  /** A compound with one simple key holding a plain string prints as `{key:"text"}`. */
  lemma OneEntry(key: string, text: string, fl: FloatText)
    requires IsSimple(key)
    requires forall i :: 0 <= i < |text| ==> text[i] != '\\' && !TextReader.IsQuote(text[i])
    ensures Print(Compound([(key, String(text))]), fl) == Ok("{" + (key + ":" + ("\"" + text + "\"")) + "}")
  {
    var t := Compound([(key, String(text))]);
    QuotedPlain(text);
    var r := PrintEntries(t, 1, fl);
    assert r.Ok? && EntryPrinted(t, 0, fl, r.value[0]);
    assert t.entries[0].0 == key && t.entries[0].1 == String(text);
    assert Print(String(text), fl) == Ok("\"" + text + "\"");
    assert r.value[0] == key + ":" + ("\"" + text + "\"");
    assert r.value == [key + ":" + ("\"" + text + "\"")];
    assert Print(t, fl) == Ok("{" + Join(r.value, ",") + "}");
  }

  /** `{name:'Jaden'}` prints as `{name:"Jaden"}`. */
  lemma CompoundExample(fl: FloatText)
    ensures Print(Compound([("name", String("Jaden"))]), fl) == Ok("{" + ("name" + ":" + ("\"" + "Jaden" + "\"")) + "}")
  {
    var k, s := "name", "Jaden";
    assert k[0] == 'n' && k[1] == 'a' && k[2] == 'm' && k[3] == 'e';
    assert s[0] == 'J' && s[1] == 'a' && s[2] == 'd' && s[3] == 'e' && s[4] == 'n';
    OneEntry(k, s, fl);
  }

  /**
   * A string starting `""\'`: the first quote is `"`, so it is wrapped in `'`, its backslash
   * is doubled and its `'` escaped; the rest (no quote, no backslash) is kept.
   */
  lemma EscapedQuotes(head: string, rest: string, fl: FloatText)
    requires head == "\"\"\\'"
    requires forall i :: 0 <= i < |rest| ==> rest[i] != '\\' && !TextReader.IsQuote(rest[i])
    ensures Print(String(head + rest), fl) == Ok("'" + (EscapedHead + rest) + "'")
  {
    HeadQuote(head, rest);
    HeadEscape(head, rest);
  }

  lemma HeadQuote(head: string, rest: string)
    requires head == "\"\"\\'"
    ensures QuoteFor(head + rest) == '\''
  {
    assert (head + rest)[0] == '"';
  }

  lemma HeadEscape(head: string, rest: string)
    requires head == "\"\"\\'"
    requires forall i :: 0 <= i < |rest| ==> rest[i] != '\\' && !TextReader.IsQuote(rest[i])
    ensures Escape(head + rest, '\'') == EscapedHead + rest
  {
    assert forall i :: 0 <= i < |rest| ==> rest[i] != '\\' && rest[i] != '\'';
    EscapeIdentity(rest, '\'');
    EscapeAppend(head, rest, '\'');
    EscapeHead();
  }

  const EscapedHead: string := "\"\"\\\\\\'"

  lemma EscapeHead()
    ensures Escape("\"\"\\'", '\'') == EscapedHead
  {
  }

  /** The string test: `""\'this is a test!` prints as `'""\\\'this is a test!'`. */
  lemma StringExample(fl: FloatText)
    ensures Print(String("\"\"\\'" + "this is a test!"), fl) == Ok("'" + ("\"\"\\\\\\'" + "this is a test!") + "'")
  {
    var head, rest := "\"\"\\'", "this is a test!";
    assert forall i :: 0 <= i < |rest| ==> rest[i] != '\\' && !TextReader.IsQuote(rest[i]);
    EscapedQuotes(head, rest, fl);
  }
}
