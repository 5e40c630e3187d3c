/**
 * What the SNBT parser functions promise beyond their bounds and shape contracts
 * (nbt/src/tag/parser/mod.rs): the dispatch of `read_value`, the entry order and error
 * cases of `read_struct`, the empty list and the mixed-type failure of `read_list_tag`,
 * and the typed arrays of `read_array_tag`.
 */
module SnbtLaws {
  import opened Results
  import opened Tags
  import opened Floats
  import opened TextReader
  import opened Literals
  import opened Snbt
  import K = Kinds
  import M = OrderedMap
  import D = Decimal

  // ---------------------------------------------------------------- read_value

  /** Empty or all-whitespace text is a missing value, at the end of the text. */
  lemma ValueAtBlank(text: string, p: nat, fl: FloatText)
    requires p <= |text| && SkipWs(text, p) == |text|
    ensures ValueAt(text, p, fl) == Scan(Err(MissingValue), |text|)
  {
  }

  /** `read_value` dispatches on the first non-whitespace char. */
  lemma ValueAtDispatch(text: string, p: nat, fl: FloatText)
    requires p <= |text| && SkipWs(text, p) < |text|
    ensures var q := SkipWs(text, p);
      ValueAt(text, p, fl) ==
        if text[q] == '{' then StructAt(text, q, fl)
        else if text[q] == '[' then ListAt(text, q, fl)
        else TypedValueAt(text, q, fl)
  {
  }

  /**
   * A value's first char decides what it is: `{` a compound, `[` a list or typed array,
   * anything else a scalar or a string.
   */
  lemma ValueAtOpens(text: string, p: nat, fl: FloatText)
    requires p <= |text|
    ensures var r := ValueAt(text, p, fl);
      r.result.Ok? ==> SkipWs(text, p) < |text| && Opens(text[SkipWs(text, p)], r.result.value)
  {
    var r := ValueAt(text, p, fl);
    var q := SkipWs(text, p);
    if r.result.Ok? {
      ValueAtDispatch(text, p, fl);
      if text[q] == '{' {
        StructAtShape(text, q, fl);
      } else if text[q] == '[' {
        ListAtShape(text, q, fl);
      } else {
        TypedValueScalar(text, q, fl);
      }
    }
  }

  /** `read_typed_value` gives a scalar or a string, never a container. */
  lemma TypedValueScalar(text: string, p: nat, fl: FloatText)
    requires p <= |text|
    ensures var r := TypedValueAt(text, p, fl).result;
      r.Ok? ==> !r.value.Compound? && !r.value.List? && !IsTypedArray(r.value)
  {
  }

  // ---------------------------------------------------------------- read_struct

  /**
   * A successful struct loop gives a compound closed by `}`, whose first keys are those of
   * `m` in their order: entries are inserted as they are read.
   */
  lemma StructLoopShape(text: string, p: nat, m: seq<(string, Tag)>, fl: FloatText)
    requires p <= |text|
    ensures StructShaped(text, m, StructLoop(text, p, m, fl))
  {
    StructResultShape(text, p, m, fl, StructLoop(text, p, m, fl));
  }

  /** `StructLoopShape`, for the result `r` of the loop. */
  lemma {:induction false} StructResultShape(text: string, p: nat, m: seq<(string, Tag)>, fl: FloatText, r: Scan<Tag, ParseError>)
    requires p <= |text| && r == StructLoop(text, p, m, fl)
    ensures StructShaped(text, m, r)
    decreases |text| - p
  {
    if r.result.Ok? {
      var done, q, m' := StructNext(text, p, m, fl);
      if !done {
        var r' := StructLoop(text, q, m', fl);
        StructResultShape(text, q, m', fl, r');
        PrefixTrans(M.Keys(m), M.Keys(m'), M.Keys(r'.result.value.entries));
        assert r == r';
      } else {
        CloseShape(text, q, '}', Compound(m'), r);
      }
    }
  }

  /** A successful struct loop either closes with the entries `m'` or goes on at `q` with them. */
  lemma StructNext(text: string, p: nat, m: seq<(string, Tag)>, fl: FloatText)
    returns (done: bool, q: nat, m': seq<(string, Tag)>)
    requires p <= |text| && StructLoop(text, p, m, fl).result.Ok?
    ensures M.Keys(m) <= M.Keys(m')
    ensures done ==> q <= |text| && StructLoop(text, p, m, fl) == CloseAt(text, q, '}', Compound(m'))
    ensures !done ==> p < q <= |text| && StructLoop(text, p, m, fl) == StructLoop(text, q, m', fl)
  {
    if text[p] == '}' {
      return true, p, m;
    }
    var k := ReadKeyAt(text, p);
    var v := ValueAt(text, ExpectAt(text, k.pos, ':').pos, fl);
    KeysPrefix(m, k.result.value, v.result.value);
    StructEntry(text, p, m, fl);
    m' := M.Put(m, k.result.value, v.result.value);
    var more;
    more, q := SeparatorAt(text, v.pos).0, SeparatorAt(text, v.pos).1;
    done := !more;
  }

  /** A successful `expect(close)` gives `t` and leaves the position just after `close`. */
  lemma CloseShape(text: string, q: nat, close: char, t: Tag, r: Scan<Tag, ParseError>)
    requires q <= |text| && r == CloseAt(text, q, close, t) && r.result.Ok?
    ensures r.result.value == t && 0 < r.pos <= |text| && text[r.pos - 1] == close
  {
  }

  /** A successful struct result: a compound ending in `}` whose first keys are those of `m`. */
  predicate StructShaped(text: string, m: seq<(string, Tag)>, r: Scan<Tag, ParseError>) {
    r.result.Ok? ==>
      r.result.value.Compound? && M.Keys(m) <= M.Keys(r.result.value.entries)
      && 0 < r.pos <= |text| && text[r.pos - 1] == '}'
  }

  lemma PrefixTrans<T>(a: seq<T>, b: seq<T>, c: seq<T>)
    requires a <= b && b <= c
    ensures a <= c
  {
  }

  /** Inserting keeps the existing keys, in order, in front. */
  lemma KeysPrefix(m: seq<(string, Tag)>, k: string, v: Tag)
    ensures M.Keys(m) <= M.Keys(M.Put(m, k, v))
  {
    if M.HasKey(m, k) {
      M.PutKeys(m, k, v);
    } else {
      M.PutAbsent(m, k, v);
      M.AppendNew(m, k, v);
    }
  }

  /** One entry of the struct loop: the key-value pair is inserted before the rest is read. */
  lemma StructEntry(text: string, p: nat, m: seq<(string, Tag)>, fl: FloatText)
    requires p < |text| && text[p] != '}'
    requires ReadKeyAt(text, p).result.Ok? && ReadKeyAt(text, p).result.value != ""
    requires ExpectAt(text, ReadKeyAt(text, p).pos, ':').result.Ok?
    requires ValueAt(text, ExpectAt(text, ReadKeyAt(text, p).pos, ':').pos, fl).result.Ok?
    ensures var k := ReadKeyAt(text, p);
      var v := ValueAt(text, ExpectAt(text, k.pos, ':').pos, fl);
      var m' := M.Put(m, k.result.value, v.result.value);
      var (more, q) := SeparatorAt(text, v.pos);
      StructLoop(text, p, m, fl) ==
        if !more then CloseAt(text, q, '}', Compound(m'))
        else if q == |text| then Scan(Err(ExpectedStructClosure), q)
        else StructLoop(text, q, m', fl)
  {
  }

  /** An empty key (`""`) fails as a missing key with the position restored to the key's start. */
  lemma StructEmptyKey(text: string, p: nat, m: seq<(string, Tag)>, fl: FloatText)
    requires p < |text| && text[p] != '}' && ReadKeyAt(text, p).result == Ok("")
    ensures StructLoop(text, p, m, fl) == Scan(Err(MissingKey), p)
  {
  }

  /** A key must be followed by `:`; otherwise the struct fails with the `expect` error. */
  lemma StructMissingColon(text: string, p: nat, m: seq<(string, Tag)>, fl: FloatText)
    requires p < |text| && text[p] != '}'
    requires ReadKeyAt(text, p).result.Ok? && ReadKeyAt(text, p).result.value != ""
    requires ExpectAt(text, ReadKeyAt(text, p).pos, ':').result.Err?
    ensures var colon := ExpectAt(text, ReadKeyAt(text, p).pos, ':');
      StructLoop(text, p, m, fl) == Scan(Err(colon.result.error), colon.pos)
  {
  }

  /** A successful struct starts with `{` after whitespace, ends with `}` and is a compound. */
  lemma StructAtShape(text: string, p: nat, fl: FloatText)
    requires p <= |text|
    ensures StructAtShaped(text, p, StructAt(text, p, fl))
  {
    var r := StructAt(text, p, fl);
    StructAtStep(text, p, fl);
    var e := ExpectAt(text, p, '{');
    if e.result.Ok? {
      StructResultShape(text, SkipWs(text, e.pos), [], fl, r);
    }
  }

  predicate StructAtShaped(text: string, p: nat, r: Scan<Tag, ParseError>)
    requires p <= |text|
  {
    r.result.Ok? ==>
      r.result.value.Compound? && SkipWs(text, p) < |text| && text[SkipWs(text, p)] == '{'
      && 0 < r.pos <= |text| && text[r.pos - 1] == '}'
  }

  /** `read_struct` expects `{`, skips whitespace and runs the loop from no entries. */
  lemma StructAtStep(text: string, p: nat, fl: FloatText)
    requires p <= |text|
    ensures var e := ExpectAt(text, p, '{');
      StructAt(text, p, fl) ==
        if e.result.Err? then Scan(Err(e.result.error), e.pos) else StructLoop(text, SkipWs(text, e.pos), [], fl)
  {
  }

  /** `{` and `}` with only whitespace between are the empty compound. */
  lemma StructAtEmpty(text: string, p: nat, fl: FloatText)
    requires p <= |text|
    requires SkipWs(text, p) < |text| && text[SkipWs(text, p)] == '{'
    requires SkipWs(text, SkipWs(text, p) + 1) < |text| && text[SkipWs(text, SkipWs(text, p) + 1)] == '}'
    ensures StructAt(text, p, fl) == Scan(Ok(Compound([])), SkipWs(text, SkipWs(text, p) + 1) + 1)
  {
    var c := SkipWs(text, SkipWs(text, p) + 1);
    SkipWsStops(text, c);
  }

  /** Skipping whitespace from a non-whitespace char stays there. */
  lemma SkipWsStops(text: string, c: nat)
    requires c < |text| && !IsWhitespace(text[c])
    ensures SkipWs(text, c) == c
  {
  }

  // ---------------------------------------------------------------- read_list_tag

  /**
   * A successful list loop gives a list closed by `]` whose first elements are those
   * already read, in textual order.
   */
  lemma ListLoopShape(text: string, p: nat, kind: K.Kind, items: seq<Tag>, fl: FloatText)
    requires p <= |text|
    ensures ListShaped(text, items, ListLoop(text, p, kind, items, fl))
  {
    ListResultShape(text, p, kind, items, fl, ListLoop(text, p, kind, items, fl));
  }

  /** `ListLoopShape`, for the result `r` of the loop. */
  lemma {:induction false} ListResultShape(text: string, p: nat, kind: K.Kind, items: seq<Tag>, fl: FloatText, r: Scan<Tag, ParseError>)
    requires p <= |text| && r == ListLoop(text, p, kind, items, fl)
    ensures ListShaped(text, items, r)
    decreases |text| - p
  {
    if r.result.Ok? {
      var done, q, kind', items' := ListNext(text, p, kind, items, fl);
      if !done {
        var r' := ListLoop(text, q, kind', items', fl);
        ListResultShape(text, q, kind', items', fl, r');
        PrefixTrans(items, items', r'.result.value.items);
        assert r == r';
      } else {
        CloseShape(text, q, ']', MakeList(items'), r);
      }
    }
  }

  /** A successful list loop either closes with `items'` or goes on at `q` with them. */
  lemma ListNext(text: string, p: nat, kind: K.Kind, items: seq<Tag>, fl: FloatText)
    returns (done: bool, q: nat, kind': K.Kind, items': seq<Tag>)
    requires p <= |text| && ListLoop(text, p, kind, items, fl).result.Ok?
    ensures items <= items'
    ensures done ==> q <= |text| && ListLoop(text, p, kind, items, fl) == CloseAt(text, q, ']', MakeList(items'))
    ensures !done ==> p < q <= |text| && ListLoop(text, p, kind, items, fl) == ListLoop(text, q, kind', items', fl)
  {
    if text[p] == ']' {
      return true, p, kind, items;
    }
    var v := ValueAt(text, p, fl);
    ListEntry(text, p, kind, items, fl);
    kind' := if kind == K.End then KindOf(v.result.value) else kind;
    items' := items + [v.result.value];
    var more;
    more, q := SeparatorAt(text, v.pos).0, SeparatorAt(text, v.pos).1;
    done := !more;
  }

  /** A successful list result: a list ending in `]` whose first elements are `items`. */
  predicate ListShaped(text: string, items: seq<Tag>, r: Scan<Tag, ParseError>) {
    r.result.Ok? ==>
      r.result.value.List? && items <= r.result.value.items && 0 < r.pos <= |text| && text[r.pos - 1] == ']'
  }

  /** One element of the list loop: appended, fixing the kind if it is the first. */
  lemma ListEntry(text: string, p: nat, kind: K.Kind, items: seq<Tag>, fl: FloatText)
    requires p < |text| && text[p] != ']'
    requires ValueAt(text, p, fl).result.Ok?
    requires kind == K.End || kind == KindOf(ValueAt(text, p, fl).result.value)
    ensures var v := ValueAt(text, p, fl);
      var kind' := if kind == K.End then KindOf(v.result.value) else kind;
      var items' := items + [v.result.value];
      var (more, q) := SeparatorAt(text, v.pos);
      ListLoop(text, p, kind, items, fl) ==
        if !more then CloseAt(text, q, ']', MakeList(items'))
        else if q == |text| then Scan(Err(ExpectedArrayClosure), q)
        else ListLoop(text, q, kind', items', fl)
  {
  }

  /**
   * An element whose kind differs from the first element's fails with `MixedTypes`, the
   * position reset to the start of that element.
   */
  lemma ListMixedTypes(text: string, p: nat, kind: K.Kind, items: seq<Tag>, fl: FloatText)
    requires p < |text| && text[p] != ']' && kind != K.End
    requires ValueAt(text, p, fl).result.Ok? && KindOf(ValueAt(text, p, fl).result.value) != kind
    ensures ListLoop(text, p, kind, items, fl) == Scan(Err(MixedTypes), p)
  {
  }

  /** A successful `read_list_tag` is a list ending with `]`. */
  lemma ListTagAtShape(text: string, p: nat, fl: FloatText)
    requires p <= |text|
    ensures ListTagAtShaped(text, ListTagAt(text, p, fl))
  {
    var r := ListTagAt(text, p, fl);
    ListTagAtStep(text, p, fl);
    var e := ExpectAt(text, p, '[');
    if e.result.Ok? && SkipWs(text, e.pos) < |text| {
      ListResultShape(text, SkipWs(text, e.pos), K.End, [], fl, r);
    }
  }

  predicate ListTagAtShaped(text: string, r: Scan<Tag, ParseError>) {
    r.result.Ok? ==> r.result.value.List? && 0 < r.pos <= |text| && text[r.pos - 1] == ']'
  }

  /** `read_list_tag` expects `[`, needs more text, and runs the loop from no elements. */
  lemma ListTagAtStep(text: string, p: nat, fl: FloatText)
    requires p <= |text|
    ensures var e := ExpectAt(text, p, '[');
      var q := if e.result.Ok? then SkipWs(text, e.pos) else 0;
      ListTagAt(text, p, fl) ==
        if e.result.Err? then Scan(Err(e.result.error), e.pos)
        else if q == |text| then Scan(Err(MissingArrayValue), q)
        else ListLoop(text, q, K.End, [], fl)
  {
  }

  /** `[` and `]` with only whitespace between are the empty list, with element id 0. */
  lemma ListTagAtEmpty(text: string, p: nat, fl: FloatText)
    requires p <= |text|
    requires SkipWs(text, p) < |text| && text[SkipWs(text, p)] == '['
    requires SkipWs(text, SkipWs(text, p) + 1) < |text| && text[SkipWs(text, SkipWs(text, p) + 1)] == ']'
    ensures ListTagAt(text, p, fl) == Scan(Ok(List(0, [])), SkipWs(text, SkipWs(text, p) + 1) + 1)
  {
    var c := SkipWs(text, SkipWs(text, p) + 1);
    SkipWsStops(text, c);
  }

  /** `Nbt::parse("[]")` is the empty list. */
  lemma EmptyListParses(fl: FloatText)
    ensures Parse("[]", fl) == Ok(List(0, []))
  {
    var text := "[]";
    SkipWsStops(text, 0);
    SkipWsStops(text, 1);
    ListTagAtEmpty(text, 0, fl);
  }

  // ---------------------------------------------------------------- read_list / read_array_tag

  /** A successful `read_list` is a list or a typed array. */
  lemma ListAtShape(text: string, p: nat, fl: FloatText)
    requires p < |text| && text[p] == '['
    ensures var r := ListAt(text, p, fl).result; r.Ok? ==> r.value.List? || IsTypedArray(r.value)
  {
    var r := ListAt(text, p, fl);
    if |text| - p >= 3 && !IsQuote(text[p + 1]) && text[p + 2] == ';' {
      assert r == ArrayTagAt(text, p, fl);
    } else {
      assert r == ListTagAt(text, p, fl);
      ListTagAtShape(text, p, fl);
    }
  }

  /** A successful array loop appends to `acc` and ends with `]`. */
  lemma ArrayLoopShape(text: string, p: nat, acc: Tag, fl: FloatText)
    requires p <= |text| && IsTypedArray(acc)
    ensures ArrayShaped(text, acc, ArrayLoop(text, p, acc, fl))
  {
    ArrayResultShape(text, p, acc, fl, ArrayLoop(text, p, acc, fl));
  }

  /** `ArrayLoopShape`, for the result `r` of the loop. */
  lemma {:induction false} ArrayResultShape(text: string, p: nat, acc: Tag, fl: FloatText, r: Scan<Tag, ParseError>)
    requires p <= |text| && IsTypedArray(acc) && r == ArrayLoop(text, p, acc, fl)
    ensures ArrayShaped(text, acc, r)
    decreases |text| - p
  {
    if r.result.Ok? {
      var done, q, acc' := ArrayNext(text, p, acc, fl);
      if !done {
        var r' := ArrayLoop(text, q, acc', fl);
        ArrayResultShape(text, q, acc', fl, r');
        ExtendsTrans(acc, acc', r'.result.value);
        assert r == r';
      } else {
        CloseShape(text, q, ']', acc', r);
      }
    }
  }

  /** A successful array loop either closes with `acc'` or goes on at `q` with it. */
  lemma ArrayNext(text: string, p: nat, acc: Tag, fl: FloatText) returns (done: bool, q: nat, acc': Tag)
    requires p <= |text| && IsTypedArray(acc) && ArrayLoop(text, p, acc, fl).result.Ok?
    ensures IsTypedArray(acc') && Extends(acc, acc')
    ensures done ==> q <= |text| && ArrayLoop(text, p, acc, fl) == CloseAt(text, q, ']', acc')
    ensures !done ==> p < q <= |text| && ArrayLoop(text, p, acc, fl) == ArrayLoop(text, q, acc', fl)
  {
    if text[p] == ']' {
      return true, p, acc;
    }
    var v := ValueAt(text, p, fl);
    ArrayEntry(text, p, acc, fl);
    acc' := Push(acc, v.result.value);
    var more;
    more, q := SeparatorAt(text, v.pos).0, SeparatorAt(text, v.pos).1;
    done := !more;
  }

  /** A successful array result: `acc` with elements appended, ending in `]`. */
  predicate ArrayShaped(text: string, acc: Tag, r: Scan<Tag, ParseError>) {
    r.result.Ok? ==> Extends(acc, r.result.value) && 0 < r.pos <= |text| && text[r.pos - 1] == ']'
  }

  /** One element of the array loop: pushed onto `acc`. */
  lemma ArrayEntry(text: string, p: nat, acc: Tag, fl: FloatText)
    requires p < |text| && text[p] != ']' && IsTypedArray(acc)
    requires ValueAt(text, p, fl).result.Ok? && KindOf(ValueAt(text, p, fl).result.value) == ElementKind(acc)
    ensures var v := ValueAt(text, p, fl);
      var acc' := Push(acc, v.result.value);
      var (more, q) := SeparatorAt(text, v.pos);
      ArrayLoop(text, p, acc, fl) ==
        if !more then CloseAt(text, q, ']', acc')
        else if q == |text| then Scan(Err(ExpectedArrayClosure), q)
        else ArrayLoop(text, q, acc', fl)
  {
  }

  lemma ExtendsTrans(a: Tag, b: Tag, c: Tag)
    requires Extends(a, b) && Extends(b, c)
    ensures Extends(a, c)
  {
  }

  /**
   * An element whose kind is not the array's element kind fails with `MixedTags`, the
   * position reset to the start of that element.
   */
  lemma ArrayMixedTags(text: string, p: nat, acc: Tag, fl: FloatText)
    requires p < |text| && text[p] != ']' && IsTypedArray(acc)
    requires ValueAt(text, p, fl).result.Ok? && KindOf(ValueAt(text, p, fl).result.value) != ElementKind(acc)
    ensures ArrayLoop(text, p, acc, fl) == Scan(Err(MixedTags), p)
  {
  }

  /**
   * The letter after `[` selects the array: `B` bytes, `I` ints, `L` longs. No value after
   * the `;` restores the position to the letter; any other letter is an unknown array type.
   */
  lemma ArrayTagKind(text: string, p: nat, fl: FloatText)
    requires p + 3 <= |text| && text[p] == '['
    ensures ArrayTagShaped(text, p, ArrayTagAt(text, p, fl))
    ensures SkipWs(text, p + 3) == |text| ==> ArrayTagAt(text, p, fl) == Scan(Err(MissingArrayValue), p + 1)
    ensures SkipWs(text, p + 3) < |text| && text[p + 1] != 'B' && text[p + 1] != 'I' && text[p + 1] != 'L' ==>
              ArrayTagAt(text, p, fl) == Scan(Err(UnknownArrayType), SkipWs(text, p + 3))
  {
    var r := ArrayTagAt(text, p, fl);
    var q := SkipWs(text, p + 3);
    ArrayTagStep(text, p, fl);
    if q < |text| && EmptyArray(text[p + 1]).Some? {
      ArrayResultShape(text, q, EmptyArray(text[p + 1]).value, fl, r);
    }
  }

  predicate ArrayTagShaped(text: string, p: nat, r: Scan<Tag, ParseError>)
    requires p + 3 <= |text|
  {
    r.result.Ok? ==>
      0 < r.pos <= |text| && text[r.pos - 1] == ']'
      && ((text[p + 1] == 'B' && r.result.value.ByteArray?)
          || (text[p + 1] == 'I' && r.result.value.IntArray?)
          || (text[p + 1] == 'L' && r.result.value.LongArray?))
  }

  /** `read_array_tag` skips `[`, the letter and the `;`, then runs the loop from the empty array. */
  lemma ArrayTagStep(text: string, p: nat, fl: FloatText)
    requires p + 3 <= |text| && text[p] == '['
    ensures var q := SkipWs(text, p + 3);
      ArrayTagAt(text, p, fl) ==
        if q == |text| then Scan(Err(MissingArrayValue), p + 1)
        else if EmptyArray(text[p + 1]).None? then Scan(Err(UnknownArrayType), q)
        else ArrayLoop(text, q, EmptyArray(text[p + 1]).value, fl)
  {
  }

  // ---------------------------------------------------------------- a mixed list

  /** `2.0` matches only the suffix-less double pattern. */
  lemma DoubleToken(fl: FloatText)
    ensures ParseType("2.0", fl) == Some(Double(fl.parseDouble("2.0")))
  {
    var s := "2.0";
    assert s[SignLen(s)..] == s;
    assert !IntForm(s) by { assert !D.IsDigit(s[1]); }
    assert FirstE(s) == 3;
    assert s[..3] == s;
    assert Dots(s) == 1 by {
      assert s[1..] == ".0" && s[1..][1..] == "0" && s[1..][1..][1..] == [];
    }
    assert HasDigit(s) by { assert D.IsDigit(s[0]); }
  }

  /** `1` is the Int 1. */
  lemma OneToken(fl: FloatText)
    ensures ParseType("1", fl) == Some(Int(1))
  {
    assert D.IntToString(1) == "1";
    IntTextParses(1, fl);
  }

  /** The first element of `[1,2.0]` is the Int 1, which ends at the comma. */
  lemma MixedFirst(fl: FloatText)
    ensures ValueAt("[1,2.0]", 1, fl) == Scan(Ok(Int(1)), 2)
    ensures SeparatorAt("[1,2.0]", 2) == (true, 3)
  {
    var text := "[1,2.0]";
    SkipWsStops(text, 1);
    SkipWsStops(text, 2);
    SkipWsStops(text, 3);
    assert UnquotedEnd(text, 1) == 2;
    assert text[1..2] == "1";
    OneToken(fl);
    ValueAtDispatch(text, 1, fl);
  }

  /** The second element of `[1,2.0]` is a Double. */
  lemma MixedSecond(fl: FloatText)
    ensures ValueAt("[1,2.0]", 3, fl).result == Ok(Double(fl.parseDouble("2.0")))
    ensures ValueAt("[1,2.0]", 3, fl).result.Ok? && KindOf(ValueAt("[1,2.0]", 3, fl).result.value) == K.Double
  {
    var text := "[1,2.0]";
    SkipWsStops(text, 3);
    assert UnquotedEnd(text, 3) == 6;
    assert text[3..6] == "2.0";
    DoubleToken(fl);
    assert TypedToken("2.0", fl) == Double(fl.parseDouble("2.0"));
    assert TypedValueAt(text, 3, fl) == Scan(Ok(TypedToken(text[3..6], fl)), 6);
    ValueAtDispatch(text, 3, fl);
  }

  /** The list loop of `[1,2.0]` takes the Int, then meets the Double. */
  lemma MixedLoop(fl: FloatText)
    ensures ListLoop("[1,2.0]", 1, K.End, [], fl) == Scan(Err(MixedTypes), 3)
  {
    var text := "[1,2.0]";
    MixedFirst(fl);
    MixedSecond(fl);
    assert KindOf(Int(1)) == K.Int;
    ListEntry(text, 1, K.End, [], fl);
    ListMixedTypes(text, 3, K.Int, [Int(1)], fl);
  }

  /** `[1,2.0]` fails with mixed types, the position reset to the start of `2.0`. */
  lemma MixedListExample(fl: FloatText)
    ensures ValueAt("[1,2.0]", 0, fl) == Scan(Err(MixedTypes), 3)
  {
    var text := "[1,2.0]";
    MixedLoop(fl);
    SkipWsStops(text, 0);
    SkipWsStops(text, 1);
    ListTagAtStep(text, 0, fl);
    assert ListAt(text, 0, fl) == ListTagAt(text, 0, fl);
    ValueAtDispatch(text, 0, fl);
  }
}
