/**
 * Chat formatting codes as blocky-core declares them (blocky-core/src/chat_formatting.rs):
 * the sixteen colours, the formats and RESET, the table of values looked up by cleaned name,
 * and the display as a section sign followed by the code character.
 */
module CoreChatFormatting {
  import opened Ints
  import opened Results
  import Utf8

  datatype ChatFormatting = ChatFormatting(name: string, code: char, isFormat: bool, id: int, color: Option<u32>)

  /** `new_color`: not a format, with the given id and colour. */
  function NewColor(name: string, code: char, id: int, color: Option<u32>): (f: ChatFormatting)
    ensures !f.isFormat && f.name == name && f.code == code && f.id == id && f.color == color
  {
    ChatFormatting(name, code, false, id, color)
  }

  /** `new_format`: a format, with id -1 and no colour. */
  function NewFormat(name: string, code: char): (f: ChatFormatting)
    ensures f.isFormat && f.name == name && f.code == code && f.id == -1 && f.color.None?
  {
    ChatFormatting(name, code, true, -1, None)
  }

  const BLACK := NewColor("black", '0', 0, Some(0))
  const DARK_BLUE := NewColor("dark_blue", '1', 1, Some(170))
  const DARK_GREEN := NewColor("dark_green", '2', 2, Some(43520))
  const DARK_AQUA := NewColor("dark_aqua", '3', 3, Some(43690))
  const DARK_RED := NewColor("dark_red", '4', 4, Some(11141120))
  const DARK_PURPLE := NewColor("dark_purple", '5', 5, Some(11141290))
  const GOLD := NewColor("gold", '6', 6, Some(16755200))
  const GRAY := NewColor("gray", '7', 7, Some(11184810))
  const DARK_GRAY := NewColor("dark_gray", '8', 8, Some(5592405))
  const BLUE := NewColor("blue", '9', 9, Some(5592575))
  const GREEN := NewColor("green", 'a', 10, Some(5635925))
  const AQUA := NewColor("aqua", 'b', 11, Some(5636095))
  const RED := NewColor("red", 'c', 12, Some(16733525))
  const LIGHT_PURPLE := NewColor("light_purple", 'd', 13, Some(16733695))
  const YELLOW := NewColor("yellow", 'e', 14, Some(16777045))
  const WHITE := NewColor("white", 'f', 15, Some(16777215))

  const OBFUSCATED := NewFormat("obfuscated", 'k')
  const BOLD := NewFormat("bold", 'l')
  const STRIKETHROUGH := NewFormat("strikethrough", 'm')
  const UNDERLINE := NewFormat("underline", 'n')
  const ITALIC := NewFormat("italic", 'o')

  /** RESET is built as a colour, with id -1 and no colour value. */
  const RESET := NewColor("reset", 'r', -1, None)

  const Colors: seq<ChatFormatting> :=
    [BLACK, DARK_BLUE, DARK_GREEN, DARK_AQUA, DARK_RED, DARK_PURPLE, GOLD, GRAY,
     DARK_GRAY, BLUE, GREEN, AQUA, RED, LIGHT_PURPLE, YELLOW, WHITE]

  /** `VALUES`: the colours, four of the five formats (BOLD is missing) and RESET. */
  const Values: seq<ChatFormatting> := Colors + [OBFUSCATED, STRIKETHROUGH, UNDERLINE, ITALIC, RESET]

  /** The sixteen colours have ids 0 to 15 in order and a colour value; formats and RESET have id -1 and none. */
  lemma ValuesShape()
    ensures |Colors| == 16 && |Values| == 21
    ensures forall i :: 0 <= i < 16 ==> Values[i].id == i && Values[i].color.Some? && !Values[i].isFormat
    ensures forall i :: 16 <= i < 20 ==> Values[i].isFormat && Values[i].id == -1 && Values[i].color.None?
    ensures Values[20] == RESET && RESET.id == -1 && RESET.color.None? && !RESET.isFormat
  {
  }

  /** `is_color`: neither a format nor RESET. */
  predicate IsColor(f: ChatFormatting) {
    !f.isFormat && f != RESET
  }

  /** Exactly the first sixteen values are colours. */
  lemma ColorsAreColors()
    ensures forall i :: 0 <= i < |Values| ==> (IsColor(Values[i]) <==> i < 16)
    ensures !IsColor(BOLD)
  {
    ValuesShape();
  }

  /** The characters a lower-cased character contributes to a cleaned name. */
  function Clean(c: char): (r: string)
    ensures |r| <= 1 && forall i :: 0 <= i < |r| ==> 'a' <= r[i] <= 'z'
    ensures 'a' <= c <= 'z' ==> r == [c]
  {
    if 'a' <= c <= 'z' then [c]
    else if 'A' <= c <= 'Z' then [(c as int + 32) as char]
    else if c == '\U{0130}' then "i"  // LATIN CAPITAL LETTER I WITH DOT ABOVE lowers to `i` and a combining dot
    else if c == '\U{212A}' then "k"  // KELVIN SIGN lowers to `k`
    else []
  }

  predicate Lower(s: string) {
    forall i :: 0 <= i < |s| ==> 'a' <= s[i] <= 'z'
  }

  /**
   * `clean_name`: `to_lowercase`, then every character outside `a-z` removed. Only the
   * characters whose lower case has a letter `a-z` matter: `A-Z`, `a-z` and two others.
   */
  function CleanName(s: string): (r: string)
    ensures Lower(r) && |r| <= |s|
  {
    if s == [] then [] else Clean(s[0]) + CleanName(s[1..])
  }

  lemma {:induction false} CleanNameAppend(s: string, t: string)
    ensures CleanName(s + t) == CleanName(s) + CleanName(t)
  {
    if s == [] {
      assert s + t == t;
    } else {
      assert (s + t)[1..] == s[1..] + t;
      CleanNameAppend(s[1..], t);
    }
  }

  /** A name of only `a-z` is already clean. */
  lemma {:induction false} CleanLower(s: string)
    requires Lower(s)
    ensures CleanName(s) == s
  {
    if s != [] {
      CleanLower(s[1..]);
    }
  }

  /** Cleaning is idempotent. */
  lemma CleanNameIdempotent(s: string)
    ensures CleanName(CleanName(s)) == CleanName(s)
  {
    CleanLower(CleanName(s));
  }

  lemma CleanOne(c: char)
    ensures CleanName([c]) == Clean(c)
  {
    assert [c][1..] == [];
  }

  /** Every character that lowers to no letter is ignored: underscores, digits, spaces. */
  lemma CleanIgnoresNonLetters(s: string, t: string, c: char)
    requires !('a' <= c <= 'z' || 'A' <= c <= 'Z' || c == '\U{0130}' || c == '\U{212A}')
    ensures CleanName(s + [c] + t) == CleanName(s + t)
  {
    CleanNameAppend(s + [c], t);
    CleanNameAppend(s, [c]);
    CleanNameAppend(s, t);
    CleanOne(c);
  }

  /** Case is ignored: an upper-case letter cleans as its lower case. */
  lemma CleanIgnoresCase(s: string, t: string, u: char)
    requires 'A' <= u <= 'Z'
    ensures CleanName(s + [u] + t) == CleanName(s + [(u as int + 32) as char] + t)
  {
    var l := (u as int + 32) as char;
    CleanNameAppend(s + [u], t);
    CleanNameAppend(s, [u]);
    CleanNameAppend(s + [l], t);
    CleanNameAppend(s, [l]);
    CleanOne(u);
    CleanOne(l);
  }

  /**
   * The lookup table: each value inserted under its cleaned name in order, a later value
   * replacing an earlier one with the same key, as `HashMap::insert` does.
   */
  function TableOf(vals: seq<ChatFormatting>): map<string, ChatFormatting>
  {
    if vals == [] then map[]
    else TableOf(vals[..|vals| - 1])[CleanName(vals[|vals| - 1].name) := vals[|vals| - 1]]
  }

  /** The last position in `vals` whose cleaned name is `k`. */
  function LastWith(vals: seq<ChatFormatting>, k: string): (r: Option<nat>)
    ensures r.None? ==> forall i :: 0 <= i < |vals| ==> CleanName(vals[i].name) != k
    ensures r.Some? ==> r.value < |vals| && CleanName(vals[r.value].name) == k
    ensures r.Some? ==> forall j :: r.value < j < |vals| ==> CleanName(vals[j].name) != k
  {
    if vals == [] then None
    else if CleanName(vals[|vals| - 1].name) == k then Some(|vals| - 1)
    else LastWith(vals[..|vals| - 1], k)
  }

  /** The table holds a key exactly when some value has that cleaned name, and then the last such value. */
  lemma {:induction false} TableLast(vals: seq<ChatFormatting>, k: string)
    ensures k in TableOf(vals) <==> LastWith(vals, k).Some?
    ensures k in TableOf(vals) ==> TableOf(vals)[k] == vals[LastWith(vals, k).value]
  {
    if vals != [] {
      var n := |vals| - 1;
      TableLast(vals[..n], k);
    }
  }

  /** The `FORMATTING_BY_NAME` initialiser: a loop inserting every value under its cleaned name. */
  method BuildTable() returns (m: map<string, ChatFormatting>)
    ensures m == TableOf(Values)
  {
    m := map[];
    var i := 0;
    while i < |Values|
      invariant 0 <= i <= |Values|
      invariant m == TableOf(Values[..i])
    {
      var value := Values[i];
      m := m[CleanName(value.name) := value];
      assert Values[..i + 1][..i] == Values[..i];
      i := i + 1;
    }
    assert Values[..i] == Values;
  }

  /** `get_by_name`: the value whose cleaned name is the cleaned argument. */
  function GetByName(s: string): (r: Option<ChatFormatting>)
    ensures r.Some? ==> r.value in Values && CleanName(r.value.name) == CleanName(s)
    ensures r.None? ==> forall i :: 0 <= i < |Values| ==> CleanName(Values[i].name) != CleanName(s)
  {
    var table := TableOf(Values);
    var k := CleanName(s);
    TableLast(Values, k);
    if k in table then Some(table[k]) else None
  }

  /** Every value is found by its own name, as a value with the same cleaned name. */
  lemma ValueFound(i: nat)
    requires i < |Values|
    ensures GetByName(Values[i].name).Some?
    ensures CleanName(GetByName(Values[i].name).value.name) == CleanName(Values[i].name)
  {
    TableLast(Values, CleanName(Values[i].name));
  }

  /** Lookup never yields BOLD, which is not among the values. */
  lemma BoldNeverFound(s: string)
    ensures BOLD !in Values
    ensures GetByName(s) != Some(BOLD)
  {
    assert forall i :: 0 <= i < |Values| ==> Values[i].code != BOLD.code;
  }

  /** A name starting with a lower-case letter cleans to a name starting with it. */
  lemma FirstClean(s: string)
    requires |s| > 0 && 'a' <= s[0] <= 'z'
    ensures |CleanName(s)| > 0 && CleanName(s)[0] == s[0]
  {
  }

  lemma NotBold(i: nat)
    requires i < |Values|
    ensures CleanName(Values[i].name) != "bold"
  {
    var s := Values[i].name;
    if i == 0 || i == 9 {
      CleanLower(s);
    } else {
      FirstClean(s);
    }
  }

  /** `get_by_name("bold")` finds nothing. */
  lemma BoldNotFound()
    ensures GetByName("bold") == None
  {
    CleanLower("bold");
    forall i | 0 <= i < |Values|
      ensures CleanName(Values[i].name) != "bold"
    {
      NotBold(i);
    }
    TableLast(Values, "bold");
  }

  /** ASCII upper case. */
  function UpperAscii(s: string): (u: string)
    ensures |u| == |s|
  {
    if s == [] then []
    else [if 'a' <= s[0] <= 'z' then (s[0] as int - 32) as char else s[0]] + UpperAscii(s[1..])
  }

  /** Upper-casing a name does not change its cleaned form. */
  lemma {:induction false} CleanUpper(s: string)
    ensures CleanName(UpperAscii(s)) == CleanName(s)
  {
    if s != [] {
      assert UpperAscii(s)[1..] == UpperAscii(s[1..]);
      CleanUpper(s[1..]);
    }
  }

  /** The display prefix as the source writes it: U+0E22 U+0E07, two Thai letters. */
  const PrefixAsWritten: string := "\U{0E22}\U{0E07}"

  /** The section sign of Minecraft's formatting codes. */
  const SectionSign: string := "\U{00A7}"

  /** `Display` as written: the Thai prefix, then the code. */
  function DisplayAsWritten(f: ChatFormatting): (s: string)
    ensures |s| == 3 && s[2] == f.code && s[..2] == PrefixAsWritten
  {
    PrefixAsWritten + [f.code]
  }

  /** TIS-620 (the Thai single-byte charset): bytes 0xA1 to 0xFB are U+0E01 onwards. */
  function Tis620(b: u8): char
    requires 0xA1 <= b <= 0xFB
  {
    (0x0E01 + (b - 0xA1)) as char
  }

  /**
   * The written prefix is the UTF-8 encoding of the section sign read as TIS-620 text, so
   * for example RED displays as three characters where `§c` was meant.
   */
  lemma DisplayAsWrittenIsMisdecoded()
    ensures Utf8.Encode(SectionSign) == [0xC2, 0xA7]
    ensures PrefixAsWritten == [Tis620(0xC2), Tis620(0xA7)]
    ensures DisplayAsWritten(RED) != SectionSign + "c"
  {
    assert SectionSign[1..] == [];
  }

  /** `Display` as intended: the section sign, then the code. */
  function Display(f: ChatFormatting): (s: string)
    ensures |s| == 2 && s[0] == '\U{00A7}' && s[1] == f.code
  {
    SectionSign + [f.code]
  }

  /** The intended display differs from the written one exactly in the prefix. */
  lemma DisplayCorrected(f: ChatFormatting)
    ensures Display(f)[1..] == DisplayAsWritten(f)[2..] == [f.code]
    ensures Display(f)[..1] == SectionSign != PrefixAsWritten
  {
  }
}
