# NBT tags, their text and binary forms, and the chat helpers

This project models the NBT (Named Binary Tag) library of the blocky repository in Dafny and
proves properties of the model. It covers:

- the `Tag` value and its `Kind`;
- segment indexing into compounds and lists, and the `Nbt` root that wraps a named tag;
- the SNBT text form: the character `Reader`, the recursive-descent `Parser`, and the printer
  (`Display for Tag` with `quote_and_escape`);
- the big-endian binary wire format: `decode_tag`/`decode_nbt` and `encode_tag`/`encode_nbt`;
- the smaller helpers: `ResourceLocation`, the two `ChatFormatting` tables and `TextColor`.

How the model is built:

- **Pure values.** Pure code is modelled with datatypes, functions and lemmas.
- **Stateful code.** Code that mutates state is modelled with classes:
  - `Reader` holds a char sequence and a position;
  - `Parser` owns a `Reader`;
  - the decoder's `Cursor` holds input bytes and a position;
  - the encoder's `Buffer` holds a growing byte sequence;
  - `Nbt` holds a name and a tag.
- **Specifications.** Each method is proved equal to a specification function of the old state,
  so the lemmas about those functions carry over to the methods.
- **Compounds** are sequences of `(name, tag)` entries with unique keys, in insertion order.
- **Lists** store the wire id of their element kind, as the `nbt` crate's codec and index do.
- **Bytes** are `seq<u8>`, where `u8` is the subtype `0..255`.
- **Floats and doubles** are kept as their 32- and 64-bit patterns. The decimal text of
  floating-point numbers is supplied as four functions (`Floats.FloatText`).
- **Panics.** Where the source panics, the model returns an error value or carries a
  precondition:
  - printing End, narrowing a tag of the wrong variant, and indexing a tag that cannot be
    indexed are error values;
  - encoding End is the precondition `Encodable`;
  - buffer under-runs in the decoder are the error `Truncated`.

The main results:

- **Binary round trip.** `BinaryRoundTrip.DecodeEncode` proves that decoding the encoding of a
  named tag gives it back, whatever bytes follow. The name must be at most 65535 bytes of UTF-8
  (`NameFits`), and the tag must be `Representable`, which asks for all of:
  - no End value anywhere inside it;
  - every string at most 32767 bytes of UTF-8;
  - every list shorter than 2^31 elements, each element representable and of the kind whose
    wire id the list stores;
  - every compound with unique keys, each key at most 65535 bytes of UTF-8 and each value
    representable;
  - every byte, int and long array shorter than 2^31 elements.
- **Text round trip.** `Printer.ReadQuotedRoundTrip` proves that the reader reads a quoted and
  escaped string back exactly. `SnbtRoundTrip.ScalarPrintParse` and
  `SnbtRoundTrip.StringPrintParse` prove that printed scalars and strings parse back.
- **Reader and parser.** Every method of the reader and the parser is proved against a
  specification function that also fixes the cursor position it leaves, on success and on
  error.

Two behaviours of the code that are easy to misread:

- `quote_and_escape` (blocky-nbt/src/tag/mod.rs:126-147) fixes the wrapping quote at the first
  quote character of the string: `'` when that is `"`, and `"` when it is `'` or when the string
  has no quote. Only the chosen quote is escaped, so a string holding both quote characters is
  wrapped in `'` when its first quote is `"` (`Printer.QuoteFor`, `PrintExamples.EscapedQuotes`).
- `read_string_until` (blocky-nbt/src/tag/parser/reader.rs:128-153) ends its loop on `done()`,
  which compares the char position with the byte length (reader.rs:31-41). In an unterminated
  quoted string that holds a non-ASCII character, `read()` then runs past the last char and
  fails with "not enough chars" (reader.rs:43-47) before the loop can return "unexpected end of
  string" (reader.rs:152). This is the byte/char mix described under "## Findings"; the char
  model (`TextReader.Until`) gives `UnexpectedEndOfString` there.

## Model

| member | source | states |
|---|---|---|
| Kinds.Id | blocky-nbt/src/tag/kind.rs:19-35 | the wire id of every kind is at most 12, so it fits one byte |
| Kinds.IntoU8 | blocky-nbt/src/tag/kind.rs:38-42 | converting a kind into `u8` gives its id |
| Kinds.IdsFollowDeclarationOrder | blocky-nbt/src/tag/kind.rs:2-35 | the 13 kinds, in declaration order, have ids 0 to 12 |
| Kinds.IdsDistinct | blocky-nbt/src/tag/kind.rs:19-35 | two kinds share an id exactly when they are equal or both are lists |
| Kinds.ListIdIgnoresElement | blocky-nbt/src/tag/kind.rs:30 | a list kind has id 9 whatever its element id |
| Tags.KindOf | blocky-nbt/src/tag/mod.rs:89-109 | a tag's kind is a list kind exactly for lists, and End exactly for End |
| Tags.KindIgnoresPayload | blocky-nbt/src/tag/mod.rs:89-109 | two tags, the first not a list, have the same kind exactly when they are the same variant |
| Tags.KindIdIsVariantIndex | blocky-nbt/src/tag/mod.rs:89-109 | the id of a tag's kind is the position of its variant in the `Tag` declaration |
| Tags.VariantIndex | blocky-nbt/src/tag/mod.rs:22-36 | the position of a variant is at most 12 |
| Tags.ListKindFromFirst | blocky-nbt/src/tag/mod.rs:100-104 | two lists that are both empty, or whose first elements have the same kind, have the same kind |
| Tags.EmptyListKind | blocky-nbt/src/tag/mod.rs:100-104 | an empty list has kind `List(0)` |
| Tags.ListKindOfNonEmpty | blocky-nbt/src/tag/mod.rs:100-104 | a non-empty list's kind holds its first element's kind id, and later elements never change it |
| Tags.IntoTag | blocky-nbt/src/tag/mod.rs:38-45 | converting a plain value into a tag never gives End, a list or a compound |
| Tags.Narrow | blocky-nbt/src/tag/mod.rs:46-62 | narrowing succeeds with a value of the requested type that converts back to the tag, and fails only when no value of that type converts to the tag |
| Tags.NarrowIntoTag | blocky-nbt/src/tag/mod.rs:38-86 | for each of the ten conversion pairs, value to tag to value is the identity |
| Tags.NarrowOtherTypeFails | blocky-nbt/src/tag/mod.rs:46-62 | narrowing a converted value to any other type fails with "cannot convert" |
| Tags.NarrowStructuralFails | blocky-nbt/src/tag/mod.rs:46-62 | End, lists and compounds narrow to no plain type |
| OrderedMap.Find | nbt/src/tag/index.rs:10-15 | a key is found exactly when some entry has that key |
| OrderedMap.Put | nbt/src/tag/index.rs:24-31 | an insert keeps every entry and adds at most one |
| OrderedMap.FindEntry | nbt/src/tag/index.rs:10-15 | with unique keys, looking up an entry's key gives that entry's value |
| OrderedMap.PutSpec | nbt/src/tag/index.rs:24-31 | inserting sets the key's value and leaves every other key's value unchanged; an existing key keeps its position, a new key is appended, and keys stay unique |
| OrderedMap.PutFind | nbt/src/tag/index.rs:24-31 | after inserting, the key maps to the new value |
| OrderedMap.PutFindOther | nbt/src/tag/index.rs:24-31 | inserting one key leaves the lookup of every other key unchanged |
| OrderedMap.PutKeys | nbt/src/tag/index.rs:24-31 | overwriting an existing key keeps the key order |
| OrderedMap.PutAbsent | nbt/src/tag/index.rs:24-31 | inserting a missing key appends it at the end |
| OrderedMap.PutUnique | nbt/src/tag/index.rs:24-31 | inserting keeps the keys unique |
| OrderedMap.OrInsert | nbt/src/tag/index.rs:24-31 | `entry().or_insert(d)` leaves a map that has the key unchanged, and otherwise appends `(key, d)` |
| OrderedMap.PutBack | nbt/src/decoder.rs:46-60 | a linked-hash-map insert sets the key, moves it to the back, keeps every other value and keeps keys unique |
| OrderedMap.AppendNew | nbt/src/decoder.rs:46-60 | appending a missing key adds exactly that binding at the end of the key order |
| OrderedMap.PutLast | nbt/src/tag/index.rs:24-31 | assigning a key that was just appended replaces its default value in place |
| OrderedMap.UniqueBefore | nbt/src/decoder.rs:46-60 | with unique keys, no entry's key occurs before it |
| OrderedMap.Remove | nbt/src/decoder.rs:46-60 | removing a key drops it and leaves the other lookups and uniqueness unchanged |
| TagIndex.IndexInto | nbt/src/tag/index.rs:10-15 | a key on a compound looks up the entry and a position on a list gives the element iff it is in bounds; the owned `String` and reference segments (nbt/src/tag/index.rs:37-49, 83-95) behave the same; every other combination gives nothing |
| TagIndex.At | nbt/src/lib.rs:41-46 | `tag[seg]` is the child when there is one and End otherwise |
| TagIndex.AtEnd | nbt/src/lib.rs:41-46 | indexing End gives End |
| TagIndex.ChainThroughMissing | nbt/src/lib.rs:41-46 | a chain of indexing through a missing child ends in End without failing |
| TagIndex.EndPath | nbt/src/lib.rs:41-46 | any chain of indexing that starts from End gives End |
| TagIndex.WriteExisting | nbt/src/tag/index.rs:17-22 | writing through `index_into_mut` sets the child, keeps the variant, the compound's key order, and the list's element id and length, and leaves every other key's child and every other element unchanged |
| TagIndex.IndexOrInsert | nbt/src/tag/index.rs:24-34 | `index_or_insert` succeeds exactly for a key on a compound or an in-bounds position on a list; it leaves a list or an existing key unchanged, appends `(key, End)` for a new key, and otherwise fails with the matching error |
| TagIndex.Assign | blocky-nbt/src/tag/mod.rs:119-121 | `insert` fails exactly when `index_or_insert` does, with its error, and otherwise the slot holds the new value |
| TagIndex.AssignSucceeds | nbt/src/lib.rs:49-53 | assignment succeeds exactly for a key on a compound or an in-bounds position on a list |
| TagIndex.AssignKeyFrame | nbt/src/tag/index.rs:24-31 | assigning a key on a compound leaves every other key's child unchanged, keeps the key order for an existing key, and appends a new key |
| TagIndex.AssignPositionFrame | nbt/src/tag/index.rs:66-80 | assigning an in-bounds position replaces that element only and never grows the list |
| TagIndex.AssignmentTest | nbt/src/lib.rs:134-139 | after `tag["testing"] = v` on a compound, `tag["testing"]` is `v` |
| NbtRoot.Nbt.constructor | nbt/src/lib.rs:21-23 | a new root holds the given name and tag |
| NbtRoot.Nbt.Get | nbt/src/lib.rs:25-27 | `get` looks up the root tag |
| NbtRoot.Nbt.Index | nbt/src/lib.rs:58-60 | `nbt[key]` is the root tag's child for the key, or End, and it is End for a root that is not a compound |
| NbtRoot.Nbt.GetMut | nbt/src/lib.rs:29-31 | `get_mut` finds a slot exactly when the child exists; writing through it sets that child and leaves the rest of the tag as `WriteExisting` does; a missing child leaves the tag unchanged, and the name never changes |
| NbtRoot.Nbt.Insert | nbt/src/lib.rs:33-35 | `insert` succeeds exactly when assignment does, and then the root's child is the value; on failure the root is unchanged; the name never changes |
| NbtRoot.Nbt.IndexMut | nbt/src/lib.rs:64-66 | `&mut nbt[key]` succeeds exactly on a compound root, creating `(key, End)` when missing, and leaves the name unchanged |
| TextReader.SkipWs | blocky-nbt/src/tag/parser/reader.rs:67-77 | whitespace skipping consumes only whitespace, and stops at the end or before a character that is not whitespace |
| TextReader.IsQuote | blocky-nbt/src/tag/parser/reader.rs:89-91 | the quote chars `"` and `'` are neither allowed in an unquoted string nor whitespace |
| TextReader.IsAllowedInUnquotedString | blocky-nbt/src/tag/parser/reader.rs:93-101 | a char allowed in an unquoted string is ASCII, not whitespace and none of the SNBT delimiters |
| TextReader.IsWhitespace | blocky-nbt/src/tag/parser/reader.rs:69 | on ASCII, whitespace is the space and the controls tab to carriage return |
| TextReader.UnquotedEnd | blocky-nbt/src/tag/parser/reader.rs:103-111 | an unquoted string runs over the maximal stretch of `[0-9A-Za-z_.+-]` characters |
| TextReader.ReadUnquoted | blocky-nbt/src/tag/parser/reader.rs:103-111 | reading an unquoted string always succeeds with exactly that maximal stretch of characters |
| TextReader.Until | blocky-nbt/src/tag/parser/reader.rs:128-153 | success lies just past the closing quote; running out of input fails at the end |
| TextReader.BadEscape | blocky-nbt/src/tag/parser/reader.rs:135-142 | a backslash followed by anything but the quote or a backslash fails with "invalid escape", with the position on the offending character |
| TextReader.UnterminatedFails | blocky-nbt/src/tag/parser/reader.rs:128-153 | text with neither the quote nor a backslash fails with "unexpected end of string" at the end |
| TextReader.ReadQuoted | blocky-nbt/src/tag/parser/reader.rs:113-126 | a quoted read gives `""` at the end of input, fails without moving when the next character is not a quote, and on success ends on the same quote it started with |
| TextReader.ReadStr | blocky-nbt/src/tag/parser/reader.rs:155-167 | `read_string` reads a quoted string when the next character is a quote and an unquoted one otherwise |
| TextReader.Reader.constructor | blocky-nbt/src/tag/parser/reader.rs:8-17 | a new reader holds the characters of the text, at position 0 |
| TextReader.Reader.SetPosition | blocky-nbt/src/tag/parser/reader.rs:23-25 | the position becomes the given one |
| TextReader.Reader.Len | blocky-nbt/src/tag/parser/reader.rs:31-33 | the length is the number of characters |
| TextReader.Reader.Remaining | blocky-nbt/src/tag/parser/reader.rs:27-29 | position plus remaining is the length |
| TextReader.Reader.HasRemaining | blocky-nbt/src/tag/parser/reader.rs:35-37 | `has_remaining(n)` holds exactly when n chars remain |
| TextReader.Reader.Done | blocky-nbt/src/tag/parser/reader.rs:39-41 | `done` holds exactly at the end of the chars |
| TextReader.Reader.PeekNth | blocky-nbt/src/tag/parser/reader.rs:43-47 | `peek_nth(n)` is the character at position + n when there is one, and fails with "not enough chars" otherwise |
| TextReader.Reader.Peek | blocky-nbt/src/tag/parser/reader.rs:49-51 | `peek` is `peek_nth(0)` |
| TextReader.Reader.ReadNth | blocky-nbt/src/tag/parser/reader.rs:53-57 | `read_nth(n)` returns what `peek_nth(n)` would and advances by n + 1 on success only |
| TextReader.Reader.Read | blocky-nbt/src/tag/parser/reader.rs:59-61 | `read` returns the next character and advances by one on success only |
| TextReader.Reader.Skip | blocky-nbt/src/tag/parser/reader.rs:63-65 | `skip` advances by one |
| TextReader.Reader.SkipWhitespace | blocky-nbt/src/tag/parser/reader.rs:67-77 | the position moves past exactly the whitespace that follows it |
| TextReader.Reader.Expect | blocky-nbt/src/tag/parser/reader.rs:79-87 | `expect(c)` fails without moving at the end, and otherwise consumes one character, even when it differs from `c` |
| TextReader.Reader.ReadUnquotedString | blocky-nbt/src/tag/parser/reader.rs:103-111 | the loop returns the maximal unquoted stretch and leaves the position after it |
| TextReader.Reader.ReadStringUntil | blocky-nbt/src/tag/parser/reader.rs:128-153 | the loop's result and final position are those of the escape-decoding specification `Until` |
| TextReader.Reader.ReadQuotedString | blocky-nbt/src/tag/parser/reader.rs:113-126 | the result and final position are those of `ReadQuoted` |
| TextReader.Reader.ReadString | blocky-nbt/src/tag/parser/reader.rs:155-167 | the result and final position are those of `ReadStr` |
| ReaderAsWritten.SkipWsAsWritten | blocky-nbt/src/tag/parser/reader.rs:67-77 | whitespace skipping as written, bounded by the byte length, fails only with "not enough chars" |
| ReaderAsWritten.UnquotedEndAsWritten | blocky-nbt/src/tag/parser/reader.rs:103-109 | the unquoted loop as written fails only with "not enough chars" |
| ReaderAsWritten.ReadUnquotedAsWritten | blocky-nbt/src/tag/parser/reader.rs:103-111 | a failure of `read_unquoted_string` as written leaves the position at the last character |
| ReaderAsWritten.SkipWsAgrees | blocky-nbt/src/tag/parser/reader.rs:67-77 | the code as written stops where the char model stops, except that it fails when the whitespace runs to the end of a text with a non-ASCII character |
| ReaderAsWritten.UnquotedEndAgrees | blocky-nbt/src/tag/parser/reader.rs:103-109 | the same holds for the end of an unquoted string |
| ReaderAsWritten.AsciiAgrees | blocky-nbt/src/tag/parser/reader.rs:103-111 | on ASCII text the code as written gives the char model's string and position |
| ReaderAsWritten.UnquotedSliceCounterexample | blocky-nbt/src/tag/parser/reader.rs:110 | in `["é",a]` the code as written reads `,` where the char model reads `a` |
| ReaderAsWritten.UnquotedEndCounterexample | blocky-nbt/src/tag/parser/reader.rs:103-109 | in `é a` the code as written fails reading the final `a`, which the char model reads |
| Literals.SignLen | nbt/src/tag/parser/mod.rs:12-15 | the optional sign is at most one character |
| Literals.FirstE | nbt/src/tag/parser/mod.rs:9-11 | the exponent marker is the first `e` or `E`, if any |
| Literals.Lower | nbt/src/tag/parser/mod.rs:9-15 | case folding for the `(?i)` patterns keeps the length |
| Literals.IsFloatPattern | nbt/src/tag/parser/mod.rs:11 | a float literal is a number text with at least one digit followed by `f` or `F` |
| Literals.IsBytePattern | nbt/src/tag/parser/mod.rs:12 | a byte literal is an integer text that reads as an integer, followed by `b` or `B` |
| Literals.IsLongPattern | nbt/src/tag/parser/mod.rs:13 | a long literal is an integer text that reads as an integer, followed by `l` or `L` |
| Literals.IsShortPattern | nbt/src/tag/parser/mod.rs:14 | a short literal is an integer text that reads as an integer, followed by `s` or `S` |
| Literals.IsIntPattern | nbt/src/tag/parser/mod.rs:15 | an int literal reads as an integer, has no `.` and ends in a digit |
| Literals.IsDoublePattern | nbt/src/tag/parser/mod.rs:10 | a suffixed double literal is a number text with at least one digit followed by `d` or `D` |
| Literals.IsDoubleNoSuffixPattern | nbt/src/tag/parser/mod.rs:9 | an unsuffixed double literal has a digit and a `.`, so it is never an int literal |
| Literals.IntFormParses | nbt/src/tag/parser/mod.rs:15 | the optional sign and the digits with no leading zero read as an integer and end in a digit |
| Literals.DecimalFormDigit | nbt/src/tag/parser/mod.rs:9-11 | a decimal mantissa `[0-9]+[.]?` or `[0-9]*[.][0-9]+` holds a digit |
| Literals.DotsWitness | nbt/src/tag/parser/mod.rs:9 | a text in which a `.` is counted contains a `.` |
| Literals.DecimalFormDot | nbt/src/tag/parser/mod.rs:9 | the mantissa of the unsuffixed double pattern contains a `.` |
| Literals.ParseRanged | nbt/src/tag/parser/mod.rs:98-105 | a parsed integer lies in the range of its type and is the decimal value of the text |
| Literals.ParseType | nbt/src/tag/parser/mod.rs:93-117 | a recognised literal is a Byte, Short, Int, Long, Float or Double, never End, a list, a compound, a string or an array |
| Literals.TypedToken | nbt/src/tag/parser/mod.rs:82-89 | an unquoted token is the tag `parse_type` gives, or the string itself when no pattern accepts it |
| Literals.IntTextForm | nbt/src/tag/parser/mod.rs:15 | the decimal text of any integer matches the integer pattern and reads back as that integer |
| Literals.ByteTextParses | nbt/src/tag/parser/mod.rs:98-99 | the decimal text of a byte followed by `b` parses to that byte |
| Literals.ShortTextParses | nbt/src/tag/parser/mod.rs:102-103 | the decimal text of a short followed by `s` parses to that short |
| Literals.LongTextParses | nbt/src/tag/parser/mod.rs:100-101 | the decimal text of a long followed by `L` parses to that long |
| Literals.IntTextParses | nbt/src/tag/parser/mod.rs:104-105 | the decimal text of an int parses to that int |
| Literals.OutOfRangeByte | nbt/src/tag/parser/mod.rs:88-99 | `300b` is not a byte, so the token becomes the string `300b` |
| Literals.UnknownToken | nbt/src/tag/parser/mod.rs:93-117 | `12x` matches no pattern |
| Literals.TrueIsOne | nbt/src/tag/parser/mod.rs:110-111 | `true`, in any casing, is `Byte(1)` |
| Literals.FalseIsZero | nbt/src/tag/parser/mod.rs:112-113 | `false`, in any casing, is `Byte(0)` |
| Snbt.PutCanonical | nbt/src/tag/parser/mod.rs:168 | inserting a non-empty key with a canonical value keeps a compound canonical |
| Snbt.ExpectAt | nbt/src/tag/parser/mod.rs:57-62 | the parser's `expect` skips whitespace and succeeds just past the expected character |
| Snbt.SeparatorAt | nbt/src/tag/parser/mod.rs:137-148 | a separator is found exactly when the next non-whitespace char is `,`; then the cursor is after the whitespace that follows it, and otherwise after the whitespace before the char |
| Snbt.ReadKeyAt | nbt/src/tag/parser/mod.rs:64-72 | reading a key never moves the cursor backwards |
| Snbt.TypedValueAt | nbt/src/tag/parser/mod.rs:74-91 | blank input fails with "not enough chars"; a quote reads the quoted string, its position and errors included; an empty unquoted stretch fails with a missing value at its start; otherwise the result is the tag `parse_type` gives for the stretch, or the stretch as a string, ending after it; a read value is canonical |
| Snbt.ValueAt | nbt/src/tag/parser/mod.rs:119-135 | a value, when read, consumes input and is canonical: its lists are homogeneous and its list ids match their first elements |
| Snbt.CloseAt | nbt/src/tag/parser/mod.rs:179-180 | a successful close gives the value unchanged and ends just after the closing char |
| Snbt.StructAt | nbt/src/tag/parser/mod.rs:150-179 | a parsed compound consumes input and is canonical: keys are non-empty and unique and values canonical |
| Snbt.StructLoop | nbt/src/tag/parser/mod.rs:156-177 | starting from canonical entries, the entry loop gives a canonical compound and consumes input |
| Snbt.MakeList | nbt/src/tag/parser/mod.rs:228-247 | a parsed list's stored id is the id its kind reports |
| Snbt.ListAt | nbt/src/tag/parser/mod.rs:250-256 | a list or typed array read after `[` is canonical |
| Snbt.ListTagAt | nbt/src/tag/parser/mod.rs:213-248 | a parsed list consumes input and is canonical: elements of one kind, the id of the first |
| Snbt.ListLoop | nbt/src/tag/parser/mod.rs:221-244 | from a list state of one kind, the element loop keeps every element at the first element's kind and consumes input |
| Snbt.Push | nbt/src/tag/parser/mod.rs:18-46 | pushing an element of the array's element kind appends to the array and keeps it a typed array of that kind |
| Snbt.ArrayTagAt | nbt/src/tag/parser/mod.rs:183-210 | a parsed typed array consumes input and is canonical |
| Snbt.EmptyArray | nbt/src/tag/parser/mod.rs:198-206 | `B` gives the empty byte array, `I` the empty int array, `L` the empty long array, and every other letter none |
| Snbt.ArrayLoop | nbt/src/tag/parser/mod.rs:18-46 | the element loop consumes input and gives a typed array |
| Snbt.Parse | nbt/src/tag/parser/mod.rs:260-265 | blank text fails with a missing value; text whose first non-whitespace char is a quote gives the String that the quoted read gives, and fails when it fails |
| SnbtParser.Parser.constructor | nbt/src/tag/parser/mod.rs:53-55 | a new parser reads the text from position 0 |
| SnbtParser.Parser.Expect | nbt/src/tag/parser/mod.rs:57-62 | result and cursor are those of `ExpectAt` |
| SnbtParser.Parser.ReadKey | nbt/src/tag/parser/mod.rs:64-72 | result and cursor are those of `ReadKeyAt` |
| SnbtParser.Parser.ReadTypedValue | nbt/src/tag/parser/mod.rs:74-91 | result and cursor are those of `TypedValueAt` |
| SnbtParser.Parser.ReadValue | nbt/src/tag/parser/mod.rs:119-135 | result and cursor are those of `ValueAt` |
| SnbtParser.Parser.HasSeparator | nbt/src/tag/parser/mod.rs:137-148 | result and cursor are those of `SeparatorAt` |
| SnbtParser.Parser.ReadStruct | nbt/src/tag/parser/mod.rs:150-179 | the loop's result and cursor are those of `StructAt` |
| SnbtParser.Parser.ReadList | nbt/src/tag/parser/mod.rs:250-256 | result and cursor are those of `ListAt` |
| SnbtParser.Parser.ReadListTag | nbt/src/tag/parser/mod.rs:213-248 | the loop's result and cursor are those of `ListTagAt` |
| SnbtParser.Parser.ReadArrayTag | nbt/src/tag/parser/mod.rs:183-210 | result and cursor are those of `ArrayTagAt` |
| SnbtParser.Parser.ReadArrayOfKind | nbt/src/tag/parser/mod.rs:193-209 | with no more input the error is a missing array value at the letter; an unknown letter fails as an unknown array type; otherwise result and cursor are those of `ArrayLoop` from that letter's empty array |
| SnbtParser.Parser.ReadArrayClosed | nbt/src/tag/parser/mod.rs:18-46 | the `read_array!` loop's result and cursor are those of `ArrayLoop` |
| SnbtParser.Parser.ReadArray | nbt/src/tag/parser/mod.rs:18-46 | failures agree with `ArrayLoop`; success ends at the closing bracket |
| SnbtParser.ParseText | nbt/src/tag/parser/mod.rs:260-265 | `Nbt::parse` gives the value of the specification `Parse` |
| SnbtLaws.ValueAtBlank | nbt/src/tag/parser/mod.rs:120-124 | empty or all-whitespace text is a missing value, at the end of the text |
| SnbtLaws.ValueAtDispatch | nbt/src/tag/parser/mod.rs:126-134 | `read_value` reads a compound at `{`, a list at `[` and a typed value at any other char |
| SnbtLaws.ValueAtOpens | nbt/src/tag/parser/mod.rs:119-135 | a value read at `{` is a compound, at `[` a list or typed array, and anywhere else neither |
| SnbtLaws.TypedValueScalar | nbt/src/tag/parser/mod.rs:74-91 | a typed value is never a compound, a list or a typed array |
| SnbtLaws.StructLoopShape | nbt/src/tag/parser/mod.rs:156-179 | a parsed compound ends with `}` and keeps the keys read so far first, in their order |
| SnbtLaws.StructResultShape | nbt/src/tag/parser/mod.rs:156-179 | the same, for a given result of the loop, by induction over the entries |
| SnbtLaws.StructNext | nbt/src/tag/parser/mod.rs:156-177 | a successful loop either closes with the entries read or goes on further in the text with them, the old keys a prefix of the new |
| SnbtLaws.CloseShape | nbt/src/tag/parser/mod.rs:179-180 | a successful `expect(close)` gives the value and ends just after `close` |
| SnbtLaws.KeysPrefix | nbt/src/tag/parser/mod.rs:168 | inserting into the map keeps the existing keys first, in order |
| SnbtLaws.StructEntry | nbt/src/tag/parser/mod.rs:157-176 | an entry inserts `key: value` into the map, then closes, fails with "expected struct closure" at the end, or goes on after the separator |
| SnbtLaws.StructEmptyKey | nbt/src/tag/parser/mod.rs:157-163 | an empty key fails as a missing key with the position restored to the start of the key |
| SnbtLaws.StructMissingColon | nbt/src/tag/parser/mod.rs:165 | a key not followed by `:` fails with the error and position of `expect(':')` |
| SnbtLaws.StructAtShape | nbt/src/tag/parser/mod.rs:150-181 | a parsed compound starts with `{` after whitespace and ends with `}` |
| SnbtLaws.StructAtStep | nbt/src/tag/parser/mod.rs:150-154 | `read_struct` expects `{`, skips whitespace and runs the loop from the empty map |
| SnbtLaws.StructAtEmpty | nbt/src/tag/parser/mod.rs:150-181 | `{` and `}` with only whitespace between parse as the empty compound |
| SnbtLaws.SkipWsStops | blocky-nbt/src/tag/parser/reader.rs:67-77 | skipping whitespace at a char that is not whitespace stays there |
| SnbtLaws.ListLoopShape | nbt/src/tag/parser/mod.rs:224-247 | a parsed list ends with `]` and keeps the elements read so far first, in textual order |
| SnbtLaws.ListResultShape | nbt/src/tag/parser/mod.rs:224-247 | the same, for a given result of the loop, by induction over the elements |
| SnbtLaws.ListNext | nbt/src/tag/parser/mod.rs:224-244 | a successful loop either closes with the elements read or goes on further in the text with them, the old elements a prefix of the new |
| SnbtLaws.ListEntry | nbt/src/tag/parser/mod.rs:225-243 | an element of the loop's kind is appended, fixing the kind when it is the first; then the loop closes, fails with "expected array closure" at the end, or goes on |
| SnbtLaws.ListMixedTypes | nbt/src/tag/parser/mod.rs:228-233 | an element of another kind than the first fails with mixed types, at the start of that element |
| SnbtLaws.ListTagAtShape | nbt/src/tag/parser/mod.rs:213-248 | a parsed list tag ends with `]` |
| SnbtLaws.ListTagAtStep | nbt/src/tag/parser/mod.rs:213-222 | `read_list_tag` expects `[`, fails with a missing array value at the end of input, and otherwise runs the loop from no elements |
| SnbtLaws.ListTagAtEmpty | nbt/src/tag/parser/mod.rs:213-248 | `[` and `]` with only whitespace between parse as the empty list with element id 0 |
| SnbtLaws.EmptyListParses | nbt/src/tag/parser/mod.rs:260-265 | `Nbt::parse("[]")` is the empty list with element id 0 |
| SnbtLaws.ListAtShape | nbt/src/tag/parser/mod.rs:250-256 | `read_list` gives a list or a typed array |
| SnbtLaws.ArrayLoopShape | nbt/src/tag/parser/mod.rs:23-43 | a parsed typed array extends the elements pushed so far and ends with `]` |
| SnbtLaws.ArrayResultShape | nbt/src/tag/parser/mod.rs:23-43 | the same, for a given result of the loop, by induction over the elements |
| SnbtLaws.ArrayNext | nbt/src/tag/parser/mod.rs:23-41 | a successful loop either closes with the array built or goes on further in the text with it |
| SnbtLaws.ArrayEntry | nbt/src/tag/parser/mod.rs:24-40 | an element of the array's element kind is pushed; then the loop closes, fails with "expected array closure" at the end, or goes on |
| SnbtLaws.ExtendsTrans | nbt/src/tag/parser/mod.rs:32 | pushing elements step by step extends the first array |
| SnbtLaws.ArrayMixedTags | nbt/src/tag/parser/mod.rs:24-30 | an element of another kind than the array's fails with mixed tags, at the start of that element |
| SnbtLaws.ArrayTagKind | nbt/src/tag/parser/mod.rs:183-210 | a parsed typed array ends with `]` and is a byte, int or long array for the letter `B`, `I` or `L`; no value after `;` fails with a missing array value at the letter; any other letter fails as an unknown array type |
| SnbtLaws.ArrayTagStep | nbt/src/tag/parser/mod.rs:183-206 | `read_array_tag` skips `[`, the letter and `;`, checks for more input, and runs the loop from the letter's empty array |
| SnbtLaws.DoubleToken | nbt/src/tag/parser/mod.rs:108-109 | `2.0` matches only the unsuffixed double pattern and parses as a double |
| SnbtLaws.OneToken | nbt/src/tag/parser/mod.rs:104-105 | `1` parses as `Int(1)` |
| SnbtLaws.MixedFirst | nbt/src/tag/parser/mod.rs:224-240 | in `[1,2.0]` the first element is `Int(1)`, and the comma after it is a separator |
| SnbtLaws.MixedSecond | nbt/src/tag/parser/mod.rs:119-135 | in `[1,2.0]` the second element is a Double |
| SnbtLaws.MixedLoop | nbt/src/tag/parser/mod.rs:224-233 | the list loop of `[1,2.0]` fails with mixed types at the start of `2.0` |
| SnbtLaws.MixedListExample | nbt/src/tag/parser/mod.rs:119-135 | `[1,2.0]` fails with mixed types, the position reset to the start of `2.0` |
| Printer.FirstQuote | blocky-nbt/src/tag/mod.rs:128-135 | the quote found is a quote character |
| Printer.FirstQuoteIsFirst | blocky-nbt/src/tag/mod.rs:128-135 | none is found exactly when the string has no quote; otherwise it is at the first quote position |
| Printer.QuoteFor | blocky-nbt/src/tag/mod.rs:126-147 | the wrapping quote is `'` when the first quote in the string is `"`, and `"` otherwise |
| Printer.Escape | blocky-nbt/src/tag/mod.rs:128-142 | escaping never shortens the text |
| Printer.EscapeAppend | blocky-nbt/src/tag/mod.rs:128-142 | escaping works character by character, so it distributes over concatenation |
| Printer.EscapeIdentity | blocky-nbt/src/tag/mod.rs:128-142 | a string with no backslash and no chosen quote is copied unchanged |
| Printer.Quoted | blocky-nbt/src/tag/mod.rs:124-149 | the output is the escaped string between two copies of the chosen quote |
| Printer.QuoteAndEscape | blocky-nbt/src/tag/mod.rs:124-149 | the builder loop produces exactly `Quoted(s)` |
| Printer.FirstQuoteAppend | blocky-nbt/src/tag/mod.rs:128-135 | the first quote of `s + t` is the first quote of `s` if it has one, else that of `t` |
| Printer.UntilEscaped | blocky-nbt/src/tag/parser/reader.rs:128-153 | reading up to the quote undoes the escaping |
| Printer.ReadQuotedRoundTrip | blocky-nbt/src/tag/parser/reader.rs:113-153 | `read_quoted_string` applied to `quote_and_escape(s)` returns `s` and consumes exactly the quoted text |
| Printer.SimpleIsUnquoted | blocky-nbt/src/tag/mod.rs:18 | the characters of a bare key are exactly those allowed in an unquoted string |
| Printer.IsSimple | blocky-nbt/src/tag/mod.rs:18 | a bare key is non-empty and is one whole unquoted stretch |
| Printer.Key | blocky-nbt/src/tag/mod.rs:179-184 | a key matching `[A-Za-z0-9._+-]+` is printed bare, any other key quoted and escaped |
| Printer.Join | blocky-nbt/src/tag/mod.rs:173 | joining no parts is empty and joining one part is that part |
| Printer.JoinSnoc | blocky-nbt/src/tag/mod.rs:173 | joining one more part adds the separator and that part |
| Printer.ByteItems | blocky-nbt/src/tag/mod.rs:193-201 | each byte of an array prints as its scalar tag, in order |
| Printer.IntItems | blocky-nbt/src/tag/mod.rs:202-210 | each int of an array prints as its scalar tag, in order |
| Printer.LongItems | blocky-nbt/src/tag/mod.rs:211-219 | each long of an array prints as its scalar tag, in order |
| Printer.Print | blocky-nbt/src/tag/mod.rs:152-221 | printing fails exactly when End occurs somewhere in the tag |
| Printer.PrintItems | blocky-nbt/src/tag/mod.rs:166-175 | the list items are printed in order, failing exactly when some item holds End |
| Printer.PrintEntries | blocky-nbt/src/tag/mod.rs:176-192 | the entries print in iteration order as `key:value`, failing exactly when some value holds End |
| Printer.PrintListFails | blocky-nbt/src/tag/mod.rs:166-175 | a list with an unprintable element cannot be printed |
| Printer.PrintItemsSnoc | blocky-nbt/src/tag/mod.rs:168-170 | printing one more item appends its text |
| Printer.PrintListDone | blocky-nbt/src/tag/mod.rs:166-175 | a printed list is its items joined by `,` inside `[` and `]` |
| Printer.PrintCompoundFails | blocky-nbt/src/tag/mod.rs:176-192 | a compound with an unprintable value cannot be printed |
| Printer.PrintEntriesSnoc | blocky-nbt/src/tag/mod.rs:179-187 | printing one more entry appends its `key:value` text |
| Printer.JoinCons | blocky-nbt/src/tag/mod.rs:173 | joining a first part before others puts one separator between |
| Printer.PrintCompoundDone | blocky-nbt/src/tag/mod.rs:176-192 | a printed compound is its entries joined by `,` inside braces |
| Printer.Display | blocky-nbt/src/tag/mod.rs:152-221 | `Display for Tag` gives the value of the specification `Print` |
| Printer.DisplayList | blocky-nbt/src/tag/mod.rs:166-175 | the item loop gives the value of `Print` for the list |
| Printer.DisplayCompound | blocky-nbt/src/tag/mod.rs:176-192 | the entry loop gives the value of `Print` for the compound |
| Printer.DisplayBytes | blocky-nbt/src/tag/mod.rs:193-201 | the byte loop gives the item texts `ByteItems` |
| Printer.DisplayInts | blocky-nbt/src/tag/mod.rs:202-210 | the int loop gives the item texts `IntItems` |
| Printer.DisplayLongs | blocky-nbt/src/tag/mod.rs:211-219 | the long loop gives the item texts `LongItems` |
| PrintExamples.ByteArrayExample | nbt/src/lib.rs:142-150 | `[B;1,2,6,10]` prints as `[B;1b,2b,6b,10b]` |
| PrintExamples.LongListExample | nbt/src/lib.rs:142-150 | the list of longs 5, 10, 20 prints as `[5L,10L,20L]` |
| PrintExamples.ThreeLongs | blocky-nbt/src/tag/mod.rs:159-175 | a list of three longs prints as their texts with `L`, comma-joined in brackets |
| PrintExamples.QuotedPlain | blocky-nbt/src/tag/mod.rs:124-149 | a string with no backslash and no quote is wrapped in `"` unchanged |
| PrintExamples.OneEntry | blocky-nbt/src/tag/mod.rs:176-192 | a compound with one bare key and a plain string prints as `{key:"text"}` |
| PrintExamples.CompoundExample | nbt/src/lib.rs:142-150 | `{name:"Jaden"}` is the text of the compound with `name` set to `Jaden` |
| PrintExamples.EscapedQuotes | blocky-nbt/src/tag/mod.rs:124-149 | a string starting `""\'` is wrapped in `'`, with its backslash doubled and its `'` escaped |
| PrintExamples.StringExample | nbt/src/lib.rs:128-131 | `""\'this is a test!` prints as `'""\\\'this is a test!'` |
| SnbtRoundTrip.ScalarPrint | blocky-nbt/src/tag/mod.rs:156-162 | a byte, short, int or long prints as its decimal text with the suffix `b`, `s`, none or `L` |
| SnbtRoundTrip.ScalarToken | nbt/src/tag/parser/mod.rs:93-117 | the printed text of an integer scalar parses back to it |
| SnbtRoundTrip.ScalarRoundTrip | nbt/src/tag/parser/mod.rs:119-135 | `read_value` at a printed integer scalar, followed by a delimiter, gives the scalar and stops after it |
| SnbtRoundTrip.StringRoundTrip | nbt/src/tag/parser/mod.rs:79-84 | `read_value` at a printed string gives the String tag and stops after the closing quote |
| SnbtRoundTrip.KeyRoundTrip | nbt/src/tag/parser/mod.rs:64-72 | `read_key` at a printed key followed by `:` gives the key back and stops at the colon |
| SnbtRoundTrip.ScalarPrintParse | nbt/src/tag/parser/mod.rs:260-265 | parsing the printed text of an integer scalar gives the scalar |
| SnbtRoundTrip.StringPrintParse | nbt/src/tag/parser/mod.rs:260-265 | parsing the printed text of a string gives the String tag |
| Decoder.BytesAt | nbt/src/decoder.rs:20-32 | reading n bytes succeeds exactly when n bytes remain, and gives those bytes |
| Decoder.UnsignedAt | nbt/src/decoder.rs:12-18 | an unsigned big-endian read succeeds exactly when enough bytes remain, and gives their value |
| Decoder.SignedAt | nbt/src/decoder.rs:12-18 | a signed big-endian read succeeds exactly when enough bytes remain, and gives their two's-complement value |
| Decoder.Count | nbt/src/decoder.rs:63-66 | a count of zero or less runs the loop no times, and a positive count that many times |
| Decoder.ScalarWidth | nbt/src/decoder.rs:12-18 | a scalar is 1, 2, 4 or 8 bytes wide |
| Decoder.ScalarAt | nbt/src/decoder.rs:12-18 | a scalar id succeeds exactly when its width remains, ending after it with the variant of that id, and otherwise fails as truncated |
| Decoder.TypedArrayAt | nbt/src/decoder.rs:62-91 | an array id reads at least the count and gives the variant of that id; it fails only as truncated |
| Decoder.ListAt | nbt/src/decoder.rs:34-44 | a list reads at least its id and count bytes and gives a list |
| Decoder.TagAt | nbt/src/decoder.rs:8-95 | id 0 is End and reads nothing, an id above 12 is unknown, and a success gives the variant of the id |
| Decoder.StringAt | nbt/src/decoder.rs:20-32 | a string consumes at least its two length bytes |
| Decoder.ArrayAt | nbt/src/decoder.rs:62-91 | the element loop reads exactly the requested number of elements, each fitting the width |
| Decoder.ArrayPayloadAt | nbt/src/decoder.rs:62-91 | an array consumes at least its four count bytes, and every element fits the width |
| Decoder.ItemsAt | nbt/src/decoder.rs:34-44 | the list loop reads exactly the requested number of payloads |
| Decoder.EntriesAt | nbt/src/decoder.rs:46-60 | the compound loop consumes at least its terminator and gives a compound |
| Decoder.NameAt | nbt/src/decoder.rs:100-119 | a name consumes at least its two length bytes |
| Decoder.NamedAt | nbt/src/decoder.rs:97-126 | a named tag consumes at least its id byte |
| Decoder.Decode | nbt/src/decoder.rs:129-150 | decoding in-memory bytes succeeds exactly when a named tag is read at offset 0, and gives it |
| Decoder.Cursor.constructor | nbt/src/decoder.rs:129-150 | a cursor starts at offset 0 of its bytes |
| Decoder.Cursor.GetBytes | nbt/src/decoder.rs:20-32 | moves and returns as `BytesAt`, failing with `Truncated` |
| Decoder.Cursor.GetUnsigned | nbt/src/decoder.rs:12-18 | moves and returns as `UnsignedAt` |
| Decoder.Cursor.GetSigned | nbt/src/decoder.rs:12-18 | moves and returns as `SignedAt` |
| Decoder.Cursor.GetString | nbt/src/decoder.rs:20-32 | moves and returns as `StringAt` |
| Decoder.Cursor.GetName | nbt/src/decoder.rs:100-119 | moves and returns as `NameAt` |
| Decoder.Cursor.GetArray | nbt/src/decoder.rs:62-91 | the element loop moves and returns as `ArrayPayloadAt` |
| Decoder.Cursor.DecodeTag | nbt/src/decoder.rs:8-95 | `decode_tag` moves and returns as `TagAt` |
| Decoder.Cursor.DecodeList | nbt/src/decoder.rs:34-44 | the list loop moves and returns as `ListAt` |
| Decoder.Cursor.DecodeCompound | nbt/src/decoder.rs:46-60 | the compound loop moves and returns as `EntriesAt` |
| Decoder.Cursor.DecodeNbt | nbt/src/decoder.rs:97-126 | `decode_nbt` moves and returns as `NamedAt` |
| Decoder.DecodeRoot | nbt/src/decoder.rs:129-150 | `Nbt::decode` over bytes succeeds exactly when `Decode` does, with a fresh root holding its name and tag |
| WireLayout.Width | nbt/src/decoder.rs:12-18 | scalar widths are 1, 2, 4 or 8 bytes |
| WireLayout.EncodedScalarWidth | nbt/src/encoder.rs:11-35 | Byte, Short, Int, Long, Float and Double encode to exactly 1, 2, 4, 8, 4 and 8 bytes |
| WireLayout.DecodeScalar | nbt/src/decoder.rs:12-18 | ids 1 to 6 succeed exactly when their width remains, read the big-endian value of that many bytes, and otherwise fail as truncated |
| WireLayout.DecodeEnd | nbt/src/decoder.rs:10 | id 0 is End and reads nothing |
| WireLayout.DecodeUnknown | nbt/src/decoder.rs:93 | an id above 12 fails as unknown |
| WireLayout.DecodeAtEnd | nbt/src/decoder.rs:8-126 | at the end of input every payload and every named tag fail as truncated |
| WireLayout.DecodeNamedEnd | nbt/src/decoder.rs:97-104 | id byte 0 is an unnamed End |
| WireLayout.CompoundStopsAtEnd | nbt/src/decoder.rs:46-60 | a compound stops at the first End, which is not inserted |
| WireLayout.DecodeEmptyName | nbt/src/decoder.rs:100-119 | a zero name length gives the empty name |
| WireLayout.NegativeArrayCount | nbt/src/decoder.rs:62-91 | a negative array count yields an empty array |
| WireLayout.NegativeListCount | nbt/src/decoder.rs:34-44 | a negative list count yields an empty list |
| WireLayout.DecodeList | nbt/src/decoder.rs:34-44 | a list is an element id byte and an i32 count, then that many payloads with that id |
| WireLayout.ArrayCount | nbt/src/decoder.rs:62-91 | an array is an i32 count and then that many elements |
| WireLayout.SignedBytes | nbt/src/decoder.rs:12-18 | signed big-endian bytes re-encode to themselves |
| WireLayout.Elements | nbt/src/decoder.rs:62-91 | the elements read are exactly the bytes the encoder writes for them |
| WireLayout.DecodeString | nbt/src/decoder.rs:20-32 | a string is an i16 length, then that many bytes, which must be valid UTF-8 |
| WireLayout.DecodeName | nbt/src/decoder.rs:100-119 | a name is a u16 length, then that many bytes, which must be valid UTF-8 |
| WireLayout.Present | nbt/src/encoder.rs:58-67 | the written entries hold no End value |
| WireLayout.CompoundSkipsEnd | nbt/src/encoder.rs:58-67 | a compound writes its non-End entries in order and then one 0 byte |
| WireLayout.SkipEnd | nbt/src/encoder.rs:60-63 | End-valued entries are skipped |
| WireLayout.NoEnd | nbt/src/encoder.rs:58-67 | without End values every entry is written |
| WireLayout.NamedLayout | nbt/src/encoder.rs:104-122 | a named tag is the kind id byte, the u16 name length, the name bytes and the payload |
| Encoder.CountBytes | nbt/src/encoder.rs:46-98 | counts are written in four bytes |
| Encoder.ArrayBytes | nbt/src/encoder.rs:75-97 | the elements write no bytes exactly when there are none |
| Encoder.TagBytes | nbt/src/encoder.rs:7-102 | a payload is empty exactly for End, which the source cannot encode |
| Encoder.ItemsBytes | nbt/src/encoder.rs:53-55 | encodable list items take at least one byte each |
| Encoder.EntryBytes | nbt/src/encoder.rs:59-63 | an entry writes nothing exactly when its value is End, and otherwise starts with the value's kind id |
| Encoder.NamedBytes | nbt/src/encoder.rs:104-122 | a named tag is at least three bytes and starts with its kind id |
| Encoder.Encode | nbt/src/encoder.rs:104-122 | an encodable root starts with a kind id that is not End's, then at least the name length, the name and one payload byte |
| Encoder.HeaderBytes | nbt/src/encoder.rs:104-120 | the header is three bytes plus the name's UTF-8 bytes |
| Encoder.ItemsFirst | nbt/src/encoder.rs:52-54 | list payloads are written one after the other |
| Encoder.EntriesFirst | nbt/src/encoder.rs:60-64 | compound entries are written one after the other |
| Encoder.ArrayAppend | nbt/src/encoder.rs:69-98 | array elements are written one after the other |
| Encoder.Buffer.constructor | nbt/src/encoder.rs:125-142 | a buffer starts empty |
| Encoder.Buffer.Put | nbt/src/encoder.rs:7-102 | a put appends exactly its bytes and keeps the prefix |
| Encoder.Buffer.PutArray | nbt/src/encoder.rs:69-98 | the element loop appends the count and the elements |
| Encoder.Buffer.EncodeTag | nbt/src/encoder.rs:7-102 | `encode_tag` appends exactly the payload bytes of the tag |
| Encoder.Buffer.PutScalar | nbt/src/encoder.rs:11-35 | a Byte, Short, Int, Long, Float or Double appends its 1, 2, 4, 8, 4 or 8 big-endian bytes |
| Encoder.Buffer.PutTypedArray | nbt/src/encoder.rs:69-98 | a byte, int or long array appends its i32 count and its 1-, 4- or 8-byte elements |
| Encoder.Buffer.PutString | nbt/src/encoder.rs:37-44 | a string appends its i16 byte length and its UTF-8 bytes |
| Encoder.Buffer.PutList | nbt/src/encoder.rs:46-56 | a list appends its stored element id, its count and its payloads |
| Encoder.Buffer.PutCompound | nbt/src/encoder.rs:58-67 | a compound appends its entries and the terminator |
| Encoder.Buffer.PutItems | nbt/src/encoder.rs:52-54 | the item loop appends each payload in order |
| Encoder.Buffer.PutItem | nbt/src/encoder.rs:53-55 | one pass of the item loop appends the payload of one item |
| Encoder.Buffer.PutEntries | nbt/src/encoder.rs:60-64 | the entry loop appends each entry in order |
| Encoder.Buffer.PutNextEntry | nbt/src/encoder.rs:59-63 | one pass of the entry loop appends one entry |
| Encoder.Buffer.PutEntry | nbt/src/encoder.rs:60-63 | an entry appends a named tag, or nothing for End |
| Encoder.Buffer.EncodeNbt | nbt/src/encoder.rs:104-122 | `encode_nbt` appends the header and the payload |
| Encoder.EncodeRoot | nbt/src/encoder.rs:125-142 | `Nbt::encode` without compression gives `Encode(name, tag)` |
| BinaryRoundTrip.RepresentableEncodable | nbt/src/encoder.rs:9 | a representable tag never reaches the End panic |
| BinaryRoundTrip.ReadTag | nbt/src/decoder.rs:8-95 | decoding the encoded payload of a tag gives the tag and stops after it |
| BinaryRoundTrip.ReadList | nbt/src/decoder.rs:34-44 | decoding an encoded list gives the list |
| BinaryRoundTrip.ReadCompound | nbt/src/decoder.rs:46-60 | decoding an encoded compound gives its entries in order |
| BinaryRoundTrip.ReadNamed | nbt/src/decoder.rs:97-126 | decoding an encoded named tag gives name and tag |
| BinaryRoundTrip.DecodeEncode | nbt/src/encoder.rs:104-122 | decoding `encode_nbt(name, t)` followed by any bytes gives `(name, t)` |
| ResourceLocations.AllowedChars | blocky-core/src/resource_location.rs:47-79 | the character loop accepts exactly strings whose characters are all allowed |
| ResourceLocations.IsValidNamespace | blocky-core/src/resource_location.rs:47-62 | a namespace is valid iff it is non-empty and only `[0-9a-z_.-]` |
| ResourceLocations.IsValidPath | blocky-core/src/resource_location.rs:64-79 | a path is valid iff it is non-empty and only `[0-9a-z_./-]` |
| ResourceLocations.New | blocky-core/src/resource_location.rs:22-45 | `new` defaults an empty namespace to `minecraft`, fails on the namespace first and then on the path, and otherwise stores both unchanged |
| ResourceLocations.NewValid | blocky-core/src/resource_location.rs:22-45 | every valid location is what `new` builds from its own parts |
| ResourceLocations.NewDefaultsNamespace | blocky-core/src/resource_location.rs:26-28 | an empty namespace behaves exactly as `minecraft` |
| ResourceLocations.Display | blocky-core/src/resource_location.rs:83-85 | the display is the namespace, `:`, the path |
| ResourceLocations.IndexOf | blocky-core/src/resource_location.rs:92 | the split index is the first occurrence of the character |
| ResourceLocations.FromStrAsWritten | blocky-core/src/resource_location.rs:91-98 | as written, the text is split before its first `c`, which begins the path; without a `c` the namespace is `minecraft` |
| ResourceLocations.FromStrAsWrittenCounterexample | blocky-core/src/resource_location.rs:91-98 | `minecraft:stone` is valid but fails to parse as written |
| ResourceLocations.FromStrAsWrittenRejectsDisplay | blocky-core/src/resource_location.rs:83-98 | no valid location parses back from its display as written |
| ResourceLocations.FromStr | blocky-core/src/resource_location.rs:91-98 | split at the first colon, a parse result is always valid |
| ResourceLocations.FromStrDisplay | blocky-core/src/resource_location.rs:83-98 | parsing a displayed location gives it back |
| ResourceLocations.DisplayFromStr | blocky-core/src/resource_location.rs:83-98 | text with a non-empty namespace that parses is the display of its result |
| CoreChatFormatting.NewColor | blocky-core/src/chat_formatting.rs:95-102 | `new_color` is not a format and keeps the given name, code, id and colour |
| CoreChatFormatting.NewFormat | blocky-core/src/chat_formatting.rs:104-109 | `new_format` is a format with id -1 and no colour |
| CoreChatFormatting.ValuesShape | blocky-core/src/chat_formatting.rs:28-77 | `VALUES` is the sixteen colours (ids 0 to 15 with colours), four formats (id -1, no colour) and RESET (id -1, no colour) |
| CoreChatFormatting.ColorsAreColors | blocky-core/src/chat_formatting.rs:111-113 | exactly the first sixteen entries of `VALUES` are colours; BOLD is not |
| CoreChatFormatting.Clean | blocky-core/src/chat_formatting.rs:131-137 | one character cleans to at most one letter `a`-`z`, and a lower-case letter to itself |
| CoreChatFormatting.CleanName | blocky-core/src/chat_formatting.rs:131-137 | a cleaned name holds only `a`-`z` and is no longer than the input |
| CoreChatFormatting.CleanNameAppend | blocky-core/src/chat_formatting.rs:131-137 | cleaning works character by character |
| CoreChatFormatting.CleanLower | blocky-core/src/chat_formatting.rs:131-137 | a name of only `a`-`z` cleans to itself |
| CoreChatFormatting.CleanNameIdempotent | blocky-core/src/chat_formatting.rs:131-137 | cleaning twice is cleaning once |
| CoreChatFormatting.CleanIgnoresNonLetters | blocky-core/src/chat_formatting.rs:131-137 | characters that are no letter, such as `_`, are dropped |
| CoreChatFormatting.CleanIgnoresCase | blocky-core/src/chat_formatting.rs:131-137 | an upper-case letter cleans like its lower-case one |
| CoreChatFormatting.CleanUpper | blocky-core/src/chat_formatting.rs:131-137 | upper-casing ASCII letters does not change the cleaned name |
| CoreChatFormatting.LastWith | blocky-core/src/chat_formatting.rs:16-24 | the last entry with a given cleaned name, if any |
| CoreChatFormatting.TableLast | blocky-core/src/chat_formatting.rs:16-24 | the lookup table maps a cleaned name to the last `VALUES` entry with that name |
| CoreChatFormatting.BuildTable | blocky-core/src/chat_formatting.rs:16-24 | the insertion loop builds exactly that table |
| CoreChatFormatting.GetByName | blocky-core/src/chat_formatting.rs:139-142 | a lookup gives an entry of `VALUES` whose cleaned name equals the cleaned query, and fails only when there is none |
| CoreChatFormatting.ValueFound | blocky-core/src/chat_formatting.rs:139-142 | every entry of `VALUES` is found by its own name |
| CoreChatFormatting.BoldNeverFound | blocky-core/src/chat_formatting.rs:53-77 | BOLD is not in `VALUES`, so no lookup gives it |
| CoreChatFormatting.BoldNotFound | blocky-core/src/chat_formatting.rs:139-142 | `get_by_name("bold")` finds nothing |
| CoreChatFormatting.UpperAscii | blocky-core/src/chat_formatting.rs:131-137 | upper-casing keeps the length |
| CoreChatFormatting.DisplayAsWritten | blocky-core/src/chat_formatting.rs:146-148 | as written, the display is the two-character prefix `ยง` and then the code |
| CoreChatFormatting.DisplayAsWrittenIsMisdecoded | blocky-core/src/chat_formatting.rs:146-148 | that prefix is the UTF-8 bytes of `§` read as TIS-620, so RED does not display as `§c` |
| CoreChatFormatting.Display | blocky-core/src/chat_formatting.rs:146-148 | the corrected display is `§` and then the code |
| CoreChatFormatting.DisplayCorrected | blocky-core/src/chat_formatting.rs:146-148 | the corrected display keeps the code and replaces only the prefix |
| ChatFormatting.NewColor | blocky/src/chat_formatting.rs:55-62 | `new_color` is not a format and keeps the given name, code, id and colour |
| ChatFormatting.NewFormat | blocky/src/chat_formatting.rs:64-69 | `new_format` is a format with id -1 and no colour |
| ChatFormatting.ColorsAreColors | blocky/src/chat_formatting.rs:71-73 | the sixteen colours are colours, with ids 0 to 15 and a colour value |
| ChatFormatting.FormatsAreNotColors | blocky/src/chat_formatting.rs:71-73 | no format is a colour, and neither is RESET, though it is built with `new_color` |
| ChatFormatting.Display | blocky/src/chat_formatting.rs:92-96 | the display is `§` and then the code |
| ChatFormatting.SameColorsAsCore | blocky/src/chat_formatting.rs:13-28 | both copies declare the same sixteen colours, with the same codes, ids and values, and display them alike once the other copy's prefix is corrected |
| TextColors.New | blocky-net/src/chat/text_color.rs:11-13 | a new colour keeps value and name |
| TextColors.NewWithEmptyName | blocky-net/src/chat/text_color.rs:15-17 | a colour made with `new_with_empty_name` has no name |
| TextColors.Hex | blocky-net/src/chat/text_color.rs:19-21 | the hexadecimal text is upper-case digits, one digit exactly below 16 |
| TextColors.Pad6 | blocky-net/src/chat/text_color.rs:19-21 | padding adds zeros on the left up to six digits |
| TextColors.FormatValue | blocky-net/src/chat/text_color.rs:19-21 | `format_value` is `#` and at least six upper-case hexadecimal digits |
| TextColors.HexRoundTrip | blocky-net/src/chat/text_color.rs:19-21 | the hexadecimal text reads back as the value |
| TextColors.FormatValueRoundTrip | blocky-net/src/chat/text_color.rs:19-21 | the digits of `format_value` read back as the value, so distinct values print differently |
| TextColors.FormatValueLength | blocky-net/src/chat/text_color.rs:19-21 | `format_value` is 7 to 9 characters, exactly 7 below 0x1000000 |
| TextColors.Display | blocky-net/src/chat/text_color.rs:25-30 | the display is the name when there is one, otherwise `format_value` |
| TextColors.EmptyNameDisplaysHex | blocky-net/src/chat/text_color.rs:15-30 | a colour with no name displays as hexadecimal that reads back as its value |
| TextColors.FromFormatting | blocky-net/src/chat/text_color.rs:34-43 | a colour formatting converts to its colour value named after it; a format or RESET fails |
| TextColors.ColorsConvert | blocky-net/src/chat/text_color.rs:34-43 | each of the sixteen colours converts and displays as its name |
| TextColors.NonColorsFail | blocky-net/src/chat/text_color.rs:34-43 | no format converts, and neither does RESET |
| Utf8.Encode | nbt/src/encoder.rs:37-44 | UTF-8 encoding takes at least one byte per character |
| Utf8.Decode | nbt/src/decoder.rs:22 | `str::from_utf8` gives at most one char per byte |
| Utf8.AsciiDecodes | nbt/src/decoder.rs:22 | ASCII bytes always decode, one char per byte |
| Utf8.DecodeEncode | nbt/src/decoder.rs:20-32 | decoding the UTF-8 encoding of a string gives it back |
| Utf8.EncodeDecode | nbt/src/decoder.rs:20-32 | valid UTF-8 bytes are the encoding of what they decode to |
| Utf8.EncodeAppend | nbt/src/encoder.rs:37-44 | encoding distributes over concatenation |
| Utf8.AsciiByteLength | blocky-nbt/src/tag/parser/reader.rs:31-33 | an ASCII string has one byte per character |
| Ints.FromToBE | nbt/src/decoder.rs:12-18 | big-endian bytes of a value read back as the value |
| Ints.ToFromBE | nbt/src/encoder.rs:11-35 | reading bytes and writing the value back gives the same bytes |
| Ints.SignedRoundTrip | nbt/src/decoder.rs:12-18 | the two's-complement conversion of a signed value converts back |
| Ints.SignedFromToBE | nbt/src/decoder.rs:12-18 | signed big-endian bytes read back as the value |
| Ints.WrapU16 | nbt/src/encoder.rs:116 | a length that fits 16 bits is written unchanged |
| Ints.WrapI16 | nbt/src/encoder.rs:42 | a length below 32768 is written unchanged as i16 |
| Ints.WrapI32 | nbt/src/encoder.rs:46-98 | a count below 2^31 is written unchanged as i32 |
| Decimal.NatToStringValue | blocky-nbt/src/tag/mod.rs:156-159 | the decimal text of a number reads back as it |
| Decimal.IntToString | blocky-nbt/src/tag/mod.rs:156-159 | the decimal text of an integer has a `-` exactly for negative values and no leading zero |
| Decimal.ParseInt | nbt/src/tag/parser/mod.rs:99-105 | a parsed integer comes from non-empty text, is negative only after `-`, plain digits read as their decimal value, and text starting with neither a digit nor a sign fails |
| Decimal.IntToStringRoundTrip | nbt/src/tag/parser/mod.rs:99-105 | parsing the decimal text of an integer gives it back |

## Left out

- Gzip compression and decompression, with the trial decompression and the `Read`/`Write`
  plumbing (nbt/src/decoder.rs:136-144, nbt/src/encoder.rs:131-136). They call into flate2,
  which is not part of this model. `Decode` works on in-memory bytes and `EncodeRoot` produces
  them.
- Floating-point numerics. Rust's `Display` for `f32`/`f64` and the decimal parsing of floats
  and doubles are supplied as the functions of `Floats.FloatText`. So the text of a float or a
  double is not modelled, and the text round trip covers the integer scalars and strings only.
- The regular expressions and `lazy_static` are replaced by character predicates.
  Initialisation order does not matter.
- The `HashMap` feature switch: only the order-preserving map is modelled.
- The `tag!` macro (blocky-nbt/src/tag/mod.rs:224-230) just wraps `parse`.
- The text components, their JSON form, click events and the command-line program
  (blocky-net/src/chat/style.rs, text_component.rs, translatable_component.rs, component.rs,
  click_event.rs, blocky/src/main.rs). They are serde_json values, trait objects and I/O.
- The sample-file test (nbt/src/lib.rs:105-125) needs a file and gzip. It is replaced by
  `BinaryRoundTrip.DecodeEncode` over all representable tags.
- The parse half of the display tests (nbt/src/lib.rs:142-150): only the printed texts are
  proved.
- Tag-level `get_mut` and `insert` update a child in place through a reference. The model
  computes the updated tag as a value (`TagIndex.WriteExisting`, `TagIndex.Assign`) and
  stores it in the `Nbt` root. Aliasing of the returned references is not modelled.
- SnbtRoundTrip: print then parse is proved for integer scalars, strings and keys. The general
  theorem for nested lists, compounds and arrays is not proved.
- Literals.ParseType: its contract says only what kind of tag a literal gives. The exact result
  is proved for the decimal texts of every integer type, for `true`/`false`, for `300b` and for
  `12x`.
- Snbt.ValueAt: its own contract gives the bounds of the position and a canonical value. The
  dispatch, the blank-text error and the opening char are `SnbtLaws.ValueAtDispatch`,
  `ValueAtBlank` and `ValueAtOpens`.
- Snbt.StructAt: its own contract gives the bounds and a canonical compound. The opening `{`,
  the empty compound and the closing `}` are `SnbtLaws.StructAtStep`, `StructAtEmpty` and
  `StructAtShape`.
- Snbt.ListAt: its own contract gives the bounds and a canonical value. The choice between a
  list and a typed array is `SnbtLaws.ListAtShape`.
- Snbt.ListTagAt: its own contract gives the bounds and a canonical list. The opening `[`, the
  missing array value and the empty list are `SnbtLaws.ListTagAtStep`, `ListTagAtEmpty` and
  `EmptyListParses`.
- Snbt.ArrayTagAt: its own contract gives the bounds and a canonical typed array. The letter
  dispatch, the missing array value and the unknown array type are `SnbtLaws.ArrayTagStep` and
  `ArrayTagKind`.
- Snbt.StructLoop: its own contract gives the bounds and canonical compounds. The fold of
  `m.insert` over the entries is stated one entry at a time (`SnbtLaws.StructEntry`), with the
  empty key (`StructEmptyKey`), the missing colon (`StructMissingColon`) and the key order
  (`StructLoopShape`) as separate lemmas; no closed form of the whole fold is given.
- Snbt.ListLoop: its own contract gives the bounds and one element kind. The element steps and
  the mixed-type failure are `SnbtLaws.ListEntry` and `SnbtLaws.ListMixedTypes`, the element
  order `SnbtLaws.ListLoopShape`.
- Snbt.ArrayLoop: its own contract gives the bounds and a typed array. The element steps and the
  mixed-tag failure are `SnbtLaws.ArrayEntry` and `SnbtLaws.ArrayMixedTags`, the growth of the
  array `SnbtLaws.ArrayLoopShape`.
- Snbt.Parse: its own contract covers blank text and quoted strings; the other cases are those
  of `Snbt.ValueAt` at position 0, as above.
- Encoder.EntriesBytes: it carries no contract of its own. The bytes of the entries are stated
  by `Encoder.EntriesFirst` and the `WireLayout` lemmas `CompoundSkipsEnd`, `SkipEnd` and `NoEnd`.
- Encoder.Encodable: it carries no contract of its own. It is implied by `Representable`
  (`BinaryRoundTrip.RepresentableEncodable`).
- Encoder.TagBytes: it states only that the payload is empty exactly for End. The layout of
  each variant is stated by the `WireLayout` lemmas and the buffer methods.
- Encoder.NamedBytes: it states only the first byte and a lower bound of the length. The full
  layout is `WireLayout.NamedLayout`.
- Encoder.ItemsBytes: it states only a lower bound of the length. The order of the payloads is
  `Encoder.ItemsFirst`.
- Snbt.ReadKeyAt, Decoder.StringAt, Decoder.NameAt and Decoder.NamedAt state only the bounds of
  the position they leave. The values they read are stated by the `WireLayout` and
  `BinaryRoundTrip` lemmas.
- Encoder.Buffer.EncodeTag requires `Encodable`: encoding End is a panic in the source, which
  the model makes a precondition on the encoder's methods.
- SnbtParser.Parser.ReadArrayTag requires a `[` with at least three characters. Its only caller,
  `read_list`, guarantees this, and without it the source's `remaining()` can underflow.
- Decoder.Cursor.GetBytes: the `bytes` crate panics when a read needs more bytes than remain.
  The model makes that the error `Truncated`, and a negative i16 string length is truncated in
  the same way. The casts of lengths to `usize`, and the i16 string length, are modelled as
  written; they are not a finding.
- TextReader: the reader works on chars with the length in chars, which is the intended
  behaviour. The byte-length behaviour of the code as written is modelled separately in
  `ReaderAsWritten` (see "## Findings"), for the unquoted string and whitespace scanning only.
- CoreChatFormatting.GetByName: it states that the entry found has the cleaned name of the
  query. It does not prove that the cleaned names of `VALUES` are pairwise distinct.

## Findings

| source | as written | input that shows it | evidently intended | confidence | as-written member | corrected member |
|---|---|---|---|---|---|---|
| blocky-core/src/resource_location.rs:91-98 | `from_str` splits before the first `c`, and the `c` begins the path | `minecraft:stone` gives namespace `mine`, path `craft:stone`, and fails with InvalidPath | split at the first `:`, which belongs to neither part, so that parsing undoes `Display` | high; not executed | ResourceLocations.FromStrAsWrittenCounterexample | ResourceLocations.FromStrDisplay |
| blocky-core/src/chat_formatting.rs:146-148 | the display prefix is `ยง` (U+0E22 U+0E07), the UTF-8 bytes of `§` misread as TIS-620 | RED displays as `ยงc` | `§c`, as the other copy (blocky/src/chat_formatting.rs:92-96) writes it | high; not executed | CoreChatFormatting.DisplayAsWrittenIsMisdecoded | CoreChatFormatting.DisplayCorrected |
| blocky-nbt/src/tag/parser/reader.rs:103-111 | `len` (lines 31-33) counts bytes while `position` counts chars, and `read_unquoted_string` slices bytes at char positions | in `["é",a]`, the element `a` at char 5 is read as `,` (bytes 5 to 6); in `é a`, reading the final `a` fails with "not enough chars" | the cursor counts chars throughout and slices the chars it scanned | high; not executed | ReaderAsWritten.UnquotedSliceCounterexample | TextReader.Reader.ReadUnquotedString |
