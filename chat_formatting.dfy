/**
 * Chat formatting codes as the blocky crate declares them (blocky/src/chat_formatting.rs):
 * the same table as blocky-core's with upper-case names, the colour and format
 * constructors, `is_color` and the display as `§` followed by the code character. This is
 * the `ChatFormatting` that text colours are converted from.
 */
module ChatFormatting {
  import opened Ints
  import opened Results
  import Core = CoreChatFormatting

  datatype Formatting = Formatting(name: string, code: char, isFormat: bool, id: int, color: Option<u32>)

  /** `new_color`: not a format, with the given id and colour. */
  function NewColor(name: string, code: char, id: int, color: Option<u32>): (f: Formatting)
    ensures !f.isFormat && f.name == name && f.code == code && f.id == id && f.color == color
  {
    Formatting(name, code, false, id, color)
  }

  /** `new_format`: a format, with id -1 and no colour. */
  function NewFormat(name: string, code: char): (f: Formatting)
    ensures f.isFormat && f.name == name && f.code == code && f.id == -1 && f.color.None?
  {
    Formatting(name, code, true, -1, None)
  }

  const BLACK := NewColor("BLACK", '0', 0, Some(0))
  const DARK_BLUE := NewColor("DARK_BLUE", '1', 1, Some(170))
  const DARK_GREEN := NewColor("DARK_GREEN", '2', 2, Some(43520))
  const DARK_AQUA := NewColor("DARK_AQUA", '3', 3, Some(43690))
  const DARK_RED := NewColor("DARK_RED", '4', 4, Some(11141120))
  const DARK_PURPLE := NewColor("DARK_PURPLE", '5', 5, Some(11141290))
  const GOLD := NewColor("GOLD", '6', 6, Some(16755200))
  const GRAY := NewColor("GRAY", '7', 7, Some(11184810))
  const DARK_GRAY := NewColor("DARK_GRAY", '8', 8, Some(5592405))
  const BLUE := NewColor("BLUE", '9', 9, Some(5592575))
  const GREEN := NewColor("GREEN", 'a', 10, Some(5635925))
  const AQUA := NewColor("AQUA", 'b', 11, Some(5636095))
  const RED := NewColor("RED", 'c', 12, Some(16733525))
  const LIGHT_PURPLE := NewColor("LIGHT_PURPLE", 'd', 13, Some(16733695))
  const YELLOW := NewColor("YELLOW", 'e', 14, Some(16777045))
  const WHITE := NewColor("WHITE", 'f', 15, Some(16777215))

  const OBFUSCATED := NewFormat("OBFUSCATED", 'k')
  const BOLD := NewFormat("BOLD", 'l')
  const STRIKETHROUGH := NewFormat("STRIKETHROUGH", 'm')
  const UNDERLINE := NewFormat("UNDERLINE", 'n')
  const ITALIC := NewFormat("ITALIC", 'o')

  /** RESET is built as a colour, with id -1 and no colour value. */
  const RESET := NewColor("RESET", 'r', -1, None)

  /** The sixteen colours in declaration order (this copy has no `VALUES` table). */
  const Colors: seq<Formatting> :=
    [BLACK, DARK_BLUE, DARK_GREEN, DARK_AQUA, DARK_RED, DARK_PURPLE, GOLD, GRAY,
     DARK_GRAY, BLUE, GREEN, AQUA, RED, LIGHT_PURPLE, YELLOW, WHITE]

  /** The five formats, BOLD included. */
  const Formats: seq<Formatting> := [OBFUSCATED, BOLD, STRIKETHROUGH, UNDERLINE, ITALIC]

  /** `is_color`: neither a format nor RESET. */
  predicate IsColor(f: Formatting) {
    !f.isFormat && f != RESET
  }

  /** The sixteen colours are colours: ids 0 to 15 in order, each with a colour value. */
  lemma ColorsAreColors()
    ensures |Colors| == 16
    ensures forall i :: 0 <= i < 16 ==> IsColor(Colors[i]) && Colors[i].id == i && Colors[i].color.Some?
  {
  }

  /** No format is a colour, and neither is RESET, which is built with `new_color`. */
  lemma FormatsAreNotColors()
    ensures forall i :: 0 <= i < |Formats| ==> Formats[i].isFormat && !IsColor(Formats[i])
    ensures !RESET.isFormat && !IsColor(RESET)
  {
  }

  /** The section sign of Minecraft's formatting codes. */
  const SectionSign: string := "\U{00A7}"

  /** `Display`: the section sign, then the code. */
  function Display(f: Formatting): (s: string)
    ensures |s| == 2 && s[..1] == SectionSign && s[1] == f.code
  {
    SectionSign + [f.code]
  }

  /**
   * The two copies declare the same colours: the same codes, ids and colour values, and
   * display alike once blocky-core's prefix is corrected.
   */
  lemma SameColorsAsCore()
    ensures |Colors| == 16 && |Core.Colors| == 16
    ensures forall i :: 0 <= i < 16 ==>
      && Colors[i].code == Core.Colors[i].code
      && Colors[i].id == Core.Colors[i].id
      && Colors[i].color == Core.Colors[i].color
      && Display(Colors[i]) == Core.Display(Core.Colors[i])
  {
  }
}
