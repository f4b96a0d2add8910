/** Screen cells and their visible style (vvmux-terminal/src/lib.rs, src/screen.rs), the escape codes
    that set a style, and what a terminal makes of those codes. */
module Cells {
  import opened Wrappers
  import opened FixedWidth

  datatype Color = DefaultColor | Indexed(index: u8) | Rgb(red: u8, green: u8, blue: u8)

  datatype Underline = NoUnderline | Single | Double | Curl | Dotted | Dashed

  datatype Hyperlink = Hyperlink(id: Option<string>, uri: string)

  datatype Attributes = Attributes(
    foreground: Color, background: Color,
    bold: bool, dim: bool, italic: bool,
    underline: Underline, underlineColor: Option<Color>,
    blink: bool, inverse: bool, hidden: bool, strikeout: bool)

  const PLAIN := Attributes(DefaultColor, DefaultColor, false, false, false, NoUnderline, None, false, false, false, false)

  /** `legacyUnderline`, `leadingWideSpacer` and `tabWidth` take part in cell comparison only. */
  datatype Cell = Cell(
    ch: char, combining: string, attributes: Attributes, hyperlink: Option<Hyperlink>,
    wideContinuation: bool, legacyUnderline: bool, leadingWideSpacer: bool, tabWidth: Option<u16>)

  const BLANK := Cell(' ', "", PLAIN, None, false, false, false, None)

  datatype Style = Style(attributes: Attributes, hyperlink: Option<Hyperlink>)

  predicate IsControl(c: char) {
    (c as int) < 0x20 || 0x7f <= c as int <= 0x9f
  }

  predicate SafeText(s: string) {
    forall i :: 0 <= i < |s| ==> !IsControl(s[i])
  }

  /** A hyperlink is shown only when its text cannot end or extend the escape sequence around it. */
  predicate SafeLink(link: Hyperlink) {
    SafeText(link.uri) && (link.id.Some? ==> SafeText(link.id.value) && ';' !in link.id.value)
  }

  function StyleOf(cell: Cell): Style {
    Style(cell.attributes, if cell.hyperlink.Some? && SafeLink(cell.hyperlink.value) then cell.hyperlink else None)
  }

  // ---- Select graphic rendition ----

  datatype Target = Foreground | Background | UnderlineColor

  /** One parameter group of SGR: a plain code, an underline kind `4:k`, or a colour given by index
      (`5;n`) or by components (`2;r;g;b`). */
  datatype Sgr =
    | Code(n: int)
    | UnderlineKind(k: int)
    | ColorIndex(target: Target, index: u8)
    | ColorRgb(target: Target, red: u8, green: u8, blue: u8)

  function ColorCodes(color: Color, foreground: bool): seq<Sgr> {
    match color
    case DefaultColor => [Code(if foreground then 39 else 49)]
    case Indexed(index) =>
      if index < 8 then [Code((if foreground then 30 else 40) + index as int)]
      else if index < 16 then [Code((if foreground then 90 else 100) + index as int - 8)]
      else [ColorIndex(if foreground then Foreground else Background, index)]
    case Rgb(red, green, blue) => [ColorRgb(if foreground then Foreground else Background, red, green, blue)]
  }

  function UnderlineColorCodes(color: Option<Color>): seq<Sgr> {
    match color
    case None => [Code(59)]
    case Some(DefaultColor) => [Code(59)]
    case Some(Indexed(index)) => [ColorIndex(UnderlineColor, index)]
    case Some(Rgb(red, green, blue)) => [ColorRgb(UnderlineColor, red, green, blue)]
  }

  function When(condition: bool, n: int): seq<Sgr> {
    if condition then [Code(n)] else []
  }

  function UnderlineCodes(underline: Underline): seq<Sgr> {
    match underline
    case NoUnderline => []
    case Single => [Code(4)]
    case Double => [UnderlineKind(2)]
    case Curl => [UnderlineKind(3)]
    case Dotted => [UnderlineKind(4)]
    case Dashed => [UnderlineKind(5)]
  }

  function FontCodes(a: Attributes): seq<Sgr> {
    [Code(0)] + When(a.bold, 1) + When(a.dim, 2) + When(a.italic, 3)
  }

  function FlagCodes(a: Attributes): seq<Sgr> {
    When(a.blink, 5) + When(a.inverse, 7) + When(a.hidden, 8) + When(a.strikeout, 9)
  }

  /** The parameters of the SGR sequence for `a`, starting with a reset. */
  function AttributeCodes(a: Attributes): seq<Sgr> {
    FontCodes(a) + UnderlineCodes(a.underline) + FlagCodes(a)
    + ColorCodes(a.foreground, true) + ColorCodes(a.background, false) + UnderlineColorCodes(a.underlineColor)
  }

  function WithColor(a: Attributes, target: Target, color: Option<Color>): Attributes {
    match target
    case Foreground => a.(foreground := if color.Some? then color.value else DefaultColor)
    case Background => a.(background := if color.Some? then color.value else DefaultColor)
    case UnderlineColor => a.(underlineColor := color)
  }

  /** The meaning of one group, as ECMA-48 section 8.3.117 and its usual colour extensions define it.
      A group without a meaning here leaves the rendition alone. */
  function Rendition(a: Attributes, code: Sgr): Attributes {
    match code
    case ColorIndex(target, index) => WithColor(a, target, Some(Indexed(index)))
    case ColorRgb(target, red, green, blue) => WithColor(a, target, Some(Rgb(red, green, blue)))
    case UnderlineKind(k) =>
      if k == 2 then a.(underline := Double) else if k == 3 then a.(underline := Curl)
      else if k == 4 then a.(underline := Dotted) else if k == 5 then a.(underline := Dashed) else a
    case Code(n) =>
      if n == 0 then PLAIN
      else if n == 1 then a.(bold := true) else if n == 2 then a.(dim := true)
      else if n == 3 then a.(italic := true) else if n == 4 then a.(underline := Single)
      else if n == 5 then a.(blink := true) else if n == 7 then a.(inverse := true)
      else if n == 8 then a.(hidden := true) else if n == 9 then a.(strikeout := true)
      else if 30 <= n < 38 then a.(foreground := Indexed((n - 30) as u8))
      else if 90 <= n < 98 then a.(foreground := Indexed((n - 90 + 8) as u8))
      else if 40 <= n < 48 then a.(background := Indexed((n - 40) as u8))
      else if 100 <= n < 108 then a.(background := Indexed((n - 100 + 8) as u8))
      else if n == 39 then a.(foreground := DefaultColor)
      else if n == 49 then a.(background := DefaultColor)
      else if n == 59 then a.(underlineColor := None)
      else a
  }

  function Renditions(a: Attributes, codes: seq<Sgr>): Attributes
    decreases codes
  {
    if codes == [] then a else Renditions(Rendition(a, codes[0]), codes[1..])
  }

  /** A default underline colour shows like none at all. */
  function Visible(a: Attributes): Attributes {
    if a.underlineColor == Some(DefaultColor) then a.(underlineColor := None) else a
  }

  lemma {:induction false} RenditionsAppend(a: Attributes, x: seq<Sgr>, y: seq<Sgr>)
    ensures Renditions(a, x + y) == Renditions(Renditions(a, x), y)
    decreases x
  {
    if x == [] {
      assert x + y == y;
    } else {
      RenditionsAppend(Rendition(a, x[0]), x[1..], y);
      assert (x + y)[0] == x[0] && (x + y)[1..] == x[1..] + y;
    }
  }

  lemma OneRendition(a: Attributes, code: Sgr)
    ensures Renditions(a, [code]) == Rendition(a, code)
  {
    assert [code][1..] == [];
  }

  lemma WhenRendition(a: Attributes, condition: bool, n: int)
    ensures Renditions(a, When(condition, n)) == if condition then Rendition(a, Code(n)) else a
  {
    OneRendition(a, Code(n));
  }

  lemma ColorRendition(a: Attributes, color: Color, foreground: bool)
    ensures Renditions(a, ColorCodes(color, foreground))
      == if foreground then a.(foreground := color) else a.(background := color)
  {
    OneRendition(a, ColorCodes(color, foreground)[0]);
  }

  /** Reading the codes back gives exactly the attributes they were written for, whatever the
      terminal's rendition was before. */
  lemma AttributesRoundTrip(before: Attributes, a: Attributes)
    ensures Renditions(before, AttributeCodes(a)) == Visible(a)
  {
    hide Renditions, FontCodes, UnderlineCodes, FlagCodes, ColorCodes, UnderlineColorCodes;
    var font, underline, flags := FontCodes(a), UnderlineCodes(a.underline), FlagCodes(a);
    var fore, back := ColorCodes(a.foreground, true), ColorCodes(a.background, false);
    var s1 := PLAIN.(bold := a.bold, dim := a.dim, italic := a.italic);
    var s2 := s1.(underline := a.underline);
    var s3 := s2.(blink := a.blink, inverse := a.inverse, hidden := a.hidden, strikeout := a.strikeout);
    var s4 := s3.(foreground := a.foreground);
    FontRoundTrip(before, a);
    RenditionsAppend(before, font, underline);
    UnderlineRoundTrip(s1, a.underline);
    RenditionsAppend(before, font + underline, flags);
    FlagsRoundTrip(s2, a);
    RenditionsAppend(before, font + underline + flags, fore);
    ColorRendition(s3, a.foreground, true);
    RenditionsAppend(before, font + underline + flags + fore, back);
    ColorRendition(s4, a.background, false);
    RenditionsAppend(before, font + underline + flags + fore + back, UnderlineColorCodes(a.underlineColor));
    UnderlineColorRoundTrip(s4.(background := a.background), a.underlineColor);
  }

  lemma FontRoundTrip(before: Attributes, a: Attributes)
    ensures Renditions(before, FontCodes(a))
      == PLAIN.(bold := a.bold, dim := a.dim, italic := a.italic)
  {
    hide Renditions, When;
    OneRendition(before, Code(0));
    RenditionsAppend(before, [Code(0)], When(a.bold, 1));
    WhenRendition(PLAIN, a.bold, 1);
    RenditionsAppend(before, [Code(0)] + When(a.bold, 1), When(a.dim, 2));
    WhenRendition(PLAIN.(bold := a.bold), a.dim, 2);
    RenditionsAppend(before, [Code(0)] + When(a.bold, 1) + When(a.dim, 2), When(a.italic, 3));
    WhenRendition(PLAIN.(bold := a.bold, dim := a.dim), a.italic, 3);
  }

  lemma UnderlineRoundTrip(s: Attributes, underline: Underline)
    requires s.underline == NoUnderline
    ensures Renditions(s, UnderlineCodes(underline)) == s.(underline := underline)
  {
    if underline != NoUnderline {
      OneRendition(s, UnderlineCodes(underline)[0]);
    }
  }

  lemma FlagsRoundTrip(s: Attributes, a: Attributes)
    requires !s.blink && !s.inverse && !s.hidden && !s.strikeout
    ensures Renditions(s, FlagCodes(a))
      == s.(blink := a.blink, inverse := a.inverse, hidden := a.hidden, strikeout := a.strikeout)
  {
    hide Renditions, When;
    WhenRendition(s, a.blink, 5);
    RenditionsAppend(s, When(a.blink, 5), When(a.inverse, 7));
    WhenRendition(s.(blink := a.blink), a.inverse, 7);
    RenditionsAppend(s, When(a.blink, 5) + When(a.inverse, 7), When(a.hidden, 8));
    WhenRendition(s.(blink := a.blink, inverse := a.inverse), a.hidden, 8);
    RenditionsAppend(s, When(a.blink, 5) + When(a.inverse, 7) + When(a.hidden, 8), When(a.strikeout, 9));
    WhenRendition(s.(blink := a.blink, inverse := a.inverse, hidden := a.hidden), a.strikeout, 9);
  }

  lemma UnderlineColorRenditions(s: Attributes)
    ensures Rendition(s, Code(59)) == s.(underlineColor := None)
    ensures forall index :: Rendition(s, ColorIndex(UnderlineColor, index)) == s.(underlineColor := Some(Indexed(index)))
    ensures forall r, g, b :: Rendition(s, ColorRgb(UnderlineColor, r, g, b)) == s.(underlineColor := Some(Rgb(r, g, b)))
  {
  }

  lemma UnderlineColorRoundTrip(s: Attributes, color: Option<Color>)
    requires s.underlineColor == None
    ensures Renditions(s, UnderlineColorCodes(color)) == Visible(s.(underlineColor := color))
  {
    hide Renditions, Rendition;
    UnderlineColorRenditions(s);
    match color
    case None => OneRendition(s, Code(59));
    case Some(DefaultColor) => OneRendition(s, Code(59));
    case Some(Indexed(index)) => OneRendition(s, ColorIndex(UnderlineColor, index));
    case Some(Rgb(red, green, blue)) => OneRendition(s, ColorRgb(UnderlineColor, red, green, blue));
  }
}
