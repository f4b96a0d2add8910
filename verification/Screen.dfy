/** The composed screen and its incremental repaint (src/screen.rs), proved against a terminal that
    interprets the emitted control functions: cursor position (ECMA-48 section 8.3.21), graphic
    rendition (section 8.3.117), hyperlinks, and printing of single and double width characters. */
module Screen {
  import opened Wrappers
  import opened FixedWidth
  import opened Cells
  import Arithmetic

  // ---- Buffers ----

  datatype Buffer = Buffer(rows: nat, columns: nat, cells: seq<Cell>, cursor: Option<(nat, nat)>) {
    ghost predicate Valid() {
      |cells| == rows * columns
    }
  }

  function Index(b: Buffer, row: nat, column: nat): nat {
    row * b.columns + column
  }

  lemma IndexInRange(b: Buffer, row: nat, column: nat)
    requires b.Valid() && row < b.rows && column < b.columns
    ensures Index(b, row, column) < |b.cells|
  {
    Arithmetic.MulMonotonic(row + 1, b.rows, b.columns);
    assert (row + 1) * b.columns == row * b.columns + b.columns;
  }

  function At(b: Buffer, row: nat, column: nat): Cell
    requires b.Valid() && row < b.rows && column < b.columns
  {
    IndexInRange(b, row, column);
    b.cells[Index(b, row, column)]
  }

  /** Which characters take two columns. The width table is not part of this model. */
  type WideTable = char -> bool

  predicate Leads(cell: Cell, wide: WideTable) {
    !cell.wideContinuation && wide(cell.ch)
  }

  /** Continuations are exactly the right halves of double width characters. */
  ghost predicate WellFormed(b: Buffer, wide: WideTable) {
    && b.Valid()
    && forall row, column :: 0 <= row < b.rows && 0 <= column < b.columns ==> WellFormedAt(b, wide, row, column)
  }

  ghost predicate WellFormedAt(b: Buffer, wide: WideTable, row: nat, column: nat)
    requires b.Valid() && row < b.rows && column < b.columns
  {
    && (At(b, row, column).wideContinuation <==> column > 0 && Leads(At(b, row, column - 1), wide))
    && (Leads(At(b, row, column), wide) ==> column + 1 < b.columns)
  }

  /** A character drawn alike in both buffers has the same right half in both. */
  ghost predicate SameContinuations(a: Buffer, b: Buffer, wide: WideTable)
    requires a.Valid() && b.Valid() && a.rows == b.rows && a.columns == b.columns
  {
    forall row, column :: 0 <= row < a.rows && 0 <= column && column + 1 < a.columns
      && At(a, row, column) == At(b, row, column) && Leads(At(a, row, column), wide)
      ==> At(a, row, column + 1) == At(b, row, column + 1)
  }

  // ---- Tokens and the terminal ----

  datatype Token =
    | MoveTo(line: nat, character: nat)
    | CloseLink
    | OpenLink(link: Hyperlink)
    | Render(codes: seq<Sgr>)
    | Print(ch: char, combining: string)
    | ShowCursor
    | HideCursor

  datatype Shown = Glyph(ch: char, combining: string, style: Style) | RightHalf | Damaged

  /** `lost` records that text ran past the right margin, whose effect is not modelled. */
  datatype Terminal = Terminal(
    grid: seq<seq<Shown>>, row: int, column: int,
    attributes: Attributes, link: Option<Hyperlink>, cursorVisible: bool, lost: bool)

  ghost predicate HasSize(t: Terminal, rows: nat, columns: nat) {
    |t.grid| == rows && forall r :: 0 <= r < rows ==> |t.grid[r]| == columns
  }

  /** Overwriting either half of a double width character destroys the other half. */
  function PutAt(line: seq<Shown>, column: nat, glyph: Shown, width: nat): (r: seq<Shown>)
    requires 1 <= width <= 2 && column + width <= |line|
    ensures |r| == |line|
  {
    var a := if line[column] == RightHalf && column > 0 then line[column - 1 := Damaged] else line;
    var b := if column + width < |a| && a[column + width] == RightHalf then a[column + width := Damaged] else a;
    var c := b[column := glyph];
    if width == 2 then c[column + 1 := RightHalf] else c
  }

  function Exec(t: Terminal, token: Token, wide: WideTable): Terminal {
    match token
    case MoveTo(line, character) => t.(row := line - 1, column := character - 1)
    case CloseLink => t.(link := None)
    case OpenLink(link) => t.(link := Some(link))
    case Render(codes) => t.(attributes := Renditions(t.attributes, codes))
    case ShowCursor => t.(cursorVisible := true)
    case HideCursor => t.(cursorVisible := false)
    case Print(ch, combining) =>
      var width := if wide(ch) then 2 else 1;
      if 0 <= t.row < |t.grid| && 0 <= t.column && t.column + width <= |t.grid[t.row]| then
        var glyph := Glyph(ch, combining, Style(t.attributes, t.link));
        t.(grid := t.grid[t.row := PutAt(t.grid[t.row], t.column, glyph, width)], column := t.column + width)
      else t.(lost := true)
  }

  function ExecAll(t: Terminal, tokens: seq<Token>, wide: WideTable): Terminal
    decreases tokens
  {
    if tokens == [] then t else ExecAll(Exec(t, tokens[0], wide), tokens[1..], wide)
  }

  lemma {:induction false} ExecAppend(t: Terminal, x: seq<Token>, y: seq<Token>, wide: WideTable)
    ensures ExecAll(t, x + y, wide) == ExecAll(ExecAll(t, x, wide), y, wide)
    decreases x
  {
    if x == [] {
      assert x + y == y;
    } else {
      ExecAppend(Exec(t, x[0], wide), x[1..], y, wide);
      assert (x + y)[0] == x[0] && (x + y)[1..] == x[1..] + y;
    }
  }

  lemma ExecOne(t: Terminal, token: Token, wide: WideTable)
    ensures ExecAll(t, [token], wide) == Exec(t, token, wide)
  {
    assert [token][1..] == [];
  }

  /** What a cell looks like on the terminal. */
  function Appearance(cell: Cell): Shown {
    if cell.wideContinuation then RightHalf
    else
      var style := StyleOf(cell);
      Glyph(cell.ch, cell.combining, Style(Visible(style.attributes), style.hyperlink))
  }

  ghost predicate RowShows(line: seq<Shown>, b: Buffer, row: nat)
    requires b.Valid() && row < b.rows
  {
    |line| == b.columns && forall c :: 0 <= c < b.columns ==> line[c] == Appearance(At(b, row, c))
  }

  ghost predicate Shows(t: Terminal, b: Buffer)
    requires b.Valid()
  {
    HasSize(t, b.rows, b.columns) && forall r :: 0 <= r < b.rows ==> RowShows(t.grid[r], b, r)
  }

  // ---- The diff as a function ----

  function StyleTokens(style: Style): seq<Token> {
    [CloseLink, Render(AttributeCodes(style.attributes))]
    + (if style.hyperlink.Some? then [OpenLink(style.hyperlink.value)] else [])
  }

  predicate Changed(previous: Option<Buffer>, current: Buffer, row: nat, column: nat)
    requires current.Valid() && row < current.rows && column < current.columns
    requires previous.Some? ==> previous.value.Valid() && SameSize(previous.value, current)
  {
    previous.None? || At(previous.value, row, column) != At(current, row, column)
  }

  predicate SameSize(a: Buffer, b: Buffer) {
    a.rows == b.rows && a.columns == b.columns
  }

  ghost predicate Comparable(previous: Option<Buffer>, current: Buffer) {
    current.Valid() && (previous.Some? ==> previous.value.Valid() && SameSize(previous.value, current))
  }

  /** The tokens for one changed cell inside a run. */
  function CellTokens(cell: Cell, style: Option<Style>): seq<Token> {
    (if style == Some(StyleOf(cell)) then [] else StyleTokens(StyleOf(cell)))
    + (if cell.wideContinuation then [] else [Print(cell.ch, cell.combining)])
  }

  /** The tokens from `(row, column)` to the end of the screen; `previous` is absent for a full repaint. */
  function Repaint(previous: Option<Buffer>, current: Buffer, row: nat, column: nat, inRun: bool, style: Option<Style>): seq<Token>
    requires Comparable(previous, current) && row <= current.rows && column <= current.columns
    decreases current.rows - row, current.columns - column
  {
    if row == current.rows then []
    else if column == current.columns then Repaint(previous, current, row + 1, 0, false, style)
    else if !Changed(previous, current, row, column) then Repaint(previous, current, row, column + 1, false, style)
    else
      (if inRun then [] else [MoveTo(row + 1, column + 1)])
      + CellTokens(At(current, row, column), style)
      + Repaint(previous, current, row, column + 1, true, Some(StyleOf(At(current, row, column))))
  }

  function Prologue(full: bool): seq<Token> {
    if full then [Render([Code(0)]), HideCursor, MoveTo(1, 1)] else []
  }

  function Epilogue(cursor: Option<(nat, nat)>): seq<Token> {
    [CloseLink, Render([Code(0)])]
    + match cursor
      case Some((x, y)) => [MoveTo(y + 1, x + 1), ShowCursor]
      case None => [HideCursor]
  }

  /** What the repaint compares against: nothing when it is full. */
  function Reference(previous: Option<Buffer>, current: Buffer, forceFull: bool): Option<Buffer> {
    if forceFull || previous.None? || previous.value.rows != current.rows || previous.value.columns != current.columns
    then None else previous
  }

  function Diff(previous: Option<Buffer>, current: Buffer, forceFull: bool): seq<Token>
    requires current.Valid() && (previous.Some? ==> previous.value.Valid())
  {
    var reference := Reference(previous, current, forceFull);
    Prologue(reference.None?) + Repaint(reference, current, 0, 0, false, None) + Epilogue(current.cursor)
  }

  lemma RepaintCell(reference: Option<Buffer>, current: Buffer, row: nat, column: nat, style: Option<Style>)
    requires Comparable(reference, current) && row < current.rows && column < current.columns
    requires Changed(reference, current, row, column)
    ensures
      var cell := At(current, row, column);
      Repaint(reference, current, row, column, true, style)
        == CellTokens(cell, style) + Repaint(reference, current, row, column + 1, true, Some(StyleOf(cell)))
  {
    hide CellTokens, StyleOf, At;
  }

  /** The inner loop: one run of changed cells, starting after its cursor movement. */
  method PaintRun(reference: Option<Buffer>, current: Buffer, row: nat, start: nat, startStyle: Option<Style>)
    returns (output: seq<Token>, column: nat, style: Option<Style>)
    requires Comparable(reference, current) && row < current.rows && start < current.columns
    requires Changed(reference, current, row, start)
    ensures start < column <= current.columns
    ensures Repaint(reference, current, row, start, true, startStyle)
      == output + Repaint(reference, current, row, column, false, style)
  {
    hide CellTokens, StyleOf, At;
    output, column, style := [], start, startStyle;
    while column < current.columns
      invariant start <= column <= current.columns
      invariant column == start ==> style == startStyle && output == []
      invariant Repaint(reference, current, row, start, true, startStyle)
        == output + Repaint(reference, current, row, column, true, style)
    {
      if !Changed(reference, current, row, column) {
        break;
      }
      var cell := At(current, row, column);
      RepaintCell(reference, current, row, column, style);
      output := output + CellTokens(cell, style);
      style := Some(StyleOf(cell));
      column := column + 1;
    }
  }

  method AnsiDiff(previous: Option<Buffer>, current: Buffer, forceFull: bool) returns (output: seq<Token>)
    requires current.Valid() && (previous.Some? ==> previous.value.Valid())
    ensures output == Diff(previous, current, forceFull)
  {
    hide CellTokens, StyleOf, At;
    var reference := Reference(previous, current, forceFull);
    var full := reference.None?;
    output := [];
    if full {
      output := output + [Render([Code(0)]), HideCursor, MoveTo(1, 1)];
    }
    var style: Option<Style> := None;
    var row := 0;
    ghost var body := Prologue(full) + Repaint(reference, current, 0, 0, false, None);
    while row < current.rows
      invariant row <= current.rows
      invariant body == output + Repaint(reference, current, row, 0, false, style)
    {
      var column := 0;
      while column < current.columns
        invariant column <= current.columns
        invariant body == output + Repaint(reference, current, row, column, false, style)
      {
        if !Changed(reference, current, row, column) {
          column := column + 1;
        } else {
          output := output + [MoveTo(row + 1, column + 1)];
          assert body == output + Repaint(reference, current, row, column, true, style);
          var run;
          run, column, style := PaintRun(reference, current, row, column, style);
          output := output + run;
        }
      }
      row := row + 1;
    }
    output := output + Epilogue(current.cursor);
  }

  // ---- One row of the repaint ----

  /** Both buffers are well formed and agree on the right halves of what they draw alike. */
  ghost predicate Paintable(previous: Option<Buffer>, current: Buffer, wide: WideTable) {
    && Comparable(previous, current)
    && WellFormed(current, wide)
    && (previous.Some? ==> WellFormed(previous.value, wide) && SameContinuations(previous.value, current, wide))
  }

  ghost predicate WasRightHalf(previous: Option<Buffer>, current: Buffer, row: nat, column: nat)
    requires Comparable(previous, current) && row < current.rows && column < current.columns
  {
    previous.None? || At(previous.value, row, column).wideContinuation
  }

  /** A row painted up to `column`: everything before it is right, unchanged cells after it still are,
      and a right half can only stand where the old screen had one or a character was just drawn. */
  ghost predicate RowReady(line: seq<Shown>, previous: Option<Buffer>, current: Buffer, row: nat, column: nat)
    requires Comparable(previous, current) && row < current.rows && column <= current.columns
  {
    && |line| == current.columns
    && (forall c :: 0 <= c < column ==> line[c] == Appearance(At(current, row, c)))
    && (forall c :: column <= c < current.columns && !Changed(previous, current, row, c) ==>
          line[c] == Appearance(At(current, row, c)))
    && (forall c :: column < c < current.columns && line[c] == RightHalf ==> WasRightHalf(previous, current, row, c))
    && (0 < column < current.columns ==>
          (line[column] == RightHalf <==> At(current, row, column).wideContinuation))
    && (0 < column && column + 1 < current.columns && At(current, row, column).wideContinuation ==>
          !Changed(previous, current, row, column) || line[column + 1] != RightHalf)
  }

  lemma RowStart(line: seq<Shown>, previous: Option<Buffer>, current: Buffer, row: nat)
    requires Comparable(previous, current) && row < current.rows && |line| == current.columns
    requires previous.Some? ==> RowShows(line, previous.value, row)
    ensures RowReady(line, previous, current, row, 0)
  {
    hide At;
  }

  lemma NeighbourIsWellFormed(b: Buffer, wide: WideTable, row: nat, column: nat)
    requires WellFormed(b, wide) && row < b.rows && column + 1 < b.columns
    ensures At(b, row, column + 1).wideContinuation <==> Leads(At(b, row, column), wide)
  {
    assert WellFormedAt(b, wide, row, column + 1);
  }

  lemma SkipUnchanged(line: seq<Shown>, previous: Option<Buffer>, current: Buffer, row: nat, column: nat, wide: WideTable)
    requires Paintable(previous, current, wide) && row < current.rows && column < current.columns
    requires RowReady(line, previous, current, row, column) && !Changed(previous, current, row, column)
    ensures RowReady(line, previous, current, row, column + 1)
  {
    hide At, StyleOf, WellFormedAt;
    if column + 1 < current.columns {
      NeighbourIsWellFormed(current, wide, row, column);
      NeighbourIsWellFormed(previous.value, wide, row, column);
    }
  }

  lemma SkipContinuation(line: seq<Shown>, previous: Option<Buffer>, current: Buffer, row: nat, column: nat, wide: WideTable)
    requires Paintable(previous, current, wide) && row < current.rows && column < current.columns
    requires RowReady(line, previous, current, row, column) && At(current, row, column).wideContinuation
    requires Changed(previous, current, row, column)
    ensures RowReady(line, previous, current, row, column + 1)
  {
    hide At, StyleOf;
    assert WellFormedAt(current, wide, row, column);
    if column + 1 < current.columns {
      NeighbourIsWellFormed(current, wide, row, column);
    }
  }

  /** Drawing a changed character in place, including what that does to the halves it overwrites. */
  lemma DrawCell(line: seq<Shown>, previous: Option<Buffer>, current: Buffer, row: nat, column: nat, wide: WideTable)
    requires Paintable(previous, current, wide) && row < current.rows && column < current.columns
    requires RowReady(line, previous, current, row, column)
    requires Changed(previous, current, row, column) && !At(current, row, column).wideContinuation
    ensures
      var width := if wide(At(current, row, column).ch) then 2 else 1;
      && column + width <= current.columns
      && RowReady(PutAt(line, column, Appearance(At(current, row, column)), width), previous, current, row, column + 1)
  {
    hide At, StyleOf;
    var cell := At(current, row, column);
    assert WellFormedAt(current, wide, row, column);
    var width := if wide(cell.ch) then 2 else 1;
    if column + 1 < current.columns {
      NeighbourIsWellFormed(current, wide, row, column);
    }
    if column + 2 < current.columns {
      NeighbourIsWellFormed(current, wide, row, column + 1);
    }
  }

  // ---- The whole repaint ----

  ghost predicate StyleIs(t: Terminal, style: Style) {
    t.attributes == Visible(style.attributes) && t.link == style.hyperlink
  }

  ghost predicate Ready(t: Terminal, previous: Option<Buffer>, current: Buffer, row: nat, column: nat,
                        inRun: bool, style: Option<Style>)
    requires Comparable(previous, current) && row <= current.rows && column <= current.columns
  {
    && !t.lost && HasSize(t, current.rows, current.columns)
    && (forall r :: 0 <= r < row ==> RowShows(t.grid[r], current, r))
    && (row < current.rows ==> RowReady(t.grid[row], previous, current, row, column))
    && (forall r :: row < r < current.rows ==> RowReady(t.grid[r], previous, current, r, 0))
    && (style.Some? ==> StyleIs(t, style.value))
    && (inRun ==> row < current.rows && CursorFollows(t, current, row, column))
    && (row < current.rows && !inRun && 0 < column < current.columns ==> !Changed(previous, current, row, column - 1))
  }

  /** Inside a run the cursor stands where the next character goes. */
  ghost predicate CursorFollows(t: Terminal, current: Buffer, row: nat, column: nat)
    requires current.Valid() && row < current.rows && column <= current.columns
  {
    && t.row == row
    && t.column == if column < current.columns && At(current, row, column).wideContinuation then column + 1 else column
  }

  lemma StyleTokensSet(t: Terminal, style: Style, wide: WideTable)
    ensures
      var u := ExecAll(t, StyleTokens(style), wide);
      StyleIs(u, style) && u == t.(attributes := u.attributes, link := u.link)
  {
    hide ExecAll, AttributeCodes, Renditions, Visible;
    AttributesRoundTrip(t.attributes, style.attributes);
    var first, second := CloseLink, Render(AttributeCodes(style.attributes));
    ExecAppend(t, [first], [second], wide);
    ExecOne(t, first, wide);
    var u := Exec(t, first, wide);
    ExecOne(u, second, wide);
    var v := Exec(u, second, wide);
    assert [first, second] == [first] + [second];
    if style.hyperlink.Some? {
      ExecAppend(t, [first, second], [OpenLink(style.hyperlink.value)], wide);
      ExecOne(v, OpenLink(style.hyperlink.value), wide);
    } else {
      assert StyleTokens(style) == [first, second];
    }
  }

  /** A run never starts on the right half of a character: its left half would have changed too. */
  lemma RunStartsOnCharacter(previous: Option<Buffer>, current: Buffer, row: nat, column: nat, wide: WideTable)
    requires Paintable(previous, current, wide) && row < current.rows && column < current.columns
    requires Changed(previous, current, row, column)
    requires column == 0 || !Changed(previous, current, row, column - 1)
    ensures !At(current, row, column).wideContinuation
  {
    hide At;
    assert WellFormedAt(current, wide, row, column);
    if column > 0 {
      NeighbourIsWellFormed(current, wide, row, column - 1);
    }
  }

  /** The tokens of a cell act like setting its style and then printing its character, if it has one. */
  lemma PaintStyle(t: Terminal, cell: Cell, style: Option<Style>, wide: WideTable) returns (u: Terminal)
    requires style.Some? ==> StyleIs(t, style.value)
    ensures u == t.(attributes := u.attributes, link := u.link) && StyleIs(u, StyleOf(cell))
    ensures ExecAll(t, CellTokens(cell, style), wide)
      == if cell.wideContinuation then u else Exec(u, Print(cell.ch, cell.combining), wide)
  {
    hide StyleOf, ExecAll, StyleTokens, PutAt;
    var setStyle := if style == Some(StyleOf(cell)) then [] else StyleTokens(StyleOf(cell));
    var draw := if cell.wideContinuation then [] else [Print(cell.ch, cell.combining)];
    StyleTokensSet(t, StyleOf(cell), wide);
    NoTokens(t, wide);
    u := ExecAll(t, setStyle, wide);
    ExecAppend(t, setStyle, draw, wide);
    NoTokens(u, wide);
    ExecOne(u, Print(cell.ch, cell.combining), wide);
  }

  /** One changed cell: its style and, unless it is a right half, its character. */
  lemma PaintCell(t: Terminal, previous: Option<Buffer>, current: Buffer, row: nat, column: nat,
                  style: Option<Style>, wide: WideTable)
    requires Paintable(previous, current, wide) && row < current.rows && column < current.columns
    requires Changed(previous, current, row, column)
    requires Ready(t, previous, current, row, column, true, style)
    ensures
      var cell := At(current, row, column);
      Ready(ExecAll(t, CellTokens(cell, style), wide), previous, current, row, column + 1, true, Some(StyleOf(cell)))
  {
    hide At, StyleOf, ExecAll, PutAt, RowReady, RowShows, CellTokens, WellFormed, SameContinuations;
    var cell := At(current, row, column);
    var u := PaintStyle(t, cell, style, wide);
    if column + 1 < current.columns {
      NeighbourIsWellFormed(current, wide, row, column);
    }
    if cell.wideContinuation {
      SkipContinuation(t.grid[row], previous, current, row, column, wide);
    } else {
      DrawCell(t.grid[row], previous, current, row, column, wide);
    }
  }

  lemma NoTokens(t: Terminal, wide: WideTable)
    ensures ExecAll(t, [], wide) == t
  {
  }

  lemma RepaintShows(t: Terminal, previous: Option<Buffer>, current: Buffer, row: nat, column: nat,
                     inRun: bool, style: Option<Style>, wide: WideTable)
    requires Paintable(previous, current, wide) && row <= current.rows && column <= current.columns
    requires Ready(t, previous, current, row, column, inRun, style)
    ensures
      var u := ExecAll(t, Repaint(previous, current, row, column, inRun, style), wide);
      !u.lost && Shows(u, current)
    decreases current.rows - row, current.columns - column
  {
    hide At, StyleOf, CellTokens, ExecAll, RowShows, RowReady, WellFormed, SameContinuations;
    NoTokens(t, wide);
    if row == current.rows {
    } else if column == current.columns {
      RowIsDone(t.grid[row], previous, current, row);
      RepaintShows(t, previous, current, row + 1, 0, false, style, wide);
    } else if !Changed(previous, current, row, column) {
      SkipUnchanged(t.grid[row], previous, current, row, column, wide);
      RepaintShows(t, previous, current, row, column + 1, false, style, wide);
    } else {
      var cell := At(current, row, column);
      var move := if inRun then [] else [MoveTo(row + 1, column + 1)];
      var next := Some(StyleOf(cell));
      ExecOne(t, MoveTo(row + 1, column + 1), wide);
      if !inRun {
        RunStartsOnCharacter(previous, current, row, column, wide);
      }
      var u := ExecAll(t, move, wide);
      assert Ready(u, previous, current, row, column, true, style);
      PaintCell(u, previous, current, row, column, style, wide);
      var v := ExecAll(u, CellTokens(cell, style), wide);
      RepaintShows(v, previous, current, row, column + 1, true, next, wide);
      ExecAppend(t, move, CellTokens(cell, style), wide);
      ExecAppend(t, move + CellTokens(cell, style), Repaint(previous, current, row, column + 1, true, next), wide);
    }
  }

  lemma RowIsDone(line: seq<Shown>, previous: Option<Buffer>, current: Buffer, row: nat)
    requires Comparable(previous, current) && row < current.rows
    requires RowReady(line, previous, current, row, current.columns)
    ensures RowShows(line, current, row)
  {
  }

  /** Tokens that draw nothing leave the picture alone. */
  lemma PrologueKeepsGrid(t: Terminal, full: bool, wide: WideTable)
    ensures ExecAll(t, Prologue(full), wide).grid == t.grid && ExecAll(t, Prologue(full), wide).lost == t.lost
  {
    hide Renditions;
    var a, b, c := Render([Code(0)]), HideCursor, MoveTo(1, 1);
    NoTokens(t, wide);
    ExecAppend(t, [a], [b], wide);
    ExecAppend(t, [a] + [b], [c], wide);
    assert [a, b, c] == [a] + [b] + [c];
    ExecOne(t, a, wide);
    ExecOne(Exec(t, a, wide), b, wide);
    ExecOne(Exec(Exec(t, a, wide), b, wide), c, wide);
  }

  /** After the epilogue the rendition is plain and the cursor stands where the buffer has it. */
  lemma EpilogueEffect(t: Terminal, cursor: Option<(nat, nat)>, wide: WideTable)
    ensures
      var u := ExecAll(t, Epilogue(cursor), wide);
      && u.grid == t.grid && u.lost == t.lost
      && u.attributes == PLAIN && u.link == None
      && u.cursorVisible == cursor.Some?
      && (cursor.Some? ==> (u.column, u.row) == cursor.value)
  {
    hide ExecAll, Renditions;
    var a, b := CloseLink, Render([Code(0)]);
    ResetIsPlain(t.attributes);
    ExecAppend(t, [a], [b], wide);
    assert [a, b] == [a] + [b];
    ExecOne(t, a, wide);
    ExecOne(Exec(t, a, wide), b, wide);
    var u := Exec(Exec(t, a, wide), b, wide);
    match cursor
    case Some((x, y)) =>
      var c, d := MoveTo(y + 1, x + 1), ShowCursor;
      ExecAppend(t, [a, b], [c, d], wide);
      ExecAppend(u, [c], [d], wide);
      assert [c, d] == [c] + [d];
      ExecOne(u, c, wide);
      ExecOne(Exec(u, c, wide), d, wide);
    case None =>
      ExecAppend(t, [a, b], [HideCursor], wide);
      ExecOne(u, HideCursor, wide);
  }

  lemma ResetIsPlain(a: Attributes)
    ensures Renditions(a, [Code(0)]) == PLAIN
  {
    OneRendition(a, Code(0));
  }

  /** What the caller knows of the terminal: its size, and the old picture when the repaint is partial. */
  ghost predicate Starts(t: Terminal, previous: Option<Buffer>, current: Buffer, forceFull: bool, wide: WideTable)
    requires current.Valid() && (previous.Some? ==> previous.value.Valid())
  {
    var reference := Reference(previous, current, forceFull);
    && Paintable(reference, current, wide)
    && !t.lost && HasSize(t, current.rows, current.columns)
    && (reference.Some? ==> Shows(t, reference.value))
  }

  /** Applying the diff to a terminal that shows the old screen, or a full repaint to any terminal of
      the same size, leaves it showing exactly the new screen. */
  lemma DiffShowsCurrent(t: Terminal, previous: Option<Buffer>, current: Buffer, forceFull: bool, wide: WideTable)
    requires current.Valid() && (previous.Some? ==> previous.value.Valid())
    requires Starts(t, previous, current, forceFull, wide)
    ensures
      var u := ExecAll(t, Diff(previous, current, forceFull), wide);
      && !u.lost && Shows(u, current)
      && u.attributes == PLAIN && u.link == None
      && u.cursorVisible == current.cursor.Some?
      && (current.cursor.Some? ==> (u.column, u.row) == current.cursor.value)
  {
    hide At, ExecAll, RowShows, RowReady, Paintable, Prologue, Epilogue, Repaint;
    var reference := Reference(previous, current, forceFull);
    var prologue, body := Prologue(reference.None?), Repaint(reference, current, 0, 0, false, None);
    PrologueKeepsGrid(t, reference.None?, wide);
    var u := ExecAll(t, prologue, wide);
    assert Comparable(reference, current);
    forall r | 0 <= r < current.rows
      ensures RowReady(u.grid[r], reference, current, r, 0)
    {
      RowStart(u.grid[r], reference, current, r);
    }
    RepaintShows(u, reference, current, 0, 0, false, None, wide);
    ExecAppend(t, prologue, body, wide);
    var v := ExecAll(u, body, wide);
    ExecAppend(t, prologue + body, Epilogue(current.cursor), wide);
    EpilogueEffect(v, current.cursor, wide);
  }

  lemma ShowsIsUnique(t: Terminal, u: Terminal, b: Buffer)
    requires b.Valid() && Shows(t, b) && Shows(u, b)
    ensures t.grid == u.grid
  {
    hide At, Appearance;
    forall r | 0 <= r < b.rows
      ensures t.grid[r] == u.grid[r]
    {
      assert RowShows(t.grid[r], b, r) && RowShows(u.grid[r], b, r);
    }
  }

  /** The incremental repaint and a full redraw have the same effect. */
  lemma DiffEqualsFullRedraw(t: Terminal, other: Terminal, previous: Buffer, current: Buffer, wide: WideTable)
    requires current.Valid() && previous.Valid()
    requires Starts(t, Some(previous), current, false, wide)
    requires Starts(other, Some(previous), current, true, wide)
    ensures ExecAll(t, Diff(Some(previous), current, false), wide).grid
      == ExecAll(other, Diff(Some(previous), current, true), wide).grid
  {
    hide ExecAll, Starts, Shows, Diff;
    DiffShowsCurrent(t, Some(previous), current, false, wide);
    DiffShowsCurrent(other, Some(previous), current, true, wide);
    ShowsIsUnique(ExecAll(t, Diff(Some(previous), current, false), wide),
                  ExecAll(other, Diff(Some(previous), current, true), wide), current);
  }

  /** A double width character that moves by one column changes three neighbouring cells, so one run
      repaints it and the half it leaves behind. */
  lemma ShiftedCharacterIsOneRun(previous: Buffer, current: Buffer, row: nat, column: nat, wide: WideTable)
    requires WellFormed(previous, wide) && WellFormed(current, wide) && SameSize(previous, current)
    requires row < current.rows && column + 2 < current.columns
    requires
      || (Leads(At(previous, row, column), wide) && Leads(At(current, row, column + 1), wide))
      || (Leads(At(previous, row, column + 1), wide) && Leads(At(current, row, column), wide))
    ensures forall c :: column <= c <= column + 2 ==> Changed(Some(previous), current, row, c)
  {
    hide At;
    NeighbourIsWellFormed(previous, wide, row, column);
    NeighbourIsWellFormed(previous, wide, row, column + 1);
    NeighbourIsWellFormed(current, wide, row, column);
    NeighbourIsWellFormed(current, wide, row, column + 1);
  }

  // ---- Composing the buffer ----

  lemma IndexIsUnique(b: Buffer, row: nat, column: nat, row': nat, column': nat)
    requires column < b.columns && column' < b.columns
    ensures Index(b, row, column) == Index(b, row', column') ==> row == row' && column == column'
  {
    if row < row' {
      Arithmetic.MulMonotonic(row + 1, row', b.columns);
      assert (row + 1) * b.columns == row * b.columns + b.columns;
    } else if row' < row {
      Arithmetic.MulMonotonic(row' + 1, row, b.columns);
      assert (row' + 1) * b.columns == row' * b.columns + b.columns;
    }
  }

  /** The buffer with one cell replaced and nothing else touched. */
  function Put(b: Buffer, column: nat, row: nat, cell: Cell): (r: Buffer)
    requires b.Valid() && row < b.rows && column < b.columns
    ensures r.Valid() && SameSize(r, b)
  {
    IndexInRange(b, row, column);
    b.(cells := b.cells[Index(b, row, column) := cell])
  }

  lemma PutAtCell(b: Buffer, column: nat, row: nat, cell: Cell, row': nat, column': nat)
    requires b.Valid() && row < b.rows && column < b.columns && row' < b.rows && column' < b.columns
    ensures At(Put(b, column, row, cell), row', column')
      == if row' == row && column' == column then cell else At(b, row', column')
  {
    hide Index;
    IndexIsUnique(b, row, column, row', column');
    IndexInRange(b, row', column');
    assert Index(Put(b, column, row, cell), row', column') == Index(b, row', column') by {
      SameIndex(Put(b, column, row, cell), b, row', column');
    }
  }

  lemma SameIndex(a: Buffer, b: Buffer, row: nat, column: nat)
    requires a.columns == b.columns
    ensures Index(a, row, column) == Index(b, row, column)
  {
  }

  /** `set`: overwriting either half of a double width character erases its other half. Positions off
      the screen are ignored. */
  function SetCell(b: Buffer, x: nat, y: nat, cell: Cell): (r: Buffer)
    requires b.Valid()
    ensures r.Valid() && SameSize(r, b)
  {
    if x < b.columns && y < b.rows then
      var left := if At(b, y, x).wideContinuation && x > 0 then Put(b, x - 1, y, BLANK) else b;
      var right := if x + 1 < b.columns && At(left, y, x + 1).wideContinuation then Put(left, x + 1, y, BLANK) else left;
      Put(right, x, y, cell)
    else b
  }

  /** Drawing a single width cell anywhere keeps the buffer well formed. */
  lemma SetNarrowKeepsWellFormed(b: Buffer, x: nat, y: nat, cell: Cell, wide: WideTable)
    requires WellFormed(b, wide) && !wide(' ')
    requires !cell.wideContinuation && !wide(cell.ch)
    ensures WellFormed(SetCell(b, x, y, cell), wide)
  {
    hide At, Index, Put;
    var r := SetCell(b, x, y, cell);
    forall row, column | 0 <= row < r.rows && 0 <= column < r.columns
      ensures WellFormedAt(r, wide, row, column)
    {
      SetCellAt(b, x, y, cell, row, column);
      assert WellFormedAt(b, wide, row, column);
      if column > 0 {
        SetCellAt(b, x, y, cell, row, column - 1);
        assert WellFormedAt(b, wide, row, column - 1);
      }
      if column + 1 < b.columns {
        assert WellFormedAt(b, wide, row, column + 1);
      }
      if column > 1 {
        assert WellFormedAt(b, wide, row, column - 2);
      }
    }
  }

  /** Cell by cell effect of `set`. */
  lemma SetCellAt(b: Buffer, x: nat, y: nat, cell: Cell, row: nat, column: nat)
    requires b.Valid() && row < b.rows && column < b.columns
    ensures At(SetCell(b, x, y, cell), row, column) ==
      if row != y || x >= b.columns then At(b, row, column)
      else if column == x then cell
      else if column + 1 == x && At(b, row, x).wideContinuation then BLANK
      else if column == x + 1 && At(b, row, column).wideContinuation then BLANK
      else At(b, row, column)
  {
    hide At, Index, Put;
    if x < b.columns && y < b.rows {
      var left := if At(b, y, x).wideContinuation && x > 0 then Put(b, x - 1, y, BLANK) else b;
      var right := if x + 1 < b.columns && At(left, y, x + 1).wideContinuation then Put(left, x + 1, y, BLANK) else left;
      if x > 0 {
        PutAtCell(b, x - 1, y, BLANK, row, column);
        if x + 1 < b.columns {
          PutAtCell(b, x - 1, y, BLANK, y, x + 1);
        }
      }
      if x + 1 < b.columns {
        PutAtCell(left, x + 1, y, BLANK, row, column);
      }
      PutAtCell(right, x, y, cell, row, column);
    }
  }

  /** Drawing a double width character and then its right half keeps the buffer well formed. */
  lemma SetWideKeepsWellFormed(b: Buffer, x: nat, y: nat, cell: Cell, half: Cell, wide: WideTable)
    requires WellFormed(b, wide) && !wide(' ') && x + 1 < b.columns
    requires Leads(cell, wide) && half.wideContinuation
    ensures WellFormed(SetCell(SetCell(b, x, y, cell), x + 1, y, half), wide)
  {
    hide At, Index, Put, SetCell;
    var s := SetCell(b, x, y, cell);
    var r := SetCell(s, x + 1, y, half);
    forall row, column | 0 <= row < r.rows && 0 <= column < r.columns
      ensures WellFormedAt(r, wide, row, column)
    {
      WideCellAt(b, x, y, cell, half, wide, row, column);
      assert WellFormedAt(b, wide, row, column);
      if column > 0 {
        WideCellAt(b, x, y, cell, half, wide, row, column - 1);
        assert WellFormedAt(b, wide, row, column - 1);
      }
      if column > 1 {
        assert WellFormedAt(b, wide, row, column - 2);
      }
      if column + 1 < b.columns {
        assert WellFormedAt(b, wide, row, column + 1);
      }
    }
  }

  lemma WideCellAt(b: Buffer, x: nat, y: nat, cell: Cell, half: Cell, wide: WideTable, row: nat, column: nat)
    requires WellFormed(b, wide) && x + 1 < b.columns && row < b.rows && column < b.columns
    requires Leads(cell, wide) && half.wideContinuation
    ensures At(SetCell(SetCell(b, x, y, cell), x + 1, y, half), row, column) ==
      if row != y then At(b, row, column)
      else if column == x then cell
      else if column == x + 1 then half
      else if column + 1 == x && At(b, row, x).wideContinuation then BLANK
      else if column == x + 2 && At(b, row, column).wideContinuation then BLANK
      else At(b, row, column)
  {
    hide At, Index, Put, SetCell;
    var s := SetCell(b, x, y, cell);
    SetCellAt(b, x, y, cell, row, column);
    SetCellAt(s, x + 1, y, half, row, column);
    if row == y {
      SetCellAt(b, x, y, cell, row, x + 1);
    }
  }

  function Styled(ch: char, attributes: Attributes): Cell {
    BLANK.(ch := ch, attributes := attributes)
  }

  /** Text from `(x, y)` to the right, a character a cell: the loop of `draw_text`, and that of a frame's title. */
  function TextDrawn(b: Buffer, x: nat, y: nat, text: string, attributes: Attributes): (r: Buffer)
    requires b.Valid()
    ensures r.Valid() && SameSize(r, b)
  {
    if text == "" then b
    else
      var n := |text| - 1;
      SetCell(TextDrawn(b, x, y, text[..n], attributes), x + n, y, Styled(text[n], attributes))
  }

  lemma {:induction false} TextEndsAtMargin(b: Buffer, x: nat, y: nat, text: string, attributes: Attributes, end: nat)
    requires b.Valid() && end <= |text| && x + end >= b.columns
    ensures TextDrawn(b, x, y, text, attributes) == TextDrawn(b, x, y, text[..end], attributes)
  {
    if end < |text| {
      var n := |text| - 1;
      TextEndsAtMargin(b, x, y, text[..n], attributes, end);
      assert text[..n][..end] == text[..end];
    } else {
      assert text[..end] == text;
    }
  }

  const HORIZONTAL := '\U{2500}'
  const VERTICAL := '\U{2502}'
  const UPPER_LEFT := '\U{250C}'
  const UPPER_RIGHT := '\U{2510}'
  const LOWER_LEFT := '\U{2514}'
  const LOWER_RIGHT := '\U{2518}'

  /** A rectangle of cells. The source computes its edges in 16 bits, which those of the layout do not leave. */
  datatype Frame = Frame(x: nat, y: nat, width: nat, height: nat)

  /** The first `n` columns between the corners, above and below. */
  function EdgesDrawn(b: Buffer, f: Frame, n: nat, a: Attributes): (r: Buffer)
    requires b.Valid() && f.height > 0
    ensures r.Valid() && SameSize(r, b)
  {
    if n == 0 then b
    else
      var above := SetCell(EdgesDrawn(b, f, n - 1, a), f.x + n, f.y, Styled(HORIZONTAL, a));
      SetCell(above, f.x + n, f.y + f.height - 1, Styled(HORIZONTAL, a))
  }

  /** The first `n` rows between the corners, left and right. */
  function SidesDrawn(b: Buffer, f: Frame, n: nat, a: Attributes): (r: Buffer)
    requires b.Valid() && f.width > 0
    ensures r.Valid() && SameSize(r, b)
  {
    if n == 0 then b
    else
      var left := SetCell(SidesDrawn(b, f, n - 1, a), f.x, f.y + n, Styled(VERTICAL, a));
      SetCell(left, f.x + f.width - 1, f.y + n, Styled(VERTICAL, a))
  }

  function CornersDrawn(b: Buffer, f: Frame, a: Attributes): (r: Buffer)
    requires b.Valid() && f.width > 0 && f.height > 0
    ensures r.Valid() && SameSize(r, b)
  {
    var right, bottom := f.x + f.width - 1, f.y + f.height - 1;
    var upperLeft := SetCell(b, f.x, f.y, Styled(UPPER_LEFT, a));
    var upper := SetCell(upperLeft, right, f.y, Styled(UPPER_RIGHT, a));
    var lowerLeft := SetCell(upper, f.x, bottom, Styled(LOWER_LEFT, a));
    SetCell(lowerLeft, right, bottom, Styled(LOWER_RIGHT, a))
  }

  /** What of a title fits between the corners of a frame. */
  function ShownTitle(f: Frame, title: string): string {
    var room := if f.width < 4 then 0 else f.width - 4;
    if |title| <= room then title else title[..room]
  }

  function FrameDrawn(b: Buffer, f: Frame, title: string, a: Attributes): (r: Buffer)
    requires b.Valid()
    ensures r.Valid() && SameSize(r, b)
  {
    if f.width < 2 || f.height < 2 then b
    else
      var edges := EdgesDrawn(b, f, f.width - 2, a);
      var sides := SidesDrawn(edges, f, f.height - 2, a);
      TextDrawn(CornersDrawn(sides, f, a), f.x + 2, f.y, ShownTitle(f, title), a)
  }

  class ScreenBuffer {
    const rows: nat
    const columns: nat
    var cells: seq<Cell>
    var cursor: Option<(nat, nat)>

    ghost predicate Valid()
      reads this
    {
      Contents().Valid()
    }

    ghost function Contents(): Buffer
      reads this
    {
      Buffer(rows, columns, cells, cursor)
    }

    constructor (columns: nat, rows: nat)
      ensures this.columns == columns && this.rows == rows && cursor == None && Valid()
      ensures forall i :: 0 <= i < |cells| ==> cells[i] == BLANK
    {
      this.rows, this.columns := rows, columns;
      cells, cursor := seq(rows * columns, i => BLANK), None;
    }

    method Set(x: nat, y: nat, cell: Cell)
      requires Valid()
      modifies this
      ensures Valid() && Contents() == SetCell(old(Contents()), x, y, cell)
    {
      if x < columns && y < rows {
        var index := y * columns + x;
        IndexInRange(Contents(), y, x);
        if x + 1 < columns {
          IndexInRange(Contents(), y, x + 1);
        }
        if cells[index].wideContinuation && x > 0 {
          cells := cells[index - 1 := BLANK];
        }
        if x + 1 < columns && cells[index + 1].wideContinuation {
          cells := cells[index + 1 := BLANK];
        }
        cells := cells[index := cell];
      }
    }

    method DrawText(x: nat, y: nat, text: string, foreground: u8, background: u8)
      requires Valid()
      modifies this
      ensures Valid()
      ensures Contents() == TextDrawn(old(Contents()), x, y, text,
                                      PLAIN.(foreground := Indexed(foreground), background := Indexed(background)))
    {
      hide At, Index, Put, SetCell, Styled;
      ghost var before := Contents();
      var a := PLAIN.(foreground := Indexed(foreground), background := Indexed(background));
      for offset := 0 to |text|
        invariant Valid() && Contents() == TextDrawn(before, x, y, text[..offset], a)
      {
        if x + offset >= columns {
          TextEndsAtMargin(before, x, y, text, a, offset);
          return;
        }
        assert text[..offset + 1][..offset] == text[..offset];
        Set(x + offset, y, Styled(text[offset], a));
      }
      assert text[..|text|] == text;
    }

    method DrawFrame(f: Frame, title: string, color: u8)
      requires Valid()
      modifies this
      ensures Valid() && Contents() == FrameDrawn(old(Contents()), f, title, PLAIN.(foreground := Indexed(color)))
    {
      hide At, Index, Put, SetCell, Styled;
      if f.width < 2 || f.height < 2 {
        return;
      }
      var a := PLAIN.(foreground := Indexed(color));
      var right, bottom := f.x + f.width - 1, f.y + f.height - 1;
      ghost var before := Contents();
      for n := 0 to f.width - 2
        invariant Valid() && Contents() == EdgesDrawn(before, f, n, a)
      {
        Set(f.x + 1 + n, f.y, Styled(HORIZONTAL, a));
        Set(f.x + 1 + n, bottom, Styled(HORIZONTAL, a));
      }
      ghost var edges := Contents();
      for n := 0 to f.height - 2
        invariant Valid() && Contents() == SidesDrawn(edges, f, n, a)
      {
        Set(f.x, f.y + 1 + n, Styled(VERTICAL, a));
        Set(right, f.y + 1 + n, Styled(VERTICAL, a));
      }
      Set(f.x, f.y, Styled(UPPER_LEFT, a));
      Set(right, f.y, Styled(UPPER_RIGHT, a));
      Set(f.x, bottom, Styled(LOWER_LEFT, a));
      Set(right, bottom, Styled(LOWER_RIGHT, a));
      ghost var corners := Contents();
      var shown := ShownTitle(f, title);
      for offset := 0 to |shown|
        invariant Valid() && Contents() == TextDrawn(corners, f.x + 2, f.y, shown[..offset], a)
      {
        assert shown[..offset + 1][..offset] == shown[..offset];
        Set(f.x + 2 + offset, f.y, Styled(shown[offset], a));
      }
      assert shown[..|shown|] == shown;
    }
  }
}
