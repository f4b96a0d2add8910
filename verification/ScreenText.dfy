/** Text drawn over the screen (src/screen.rs:39-57) and which screens a terminal can be made to show at all. */
module ScreenText {
  import opened Wrappers
  import opened FixedWidth
  import opened Cells
  import opened Screen

  // ---- What a terminal can show ----

  predicate IsWide(shown: Shown, wide: WideTable) {
    shown.Glyph? && wide(shown.ch)
  }

  predicate SaneAt(line: seq<Shown>, column: nat, wide: WideTable)
    requires column < |line|
  {
    && (line[column] == RightHalf <==> column > 0 && IsWide(line[column - 1], wide))
    && (IsWide(line[column], wide) ==> column + 1 < |line|)
  }

  /** On a terminal right halves stand exactly behind double width characters, and each of these has its own. */
  ghost predicate SaneRow(line: seq<Shown>, wide: WideTable) {
    forall column :: 0 <= column < |line| ==> SaneAt(line, column, wide)
  }

  ghost predicate Sane(t: Terminal, wide: WideTable) {
    forall r :: 0 <= r < |t.grid| ==> SaneRow(t.grid[r], wide)
  }

  lemma PutAtKeepsSane(line: seq<Shown>, column: nat, glyph: Shown, wide: WideTable)
    requires SaneRow(line, wide) && glyph.Glyph? && column + (if wide(glyph.ch) then 2 else 1) <= |line|
    ensures SaneRow(PutAt(line, column, glyph, if wide(glyph.ch) then 2 else 1), wide)
  {
    var after := PutAt(line, column, glyph, if wide(glyph.ch) then 2 else 1);
    forall c | 0 <= c < |after| ensures SaneAt(after, c, wide) {
      assert SaneAt(line, c, wide);
      if c > 0 {
        assert SaneAt(line, c - 1, wide);
      }
      if c + 1 < |line| {
        assert SaneAt(line, c + 1, wide);
      }
    }
  }

  /** Whatever is written to a terminal, its rows stay in order. */
  lemma {:induction false} ExecAllKeepsSane(t: Terminal, tokens: seq<Token>, wide: WideTable)
    requires Sane(t, wide)
    ensures Sane(ExecAll(t, tokens, wide), wide)
    decreases tokens
  {
    hide SaneRow, PutAt, Renditions;
    if tokens != [] {
      var token := tokens[0];
      if token.Print? && 0 <= t.row < |t.grid| && 0 <= t.column
         && t.column + (if wide(token.ch) then 2 else 1) <= |t.grid[t.row]| {
        PutAtKeepsSane(t.grid[t.row], t.column, Glyph(token.ch, token.combining, Style(t.attributes, t.link)), wide);
      }
      ExecAllKeepsSane(Exec(t, token, wide), tokens[1..], wide);
    }
  }

  lemma ShownIsWellFormed(t: Terminal, b: Buffer, wide: WideTable)
    requires b.Valid() && Sane(t, wide) && Shows(t, b)
    ensures WellFormed(b, wide)
  {
    hide At, StyleOf;
    forall row, column | 0 <= row < b.rows && 0 <= column < b.columns ensures WellFormedAt(b, wide, row, column) {
      var line := t.grid[row];
      assert RowShows(line, b, row) && SaneRow(line, wide);
      assert SaneAt(line, column, wide);
      assert line[column] == Appearance(At(b, row, column));
      if column > 0 {
        assert line[column - 1] == Appearance(At(b, row, column - 1));
      }
    }
  }

  /** What the caller knows of the terminal: its size, and the old picture when the repaint is partial. Nothing is said
      about the new screen. */
  ghost predicate Begins(t: Terminal, previous: Option<Buffer>, current: Buffer, forceFull: bool, wide: WideTable)
    requires current.Valid() && (previous.Some? ==> previous.value.Valid())
  {
    var reference := Reference(previous, current, forceFull);
    && Sane(t, wide) && !t.lost && HasSize(t, current.rows, current.columns)
    && (reference.Some? ==> Shows(t, reference.value) && SameContinuations(reference.value, current, wide))
  }

  /** The repaint leaves the terminal showing the new screen exactly when that screen is well formed. */
  lemma DiffShowsIffWellFormed(t: Terminal, previous: Option<Buffer>, current: Buffer, forceFull: bool, wide: WideTable)
    requires current.Valid() && (previous.Some? ==> previous.value.Valid())
    requires Begins(t, previous, current, forceFull, wide)
    ensures Shows(ExecAll(t, Diff(previous, current, forceFull), wide), current) <==> WellFormed(current, wide)
  {
    hide WellFormed, Sane, Shows, Diff, ExecAll, SameContinuations;
    var reference := Reference(previous, current, forceFull);
    var tokens := Diff(previous, current, forceFull);
    ExecAllKeepsSane(t, tokens, wide);
    if reference.Some? {
      ShownIsWellFormed(t, reference.value, wide);
    }
    if WellFormed(current, wide) {
      DiffShowsCurrent(t, previous, current, forceFull, wide);
    }
    if Shows(ExecAll(t, tokens, wide), current) {
      ShownIsWellFormed(ExecAll(t, tokens, wide), current, wide);
    }
  }

  // ---- Drawing over a screen ----

  /** Cells to be drawn, by row and column; some may lie off the screen. */
  type Drawing = map<(nat, nat), Cell>

  predicate NoHalves(d: Drawing) {
    forall at :: at in d ==> !d[at].wideContinuation
  }

  /** A drawn cell, the blank left of a double width character that was cut, or what was there. */
  function OverAt(b: Buffer, d: Drawing, row: nat, column: nat): Cell
    requires b.Valid() && row < b.rows && column < b.columns
  {
    if (row, column) in d then d[(row, column)]
    else if column > 0 && (row, column - 1) in d && At(b, row, column).wideContinuation then BLANK
    else if column + 1 < b.columns && (row, column + 1) in d && At(b, row, column + 1).wideContinuation then BLANK
    else At(b, row, column)
  }

  ghost predicate IsOver(r: Buffer, b: Buffer, d: Drawing) {
    && r.Valid() && b.Valid() && SameSize(r, b)
    && forall row, column :: 0 <= row < b.rows && 0 <= column < b.columns ==> At(r, row, column) == OverAt(b, d, row, column)
  }

  lemma NothingIsOver(b: Buffer)
    requires b.Valid()
    ensures IsOver(b, b, map[]) && NoHalves(map[])
  {
    hide At;
  }

  lemma SetIsOver(r: Buffer, b: Buffer, d: Drawing, x: nat, y: nat, cell: Cell, wide: WideTable)
    requires WellFormed(b, wide) && IsOver(r, b, d) && NoHalves(d) && !cell.wideContinuation
    ensures IsOver(SetCell(r, x, y, cell), b, d[(y, x) := cell]) && NoHalves(d[(y, x) := cell])
  {
    hide At, SetCell;
    forall row, column | 0 <= row < b.rows && 0 <= column < b.columns
      ensures At(SetCell(r, x, y, cell), row, column) == OverAt(b, d[(y, x) := cell], row, column)
    {
      SetCellAt(r, x, y, cell, row, column);
      assert At(r, row, column) == OverAt(b, d, row, column);
      assert WellFormedAt(b, wide, row, column);
      if row == y && x < b.columns {
        assert At(r, y, x) == OverAt(b, d, y, x);
        assert WellFormedAt(b, wide, y, x);
        if x + 1 < b.columns {
          assert WellFormedAt(b, wide, y, x + 1);
        }
      }
    }
  }

  /** Every character of the drawing that is on the screen takes one column. */
  predicate IsNarrow(b: Buffer, d: Drawing, wide: WideTable) {
    forall at :: at in d && at.0 < b.rows && at.1 < b.columns ==> !wide(d[at].ch)
  }

  /** Whatever is drawn over a well formed screen without right halves, the outcome is well formed exactly when none of it
      is a double width character. */
  lemma DrawingKeepsWellFormedIff(r: Buffer, b: Buffer, d: Drawing, wide: WideTable)
    requires WellFormed(b, wide) && !wide(' ') && IsOver(r, b, d) && NoHalves(d)
    ensures WellFormed(r, wide) <==> IsNarrow(b, d, wide)
  {
    hide At, OverAt;
    if IsNarrow(b, d, wide) {
      forall row, column | 0 <= row < r.rows && 0 <= column < r.columns ensures WellFormedAt(r, wide, row, column) {
        NarrowDrawingAt(r, b, d, wide, row, column);
      }
    } else {
      var at :| at in d && at.0 < b.rows && at.1 < b.columns && wide(d[at].ch);
      WideDrawingAt(r, b, d, wide, at.0, at.1);
    }
  }

  lemma NarrowDrawingAt(r: Buffer, b: Buffer, d: Drawing, wide: WideTable, row: nat, column: nat)
    requires WellFormed(b, wide) && !wide(' ') && IsOver(r, b, d) && NoHalves(d) && IsNarrow(b, d, wide)
    requires row < b.rows && column < b.columns
    ensures WellFormedAt(r, wide, row, column)
  {
    hide At;
    assert At(r, row, column) == OverAt(b, d, row, column);
    assert WellFormedAt(b, wide, row, column);
    if column > 0 {
      assert At(r, row, column - 1) == OverAt(b, d, row, column - 1);
      assert WellFormedAt(b, wide, row, column - 1);
    }
    if column + 1 < b.columns {
      assert WellFormedAt(b, wide, row, column + 1);
    }
    if column > 1 {
      assert WellFormedAt(b, wide, row, column - 2);
    }
  }

  lemma WideDrawingAt(r: Buffer, b: Buffer, d: Drawing, wide: WideTable, row: nat, column: nat)
    requires IsOver(r, b, d) && NoHalves(d) && row < b.rows && column < b.columns
    requires (row, column) in d && wide(d[(row, column)].ch)
    ensures !WellFormed(r, wide)
  {
    hide At;
    assert At(r, row, column) == OverAt(b, d, row, column);
    if column + 1 < b.columns {
      assert At(r, row, column + 1) == OverAt(b, d, row, column + 1);
      assert !WellFormedAt(r, wide, row, column + 1);
    } else {
      assert !WellFormedAt(r, wide, row, column);
    }
  }

  function DrawnAt(d: Drawing, row: nat, column: nat): Option<Cell> {
    if (row, column) in d then Some(d[(row, column)]) else None
  }

  lemma AddedAt(d: Drawing, x: nat, y: nat, cell: Cell, row: nat, column: nat)
    ensures DrawnAt(d[(y, x) := cell], row, column) == if row == y && column == x then Some(cell) else DrawnAt(d, row, column)
  {
  }

  lemma SameDrawing(d: Drawing, e: Drawing)
    requires forall row: nat, column: nat :: DrawnAt(d, row, column) == DrawnAt(e, row, column)
    ensures d == e
  {
    forall at: (nat, nat) ensures (at in d <==> at in e) && (at in d ==> d[at] == e[at]) {
      assert at == (at.0, at.1);
      assert DrawnAt(d, at.0, at.1) == DrawnAt(e, at.0, at.1);
    }
  }

  lemma Add(r: Buffer, b: Buffer, d: Drawing, x: nat, y: nat, cell: Cell, wide: WideTable) returns (e: Drawing)
    requires r.Valid() && WellFormed(b, wide) && IsOver(r, b, d) && NoHalves(d) && !cell.wideContinuation
    ensures IsOver(SetCell(r, x, y, cell), b, e) && NoHalves(e)
    ensures forall row: nat, column: nat ::
              DrawnAt(e, row, column) == if row == y && column == x then Some(cell) else DrawnAt(d, row, column)
  {
    hide IsOver, NoHalves, SetCell, WellFormed;
    SetIsOver(r, b, d, x, y, cell, wide);
    e := d[(y, x) := cell];
    forall row: nat, column: nat
      ensures DrawnAt(e, row, column) == if row == y && column == x then Some(cell) else DrawnAt(d, row, column)
    {
      AddedAt(d, x, y, cell, row, column);
    }
  }

  // ---- Text ----

  function TextCells(x: nat, y: nat, text: string, a: Attributes): Drawing {
    map column: nat | x <= column < x + |text| :: (y, column) := Cell(text[column - x], "", a, None, false, false, false, None)
  }

  lemma {:induction false} TextIsOver(r: Buffer, b: Buffer, d: Drawing, x: nat, y: nat, text: string, a: Attributes,
                                      wide: WideTable)
    returns (e: Drawing)
    requires r.Valid() && WellFormed(b, wide) && IsOver(r, b, d) && NoHalves(d)
    ensures IsOver(TextDrawn(r, x, y, text, a), b, e) && NoHalves(e)
    ensures forall row: nat, column: nat ::
              DrawnAt(e, row, column)
              == if row == y && x <= column < x + |text| then Some(Styled(text[column - x], a)) else DrawnAt(d, row, column)
  {
    hide IsOver, NoHalves, SetCell, WellFormed;
    e := d;
    if text != "" {
      var n := |text| - 1;
      e := TextIsOver(r, b, d, x, y, text[..n], a, wide);
      e := Add(TextDrawn(r, x, y, text[..n], a), b, e, x + n, y, Styled(text[n], a), wide);
    }
  }

  lemma TextCellAt(x: nat, y: nat, text: string, a: Attributes, row: nat, column: nat)
    ensures DrawnAt(TextCells(x, y, text, a), row, column)
      == if row == y && x <= column < x + |text| then Some(Styled(text[column - x], a)) else None
  {
  }

  /** Drawn text replaces its cells, blanks what it cuts and touches nothing else. The screen stays well formed exactly
      when no character of it that is on the screen is a double width one. */
  lemma TextExactly(b: Buffer, x: nat, y: nat, text: string, a: Attributes, wide: WideTable)
    requires WellFormed(b, wide) && !wide(' ')
    ensures IsOver(TextDrawn(b, x, y, text, a), b, TextCells(x, y, text, a))
    ensures
      WellFormed(TextDrawn(b, x, y, text, a), wide)
      <==> (y < b.rows ==> forall i :: 0 <= i < |text| && x + i < b.columns ==> !wide(text[i]))
  {
    assert b.Valid();
    hide IsOver, NoHalves, TextDrawn, WellFormed, At, Styled, IsNarrow, TextCells;
    NothingIsOver(b);
    var d := TextIsOver(b, b, map[], x, y, text, a, wide);
    forall row: nat, column: nat ensures DrawnAt(d, row, column) == DrawnAt(TextCells(x, y, text, a), row, column) {
      TextCellAt(x, y, text, a, row, column);
    }
    SameDrawing(d, TextCells(x, y, text, a));
    DrawingKeepsWellFormedIff(TextDrawn(b, x, y, text, a), b, d, wide);
    NarrowText(b, x, y, text, a, wide);
  }

  lemma NarrowText(b: Buffer, x: nat, y: nat, text: string, a: Attributes, wide: WideTable)
    ensures
      IsNarrow(b, TextCells(x, y, text, a), wide)
      <==> (y < b.rows ==> forall i :: 0 <= i < |text| && x + i < b.columns ==> !wide(text[i]))
  {
    var d := TextCells(x, y, text, a);
    if y < b.rows && IsNarrow(b, d, wide) {
      forall i | 0 <= i < |text| && x + i < b.columns ensures !wide(text[i]) {
        assert (y, x + i) in d;
      }
    }
  }

  // ---- Frames ----

  predicate OnFrame(f: Frame, row: nat, column: nat) {
    && f.x <= column < f.x + f.width && f.y <= row < f.y + f.height
    && (row == f.y || row == f.y + f.height - 1 || column == f.x || column == f.x + f.width - 1)
  }

  predicate OnCorner(f: Frame, row: nat, column: nat) {
    && f.width > 0 && f.height > 0
    && (row == f.y || row == f.y + f.height - 1) && (column == f.x || column == f.x + f.width - 1)
  }

  /** The place of a title character on the border, two columns away from either corner. */
  predicate OnTitle(f: Frame, title: string, row: nat, column: nat) {
    row == f.y && f.x + 2 <= column && column + 2 < f.x + f.width && column < f.x + 2 + |title|
  }

  function FrameGlyph(f: Frame, title: string, row: nat, column: nat): char
    requires OnFrame(f, row, column)
  {
    if OnTitle(f, title, row, column) then title[column - f.x - 2]
    else if column == f.x then
      if row == f.y then UPPER_LEFT else if row == f.y + f.height - 1 then LOWER_LEFT else VERTICAL
    else if column == f.x + f.width - 1 then
      if row == f.y then UPPER_RIGHT else if row == f.y + f.height - 1 then LOWER_RIGHT else VERTICAL
    else HORIZONTAL
  }

  /** The border of a frame with the title on it. */
  function FrameCells(f: Frame, title: string, a: Attributes): Drawing {
    map row: nat, column: nat | f.y <= row < f.y + f.height && f.x <= column < f.x + f.width && OnFrame(f, row, column) ::
      (row, column) := Cell(FrameGlyph(f, title, row, column), "", a, None, false, false, false, None)
  }

  lemma {:induction false} EdgesAreOver(r: Buffer, b: Buffer, d: Drawing, f: Frame, n: nat, a: Attributes, wide: WideTable)
    returns (e: Drawing)
    requires r.Valid() && WellFormed(b, wide) && IsOver(r, b, d) && NoHalves(d) && f.height > 0
    ensures IsOver(EdgesDrawn(r, f, n, a), b, e) && NoHalves(e)
    ensures forall row: nat, column: nat ::
              DrawnAt(e, row, column)
              == if (row == f.y || row == f.y + f.height - 1) && f.x < column <= f.x + n then Some(Styled(HORIZONTAL, a))
                 else DrawnAt(d, row, column)
  {
    hide IsOver, NoHalves, SetCell, WellFormed;
    e := d;
    if n > 0 {
      e := EdgesAreOver(r, b, d, f, n - 1, a, wide);
      var before := EdgesDrawn(r, f, n - 1, a);
      e := Add(before, b, e, f.x + n, f.y, Styled(HORIZONTAL, a), wide);
      var above := SetCell(before, f.x + n, f.y, Styled(HORIZONTAL, a));
      e := Add(above, b, e, f.x + n, f.y + f.height - 1, Styled(HORIZONTAL, a), wide);
    }
  }

  lemma {:induction false} SidesAreOver(r: Buffer, b: Buffer, d: Drawing, f: Frame, n: nat, a: Attributes, wide: WideTable)
    returns (e: Drawing)
    requires r.Valid() && WellFormed(b, wide) && IsOver(r, b, d) && NoHalves(d) && f.width > 0
    ensures IsOver(SidesDrawn(r, f, n, a), b, e) && NoHalves(e)
    ensures forall row: nat, column: nat ::
              DrawnAt(e, row, column)
              == if (column == f.x || column == f.x + f.width - 1) && f.y < row <= f.y + n then Some(Styled(VERTICAL, a))
                 else DrawnAt(d, row, column)
  {
    hide IsOver, NoHalves, SetCell, WellFormed;
    e := d;
    if n > 0 {
      e := SidesAreOver(r, b, d, f, n - 1, a, wide);
      var before := SidesDrawn(r, f, n - 1, a);
      e := Add(before, b, e, f.x, f.y + n, Styled(VERTICAL, a), wide);
      var left := SetCell(before, f.x, f.y + n, Styled(VERTICAL, a));
      e := Add(left, b, e, f.x + f.width - 1, f.y + n, Styled(VERTICAL, a), wide);
    }
  }

  lemma CornersAreOver(r: Buffer, b: Buffer, d: Drawing, f: Frame, a: Attributes, wide: WideTable) returns (e: Drawing)
    requires r.Valid() && WellFormed(b, wide) && IsOver(r, b, d) && NoHalves(d) && f.width > 0 && f.height > 0
    requires f.width > 1 && f.height > 1
    ensures forall row: nat, column: nat ::
              DrawnAt(e, row, column)
              == if OnCorner(f, row, column) then Some(Styled(FrameGlyph(f, "", row, column), a)) else DrawnAt(d, row, column)
    ensures IsOver(CornersDrawn(r, f, a), b, e) && NoHalves(e)
  {
    hide IsOver, NoHalves, SetCell, WellFormed;
    var right, bottom := f.x + f.width - 1, f.y + f.height - 1;
    var above := SetCell(r, f.x, f.y, Styled(UPPER_LEFT, a));
    var upper := SetCell(above, right, f.y, Styled(UPPER_RIGHT, a));
    e := Add(r, b, d, f.x, f.y, Styled(UPPER_LEFT, a), wide);
    e := Add(above, b, e, right, f.y, Styled(UPPER_RIGHT, a), wide);
    e := Add(upper, b, e, f.x, bottom, Styled(LOWER_LEFT, a), wide);
    e := Add(SetCell(upper, f.x, bottom, Styled(LOWER_LEFT, a)), b, e, right, bottom, Styled(LOWER_RIGHT, a), wide);
  }

  lemma FrameCellAt(f: Frame, title: string, a: Attributes, row: nat, column: nat)
    ensures DrawnAt(FrameCells(f, title, a), row, column)
      == if OnFrame(f, row, column) then Some(Styled(FrameGlyph(f, title, row, column), a)) else None
  {
    hide FrameGlyph;
  }

  /** Everything `draw_frame` draws. */
  lemma FrameIsOver(b: Buffer, f: Frame, title: string, a: Attributes, wide: WideTable)
    requires b.Valid() && WellFormed(b, wide) && f.width >= 2 && f.height >= 2
    ensures IsOver(FrameDrawn(b, f, title, a), b, FrameCells(f, title, a)) && NoHalves(FrameCells(f, title, a))
  {
    hide IsOver, NoHalves, WellFormed, TextDrawn, CornersDrawn, SidesDrawn, EdgesDrawn, Styled, FrameCells;
    NothingIsOver(b);
    var edges := EdgesDrawn(b, f, f.width - 2, a);
    var sides := SidesDrawn(edges, f, f.height - 2, a);
    var d1 := EdgesAreOver(b, b, map[], f, f.width - 2, a, wide);
    var d2 := SidesAreOver(edges, b, d1, f, f.height - 2, a, wide);
    var d3 := CornersAreOver(sides, b, d2, f, a, wide);
    var d4 := TextIsOver(CornersDrawn(sides, f, a), b, d3, f.x + 2, f.y, ShownTitle(f, title), a, wide);
    forall row: nat, column: nat
      ensures DrawnAt(d4, row, column) == DrawnAt(FrameCells(f, title, a), row, column)
    {
      FrameCellAt(f, title, a, row, column);
    }
    SameDrawing(d4, FrameCells(f, title, a));
  }

  predicate BorderIsNarrow(wide: WideTable) {
    !wide(HORIZONTAL) && !wide(VERTICAL)
    && !wide(UPPER_LEFT) && !wide(UPPER_RIGHT) && !wide(LOWER_LEFT) && !wide(LOWER_RIGHT)
  }

  /** No double width character is among those of the title that have room between the corners and lie on the screen. */
  predicate TitleIsNarrow(b: Buffer, f: Frame, title: string, wide: WideTable) {
    f.width >= 2 && f.height >= 2 && f.y < b.rows ==>
      forall i :: 0 <= i < |title| && i + 4 < f.width && f.x + 2 + i < b.columns ==> !wide(title[i])
  }

  lemma FrameIsNarrow(b: Buffer, f: Frame, title: string, a: Attributes, wide: WideTable)
    requires BorderIsNarrow(wide) && f.width >= 2 && f.height >= 2
    ensures IsNarrow(b, FrameCells(f, title, a), wide) <==> TitleIsNarrow(b, f, title, wide)
  {
    var d := FrameCells(f, title, a);
    if IsNarrow(b, d, wide) && f.y < b.rows {
      forall i | 0 <= i < |title| && i + 4 < f.width && f.x + 2 + i < b.columns ensures !wide(title[i]) {
        assert (f.y, f.x + 2 + i) in d;
      }
    }
  }

  /** A frame replaces the cells of its border, blanks what it cuts and touches nothing else. The screen stays well formed
      exactly when its title is narrow. */
  lemma FrameExactly(b: Buffer, f: Frame, title: string, a: Attributes, wide: WideTable)
    requires b.Valid() && WellFormed(b, wide) && !wide(' ') && BorderIsNarrow(wide)
    ensures
      if f.width >= 2 && f.height >= 2 then IsOver(FrameDrawn(b, f, title, a), b, FrameCells(f, title, a))
      else FrameDrawn(b, f, title, a) == b
    ensures WellFormed(FrameDrawn(b, f, title, a), wide) <==> TitleIsNarrow(b, f, title, wide)
  {
    hide IsOver, NoHalves, WellFormed, FrameCells, IsNarrow, BorderIsNarrow;
    if f.width >= 2 && f.height >= 2 {
      FrameIsOver(b, f, title, a, wide);
      DrawingKeepsWellFormedIff(FrameDrawn(b, f, title, a), b, FrameCells(f, title, a), wide);
      FrameIsNarrow(b, f, title, a, wide);
    }
  }

  /** Once a frame is drawn, the repaint makes the terminal show the screen exactly when the title is narrow. */
  lemma FramedScreenIsShownIff(t: Terminal, previous: Option<Buffer>, b: Buffer, f: Frame, title: string, a: Attributes,
                               forceFull: bool, wide: WideTable)
    requires b.Valid() && WellFormed(b, wide) && !wide(' ') && BorderIsNarrow(wide) && (previous.Some? ==> previous.value.Valid())
    requires Begins(t, previous, FrameDrawn(b, f, title, a), forceFull, wide)
    ensures
      var framed := FrameDrawn(b, f, title, a);
      Shows(ExecAll(t, Diff(previous, framed, forceFull), wide), framed) <==> TitleIsNarrow(b, f, title, wide)
  {
    hide WellFormed, Begins, Shows, Diff, ExecAll, FrameDrawn, TitleIsNarrow;
    FrameExactly(b, f, title, a, wide);
    DiffShowsIffWellFormed(t, previous, FrameDrawn(b, f, title, a), forceFull, wide);
  }

  /** A frame of eight by two cells with one double width character as its title, on a blank screen: whatever is sent to a
      terminal, it never shows the screen. With a narrow character in its place a full repaint does. */
  lemma WideTitleIsNeverShown(t: Terminal, tokens: seq<Token>, title: char, a: Attributes, wide: WideTable)
    requires !wide(' ') && BorderIsNarrow(wide) && Sane(t, wide) && HasSize(t, 2, 8) && !t.lost
    ensures
      var framed := FrameDrawn(Buffer(2, 8, seq(16, i => BLANK), None), Frame(0, 0, 8, 2), [title], a);
      if wide(title) then !Shows(ExecAll(t, tokens, wide), framed)
      else Shows(ExecAll(t, Diff(None, framed, true), wide), framed)
  {
    hide Sane, Shows, Diff, ExecAll, FrameDrawn, BorderIsNarrow, HasSize, Paintable;
    var b, f := Buffer(2, 8, seq(16, i => BLANK), None), Frame(0, 0, 8, 2);
    assert WellFormed(b, wide);
    FrameExactly(b, f, [title], a, wide);
    var framed := FrameDrawn(b, f, [title], a);
    if wide(title) {
      assert !wide([title][0]) <==> false;
      ExecAllKeepsSane(t, tokens, wide);
      if Shows(ExecAll(t, tokens, wide), framed) {
        ShownIsWellFormed(ExecAll(t, tokens, wide), framed, wide);
      }
    } else {
      DiffShowsIffWellFormed(t, None, framed, true, wide);
    }
  }
}
