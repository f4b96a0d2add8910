/** Where a resize loses the layout (src/layout.rs:442-467, 588-647). The check in `resize_inner` looks at the two sides
    of the moved border only, so splits inside a side can run out of cells. Six panes in a row on a 200 by 24 terminal
    are split legally and then resized legally into a tree that can no longer be placed. */
module LayoutLimits {
  import opened Wrappers
  import opened FixedWidth
  import opened Layout
  import Arithmetic

  function Pow2(n: nat): (p: nat)
    ensures p >= 1
  {
    if n == 0 then 1 else 2 * Pow2(n - 1)
  }

  /** A row of `splits + 1` panes, each new one made by splitting the last pane evenly. */
  function Row(pane: PaneId, splits: nat): TiledNode
    decreases splits
  {
    if splits == 0 then Leaf(pane) else Split(Vertical, Leaf(pane), Row(pane + 1, splits - 1), 1, 1)
  }

  lemma {:induction false} RowIsBounded(pane: PaneId, splits: nat)
    ensures BoundedWeights(Row(pane, splits))
    ensures |PaneIds(Row(pane, splits))| == splits + 1
    ensures forall i :: 0 <= i <= splits ==> PaneIds(Row(pane, splits))[i] == pane + i
    ensures forall p :: p in PaneIds(Row(pane, splits)) <==> pane <= p <= pane + splits
    ensures Distinct(PaneIds(Row(pane, splits)))
    ensures forall p: PaneId :: Contains(Row(pane, splits), p) <==> pane <= p <= pane + splits
    decreases splits
  {
    if splits > 0 {
      RowIsBounded(pane + 1, splits - 1);
      var panes := PaneIds(Row(pane, splits));
      assert panes == [pane] + PaneIds(Row(pane + 1, splits - 1));
      assert forall i :: 0 < i <= splits ==> panes[i] == PaneIds(Row(pane + 1, splits - 1))[i - 1];
    }
  }

  lemma EvenShare(size: u16)
    requires size >= 2
    ensures FirstSize(size, 1, 1) == size / 2
  {
  }

  /** A row fits exactly when its width exceeds a power of two: every split halves what is left. */
  lemma {:induction false} RowFits(pane: PaneId, splits: nat, area: Rect)
    requires InRange(area)
    requires BoundedWeights(Row(pane, splits))
    ensures Fits(Row(pane, splits), area) <==> splits == 0 || area.width as nat > Pow2(splits - 1)
    decreases splits
  {
    if splits > 0 && area.width >= 2 {
      hide FirstSize;
      EvenShare(area.width);
      RowFits(pane + 1, splits - 1, SplitAreas(area, Vertical, 1, 1).1);
    }
  }

  /** On a row of halvings with six columns for the narrowest pane no pane is too small. */
  lemma {:induction false} RowIsRoomy(pane: PaneId, splits: nat, area: Rect)
    requires InRange(area) && BoundedWeights(Row(pane, splits))
    requires area.width as nat >= 6 * Pow2(splits) && area.height >= 4
    ensures Fits(Row(pane, splits), area)
    ensures forall p :: p in Geometry(Row(pane, splits), area) <==> pane <= p <= pane + splits
    ensures forall p :: p in Geometry(Row(pane, splits), area) ==>
                          !TooSmall(Geometry(Row(pane, splits), area)[p]) && Geometry(Row(pane, splits), area)[p].width >= 6
    decreases splits
  {
    RowIsBounded(pane, splits);
    if splits > 0 {
      hide FirstSize;
      EvenShare(area.width);
      var sides := SplitAreas(area, Vertical, 1, 1);
      RowIsRoomy(pane + 1, splits - 1, sides.1);
      assert sides.0.width as nat >= 6;
    }
  }

  lemma {:induction false} RowGrows(pane: PaneId, splits: nat, newPane: PaneId)
    requires newPane == pane + splits + 1
    ensures ReplaceLeaf(Row(pane, splits), pane + splits, newPane, Vertical) == (Row(pane, splits + 1), true)
    decreases splits
  {
    if splits > 0 {
      RowGrows(pane + 1, splits - 1, newPane);
    }
  }

  const TERMINAL := Rect(0, 0, 200, 24)

  /** The first five splits are accepted: each is possible and leaves no pane too small. */
  lemma SplitsAreAccepted(splits: nat)
    requires splits < 5
    ensures Contains(Row(1, splits), 1 + splits) && BoundedWeights(Row(1, splits))
    ensures HasRoom(Row(1, splits), TERMINAL, 1 + splits, Vertical)
    ensures
      var candidate := ReplaceLeaf(Row(1, splits), 1 + splits, 2 + splits, Vertical).0;
      && candidate == Row(1, splits + 1) && BoundedWeights(candidate) && Fits(candidate, TERMINAL)
      && !SomeTooSmall(Geometry(candidate, TERMINAL))
  {
    hide Fits, Geometry, TooSmall;
    RowIsBounded(1, splits);
    RowIsBounded(1, splits + 1);
    RowGrows(1, splits, 2 + splits);
    PowersOfTwo(splits);
    RowIsRoomy(1, splits, TERMINAL);
    RowIsRoomy(1, splits + 1, TERMINAL);
  }

  lemma PowersOfTwo(splits: nat)
    requires splits < 5
    ensures Pow2(splits) <= 16 && Pow2(splits + 1) <= 32 && 6 * Pow2(splits + 1) <= 200
    ensures Pow2(3) == 8
  {
    assert Pow2(1) == 2 && Pow2(2) == 4 && Pow2(3) == 8 && Pow2(4) == 16 && Pow2(5) == 32;
  }

  /** The row of six after `presses` times Right on its first pane. */
  function Pressed(presses: nat): TiledNode
    requires presses < 100
  {
    if presses == 0 then Row(1, 5)
    else Split(Vertical, Leaf(1), Row(2, 4), (100 + presses) as u32, (100 - presses) as u32)
  }

  lemma PressedSides(presses: nat)
    requires presses < 100
    ensures BoundedWeights(Pressed(presses))
    ensures Pressed(presses) == Split(Vertical, Leaf(1), Row(2, 4), Pressed(presses).firstWeight, Pressed(presses).secondWeight)
    ensures FirstSize(200, Pressed(presses).firstWeight, Pressed(presses).secondWeight) == (100 + presses) as u16
  {
    RowIsBounded(2, 4);
    if presses > 0 {
      Arithmetic.DivExact(100 + presses, 200);
    }
  }

  /** Up to 91 presses the row fits. Each of them, and the next, is reported as a change; after the 92nd the five right
      panes share eight columns, the innermost split has a single one, and the tree fits the terminal no more. */
  lemma ResizeLosesTheLayout(presses: nat)
    requires presses <= 91
    ensures BoundedWeights(Pressed(presses)) && Fits(Pressed(presses), TERMINAL)
    ensures ResizeInner(Pressed(presses), 1, Right, TERMINAL) == Resized(Pressed(presses + 1), true, true)
    ensures BoundedWeights(Pressed(92)) && !Fits(Pressed(92), TERMINAL)
  {
    PressedFits(presses);
    PressedFits(92);
    PressedMoves(presses);
  }

  lemma PressedFits(presses: nat)
    requires presses <= 92
    ensures BoundedWeights(Pressed(presses))
    ensures Fits(Pressed(presses), TERMINAL) <==> presses <= 91
  {
    hide FirstSize;
    PressedSides(presses);
    PowersOfTwo(0);
    RowIsBounded(2, 4);
    RowFits(2, 4, SplitAreas(TERMINAL, Vertical, Pressed(presses).firstWeight, Pressed(presses).secondWeight).1);
  }

  lemma PressedMoves(presses: nat)
    requires presses <= 91 && BoundedWeights(Pressed(presses)) && Fits(Pressed(presses), TERMINAL)
    ensures ResizeInner(Pressed(presses), 1, Right, TERMINAL) == Resized(Pressed(presses + 1), true, true)
  {
    hide FirstSize, Fits, Row;
    PressedSides(presses);
    FirstPaneGrows(Row(2, 4), Pressed(presses).firstWeight, Pressed(presses).secondWeight);
  }

  /** Right on the first pane of a root split takes one column from the rest while six remain on both sides. */
  lemma FirstPaneGrows(rest: TiledNode, a: u32, b: u32)
    requires BoundedWeights(Split(Vertical, Leaf(1), rest, a, b)) && Fits(Split(Vertical, Leaf(1), rest, a, b), TERMINAL)
    ensures
      var columns := FirstSize(200, a, b);
      5 <= columns < 194 ==>
        ResizeInner(Split(Vertical, Leaf(1), rest, a, b), 1, Right, TERMINAL)
        == Resized(Split(Vertical, Leaf(1), rest, (columns + 1) as u32, (200 - columns - 1) as u32), true, true)
  {
    hide FirstSize;
  }
}
