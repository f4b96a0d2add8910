/** Where panes end up on the screen when one is split or closed and when a border moves (src/layout.rs:442-500, 571-688). */
module LayoutGeometry {
  import opened Wrappers
  import opened FixedWidth
  import opened Layout

  /** The left or upper half of a rectangle; the other half is one cell larger when they cannot be equal. */
  function FirstHalf(r: Rect, axis: Axis): Rect {
    match axis
    case Vertical => r.(width := r.width / 2)
    case Horizontal => r.(height := r.height / 2)
  }

  function SecondHalf(r: Rect, axis: Axis): Rect
    requires InRange(r)
  {
    match axis
    case Vertical => r.(x := r.x + r.width / 2, width := r.width - r.width / 2)
    case Horizontal => r.(y := r.y + r.height / 2, height := r.height - r.height / 2)
  }

  lemma EvenAreas(area: Rect, axis: Axis)
    requires Size(area, axis) >= 2 && InRange(area)
    ensures SplitAreas(area, axis, 1, 1) == (FirstHalf(area, axis), SecondHalf(area, axis))
  {
    var size := Size(area, axis);
    FirstSizeIs(size, 1, 1);
    assert (size as int * 1) / 2 == (size / 2) as int;
  }

  lemma {:induction false} GeometryInRange(tree: TiledNode, area: Rect, pane: PaneId)
    requires BoundedWeights(tree) && InRange(area) && Fits(tree, area) && pane in Geometry(tree, area)
    ensures InRange(Geometry(tree, area)[pane])
  {
    if tree.Split? {
      hide FirstSize, Has, SplitAreas;
      AreasAgree(area, tree.axis, tree.firstWeight, tree.secondWeight);
      var (firstArea, secondArea) := SplitAreas(area, tree.axis, tree.firstWeight, tree.secondWeight);
      if pane in Geometry(tree.second, secondArea) {
        GeometryInRange(tree.second, secondArea, pane);
      } else {
        GeometryInRange(tree.first, firstArea, pane);
      }
    }
  }

  /** A split cuts the focused pane's rectangle in two halves along the axis; the pane keeps the left or upper one, the new
      pane gets the other, and nothing else on the screen moves. */
  lemma {:induction false} SplitGeometry(tree: TiledNode, area: Rect, target: PaneId, newPane: PaneId, axis: Axis)
    requires BoundedWeights(tree) && InRange(area) && Contains(tree, target) && Distinct(PaneIds(tree))
    requires HasRoom(tree, area, target, axis) && !Contains(tree, newPane)
    ensures InRange(Geometry(tree, area)[target])
    ensures Fits(ReplaceLeaf(tree, target, newPane, axis).0, area)
    ensures
      var before := Geometry(tree, area);
      Geometry(ReplaceLeaf(tree, target, newPane, axis).0, area)
      == before[target := FirstHalf(before[target], axis)][newPane := SecondHalf(before[target], axis)]
  {
    GeometryInRange(tree, area, target);
    SplitFits(tree, area, target, newPane, axis);
    match tree
    case Leaf(_) => EvenAreas(area, axis);
    case Split(treeAxis, first, second, a, b) =>
      hide FirstSize, Has, Distinct, SplitAreas, FirstHalf, SecondHalf;
      DistinctHalves(PaneIds(first), PaneIds(second));
      ContainsIsMembership(first, target);
      ContainsIsMembership(second, target);
      ContainsIsMembership(first, newPane);
      ContainsIsMembership(second, newPane);
      AreasAgree(area, treeAxis, a, b);
      var (firstArea, secondArea) := SplitAreas(area, treeAxis, a, b);
      GeometryKeys(first, firstArea);
      GeometryKeys(second, secondArea);
      var f, s := Geometry(first, firstArea), Geometry(second, secondArea);
      if Contains(first, target) {
        SplitGeometry(first, firstArea, target, newPane, axis);
        UpdateLeft(f, s, target, FirstHalf(f[target], axis), newPane, SecondHalf(f[target], axis));
      } else {
        SplitGeometry(second, secondArea, target, newPane, axis);
        UpdateRight(f, s, target, FirstHalf(s[target], axis), newPane, SecondHalf(s[target], axis));
      }
  }

  lemma UpdateLeft(f: map<PaneId, Rect>, s: map<PaneId, Rect>, p: PaneId, r: Rect, q: PaneId, t: Rect)
    requires p !in s && q !in s
    ensures f[p := r][q := t] + s == (f + s)[p := r][q := t]
  {
  }

  lemma UpdateRight(f: map<PaneId, Rect>, s: map<PaneId, Rect>, p: PaneId, r: Rect, q: PaneId, t: Rect)
    ensures f + s[p := r][q := t] == (f + s)[p := r][q := t]
  {
  }

  /** The frame takes one cell on each side: a cell is inside it exactly when both its diagonal neighbours are the pane's. */
  lemma ContentExactly(r: Rect, x: int, y: int)
    requires InRange(r) && Large(r)
    ensures Has(Content(r), x, y) <==> Has(r, x - 1, y - 1) && Has(r, x + 1, y + 1)
  {
  }

  // ---- Closing ----

  /** The split of which a pane is one side, by its position. */
  ghost function ParentPath(tree: TiledNode, pane: PaneId): (path: Path)
    requires tree.Split? && Contains(tree, pane)
    ensures ValidPath(tree, path) && NodeAt(tree, path).Split?
    ensures NodeAt(tree, path).first == Leaf(pane) || NodeAt(tree, path).second == Leaf(pane)
  {
    var inFirst := Contains(tree.first, pane);
    if Child(tree, inFirst).Leaf? then
      assert Contains(Child(tree, inFirst), pane) && NodeAt(tree, []) == tree;
      []
    else
      var below := ParentPath(Child(tree, inFirst), pane);
      assert ([inFirst] + below)[0] == inFirst && ([inFirst] + below)[1..] == below;
      [inFirst] + below
  }

  /** The other side of that split. */
  ghost function Sibling(tree: TiledNode, pane: PaneId): TiledNode
    requires tree.Split? && Contains(tree, pane)
  {
    var parent := NodeAt(tree, ParentPath(tree, pane));
    if parent.first == Leaf(pane) then parent.second else parent.first
  }

  lemma {:induction false} ClosedNothing(tree: TiledNode, pane: PaneId)
    requires !Contains(tree, pane)
    ensures Close(tree, pane) == Some(tree)
  {
    if tree.Split? {
      ClosedNothing(tree.first, pane);
      ClosedNothing(tree.second, pane);
    }
  }

  lemma {:induction false} SiblingFits(tree: TiledNode, area: Rect, pane: PaneId)
    requires tree.Split? && Contains(tree, pane)
    requires BoundedWeights(tree) && InRange(area) && Fits(tree, area)
    ensures
      var at := AreaAt(tree, ParentPath(tree, pane), area);
      InRange(at) && BoundedWeights(Sibling(tree, pane)) && Fits(Sibling(tree, pane), at)
  {
    hide FirstSize, Has;
    var inFirst := Contains(tree.first, pane);
    var child, childArea := Child(tree, inFirst), ChildArea(tree, inFirst, area);
    if child.Leaf? {
      var other := Child(tree, !inFirst);
      SidesAreSmaller(area, tree.axis, tree.firstWeight, tree.secondWeight);
      FitsLarger(tree.first, ChildArea(tree, true, area), area);
      FitsLarger(tree.second, ChildArea(tree, false, area), area);
    } else {
      SiblingFits(child, childArea, pane);
      PathInChild(tree, inFirst, ParentPath(child, pane), area);
    }
  }

  /** When a pane closes, the other side of its split takes over the rectangle of both, and nothing else on the screen
      moves. */
  lemma {:induction false} CloseGeometry(tree: TiledNode, area: Rect, pane: PaneId)
    requires tree.Split? && Contains(tree, pane) && Distinct(PaneIds(tree))
    requires BoundedWeights(tree) && InRange(area) && Fits(tree, area)
    ensures
      var at := AreaAt(tree, ParentPath(tree, pane), area);
      InRange(at) && BoundedWeights(Sibling(tree, pane)) && Fits(Sibling(tree, pane), at)
    ensures Close(tree, pane).Some? && BoundedWeights(Close(tree, pane).value) && Fits(Close(tree, pane).value, area)
    ensures
      Geometry(Close(tree, pane).value, area)
      == Geometry(tree, area) - {pane} + Geometry(Sibling(tree, pane), AreaAt(tree, ParentPath(tree, pane), area))
  {
    hide FirstSize, Has, Distinct, SplitAreas;
    SiblingFits(tree, area, pane);
    CloseFits(tree, area, pane);
    DistinctHalves(PaneIds(tree.first), PaneIds(tree.second));
    ContainsIsMembership(tree.first, pane);
    ContainsIsMembership(tree.second, pane);
    var inFirst := Contains(tree.first, pane);
    ClosedNothing(Child(tree, !inFirst), pane);
    var child, childArea := Child(tree, inFirst), ChildArea(tree, inFirst, area);
    AreasAgree(area, tree.axis, tree.firstWeight, tree.secondWeight);
    GeometryKeys(tree.first, ChildArea(tree, true, area));
    GeometryKeys(tree.second, ChildArea(tree, false, area));
    var f, s := Geometry(tree.first, ChildArea(tree, true, area)), Geometry(tree.second, ChildArea(tree, false, area));
    assert Geometry(tree, area) == f + s;
    if child.Leaf? {
      var other := Child(tree, !inFirst);
      assert Close(tree, pane) == Some(other);
      GeometryKeys(other, area);
      assert Geometry(other, area) == f + s - {pane} + Geometry(other, area);
    } else {
      CloseGeometry(child, childArea, pane);
      PathInChild(tree, inFirst, ParentPath(child, pane), area);
      var taken := Geometry(Sibling(child, pane), AreaAt(child, ParentPath(child, pane), childArea));
      SiblingInside(child, pane);
      GeometryKeys(Sibling(child, pane), AreaAt(child, ParentPath(child, pane), childArea));
      if inFirst {
        assert Geometry(Close(tree, pane).value, area) == f - {pane} + taken + s;
        CloseLeft(f, s, pane, taken);
      } else {
        assert Geometry(Close(tree, pane).value, area) == f + (s - {pane} + taken);
        CloseRight(f, s, pane, taken);
      }
    }
  }

  lemma CloseLeft(f: map<PaneId, Rect>, s: map<PaneId, Rect>, p: PaneId, taken: map<PaneId, Rect>)
    requires p !in s && forall q :: q in taken ==> q in f && q !in s
    ensures f - {p} + taken + s == f + s - {p} + taken
  {
  }

  lemma CloseRight(f: map<PaneId, Rect>, s: map<PaneId, Rect>, p: PaneId, taken: map<PaneId, Rect>)
    requires p !in f
    ensures f + (s - {p} + taken) == f + s - {p} + taken
  {
  }

  lemma {:induction false} SiblingInside(tree: TiledNode, pane: PaneId)
    requires tree.Split? && Contains(tree, pane)
    ensures forall p :: p in PaneIds(Sibling(tree, pane)) ==> p in PaneIds(tree)
  {
    var inFirst := Contains(tree.first, pane);
    if Child(tree, inFirst).Split? {
      SiblingInside(Child(tree, inFirst), pane);
      var below := ParentPath(Child(tree, inFirst), pane);
      assert ([inFirst] + below)[0] == inFirst && ([inFirst] + below)[1..] == below;
    }
  }

  // ---- Resizing ----

  /** One cell in a direction, in screen coordinates. */
  function Ahead(direction: Direction): (int, int) {
    match direction
    case Left => (-1, 0)
    case Right => (1, 0)
    case Up => (0, -1)
    case Down => (0, 1)
  }

  /** Six columns or four rows, frame included. */
  function Least(axis: Axis): int {
    if axis.Vertical? then 6 else 4
  }

  /** A border that the direction crosses, seen from the focused side; the move leaves both sides large enough. */
  predicate CanShift(area: Rect, axis: Axis, a: u32, b: u32, inFirst: bool, direction: Direction)
    requires Size(area, axis) >= 2 && InRange(area) && a <= MAX_WEIGHT && b <= MAX_WEIGHT
  {
    var (dx, dy) := Ahead(direction);
    var sides := SplitAreas(area, axis, a, b);
    && (if axis.Vertical? then dy == 0 else dx == 0)
    && inFirst == (dx + dy > 0)
    && Size(sides.0, axis) as int + dx + dy >= Least(axis) && Size(sides.1, axis) as int - (dx + dy) >= Least(axis)
  }

  /** A border moves exactly when it can, and then by one cell in the direction of the key, away from the focused pane. */
  lemma BorderMoves(area: Rect, axis: Axis, a: u32, b: u32, inFirst: bool, direction: Direction)
    requires Size(area, axis) >= 2 && InRange(area) && a <= MAX_WEIGHT && b <= MAX_WEIGHT
    ensures MovedSize(area, axis, a, b, inFirst, direction).Some? <==> CanShift(area, axis, a, b, inFirst, direction)
    ensures
      MovedSize(area, axis, a, b, inFirst, direction).Some? ==>
        var next := MovedSize(area, axis, a, b, inFirst, direction).value;
        && next <= Size(area, axis) && next as u32 <= MAX_WEIGHT && (Size(area, axis) - next) as u32 <= MAX_WEIGHT
        && var before, after := SplitAreas(area, axis, a, b), SplitAreas(area, axis, next as u32, (Size(area, axis) - next) as u32);
           && after.0.x == before.0.x == area.x && after.0.y == before.0.y == area.y
           && after.1.x as int == before.1.x as int + Ahead(direction).0
           && after.1.y as int == before.1.y as int + Ahead(direction).1
  {
    if MovedSize(area, axis, a, b, inFirst, direction).Some? {
      MovedBorder(area, axis, a, b, inFirst, direction);
    }
    hide FirstSize;
  }
}
