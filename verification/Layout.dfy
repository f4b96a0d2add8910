/** The tiled pane tree (src/layout.rs): weighted splits that tile an area, and the three operations
    that change the tree. */
module Layout {
  import opened Wrappers
  import opened FixedWidth
  import Arithmetic

  type PaneId = nat

  datatype Axis = Vertical | Horizontal

  datatype Direction = Left | Right | Up | Down

  datatype Rect = Rect(x: u16, y: u16, width: u16, height: u16)

  datatype TiledNode =
    | Leaf(pane: PaneId)
    | Split(axis: Axis, first: TiledNode, second: TiledNode, firstWeight: u32, secondWeight: u32)

  const MIN_CONTENT_COLUMNS: u16 := 4
  const MIN_CONTENT_ROWS: u16 := 2
  const FRAME_COLUMNS: u16 := 2
  const FRAME_ROWS: u16 := 2

  function SaturatingSub(a: u16, b: u16): u16 { if b <= a then a - b else 0 }

  function SaturatingAdd(a: u16, b: u16): u16 {
    if a as int + b as int <= U16_MAX then a + b else U16_MAX as u16
  }

  function SaturatingAdd32(a: u32, b: u32): u32 {
    if a as int + b as int <= U32_MAX then a + b else U32_MAX as u32
  }

  /** The rectangle inside the frame. */
  function Content(r: Rect): Rect {
    Rect(SaturatingAdd(r.x, 1), SaturatingAdd(r.y, 1), SaturatingSub(r.width, FRAME_COLUMNS), SaturatingSub(r.height, FRAME_ROWS))
  }

  predicate TooSmall(r: Rect) {
    Content(r).width < MIN_CONTENT_COLUMNS || Content(r).height < MIN_CONTENT_ROWS
  }

  // ---- Sizes ----

  function Size(area: Rect, axis: Axis): u16 {
    match axis
    case Vertical => area.width
    case Horizontal => area.height
  }

  /** The coordinates of an area stay in range. */
  predicate InRange(area: Rect) {
    area.x as int + area.width as int <= U16_MAX && area.y as int + area.height as int <= U16_MAX
  }

  const MAX_WEIGHT: u32 := 0xffff

  predicate BoundedWeights(tree: TiledNode) {
    match tree
    case Leaf(_) => true
    case Split(_, first, second, a, b) =>
      1 <= a <= MAX_WEIGHT && 1 <= b <= MAX_WEIGHT && BoundedWeights(first) && BoundedWeights(second)
  }

  lemma ProductFits(size: nat, weight: nat)
    requires size <= U16_MAX && weight <= MAX_WEIGHT as nat
    ensures 0 <= size * weight <= U32_MAX
  {
    Arithmetic.ProductBound(size, weight, U16_MAX, MAX_WEIGHT as nat);
  }

  /** The share of `size` cells that goes to the first child: proportional, but at least one cell for
      each side. `clamp` needs `size` to be at least two. The product does not overflow. */
  function FirstSize(size: u16, firstWeight: u32, secondWeight: u32): (r: u16)
    requires size >= 2 && firstWeight <= MAX_WEIGHT && secondWeight <= MAX_WEIGHT
    ensures 1 <= r < size
  {
    var sum := SaturatingAdd32(firstWeight, secondWeight);
    var total := if sum < 1 then 1 else sum;
    ProductFits(size as nat, firstWeight as nat);
    var share := (size as u32 * firstWeight) / total;
    if share < 1 then 1
    else if share > size as u32 - 1 then size - 1
    else share as u16
  }

  /** `split_areas`, used while resizing. */
  function SplitAreas(area: Rect, axis: Axis, firstWeight: u32, secondWeight: u32): (r: (Rect, Rect))
    requires Size(area, axis) >= 2 && InRange(area)
    requires firstWeight <= MAX_WEIGHT && secondWeight <= MAX_WEIGHT
    ensures InRange(r.0) && InRange(r.1)
  {
    var size := FirstSize(Size(area, axis), firstWeight, secondWeight);
    match axis
    case Vertical => (area.(width := size), area.(x := area.x + size, width := area.width - size))
    case Horizontal => (area.(height := size), area.(y := area.y + size, height := area.height - size))
  }

  /** The two areas as `place` computes them, with saturating arithmetic. */
  function PlacedAreas(area: Rect, axis: Axis, firstWeight: u32, secondWeight: u32): (Rect, Rect)
    requires Size(area, axis) >= 2 && firstWeight <= MAX_WEIGHT && secondWeight <= MAX_WEIGHT
  {
    var size := FirstSize(Size(area, axis), firstWeight, secondWeight);
    match axis
    case Vertical =>
      (area.(width := size), area.(x := SaturatingAdd(area.x, size), width := SaturatingSub(area.width, size)))
    case Horizontal =>
      (area.(height := size), area.(y := SaturatingAdd(area.y, size), height := SaturatingSub(area.height, size)))
  }

  ghost predicate Has(r: Rect, x: int, y: int) {
    r.x as int <= x < r.x as int + r.width as int && r.y as int <= y < r.y as int + r.height as int
  }

  ghost predicate NonEmpty(r: Rect) {
    r.width > 0 && r.height > 0
  }

  /** Resizing and placing see the same rectangles, and they cut the area in two. */
  lemma AreasAgree(area: Rect, axis: Axis, firstWeight: u32, secondWeight: u32)
    requires Size(area, axis) >= 2 && InRange(area)
    requires firstWeight <= MAX_WEIGHT && secondWeight <= MAX_WEIGHT
    ensures
      var (first, second) := SplitAreas(area, axis, firstWeight, secondWeight);
      && PlacedAreas(area, axis, firstWeight, secondWeight) == (first, second)
      && InRange(first) && InRange(second)
      && (NonEmpty(area) ==> NonEmpty(first) && NonEmpty(second))
      && forall x, y :: (Has(area, x, y) <==> Has(first, x, y) || Has(second, x, y)) && !(Has(first, x, y) && Has(second, x, y))
  {
    hide FirstSize;
  }

  /** Every split gets at least two cells on its axis. */
  ghost predicate Fits(tree: TiledNode, area: Rect)
    requires BoundedWeights(tree) && InRange(area)
  {
    match tree
    case Leaf(_) => true
    case Split(axis, first, second, a, b) =>
      Size(area, axis) >= 2 &&
      (AreasAgree(area, axis, a, b);
       var (firstArea, secondArea) := SplitAreas(area, axis, a, b);
       Fits(first, firstArea) && Fits(second, secondArea))
  }

  // ---- Panes ----

  /** The panes from left to right and top to bottom. */
  function PaneIds(tree: TiledNode): seq<PaneId> {
    match tree
    case Leaf(pane) => [pane]
    case Split(_, first, second, _, _) => PaneIds(first) + PaneIds(second)
  }

  predicate Contains(tree: TiledNode, pane: PaneId) {
    match tree
    case Leaf(id) => id == pane
    case Split(_, first, second, _, _) => Contains(first, pane) || Contains(second, pane)
  }

  lemma {:induction false} ContainsIsMembership(tree: TiledNode, pane: PaneId)
    ensures Contains(tree, pane) <==> pane in PaneIds(tree)
  {
    if tree.Split? {
      ContainsIsMembership(tree.first, pane);
      ContainsIsMembership(tree.second, pane);
    }
  }

  ghost predicate Distinct(panes: seq<PaneId>) {
    forall i, j :: 0 <= i < j < |panes| ==> panes[i] != panes[j]
  }

  // ---- Geometry ----

  ghost function Geometry(tree: TiledNode, area: Rect): map<PaneId, Rect>
    requires BoundedWeights(tree) && InRange(area) && Fits(tree, area)
  {
    match tree
    case Leaf(pane) => map[pane := area]
    case Split(axis, first, second, a, b) =>
      AreasAgree(area, axis, a, b);
      var (firstArea, secondArea) := SplitAreas(area, axis, a, b);
      Geometry(first, firstArea) + Geometry(second, secondArea)
  }

  /** One nonempty rectangle per pane, and every point of the area in exactly one of them. */
  ghost predicate Tiles(geometry: map<PaneId, Rect>, panes: seq<PaneId>, area: Rect) {
    && (forall p :: p in geometry <==> p in panes)
    && (forall p :: p in geometry ==> NonEmpty(geometry[p]) && InRange(geometry[p]))
    && (forall p, x, y :: p in geometry && Has(geometry[p], x, y) ==> Has(area, x, y))
    && (forall x, y :: Has(area, x, y) ==> exists p :: p in geometry && Has(geometry[p], x, y))
    && (forall p, q, x, y :: p in geometry && q in geometry && Has(geometry[p], x, y) && Has(geometry[q], x, y) ==> p == q)
  }

  lemma TilesJoin(g: map<PaneId, Rect>, h: map<PaneId, Rect>, gPanes: seq<PaneId>, hPanes: seq<PaneId>,
                  gArea: Rect, hArea: Rect, area: Rect)
    requires Tiles(g, gPanes, gArea) && Tiles(h, hPanes, hArea)
    requires forall p :: !(p in gPanes && p in hPanes)
    requires forall x, y :: (Has(area, x, y) <==> Has(gArea, x, y) || Has(hArea, x, y)) && !(Has(gArea, x, y) && Has(hArea, x, y))
    ensures Tiles(g + h, gPanes + hPanes, area)
  {
    hide Has;
    var both := g + h;
    forall p | p in g
      ensures p in both && both[p] == g[p]
    {
      assert p in gPanes;
    }
    forall p, x, y | p in both && Has(both[p], x, y)
      ensures Has(area, x, y)
      ensures if p in g then Has(g[p], x, y) && Has(gArea, x, y) else Has(h[p], x, y) && Has(hArea, x, y)
    {
      assert both[p] == if p in g then g[p] else h[p];
    }
    forall p | p in both
      ensures NonEmpty(both[p]) && InRange(both[p])
    {
      assert both[p] == if p in g then g[p] else h[p];
    }
    forall x, y | Has(area, x, y)
      ensures exists p :: p in both && Has(both[p], x, y)
    {
      if Has(gArea, x, y) {
        var p :| p in g && Has(g[p], x, y);
        assert p in both && Has(both[p], x, y);
      } else {
        var p :| p in h && Has(h[p], x, y);
        assert p in both && Has(both[p], x, y);
      }
    }
    forall p, q, x, y | p in both && q in both && Has(both[p], x, y) && Has(both[q], x, y)
      ensures p == q
    {
      assert both[p] == if p in g then g[p] else h[p];
      assert both[q] == if q in g then g[q] else h[q];
      assert p in g ==> Has(gArea, x, y);
      assert p !in g ==> Has(hArea, x, y);
      assert q in g ==> Has(gArea, x, y);
      assert q !in g ==> Has(hArea, x, y);
      if p in g && q in g {
        assert Has(g[p], x, y) && Has(g[q], x, y);
      } else if p !in g && q !in g {
        assert Has(h[p], x, y) && Has(h[q], x, y);
      }
    }
  }

  lemma DistinctHalves(a: seq<PaneId>, b: seq<PaneId>)
    requires Distinct(a + b)
    ensures Distinct(a) && Distinct(b) && forall p :: !(p in a && p in b)
  {
    assert forall i :: 0 <= i < |a| ==> (a + b)[i] == a[i];
    assert forall i :: 0 <= i < |b| ==> (a + b)[|a| + i] == b[i];
    forall p | p in a
      ensures p !in b
    {
      var i :| 0 <= i < |a| && a[i] == p;
      forall j | 0 <= j < |b|
        ensures b[j] != p
      {
        assert (a + b)[i] != (a + b)[|a| + j];
      }
    }
  }

  lemma {:induction false} GeometryTiles(tree: TiledNode, area: Rect)
    requires BoundedWeights(tree) && InRange(area) && Fits(tree, area)
    requires NonEmpty(area) && Distinct(PaneIds(tree))
    ensures Tiles(Geometry(tree, area), PaneIds(tree), area)
  {
    match tree
    case Leaf(pane) =>
      assert pane in Geometry(tree, area) && PaneIds(tree)[0] == pane;
    case Split(axis, first, second, a, b) =>
      hide Tiles, SplitAreas, Has, Distinct;
      AreasAgree(area, axis, a, b);
      var (firstArea, secondArea) := SplitAreas(area, axis, a, b);
      DistinctHalves(PaneIds(first), PaneIds(second));
      GeometryTiles(first, firstArea);
      GeometryTiles(second, secondArea);
      TilesJoin(Geometry(first, firstArea), Geometry(second, secondArea), PaneIds(first), PaneIds(second),
                firstArea, secondArea, area);
  }

  /** `place` fills a map with every pane's rectangle. */
  method Place(tree: TiledNode, area: Rect, output: map<PaneId, Rect>) returns (filled: map<PaneId, Rect>)
    requires BoundedWeights(tree) && InRange(area) && Fits(tree, area)
    ensures filled == output + Geometry(tree, area)
    decreases tree
  {
    match tree
    case Leaf(pane) =>
      filled := output[pane := area];
    case Split(axis, first, second, a, b) =>
      hide FirstSize, Has;
      AreasAgree(area, axis, a, b);
      var (firstArea, secondArea) := PlacedAreas(area, axis, a, b);
      filled := Place(first, firstArea, output);
      filled := Place(second, secondArea, filled);
      assert output + Geometry(tree, area) == output + (Geometry(first, firstArea) + Geometry(second, secondArea));
  }

  // ---- split ----

  /** `replace_leaf` with the replacement `split` uses: the target leaf becomes an even split of itself
      and the new pane. The flag tells whether the target was found. */
  function ReplaceLeaf(tree: TiledNode, target: PaneId, newPane: PaneId, axis: Axis): (r: (TiledNode, bool))
    ensures BoundedWeights(tree) ==> BoundedWeights(r.0)
  {
    match tree
    case Leaf(pane) =>
      if pane == target then (Split(axis, Leaf(pane), Leaf(newPane), 1, 1), true) else (tree, false)
    case Split(_, first, second, _, _) =>
      if Contains(first, target) then
        var (replaced, found) := ReplaceLeaf(first, target, newPane, axis);
        (tree.(first := replaced), found)
      else
        var (replaced, found) := ReplaceLeaf(second, target, newPane, axis);
        (tree.(second := replaced), found)
  }

  lemma {:induction false} ReplaceLeafFinds(tree: TiledNode, target: PaneId, newPane: PaneId, axis: Axis)
    requires BoundedWeights(tree)
    ensures ReplaceLeaf(tree, target, newPane, axis).1 <==> Contains(tree, target)
    ensures !Contains(tree, target) ==> ReplaceLeaf(tree, target, newPane, axis).0 == tree
  {
    if tree.Split? {
      ReplaceLeafFinds(tree.first, target, newPane, axis);
      ReplaceLeafFinds(tree.second, target, newPane, axis);
    }
  }

  function InsertAt(panes: seq<PaneId>, at: nat, pane: PaneId): seq<PaneId>
    requires at <= |panes|
  {
    panes[..at] + [pane] + panes[at..]
  }

  /** The new pane is inserted right after the pane it splits; all others keep their order. */
  lemma {:induction false} ReplaceLeafInserts(tree: TiledNode, target: PaneId, newPane: PaneId, axis: Axis)
    returns (at: nat)
    requires Contains(tree, target)
    ensures at < |PaneIds(tree)| && PaneIds(tree)[at] == target
    ensures PaneIds(ReplaceLeaf(tree, target, newPane, axis).0) == InsertAt(PaneIds(tree), at + 1, newPane)
  {
    hide BoundedWeights, InsertAt;
    match tree
    case Leaf(pane) =>
      at := 0;
      InsertAfterOne(pane, newPane);
    case Split(_, first, second, _, _) =>
      if Contains(first, target) {
        at := ReplaceLeafInserts(first, target, newPane, axis);
        InsertInAppend(PaneIds(first), PaneIds(second), at + 1, newPane);
      } else {
        at := ReplaceLeafInserts(second, target, newPane, axis);
        InsertInAppend(PaneIds(first), PaneIds(second), |PaneIds(first)| + at + 1, newPane);
        at := |PaneIds(first)| + at;
      }
  }

  lemma InsertAfterOne(pane: PaneId, newPane: PaneId)
    ensures InsertAt([pane], 1, newPane) == [pane] + [newPane]
  {
  }

  lemma InsertInAppend(a: seq<PaneId>, b: seq<PaneId>, at: nat, pane: PaneId)
    requires 0 < at <= |a| + |b|
    ensures InsertAt(a + b, at, pane) == if at <= |a| then InsertAt(a, at, pane) + b else a + InsertAt(b, at - |a|, pane)
  {
  }

  lemma InsertKeepsDistinct(panes: seq<PaneId>, at: nat, newPane: PaneId)
    requires Distinct(panes) && at <= |panes| && newPane !in panes
    ensures Distinct(InsertAt(panes, at, newPane))
  {
    var longer := InsertAt(panes, at, newPane);
    forall i, j | 0 <= i < j < |longer|
      ensures longer[i] != longer[j]
    {
      assert i != at ==> longer[i] == panes[if i < at then i else i - 1];
      assert j != at ==> longer[j] == panes[if j < at then j else j - 1];
    }
  }

  /** The pane to split has two cells on the axis, in a tree that fits. */
  ghost predicate HasRoom(tree: TiledNode, area: Rect, target: PaneId, axis: Axis)
    requires BoundedWeights(tree) && InRange(area)
  {
    Fits(tree, area) && target in Geometry(tree, area) && Size(Geometry(tree, area)[target], axis) >= 2
  }

  /** The split tree fits exactly when the tree did and the pane to split has two cells on the axis. */
  lemma {:induction false} SplitFits(tree: TiledNode, area: Rect, target: PaneId, newPane: PaneId, axis: Axis)
    requires BoundedWeights(tree) && InRange(area) && Contains(tree, target) && Distinct(PaneIds(tree))
    ensures Fits(ReplaceLeaf(tree, target, newPane, axis).0, area) <==> HasRoom(tree, area, target, axis)
  {
    ReplaceLeafFinds(tree, target, newPane, axis);
    match tree
    case Leaf(_) =>
    case Split(treeAxis, first, second, a, b) =>
      hide FirstSize, Distinct, SplitAreas;
      DistinctHalves(PaneIds(first), PaneIds(second));
      ContainsIsMembership(first, target);
      ContainsIsMembership(second, target);
      if Size(area, treeAxis) >= 2 {
        AreasAgree(area, treeAxis, a, b);
        var (firstArea, secondArea) := SplitAreas(area, treeAxis, a, b);
        if Contains(first, target) {
          SplitFits(first, firstArea, target, newPane, axis);
        } else {
          SplitFits(second, secondArea, target, newPane, axis);
        }
        if Fits(tree, area) {
          GeometryKeys(first, firstArea);
          GeometryKeys(second, secondArea);
        }
      }
  }

  lemma {:induction false} GeometryKeys(tree: TiledNode, area: Rect)
    requires BoundedWeights(tree) && InRange(area) && Fits(tree, area)
    ensures forall p :: p in Geometry(tree, area) <==> p in PaneIds(tree)
  {
    match tree
    case Leaf(pane) =>
    case Split(axis, first, second, a, b) =>
      hide FirstSize, Has;
      AreasAgree(area, axis, a, b);
      var (firstArea, secondArea) := SplitAreas(area, axis, a, b);
      GeometryKeys(first, firstArea);
      GeometryKeys(second, secondArea);
  }

  // ---- close ----

  function Close(tree: TiledNode, pane: PaneId): Option<TiledNode> {
    match tree
    case Leaf(id) => if id != pane then Some(tree) else None
    case Split(axis, first, second, a, b) =>
      match (Close(first, pane), Close(second, pane))
      case (Some(f), Some(s)) => Some(Split(axis, f, s, a, b))
      case (Some(survivor), None) => Some(survivor)
      case (None, Some(survivor)) => Some(survivor)
      case (None, None) => None
  }

  function Without(panes: seq<PaneId>, pane: PaneId): seq<PaneId> {
    if panes == [] then []
    else (if panes[0] == pane then [] else [panes[0]]) + Without(panes[1..], pane)
  }

  lemma {:induction false} WithoutAppend(a: seq<PaneId>, b: seq<PaneId>, pane: PaneId)
    ensures Without(a + b, pane) == Without(a, pane) + Without(b, pane)
  {
    if a == [] {
      assert a + b == b;
    } else {
      var head := if a[0] == pane then [] else [a[0]];
      WithoutAppend(a[1..], b, pane);
      assert (a + b)[0] == a[0] && (a + b)[1..] == a[1..] + b;
      assert Without(a + b, pane) == head + (Without(a[1..], pane) + Without(b, pane));
    }
  }

  /** Closing removes exactly the pane and keeps the order of the rest; nothing is left when it was the
      only one. */
  lemma {:induction false} ClosePanes(tree: TiledNode, pane: PaneId)
    requires BoundedWeights(tree)
    ensures Close(tree, pane).Some? ==>
      PaneIds(Close(tree, pane).value) == Without(PaneIds(tree), pane) && BoundedWeights(Close(tree, pane).value)
    ensures Close(tree, pane).None? <==> Without(PaneIds(tree), pane) == []
    ensures Close(tree, pane).Some? ==> PaneIds(Close(tree, pane).value) != []
  {
    match tree
    case Leaf(id) =>
      assert PaneIds(tree)[1..] == [];
    case Split(_, first, second, _, _) =>
      ClosePanes(first, pane);
      ClosePanes(second, pane);
      WithoutAppend(PaneIds(first), PaneIds(second), pane);
  }

  lemma {:induction false} WithoutIsDistinct(panes: seq<PaneId>, pane: PaneId)
    requires Distinct(panes)
    ensures Distinct(Without(panes, pane))
    ensures forall p :: p in Without(panes, pane) <==> p in panes && p != pane
  {
    if panes != [] {
      WithoutIsDistinct(panes[1..], pane);
      assert panes == [panes[0]] + panes[1..];
      assert panes[0] !in panes[1..] by {
        assert forall i :: 0 <= i < |panes[1..]| ==> panes[1..][i] == panes[i + 1];
      }
    }
  }

  /** One more cell goes to exactly one of the two sides, so both sides only ever grow with the area. */
  lemma FirstSizeGrows(size: u16, larger: u16, a: u32, b: u32)
    requires 2 <= size <= larger && 1 <= a <= MAX_WEIGHT && 1 <= b <= MAX_WEIGHT
    ensures FirstSize(size, a, b) <= FirstSize(larger, a, b)
    ensures size - FirstSize(size, a, b) <= larger - FirstSize(larger, a, b)
  {
    var s, l, w, total := size as int, larger as int, a as int, a as int + b as int;
    ShareGrows(s, l, w, total);
    FirstSizeIs(size, a, b);
    FirstSizeIs(larger, a, b);
  }

  lemma FirstSizeIs(size: u16, a: u32, b: u32)
    requires 2 <= size && 1 <= a <= MAX_WEIGHT && 1 <= b <= MAX_WEIGHT
    ensures
      var share := (size as int * a as int) / (a as int + b as int);
      FirstSize(size, a, b) as int == if share < 1 then 1 else if share > size as int - 1 then size as int - 1 else share
  {
    ProductFits(size as nat, a as nat);
  }

  lemma ShareGrows(s: int, l: int, w: int, total: int)
    requires 0 <= s <= l && 0 < w < total
    ensures (s * w) / total <= (l * w) / total
    ensures s - (s * w) / total <= l - (l * w) / total
  {
    Arithmetic.DivBounds(s * w, total);
    Arithmetic.DivBounds(l * w, total);
    Arithmetic.MulMonotonic(s, l, w);
    var grow := (l - s) * w;
    assert l * w == s * w + grow;
    Arithmetic.MulMonotonic(w, total, l - s);
    assert grow <= (l - s) * total;
    Arithmetic.DivGrows(s * w, grow, l - s, total);
  }

  /** `small` has the origin-free size of at most `large` in both directions. */
  ghost predicate NotLarger(small: Rect, large: Rect) {
    small.width <= large.width && small.height <= large.height
  }

  /** A tree that fits an area fits every area that is at least as large. */
  lemma {:induction false} FitsLarger(tree: TiledNode, area: Rect, larger: Rect)
    requires BoundedWeights(tree) && InRange(area) && InRange(larger)
    requires Fits(tree, area) && NotLarger(area, larger)
    ensures Fits(tree, larger)
  {
    match tree
    case Leaf(_) =>
    case Split(axis, first, second, a, b) =>
      hide FirstSize, Has;
      AreasAgree(area, axis, a, b);
      AreasAgree(larger, axis, a, b);
      FirstSizeGrows(Size(area, axis), Size(larger, axis), a, b);
      FitsLarger(first, SplitAreas(area, axis, a, b).0, SplitAreas(larger, axis, a, b).0);
      FitsLarger(second, SplitAreas(area, axis, a, b).1, SplitAreas(larger, axis, a, b).1);
  }

  /** After a close the survivors still fit, and therefore tile, the same area. */
  lemma {:induction false} CloseFits(tree: TiledNode, area: Rect, pane: PaneId)
    requires BoundedWeights(tree) && InRange(area) && Fits(tree, area)
    ensures Close(tree, pane).Some? ==>
      BoundedWeights(Close(tree, pane).value) && Fits(Close(tree, pane).value, area)
  {
    match tree
    case Leaf(_) =>
    case Split(axis, first, second, a, b) =>
      hide FirstSize, Has;
      AreasAgree(area, axis, a, b);
      var (firstArea, secondArea) := SplitAreas(area, axis, a, b);
      CloseFits(first, firstArea, pane);
      CloseFits(second, secondArea, pane);
      SidesAreSmaller(area, axis, a, b);
      if Close(first, pane).Some? && Close(second, pane).None? {
        FitsLarger(Close(first, pane).value, firstArea, area);
      } else if Close(first, pane).None? && Close(second, pane).Some? {
        FitsLarger(Close(second, pane).value, secondArea, area);
      }
  }

  lemma SidesAreSmaller(area: Rect, axis: Axis, a: u32, b: u32)
    requires Size(area, axis) >= 2 && InRange(area) && a <= MAX_WEIGHT && b <= MAX_WEIGHT
    ensures NotLarger(SplitAreas(area, axis, a, b).0, area) && NotLarger(SplitAreas(area, axis, a, b).1, area)
  {
    hide FirstSize;
  }

  // ---- resize ----

  function Compatible(axis: Axis, direction: Direction): bool {
    match axis
    case Vertical => direction == Left || direction == Right
    case Horizontal => direction == Up || direction == Down
  }

  function Minimum(axis: Axis): u16 {
    match axis
    case Vertical => MIN_CONTENT_COLUMNS + FRAME_COLUMNS
    case Horizontal => MIN_CONTENT_ROWS + FRAME_ROWS
  }

  function Delta(axis: Axis, inFirst: bool, direction: Direction): int {
    if inFirst && ((axis == Vertical && direction == Right) || (axis == Horizontal && direction == Down)) then 1
    else if !inFirst && ((axis == Vertical && direction == Left) || (axis == Horizontal && direction == Up)) then -1
    else 0
  }

  /** The new size of the first side, when this split is the one to move. */
  function MovedSize(area: Rect, axis: Axis, a: u32, b: u32, inFirst: bool, direction: Direction): Option<u16>
    requires Size(area, axis) >= 2 && InRange(area) && a <= MAX_WEIGHT && b <= MAX_WEIGHT
  {
    var total := Size(area, axis);
    var delta := Delta(axis, inFirst, direction);
    var next := Size(SplitAreas(area, axis, a, b).0, axis) as int + delta;
    if Compatible(axis, direction) && delta != 0
      && Minimum(axis) as int <= next <= SaturatingSub(total, Minimum(axis)) as int
    then Some(next as u16) else None
  }

  datatype Resized = Resized(tree: TiledNode, changed: bool, contains: bool)

  /** `resize_inner`, starting with nothing changed: the innermost split around the focused pane whose
      border can move by one cell gets new weights. */
  function ResizeInner(tree: TiledNode, focused: PaneId, direction: Direction, area: Rect): Resized
    requires BoundedWeights(tree) && InRange(area) && Fits(tree, area)
  {
    match tree
    case Leaf(_) => Resized(tree, false, Contains(tree, focused))
    case Split(axis, first, second, a, b) =>
      AreasAgree(area, axis, a, b);
      var (firstArea, secondArea) := SplitAreas(area, axis, a, b);
      var inFirst := Contains(first, focused);
      var inner := if inFirst then ResizeInner(first, focused, direction, firstArea)
                   else ResizeInner(second, focused, direction, secondArea);
      var moved := MovedSize(area, axis, a, b, inFirst, direction);
      var updated := if inFirst then tree.(first := inner.tree) else tree.(second := inner.tree);
      if inner.contains && !inner.changed && moved.Some? then
        Resized(
          updated.(firstWeight := moved.value as u32, secondWeight := (Size(area, axis) - moved.value) as u32),
          true, true)
      else Resized(updated, inner.changed, inner.contains)
  }

  /** A position in the tree: `true` goes to the first child. */
  type Path = seq<bool>

  ghost predicate ValidPath(tree: TiledNode, path: Path) {
    path == [] || (tree.Split? && ValidPath(if path[0] then tree.first else tree.second, path[1..]))
  }

  ghost function NodeAt(tree: TiledNode, path: Path): TiledNode
    requires ValidPath(tree, path)
  {
    if path == [] then tree else NodeAt(if path[0] then tree.first else tree.second, path[1..])
  }

  ghost function AreaAt(tree: TiledNode, path: Path, area: Rect): (r: Rect)
    requires BoundedWeights(tree) && InRange(area) && Fits(tree, area) && ValidPath(tree, path)
    ensures InRange(r) && BoundedWeights(NodeAt(tree, path)) && Fits(NodeAt(tree, path), r)
    decreases path
  {
    if path == [] then area
    else
      AreasAgree(area, tree.axis, tree.firstWeight, tree.secondWeight);
      var (firstArea, secondArea) := SplitAreas(area, tree.axis, tree.firstWeight, tree.secondWeight);
      if path[0] then AreaAt(tree.first, path[1..], firstArea) else AreaAt(tree.second, path[1..], secondArea)
  }

  /** The tree with the weights of one split replaced and nothing else. */
  ghost function WithWeights(tree: TiledNode, path: Path, a: u32, b: u32): TiledNode
    requires ValidPath(tree, path) && NodeAt(tree, path).Split?
    decreases path
  {
    if path == [] then tree.(firstWeight := a, secondWeight := b)
    else if path[0] then tree.(first := WithWeights(tree.first, path[1..], a, b))
    else tree.(second := WithWeights(tree.second, path[1..], a, b))
  }

  /** The split at `path` contains the focused pane and its border can move one cell away from it. */
  ghost predicate CanMove(tree: TiledNode, path: Path, area: Rect, focused: PaneId, direction: Direction)
    requires BoundedWeights(tree) && InRange(area) && Fits(tree, area) && ValidPath(tree, path)
  {
    var node := NodeAt(tree, path);
    var at := AreaAt(tree, path, area);
    && node.Split? && Contains(node, focused)
    && MovedSize(at, node.axis, node.firstWeight, node.secondWeight, Contains(node.first, focused), direction).Some?
  }

  ghost function Move(tree: TiledNode, path: Path, area: Rect, focused: PaneId, direction: Direction): TiledNode
    requires BoundedWeights(tree) && InRange(area) && Fits(tree, area) && ValidPath(tree, path)
    requires CanMove(tree, path, area, focused, direction)
  {
    var node := NodeAt(tree, path);
    var at := AreaAt(tree, path, area);
    var next := MovedSize(at, node.axis, node.firstWeight, node.secondWeight, Contains(node.first, focused), direction).value;
    WithWeights(tree, path, next as u32, (Size(at, node.axis) - next) as u32)
  }

  lemma {:induction false} ResizeContains(tree: TiledNode, focused: PaneId, direction: Direction, area: Rect)
    requires BoundedWeights(tree) && InRange(area) && Fits(tree, area)
    ensures ResizeInner(tree, focused, direction, area).contains == Contains(tree, focused)
    ensures ResizeInner(tree, focused, direction, area).changed ==> Contains(tree, focused)
  {
    match tree
    case Leaf(_) =>
    case Split(axis, first, second, a, b) =>
      hide MovedSize, FirstSize, Has;
      AreasAgree(area, axis, a, b);
      ResizeContains(first, focused, direction, SplitAreas(area, axis, a, b).0);
      ResizeContains(second, focused, direction, SplitAreas(area, axis, a, b).1);
  }

  ghost function Child(tree: TiledNode, inFirst: bool): TiledNode
    requires tree.Split?
  {
    if inFirst then tree.first else tree.second
  }

  ghost function ChildArea(tree: TiledNode, inFirst: bool, area: Rect): (r: Rect)
    requires tree.Split? && BoundedWeights(tree) && InRange(area) && Fits(tree, area)
    ensures BoundedWeights(Child(tree, inFirst)) && InRange(r) && Fits(Child(tree, inFirst), r)
  {
    AreasAgree(area, tree.axis, tree.firstWeight, tree.secondWeight);
    var areas := SplitAreas(area, tree.axis, tree.firstWeight, tree.secondWeight);
    if inFirst then areas.0 else areas.1
  }

  /** Moving a border below one child is moving it in that child. */
  lemma MoveInChild(tree: TiledNode, inFirst: bool, path: Path, focused: PaneId, direction: Direction, area: Rect)
    requires tree.Split? && BoundedWeights(tree) && InRange(area) && Fits(tree, area)
    requires ValidPath(Child(tree, inFirst), path)
    requires CanMove(Child(tree, inFirst), path, ChildArea(tree, inFirst, area), focused, direction)
    ensures ValidPath(tree, [inFirst] + path) && CanMove(tree, [inFirst] + path, area, focused, direction)
    ensures
      var moved := Move(Child(tree, inFirst), path, ChildArea(tree, inFirst, area), focused, direction);
      Move(tree, [inFirst] + path, area, focused, direction)
        == if inFirst then tree.(first := moved) else tree.(second := moved)
  {
    hide MovedSize, FirstSize, Has, SplitAreas, Contains, ChildArea, NodeAt, AreaAt, Fits;
    PathInChild(tree, inFirst, path, area);
    PathContains(Child(tree, inFirst), path, focused);
    var p := [inFirst] + path;
    assert p[0] == inFirst && p[1..] == path;
  }

  lemma PathInChild(tree: TiledNode, inFirst: bool, path: Path, area: Rect)
    requires tree.Split? && BoundedWeights(tree) && InRange(area) && Fits(tree, area)
    requires ValidPath(Child(tree, inFirst), path)
    ensures ValidPath(tree, [inFirst] + path)
    ensures NodeAt(tree, [inFirst] + path) == NodeAt(Child(tree, inFirst), path)
    ensures AreaAt(tree, [inFirst] + path, area) == AreaAt(Child(tree, inFirst), path, ChildArea(tree, inFirst, area))
  {
    hide FirstSize, Has, SplitAreas;
    var p := [inFirst] + path;
    assert p[0] == inFirst && p[1..] == path;
  }

  /** The split a resize will move: the innermost one around the focused pane whose border can move. */
  ghost function MovePath(tree: TiledNode, focused: PaneId, direction: Direction, area: Rect): (r: Option<Path>)
    requires BoundedWeights(tree) && InRange(area) && Fits(tree, area)
    ensures r.Some? ==> ValidPath(tree, r.value) && CanMove(tree, r.value, area, focused, direction)
  {
    match tree
    case Leaf(_) => None
    case Split(axis, first, second, a, b) =>
      var inFirst := Contains(first, focused);
      var below := MovePath(Child(tree, inFirst), focused, direction, ChildArea(tree, inFirst, area));
      if below.Some? then
        MoveInChild(tree, inFirst, below.value, focused, direction, area);
        Some([inFirst] + below.value)
      else if CanMove(tree, [], area, focused, direction) then Some([])
      else None
  }

  lemma MoveHere(tree: TiledNode, focused: PaneId, direction: Direction, area: Rect)
    requires tree.Split? && BoundedWeights(tree) && InRange(area) && Fits(tree, area)
    ensures
      var moved := MovedSize(area, tree.axis, tree.firstWeight, tree.secondWeight, Contains(tree.first, focused), direction);
      && (CanMove(tree, [], area, focused, direction)
          <==> (Contains(tree.first, focused) || Contains(tree.second, focused)) && moved.Some?)
      && (CanMove(tree, [], area, focused, direction) ==>
            moved.value <= Size(area, tree.axis)
            && Move(tree, [], area, focused, direction)
               == tree.(firstWeight := moved.value as u32, secondWeight := (Size(area, tree.axis) - moved.value) as u32))
  {
    hide FirstSize, Has, SplitAreas;
  }

  /** A resize that reports a change moved exactly one border: the weights of one split changed, and
      nothing else did. One that reports none changed nothing. */
  lemma {:induction false} ResizeMovesOneBorder(tree: TiledNode, focused: PaneId, direction: Direction, area: Rect)
    requires BoundedWeights(tree) && InRange(area) && Fits(tree, area)
    ensures ResizeInner(tree, focused, direction, area).changed <==> MovePath(tree, focused, direction, area).Some?
    ensures
      var path := MovePath(tree, focused, direction, area);
      ResizeInner(tree, focused, direction, area).tree
      == if path.Some? then Move(tree, path.value, area, focused, direction) else tree
  {
    match tree
    case Leaf(_) =>
    case Split(axis, first, second, a, b) =>
      hide MovedSize, FirstSize, Has, SplitAreas, CanMove, Move, Contains;
      var inFirst := Contains(first, focused);
      var child, childArea := Child(tree, inFirst), ChildArea(tree, inFirst, area);
      ResizeContains(child, focused, direction, childArea);
      MoveHere(tree, focused, direction, area);
      ResizeMovesOneBorder(child, focused, direction, childArea);
      var below := MovePath(child, focused, direction, childArea);
      if below.Some? {
        MoveInChild(tree, inFirst, below.value, focused, direction, area);
      }
  }

  /** New weights give the first side exactly the new size: the border moves by one cell, the focused
      side grows, and both sides keep at least the minimum. */
  lemma MovedBorder(area: Rect, axis: Axis, a: u32, b: u32, inFirst: bool, direction: Direction)
    requires Size(area, axis) >= 2 && InRange(area) && a <= MAX_WEIGHT && b <= MAX_WEIGHT
    requires MovedSize(area, axis, a, b, inFirst, direction).Some?
    ensures
      var next := MovedSize(area, axis, a, b, inFirst, direction).value;
      var total := Size(area, axis);
      && next <= total && 1 <= next as u32 <= MAX_WEIGHT && 1 <= (total - next) as u32 <= MAX_WEIGHT
      && var before := SplitAreas(area, axis, a, b);
         var after := SplitAreas(area, axis, next as u32, (total - next) as u32);
         && Size(after.0, axis) == next && Size(after.1, axis) == total - next
         && Minimum(axis) <= next && Minimum(axis) <= total - next
         && (if inFirst then next as int == Size(before.0, axis) as int + 1
             else Size(after.1, axis) as int == Size(before.1, axis) as int + 1)
  {
    var next, total := MovedSize(area, axis, a, b, inFirst, direction).value, Size(area, axis);
    FirstSizeIs(total, next as u32, (total - next) as u32);
    Arithmetic.DivExact(next as int, total as int);
    hide FirstSize;
  }

  /** When no change is reported, no split around the focused pane had a border that could move. */
  lemma {:induction false} ResizeMovesWhenPossible(tree: TiledNode, focused: PaneId, direction: Direction, area: Rect, path: Path)
    requires BoundedWeights(tree) && InRange(area) && Fits(tree, area) && Distinct(PaneIds(tree))
    requires ValidPath(tree, path) && CanMove(tree, path, area, focused, direction)
    ensures ResizeInner(tree, focused, direction, area).changed
    decreases path
  {
    hide MovedSize, FirstSize, Has, SplitAreas, Distinct;
    DistinctHalves(PaneIds(tree.first), PaneIds(tree.second));
    ContainsIsMembership(tree.first, focused);
    ContainsIsMembership(tree.second, focused);
    var inFirst := Contains(tree.first, focused);
    ResizeContains(Child(tree, inFirst), focused, direction, ChildArea(tree, inFirst, area));
    if path != [] {
      PathContains(Child(tree, path[0]), path[1..], focused);
      ResizeMovesWhenPossible(Child(tree, path[0]), focused, direction, ChildArea(tree, path[0], area), path[1..]);
    }
  }

  lemma {:induction false} PathContains(tree: TiledNode, path: Path, pane: PaneId)
    requires ValidPath(tree, path) && Contains(NodeAt(tree, path), pane)
    ensures Contains(tree, pane)
    decreases path
  {
    if path != [] {
      PathContains(Child(tree, path[0]), path[1..], pane);
    }
  }

  /** Changing the weights of one split keeps the panes, the tree above it, and its own area. */
  lemma {:induction false} WithWeightsShape(tree: TiledNode, path: Path, a: u32, b: u32)
    requires BoundedWeights(tree) && 1 <= a <= MAX_WEIGHT && 1 <= b <= MAX_WEIGHT
    requires ValidPath(tree, path) && NodeAt(tree, path).Split?
    ensures
      var t := WithWeights(tree, path, a, b);
      && BoundedWeights(t) && PaneIds(t) == PaneIds(tree)
      && ValidPath(t, path) && NodeAt(t, path) == NodeAt(tree, path).(firstWeight := a, secondWeight := b)
    decreases path
  {
    if path != [] {
      WithWeightsShape(Child(tree, path[0]), path[1..], a, b);
    }
  }

  /** Panes outside the split whose border moved keep their rectangles, as long as that split can be placed at all. */
  lemma {:induction false} OthersStay(tree: TiledNode, path: Path, a: u32, b: u32, area: Rect, pane: PaneId)
    requires BoundedWeights(tree) && 1 <= a <= MAX_WEIGHT && 1 <= b <= MAX_WEIGHT && InRange(area)
    requires ValidPath(tree, path) && NodeAt(tree, path).Split?
    requires BoundedWeights(WithWeights(tree, path, a, b))
    requires BoundedWeights(NodeAt(tree, path).(firstWeight := a, secondWeight := b))
    requires Fits(tree, area) && Fits(NodeAt(tree, path).(firstWeight := a, secondWeight := b), AreaAt(tree, path, area))
    requires Distinct(PaneIds(tree)) && pane in PaneIds(tree) && !Contains(NodeAt(tree, path), pane)
    ensures Fits(WithWeights(tree, path, a, b), area)
    ensures pane in Geometry(tree, area) && pane in Geometry(WithWeights(tree, path, a, b), area)
    ensures Geometry(tree, area)[pane] == Geometry(WithWeights(tree, path, a, b), area)[pane]
    decreases path
  {
    hide FirstSize, Has, SplitAreas, Distinct;
    var t := WithWeights(tree, path, a, b);
    WithWeightsFits(tree, path, a, b, area);
    ContainsIsMembership(tree, pane);
    WithWeightsShape(tree, path, a, b);
    GeometryKeys(tree, area);
    GeometryKeys(t, area);
    if path != [] {
      DistinctHalves(PaneIds(tree.first), PaneIds(tree.second));
      var side, other := path[0], !path[0];
      WithWeightsShape(Child(tree, side), path[1..], a, b);
      AreasAgree(area, tree.axis, tree.firstWeight, tree.secondWeight);
      GeometryKeys(Child(tree, true), ChildArea(tree, true, area));
      GeometryKeys(Child(tree, false), ChildArea(tree, false, area));
      GeometryKeys(Child(t, side), ChildArea(t, side, area));
      if pane in PaneIds(Child(tree, side)) {
        OthersStay(Child(tree, side), path[1..], a, b, ChildArea(tree, side, area), pane);
      }
    }
  }

  /** New weights of one split matter only below it: the whole tree fits exactly when that split fits its own area. */
  lemma {:induction false} WithWeightsFits(tree: TiledNode, path: Path, a: u32, b: u32, area: Rect)
    requires BoundedWeights(tree) && InRange(area) && Fits(tree, area)
    requires ValidPath(tree, path) && NodeAt(tree, path).Split?
    requires BoundedWeights(WithWeights(tree, path, a, b))
    requires BoundedWeights(NodeAt(tree, path).(firstWeight := a, secondWeight := b))
    ensures Fits(WithWeights(tree, path, a, b), area)
            <==> Fits(NodeAt(tree, path).(firstWeight := a, secondWeight := b), AreaAt(tree, path, area))
    decreases path
  {
    if path != [] {
      hide FirstSize, Has, SplitAreas;
      AreasAgree(area, tree.axis, tree.firstWeight, tree.secondWeight);
      WithWeightsFits(Child(tree, path[0]), path[1..], a, b, ChildArea(tree, path[0], area));
    }
  }

  /** The side of the moved border that loses a cell still fits what is left of it. */
  ghost predicate ShrunkSideFits(tree: TiledNode, path: Path, area: Rect, focused: PaneId, direction: Direction)
    requires BoundedWeights(tree) && InRange(area) && Fits(tree, area) && ValidPath(tree, path)
    requires CanMove(tree, path, area, focused, direction)
  {
    var node, at := NodeAt(tree, path), AreaAt(tree, path, area);
    var inFirst := Contains(node.first, focused);
    var next := MovedSize(at, node.axis, node.firstWeight, node.secondWeight, inFirst, direction).value;
    MovedBorder(at, node.axis, node.firstWeight, node.secondWeight, inFirst, direction);
    var sides := SplitAreas(at, node.axis, next as u32, (Size(at, node.axis) - next) as u32);
    if inFirst then Fits(node.second, sides.1) else Fits(node.first, sides.0)
  }

  /** After a resize the tree still fits its area exactly when the side that lost a cell does: the check is made for the
      two sides of the moved border only, not for the splits inside them. */
  lemma MovedTreeFits(tree: TiledNode, path: Path, focused: PaneId, direction: Direction, area: Rect)
    requires BoundedWeights(tree) && InRange(area) && Fits(tree, area)
    requires ValidPath(tree, path) && CanMove(tree, path, area, focused, direction)
    ensures BoundedWeights(Move(tree, path, area, focused, direction))
    ensures Fits(Move(tree, path, area, focused, direction), area) <==> ShrunkSideFits(tree, path, area, focused, direction)
  {
    hide FirstSize, Has, MovedSize, SplitAreas, AreaAt, NodeAt, WithWeights, Fits, Contains, ValidPath, Minimum;
    var node, at := NodeAt(tree, path), AreaAt(tree, path, area);
    var inFirst := Contains(node.first, focused);
    FittingSplit(node, at);
    var next := MovedSize(at, node.axis, node.firstWeight, node.secondWeight, inFirst, direction).value;
    MovedBorder(at, node.axis, node.firstWeight, node.secondWeight, inFirst, direction);
    var rest := Size(at, node.axis) - next;
    MoveShape(tree, path, focused, direction, area);
    WithWeightsFits(tree, path, next as u32, rest as u32, area);
    MovedNodeFits(node, at, next, inFirst, direction);
  }

  lemma FittingSplit(node: TiledNode, at: Rect)
    requires node.Split? && BoundedWeights(node) && InRange(at) && Fits(node, at)
    ensures Size(at, node.axis) >= 2 && node.firstWeight <= MAX_WEIGHT && node.secondWeight <= MAX_WEIGHT
  {
  }

  /** The side that gains a cell keeps fitting, so a split with a moved border fits when its other side does. */
  lemma MovedNodeFits(node: TiledNode, at: Rect, next: u16, inFirst: bool, direction: Direction)
    requires node.Split? && BoundedWeights(node) && InRange(at) && Fits(node, at)
    requires MovedSize(at, node.axis, node.firstWeight, node.secondWeight, inFirst, direction) == Some(next)
    ensures 1 <= next < Size(at, node.axis)
    ensures
      var rest := (Size(at, node.axis) - next) as u32;
      var moved := node.(firstWeight := next as u32, secondWeight := rest);
      var sides := SplitAreas(at, node.axis, next as u32, rest);
      BoundedWeights(moved)
      && (Fits(moved, at) <==> if inFirst then Fits(node.second, sides.1) else Fits(node.first, sides.0))
  {
    hide FirstSize, Has;
    MovedBorder(at, node.axis, node.firstWeight, node.secondWeight, inFirst, direction);
    var rest := (Size(at, node.axis) - next) as u32;
    AreasAgree(at, node.axis, next as u32, rest);
    AreasAgree(at, node.axis, node.firstWeight, node.secondWeight);
    var before := SplitAreas(at, node.axis, node.firstWeight, node.secondWeight);
    var after := SplitAreas(at, node.axis, next as u32, rest);
    if inFirst {
      FitsLarger(node.first, before.0, after.0);
    } else {
      FitsLarger(node.second, before.1, after.1);
    }
  }

  predicate SomeTooSmall(geometry: map<PaneId, Rect>) {
    exists p :: p in geometry && TooSmall(geometry[p])
  }

  /** Four columns and two rows inside the frame. */
  predicate Large(r: Rect) {
    r.width >= 6 && r.height >= 4
  }

  lemma LargeOrTooSmall(geometry: map<PaneId, Rect>)
    ensures SomeTooSmall(geometry) <==> exists p :: p in geometry && !Large(geometry[p])
  {
    if p :| p in geometry && !Large(geometry[p]) {
      assert TooSmall(geometry[p]);
    }
  }

  ghost predicate InsertedAfter(before: seq<PaneId>, focused: PaneId, newPane: PaneId, after: seq<PaneId>) {
    exists at :: 0 <= at < |before| && before[at] == focused && after == InsertAt(before, at + 1, newPane)
  }

  // ---- The tree in place ----

  class TiledLayout {
    var root: TiledNode

    ghost predicate Valid()
      reads this
    {
      BoundedWeights(root) && Distinct(PaneIds(root))
    }

    constructor (pane: PaneId)
      ensures root == Leaf(pane) && Valid()
    {
      root := Leaf(pane);
    }

    method GeometryOf(area: Rect) returns (geometry: map<PaneId, Rect>)
      requires Valid() && InRange(area) && Fits(root, area)
      ensures geometry == Geometry(root, area)
      ensures NonEmpty(area) ==> Tiles(geometry, PaneIds(root), area)
    {
      geometry := Place(root, area, map[]);
      if area.width > 0 && area.height > 0 {
        GeometryTiles(root, area);
      }
    }

    /** The new pane must be new. The tree must fit the area and the focused pane must have two cells on the axis; by
        `SplitFits` this is exactly when `clamp` does not panic while the split tree is placed. */
    method SplitPane(focused: PaneId, newPane: PaneId, axis: Axis, area: Rect) returns (result: Result<()>)
      requires Valid() && !Contains(root, newPane) && InRange(area)
      requires Contains(root, focused) ==> HasRoom(root, area, focused, axis)
      modifies this
      ensures Valid()
      ensures result.Err? ==> root == old(root)
      ensures Contains(old(root), focused) ==> Fits(ReplaceLeaf(old(root), focused, newPane, axis).0, area)
      ensures result.Err? <==>
        || !Contains(old(root), focused)
        || var geometry := Geometry(ReplaceLeaf(old(root), focused, newPane, axis).0, area);
           exists p :: p in geometry && !Large(geometry[p])
      ensures result.Ok? ==> root == ReplaceLeaf(old(root), focused, newPane, axis).0 && Fits(root, area)
      ensures result.Ok? ==> forall p :: p in Geometry(root, area) ==> Large(Geometry(root, area)[p])
      ensures result.Ok? ==> InsertedAfter(PaneIds(old(root)), focused, newPane, PaneIds(root))
    {
      hide FirstSize, Has, TooSmall;
      var (candidate, found) := ReplaceLeaf(root, focused, newPane, axis);
      ReplaceLeafFinds(root, focused, newPane, axis);
      if !found {
        return Err("focused pane is not in layout");
      }
      SplitFits(root, area, focused, newPane, axis);
      var geometry := Place(candidate, area, map[]);
      assert geometry == Geometry(candidate, area);
      LargeOrTooSmall(geometry);
      if SomeTooSmall(geometry) {
        return Err("split would make a pane smaller than the minimum content size");
      }
      ghost var at := ReplaceLeafInserts(root, focused, newPane, axis);
      ContainsIsMembership(root, newPane);
      InsertKeepsDistinct(PaneIds(root), at + 1, newPane);
      root := candidate;
      result := Ok(());
    }

    /** `false` when the closed pane was the last one; the tree is then to be discarded. */
    method ClosePane(pane: PaneId) returns (alive: bool)
      requires Valid()
      modifies this
      ensures Valid()
      ensures alive <==> Without(PaneIds(old(root)), pane) != []
      ensures alive ==> PaneIds(root) == Without(PaneIds(old(root)), pane)
      ensures alive ==> Close(old(root), pane) == Some(root)
      ensures forall area :: alive && InRange(area) && Fits(old(root), area) ==> Fits(root, area)
      ensures !alive ==> root == old(root)
    {
      ClosePanes(root, pane);
      WithoutIsDistinct(PaneIds(root), pane);
      var closed := Close(root, pane);
      forall area | closed.Some? && InRange(area) && Fits(root, area)
        ensures Fits(closed.value, area)
      {
        CloseFits(root, area, pane);
      }
      alive := closed.Some?;
      if alive {
        root := closed.value;
      }
    }

    method Resize(focused: PaneId, direction: Direction, area: Rect) returns (changed: bool)
      requires Valid() && InRange(area) && Fits(root, area)
      modifies this
      ensures Valid() && PaneIds(root) == PaneIds(old(root))
      ensures !changed ==> root == old(root)
      ensures changed <==> exists path :: ValidPath(old(root), path) && CanMove(old(root), path, area, focused, direction)
      ensures
        var path := MovePath(old(root), focused, direction, area);
        changed ==>
          && path.Some? && root == Move(old(root), path.value, area, focused, direction)
          && (Fits(root, area) <==> ShrunkSideFits(old(root), path.value, area, focused, direction))
    {
      hide FirstSize, Has, Distinct, MovedSize, CanMove, Move, ShrunkSideFits, MovePath, Fits;
      ResizeMovesOneBorder(root, focused, direction, area);
      var resized := ResizeInner(root, focused, direction, area);
      if resized.changed {
        ghost var path := MovePath(root, focused, direction, area).value;
        MoveShape(root, path, focused, direction, area);
        MovedTreeFits(root, path, focused, direction, area);
      } else {
        forall p | ValidPath(root, p)
          ensures !CanMove(root, p, area, focused, direction)
        {
          if CanMove(root, p, area, focused, direction) {
            ResizeMovesWhenPossible(root, focused, direction, area, p);
          }
        }
      }
      root := resized.tree;
      changed := resized.changed;
    }
  }

  lemma MoveShape(tree: TiledNode, path: Path, focused: PaneId, direction: Direction, area: Rect)
    requires BoundedWeights(tree) && InRange(area) && Fits(tree, area)
    requires ValidPath(tree, path) && CanMove(tree, path, area, focused, direction)
    ensures
      var t := Move(tree, path, area, focused, direction);
      BoundedWeights(t) && PaneIds(t) == PaneIds(tree)
  {
    hide FirstSize, Has, MovedSize;
    var node, at := NodeAt(tree, path), AreaAt(tree, path, area);
    MovedBorder(at, node.axis, node.firstWeight, node.secondWeight, Contains(node.first, focused), direction);
    var next := MovedSize(at, node.axis, node.firstWeight, node.secondWeight, Contains(node.first, focused), direction).value;
    WithWeightsShape(tree, path, next as u32, (Size(at, node.axis) - next) as u32);
  }
}
