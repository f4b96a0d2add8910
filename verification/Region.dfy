/** Exact rectangle algebra over signed 32.32 fixed-point coordinates (src/region.rs).

    A rectangle stands for the set of fixed-point positions it covers. `intersect`, `subtract`,
    `subtract_all` and `order_and_coalesce` are proved against that point set. */
module Region {
  import opened Wrappers
  import opened FixedWidth
  import opened PointSets
  import Sorting

  const FIXED_ONE: i64 := 0x1_0000_0000

  datatype RawRect = RawRect(x: i64, y: i64, width: i64, height: i64) {
    /** Positive size, and both far edges are representable. */
    predicate Valid() {
      && width > 0 && height > 0
      && x as int + width as int <= I64_MAX
      && y as int + height as int <= I64_MAX
    }

    ghost predicate Has(px: int, py: int) {
      x as int <= px < x as int + width as int && y as int <= py < y as int + height as int
    }

    ghost function Points(): set<Point>
      requires Valid()
    {
      Block(x as int, y as int, width as int, height as int)
    }

    ghost function Area(): int {
      width as int * height as int
    }
  }

  type FixedRect = r: RawRect | r.Valid() witness RawRect(0, 0, 1, 1)

  function New(x: i64, y: i64, width: i64, height: i64): (r: Option<FixedRect>)
    ensures r.Some? <==> RawRect(x, y, width, height).Valid()
    ensures r.Some? ==> r.value == RawRect(x, y, width, height)
  {
    if width <= 0 || height <= 0 then None
    else if CheckedAdd(x, width).None? then None
    else if CheckedAdd(y, height).None? then None
    else Some(RawRect(x, y, width, height))
  }

  // Unchecked in the source: the additions verify because the far edges are representable.
  function Right(r: FixedRect): i64 { r.x + r.width }

  function Bottom(r: FixedRect): i64 { r.y + r.height }

  function Max(a: i64, b: i64): i64 { if a < b then b else a }

  function Min(a: i64, b: i64): i64 { if b < a then b else a }

  /** A grid rectangle of terminal cells (src/layout.rs). */
  datatype CellRect = CellRect(x: u16, y: u16, width: u16, height: u16)

  /** A cell rectangle always fits; it covers exactly the positions whose whole-cell part it covers. */
  function FromCells(rect: CellRect): (r: Option<FixedRect>)
    ensures r.None? <==> rect.width == 0 || rect.height == 0
    ensures r.Some? ==> forall px: int, py: int ::
      r.value.Has(px, py) <==>
        && rect.x as int <= px / FIXED_ONE as int < rect.x as int + rect.width as int
        && rect.y as int <= py / FIXED_ONE as int < rect.y as int + rect.height as int
  {
    var x := CheckedMul(rect.x as i64, FIXED_ONE);
    var y := CheckedMul(rect.y as i64, FIXED_ONE);
    var width := CheckedMul(rect.width as i64, FIXED_ONE);
    var height := CheckedMul(rect.height as i64, FIXED_ONE);
    if x.None? || y.None? || width.None? || height.None? then None
    else New(x.value, y.value, width.value, height.value)
  }

  /** `None` exactly when the rectangles share no point; otherwise their common points. */
  function Intersect(left: FixedRect, right: FixedRect): (r: Option<FixedRect>)
    ensures r.None? <==> forall px, py :: !(left.Has(px, py) && right.Has(px, py))
    ensures r.Some? ==> forall px, py :: r.value.Has(px, py) <==> left.Has(px, py) && right.Has(px, py)
  {
    var x := Max(left.x, right.x);
    var y := Max(left.y, right.y);
    var endX := Min(Right(left), Right(right));
    var endY := Min(Bottom(left), Bottom(right));
    var width := CheckedSub(endX, x);
    var height := CheckedSub(endY, y);
    assert left.Has(x as int, y as int) && right.Has(x as int, y as int) <==> x < endX && y < endY;
    if width.None? || height.None? then None else New(x, y, width.value, height.value)
  }

  // ---- Lists of fragments as point sets ----

  ghost predicate Covers(s: seq<FixedRect>, px: int, py: int) {
    exists r :: r in s && r.Has(px, py)
  }

  ghost predicate Apart(a: FixedRect, b: FixedRect) {
    forall px, py :: !(a.Has(px, py) && b.Has(px, py))
  }

  ghost predicate Disjoint(s: seq<FixedRect>) {
    forall i, j :: 0 <= i < j < |s| ==> Apart(s[i], s[j])
  }

  ghost function PointsOf(s: seq<FixedRect>): seq<set<Point>> {
    seq(|s|, i requires 0 <= i < |s| => s[i].Points())
  }

  ghost function AreaSum(s: seq<FixedRect>): int {
    if s == [] then 0 else s[0].Area() + AreaSum(s[1..])
  }

  // ---- subtract ----

  function OneIf(r: Option<FixedRect>): seq<FixedRect> {
    if r.Some? then [r.value] else []
  }

  function TopPiece(base: FixedRect, overlap: FixedRect): Option<FixedRect>
    requires Within(overlap, base)
  {
    New(base.x, base.y, base.width, overlap.y - base.y)
  }

  function BottomPiece(base: FixedRect, overlap: FixedRect): Option<FixedRect>
    requires Within(overlap, base)
  {
    New(base.x, Bottom(overlap), base.width, Bottom(base) - Bottom(overlap))
  }

  function LeftPiece(base: FixedRect, overlap: FixedRect): Option<FixedRect>
    requires Within(overlap, base)
  {
    New(base.x, overlap.y, overlap.x - base.x, overlap.height)
  }

  function RightPiece(base: FixedRect, overlap: FixedRect): Option<FixedRect>
    requires Within(overlap, base)
  {
    New(Right(overlap), overlap.y, Right(base) - Right(overlap), overlap.height)
  }

  predicate Within(part: FixedRect, whole: FixedRect) {
    && whole.x <= part.x && whole.y <= part.y
    && Right(part) <= Right(whole) && Bottom(part) <= Bottom(whole)
  }

  /** The pieces of `base` outside `hole`: above, below, left and right of the overlap. */
  function Pieces(base: FixedRect, hole: FixedRect): seq<FixedRect> {
    match Intersect(base, hole)
    case None => [base]
    case Some(overlap) =>
      Inside(overlap, base);
      OneIf(TopPiece(base, overlap)) + OneIf(BottomPiece(base, overlap))
      + OneIf(LeftPiece(base, overlap)) + OneIf(RightPiece(base, overlap))
  }

  lemma Inside(part: FixedRect, whole: FixedRect)
    requires forall px, py :: part.Has(px, py) ==> whole.Has(px, py)
    ensures Within(part, whole)
  {
    assert part.Has(part.x as int, part.y as int);
    assert part.Has(Right(part) as int - 1, Bottom(part) as int - 1);
  }

  /** The four pieces around `overlap` cover exactly the rest of `base`. */
  lemma AroundOverlap(base: FixedRect, overlap: FixedRect, px: int, py: int)
    requires Within(overlap, base)
    ensures
      base.Has(px, py) && !overlap.Has(px, py) <==>
        || (TopPiece(base, overlap).Some? && TopPiece(base, overlap).value.Has(px, py))
        || (BottomPiece(base, overlap).Some? && BottomPiece(base, overlap).value.Has(px, py))
        || (LeftPiece(base, overlap).Some? && LeftPiece(base, overlap).value.Has(px, py))
        || (RightPiece(base, overlap).Some? && RightPiece(base, overlap).value.Has(px, py))
  {
  }

  lemma PiecesCover(base: FixedRect, hole: FixedRect, px: int, py: int)
    ensures Covers(Pieces(base, hole), px, py) <==> base.Has(px, py) && !hole.Has(px, py)
  {
    var pieces := Pieces(base, hole);
    match Intersect(base, hole)
    case None =>
      assert base in pieces;
    case Some(overlap) =>
      Inside(overlap, base);
      AroundOverlap(base, overlap, px, py);
      assert hole.Has(px, py) && base.Has(px, py) <==> overlap.Has(px, py);
      InOneIf(TopPiece(base, overlap), px, py);
      InOneIf(BottomPiece(base, overlap), px, py);
      InOneIf(LeftPiece(base, overlap), px, py);
      InOneIf(RightPiece(base, overlap), px, py);
      var top, bottom := OneIf(TopPiece(base, overlap)), OneIf(BottomPiece(base, overlap));
      var left, right := OneIf(LeftPiece(base, overlap)), OneIf(RightPiece(base, overlap));
      CoversAppend(top, bottom, px, py);
      CoversAppend(top + bottom, left, px, py);
      CoversAppend(top + bottom + left, right, px, py);
  }

  lemma InOneIf(r: Option<FixedRect>, px: int, py: int)
    ensures Covers(OneIf(r), px, py) <==> r.Some? && r.value.Has(px, py)
  {
    if r.Some? {
      assert r.value in OneIf(r);
    }
  }

  lemma CoversAppend(a: seq<FixedRect>, b: seq<FixedRect>, px: int, py: int)
    ensures Covers(a + b, px, py) <==> Covers(a, px, py) || Covers(b, px, py)
  {
    if r :| r in a && r.Has(px, py) {
      assert r in a + b;
    }
    if r :| r in b && r.Has(px, py) {
      assert r in a + b;
    }
  }

  lemma PiecesDisjoint(base: FixedRect, hole: FixedRect)
    ensures |Pieces(base, hole)| <= 4
    ensures Disjoint(Pieces(base, hole))
  {
    if overlap :| Intersect(base, hole) == Some(overlap) {
      Inside(overlap, base);
      var top, bottom := OneIf(TopPiece(base, overlap)), OneIf(BottomPiece(base, overlap));
      var left, right := OneIf(LeftPiece(base, overlap)), OneIf(RightPiece(base, overlap));
      DisjointAppend(top, bottom);
      DisjointAppend(top + bottom, left);
      DisjointAppend(top + bottom + left, right);
    }
  }

  lemma DisjointAppend(a: seq<FixedRect>, b: seq<FixedRect>)
    requires Disjoint(a) && Disjoint(b)
    requires forall i, j :: 0 <= i < |a| && 0 <= j < |b| ==> Apart(a[i], b[j])
    ensures Disjoint(a + b)
  {
  }

  /** Subtraction is exact: at most four pairwise disjoint pieces covering `base` minus `hole`. */
  lemma PiecesExact(base: FixedRect, hole: FixedRect)
    ensures |Pieces(base, hole)| <= 4
    ensures forall px, py :: Covers(Pieces(base, hole), px, py) <==> base.Has(px, py) && !hole.Has(px, py)
    ensures Disjoint(Pieces(base, hole))
  {
    PiecesDisjoint(base, hole);
    forall px, py
      ensures Covers(Pieces(base, hole), px, py) <==> base.Has(px, py) && !hole.Has(px, py)
    {
      PiecesCover(base, hole, px, py);
    }
  }

  lemma OverlapWithin(base: FixedRect, hole: FixedRect)
    ensures Intersect(base, hole).Some? ==> Within(Intersect(base, hole).value, base)
  {
    if Intersect(base, hole).Some? {
      Inside(Intersect(base, hole).value, base);
    }
  }

  method Subtract(base: FixedRect, hole: FixedRect) returns (pieces: seq<FixedRect>)
    ensures pieces == Pieces(base, hole)
  {
    hide RawRect.Has, Intersect;
    var intersection := Intersect(base, hole);
    if intersection.None? {
      return [base];
    }
    var overlap := intersection.value;
    OverlapWithin(base, hole);
    pieces := [];
    var top := New(base.x, base.y, base.width, overlap.y - base.y);
    if top.Some? {
      pieces := pieces + [top.value];
    }
    var bottom := New(base.x, Bottom(overlap), base.width, Bottom(base) - Bottom(overlap));
    if bottom.Some? {
      pieces := pieces + [bottom.value];
    }
    var left := New(base.x, overlap.y, overlap.x - base.x, overlap.height);
    if left.Some? {
      pieces := pieces + [left.value];
    }
    var right := New(Right(overlap), overlap.y, Right(base) - Right(overlap), overlap.height);
    if right.Some? {
      pieces := pieces + [right.value];
    }
  }

  // ---- Sorting by (y, x, height, width) ----

  /** The sort key orders rectangles totally: equal keys mean equal rectangles. */
  predicate KeyLe(a: FixedRect, b: FixedRect) {
    || a.y < b.y
    || (a.y == b.y && (a.x < b.x
        || (a.x == b.x && (a.height < b.height
            || (a.height == b.height && a.width <= b.width)))))
  }

  lemma KeyIsTotalOrder()
    ensures Sorting.TotalOrder(KeyLe)
  {
  }

  ghost predicate Sorted(s: seq<FixedRect>) {
    Sorting.Sorted(s, KeyLe)
  }

  function Sort(s: seq<FixedRect>): (t: seq<FixedRect>)
    ensures Sorted(t) && multiset(t) == multiset(s) && |t| == |s|
  {
    KeyIsTotalOrder();
    var t := Sorting.Sort(s, KeyLe);
    Sorting.SameElements(s, t);
    t
  }

  lemma SortedIsUnique(s: seq<FixedRect>, t: seq<FixedRect>)
    requires Sorted(s) && Sorted(t) && multiset(s) == multiset(t)
    ensures s == t
  {
    KeyIsTotalOrder();
    Sorting.SortedIsUnique(s, t, KeyLe);
  }

  // ---- Merging ----

  /** The rectangle that joins `a` with its right or lower neighbour `b`, when that is a rectangle. */
  function Join(a: FixedRect, b: FixedRect): Option<FixedRect> {
    if a.y == b.y && a.height == b.height && Right(a) == b.x then
      var width := CheckedSub(Right(b), a.x);
      if width.None? then None else New(a.x, a.y, width.value, a.height)
    else if a.x == b.x && a.width == b.width && Bottom(a) == b.y then
      var height := CheckedSub(Bottom(b), a.y);
      if height.None? then None else New(a.x, a.y, a.width, height.value)
    else None
  }

  lemma JoinIsUnion(a: FixedRect, b: FixedRect)
    requires Join(a, b).Some?
    ensures forall px, py :: Join(a, b).value.Has(px, py) <==> a.Has(px, py) || b.Has(px, py)
    ensures Join(a, b).value.Area() == a.Area() + b.Area()
    ensures Apart(a, b)
  {
    var j := Join(a, b).value;
    if a.y == b.y && a.height == b.height && Right(a) == b.x {
      assert j.width as int == a.width as int + b.width as int;
      assert j.Area() == (a.width as int + b.width as int) * a.height as int;
    } else {
      assert j.height as int == a.height as int + b.height as int;
      assert j.Area() == a.width as int * (a.height as int + b.height as int);
    }
  }

  datatype Merge = Merge(left: nat, right: nat, joined: FixedRect)

  /** The first mergeable pair at or after `(left, right)` in the order of the nested search. */
  function FindMerge(s: seq<FixedRect>, left: nat, right: nat): (r: Option<Merge>)
    requires left < right
    ensures r.Some? ==>
      r.value.left < r.value.right < |s| && Join(s[r.value.left], s[r.value.right]) == Some(r.value.joined)
    ensures r.None? ==>
      forall i, j :: left <= i < j < |s| && (i == left ==> right <= j) ==> Join(s[i], s[j]).None?
    decreases |s| - left, |s| - right
  {
    if |s| <= left then None
    else if |s| <= right then FindMerge(s, left + 1, left + 2)
    else if Join(s[left], s[right]).Some? then Some(Merge(left, right, Join(s[left], s[right]).value))
    else FindMerge(s, left, right + 1)
  }

  function ReplacePair(s: seq<FixedRect>, m: Merge): seq<FixedRect>
    requires m.left < m.right < |s|
  {
    var t := s[m.left := m.joined];
    t[..m.right] + t[m.right + 1..]
  }

  /** The fixed point of sorting and merging the first mergeable pair. */
  function Coalesced(s: seq<FixedRect>): seq<FixedRect>
    decreases |s|
  {
    var t := Sort(s);
    match FindMerge(t, 0, 1)
    case None => t
    case Some(m) => Coalesced(ReplacePair(t, m))
  }

  method FirstMerge(fragments: seq<FixedRect>) returns (merged: Option<Merge>)
    ensures merged == FindMerge(fragments, 0, 1)
  {
    hide Join;
    var left := 0;
    while left < |fragments|
      invariant left <= |fragments|
      invariant FindMerge(fragments, 0, 1) == FindMerge(fragments, left, left + 1)
    {
      var right := left + 1;
      while right < |fragments|
        invariant left < right <= |fragments|
        invariant FindMerge(fragments, 0, 1) == FindMerge(fragments, left, right)
      {
        var joined := Join(fragments[left], fragments[right]);
        if joined.Some? {
          return Some(Merge(left, right, joined.value));
        }
        right := right + 1;
      }
      left := left + 1;
    }
    merged := None;
  }

  method OrderAndCoalesce(input: seq<FixedRect>) returns (fragments: seq<FixedRect>)
    ensures fragments == Coalesced(input)
  {
    fragments := input;
    while true
      invariant Coalesced(fragments) == Coalesced(input)
      decreases |fragments|
    {
      fragments := Sort(fragments);
      var merged := FirstMerge(fragments);
      if merged.None? {
        break;
      }
      var m := merged.value;
      fragments := fragments[m.left := m.joined];
      fragments := fragments[..m.right] + fragments[m.right + 1..];
    }
    ghost var beforeSort := fragments;
    fragments := Sort(fragments);
    SortedIsUnique(fragments, beforeSort);
  }

  // ---- What coalescing keeps and reaches ----

  lemma ReplacePairElements(s: seq<FixedRect>, m: Merge)
    requires m.left < m.right < |s|
    ensures forall r :: r in ReplacePair(s, m) ==> r == m.joined || r in s
    ensures m.joined in ReplacePair(s, m)
    ensures forall r :: r in s ==> r in ReplacePair(s, m) || r == s[m.left] || r == s[m.right]
  {
    var t := ReplacePair(s, m);
    assert t[m.left] == m.joined;
    forall i | 0 <= i < |s| && i != m.left && i != m.right
      ensures s[i] in t
    {
      assert s[i] == t[if i < m.right then i else i - 1];
    }
  }

  lemma {:induction false} CoalescedCovers(s: seq<FixedRect>, px: int, py: int)
    ensures Covers(Coalesced(s), px, py) <==> Covers(s, px, py)
    decreases |s|
  {
    var t := Sort(s);
    Sorting.SameElements(s, t);
    assert Covers(t, px, py) <==> Covers(s, px, py);
    var found := FindMerge(t, 0, 1);
    if found.Some? {
      var m := found.value;
      var u := ReplacePair(t, m);
      JoinIsUnion(t[m.left], t[m.right]);
      ReplacePairElements(t, m);
      assert t[m.left] in t && t[m.right] in t;
      assert Covers(u, px, py) <==> Covers(t, px, py);
      CoalescedCovers(u, px, py);
    }
  }

  lemma {:induction false} AreaAppend(a: seq<FixedRect>, b: seq<FixedRect>)
    ensures AreaSum(a + b) == AreaSum(a) + AreaSum(b)
  {
    if a == [] {
      assert a + b == b;
    } else {
      assert (a + b)[0] == a[0] && (a + b)[1..] == a[1..] + b;
      AreaAppend(a[1..], b);
    }
  }

  lemma {:induction false} AreaOfInsert(r: FixedRect, s: seq<FixedRect>)
    requires Sorting.TotalOrder(KeyLe) && Sorted(s)
    ensures AreaSum(Sorting.Insert(r, s, KeyLe)) == r.Area() + AreaSum(s)
  {
    if !(s == [] || KeyLe(r, s[0])) {
      AreaOfInsert(r, s[1..]);
      assert Sorting.Insert(r, s, KeyLe) == [s[0]] + Sorting.Insert(r, s[1..], KeyLe);
    }
  }

  lemma {:induction false} AreaOfSort(s: seq<FixedRect>)
    ensures AreaSum(Sort(s)) == AreaSum(s)
  {
    KeyIsTotalOrder();
    if s != [] {
      AreaOfSort(s[1..]);
      AreaOfInsert(s[0], Sort(s[1..]));
    }
  }

  lemma AreaAround(a: seq<FixedRect>, x: FixedRect, b: seq<FixedRect>)
    ensures AreaSum(a + [x] + b) == AreaSum(a) + x.Area() + AreaSum(b)
  {
    AreaAppend(a, [x]);
    AreaAppend(a + [x], b);
    assert AreaSum([x]) == x.Area() + AreaSum([x][1..]);
  }

  lemma SplitPair(s: seq<FixedRect>, m: Merge)
    requires m.left < m.right < |s|
    ensures s == s[..m.left] + [s[m.left]] + (s[m.left + 1..m.right] + [s[m.right]] + s[m.right + 1..])
    ensures ReplacePair(s, m) == s[..m.left] + [m.joined] + (s[m.left + 1..m.right] + s[m.right + 1..])
  {
  }

  lemma AreaOfReplacePair(s: seq<FixedRect>, m: Merge)
    requires m.left < m.right < |s| && Join(s[m.left], s[m.right]) == Some(m.joined)
    ensures AreaSum(ReplacePair(s, m)) == AreaSum(s)
  {
    var a, b, c := s[..m.left], s[m.left + 1..m.right], s[m.right + 1..];
    JoinIsUnion(s[m.left], s[m.right]);
    AreaAround(a, s[m.left], b + [s[m.right]] + c);
    AreaAround(b, s[m.right], c);
    AreaAround(a, m.joined, b + c);
    AreaAppend(b, c);
    SplitPair(s, m);
  }

  lemma {:induction false} CoalescedArea(s: seq<FixedRect>)
    ensures AreaSum(Coalesced(s)) == AreaSum(s)
    decreases |s|
  {
    var t := Sort(s);
    AreaOfSort(s);
    var found := FindMerge(t, 0, 1);
    if found.Some? {
      AreaOfReplacePair(t, found.value);
      CoalescedArea(ReplacePair(t, found.value));
    }
  }

  lemma {:induction false} DisjointInsert(r: FixedRect, s: seq<FixedRect>)
    requires Sorting.TotalOrder(KeyLe) && Sorted(s) && Disjoint(s)
    requires forall i :: 0 <= i < |s| ==> Apart(r, s[i])
    ensures Disjoint(Sorting.Insert(r, s, KeyLe))
  {
    if !(s == [] || KeyLe(r, s[0])) {
      var rest := Sorting.Insert(r, s[1..], KeyLe);
      DisjointInsert(r, s[1..]);
      forall i | 0 <= i < |rest|
        ensures Apart(s[0], rest[i])
      {
        assert rest[i] in multiset(rest);
        assert rest[i] == r || rest[i] in s[1..];
      }
      assert Sorting.Insert(r, s, KeyLe) == [s[0]] + rest;
    }
  }

  lemma {:induction false} DisjointSort(s: seq<FixedRect>)
    requires Disjoint(s)
    ensures Disjoint(Sort(s))
  {
    KeyIsTotalOrder();
    if s != [] {
      var rest := Sort(s[1..]);
      DisjointSort(s[1..]);
      forall i | 0 <= i < |rest|
        ensures Apart(s[0], rest[i])
      {
        assert rest[i] in multiset(rest);
        var k :| 0 <= k < |s[1..]| && s[1..][k] == rest[i];
        assert Apart(s[0], s[k + 1]);
      }
      DisjointInsert(s[0], rest);
    }
  }

  lemma DisjointReplacePair(s: seq<FixedRect>, m: Merge)
    requires Disjoint(s) && m.left < m.right < |s| && Join(s[m.left], s[m.right]) == Some(m.joined)
    ensures Disjoint(ReplacePair(s, m))
  {
    var t := ReplacePair(s, m);
    JoinIsUnion(s[m.left], s[m.right]);
    forall i, j | 0 <= i < j < |t|
      ensures Apart(t[i], t[j])
    {
      var i', j' := if i < m.right then i else i + 1, if j < m.right then j else j + 1;
      assert i == m.left || t[i] == s[i'];
      assert j == m.left || t[j] == s[j'];
      if i == m.left && j' < m.right {
        assert Apart(s[m.left], s[j']) && Apart(s[j'], s[m.right]);
      } else if i == m.left {
        assert Apart(s[m.left], s[j']) && Apart(s[m.right], s[j']);
      } else if j == m.left {
        assert Apart(s[i'], s[m.left]) && Apart(s[i'], s[m.right]);
      }
    }
  }

  lemma {:induction false} CoalescedDisjoint(s: seq<FixedRect>)
    requires Disjoint(s)
    ensures Disjoint(Coalesced(s))
    decreases |s|
  {
    var t := Sort(s);
    DisjointSort(s);
    var found := FindMerge(t, 0, 1);
    if found.Some? {
      DisjointReplacePair(t, found.value);
      CoalescedDisjoint(ReplacePair(t, found.value));
    }
  }

  ghost predicate NothingToMerge(s: seq<FixedRect>) {
    forall i, j :: 0 <= i < |s| && 0 <= j < |s| && i != j ==> Join(s[i], s[j]).None?
  }

  /** The result is sorted and no two of its rectangles can be merged, in either order. */
  lemma {:induction false} CoalescedIsNormal(s: seq<FixedRect>)
    ensures Sorted(Coalesced(s)) && NothingToMerge(Coalesced(s))
    ensures |Coalesced(s)| <= |s|
    decreases |s|
  {
    var t := Sort(s);
    var found := FindMerge(t, 0, 1);
    if found.Some? {
      CoalescedIsNormal(ReplacePair(t, found.value));
    } else {
      forall i, j | 0 <= i < |t| && 0 <= j < |t| && i != j
        ensures Join(t[i], t[j]).None?
      {
        if j < i {
          assert KeyLe(t[j], t[i]);
        }
      }
    }
  }

  /** The result depends only on which rectangles are in the list, not on the order of discovery. */
  lemma CoalescedIgnoresOrder(s: seq<FixedRect>, t: seq<FixedRect>)
    requires multiset(s) == multiset(t)
    ensures Coalesced(s) == Coalesced(t)
  {
    SortedIsUnique(Sort(s), Sort(t));
  }

  lemma CoalescedIsIdempotent(s: seq<FixedRect>)
    ensures Coalesced(Coalesced(s)) == Coalesced(s)
  {
    var t := Coalesced(s);
    CoalescedIsNormal(s);
    SortedIsUnique(Sort(t), t);
  }

  // ---- subtract_all ----

  /** Every fragment with `hole` cut out of it, before coalescing. */
  function CutEach(fragments: seq<FixedRect>, hole: FixedRect): seq<FixedRect> {
    if fragments == [] then []
    else CutEach(fragments[..|fragments| - 1], hole) + Pieces(fragments[|fragments| - 1], hole)
  }

  /** The coalesced fragments of `base` once the first `k` holes have been cut out. */
  function Fragments(base: FixedRect, holes: seq<FixedRect>, k: nat): seq<FixedRect>
    requires k <= |holes|
  {
    if k == 0 then [base] else Coalesced(CutEach(Fragments(base, holes, k - 1), holes[k - 1]))
  }

  lemma {:induction false} CutEachCovers(fragments: seq<FixedRect>, hole: FixedRect, px: int, py: int)
    ensures Covers(CutEach(fragments, hole), px, py) <==> Covers(fragments, px, py) && !hole.Has(px, py)
  {
    hide Pieces, RawRect.Has;
    if fragments != [] {
      var init, last := fragments[..|fragments| - 1], fragments[|fragments| - 1];
      CutEachCovers(init, hole, px, py);
      PiecesCover(last, hole, px, py);
      CoversAppend(CutEach(init, hole), Pieces(last, hole), px, py);
      assert fragments == init + [last];
      CoversAppend(init, [last], px, py);
      assert last in [last];
    }
  }

  lemma {:induction false} CutEachDisjoint(fragments: seq<FixedRect>, hole: FixedRect)
    requires Disjoint(fragments)
    ensures Disjoint(CutEach(fragments, hole))
  {
    if fragments != [] {
      var init, last := fragments[..|fragments| - 1], fragments[|fragments| - 1];
      var cut, pieces := CutEach(init, hole), Pieces(last, hole);
      CutEachDisjoint(init, hole);
      PiecesDisjoint(last, hole);
      forall i, j | 0 <= i < |cut| && 0 <= j < |pieces|
        ensures Apart(cut[i], pieces[j])
      {
        forall px, py
          ensures cut[i].Has(px, py) ==> !pieces[j].Has(px, py)
        {
          CutEachCovers(init, hole, px, py);
          PiecesCover(last, hole, px, py);
          assert cut[i] in cut && pieces[j] in pieces;
          if cut[i].Has(px, py) {
            assert Covers(cut, px, py);
            var r :| r in init && r.Has(px, py);
            var k :| 0 <= k < |init| && init[k] == r;
            assert Apart(fragments[k], last);
            assert !Covers(pieces, px, py);
          }
        }
      }
      DisjointAppend(cut, pieces);
    }
  }

  /** After `k` holes the fragments cover exactly the points of the base outside those holes. */
  lemma {:induction false} FragmentsCover(base: FixedRect, holes: seq<FixedRect>, k: nat, px: int, py: int)
    requires k <= |holes|
    ensures Covers(Fragments(base, holes, k), px, py) <==> base.Has(px, py) && !Covers(holes[..k], px, py)
  {
    hide Coalesced, CutEach;
    if k == 0 {
      assert base in [base];
    } else {
      FragmentsCover(base, holes, k - 1, px, py);
      CutEachCovers(Fragments(base, holes, k - 1), holes[k - 1], px, py);
      CoalescedCovers(CutEach(Fragments(base, holes, k - 1), holes[k - 1]), px, py);
      assert holes[..k] == holes[..k - 1] + [holes[k - 1]];
      CoversAppend(holes[..k - 1], [holes[k - 1]], px, py);
      assert holes[k - 1] in [holes[k - 1]];
    }
  }

  lemma {:induction false} FragmentsDisjoint(base: FixedRect, holes: seq<FixedRect>, k: nat)
    requires k <= |holes|
    ensures Disjoint(Fragments(base, holes, k)) && Sorted(Fragments(base, holes, k))
  {
    hide Coalesced, CutEach, KeyLe, Apart;
    if k > 0 {
      FragmentsDisjoint(base, holes, k - 1);
      CutEachDisjoint(Fragments(base, holes, k - 1), holes[k - 1]);
      CoalescedDisjoint(CutEach(Fragments(base, holes, k - 1), holes[k - 1]));
      CoalescedIsNormal(CutEach(Fragments(base, holes, k - 1), holes[k - 1]));
    }
  }

  lemma RectSize(r: FixedRect)
    ensures |r.Points()| == r.Area()
  {
    BlockSize(r.x as int, r.y as int, r.width as int, r.height as int);
  }

  lemma {:induction false} AreaIsSizeSum(s: seq<FixedRect>)
    ensures AreaSum(s) == SizeSum(PointsOf(s))
  {
    hide Block, RawRect.Area;
    if s != [] {
      RectSize(s[0]);
      AreaIsSizeSum(s[1..]);
      assert PointsOf(s)[0] == s[0].Points();
      assert PointsOf(s)[1..] == PointsOf(s[1..]);
    }
  }

  lemma CoversIsUnion(s: seq<FixedRect>, px: int, py: int)
    ensures Covers(s, px, py) <==> (px, py) in Union(PointsOf(s))
  {
    hide Union;
    InUnion(PointsOf(s), (px, py));
    if Covers(s, px, py) {
      var r :| r in s && r.Has(px, py);
      var i :| 0 <= i < |s| && s[i] == r;
      assert (px, py) in PointsOf(s)[i];
    }
    if i :| 0 <= i < |PointsOf(s)| && (px, py) in PointsOf(s)[i] {
      assert s[i] in s && s[i].Has(px, py);
    }
  }

  lemma DisjointAreaIsSize(s: seq<FixedRect>)
    requires Disjoint(s)
    ensures AreaSum(s) == |Union(PointsOf(s))|
  {
    AreaIsSizeSum(s);
    forall i, j | 0 <= i < j < |s|
      ensures PointsOf(s)[i] !! PointsOf(s)[j]
    {
      forall p: Point | p in s[i].Points()
        ensures p !in s[j].Points()
      {
        assert Apart(s[i], s[j]) && s[i].Has(p.0, p.1);
      }
    }
    UnionSize(PointsOf(s));
  }

  /** The fragments' areas add up to the base minus the part of it that some hole covers. */
  lemma ExactArea(fragments: seq<FixedRect>, base: FixedRect, holes: seq<FixedRect>)
    requires Disjoint(fragments)
    requires forall px, py :: Covers(fragments, px, py) <==> base.Has(px, py) && !Covers(holes, px, py)
    ensures AreaSum(fragments) == base.Area() - |base.Points() * Union(PointsOf(holes))|
  {
    hide AreaSum, Union, PointsOf, Disjoint;
    var covered, visible := base.Points() * Union(PointsOf(holes)), Union(PointsOf(fragments));
    DisjointAreaIsSize(fragments);
    RectSize(base);
    forall p: Point
      ensures p in visible <==> p in base.Points() && p !in covered
    {
      CoversIsUnion(fragments, p.0, p.1);
      CoversIsUnion(holes, p.0, p.1);
      assert p in base.Points() <==> base.Has(p.0, p.1);
    }
    assert visible == base.Points() - covered;
    assert |base.Points()| == |visible| + |covered|;
  }

  lemma CoalescedAgain(base: FixedRect, holes: seq<FixedRect>, k: nat)
    requires k <= |holes|
    ensures Coalesced(Fragments(base, holes, k)) == Fragments(base, holes, k)
  {
    if k == 0 {
      CoalescedIsNormal([base]);
      SortedIsUnique(Sort([base]), [base]);
    } else {
      CoalescedIsIdempotent(CutEach(Fragments(base, holes, k - 1), holes[k - 1]));
    }
  }

  lemma NothingToCut(hole: FixedRect)
    ensures Coalesced(CutEach([], hole)) == []
  {
    hide Join;
    assert Sort([]) == [];
  }

  lemma {:induction false} NothingLeft(base: FixedRect, holes: seq<FixedRect>, n: nat, k: nat)
    requires n <= k <= |holes| && Fragments(base, holes, n) == []
    ensures Fragments(base, holes, k) == []
    decreases k - n
  {
    hide Coalesced, CutEach;
    if n < k {
      NothingToCut(holes[n]);
      NothingLeft(base, holes, n + 1, k);
    }
  }

  /** The list grew past `cap` after one of the holes, or there is no hole and no room for the base. */
  ghost predicate Overflows(base: FixedRect, holes: seq<FixedRect>, cap: nat) {
    exists k :: 0 <= k <= |holes| && (k == 0 ==> holes == []) && |Fragments(base, holes, k)| > cap
  }

  /** `fragments` tile exactly the part of `base` outside every hole. */
  ghost predicate IsExactRest(fragments: seq<FixedRect>, base: FixedRect, holes: seq<FixedRect>) {
    && (forall px, py :: Covers(fragments, px, py) <==> base.Has(px, py) && !Covers(holes, px, py))
    && Disjoint(fragments)
    && Sorted(fragments)
    && AreaSum(fragments) == base.Area() - |base.Points() * Union(PointsOf(holes))|
  }

  lemma FragmentsAreExact(base: FixedRect, holes: seq<FixedRect>)
    ensures IsExactRest(Fragments(base, holes, |holes|), base, holes)
  {
    var fragments := Fragments(base, holes, |holes|);
    forall px, py
      ensures Covers(fragments, px, py) <==> base.Has(px, py) && !Covers(holes, px, py)
    {
      FragmentsCover(base, holes, |holes|, px, py);
      assert holes[..|holes|] == holes;
    }
    FragmentsDisjoint(base, holes, |holes|);
    ExactArea(fragments, base, holes);
  }

  method CutHole(fragments: seq<FixedRect>, hole: FixedRect) returns (next: seq<FixedRect>)
    ensures next == CutEach(fragments, hole)
  {
    next := [];
    var i := 0;
    while i < |fragments|
      invariant 0 <= i <= |fragments|
      invariant next == CutEach(fragments[..i], hole)
    {
      var pieces := Subtract(fragments[i], hole);
      next := next + pieces;
      assert fragments[..i + 1][..i] == fragments[..i];
      i := i + 1;
    }
    assert fragments[..i] == fragments;
  }

  method SubtractAll(base: FixedRect, holes: seq<FixedRect>, cap: nat) returns (result: Option<seq<FixedRect>>)
    ensures result.None? <==> Overflows(base, holes, cap)
    ensures result.Some? ==> |result.value| <= cap && IsExactRest(result.value, base, holes)
  {
    hide Coalesced, CutEach, IsExactRest;
    var fragments := [base];
    var n := 0;
    while n < |holes|
      invariant 0 <= n <= |holes|
      invariant fragments == Fragments(base, holes, n)
      invariant forall k :: 0 < k <= n ==> |Fragments(base, holes, k)| <= cap
    {
      var next := CutHole(fragments, holes[n]);
      next := OrderAndCoalesce(next);
      assert next == Fragments(base, holes, n + 1);
      if |next| > cap {
        return None;
      }
      fragments := next;
      n := n + 1;
      if fragments == [] {
        break;
      }
    }
    forall k | n <= k <= |holes|
      ensures Fragments(base, holes, k) == fragments
    {
      if n < k {
        NothingLeft(base, holes, n, k);
      }
    }
    CoalescedAgain(base, holes, |holes|);
    fragments := OrderAndCoalesce(fragments);
    FragmentsAreExact(base, holes);
    if |fragments| <= cap {
      result := Some(fragments);
    } else {
      result := None;
    }
  }
}
