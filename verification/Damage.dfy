/** Damage accounting of a raster delta. The inner presenter (src/media.rs) counts the distinct
    pixels its operations write with a sweep over horizontal bands; the bridge (src/bridge.rs) adds
    the rectangles' areas up. */
module Damage {
  import opened Wrappers
  import opened FixedWidth
  import opened PointSets
  import opened RasterFrames
  import Sorting

  type Interval = (u32, u32)

  ghost function PointsOf(area: Area): set<Point> {
    Block(area.x as int, area.y as int, area.width as nat, area.height as nat)
  }

  ghost predicate Holds(area: Area, x: int, y: int) {
    area.x as int <= x < area.x as int + area.width as int && area.y as int <= y < area.y as int + area.height as int
  }

  ghost function Parts(areas: seq<Area>): seq<set<Point>> {
    seq(|areas|, i requires 0 <= i < |areas| => PointsOf(areas[i]))
  }

  /** The distinct pixels written: the specification of the sweep. */
  ghost function Damaged(areas: seq<Area>): set<Point> {
    Union(Parts(areas))
  }

  predicate AreasFit(areas: seq<Area>, width: u32, height: u32) {
    forall i :: 0 <= i < |areas| ==> Fits(areas[i].x, areas[i].y, areas[i].width, areas[i].height, width, height)
  }

  /** An operation that writes anything stays in the image exactly when every pixel it writes is a pixel of the image, and
      for a copy every pixel it reads; an overwrite brings four bytes for each pixel. */
  lemma InBoundsExactly(operation: Operation, width: u32, height: u32)
    requires Written(operation).width > 0 && Written(operation).height > 0
    ensures
      var image, area := Block(0, 0, width as nat, height as nat), Written(operation);
      InBounds(operation, width, height) <==>
        && PointsOf(area) <= image
        && (match operation
            case Overwrite(_, _, w, h, rgba) => |rgba| == 4 * (w as int * h as int)
            case Copy(_, _, w, h, x, y) => PointsOf(Area(x, y, w, h)) <= image)
  {
    CornersInside(Written(operation), width, height);
    if operation.Copy? {
      CornersInside(Area(operation.sourceX, operation.sourceY, operation.width, operation.height), width, height);
    }
  }

  lemma CornersInside(area: Area, width: u32, height: u32)
    requires area.width > 0 && area.height > 0
    ensures
      PointsOf(area) <= Block(0, 0, width as nat, height as nat)
      <==> RasterFrames.Fits(area.x, area.y, area.width, area.height, width, height)
  {
    var x, y := area.x as int + area.width as int - 1, area.y as int + area.height as int - 1;
    IsInBlock(area.x as int, area.y as int, area.width as nat, area.height as nat, x, y);
    IsInBlock(0, 0, width as nat, height as nat, x, y);
    if RasterFrames.Fits(area.x, area.y, area.width, area.height, width, height) {
      forall p | p in PointsOf(area) ensures p in Block(0, 0, width as nat, height as nat) {
        IsInBlock(area.x as int, area.y as int, area.width as nat, area.height as nat, p.0, p.1);
        IsInBlock(0, 0, width as nat, height as nat, p.0, p.1);
      }
    }
    hide Block;
  }

  lemma IsInBlock(left: int, top: int, width: nat, height: nat, x: int, y: int)
    ensures (x, y) in Block(left, top, width, height) <==> left <= x < left + width && top <= y < top + height
  {
  }

  lemma InDamaged(areas: seq<Area>, x: int, y: int)
    ensures (x, y) in Damaged(areas) <==> exists i :: 0 <= i < |areas| && Holds(areas[i], x, y)
  {
    hide Union;
    var parts := Parts(areas);
    InUnion(parts, (x, y));
    assert forall i :: 0 <= i < |areas| ==> parts[i] == PointsOf(areas[i]);
    assert forall area :: (x, y) in PointsOf(area) <==> Holds(area, x, y);
  }

  // ---- Horizontal edges ----

  predicate EdgeLe(a: u32, b: u32) { a <= b }

  lemma EdgesAreOrdered()
    ensures Sorting.TotalOrder(EdgeLe)
  {
  }

  ghost predicate Increasing(edges: seq<u32>) {
    forall i, j :: 0 <= i < j < |edges| ==> edges[i] < edges[j]
  }

  ghost predicate IsEdge(areas: seq<Area>, e: int) {
    exists i :: 0 <= i < |areas| && (e == areas[i].y as int || e == areas[i].y as int + areas[i].height as int)
  }

  method Dedup(sorted: seq<u32>) returns (edges: seq<u32>)
    requires Sorting.Sorted(sorted, EdgeLe)
    ensures Increasing(edges)
    ensures forall e :: e in edges <==> e in sorted
  {
    edges := [];
    var i := 0;
    while i < |sorted|
      invariant 0 <= i <= |sorted|
      invariant Increasing(edges)
      invariant edges == [] <==> i == 0
      invariant i > 0 ==> edges[|edges| - 1] == sorted[i - 1]
      invariant forall e :: e in edges <==> e in sorted[..i]
    {
      if edges == [] || edges[|edges| - 1] != sorted[i] {
        if i > 0 {
          assert EdgeLe(sorted[i - 1], sorted[i]);
        }
        edges := edges + [sorted[i]];
      }
      assert sorted[..i + 1] == sorted[..i] + [sorted[i]];
      i := i + 1;
    }
  }

  lemma OneMoreEdge(areas: seq<Area>, n: nat, e: int)
    requires n < |areas|
    ensures IsEdge(areas[..n + 1], e) <==>
      IsEdge(areas[..n], e) || e == areas[n].y as int || e == areas[n].y as int + areas[n].height as int
  {
    var longer, shorter := areas[..n + 1], areas[..n];
    assert longer[n] == areas[n];
    assert forall k :: 0 <= k < n ==> longer[k] == shorter[k];
  }

  method HorizontalEdges(areas: seq<Area>, ghost width: u32, ghost height: u32) returns (edges: seq<u32>)
    requires AreasFit(areas, width, height)
    ensures Increasing(edges)
    ensures forall e: u32 :: e in edges <==> IsEdge(areas, e as int)
  {
    edges := [];
    var i := 0;
    while i < |areas|
      invariant 0 <= i <= |areas|
      invariant forall e: u32 :: e in edges <==> IsEdge(areas[..i], e as int)
    {
      edges := edges + [areas[i].y, areas[i].y + areas[i].height];
      forall e: u32
        ensures e in edges <==> IsEdge(areas[..i + 1], e as int)
      {
        OneMoreEdge(areas, i, e as int);
      }
      i := i + 1;
    }
    assert areas[..i] == areas;
    EdgesAreOrdered();
    var sorted := Sorting.Sort(edges, EdgeLe);
    Sorting.SameElements(edges, sorted);
    edges := Dedup(sorted);
  }

  // ---- One band ----

  ghost predicate InSome(intervals: seq<Interval>, x: int) {
    exists i :: 0 <= i < |intervals| && intervals[i].0 as int <= x < intervals[i].1 as int
  }

  /** `x` lies in the horizontal extent of an area that spans the whole band. */
  ghost predicate InBand(areas: seq<Area>, top: int, bottom: int, x: int) {
    exists i :: 0 <= i < |areas| && Spans(areas[i], top, bottom, x)
  }

  ghost predicate Spans(area: Area, top: int, bottom: int, x: int) {
    && area.y as int <= top && bottom <= area.y as int + area.height as int
    && area.x as int <= x < area.x as int + area.width as int
  }

  ghost predicate Ordered(intervals: seq<Interval>) {
    forall i :: 0 <= i < |intervals| ==> intervals[i].0 <= intervals[i].1
  }

  method BandIntervals(areas: seq<Area>, top: u32, bottom: u32, ghost width: u32, ghost height: u32)
    returns (intervals: seq<Interval>)
    requires AreasFit(areas, width, height)
    ensures Ordered(intervals)
    ensures forall i :: 0 <= i < |intervals| ==> intervals[i].1 <= width
    ensures forall x :: InSome(intervals, x) <==> InBand(areas, top as int, bottom as int, x)
  {
    intervals := [];
    var i := 0;
    while i < |areas|
      invariant 0 <= i <= |areas|
      invariant Ordered(intervals)
      invariant forall k :: 0 <= k < |intervals| ==> intervals[k].1 <= width
      invariant forall x :: InSome(intervals, x) <==> InBand(areas[..i], top as int, bottom as int, x)
    {
      var area := areas[i];
      ghost var before := intervals;
      if area.y <= top && area.y + area.height >= bottom {
        intervals := intervals + [(area.x, area.x + area.width)];
      }
      forall x
        ensures InSome(intervals, x) <==> InBand(areas[..i + 1], top as int, bottom as int, x)
      {
        OneMoreInterval(before, intervals, x);
        OneMoreArea(areas, i, top as int, bottom as int, x);
      }
      i := i + 1;
    }
    assert areas[..i] == areas;
  }

  lemma OneMoreInterval(before: seq<Interval>, after: seq<Interval>, x: int)
    requires after == before || (|after| == |before| + 1 && after[..|before|] == before)
    ensures InSome(after, x) <==>
      InSome(before, x) || (after != before && after[|before|].0 as int <= x < after[|before|].1 as int)
  {
    if after != before {
      if k :| 0 <= k < |before| && before[k].0 as int <= x < before[k].1 as int {
        assert after[k] == after[..|before|][k];
      }
      if k :| 0 <= k < |before| && after[k].0 as int <= x < after[k].1 as int {
        assert after[..|before|][k] == after[k];
      }
    }
  }

  lemma OneMoreArea(areas: seq<Area>, n: nat, top: int, bottom: int, x: int)
    requires n < |areas|
    ensures InBand(areas[..n + 1], top, bottom, x) <==>
      InBand(areas[..n], top, bottom, x) || Spans(areas[n], top, bottom, x)
  {
    var longer, shorter := areas[..n + 1], areas[..n];
    assert longer[n] == areas[n];
    assert forall k :: 0 <= k < n ==> longer[k] == shorter[k];
  }

  predicate IntervalLe(a: Interval, b: Interval) {
    a.0 < b.0 || (a.0 == b.0 && a.1 <= b.1)
  }

  lemma IntervalsAreOrdered()
    ensures Sorting.TotalOrder(IntervalLe)
  {
  }

  /** Ordered from left to right with a gap before each interval. */
  ghost predicate Separated(merged: seq<Interval>) {
    && Ordered(merged)
    && forall i, j :: 0 <= i < j < |merged| ==> merged[i].1 < merged[j].0
  }

  method MergeIntervals(intervals: seq<Interval>) returns (merged: seq<Interval>)
    requires Sorting.Sorted(intervals, IntervalLe) && Ordered(intervals)
    ensures Separated(merged)
    ensures forall x :: InSome(merged, x) <==> InSome(intervals, x)
  {
    merged := [];
    var i := 0;
    while i < |intervals|
      invariant 0 <= i <= |intervals|
      invariant Separated(merged)
      invariant merged != [] && i < |intervals| ==> merged[|merged| - 1].0 <= intervals[i].0
      invariant forall x :: InSome(merged, x) <==> InSome(intervals[..i], x)
    {
      var interval := intervals[i];
      ghost var before := merged;
      if merged != [] && interval.0 <= merged[|merged| - 1].1 {
        var last := merged[|merged| - 1];
        merged := merged[|merged| - 1 := (last.0, if last.1 < interval.1 then interval.1 else last.1)];
      } else {
        merged := merged + [interval];
      }
      forall x
        ensures InSome(merged, x) <==> InSome(intervals[..i + 1], x)
      {
        OneMoreInterval(intervals[..i], intervals[..i + 1], x);
        MergedOne(before, merged, interval, x);
      }
      if i + 1 < |intervals| {
        assert IntervalLe(intervals[i], intervals[i + 1]);
      }
      i := i + 1;
    }
    assert intervals[..i] == intervals;
  }

  lemma MergedOne(before: seq<Interval>, after: seq<Interval>, interval: Interval, x: int)
    requires
      || after == before + [interval]
      || (&& before != []
          && var last := before[|before| - 1];
             && last.0 <= interval.0 <= last.1
             && after == before[|before| - 1 := (last.0, if last.1 < interval.1 then interval.1 else last.1)])
    ensures InSome(after, x) <==> InSome(before, x) || interval.0 as int <= x < interval.1 as int
  {
    var n := |before|;
    if after == before + [interval] {
      OneMoreInterval(before, after, x);
    } else {
      assert after[n - 1].0 == before[n - 1].0;
      assert forall k :: 0 <= k < n - 1 ==> after[k] == before[k];
    }
  }

  ghost function ColumnsBefore(intervals: seq<Interval>, n: nat): set<int>
    requires n <= |intervals|
  {
    if n == 0 then {}
    else ColumnsBefore(intervals, n - 1) + Range(intervals[n - 1].0 as int, intervals[n - 1].1 as int)
  }

  ghost function Columns(intervals: seq<Interval>): set<int> {
    ColumnsBefore(intervals, |intervals|)
  }

  lemma {:induction false} InColumns(intervals: seq<Interval>, n: nat, x: int)
    requires n <= |intervals|
    ensures x in ColumnsBefore(intervals, n) <==> InSome(intervals[..n], x)
  {
    hide InSome;
    if n == 0 {
      NoInterval(x);
    } else {
      InColumns(intervals, n - 1, x);
      OneMoreInterval(intervals[..n - 1], intervals[..n], x);
      assert x in Range(intervals[n - 1].0 as int, intervals[n - 1].1 as int) <==>
        intervals[n - 1].0 as int <= x < intervals[n - 1].1 as int;
    }
  }

  lemma NoInterval(x: int)
    ensures !InSome([], x)
  {
  }

  lemma InSomePrefix(intervals: seq<Interval>, n: nat, x: int)
    requires n <= |intervals| && InSome(intervals[..n], x)
    ensures exists i :: 0 <= i < n && intervals[i].0 as int <= x < intervals[i].1 as int
    ensures InSome(intervals, x)
  {
    var i :| 0 <= i < n && intervals[..n][i].0 as int <= x < intervals[..n][i].1 as int;
    assert intervals[i] == intervals[..n][i];
  }

  lemma ColumnsFit(merged: seq<Interval>, n: nat, width: u32)
    requires n <= |merged|
    requires forall x :: InSome(merged, x) ==> 0 <= x < width as int
    ensures |ColumnsBefore(merged, n)| <= width as int
  {
    forall x | x in ColumnsBefore(merged, n)
      ensures x in Range(0, width as int)
    {
      InColumns(merged, n, x);
      InSomePrefix(merged, n, x);
    }
    SubsetSize(ColumnsBefore(merged, n), Range(0, width as int));
  }

  lemma NextInterval(merged: seq<Interval>, n: nat)
    requires Separated(merged) && n < |merged|
    ensures |ColumnsBefore(merged, n + 1)| ==
      |ColumnsBefore(merged, n)| + merged[n].1 as int - merged[n].0 as int
  {
    var (left, right) := merged[n];
    forall x | x in Range(left as int, right as int)
      ensures x !in ColumnsBefore(merged, n)
    {
      InColumns(merged, n, x);
      if InSome(merged[..n], x) {
        InSomePrefix(merged, n, x);
      }
    }
    assert ColumnsBefore(merged, n) !! Range(left as int, right as int);
  }

  /** The widths of separated intervals add up to the number of columns they cover. */
  method TotalWidth(merged: seq<Interval>, ghost width: u32) returns (total: Option<u64>)
    requires Separated(merged)
    requires forall x :: InSome(merged, x) ==> 0 <= x < width as int
    ensures total.Some? && total.value as int == |Columns(merged)| <= width as int
  {
    hide ColumnsBefore, InSome;
    ColumnsFit(merged, 0, width);
    var sum: u64 := 0;
    var i := 0;
    NoColumns(merged);
    while i < |merged|
      invariant 0 <= i <= |merged|
      invariant sum as int == |ColumnsBefore(merged, i)| <= width as int
    {
      var (left, right) := merged[i];
      NextInterval(merged, i);
      ColumnsFit(merged, i + 1, width);
      var next := CheckedAddU64(sum, (right - left) as u64);
      if next.None? {
        return None;
      }
      sum := next.value;
      i := i + 1;
    }
    total := Some(sum);
  }

  lemma NoColumns(merged: seq<Interval>)
    ensures ColumnsBefore(merged, 0) == {}
  {
  }

  // ---- The sweep ----

  ghost function Below(areas: seq<Area>, y: int): set<Point> {
    set p | p in Damaged(areas) && p.1 < y
  }

  /** Between two neighbouring edges the damage is a product of columns and rows. */
  lemma BandStep(areas: seq<Area>, top: int, bottom: int, columns: set<int>)
    requires top < bottom
    requires forall e :: top < e < bottom ==> !IsEdge(areas, e)
    requires forall x :: x in columns <==> InBand(areas, top, bottom, x)
    ensures Below(areas, bottom) == Below(areas, top) + Product(columns, Range(top, bottom))
    ensures |Below(areas, bottom)| == |Below(areas, top)| + |columns| * (bottom - top)
  {
    hide Damaged;
    var band := Product(columns, Range(top, bottom));
    forall p: Point
      ensures p in Below(areas, bottom) <==> p in Below(areas, top) || p in band
    {
      InDamaged(areas, p.0, p.1);
      BandPoint(areas, top, bottom, p.0, p.1);
    }
    assert Below(areas, bottom) == Below(areas, top) + band;
    assert Below(areas, top) !! band;
    ProductSize(columns, Range(top, bottom));
  }

  lemma BandPoint(areas: seq<Area>, top: int, bottom: int, x: int, y: int)
    requires forall e :: top < e < bottom ==> !IsEdge(areas, e)
    ensures top <= y < bottom ==>
      ((exists i :: 0 <= i < |areas| && Holds(areas[i], x, y)) <==> InBand(areas, top, bottom, x))
  {
    if top <= y < bottom {
      if i :| 0 <= i < |areas| && Holds(areas[i], x, y) {
        assert !(top < areas[i].y as int < bottom) by {
          if top < areas[i].y as int < bottom {
            assert IsEdge(areas, areas[i].y as int);
          }
        }
        var end := areas[i].y as int + areas[i].height as int;
        assert !(top < end < bottom) by {
          if top < end < bottom {
            assert IsEdge(areas, end);
          }
        }
      }
      forall i | 0 <= i < |areas| && Spans(areas[i], top, bottom, x)
        ensures Holds(areas[i], x, y)
      {
      }
    }
  }

  lemma InBlock(width: u32, height: u32, x: int, y: int)
    ensures (x, y) in Block(0, 0, width as nat, height as nat) <==> 0 <= x < width as int && 0 <= y < height as int
  {
  }

  lemma ProductOfWords(a: int, b: int)
    requires 0 <= a <= U32_MAX && 0 <= b <= U32_MAX
    ensures 0 <= a * b <= U64_MAX
  {
    assert a * b <= a * U32_MAX <= U32_MAX * U32_MAX;
  }

  lemma DamageFits(areas: seq<Area>, width: u32, height: u32)
    requires AreasFit(areas, width, height)
    ensures |Damaged(areas)| <= width as int * height as int <= U64_MAX
  {
    hide Damaged, Block;
    var image := Block(0, 0, width as nat, height as nat);
    forall p | p in Damaged(areas)
      ensures p in image
    {
      InDamaged(areas, p.0, p.1);
      InBlock(width, height, p.0, p.1);
    }
    SubsetSize(Damaged(areas), image);
    BlockSize(0, 0, width as nat, height as nat);
    ProductOfWords(width as int, height as int);
  }

  method BandPixels(areas: seq<Area>, top: u32, bottom: u32, ghost width: u32, ghost height: u32)
    returns (pixels: Option<u64>, ghost columns: set<int>)
    requires AreasFit(areas, width, height) && top < bottom <= height
    ensures forall x :: x in columns <==> InBand(areas, top as int, bottom as int, x)
    ensures pixels.Some? && pixels.value as int == |columns| * (bottom as int - top as int)
  {
    hide InSome, InBand, ColumnsBefore, IntervalLe;
    var intervals := BandIntervals(areas, top, bottom, width, height);
    IntervalsAreOrdered();
    var sorted := Sorting.Sort(intervals, IntervalLe);
    SortKeepsColumns(intervals, sorted, width);
    var merged := MergeIntervals(sorted);
    columns := Columns(merged);
    forall x
      ensures x in columns <==> InSome(merged, x)
    {
      ColumnsAreExact(merged, x);
    }
    var total := TotalWidth(merged, width);
    ProductOfWords(|columns|, bottom as int - top as int);
    pixels := CheckedMulU64(total.value, (bottom - top) as u64);
  }

  lemma ColumnsAreExact(merged: seq<Interval>, x: int)
    ensures x in Columns(merged) <==> InSome(merged, x)
  {
    InColumns(merged, |merged|, x);
    assert merged[..|merged|] == merged;
  }

  lemma SortKeepsColumns(intervals: seq<Interval>, sorted: seq<Interval>, width: u32)
    requires Ordered(intervals) && forall i :: 0 <= i < |intervals| ==> intervals[i].1 <= width
    requires multiset(intervals) == multiset(sorted)
    ensures Ordered(sorted)
    ensures forall x :: InSome(sorted, x) <==> InSome(intervals, x)
    ensures forall x :: InSome(sorted, x) ==> 0 <= x < width as int
  {
    Sorting.SameElements(intervals, sorted);
    forall i | 0 <= i < |sorted|
      ensures sorted[i].0 <= sorted[i].1 <= width
    {
      assert sorted[i] in intervals;
    }
    forall x
      ensures InSome(sorted, x) <==> InSome(intervals, x)
    {
      if i :| 0 <= i < |sorted| && sorted[i].0 as int <= x < sorted[i].1 as int {
        assert sorted[i] in intervals;
      }
      if i :| 0 <= i < |intervals| && intervals[i].0 as int <= x < intervals[i].1 as int {
        assert intervals[i] in sorted;
      }
    }
  }

  method WrittenAreas(operations: seq<Operation>) returns (areas: seq<Area>)
    ensures |areas| == |operations|
    ensures forall i :: 0 <= i < |areas| ==> areas[i] == Written(operations[i])
  {
    areas := [];
    for i := 0 to |operations|
      invariant |areas| == i
      invariant forall k :: 0 <= k < i ==> areas[k] == Written(operations[k])
    {
      areas := areas + [Written(operations[i])];
    }
  }

  ghost function AreasOf(operations: seq<Operation>): seq<Area> {
    seq(|operations|, i requires 0 <= i < |operations| => Written(operations[i]))
  }

  /** For in-bounds operations the sweep never reports an overflow and counts every distinct pixel
      of the union exactly once. */
  method RasterDamagePixels(operations: seq<Operation>, ghost width: u32, ghost height: u32)
    returns (result: Result<u64>)
    requires AllInBounds(operations, width, height)
    ensures result.Ok? && result.value as int == |Damaged(AreasOf(operations))|
  {
    var areas := WrittenAreas(operations);
    assert areas == AreasOf(operations);
    assert AreasFit(areas, width, height) by {
      assert forall i :: 0 <= i < |operations| ==> InBounds(operations[i], width, height);
    }
    result := SweepAreas(areas, width, height);
  }

  method SweepAreas(areas: seq<Area>, ghost width: u32, ghost height: u32) returns (result: Result<u64>)
    requires AreasFit(areas, width, height)
    ensures result.Ok? && result.value as int == |Damaged(areas)|
  {
    hide Damaged, Below, IsEdge, InBand;
    var edges := HorizontalEdges(areas, width, height);
    var pixels: u64 := 0;
    var band := 0;
    DamageFits(areas, width, height);
    NothingAbove(areas, edges);
    while band + 1 < |edges|
      invariant 0 <= band && (edges != [] ==> band < |edges|)
      invariant pixels as int == if edges == [] then 0 else |Below(areas, edges[band] as int)|
    {
      var top, bottom := edges[band], edges[band + 1];
      assert bottom in edges;
      EdgeInImage(areas, bottom, width, height);
      NoEdgeBetween(areas, edges, band);
      var count, columns := BandPixels(areas, top, bottom, width, height);
      BandStep(areas, top as int, bottom as int, columns);
      BelowFits(areas, bottom as int);
      var next := if count.None? then None else CheckedAddU64(pixels, count.value);
      if next.None? {
        return Err("raster delta damage accounting overflowed");
      }
      pixels := next.value;
      band := band + 1;
    }
    EverythingBelow(areas, edges);
    result := Ok(pixels);
  }

  lemma BelowFits(areas: seq<Area>, y: int)
    ensures |Below(areas, y)| <= |Damaged(areas)|
  {
    SubsetSize(Below(areas, y), Damaged(areas));
  }

  lemma EdgeInImage(areas: seq<Area>, edge: u32, width: u32, height: u32)
    requires AreasFit(areas, width, height) && IsEdge(areas, edge as int)
    ensures edge <= height
  {
  }

  lemma NoEdgeBetween(areas: seq<Area>, edges: seq<u32>, band: nat)
    requires Increasing(edges) && band + 1 < |edges|
    requires forall e: u32 :: e in edges <==> IsEdge(areas, e as int)
    ensures forall e :: edges[band] as int < e < edges[band + 1] as int ==> !IsEdge(areas, e)
  {
    forall e | edges[band] as int < e < edges[band + 1] as int
      ensures !IsEdge(areas, e)
    {
      forall k | 0 <= k < |edges|
        ensures edges[k] != e as u32
      {
        assert k <= band ==> edges[k] <= edges[band];
        assert band + 1 <= k ==> edges[band + 1] <= edges[k];
      }
      assert e as u32 !in edges;
    }
  }

  lemma NothingAbove(areas: seq<Area>, edges: seq<u32>)
    requires Increasing(edges) && forall e: u32 :: e in edges <==> IsEdge(areas, e as int)
    ensures edges != [] ==> Below(areas, edges[0] as int) == {}
  {
    if edges != [] {
      forall p | p in Damaged(areas)
        ensures edges[0] as int <= p.1
      {
        InDamaged(areas, p.0, p.1);
        var i :| 0 <= i < |areas| && Holds(areas[i], p.0, p.1);
        assert IsEdge(areas, areas[i].y as int) && areas[i].y in edges;
      }
    }
  }

  lemma EverythingBelow(areas: seq<Area>, edges: seq<u32>)
    requires Increasing(edges) && forall e: u32 :: e in edges <==> IsEdge(areas, e as int)
    requires forall i :: 0 <= i < |areas| ==> areas[i].y as int + areas[i].height as int <= U32_MAX
    ensures |Damaged(areas)| == if edges == [] then 0 else |Below(areas, edges[|edges| - 1] as int)|
  {
    forall p | p in Damaged(areas)
      ensures edges != [] && p.1 < edges[|edges| - 1] as int
    {
      InDamaged(areas, p.0, p.1);
      var i :| 0 <= i < |areas| && Holds(areas[i], p.0, p.1);
      var end := areas[i].y + areas[i].height;
      assert IsEdge(areas, end as int) && end in edges;
    }
    if edges == [] {
      assert Damaged(areas) == {};
    } else {
      assert Below(areas, edges[|edges| - 1] as int) == Damaged(areas);
    }
  }

  // ---- The bridge's plain sum ----

  ghost function SumBefore(areas: seq<Area>, n: nat): nat
    requires n <= |areas|
  {
    if n == 0 then 0 else SumBefore(areas, n - 1) + Size(areas[n - 1])
  }

  ghost function Size(area: Area): nat {
    area.width as nat * area.height as nat
  }

  ghost function AreaSum(areas: seq<Area>): nat {
    SumBefore(areas, |areas|)
  }

  /** The bridge's count: the plain sum of areas, or an error when it leaves 64 bits. */
  method PlainDamagePixels(operations: seq<Operation>) returns (result: Result<u64>)
    ensures result.Ok? <==> AreaSum(AreasOf(operations)) <= U64_MAX
    ensures result.Ok? ==> result.value as int == AreaSum(AreasOf(operations))
  {
    var areas := WrittenAreas(operations);
    assert areas == AreasOf(operations);
    result := SumAreas(areas);
  }

  method SumAreas(areas: seq<Area>) returns (result: Result<u64>)
    ensures result.Ok? <==> AreaSum(areas) <= U64_MAX
    ensures result.Ok? ==> result.value as int == AreaSum(areas)
  {
    var total: u64 := 0;
    var i := 0;
    while i < |areas|
      invariant 0 <= i <= |areas|
      invariant total as int == SumBefore(areas, i)
    {
      assert SumBefore(areas, i + 1) == SumBefore(areas, i) + Size(areas[i]);
      SumGrows(areas, i + 1);
      ProductOfWords(areas[i].width as int, areas[i].height as int);
      var area := CheckedMulU64(areas[i].width as u64, areas[i].height as u64);
      var next := if area.None? then None else CheckedAddU64(total, area.value);
      if next.None? {
        return Err("raster damage area overflows");
      }
      total := next.value;
      i := i + 1;
    }
    result := Ok(total);
  }

  lemma {:induction false} SumGrows(areas: seq<Area>, n: nat)
    requires n <= |areas|
    ensures SumBefore(areas, n) <= AreaSum(areas)
    decreases |areas| - n
  {
    hide Size;
    if n < |areas| {
      SumGrows(areas, n + 1);
    }
  }

  lemma NoParts()
    ensures SizeSum([]) == 0
  {
  }

  lemma {:induction false} SizeSumBefore(areas: seq<Area>, n: nat)
    requires n <= |areas|
    ensures SizeSum(Parts(areas[..n])) == SumBefore(areas, n)
  {
    hide SizeSum, Block;
    if n == 0 {
      assert Parts(areas[..n]) == [];
      NoParts();
    }
    if n > 0 {
      SizeSumBefore(areas, n - 1);
      var last := areas[n - 1];
      BlockSize(last.x as int, last.y as int, last.width as nat, last.height as nat);
      assert Parts(areas[..n]) == Parts(areas[..n - 1]) + [PointsOf(last)];
      SizeSumAppend(Parts(areas[..n - 1]), PointsOf(last));
    }
  }

  /** The sweep never counts more than the bridge's plain sum. */
  lemma DamageIsAtMostSum(areas: seq<Area>)
    ensures |Damaged(areas)| <= AreaSum(areas)
  {
    UnionSize(Parts(areas));
    SizeSumBefore(areas, |areas|);
    assert areas[..|areas|] == areas;
  }
}
