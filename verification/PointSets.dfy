/** Finite sets of grid points: the specification against which rectangle code is proved. */
module PointSets {
  type Point = (int, int)

  /** The integers from `lo` up to but not including `hi`. */
  ghost function Range(lo: int, hi: int): (r: set<int>)
    ensures forall x :: x in r <==> lo <= x < hi
    ensures |r| == if lo <= hi then hi - lo else 0
    decreases hi - lo
  {
    if hi <= lo then {} else Range(lo, hi - 1) + {hi - 1}
  }

  ghost function Product(xs: set<int>, ys: set<int>): set<Point> {
    set x, y | x in xs && y in ys :: (x, y)
  }

  /** The points of the `width` by `height` rectangle whose top left corner is `(left, top)`. */
  ghost function Block(left: int, top: int, width: nat, height: nat): set<Point> {
    Product(Range(left, left + width), Range(top, top + height))
  }

  ghost function Union(parts: seq<set<Point>>): set<Point> {
    if parts == [] then {} else parts[0] + Union(parts[1..])
  }

  ghost function SizeSum(parts: seq<set<Point>>): nat {
    if parts == [] then 0 else |parts[0]| + SizeSum(parts[1..])
  }

  ghost predicate PairwiseDisjoint(parts: seq<set<Point>>) {
    forall i, j :: 0 <= i < j < |parts| ==> parts[i] !! parts[j]
  }

  lemma SomeElement<T>(s: set<T>) returns (x: T)
    requires s != {}
    ensures x in s
  {
    x :| x in s;
  }

  /** A column of points is as large as the set of its rows. */
  lemma {:induction false} ColumnSize(x: int, ys: set<int>)
    ensures |Product({x}, ys)| == |ys|
  {
    if ys != {} {
      var y := SomeElement(ys);
      ColumnSize(x, ys - {y});
      assert Product({x}, ys) == Product({x}, ys - {y}) + {(x, y)};
    } else {
      assert Product({x}, ys) == {};
    }
  }

  lemma {:induction false} ProductSize(xs: set<int>, ys: set<int>)
    ensures |Product(xs, ys)| == |xs| * |ys|
  {
    if xs != {} {
      var x := SomeElement(xs);
      var others := xs - {x};
      ProductSize(others, ys);
      ColumnSize(x, ys);
      var rest, column := Product(others, ys), Product({x}, ys);
      assert Product(xs, ys) == rest + column && rest !! column;
      assert |xs| == |others| + 1;
      assert (|others| + 1) * |ys| == |others| * |ys| + |ys|;
    } else {
      assert Product(xs, ys) == {};
    }
  }

  lemma BlockSize(left: int, top: int, width: nat, height: nat)
    ensures |Block(left, top, width, height)| == width * height
  {
    hide Product, Range;
    ProductSize(Range(left, left + width), Range(top, top + height));
  }

  lemma {:induction false} InUnion(parts: seq<set<Point>>, p: Point)
    ensures p in Union(parts) <==> exists i :: 0 <= i < |parts| && p in parts[i]
  {
    if parts != [] {
      InUnion(parts[1..], p);
      if p in Union(parts[1..]) {
        var i :| 0 <= i < |parts[1..]| && p in parts[1..][i];
        assert p in parts[i + 1];
      }
    }
  }

  /** Counting parts separately never undercounts their union, and is exact when they are disjoint. */
  lemma {:induction false} UnionSize(parts: seq<set<Point>>)
    ensures |Union(parts)| <= SizeSum(parts)
    ensures PairwiseDisjoint(parts) ==> |Union(parts)| == SizeSum(parts)
  {
    if parts != [] {
      var rest := parts[1..];
      UnionSize(rest);
      var common := parts[0] * Union(rest);
      assert Union(parts) == parts[0] + (Union(rest) - common);
      assert |Union(parts)| == |parts[0]| + |Union(rest)| - |common|;
      if PairwiseDisjoint(parts) {
        forall p | p in Union(rest)
          ensures p !in parts[0]
        {
          InUnion(rest, p);
          var i :| 0 <= i < |rest| && p in rest[i];
          assert parts[0] !! parts[i + 1];
        }
        assert common == {};
      }
    }
  }

  lemma {:induction false} SizeSumAppend(parts: seq<set<Point>>, last: set<Point>)
    ensures SizeSum(parts + [last]) == SizeSum(parts) + |last|
  {
    if parts == [] {
      assert parts + [last] == [last] && [last][1..] == [];
    } else {
      SizeSumAppend(parts[1..], last);
      assert (parts + [last])[1..] == parts[1..] + [last];
    }
  }

  lemma SubsetSize<T>(small: set<T>, large: set<T>)
    requires small <= large
    ensures |small| <= |large|
  {
    assert large == small + (large - small);
  }
}
