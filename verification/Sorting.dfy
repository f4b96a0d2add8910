/** Sorting by a total order. The source calls its library's sort; what that promises is a sorted
    permutation, and `SortedIsUnique` shows that for a total order there is only one. */
module Sorting {

  ghost predicate TotalOrder<T(!new)>(le: (T, T) -> bool) {
    && (forall a, b :: le(a, b) || le(b, a))
    && (forall a, b :: le(a, b) && le(b, a) ==> a == b)
    && (forall a, b, c :: le(a, b) && le(b, c) ==> le(a, c))
  }

  ghost predicate Sorted<T>(s: seq<T>, le: (T, T) -> bool) {
    forall i, j :: 0 <= i < j < |s| ==> le(s[i], s[j])
  }

  function Insert<T(!new)>(x: T, s: seq<T>, le: (T, T) -> bool): (t: seq<T>)
    requires TotalOrder(le) && Sorted(s, le)
    ensures Sorted(t, le) && multiset(t) == multiset(s) + multiset{x}
  {
    if s == [] || le(x, s[0]) then
      Prepend(x, s, le);
      [x] + s
    else
      assert s == [s[0]] + s[1..];
      var rest := Insert(x, s[1..], le);
      InsertKeepsBound(s[0], x, s[1..], rest, le);
      Prepend(s[0], rest, le);
      [s[0]] + rest
  }

  lemma Prepend<T(!new)>(x: T, s: seq<T>, le: (T, T) -> bool)
    requires TotalOrder(le) && Sorted(s, le) && (s == [] || le(x, s[0]))
    ensures Sorted([x] + s, le) && multiset([x] + s) == multiset(s) + multiset{x}
  {
    forall i | 0 <= i < |s|
      ensures le(x, s[i])
    {
      if i > 0 {
        assert le(s[0], s[i]);
      }
    }
  }

  lemma InsertKeepsBound<T>(bound: T, x: T, s: seq<T>, t: seq<T>, le: (T, T) -> bool)
    requires le(bound, x) && forall i :: 0 <= i < |s| ==> le(bound, s[i])
    requires multiset(t) == multiset(s) + multiset{x}
    ensures forall i :: 0 <= i < |t| ==> le(bound, t[i])
  {
    forall i | 0 <= i < |t|
      ensures le(bound, t[i])
    {
      assert t[i] in multiset(t);
      assert t[i] == x || t[i] in s;
    }
  }

  function Sort<T(!new)>(s: seq<T>, le: (T, T) -> bool): (t: seq<T>)
    requires TotalOrder(le)
    ensures Sorted(t, le) && multiset(t) == multiset(s)
  {
    if s == [] then []
    else
      assert s == [s[0]] + s[1..];
      Insert(s[0], Sort(s[1..], le), le)
  }

  lemma {:induction false} SortedIsUnique<T(!new)>(s: seq<T>, t: seq<T>, le: (T, T) -> bool)
    requires TotalOrder(le) && Sorted(s, le) && Sorted(t, le) && multiset(s) == multiset(t)
    ensures s == t
  {
    assert |multiset(s)| == |s| && |multiset(t)| == |t|;
    if s != [] {
      assert s[0] in multiset(t) && t[0] in multiset(s);
      assert s == [s[0]] + s[1..] && t == [t[0]] + t[1..];
      assert s[0] == t[0];
      assert multiset(s[1..]) == multiset(s) - multiset{s[0]};
      assert multiset(t[1..]) == multiset(t) - multiset{t[0]};
      SortedIsUnique(s[1..], t[1..], le);
    }
  }

  lemma SameElements<T>(s: seq<T>, t: seq<T>)
    requires multiset(s) == multiset(t)
    ensures |s| == |t|
    ensures forall x :: x in s <==> x in t
  {
    assert |multiset(s)| == |s| && |multiset(t)| == |t|;
    assert forall x :: x in s <==> x in multiset(s);
    assert forall x :: x in t <==> x in multiset(t);
  }
}
