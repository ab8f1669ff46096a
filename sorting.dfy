/**
 * The stable sort the list page relies on (Array.prototype.sort with a
 * comparator), as insertion sort: each element goes after every element
 * already placed that it does not go before. For a comparator that is a
 * strict weak order, SortStable shows that elements that compare equal keep
 * their order.
 */
module Sorting {

  /** No element goes before an element placed ahead of it. */
  predicate SortedBy<T>(s: seq<T>, goesBefore: (T, T) -> bool)
  {
    forall i, j :: 0 <= i < j < |s| ==> !goesBefore(s[j], s[i])
  }

  ghost predicate Transitive<T(!new)>(goesBefore: (T, T) -> bool)
  {
    forall a: T, b: T, c: T :: goesBefore(a, b) && goesBefore(b, c) ==> goesBefore(a, c)
  }

  ghost predicate Irreflexive<T(!new)>(goesBefore: (T, T) -> bool)
  {
    forall a: T :: !goesBefore(a, a)
  }

  /** Place `x` before the first element it goes before. */
  function Insert<T>(x: T, s: seq<T>, goesBefore: (T, T) -> bool): (r: seq<T>)
    ensures multiset(r) == multiset(s) + multiset{x}
    ensures |r| == |s| + 1
  {
    if s == [] then [x]
    else if goesBefore(x, s[0]) then [x] + s
    else
      assert s == [s[0]] + s[1..];
      [s[0]] + Insert(x, s[1..], goesBefore)
  }

  /** Insert the elements one by one, in list order. */
  function InsertionSort<T>(s: seq<T>, goesBefore: (T, T) -> bool): (r: seq<T>)
    ensures multiset(r) == multiset(s)
    ensures |r| == |s|
  {
    if s == [] then []
    else
      assert s == s[..|s| - 1] + [s[|s| - 1]];
      Insert(s[|s| - 1], InsertionSort(s[..|s| - 1], goesBefore), goesBefore)
  }

  lemma {:induction false} InsertSorted<T(!new)>(x: T, s: seq<T>, goesBefore: (T, T) -> bool)
    requires Transitive(goesBefore) && Irreflexive(goesBefore)
    requires SortedBy(s, goesBefore)
    ensures SortedBy(Insert(x, s, goesBefore), goesBefore)
  {
    if s != [] && !goesBefore(x, s[0]) {
      InsertSorted(x, s[1..], goesBefore);
      InsertAfterHead(x, s, goesBefore);
    } else if s != [] {
      InsertAtHead(x, s, goesBefore);
    }
  }

  /** `x` goes before the head, so it is placed first; nothing placed after it goes before it. */
  lemma InsertAtHead<T(!new)>(x: T, s: seq<T>, goesBefore: (T, T) -> bool)
    requires Transitive(goesBefore) && Irreflexive(goesBefore)
    requires SortedBy(s, goesBefore) && s != [] && goesBefore(x, s[0])
    ensures SortedBy([x] + s, goesBefore)
  {
    var r := [x] + s;
    forall i, j | 0 <= i < j < |r|
      ensures !goesBefore(r[j], r[i])
    {
      if i == 0 {
        assert r[j] == s[j - 1];
        assert !goesBefore(s[j - 1], s[0]);
      } else {
        assert r[i] == s[i - 1] && r[j] == s[j - 1];
      }
    }
  }

  /** The head stays first when `x` does not go before it and the rest, with `x` inserted, is sorted. */
  lemma InsertAfterHead<T(!new)>(x: T, s: seq<T>, goesBefore: (T, T) -> bool)
    requires SortedBy(s, goesBefore) && s != [] && !goesBefore(x, s[0])
    requires SortedBy(Insert(x, s[1..], goesBefore), goesBefore)
    ensures SortedBy([s[0]] + Insert(x, s[1..], goesBefore), goesBefore)
  {
    var tail := Insert(x, s[1..], goesBefore);
    forall y | y in tail
      ensures !goesBefore(y, s[0])
    {
      assert y in multiset(tail);
      if y != x {
        assert y in multiset(s[1..]);
        var j :| 0 <= j < |s[1..]| && s[1..][j] == y;
        assert s[j + 1] == y;
      }
    }
    var r := [s[0]] + tail;
    forall i, j | 0 <= i < j < |r|
      ensures !goesBefore(r[j], r[i])
    {
      if i == 0 {
        assert r[j] == tail[j - 1];
        assert r[j] in tail;
      } else {
        assert r[i] == tail[i - 1] && r[j] == tail[j - 1];
      }
    }
  }

  /** Under a transitive, irreflexive comparator the result is sorted, and it is a permutation of the input. */
  lemma {:induction false} SortSorted<T(!new)>(s: seq<T>, goesBefore: (T, T) -> bool)
    requires Transitive(goesBefore) && Irreflexive(goesBefore)
    ensures SortedBy(InsertionSort(s, goesBefore), goesBefore)
    ensures multiset(InsertionSort(s, goesBefore)) == multiset(s)
  {
    if s != [] {
      SortSorted(s[..|s| - 1], goesBefore);
      InsertSorted(s[|s| - 1], InsertionSort(s[..|s| - 1], goesBefore), goesBefore);
    }
  }

  /** Elements neither of which goes before the other compare equal. */
  predicate Equivalent<T>(x: T, e: T, goesBefore: (T, T) -> bool)
  {
    !goesBefore(x, e) && !goesBefore(e, x)
  }

  /** Whatever goes before `c` goes before `b` or `b` goes before `c`: elements that compare equal are interchangeable. */
  ghost predicate NegativelyTransitive<T(!new)>(goesBefore: (T, T) -> bool)
  {
    forall a: T, b: T, c: T :: goesBefore(a, c) ==> goesBefore(a, b) || goesBefore(b, c)
  }

  /** A comparator that is a strict weak order. */
  ghost predicate StrictWeakOrder<T(!new)>(goesBefore: (T, T) -> bool)
  {
    Transitive(goesBefore) && Irreflexive(goesBefore) && NegativelyTransitive(goesBefore)
  }

  /** The elements of `s` that compare equal to `e`, in list order. */
  function EquivalentsOf<T>(s: seq<T>, e: T, goesBefore: (T, T) -> bool): seq<T>
  {
    if s == [] then []
    else (if Equivalent(s[0], e, goesBefore) then [s[0]] else []) + EquivalentsOf(s[1..], e, goesBefore)
  }

  /** The equivalents of a concatenation are those of its first part, then those of its second. */
  lemma {:induction false} EquivalentsAppend<T>(a: seq<T>, b: seq<T>, e: T, goesBefore: (T, T) -> bool)
    ensures EquivalentsOf(a + b, e, goesBefore) == EquivalentsOf(a, e, goesBefore) + EquivalentsOf(b, e, goesBefore)
  {
    if a == [] {
      assert a + b == b;
    } else {
      var head := if Equivalent(a[0], e, goesBefore) then [a[0]] else [];
      assert EquivalentsOf(a + b, e, goesBefore) == head + EquivalentsOf(a[1..] + b, e, goesBefore) by {
        assert (a + b)[0] == a[0] && (a + b)[1..] == a[1..] + b;
      }
      EquivalentsAppend(a[1..], b, e, goesBefore);
      Regroup(head, EquivalentsOf(a[1..], e, goesBefore), EquivalentsOf(b, e, goesBefore));
    }
  }

  /** A list with no element equal to `e` has no equivalents of `e`. */
  lemma {:induction false} NoEquivalents<T>(s: seq<T>, e: T, goesBefore: (T, T) -> bool)
    requires forall j :: 0 <= j < |s| ==> !Equivalent(s[j], e, goesBefore)
    ensures EquivalentsOf(s, e, goesBefore) == []
  {
    if s != [] {
      NoEquivalents(s[1..], e, goesBefore);
    }
  }

  /** In a sorted list nothing after an element that `x` goes before compares equal to `x`. */
  lemma NoEquivalentAfter<T(!new)>(x: T, r: seq<T>, e: T, goesBefore: (T, T) -> bool)
    requires NegativelyTransitive(goesBefore) && SortedBy(r, goesBefore)
    requires r != [] && goesBefore(x, r[0]) && Equivalent(x, e, goesBefore)
    ensures EquivalentsOf(r, e, goesBefore) == []
  {
    forall j | 0 <= j < |r|
      ensures !Equivalent(r[j], e, goesBefore)
    {
      var y, first := r[j], r[0];
      assert goesBefore(x, y) by {
        if j > 0 {
          assert !goesBefore(y, first);
          assert goesBefore(x, y) || goesBefore(y, first);
        }
      }
      assert goesBefore(x, e) || goesBefore(e, y);
    }
    NoEquivalents(r, e, goesBefore);
  }

  /** The equivalents of a list with a first element: that element's, then the rest's. */
  lemma EquivalentsCons<T>(x: T, s: seq<T>, e: T, goesBefore: (T, T) -> bool)
    ensures EquivalentsOf([x] + s, e, goesBefore) == EquivalentsOf([x], e, goesBefore) + EquivalentsOf(s, e, goesBefore)
  {
    assert ([x] + s)[0] == x && ([x] + s)[1..] == s;
    assert [x][1..] == [];
  }

  /** Inserting `x` into a sorted list puts it after every element placed earlier that compares equal to it. */
  lemma {:induction false} InsertStable<T(!new)>(x: T, r: seq<T>, e: T, goesBefore: (T, T) -> bool)
    requires NegativelyTransitive(goesBefore) && SortedBy(r, goesBefore)
    ensures EquivalentsOf(Insert(x, r, goesBefore), e, goesBefore)
      == EquivalentsOf(r, e, goesBefore) + EquivalentsOf([x], e, goesBefore)
  {
    if r == [] {
      assert Insert(x, r, goesBefore) == [x] + r;
      EquivalentsCons(x, r, e, goesBefore);
    } else if goesBefore(x, r[0]) {
      InsertedFirst(x, r, e, goesBefore);
    } else {
      InsertStable(x, r[1..], e, goesBefore);
      KeptHead(x, r, Insert(x, r, goesBefore), Insert(x, r[1..], goesBefore), e, goesBefore);
    }
  }

  /** `x` placed first is the only one of its equivalents, as nothing after it compares equal to it. */
  lemma InsertedFirst<T(!new)>(x: T, r: seq<T>, e: T, goesBefore: (T, T) -> bool)
    requires NegativelyTransitive(goesBefore) && SortedBy(r, goesBefore)
    requires r != [] && goesBefore(x, r[0])
    ensures EquivalentsOf(Insert(x, r, goesBefore), e, goesBefore)
      == EquivalentsOf(r, e, goesBefore) + EquivalentsOf([x], e, goesBefore)
  {
    assert Insert(x, r, goesBefore) == [x] + r;
    EquivalentsCons(x, r, e, goesBefore);
    if Equivalent(x, e, goesBefore) {
      NoEquivalentAfter(x, r, e, goesBefore);
    } else {
      NoEquivalents([x], e, goesBefore);
    }
  }

  /** A list that keeps the head of `r` and continues with `rest`: the head's equivalents come first, then those of `rest`. */
  lemma KeptHead<T>(x: T, r: seq<T>, ins: seq<T>, rest: seq<T>, e: T, goesBefore: (T, T) -> bool)
    requires r != [] && ins == [r[0]] + rest
    requires EquivalentsOf(rest, e, goesBefore) == EquivalentsOf(r[1..], e, goesBefore) + EquivalentsOf([x], e, goesBefore)
    ensures EquivalentsOf(ins, e, goesBefore) == EquivalentsOf(r, e, goesBefore) + EquivalentsOf([x], e, goesBefore)
  {
    EquivalentsCons(r[0], rest, e, goesBefore);
    EquivalentsHead(r, e, goesBefore);
    Regroup(EquivalentsOf([r[0]], e, goesBefore), EquivalentsOf(r[1..], e, goesBefore), EquivalentsOf([x], e, goesBefore));
  }

  /** The equivalents of a non-empty list: its head's, then its tail's. */
  lemma EquivalentsHead<T>(s: seq<T>, e: T, goesBefore: (T, T) -> bool)
    requires s != []
    ensures EquivalentsOf(s, e, goesBefore) == EquivalentsOf([s[0]], e, goesBefore) + EquivalentsOf(s[1..], e, goesBefore)
  {
    assert [s[0]][1..] == [];
  }

  /** Concatenation is associative. */
  lemma Regroup<T>(a: seq<T>, b: seq<T>, c: seq<T>)
    ensures a + (b + c) == (a + b) + c
  {
  }

  /**
   * The sort is stable: the elements that compare equal to any `e` come out
   * in the order they went in.
   */
  lemma {:induction false} SortStable<T(!new)>(s: seq<T>, e: T, goesBefore: (T, T) -> bool)
    requires StrictWeakOrder(goesBefore)
    ensures EquivalentsOf(InsertionSort(s, goesBefore), e, goesBefore) == EquivalentsOf(s, e, goesBefore)
  {
    if s != [] {
      var init, x := s[..|s| - 1], s[|s| - 1];
      SortStable(init, e, goesBefore);
      SortSorted(init, goesBefore);
      InsertStable(x, InsertionSort(init, goesBefore), e, goesBefore);
      assert s == init + [x];
      EquivalentsAppend(init, [x], e, goesBefore);
    }
  }

  /** The first position of `x` in `s`. */
  function Position<T(==)>(s: seq<T>, x: T): (i: nat)
    requires x in s
    ensures i < |s| && s[i] == x
    ensures forall j :: 0 <= j < i ==> s[j] != x
  {
    if s[0] == x then 0
    else
      var i := 1 + Position(s[1..], x);
      assert forall j :: 1 <= j < i ==> s[j] == s[1..][j - 1];
      i
  }

  /** An occurrence with no earlier one is the first position. */
  lemma PositionAt<T>(s: seq<T>, x: T, i: nat)
    requires i < |s| && s[i] == x && forall j :: 0 <= j < i ==> s[j] != x
    ensures Position(s, x) == i
  {
  }
}
