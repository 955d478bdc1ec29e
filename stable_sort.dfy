/** Stable sorting by a comparator, as java.util.List.sort and Stream.sorted do
    it: the result is ordered by the comparator and elements that compare equal
    keep the order in which they arrived. The comparator is given as the strict
    relation `before(a, b)` ("a must come before b"). */
module StableSort {

  /** `before` orders its elements as a comparator that is consistent must:
      irreflexive, transitive, and "neither comes before the other" is
      transitive too. */
  ghost predicate StrictWeakOrder<T(!new)>(before: (T, T) -> bool)
  {
    && (forall a :: !before(a, a))
    && (forall a, b, c :: before(a, b) && before(b, c) ==> before(a, c))
    && (forall a, b, c :: !before(a, b) && !before(b, c) ==> !before(a, c))
  }

  /** Neither element comes before the other: the comparator returns 0. */
  predicate Tied<T>(before: (T, T) -> bool, a: T, b: T)
  {
    !before(a, b) && !before(b, a)
  }

  predicate SortedBy<T>(s: seq<T>, before: (T, T) -> bool)
  {
    forall i, j :: 0 <= i < j < |s| ==> !before(s[j], s[i])
  }

  /** Places x into s after every element it does not have to precede. */
  function Insert<T>(s: seq<T>, x: T, before: (T, T) -> bool): (r: seq<T>)
    ensures |r| == |s| + 1
  {
    if s == [] then [x]
    else if before(x, s[|s| - 1]) then Insert(s[..|s| - 1], x, before) + [s[|s| - 1]]
    else s + [x]
  }

  /** Insertion sort: each element in turn is inserted into the sorted prefix. */
  function Sort<T>(s: seq<T>, before: (T, T) -> bool): (r: seq<T>)
    ensures |r| == |s|
  {
    if s == [] then [] else Insert(Sort(s[..|s| - 1], before), s[|s| - 1], before)
  }

  lemma {:induction false} InsertPermutes<T>(s: seq<T>, x: T, before: (T, T) -> bool)
    ensures multiset(Insert(s, x, before)) == multiset(s) + multiset{x}
  {
    if s != [] && before(x, s[|s| - 1]) {
      InsertPermutes(s[..|s| - 1], x, before);
      assert s == s[..|s| - 1] + [s[|s| - 1]];
    }
  }

  /** The sort returns a permutation of its input. */
  lemma {:induction false} SortPermutes<T>(s: seq<T>, before: (T, T) -> bool)
    ensures multiset(Sort(s, before)) == multiset(s)
  {
    if s != [] {
      SortPermutes(s[..|s| - 1], before);
      InsertPermutes(Sort(s[..|s| - 1], before), s[|s| - 1], before);
      assert s == s[..|s| - 1] + [s[|s| - 1]];
    }
  }

  lemma {:induction false} InsertSorted<T(!new)>(s: seq<T>, x: T, before: (T, T) -> bool)
    requires StrictWeakOrder(before)
    requires SortedBy(s, before)
    ensures SortedBy(Insert(s, x, before), before)
  {
    if s != [] {
      var front, last := s[..|s| - 1], s[|s| - 1];
      if before(x, last) {
        InsertSorted(front, x, before);
        InsertPermutes(front, x, before);
        var head := Insert(front, x, before);
        var r := head + [last];
        forall k | 0 <= k < |head| ensures !before(last, head[k]) {
          assert head[k] in multiset(head);
          if head[k] != x {
            assert head[k] in multiset(front);
            var i :| 0 <= i < |front| && front[i] == head[k];
            assert s[i] == front[i];
          }
        }
        forall i, j | 0 <= i < j < |r| ensures !before(r[j], r[i]) {
          if j == |head| { assert r[j] == last && r[i] == head[i]; }
        }
      } else {
        var r := s + [x];
        forall i, j | 0 <= i < j < |r| ensures !before(r[j], r[i]) {
          if j == |s| && i < |s| - 1 {
            assert !before(last, s[i]);
          }
        }
      }
    }
  }

  lemma {:induction false} SortSorted<T(!new)>(s: seq<T>, before: (T, T) -> bool)
    requires StrictWeakOrder(before)
    ensures SortedBy(Sort(s, before), before)
  {
    if s != [] {
      SortSorted(s[..|s| - 1], before);
      InsertSorted(Sort(s[..|s| - 1], before), s[|s| - 1], before);
    }
  }

  /** The elements of s tied with y, in the order of s. */
  function Ties<T>(s: seq<T>, before: (T, T) -> bool, y: T): seq<T>
  {
    if s == [] then []
    else Ties(s[..|s| - 1], before, y) + (if Tied(before, s[|s| - 1], y) then [s[|s| - 1]] else [])
  }

  lemma {:induction false} InsertTies<T(!new)>(s: seq<T>, x: T, before: (T, T) -> bool, y: T)
    requires StrictWeakOrder(before)
    ensures Ties(Insert(s, x, before), before, y)
         == Ties(s, before, y) + (if Tied(before, x, y) then [x] else [])
  {
    if s != [] {
      var front, last := s[..|s| - 1], s[|s| - 1];
      if before(x, last) {
        var head := Insert(front, x, before);
        var r := head + [last];
        assert r[..|r| - 1] == head;
        InsertTies(front, x, before, y);
        // x and last cannot both be tied with y, since x comes before last
        assert !(Tied(before, x, y) && Tied(before, last, y));
      } else {
        var r := s + [x];
        assert r[..|r| - 1] == s;
      }
    }
  }

  /** Stability: the elements tied with any y leave the sort in the order in
      which they entered it. */
  lemma {:induction false} SortStable<T(!new)>(s: seq<T>, before: (T, T) -> bool, y: T)
    requires StrictWeakOrder(before)
    ensures Ties(Sort(s, before), before, y) == Ties(s, before, y)
  {
    if s != [] {
      SortStable(s[..|s| - 1], before, y);
      InsertTies(Sort(s[..|s| - 1], before), s[|s| - 1], before, y);
    }
  }

  /** Insert places x right after the last element it does not have to
      precede, when it has to precede everything after that one. */
  lemma {:induction false} InsertAtGap<T>(s: seq<T>, x: T, before: (T, T) -> bool, j: nat)
    requires j <= |s|
    requires j == 0 || !before(x, s[j - 1])
    requires forall k :: j <= k < |s| ==> before(x, s[k])
    ensures Insert(s, x, before) == s[..j] + [x] + s[j..]
    decreases |s|
  {
    if j == |s| {
      assert s[..j] == s && s[j..] == [];
      if s != [] {
        assert Insert(s, x, before) == s + [x];
      }
    } else {
      var front, last := s[..|s| - 1], s[|s| - 1];
      assert before(x, last);
      assert Insert(s, x, before) == Insert(front, x, before) + [last];
      assert front[..j] == s[..j];
      InsertAtGap(front, x, before, j);
      assert s[j..] == front[j..] + [last];
    }
  }

  lemma SortPrefix<T>(s: seq<T>, before: (T, T) -> bool, i: nat)
    requires i < |s|
    ensures Sort(s[..i + 1], before) == Insert(Sort(s[..i], before), s[i], before)
  {
    assert s[..i + 1][..i] == s[..i];
  }

  /** A sequence that agrees with s before j, holds x at j and s shifted by
      one after it is s with x inserted at j. */
  lemma GapFilled<T>(b: seq<T>, s: seq<T>, x: T, j: nat)
    requires j <= |s| && |b| == |s| + 1
    requires forall k :: 0 <= k < j ==> b[k] == s[k]
    requires b[j] == x
    requires forall k :: j < k < |b| ==> b[k] == s[k - 1]
    ensures b == s[..j] + [x] + s[j..]
  {
  }

  /** List.sort on an array-backed list: insertion sort in place. */
  method SortInPlace<T>(a: array<T>, before: (T, T) -> bool)
    modifies a
    ensures a[..] == Sort(old(a[..]), before)
  {
    ghost var input := a[..];
    var i := 0;
    while i < a.Length
      invariant 0 <= i <= a.Length
      invariant a[..i] == Sort(input[..i], before)
      invariant a[i..] == input[i..]
    {
      InsertAt(a, i, before);
      SortPrefix(input, before, i);
      i := i + 1;
    }
    assert a[..] == a[..a.Length];
    assert input == input[..a.Length];
  }

  /** One step of the insertion sort: a[i] moves left past every element of
      the sorted prefix a[..i] that it must precede. */
  method InsertAt<T>(a: array<T>, i: nat, before: (T, T) -> bool)
    requires i < a.Length
    modifies a
    ensures a[..i + 1] == Insert(old(a[..i]), old(a[i]), before)
    ensures a[i + 1..] == old(a[i + 1..])
  {
    ghost var sorted := a[..i];
    ghost var rest := a[i + 1..];
    var x := a[i];
    var j := i;
    while j > 0 && before(x, a[j - 1])
      invariant 0 <= j <= i
      invariant forall k :: 0 <= k < j ==> a[k] == sorted[k]
      invariant forall k :: j < k <= i ==> a[k] == sorted[k - 1]
      invariant forall k :: i < k < a.Length ==> a[k] == rest[k - i - 1]
      invariant forall k :: j <= k < i ==> before(x, sorted[k])
    {
      a[j] := a[j - 1];
      j := j - 1;
    }
    a[j] := x;
    InsertAtGap(sorted, x, before, j);
    GapFilled(a[..i + 1], sorted, x, j);
    assert a[i + 1..] == rest;
  }
}
