/** The array operations the list views are built from: `Array.prototype.filter`,
    a stable `Array.prototype.sort` driven by a comparator, and
    `Array.prototype.slice` with its clamping of negative and oversized bounds. */
module ListOps {

  // ---------------------------------------------------------------------
  // filter

  function Filter<T>(s: seq<T>, keep: T -> bool): (r: seq<T>)
    ensures |r| <= |s|
    ensures forall i :: 0 <= i < |r| ==> keep(r[i])
  {
    if s == [] then []
    else if keep(s[0]) then [s[0]] + Filter(s[1..], keep)
    else Filter(s[1..], keep)
  }

  /** An element survives the filter exactly when it was in the input and
      the predicate keeps it; the result never holds an element more often
      than the input did. */
  lemma {:induction false} FilterMembers<T>(s: seq<T>, keep: T -> bool)
    ensures forall x :: x in Filter(s, keep) <==> x in s && keep(x)
    ensures multiset(Filter(s, keep)) <= multiset(s)
  {
    if s != [] {
      FilterMembers(s[1..], keep);
      assert s == [s[0]] + s[1..];
    }
  }

  /** The filter keeps every element the predicate keeps exactly as often
      as the input holds it, and drops every other element. */
  lemma {:induction false} FilterCount<T>(s: seq<T>, keep: T -> bool)
    ensures forall x :: multiset(Filter(s, keep))[x] == if keep(x) then multiset(s)[x] else 0
  {
    if s != [] {
      FilterCount(s[1..], keep);
      assert s == [s[0]] + s[1..];
    }
  }

  /** A rearrangement of the filtered list holds the same elements, each as
      often: those the predicate keeps, as often as the input holds them. */
  lemma FilteredPermutation<T>(s: seq<T>, keep: T -> bool, r: seq<T>)
    requires multiset(r) == multiset(Filter(s, keep))
    ensures forall x :: multiset(r)[x] == if keep(x) then multiset(s)[x] else 0
    ensures forall x :: x in r <==> x in s && keep(x)
  {
    FilterCount(s, keep);
    forall x ensures x in r <==> x in s && keep(x) {
      assert x in r <==> x in multiset(r);
      assert x in s <==> x in multiset(s);
    }
  }

  /** `r` is `s` with some of its elements dropped and the rest left in
      their order. */
  ghost predicate Subsequence<T>(r: seq<T>, s: seq<T>)
    decreases |s|
  {
    if r == [] then true
    else if s == [] then false
    else (r[0] == s[0] && Subsequence(r[1..], s[1..])) || Subsequence(r, s[1..])
  }

  /** The filter only drops elements: what it keeps stays in input order. */
  lemma {:induction false} FilterSubsequence<T>(s: seq<T>, keep: T -> bool)
    ensures Subsequence(Filter(s, keep), s)
  {
    if s != [] {
      FilterSubsequence(s[1..], keep);
      if keep(s[0]) {
        assert Filter(s, keep)[1..] == Filter(s[1..], keep);
      }
    }
  }

  /** An element the predicate keeps is in the result. */
  lemma FilterHas<T>(s: seq<T>, keep: T -> bool, i: int)
    requires 0 <= i < |s| && keep(s[i])
    ensures s[i] in Filter(s, keep)
  {
    FilterMembers(s, keep);
  }

  /** A predicate that keeps everything leaves the list as it was. */
  lemma {:induction false} FilterKeepsAll<T>(s: seq<T>, keep: T -> bool)
    requires forall i :: 0 <= i < |s| ==> keep(s[i])
    ensures Filter(s, keep) == s
  {
    if s != [] {
      FilterKeepsAll(s[1..], keep);
    }
  }

  /** The filter keeps every element exactly when the predicate holds for
      all of them, and none exactly when it holds for none. */
  lemma {:induction false} FilterLength<T>(s: seq<T>, keep: T -> bool)
    ensures |Filter(s, keep)| == |s| <==> forall i :: 0 <= i < |s| ==> keep(s[i])
    ensures |Filter(s, keep)| == 0 <==> forall i :: 0 <= i < |s| ==> !keep(s[i])
  {
    if s != [] {
      FilterLength(s[1..], keep);
      assert forall i :: 1 <= i < |s| ==> s[i] == s[1..][i - 1];
      if !keep(s[0]) {
        assert |Filter(s, keep)| <= |s| - 1;
      }
    }
  }

  /** The filter keeps the relative order of the elements it keeps. */
  lemma {:induction false} FilterOrdered<T>(s: seq<T>, keep: T -> bool, before: (T, T) -> bool)
    requires forall i, j :: 0 <= i < j < |s| ==> before(s[i], s[j])
    ensures forall i, j :: 0 <= i < j < |Filter(s, keep)| ==> before(Filter(s, keep)[i], Filter(s, keep)[j])
  {
    if s != [] {
      var rest := Filter(s[1..], keep);
      FilterOrdered(s[1..], keep, before);
      FilterMembers(s[1..], keep);
      if keep(s[0]) {
        forall j | 0 <= j < |rest| ensures before(s[0], rest[j]) {
          assert rest[j] in multiset(rest);
          assert rest[j] in multiset(s[1..]);
          var k :| 0 <= k < |s[1..]| && s[1..][k] == rest[j];
          assert s[k + 1] == rest[j];
        }
      }
    }
  }

  // ---------------------------------------------------------------------
  // sort

  function Sign(x: int): int { if x < 0 then -1 else if x > 0 then 1 else 0 }

  /** What `Array.prototype.sort` asks of a comparator: swapping the
      arguments flips the sign of the answer, and "not after" is transitive. */
  ghost predicate Consistent<T(!new)>(cmp: (T, T) -> int) {
    && (forall a, b :: Sign(cmp(a, b)) == -Sign(cmp(b, a)))
    && (forall a, b, c :: cmp(a, b) <= 0 && cmp(b, c) <= 0 ==> cmp(a, c) <= 0)
  }

  /** Every element is placed no later than every element after it. */
  ghost predicate Sorted<T>(s: seq<T>, cmp: (T, T) -> int) {
    forall i, j :: 0 <= i < j < |s| ==> cmp(s[i], s[j]) <= 0
  }

  /** Insert `x` before the first element it does not come after, so it
      lands ahead of any element that compares equal to it. */
  function Insert<T>(x: T, s: seq<T>, cmp: (T, T) -> int): seq<T>
  {
    if s == [] then [x]
    else if cmp(x, s[0]) <= 0 then [x] + s
    else [s[0]] + Insert(x, s[1..], cmp)
  }

  /** A stable sort: insertion of each element into the sorted rest. */
  function Sort<T>(s: seq<T>, cmp: (T, T) -> int): seq<T>
  {
    if s == [] then [] else Insert(s[0], Sort(s[1..], cmp), cmp)
  }

  /** Inserting adds exactly one occurrence of `x`. */
  lemma {:induction false} InsertPermutes<T>(x: T, s: seq<T>, cmp: (T, T) -> int)
    ensures multiset(Insert(x, s, cmp)) == multiset(s) + multiset{x}
  {
    if s != [] && cmp(x, s[0]) > 0 {
      InsertPermutes(x, s[1..], cmp);
      assert s == [s[0]] + s[1..];
    }
  }

  lemma {:induction false} InsertSorted<T(!new)>(x: T, s: seq<T>, cmp: (T, T) -> int)
    requires Consistent(cmp) && Sorted(s, cmp)
    ensures Sorted(Insert(x, s, cmp), cmp)
  {
    if s != [] && cmp(x, s[0]) > 0 {
      assert Sign(cmp(s[0], x)) == -Sign(cmp(x, s[0]));
      var rest := Insert(x, s[1..], cmp);
      InsertSorted(x, s[1..], cmp);
      InsertPermutes(x, s[1..], cmp);
      HeadNotAfterAny(s[0], x, s[1..], rest, cmp);
      SortedCons(s[0], rest, cmp);
    }
  }

  /** An element no later than `x` and than every element of `tail` is no
      later than any element of a permutation of `tail` plus `x`. */
  lemma HeadNotAfterAny<T>(h: T, x: T, tail: seq<T>, rest: seq<T>, cmp: (T, T) -> int)
    requires cmp(h, x) <= 0
    requires forall j :: 0 <= j < |tail| ==> cmp(h, tail[j]) <= 0
    requires multiset(rest) == multiset(tail) + multiset{x}
    ensures forall j :: 0 <= j < |rest| ==> cmp(h, rest[j]) <= 0
  {
    forall j | 0 <= j < |rest| ensures cmp(h, rest[j]) <= 0 {
      assert rest[j] in multiset(rest);
      if rest[j] != x {
        assert rest[j] in multiset(tail);
        var k :| 0 <= k < |tail| && tail[k] == rest[j];
      }
    }
  }

  /** Prepending an element no later than any of a sorted list keeps it sorted. */
  lemma SortedCons<T>(h: T, rest: seq<T>, cmp: (T, T) -> int)
    requires Sorted(rest, cmp)
    requires forall j :: 0 <= j < |rest| ==> cmp(h, rest[j]) <= 0
    ensures Sorted([h] + rest, cmp)
  {
    var r := [h] + rest;
    forall i, j | 0 <= i < j < |r| ensures cmp(r[i], r[j]) <= 0 {
      if i == 0 {
        assert r[j] == rest[j - 1];
      } else {
        assert r[i] == rest[i - 1] && r[j] == rest[j - 1];
      }
    }
  }

  /** `Sort` orders its input under any consistent comparator and is a
      permutation of it. */
  lemma SortCorrect<T(!new)>(s: seq<T>, cmp: (T, T) -> int)
    requires Consistent(cmp)
    ensures Sorted(Sort(s, cmp), cmp)
    ensures multiset(Sort(s, cmp)) == multiset(s)
  {
    SortSorted(s, cmp);
    SortPermutes(s, cmp);
  }

  lemma {:induction false} SortSorted<T(!new)>(s: seq<T>, cmp: (T, T) -> int)
    requires Consistent(cmp)
    ensures Sorted(Sort(s, cmp), cmp)
  {
    if s != [] {
      SortSorted(s[1..], cmp);
      InsertSorted(s[0], Sort(s[1..], cmp), cmp);
    }
  }

  lemma {:induction false} SortPermutes<T>(s: seq<T>, cmp: (T, T) -> int)
    ensures multiset(Sort(s, cmp)) == multiset(s)
  {
    if s != [] {
      SortPermutes(s[1..], cmp);
      InsertPermutes(s[0], Sort(s[1..], cmp), cmp);
      assert s == [s[0]] + s[1..];
    }
  }

  /** The comparator `(a, b) => -cmp(a, b)` used for descending order. */
  function Negated<T>(cmp: (T, T) -> int): (T, T) -> int
  {
    (a: T, b: T) => -cmp(a, b)
  }

  /** Negating a consistent comparator keeps it consistent. */
  lemma NegatedConsistent<T(!new)>(cmp: (T, T) -> int)
    requires Consistent(cmp)
    ensures Consistent(Negated(cmp))
  {
    var neg := Negated(cmp);
    forall a, b, c | neg(a, b) <= 0 && neg(b, c) <= 0 ensures neg(a, c) <= 0 {
      assert Sign(cmp(b, a)) == -Sign(cmp(a, b));
      assert Sign(cmp(c, b)) == -Sign(cmp(b, c));
      assert Sign(cmp(c, a)) == -Sign(cmp(a, c));
    }
  }

  /** Sorting with the negated comparator puts every element no EARLIER
      than the ones after it under the original comparator. */
  lemma NegatedSortReversed<T(!new)>(s: seq<T>, cmp: (T, T) -> int)
    requires Consistent(cmp)
    ensures var r := Sort(s, Negated(cmp));
      (forall i, j :: 0 <= i < j < |r| ==> cmp(r[j], r[i]) <= 0) && multiset(r) == multiset(s)
  {
    NegatedConsistent(cmp);
    SortCorrect(s, Negated(cmp));
    var r := Sort(s, Negated(cmp));
    forall i, j | 0 <= i < j < |r| ensures cmp(r[j], r[i]) <= 0 {
      assert Negated(cmp)(r[i], r[j]) <= 0;
      assert Sign(cmp(r[j], r[i])) == -Sign(cmp(r[i], r[j]));
    }
  }

  // ---------------------------------------------------------------------
  // slice

  function Min(a: int, b: int): int { if a <= b then a else b }
  function Max(a: int, b: int): int { if a >= b then a else b }

  /** `s.slice(start, end)`: a negative bound counts from the end, bounds
      are clamped to the list, and an empty range gives `[]`. */
  function Slice<T>(s: seq<T>, start: int, end: int): seq<T>
  {
    var from := if start < 0 then Max(|s| + start, 0) else Min(start, |s|);
    var to := if end < 0 then Max(|s| + end, 0) else Min(end, |s|);
    if from < to then s[from..to] else []
  }
}
