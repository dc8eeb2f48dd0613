/** LINQ's `Where`, `Distinct`, `OrderBy` and `ThenBy`, as functions on
    sequences. An order is a "less than or equal" relation `le`; `ByKey` and
    `ThenBy` build the relation that `OrderBy(key, comparer).ThenBy(key2,
    comparer2)` sorts by, and `SortBy` is an insertion sort by it.
 */
module Sorting {
  import Text

  ghost predicate Reflexive<T(!new)>(le: (T, T) -> bool) {
    forall a :: le(a, a)
  }

  ghost predicate Transitive<T(!new)>(le: (T, T) -> bool) {
    forall a, b, c :: le(a, b) && le(b, c) ==> le(a, c)
  }

  ghost predicate Total<T(!new)>(le: (T, T) -> bool) {
    forall a, b :: le(a, b) || le(b, a)
  }

  /** What a comparer must be for `OrderBy` to sort by it. */
  ghost predicate TotalPreorder<T(!new)>(le: (T, T) -> bool) {
    Reflexive(le) && Transitive(le) && Total(le)
  }

  ghost predicate Antisymmetric<T(!new)>(le: (T, T) -> bool) {
    forall a, b :: le(a, b) && le(b, a) ==> a == b
  }

  /** Every element is `le` every later one. */
  predicate SortedBy<T>(s: seq<T>, le: (T, T) -> bool) {
    forall i, j :: 0 <= i < j < |s| ==> le(s[i], s[j])
  }

  /** `Comparer<int>.Default`. */
  predicate IntLe(a: int, b: int) {
    a <= b
  }

  /** `OrderBy(key, comparer)`: compare the keys. */
  function ByKey<T, K>(key: T -> K, le: (K, K) -> bool): (T, T) -> bool {
    (a: T, b: T) => le(key(a), key(b))
  }

  /** `.ThenBy(...)`: order by `first`, and by `second` among the elements
      that `first` finds equal. */
  function ThenBy<T>(first: (T, T) -> bool, second: (T, T) -> bool): (T, T) -> bool {
    (a: T, b: T) => first(a, b) && (!first(b, a) || second(a, b))
  }

  lemma ByKeyTotalPreorder<T(!new), K(!new)>(key: T -> K, le: (K, K) -> bool)
    requires TotalPreorder(le)
    ensures TotalPreorder(ByKey(key, le))
  {
  }

  lemma ThenByTotalPreorder<T(!new)>(first: (T, T) -> bool, second: (T, T) -> bool)
    requires TotalPreorder(first) && TotalPreorder(second)
    ensures TotalPreorder(ThenBy(first, second))
  {
    var le := ThenBy(first, second);
    forall a, b, c | le(a, b) && le(b, c) ensures le(a, c) {
      assert first(a, c);
      if first(c, a) {
        assert first(b, a) && first(c, b);
        assert second(a, b) && second(b, c);
      }
    }
  }

  /** Ordering by two keys: the sorted sequence is ordered by the first key,
      and by the second among elements whose first keys are equivalent. */
  lemma ThenByMeaning<T>(first: (T, T) -> bool, second: (T, T) -> bool, a: T, b: T)
    ensures ThenBy(first, second)(a, b) <==>
      (first(a, b) && !first(b, a)) || (first(a, b) && first(b, a) && second(a, b))
  {
  }

  lemma IntLeTotalPreorder()
    ensures TotalPreorder(IntLe) && Antisymmetric(IntLe)
  {
  }

  /** `StringComparer.Ordinal`. */
  lemma LexLeTotalOrder()
    ensures TotalPreorder(Text.LexLe) && Antisymmetric(Text.LexLe)
  {
    forall a { Text.LexLeReflexive(a); }
    forall a, b, c | Text.LexLe(a, b) && Text.LexLe(b, c) ensures Text.LexLe(a, c) {
      Text.LexLeTransitive(a, b, c);
    }
    forall a, b ensures Text.LexLe(a, b) || Text.LexLe(b, a) { Text.LexLeTotal(a, b); }
    forall a, b | Text.LexLe(a, b) && Text.LexLe(b, a) ensures a == b {
      Text.LexLeAntisymmetric(a, b);
    }
  }

  // ---------------------------------------------------------------------
  // Where

  /** `Where(p)`: the elements satisfying `p`, in their order. */
  function Filter<T(!new)>(s: seq<T>, p: T -> bool): (r: seq<T>)
    ensures forall x :: multiset(r)[x] == if p(x) then multiset(s)[x] else 0
    ensures forall i :: 0 <= i < |r| ==> p(r[i]) && r[i] in s
  {
    if s == [] then []
    else
      var rest := Filter(s[1..], p);
      assert s == [s[0]] + s[1..];
      if p(s[0]) then [s[0]] + rest else rest
  }

  /** `a` is `b` with some elements left out: its elements occur in `b` in
      the same order. */
  predicate IsSubsequence<T(==)>(a: seq<T>, b: seq<T>)
    decreases |b|
  {
    if a == [] then true
    else if b == [] then false
    else (a[0] == b[0] && IsSubsequence(a[1..], b[1..])) || IsSubsequence(a, b[1..])
  }

  /** Every sequence is a subsequence of itself. */
  lemma {:induction false} SubsequenceReflexive<T>(s: seq<T>)
    ensures IsSubsequence(s, s)
  {
    if s != [] { SubsequenceReflexive(s[1..]); }
  }

  /** `Where(p)` keeps the order of its input. */
  lemma {:induction false} FilterInOrder<T(!new)>(s: seq<T>, p: T -> bool)
    ensures IsSubsequence(Filter(s, p), s)
  {
    if s != [] {
      FilterInOrder(s[1..], p);
      var r := Filter(s, p);
      if p(s[0]) {
        assert r[0] == s[0] && r[1..] == Filter(s[1..], p);
      }
    }
  }

  /** `Where(p)` reads its input from left to right: one more element at the
      end adds it to the result exactly when it satisfies `p`. Together with
      `Filter([], p) == []` this fixes the result, contents and order. */
  lemma {:induction false} FilterAppend<T(!new)>(s: seq<T>, x: T, p: T -> bool)
    ensures Filter(s + [x], p) == Filter(s, p) + (if p(x) then [x] else [])
  {
    var t := s + [x];
    if s == [] {
      FilterCons(t, p);
      assert t[1..] == [];
    } else {
      var head, tail := (if p(s[0]) then [s[0]] else []), (if p(x) then [x] else []);
      assert t[0] == s[0] && t[1..] == s[1..] + [x];
      calc {
        Filter(t, p);
        { FilterCons(t, p); }
        head + Filter(s[1..] + [x], p);
        { FilterAppend(s[1..], x, p); }
        head + (Filter(s[1..], p) + tail);
        (head + Filter(s[1..], p)) + tail;
        { FilterCons(s, p); }
        Filter(s, p) + tail;
      }
    }
  }

  /** `Where` depends only on what the predicate says about the elements. */
  lemma {:induction false} FilterSame<T(!new)>(s: seq<T>, p: T -> bool, q: T -> bool)
    requires forall i :: 0 <= i < |s| ==> p(s[i]) == q(s[i])
    ensures Filter(s, p) == Filter(s, q)
  {
    if s != [] {
      FilterSame(s[1..], p, q);
      assert p(s[0]) == q(s[0]);
    }
  }

  /** One step of `Filter`, as a fact about its first element. */
  lemma FilterCons<T(!new)>(s: seq<T>, p: T -> bool)
    requires s != []
    ensures Filter(s, p) == (if p(s[0]) then [s[0]] else []) + Filter(s[1..], p)
  {
  }

  lemma {:induction false} FilterAll<T(!new)>(s: seq<T>, p: T -> bool)
    requires forall i :: 0 <= i < |s| ==> p(s[i])
    ensures Filter(s, p) == s
  {
    if s != [] { FilterAll(s[1..], p); }
  }

  /** No element satisfies `p` exactly when `Where(p)` is empty. */
  lemma FilterEmpty<T(!new)>(s: seq<T>, p: T -> bool)
    ensures Filter(s, p) == [] <==> forall i :: 0 <= i < |s| ==> !p(s[i])
  {
    if Filter(s, p) != [] {
      assert Filter(s, p)[0] in s;
    } else {
      forall i | 0 <= i < |s| ensures !p(s[i]) {
        assert multiset(Filter(s, p))[s[i]] == 0;
      }
    }
  }

  /** When exactly one element satisfies `p`, `Where(p)` is that element. */
  lemma {:induction false} FilterSingleton<T(!new)>(s: seq<T>, p: T -> bool, i: nat)
    requires i < |s| && p(s[i])
    requires forall j :: 0 <= j < |s| && j != i ==> !p(s[j])
    ensures Filter(s, p) == [s[i]]
  {
    if i == 0 {
      FilterEmpty(s[1..], p);
    } else {
      FilterSingleton(s[1..], p, i - 1);
    }
  }

  /** Two elements satisfying `p` make `Where(p)` hold at least two. */
  lemma FilterTwo<T(!new)>(s: seq<T>, p: T -> bool, i: nat, j: nat)
    requires i < j < |s| && p(s[i]) && p(s[j])
    ensures |Filter(s, p)| >= 2
  {
    var r := Filter(s, p);
    if s[i] == s[j] {
      TwoOccurrences(s, i, j);
      assert multiset(r)[s[i]] >= 2;
    } else {
      assert multiset{s[i], s[j]} <= multiset(r);
    }
    assert |multiset(r)| == |r|;
  }

  // ---------------------------------------------------------------------
  // Distinct

  /** `Distinct()`: the first occurrence of every element, in order. */
  function Distinct<T(==,!new)>(s: seq<T>): (r: seq<T>)
    ensures forall x :: x in r <==> x in s
    ensures forall i, j :: 0 <= i < j < |r| ==> r[i] != r[j]
  {
    if s == [] then []
    else
      var rest := Distinct(s[..|s| - 1]);
      assert s == s[..|s| - 1] + [s[|s| - 1]];
      if s[|s| - 1] in rest then rest else rest + [s[|s| - 1]]
  }

  // ---------------------------------------------------------------------
  // OrderBy

  /** Puts `x` before the first element it is `le`, so after every element
      that must precede it. */
  function InsertBy<T>(x: T, s: seq<T>, le: (T, T) -> bool): (r: seq<T>)
    ensures multiset(r) == multiset(s) + multiset{x}
  {
    if s == [] || le(x, s[0]) then [x] + s
    else
      assert s == [s[0]] + s[1..];
      [s[0]] + InsertBy(x, s[1..], le)
  }

  /** An insertion sort by `le`: each element goes before the first
      element of the sorted rest that it is `le` to. */
  function SortBy<T>(s: seq<T>, le: (T, T) -> bool): (r: seq<T>)
    ensures multiset(r) == multiset(s)
    ensures |r| == |s|
  {
    if s == [] then []
    else
      assert s == [s[0]] + s[1..];
      InsertBy(s[0], SortBy(s[1..], le), le)
  }

  lemma {:induction false} InsertBySorted<T(!new)>(x: T, s: seq<T>, le: (T, T) -> bool)
    requires TotalPreorder(le) && SortedBy(s, le)
    ensures SortedBy(InsertBy(x, s, le), le)
  {
    if s == [] || le(x, s[0]) {
      var r := [x] + s;
      forall i, j | 0 <= i < j < |r| ensures le(r[i], r[j]) {
        if i == 0 && j > 1 { assert le(s[0], s[j - 1]); }
      }
    } else {
      var tail := InsertBy(x, s[1..], le);
      InsertBySorted(x, s[1..], le);
      assert le(s[0], x);
      var r := [s[0]] + tail;
      forall j | 0 <= j < |tail| ensures le(s[0], tail[j]) {
        assert tail[j] in multiset(s[1..]) + multiset{x};
        if tail[j] != x {
          assert tail[j] in s[1..];
          var k :| 0 <= k < |s[1..]| && s[1..][k] == tail[j];
          assert s[k + 1] == tail[j];
        }
      }
      forall i, j | 0 <= i < j < |r| ensures le(r[i], r[j]) {
        if i > 0 { assert r[i] == tail[i - 1] && r[j] == tail[j - 1]; }
        else { assert r[j] == tail[j - 1]; }
      }
    }
  }

  /** `OrderBy` sorts: the result is a permutation of the input (ensured by
      `SortBy`) that is sorted by any total preorder. */
  lemma {:induction false} SortBySorted<T(!new)>(s: seq<T>, le: (T, T) -> bool)
    requires TotalPreorder(le)
    ensures SortedBy(SortBy(s, le), le)
  {
    if s != [] {
      SortBySorted(s[1..], le);
      InsertBySorted(s[0], SortBy(s[1..], le), le);
    }
  }

  /** Sorting a duplicate-free sequence by an antisymmetric order gives a
      strictly increasing sequence. */
  lemma SortedDistinctStrict<T(!new)>(s: seq<T>, le: (T, T) -> bool)
    requires Antisymmetric(le) && SortedBy(s, le)
    requires forall i, j :: 0 <= i < j < |s| ==> s[i] != s[j]
    ensures forall i, j :: 0 <= i < j < |s| ==> le(s[i], s[j]) && !le(s[j], s[i])
  {
  }

  /** A permutation of a duplicate-free sequence is duplicate-free. */
  lemma PermutationKeepsDistinct<T>(s: seq<T>, r: seq<T>)
    requires multiset(r) == multiset(s)
    requires forall i, j :: 0 <= i < j < |s| ==> s[i] != s[j]
    ensures forall i, j :: 0 <= i < j < |r| ==> r[i] != r[j]
  {
    forall x | x in multiset(s) ensures multiset(s)[x] == 1 {
      DistinctCountOne(s, x);
    }
    forall i, j | 0 <= i < j < |r| ensures r[i] != r[j] {
      if r[i] == r[j] {
        TwoOccurrences(r, i, j);
        assert false;
      }
    }
  }

  lemma TwoOccurrences<T>(r: seq<T>, i: nat, j: nat)
    requires i < j < |r| && r[i] == r[j]
    ensures multiset(r)[r[i]] >= 2
  {
    assert r == r[..i] + [r[i]] + r[i + 1..j] + [r[j]] + r[j + 1..];
  }

  lemma {:induction false} DistinctCountOne<T>(s: seq<T>, x: T)
    requires forall i, j :: 0 <= i < j < |s| ==> s[i] != s[j]
    ensures multiset(s)[x] <= 1
  {
    if s != [] {
      DistinctCountOne(s[1..], x);
      assert s == [s[0]] + s[1..];
      if s[0] == x { assert x !in s[1..]; }
    }
  }
}
