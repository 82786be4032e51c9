/** The sort the site relies on: `Array.prototype.sort` with a comparator on
    the TypeScript side and `DataFrame.sort_values` on the Python side. Both
    are modelled by one stable insertion sort. A comparator `cmp` is given as
    the relation `before(a, b)`, "cmp(a, b) < 0 or a may stay ahead of b",
    which for every comparator of the site is a total preorder. */
module Sorting {

  ghost predicate Total<T(!new)>(before: (T, T) -> bool)
  {
    forall a, b :: before(a, b) || before(b, a)
  }

  ghost predicate Transitive<T(!new)>(before: (T, T) -> bool)
  {
    forall a, b, c :: before(a, b) && before(b, c) ==> before(a, c)
  }

  /** Every element may stay ahead of every later one. */
  ghost predicate SortedBy<T>(s: seq<T>, before: (T, T) -> bool)
  {
    forall i, j :: 0 <= i < j < |s| ==> before(s[i], s[j])
  }

  /** Puts `x` behind the last element of the sorted `ys` that may stay
      ahead of it. */
  function Insert<T>(ys: seq<T>, x: T, before: (T, T) -> bool): seq<T>
  {
    if ys == [] then [x]
    else if before(ys[|ys| - 1], x) then ys + [x]
    else Insert(ys[..|ys| - 1], x, before) + [ys[|ys| - 1]]
  }

  lemma {:induction false} InsertIsPermutation<T>(ys: seq<T>, x: T, before: (T, T) -> bool)
    ensures multiset(Insert(ys, x, before)) == multiset(ys) + multiset{x}
    ensures |Insert(ys, x, before)| == |ys| + 1
  {
    if ys != [] && !before(ys[|ys| - 1], x) {
      InsertIsPermutation(ys[..|ys| - 1], x, before);
      MultisetOfSnoc(ys);
    }
  }

  /** Insertion sort, taking the elements from left to right. */
  function InsertionSort<T>(s: seq<T>, before: (T, T) -> bool): (r: seq<T>)
  {
    if s == [] then []
    else Insert(InsertionSort(s[..|s| - 1], before), s[|s| - 1], before)
  }

  /** The sort reorders and does nothing else. */
  lemma {:induction false} SortIsPermutation<T>(s: seq<T>, before: (T, T) -> bool)
    ensures multiset(InsertionSort(s, before)) == multiset(s)
    ensures |InsertionSort(s, before)| == |s|
  {
    if s != [] {
      var init, x := s[..|s| - 1], s[|s| - 1];
      var sorted := InsertionSort(init, before);
      SortIsPermutation(init, before);
      InsertIsPermutation(sorted, x, before);
      assert InsertionSort(s, before) == Insert(sorted, x, before);
      MultisetOfSnoc(s);
    }
  }

  lemma MultisetOfSnoc<T>(s: seq<T>)
    requires s != []
    ensures multiset(s) == multiset(s[..|s| - 1]) + multiset{s[|s| - 1]}
  {
    assert s == s[..|s| - 1] + [s[|s| - 1]];
  }

  lemma {:induction false} InsertKeepsSorted<T(!new)>(ys: seq<T>, x: T, before: (T, T) -> bool)
    requires Total(before) && Transitive(before)
    requires SortedBy(ys, before)
    ensures SortedBy(Insert(ys, x, before), before)
  {
    if ys != [] {
      var last := ys[|ys| - 1];
      var init := ys[..|ys| - 1];
      if before(last, x) {
        var r := ys + [x];
        forall i, j | 0 <= i < j < |r| ensures before(r[i], r[j]) {
          if j == |ys| && i < |ys| - 1 {
            assert before(ys[i], last);
          }
        }
      } else {
        assert before(x, last);
        InsertKeepsSorted(init, x, before);
        var r := Insert(init, x, before);
        InsertIsPermutation(init, x, before);
        assert multiset(r) == multiset(init) + multiset{x};
        forall i | 0 <= i < |r| ensures before(r[i], last) {
          assert r[i] in multiset(r);
          if r[i] != x {
            assert r[i] in multiset(init);
            var k :| 0 <= k < |init| && init[k] == r[i];
            assert before(ys[k], ys[|ys| - 1]);
          }
        }
      }
    }
  }

  /** Under a total preorder the sort's output is in order. */
  lemma {:induction false} SortIsSorted<T(!new)>(s: seq<T>, before: (T, T) -> bool)
    requires Total(before) && Transitive(before)
    ensures SortedBy(InsertionSort(s, before), before)
  {
    if s != [] {
      SortIsSorted(s[..|s| - 1], before);
      InsertKeepsSorted(InsertionSort(s[..|s| - 1], before), s[|s| - 1], before);
    }
  }

  /** Copies `s` into a fresh array and sorts it there. */
  method SortedCopy<T>(s: seq<T>, before: (T, T) -> bool) returns (r: seq<T>)
    ensures r == InsertionSort(s, before)
  {
    var a := new T[|s|](i requires 0 <= i < |s| => s[i]);
    assert a[..] == s;
    SortInPlace(a, before);
    r := a[..];
  }

  /** Sorts `a` in place, as the library sorts do; the result is the
      insertion sort of the old contents. */
  method SortInPlace<T>(a: array<T>, before: (T, T) -> bool)
    modifies a
    ensures a[..] == InsertionSort(old(a[..]), before)
  {
    ghost var orig := a[..];
    var i := 0;
    while i < a.Length
      invariant 0 <= i <= a.Length
      invariant a[..i] == InsertionSort(orig[..i], before)
      invariant a[i..] == orig[i..]
    {
      assert a[i] == orig[i] by { assert a[i..][0] == orig[i..][0]; }
      InsertAt(a, i, before);
      SortPrefix(orig, i, before);
      assert a[i + 1..] == orig[i + 1..] by { assert orig[i..][1..] == orig[i + 1..]; }
      i := i + 1;
    }
    assert orig[..a.Length] == orig;
  }

  /** One pass of the insertion sort: moves `a[i]` down into the sorted
      `a[..i]`, swapping it with each larger neighbour. */
  method InsertAt<T>(a: array<T>, i: nat, before: (T, T) -> bool)
    requires i < a.Length
    modifies a
    ensures a[..i + 1] == Insert(old(a[..i]), old(a[i]), before)
    ensures a[i + 1..] == old(a[i + 1..])
  {
    ghost var sorted := a[..i];
    ghost var x := a[i];
    var j := i;
    assert sorted[..j] == sorted && sorted[j..] == [];
    while j > 0 && !before(a[j - 1], a[j])
      invariant 0 <= j <= i
      invariant forall k :: 0 <= k < j ==> a[k] == sorted[k]
      invariant a[j] == x
      invariant forall k :: j < k <= i ==> a[k] == sorted[k - 1]
      invariant a[i + 1..] == old(a[i + 1..])
      invariant Insert(sorted, x, before) == Insert(sorted[..j], x, before) + sorted[j..]
    {
      InsertStep(sorted, j, x, before);
      a[j - 1], a[j] := a[j], a[j - 1];
      j := j - 1;
    }
    InsertDone(a[..i + 1], sorted, j, x, before);
  }

  /** After the last swap, `x` sits at `j` between the two parts of
      `sorted`: that is where `Insert` puts it. */
  lemma InsertDone<T>(done: seq<T>, sorted: seq<T>, j: nat, x: T, before: (T, T) -> bool)
    requires j <= |sorted| && |done| == |sorted| + 1
    requires j == 0 || before(sorted[j - 1], x)
    requires forall k :: 0 <= k < j ==> done[k] == sorted[k]
    requires done[j] == x
    requires forall k :: j < k < |done| ==> done[k] == sorted[k - 1]
    requires Insert(sorted, x, before) == Insert(sorted[..j], x, before) + sorted[j..]
    ensures done == Insert(sorted, x, before)
  {
    assert Insert(sorted[..j], x, before) == sorted[..j] + [x];
    assert done == sorted[..j] + [x] + sorted[j..];
  }

  lemma SortPrefix<T>(s: seq<T>, k: nat, before: (T, T) -> bool)
    requires k < |s|
    ensures InsertionSort(s[..k + 1], before) == Insert(InsertionSort(s[..k], before), s[k], before)
  {
    assert s[..k + 1][..k] == s[..k];
  }

  lemma InsertStep<T>(sorted: seq<T>, j: nat, x: T, before: (T, T) -> bool)
    requires 0 < j <= |sorted|
    requires !before(sorted[j - 1], x)
    ensures Insert(sorted[..j], x, before) + sorted[j..]
         == Insert(sorted[..j - 1], x, before) + sorted[j - 1..]
  {
    assert sorted[..j][..j - 1] == sorted[..j - 1];
    assert sorted[j - 1..] == [sorted[j - 1]] + sorted[j..];
  }

  /** `sub` is `s` with some elements left out, in the same order. */
  predicate IsSubsequence<T(==)>(sub: seq<T>, s: seq<T>)
  {
    if sub == [] then true
    else if s == [] then false
    else if sub[0] == s[0] then IsSubsequence(sub[1..], s[1..])
    else IsSubsequence(sub, s[1..])
  }

  lemma {:induction false} SubsequenceLength<T>(sub: seq<T>, s: seq<T>)
    requires IsSubsequence(sub, s)
    ensures |sub| <= |s|
  {
    if sub != [] {
      if sub[0] == s[0] {
        SubsequenceLength(sub[1..], s[1..]);
      } else {
        SubsequenceLength(sub, s[1..]);
      }
    }
  }

  /** No element occurs twice. */
  predicate Distinct<T(==)>(s: seq<T>)
  {
    forall i, j :: 0 <= i < j < |s| ==> s[i] != s[j]
  }

  lemma {:induction false} SubsequenceRefl<T>(s: seq<T>)
    ensures IsSubsequence(s, s)
  {
    if s != [] {
      SubsequenceRefl(s[1..]);
    }
  }

  /** `filter` keeps the relative order, so it keeps sortedness. */
  function Filter<T(==)>(s: seq<T>, keep: T -> bool): (r: seq<T>)
    ensures |r| <= |s|
    ensures IsSubsequence(r, s)
    ensures forall i :: 0 <= i < |r| ==> r[i] in s && keep(r[i])
    ensures forall i :: 0 <= i < |s| && keep(s[i]) ==> s[i] in r
  {
    if s == [] then []
    else if keep(s[0]) then [s[0]] + Filter(s[1..], keep)
    else Filter(s[1..], keep)
  }

  lemma {:induction false} FilterKeepsSorted<T>(s: seq<T>, keep: T -> bool, before: (T, T) -> bool)
    requires SortedBy(s, before)
    ensures SortedBy(Filter(s, keep), before)
  {
    if s != [] {
      FilterKeepsSorted(s[1..], keep, before);
      var r := Filter(s, keep);
      if keep(s[0]) {
        forall j | 1 <= j < |r| ensures before(r[0], r[j]) {
          assert r[j] in Filter(s[1..], keep);
        }
      }
    }
  }

  /** Filtering a sequence whose kept elements all come first keeps a
      prefix of it. */
  lemma {:induction false} FilterOfFrontIsPrefix<T>(s: seq<T>, keep: T -> bool)
    requires forall i, j :: 0 <= i < j < |s| && keep(s[j]) ==> keep(s[i])
    ensures Filter(s, keep) == s[..|Filter(s, keep)|]
  {
    if s != [] {
      var tail := s[1..];
      forall i, j | 0 <= i < j < |tail| && keep(tail[j]) ensures keep(tail[i]) {
        assert tail[i] == s[i + 1] && tail[j] == s[j + 1];
      }
      FilterOfFrontIsPrefix(tail, keep);
      var r := Filter(tail, keep);
      if keep(s[0]) {
        assert Filter(s, keep) == [s[0]] + tail[..|r|];
        assert [s[0]] + tail[..|r|] == s[..|r| + 1];
      } else {
        forall j | 0 <= j < |tail| ensures !keep(tail[j]) {
          assert tail[j] == s[j + 1];
        }
        FilterNoneKept(tail, keep);
      }
    }
  }

  lemma {:induction false} FilterNoneKept<T>(s: seq<T>, keep: T -> bool)
    requires forall j :: 0 <= j < |s| ==> !keep(s[j])
    ensures Filter(s, keep) == []
  {
    if s != [] {
      FilterNoneKept(s[1..], keep);
    }
  }

  /** Filtering a concatenation filters each part. */
  lemma {:induction false} FilterConcat<T>(a: seq<T>, b: seq<T>, keep: T -> bool)
    ensures Filter(a + b, keep) == Filter(a, keep) + Filter(b, keep)
  {
    if a == [] {
      assert a + b == b;
    } else {
      assert (a + b)[0] == a[0];
      assert (a + b)[1..] == a[1..] + b;
      FilterConcat(a[1..], b, keep);
    }
  }
}
