// sort.Slice: any order-respecting permutation. The order of elements that compare equal is not
// fixed, and nothing proved here depends on it.
module Sorting {

  ghost predicate StrictWeak<T(!new)>(less: (T, T) -> bool) {
    && (forall a, b :: less(a, b) ==> !less(b, a))
    && (forall a, b, c :: !less(a, b) && !less(b, c) ==> !less(a, c))
  }

  ghost predicate Sorted<T>(s: seq<T>, less: (T, T) -> bool) {
    forall i, j :: 0 <= i < j < |s| ==> !less(s[j], s[i])
  }

  ghost predicate Permutation<T>(a: seq<T>, b: seq<T>) {
    multiset(a) == multiset(b)
  }

  lemma PermutationMembers<T>(a: seq<T>, b: seq<T>)
    requires Permutation(a, b)
    ensures |a| == |b| && forall x :: x in a <==> x in b
  {
    assert |a| == |multiset(a)| && |b| == |multiset(b)|;
    forall x
      ensures x in a <==> x in b
    {
      assert (x in a <==> x in multiset(a)) && (x in b <==> x in multiset(b));
    }
  }

  ghost predicate Distinct<T>(s: seq<T>) {
    forall i, j :: 0 <= i < j < |s| ==> s[i] != s[j]
  }

  lemma DistinctPermutation<T>(a: seq<T>, b: seq<T>)
    requires Permutation(a, b) && Distinct(b)
    ensures Distinct(a)
  {
    forall i, j | 0 <= i < j < |a|
      ensures a[i] != a[j]
    {
      if a[i] == a[j] {
        Twice(a, i, j);
        DistinctOnce(b, a[i]);
      }
    }
  }

  lemma Twice<T>(a: seq<T>, i: nat, j: nat)
    requires i < j < |a| && a[i] == a[j]
    ensures multiset(a)[a[i]] >= 2
  {
    assert a == a[..j] + [a[j]] + a[j + 1..];
    assert a[i] in a[..j];
  }

  lemma {:induction false} DistinctOnce<T>(b: seq<T>, x: T)
    requires Distinct(b)
    ensures multiset(b)[x] <= 1
  {
    if b != [] {
      DistinctOnce(b[1..], x);
      assert b == [b[0]] + b[1..];
      assert b[0] !in b[1..];
    }
  }

  // Put x where nothing after it comes before it.
  method Insert<T(!new)>(s: seq<T>, x: T, less: (T, T) -> bool) returns (out: seq<T>, ghost at: nat)
    requires StrictWeak(less) && Sorted(s, less)
    ensures at <= |s| && out == s[..at] + [x] + s[at..] && Sorted(out, less)
  {
    var j := |s|;
    while j > 0 && less(x, s[j - 1])
      invariant 0 <= j <= |s| && forall k :: j <= k < |s| ==> less(x, s[k])
    {
      j := j - 1;
    }
    at := j;
    out := s[..j] + [x] + s[j..];
    assert forall k :: 0 <= k < j ==> out[k] == s[k] && !less(x, out[k]);
    assert forall k :: j < k < |out| ==> out[k] == s[k - 1] && less(x, out[k]);
  }

  lemma InsertKeeps<T>(s: seq<T>, at: nat, x: T)
    requires at <= |s|
    ensures multiset(s[..at] + [x] + s[at..]) == multiset(s) + multiset{x}
  {
    assert s == s[..at] + s[at..];
  }

  method SortBy<T(!new)>(a: seq<T>, less: (T, T) -> bool) returns (out: seq<T>)
    requires StrictWeak(less)
    ensures Sorted(out, less) && Permutation(out, a)
  {
    hide StrictWeak, Sorted;
    out := [];
    SortedNone<T>(less);
    assert a[..0] == [];
    for i := 0 to |a|
      invariant Sorted(out, less) && multiset(out) == multiset(a[..i])
    {
      ghost var was := out;
      ghost var at;
      out, at := Insert(out, a[i], less);
      InsertKeeps(was, at, a[i]);
      assert a[..i + 1] == a[..i] + [a[i]];
    }
    assert a[..|a|] == a;
  }

  lemma SortedNone<T>(less: (T, T) -> bool)
    ensures Sorted([], less)
  {
  }
}
