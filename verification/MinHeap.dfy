// The hand-rolled binary min-heap of frontier/heap.go (waitHeap) and frontier/wheel.go (overHeap).
// Both order their items by a key, here rank, and differ only in the item they carry.
module MinHeap {

  function Parent(k: nat): nat
    requires k > 0
  {
    (k - 1) / 2
  }

  ghost predicate Ordered<T>(a: seq<T>, rank: T -> nat, k: nat)
    requires 0 < k < |a|
  {
    rank(a[Parent(k)]) <= rank(a[k])
  }

  ghost predicate IsHeap<T>(a: seq<T>, rank: T -> nat) {
    forall k :: 0 < k < |a| ==> Ordered(a, rank, k)
  }

  lemma {:induction false} RootIsMin<T>(a: seq<T>, rank: T -> nat, i: nat)
    requires IsHeap(a, rank) && i < |a|
    ensures rank(a[0]) <= rank(a[i])
  {
    if i > 0 {
      assert Ordered(a, rank, i);
      RootIsMin(a, rank, Parent(i));
    }
  }

  lemma RootMinAll<T>(a: seq<T>, rank: T -> nat)
    requires IsHeap(a, rank) && a != []
    ensures a[0] in multiset(a)
    ensures forall x :: x in multiset(a) ==> rank(a[0]) <= rank(x)
  {
    forall i | 0 <= i < |a|
      ensures rank(a[0]) <= rank(a[i])
    {
      RootIsMin(a, rank, i);
    }
  }

  function Swap<T>(a: seq<T>, i: nat, j: nat): (b: seq<T>)
    requires i < |a| && j < |a|
    ensures multiset(b) == multiset(a)
  {
    a[i := a[j]][j := a[i]]
  }

  // i's parent, if any, is at most i's children.
  ghost predicate Spans<T>(a: seq<T>, rank: T -> nat, i: nat) {
    forall c :: c == 2 * i + 1 || c == 2 * i + 2 ==> 0 < i && c < |a| ==> rank(a[Parent(i)]) <= rank(a[c])
  }

  // Heap order everywhere except between i and its parent.
  ghost predicate HeapButUp<T>(a: seq<T>, rank: T -> nat, i: nat) {
    (forall k :: 0 < k < |a| && k != i ==> Ordered(a, rank, k)) && Spans(a, rank, i)
  }

  // Heap order everywhere except between i and its children.
  ghost predicate HeapButDown<T>(a: seq<T>, rank: T -> nat, i: nat) {
    (forall k :: 0 < k < |a| && Parent(k) != i ==> Ordered(a, rank, k)) && Spans(a, rank, i)
  }

  lemma SwapUp<T>(a: seq<T>, rank: T -> nat, i: nat)
    requires 0 < i < |a| && HeapButUp(a, rank, i) && !Ordered(a, rank, i)
    ensures HeapButUp(Swap(a, Parent(i), i), rank, Parent(i))
  {
    var p := Parent(i);
    var b := Swap(a, p, i);
    forall k | 0 < k < |b| && k != p
      ensures Ordered(b, rank, k)
    {
      if k != i {
        assert Ordered(a, rank, k);
      }
    }
    forall c | (c == 2 * p + 1 || c == 2 * p + 2) && 0 < p && c < |b|
      ensures rank(b[Parent(p)]) <= rank(b[c])
    {
      assert Ordered(a, rank, p);
      if c != i {
        assert Ordered(a, rank, c);
      }
    }
  }

  lemma SwapDown<T>(a: seq<T>, rank: T -> nat, i: nat, c: nat)
    requires i < c < |a| && Parent(c) == i && HeapButDown(a, rank, i) && rank(a[c]) <= rank(a[i])
    requires forall s :: 0 < s < |a| && Parent(s) == i ==> rank(a[c]) <= rank(a[s])
    ensures HeapButDown(Swap(a, i, c), rank, c)
  {
    var b := Swap(a, i, c);
    forall k | 0 < k < |b| && Parent(k) != c
      ensures Ordered(b, rank, k)
    {
      if Parent(k) != i {
        assert Ordered(a, rank, k);
        assert k == i ==> k == 2 * Parent(i) + 1 || k == 2 * Parent(i) + 2;
        assert k == i ==> rank(a[Parent(i)]) <= rank(a[c]) by {
          assert c == 2 * i + 1 || c == 2 * i + 2;
        }
      }
    }
    forall g | (g == 2 * c + 1 || g == 2 * c + 2) && g < |b|
      ensures rank(b[Parent(c)]) <= rank(b[g])
    {
      assert Parent(g) == c;
      assert Ordered(a, rank, g);
    }
  }

  method Push<T>(a: seq<T>, it: T, rank: T -> nat) returns (b: seq<T>)
    requires IsHeap(a, rank)
    ensures IsHeap(b, rank)
    ensures multiset(b) == multiset(a) + multiset{it}
  {
    b := a + [it];
    assert forall k :: 0 < k < |a| ==> Ordered(a, rank, k) ==> Ordered(b, rank, k);
    var i: nat := |a|;
    while i > 0
      invariant i < |b|
      invariant multiset(b) == multiset(a) + multiset{it}
      invariant HeapButUp(b, rank, i)
    {
      if rank(b[Parent(i)]) <= rank(b[i]) {
        assert Ordered(b, rank, i);
        return;
      }
      SwapUp(b, rank, i);
      b := Swap(b, Parent(i), i);
      i := Parent(i);
    }
  }

  method Pop<T>(a: seq<T>, rank: T -> nat) returns (top: T, b: seq<T>)
    requires IsHeap(a, rank) && a != []
    ensures top == a[0] && IsHeap(b, rank)
    ensures multiset(a) == multiset(b) + multiset{top}
  {
    var n := |a| - 1;
    top := a[0];
    b := a[0 := a[n]][..n];
    LastToRoot(a);
    assert HeapButDown(b, rank, 0) by {
      forall k | 0 < k < n && Parent(k) != 0
        ensures Ordered(b, rank, k)
      {
        assert Ordered(a, rank, k);
      }
    }
    var i: nat := 0;
    while true
      invariant i <= n && (i < n || n == 0)
      invariant |b| == n && multiset(a) == multiset(b) + multiset{top}
      invariant HeapButDown(b, rank, i)
      decreases n - i
    {
      var l, r := 2 * i + 1, 2 * i + 2;
      var small := i;
      if l < n && rank(b[l]) < rank(b[small]) {
        small := l;
      }
      if r < n && rank(b[r]) < rank(b[small]) {
        small := r;
      }
      assert forall s :: 0 < s < n && Parent(s) == i ==> s == l || s == r;
      if small == i {
        assert forall s :: 0 < s < n && Parent(s) == i ==> Ordered(b, rank, s);
        return;
      }
      SwapDown(b, rank, i, small);
      b := Swap(b, i, small);
      i := small;
    }
  }

  lemma LastToRoot<T>(a: seq<T>)
    requires a != []
    ensures multiset(a) == multiset(a[0 := a[|a| - 1]][..|a| - 1]) + multiset{a[0]}
  {
    var n := |a| - 1;
    var c := a[0 := a[n]];
    if n > 0 {
      assert a == [a[0]] + a[1..n] + [a[n]];
      assert c[..n] == [a[n]] + a[1..n];
    }
  }
}
