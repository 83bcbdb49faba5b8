/**
  Sorting of roll results. `SortSeq` is the specification (an insertion
  sort on sequences); `SortInPlace` models the in-place `slice::sort` that
  `Dice::roll`, `DiceRoll::from` and `DiceRoll::and` call on a local vector.
  A sorted permutation is unique, so the two always agree.
 */
module Sorting {
  import opened Numbers

  predicate Sorted(xs: seq<u32>) {
    forall i, j | 0 <= i < j < |xs| :: xs[i] <= xs[j]
  }

  function Insert(x: u32, xs: seq<u32>): (r: seq<u32>)
    ensures |r| == |xs| + 1
  {
    if xs == [] || x <= xs[0] then [x] + xs else [xs[0]] + Insert(x, xs[1..])
  }

  lemma {:induction false} InsertMultiset(x: u32, xs: seq<u32>)
    ensures multiset(Insert(x, xs)) == multiset(xs) + multiset{x}
  {
    if xs != [] && x > xs[0] {
      InsertMultiset(x, xs[1..]);
      assert xs == [xs[0]] + xs[1..];
    }
  }

  lemma {:induction false} InsertSorted(x: u32, xs: seq<u32>)
    requires Sorted(xs)
    ensures Sorted(Insert(x, xs))
  {
    if xs != [] && x > xs[0] {
      InsertSorted(x, xs[1..]);
      var t := Insert(x, xs[1..]);
      assert xs[0] <= t[0];
      assert Insert(x, xs) == [xs[0]] + t;
    }
  }

  lemma MultisetCons(xs: seq<u32>)
    requires |xs| > 0
    ensures multiset(xs) == multiset(xs[1..]) + multiset{xs[0]}
  {
    assert xs == [xs[0]] + xs[1..];
  }

  /** The ascending arrangement of `xs`. */
  function SortSeq(xs: seq<u32>): (r: seq<u32>)
    ensures Sorted(r)
    ensures multiset(r) == multiset(xs)
    ensures |r| == |xs|
  {
    if xs == [] then []
    else
      var sortedTail := SortSeq(xs[1..]);
      InsertSorted(xs[0], sortedTail);
      InsertMultiset(xs[0], sortedTail);
      MultisetCons(xs);
      Insert(xs[0], sortedTail)
  }

  /** The head of a sorted sequence is its least element. */
  lemma SortedHeadLeast(a: seq<u32>, x: u32)
    requires Sorted(a) && x in multiset(a)
    ensures a[0] <= x
  {
    var i :| 0 <= i < |a| && a[i] == x;
  }

  lemma SortedTail(a: seq<u32>)
    requires Sorted(a) && |a| > 0
    ensures Sorted(a[1..])
    ensures multiset(a[1..]) == multiset(a) - multiset{a[0]}
  {
    assert a == [a[0]] + a[1..];
  }

  /** Two sorted arrangements of the same values are the same sequence. */
  lemma {:induction false} SortedUnique(a: seq<u32>, b: seq<u32>)
    requires Sorted(a) && Sorted(b)
    requires multiset(a) == multiset(b)
    ensures a == b
  {
    if a != [] && b != [] {
      SameHead(a, b);
      SortedTail(a);
      SortedTail(b);
      SortedUnique(a[1..], b[1..]);
      assert a == [a[0]] + a[1..];
      assert b == [b[0]] + b[1..];
    }
  }

  lemma SameHead(a: seq<u32>, b: seq<u32>)
    requires Sorted(a) && Sorted(b) && |a| > 0 && |b| > 0
    requires multiset(a) == multiset(b)
    ensures a[0] == b[0]
  {
    assert a[0] in multiset(b);
    assert b[0] in multiset(a);
    SortedHeadLeast(a, b[0]);
    SortedHeadLeast(b, a[0]);
  }

  /** A sorted sequence is its own ascending arrangement: re-sorting it changes nothing. */
  lemma SortSeqOfSorted(xs: seq<u32>)
    requires Sorted(xs)
    ensures SortSeq(xs) == xs
  {
    SortedUnique(SortSeq(xs), xs);
  }

  /** Insertion sort of the array, in place. */
  method SortInPlace(a: array<u32>)
    modifies a
    ensures a[..] == SortSeq(old(a[..]))
  {
    var i := 0;
    while i < a.Length
      invariant 0 <= i <= a.Length
      invariant Sorted(a[..i])
      invariant multiset(a[..]) == multiset(old(a[..]))
    {
      SiftDown(a, i);
      i := i + 1;
    }
    assert a[..a.Length] == a[..];
    SortedUnique(a[..], SortSeq(old(a[..])));
  }

  /** One step of insertion sort: move `a[i]` down into the sorted prefix `a[..i]`. */
  method SiftDown(a: array<u32>, i: nat)
    requires i < a.Length && Sorted(a[..i])
    modifies a
    ensures Sorted(a[..i + 1])
    ensures multiset(a[..]) == multiset(old(a[..]))
    ensures a[i + 1..] == old(a[i + 1..])
  {
    var j := i;
    OrderedExceptStart(a[..], i);
    while j > 0 && a[j - 1] > a[j]
      invariant 0 <= j <= i
      invariant OrderedExcept(a[..], i, j)
      invariant multiset(a[..]) == multiset(old(a[..]))
      invariant a[i + 1..] == old(a[i + 1..])
    {
      ghost var before := a[..];
      a[j - 1], a[j] := a[j], a[j - 1];
      SwapMultiset(before, a[..], j - 1, j);
      SwapOrder(before, a[..], i, j);
      j := j - 1;
    }
    OrderedExceptEnd(a[..], i, j);
  }

  /** `s[..i + 1]` is ordered, except possibly around the element at `j`. */
  ghost predicate OrderedExcept(s: seq<u32>, i: nat, j: nat)
    requires j <= i < |s|
  {
    forall p, q | 0 <= p < q <= i && q != j :: s[p] <= s[q]
  }

  lemma OrderedExceptStart(s: seq<u32>, i: nat)
    requires i < |s| && Sorted(s[..i])
    ensures OrderedExcept(s, i, i)
  {
    forall p, q | 0 <= p < q <= i && q != i ensures s[p] <= s[q] {
      assert s[p] == s[..i][p] && s[q] == s[..i][q];
    }
  }

  lemma OrderedExceptEnd(s: seq<u32>, i: nat, j: nat)
    requires j <= i < |s| && OrderedExcept(s, i, j)
    requires j == 0 || s[j - 1] <= s[j]
    ensures Sorted(s[..i + 1])
  {
    forall p, q | 0 <= p < q <= i ensures s[p] <= s[q] {
      if q == j {
        if p < j - 1 {
          assert s[p] <= s[j - 1];
        }
      }
    }
  }

  /** Swapping the element at `j` with its larger left neighbour moves the exception to `j - 1`. */
  lemma SwapOrder(b: seq<u32>, c: seq<u32>, i: nat, j: nat)
    requires 0 < j <= i < |b| == |c| && OrderedExcept(b, i, j) && b[j - 1] > b[j]
    requires c == b[j - 1 := b[j]][j := b[j - 1]]
    ensures OrderedExcept(c, i, j - 1)
  {
    forall p, q | 0 <= p < q <= i && q != j - 1 ensures c[p] <= c[q] {
      if q == j {
        if p < j - 1 {
          assert b[p] <= b[j - 1];
        }
      } else if p == j - 1 || p == j {
        assert b[j - 1] <= b[q] && b[j] <= b[q];
      } else {
        assert b[p] <= b[q];
      }
    }
  }

  /** A vector holding `xs`, sorted in place with `sort()`; the sorted contents are returned. */
  method SortVec(xs: seq<u32>) returns (r: seq<u32>)
    ensures r == SortSeq(xs)
  {
    var a := new u32[|xs|](i requires 0 <= i < |xs| => xs[i]);
    assert a[..] == xs;
    SortInPlace(a);
    r := a[..];
  }

  lemma SwapMultiset(b: seq<u32>, c: seq<u32>, i: nat, j: nat)
    requires i < j < |b| == |c|
    requires c == b[i := b[j]][j := b[i]]
    ensures multiset(c) == multiset(b)
  {
    assert b[i := b[j]][j := b[i]] == b[..i] + [b[j]] + b[i + 1..j] + [b[i]] + b[j + 1..];
    assert b == b[..i] + [b[i]] + b[i + 1..j] + [b[j]] + b[j + 1..];
  }
}
