/** A stable sort under a comparator, the contract of `Array.prototype.sort`: the
    result is a permutation of the input, no element comes after one it compares
    greater than, and elements that compare equal keep their order. The sort is
    specified as insertion of the elements one by one and carried out in place on
    an array. */
module StableSort {

  import Seqs

  /** `cmp(a, b)` and `cmp(b, a)` have opposite signs (or are both zero). */
  ghost predicate Antisymmetric<T(!new)>(cmp: (T, T) -> int) {
    forall a, b :: cmp(a, b) == -cmp(b, a)
  }

  /** "Not after" is transitive. */
  ghost predicate Transitive<T(!new)>(cmp: (T, T) -> int) {
    forall a, b, c :: cmp(a, b) <= 0 && cmp(b, c) <= 0 ==> cmp(a, c) <= 0
  }

  /** No element is placed after one it compares greater than. */
  predicate Ordered<T>(cmp: (T, T) -> int, s: seq<T>) {
    forall i, j | 0 <= i < j < |s| :: cmp(s[i], s[j]) <= 0
  }

  /** Where a stable insertion puts `x` into `t`: just after the last element that
      does not compare greater than `x`. */
  function InsertionPoint<T>(cmp: (T, T) -> int, t: seq<T>, x: T): (p: nat)
    ensures p <= |t|
    decreases |t|
  {
    if t == [] || cmp(t[|t| - 1], x) <= 0 then |t|
    else InsertionPoint(cmp, t[..|t| - 1], x)
  }

  /** The element just before the insertion point does not compare greater than
      `x`, and every element from the insertion point on does. */
  lemma {:induction false} InsertionPointSplits<T>(cmp: (T, T) -> int, t: seq<T>, x: T)
    ensures var p := InsertionPoint(cmp, t, x);
      && (p == 0 || cmp(t[p - 1], x) <= 0)
      && forall k | p <= k < |t| :: cmp(t[k], x) > 0
    decreases |t|
  {
    if t != [] && cmp(t[|t| - 1], x) > 0 {
      var init := t[..|t| - 1];
      InsertionPointSplits(cmp, init, x);
      assert forall k | 0 <= k < |init| :: init[k] == t[k];
    }
  }

  /** The insertion point is the only position that follows an element not
      comparing greater than `x` and precedes elements that all do. */
  lemma InsertionPointUnique<T>(cmp: (T, T) -> int, t: seq<T>, j: nat, x: T)
    requires j <= |t| && (j == 0 || cmp(t[j - 1], x) <= 0)
    requires forall k | j <= k < |t| :: cmp(t[k], x) > 0
    ensures InsertionPoint(cmp, t, x) == j
  {
    InsertionPointSplits(cmp, t, x);
  }

  /** `x` inserted into `t` at its insertion point. */
  function Insert<T>(cmp: (T, T) -> int, t: seq<T>, x: T): (r: seq<T>)
    ensures |r| == |t| + 1
  {
    var p := InsertionPoint(cmp, t, x);
    t[..p] + [x] + t[p..]
  }

  /** The elements of `s` inserted one by one, in their original order. */
  function Sorted<T>(cmp: (T, T) -> int, s: seq<T>): (r: seq<T>)
    ensures |r| == |s|
    decreases |s|
  {
    if s == [] then []
    else Insert(cmp, Sorted(cmp, s[..|s| - 1]), s[|s| - 1])
  }

  /** Inserting adds exactly one occurrence of `x`. */
  lemma InsertPermutes<T>(cmp: (T, T) -> int, t: seq<T>, x: T)
    ensures multiset(Insert(cmp, t, x)) == multiset(t) + multiset{x}
  {
    var p := InsertionPoint(cmp, t, x);
    assert t == t[..p] + t[p..];
  }

  /** The sort is a permutation of its input. */
  lemma {:induction false} SortedPermutes<T>(cmp: (T, T) -> int, s: seq<T>)
    ensures multiset(Sorted(cmp, s)) == multiset(s)
    decreases |s|
  {
    if s != [] {
      var init := s[..|s| - 1];
      SortedPermutes(cmp, init);
      InsertPermutes(cmp, Sorted(cmp, init), s[|s| - 1]);
      assert s == init + [s[|s| - 1]];
    }
  }

  /** Inserting into an ordered sequence keeps it ordered. */
  lemma InsertOrdered<T(!new)>(cmp: (T, T) -> int, t: seq<T>, x: T)
    requires Antisymmetric(cmp) && Transitive(cmp)
    requires Ordered(cmp, t)
    ensures Ordered(cmp, Insert(cmp, t, x))
  {
    var p := InsertionPoint(cmp, t, x);
    InsertionPointSplits(cmp, t, x);
    var r := Insert(cmp, t, x);
    forall i, j | 0 <= i < j < |r| ensures cmp(r[i], r[j]) <= 0 {
      if j < p {
        assert r[i] == t[i] && r[j] == t[j];
      } else if p < i {
        assert r[i] == t[i - 1] && r[j] == t[j - 1];
      } else if j == p {
        assert r[i] == t[i] && r[j] == x;
        if i < p - 1 {
          assert cmp(t[i], t[p - 1]) <= 0;
        }
      } else if i == p {
        assert r[i] == x && r[j] == t[j - 1];
        assert cmp(t[j - 1], x) > 0;
      } else {
        assert r[i] == t[i] && r[j] == t[j - 1];
      }
    }
  }

  /** For a consistent comparator the sorted result is ordered. */
  lemma {:induction false} SortedOrdered<T(!new)>(cmp: (T, T) -> int, s: seq<T>)
    requires Antisymmetric(cmp) && Transitive(cmp)
    ensures Ordered(cmp, Sorted(cmp, s))
    decreases |s|
  {
    if s != [] {
      SortedOrdered(cmp, s[..|s| - 1]);
      InsertOrdered(cmp, Sorted(cmp, s[..|s| - 1]), s[|s| - 1]);
    }
  }

  /** Sorting one more element inserts it into the sorted prefix. */
  lemma SortedSnoc<T>(cmp: (T, T) -> int, s: seq<T>, i: nat)
    requires i < |s|
    ensures Sorted(cmp, s[..i + 1]) == Insert(cmp, Sorted(cmp, s[..i]), s[i])
  {
    assert s[..i + 1][..i] == s[..i];
  }

  /** An already ordered sequence is left as it is. */
  lemma {:induction false} SortedFixesOrdered<T>(cmp: (T, T) -> int, s: seq<T>)
    requires Ordered(cmp, s)
    ensures Sorted(cmp, s) == s
    decreases |s|
  {
    if s != [] {
      var n := |s| - 1;
      var init := s[..n];
      assert Ordered(cmp, init) by {
        forall i, j | 0 <= i < j < |init| ensures cmp(init[i], init[j]) <= 0 {
          assert init[i] == s[i] && init[j] == s[j];
        }
      }
      SortedFixesOrdered(cmp, init);
      assert n == 0 || cmp(init[n - 1], s[n]) <= 0;
      InsertionPointUnique(cmp, init, n, s[n]);
      assert init[..n] == init && init[n..] == [];
      assert s == init + [s[n]];
    }
  }

  /** The test "compares equal to `x`". */
  function TiedWith<T>(cmp: (T, T) -> int, x: T): T -> bool {
    (y: T) => cmp(y, x) == 0
  }

  /** For a consistent comparator, two elements tied with a third are tied with
      each other. */
  lemma TiesAgree<T(!new)>(cmp: (T, T) -> int, a: T, b: T, x: T)
    requires Antisymmetric(cmp) && Transitive(cmp)
    requires cmp(a, x) == 0 && cmp(b, x) == 0
    ensures cmp(a, b) == 0
  {
    assert cmp(x, b) == 0 && cmp(x, a) == 0;
  }

  /** No element from the insertion point of `y` on is tied with anything `y` is
      tied with. */
  lemma NoTiesAfterInsertionPoint<T(!new)>(cmp: (T, T) -> int, t: seq<T>, y: T, x: T)
    requires Antisymmetric(cmp) && Transitive(cmp)
    requires cmp(y, x) == 0
    ensures Seqs.Filter(TiedWith(cmp, x), t[InsertionPoint(cmp, t, y)..]) == []
  {
    var p := InsertionPoint(cmp, t, y);
    InsertionPointSplits(cmp, t, y);
    var after := t[p..];
    forall k | 0 <= k < |after| ensures !TiedWith(cmp, x)(after[k]) {
      if cmp(after[k], x) == 0 {
        assert after[k] == t[p + k];
        TiesAgree(cmp, after[k], y, x);
      }
    }
    Seqs.FilterNone(TiedWith(cmp, x), after);
  }

  /** Inserting `y` adds it after every element it is tied with. */
  lemma InsertKeepsTies<T(!new)>(cmp: (T, T) -> int, t: seq<T>, y: T, x: T)
    requires Antisymmetric(cmp) && Transitive(cmp)
    ensures Seqs.Filter(TiedWith(cmp, x), Insert(cmp, t, y))
         == Seqs.Filter(TiedWith(cmp, x), t + [y])
  {
    var p := InsertionPoint(cmp, t, y);
    assert t == t[..p] + t[p..];
    if cmp(y, x) == 0 {
      NoTiesAfterInsertionPoint(cmp, t, y, x);
    }
    Seqs.FilterMoveToEnd(TiedWith(cmp, x), t[..p], y, t[p..]);
  }

  /** Stability: for a consistent comparator, the elements tied with any `x`
      appear in the sorted sequence in the order they had in the input. */
  lemma {:induction false} SortedKeepsTies<T(!new)>(cmp: (T, T) -> int, s: seq<T>, x: T)
    requires Antisymmetric(cmp) && Transitive(cmp)
    ensures Seqs.Filter(TiedWith(cmp, x), Sorted(cmp, s)) == Seqs.Filter(TiedWith(cmp, x), s)
    decreases |s|
  {
    if s != [] {
      var init, last := s[..|s| - 1], s[|s| - 1];
      var tied := TiedWith(cmp, x);
      SortedKeepsTies(cmp, init, x);
      InsertKeepsTies(cmp, Sorted(cmp, init), last, x);
      Seqs.FilterConcat(tied, Sorted(cmp, init), [last]);
      Seqs.FilterConcat(tied, init, [last]);
      assert s == init + [last];
    }
  }

  /** A comparator that finds every pair equal leaves every sequence as it is. */
  lemma AllEqualKeepsOrder<T>(cmp: (T, T) -> int, s: seq<T>)
    requires forall a, b :: cmp(a, b) == 0
    ensures Sorted(cmp, s) == s
  {
    SortedFixesOrdered(cmp, s);
  }

  /** A sequence holding `t[..j]`, then `x`, then `t[j..]` position by position is
      that concatenation. */
  lemma PlacedAt<T>(t: seq<T>, j: nat, x: T, b: seq<T>)
    requires j <= |t| && |b| == |t| + 1 && b[j] == x
    requires forall k | 0 <= k < j :: b[k] == t[k]
    requires forall k | j < k < |b| :: b[k] == t[k - 1]
    ensures b == t[..j] + [x] + t[j..]
  {
  }

  /** One pass of the insertion sort: `a[i]` is shifted left past the elements of
      `a[..i]` that compare greater than it. */
  method InsertInPlace<T>(a: array<T>, i: nat, cmp: (T, T) -> int)
    requires i < a.Length
    modifies a
    ensures a[..i + 1] == Insert(cmp, old(a[..i]), old(a[i]))
    ensures a[i + 1..] == old(a[i + 1..])
  {
    ghost var t := a[..i];
    ghost var rest := a[i + 1..];
    var x := a[i];
    var j := i;
    while j > 0 && cmp(a[j - 1], x) > 0
      invariant 0 <= j <= i
      invariant forall k | 0 <= k < j :: a[k] == t[k]
      invariant forall k | j < k <= i :: a[k] == t[k - 1]
      invariant forall k | j <= k < i :: cmp(t[k], x) > 0
      invariant a[i + 1..] == rest
    {
      a[j] := a[j - 1];
      j := j - 1;
    }
    a[j] := x;
    InsertionPointUnique(cmp, t, j, x);
    PlacedAt(t, j, x, a[..i + 1]);
  }

  /** `a.sort(cmp)`: an insertion sort that leaves the array holding the sorted
      sequence of its old contents. */
  method SortInPlace<T>(a: array<T>, cmp: (T, T) -> int)
    modifies a
    ensures a[..] == Sorted(cmp, old(a[..]))
  {
    ghost var input := a[..];
    for i := 0 to a.Length
      invariant a[..i] == Sorted(cmp, input[..i])
      invariant a[i..] == input[i..]
    {
      assert a[i] == input[i];
      InsertInPlace(a, i, cmp);
      SortedSnoc(cmp, input, i);
      assert a[i + 1..] == input[i + 1..];
    }
    assert input[..a.Length] == input;
  }
}
