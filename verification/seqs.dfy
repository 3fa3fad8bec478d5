/** The array operations the source uses on its lists: `filter`, a `map` that
    rewrites the elements satisfying a test, `slice(0, n)`, `findIndex`, and the
    remove-then-insert move that drag-and-drop reordering performs. */
module Seqs {

  import opened Wrappers

  /** `a` is `b` with some elements deleted, the rest in their original order. */
  predicate IsSubsequence<T(==)>(a: seq<T>, b: seq<T>)
    decreases |b|
  {
    |a| <= |b| &&
    (a == [] || (a[0] == b[0] && IsSubsequence(a[1..], b[1..])) || IsSubsequence(a, b[1..]))
  }

  /** `s.filter(p)`: the elements satisfying `p`, in their original order. */
  function Filter<T(!new)>(p: T -> bool, s: seq<T>): (r: seq<T>)
    ensures |r| <= |s|
    decreases |s|
  {
    if s == [] then []
    else if p(s[0]) then [s[0]] + Filter(p, s[1..])
    else Filter(p, s[1..])
  }

  /** The filter keeps exactly the elements satisfying `p`, each as often as in
      `s`, in their original order. */
  lemma {:induction false} FilterSpec<T(!new)>(p: T -> bool, s: seq<T>)
    ensures forall x :: x in Filter(p, s) <==> x in s && p(x)
    ensures forall x :: multiset(Filter(p, s))[x] == if p(x) then multiset(s)[x] else 0
    ensures IsSubsequence(Filter(p, s), s)
    decreases |s|
  {
    if s != [] {
      FilterSpec(p, s[1..]);
      assert s == [s[0]] + s[1..];
      if p(s[0]) {
        var r := Filter(p, s);
        assert r[1..] == Filter(p, s[1..]);
      }
    }
  }

  /** Filtering a concatenation filters each part. */
  lemma {:induction false} FilterConcat<T(!new)>(p: T -> bool, a: seq<T>, b: seq<T>)
    ensures Filter(p, a + b) == Filter(p, a) + Filter(p, b)
    decreases |a|
  {
    if a == [] {
      assert a + b == b;
    } else {
      var head := if p(a[0]) then [a[0]] else [];
      assert (a + b)[0] == a[0] && (a + b)[1..] == a[1..] + b;
      assert Filter(p, a + b) == head + Filter(p, a[1..] + b);
      assert Filter(p, a) == head + Filter(p, a[1..]);
      FilterConcat(p, a[1..], b);
    }
  }

  /** A filter whose test every element passes keeps the whole sequence. */
  lemma {:induction false} FilterKeepsAll<T(!new)>(p: T -> bool, s: seq<T>)
    requires forall k | 0 <= k < |s| :: p(s[k])
    ensures Filter(p, s) == s
    decreases |s|
  {
    if s != [] {
      FilterKeepsAll(p, s[1..]);
    }
  }

  /** A filter that no element passes leaves nothing. */
  lemma {:induction false} FilterNone<T(!new)>(p: T -> bool, s: seq<T>)
    requires forall k | 0 <= k < |s| :: !p(s[k])
    ensures Filter(p, s) == []
    decreases |s|
  {
    if s != [] {
      FilterNone(p, s[1..]);
    }
  }

  /** Moving `y` behind `after` does not change the filter when no element of
      `after` that passes could be overtaken by a passing `y`. */
  lemma FilterMoveToEnd<T(!new)>(p: T -> bool, before: seq<T>, y: T, after: seq<T>)
    requires p(y) ==> Filter(p, after) == []
    ensures Filter(p, before + [y] + after) == Filter(p, before + after + [y])
  {
    FilterConcat(p, before + [y], after);
    FilterConcat(p, before, [y]);
    FilterConcat(p, before + after, [y]);
    FilterConcat(p, before, after);
    if !p(y) {
      assert Filter(p, [y]) == [];
    }
  }

  /** `if (!skip) s = s.filter(test)`: a filter step skipped on its wildcard value.
      The wildcard lets every element through, so skipping and filtering agree. */
  function FilterUnless<T(!new)>(skip: bool, test: T -> bool, s: seq<T>): (r: seq<T>)
    requires skip ==> forall x :: test(x)
    ensures r == Filter(test, s)
  {
    if skip then
      FilterKeepsAll(test, s);
      s
    else Filter(test, s)
  }

  /** Two filters applied one after the other are one filter by the conjunction of
      their tests, so the order of a chain of filters does not matter. */
  lemma {:induction false} FilterFilter<T(!new)>(p: T -> bool, q: T -> bool, both: T -> bool, s: seq<T>)
    requires forall x :: both(x) == (p(x) && q(x))
    ensures Filter(q, Filter(p, s)) == Filter(both, s)
    decreases |s|
  {
    if s != [] {
      FilterFilter(p, q, both, s[1..]);
      if p(s[0]) {
        var ps := Filter(p, s);
        assert ps[0] == s[0] && ps[1..] == Filter(p, s[1..]);
      }
    }
  }

  /** The number of elements of `s` satisfying `p`, counted one by one: at most
      `|s|`, and zero exactly when no element satisfies `p`. */
  function Count<T>(p: T -> bool, s: seq<T>): (n: nat)
    ensures n <= |s|
    ensures n == 0 <==> forall k | 0 <= k < |s| :: !p(s[k])
    decreases |s|
  {
    if s == [] then 0
    else (if p(s[0]) then 1 else 0) + Count(p, s[1..])
  }

  /** `s.filter(p).length` is the count of the elements satisfying `p`. */
  lemma {:induction false} FilterLength<T(!new)>(p: T -> bool, s: seq<T>)
    ensures |Filter(p, s)| == Count(p, s)
    decreases |s|
  {
    if s != [] {
      FilterLength(p, s[1..]);
    }
  }

  /** `s.map(x => test(x) ? change(x) : x)`: same length; the elements passing the
      test are changed, the others are kept as they are. */
  function MapWhere<T>(test: T -> bool, change: T -> T, s: seq<T>): (r: seq<T>)
    ensures |r| == |s|
    ensures forall k | 0 <= k < |s| :: r[k] == if test(s[k]) then change(s[k]) else s[k]
    decreases |s|
  {
    if s == [] then []
    else [if test(s[0]) then change(s[0]) else s[0]] + MapWhere(test, change, s[1..])
  }

  /** `s.slice(0, n)`: the first `n` elements, or all of `s` when it is shorter. */
  function Take<T>(s: seq<T>, n: nat): (r: seq<T>)
    ensures |r| == if |s| < n then |s| else n
    ensures r <= s
  {
    if |s| <= n then s else s[..n]
  }

  /** `s` without the element at index `i`. */
  function RemoveAt<T>(s: seq<T>, i: nat): (r: seq<T>)
    requires i < |s|
    ensures |r| == |s| - 1
    ensures forall k | 0 <= k < |r| :: r[k] == s[if k < i then k else k + 1]
    ensures multiset(r) + multiset{s[i]} == multiset(s)
  {
    assert s == s[..i] + [s[i]] + s[i + 1..];
    s[..i] + s[i + 1..]
  }

  /** The index of the input element that a move of `from` to `to` places at `k`. */
  function MovedFrom(from: nat, to: nat, k: nat): (i: nat)
    ensures k == to ==> i == from
    ensures k != to ==> i != from
  {
    if k == to then from
    else
      var j := if k < to then k else k - 1;
      if j < from then j else j + 1
  }

  lemma MoveAt<T>(s: seq<T>, from: nat, to: nat, rest: seq<T>, r: seq<T>)
    requires from < |s| && to < |s|
    requires rest == RemoveAt(s, from) && r == rest[..to] + [s[from]] + rest[to..]
    ensures forall k | 0 <= k < |s| :: r[k] == s[MovedFrom(from, to, k)]
  {
    forall k | 0 <= k < |s| ensures r[k] == s[MovedFrom(from, to, k)] {
      if k < to {
        assert r[k] == rest[k];
      } else if k > to {
        assert r[k] == rest[k - 1];
      }
    }
  }

  lemma MoveRest<T>(s: seq<T>, from: nat, to: nat, rest: seq<T>, r: seq<T>)
    requires from < |s| && to < |s|
    requires |rest| == |s| - 1 && r == rest[..to] + [s[from]] + rest[to..]
    ensures RemoveAt(r, to) == rest
    ensures multiset(r) == multiset(rest) + multiset{s[from]}
  {
    assert r[..to] == rest[..to] && r[to + 1..] == rest[to..];
    assert rest == rest[..to] + rest[to..];
    assert r == rest[..to] + ([s[from]] + rest[to..]);
  }

  /** `arrayMove(s, from, to)`: the element at `from` is taken out and put back at
      index `to`. It ends at `to`, the other elements keep their relative order, and
      the result is a permutation of `s`. */
  function Move<T>(s: seq<T>, from: nat, to: nat): (r: seq<T>)
    requires from < |s| && to < |s|
    ensures |r| == |s|
    ensures r[to] == s[from]
    ensures forall k | 0 <= k < |s| :: r[k] == s[MovedFrom(from, to, k)]
    ensures RemoveAt(r, to) == RemoveAt(s, from)
    ensures multiset(r) == multiset(s)
  {
    var rest := RemoveAt(s, from);
    var r := rest[..to] + [s[from]] + rest[to..];
    MoveAt(s, from, to, rest, r);
    MoveRest(s, from, to, rest, r);
    r
  }

  /** Moving an element onto its own index changes nothing. */
  lemma MoveInPlace<T>(s: seq<T>, i: nat)
    requires i < |s|
    ensures Move(s, i, i) == s
  {
    assert Move(s, i, i) == s[..i] + [s[i]] + s[i + 1..];
  }

  /** `s.findIndex(x => key(x) == k)` when some element has key `k`: the first
      such index. */
  function FirstIndex<T, K(==)>(s: seq<T>, key: T -> K, k: K): (i: nat)
    requires exists j | 0 <= j < |s| :: key(s[j]) == k
    ensures i < |s| && key(s[i]) == k
    ensures forall j | 0 <= j < i :: key(s[j]) != k
    decreases |s|
  {
    if key(s[0]) == k then 0
    else
      assert exists j | 0 <= j < |s[1..]| :: key(s[1..][j]) == k by {
        var j :| 0 <= j < |s| && key(s[j]) == k;
        assert s[1..][j - 1] == s[j];
      }
      1 + FirstIndex(s[1..], key, k)
  }

  /** `s.find(x => key(x) == k)`: the first element with key `k`, if any. */
  function Find<T, K(==)>(s: seq<T>, key: T -> K, k: K): (r: Option<T>)
    ensures r.None? <==> forall j | 0 <= j < |s| :: key(s[j]) != k
    ensures r.Some? ==> r.value in s && key(r.value) == k
    ensures r.Some? ==> r.value == s[FirstIndex(s, key, k)]
    decreases |s|
  {
    if s == [] then None
    else if key(s[0]) == k then Some(s[0])
    else
      var r := Find(s[1..], key, k);
      assert forall j | 1 <= j < |s| :: s[j] == s[1..][j - 1];
      r
  }
}
