/**
 * Sequence operations that stand for what the handlers do with arrays and query
 * results (`filter`, the first-occurrence order of a `Set`, and
 * `orderBy: { createdAt: "desc" }` on a table kept in insertion order), with
 * the facts about them that the route models rely on.
 */
module Seqs {

  /** `xs` is `ys` with zero or more elements deleted, the rest kept in order. */
  ghost predicate IsSubsequence<T>(xs: seq<T>, ys: seq<T>)
    decreases |ys|
  {
    if ys == [] then xs == []
    else IsSubsequence(xs, ys[1..]) || (xs != [] && xs[0] == ys[0] && IsSubsequence(xs[1..], ys[1..]))
  }

  /** No element occurs twice. */
  ghost predicate NoDuplicates<T>(xs: seq<T>) {
    forall i, j :: 0 <= i < j < |xs| ==> xs[i] != xs[j]
  }

  /** `key` strictly increases along `xs`. */
  ghost predicate StrictlyIncreasing<T>(xs: seq<T>, key: T -> int) {
    forall i, j :: 0 <= i < j < |xs| ==> key(xs[i]) < key(xs[j])
  }

  /** `key` strictly decreases along `xs`. */
  ghost predicate StrictlyDecreasing<T>(xs: seq<T>, key: T -> int) {
    forall i, j :: 0 <= i < j < |xs| ==> key(xs[i]) > key(xs[j])
  }

  /** `Array.prototype.filter`: the elements satisfying `p`, in their original order. */
  function Filter<T(!new)>(xs: seq<T>, p: T -> bool): (r: seq<T>)
    ensures |r| <= |xs|
    ensures forall x :: x in r <==> x in xs && p(x)
    ensures IsSubsequence(r, xs)
  {
    if xs == [] then []
    else if p(xs[0]) then [xs[0]] + Filter(xs[1..], p) else Filter(xs[1..], p)
  }

  /** Filtering distributes over concatenation. */
  lemma {:induction false} FilterConcat<T(!new)>(a: seq<T>, b: seq<T>, p: T -> bool)
    ensures Filter(a + b, p) == Filter(a, p) + Filter(b, p)
  {
    if a == [] {
      assert a + b == b;
    } else {
      assert (a + b)[0] == a[0] && (a + b)[1..] == a[1..] + b;
      FilterConcat(a[1..], b, p);
    }
  }

  /** Filtering keeps a strictly increasing key strictly increasing. */
  lemma {:induction false} FilterIncreasing<T(!new)>(xs: seq<T>, p: T -> bool, key: T -> int)
    requires StrictlyIncreasing(xs, key)
    ensures StrictlyIncreasing(Filter(xs, p), key)
  {
    if xs != [] {
      FilterIncreasing(xs[1..], p, key);
      var tail := Filter(xs[1..], p);
      forall y | y in tail ensures key(xs[0]) < key(y) {
        var k :| 0 <= k < |xs[1..]| && xs[1..][k] == y;
        assert xs[k + 1] == y;
      }
    }
  }

  /** Appending an element whose key exceeds every key keeps the key strictly increasing. */
  lemma AppendIncreasing<T(!new)>(xs: seq<T>, y: T, key: T -> int)
    requires StrictlyIncreasing(xs, key)
    requires forall x :: x in xs ==> key(x) < key(y)
    ensures StrictlyIncreasing(xs + [y], key)
  {
    var r := xs + [y];
    forall i, j | 0 <= i < j < |r| ensures key(r[i]) < key(r[j]) {
      assert r[i] == xs[i];
      if j < |xs| { assert r[j] == xs[j]; }
    }
  }

  /**
   * The elements in reverse order. On a table kept in insertion order, whose
   * `createdAt` therefore increases, this is `orderBy: { createdAt: "desc" }`.
   */
  function Reverse<T(!new)>(xs: seq<T>): (r: seq<T>)
    ensures |r| == |xs|
    ensures forall k :: 0 <= k < |xs| ==> r[k] == xs[|xs| - 1 - k]
    ensures forall x :: x in r <==> x in xs
  {
    if xs == [] then [] else Reverse(xs[1..]) + [xs[0]]
  }

  /** Reversing turns a strictly increasing key into a strictly decreasing one. */
  lemma ReverseDecreasing<T(!new)>(xs: seq<T>, key: T -> int)
    requires StrictlyIncreasing(xs, key)
    ensures StrictlyDecreasing(Reverse(xs), key)
  {
    var r := Reverse(xs);
    forall i, j | 0 <= i < j < |r| ensures key(r[i]) > key(r[j]) {
      assert r[i] == xs[|xs| - 1 - i] && r[j] == xs[|xs| - 1 - j];
    }
  }

  /** The position of the first occurrence of `x` in `xs`. */
  function FirstIndex<T(==)>(xs: seq<T>, x: T): (r: nat)
    requires x in xs
    ensures r < |xs| && xs[r] == x
    ensures forall k :: 0 <= k < r ==> xs[k] != x
  {
    if xs[0] == x then 0 else 1 + FirstIndex(xs[1..], x)
  }

  /** Appending elements does not move the first occurrence of an element already present. */
  lemma FirstIndexAppend<T>(p: seq<T>, q: seq<T>, x: T)
    requires x in p
    ensures FirstIndex(p + q, x) == FirstIndex(p, x)
  {
    var a, b := FirstIndex(p + q, x), FirstIndex(p, x);
    assert (p + q)[b] == x;
  }

  /**
   * `Array.from(new Set(xs))`: each distinct element once, in the order of its
   * first occurrence. Written as the Set is built, one element at a time from
   * the left: an element already present leaves the result unchanged.
   */
  function Dedupe<T(==,!new)>(xs: seq<T>): (r: seq<T>)
    ensures NoDuplicates(r)
    ensures forall x :: x in r <==> x in xs
    ensures |r| <= |xs|
    decreases |xs|
  {
    if xs == [] then []
    else
      var init, last := xs[..|xs| - 1], xs[|xs| - 1];
      assert xs == init + [last];
      var d := Dedupe(init);
      if last in d then d else d + [last]
  }

  /** The deduplicated elements are listed in the order of their first occurrence. */
  lemma {:induction false} DedupeFirstOccurrenceOrder<T(!new)>(xs: seq<T>)
    ensures forall i, j :: 0 <= i < j < |Dedupe(xs)| ==>
      FirstIndex(xs, Dedupe(xs)[i]) < FirstIndex(xs, Dedupe(xs)[j])
  {
    if xs != [] {
      var init, last := xs[..|xs| - 1], xs[|xs| - 1];
      assert xs == init + [last];
      var d := Dedupe(init);
      DedupeFirstOccurrenceOrder(init);
      forall y | y in d ensures FirstIndex(xs, y) == FirstIndex(init, y) {
        FirstIndexAppend(init, [last], y);
      }
      if last !in d {
        var r := Dedupe(xs);
        assert r == d + [last];
        assert FirstIndex(xs, last) == |xs| - 1;
        forall i, j | 0 <= i < j < |r| ensures FirstIndex(xs, r[i]) < FirstIndex(xs, r[j]) {
          assert r[i] in d;
          if j < |d| {
            assert r[i] == d[i] && r[j] == d[j];
          }
        }
      }
    }
  }

  /** A sequence without duplicates is its own deduplication. */
  lemma {:induction false} DedupeOfDistinct<T(!new)>(xs: seq<T>)
    requires NoDuplicates(xs)
    ensures Dedupe(xs) == xs
  {
    if xs != [] {
      var init, last := xs[..|xs| - 1], xs[|xs| - 1];
      assert xs == init + [last];
      DedupeOfDistinct(init);
      assert last !in init;
    }
  }

  /** Deduplicating twice is deduplicating once. */
  lemma DedupeIdempotent<T(!new)>(xs: seq<T>)
    ensures Dedupe(Dedupe(xs)) == Dedupe(xs)
  {
    DedupeOfDistinct(Dedupe(xs));
  }
}
