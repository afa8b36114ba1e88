/**
 Sequence vocabulary shared by the listing and message pipelines: subsequences,
 the `slice(0, n)` window, and first-occurrence deduplication on a key (the
 `Set`/`Map` based dedup both pipelines perform).
 */
module Seqs {
  import opened Optional

  /** `a` is `b` with some elements dropped and the others kept in order. */
  predicate IsSubsequence<T(==)>(a: seq<T>, b: seq<T>)
    decreases |b|
  {
    || |a| == 0
    || (&& |b| > 0
        && ((a[0] == b[0] && IsSubsequence(a[1..], b[1..])) || IsSubsequence(a, b[1..])))
  }

  lemma {:induction false} SubsequenceReflexive<T>(a: seq<T>)
    ensures IsSubsequence(a, a)
    decreases |a|
  {
    if |a| > 0 {
      SubsequenceReflexive(a[1..]);
    }
  }

  lemma {:induction false} SubsequenceShorter<T>(a: seq<T>, b: seq<T>)
    requires IsSubsequence(a, b)
    ensures |a| <= |b|
    ensures forall x :: x in a ==> x in b
    decreases |b|
  {
    if |a| > 0 {
      if a[0] == b[0] && IsSubsequence(a[1..], b[1..]) {
        SubsequenceShorter(a[1..], b[1..]);
        assert a == [a[0]] + a[1..];
        assert b == [b[0]] + b[1..];
      } else {
        SubsequenceShorter(a, b[1..]);
        assert b == [b[0]] + b[1..];
      }
    }
  }

  /** What holds of every element of `b` holds of every element of a subsequence of `b`. */
  lemma {:induction false} SubsequenceKeeps<T>(a: seq<T>, b: seq<T>, p: T -> bool)
    requires IsSubsequence(a, b)
    requires forall i :: 0 <= i < |b| ==> p(b[i])
    ensures forall i :: 0 <= i < |a| ==> p(a[i])
  {
    SubsequenceShorter(a, b);
    forall i | 0 <= i < |a| ensures p(a[i]) {
      assert a[i] in b;
    }
  }

  lemma {:induction false} SubsequenceTransitive<T>(a: seq<T>, b: seq<T>, c: seq<T>)
    requires IsSubsequence(a, b) && IsSubsequence(b, c)
    ensures IsSubsequence(a, c)
    decreases |c|
  {
    if |a| > 0 {
      if b[0] == c[0] && IsSubsequence(b[1..], c[1..]) {
        if a[0] == b[0] && IsSubsequence(a[1..], b[1..]) {
          SubsequenceTransitive(a[1..], b[1..], c[1..]);
        } else {
          SubsequenceTransitive(a, b[1..], c[1..]);
        }
      } else {
        SubsequenceTransitive(a, b, c[1..]);
      }
    }
  }

  /** JavaScript's `xs.slice(0, n)` for `n >= 0`. */
  function Take<T>(xs: seq<T>, n: nat): (r: seq<T>)
    ensures |r| == if |xs| <= n then |xs| else n
    ensures r == xs[..|r|]
  {
    if |xs| <= n then xs else xs[..n]
  }

  lemma {:induction false} TakeIsSubsequence<T>(xs: seq<T>, n: nat)
    ensures IsSubsequence(Take(xs, n), xs)
    decreases |xs|
  {
    if |xs| > 0 && n > 0 {
      assert Take(xs, n)[1..] == Take(xs[1..], n - 1);
      TakeIsSubsequence(xs[1..], n - 1);
    }
  }

  /** The keys carried by the elements of `xs`. */
  function KeySet<T, K>(xs: seq<T>, key: T -> K): set<K> {
    set i | 0 <= i < |xs| :: key(xs[i])
  }

  lemma KeySetCons<T, K>(x: T, xs: seq<T>, key: T -> K)
    ensures KeySet([x] + xs, key) == {key(x)} + KeySet(xs, key)
  {
    var ys := [x] + xs;
    forall k | k in KeySet(ys, key)
      ensures k in {key(x)} + KeySet(xs, key)
    {
      var i :| 0 <= i < |ys| && key(ys[i]) == k;
      if i > 0 {
        assert ys[i] == xs[i - 1];
      }
    }
    forall k | k in KeySet(xs, key)
      ensures k in KeySet(ys, key)
    {
      var i :| 0 <= i < |xs| && key(xs[i]) == k;
      assert ys[i + 1] == xs[i];
    }
    assert key(ys[0]) == key(x);
  }

  /** No two elements of `xs` share a key. */
  predicate DistinctKeys<T, K(==)>(xs: seq<T>, key: T -> K) {
    forall i, j :: 0 <= i < j < |xs| ==> key(xs[i]) != key(xs[j])
  }

  /** The earliest element of `xs` whose key is `k`. */
  function FirstWithKey<T, K(==)>(xs: seq<T>, key: T -> K, k: K): T
    requires k in KeySet(xs, key)
    decreases |xs|
  {
    KeySetCons(xs[0], xs[1..], key);
    assert xs == [xs[0]] + xs[1..];
    if key(xs[0]) == k then xs[0] else FirstWithKey(xs[1..], key, k)
  }

  /** The position of the earliest element of `xs` whose key is `k`. */
  function KeyIndex<T, K(==)>(xs: seq<T>, key: T -> K, k: K): (i: nat)
    requires k in KeySet(xs, key)
    ensures i < |xs| && key(xs[i]) == k
    ensures forall j :: 0 <= j < i ==> key(xs[j]) != k
    decreases |xs|
  {
    KeySetCons(xs[0], xs[1..], key);
    assert xs == [xs[0]] + xs[1..];
    if key(xs[0]) == k then 0
    else
      var j := KeyIndex(xs[1..], key, k);
      assert forall m :: 1 <= m <= j + 1 ==> xs[m] == xs[1..][m - 1];
      j + 1
  }

  /** Past a first element with another key, every first position moves up by one. */
  lemma KeyIndexTail<T, K>(xs: seq<T>, key: T -> K, k: K)
    requires |xs| > 0 && key(xs[0]) != k && k in KeySet(xs[1..], key)
    ensures k in KeySet(xs, key) && KeyIndex(xs, key, k) == KeyIndex(xs[1..], key, k) + 1
  {
    KeySetCons(xs[0], xs[1..], key);
    assert xs == [xs[0]] + xs[1..];
  }

  /**
   The left-to-right dedup of both pipelines: walk `xs` keeping a set of keys
   already taken (initially `seen`), keep an element iff its key is new.
   `DedupFromSpec` states what it computes.
   */
  function DedupFrom<T, K(==)>(xs: seq<T>, key: T -> K, seen: set<K>): (r: seq<T>)
    decreases |xs|
  {
    if |xs| == 0 then []
    else if key(xs[0]) in seen then DedupFrom(xs[1..], key, seen)
    else [xs[0]] + DedupFrom(xs[1..], key, seen + {key(xs[0])})
  }

  /** The dedup is a subsequence with distinct keys, carrying every key not in `seen`. */
  lemma {:induction false} DedupFromKeys<T, K>(xs: seq<T>, key: T -> K, seen: set<K>)
    ensures var r := DedupFrom(xs, key, seen);
      && IsSubsequence(r, xs)
      && DistinctKeys(r, key)
      && KeySet(r, key) == KeySet(xs, key) - seen
    decreases |xs|
  {
    if |xs| > 0 {
      var x := xs[0];
      KeySetCons(x, xs[1..], key);
      assert xs == [x] + xs[1..];
      if key(x) in seen {
        DedupFromKeys(xs[1..], key, seen);
      } else {
        DedupFromKeys(xs[1..], key, seen + {key(x)});
        var rest := DedupFrom(xs[1..], key, seen + {key(x)});
        var r := [x] + rest;
        KeySetCons(x, rest, key);
        assert forall i :: 0 <= i < |rest| ==> key(rest[i]) in KeySet(rest, key);
        assert forall i :: 1 <= i < |r| ==> r[i] == rest[i - 1];
      }
    }
  }

  /** Each element the dedup keeps is the first element of `xs` that carries its key. */
  lemma {:induction false} DedupFromFirst<T, K>(xs: seq<T>, key: T -> K, seen: set<K>)
    ensures var r := DedupFrom(xs, key, seen);
      forall i :: 0 <= i < |r| ==> key(r[i]) in KeySet(xs, key) && r[i] == FirstWithKey(xs, key, key(r[i]))
    decreases |xs|
  {
    if |xs| > 0 {
      var x := xs[0];
      KeySetCons(x, xs[1..], key);
      assert xs == [x] + xs[1..];
      var seen' := if key(x) in seen then seen else seen + {key(x)};
      DedupFromFirst(xs[1..], key, seen');
      DedupFromKeys(xs[1..], key, seen');
      var rest := DedupFrom(xs[1..], key, seen');
      forall i | 0 <= i < |rest| ensures key(rest[i]) != key(x) {
        assert key(rest[i]) in KeySet(rest, key);
      }
      if key(x) !in seen {
        var r := [x] + rest;
        assert forall i :: 1 <= i < |r| ==> r[i] == rest[i - 1];
      }
    }
  }

  /**
   The dedup is the subsequence holding, for every key not in `seen`, the first
   element that carries it.
   */
  lemma DedupFromSpec<T, K>(xs: seq<T>, key: T -> K, seen: set<K>)
    ensures var r := DedupFrom(xs, key, seen);
      && IsSubsequence(r, xs)
      && DistinctKeys(r, key)
      && KeySet(r, key) == KeySet(xs, key) - seen
      && forall i :: 0 <= i < |r| ==> key(r[i]) in KeySet(xs, key) && r[i] == FirstWithKey(xs, key, key(r[i]))
  {
    DedupFromKeys(xs, key, seen);
    DedupFromFirst(xs, key, seen);
  }

  /** The dedup keeps its elements in the order in which their keys first appear in `xs`. */
  lemma {:induction false} DedupFromOrdered<T, K>(xs: seq<T>, key: T -> K, seen: set<K>)
    ensures var r := DedupFrom(xs, key, seen);
      && (forall i :: 0 <= i < |r| ==> key(r[i]) in KeySet(xs, key))
      && forall a, b :: 0 <= a < b < |r| ==> KeyIndex(xs, key, key(r[a])) < KeyIndex(xs, key, key(r[b]))
    decreases |xs|
  {
    if |xs| > 0 {
      var x := xs[0];
      var seen' := if key(x) in seen then seen else seen + {key(x)};
      DedupFromOrdered(xs[1..], key, seen');
      DedupFromSpec(xs[1..], key, seen');
      var rest := DedupFrom(xs[1..], key, seen');
      forall i | 0 <= i < |rest|
        ensures key(rest[i]) != key(x) && key(rest[i]) in KeySet(xs, key)
        ensures KeyIndex(xs, key, key(rest[i])) == KeyIndex(xs[1..], key, key(rest[i])) + 1
      {
        assert key(rest[i]) in KeySet(rest, key);
        KeyIndexTail(xs, key, key(rest[i]));
      }
      if key(x) !in seen {
        var r := [x] + rest;
        KeySetCons(x, xs[1..], key);
        assert xs == [x] + xs[1..];
        assert KeyIndex(xs, key, key(x)) == 0;
        assert forall i :: 1 <= i < |r| ==> r[i] == rest[i - 1];
      }
    }
  }

  /** Deduplication with nothing seen beforehand. */
  function Dedup<T, K(==)>(xs: seq<T>, key: T -> K): (r: seq<T>)
    ensures IsSubsequence(r, xs)
    ensures DistinctKeys(r, key)
    ensures KeySet(r, key) == KeySet(xs, key)
    ensures forall i :: 0 <= i < |r| ==> key(r[i]) in KeySet(xs, key) && r[i] == FirstWithKey(xs, key, key(r[i]))
    ensures forall a, b :: 0 <= a < b < |r| ==> KeyIndex(xs, key, key(r[a])) < KeyIndex(xs, key, key(r[b]))
  {
    DedupFromSpec(xs, key, {});
    DedupFromOrdered(xs, key, {});
    DedupFrom(xs, key, {})
  }

  /** A sequence whose keys are distinct and all unseen is its own dedup. */
  lemma {:induction false} DedupFromDistinct<T, K>(xs: seq<T>, key: T -> K, seen: set<K>)
    requires DistinctKeys(xs, key)
    requires forall i :: 0 <= i < |xs| ==> key(xs[i]) !in seen
    ensures DedupFrom(xs, key, seen) == xs
    decreases |xs|
  {
    if |xs| > 0 {
      var x := xs[0];
      assert forall i :: 1 <= i < |xs| ==> xs[1..][i - 1] == xs[i];
      DedupFromDistinct(xs[1..], key, seen + {key(x)});
      assert xs == [x] + xs[1..];
    }
  }

  /**
   The first `n` elements of the deduplication: a subsequence of `xs` with distinct keys,
   each the first element carrying its key, and nothing lost when fewer than `n` are kept.
   */
  lemma DedupThenTake<T, K>(xs: seq<T>, key: T -> K, n: nat)
    ensures var r := Take(Dedup(xs, key), n);
      && |r| <= n
      && IsSubsequence(r, xs)
      && DistinctKeys(r, key)
      && (forall k :: 0 <= k < |r| ==> key(r[k]) in KeySet(xs, key) && r[k] == FirstWithKey(xs, key, key(r[k])))
      && (|r| < n ==> KeySet(r, key) == KeySet(xs, key))
  {
    var d := Dedup(xs, key);
    var r := Take(d, n);
    TakeIsSubsequence(d, n);
    SubsequenceTransitive(r, d, xs);
    assert forall k :: 0 <= k < |r| ==> r[k] == d[k];
  }

  /** Deduplicating a concatenation is deduplicating the second part against the keys of the first. */
  lemma {:induction false} DedupFromAppend<T, K>(xs: seq<T>, ys: seq<T>, key: T -> K, seen: set<K>)
    ensures DedupFrom(xs + ys, key, seen) == DedupFrom(xs, key, seen) + DedupFrom(ys, key, seen + KeySet(xs, key))
    decreases |xs|
  {
    if |xs| == 0 {
      assert xs + ys == ys;
      assert KeySet(xs, key) == {};
      assert seen + KeySet(xs, key) == seen;
    } else {
      var x := xs[0];
      assert (xs + ys)[1..] == xs[1..] + ys;
      KeySetCons(x, xs[1..], key);
      assert xs == [x] + xs[1..];
      var seen' := if key(x) in seen then seen else seen + {key(x)};
      DedupFromAppend(xs[1..], ys, key, seen');
      assert seen' + KeySet(xs[1..], key) == seen + KeySet(xs, key);
    }
  }

  lemma KeySetAppend<T, K>(xs: seq<T>, ys: seq<T>, key: T -> K)
    ensures KeySet(xs + ys, key) == KeySet(xs, key) + KeySet(ys, key)
  {
    var zs := xs + ys;
    forall k | k in KeySet(zs, key)
      ensures k in KeySet(xs, key) + KeySet(ys, key)
    {
      var i :| 0 <= i < |zs| && key(zs[i]) == k;
      if i >= |xs| {
        assert zs[i] == ys[i - |xs|];
      }
    }
    forall k | k in KeySet(xs, key) + KeySet(ys, key)
      ensures k in KeySet(zs, key)
    {
      if k in KeySet(xs, key) {
        var i :| 0 <= i < |xs| && key(xs[i]) == k;
        assert zs[i] == xs[i];
      } else {
        var i :| 0 <= i < |ys| && key(ys[i]) == k;
        assert zs[|xs| + i] == ys[i];
      }
    }
  }

  /** The values `f` yields on the elements of `xs`, in order, skipping the elements it rejects. */
  function FilterMap<A, B>(xs: seq<A>, f: A -> Option<B>): (r: seq<B>)
    ensures |r| <= |xs|
    decreases |xs|
  {
    if |xs| == 0 then []
    else
      var rest := FilterMap(xs[1..], f);
      match f(xs[0])
      case None => rest
      case Some(y) => [y] + rest
  }

  /** The values of a concatenation are the values of its parts, in order. */
  lemma {:induction false} FilterMapAppend<A, B>(xs: seq<A>, ys: seq<A>, f: A -> Option<B>)
    ensures FilterMap(xs + ys, f) == FilterMap(xs, f) + FilterMap(ys, f)
    decreases |xs|
  {
    if |xs| == 0 {
      assert xs + ys == ys;
    } else {
      assert (xs + ys)[1..] == xs[1..] + ys;
      assert (xs + ys)[0] == xs[0];
      FilterMapAppend(xs[1..], ys, f);
    }
  }

  /** Extending the prefix by one element appends that element's value, if any. */
  lemma FilterMapSnoc<A, B>(xs: seq<A>, j: int, f: A -> Option<B>)
    requires 0 <= j < |xs|
    ensures FilterMap(xs[..j + 1], f) == FilterMap(xs[..j], f) + (match f(xs[j]) case None => [] case Some(y) => [y])
  {
    assert xs[..j + 1] == xs[..j] + [xs[j]];
    FilterMapAppend(xs[..j], [xs[j]], f);
    assert [xs[j]][1..] == [];
  }

  /** Every value `f` yields is kept: an element it accepts contributes its value. */
  lemma {:induction false} FilterMapKeeps<A, B>(xs: seq<A>, f: A -> Option<B>, i: int)
    requires 0 <= i < |xs| && f(xs[i]).Some?
    ensures f(xs[i]).value in FilterMap(xs, f)
    decreases |xs|
  {
    if i > 0 {
      assert xs[1..][i - 1] == xs[i];
      FilterMapKeeps(xs[1..], f, i - 1);
    }
  }

  /** The elements of `xs` that satisfy `p`, in order, each as often as it occurs in `xs`. */
  function Filter<T(!new)>(xs: seq<T>, p: T -> bool): (r: seq<T>)
    ensures |r| <= |xs|
    ensures forall k :: 0 <= k < |r| ==> p(r[k]) && r[k] in xs
    ensures forall k :: 0 <= k < |xs| && p(xs[k]) ==> xs[k] in r
    ensures forall x :: multiset(r)[x] == if p(x) then multiset(xs)[x] else 0
    decreases |xs|
  {
    if |xs| == 0 then []
    else
      var rest := Filter(xs[1..], p);
      assert forall k :: 1 <= k < |xs| ==> xs[k] == xs[1..][k - 1];
      MultisetCons(xs);
      if p(xs[0]) then [xs[0]] + rest else rest
  }

  lemma MultisetCons<T>(xs: seq<T>)
    requires |xs| > 0
    ensures multiset(xs) == multiset([xs[0]]) + multiset(xs[1..])
  {
    assert xs == [xs[0]] + xs[1..];
  }

  lemma {:induction false} FilterIsSubsequence<T(!new)>(xs: seq<T>, p: T -> bool)
    ensures IsSubsequence(Filter(xs, p), xs)
    decreases |xs|
  {
    if |xs| > 0 {
      FilterIsSubsequence(xs[1..], p);
      if p(xs[0]) {
        assert Filter(xs, p)[1..] == Filter(xs[1..], p);
      } else if |Filter(xs, p)| > 0 {
        assert IsSubsequence(Filter(xs, p), xs[1..]);
      }
    }
  }

  /** Filtering twice is filtering once by the conjunction. */
  lemma {:induction false} FilterTwice<T(!new)>(xs: seq<T>, p: T -> bool, q: T -> bool, both: T -> bool)
    requires forall x :: both(x) == (p(x) && q(x))
    ensures Filter(Filter(xs, p), q) == Filter(xs, both)
    decreases |xs|
  {
    if |xs| > 0 {
      FilterTwice(xs[1..], p, q, both);
      if p(xs[0]) {
        assert Filter(xs, p) == [xs[0]] + Filter(xs[1..], p);
        assert ([xs[0]] + Filter(xs[1..], p))[1..] == Filter(xs[1..], p);
      }
    }
  }

  /** A sequence whose elements all satisfy `p` is its own filter. */
  lemma {:induction false} FilterKeepsAll<T(!new)>(xs: seq<T>, p: T -> bool)
    requires forall k :: 0 <= k < |xs| ==> p(xs[k])
    ensures Filter(xs, p) == xs
    decreases |xs|
  {
    if |xs| > 0 {
      FilterKeepsAll(xs[1..], p);
      assert xs == [xs[0]] + xs[1..];
    }
  }

  /** What holds of every element of `b` holds of every element of a permutation of `b`. */
  lemma PermutationKeeps<T>(a: seq<T>, b: seq<T>, p: T -> bool)
    requires multiset(a) == multiset(b)
    requires forall i :: 0 <= i < |b| ==> p(b[i])
    ensures forall i :: 0 <= i < |a| ==> p(a[i])
  {
    forall i | 0 <= i < |a| ensures p(a[i]) {
      assert a[i] in multiset(b);
    }
  }

  /** A permutation carries the same keys. */
  lemma PermutationKeySet<T, K>(a: seq<T>, b: seq<T>, key: T -> K)
    requires multiset(a) == multiset(b)
    ensures KeySet(a, key) == KeySet(b, key)
  {
    forall k | k in KeySet(a, key) ensures k in KeySet(b, key) {
      var i :| 0 <= i < |a| && key(a[i]) == k;
      assert a[i] in multiset(b);
      var j :| 0 <= j < |b| && b[j] == a[i];
    }
    forall k | k in KeySet(b, key) ensures k in KeySet(a, key) {
      var j :| 0 <= j < |b| && key(b[j]) == k;
      assert b[j] in multiset(a);
      var i :| 0 <= i < |a| && a[i] == b[j];
    }
  }
}
