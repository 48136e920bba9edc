// Python's ordering of `str` values and the stable `sorted(..., key=...)` that the
// directory builders use to order contacts by their lower-cased names.
module Ordering {

  /** `a <= b` on Python strings: lexicographic order of code points. */
  predicate LessEq(a: string, b: string)
    decreases |a|
  {
    a == [] || (b != [] && (a[0] < b[0] || (a[0] == b[0] && LessEq(a[1..], b[1..]))))
  }

  lemma {:induction false} LessEqReflexive(a: string)
    ensures LessEq(a, a)
    decreases |a|
  {
    if a != [] {
      LessEqReflexive(a[1..]);
    }
  }

  lemma {:induction false} LessEqTotal(a: string, b: string)
    ensures LessEq(a, b) || LessEq(b, a)
    decreases |a|
  {
    if a != [] && b != [] && a[0] == b[0] {
      LessEqTotal(a[1..], b[1..]);
    }
  }

  lemma {:induction false} LessEqAntisymmetric(a: string, b: string)
    requires LessEq(a, b) && LessEq(b, a)
    ensures a == b
    decreases |a|
  {
    if a != [] {
      LessEqAntisymmetric(a[1..], b[1..]);
      assert a == [a[0]] + a[1..];
      assert b == [b[0]] + b[1..];
    }
  }

  lemma {:induction false} LessEqTransitive(a: string, b: string, c: string)
    requires LessEq(a, b) && LessEq(b, c)
    ensures LessEq(a, c)
    decreases |a|
  {
    if a != [] && a[0] == b[0] && b[0] == c[0] {
      LessEqTransitive(a[1..], b[1..], c[1..]);
    }
  }

  // ---------------------------------------------------------------------------
  // Stable sorting by key
  // ---------------------------------------------------------------------------

  /**
   * Position `i` goes before position `j` in a stable sort by `keys`: its key is smaller,
   * or the keys are equal and `i` comes first in the input.
   */
  predicate Precedes(keys: seq<string>, i: nat, j: nat)
    requires i < |keys| && j < |keys|
  {
    LessEq(keys[i], keys[j]) && (keys[i] == keys[j] ==> i < j)
  }

  lemma PrecedesTransitive(keys: seq<string>, i: nat, j: nat, k: nat)
    requires i < |keys| && j < |keys| && k < |keys|
    requires Precedes(keys, i, j) && Precedes(keys, j, k)
    ensures Precedes(keys, i, k)
  {
    LessEqTransitive(keys[i], keys[j], keys[k]);
    if keys[i] == keys[k] {
      LessEqAntisymmetric(keys[i], keys[j]);
    }
  }

  lemma PrecedesAsymmetric(keys: seq<string>, i: nat, j: nat)
    requires i < |keys| && j < |keys| && Precedes(keys, i, j)
    ensures !Precedes(keys, j, i)
  {
    if Precedes(keys, j, i) {
      LessEqAntisymmetric(keys[i], keys[j]);
    }
  }

  /** Every entry of `s` is a position of `keys`. */
  predicate Valid(keys: seq<string>, s: seq<nat>)
  {
    forall k :: 0 <= k < |s| ==> s[k] < |keys|
  }

  /** The positions `s` listed in stable sorted order: every one precedes every later one. */
  predicate InOrder(keys: seq<string>, s: seq<nat>)
  {
    Valid(keys, s) && forall a, b :: 0 <= a < b < |s| ==> Precedes(keys, s[a], s[b])
  }

  /** Each position precedes the next one: `InOrder`, stated for neighbours only. */
  predicate Chained(keys: seq<string>, s: seq<nat>)
    requires Valid(keys, s)
    decreases |s|
  {
    |s| <= 1 || (Precedes(keys, s[0], s[1]) && Chained(keys, s[1..]))
  }

  lemma {:induction false} ChainedHeadFirst(keys: seq<string>, s: seq<nat>)
    requires Valid(keys, s) && Chained(keys, s)
    ensures forall b :: 0 < b < |s| ==> Precedes(keys, s[0], s[b])
    decreases |s|
  {
    if |s| > 1 {
      ChainedHeadFirst(keys, s[1..]);
      forall b | 1 < b < |s|
        ensures Precedes(keys, s[0], s[b])
      {
        assert s[1..][b - 1] == s[b];
        PrecedesTransitive(keys, s[0], s[1], s[b]);
      }
    }
  }

  lemma {:induction false} ChainedInOrder(keys: seq<string>, s: seq<nat>)
    requires Valid(keys, s) && Chained(keys, s)
    ensures InOrder(keys, s)
    decreases |s|
  {
    if |s| > 1 {
      ChainedHeadFirst(keys, s);
      ChainedInOrder(keys, s[1..]);
      forall a, b | 0 < a < b < |s|
        ensures Precedes(keys, s[a], s[b])
      {
        assert s[1..][a - 1] == s[a] && s[1..][b - 1] == s[b];
      }
    }
  }

  lemma {:induction false} InOrderChained(keys: seq<string>, s: seq<nat>)
    requires InOrder(keys, s)
    ensures Chained(keys, s)
    decreases |s|
  {
    if |s| > 1 {
      forall a, b | 0 <= a < b < |s[1..]|
        ensures Precedes(keys, s[1..][a], s[1..][b])
      {
        assert s[1..][a] == s[a + 1] && s[1..][b] == s[b + 1];
      }
      InOrderChained(keys, s[1..]);
    }
  }

  /** The positions `0, 1, ..., n - 1`. */
  function Range(n: nat): (r: seq<nat>)
    ensures |r| == n
    ensures forall k :: 0 <= k < n ==> r[k] == k
  {
    seq(n, k requires 0 <= k => k)
  }

  /** Inserts position `i` into a sorted run, after every position that precedes it. */
  function Insert(keys: seq<string>, s: seq<nat>, i: nat): (r: seq<nat>)
    requires i < |keys| && Valid(keys, s)
    ensures multiset(r) == multiset(s) + multiset{i}
    ensures Valid(keys, r)
  {
    if s == [] then [i]
    else if !LessEq(keys[s[0]], keys[i]) then
      assert s == [s[0]] + s[1..];
      [i] + s
    else
      assert s == [s[0]] + s[1..];
      [s[0]] + Insert(keys, s[1..], i)
  }

  /** Insertion sort of the first `n` positions: the order of `sorted(range(n), key=keys.__getitem__)`. */
  function SortedPrefix(keys: seq<string>, n: nat): (r: seq<nat>)
    requires n <= |keys|
    ensures multiset(r) == multiset(Range(n))
    ensures forall k :: 0 <= k < |r| ==> r[k] < n
    ensures Valid(keys, r)
  {
    if n == 0 then []
    else
      var s := SortedPrefix(keys, n - 1);
      assert Range(n) == Range(n - 1) + [n - 1];
      var r := Insert(keys, s, n - 1);
      assert forall k :: 0 <= k < |r| ==> r[k] in multiset(Range(n));
      r
  }

  /** The stable sorted order of all positions of `keys`. */
  function SortedOrder(keys: seq<string>): (r: seq<nat>)
    ensures |r| == |keys|
    ensures multiset(r) == multiset(Range(|keys|))
    ensures Valid(keys, r)
  {
    var r := SortedPrefix(keys, |keys|);
    assert |r| == |multiset(r)| == |multiset(Range(|keys|))| == |keys|;
    r
  }

  /** Inserting a position later than every position of a sorted run keeps it sorted. */
  lemma {:induction false} InsertChained(keys: seq<string>, s: seq<nat>, i: nat)
    requires i < |keys| && Valid(keys, s) && Chained(keys, s)
    requires forall k :: 0 <= k < |s| ==> s[k] < i
    ensures Chained(keys, Insert(keys, s, i))
    ensures Insert(keys, s, i)[0] == if s == [] || !LessEq(keys[s[0]], keys[i]) then i else s[0]
    decreases |s|
  {
    if s == [] {
    } else if !LessEq(keys[s[0]], keys[i]) {
      LessEqTotal(keys[s[0]], keys[i]);
      LessEqReflexive(keys[i]);
      assert ([i] + s)[1..] == s;
    } else {
      var tail := Insert(keys, s[1..], i);
      InsertChained(keys, s[1..], i);
      assert ([s[0]] + tail)[1..] == tail;
    }
  }

  lemma {:induction false} SortedPrefixChained(keys: seq<string>, n: nat)
    requires n <= |keys|
    ensures Chained(keys, SortedPrefix(keys, n))
  {
    if n > 0 {
      SortedPrefixChained(keys, n - 1);
      InsertChained(keys, SortedPrefix(keys, n - 1), n - 1);
      SortedPrefixStep(keys, n);
    }
  }

  lemma SortedPrefixStep(keys: seq<string>, n: nat)
    requires 0 < n <= |keys|
    ensures SortedPrefix(keys, n) == Insert(keys, SortedPrefix(keys, n - 1), n - 1)
  {
  }

  /**
   * `SortedOrder` lists every position once, with keys non-decreasing and equal keys
   * in input order: what Python's stable `sorted` promises.
   */
  lemma SortedOrderIsStableSort(keys: seq<string>)
    ensures InOrder(keys, SortedOrder(keys))
    ensures forall a, b :: 0 <= a < b < |keys| ==> LessEq(keys[SortedOrder(keys)[a]], keys[SortedOrder(keys)[b]])
    ensures forall a, b :: (0 <= a < b < |keys| && keys[SortedOrder(keys)[a]] == keys[SortedOrder(keys)[b]])
              ==> SortedOrder(keys)[a] < SortedOrder(keys)[b]
  {
    SortedPrefixChained(keys, |keys|);
    ChainedInOrder(keys, SortedOrder(keys));
  }

  lemma {:induction false} ChainedUnique(keys: seq<string>, s: seq<nat>, t: seq<nat>)
    requires Valid(keys, s) && Valid(keys, t) && Chained(keys, s) && Chained(keys, t)
    requires multiset(s) == multiset(t)
    ensures s == t
    decreases |s|
  {
    if s == [] {
      assert |t| == |multiset(t)| == 0;
    } else {
      ChainedSameHead(keys, s, t);
      SameTails(s, t);
      ChainedUnique(keys, s[1..], t[1..]);
      assert s == [s[0]] + s[1..];
      assert t == [t[0]] + t[1..];
    }
  }

  /** Two chains over the same positions start with the same one. */
  lemma ChainedSameHead(keys: seq<string>, s: seq<nat>, t: seq<nat>)
    requires Valid(keys, s) && Valid(keys, t) && Chained(keys, s) && Chained(keys, t)
    requires multiset(s) == multiset(t) && s != []
    ensures t != [] && s[0] == t[0]
  {
    assert s[0] in multiset(t);
    if s[0] != t[0] {
      assert t[0] in multiset(s);
      ChainedHeadFirst(keys, s);
      ChainedHeadFirst(keys, t);
      assert Precedes(keys, s[0], t[0]);
      assert Precedes(keys, t[0], s[0]);
      PrecedesAsymmetric(keys, s[0], t[0]);
      assert false;
    }
  }

  /** Equal heads and equal multisets leave equal multisets of the tails. */
  lemma SameTails(s: seq<nat>, t: seq<nat>)
    requires s != [] && t != [] && s[0] == t[0] && multiset(s) == multiset(t)
    ensures multiset(s[1..]) == multiset(t[1..])
  {
    assert s == [s[0]] + s[1..];
    assert t == [t[0]] + t[1..];
    assert multiset(s) == multiset{s[0]} + multiset(s[1..]);
    assert multiset(t) == multiset{t[0]} + multiset(t[1..]);
    assert multiset(s[1..]) == multiset(s) - multiset{s[0]};
    assert multiset(t[1..]) == multiset(t) - multiset{t[0]};
  }

  /**
   * A stable sort has only one possible result: any listing of all positions in stable
   * sorted order is `SortedOrder`. So any stable sort, the one behind Python's `sorted`
   * included, agrees with this insertion sort.
   */
  lemma SortedOrderUnique(keys: seq<string>, s: seq<nat>)
    requires InOrder(keys, s) && multiset(s) == multiset(Range(|keys|))
    ensures s == SortedOrder(keys)
  {
    SortedPrefixChained(keys, |keys|);
    InOrderChained(keys, s);
    ChainedUnique(keys, s, SortedOrder(keys));
  }

  // ---------------------------------------------------------------------------
  // Sorting values
  // ---------------------------------------------------------------------------

  /** The key of every element. */
  function Keys<T>(xs: seq<T>, key: T -> string): (r: seq<string>)
    ensures |r| == |xs| && forall i :: 0 <= i < |xs| ==> r[i] == key(xs[i])
  {
    seq(|xs|, i requires 0 <= i < |xs| => key(xs[i]))
  }

  /** `sorted(xs, key=key)`: the elements of `xs` in the stable sorted order of their keys. */
  function SortBy<T>(xs: seq<T>, key: T -> string): (r: seq<T>)
    ensures |r| == |xs|
    ensures forall k :: 0 <= k < |xs| ==> r[k] == xs[SortedOrder(Keys(xs, key))[k]]
  {
    var order := SortedOrder(Keys(xs, key));
    assert forall k :: 0 <= k < |order| ==> order[k] in multiset(Range(|xs|));
    seq(|xs|, k requires 0 <= k < |xs| => xs[order[k]])
  }

  /** The sorted values have non-decreasing keys, and elements with equal keys keep their input order. */
  lemma SortByIsSorted<T>(xs: seq<T>, key: T -> string)
    ensures forall a, b :: 0 <= a < b < |xs| ==> LessEq(key(SortBy(xs, key)[a]), key(SortBy(xs, key)[b]))
    ensures forall a, b :: (0 <= a < b < |xs| && key(SortBy(xs, key)[a]) == key(SortBy(xs, key)[b]))
              ==> SortedOrder(Keys(xs, key))[a] < SortedOrder(Keys(xs, key))[b]
  {
    SortedOrderIsStableSort(Keys(xs, key));
  }
}
