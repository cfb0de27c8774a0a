/** Lists, the sets of their elements, and sums of counts by key. */
module Lists {
  ghost predicate NoDuplicates<T>(s: seq<T>) {
    forall i, j | 0 <= i < j < |s| :: s[i] != s[j]
  }

  function Elements<T>(s: seq<T>): set<T> {
    set x | x in s
  }

  lemma {:induction false} ElementsAtMostLength<T>(s: seq<T>)
    ensures |Elements(s)| <= |s|
  {
    if s == [] {
      assert Elements(s) == {};
    } else {
      ElementsAtMostLength(s[1..]);
      assert Elements(s) == {s[0]} + Elements(s[1..]);
    }
  }

  lemma {:induction false} DistinctElements<T>(s: seq<T>)
    requires NoDuplicates(s)
    ensures |Elements(s)| == |s|
  {
    if s == [] {
      assert Elements(s) == {};
    } else {
      DistinctElements(s[1..]);
      assert s[0] !in s[1..];
      assert Elements(s) == {s[0]} + Elements(s[1..]);
    }
  }

  lemma DuplicateIsLost<T>(s: seq<T>)
    requires !NoDuplicates(s)
    ensures |Elements(s)| < |s|
  {
    var i, j :| 0 <= i < j < |s| && s[i] == s[j];
    var less := s[..j] + s[j + 1..];
    assert less[i] == s[j];
    assert forall k | 0 <= k < |s| && k != j :: s[k] == less[if k < j then k else k - 1];
    assert Elements(less) == Elements(s);
    ElementsAtMostLength(less);
  }

  lemma {:induction false} OncePerElement<T>(s: seq<T>, x: T)
    requires NoDuplicates(s)
    ensures multiset(s)[x] == if x in s then 1 else 0
  {
    if s != [] {
      var rest, last := s[..|s| - 1], s[|s| - 1];
      OncePerElement(rest, x);
      assert s == rest + [last];
      assert last !in rest;
    }
  }

  /** A list with the elements of one without repeats, and as long, is that list in
      some order. */
  lemma SameElementsSameCounts<T>(a: seq<T>, b: seq<T>)
    requires |a| == |b| && Elements(a) == Elements(b) && NoDuplicates(b)
    ensures multiset(a) == multiset(b)
  {
    DistinctElements(b);
    if !NoDuplicates(a) {
      DuplicateIsLost(a);
    }
    forall x
      ensures multiset(a)[x] == multiset(b)[x]
    {
      OncePerElement(a, x);
      OncePerElement(b, x);
      assert x in a <==> x in Elements(a);
      assert x in b <==> x in Elements(b);
    }
  }

  lemma SubsetIsSmaller<T>(a: set<T>, b: set<T>)
    requires a <= b
    ensures |a| <= |b| && (|b| <= |a| ==> a == b)
  {
    assert b == a + (b - a) && |b| == |a| + |b - a|;
    if |b| <= |a| {
      assert b - a == {};
      assert forall x | x in b :: x in a || x in b - a;
    }
  }

  // ------------------------------------------------------------------- counted

  datatype Counted<K> = Counted(key: K, count: nat)

  function Total<K>(es: seq<Counted<K>>): nat {
    if es == [] then 0 else Total(es[..|es| - 1]) + es[|es| - 1].count
  }

  function SumOf<K(==)>(es: seq<Counted<K>>, key: K): nat {
    if es == [] then 0
    else
      var last := es[|es| - 1];
      SumOf(es[..|es| - 1], key) + if last.key == key then last.count else 0
  }

  function Without<K(==)>(es: seq<Counted<K>>, key: K): seq<Counted<K>> {
    if es == [] then []
    else
      var last := es[|es| - 1];
      Without(es[..|es| - 1], key) + if last.key == key then [] else [last]
  }

  predicate HasKey<K(==)>(es: seq<Counted<K>>, key: K) {
    es != [] && (es[|es| - 1].key == key || HasKey(es[..|es| - 1], key))
  }

  lemma AddedLast<K>(es: seq<Counted<K>>, e: Counted<K>, key: K)
    ensures SumOf(es + [e], key) == SumOf(es, key) + if e.key == key then e.count else 0
    ensures Total(es + [e]) == Total(es) + e.count
  {
    assert (es + [e])[..|es|] == es;
  }

  lemma {:induction false} WithoutKey<K>(es: seq<Counted<K>>, key: K, other: K)
    ensures |Without(es, key)| <= |es| && (HasKey(es, key) ==> |Without(es, key)| < |es|)
    ensures Total(es) == SumOf(es, key) + Total(Without(es, key))
    ensures other != key ==> SumOf(Without(es, key), other) == SumOf(es, other)
    ensures HasKey(Without(es, key), other) <==> other != key && HasKey(es, other)
  {
    if es != [] {
      var rest, last := es[..|es| - 1], es[|es| - 1];
      WithoutKey(rest, key, other);
      var kept := Without(rest, key);
      if last.key == key {
        assert Without(es, key) == kept;
      } else {
        assert (kept + [last])[..|kept|] == kept;
      }
    }
  }

  /** If no key's sum is larger, the total is not. */
  lemma {:induction false} TotalsFollowSums<K(!new)>(a: seq<Counted<K>>, b: seq<Counted<K>>)
    requires forall k | HasKey(a, k) :: SumOf(a, k) <= SumOf(b, k)
    ensures Total(a) <= Total(b)
    decreases |a|
  {
    if a != [] {
      var key := a[|a| - 1].key;
      var a', b' := Without(a, key), Without(b, key);
      WithoutKey(a, key, key);
      WithoutKey(b, key, key);
      forall k | HasKey(a', k)
        ensures SumOf(a', k) <= SumOf(b', k)
      {
        WithoutKey(a, key, k);
        WithoutKey(b, key, k);
      }
      TotalsFollowSums(a', b');
    }
  }

  /** The sums of every key, accumulated in one pass. */
  method SumsByKey<K(==,!new)>(es: seq<Counted<K>>) returns (sums: map<K, nat>)
    ensures forall k :: k in sums <==> HasKey(es, k)
    ensures forall k | k in sums :: sums[k] == SumOf(es, k)
    ensures forall k | k !in sums :: SumOf(es, k) == 0
  {
    sums := map[];
    for i := 0 to |es|
      invariant forall k :: k in sums <==> HasKey(es[..i], k)
      invariant forall k | k in sums :: sums[k] == SumOf(es[..i], k)
      invariant forall k | k !in sums :: SumOf(es[..i], k) == 0
    {
      var e := es[i];
      assert es[..i + 1] == es[..i] + [e] && es[..i + 1][..i] == es[..i];
      sums := sums[e.key := (if e.key in sums then sums[e.key] else 0) + e.count];
    }
    assert es[..|es|] == es;
  }
}
