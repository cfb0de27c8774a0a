/** The longest in-order matching of two line lists, by a bottom-up table and a
    forward walk. */
module InOrder {
  /** Index pairs with equal keys, strictly increasing on both sides. */
  ghost predicate Matching<T>(a: seq<T>, b: seq<T>, pairs: seq<(nat, nat)>) {
    && (forall k | 0 <= k < |pairs| ::
          pairs[k].0 < |a| && pairs[k].1 < |b| && a[pairs[k].0] == b[pairs[k].1])
    && (forall k, l | 0 <= k < l < |pairs| :: pairs[k].0 < pairs[l].0 && pairs[k].1 < pairs[l].1)
  }

  function Max(x: nat, y: nat): nat {
    if x >= y then x else y
  }

  /** What the table holds: the length of a longest matching of a[i..] and b[j..]. */
  function Longest<T(==)>(a: seq<T>, b: seq<T>, i: nat, j: nat): nat
    decreases |a| - i + |b| - j
  {
    if i >= |a| || j >= |b| then 0
    else if a[i] == b[j] then Longest(a, b, i + 1, j + 1) + 1
    else Max(Longest(a, b, i + 1, j), Longest(a, b, i, j + 1))
  }

  lemma LongestAtEdge<T>(a: seq<T>, b: seq<T>)
    ensures forall x, y | 0 <= x <= |a| && 0 <= y <= |b| && (x == |a| || y == |b|) :: Longest(a, b, x, y) == 0
  {
  }

  lemma LongestAt<T>(a: seq<T>, b: seq<T>, i: nat, j: nat)
    requires i < |a| && j < |b|
    ensures Longest(a, b, i, j)
         == if a[i] == b[j] then Longest(a, b, i + 1, j + 1) + 1
            else Max(Longest(a, b, i + 1, j), Longest(a, b, i, j + 1))
  {
  }

  /** No matching of what is left is longer than the table says. */
  lemma {:induction false} NoneLonger<T>(a: seq<T>, b: seq<T>, i: nat, j: nat, q: seq<(nat, nat)>)
    requires i <= |a| && j <= |b| && Matching(a, b, q)
    requires q != [] ==> q[0].0 >= i && q[0].1 >= j
    ensures |q| <= Longest(a, b, i, j)
    decreases |a| - i + |b| - j
  {
    if q != [] {
      var rest := q[1..];
      if a[i] == b[j] {
        NoneLonger(a, b, i + 1, j + 1, rest);
      } else if q[0].0 > i {
        NoneLonger(a, b, i + 1, j, q);
      } else {
        NoneLonger(a, b, i, j + 1, q);
      }
    }
  }

  method BuildTable<T(==)>(a: seq<T>, b: seq<T>) returns (table: array2<nat>)
    ensures fresh(table) && table.Length0 == |a| + 1 && table.Length1 == |b| + 1
    ensures forall x, y | 0 <= x <= |a| && 0 <= y <= |b| :: table[x, y] == Longest(a, b, x, y)
  {
    hide Longest, Max;
    LongestAtEdge(a, b);
    table := new nat[|a| + 1, |b| + 1]((_, _) => 0);
    for i := |a| downto 0
      invariant forall x, y | i <= x <= |a| && 0 <= y <= |b| :: table[x, y] == Longest(a, b, x, y)
      invariant forall x, y | 0 <= x < i && 0 <= y <= |b| :: table[x, y] == 0
    {
      for j := |b| downto 0
        invariant forall x, y | i < x <= |a| && 0 <= y <= |b| :: table[x, y] == Longest(a, b, x, y)
        invariant forall x, y | 0 <= x < i && 0 <= y <= |b| :: table[x, y] == 0
        invariant forall y | j <= y <= |b| :: table[i, y] == Longest(a, b, i, y)
      {
        LongestAt(a, b, i, j);
        table[i, j] :=
          if a[i] == b[j] then table[i + 1, j + 1] + 1 else Max(table[i + 1, j], table[i, j + 1]);
      }
    }
  }

  /** The pairs are a matching, and no matching is longer. */
  method LongestInOrder<T(==)>(a: seq<T>, b: seq<T>) returns (pairs: seq<(nat, nat)>)
    ensures Matching(a, b, pairs)
    ensures forall q | Matching(a, b, q) :: |q| <= |pairs|
  {
    var table := BuildTable(a, b);
    pairs := [];
    var i, j := 0, 0;
    while i < |a| && j < |b|
      invariant 0 <= i <= |a| && 0 <= j <= |b|
      invariant Matching(a, b, pairs)
      invariant forall k | 0 <= k < |pairs| :: pairs[k].0 < i && pairs[k].1 < j
      invariant |pairs| + Longest(a, b, i, j) == Longest(a, b, 0, 0)
      decreases |a| - i + |b| - j
    {
      if a[i] == b[j] {
        pairs, i, j := pairs + [(i, j)], i + 1, j + 1;
      } else if table[i + 1, j] >= table[i, j + 1] {
        i := i + 1;
      } else {
        j := j + 1;
      }
    }
    forall q | Matching(a, b, q)
      ensures |q| <= |pairs|
    {
      NoneLonger(a, b, 0, 0, q);
    }
  }
}
