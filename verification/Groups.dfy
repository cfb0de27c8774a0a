/** Files joined by a move or split: a union-find whose parent map is rewritten
    while it is read. */
module Groups {
  /** A move pair: a file and the file its lines left. */
  type Pair = (string, string)

  // --------------------------------------------------------------- connectedness

  predicate Linked(pairs: set<Pair>, x: string, y: string) {
    (x, y) in pairs || (y, x) in pairs
  }

  /** A walk along the pairs, in either direction. */
  ghost predicate IsWalk(pairs: set<Pair>, walk: seq<string>) {
    walk != [] && forall k | 0 <= k < |walk| - 1 :: Linked(pairs, walk[k], walk[k + 1])
  }

  /** x and y are related in the equivalence closure of the pairs. */
  ghost predicate Connected(pairs: set<Pair>, x: string, y: string) {
    exists walk :: IsWalk(pairs, walk) && walk[0] == x && walk[|walk| - 1] == y
  }

  lemma ConnectedToItself(pairs: set<Pair>, x: string)
    ensures Connected(pairs, x, x)
  {
    assert IsWalk(pairs, [x]);
  }

  lemma PairConnects(pairs: set<Pair>, x: string, y: string)
    requires Linked(pairs, x, y)
    ensures Connected(pairs, x, y)
  {
    assert IsWalk(pairs, [x, y]);
  }

  lemma ConnectedBack(pairs: set<Pair>, x: string, y: string)
    requires Connected(pairs, x, y)
    ensures Connected(pairs, y, x)
  {
    var walk :| IsWalk(pairs, walk) && walk[0] == x && walk[|walk| - 1] == y;
    var n := |walk|;
    var back := seq(n, k requires 0 <= k < n => walk[n - 1 - k]);
    forall k | 0 <= k < n - 1
      ensures Linked(pairs, back[k], back[k + 1])
    {
      assert Linked(pairs, walk[n - 2 - k], walk[n - 2 - k + 1]);
    }
    assert IsWalk(pairs, back);
  }

  lemma ConnectedOn(pairs: set<Pair>, x: string, y: string, z: string)
    requires Connected(pairs, x, y) && Connected(pairs, y, z)
    ensures Connected(pairs, x, z)
  {
    var a :| IsWalk(pairs, a) && a[0] == x && a[|a| - 1] == y;
    var b :| IsWalk(pairs, b) && b[0] == y && b[|b| - 1] == z;
    var walk := a + b[1..];
    forall k | 0 <= k < |walk| - 1
      ensures Linked(pairs, walk[k], walk[k + 1])
    {
      if k < |a| - 1 {
        assert Linked(pairs, a[k], a[k + 1]);
      } else {
        assert Linked(pairs, b[k - |a| + 1], b[k - |a| + 2]);
      }
    }
    assert IsWalk(pairs, walk);
  }

  lemma MorePairsConnect(pairs: set<Pair>, more: set<Pair>, x: string, y: string)
    requires pairs <= more && Connected(pairs, x, y)
    ensures Connected(more, x, y)
  {
    var walk :| IsWalk(pairs, walk) && walk[0] == x && walk[|walk| - 1] == y;
    assert IsWalk(more, walk);
  }

  // ------------------------------------------------------------------ partitions

  /** The representative a map gives a file; a file not listed is its own. */
  function RepIn(root: map<string, string>, f: string): string {
    if f in root then root[f] else f
  }

  /** Two files share a representative exactly when the pairs connect them. */
  ghost predicate Partitions(root: map<string, string>, pairs: set<Pair>) {
    forall x, y :: RepIn(root, x) == RepIn(root, y) <==> Connected(pairs, x, y)
  }

  lemma NoPairsPartition()
    ensures Partitions(map[], {})
  {
    forall x, y
      ensures x == y <==> Connected({}, x, y)
    {
      ConnectedToItself({}, x);
      if Connected({}, x, y) {
        var walk :| IsWalk({}, walk) && walk[0] == x && walk[|walk| - 1] == y;
        assert |walk| > 1 ==> Linked({}, walk[0], walk[1]);
      }
    }
  }

  /** A map constant on each pair is constant on each walk. */
  lemma {:induction false} ConstantOnWalk(pairs: set<Pair>, root: map<string, string>, walk: seq<string>)
    requires IsWalk(pairs, walk) && forall x, y | (x, y) in pairs :: RepIn(root, x) == RepIn(root, y)
    ensures RepIn(root, walk[0]) == RepIn(root, walk[|walk| - 1])
    decreases |walk|
  {
    if |walk| > 1 {
      var rest := walk[1..];
      assert Linked(pairs, walk[0], walk[1]);
      forall k | 0 <= k < |rest| - 1
        ensures Linked(pairs, rest[k], rest[k + 1])
      {
        assert Linked(pairs, walk[k + 1], walk[k + 2]);
      }
      ConstantOnWalk(pairs, root, rest);
    }
  }

  lemma Across(pairs: set<Pair>, more: set<Pair>, x: string, u: string, v: string, y: string)
    requires pairs <= more && Connected(pairs, x, u) && Connected(more, u, v) && Connected(pairs, v, y)
    ensures Connected(more, x, y)
  {
    MorePairsConnect(pairs, more, x, u);
    MorePairsConnect(pairs, more, v, y);
    ConnectedOn(more, x, u, v);
    ConnectedOn(more, x, v, y);
  }

  /** Joining the representatives of a pair's ends joins exactly what the pair
      connects. */
  lemma JoinedPartition(before: map<string, string>, after: map<string, string>, pairs: set<Pair>, u: string, v: string)
    requires Partitions(before, pairs)
    requires forall x :: RepIn(after, x) == if RepIn(before, x) == RepIn(before, u) then RepIn(before, v) else RepIn(before, x)
    ensures Partitions(after, pairs + {(u, v)})
  {
    var more := pairs + {(u, v)};
    PairConnects(more, u, v);
    ConnectedBack(more, u, v);
    forall p, q | (p, q) in more
      ensures RepIn(after, p) == RepIn(after, q)
    {
      if (p, q) in pairs {
        PairConnects(pairs, p, q);
      }
    }
    forall x, y
      ensures RepIn(after, x) == RepIn(after, y) <==> Connected(more, x, y)
    {
      if Connected(more, x, y) {
        var walk :| IsWalk(more, walk) && walk[0] == x && walk[|walk| - 1] == y;
        ConstantOnWalk(more, after, walk);
      }
      if RepIn(after, x) == RepIn(after, y) {
        if RepIn(before, x) == RepIn(before, y) {
          MorePairsConnect(pairs, more, x, y);
        } else if RepIn(before, x) == RepIn(before, u) {
          Across(pairs, more, x, u, v, y);
        } else {
          Across(pairs, more, x, v, u, y);
        }
      }
    }
  }

  // --------------------------------------------------------------------- the forest

  function LevelIn(level: map<string, nat>, f: string): nat {
    if f in level then level[f] else 0
  }

  /** Parents are on lower levels and in the same tree; representatives have no
      parent. */
  ghost predicate IsForest(parent: map<string, string>, root: map<string, string>, level: map<string, nat>) {
    && root.Keys == parent.Keys
    && (forall f | f in parent :: LevelIn(level, parent[f]) < LevelIn(level, f) && RepIn(root, parent[f]) == root[f])
    && (forall f | f in root :: root[f] !in parent)
  }

  /** A listed file's representative is on a lower level. */
  lemma {:induction false} RepIsLower(parent: map<string, string>, root: map<string, string>, level: map<string, nat>, f: string)
    requires IsForest(parent, root, level) && f in parent
    ensures LevelIn(level, root[f]) < LevelIn(level, f)
    decreases LevelIn(level, f)
  {
    if parent[f] in parent {
      RepIsLower(parent, root, level, parent[f]);
    }
  }

  /** A file's parent is a step nearer its representative; pointing it straight
      there keeps the forest and everybody's representative. */
  lemma PointedAtRoot(parent: map<string, string>, root: map<string, string>, level: map<string, nat>, f: string)
    requires IsForest(parent, root, level)
    ensures RepIn(root, f) !in parent && (f !in parent ==> RepIn(root, f) == f)
    ensures f in parent ==>
      && parent[f] != f && LevelIn(level, parent[f]) < LevelIn(level, f) && RepIn(root, parent[f]) == RepIn(root, f)
      && IsForest(parent[f := RepIn(root, f)], root, level)
  {
    if f in parent {
      RepIsLower(parent, root, level, f);
    }
  }

  ghost function JoinedRoots(files: set<string>, root: map<string, string>, a: string, b: string): map<string, string> {
    map f | f in files :: if RepIn(root, f) == a then b else RepIn(root, f)
  }

  /** Every level of tree a raised above b's. */
  ghost function RaisedLevels(files: set<string>, root: map<string, string>, level: map<string, nat>, a: string, b: string): map<string, nat> {
    map f | f in level.Keys + files ::
      if RepIn(root, f) == a then LevelIn(level, f) + LevelIn(level, b) + 1 else LevelIn(level, f)
  }

  lemma JoinedAt(parent: map<string, string>, root: map<string, string>, level: map<string, nat>, a: string, b: string, f: string)
    requires root.Keys == parent.Keys && a !in parent
    ensures RepIn(JoinedRoots(parent.Keys + {a}, root, a, b), f) == if RepIn(root, f) == a then b else RepIn(root, f)
    ensures LevelIn(RaisedLevels(parent.Keys + {a}, root, level, a, b), f)
         == if RepIn(root, f) == a then LevelIn(level, f) + LevelIn(level, b) + 1 else LevelIn(level, f)
  {
  }

  /** Tree a goes under b. */
  lemma JoinIsForest(parent: map<string, string>, root: map<string, string>, level: map<string, nat>, a: string, b: string)
    requires IsForest(parent, root, level) && a !in parent && b !in parent && a != b
    ensures IsForest(parent[a := b], JoinedRoots(parent.Keys + {a}, root, a, b), RaisedLevels(parent.Keys + {a}, root, level, a, b))
  {
    var files := parent.Keys + {a};
    var parent', root', level' := parent[a := b], JoinedRoots(files, root, a, b), RaisedLevels(files, root, level, a, b);
    hide JoinedRoots, RaisedLevels, LevelIn;
    assert parent'.Keys == files;
    JoinedKeys(files, root, a, b);
    forall f | f in parent'
      ensures LevelIn(level', parent'[f]) < LevelIn(level', f) && RepIn(root', parent'[f]) == root'[f]
      ensures root'[f] !in parent'
    {
      JoinedAt(parent, root, level, a, b, f);
      JoinedAt(parent, root, level, a, b, parent'[f]);
    }
  }

  lemma JoinedKeys(files: set<string>, root: map<string, string>, a: string, b: string)
    ensures JoinedRoots(files, root, a, b).Keys == files
  {
  }

  class Forest {
    var parent: map<string, string>
    ghost var root: map<string, string>
    ghost var level: map<string, nat>

    ghost predicate Valid()
      reads this
    {
      IsForest(parent, root, level)
    }

    constructor ()
      ensures Valid() && root == map[]
    {
      parent, root, level := map[], map[], map[];
    }

    /** Finds the representative and points every file on the way at it. No
        file's representative changes. */
    method Find(f: string) returns (r: string)
      requires Valid()
      modifies this`parent
      ensures Valid() && r == RepIn(root, f) && r !in parent
      ensures parent.Keys == old(parent.Keys) && (f in parent ==> parent[f] == r)
      ensures forall g | g in parent :: parent[g] == old(parent)[g] || parent[g] == r
      decreases LevelIn(level, f)
    {
      hide IsForest;
      PointedAtRoot(parent, root, level, f);
      var p := if f in parent then parent[f] else f;
      if p == f {
        return f;
      }
      r := Find(p);
      PointedAtRoot(parent, root, level, f);
      parent := parent[f := r];
    }

    /** One move: the two files' trees become one. */
    method Join(to: string, from: string)
      requires Valid()
      modifies this
      ensures Valid()
      ensures forall f :: RepIn(root, f)
                       == if RepIn(old(root), f) == RepIn(old(root), to) then RepIn(old(root), from) else RepIn(old(root), f)
    {
      var a := Find(to);
      var b := Find(from);
      if a != b {
        JoinIsForest(parent, root, level, a, b);
        forall f
          ensures RepIn(JoinedRoots(parent.Keys + {a}, root, a, b), f) == if RepIn(root, f) == a then b else RepIn(root, f)
        {
          JoinedAt(parent, root, level, a, b, f);
        }
        hide IsForest, JoinedRoots, RaisedLevels;
        level := RaisedLevels(parent.Keys + {a}, root, level, a, b);
        root := JoinedRoots(parent.Keys + {a}, root, a, b);
        parent := parent[a := b];
      }
    }
  }

  function PairsOf(moves: map<string, string>): set<Pair> {
    set to | to in moves :: (to, moves[to])
  }

  /** Whatever order the moves are read in, two files share a representative
      exactly when the moves connect them; each later Find returns it. */
  method GroupsOf(moves: map<string, string>) returns (forest: Forest)
    ensures fresh(forest) && forest.Valid() && Partitions(forest.root, PairsOf(moves))
  {
    forest := new Forest();
    NoPairsPartition();
    var todo := moves.Keys;
    ghost var done: set<Pair> := {};
    while todo != {}
      invariant todo <= moves.Keys && fresh(forest) && forest.Valid()
      invariant done == set to | to in moves.Keys - todo :: (to, moves[to])
      invariant Partitions(forest.root, done)
    {
      var to :| to in todo;
      ghost var before := forest.root;
      forest.Join(to, moves[to]);
      JoinedPartition(before, forest.root, done, to, moves[to]);
      todo := todo - {to};
      done := done + {(to, moves[to])};
    }
    assert done == PairsOf(moves);
  }

  /** The partition depends only on which pairs there are, so not on map order. */
  lemma PartitionIsDetermined(one: map<string, string>, other: map<string, string>, pairs: set<Pair>, x: string, y: string)
    requires Partitions(one, pairs) && Partitions(other, pairs)
    ensures RepIn(one, x) == RepIn(one, y) <==> RepIn(other, x) == RepIn(other, y)
  {
    hide Connected;
    assert RepIn(one, x) == RepIn(one, y) <==> Connected(pairs, x, y);
  }
}
