/** Router splits: the properties of a new part found, in order, among those
    removed from one router literal, each node used by one part only. */
module Procedures {
  import opened Options

  /** A syntax node, by identity. */
  type Node = nat

  /** A wholly removed property of a literal, and its tokens. */
  datatype Removed = Removed(prop: Node, key: string)

  /** Lines a cut takes from one side of a file. */
  datatype Span = Span(first: nat, last: nat)

  /** A router literal of file f's old side; None marks a property that stayed. */
  datatype Literal = Literal(f: nat, removed: seq<Option<Removed>>)

  /** A new part in file d: its properties' tokens, its own lines, and, for each
      literal, the nodes that would mount it there, in the order they are met. */
  datatype Part = Part(d: nat, keys: seq<string>, span: Span, mounts: seq<seq<Node>>)

  predicate Available(removed: seq<Option<Removed>>, claimed: set<Node>, i: nat, key: string) {
    i < |removed| && removed[i].Some? && removed[i].value.key == key && removed[i].value.prop !in claimed
  }

  /** The first keys are found, in order, at these places of the literal. */
  ghost predicate Embeds(removed: seq<Option<Removed>>, claimed: set<Node>, keys: seq<string>, at: seq<nat>) {
    && |at| <= |keys|
    && (forall k | 0 <= k < |at| :: Available(removed, claimed, at[k], keys[k]))
    && (forall k, l | 0 <= k < l < |at| :: at[k] < at[l])
  }

  /** Wherever the keys can be found, the j-th place is i or later. */
  ghost predicate NotBefore(removed: seq<Option<Removed>>, claimed: set<Node>, keys: seq<string>, j: nat, i: nat) {
    forall at | Embeds(removed, claimed, keys, at) && j < |at| :: i <= at[j]
  }

  /** No place the keys can be found at is earlier than the picked one. */
  ghost predicate Earliest(removed: seq<Option<Removed>>, claimed: set<Node>, keys: seq<string>, picked: seq<nat>) {
    forall at, k | Embeds(removed, claimed, keys, at) && 0 <= k < |at| && k < |picked| :: picked[k] <= at[k]
  }

  lemma SkipOver(removed: seq<Option<Removed>>, claimed: set<Node>, keys: seq<string>, j: nat, i: nat)
    requires j < |keys| && NotBefore(removed, claimed, keys, j, i) && !Available(removed, claimed, i, keys[j])
    ensures NotBefore(removed, claimed, keys, j, i + 1)
  {
    forall at | Embeds(removed, claimed, keys, at) && j < |at|
      ensures i + 1 <= at[j]
    {
      assert Available(removed, claimed, at[j], keys[j]);
    }
  }

  lemma PickNext(removed: seq<Option<Removed>>, claimed: set<Node>, keys: seq<string>, picked: seq<nat>, i: nat)
    requires Embeds(removed, claimed, keys, picked) && Earliest(removed, claimed, keys, picked)
    requires |picked| < |keys| && NotBefore(removed, claimed, keys, |picked|, i)
    requires Available(removed, claimed, i, keys[|picked|]) && forall k | 0 <= k < |picked| :: picked[k] < i
    ensures Embeds(removed, claimed, keys, picked + [i]) && Earliest(removed, claimed, keys, picked + [i])
    ensures NotBefore(removed, claimed, keys, |picked| + 1, i + 1)
  {
    hide Available;
    forall at | Embeds(removed, claimed, keys, at) && |picked| + 1 < |at|
      ensures i + 1 <= at[|picked| + 1]
    {
      assert at[|picked|] < at[|picked| + 1];
    }
  }

  lemma NoPlaceLeft(removed: seq<Option<Removed>>, claimed: set<Node>, keys: seq<string>, j: nat, at: seq<nat>)
    requires NotBefore(removed, claimed, keys, j, |removed|) && Embeds(removed, claimed, keys, at)
    ensures |at| <= j
  {
    assert forall k | 0 <= k < |at| :: Available(removed, claimed, at[k], keys[k]) && at[k] < |removed|;
  }

  /** The scan finds a place for every key exactly when the keys are a
      subsequence of the literal's removed, unclaimed properties, and it takes
      the earliest such places. */
  method PickInOrder(removed: seq<Option<Removed>>, claimed: set<Node>, keys: seq<string>) returns (picked: seq<nat>)
    ensures Embeds(removed, claimed, keys, picked) && Earliest(removed, claimed, keys, picked)
    ensures |picked| == |keys| <==> exists at :: Embeds(removed, claimed, keys, at) && |at| == |keys|
  {
    picked := [];
    var i := 0;
    hide NotBefore, Earliest, Available;
    NothingPicked(removed, claimed, keys);
    for j := 0 to |keys|
      invariant |picked| == j && Embeds(removed, claimed, keys, picked) && Earliest(removed, claimed, keys, picked)
      invariant i <= |removed| && forall k | 0 <= k < j :: picked[k] < i
      invariant NotBefore(removed, claimed, keys, j, i)
    {
      while i < |removed| && !Available(removed, claimed, i, keys[j])
        invariant i <= |removed| && forall k | 0 <= k < j :: picked[k] < i
        invariant NotBefore(removed, claimed, keys, j, i)
      {
        SkipOver(removed, claimed, keys, j, i);
        i := i + 1;
      }
      if i == |removed| {
        forall at | Embeds(removed, claimed, keys, at)
          ensures |at| <= j
        {
          NoPlaceLeft(removed, claimed, keys, j, at);
        }
        return;
      }
      PickNext(removed, claimed, keys, picked, i);
      picked := picked + [i];
      i := i + 1;
    }
  }

  lemma NothingPicked(removed: seq<Option<Removed>>, claimed: set<Node>, keys: seq<string>)
    ensures NotBefore(removed, claimed, keys, 0, 0) && Earliest(removed, claimed, keys, [])
  {
  }

  // ------------------------------------------------------------------ all parts

  /** One split: the old properties that moved, and the new mount. */
  datatype Move = Move(part: nat, literal: nat, at: seq<nat>, props: seq<Node>, mount: Node)

  predicate Apart(a: Span, b: Span) {
    a.last < b.first || a.first > b.last
  }

  predicate OnLine(s: Span, line: nat) {
    s.first <= line <= s.last
  }

  /** Two spans are apart if and only if no line is in both. */
  lemma ApartShareNoLine(a: Span, b: Span)
    requires a.first <= a.last && b.first <= b.last
    ensures Apart(a, b) <==> forall line: nat | OnLine(a, line) :: !OnLine(b, line)
  {
    if !Apart(a, b) {
      var line := if a.first <= b.first then b.first else a.first;
      assert OnLine(a, line) && OnLine(b, line);
    }
  }

  function NodesOf(m: Move): set<Node> {
    (set n | n in m.props) + {m.mount}
  }

  /** What one move claims: all of the part's properties, in their old order,
      from one literal of another file, and a mount there. */
  ghost predicate IsMove(parts: seq<Part>, literals: seq<Literal>, m: Move) {
    && m.part < |parts| && m.literal < |literals|
    && literals[m.literal].f != parts[m.part].d
    && |m.at| == |m.props| == |parts[m.part].keys|
    && Embeds(literals[m.literal].removed, {}, parts[m.part].keys, m.at)
    && (forall k | 0 <= k < |m.at| :: literals[m.literal].removed[m.at[k]].value.prop == m.props[k])
    && m.literal < |parts[m.part].mounts| && m.mount in parts[m.part].mounts[m.literal]
  }

  /** A node and its lines, on the side it is on. */
  type Lines = Node -> Span

  datatype Cuts = Cuts(olds: map<nat, seq<Span>>, news: map<nat, seq<Span>>)

  function At(spans: map<nat, seq<Span>>, f: nat): seq<Span> {
    if f in spans then spans[f] else []
  }

  /** The spans already taken where a cut is. */
  function Taken(cuts: Cuts, c: (bool, nat, Span)): seq<Span> {
    At(if c.0 then cuts.news else cuts.olds, c.1)
  }

  predicate Free(taken: seq<Span>, span: Span) {
    forall t | t in taken :: Apart(span, t)
  }

  /** The move's cuts: its properties on the old side of the literal's file, its
      mount on the new side there, and the part on the new side of its own. */
  function CutsOf(parts: seq<Part>, literals: seq<Literal>, lines: Lines, m: Move): set<(bool, nat, Span)>
    requires m.part < |parts| && m.literal < |literals|
  {
    var f := literals[m.literal].f;
    (set p | p in m.props :: (false, f, lines(p))) + {(true, f, lines(m.mount)), (true, parts[m.part].d, parts[m.part].span)}
  }

  /** Cuts on the same side of the same file share no line. */
  ghost predicate CutsApart(a: set<(bool, nat, Span)>, b: set<(bool, nat, Span)>) {
    forall x, y | x in a && y in b && x.0 == y.0 && x.1 == y.1 :: Apart(x.2, y.2)
  }

  /** The recorded spans hold every cut of every move. */
  ghost predicate Recorded(parts: seq<Part>, literals: seq<Literal>, lines: Lines, moves: seq<Move>, cuts: Cuts) {
    forall m, c | m in moves && IsMove(parts, literals, m) && c in CutsOf(parts, literals, lines, m) ::
      c.2 in Taken(cuts, c)
  }

  function Claimed(moves: seq<Move>): set<Node> {
    if moves == [] then {} else Claimed(moves[..|moves| - 1]) + NodesOf(moves[|moves| - 1])
  }

  lemma {:induction false} ClaimedHasEach(moves: seq<Move>, k: nat)
    requires k < |moves|
    ensures NodesOf(moves[k]) <= Claimed(moves)
  {
    if k < |moves| - 1 {
      ClaimedHasEach(moves[..|moves| - 1], k);
    }
  }

  lemma {:induction false} ClaimedIs(moves: seq<Move>, n: Node)
    ensures n in Claimed(moves) <==> exists m | m in moves :: n in m.props || n == m.mount
  {
    if moves != [] {
      var init, last := moves[..|moves| - 1], moves[|moves| - 1];
      ClaimedIs(init, n);
      assert moves == init + [last];
      assert n in NodesOf(last) <==> n in last.props || n == last.mount;
      hide NodesOf;
    }
  }

  /** Every move is whole; no two of them share a property, a mount or a line. */
  ghost predicate Separate(parts: seq<Part>, literals: seq<Literal>, lines: Lines, moves: seq<Move>) {
    && (forall m | m in moves :: IsMove(parts, literals, m))
    && (forall a, b | 0 <= a < b < |moves| :: NodesOf(moves[a]) !! NodesOf(moves[b]))
    && (forall a, b | 0 <= a < b < |moves| && IsMove(parts, literals, moves[a]) && IsMove(parts, literals, moves[b]) ::
          CutsApart(CutsOf(parts, literals, lines, moves[b]), CutsOf(parts, literals, lines, moves[a])))
  }

  /** The first node nobody has claimed. */
  ghost predicate IsFirstFree(nodes: seq<Node>, claimed: set<Node>, n: Node) {
    exists i | 0 <= i < |nodes| :: nodes[i] == n && n !in claimed && forall k | 0 <= k < i :: nodes[k] in claimed
  }

  method FirstUnclaimed(nodes: seq<Node>, claimed: set<Node>) returns (found: Option<Node>)
    ensures found.Some? ==> IsFirstFree(nodes, claimed, found.value)
    ensures found.None? ==> forall n | n in nodes :: n in claimed
  {
    for i := 0 to |nodes|
      invariant forall k | 0 <= k < i :: nodes[k] in claimed
    {
      if nodes[i] !in claimed {
        return Some(nodes[i]);
      }
    }
    return None;
  }

  function Pushed(spans: map<nat, seq<Span>>, f: nat, more: seq<Span>): map<nat, seq<Span>> {
    spans[f := At(spans, f) + more]
  }

  /** What part p finds in literal l: its properties at the earliest places, and
      the first mount, none of them claimed. */
  ghost predicate Candidate(parts: seq<Part>, literals: seq<Literal>, p: nat, l: nat, claimed: set<Node>, m: Move) {
    && m.part == p && m.literal == l && IsMove(parts, literals, m)
    && Embeds(literals[l].removed, claimed, parts[p].keys, m.at) && Earliest(literals[l].removed, claimed, parts[p].keys, m.at)
    && IsFirstFree(parts[p].mounts[l], claimed, m.mount)
  }

  /** And no line of it is cut already. */
  ghost predicate CanMove(parts: seq<Part>, literals: seq<Literal>, lines: Lines, p: nat, l: nat, claimed: set<Node>, cuts: Cuts, m: Move) {
    && Candidate(parts, literals, p, l, claimed, m)
    && forall c | c in CutsOf(parts, literals, lines, m) :: Free(Taken(cuts, c), c.2)
  }

  lemma SamePlaces(removed: seq<Option<Removed>>, claimed: set<Node>, keys: seq<string>, a: seq<nat>, b: seq<nat>)
    requires Embeds(removed, claimed, keys, a) && Earliest(removed, claimed, keys, a)
    requires Embeds(removed, claimed, keys, b) && Earliest(removed, claimed, keys, b)
    requires |a| == |b|
    ensures a == b
  {
    hide Embeds;
    forall k | 0 <= k < |a|
      ensures a[k] == b[k]
    {
      assert a[k] <= b[k] && b[k] <= a[k];
    }
  }

  lemma OneFirstFree(nodes: seq<Node>, claimed: set<Node>, m: Node, n: Node)
    requires IsFirstFree(nodes, claimed, m) && IsFirstFree(nodes, claimed, n)
    ensures m == n
  {
  }

  lemma OneCandidate(parts: seq<Part>, literals: seq<Literal>, p: nat, l: nat, claimed: set<Node>, m: Move, n: Move)
    requires Candidate(parts, literals, p, l, claimed, m) && Candidate(parts, literals, p, l, claimed, n)
    ensures m == n
  {
    hide Embeds, Earliest, IsFirstFree;
    SamePlaces(literals[l].removed, claimed, parts[p].keys, m.at, n.at);
    OneFirstFree(parts[p].mounts[l], claimed, m.mount, n.mount);
    assert m.props == n.props;
  }

  lemma CandidateIsUnclaimed(parts: seq<Part>, literals: seq<Literal>, p: nat, l: nat, claimed: set<Node>, m: Move)
    requires Candidate(parts, literals, p, l, claimed, m)
    ensures NodesOf(m) !! claimed
  {
    hide Earliest;
    forall k | 0 <= k < |m.at|
      ensures m.props[k] !in claimed
    {
      assert Available(literals[l].removed, claimed, m.at[k], parts[p].keys[k]);
    }
  }

  lemma FoundCandidate(parts: seq<Part>, literals: seq<Literal>, p: nat, l: nat, claimed: set<Node>, m: Move)
    requires p < |parts| && l < |literals| && literals[l].f != parts[p].d && l < |parts[p].mounts|
    requires m.part == p && m.literal == l && |m.at| == |m.props| == |parts[p].keys|
    requires Embeds(literals[l].removed, claimed, parts[p].keys, m.at) && Earliest(literals[l].removed, claimed, parts[p].keys, m.at)
    requires forall k | 0 <= k < |m.at| :: m.at[k] < |literals[l].removed| && literals[l].removed[m.at[k]].Some?
                                            && literals[l].removed[m.at[k]].value.prop == m.props[k]
    requires IsFirstFree(parts[p].mounts[l], claimed, m.mount)
    ensures Candidate(parts, literals, p, l, claimed, m)
  {
    forall k | 0 <= k < |m.at|
      ensures Available(literals[l].removed, {}, m.at[k], parts[p].keys[k])
    {
      assert Available(literals[l].removed, claimed, m.at[k], parts[p].keys[k]);
    }
    hide Earliest;
  }

  /** Tries one literal for a part: finds the move there is, if there is one. */
  method TryLiteral(parts: seq<Part>, literals: seq<Literal>, lines: Lines, p: nat, l: nat, claimed: set<Node>, cuts: Cuts)
    returns (found: Option<Move>)
    requires p < |parts| && l < |literals|
    ensures found.Some? ==> CanMove(parts, literals, lines, p, l, claimed, cuts, found.value)
    ensures found.None? ==> forall m :: !CanMove(parts, literals, lines, p, l, claimed, cuts, m)
  {
    hide Embeds, Earliest, IsFirstFree;
    var part, literal := parts[p], literals[l];
    if literal.f == part.d {
      return None;
    }
    var at := PickInOrder(literal.removed, claimed, part.keys);
    if |at| != |part.keys| {
      return None;
    }
    EmbedsInside(literal.removed, claimed, part.keys, at);
    var props := seq(|at|, k requires 0 <= k < |at| => literal.removed[at[k]].value.prop);
    var mount := None;
    if l < |part.mounts| {
      mount := FirstUnclaimed(part.mounts[l], claimed);
    }
    if mount.None? {
      forall m
        ensures !CanMove(parts, literals, lines, p, l, claimed, cuts, m)
      {
        if l < |part.mounts| {
          NoneFree(part.mounts[l], claimed, m.mount);
        }
      }
      return None;
    }
    var m := Move(p, l, at, props, mount.value);
    FoundCandidate(parts, literals, p, l, claimed, m);
    if !(forall q | q in props :: Free(At(cuts.olds, literal.f), lines(q)))
       || !Free(At(cuts.news, literal.f), lines(mount.value))
       || !Free(At(cuts.news, part.d), part.span)
    {
      NotAllFree(parts, literals, lines, p, l, cuts, m);
      forall n
        ensures !CanMove(parts, literals, lines, p, l, claimed, cuts, n)
      {
        hide Candidate;
        if Candidate(parts, literals, p, l, claimed, n) {
          OneCandidate(parts, literals, p, l, claimed, m, n);
        }
      }
      return None;
    }
    return Some(m);
  }

  lemma EmbedsInside(removed: seq<Option<Removed>>, claimed: set<Node>, keys: seq<string>, at: seq<nat>)
    requires Embeds(removed, claimed, keys, at)
    ensures forall k | 0 <= k < |at| :: at[k] < |removed| && removed[at[k]].Some?
  {
    forall k | 0 <= k < |at|
      ensures at[k] < |removed| && removed[at[k]].Some?
    {
      assert Available(removed, claimed, at[k], keys[k]);
    }
  }

  lemma NoneFree(nodes: seq<Node>, claimed: set<Node>, n: Node)
    requires forall m | m in nodes :: m in claimed
    ensures !IsFirstFree(nodes, claimed, n)
  {
  }

  lemma NotAllFree(parts: seq<Part>, literals: seq<Literal>, lines: Lines, p: nat, l: nat, cuts: Cuts, m: Move)
    requires p < |parts| && l < |literals| && m.part == p && m.literal == l
    requires var f := literals[l].f;
             || !(forall q | q in m.props :: Free(At(cuts.olds, f), lines(q)))
             || !Free(At(cuts.news, f), lines(m.mount))
             || !Free(At(cuts.news, parts[p].d), parts[p].span)
    ensures exists c | c in CutsOf(parts, literals, lines, m) :: !Free(Taken(cuts, c), c.2)
  {
    hide Free, At;
    var f := literals[l].f;
    if q :| q in m.props && !Free(At(cuts.olds, f), lines(q)) {
      assert (false, f, lines(q)) in CutsOf(parts, literals, lines, m);
    } else if !Free(At(cuts.news, f), lines(m.mount)) {
      assert (true, f, lines(m.mount)) in CutsOf(parts, literals, lines, m);
    } else {
      assert (true, parts[p].d, parts[p].span) in CutsOf(parts, literals, lines, m);
    }
  }

  /** A move's cut is free where the recorded spans are: then it is apart from
      every earlier move's. */
  lemma FreeIsApart(parts: seq<Part>, literals: seq<Literal>, lines: Lines, moves: seq<Move>, cuts: Cuts, m: Move, was: Move)
    requires Recorded(parts, literals, lines, moves, cuts) && was in moves
    requires IsMove(parts, literals, m) && IsMove(parts, literals, was)
    requires forall c | c in CutsOf(parts, literals, lines, m) :: Free(Taken(cuts, c), c.2)
    ensures CutsApart(CutsOf(parts, literals, lines, m), CutsOf(parts, literals, lines, was))
  {
    assert m.part < |parts| && m.literal < |literals| && was.part < |parts| && was.literal < |literals|;
    hide IsMove, CutsOf, Apart, At;
    forall x, y | x in CutsOf(parts, literals, lines, m) && y in CutsOf(parts, literals, lines, was) && x.0 == y.0 && x.1 == y.1
      ensures Apart(x.2, y.2)
    {
      assert y.2 in Taken(cuts, y);
      assert Free(Taken(cuts, x), x.2);
    }
  }

  lemma AddMove(parts: seq<Part>, literals: seq<Literal>, lines: Lines, moves: seq<Move>, cuts: Cuts, m: Move)
    requires Separate(parts, literals, lines, moves) && Recorded(parts, literals, lines, moves, cuts)
    requires IsMove(parts, literals, m) && NodesOf(m) !! Claimed(moves)
    requires forall c | c in CutsOf(parts, literals, lines, m) :: Free(Taken(cuts, c), c.2)
    ensures Separate(parts, literals, lines, moves + [m])
  {
    assert m.part < |parts| && m.literal < |literals|;
    hide IsMove, CutsApart, CutsOf, Recorded, NodesOf, Claimed, Free, Taken;
    var more := moves + [m];
    forall a, b | 0 <= a < b < |more|
      ensures NodesOf(more[a]) !! NodesOf(more[b])
    {
      if b == |moves| {
        ClaimedHasEach(moves, a);
      }
    }
    forall a, b | 0 <= a < b < |more| && IsMove(parts, literals, more[a]) && IsMove(parts, literals, more[b])
      ensures CutsInRange(parts, literals, more[a]) && CutsInRange(parts, literals, more[b])
      ensures CutsApart(CutsOf(parts, literals, lines, more[b]), CutsOf(parts, literals, lines, more[a]))
    {
      MoveInRange(parts, literals, more[a]);
      MoveInRange(parts, literals, more[b]);
      if b == |moves| {
        FreeIsApart(parts, literals, lines, moves, cuts, m, moves[a]);
      }
    }
  }

  predicate CutsInRange(parts: seq<Part>, literals: seq<Literal>, m: Move) {
    m.part < |parts| && m.literal < |literals|
  }

  lemma MoveInRange(parts: seq<Part>, literals: seq<Literal>, m: Move)
    requires IsMove(parts, literals, m)
    ensures CutsInRange(parts, literals, m)
  {
  }

  lemma PushedKeeps(spans: map<nat, seq<Span>>, f: nat, more: seq<Span>, g: nat, x: Span)
    ensures x in At(spans, g) ==> x in At(Pushed(spans, f, more), g)
    ensures x in more ==> x in At(Pushed(spans, f, more), f)
  {
  }

  function SpansOf(props: seq<Node>, lines: Lines): seq<Span> {
    seq(|props|, k requires 0 <= k < |props| => lines(props[k]))
  }

  lemma InSpansOf(props: seq<Node>, lines: Lines, x: Span)
    ensures x in SpansOf(props, lines) <==> exists p | p in props :: x == lines(p)
  {
    var spans := SpansOf(props, lines);
    if p :| p in props && x == lines(p) {
      var k :| 0 <= k < |props| && props[k] == p;
      assert spans[k] == x;
    }
    if k :| 0 <= k < |spans| && spans[k] == x {
      assert props[k] in props;
    }
  }

  /** The spans after one more move. */
  function AddCuts(parts: seq<Part>, literals: seq<Literal>, lines: Lines, cuts: Cuts, m: Move): Cuts {
    if CutsInRange(parts, literals, m) then
      var f, d := literals[m.literal].f, parts[m.part].d;
      Cuts(Pushed(cuts.olds, f, SpansOf(m.props, lines)),
           Pushed(Pushed(cuts.news, f, [lines(m.mount)]), d, [parts[m.part].span]))
    else cuts
  }

  function CutsAfter(parts: seq<Part>, literals: seq<Literal>, lines: Lines, moves: seq<Move>): Cuts {
    if moves == [] then Cuts(map[], map[])
    else AddCuts(parts, literals, lines, CutsAfter(parts, literals, lines, moves[..|moves| - 1]), moves[|moves| - 1])
  }

  predicate IsCut(parts: seq<Part>, literals: seq<Literal>, lines: Lines, m: Move, isNew: bool, f: nat, x: Span) {
    && CutsInRange(parts, literals, m)
    && if isNew then (f == literals[m.literal].f && x == lines(m.mount)) || (f == parts[m.part].d && x == parts[m.part].span)
       else f == literals[m.literal].f && exists p | p in m.props :: x == lines(p)
  }

  lemma PushedAt(spans: map<nat, seq<Span>>, f: nat, more: seq<Span>, g: nat, x: Span)
    ensures x in At(Pushed(spans, f, more), g) <==> x in At(spans, g) || (g == f && x in more)
  {
  }

  lemma AddedCuts(parts: seq<Part>, literals: seq<Literal>, lines: Lines, cuts: Cuts, m: Move, isNew: bool, f: nat, x: Span)
    ensures var after := AddCuts(parts, literals, lines, cuts, m);
            x in At(if isNew then after.news else after.olds, f)
            <==> x in At(if isNew then cuts.news else cuts.olds, f) || IsCut(parts, literals, lines, m, isNew, f, x)
  {
    hide Pushed, At, SpansOf;
    if CutsInRange(parts, literals, m) {
      var g, d := literals[m.literal].f, parts[m.part].d;
      if isNew {
        PushedAt(cuts.news, g, [lines(m.mount)], f, x);
        PushedAt(Pushed(cuts.news, g, [lines(m.mount)]), d, [parts[m.part].span], f, x);
      } else {
        PushedAt(cuts.olds, g, SpansOf(m.props, lines), f, x);
        InSpansOf(m.props, lines, x);
      }
    }
  }

  /** The spans taken are the moves' own and no others: their properties' and mounts'
      in the literal's file, and the parts'. */
  lemma {:induction false} CutsAre(parts: seq<Part>, literals: seq<Literal>, lines: Lines, moves: seq<Move>, isNew: bool, f: nat, x: Span)
    ensures var cuts := CutsAfter(parts, literals, lines, moves);
            x in At(if isNew then cuts.news else cuts.olds, f)
            <==> exists m | m in moves :: IsCut(parts, literals, lines, m, isNew, f, x)
  {
    hide AddCuts, IsCut;
    if moves != [] {
      var init, last := moves[..|moves| - 1], moves[|moves| - 1];
      CutsAre(parts, literals, lines, init, isNew, f, x);
      AddedCuts(parts, literals, lines, CutsAfter(parts, literals, lines, init), last, isNew, f, x);
      assert moves == init + [last];
    }
  }

  lemma RecordCuts(parts: seq<Part>, literals: seq<Literal>, lines: Lines, moves: seq<Move>, cuts: Cuts, m: Move)
    requires Recorded(parts, literals, lines, moves, cuts) && IsMove(parts, literals, m)
    ensures Recorded(parts, literals, lines, moves + [m], AddCuts(parts, literals, lines, cuts, m))
  {
    var next := AddCuts(parts, literals, lines, cuts, m);
    var f, d := literals[m.literal].f, parts[m.part].d;
    hide IsMove, At, Pushed, SpansOf;
    var olds := SpansOf(m.props, lines);
    var mounted := Pushed(cuts.news, f, [lines(m.mount)]);
    assert next == Cuts(Pushed(cuts.olds, f, olds), Pushed(mounted, d, [parts[m.part].span]));
    forall n, c | n in moves + [m] && IsMove(parts, literals, n) && CutsInRange(parts, literals, n) && c in CutsOf(parts, literals, lines, n)
      ensures c.2 in Taken(next, c)
    {
      PushedKeeps(cuts.olds, f, olds, c.1, c.2);
      PushedKeeps(cuts.news, f, [lines(m.mount)], c.1, c.2);
      PushedKeeps(mounted, d, [parts[m.part].span], c.1, c.2);
      if n in moves {
        assert c.2 in Taken(cuts, c);
      } else if !c.0 {
        InSpansOf(m.props, lines, c.2);
      }
    }
  }

  /** The earliest places of the first j keys, where all keys have a place. */
  lemma {:induction false} EarliestPlaces(removed: seq<Option<Removed>>, claimed: set<Node>, keys: seq<string>, at: seq<nat>, j: nat)
    returns (picked: seq<nat>)
    requires Embeds(removed, claimed, keys, at) && j <= |at|
    ensures |picked| == j && Embeds(removed, claimed, keys, picked) && Earliest(removed, claimed, keys, picked)
    ensures NotBefore(removed, claimed, keys, j, if j == 0 then 0 else picked[j - 1] + 1)
  {
    picked := [];
    if j == 0 {
      NothingPicked(removed, claimed, keys);
    } else {
      hide Available, Earliest, NotBefore;
      picked := EarliestPlaces(removed, claimed, keys, at, j - 1);
      var l := j - 1;
      var from := if l == 0 then 0 else picked[l - 1] + 1;
      EarliestIsNoLater(removed, claimed, keys, picked, at, l);
      var i := NextPlace(removed, claimed, keys, l, from, at[l]);
      PickNext(removed, claimed, keys, picked, i);
      picked := picked + [i];
    }
  }

  lemma EarliestIsNoLater(removed: seq<Option<Removed>>, claimed: set<Node>, keys: seq<string>, picked: seq<nat>, at: seq<nat>, l: nat)
    requires Embeds(removed, claimed, keys, at) && Earliest(removed, claimed, keys, picked) && |picked| == l < |at|
    ensures l > 0 ==> picked[l - 1] < at[l]
    ensures Available(removed, claimed, at[l], keys[l])
  {
    if l > 0 {
      var k := l - 1;
      assert picked[k] <= at[k] && at[k] < at[l];
    }
  }

  lemma {:induction false} NextPlace(removed: seq<Option<Removed>>, claimed: set<Node>, keys: seq<string>, j: nat, from: nat, last: nat)
    returns (i: nat)
    requires j < |keys| && from <= last && Available(removed, claimed, last, keys[j]) && NotBefore(removed, claimed, keys, j, from)
    ensures from <= i <= last && Available(removed, claimed, i, keys[j]) && NotBefore(removed, claimed, keys, j, i)
    decreases last - from
  {
    hide Available, NotBefore;
    if Available(removed, claimed, from, keys[j]) {
      i := from;
    } else {
      SkipOver(removed, claimed, keys, j, from);
      i := NextPlace(removed, claimed, keys, j, from + 1, last);
    }
  }

  /** A part whose properties are all, by their tokens and in order, among those removed
      from a literal of another file, and which is mounted there, moves from there,
      unless something is claimed or cut already. */
  lemma PlaceIsFound(parts: seq<Part>, literals: seq<Literal>, lines: Lines, p: nat, l: nat, at: seq<nat>)
    requires p < |parts| && l < |literals| && literals[l].f != parts[p].d
    requires l < |parts[p].mounts| && parts[p].mounts[l] != []
    requires |at| == |parts[p].keys| && forall j, k | 0 <= j < k < |at| :: at[j] < at[k]
    requires forall k | 0 <= k < |at| :: at[k] < |literals[l].removed| && literals[l].removed[at[k]].Some?
                                         && literals[l].removed[at[k]].value.key == parts[p].keys[k]
    ensures exists m :: CanMove(parts, literals, lines, p, l, {}, Cuts(map[], map[]), m) && m.mount == parts[p].mounts[l][0]
  {
    var removed, keys := literals[l].removed, parts[p].keys;
    assert Embeds(removed, {}, keys, at);
    var picked := EarliestPlaces(removed, {}, keys, at, |at|);
    EmbedsInside(removed, {}, keys, picked);
    var props := seq(|picked|, k requires 0 <= k < |picked| => removed[picked[k]].value.prop);
    var m := Move(p, l, picked, props, parts[p].mounts[l][0]);
    assert IsFirstFree(parts[p].mounts[l], {}, m.mount) by {
      assert parts[p].mounts[l][0] == m.mount;
    }
    hide Embeds, Earliest, IsFirstFree;
    FoundCandidate(parts, literals, p, l, {}, m);
    hide Candidate;
    assert CanMove(parts, literals, lines, p, l, {}, Cuts(map[], map[]), m);
  }

  /** After these moves, part p finds nothing in the first n literals. */
  ghost predicate FindsNothing(parts: seq<Part>, literals: seq<Literal>, lines: Lines, moves: seq<Move>, p: nat, n: nat) {
    forall l: nat, m | l < n ::
      !CanMove(parts, literals, lines, p, l, Claimed(moves), CutsAfter(parts, literals, lines, moves), m)
  }

  /** After these moves, m is what part p finds, and it finds nothing earlier. */
  ghost predicate FindsFirst(parts: seq<Part>, literals: seq<Literal>, lines: Lines, moves: seq<Move>, p: nat, m: Move) {
    && CanMove(parts, literals, lines, p, m.literal, Claimed(moves), CutsAfter(parts, literals, lines, moves), m)
    && FindsNothing(parts, literals, lines, moves, p, m.literal)
  }

  /** Part p's move is the n-th and the first there was for it, or it has none
      and there was none after the n moves of the parts before it. */
  ghost predicate Answered(parts: seq<Part>, literals: seq<Literal>, lines: Lines, moves: seq<Move>, p: nat, n: nat) {
    && n <= |moves|
    && (forall k | 0 <= k < n :: moves[k].part < p) && (forall k | n <= k < |moves| :: moves[k].part >= p)
    && if n < |moves| && moves[n].part == p then FindsFirst(parts, literals, lines, moves[..n], p, moves[n])
       else FindsNothing(parts, literals, lines, moves[..n], p, |literals|)
  }

  ghost predicate IsAnswered(parts: seq<Part>, literals: seq<Literal>, lines: Lines, moves: seq<Move>, p: nat) {
    exists n :: Answered(parts, literals, lines, moves, p, n)
  }

  ghost predicate AllAnswered(parts: seq<Part>, literals: seq<Literal>, lines: Lines, moves: seq<Move>, p: nat) {
    forall q: nat | q < p :: IsAnswered(parts, literals, lines, moves, q)
  }

  lemma StaysAnswered(parts: seq<Part>, literals: seq<Literal>, lines: Lines, moves: seq<Move>, m: Move, q: nat, n: nat)
    requires Answered(parts, literals, lines, moves, q, n) && q < m.part
    ensures Answered(parts, literals, lines, moves + [m], q, n)
  {
    hide FindsFirst, FindsNothing;
    assert (moves + [m])[..n] == moves[..n];
  }

  lemma AnsweredWithMove(parts: seq<Part>, literals: seq<Literal>, lines: Lines, moves: seq<Move>, p: nat, m: Move)
    requires AllAnswered(parts, literals, lines, moves, p) && forall k | 0 <= k < |moves| :: moves[k].part < p
    requires FindsFirst(parts, literals, lines, moves, p, m) && m.part == p
    ensures AllAnswered(parts, literals, lines, moves + [m], p + 1)
  {
    hide FindsFirst, FindsNothing, Answered;
    var more := moves + [m];
    assert more[..|moves|] == moves;
    forall q: nat | q < p + 1
      ensures IsAnswered(parts, literals, lines, more, q)
    {
      if q < p {
        assert IsAnswered(parts, literals, lines, moves, q);
        var n :| Answered(parts, literals, lines, moves, q, n);
        StaysAnswered(parts, literals, lines, moves, m, q, n);
      } else {
        AnsweredByLast(parts, literals, lines, moves, p, m);
      }
    }
  }

  lemma AnsweredByLast(parts: seq<Part>, literals: seq<Literal>, lines: Lines, moves: seq<Move>, p: nat, m: Move)
    requires (forall k | 0 <= k < |moves| :: moves[k].part < p) && m.part == p
    requires FindsFirst(parts, literals, lines, moves, p, m)
    ensures Answered(parts, literals, lines, moves + [m], p, |moves|)
  {
    hide FindsFirst, FindsNothing;
    assert (moves + [m])[..|moves|] == moves;
  }

  lemma AnsweredWithout(parts: seq<Part>, literals: seq<Literal>, lines: Lines, moves: seq<Move>, p: nat)
    requires AllAnswered(parts, literals, lines, moves, p) && forall k | 0 <= k < |moves| :: moves[k].part < p
    requires FindsNothing(parts, literals, lines, moves, p, |literals|)
    ensures AllAnswered(parts, literals, lines, moves, p + 1)
  {
    hide FindsFirst, FindsNothing;
    assert moves[..|moves|] == moves;
    assert Answered(parts, literals, lines, moves, p, |moves|);
    assert IsAnswered(parts, literals, lines, moves, p);
    hide Answered, IsAnswered;
  }

  /** Matches each new part against the literals, in order. Whatever is cut, each
      part's properties left one literal in their old order, token for token, and
      nothing is claimed or cut twice; a part gets the first match there is for
      it after the parts before it, and none only when there is none. */
  method CutMovedProcedures(parts: seq<Part>, literals: seq<Literal>, lines: Lines)
    returns (moves: seq<Move>)
    ensures Separate(parts, literals, lines, moves)
    ensures forall a, b | 0 <= a < b < |moves| :: moves[a].part < moves[b].part
    ensures AllAnswered(parts, literals, lines, moves, |parts|)
  {
    hide CanMove, Separate, Recorded, AllAnswered, FindsFirst, AddCuts, NodesOf, IsMove;
    moves := [];
    var claimed: set<Node> := {};
    var cuts := Cuts(map[], map[]);
    NothingMoved(parts, literals, lines);
    for p := 0 to |parts|
      invariant Separate(parts, literals, lines, moves) && Recorded(parts, literals, lines, moves, cuts)
      invariant claimed == Claimed(moves) && cuts == CutsAfter(parts, literals, lines, moves)
      invariant forall k | 0 <= k < |moves| :: moves[k].part < p
      invariant forall a, b | 0 <= a < b < |moves| :: moves[a].part < moves[b].part
      invariant AllAnswered(parts, literals, lines, moves, p)
    {
      ghost var matched := false;
      for l := 0 to |literals|
        invariant FindsNothing(parts, literals, lines, moves, p, l)
      {
        var found := TryLiteral(parts, literals, lines, p, l, claimed, cuts);
        if found.Some? {
          var m := found.value;
          FoundFirst(parts, literals, lines, moves, p, l, m);
          AddMove(parts, literals, lines, moves, cuts, m);
          RecordCuts(parts, literals, lines, moves, cuts, m);
          AnsweredWithMove(parts, literals, lines, moves, p, m);
          assert (moves + [m])[..|moves|] == moves;
          cuts := AddCuts(parts, literals, lines, cuts, m);
          moves, claimed := moves + [m], claimed + NodesOf(m);
          matched := true;
          break;
        }
      }
      if !matched {
        AnsweredWithout(parts, literals, lines, moves, p);
      }
    }
  }

  lemma NothingMoved(parts: seq<Part>, literals: seq<Literal>, lines: Lines)
    ensures Separate(parts, literals, lines, []) && Recorded(parts, literals, lines, [], Cuts(map[], map[]))
    ensures AllAnswered(parts, literals, lines, [], 0)
  {
  }

  lemma FoundFirst(parts: seq<Part>, literals: seq<Literal>, lines: Lines, moves: seq<Move>, p: nat, l: nat, m: Move)
    requires FindsNothing(parts, literals, lines, moves, p, l)
    requires CanMove(parts, literals, lines, p, l, Claimed(moves), CutsAfter(parts, literals, lines, moves), m)
    ensures FindsFirst(parts, literals, lines, moves, p, m) && m.part == p
    ensures IsMove(parts, literals, m) && NodesOf(m) !! Claimed(moves)
    ensures forall c | c in CutsOf(parts, literals, lines, m) :: Free(Taken(CutsAfter(parts, literals, lines, moves), c), c.2)
  {
    CandidateIsUnclaimed(parts, literals, p, l, Claimed(moves), m);
    hide Embeds, Earliest, IsFirstFree, CutsOf, Free, NodesOf, FindsNothing;
  }

  lemma CutsOfAre(parts: seq<Part>, literals: seq<Literal>, lines: Lines, m: Move, isNew: bool, f: nat, x: Span)
    requires IsCut(parts, literals, lines, m, isNew, f, x)
    ensures (isNew, f, x) in CutsOf(parts, literals, lines, m)
  {
  }

  /** Nothing two moves take is on one line, whichever of a property, a mount or a part
      each takes there. */
  lemma NoLineIsCutTwice(parts: seq<Part>, literals: seq<Literal>, lines: Lines, moves: seq<Move>, a: nat, b: nat,
                         isNew: bool, f: nat, x: Span, y: Span)
    requires Separate(parts, literals, lines, moves) && a < b < |moves|
    requires IsCut(parts, literals, lines, moves[a], isNew, f, x) && IsCut(parts, literals, lines, moves[b], isNew, f, y)
    ensures Apart(x, y)
  {
    CutsOfAre(parts, literals, lines, moves[a], isNew, f, x);
    CutsOfAre(parts, literals, lines, moves[b], isNew, f, y);
    hide CutsOf, IsMove, NodesOf, Apart, IsCut;
    assert moves[a] in moves && moves[b] in moves;
  }

  /** Every property of a moved part stood, token for token and in the same order, in
      one literal of another file and left it, and the mount is one that mounts it there. */
  lemma MovesAreWhole(parts: seq<Part>, literals: seq<Literal>, lines: Lines, moves: seq<Move>, m: Move)
    requires Separate(parts, literals, lines, moves) && m in moves
    ensures m.part < |parts| && m.literal < |literals|
    ensures var keys, removed := parts[m.part].keys, literals[m.literal].removed;
            && literals[m.literal].f != parts[m.part].d && |m.at| == |m.props| == |keys|
            && (forall k | 0 <= k < |keys| :: m.at[k] < |removed| && removed[m.at[k]] == Some(Removed(m.props[k], keys[k])))
            && (forall j, k | 0 <= j < k < |keys| :: m.at[j] < m.at[k])
            && m.literal < |parts[m.part].mounts| && m.mount in parts[m.part].mounts[m.literal]
  {
    hide CutsApart, CutsOf, NodesOf;
    var keys, removed := parts[m.part].keys, literals[m.literal].removed;
    forall k | 0 <= k < |keys|
      ensures m.at[k] < |removed| && removed[m.at[k]] == Some(Removed(m.props[k], keys[k]))
    {
      assert Available(removed, {}, m.at[k], keys[k]);
    }
  }

  /** No property or mount is used by two parts. */
  lemma NothingIsUsedTwice(parts: seq<Part>, literals: seq<Literal>, lines: Lines, moves: seq<Move>, a: nat, b: nat)
    requires Separate(parts, literals, lines, moves) && a < b < |moves|
    ensures forall p | p in moves[a].props :: p !in moves[b].props && p != moves[b].mount
    ensures moves[a].mount !in moves[b].props && moves[a].mount != moves[b].mount
  {
    assert NodesOf(moves[a]) !! NodesOf(moves[b]);
    hide Separate;
    forall p | p in moves[a].props
      ensures p !in moves[b].props && p != moves[b].mount
    {
      assert p in NodesOf(moves[a]);
    }
    assert moves[a].mount in NodesOf(moves[a]);
  }
}
