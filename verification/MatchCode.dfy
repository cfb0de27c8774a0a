/** Whether changed code is only moved code: lines matched in place, then runs
    matched across files, each line used at most once. */
module MatchCode {
  import opened InOrder
  import opened Lists

  datatype CodeLine = CodeLine(at: nat, key: string, group: nat, changed: bool)

  /** A file's code lines at one side, and the statement that starts or ends on
      a line. */
  datatype CodeSide = CodeSide(lines: seq<CodeLine>, startOf: map<nat, nat>, endOf: map<nat, nat>)

  datatype CodeFile = CodeFile(old_: CodeSide, new_: CodeSide)

  /** Line i of file f, on the side the context gives. */
  datatype Ref = Ref(f: nat, i: nat)

  datatype Unexplained = OldLine(ref: Ref) | NewLine(ref: Ref)

  /** Lines i.. of file f's old side moved to lines j.. of file g's new side. */
  datatype Run = Run(f: nat, i: nat, g: nat, j: nat, length: nat)

  predicate OldChanged(code: seq<CodeFile>, r: Ref) {
    r.f < |code| && r.i < |code[r.f].old_.lines| && code[r.f].old_.lines[r.i].changed
  }

  predicate NewChanged(code: seq<CodeFile>, r: Ref) {
    r.f < |code| && r.i < |code[r.f].new_.lines| && code[r.f].new_.lines[r.i].changed
  }

  function OldKey(code: seq<CodeFile>, r: Ref): string
    requires OldChanged(code, r)
  {
    code[r.f].old_.lines[r.i].key
  }

  function NewKey(code: seq<CodeFile>, r: Ref): string
    requires NewChanged(code, r)
  {
    code[r.f].new_.lines[r.i].key
  }

  /** The changed lines with a key: its multiplicity in the side's key multiset
      is the size of the set. */
  ghost function OldWith(code: seq<CodeFile>, key: string): set<Ref> {
    set f, i | 0 <= f < |code| && 0 <= i < |code[f].old_.lines| && OldChanged(code, Ref(f, i))
               && OldKey(code, Ref(f, i)) == key :: Ref(f, i)
  }

  ghost function NewWith(code: seq<CodeFile>, key: string): set<Ref> {
    set f, i | 0 <= f < |code| && 0 <= i < |code[f].new_.lines| && NewChanged(code, Ref(f, i))
               && NewKey(code, Ref(f, i)) == key :: Ref(f, i)
  }

  lemma WithMembers(code: seq<CodeFile>, key: string)
    ensures forall r :: r in OldWith(code, key) <==> OldChanged(code, r) && OldKey(code, r) == key
    ensures forall r :: r in NewWith(code, key) <==> NewChanged(code, r) && NewKey(code, r) == key
  {
    forall r | OldChanged(code, r) && OldKey(code, r) == key
      ensures r in OldWith(code, key)
    {
      assert r == Ref(r.f, r.i);
    }
    forall r | NewChanged(code, r) && NewKey(code, r) == key
      ensures r in NewWith(code, key)
    {
      assert r == Ref(r.f, r.i);
    }
  }

  // ------------------------------------------------------------------ pairings

  /** Which old line each matched new line came from, and back. */
  datatype Pairing = Pairing(toOld: map<Ref, Ref>, toNew: map<Ref, Ref>)

  /** One to one, changed lines only, keys kept. */
  ghost predicate Sound(code: seq<CodeFile>, p: Pairing) {
    && (forall g | g in p.toOld ::
          && NewChanged(code, g) && OldChanged(code, p.toOld[g]) && NewKey(code, g) == OldKey(code, p.toOld[g])
          && p.toOld[g] in p.toNew && p.toNew[p.toOld[g]] == g)
    && (forall o | o in p.toNew :: p.toNew[o] in p.toOld && p.toOld[p.toNew[o]] == o)
  }

  ghost function Paired(p: Pairing, o: Ref, g: Ref): Pairing {
    Pairing(p.toOld[g := o], p.toNew[o := g])
  }

  lemma PairingStaysSound(code: seq<CodeFile>, p: Pairing, o: Ref, g: Ref)
    requires Sound(code, p) && o !in p.toNew && g !in p.toOld
    requires OldChanged(code, o) && NewChanged(code, g) && OldKey(code, o) == NewKey(code, g)
    ensures Sound(code, Paired(p, o, g))
  {
  }

  lemma {:induction false} BijectionSizes(a: set<Ref>, b: set<Ref>, p: Pairing)
    requires forall x | x in a :: x in p.toOld && p.toOld[x] in b && p.toOld[x] in p.toNew && p.toNew[p.toOld[x]] == x
    requires forall y | y in b :: y in p.toNew && p.toNew[y] in a && p.toNew[y] in p.toOld && p.toOld[p.toNew[y]] == y
    ensures |a| == |b|
    decreases |a|
  {
    if a == {} {
      assert b == {};
    } else {
      var x :| x in a;
      BijectionSizes(a - {x}, b - {p.toOld[x]}, p);
    }
  }

  ghost function OpenOld(code: seq<CodeFile>, p: Pairing, key: string): set<Ref> {
    OldWith(code, key) - p.toNew.Keys
  }

  ghost function OpenNew(code: seq<CodeFile>, p: Pairing, key: string): set<Ref> {
    NewWith(code, key) - p.toOld.Keys
  }

  /** No key is left over on both sides. */
  ghost predicate Exhausted(code: seq<CodeFile>, p: Pairing) {
    forall key :: OpenOld(code, p, key) == {} || OpenNew(code, p, key) == {}
  }

  function Surplus(x: nat, y: nat): nat {
    if x >= y then x - y else 0
  }

  /** As many old lines of a key are used as new ones. */
  lemma UsedInPairs(code: seq<CodeFile>, p: Pairing, key: string)
    requires Sound(code, p)
    ensures |OldWith(code, key) * p.toNew.Keys| == |NewWith(code, key) * p.toOld.Keys|
  {
    hide OldWith, NewWith;
    WithMembers(code, key);
    BijectionSizes(NewWith(code, key) * p.toOld.Keys, OldWith(code, key) * p.toNew.Keys, p);
  }

  lemma SplitSize(all: set<Ref>, used: set<Ref>)
    ensures |all| == |all * used| + |all - used|
  {
    assert all == all * used + (all - used);
  }

  lemma OpenSizes(code: seq<CodeFile>, p: Pairing, key: string)
    requires Sound(code, p)
    ensures |OldWith(code, key)| - |OpenOld(code, p, key)| == |NewWith(code, key)| - |OpenNew(code, p, key)|
    ensures |OpenOld(code, p, key)| <= |OldWith(code, key)|
  {
    hide OldWith, NewWith, Sound;
    UsedInPairs(code, p, key);
    SplitSize(OldWith(code, key), p.toNew.Keys);
    SplitSize(NewWith(code, key), p.toOld.Keys);
  }

  /** What an exhausted pairing leaves is the multiset difference, key by key. */
  lemma LeftoversAreTheDifference(code: seq<CodeFile>, p: Pairing, key: string)
    requires Sound(code, p) && Exhausted(code, p)
    ensures |OpenOld(code, p, key)| == Surplus(|OldWith(code, key)|, |NewWith(code, key)|)
    ensures |OpenNew(code, p, key)| == Surplus(|NewWith(code, key)|, |OldWith(code, key)|)
  {
    assert |OpenOld(code, p, key)| == 0 || |OpenNew(code, p, key)| == 0;
    hide OldWith, NewWith, OpenOld, OpenNew, Sound, Exhausted;
    OpenSizes(code, p, key);
  }

  // --------------------------------------------------------------- the lines done

  /** The old and new line indices of each file that are already matched. */
  datatype Done = Done(olds: seq<set<nat>>, news: seq<set<nat>>)

  ghost predicate Tracks(code: seq<CodeFile>, d: Done, p: Pairing) {
    && |d.olds| == |code| && |d.news| == |code| && Sound(code, p)
    && AgreesOld(d.olds, p) && AgreesNew(d.news, p)
  }

  ghost predicate AgreesOld(olds: seq<set<nat>>, p: Pairing) {
    forall f, i | 0 <= f < |olds| :: i in olds[f] <==> Ref(f, i) in p.toNew
  }

  ghost predicate AgreesNew(news: seq<set<nat>>, p: Pairing) {
    forall g, j | 0 <= g < |news| :: j in news[g] <==> Ref(g, j) in p.toOld
  }

  /** An old line still to be explained. */
  predicate Open(code: seq<CodeFile>, d: Done, f: nat, i: nat)
    requires |d.olds| == |code|
  {
    f < |code| && i < |code[f].old_.lines| && code[f].old_.lines[i].changed && i !in d.olds[f]
  }

  /** A new line still to be explained. */
  predicate Wanted(code: seq<CodeFile>, d: Done, g: nat, j: nat)
    requires |d.news| == |code|
  {
    g < |code| && j < |code[g].new_.lines| && code[g].new_.lines[j].changed && j !in d.news[g]
  }

  method Pair(code: seq<CodeFile>, d: Done, ghost p: Pairing, o: Ref, g: Ref) returns (d': Done, ghost p': Pairing)
    requires Tracks(code, d, p) && o !in p.toNew && g !in p.toOld
    requires OldChanged(code, o) && NewChanged(code, g) && OldKey(code, o) == NewKey(code, g)
    ensures Tracks(code, d', p') && p' == Paired(p, o, g)
    ensures d' == Done(d.olds[o.f := d.olds[o.f] + {o.i}], d.news[g.f := d.news[g.f] + {g.i}])
  {
    hide Sound, OldKey, NewKey;
    assert o == Ref(o.f, o.i) && g == Ref(g.f, g.i);
    p' := Paired(p, o, g);
    PairingStaysSound(code, p, o, g);
    d' := Done(d.olds[o.f := d.olds[o.f] + {o.i}], d.news[g.f := d.news[g.f] + {g.i}]);
  }

  // ------------------------------------------------------------------- in place

  /** Indices of the changed lines of one change group, in order. */
  function Members(lines: seq<CodeLine>, group: nat): (m: seq<nat>)
    ensures forall i: nat :: i in m <==> i < |lines| && lines[i].changed && lines[i].group == group
    ensures forall k | 0 <= k < |m| :: m[k] < |lines| && lines[m[k]].changed && lines[m[k]].group == group
    ensures forall k, l | 0 <= k < l < |m| :: m[k] < m[l]
  {
    if lines == [] then []
    else
      var last := |lines| - 1;
      Members(lines[..last], group) + if lines[last].changed && lines[last].group == group then [last] else []
  }

  predicate OldInGroup(code: seq<CodeFile>, r: Ref, f: nat, groups: set<nat>) {
    r.f == f && OldChanged(code, r) && code[f].old_.lines[r.i].group in groups
  }

  predicate NewInGroup(code: seq<CodeFile>, r: Ref, f: nat, groups: set<nat>) {
    r.f == f && NewChanged(code, r) && code[f].new_.lines[r.i].group in groups
  }

  /** Nothing of file f's listed groups or of a later file is matched yet. */
  ghost predicate Untouched(code: seq<CodeFile>, p: Pairing, f: nat, groups: set<nat>) {
    && (forall o | o in p.toNew :: o.f <= f && !OldInGroup(code, o, f, groups))
    && (forall g | g in p.toOld :: g.f <= f && !NewInGroup(code, g, f, groups))
  }

  /** Every matched line stayed in its file and its change group. */
  ghost predicate InPlace(code: seq<CodeFile>, p: Pairing)
    requires Sound(code, p)
  {
    forall g | g in p.toOld ::
      && p.toOld[g].f == g.f
      && code[g.f].new_.lines[g.i].group == code[g.f].old_.lines[p.toOld[g].i].group
  }

  lemma PairInGroup(code: seq<CodeFile>, p: Pairing, o: Ref, g: Ref, f: nat, group: nat, rest: set<nat>)
    requires Sound(code, p) && InPlace(code, p) && Untouched(code, p, f, rest) && group !in rest
    requires OldInGroup(code, o, f, {group}) && NewInGroup(code, g, f, {group})
    requires o !in p.toNew && g !in p.toOld && OldKey(code, o) == NewKey(code, g)
    ensures Sound(code, Paired(p, o, g)) && InPlace(code, Paired(p, o, g)) && Untouched(code, Paired(p, o, g), f, rest)
  {
    PairingStaysSound(code, p, o, g);
    assert code[f].old_.lines[o.i].group == group == code[f].new_.lines[g.i].group;
  }

  lemma UntouchedIsFree(code: seq<CodeFile>, p: Pairing, f: nat, group: nat, rest: set<nat>, r: Ref)
    requires Untouched(code, p, f, rest + {group})
    ensures Untouched(code, p, f, rest)
    ensures OldInGroup(code, r, f, {group}) ==> r !in p.toNew
    ensures NewInGroup(code, r, f, {group}) ==> r !in p.toOld
  {
  }

  /** The keys of a group's lines, in order. */
  function GroupKeys(lines: seq<CodeLine>, group: nat): (keys: seq<string>)
    ensures |keys| == |Members(lines, group)|
  {
    var m := Members(lines, group);
    seq(|m|, k requires 0 <= k < |m| => lines[m[k]].key)
  }

  /** The listed lines of a group are paired with each other. */
  ghost predicate GroupPaired(code: seq<CodeFile>, p: Pairing, f: nat, group: nat, pairs: seq<(nat, nat)>)
    requires f < |code|
  {
    var olds, news := Members(code[f].old_.lines, group), Members(code[f].new_.lines, group);
    forall k | 0 <= k < |pairs| ::
      && pairs[k].0 < |olds| && pairs[k].1 < |news|
      && Ref(f, news[pairs[k].1]) in p.toOld && p.toOld[Ref(f, news[pairs[k].1])] == Ref(f, olds[pairs[k].0])
  }

  ghost predicate IsLongest(a: seq<string>, b: seq<string>, pairs: seq<(nat, nat)>) {
    Matching(a, b, pairs) && forall q | Matching(a, b, q) :: |q| <= |pairs|
  }

  /** Pairs of changed lines of one file's change group, old and new, with equal keys
      and in order on both sides. */
  ghost predicate GroupMatching(code: seq<CodeFile>, f: nat, group: nat, q: seq<(nat, nat)>) {
    && (forall k | 0 <= k < |q| ::
          && OldInGroup(code, Ref(f, q[k].0), f, {group}) && NewInGroup(code, Ref(f, q[k].1), f, {group})
          && OldKey(code, Ref(f, q[k].0)) == NewKey(code, Ref(f, q[k].1)))
    && (forall k, l | 0 <= k < l < |q| :: q[k].0 < q[l].0 && q[k].1 < q[l].1)
  }

  ghost predicate PairsOf(p: Pairing, f: nat, q: seq<(nat, nat)>) {
    forall k | 0 <= k < |q| :: Ref(f, q[k].1) in p.toOld && p.toOld[Ref(f, q[k].1)] == Ref(f, q[k].0)
  }

  /** A longest such matching of the group is part of the pairing. */
  ghost predicate LongestInGroup(code: seq<CodeFile>, p: Pairing, f: nat, group: nat)
    requires f < |code|
  {
    exists q :: GroupMatching(code, f, group, q) && PairsOf(p, f, q)
                && forall other | GroupMatching(code, f, group, other) :: |other| <= |q|
  }

  predicate SameGroup(code: seq<CodeFile>, g: Ref, h: Ref) {
    NewChanged(code, g) && NewChanged(code, h) && g.f == h.f && code[g.f].new_.lines[g.i].group == code[h.f].new_.lines[h.i].group
  }

  /** What is paired within a group is in order on both sides. */
  ghost predicate Ordered(code: seq<CodeFile>, p: Pairing) {
    forall g, h | g in p.toOld && h in p.toOld && SameGroup(code, g, h) && g.i < h.i :: p.toOld[g].i < p.toOld[h].i
  }

  /** Where a matched pair stands among the group's lines. */
  lemma PositionOf(code: seq<CodeFile>, f: nat, group: nat, pair: (nat, nat)) returns (at: (nat, nat))
    requires f < |code| && OldInGroup(code, Ref(f, pair.0), f, {group}) && NewInGroup(code, Ref(f, pair.1), f, {group})
    ensures var olds, news := Members(code[f].old_.lines, group), Members(code[f].new_.lines, group);
            at.0 < |olds| && at.1 < |news| && olds[at.0] == pair.0 && news[at.1] == pair.1
  {
    var olds, news := Members(code[f].old_.lines, group), Members(code[f].new_.lines, group);
    assert pair.0 in olds && pair.1 in news;
    hide Members;
    var a :| 0 <= a < |olds| && olds[a] == pair.0;
    var b :| 0 <= b < |news| && news[b] == pair.1;
    at := (a, b);
  }

  ghost predicate Stand(code: seq<CodeFile>, f: nat, group: nat, q: seq<(nat, nat)>, r: seq<(nat, nat)>)
    requires f < |code|
  {
    var olds, news := Members(code[f].old_.lines, group), Members(code[f].new_.lines, group);
    |r| == |q| && forall k | 0 <= k < |q| ::
      r[k].0 < |olds| && r[k].1 < |news| && olds[r[k].0] == q[k].0 && news[r[k].1] == q[k].1
  }

  lemma {:induction false} FindPositions(code: seq<CodeFile>, f: nat, group: nat, q: seq<(nat, nat)>) returns (r: seq<(nat, nat)>)
    requires f < |code| && GroupMatching(code, f, group, q)
    ensures Stand(code, f, group, q, r)
    decreases |q|
  {
    hide Members, OldInGroup, NewInGroup, OldKey, NewKey;
    r := [];
    if q != [] {
      r := FindPositions(code, f, group, q[..|q| - 1]);
      var at := PositionOf(code, f, group, q[|q| - 1]);
      r := r + [at];
    }
  }

  lemma ToPositions(code: seq<CodeFile>, f: nat, group: nat, q: seq<(nat, nat)>) returns (r: seq<(nat, nat)>)
    requires f < |code| && GroupMatching(code, f, group, q)
    ensures |r| == |q| && Matching(GroupKeys(code[f].old_.lines, group), GroupKeys(code[f].new_.lines, group), r)
  {
    hide Members, Increasing, OldInGroup, NewInGroup, OldKey, NewKey, GroupKeys;
    r := FindPositions(code, f, group, q);
    MembersIncrease(code[f].old_.lines, group);
    MembersIncrease(code[f].new_.lines, group);
    InStep(Members(code[f].old_.lines, group), Members(code[f].new_.lines, group), q, r);
    forall k | 0 <= k < |r|
      ensures SameKey(GroupKeys(code[f].old_.lines, group), GroupKeys(code[f].new_.lines, group), r[k])
    {
      KeysAt(code, f, group, q, r, k);
    }
  }

  predicate SameKey(olds: seq<string>, news: seq<string>, pair: (nat, nat)) {
    pair.0 < |olds| && pair.1 < |news| && olds[pair.0] == news[pair.1]
  }

  lemma KeysAt(code: seq<CodeFile>, f: nat, group: nat, q: seq<(nat, nat)>, r: seq<(nat, nat)>, k: nat)
    requires f < |code| && GroupMatching(code, f, group, q) && Stand(code, f, group, q, r) && k < |r|
    ensures SameKey(GroupKeys(code[f].old_.lines, group), GroupKeys(code[f].new_.lines, group), r[k])
  {
    hide Members;
    assert OldKey(code, Ref(f, q[k].0)) == NewKey(code, Ref(f, q[k].1));
  }

  lemma InStep(olds: seq<nat>, news: seq<nat>, q: seq<(nat, nat)>, r: seq<(nat, nat)>)
    requires Increasing(olds) && Increasing(news) && |r| == |q|
    requires forall k | 0 <= k < |q| ::
               r[k].0 < |olds| && r[k].1 < |news| && olds[r[k].0] == q[k].0 && news[r[k].1] == q[k].1
    requires forall k, l | 0 <= k < l < |q| :: q[k].0 < q[l].0 && q[k].1 < q[l].1
    ensures forall k, l | 0 <= k < l < |r| :: r[k].0 < r[l].0 && r[k].1 < r[l].1
  {
    hide Increasing;
    forall k, l | 0 <= k < l < |r|
      ensures r[k].0 < r[l].0 && r[k].1 < r[l].1
    {
      NoLater(olds, r[k].0, r[l].0);
      NoLater(news, r[k].1, r[l].1);
    }
  }

  ghost predicate Increasing(s: seq<nat>) {
    forall k, l | 0 <= k < l < |s| :: s[k] < s[l]
  }

  lemma NoLater(s: seq<nat>, k: nat, l: nat)
    requires Increasing(s) && k < |s| && l < |s| && s[k] < s[l]
    ensures k < l
  {
  }

  lemma FromPositions(code: seq<CodeFile>, p: Pairing, f: nat, group: nat, pairs: seq<(nat, nat)>) returns (q: seq<(nat, nat)>)
    requires f < |code| && Matching(GroupKeys(code[f].old_.lines, group), GroupKeys(code[f].new_.lines, group), pairs)
    ensures |q| == |pairs| && GroupMatching(code, f, group, q)
    ensures GroupPaired(code, p, f, group, pairs) ==> PairsOf(p, f, q)
  {
    var olds, news := Members(code[f].old_.lines, group), Members(code[f].new_.lines, group);
    q := seq(|pairs|, k requires 0 <= k < |pairs| => (olds[pairs[k].0], news[pairs[k].1]));
    forall k | 0 <= k < |q|
      ensures OldInGroup(code, Ref(f, q[k].0), f, {group}) && NewInGroup(code, Ref(f, q[k].1), f, {group})
      ensures OldKey(code, Ref(f, q[k].0)) == NewKey(code, Ref(f, q[k].1))
    {
      assert GroupKeys(code[f].old_.lines, group)[pairs[k].0] == GroupKeys(code[f].new_.lines, group)[pairs[k].1];
      hide Members;
    }
    hide Members, GroupKeys, OldInGroup, NewInGroup, OldKey, NewKey;
  }

  ghost predicate Grows(p: Pairing, p': Pairing) {
    forall g | g in p.toOld :: g in p'.toOld && p'.toOld[g] == p.toOld[g]
  }

  lemma LongestStays(code: seq<CodeFile>, p: Pairing, p': Pairing, f: nat, group: nat)
    requires f < |code| && LongestInGroup(code, p, f, group) && Grows(p, p')
    ensures LongestInGroup(code, p', f, group)
  {
    hide GroupMatching;
    var q :| GroupMatching(code, f, group, q) && PairsOf(p, f, q)
             && forall other | GroupMatching(code, f, group, other) :: |other| <= |q|;
    assert PairsOf(p', f, q);
  }

  lemma PairedOneMore(code: seq<CodeFile>, p: Pairing, p': Pairing, f: nat, group: nat, pairs: seq<(nat, nat)>, k: nat)
    requires f < |code| && k < |pairs| && GroupPaired(code, p, f, group, pairs[..k])
    requires pairs[k].0 < |Members(code[f].old_.lines, group)| && pairs[k].1 < |Members(code[f].new_.lines, group)|
    requires Ref(f, Members(code[f].new_.lines, group)[pairs[k].1]) !in p.toOld
    requires p' == Paired(p, Ref(f, Members(code[f].old_.lines, group)[pairs[k].0]), Ref(f, Members(code[f].new_.lines, group)[pairs[k].1]))
    ensures GroupPaired(code, p', f, group, pairs[..k + 1]) && Grows(p, p')
  {
    hide Members;
    assert pairs[..k + 1] == pairs[..k] + [pairs[k]];
  }

  predicate IsPair(p: Pairing, f: nat, olds: seq<nat>, news: seq<nat>, pair: (nat, nat), g: Ref) {
    && pair.0 < |olds| && pair.1 < |news|
    && g == Ref(f, news[pair.1]) && g in p.toOld && p.toOld[g] == Ref(f, olds[pair.0])
  }

  /** Only the listed pairs of the group are in the pairing. */
  ghost predicate OnlyThose(code: seq<CodeFile>, p: Pairing, f: nat, group: nat, olds: seq<nat>, news: seq<nat>, pairs: seq<(nat, nat)>) {
    forall g | g in p.toOld && NewInGroup(code, g, f, {group}) ::
      exists pair | pair in pairs :: IsPair(p, f, olds, news, pair, g)
  }

  lemma NextIsLast(code: seq<CodeFile>, p: Pairing, f: nat, group: nat, olds: seq<nat>, news: seq<nat>, pairs: seq<(nat, nat)>,
                   next: (nat, nat), g: Ref, h: Ref)
    requires Increasing(olds) && Increasing(news) && OnlyThose(code, p, f, group, olds, news, pairs)
    requires next.0 < |olds| && next.1 < |news| && forall pair | pair in pairs :: pair.0 < next.0 && pair.1 < next.1
    requires g == Ref(f, news[next.1]) && NewInGroup(code, g, f, {group}) && h in p.toOld && SameGroup(code, h, g)
    ensures h.i < g.i && p.toOld[h].i < olds[next.0]
  {
    assert NewInGroup(code, h, f, {group});
    var pair :| pair in pairs && IsPair(p, f, olds, news, pair, h);
  }

  /** The next pair of a matching keeps the order. */
  lemma OrderedOneMore(code: seq<CodeFile>, p: Pairing, f: nat, group: nat, olds: seq<nat>, news: seq<nat>, pairs: seq<(nat, nat)>, next: (nat, nat))
    requires Increasing(olds) && Increasing(news) && OnlyThose(code, p, f, group, olds, news, pairs) && Ordered(code, p)
    requires next.0 < |olds| && next.1 < |news| && forall pair | pair in pairs :: pair.0 < next.0 && pair.1 < next.1
    requires Ref(f, news[next.1]) !in p.toOld && NewInGroup(code, Ref(f, news[next.1]), f, {group})
    ensures Ordered(code, Paired(p, Ref(f, olds[next.0]), Ref(f, news[next.1])))
  {
    hide Increasing, OnlyThose, NewInGroup, SameGroup;
    var o, g := Ref(f, olds[next.0]), Ref(f, news[next.1]);
    var after := Paired(p, o, g);
    forall h, i | h in after.toOld && i in after.toOld && SameGroup(code, h, i) && h.i < i.i
      ensures after.toOld[h].i < after.toOld[i].i
    {
      GroupsAreShared(code, h, i);
      if i == g && h != g {
        NextIsLast(code, p, f, group, olds, news, pairs, next, g, h);
      } else if h == g && i != g {
        NextIsLast(code, p, f, group, olds, news, pairs, next, g, i);
      }
    }
  }

  lemma GroupsAreShared(code: seq<CodeFile>, g: Ref, h: Ref)
    ensures SameGroup(code, g, h) == SameGroup(code, h, g)
  {
  }

  lemma OnlyOneMore(code: seq<CodeFile>, p: Pairing, f: nat, group: nat, olds: seq<nat>, news: seq<nat>, pairs: seq<(nat, nat)>, next: (nat, nat))
    requires OnlyThose(code, p, f, group, olds, news, pairs) && next.0 < |olds| && next.1 < |news|
    requires Ref(f, news[next.1]) !in p.toOld
    ensures OnlyThose(code, Paired(p, Ref(f, olds[next.0]), Ref(f, news[next.1])), f, group, olds, news, pairs + [next])
  {
    hide NewInGroup;
    var o, g := Ref(f, olds[next.0]), Ref(f, news[next.1]);
    var after, more := Paired(p, o, g), pairs + [next];
    forall h | h in after.toOld && NewInGroup(code, h, f, {group})
      ensures exists pair | pair in more :: IsPair(after, f, olds, news, pair, h)
    {
      if h == g {
        assert next in more && IsPair(after, f, olds, news, next, h);
      } else {
        var pair :| pair in pairs && IsPair(p, f, olds, news, pair, h);
        assert pair in more && IsPair(after, f, olds, news, pair, h);
      }
    }
  }

  lemma MatchingIncreases<T>(a: seq<T>, b: seq<T>, pairs: seq<(nat, nat)>, k: nat)
    requires Matching(a, b, pairs) && k < |pairs|
    ensures pairs[..k + 1] == pairs[..k] + [pairs[k]]
    ensures forall pair | pair in pairs[..k] :: pair.0 < pairs[k].0 && pair.1 < pairs[k].1
  {
  }

  lemma NoneOfGroup(code: seq<CodeFile>, p: Pairing, f: nat, group: nat, rest: set<nat>)
    requires f < |code| && Untouched(code, p, f, rest + {group})
    ensures OnlyThose(code, p, f, group, Members(code[f].old_.lines, group), Members(code[f].new_.lines, group), [])
  {
    forall g | g in p.toOld && NewInGroup(code, g, f, {group})
      ensures false
    {
      assert NewInGroup(code, g, f, rest + {group});
    }
  }

  /** Between two pairs of a group: the first k are paired and the rest are free. */
  ghost predicate PairedSoFar(code: seq<CodeFile>, p0: Pairing, p: Pairing, f: nat, group: nat, rest: set<nat>, pairs: seq<(nat, nat)>, k: nat)
    requires f < |code| && k <= |pairs|
  {
    var olds, news := Members(code[f].old_.lines, group), Members(code[f].new_.lines, group);
    && Matching(GroupKeys(code[f].old_.lines, group), GroupKeys(code[f].new_.lines, group), pairs)
    && Sound(code, p) && InPlace(code, p) && Untouched(code, p, f, rest) && Ordered(code, p) && Grows(p0, p)
    && GroupPaired(code, p, f, group, pairs[..k]) && OnlyThose(code, p, f, group, olds, news, pairs[..k])
    && forall l | k <= l < |pairs| :: Ref(f, olds[pairs[l].0]) !in p.toNew && Ref(f, news[pairs[l].1]) !in p.toOld
  }

  function OldOf(code: seq<CodeFile>, f: nat, group: nat, pairs: seq<(nat, nat)>, k: nat): Ref
    requires f < |code| && k < |pairs| && pairs[k].0 < |Members(code[f].old_.lines, group)|
  {
    Ref(f, Members(code[f].old_.lines, group)[pairs[k].0])
  }

  function NewOf(code: seq<CodeFile>, f: nat, group: nat, pairs: seq<(nat, nat)>, k: nat): Ref
    requires f < |code| && k < |pairs| && pairs[k].1 < |Members(code[f].new_.lines, group)|
  {
    Ref(f, Members(code[f].new_.lines, group)[pairs[k].1])
  }

  /** What is known of the next pair. */
  lemma NextPair(code: seq<CodeFile>, p0: Pairing, p: Pairing, f: nat, group: nat, rest: set<nat>, pairs: seq<(nat, nat)>, k: nat)
    requires f < |code| && k < |pairs| && PairedSoFar(code, p0, p, f, group, rest, pairs, k)
    ensures pairs[k].0 < |Members(code[f].old_.lines, group)| && pairs[k].1 < |Members(code[f].new_.lines, group)|
    ensures var o, g := OldOf(code, f, group, pairs, k), NewOf(code, f, group, pairs, k);
            && o !in p.toNew && g !in p.toOld
            && OldInGroup(code, o, f, {group}) && NewInGroup(code, g, f, {group}) && OldKey(code, o) == NewKey(code, g)
  {
    hide Sound, InPlace, Untouched, Ordered, Grows, GroupPaired, OnlyThose;
    assert GroupKeys(code[f].old_.lines, group)[pairs[k].0] == GroupKeys(code[f].new_.lines, group)[pairs[k].1];
  }

  lemma FreeStays(code: seq<CodeFile>, p: Pairing, f: nat, group: nat, pairs: seq<(nat, nat)>, k: nat)
    requires f < |code| && k < |pairs| && Matching(GroupKeys(code[f].old_.lines, group), GroupKeys(code[f].new_.lines, group), pairs)
    requires var olds, news := Members(code[f].old_.lines, group), Members(code[f].new_.lines, group);
             forall l | k <= l < |pairs| :: Ref(f, olds[pairs[l].0]) !in p.toNew && Ref(f, news[pairs[l].1]) !in p.toOld
    ensures var olds, news := Members(code[f].old_.lines, group), Members(code[f].new_.lines, group);
            var after := Paired(p, OldOf(code, f, group, pairs, k), NewOf(code, f, group, pairs, k));
            forall l | k < l < |pairs| :: Ref(f, olds[pairs[l].0]) !in after.toNew && Ref(f, news[pairs[l].1]) !in after.toOld
  {
    var olds, news := Members(code[f].old_.lines, group), Members(code[f].new_.lines, group);
    assert forall l | k < l < |pairs| :: olds[pairs[k].0] < olds[pairs[l].0] && news[pairs[k].1] < news[pairs[l].1];
    hide Members, GroupKeys;
  }

  lemma PairedOn(code: seq<CodeFile>, p0: Pairing, p: Pairing, f: nat, group: nat, rest: set<nat>, pairs: seq<(nat, nat)>, k: nat)
    requires f < |code| && k < |pairs| && group !in rest && PairedSoFar(code, p0, p, f, group, rest, pairs, k)
    ensures pairs[k].0 < |Members(code[f].old_.lines, group)| && pairs[k].1 < |Members(code[f].new_.lines, group)|
    ensures PairedSoFar(code, p0, Paired(p, OldOf(code, f, group, pairs, k), NewOf(code, f, group, pairs, k)), f, group, rest, pairs, k + 1)
  {
    hide Sound, InPlace, Untouched, Ordered, Grows, GroupPaired, OnlyThose, Members, GroupKeys, Matching, Increasing, OldInGroup, NewInGroup, OldKey, NewKey, Paired;
    NextPair(code, p0, p, f, group, rest, pairs, k);
    var olds, news := Members(code[f].old_.lines, group), Members(code[f].new_.lines, group);
    var o, g := OldOf(code, f, group, pairs, k), NewOf(code, f, group, pairs, k);
    var after := Paired(p, o, g);
    MembersIncrease(code[f].old_.lines, group);
    MembersIncrease(code[f].new_.lines, group);
    PairInGroup(code, p, o, g, f, group, rest);
    MatchingIncreases(GroupKeys(code[f].old_.lines, group), GroupKeys(code[f].new_.lines, group), pairs, k);
    OrderedOneMore(code, p, f, group, olds, news, pairs[..k], pairs[k]);
    OnlyOneMore(code, p, f, group, olds, news, pairs[..k], pairs[k]);
    PairedOneMore(code, p, after, f, group, pairs, k);
    GrowsOn(p0, p, after);
    FreeStays(code, p, f, group, pairs, k);
  }

  lemma MembersIncrease(lines: seq<CodeLine>, group: nat)
    ensures Increasing(Members(lines, group))
  {
  }

  lemma NoneOfGroupPaired(code: seq<CodeFile>, p: Pairing, f: nat, group: nat, rest: set<nat>, pairs: seq<(nat, nat)>)
    requires f < |code| && group !in rest && Sound(code, p) && InPlace(code, p) && Ordered(code, p) && Untouched(code, p, f, rest + {group})
    requires Matching(GroupKeys(code[f].old_.lines, group), GroupKeys(code[f].new_.lines, group), pairs)
    ensures PairedSoFar(code, p, p, f, group, rest, pairs, 0)
  {
    var olds, news := Members(code[f].old_.lines, group), Members(code[f].new_.lines, group);
    forall l | 0 <= l < |pairs|
      ensures Ref(f, olds[pairs[l].0]) !in p.toNew && Ref(f, news[pairs[l].1]) !in p.toOld
    {
      UntouchedIsFree(code, p, f, group, rest, Ref(f, olds[pairs[l].0]));
      UntouchedIsFree(code, p, f, group, rest, Ref(f, news[pairs[l].1]));
    }
    UntouchedIsFree(code, p, f, group, rest, Ref(0, 0));
    NoneOfGroup(code, p, f, group, rest);
    NonePaired(code, p, f, group);
    assert pairs[..0] == [];
    hide Sound, InPlace, Untouched, Ordered, Grows, GroupPaired, OnlyThose, Members;
  }

  method MatchGroup(code: seq<CodeFile>, f: nat, group: nat, ghost rest: set<nat>, d: Done, ghost p: Pairing)
    returns (d': Done, ghost p': Pairing)
    requires f < |code| && group !in rest && Tracks(code, d, p) && InPlace(code, p) && Ordered(code, p)
    requires Untouched(code, p, f, rest + {group})
    ensures Tracks(code, d', p') && InPlace(code, p') && Untouched(code, p', f, rest) && Ordered(code, p')
    ensures Grows(p, p') && LongestInGroup(code, p', f, group)
  {
    hide InPlace, Untouched, Ordered, Grows, GroupPaired, OnlyThose, Members, PairedSoFar, LongestInGroup, AgreesOld, AgreesNew, Matching, GroupKeys, IsLongest, Sound;
    var oldLines, newLines := code[f].old_.lines, code[f].new_.lines;
    var olds, news := Members(oldLines, group), Members(newLines, group);
    var pairs := LongestInOrder(GroupKeys(oldLines, group), GroupKeys(newLines, group));
    d', p' := d, p;
    NoneOfGroupPaired(code, p, f, group, rest, pairs);
    for k := 0 to |pairs|
      invariant Tracks(code, d', p') && PairedSoFar(code, p, p', f, group, rest, pairs, k)
    {
      NextPair(code, p, p', f, group, rest, pairs, k);
      PairedOn(code, p, p', f, group, rest, pairs, k);
      d', p' := Pair(code, d', p', Ref(f, olds[pairs[k].0]), Ref(f, news[pairs[k].1]));
    }
    AllPaired(code, p, p', f, group, rest, pairs);
  }

  lemma AllPaired(code: seq<CodeFile>, p0: Pairing, p: Pairing, f: nat, group: nat, rest: set<nat>, pairs: seq<(nat, nat)>)
    requires f < |code| && PairedSoFar(code, p0, p, f, group, rest, pairs, |pairs|)
    requires forall q | Matching(GroupKeys(code[f].old_.lines, group), GroupKeys(code[f].new_.lines, group), q) :: |q| <= |pairs|
    ensures Sound(code, p) && InPlace(code, p) && Untouched(code, p, f, rest) && Ordered(code, p) && Grows(p0, p)
    ensures LongestInGroup(code, p, f, group)
  {
    hide Sound, InPlace, Untouched, Ordered, Grows, GroupPaired, OnlyThose, Members, Matching, GroupKeys, LongestInGroup;
    assert pairs[..|pairs|] == pairs;
    FoundLongest(code, p, f, group, pairs);
  }

  lemma NonePaired(code: seq<CodeFile>, p: Pairing, f: nat, group: nat)
    requires f < |code|
    ensures GroupPaired(code, p, f, group, []) && Grows(p, p)
  {
  }

  lemma GrowsOn(p: Pairing, q: Pairing, r: Pairing)
    requires Grows(p, q) && Grows(q, r)
    ensures Grows(p, r)
  {
  }

  lemma FoundLongest(code: seq<CodeFile>, p: Pairing, f: nat, group: nat, pairs: seq<(nat, nat)>)
    requires f < |code| && GroupPaired(code, p, f, group, pairs)
    requires IsLongest(GroupKeys(code[f].old_.lines, group), GroupKeys(code[f].new_.lines, group), pairs)
    ensures LongestInGroup(code, p, f, group)
  {
    hide GroupPaired, GroupMatching, Matching, GroupKeys, PairsOf;
    var q := FromPositions(code, p, f, group, pairs);
    forall other | GroupMatching(code, f, group, other)
      ensures |other| <= |q|
    {
      var r := ToPositions(code, f, group, other);
    }
  }

  lemma NoLinesNoPairs(code: seq<CodeFile>, p: Pairing, f: nat, group: nat)
    requires f < |code| && forall k | 0 <= k < |code[f].old_.lines| && code[f].old_.lines[k].changed :: code[f].old_.lines[k].group != group
    ensures LongestInGroup(code, p, f, group)
  {
    var none: seq<(nat, nat)> := [];
    forall other: seq<(nat, nat)> | GroupMatching(code, f, group, other)
      ensures other == none
    {
      assert other != [] ==> OldInGroup(code, Ref(f, other[0].0), f, {group});
    }
    assert GroupMatching(code, f, group, none) && PairsOf(p, f, none);
  }

  /** Every group of the first n files is matched as long as it can be. */
  ghost predicate LongestUpTo(code: seq<CodeFile>, p: Pairing, n: nat)
    requires n <= |code|
  {
    forall f: nat, group | f < n :: LongestInGroup(code, p, f, group)
  }

  /** So are the groups of file f that are not in the list. */
  ghost predicate LongestBut(code: seq<CodeFile>, p: Pairing, f: nat, groups: set<nat>)
    requires f < |code|
  {
    forall group | group !in groups :: LongestInGroup(code, p, f, group)
  }

  lemma LongestStayUpTo(code: seq<CodeFile>, p: Pairing, p': Pairing, f: nat, groups: set<nat>, group: nat)
    requires f < |code| && Grows(p, p') && LongestUpTo(code, p, f) && LongestBut(code, p, f, groups)
    requires LongestInGroup(code, p', f, group)
    ensures LongestUpTo(code, p', f) && LongestBut(code, p', f, groups - {group})
  {
    hide LongestInGroup, Grows;
    forall e: nat, gr | e < f
      ensures LongestInGroup(code, p', e, gr)
    {
      LongestStays(code, p, p', e, gr);
    }
    forall gr | gr !in groups - {group}
      ensures LongestInGroup(code, p', f, gr)
    {
      if gr != group {
        LongestStays(code, p, p', f, gr);
      }
    }
  }

  /** The change groups of a file. */
  function GroupsIn(file: CodeFile): set<nat> {
    var lines := file.old_.lines + file.new_.lines;
    set k | 0 <= k < |lines| && lines[k].changed :: lines[k].group
  }

  lemma OtherGroupsAreEmpty(code: seq<CodeFile>, p: Pairing, f: nat)
    requires f < |code|
    ensures LongestBut(code, p, f, GroupsIn(code[f]))
  {
    hide LongestInGroup;
    var olds, news := code[f].old_.lines, code[f].new_.lines;
    forall group | group !in GroupsIn(code[f])
      ensures LongestInGroup(code, p, f, group)
    {
      assert forall k | 0 <= k < |olds| :: (olds + news)[k] == olds[k];
      NoLinesNoPairs(code, p, f, group);
    }
  }

  /** The changed lines of a group that are paired within it. */
  ghost function PairedWithin(code: seq<CodeFile>, p: Pairing, f: nat, group: nat): set<Ref> {
    set g | g in p.toOld && NewInGroup(code, g, f, {group}) && OldInGroup(code, p.toOld[g], f, {group})
  }

  /** The pairing in place has as many pairs within a group as any in-order matching of
      the group's changed lines by key. */
  lemma NoLongerMatching(code: seq<CodeFile>, p: Pairing, f: nat, group: nat, q: seq<(nat, nat)>)
    requires LongestUpTo(code, p, |code|) && f < |code| && GroupMatching(code, f, group, q)
    ensures |q| <= |PairedWithin(code, p, f, group)|
  {
    assert LongestInGroup(code, p, f, group);
    var longest: seq<(nat, nat)> :| GroupMatching(code, f, group, longest) && PairsOf(p, f, longest)
                   && forall other | GroupMatching(code, f, group, other) :: |other| <= |longest|;
    var refs := seq(|longest|, k requires 0 <= k < |longest| => Ref(f, longest[k].1));
    assert NoDuplicates(refs);
    DistinctElements(refs);
    SubsetIsSmaller(Elements(refs), PairedWithin(code, p, f, group));
  }

  lemma NothingOrdered(code: seq<CodeFile>)
    ensures Ordered(code, Pairing(map[], map[]))
  {
  }

  lemma NoFileLongest(code: seq<CodeFile>, p: Pairing)
    ensures LongestUpTo(code, p, 0)
  {
  }

  lemma NextFileLongest(code: seq<CodeFile>, p: Pairing, f: nat)
    requires f < |code| && LongestUpTo(code, p, f) && LongestBut(code, p, f, {})
    ensures LongestUpTo(code, p, f + 1)
  {
    hide LongestInGroup;
  }

  /** Only files before f have matched lines. */
  ghost predicate NoneFrom(p: Pairing, f: nat) {
    (forall o | o in p.toNew :: o.f < f) && (forall g | g in p.toOld :: g.f < f)
  }

  lemma NoneFromHere(code: seq<CodeFile>, p: Pairing, f: nat, groups: set<nat>)
    requires NoneFrom(p, f)
    ensures Untouched(code, p, f, groups)
  {
  }

  lemma NoneFromNext(code: seq<CodeFile>, p: Pairing, f: nat)
    requires Untouched(code, p, f, {})
    ensures NoneFrom(p, f + 1)
  {
  }

  /** First each change group's lines in place, in order, as many as can be. */
  method MatchInPlace(code: seq<CodeFile>) returns (d: Done, ghost p: Pairing)
    ensures Tracks(code, d, p) && InPlace(code, p) && Ordered(code, p) && LongestUpTo(code, p, |code|)
  {
    hide LongestUpTo, LongestBut, Grows, LongestInGroup, Ordered, Untouched;
    d := Done(seq(|code|, _ => {}), seq(|code|, _ => {}));
    p := Pairing(map[], map[]);
    NoFileLongest(code, p);
    NothingOrdered(code);
    for f := 0 to |code|
      invariant Tracks(code, d, p) && InPlace(code, p) && NoneFrom(p, f)
      invariant Ordered(code, p) && LongestUpTo(code, p, f)
    {
      var groups := GroupsIn(code[f]);
      OtherGroupsAreEmpty(code, p, f);
      NoneFromHere(code, p, f, groups);
      while groups != {}
        invariant Tracks(code, d, p) && InPlace(code, p) && Untouched(code, p, f, groups)
        invariant Ordered(code, p) && LongestUpTo(code, p, f) && LongestBut(code, p, f, groups)
      {
        var group :| group in groups;
        assert groups == (groups - {group}) + {group};
        ghost var was := p;
        d, p := MatchGroup(code, f, group, groups - {group}, d, p);
        LongestStayUpTo(code, was, p, f, groups, group);
        groups := groups - {group};
      }
      NoneFromNext(code, p, f);
      NextFileLongest(code, p, f);
    }
  }

  // ----------------------------------------------------------------- moved runs

  /** Lines old (f, i) and new (g, j) are the same, and both to be explained. */
  predicate SameLine(code: seq<CodeFile>, d: Done, f: nat, i: nat, g: nat, j: nat)
    requires |d.olds| == |code| == |d.news|
  {
    Open(code, d, f, i) && Wanted(code, d, g, j) && OldKey(code, Ref(f, i)) == NewKey(code, Ref(g, j))
  }

  /** How far that goes on, line by line, from there. */
  function RunLength(code: seq<CodeFile>, d: Done, f: nat, i: nat, g: nat, j: nat): nat
    requires |d.olds| == |code| == |d.news|
    decreases if g < |code| then |code[g].new_.lines| - j else 0
  {
    if SameLine(code, d, f, i, g, j) then 1 + RunLength(code, d, f, i + 1, g, j + 1) else 0
  }

  lemma {:induction false} RunIsSame(code: seq<CodeFile>, d: Done, f: nat, i: nat, g: nat, j: nat, k: nat)
    requires |d.olds| == |code| == |d.news| && k < RunLength(code, d, f, i, g, j)
    ensures SameLine(code, d, f, i + k, g, j + k)
    decreases k
  {
    if k > 0 {
      RunIsSame(code, d, f, i + 1, g, j + 1, k - 1);
    }
  }

  lemma RunStarts(code: seq<CodeFile>, d: Done, f: nat, i: nat, g: nat, j: nat)
    requires |d.olds| == |code| == |d.news|
    ensures RunLength(code, d, f, i, g, j) > 0 <==> SameLine(code, d, f, i, g, j)
  {
  }

  method MeasureRun(code: seq<CodeFile>, d: Done, f: nat, i: nat, g: nat, j: nat) returns (n: nat)
    requires |d.olds| == |code| == |d.news|
    ensures n == RunLength(code, d, f, i, g, j)
  {
    n := 0;
    while SameLine(code, d, f, i + n, g, j + n)
      invariant RunLength(code, d, f, i, g, j) == n + RunLength(code, d, f, i + n, g, j + n)
      decreases if g < |code| then |code[g].new_.lines| - j - n else 0
    {
      n := n + 1;
    }
  }

  predicate ListedIn(code: seq<CodeFile>, r: Ref, sources: map<string, seq<Ref>>)
    requires OldChanged(code, r)
  {
    OldKey(code, r) in sources && r in sources[OldKey(code, r)]
  }

  predicate Earlier(r: Ref, q: Ref) {
    r.f < q.f || (r.f == q.f && r.i < q.i)
  }

  ghost predicate Ascending(refs: seq<Ref>) {
    forall k, l | 0 <= k < l < |refs| :: Earlier(refs[k], refs[l])
  }

  /** Each open old line is listed under its key, and each list is in order. */
  ghost predicate SourcesOf(code: seq<CodeFile>, d: Done, sources: map<string, seq<Ref>>)
    requires |d.olds| == |code|
  {
    && (forall r: Ref | Open(code, d, r.f, r.i) :: ListedIn(code, r, sources))
    && (forall key | key in sources :: Ascending(sources[key]))
  }

  /** Every listed line comes before old (f, i), and each list is in order. */
  ghost predicate ListedBefore(sources: map<string, seq<Ref>>, f: nat, i: nat) {
    forall key | key in sources :: Ascending(sources[key]) && forall r | r in sources[key] :: Earlier(r, Ref(f, i))
  }

  lemma ListOne(sources: map<string, seq<Ref>>, key: string, f: nat, i: nat)
    requires ListedBefore(sources, f, i)
    ensures ListedBefore(sources, f, i + 1)
    ensures ListedBefore(sources[key := (if key in sources then sources[key] else []) + [Ref(f, i)]], f, i + 1)
  {
    var was := if key in sources then sources[key] else [];
    assert forall k | 0 <= k < |was| :: was[k] in was;
    assert Ascending(was + [Ref(f, i)]);
  }

  lemma NextFileListed(sources: map<string, seq<Ref>>, f: nat, i: nat)
    requires ListedBefore(sources, f, i)
    ensures ListedBefore(sources, f + 1, 0)
  {
  }

  method CollectSources(code: seq<CodeFile>, d: Done) returns (sources: map<string, seq<Ref>>)
    requires |d.olds| == |code|
    ensures SourcesOf(code, d, sources)
  {
    hide ListedBefore;
    sources := map[];
    assert ListedBefore(map[], 0, 0) by {
      NothingListed();
    }
    for f := 0 to |code|
      invariant forall r: Ref | r.f < f && Open(code, d, r.f, r.i) :: ListedIn(code, r, sources)
      invariant ListedBefore(sources, f, 0)
    {
      var lines := code[f].old_.lines;
      for i := 0 to |lines|
        invariant forall r: Ref | (r.f < f || (r.f == f && r.i < i)) && Open(code, d, r.f, r.i) :: ListedIn(code, r, sources)
        invariant ListedBefore(sources, f, i)
      {
        ListOne(sources, lines[i].key, f, i);
        if Open(code, d, f, i) {
          var key := lines[i].key;
          sources := sources[key := (if key in sources then sources[key] else []) + [Ref(f, i)]];
        }
      }
      NextFileListed(sources, f, |lines|);
    }
    AllListed(sources, |code|);
  }

  lemma NothingListed()
    ensures ListedBefore(map[], 0, 0)
  {
  }

  lemma AllListed(sources: map<string, seq<Ref>>, f: nat)
    requires ListedBefore(sources, f, 0)
    ensures forall key | key in sources :: Ascending(sources[key])
  {
  }

  /** No run from the first n candidates is longer than the limit. */
  ghost predicate NoRunLonger(code: seq<CodeFile>, d: Done, candidates: seq<Ref>, n: nat, g: nat, j: nat, limit: nat)
    requires |d.olds| == |code| == |d.news| && n <= |candidates|
  {
    forall b | 0 <= b < n :: RunLength(code, d, candidates[b].f, candidates[b].i, g, j) <= limit
  }

  lemma ClosedStartsNone(code: seq<CodeFile>, d: Done, f: nat, i: nat, g: nat, j: nat)
    requires |d.olds| == |code| == |d.news| && !Open(code, d, f, i)
    ensures RunLength(code, d, f, i, g, j) == 0
  {
  }

  lemma OnlyCandidatesStart(code: seq<CodeFile>, d: Done, sources: map<string, seq<Ref>>, candidates: seq<Ref>,
                            g: nat, j: nat, limit: nat, r: Ref)
    requires |d.olds| == |code| == |d.news| && SourcesOf(code, d, sources) && Wanted(code, d, g, j)
    requires var key := NewKey(code, Ref(g, j)); candidates == if key in sources then sources[key] else []
    requires NoRunLonger(code, d, candidates, |candidates|, g, j, limit)
    ensures RunLength(code, d, r.f, r.i, g, j) <= limit
  {
    RunStarts(code, d, r.f, r.i, g, j);
    hide RunLength;
    if SameLine(code, d, r.f, r.i, g, j) {
      assert ListedIn(code, r, sources) && r == Ref(r.f, r.i);
      var b :| 0 <= b < |candidates| && candidates[b] == r;
    }
  }

  lemma NextCandidate(code: seq<CodeFile>, d: Done, candidates: seq<Ref>, c: nat, g: nat, j: nat, limit: nat, more: nat)
    requires |d.olds| == |code| == |d.news| && c < |candidates| && limit <= more
    requires NoRunLonger(code, d, candidates, c, g, j, limit)
    requires RunLength(code, d, candidates[c].f, candidates[c].i, g, j) <= more
    ensures NoRunLonger(code, d, candidates, c + 1, g, j, more)
  {
    hide RunLength;
  }

  /** The run is from the first candidate that goes on for so long. */
  ghost predicate FirstSoLong(code: seq<CodeFile>, d: Done, candidates: seq<Ref>, n: nat, run: Run)
    requires |d.olds| == |code| == |d.news| && n <= |candidates|
  {
    run.length > 0 ==>
      exists x | 0 <= x < n ::
        && candidates[x] == Ref(run.f, run.i)
        && forall b | 0 <= b < x :: RunLength(code, d, candidates[b].f, candidates[b].i, run.g, run.j) < run.length
  }

  lemma FirstStays(code: seq<CodeFile>, d: Done, candidates: seq<Ref>, n: nat, run: Run)
    requires |d.olds| == |code| == |d.news| && n < |candidates| && FirstSoLong(code, d, candidates, n, run)
    ensures FirstSoLong(code, d, candidates, n + 1, run)
  {
    hide RunLength;
  }

  lemma FirstIsNow(code: seq<CodeFile>, d: Done, candidates: seq<Ref>, n: nat, g: nat, j: nat, limit: nat, more: nat)
    requires |d.olds| == |code| == |d.news| && n < |candidates| && limit < more && NoRunLonger(code, d, candidates, n, g, j, limit)
    ensures FirstSoLong(code, d, candidates, n + 1, Run(candidates[n].f, candidates[n].i, g, j, more))
  {
    hide RunLength;
    assert candidates[n] == Ref(candidates[n].f, candidates[n].i);
  }

  lemma FirstOfAll(code: seq<CodeFile>, d: Done, sources: map<string, seq<Ref>>, candidates: seq<Ref>, run: Run, r: Ref)
    requires |d.olds| == |code| == |d.news| && SourcesOf(code, d, sources) && Wanted(code, d, run.g, run.j)
    requires var key := NewKey(code, Ref(run.g, run.j)); candidates == if key in sources then sources[key] else []
    requires FirstSoLong(code, d, candidates, |candidates|, run) && run.length > 0
    requires RunLength(code, d, r.f, r.i, run.g, run.j) == run.length
    ensures r == Ref(run.f, run.i) || Earlier(Ref(run.f, run.i), r)
  {
    RunStarts(code, d, r.f, r.i, run.g, run.j);
    hide RunLength;
    assert ListedIn(code, r, sources) && r == Ref(r.f, r.i);
    var b :| 0 <= b < |candidates| && candidates[b] == r;
    var x :| 0 <= x < |candidates| && candidates[x] == Ref(run.f, run.i)
      && forall c | 0 <= c < x :: RunLength(code, d, candidates[c].f, candidates[c].i, run.g, run.j) < run.length;
    assert Ascending(candidates);
  }

  /** The longest run from new (g, j), among the open old lines with its key, and the
      first of those; none when there is no such line. */
  method BestRun(code: seq<CodeFile>, d: Done, sources: map<string, seq<Ref>>, g: nat, j: nat)
    returns (run: Run)
    requires |d.olds| == |code| == |d.news| && SourcesOf(code, d, sources) && Wanted(code, d, g, j)
    ensures run.g == g && run.j == j && run.length == RunLength(code, d, run.f, run.i, g, j)
    ensures forall r: Ref :: RunLength(code, d, r.f, r.i, g, j) <= run.length
    ensures run.length > 0 ==> forall r: Ref | RunLength(code, d, r.f, r.i, g, j) == run.length ::
              r == Ref(run.f, run.i) || Earlier(Ref(run.f, run.i), r)
  {
    var key := code[g].new_.lines[j].key;
    var candidates := if key in sources then sources[key] else [];
    run := Run(|code|, 0, g, j, 0);
    ClosedStartsNone(code, d, |code|, 0, g, j);
    NoneSoLong(code, d, candidates, run);
    hide RunLength, SourcesOf, NoRunLonger, FirstSoLong;
    NoCandidates(code, d, candidates, g, j);
    for c := 0 to |candidates|
      invariant run.g == g && run.j == j && run.length == RunLength(code, d, run.f, run.i, g, j)
      invariant NoRunLonger(code, d, candidates, c, g, j, run.length) && FirstSoLong(code, d, candidates, c, run)
    {
      var from, longest := candidates[c], run.length;
      FirstStays(code, d, candidates, c, run);
      if Open(code, d, from.f, from.i) {
        var n := MeasureRun(code, d, from.f, from.i, g, j);
        if n > run.length {
          FirstIsNow(code, d, candidates, c, g, j, longest, n);
          run := Run(from.f, from.i, g, j, n);
        }
      } else {
        ClosedStartsNone(code, d, from.f, from.i, g, j);
      }
      NextCandidate(code, d, candidates, c, g, j, longest, run.length);
    }
    forall r: Ref
      ensures RunLength(code, d, r.f, r.i, g, j) <= run.length
      ensures run.length > 0 && RunLength(code, d, r.f, r.i, g, j) == run.length ==>
                r == Ref(run.f, run.i) || Earlier(Ref(run.f, run.i), r)
    {
      OnlyCandidatesStart(code, d, sources, candidates, g, j, run.length, r);
      if run.length > 0 && RunLength(code, d, r.f, r.i, g, j) == run.length {
        FirstOfAll(code, d, sources, candidates, run, r);
      }
    }
  }

  lemma NoneSoLong(code: seq<CodeFile>, d: Done, candidates: seq<Ref>, run: Run)
    requires |d.olds| == |code| == |d.news| && run.length == 0
    ensures FirstSoLong(code, d, candidates, 0, run)
  {
  }

  lemma NoCandidates(code: seq<CodeFile>, d: Done, candidates: seq<Ref>, g: nat, j: nat)
    requires |d.olds| == |code| == |d.news|
    ensures NoRunLonger(code, d, candidates, 0, g, j, 0)
  {
  }

  ghost predicate PairedAt(p: Pairing, run: Run, k: nat) {
    Ref(run.g, run.j + k) in p.toOld && p.toOld[Ref(run.g, run.j + k)] == Ref(run.f, run.i + k)
  }

  /** The run's lines are paired one by one, in order on both sides. */
  ghost predicate RunPaired(p: Pairing, run: Run) {
    forall k | 0 <= k < run.length :: PairedAt(p, run, k)
  }

  /** Lines that moved between files. */
  ghost function Across(p: Pairing): set<Ref> {
    set g | g in p.toOld && p.toOld[g].f != g.f
  }

  ghost predicate Covers(run: Run, g: Ref) {
    run.g == g.f && run.j <= g.i < run.j + run.length
  }

  ghost predicate IsSource(run: Run, o: Ref) {
    run.f == o.f && run.i <= o.i < run.i + run.length
  }

  ghost predicate AddsTargets(p: Pairing, p': Pairing, run: Run) {
    && (forall g :: g in p'.toOld <==> g in p.toOld || Covers(run, g))
    && (forall g | g in p.toOld :: p'.toOld[g] == p.toOld[g])
  }

  ghost predicate AddsSources(p: Pairing, p': Pairing, run: Run) {
    forall o :: o in p'.toNew <==> o in p.toNew || IsSource(run, o)
  }

  ghost predicate AddsAcross(p: Pairing, p': Pairing, run: Run) {
    |Across(p')| == |Across(p)| + if run.f != run.g then run.length else 0
  }

  /** p' is p and the lines of the run. */
  ghost predicate Extends(p: Pairing, p': Pairing, run: Run) {
    AddsTargets(p, p', run) && AddsSources(p, p', run) && AddsAcross(p, p', run) && RunPaired(p', run)
  }

  lemma ExtendAcross(before: Pairing, o: Ref, g: Ref)
    requires g !in before.toOld
    ensures |Across(Paired(before, o, g))| == |Across(before)| + if o.f != g.f then 1 else 0
  {
    assert Across(Paired(before, o, g)) == if o.f != g.f then Across(before) + {g} else Across(before);
  }

  lemma ExtendRun(before: Pairing, run: Run, o: Ref, g: Ref)
    requires RunPaired(before, run) && g !in before.toOld
    requires o == Ref(run.f, run.i + run.length) && g == Ref(run.g, run.j + run.length)
    ensures RunPaired(Paired(before, o, g), run.(length := run.length + 1))
  {
    var after, longer := Paired(before, o, g), run.(length := run.length + 1);
    forall k | 0 <= k < longer.length
      ensures PairedAt(after, longer, k)
    {
      assert k == run.length || PairedAt(before, run, k);
    }
  }

  lemma ExtendTargets(p: Pairing, before: Pairing, run: Run, o: Ref, g: Ref)
    requires AddsTargets(p, before, run) && AddsSources(p, before, run) && g !in before.toOld
    requires o == Ref(run.f, run.i + run.length) && g == Ref(run.g, run.j + run.length)
    ensures AddsTargets(p, Paired(before, o, g), run.(length := run.length + 1))
    ensures AddsSources(p, Paired(before, o, g), run.(length := run.length + 1))
  {
    forall r: Ref
      ensures Covers(run.(length := run.length + 1), r) <==> Covers(run, r) || r == g
      ensures IsSource(run.(length := run.length + 1), r) <==> IsSource(run, r) || r == o
    {
    }
  }

  lemma SameLineIsFree(code: seq<CodeFile>, d: Done, p: Pairing, f: nat, i: nat, g: nat, j: nat)
    requires Tracks(code, d, p) && SameLine(code, d, f, i, g, j)
    ensures Ref(f, i) !in p.toNew && Ref(g, j) !in p.toOld
    ensures OldChanged(code, Ref(f, i)) && NewChanged(code, Ref(g, j)) && OldKey(code, Ref(f, i)) == NewKey(code, Ref(g, j))
  {
  }

  method TakeRun(code: seq<CodeFile>, d: Done, ghost p: Pairing, run: Run) returns (d': Done, ghost p': Pairing)
    requires Tracks(code, d, p) && |d.olds| == |code| == |d.news|
    requires run.length == RunLength(code, d, run.f, run.i, run.g, run.j)
    ensures Tracks(code, d', p') && Extends(p, p', run)
  {
    ExtendsNothing(p, run.(length := 0));
    hide Tracks, Extends, RunLength;
    d', p' := d, p;
    for k := 0 to run.length
      invariant Tracks(code, d', p') && Extends(p, p', run.(length := k))
    {
      TakeOne(code, d, p, p', run, k);
      d', p' := Pair(code, d', p', Ref(run.f, run.i + k), Ref(run.g, run.j + k));
    }
    assert run.(length := run.length) == run;
  }

  /** Line k of the run can be paired next, and adds one line to what is done. */
  lemma TakeOne(code: seq<CodeFile>, d: Done, p: Pairing, before: Pairing, run: Run, k: nat)
    requires Tracks(code, d, p) && |d.olds| == |code| == |d.news| && k < run.length
    requires run.length == RunLength(code, d, run.f, run.i, run.g, run.j)
    requires Extends(p, before, run.(length := k))
    ensures var o, g := Ref(run.f, run.i + k), Ref(run.g, run.j + k);
            && o !in before.toNew && g !in before.toOld
            && OldChanged(code, o) && NewChanged(code, g) && OldKey(code, o) == NewKey(code, g)
            && Extends(p, Paired(before, o, g), run.(length := k + 1))
  {
    hide Tracks, RunPaired, AddsTargets, AddsSources, AddsAcross, SameLine, RunLength;
    var o, g := Ref(run.f, run.i + k), Ref(run.g, run.j + k);
    RunIsSame(code, d, run.f, run.i, run.g, run.j, k);
    SameLineIsFree(code, d, p, run.f, run.i + k, run.g, run.j + k);
    NextIsFree(p, before, run.(length := k), o, g);
    ExtendByOne(p, before, run.(length := k), o, g);
  }

  lemma ExtendsNothing(p: Pairing, run: Run)
    requires run.length == 0
    ensures Extends(p, p, run)
  {
  }

  lemma ExtendByOne(p: Pairing, before: Pairing, run: Run, o: Ref, g: Ref)
    requires Extends(p, before, run) && g !in before.toOld
    requires o == Ref(run.f, run.i + run.length) && g == Ref(run.g, run.j + run.length)
    ensures Extends(p, Paired(before, o, g), run.(length := run.length + 1))
  {
    hide RunPaired, AddsTargets, AddsSources, Across;
    ExtendAcross(before, o, g);
    ExtendRun(before, run, o, g);
    ExtendTargets(p, before, run, o, g);
  }

  lemma NextIsFree(p: Pairing, before: Pairing, run: Run, o: Ref, g: Ref)
    requires AddsTargets(p, before, run) && AddsSources(p, before, run)
    requires o == Ref(run.f, run.i + run.length) && g == Ref(run.g, run.j + run.length)
    requires o !in p.toNew && g !in p.toOld
    ensures o !in before.toNew && g !in before.toOld
  {
  }

  // ------------------------------------------------------------ the whole check

  /** A run is whole when a statement starts on its first line and that one or a
      later one ends on its last. */
  predicate WholeOn(side: CodeSide, first: nat, last: nat)
    requires first < |side.lines| && last < |side.lines|
  {
    var start, end := side.lines[first].at, side.lines[last].at;
    start in side.startOf && end in side.endOf && side.endOf[end] >= side.startOf[start]
  }

  /** A top-level statement's first and last line. */
  datatype Span = Span(start: nat, end: nat)

  /** The first statement that starts on each line. */
  ghost predicate FirstStarts(spans: seq<Span>, startOf: map<nat, nat>) {
    && (forall k | 0 <= k < |spans| :: spans[k].start in startOf && startOf[spans[k].start] <= k)
    && (forall line | line in startOf :: startOf[line] < |spans| && spans[startOf[line]].start == line)
  }

  /** The last statement that ends on each line. */
  ghost predicate LastEnds(spans: seq<Span>, endOf: map<nat, nat>) {
    && (forall k | 0 <= k < |spans| :: spans[k].end in endOf && k <= endOf[spans[k].end])
    && (forall line | line in endOf :: endOf[line] < |spans| && spans[endOf[line]].end == line)
  }

  lemma NextStart(spans: seq<Span>, startOf: map<nat, nat>, span: Span)
    requires FirstStarts(spans, startOf)
    ensures FirstStarts(spans + [span], if span.start in startOf then startOf else startOf[span.start := |spans|])
  {
  }

  lemma NextEnd(spans: seq<Span>, endOf: map<nat, nat>, span: Span)
    requires LastEnds(spans, endOf)
    ensures LastEnds(spans + [span], endOf[span.end := |spans|])
  {
  }

  method CollectStatements(spans: seq<Span>) returns (startOf: map<nat, nat>, endOf: map<nat, nat>)
    ensures FirstStarts(spans, startOf) && LastEnds(spans, endOf)
  {
    startOf, endOf := map[], map[];
    assert FirstStarts([], map[]) && LastEnds([], map[]);
    hide FirstStarts, LastEnds;
    assert spans[..0] == [];
    for index := 0 to |spans|
      invariant FirstStarts(spans[..index], startOf) && LastEnds(spans[..index], endOf)
    {
      var span := spans[index];
      assert spans[..index + 1] == spans[..index] + [span];
      NextStart(spans[..index], startOf, span);
      NextEnd(spans[..index], endOf, span);
      if span.start !in startOf {
        startOf := startOf[span.start := index];
      }
      endOf := endOf[span.end := index];
    }
    assert spans[..|spans|] == spans;
  }

  predicate InBounds(code: seq<CodeFile>, run: Run) {
    && run.length > 0 && run.f < |code| && run.g < |code|
    && run.i + run.length <= |code[run.f].old_.lines| && run.j + run.length <= |code[run.g].new_.lines|
  }

  predicate Whole(code: seq<CodeFile>, run: Run)
    requires InBounds(code, run)
  {
    && WholeOn(code[run.f].old_, run.i, run.i + run.length - 1)
    && WholeOn(code[run.g].new_, run.j, run.j + run.length - 1)
  }

  /** Some statement starts on the one line, and that one or a later one ends on the other. */
  predicate Enclose(spans: seq<Span>, start: nat, end: nat) {
    exists s, e | 0 <= s <= e < |spans| :: spans[s].start == start && spans[e].end == end
  }

  lemma FirstOn(spans: seq<Span>, startOf: map<nat, nat>, line: nat)
    requires FirstStarts(spans, startOf)
    ensures line in startOf ==> startOf[line] < |spans| && spans[startOf[line]].start == line
    ensures forall k | 0 <= k < |spans| && spans[k].start == line :: line in startOf && startOf[line] <= k
  {
  }

  lemma LastOn(spans: seq<Span>, endOf: map<nat, nat>, line: nat)
    requires LastEnds(spans, endOf)
    ensures line in endOf ==> endOf[line] < |spans| && spans[endOf[line]].end == line
    ensures forall k | 0 <= k < |spans| && spans[k].end == line :: line in endOf && k <= endOf[line]
  {
  }

  lemma WholeOnMeans(side: CodeSide, spans: seq<Span>, first: nat, last: nat)
    requires FirstStarts(spans, side.startOf) && LastEnds(spans, side.endOf) && first < |side.lines| && last < |side.lines|
    ensures WholeOn(side, first, last) <==> Enclose(spans, side.lines[first].at, side.lines[last].at)
  {
    hide FirstStarts, LastEnds;
    FirstOn(spans, side.startOf, side.lines[first].at);
    LastOn(spans, side.endOf, side.lines[last].at);
  }

  /** A run is whole if and only if, on both sides, some statement starts on its first line
      and that one or a later one ends on its last. */
  lemma WholeMeans(code: seq<CodeFile>, run: Run, olds: seq<Span>, news: seq<Span>)
    requires InBounds(code, run)
    requires FirstStarts(olds, code[run.f].old_.startOf) && LastEnds(olds, code[run.f].old_.endOf)
    requires FirstStarts(news, code[run.g].new_.startOf) && LastEnds(news, code[run.g].new_.endOf)
    ensures var was, now, n := code[run.f].old_.lines, code[run.g].new_.lines, run.length;
            Whole(code, run) <==> Enclose(olds, was[run.i].at, was[run.i + n - 1].at) && Enclose(news, now[run.j].at, now[run.j + n - 1].at)
  {
    hide FirstStarts, LastEnds, Enclose, WholeOn;
    WholeOnMeans(code[run.f].old_, olds, run.i, run.i + run.length - 1);
    WholeOnMeans(code[run.g].new_, news, run.j, run.j + run.length - 1);
  }

  predicate Before(r: Ref, g: nat, j: nat) {
    r.f < g || (r.f == g && r.i < j)
  }

  ghost predicate NoSource(code: seq<CodeFile>, d: Done, r: Ref)
    requires |d.olds| == |code|
  {
    forall o: Ref | Open(code, d, o.f, o.i) && NewChanged(code, r) :: OldKey(code, o) != NewKey(code, r)
  }

  ghost predicate Distinct(us: seq<Unexplained>) {
    forall a, b | 0 <= a < b < |us| :: us[a] != us[b]
  }

  /** Up to new (g, j): the unexplained lines are those still wanted, and none
      has an open old line left that could explain it. */
  ghost predicate Settled(code: seq<CodeFile>, d: Done, us: seq<Unexplained>, g: nat, j: nat)
    requires |d.olds| == |code| == |d.news|
  {
    && Distinct(us) && (forall u | u in us :: u.NewLine?)
    && (forall r: Ref :: NewLine(r) in us <==> Wanted(code, d, r.f, r.i) && Before(r, g, j))
    && (forall r: Ref | Wanted(code, d, r.f, r.i) && Before(r, g, j) :: NoSource(code, d, r))
  }

  /** The runs are the whole difference between the pairing in place and now;
      the broken ones are those that are not whole. */
  ghost predicate RunsAre(code: seq<CodeFile>, p0: Pairing, p: Pairing, runs: seq<Run>, broken: seq<Ref>) {
    && (forall run | run in runs :: InBounds(code, run) && RunPaired(p, run))
    && RunsExplain(p0, p, runs)
    && (forall g | g in p0.toOld :: g in p.toOld && p.toOld[g] == p0.toOld[g])
    && BrokenAre(code, runs, broken)
  }

  ghost predicate RunsExplain(p0: Pairing, p: Pairing, runs: seq<Run>) {
    forall g | g in p.toOld :: (g in p0.toOld && p0.toOld[g] == p.toOld[g]) || exists run | run in runs :: Covers(run, g)
  }

  ghost predicate BrokenAre(code: seq<CodeFile>, runs: seq<Run>, broken: seq<Ref>) {
    forall b :: b in broken <==> exists run | run in runs && InBounds(code, run) :: !Whole(code, run) && b == Ref(run.g, run.j)
  }

  lemma RunShrinks(code: seq<CodeFile>, d: Done, p: Pairing, d': Done, p': Pairing, run: Run)
    requires Tracks(code, d, p) && Tracks(code, d', p') && Extends(p, p', run)
    ensures forall o: Ref :: Open(code, d', o.f, o.i) ==> Open(code, d, o.f, o.i)
    ensures forall r: Ref :: Wanted(code, d', r.f, r.i) <==> Wanted(code, d, r.f, r.i) && !Covers(run, r)
  {
    forall r: Ref
      ensures Open(code, d', r.f, r.i) ==> Open(code, d, r.f, r.i)
      ensures Wanted(code, d', r.f, r.i) <==> Wanted(code, d, r.f, r.i) && !Covers(run, r)
    {
      assert r == Ref(r.f, r.i);
    }
  }

  lemma SettlePast(code: seq<CodeFile>, d: Done, d': Done, us: seq<Unexplained>, run: Run)
    requires |d.olds| == |code| == |d.news| && |d'.olds| == |code| == |d'.news|
    requires Settled(code, d, us, run.g, run.j)
    requires forall o: Ref :: Open(code, d', o.f, o.i) ==> Open(code, d, o.f, o.i)
    requires forall r: Ref :: Wanted(code, d', r.f, r.i) <==> Wanted(code, d, r.f, r.i) && !Covers(run, r)
    ensures Settled(code, d', us, run.g, run.j + run.length)
  {
    forall r: Ref
      ensures Wanted(code, d', r.f, r.i) && Before(r, run.g, run.j + run.length)
              <==> Wanted(code, d, r.f, r.i) && Before(r, run.g, run.j)
    {
    }
    forall r: Ref | Wanted(code, d', r.f, r.i) && Before(r, run.g, run.j + run.length)
      ensures NoSource(code, d', r)
    {
      assert NoSource(code, d, r);
    }
  }

  lemma SettleUnexplained(code: seq<CodeFile>, d: Done, us: seq<Unexplained>, g: nat, j: nat)
    requires |d.olds| == |code| == |d.news| && Settled(code, d, us, g, j)
    requires Wanted(code, d, g, j) && NoSource(code, d, Ref(g, j))
    ensures Settled(code, d, us + [NewLine(Ref(g, j))], g, j + 1)
  {
    var next := us + [NewLine(Ref(g, j))];
    forall r: Ref
      ensures NewLine(r) in next <==> Wanted(code, d, r.f, r.i) && Before(r, g, j + 1)
    {
      assert NewLine(r) in next <==> NewLine(r) in us || r == Ref(g, j);
    }
  }

  lemma LongestIsNone(code: seq<CodeFile>, d: Done, g: nat, j: nat)
    requires |d.olds| == |code| == |d.news| && Wanted(code, d, g, j)
    requires forall r: Ref :: RunLength(code, d, r.f, r.i, g, j) <= 0
    ensures NoSource(code, d, Ref(g, j))
  {
    forall o: Ref | Open(code, d, o.f, o.i)
      ensures OldKey(code, o) != NewKey(code, Ref(g, j))
    {
      RunStarts(code, d, o.f, o.i, g, j);
    }
  }

  lemma RunStaysPaired(p: Pairing, p': Pairing, run: Run, r: Run)
    requires Extends(p, p', run) && RunPaired(p, r)
    ensures RunPaired(p', r)
  {
    forall k | 0 <= k < r.length
      ensures PairedAt(p', r, k)
    {
      assert PairedAt(p, r, k);
    }
  }

  lemma AddRunExplains(p0: Pairing, p: Pairing, p': Pairing, runs: seq<Run>, run: Run)
    requires RunsExplain(p0, p, runs) && Extends(p, p', run)
    ensures RunsExplain(p0, p', runs + [run])
  {
    var more := runs + [run];
    forall g | g in p'.toOld
      ensures (g in p0.toOld && p0.toOld[g] == p'.toOld[g]) || exists r | r in more :: Covers(r, g)
    {
      if Covers(run, g) {
        assert run in more;
      } else if r :| r in runs && Covers(r, g) {
        assert r in more;
      }
    }
  }

  lemma AddBroken(code: seq<CodeFile>, runs: seq<Run>, broken: seq<Ref>, run: Run)
    requires BrokenAre(code, runs, broken) && InBounds(code, run)
    ensures BrokenAre(code, runs + [run], if Whole(code, run) then broken else broken + [Ref(run.g, run.j)])
  {
    hide InBounds, Whole;
    var more := runs + [run];
    var broken' := if Whole(code, run) then broken else broken + [Ref(run.g, run.j)];
    forall b
      ensures b in broken' <==> exists r | r in more && InBounds(code, r) :: !Whole(code, r) && b == Ref(r.g, r.j)
    {
      if b in broken {
        var r :| r in runs && InBounds(code, r) && !Whole(code, r) && b == Ref(r.g, r.j);
        assert r in more;
      }
      if b == Ref(run.g, run.j) && !Whole(code, run) {
        assert run in more;
      }
    }
  }

  lemma ExtendsPairs(p0: Pairing, p: Pairing, p': Pairing, run: Run)
    requires Extends(p, p', run) && forall g | g in p0.toOld :: g in p.toOld && p.toOld[g] == p0.toOld[g]
    ensures RunPaired(p', run) && forall g | g in p0.toOld :: g in p'.toOld && p'.toOld[g] == p0.toOld[g]
  {
  }

  lemma AddRun(code: seq<CodeFile>, p0: Pairing, p: Pairing, p': Pairing, runs: seq<Run>, broken: seq<Ref>, run: Run)
    requires RunsAre(code, p0, p, runs, broken) && Extends(p, p', run) && InBounds(code, run)
    ensures RunsAre(code, p0, p', runs + [run], if Whole(code, run) then broken else broken + [Ref(run.g, run.j)])
  {
    hide InBounds, Whole, RunPaired, RunsExplain, BrokenAre, Extends;
    forall r | r in runs + [run]
      ensures InBounds(code, r) && RunPaired(p', r)
    {
      ExtendsPairs(p0, p, p', run);
      if r in runs {
        RunStaysPaired(p, p', run, r);
      }
    }
    ExtendsPairs(p0, p, p', run);
    AddRunExplains(p0, p, p', runs, run);
    AddBroken(code, runs, broken, run);
  }

  /** From old (f, i) and new (g, j) on, n lines of each side are changed, not paired
      yet and the same by key. */
  ghost predicate Agree(code: seq<CodeFile>, p: Pairing, f: nat, i: nat, g: nat, j: nat, n: nat)
    decreases n
  {
    n == 0 || (AgreeAt(code, p, Ref(f, i), Ref(g, j)) && Agree(code, p, f, i + 1, g, j + 1, n - 1))
  }

  ghost predicate AgreeAt(code: seq<CodeFile>, p: Pairing, o: Ref, g: Ref) {
    OldChanged(code, o) && NewChanged(code, g) && o !in p.toNew && g !in p.toOld && OldKey(code, o) == NewKey(code, g)
  }

  /** The run goes on as long as it can, no old line starts a longer one, and no earlier
      old line one as long. */
  ghost predicate TakesBest(code: seq<CodeFile>, p: Pairing, run: Run) {
    && run.length > 0 && Agree(code, p, run.f, run.i, run.g, run.j, run.length)
    && (forall r: Ref :: !Agree(code, p, r.f, r.i, run.g, run.j, run.length + 1))
    && (forall r: Ref | Agree(code, p, r.f, r.i, run.g, run.j, run.length) ::
          r == Ref(run.f, run.i) || Earlier(Ref(run.f, run.i), r))
  }

  /** Each run, in the new side's order, is the best one on what those before it left. */
  ghost predicate Greedy(code: seq<CodeFile>, p0: Pairing, p: Pairing, runs: seq<Run>)
    decreases |runs|
  {
    if runs == [] then p == p0
    else
      var init, last := runs[..|runs| - 1], runs[|runs| - 1];
      && StartBefore(init, last.g, last.j)
      && exists q :: Greedy(code, p0, q, init) && TakesBest(code, q, last) && Extends(q, p, last)
  }

  ghost predicate StartBefore(runs: seq<Run>, g: nat, j: nat) {
    forall run | run in runs :: Before(Ref(run.g, run.j), g, j)
  }

  lemma {:induction false} AgreeIsLength(code: seq<CodeFile>, d: Done, p: Pairing, f: nat, i: nat, g: nat, j: nat, n: nat)
    requires Tracks(code, d, p) && |d.olds| == |code| == |d.news|
    ensures Agree(code, p, f, i, g, j, n) <==> n <= RunLength(code, d, f, i, g, j)
    decreases n
  {
    hide Sound;
    if n > 0 {
      AgreeIsLength(code, d, p, f, i + 1, g, j + 1, n - 1);
      assert AgreeAt(code, p, Ref(f, i), Ref(g, j)) <==> SameLine(code, d, f, i, g, j);
      hide Tracks, SameLine, AgreeAt;
    }
  }

  lemma BestIsTaken(code: seq<CodeFile>, d: Done, p: Pairing, run: Run)
    requires Tracks(code, d, p) && |d.olds| == |code| == |d.news|
    requires run.length == RunLength(code, d, run.f, run.i, run.g, run.j) > 0
    requires forall r: Ref :: RunLength(code, d, r.f, r.i, run.g, run.j) <= run.length
    requires forall r: Ref | RunLength(code, d, r.f, r.i, run.g, run.j) == run.length ::
               r == Ref(run.f, run.i) || Earlier(Ref(run.f, run.i), r)
    ensures TakesBest(code, p, run)
  {
    hide Tracks, RunLength, Agree;
    AgreeIsLength(code, d, p, run.f, run.i, run.g, run.j, run.length);
    forall r: Ref
      ensures !Agree(code, p, r.f, r.i, run.g, run.j, run.length + 1)
      ensures Agree(code, p, r.f, r.i, run.g, run.j, run.length) ==> r == Ref(run.f, run.i) || Earlier(Ref(run.f, run.i), r)
    {
      AgreeIsLength(code, d, p, r.f, r.i, run.g, run.j, run.length + 1);
      AgreeIsLength(code, d, p, r.f, r.i, run.g, run.j, run.length);
    }
  }

  lemma GreedyOn(code: seq<CodeFile>, p0: Pairing, p: Pairing, p': Pairing, runs: seq<Run>, run: Run)
    requires Greedy(code, p0, p, runs) && StartBefore(runs, run.g, run.j) && TakesBest(code, p, run) && Extends(p, p', run)
    ensures Greedy(code, p0, p', runs + [run]) && StartBefore(runs + [run], run.g, run.j + run.length)
  {
    hide Extends, Agree;
    assert (runs + [run])[..|runs|] == runs;
    forall r | r in runs + [run]
      ensures Before(Ref(r.g, r.j), run.g, run.j + run.length)
    {
      assert r in runs || r == run;
    }
  }

  lemma StartLater(runs: seq<Run>, g: nat, j: nat)
    requires StartBefore(runs, g, j)
    ensures StartBefore(runs, g, j + 1) && StartBefore(runs, g + 1, 0)
  {
  }

  datatype Moved = Moved(unexplained: seq<Unexplained>, runs: seq<Run>, broken: seq<Ref>, across: nat)

  /** Everything that holds between two lines of the scan. */
  ghost predicate Scanned(code: seq<CodeFile>, sources: map<string, seq<Ref>>, d: Done, p0: Pairing, p: Pairing, m: Moved, g: nat, j: nat) {
    && Tracks(code, d, p) && SourcesOf(code, d, sources)
    && Settled(code, d, m.unexplained, g, j)
    && RunsAre(code, p0, p, m.runs, m.broken)
    && Greedy(code, p0, p, m.runs) && StartBefore(m.runs, g, j)
    && m.across == |Across(p)|
  }

  lemma RunInBounds(code: seq<CodeFile>, d: Done, run: Run)
    requires |d.olds| == |code| == |d.news| && run.length == RunLength(code, d, run.f, run.i, run.g, run.j) > 0
    ensures InBounds(code, run)
  {
    RunIsSame(code, d, run.f, run.i, run.g, run.j, 0);
    RunIsSame(code, d, run.f, run.i, run.g, run.j, run.length - 1);
  }

  lemma ScannedTracks(code: seq<CodeFile>, sources: map<string, seq<Ref>>, d: Done, p0: Pairing, p: Pairing, m: Moved, g: nat, j: nat)
    requires Scanned(code, sources, d, p0, p, m, g, j)
    ensures Tracks(code, d, p) && |d.olds| == |code| == |d.news| && SourcesOf(code, d, sources)
  {
  }

  lemma SkipLine(code: seq<CodeFile>, sources: map<string, seq<Ref>>, d: Done, p0: Pairing, p: Pairing, m: Moved, g: nat, j: nat)
    requires Scanned(code, sources, d, p0, p, m, g, j) && |d.news| == |code| && !Wanted(code, d, g, j)
    ensures Scanned(code, sources, d, p0, p, m, g, j + 1)
  {
    hide Tracks, Wanted, Open, SourcesOf, RunsAre, Settled, Across, Greedy, StartBefore;
    StartLater(m.runs, g, j);
    ScannedTracks(code, sources, d, p0, p, m, g, j);
    OnlyThatLine(code, d, g, j);
    SettlePast(code, d, d, m.unexplained, Run(|code|, 0, g, j, 1));
  }

  lemma OnlyThatLine(code: seq<CodeFile>, d: Done, g: nat, j: nat)
    requires |d.news| == |code| && !Wanted(code, d, g, j)
    ensures forall r: Ref :: Wanted(code, d, r.f, r.i) ==> !Covers(Run(|code|, 0, g, j, 1), r)
  {
    hide Wanted;
  }

  function Unexplain(m: Moved, r: Ref): Moved {
    m.(unexplained := m.unexplained + [NewLine(r)])
  }

  lemma LeaveLine(code: seq<CodeFile>, sources: map<string, seq<Ref>>, d: Done, p0: Pairing, p: Pairing, m: Moved, g: nat, j: nat)
    requires Scanned(code, sources, d, p0, p, m, g, j) && |d.olds| == |code| == |d.news| && Wanted(code, d, g, j)
    requires forall r: Ref :: RunLength(code, d, r.f, r.i, g, j) <= 0
    ensures Scanned(code, sources, d, p0, p, Unexplain(m, Ref(g, j)), g, j + 1)
  {
    LongestIsNone(code, d, g, j);
    SettleUnexplained(code, d, m.unexplained, g, j);
    StartLater(m.runs, g, j);
    hide Greedy, StartBefore, Sound, AgreesOld, AgreesNew, SourcesOf, RunsAre, Settled, Across, RunLength, NoSource;
  }

  function AddMoved(code: seq<CodeFile>, m: Moved, run: Run): Moved
    requires InBounds(code, run)
  {
    Moved(m.unexplained, m.runs + [run],
          if Whole(code, run) then m.broken else m.broken + [Ref(run.g, run.j)],
          m.across + if run.f != run.g then run.length else 0)
  }

  lemma MoveRun(code: seq<CodeFile>, sources: map<string, seq<Ref>>, d: Done, d': Done, p0: Pairing, p: Pairing, p': Pairing, m: Moved, run: Run)
    requires Scanned(code, sources, d, p0, p, m, run.g, run.j) && InBounds(code, run)
    requires Tracks(code, d', p') && Extends(p, p', run) && TakesBest(code, p, run)
    ensures Scanned(code, sources, d', p0, p', AddMoved(code, m, run), run.g, run.j + run.length)
  {
    hide Tracks, Extends, Settled, RunsAre, Across, InBounds, Whole, Open, Wanted, SourcesOf, Greedy, StartBefore, TakesBest;
    GreedyOn(code, p0, p, p', m.runs, run);
    ScannedTracks(code, sources, d, p0, p, m, run.g, run.j);
    ExtendsAcross(code, d', p, p', run);
    RunShrinks(code, d, p, d', p', run);
    SettlePast(code, d, d', m.unexplained, run);
    AddRun(code, p0, p, p', m.runs, m.broken, run);
    StillListed(code, d, d', sources);
  }

  lemma ExtendsAcross(code: seq<CodeFile>, d': Done, p: Pairing, p': Pairing, run: Run)
    requires Tracks(code, d', p') && Extends(p, p', run)
    ensures AddsAcross(p, p', run) && |d'.olds| == |code| == |d'.news|
  {
  }

  lemma StillListed(code: seq<CodeFile>, d: Done, d': Done, sources: map<string, seq<Ref>>)
    requires |d.olds| == |code| == |d'.olds| && SourcesOf(code, d, sources)
    requires forall o: Ref :: Open(code, d', o.f, o.i) ==> Open(code, d, o.f, o.i)
    ensures SourcesOf(code, d', sources)
  {
    forall r: Ref | Open(code, d', r.f, r.i)
      ensures ListedIn(code, r, sources)
    {
      assert Open(code, d, r.f, r.i);
    }
  }

  /** Scans file g's new lines, in order. */
  method MatchMoved(code: seq<CodeFile>, sources: map<string, seq<Ref>>, g: nat, d: Done, ghost p0: Pairing, ghost p: Pairing, m: Moved)
    returns (d': Done, ghost p': Pairing, m': Moved)
    requires g < |code| && Scanned(code, sources, d, p0, p, m, g, 0)
    ensures Scanned(code, sources, d', p0, p', m', g, |code[g].new_.lines|)
  {
    hide Scanned, Tracks, SourcesOf, Extends, RunLength, Whole, TakesBest;
    d', p', m' := d, p, m;
    var j := 0;
    while j < |code[g].new_.lines|
      invariant 0 <= j <= |code[g].new_.lines|
      invariant Scanned(code, sources, d', p0, p', m', g, j)
    {
      ScannedTracks(code, sources, d', p0, p', m', g, j);
      if !Wanted(code, d', g, j) {
        SkipLine(code, sources, d', p0, p', m', g, j);
        j := j + 1;
      } else {
        var run := BestRun(code, d', sources, g, j);
        if run.length == 0 {
          LeaveLine(code, sources, d', p0, p', m', g, j);
          m' := Unexplain(m', Ref(g, j));
          j := j + 1;
        } else {
          RunInBounds(code, d', run);
          BestIsTaken(code, d', p', run);
          ghost var dBefore, pBefore := d', p';
          d', p' := TakeRun(code, d', p', run);
          MoveRun(code, sources, dBefore, d', p0, pBefore, p', m', run);
          m' := AddMoved(code, m', run);
          j := j + run.length;
        }
      }
    }
  }

  /** The reported lines are exactly those the pairing leaves, each once. */
  ghost predicate Leftovers(code: seq<CodeFile>, p: Pairing, us: seq<Unexplained>) {
    && Distinct(us)
    && (forall r :: NewLine(r) in us <==> NewChanged(code, r) && r !in p.toOld)
    && (forall r :: OldLine(r) in us <==> OldChanged(code, r) && r !in p.toNew)
  }

  ghost predicate OldsUpTo(code: seq<CodeFile>, d: Done, news: seq<Unexplained>, us: seq<Unexplained>, f: nat, i: nat)
    requires |d.olds| == |code|
  {
    && Distinct(us)
    && (forall r :: NewLine(r) in us <==> NewLine(r) in news)
    && (forall r: Ref :: OldLine(r) in us <==> Open(code, d, r.f, r.i) && Before(r, f, i))
  }

  method AddOpenOld(code: seq<CodeFile>, d: Done, news: seq<Unexplained>) returns (us: seq<Unexplained>)
    requires |d.olds| == |code| && Distinct(news) && forall u | u in news :: u.NewLine?
    ensures OldsUpTo(code, d, news, us, |code|, 0)
  {
    us := news;
    for f := 0 to |code|
      invariant OldsUpTo(code, d, news, us, f, 0)
    {
      for i := 0 to |code[f].old_.lines|
        invariant OldsUpTo(code, d, news, us, f, i)
      {
        if Open(code, d, f, i) {
          ghost var prev := us;
          us := us + [OldLine(Ref(f, i))];
          forall r: Ref
            ensures OldLine(r) in us <==> Open(code, d, r.f, r.i) && Before(r, f, i + 1)
            ensures NewLine(r) in us <==> NewLine(r) in news
          {
            assert OldLine(r) in us <==> OldLine(r) in prev || r == Ref(f, i);
          }
        } else {
          assert forall r: Ref | Open(code, d, r.f, r.i) && Before(r, f, i + 1) :: Before(r, f, i);
        }
      }
    }
  }

  lemma SettledIsExhausted(code: seq<CodeFile>, d: Done, p: Pairing, news: seq<Unexplained>, us: seq<Unexplained>)
    requires Tracks(code, d, p) && Settled(code, d, news, |code|, 0) && OldsUpTo(code, d, news, us, |code|, 0)
    ensures Exhausted(code, p) && Leftovers(code, p, us)
  {
    forall r: Ref
      ensures Wanted(code, d, r.f, r.i) <==> NewChanged(code, r) && r !in p.toOld
      ensures Open(code, d, r.f, r.i) <==> OldChanged(code, r) && r !in p.toNew
    {
      assert r == Ref(r.f, r.i);
    }
    forall o: Ref, g: Ref | Open(code, d, o.f, o.i) && Wanted(code, d, g.f, g.i)
      ensures OldKey(code, o) != NewKey(code, g)
    {
      assert NoSource(code, d, g);
    }
    forall key
      ensures OpenOld(code, p, key) == {} || OpenNew(code, p, key) == {}
    {
      WithMembers(code, key);
    }
  }

  /** Nothing is left over exactly when each key is as often on both sides. */
  lemma NothingLeftWhenBalanced(code: seq<CodeFile>, p: Pairing, us: seq<Unexplained>)
    requires Sound(code, p) && Exhausted(code, p) && Leftovers(code, p, us)
    ensures us == [] <==> forall key :: |OldWith(code, key)| == |NewWith(code, key)|
  {
    hide Exhausted, Sound, OldWith, NewWith;
    forall key
      ensures |OldWith(code, key)| == |NewWith(code, key)|
              <==> OpenOld(code, p, key) == {} && OpenNew(code, p, key) == {}
    {
      LeftoversAreTheDifference(code, p, key);
    }
    if us != [] {
      var key := match us[0] case OldLine(r) => OldKey(code, r) case NewLine(r) => NewKey(code, r);
      WithMembers(code, key);
      assert us[0] in us;
      match us[0] {
        case OldLine(r) => assert r in OpenOld(code, p, key);
        case NewLine(r) => assert r in OpenNew(code, p, key);
      }
    } else {
      forall key
        ensures OpenOld(code, p, key) == {} && OpenNew(code, p, key) == {}
      {
        WithMembers(code, key);
        assert forall r | r in OpenOld(code, p, key) :: OldLine(r) in us;
        assert forall r | r in OpenNew(code, p, key) :: NewLine(r) in us;
      }
    }
  }

  /** The lines a move does not explain, the moved runs that are not whole
      statements, and how many lines moved between files. The lines are paired
      one to one, keys kept; what is unexplained is exactly the difference of
      the two key multisets, so nothing is when they are equal; and every pair
      is in place or on a run, which is consecutive on both sides. */
  method MatchCode(code: seq<CodeFile>)
    returns (unexplained: seq<Unexplained>, broken: seq<Ref>, movedAcross: nat,
             ghost inPlace: Pairing, ghost p: Pairing, ghost runs: seq<Run>)
    ensures Sound(code, inPlace) && InPlace(code, inPlace) && Ordered(code, inPlace) && LongestUpTo(code, inPlace, |code|)
    ensures Sound(code, p)
    ensures RunsAre(code, inPlace, p, runs, broken) && Greedy(code, inPlace, p, runs)
    ensures Leftovers(code, p, unexplained)
    ensures forall key ::
              && |OpenOld(code, p, key)| == Surplus(|OldWith(code, key)|, |NewWith(code, key)|)
              && |OpenNew(code, p, key)| == Surplus(|NewWith(code, key)|, |OldWith(code, key)|)
    ensures unexplained == [] <==> forall key :: |OldWith(code, key)| == |NewWith(code, key)|
    ensures movedAcross == |Across(p)|
  {
    var d;
    d, inPlace := MatchInPlace(code);
    p := inPlace;
    var sources := CollectSources(code, d);
    var m := Moved([], [], [], 0);
    assert Across(p) == {};
    NothingScanned(code, sources, d, p);
    for g := 0 to |code|
      invariant Scanned(code, sources, d, inPlace, p, m, g, 0)
    {
      d, p, m := MatchMoved(code, sources, g, d, inPlace, p, m);
      NextFile(code, d, m.unexplained, g);
      StartLater(m.runs, g, |code[g].new_.lines|);
    }
    unexplained := AddOpenOld(code, d, m.unexplained);
    broken, movedAcross, runs := m.broken, m.across, m.runs;
    SettledIsExhausted(code, d, p, m.unexplained, unexplained);
    NothingLeftWhenBalanced(code, p, unexplained);
    forall key
      ensures |OpenOld(code, p, key)| == Surplus(|OldWith(code, key)|, |NewWith(code, key)|)
      ensures |OpenNew(code, p, key)| == Surplus(|NewWith(code, key)|, |OldWith(code, key)|)
    {
      LeftoversAreTheDifference(code, p, key);
    }
  }

  lemma NothingScanned(code: seq<CodeFile>, sources: map<string, seq<Ref>>, d: Done, p: Pairing)
    requires Tracks(code, d, p) && SourcesOf(code, d, sources) && Across(p) == {}
    ensures Scanned(code, sources, d, p, p, Moved([], [], [], 0), 0, 0)
  {
  }

  lemma NextFile(code: seq<CodeFile>, d: Done, us: seq<Unexplained>, g: nat)
    requires |d.olds| == |code| == |d.news| && g < |code|
    requires Settled(code, d, us, g, |code[g].new_.lines|)
    ensures Settled(code, d, us, g + 1, 0)
  {
    forall r: Ref | Wanted(code, d, r.f, r.i)
      ensures Before(r, g, |code[g].new_.lines|) <==> Before(r, g + 1, 0)
    {
    }
  }
}
