/** The shrink-only list of known layer-rule violations. */
module Layers {
  import opened Options
  import opened Lists

  datatype Edge = Edge(from: string, to: string)
  datatype Violation = Violation(rule: string, edge: Edge)

  /** One known break re-pointed to another edge by a commit trailer. */
  datatype EntryMove = EntryMove(from: Edge, to: Edge)

  /** The list and rule names at the base commit, and the trailers since. */
  datatype Base = Base(entries: seq<Violation>, rules: set<string>, moved: seq<EntryMove>)

  datatype Error = BadMove(move: EntryMove) | Unlisted(v: Violation) | AddedToList(v: Violation) | Stale(v: Violation)

  /** Entries of a rule, repeated ones counted again. */
  function OfRule(entries: seq<Violation>, rule: string): nat {
    if entries == [] then 0
    else OfRule(entries[..|entries| - 1], rule) + if entries[|entries| - 1].rule == rule then 1 else 0
  }

  ghost predicate SameRules(a: seq<Violation>, b: seq<Violation>) {
    |a| == |b| && forall i | 0 <= i < |a| :: a[i].rule == b[i].rule
  }

  lemma {:induction false} SameRulesCount(a: seq<Violation>, b: seq<Violation>, rule: string)
    requires SameRules(a, b)
    ensures OfRule(a, rule) == OfRule(b, rule)
  {
    if a != [] {
      SameRulesCount(a[..|a| - 1], b[..|b| - 1], rule);
    }
  }

  predicate Movable(v: Violation, known: set<Violation>, m: EntryMove) {
    v.edge == m.from && v !in known
  }

  /** The first entry a trailer re-points, if any. */
  function FirstMovable(out: seq<Violation>, known: set<Violation>, m: EntryMove, i: nat): (first: nat)
    requires i <= |out|
    ensures i <= first <= |out| && (first < |out| ==> Movable(out[first], known, m))
    ensures forall k | i <= k < first :: !Movable(out[k], known, m)
    decreases |out| - i
  {
    if i == |out| || Movable(out[i], known, m) then i else FirstMovable(out, known, m, i + 1)
  }

  function Repointed(out: seq<Violation>, known: set<Violation>, m: EntryMove): seq<Violation> {
    var i := FirstMovable(out, known, m, 0);
    if i < |out| then out[i := Violation(out[i].rule, m.to)] else out
  }

  /** No entry to re-point, and none on the new edge already. */
  predicate Unmet(out: seq<Violation>, known: set<Violation>, m: EntryMove) {
    FirstMovable(out, known, m, 0) == |out| && forall v | v in out :: v.edge != m.to
  }

  function Applied(entries: seq<Violation>, known: set<Violation>, moves: seq<EntryMove>): seq<Violation> {
    if moves == [] then entries
    else Repointed(Applied(entries, known, moves[..|moves| - 1]), known, moves[|moves| - 1])
  }

  function MoveErrors(entries: seq<Violation>, known: set<Violation>, moves: seq<EntryMove>): seq<Error> {
    if moves == [] then []
    else
      var rest, m := moves[..|moves| - 1], moves[|moves| - 1];
      MoveErrors(entries, known, rest) + if Unmet(Applied(entries, known, rest), known, m) then [BadMove(m)] else []
  }

  method ApplyEntryMoves(entries: seq<Violation>, known: set<Violation>, moves: seq<EntryMove>)
    returns (out: seq<Violation>, errors: seq<Error>)
    ensures out == Applied(entries, known, moves) && errors == MoveErrors(entries, known, moves)
  {
    out, errors := entries, [];
    for k := 0 to |moves|
      invariant out == Applied(entries, known, moves[..k]) && errors == MoveErrors(entries, known, moves[..k])
    {
      assert moves[..k + 1][..k] == moves[..k];
      var m := moves[k];
      var i := 0;
      while i < |out| && !Movable(out[i], known, m)
        invariant i <= |out| && FirstMovable(out, known, m, 0) == FirstMovable(out, known, m, i)
      {
        i := i + 1;
      }
      if i < |out| {
        out := out[i := Violation(out[i].rule, m.to)];
      } else if forall v | v in out :: v.edge != m.to {
        errors := errors + [BadMove(m)];
      }
    }
    assert moves[..|moves|] == moves;
  }

  /** The trailers keep the list's length and each place its rule, and leave
      every entry that is still on the current list where it was. */
  lemma {:induction false} MovesKeepRules(entries: seq<Violation>, known: set<Violation>, moves: seq<EntryMove>)
    ensures SameRules(Applied(entries, known, moves), entries)
    ensures forall i | 0 <= i < |entries| && entries[i] in known :: Applied(entries, known, moves)[i] == entries[i]
  {
    if moves != [] {
      MovesKeepRules(entries, known, moves[..|moves| - 1]);
    }
  }

  predicate MovesFirst(out: seq<Violation>, known: set<Violation>, m: EntryMove, after: seq<Violation>, i: nat) {
    && i < |out| && out[i].edge == m.from && out[i] !in known
    && (forall k | 0 <= k < i :: out[k].edge != m.from || out[k] in known)
    && after == out[i := Violation(out[i].rule, m.to)]
  }

  /** One more trailer moves the first entry that is on its old edge and gone from the
      current list, whatever its rule, and no other; it is reported if and only if there
      is none and no entry is on the new edge. */
  lemma OneMoreTrailer(entries: seq<Violation>, known: set<Violation>, moves: seq<EntryMove>, m: EntryMove)
    ensures var out, after := Applied(entries, known, moves), Applied(entries, known, moves + [m]);
            && ((exists i :: MovesFirst(out, known, m, after, i))
                || (after == out && forall v | v in out :: v.edge != m.from || v in known))
            && MoveErrors(entries, known, moves + [m])
            == MoveErrors(entries, known, moves)
               + if exists v | v in out :: (v.edge == m.from && v !in known) || v.edge == m.to then [] else [BadMove(m)]
  {
    assert (moves + [m])[..|moves|] == moves;
    var out, after := Applied(entries, known, moves), Applied(entries, known, moves + [m]);
    var i := FirstMovable(out, known, m, 0);
    if i < |out| {
      assert out[i] in out && Movable(out[i], known, m);
      assert MovesFirst(out, known, m, after, i);
    } else {
      assert forall v | v in out :: !Movable(v, known, m);
    }
  }

  function NewPath(renames: map<string, string>, path: string): string {
    if path in renames then renames[path] else path
  }

  /** Paths read through the renames since the base. */
  function Renamed(entries: seq<Violation>, renames: map<string, string>): (out: seq<Violation>)
    ensures SameRules(out, entries)
    ensures forall i | 0 <= i < |entries| ::
              out[i].edge == Edge(NewPath(renames, entries[i].edge.from), NewPath(renames, entries[i].edge.to))
  {
    seq(|entries|, i requires 0 <= i < |entries| =>
      var e := entries[i].edge;
      Violation(entries[i].rule, Edge(NewPath(renames, e.from), NewPath(renames, e.to))))
  }

  /** Renamed and renamed back, a list is as it was, when the new names are new and no
      two are the same. */
  lemma RenamedBack(entries: seq<Violation>, renames: map<string, string>, back: map<string, string>)
    requires forall p | p in renames :: renames[p] in back && back[renames[p]] == p
    requires forall v | v in entries :: (v.edge.from in back ==> v.edge.from in renames) && (v.edge.to in back ==> v.edge.to in renames)
    ensures Renamed(Renamed(entries, renames), back) == entries
  {
    var out := Renamed(entries, renames);
    forall i | 0 <= i < |entries|
      ensures Renamed(out, back)[i] == entries[i]
    {
      assert entries[i] in entries;
      assert NewPath(back, NewPath(renames, entries[i].edge.from)) == entries[i].edge.from;
      assert NewPath(back, NewPath(renames, entries[i].edge.to)) == entries[i].edge.to;
    }
  }

  /** The base list as the trailers leave it. */
  function BaseEntries(base: Base, known: seq<Violation>): seq<Violation> {
    Applied(base.entries, Elements(known), base.moved)
  }

  /** Not at the base, though its rule was. */
  predicate IsAdded(base: Option<Base>, known: seq<Violation>, v: Violation) {
    base.Some? && v.rule in base.value.rules && v !in BaseEntries(base.value, known)
  }

  /** What an empty comparison says. */
  ghost predicate Clean(found: seq<Violation>, known: seq<Violation>, base: Base) {
    && MoveErrors(base.entries, Elements(known), base.moved) == []
    && (forall v | v in found :: v in known)
    && (forall v | v in known :: !IsAdded(Some(base), known, v) && v in found)
  }

  /** Without trailers a comparison is clean if and only if what is found is what is
      listed and every listed entry of a rule the base had is on the base's list: so
      dropping entries is never reported. */
  lemma CleanWithoutMoves(found: seq<Violation>, known: seq<Violation>, entries: seq<Violation>, rules: set<string>)
    ensures Clean(found, known, Base(entries, rules, []))
       <==> Elements(found) == Elements(known) && forall v | v in known && v.rule in rules :: v in entries
  {
    if Elements(found) == Elements(known) {
      assert forall v :: v in found <==> v in Elements(found);
      assert forall v :: v in known <==> v in Elements(known);
    }
  }

  /** Every failure, each entry of either list weighed once. */
  method CompareWithKnown(found: seq<Violation>, known: seq<Violation>, base: Option<Base>) returns (errors: seq<Error>)
    ensures forall v :: Unlisted(v) in errors <==> v in found && v !in known
    ensures forall v :: AddedToList(v) in errors <==> v in known && IsAdded(base, known, v)
    ensures forall v :: Stale(v) in errors <==> v in known && !IsAdded(base, known, v) && v !in found
    ensures forall m :: BadMove(m) in errors <==> base.Some? && BadMove(m) in MoveErrors(base.value.entries, Elements(known), base.value.moved)
    ensures base.Some? ==> (errors == [] <==> Clean(found, known, base.value))
  {
    var foundKeys, knownKeys := Elements(found), Elements(known);
    errors := [];
    var baseEntries: seq<Violation> := [];
    if base.Some? {
      baseEntries, errors := ApplyEntryMoves(base.value.entries, knownKeys, base.value.moved);
      MoveErrorsOnly(base.value.entries, knownKeys, base.value.moved);
    }
    ghost var moveErrors := errors;
    var todo := foundKeys;
    while todo != {}
      invariant todo <= foundKeys && forall m :: BadMove(m) in errors <==> BadMove(m) in moveErrors
      invariant forall v :: Unlisted(v) in errors <==> v in found && v !in known && v !in todo
      invariant forall v :: AddedToList(v) !in errors && Stale(v) !in errors
    {
      var v :| v in todo;
      todo := todo - {v};
      if v !in knownKeys {
        errors := errors + [Unlisted(v)];
      }
    }
    todo := knownKeys;
    while todo != {}
      invariant todo <= knownKeys && forall m :: BadMove(m) in errors <==> BadMove(m) in moveErrors
      invariant forall v :: Unlisted(v) in errors <==> v in found && v !in known
      invariant forall v :: AddedToList(v) in errors <==> v in known && IsAdded(base, known, v) && v !in todo
      invariant forall v :: Stale(v) in errors <==> v in known && !IsAdded(base, known, v) && v !in found && v !in todo
    {
      var v :| v in todo;
      todo := todo - {v};
      if base.Some? && v.rule in base.value.rules && v !in baseEntries {
        errors := errors + [AddedToList(v)];
      } else if v !in foundKeys {
        errors := errors + [Stale(v)];
      }
    }
    OneOfEachKind(errors);
    OneOfEachKind(moveErrors);
  }

  lemma OneOfEachKind(errors: seq<Error>)
    ensures errors == []
            || (exists m :: BadMove(m) in errors)
            || exists v :: Unlisted(v) in errors || AddedToList(v) in errors || Stale(v) in errors
  {
    if errors != [] {
      var e := errors[0];
      assert e in errors && (e.BadMove? ==> e == BadMove(e.move));
      assert !e.BadMove? ==> e == Unlisted(e.v) || e == AddedToList(e.v) || e == Stale(e.v);
    }
  }

  lemma {:induction false} MoveErrorsOnly(entries: seq<Violation>, known: set<Violation>, moves: seq<EntryMove>)
    ensures forall e | e in MoveErrors(entries, known, moves) :: e.BadMove?
  {
    if moves != [] {
      MoveErrorsOnly(entries, known, moves[..|moves| - 1]);
    }
  }

  /** The distinct entries of a rule. */
  function DistinctOf(entries: seq<Violation>, rule: string): set<Violation> {
    set v | v in entries && v.rule == rule
  }

  lemma DistinctWithLast(entries: seq<Violation>, rule: string)
    requires entries != []
    ensures var last := entries[|entries| - 1];
            DistinctOf(entries, rule) == DistinctOf(entries[..|entries| - 1], rule) + if last.rule == rule then {last} else {}
  {
    assert entries == entries[..|entries| - 1] + [entries[|entries| - 1]];
  }

  /** No entry of the rule is listed twice. */
  ghost predicate NoRepeats(entries: seq<Violation>, rule: string) {
    forall i, j | 0 <= i < j < |entries| && entries[i].rule == rule :: entries[i] != entries[j]
  }

  lemma {:induction false} DistinctAtMostCount(entries: seq<Violation>, rule: string)
    ensures |DistinctOf(entries, rule)| <= OfRule(entries, rule)
    ensures NoRepeats(entries, rule) ==> |DistinctOf(entries, rule)| == OfRule(entries, rule)
  {
    if entries == [] {
      assert DistinctOf(entries, rule) == {};
    } else {
      var rest, last := entries[..|entries| - 1], entries[|entries| - 1];
      DistinctAtMostCount(rest, rule);
      DistinctWithLast(entries, rule);
      assert NoRepeats(entries, rule) ==> NoRepeats(rest, rule) && (last.rule == rule ==> last !in DistinctOf(rest, rule));
      hide NoRepeats, DistinctOf;
    }
  }

  /** With nothing to report, the violations found are exactly the known list, and
      a rule the base had has no more distinct entries than the base's list. */
  lemma CleanListNeverGrows(found: seq<Violation>, known: seq<Violation>, base: Base, rule: string)
    requires Clean(found, known, base)
    ensures Elements(found) == Elements(known)
    ensures rule in base.rules ==> |DistinctOf(known, rule)| <= OfRule(base.entries, rule)
  {
    if rule in base.rules {
      var applied := BaseEntries(base, known);
      forall v | v in DistinctOf(known, rule)
        ensures v in DistinctOf(applied, rule)
      {
        assert !IsAdded(Some(base), known, v);
      }
      SubsetIsSmaller(DistinctOf(known, rule), DistinctOf(applied, rule));
      DistinctAtMostCount(applied, rule);
      MovesKeepRules(base.entries, Elements(known), base.moved);
      SameRulesCount(applied, base.entries, rule);
    }
  }

  /** Commit k's comparison is clean against commit k - 1's list. */
  ghost predicate CleanStep(lists: seq<seq<Violation>>, founds: seq<seq<Violation>>, renames: seq<map<string, string>>,
                            moved: seq<seq<EntryMove>>, rule: string, k: nat)
    requires 0 < k < |lists| == |founds| == |renames| == |moved|
  {
    exists rules: set<string> :: rule in rules
      && Clean(founds[k], lists[k], Base(Renamed(lists[k - 1], renames[k]), rules, moved[k]))
  }

  /** Over any run of clean comparisons, whatever is renamed or re-pointed, a rule
      known throughout never has more entries on the list. */
  lemma {:induction false} RuleNeverGrows(lists: seq<seq<Violation>>, founds: seq<seq<Violation>>, renames: seq<map<string, string>>,
                                          moved: seq<seq<EntryMove>>, rule: string, i: nat, j: nat)
    requires |lists| == |founds| == |renames| == |moved| && i <= j < |lists|
    requires forall k | 0 < k < |lists| :: NoRepeats(lists[k], rule)
    requires forall k | 0 < k < |lists| :: CleanStep(lists, founds, renames, moved, rule, k)
    ensures OfRule(lists[j], rule) <= OfRule(lists[i], rule)
    decreases j
  {
    if i < j {
      RuleNeverGrows(lists, founds, renames, moved, rule, i, j - 1);
      assert CleanStep(lists, founds, renames, moved, rule, j);
      var rules: set<string> :| rule in rules
        && Clean(founds[j], lists[j], Base(Renamed(lists[j - 1], renames[j]), rules, moved[j]));
      var base := Base(Renamed(lists[j - 1], renames[j]), rules, moved[j]);
      CleanListNeverGrows(founds[j], lists[j], base, rule);
      SameRulesCount(base.entries, lists[j - 1], rule);
      DistinctAtMostCount(lists[j], rule);
    }
  }

  // ------------------------------------------------- what a repeated entry allows

  /** An edge longer than any listed. */
  function LongestFrom(entries: seq<Violation>): (n: nat)
    ensures forall v | v in entries :: |v.edge.from| <= n
  {
    if entries == [] then 0
    else
      var n, m := LongestFrom(entries[1..]), |entries[0].edge.from|;
      if m > n then m else n
  }

  function FreshEdge(entries: seq<Violation>, n: nat): Edge
    requires n > 0
  {
    Edge(seq(LongestFrom(entries) + n, i => 'x'), "")
  }

  function Others(entries: seq<Violation>, v: Violation): (r: seq<Violation>)
    ensures forall x :: x in r <==> x in entries && x != v
  {
    if entries == [] then []
    else Others(entries[1..], v) + if entries[0] == v then [] else [entries[0]]
  }

  /** Re-points two places of the list that hold v, and nothing else. */
  lemma TwoPlacesMove(entries: seq<Violation>, known: set<Violation>, v: Violation, y: Edge, z: Edge, j: nat) returns (a: nat, b: nat)
    requires j < |entries| && entries[j] == v && (exists i :: 0 <= i < j && entries[i] == v)
    requires y != v.edge && v !in known && forall k | 0 <= k < |entries| && entries[k] != v :: entries[k] in known
    ensures var moves := [EntryMove(v.edge, y), EntryMove(v.edge, z)];
            && a < |entries| && b < |entries| && a != b && entries[a] == v && entries[b] == v
            && Applied(entries, known, moves) == entries[a := Violation(v.rule, y)][b := Violation(v.rule, z)]
            && MoveErrors(entries, known, moves) == []
  {
    var one, two := EntryMove(v.edge, y), EntryMove(v.edge, z);
    var i :| 0 <= i < j && entries[i] == v;
    a := FirstMovable(entries, known, one, 0);
    assert Movable(entries[i], known, one);
    var first := entries[a := Violation(v.rule, y)];
    b := FirstMovable(first, known, two, 0);
    assert Movable(first[j], known, two);
    TwoMoves(entries, known, one, two);
  }

  lemma TwoMoves(entries: seq<Violation>, known: set<Violation>, one: EntryMove, two: EntryMove)
    ensures var first := Repointed(entries, known, one);
            && Applied(entries, known, [one, two]) == Repointed(first, known, two)
            && MoveErrors(entries, known, [one, two])
               == (if Unmet(entries, known, one) then [BadMove(one)] else []) + if Unmet(first, known, two) then [BadMove(two)] else []
  {
    hide Repointed, Unmet;
    assert [one, two][..1] == [one] && [one][..0] == [];
    assert Applied(entries, known, []) == entries && MoveErrors(entries, known, []) == [];
    assert Applied(entries, known, [one]) == Repointed(entries, known, one);
    assert MoveErrors(entries, known, [one]) == if Unmet(entries, known, one) then [BadMove(one)] else [];
  }

  /** The list in which a repeated entry has become two. */
  function Split(entries: seq<Violation>, v: Violation): seq<Violation> {
    Others(entries, v) + [Violation(v.rule, FreshEdge(entries, 1)), Violation(v.rule, FreshEdge(entries, 2))]
  }

  lemma FreshEdges(entries: seq<Violation>)
    ensures FreshEdge(entries, 1) != FreshEdge(entries, 2)
    ensures forall v | v in entries :: v.edge != FreshEdge(entries, 1) && v.edge != FreshEdge(entries, 2)
  {
    assert |FreshEdge(entries, 1).from| == LongestFrom(entries) + 1;
    assert |FreshEdge(entries, 2).from| == LongestFrom(entries) + 2;
  }

  lemma SplitMembers(entries: seq<Violation>, v: Violation)
    ensures forall x :: x in Split(entries, v) <==>
              || (x in entries && x != v)
              || x == Violation(v.rule, FreshEdge(entries, 1)) || x == Violation(v.rule, FreshEdge(entries, 2))
  {
    hide FreshEdge, Others;
  }

  lemma TwoForOne<T>(s: set<T>, v: T, y: T, z: T)
    requires v in s && y !in s && z !in s && y != z
    ensures |s - {v} + {y, z}| == |s| + 1
  {
    assert |s - {v}| == |s| - 1 && |{y, z}| == 2;
  }

  lemma SplitDistinct(entries: seq<Violation>, v: Violation)
    requires v in entries
    ensures |DistinctOf(Split(entries, v), v.rule)| == |DistinctOf(entries, v.rule)| + 1
  {
    hide Split, FreshEdge;
    FreshEdges(entries);
    SplitMembers(entries, v);
    var y, z := Violation(v.rule, FreshEdge(entries, 1)), Violation(v.rule, FreshEdge(entries, 2));
    var was := DistinctOf(entries, v.rule);
    TwoForOne(was, v, y, z);
    assert DistinctOf(Split(entries, v), v.rule) == was - {v} + {y, z};
  }

  lemma SplitIsClean(entries: seq<Violation>, v: Violation, j: nat)
    requires j < |entries| && entries[j] == v && exists i :: 0 <= i < j && entries[i] == v
    ensures var moves := [EntryMove(v.edge, FreshEdge(entries, 1)), EntryMove(v.edge, FreshEdge(entries, 2))];
            Clean(Split(entries, v), Split(entries, v), Base(entries, {v.rule}, moves))
  {
    hide Split, FreshEdge, Applied, MoveErrors;
    FreshEdges(entries);
    SplitMembers(entries, v);
    var y, z := FreshEdge(entries, 1), FreshEdge(entries, 2);
    var known, moves := Split(entries, v), [EntryMove(v.edge, y), EntryMove(v.edge, z)];
    var keys := Elements(known);
    assert forall k | 0 <= k < |entries| :: entries[k] in entries;
    var a, b := TwoPlacesMove(entries, keys, v, y, z, j);
    AfterTwoMoves(entries, v, Violation(v.rule, y), Violation(v.rule, z), a, b);
    assert Applied(entries, keys, moves) == entries[a := Violation(v.rule, y)][b := Violation(v.rule, z)];
  }

  lemma AfterTwoMoves(entries: seq<Violation>, v: Violation, y: Violation, z: Violation, a: nat, b: nat)
    requires a < |entries| && b < |entries| && a != b && entries[a] == v == entries[b]
    ensures var after := entries[a := y][b := z];
            y in after && z in after && forall x | x in entries && x != v :: x in after
  {
    var after := entries[a := y][b := z];
    assert after[a] == y && after[b] == z;
    forall x | x in entries && x != v
      ensures x in after
    {
      var k :| 0 <= k < |entries| && entries[k] == x;
      assert after[k] == x;
    }
  }

  /** A list repeats no entry of a rule if and only if nothing that passes against
      it with nothing to report, whatever is re-pointed, has more distinct entries
      of that rule. */
  lemma RepeatsCanSplit(entries: seq<Violation>, rule: string)
    ensures NoRepeats(entries, rule)
       <==> forall found, known, rules, moved | rule in rules && Clean(found, known, Base(entries, rules, moved)) ::
              |DistinctOf(known, rule)| <= |DistinctOf(entries, rule)|
  {
    hide Clean, DistinctOf;
    if NoRepeats(entries, rule) {
      forall found, known, rules, moved | rule in rules && Clean(found, known, Base(entries, rules, moved))
        ensures |DistinctOf(known, rule)| <= |DistinctOf(entries, rule)|
      {
        CleanListNeverGrows(found, known, Base(entries, rules, moved), rule);
        DistinctAtMostCount(entries, rule);
      }
    } else {
      var i, j :| 0 <= i < j < |entries| && entries[i].rule == rule && entries[i] == entries[j];
      var v := entries[j];
      SplitIsClean(entries, v, j);
      SplitDistinct(entries, v);
      var known, moved := Split(entries, v), [EntryMove(v.edge, FreshEdge(entries, 1)), EntryMove(v.edge, FreshEdge(entries, 2))];
      assert Clean(known, known, Base(entries, {rule}, moved)) && |DistinctOf(known, rule)| > |DistinctOf(entries, rule)|;
    }
  }

  /** A base entry listed twice can be re-pointed twice: then the list gains a
      distinct entry with nothing to report. */
  lemma RepeatedBaseEntryCanSplit()
    ensures var x, y, z := Edge("a", "b"), Edge("c", "d"), Edge("e", "f");
            var known := [Violation("r", y), Violation("r", z)];
            var base := Base([Violation("r", x), Violation("r", x)], {"r"}, [EntryMove(x, y), EntryMove(x, z)]);
            Clean(known, known, base) && |DistinctOf(known, "r")| > |DistinctOf(base.entries, "r")|
  {
    hide Applied, MoveErrors;
    var v, y, z := Violation("r", Edge("a", "b")), Violation("r", Edge("c", "d")), Violation("r", Edge("e", "f"));
    var known, entries := [y, z], [v, v];
    assert forall x :: x in known <==> x == y || x == z;
    assert entries[0] == v;
    var i, j := TwoPlacesMove(entries, Elements(known), v, y.edge, z.edge, 1);
    AfterTwoMoves(entries, v, y, z, i, j);
    var base := Base(entries, {"r"}, [EntryMove(v.edge, y.edge), EntryMove(v.edge, z.edge)]);
    assert BaseEntries(base, known) == entries[i := y][j := z];
    assert y in BaseEntries(base, known) && z in BaseEntries(base, known);
    assert "c"[0] == 'c' && "e"[0] == 'e' && y != z;
    assert DistinctOf(known, "r") == {y, z} && |{y, z}| == 2;
    assert DistinctOf(entries, "r") == {v};
  }
}
