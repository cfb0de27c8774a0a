/** The ratchets written in code: page budgets and shrink-only lists. */
module CodeLimits {
  import opened Options
  import opened Lists

  // --------------------------------------------------------------------- budgets

  datatype Limit = AtMost(kb: real) | Unlimited

  predicate Above(a: Limit, b: Limit) {
    match (a, b)
    case (_, Unlimited) => false
    case (Unlimited, AtMost(_)) => true
    case (AtMost(x), AtMost(y)) => x > y
  }

  /** Page budgets, the default budget and the chunk limit. */
  datatype Budgets = Budgets(pages: map<string, real>, fallback: Limit, chunk: Limit)

  datatype BundleRise = DefaultRaised | ChunkRaised | PageRaised(route: string) | NewPageOver(route: string)

  /** A listed page's budget after a change; a page that is gone has none. */
  function BudgetNow(now: Budgets, exists_: set<string>, route: string): Limit {
    if route in now.pages then AtMost(now.pages[route]) else if route in exists_ then now.fallback else AtMost(0.0)
  }

  predicate RaisesPage(was: Budgets, now: Budgets, exists_: set<string>, route: string) {
    route in was.pages && Above(BudgetNow(now, exists_, route), AtMost(was.pages[route]))
  }

  predicate AddsPageOver(was: Budgets, now: Budgets, route: string) {
    route in now.pages && route !in was.pages && Above(AtMost(now.pages[route]), was.fallback)
  }

  method BundleRises(was: Budgets, now: Budgets, exists_: set<string>) returns (rises: set<BundleRise>)
    ensures DefaultRaised in rises <==> Above(now.fallback, was.fallback)
    ensures ChunkRaised in rises <==> Above(now.chunk, was.chunk)
    ensures forall r :: PageRaised(r) in rises <==> RaisesPage(was, now, exists_, r)
    ensures forall r :: NewPageOver(r) in rises <==> AddsPageOver(was, now, r)
  {
    rises := {};
    if Above(now.fallback, was.fallback) {
      rises := rises + {DefaultRaised};
    }
    if Above(now.chunk, was.chunk) {
      rises := rises + {ChunkRaised};
    }
    var routes := was.pages.Keys;
    while routes != {}
      invariant routes <= was.pages.Keys
      invariant DefaultRaised in rises <==> Above(now.fallback, was.fallback)
      invariant ChunkRaised in rises <==> Above(now.chunk, was.chunk)
      invariant forall r :: PageRaised(r) in rises <==> RaisesPage(was, now, exists_, r) && r !in routes
      invariant forall r :: NewPageOver(r) !in rises
    {
      var r :| r in routes;
      routes := routes - {r};
      if Above(BudgetNow(now, exists_, r), AtMost(was.pages[r])) {
        rises := rises + {PageRaised(r)};
      }
    }
    routes := now.pages.Keys;
    while routes != {}
      invariant routes <= now.pages.Keys
      invariant DefaultRaised in rises <==> Above(now.fallback, was.fallback)
      invariant ChunkRaised in rises <==> Above(now.chunk, was.chunk)
      invariant forall r :: PageRaised(r) in rises <==> RaisesPage(was, now, exists_, r)
      invariant forall r :: NewPageOver(r) in rises <==> AddsPageOver(was, now, r) && r !in routes
    {
      var r :| r in routes;
      routes := routes - {r};
      if r !in was.pages && Above(AtMost(now.pages[r]), was.fallback) {
        rises := rises + {NewPageOver(r)};
      }
    }
  }

  /** The limit a page is held to: its own budget, or the default. */
  function Effective(b: Budgets, route: string): Limit {
    if route in b.pages then AtMost(b.pages[route]) else b.fallback
  }

  ghost predicate NoBundleRise(was: Budgets, now: Budgets, exists_: set<string>) {
    && !Above(now.fallback, was.fallback) && !Above(now.chunk, was.chunk)
    && forall r :: !RaisesPage(was, now, exists_, r) && !AddsPageOver(was, now, r)
  }

  /** The limit allows a page of this size. */
  predicate Allows(l: Limit, kb: real) {
    match l
    case AtMost(most) => kb <= most
    case Unlimited => true
  }

  /** A limit is above another if and only if it allows a size the other does not. */
  lemma AboveAllowsMore(a: Limit, b: Limit)
    ensures Above(a, b) <==> exists kb :: Allows(a, kb) && !Allows(b, kb)
  {
    match (a, b) {
      case (AtMost(x), AtMost(y)) =>
        if x > y {
          assert Allows(a, x) && !Allows(b, x);
        }
      case (Unlimited, AtMost(y)) =>
        assert Allows(a, y + 1.0) && !Allows(b, y + 1.0);
      case _ =>
    }
  }

  /** There is no rise if and only if neither the default nor the chunk limit is
      looser, and no page, listed before or after or there at all, is held to a looser
      limit than before. */
  lemma NoRiseIsNoLooser(was: Budgets, now: Budgets, exists_: set<string>)
    requires forall r | r in was.pages :: was.pages[r] >= 0.0
    ensures NoBundleRise(was, now, exists_)
       <==> && !Above(now.fallback, was.fallback) && !Above(now.chunk, was.chunk)
            && forall r | r in exists_ || r in now.pages :: !Above(Effective(now, r), Effective(was, r))
  {
    if !Above(now.fallback, was.fallback) && (forall r | r in exists_ || r in now.pages :: !Above(Effective(now, r), Effective(was, r))) {
      forall r
        ensures !RaisesPage(was, now, exists_, r) && !AddsPageOver(was, now, r)
      {
        if r in exists_ || r in now.pages {
          assert !Above(Effective(now, r), Effective(was, r));
        }
      }
    }
    if NoBundleRise(was, now, exists_) {
      forall r | r in exists_ || r in now.pages
        ensures !Above(Effective(now, r), Effective(was, r))
      {
        assert !RaisesPage(was, now, exists_, r) && !AddsPageOver(was, now, r);
      }
    }
  }

  /** Along any run of commits without a rise, a page that is there throughout
      is never held to a looser limit, whether listed, unlisted or listed again. */
  lemma {:induction false} PageBudgetNeverRises(bs: seq<Budgets>, trees: seq<set<string>>, route: string, i: nat, j: nat)
    requires |trees| == |bs| && i <= j < |bs|
    requires forall k | 0 < k < |bs| :: NoBundleRise(bs[k - 1], bs[k], trees[k])
    requires forall k | i <= k <= j :: route in trees[k]
    ensures !Above(Effective(bs[j], route), Effective(bs[i], route))
    decreases j
  {
    if i < j {
      PageBudgetNeverRises(bs, trees, route, i, j - 1);
      assert NoBundleRise(bs[j - 1], bs[j], trees[j]);
      assert !RaisesPage(bs[j - 1], bs[j], trees[j], route) && !AddsPageOver(bs[j - 1], bs[j], route);
    }
  }

  // ----------------------------------------------------------------------- lists

  /** `LIST > file words`: the list, the first word and the rest. */
  datatype Item = Item(list: string, first: string, words: string)

  /** The walk back along the moves from `from`, until a file whose entry was
      there before, the start of the moves, or a file seen already. */
  function TraceFrom(was: set<Item>, moves: map<string, string>, e: Item, from: string, seen: set<string>): Item
    requires seen <= moves.Values && from in moves.Values
    decreases moves.Values - seen
  {
    if from == "" || from in seen then e
    else
      var past := e.(first := from);
      if past in was then past
      else if from !in moves then e
      else TraceFrom(was, moves, e, moves[from], seen + {from})
  }

  /** The entry that an entry is, under the name it had before. */
  function Traced(was: set<Item>, moves: map<string, string>, e: Item): Item {
    if e in was then e
    else if e.first !in moves then e
    else TraceFrom(was, moves, e, moves[e.first], {})
  }

  method Trace(was: set<Item>, moves: map<string, string>, e: Item) returns (past: Item)
    ensures past == Traced(was, moves, e)
  {
    if e in was {
      return e;
    }
    if e.first !in moves {
      return e;
    }
    var seen: set<string> := {};
    var from := moves[e.first];
    while from != "" && from !in seen
      invariant seen <= moves.Values && from in moves.Values
      invariant Traced(was, moves, e) == TraceFrom(was, moves, e, from, seen)
      decreases moves.Values - seen
    {
      seen := seen + {from};
      var candidate := e.(first := from);
      if candidate in was {
        return candidate;
      }
      if from !in moves {
        return e;
      }
      from := moves[from];
    }
    return e;
  }

  /** n steps back along the moves. */
  function Back(moves: map<string, string>, f: string, n: nat): Option<string> {
    if n == 0 then Some(f)
    else match Back(moves, f, n - 1)
      case Some(g) => if g in moves && moves[g] != "" then Some(moves[g]) else None
      case None => None
  }

  /** Everything a walk has seen leads only to what it has seen or comes next. */
  ghost predicate Closed(moves: map<string, string>, seen: set<string>, from: string) {
    forall s | s in seen :: s != "" && (s in moves ==> moves[s] in seen || moves[s] == from || moves[s] == "")
  }

  lemma {:induction false} BackStaysSeen(moves: map<string, string>, seen: set<string>, f: string, n: nat)
    requires f in seen && forall s | s in seen && s in moves && moves[s] != "" :: moves[s] in seen
    ensures Back(moves, f, n).Some? ==> Back(moves, f, n).value in seen
  {
    if n > 0 {
      BackStaysSeen(moves, seen, f, n - 1);
    }
  }

  lemma {:induction false} BackShift(moves: map<string, string>, f: string, n: nat)
    requires f in moves && moves[f] != ""
    ensures Back(moves, f, n + 1) == Back(moves, moves[f], n)
  {
    if n > 0 {
      BackShift(moves, f, n - 1);
    }
  }

  /** The walk stops, also on moves that run in a circle, and finds an entry that
      was there before whenever some file back along the moves had one. */
  lemma {:induction false} TraceFinds(was: set<Item>, moves: map<string, string>, e: Item, from: string, seen: set<string>, n: nat)
    requires seen <= moves.Values && from in moves.Values && e !in was
    requires Closed(moves, seen, from) && forall s | s in seen :: e.(first := s) !in was
    ensures var past := TraceFrom(was, moves, e, from, seen);
            && (past in was || past == e) && past.list == e.list && past.words == e.words
            && (from != "" && Back(moves, from, n).Some? && e.(first := Back(moves, from, n).value) in was ==> past in was)
    decreases moves.Values - seen
  {
    if from == "" {
    } else if from in seen {
      BackStaysSeen(moves, seen, from, n);
    } else if e.(first := from) !in was {
      if from in moves {
        var next := moves[from];
        TraceFinds(was, moves, e, next, seen + {from}, if n > 0 then n - 1 else 0);
        if n > 0 && next != "" {
          BackShift(moves, from, n - 1);
        } else if n > 0 {
          BackEnds(moves, from, n);
        }
      } else if n > 0 {
        BackEnds(moves, from, n);
      }
    }
  }

  lemma {:induction false} BackEnds(moves: map<string, string>, f: string, n: nat)
    requires n > 0 && (f !in moves || moves[f] == "")
    ensures Back(moves, f, n) == None
  {
    if n > 1 {
      BackEnds(moves, f, n - 1);
    }
  }

  lemma TracedKeepsList(was: set<Item>, moves: map<string, string>, e: Item)
    ensures Traced(was, moves, e).list == e.list && (Traced(was, moves, e) in was || Traced(was, moves, e) == e)
  {
    if e !in was && e.first in moves {
      TraceFinds(was, moves, e, moves[e.first], {}, 0);
    }
  }

  lemma TracedFinds(was: set<Item>, moves: map<string, string>, e: Item, n: nat)
    requires Back(moves, e.first, n).Some? && e.(first := Back(moves, e.first, n).value) in was
    ensures Traced(was, moves, e) in was
  {
    assert e.(first := e.first) == e;
    if e !in was {
      assert n > 0;
      if e.first in moves && moves[e.first] != "" {
        BackShift(moves, e.first, n - 1);
        TraceFinds(was, moves, e, moves[e.first], {}, n - 1);
      } else {
        BackEnds(moves, e.first, n);
      }
    }
  }

  /** What the walk finds is the entry under the name of a file back along the
      moves, n steps from its own. */
  lemma {:induction false} TraceIsBack(was: set<Item>, moves: map<string, string>, e: Item, from: string, seen: set<string>, k: nat)
    returns (n: nat)
    requires seen <= moves.Values && from in moves.Values && e !in was
    requires from != "" ==> Back(moves, e.first, k) == Some(from)
    ensures var past := TraceFrom(was, moves, e, from, seen);
            past in was ==> Back(moves, e.first, n).Some? && past == e.(first := Back(moves, e.first, n).value)
    decreases moves.Values - seen
  {
    n := k;
    if from != "" && from !in seen && e.(first := from) !in was && from in moves {
      n := TraceIsBack(was, moves, e, moves[from], seen + {from}, k + 1);
    }
  }

  ghost predicate WasThereAs(was: set<Item>, moves: map<string, string>, e: Item, n: nat) {
    Back(moves, e.first, n).Some? && e.(first := Back(moves, e.first, n).value) in was
  }

  /** An entry is traced to one that was there before exactly when it was there
      itself or under the name of a file its own came from, in any number of
      moves; otherwise it stays itself. */
  lemma TracedExactly(was: set<Item>, moves: map<string, string>, e: Item)
    ensures Traced(was, moves, e) in was <==> exists n :: WasThereAs(was, moves, e, n)
    ensures Traced(was, moves, e) !in was ==> Traced(was, moves, e) == e
  {
    TracedKeepsList(was, moves, e);
    if n :| WasThereAs(was, moves, e, n) {
      TracedFinds(was, moves, e, n);
    }
    assert e.(first := e.first) == e;
    if e in was {
      assert WasThereAs(was, moves, e, 0);
    } else if e.first in moves {
      var n := TraceIsBack(was, moves, e, moves[e.first], {}, 1);
      assert Traced(was, moves, e) in was ==> WasThereAs(was, moves, e, n);
    }
  }

  // --------------------------------------------------------------- lists compared

  /** A list's entries in the order they are written. */
  type Listing = seq<(Item, Option<nat>)>

  function CountOf(c: Option<nat>): nat {
    if c.Some? then c.value else 0
  }

  /** Each entry's count under the entry it was before. */
  function ByPast(was: set<Item>, moves: map<string, string>, now: Listing, list: Option<string>): seq<Counted<Item>> {
    if now == [] then []
    else
      var (e, c) := now[|now| - 1];
      ByPast(was, moves, now[..|now| - 1], list)
      + if c.Some? && (list.None? || e.list == list.value) then [Counted(Traced(was, moves, e), c.value)] else []
  }

  datatype ListRise = Added(entry: Item) | Rose(entry: Item, excess: nat)

  function Items(l: Listing): set<Item> {
    set p | p in l :: p.0
  }

  /** The first count listed for an entry. */
  function Lookup(l: Listing, e: Item): nat {
    if l == [] then 0 else if l[|l| - 1].0 == e then CountOf(l[|l| - 1].1) else Lookup(l[..|l| - 1], e)
  }

  /** Every entry is one that was there, and no entry's count grew. */
  ghost predicate NoListRise(was: Listing, now: Listing, moves: map<string, string>) {
    && (forall p | p in now :: Traced(Items(was), moves, p.0) in Items(was))
    && (forall e :: SumOf(ByPast(Items(was), moves, now, None), e) <= Lookup(was, e))
  }

  function SumIn(sums: map<Item, nat>, e: Item): nat {
    if e in sums then sums[e] else 0
  }

  /** The sums for the entries that were there. */
  ghost predicate SumsAre(sums: map<Item, nat>, was: set<Item>, es: seq<Counted<Item>>) {
    sums.Keys <= was && forall e | e in was :: SumIn(sums, e) == SumOf(es, e)
  }

  lemma AddToSums(sums: map<Item, nat>, was: set<Item>, es: seq<Counted<Item>>, key: Item, count: nat)
    requires SumsAre(sums, was, es)
    ensures SumsAre(if key in was then sums[key := SumIn(sums, key) + count] else sums, was, es + [Counted(key, count)])
  {
    forall e | e in was
      ensures SumOf(es + [Counted(key, count)], e) == SumOf(es, e) + if e == key then count else 0
    {
      AddedLast(es, Counted(key, count), e);
    }
    hide SumOf;
  }

  lemma PastStep(was: set<Item>, moves: map<string, string>, now: Listing, i: nat)
    requires i < |now|
    ensures ByPast(was, moves, now[..i + 1], None)
         == ByPast(was, moves, now[..i], None)
            + if now[i].1.Some? then [Counted(Traced(was, moves, now[i].0), now[i].1.value)] else []
  {
    assert now[..i + 1][..i] == now[..i];
  }

  ghost predicate IsAdded(was: set<Item>, now: Listing, moves: map<string, string>, e: Item) {
    e in Items(now) && Traced(was, moves, e) !in was
  }

  /** More is counted under the old entry than it had, by this much. */
  ghost predicate HasRisen(was: Listing, now: Listing, moves: map<string, string>, e: Item, excess: nat) {
    && e in Items(was) && excess > 0
    && SumOf(ByPast(Items(was), moves, now, None), e) == Lookup(was, e) + excess
  }

  /** Each entry that was not there and each old entry whose count grew, with its
      excess, and nothing else. */
  method ListRises(was: Listing, now: Listing, moves: map<string, string>) returns (rises: seq<ListRise>)
    ensures forall e :: Added(e) in rises <==> IsAdded(Items(was), now, moves, e)
    ensures forall e, excess :: Rose(e, excess) in rises <==> HasRisen(was, now, moves, e, excess)
    ensures rises == [] <==> NoListRise(was, now, moves)
  {
    hide Traced, ByPast, SumOf, SumsAre, Lookup;
    var old_ := Items(was);
    var sums: map<Item, nat> := map[];
    rises := [];
    assert now[..0] == [];
    NoPast(old_, moves);
    for i := 0 to |now|
      invariant forall e :: Added(e) in rises <==> IsAdded(old_, now[..i], moves, e)
      invariant forall r | r in rises :: r.Added?
      invariant SumsAre(sums, old_, ByPast(old_, moves, now[..i], None))
    {
      var (entry, count) := now[i];
      var key := Trace(old_, moves, entry);
      PastStep(old_, moves, now, i);
      ghost var before := ByPast(old_, moves, now[..i], None);
      assert before + [] == before;
      assert now[..i + 1] == now[..i] + [now[i]];
      if count.Some? {
        AddToSums(sums, old_, before, key, count.value);
      }
      if key !in old_ {
        rises := rises + [Added(entry)];
      } else if count.Some? {
        sums := sums[key := SumIn(sums, key) + count.value];
      }
    }
    assert now[..|now|] == now;
    SumsHold(sums, old_, ByPast(old_, moves, now, None));
    ghost var added := rises;
    var keys := sums.Keys;
    while keys != {}
      invariant keys <= sums.Keys
      invariant forall e :: Added(e) in rises <==> Added(e) in added
      invariant forall e, excess :: Rose(e, excess) in rises <==>
        e in sums && e !in keys && excess > 0 && sums[e] == Lookup(was, e) + excess
    {
      var key :| key in keys;
      keys := keys - {key};
      if sums[key] > Lookup(was, key) {
        rises := rises + [Rose(key, sums[key] - Lookup(was, key))];
      }
    }
    forall e, excess
      ensures Rose(e, excess) in rises <==> HasRisen(was, now, moves, e, excess)
    {
      assert e in old_ ==> SumIn(sums, e) == SumOf(ByPast(old_, moves, now, None), e);
    }
    WhenNothingRose(was, now, moves, rises);
  }

  lemma NoPast(was: set<Item>, moves: map<string, string>)
    ensures SumsAre(map[], was, ByPast(was, moves, [], None))
  {
  }

  lemma SumsHold(sums: map<Item, nat>, was: set<Item>, es: seq<Counted<Item>>)
    requires SumsAre(sums, was, es)
    ensures sums.Keys <= was && forall e | e in was :: SumIn(sums, e) == SumOf(es, e)
  {
  }

  lemma OneOfEither(rises: seq<ListRise>)
    ensures rises == [] || (exists e :: Added(e) in rises) || exists e, excess :: Rose(e, excess) in rises
  {
    if rises != [] {
      var r := rises[0];
      assert r in rises && (r.Added? ==> r == Added(r.entry)) && (r.Rose? ==> r == Rose(r.entry, r.excess));
    }
  }

  lemma WhenNothingRose(was: Listing, now: Listing, moves: map<string, string>, rises: seq<ListRise>)
    requires forall e :: Added(e) in rises <==> IsAdded(Items(was), now, moves, e)
    requires forall e, excess :: Rose(e, excess) in rises <==> HasRisen(was, now, moves, e, excess)
    ensures rises == [] <==> NoListRise(was, now, moves)
  {
    hide Traced, ByPast, SumOf, Lookup;
    OneOfEither(rises);
    var items := Items(was);
    if rises == [] {
      forall p | p in now
        ensures Traced(items, moves, p.0) in items
      {
        assert p.0 in Items(now);
        assert Added(p.0) !in rises;
      }
      forall e
        ensures SumOf(ByPast(items, moves, now, None), e) <= Lookup(was, e)
      {
        if e in items {
          var sum, before := SumOf(ByPast(items, moves, now, None), e), Lookup(was, e);
          var excess := if sum > before then sum - before else 0;
          assert Rose(e, excess) !in rises;
        } else {
          NoneUnderIt(items, moves, now, e);
        }
      }
    }
    if NoListRise(was, now, moves) {
      assert forall e | IsAdded(items, now, moves, e) :: exists p | p in now :: p.0 == e;
    }
  }

  /** Nothing is summed under an entry that no entry is traced to. */
  lemma {:induction false} NoneUnderIt(was: set<Item>, moves: map<string, string>, now: Listing, e: Item)
    requires forall p | p in now :: Traced(was, moves, p.0) != e
    ensures SumOf(ByPast(was, moves, now, None), e) == 0
  {
    hide Traced, ByPast, SumOf, Total;
    if now != [] {
      var rest, last := now[..|now| - 1], now[|now| - 1];
      assert last in now && forall p :: p in rest ==> p in now;
      NoneUnderIt(was, moves, rest, e);
      LastPast(was, moves, now, None, e);
    } else {
      NoPastSums(was, moves, "", e);
    }
  }

  /** The counts of one list, added up. */
  function ListTotal(l: Listing, list: string): nat {
    if l == [] then 0
    else ListTotal(l[..|l| - 1], list) + if l[|l| - 1].0.list == list then CountOf(l[|l| - 1].1) else 0
  }

  function PastOfLast(was: set<Item>, moves: map<string, string>, now: Listing, list: Option<string>): seq<Counted<Item>>
    requires now != []
  {
    var (e, c) := now[|now| - 1];
    if c.Some? && (list.None? || e.list == list.value) then [Counted(Traced(was, moves, e), c.value)] else []
  }

  lemma LastPast(was: set<Item>, moves: map<string, string>, now: Listing, list: Option<string>, key: Item)
    requires now != []
    ensures var before, last := ByPast(was, moves, now[..|now| - 1], list), PastOfLast(was, moves, now, list);
            && SumOf(ByPast(was, moves, now, list), key)
               == SumOf(before, key) + (if last != [] && last[0].key == key then last[0].count else 0)
            && Total(ByPast(was, moves, now, list)) == Total(before) + (if last != [] then last[0].count else 0)
  {
    var before, last := ByPast(was, moves, now[..|now| - 1], list), PastOfLast(was, moves, now, list);
    assert ByPast(was, moves, now, list) == before + last;
    hide ByPast, PastOfLast, SumOf, Total;
    if last == [] {
      assert before + last == before;
    } else {
      AddedLast(before, last[0], key);
      assert last == [last[0]];
    }
  }

  lemma LastOfList(was: set<Item>, moves: map<string, string>, now: Listing, list: string)
    requires now != []
    ensures var one, all := PastOfLast(was, moves, now, Some(list)), PastOfLast(was, moves, now, None);
            && one == (if all != [] && all[0].key.list == list then all else [])
            && ListTotal(now, list) == ListTotal(now[..|now| - 1], list) + (if one != [] then one[0].count else 0)
  {
    TracedKeepsList(was, moves, now[|now| - 1].0);
    hide Traced;
  }

  lemma NoPastSums(was: set<Item>, moves: map<string, string>, list: string, e: Item)
    ensures SumOf(ByPast(was, moves, [], Some(list)), e) == SumOf(ByPast(was, moves, [], None), e) == 0
    ensures Total(ByPast(was, moves, [], Some(list))) == ListTotal([], list) == 0
  {
  }

  lemma {:induction false} PastSums(was: set<Item>, moves: map<string, string>, now: Listing, list: string, e: Item)
    ensures SumOf(ByPast(was, moves, now, Some(list)), e)
         == if e.list == list then SumOf(ByPast(was, moves, now, None), e) else 0
    ensures Total(ByPast(was, moves, now, Some(list))) == ListTotal(now, list)
  {
    NoPastSums(was, moves, list, e);
    hide ByPast, SumOf, Total, PastOfLast, ListTotal;
    if now != [] {
      PastSums(was, moves, now[..|now| - 1], list, e);
      LastPast(was, moves, now, Some(list), e);
      LastPast(was, moves, now, None, e);
      LastOfList(was, moves, now, list);
    }
  }

  ghost predicate DistinctItems(l: Listing) {
    forall i, j | 0 <= i < j < |l| :: l[i].0 != l[j].0
  }

  lemma {:induction false} OwnSums(l: Listing, e: Item)
    requires DistinctItems(l)
    ensures SumOf(ByPast(Items(l), map[], l, None), e) == Lookup(l, e)
  {
    OwnSumsIn(Items(l), l, e);
  }

  lemma {:induction false} OwnSumsIn(was: set<Item>, l: Listing, e: Item)
    requires DistinctItems(l) && Items(l) <= was
    ensures SumOf(ByPast(was, map[], l, None), e) == Lookup(l, e)
    ensures e !in Items(l) ==> Lookup(l, e) == 0
  {
    if l != [] {
      var rest, last := l[..|l| - 1], l[|l| - 1];
      assert l == rest + [last] && last in l;
      assert Items(rest) <= Items(l);
      OwnSumsIn(was, rest, e);
      assert last.0 !in Items(rest);
      LastPast(was, map[], l, None, e);
      hide ByPast, SumOf, Items;
    }
  }

  lemma NoRiseKeepsListTotals(was: Listing, now: Listing, moves: map<string, string>, list: string)
    requires DistinctItems(was) && NoListRise(was, now, moves)
    ensures ListTotal(now, list) <= ListTotal(was, list)
  {
    var items := Items(was);
    var a, b := ByPast(items, moves, now, Some(list)), ByPast(items, map[], was, Some(list));
    forall e | HasKey(a, e)
      ensures SumOf(a, e) <= SumOf(b, e)
    {
      PastSums(items, moves, now, list, e);
      PastSums(items, map[], was, list, e);
      OwnSums(was, e);
    }
    TotalsFollowSums(a, b);
    PastSums(items, moves, now, list, Item("", "", ""));
    PastSums(items, map[], was, list, Item("", "", ""));
  }

  /** Along any run of commits without a rise, whatever the move maps, no list's
      total count ever grows. */
  lemma {:induction false} ListsNeverGrow(ls: seq<Listing>, moves: seq<map<string, string>>, list: string, i: nat, j: nat)
    requires |moves| == |ls| && i <= j < |ls| && forall k | 0 <= k < |ls| :: DistinctItems(ls[k])
    requires forall k | 0 < k < |ls| :: NoListRise(ls[k - 1], ls[k], moves[k])
    ensures ListTotal(ls[j], list) <= ListTotal(ls[i], list)
    decreases j
  {
    if i < j {
      ListsNeverGrow(ls, moves, list, i, j - 1);
      assert NoListRise(ls[j - 1], ls[j], moves[j]);
      NoRiseKeepsListTotals(ls[j - 1], ls[j], moves[j], list);
    }
  }

  /** Only counts are summed: two entries without one can both be the same old
      entry, and the list is longer without a rise. */
  lemma UncountedEntriesCanMultiply()
    ensures var was: Listing := [(Item("KNOWN", "a.ts", ""), None)];
            var now: Listing := [(Item("KNOWN", "b.ts", ""), None), (Item("KNOWN", "c.ts", ""), None)];
            DistinctItems(now) && NoListRise(was, now, map["b.ts" := "a.ts", "c.ts" := "a.ts"]) && |now| > |was|
  {
    var a, b, c := Item("KNOWN", "a.ts", ""), Item("KNOWN", "b.ts", ""), Item("KNOWN", "c.ts", "");
    var was: Listing := [(a, None)];
    var now: Listing := [(b, None), (c, None)];
    var moves := map["b.ts" := "a.ts", "c.ts" := "a.ts"];
    assert was[0] in was && Items(was) == {a};
    assert Traced({a}, moves, b) == a == Traced({a}, moves, c);
    assert now[..1] == [(b, None)] && now[..1][..0] == [];
    assert ByPast({a}, moves, now[..1], None) == [];
    assert ByPast({a}, moves, now, None) == [];
  }

  /** Every entry of the listing is one that was there, with no larger count. */
  ghost predicate Shrunk(was: Listing, now: Listing) {
    forall p | p in now :: p.0 in Items(was) && CountOf(p.1) <= Lookup(was, p.0)
  }

  /** Dropping entries and lowering counts is never a rise. */
  lemma ShrinkingIsNoRise(was: Listing, now: Listing, moves: map<string, string>)
    requires DistinctItems(now) && Shrunk(was, now)
    ensures NoListRise(was, now, moves)
  {
    forall e
      ensures SumOf(ByPast(Items(was), moves, now, None), e) <= Lookup(was, e)
    {
      ShrunkSums(was, now, moves, e);
    }
  }

  lemma {:induction false} ShrunkSums(was: Listing, now: Listing, moves: map<string, string>, e: Item)
    requires DistinctItems(now) && Shrunk(was, now)
    ensures SumOf(ByPast(Items(was), moves, now, None), e) <= if e in Items(now) then Lookup(was, e) else 0
  {
    if now != [] {
      var rest, last := now[..|now| - 1], now[|now| - 1];
      assert now == rest + [last] && last in now;
      ShrunkSums(was, rest, moves, e);
      assert last.0 !in Items(rest);
      LastPast(Items(was), moves, now, None, e);
      assert Traced(Items(was), moves, last.0) == last.0;
      hide ByPast, SumOf, Traced, Lookup;
    }
  }

  /** The entries of one list. */
  function EntriesOf(l: Listing, list: string): seq<Item> {
    if l == [] then []
    else EntriesOf(l[..|l| - 1], list) + if l[|l| - 1].0.list == list then [l[|l| - 1].0] else []
  }

  /** The old entries they are. */
  function Pasts(was: set<Item>, moves: map<string, string>, now: Listing, list: string): (r: seq<Item>)
    ensures |r| == |EntriesOf(now, list)|
  {
    if now == [] then []
    else
      var e := now[|now| - 1].0;
      Pasts(was, moves, now[..|now| - 1], list) + if e.list == list then [Traced(was, moves, e)] else []
  }

  lemma {:induction false} EntriesListed(l: Listing, list: string, e: Item)
    ensures e in EntriesOf(l, list) <==> e in Items(l) && e.list == list
  {
    if l != [] {
      var rest, last := l[..|l| - 1], l[|l| - 1];
      assert l == rest + [last];
      EntriesListed(rest, list, e);
    }
  }

  lemma {:induction false} EntriesDistinct(l: Listing, list: string)
    requires DistinctItems(l)
    ensures NoDuplicates(EntriesOf(l, list))
  {
    if l != [] {
      var rest, last := l[..|l| - 1], l[|l| - 1];
      EntriesDistinct(rest, list);
      EntriesListed(rest, list, last.0);
      assert last.0 !in Items(rest);
    }
  }

  lemma {:induction false} PastsListed(was: set<Item>, moves: map<string, string>, now: Listing, list: string, past: Item)
    ensures past in Pasts(was, moves, now, list)
       <==> past.list == list && exists p | p in now :: Traced(was, moves, p.0) == past
  {
    if now != [] {
      var rest, last := now[..|now| - 1], now[|now| - 1];
      assert now == rest + [last];
      PastsListed(was, moves, rest, list, past);
      TracedKeepsList(was, moves, last.0);
      hide Traced;
      if past == Traced(was, moves, last.0) {
        assert last in now;
      }
      if p :| p in rest && Traced(was, moves, p.0) == past {
        assert p in now;
      }
    }
  }

  /** Only those entries of a listing. */
  function Kept(was: Listing, keep: set<Item>): (r: Listing)
    ensures forall p :: p in r <==> p in was && p.0 in keep
    ensures DistinctItems(was) ==> DistinctItems(r)
  {
    if was == [] then []
    else
      var rest := Kept(was[..|was| - 1], keep);
      assert was == was[..|was| - 1] + [was[|was| - 1]];
      rest + if was[|was| - 1].0 in keep then [was[|was| - 1]] else []
  }

  lemma {:induction false} KeptCounts(was: Listing, keep: set<Item>, e: Item)
    ensures Lookup(Kept(was, keep), e) == if e in keep then Lookup(was, e) else 0
  {
    if was != [] {
      var rest, last := Kept(was[..|was| - 1], keep), was[|was| - 1];
      KeptCounts(was[..|was| - 1], keep, e);
      if last.0 in keep {
        assert Kept(was, keep) == rest + [last];
        assert (rest + [last])[..|rest|] == rest;
      } else {
        assert Kept(was, keep) == rest;
      }
    }
  }

  /** A walk that ends at an entry of the part ends there on the part alone. */
  lemma {:induction false} WalkOnPart(was: set<Item>, part: set<Item>, moves: map<string, string>, e: Item, from: string, seen: set<string>)
    requires part <= was && seen <= moves.Values && from in moves.Values
    requires TraceFrom(was, moves, e, from, seen) in part
    ensures TraceFrom(part, moves, e, from, seen) == TraceFrom(was, moves, e, from, seen)
    decreases moves.Values - seen
  {
    if from != "" && from !in seen && e.(first := from) !in was && from in moves {
      WalkOnPart(was, part, moves, e, moves[from], seen + {from});
    }
  }

  lemma TracedOnPart(was: set<Item>, part: set<Item>, moves: map<string, string>, e: Item)
    requires part <= was && Traced(was, moves, e) in part
    ensures Traced(part, moves, e) == Traced(was, moves, e)
  {
    if e !in was && e.first in moves {
      WalkOnPart(was, part, moves, e, moves[e.first], {});
    }
  }

  ghost predicate TracedAlike(was: set<Item>, part: set<Item>, now: Listing, moves: map<string, string>) {
    forall p | p in now :: Traced(part, moves, p.0) == Traced(was, moves, p.0)
  }

  lemma {:induction false} SamePasts(was: set<Item>, part: set<Item>, now: Listing, moves: map<string, string>, list: string)
    requires TracedAlike(was, part, now, moves)
    ensures Pasts(part, moves, now, list) == Pasts(was, moves, now, list)
    ensures ByPast(part, moves, now, None) == ByPast(was, moves, now, None)
  {
    hide Traced;
    if now != [] {
      assert now[|now| - 1] in now && forall p :: p in now[..|now| - 1] ==> p in now;
      SamePasts(was, part, now[..|now| - 1], moves, list);
    }
  }

  /** A part of the old listing that tells the same of the new one: every entry is
      the same old entry, and nothing has risen. */
  ghost predicate TellsTheSame(was: Listing, part: Listing, now: Listing, moves: map<string, string>) {
    && (forall p | p in part :: p in was) && DistinctItems(part)
    && TracedAlike(Items(was), Items(part), now, moves) && NoListRise(part, now, moves)
  }

  lemma TellsItself(was: Listing, now: Listing, moves: map<string, string>)
    requires DistinctItems(was) && NoListRise(was, now, moves)
    ensures TellsTheSame(was, was, now, moves)
  {
    hide Traced, ByPast, Lookup, SumOf;
  }

  lemma PastsFitIn(was: Listing, part: Listing, now: Listing, moves: map<string, string>, list: string)
    requires NoDuplicates(Pasts(Items(was), moves, now, list)) && TellsTheSame(was, part, now, moves)
    ensures |EntriesOf(now, list)| <= |EntriesOf(part, list)|
  {
    var pasts, entries := Pasts(Items(was), moves, now, list), EntriesOf(part, list);
    hide Traced, ByPast, Pasts, EntriesOf, Lookup, SumOf;
    forall e | e in pasts
      ensures e in entries
    {
      PastsListed(Items(was), moves, now, list, e);
      var p :| p in now && Traced(Items(was), moves, p.0) == e;
      EntriesListed(part, list, e);
    }
    DistinctElements(pasts);
    SubsetIsSmaller(Elements(pasts), Elements(entries));
    ElementsAtMostLength(entries);
  }

  /** What is left of the old listing when only the entries that the new ones are
      stay tells the same. */
  lemma PastsTellTheSame(was: Listing, now: Listing, moves: map<string, string>, keep: set<Item>)
    requires DistinctItems(was) && NoListRise(was, now, moves)
    requires forall e :: e in keep <==> exists p | p in now :: Traced(Items(was), moves, p.0) == e
    ensures TellsTheSame(was, Kept(was, keep), now, moves) && Items(Kept(was, keep)) == keep
  {
    hide Traced, ByPast, Kept, Lookup, SumOf;
    var items, part := Items(was), Kept(was, keep);
    forall e
      ensures e in Items(part) <==> e in keep
    {
      if e in keep {
        var p :| p in was && p.0 == e;
        assert p in part;
      }
    }
    forall p | p in now
      ensures Traced(items, moves, p.0) in keep && Traced(keep, moves, p.0) == Traced(items, moves, p.0)
    {
      assert keep <= items;
      TracedOnPart(items, keep, moves, p.0);
    }
    SamePasts(items, keep, now, moves, "");
    forall e
      ensures SumOf(ByPast(keep, moves, now, None), e) <= Lookup(part, e)
    {
      KeptCounts(was, keep, e);
      if e !in keep {
        NoneUnderIt(items, moves, now, e);
      }
    }
    assert Items(part) == keep && TracedAlike(items, keep, now, moves);
    assert NoListRise(part, now, moves);
  }

  /** With no rise, a list's entries are different old entries if and only if the
      list is no longer than in any part of the old listing that tells the same. */
  lemma DistinctPastsExactly(was: Listing, now: Listing, moves: map<string, string>, list: string)
    requires DistinctItems(was) && NoListRise(was, now, moves)
    ensures NoDuplicates(Pasts(Items(was), moves, now, list))
       <==> forall part | TellsTheSame(was, part, now, moves) :: |EntriesOf(now, list)| <= |EntriesOf(part, list)|
  {
    hide Traced, Pasts, EntriesOf, NoDuplicates, TellsTheSame, NoListRise;
    var pasts := Pasts(Items(was), moves, now, list);
    if NoDuplicates(pasts) {
      forall part | TellsTheSame(was, part, now, moves)
        ensures |EntriesOf(now, list)| <= |EntriesOf(part, list)|
      {
        PastsFitIn(was, part, now, moves, list);
      }
    } else {
      var part := ShorterPart(was, now, moves, list);
    }
  }

  lemma ShorterPart(was: Listing, now: Listing, moves: map<string, string>, list: string) returns (part: Listing)
    requires DistinctItems(was) && NoListRise(was, now, moves)
    requires !NoDuplicates(Pasts(Items(was), moves, now, list))
    ensures TellsTheSame(was, part, now, moves) && |EntriesOf(part, list)| < |EntriesOf(now, list)|
  {
    hide Traced, ByPast, Pasts, EntriesOf, NoDuplicates, NoListRise, Kept, DistinctItems;
    var pasts := Pasts(Items(was), moves, now, list);
    var keep := set p | p in now :: Traced(Items(was), moves, p.0);
    part := Kept(was, keep);
    PastsTellTheSame(was, now, moves, keep);
    EntriesDistinct(part, list);
    forall e
      ensures e in EntriesOf(part, list) <==> e in pasts
    {
      EntriesListed(part, list, e);
      PastsListed(Items(was), moves, now, list, e);
    }
    assert Elements(EntriesOf(part, list)) == Elements(pasts);
    DistinctElements(EntriesOf(part, list));
    DuplicateIsLost(pasts);
  }

  /** Along any run of commits without a rise in which a list's entries are
      different old entries each time, the list never has more entries. */
  lemma {:induction false} ListsNeverLengthen(ls: seq<Listing>, moves: seq<map<string, string>>, list: string, i: nat, j: nat)
    requires |moves| == |ls| && i <= j < |ls| && forall k | 0 <= k < |ls| :: DistinctItems(ls[k])
    requires forall k | 0 < k < |ls| ::
               NoListRise(ls[k - 1], ls[k], moves[k]) && NoDuplicates(Pasts(Items(ls[k - 1]), moves[k], ls[k], list))
    ensures |EntriesOf(ls[j], list)| <= |EntriesOf(ls[i], list)|
    decreases j
  {
    hide EntriesOf, Pasts, DistinctItems, NoListRise, NoDuplicates, Items;
    if i < j {
      ListsNeverLengthen(ls, moves, list, i, j - 1);
      assert NoListRise(ls[j - 1], ls[j], moves[j]);
      NoLonger(ls[j - 1], ls[j], moves[j], list);
    }
  }

  lemma NoLonger(was: Listing, now: Listing, moves: map<string, string>, list: string)
    requires DistinctItems(was) && NoListRise(was, now, moves) && NoDuplicates(Pasts(Items(was), moves, now, list))
    ensures |EntriesOf(now, list)| <= |EntriesOf(was, list)|
  {
    hide Traced, ByPast, Lookup, SumOf;
    TellsItself(was, now, moves);
    PastsFitIn(was, was, now, moves, list);
  }

  /** A listing grows no longer when its entries are different old entries. */
  lemma DistinctPastsDoNotMultiply(was: Listing, now: Listing, moves: map<string, string>)
    requires NoListRise(was, now, moves)
    requires forall i, j | 0 <= i < j < |now| :: Traced(Items(was), moves, now[i].0) != Traced(Items(was), moves, now[j].0)
    ensures |now| <= |was|
  {
    var items := Items(was);
    var pasts := seq(|now|, i requires 0 <= i < |now| => Traced(items, moves, now[i].0));
    DistinctElements(pasts);
    assert forall i | 0 <= i < |now| :: now[i] in now;
    SubsetIsSmaller(Elements(pasts), items);
    var names := seq(|was|, i requires 0 <= i < |was| => was[i].0);
    ElementsAtMostLength(names);
    forall e | e in items
      ensures e in Elements(names)
    {
      var p :| p in was && p.0 == e;
      var i :| 0 <= i < |was| && was[i] == p;
      assert names[i] == e;
    }
    SubsetIsSmaller(items, Elements(names));
  }
}
