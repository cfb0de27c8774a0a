/** The JSON ratchets: lint suppressions, the calculation register and recorded
    function lengths, each compared with its copy at the base commit. */
module Counts {
  import opened Lists

  // --------------------------------------------------------------- suppressions

  datatype Suppression = Suppression(file: string, rule: string, count: nat)

  /** Which group a file is in, on one comparison. */
  type Grouping = string -> string

  /** A file's group and a rule. */
  type Cell = (string, string)

  function ByCell(side: seq<Suppression>, group: Grouping): (es: seq<Counted<Cell>>)
    ensures |es| == |side|
  {
    seq(|side|, i requires 0 <= i < |side| => Counted((group(side[i].file), side[i].rule), side[i].count))
  }

  datatype Rise = Rise(cell: Cell, excess: nat)

  /** A rise for each group and rule whose count is larger than at the base. */
  method SuppressionRises(base: seq<Suppression>, head: seq<Suppression>, group: Grouping) returns (rises: seq<Rise>)
    ensures forall r | r in rises ::
              SumOf(ByCell(head, group), r.cell) == SumOf(ByCell(base, group), r.cell) + r.excess && r.excess > 0
    ensures forall c | SumOf(ByCell(head, group), c) > SumOf(ByCell(base, group), c) :: exists r | r in rises :: r.cell == c
    ensures rises == [] <==> NoSuppressionRise(base, head, group)
  {
    hide SumOf, ByCell, HasKey;
    var was := SumsByKey(ByCell(base, group));
    var now := SumsByKey(ByCell(head, group));
    rises := [];
    var cells := now.Keys;
    while cells != {}
      invariant cells <= now.Keys
      invariant forall r | r in rises ::
        SumOf(ByCell(head, group), r.cell) == SumOf(ByCell(base, group), r.cell) + r.excess && r.excess > 0
      invariant forall c | c in now && c !in cells && SumOf(ByCell(head, group), c) > SumOf(ByCell(base, group), c) ::
        exists r | r in rises :: r.cell == c
    {
      var c :| c in cells;
      cells := cells - {c};
      var before := if c in was then was[c] else 0;
      if now[c] > before {
        ghost var prev := rises;
        rises := rises + [Rise(c, now[c] - before)];
        assert rises[|prev|].cell == c;
        assert forall r | r in prev :: r in rises;
      }
    }
    assert rises != [] ==> rises[0] in rises;
  }

  /** A rule's count over the whole repository. */
  function RuleTotal(side: seq<Suppression>, rule: string): nat {
    if side == [] then 0
    else
      var last := side[|side| - 1];
      RuleTotal(side[..|side| - 1], rule) + if last.rule == rule then last.count else 0
  }

  /** One rule's counts, by group. */
  function OfRule(side: seq<Suppression>, group: Grouping, rule: string): seq<Counted<string>> {
    if side == [] then []
    else
      var last := side[|side| - 1];
      OfRule(side[..|side| - 1], group, rule) + if last.rule == rule then [Counted(group(last.file), last.count)] else []
  }

  lemma LastCell(side: seq<Suppression>, group: Grouping)
    requires side != []
    ensures var last := side[|side| - 1];
            ByCell(side, group) == ByCell(side[..|side| - 1], group) + [Counted((group(last.file), last.rule), last.count)]
  {
  }

  lemma {:induction false} OfRuleSums(side: seq<Suppression>, group: Grouping, rule: string, g: string)
    ensures SumOf(OfRule(side, group, rule), g) == SumOf(ByCell(side, group), (g, rule))
    ensures Total(OfRule(side, group, rule)) == RuleTotal(side, rule)
  {
    if side != [] {
      var rest, last := side[..|side| - 1], side[|side| - 1];
      OfRuleSums(rest, group, rule, g);
      LastCell(side, group);
      hide SumOf, Total, ByCell;
      AddedLast(ByCell(rest, group), Counted((group(last.file), last.rule), last.count), (g, rule));
      var kept := OfRule(rest, group, rule);
      AddedLast(kept, Counted(group(last.file), last.count), g);
      assert kept + [] == kept;
    }
  }

  /** No group's count of a rule is larger than at the base. */
  ghost predicate NoSuppressionRise(base: seq<Suppression>, head: seq<Suppression>, group: Grouping) {
    forall c :: SumOf(ByCell(head, group), c) <= SumOf(ByCell(base, group), c)
  }

  lemma NoRiseKeepsTotals(base: seq<Suppression>, head: seq<Suppression>, group: Grouping, rule: string)
    requires NoSuppressionRise(base, head, group)
    ensures RuleTotal(head, rule) <= RuleTotal(base, rule)
  {
    var a, b := OfRule(head, group, rule), OfRule(base, group, rule);
    forall g | HasKey(a, g)
      ensures SumOf(a, g) <= SumOf(b, g)
    {
      OfRuleSums(head, group, rule, g);
      OfRuleSums(base, group, rule, g);
    }
    OfRuleSums(head, group, rule, "");
    OfRuleSums(base, group, rule, "");
    TotalsFollowSums(a, b);
  }

  /** Along any run of commits without a reported rise, whatever each one's move
      map joined, no rule's count over the repository ever grows. */
  lemma {:induction false} SuppressionsNeverGrow(sides: seq<seq<Suppression>>, groups: seq<Grouping>, rule: string, i: nat, j: nat)
    requires |groups| == |sides| && i <= j < |sides|
    requires forall k | 0 < k < |sides| :: NoSuppressionRise(sides[k - 1], sides[k], groups[k])
    ensures RuleTotal(sides[j], rule) <= RuleTotal(sides[i], rule)
    decreases j
  {
    if i < j {
      SuppressionsNeverGrow(sides, groups, rule, i, j - 1);
      assert NoSuppressionRise(sides[j - 1], sides[j], groups[j]);
      NoRiseKeepsTotals(sides[j - 1], sides[j], groups[j], rule);
    }
  }

  // -------------------------------------------------------------------- register

  datatype Risk = High | Medium | Low | Unknown

  datatype Export = Export(path: string, symbol: string)

  datatype Register = Register(risk: map<string, Risk>, high: seq<string>, exports: seq<Export>)

  function Order(r: Risk): nat {
    match r case High => 3 case Medium => 2 case Low => 1 case Unknown => 0
  }

  /** Entries of one list that are not in the other, for one symbol. */
  function Only(list: seq<Export>, other: set<Export>, symbol: string): nat {
    if list == [] then 0
    else
      var last := list[|list| - 1];
      Only(list[..|list| - 1], other, symbol) + if last.symbol == symbol && last !in other then 1 else 0
  }

  function OfSymbol(list: seq<Export>, symbol: string): seq<Export> {
    if list == [] then []
    else
      var last := list[|list| - 1];
      OfSymbol(list[..|list| - 1], symbol) + if last.symbol == symbol then [last] else []
  }

  /** Entries that are in the other list too, for one symbol. */
  function Both(list: seq<Export>, other: set<Export>, symbol: string): seq<Export> {
    if list == [] then []
    else
      var last := list[|list| - 1];
      Both(list[..|list| - 1], other, symbol) + if last.symbol == symbol && last in other then [last] else []
  }

  datatype RegisterRise = RiskLowered(id: string) | HighAdded(id: string) | ExportAdded(entry: Export)

  function AddedOf(rises: seq<RegisterRise>, symbol: string): nat {
    if rises == [] then 0
    else
      var last := rises[|rises| - 1];
      AddedOf(rises[..|rises| - 1], symbol) + if last.ExportAdded? && last.entry.symbol == symbol then 1 else 0
  }

  function Surplus(x: int, y: int): nat {
    if x > y then x - y else 0
  }

  function CountIn(counts: map<string, nat>, symbol: string): nat {
    if symbol in counts then counts[symbol] else 0
  }

  lemma NextOnly(list: seq<Export>, other: set<Export>, i: nat, symbol: string)
    requires i < |list|
    ensures Only(list[..i + 1], other, symbol)
         == Only(list[..i], other, symbol) + (if list[i].symbol == symbol && list[i] !in other then 1 else 0)
  {
    assert list[..i + 1][..i] == list[..i];
  }

  lemma NextAdded(rises: seq<RegisterRise>, e: Export, symbol: string)
    ensures AddedOf(rises + [ExportAdded(e)], symbol) == AddedOf(rises, symbol) + (if e.symbol == symbol then 1 else 0)
  {
    assert (rises + [ExportAdded(e)])[..|rises|] == rises;
  }

  ghost predicate FreedUpTo(base: seq<Export>, now: set<Export>, i: nat, freed: map<string, nat>)
    requires i <= |base|
  {
    forall s :: CountIn(freed, s) == Only(base[..i], now, s)
  }

  /** Each symbol's new exports have used up what it freed before any is a rise. */
  ghost predicate RisesUpTo(base: seq<Export>, now: set<Export>, head: seq<Export>, was: set<Export>, i: nat,
                            freed: map<string, nat>, rises: seq<RegisterRise>)
    requires i <= |head|
  {
    forall s ::
      && CountIn(freed, s) == Surplus(Only(base, now, s), Only(head[..i], was, s))
      && AddedOf(rises, s) == Surplus(Only(head[..i], was, s), Only(base, now, s))
  }

  /** The new exports that come after their symbol has used up the exports it
      lost, in the list's order. */
  function Unmatched(base: seq<Export>, now: set<Export>, head: seq<Export>, was: set<Export>): seq<RegisterRise> {
    if head == [] then []
    else
      var rest, last := head[..|head| - 1], head[|head| - 1];
      Unmatched(base, now, rest, was)
      + if last !in was && Only(rest, was, last.symbol) >= Only(base, now, last.symbol) then [ExportAdded(last)] else []
  }

  lemma NextUnmatched(base: seq<Export>, now: set<Export>, head: seq<Export>, was: set<Export>, i: nat)
    requires i < |head|
    ensures Unmatched(base, now, head[..i + 1], was)
         == Unmatched(base, now, head[..i], was)
            + if head[i] !in was && Only(head[..i], was, head[i].symbol) >= Only(base, now, head[i].symbol)
              then [ExportAdded(head[i])] else []
  {
    assert head[..i + 1][..i] == head[..i];
  }

  method ExportRises(base: seq<Export>, head: seq<Export>) returns (rises: seq<RegisterRise>)
    ensures rises == Unmatched(base, Elements(head), head, Elements(base))
    ensures forall s :: AddedOf(rises, s) == Surplus(Only(head, Elements(base), s), Only(base, Elements(head), s))
    ensures forall r | r in rises :: r.ExportAdded?
  {
    hide Only, AddedOf, FreedUpTo, RisesUpTo, Unmatched;
    var now, was := Elements(head), Elements(base);
    var freed: map<string, nat> := map[];
    NothingFreed(base, now);
    for i := 0 to |base|
      invariant FreedUpTo(base, now, i, freed)
    {
      FreeOne(base, now, i, freed);
      if base[i] !in now {
        freed := freed[base[i].symbol := CountIn(freed, base[i].symbol) + 1];
      }
    }
    rises := [];
    NoRises(base, now, head, was, freed);
    NoneUnmatched(base, now, head, was);
    for i := 0 to |head|
      invariant RisesUpTo(base, now, head, was, i, freed, rises)
      invariant rises == Unmatched(base, now, head[..i], was)
      invariant forall r | r in rises :: r.ExportAdded?
    {
      RiseOne(base, now, head, was, i, freed, rises);
      NextUnmatched(base, now, head, was, i);
      LeftOver(base, now, head, was, i, freed, rises);
      if head[i] !in was {
        var left := CountIn(freed, head[i].symbol);
        if left > 0 {
          freed := freed[head[i].symbol := left - 1];
        } else {
          rises := rises + [ExportAdded(head[i])];
        }
      }
    }
    AllRises(base, now, head, was, freed, rises);
    assert head[..|head|] == head;
  }

  lemma LeftOver(base: seq<Export>, now: set<Export>, head: seq<Export>, was: set<Export>, i: nat,
                 freed: map<string, nat>, rises: seq<RegisterRise>)
    requires i < |head| && RisesUpTo(base, now, head, was, i, freed, rises)
    ensures CountIn(freed, head[i].symbol) > 0 <==> Only(head[..i], was, head[i].symbol) < Only(base, now, head[i].symbol)
  {
    hide Only, AddedOf;
    assert CountIn(freed, head[i].symbol) == Surplus(Only(base, now, head[i].symbol), Only(head[..i], was, head[i].symbol));
  }

  lemma NoneUnmatched(base: seq<Export>, now: set<Export>, head: seq<Export>, was: set<Export>)
    ensures Unmatched(base, now, head[..0], was) == []
  {
  }

  lemma NothingFreed(base: seq<Export>, now: set<Export>)
    ensures FreedUpTo(base, now, 0, map[])
  {
  }

  lemma FreeOne(base: seq<Export>, now: set<Export>, i: nat, freed: map<string, nat>)
    requires i < |base| && FreedUpTo(base, now, i, freed)
    ensures FreedUpTo(base, now, i + 1,
                      if base[i] in now then freed else freed[base[i].symbol := CountIn(freed, base[i].symbol) + 1])
  {
    hide Only;
    var freed' := if base[i] in now then freed else freed[base[i].symbol := CountIn(freed, base[i].symbol) + 1];
    forall s
      ensures CountIn(freed', s) == Only(base[..i + 1], now, s)
    {
      NextOnly(base, now, i, s);
      assert CountIn(freed, s) == Only(base[..i], now, s);
    }
  }

  lemma NoRises(base: seq<Export>, now: set<Export>, head: seq<Export>, was: set<Export>, freed: map<string, nat>)
    requires FreedUpTo(base, now, |base|, freed)
    ensures RisesUpTo(base, now, head, was, 0, freed, [])
  {
    assert base[..|base|] == base;
  }

  lemma RiseOne(base: seq<Export>, now: set<Export>, head: seq<Export>, was: set<Export>, i: nat,
                freed: map<string, nat>, rises: seq<RegisterRise>)
    requires i < |head| && RisesUpTo(base, now, head, was, i, freed, rises)
    ensures var left := CountIn(freed, head[i].symbol);
            if head[i] in was then RisesUpTo(base, now, head, was, i + 1, freed, rises)
            else if left > 0 then RisesUpTo(base, now, head, was, i + 1, freed[head[i].symbol := left - 1], rises)
            else RisesUpTo(base, now, head, was, i + 1, freed, rises + [ExportAdded(head[i])])
  {
    hide Only, AddedOf;
    var left := CountIn(freed, head[i].symbol);
    var freed' := if head[i] in was || left == 0 then freed else freed[head[i].symbol := left - 1];
    var rises' := if head[i] in was || left > 0 then rises else rises + [ExportAdded(head[i])];
    forall s
      ensures CountIn(freed', s) == Surplus(Only(base, now, s), Only(head[..i + 1], was, s))
      ensures AddedOf(rises', s) == Surplus(Only(head[..i + 1], was, s), Only(base, now, s))
    {
      NextOnly(head, was, i, s);
      NextAdded(rises, head[i], s);
      assert CountIn(freed, s) == Surplus(Only(base, now, s), Only(head[..i], was, s));
    }
  }

  lemma AllRises(base: seq<Export>, now: set<Export>, head: seq<Export>, was: set<Export>,
                 freed: map<string, nat>, rises: seq<RegisterRise>)
    requires RisesUpTo(base, now, head, was, |head|, freed, rises)
    ensures forall s :: AddedOf(rises, s) == Surplus(Only(head, was, s), Only(base, now, s))
  {
    assert head[..|head|] == head;
  }

  /** No row's risk is lowered, nothing is added to the high-risk list, and each
      symbol has at most as many new exports as it lost. */
  ghost predicate NoRegisterRise(base: Register, head: Register) {
    && (forall id | id in head.risk && id in base.risk :: Order(head.risk[id]) >= Order(base.risk[id]))
    && Elements(head.high) <= Elements(base.high)
    && (forall s :: Only(head.exports, Elements(base.exports), s) <= Only(base.exports, Elements(head.exports), s))
  }

  predicate Lowered(base: Register, head: Register, id: string) {
    id in head.risk && id in base.risk && Order(head.risk[id]) < Order(base.risk[id])
  }

  /** Every lowered risk, every row added to the high-risk list and every unmatched
      new export, and nothing else. */
  method RegisterRises(base: Register, head: Register) returns (rises: seq<RegisterRise>)
    ensures forall id :: RiskLowered(id) in rises <==> Lowered(base, head, id)
    ensures forall id :: HighAdded(id) in rises <==> id in head.high && id !in base.high
    ensures var unmatched := Unmatched(base.exports, Elements(head.exports), head.exports, Elements(base.exports));
            |unmatched| <= |rises| && rises[|rises| - |unmatched|..] == unmatched
            && forall k | 0 <= k < |rises| - |unmatched| :: !rises[k].ExportAdded?
    ensures forall s :: AddedOf(rises, s)
                     == Surplus(Only(head.exports, Elements(base.exports), s), Only(base.exports, Elements(head.exports), s))
    ensures rises == [] <==> NoRegisterRise(base, head)
  {
    hide AddedOf, Only, Unmatched;
    rises := [];
    var ids := head.risk.Keys;
    while ids != {}
      invariant ids <= head.risk.Keys
      invariant forall r | r in rises :: r.RiskLowered?
      invariant forall id :: RiskLowered(id) in rises <==> Lowered(base, head, id) && id !in ids
    {
      var id :| id in ids;
      ids := ids - {id};
      if id in base.risk && Order(head.risk[id]) < Order(base.risk[id]) {
        rises := rises + [RiskLowered(id)];
      }
    }
    var wasHigh := Elements(base.high);
    for i := 0 to |head.high|
      invariant forall r | r in rises :: !r.ExportAdded?
      invariant forall id :: RiskLowered(id) in rises <==> Lowered(base, head, id)
      invariant forall id :: HighAdded(id) in rises <==> id in head.high[..i] && id !in base.high
    {
      assert head.high[..i + 1] == head.high[..i] + [head.high[i]];
      if head.high[i] !in wasHigh {
        rises := rises + [HighAdded(head.high[i])];
      }
    }
    assert head.high[..|head.high|] == head.high;
    var exports := ExportRises(base.exports, head.exports);
    NoneAdded(exports);
    forall s
      ensures AddedOf(rises + exports, s) == AddedOf(exports, s)
    {
      OthersAddNone(rises, exports, s);
    }
    WhenNoRise(base, head, rises, exports);
    rises := rises + exports;
  }

  lemma {:induction false} OthersAddNone(others: seq<RegisterRise>, exports: seq<RegisterRise>, s: string)
    requires forall r | r in others :: !r.ExportAdded?
    ensures AddedOf(others + exports, s) == AddedOf(exports, s)
    decreases |others| + |exports|
  {
    if exports != [] {
      var rest := exports[..|exports| - 1];
      OthersAddNone(others, rest, s);
      assert (others + exports)[..|others + exports| - 1] == others + rest;
    } else if others != [] {
      assert others + exports == others;
      assert others[|others| - 1] in others;
      OthersAddNone(others[..|others| - 1], [], s);
      assert others[..|others| - 1] + [] == others[..|others| - 1];
    } else {
      assert others + exports == [];
    }
  }

  lemma WhenNoRise(base: Register, head: Register, others: seq<RegisterRise>, exports: seq<RegisterRise>)
    requires forall r | r in others :: !r.ExportAdded?
    requires forall id :: RiskLowered(id) in others <==> Lowered(base, head, id)
    requires forall id :: HighAdded(id) in others <==> id in head.high && id !in base.high
    requires exports == [] <==> forall s :: AddedOf(exports, s) == 0
    requires forall s :: AddedOf(exports, s)
                      == Surplus(Only(head.exports, Elements(base.exports), s), Only(base.exports, Elements(head.exports), s))
    ensures others + exports == [] <==> NoRegisterRise(base, head)
  {
    hide AddedOf, Only;
    assert forall id :: id in head.high <==> id in Elements(head.high);
    OneOfEither(others);
    if others + exports == [] {
      assert others == [] && exports == [];
      forall s
        ensures Only(head.exports, Elements(base.exports), s) <= Only(base.exports, Elements(head.exports), s)
      {
        assert AddedOf(exports, s) == 0;
      }
      forall id | id in head.risk && id in base.risk
        ensures Order(head.risk[id]) >= Order(base.risk[id])
      {
        assert RiskLowered(id) !in others;
      }
      forall id | id in Elements(head.high)
        ensures id in Elements(base.high)
      {
        assert HighAdded(id) !in others;
      }
    }
  }

  lemma OneOfEither(others: seq<RegisterRise>)
    requires forall r | r in others :: !r.ExportAdded?
    ensures others == [] || exists id :: RiskLowered(id) in others || HighAdded(id) in others
  {
    if others != [] {
      var r := others[0];
      assert r in others && (r == RiskLowered(r.id) || r == HighAdded(r.id));
    }
  }

  lemma {:induction false} NoneAdded(rises: seq<RegisterRise>)
    requires forall r | r in rises :: r.ExportAdded?
    ensures rises == [] <==> forall s :: AddedOf(rises, s) == 0
  {
    if |rises| > 0 {
      var last := rises[|rises| - 1];
      assert last in rises;
      assert AddedOf(rises, last.entry.symbol) > 0;
    } else {
      assert rises == [];
    }
  }

  lemma {:induction false} SplitBySide(list: seq<Export>, other: set<Export>, symbol: string)
    ensures |OfSymbol(list, symbol)| == Only(list, other, symbol) + |Both(list, other, symbol)|
  {
    if list != [] {
      SplitBySide(list[..|list| - 1], other, symbol);
    }
  }

  lemma {:induction false} BothMembers(list: seq<Export>, other: set<Export>, symbol: string, e: Export)
    ensures e in Both(list, other, symbol) <==> e in list && e.symbol == symbol && e in other
  {
    if list != [] {
      var rest, last := list[..|list| - 1], list[|list| - 1];
      BothMembers(rest, other, symbol, e);
      assert e in list <==> e in rest || e == last;
    }
  }

  lemma {:induction false} BothDistinct(list: seq<Export>, other: set<Export>, symbol: string)
    requires NoDuplicates(list)
    ensures NoDuplicates(Both(list, other, symbol))
  {
    if list != [] {
      var rest, last := list[..|list| - 1], list[|list| - 1];
      BothDistinct(rest, other, symbol);
      BothMembers(rest, other, symbol, last);
      assert last !in rest;
    }
  }

  /** The unregistered exports of a symbol. */
  function Unregistered(r: Register, symbol: string): nat {
    |OfSymbol(r.exports, symbol)|
  }

  /** High is above medium, medium above low, and anything else below. */
  lemma RisksAreOrdered()
    ensures Order(High) > Order(Medium) > Order(Low) > Order(Unknown)
  {
  }

  /** Dropping rows and exports and keeping the risks is never a rise. */
  lemma ShrinkingRegisterIsNoRise(base: Register, head: Register)
    requires forall id | id in head.risk && id in base.risk :: head.risk[id] == base.risk[id]
    requires Elements(head.high) <= Elements(base.high) && Elements(head.exports) <= Elements(base.exports)
    ensures NoRegisterRise(base, head)
  {
    forall s
      ensures Only(head.exports, Elements(base.exports), s) == 0
    {
      NoneOnly(head.exports, Elements(base.exports), s);
    }
  }

  lemma {:induction false} OnlyPlace(list: seq<Export>, other: set<Export>, i: nat, symbol: string)
    requires i < |list| && forall k | 0 <= k < |list| && k != i :: list[k] in other
    ensures Only(list, other, symbol) == if list[i].symbol == symbol && list[i] !in other then 1 else 0
  {
    var rest := list[..|list| - 1];
    if i < |rest| {
      OnlyPlace(rest, other, i, symbol);
    } else {
      forall e | e in Elements(rest)
        ensures e in other
      {
        var k :| 0 <= k < |rest| && rest[k] == e;
        assert list[k] == e;
      }
      NoneOnly(rest, other, symbol);
    }
  }

  /** An export that moved keeps its entry: the new path is not a rise. */
  lemma MovedExportIsNoRise(base: Register, i: nat, path: string)
    requires i < |base.exports| && NoDuplicates(base.exports)
    ensures NoRegisterRise(base, base.(exports := base.exports[i := Export(path, base.exports[i].symbol)]))
  {
    var was, entry := base.exports[i], Export(path, base.exports[i].symbol);
    var moved := base.exports[i := entry];
    assert forall k | 0 <= k < |moved| && k != i :: moved[k] == base.exports[k] && base.exports[k] in base.exports && moved[k] in moved;
    forall s
      ensures Only(moved, Elements(base.exports), s) <= Only(base.exports, Elements(moved), s)
    {
      OnlyPlace(moved, Elements(base.exports), i, s);
      OnlyPlace(base.exports, Elements(moved), i, s);
      assert was in base.exports;
      if was in moved {
        var k :| 0 <= k < |moved| && moved[k] == was;
        assert k == i;
      }
    }
  }

  lemma NoRiseKeepsExports(base: Register, head: Register, symbol: string)
    requires NoRegisterRise(base, head) && NoDuplicates(head.exports)
    ensures Unregistered(head, symbol) <= Unregistered(base, symbol)
  {
    var was, now := Elements(base.exports), Elements(head.exports);
    SplitBySide(head.exports, was, symbol);
    SplitBySide(base.exports, now, symbol);
    var a, b := Both(head.exports, was, symbol), Both(base.exports, now, symbol);
    forall e
      ensures e in Elements(a) <==> e in Elements(b)
    {
      BothMembers(head.exports, was, symbol, e);
      BothMembers(base.exports, now, symbol, e);
    }
    assert Elements(a) == Elements(b);
    BothDistinct(head.exports, was, symbol);
    DistinctElements(a);
    ElementsAtMostLength(b);
  }

  /** Over any run without a rise, a row that is there throughout never has its risk
      lowered: what is high stays high, and what is medium never becomes low. */
  lemma {:induction false} RisksNeverLowered(rs: seq<Register>, id: string, i: nat, j: nat)
    requires i <= j < |rs| && forall k | 0 < k < |rs| :: NoRegisterRise(rs[k - 1], rs[k])
    requires forall k | 0 <= k < |rs| :: id in rs[k].risk
    ensures rs[i].risk[id] == High ==> rs[j].risk[id] == High
    ensures rs[i].risk[id] == Medium ==> rs[j].risk[id] == High || rs[j].risk[id] == Medium
    ensures rs[i].risk[id] == Low ==> rs[j].risk[id] != Unknown
    decreases j
  {
    hide NoRegisterRise;
    if i < j {
      RisksNeverLowered(rs, id, i, j - 1);
      assert NoRegisterRise(rs[j - 1], rs[j]);
      RiskNotLowered(rs[j - 1], rs[j], id);
    }
  }

  lemma RiskNotLowered(base: Register, head: Register, id: string)
    requires NoRegisterRise(base, head) && id in base.risk && id in head.risk
    ensures Order(head.risk[id]) >= Order(base.risk[id])
  {
  }

  /** Along any run of registers without a rise and without repeated entries, no
      symbol ever has more unregistered exports, and the high-risk list never
      gains a row. */
  lemma {:induction false} RegisterNeverGrows(rs: seq<Register>, symbol: string, i: nat, j: nat)
    requires i <= j < |rs| && forall k | 0 < k < |rs| :: NoRegisterRise(rs[k - 1], rs[k]) && NoDuplicates(rs[k].exports)
    ensures Unregistered(rs[j], symbol) <= Unregistered(rs[i], symbol)
    ensures Elements(rs[j].high) <= Elements(rs[i].high)
    decreases j
  {
    if i < j {
      RegisterNeverGrows(rs, symbol, i, j - 1);
      assert NoRegisterRise(rs[j - 1], rs[j]) && NoDuplicates(rs[j].exports);
      NoRiseKeepsExports(rs[j - 1], rs[j], symbol);
    }
  }

  lemma {:induction false} OfSymbolConcat(a: seq<Export>, b: seq<Export>, symbol: string)
    ensures |OfSymbol(a + b, symbol)| == |OfSymbol(a, symbol)| + |OfSymbol(b, symbol)|
    decreases |b|
  {
    if b == [] {
      assert a + b == a;
    } else {
      OfSymbolConcat(a, b[..|b| - 1], symbol);
      assert (a + b)[..|a + b| - 1] == a + b[..|b| - 1];
    }
  }

  lemma {:induction false} NoneOnly(list: seq<Export>, other: set<Export>, symbol: string)
    requires Elements(list) <= other
    ensures Only(list, other, symbol) == 0
  {
    if list != [] {
      assert list[|list| - 1] in Elements(list);
      forall e | e in Elements(list[..|list| - 1])
        ensures e in Elements(list)
      {
        assert e in list;
      }
      NoneOnly(list[..|list| - 1], other, symbol);
    }
  }

  /** The list without its place j, where it repeats an entry. */
  lemma OneRepeatLess(list: seq<Export>, i: nat, j: nat)
    requires i < j < |list| && list[i] == list[j]
    ensures var less := list[..j] + list[j + 1..];
            && Elements(less) == Elements(list)
            && |OfSymbol(list, list[j].symbol)| == |OfSymbol(less, list[j].symbol)| + 1
  {
    hide OfSymbol;
    var symbol := list[j].symbol;
    SameElements(list, i, j);
    assert list == list[..j] + [list[j]] + list[j + 1..];
    OfSymbolConcat(list[..j], list[j + 1..], symbol);
    OfSymbolConcat(list[..j], [list[j]], symbol);
    OfSymbolConcat(list[..j] + [list[j]], list[j + 1..], symbol);
    OfSymbolOne(list[j]);
  }

  lemma OfSymbolOne(e: Export)
    ensures OfSymbol([e], e.symbol) == [e]
  {
    assert [e][..0] == [];
  }

  lemma SameElements(list: seq<Export>, i: nat, j: nat)
    requires i < j < |list| && list[i] == list[j]
    ensures Elements(list[..j] + list[j + 1..]) == Elements(list)
  {
    var less := list[..j] + list[j + 1..];
    assert less[i] == list[j];
    assert forall k | 0 <= k < |list| && k != j :: list[k] == less[if k < j then k else k - 1];
  }

  /** A register can have more unregistered exports of a symbol than one it has no
      rise against if and only if it repeats an entry. */
  lemma RepeatsAreUnseen(head: Register)
    ensures NoDuplicates(head.exports)
       <==> forall base, s :: NoRegisterRise(base, head) ==> Unregistered(head, s) <= Unregistered(base, s)
  {
    hide OfSymbol, Only;
    if NoDuplicates(head.exports) {
      forall base, s | NoRegisterRise(base, head)
        ensures Unregistered(head, s) <= Unregistered(base, s)
      {
        NoRiseKeepsExports(base, head, s);
      }
    } else {
      var i, j :| 0 <= i < j < |head.exports| && head.exports[i] == head.exports[j];
      OneRepeatLess(head.exports, i, j);
      var base := head.(exports := head.exports[..j] + head.exports[j + 1..]);
      forall s
        ensures Only(head.exports, Elements(base.exports), s) == 0
      {
        NoneOnly(head.exports, Elements(base.exports), s);
      }
      assert NoRegisterRise(base, head);
      assert Unregistered(head, head.exports[j].symbol) > Unregistered(base, head.exports[j].symbol);
    }
  }

  /** A repeated entry is why they must not repeat: it grows a list unseen. */
  lemma RepeatedEntryIsUnseen()
    ensures var e := Export("src/a.ts", "f");
            var base, head := Register(map[], [], [e]), Register(map[], [], [e, e]);
            NoRegisterRise(base, head) && Unregistered(head, "f") > Unregistered(base, "f")
  {
    var e := Export("src/a.ts", "f");
    var base, head := Register(map[], [], [e]), Register(map[], [], [e, e]);
    assert [e, e][..1] == [e];
    assert Elements(head.exports) == {e} == Elements(base.exports);
    forall s
      ensures Only([e], {e}, s) == 0 && Only([e, e], {e}, s) == 0
    {
      assert Only([], {e}, s) == 0;
    }
    assert OfSymbol([], "f") == [] && OfSymbol([e], "f") == [e] && OfSymbol([e, e], "f") == [e, e];
  }

  // ------------------------------------------------------------ function lengths

  datatype Length = Length(file: string, fn: string, lines: nat)

  function ByGroup(side: seq<Length>, group: Grouping): (es: seq<Counted<string>>)
    ensures |es| == |side|
  {
    seq(|side|, i requires 0 <= i < |side| => Counted(group(side[i].file), side[i].lines))
  }

  /** The longest recorded function of a group. */
  function Longest(side: seq<Length>, group: Grouping, g: string): nat {
    if side == [] then 0
    else
      var last := side[|side| - 1];
      var before := Longest(side[..|side| - 1], group, g);
      if group(last.file) == g && last.lines > before then last.lines else before
  }

  /** The groups whose recorded functions grew in total or in length. */
  method FunctionRises(base: seq<Length>, head: seq<Length>, group: Grouping) returns (rises: set<string>)
    ensures forall g :: g in rises <==>
              HasKey(ByGroup(head, group), g)
              && (SumOf(ByGroup(head, group), g) > SumOf(ByGroup(base, group), g) || Longest(head, group, g) > Longest(base, group, g))
    ensures rises == {} <==> NoFunctionRise(base, head, group)
  {
    var was := SumsByKey(ByGroup(base, group));
    var now := SumsByKey(ByGroup(head, group));
    rises := {};
    var todo := now.Keys;
    while todo != {}
      invariant todo <= now.Keys
      invariant forall g :: g in rises <==>
        g in now && g !in todo
        && (SumOf(ByGroup(head, group), g) > SumOf(ByGroup(base, group), g) || Longest(head, group, g) > Longest(base, group, g))
    {
      var g :| g in todo;
      todo := todo - {g};
      var before := if g in was then was[g] else 0;
      if now[g] > before || Longest(head, group, g) > Longest(base, group, g) {
        rises := rises + {g};
      }
    }
  }

  ghost predicate NoFunctionRise(base: seq<Length>, head: seq<Length>, group: Grouping) {
    forall g | HasKey(ByGroup(head, group), g) ::
      SumOf(ByGroup(head, group), g) <= SumOf(ByGroup(base, group), g) && Longest(head, group, g) <= Longest(base, group, g)
  }

  function AllLines(side: seq<Length>): nat {
    if side == [] then 0 else AllLines(side[..|side| - 1]) + side[|side| - 1].lines
  }

  ghost predicate NoneLongerThan(side: seq<Length>, n: nat) {
    forall l | l in side :: l.lines <= n
  }

  lemma {:induction false} GroupsAddUp(side: seq<Length>, group: Grouping)
    ensures Total(ByGroup(side, group)) == AllLines(side)
    ensures forall l | l in side :: HasKey(ByGroup(side, group), group(l.file)) && l.lines <= Longest(side, group, group(l.file))
  {
    if side != [] {
      var rest, last := side[..|side| - 1], side[|side| - 1];
      GroupsAddUp(rest, group);
      assert side == rest + [last];
      assert ByGroup(side, group)[..|rest|] == ByGroup(rest, group);
    }
  }

  lemma {:induction false} LongestIsOne(side: seq<Length>, group: Grouping, g: string, n: nat)
    requires NoneLongerThan(side, n)
    ensures Longest(side, group, g) <= n
  {
    if side != [] {
      LongestIsOne(side[..|side| - 1], group, g, n);
    }
  }

  lemma NoRiseKeepsFunctions(base: seq<Length>, head: seq<Length>, group: Grouping, n: nat)
    requires NoFunctionRise(base, head, group)
    ensures AllLines(head) <= AllLines(base)
    ensures NoneLongerThan(base, n) ==> NoneLongerThan(head, n)
  {
    GroupsAddUp(head, group);
    GroupsAddUp(base, group);
    TotalsFollowSums(ByGroup(head, group), ByGroup(base, group));
    if NoneLongerThan(base, n) {
      forall l | l in head
        ensures l.lines <= n
      {
        LongestIsOne(base, group, group(l.file), n);
      }
    }
  }

  /** Along any run without a reported rise, the repository's recorded function
      lines never grow, and no recorded function is longer than the longest one
      there was. */
  lemma {:induction false} FunctionsNeverGrow(sides: seq<seq<Length>>, groups: seq<Grouping>, i: nat, j: nat, n: nat)
    requires |groups| == |sides| && i <= j < |sides|
    requires forall k | 0 < k < |sides| :: NoFunctionRise(sides[k - 1], sides[k], groups[k])
    ensures AllLines(sides[j]) <= AllLines(sides[i])
    ensures NoneLongerThan(sides[i], n) ==> NoneLongerThan(sides[j], n)
    decreases j
  {
    if i < j {
      FunctionsNeverGrow(sides, groups, i, j - 1, n);
      assert NoFunctionRise(sides[j - 1], sides[j], groups[j]);
      NoRiseKeepsFunctions(sides[j - 1], sides[j], groups[j], n);
    }
  }

  // ----------------------------------------------------------------- file lengths

  const FILE_LIMIT := 400

  datatype FileSize = FileSize(file: string, lines: nat)

  /** A file counts when it was recorded at the base or is over the limit: a new
      part within it is free. */
  function CountedLines(recorded: set<string>, f: FileSize): nat {
    if f.file in recorded || f.lines > FILE_LIMIT then f.lines else 0
  }

  function Files(side: seq<FileSize>): set<string> {
    set f | f in side :: f.file
  }

  function FilesByGroup(recorded: set<string>, side: seq<FileSize>, group: Grouping): (es: seq<Counted<string>>)
    ensures |es| == |side|
  {
    seq(|side|, i requires 0 <= i < |side| => Counted(group(side[i].file), CountedLines(recorded, side[i])))
  }

  /** No group's counted lines are more than it had recorded. */
  ghost predicate NoFileRise(base: seq<FileSize>, head: seq<FileSize>, group: Grouping) {
    forall g :: SumOf(FilesByGroup(Files(base), head, group), g) <= SumOf(FilesByGroup(Files(base), base, group), g)
  }

  /** The groups whose counted lines are more than at the base. */
  method FileRises(base: seq<FileSize>, head: seq<FileSize>, group: Grouping) returns (rises: set<string>)
    ensures forall g :: g in rises <==>
              SumOf(FilesByGroup(Files(base), head, group), g) > SumOf(FilesByGroup(Files(base), base, group), g)
    ensures rises == {} <==> NoFileRise(base, head, group)
  {
    hide SumOf, HasKey, FilesByGroup;
    var was := SumsByKey(FilesByGroup(Files(base), base, group));
    var now := SumsByKey(FilesByGroup(Files(base), head, group));
    rises := {};
    var todo := now.Keys;
    while todo != {}
      invariant todo <= now.Keys
      invariant forall g :: g in rises <==>
        g in now && g !in todo
        && SumOf(FilesByGroup(Files(base), head, group), g) > SumOf(FilesByGroup(Files(base), base, group), g)
    {
      var g :| g in todo;
      todo := todo - {g};
      if now[g] > (if g in was then was[g] else 0) {
        rises := rises + {g};
      }
    }
  }

  function LinesIn(recorded: set<string>, side: seq<FileSize>): nat {
    if side == [] then 0 else LinesIn(recorded, side[..|side| - 1]) + CountedLines(recorded, side[|side| - 1])
  }

  lemma {:induction false} FileGroupsAddUp(recorded: set<string>, side: seq<FileSize>, group: Grouping)
    ensures Total(FilesByGroup(recorded, side, group)) == LinesIn(recorded, side)
  {
    if side != [] {
      var rest := side[..|side| - 1];
      FileGroupsAddUp(recorded, rest, group);
      assert FilesByGroup(recorded, side, group)[..|rest|] == FilesByGroup(recorded, rest, group);
    }
  }

  /** In one commit without a rise, the files recorded before and those over the
      limit have no more lines together than were recorded. */
  lemma NoRiseKeepsFiles(base: seq<FileSize>, head: seq<FileSize>, group: Grouping)
    requires NoFileRise(base, head, group)
    ensures LinesIn(Files(base), head) <= LinesIn(Files(base), base)
  {
    hide FilesByGroup;
    TotalsFollowSums(FilesByGroup(Files(base), head, group), FilesByGroup(Files(base), base, group));
    FileGroupsAddUp(Files(base), head, group);
    FileGroupsAddUp(Files(base), base, group);
  }

  /** All recorded lines. */
  function Recorded(side: seq<FileSize>): nat {
    if side == [] then 0 else Recorded(side[..|side| - 1]) + side[|side| - 1].lines
  }

  /** The lines of files not recorded before and within the limit. */
  function FreeLines(recorded: set<string>, side: seq<FileSize>): nat {
    if side == [] then 0
    else
      var last := side[|side| - 1];
      FreeLines(recorded, side[..|side| - 1]) + if last.file !in recorded && last.lines <= FILE_LIMIT then last.lines else 0
  }

  lemma {:induction false} CountedOrFree(recorded: set<string>, side: seq<FileSize>)
    ensures Recorded(side) == LinesIn(recorded, side) + FreeLines(recorded, side)
    ensures Files(side) <= recorded ==> FreeLines(recorded, side) == 0
  {
    if side != [] {
      CountedOrFree(recorded, side[..|side| - 1]);
      assert side[|side| - 1].file in Files(side);
      assert Files(side[..|side| - 1]) <= Files(side);
    }
  }

  /** In one commit without a rise, the recorded total grows by no more than the
      lines of its new files within the limit. */
  lemma OnlyFreeLinesAreGained(base: seq<FileSize>, head: seq<FileSize>, group: Grouping)
    requires NoFileRise(base, head, group)
    ensures Recorded(head) <= Recorded(base) + FreeLines(Files(base), head)
  {
    NoRiseKeepsFiles(base, head, group);
    CountedOrFree(Files(base), head);
    CountedOrFree(Files(base), base);
  }

  /** The lines of new files within the limit, over the commits after i up to j. */
  function FreeOver(sides: seq<seq<FileSize>>, i: nat, j: nat): nat
    requires i <= j < |sides|
    decreases j
  {
    if i == j then 0 else FreeOver(sides, i, j - 1) + FreeLines(Files(sides[j - 1]), sides[j])
  }

  /** Along any run of commits without a reported rise, the recorded total grows by
      no more than the lines of the new files within the limit. */
  lemma {:induction false} FilesGrowByFreeLines(sides: seq<seq<FileSize>>, groups: seq<Grouping>, i: nat, j: nat)
    requires |groups| == |sides| && i <= j < |sides|
    requires forall k | 0 < k < |sides| :: NoFileRise(sides[k - 1], sides[k], groups[k])
    ensures Recorded(sides[j]) <= Recorded(sides[i]) + FreeOver(sides, i, j)
    decreases j
  {
    if i < j {
      FilesGrowByFreeLines(sides, groups, i, j - 1);
      assert NoFileRise(sides[j - 1], sides[j], groups[j]);
      OnlyFreeLinesAreGained(sides[j - 1], sides[j], groups[j]);
    }
  }

  /** A base with the same files, against which there is no rise either and which
      has nothing to spare: its recorded total is the head's counted lines. */
  ghost predicate Tight(base: seq<FileSize>, head: seq<FileSize>, group: Grouping, tight: seq<FileSize>) {
    Files(tight) == Files(base) && NoFileRise(tight, head, group) && Recorded(tight) == LinesIn(Files(base), head)
  }

  lemma SomeKeyIsLarger<K(!new)>(a: seq<Counted<K>>, b: seq<Counted<K>>) returns (key: K)
    requires Total(a) > Total(b)
    ensures SumOf(a, key) > SumOf(b, key)
  {
    if forall k | HasKey(a, k) :: SumOf(a, k) <= SumOf(b, k) {
      TotalsFollowSums(a, b);
    }
    key :| HasKey(a, key) && SumOf(a, key) > SumOf(b, key);
  }

  lemma {:induction false} SomeOfKey<K>(es: seq<Counted<K>>, key: K) returns (i: nat)
    requires SumOf(es, key) > 0
    ensures i < |es| && es[i].key == key && es[i].count > 0
  {
    var last := es[|es| - 1];
    if last.key == key && last.count > 0 {
      i := |es| - 1;
    } else {
      i := SomeOfKey(es[..|es| - 1], key);
    }
  }

  lemma {:induction false} OneLessSum<K>(es: seq<Counted<K>>, i: nat, key: K)
    requires i < |es| && es[i].count > 0
    ensures SumOf(es[i := es[i].(count := es[i].count - 1)], key) == SumOf(es, key) - if es[i].key == key then 1 else 0
    decreases |es|
  {
    var less := es[i := es[i].(count := es[i].count - 1)];
    var rest := es[..|es| - 1];
    if i < |es| - 1 {
      OneLessSum(rest, i, key);
      assert less[..|es| - 1] == rest[i := rest[i].(count := rest[i].count - 1)];
    } else {
      assert less[..|es| - 1] == rest;
    }
  }

  lemma SameFiles(a: seq<FileSize>, b: seq<FileSize>)
    requires |a| == |b| && forall k | 0 <= k < |a| :: a[k].file == b[k].file
    ensures Files(a) == Files(b)
  {
    assert forall k | 0 <= k < |a| :: a[k] in a && b[k] in b;
  }

  lemma {:induction false} OneLessLine(side: seq<FileSize>, i: nat)
    requires i < |side| && side[i].lines > 0
    ensures var less := side[i := side[i].(lines := side[i].lines - 1)];
            Files(less) == Files(side) && Recorded(less) == Recorded(side) - 1
    decreases |side|
  {
    hide Files;
    var less := side[i := side[i].(lines := side[i].lines - 1)];
    var rest := side[..|side| - 1];
    SameFiles(side, less);
    if i < |side| - 1 {
      OneLessLine(rest, i);
      assert less[..|side| - 1] == rest[i := rest[i].(lines := rest[i].lines - 1)];
    } else {
      assert less[..|side| - 1] == rest;
    }
  }

  lemma RecordedByGroup(base: seq<FileSize>, group: Grouping)
    ensures Total(FilesByGroup(Files(base), base, group)) == Recorded(base)
    ensures forall k | 0 <= k < |base| :: FilesByGroup(Files(base), base, group)[k] == Counted(group(base[k].file), base[k].lines)
  {
    FileGroupsAddUp(Files(base), base, group);
    CountedOrFree(Files(base), base);
    assert forall k | 0 <= k < |base| :: base[k] in base && base[k].file in Files(base);
  }

  lemma TakeOneLine(base: seq<FileSize>, head: seq<FileSize>, group: Grouping) returns (less: seq<FileSize>)
    requires NoFileRise(base, head, group) && Recorded(base) > LinesIn(Files(base), head)
    ensures Files(less) == Files(base) && NoFileRise(less, head, group) && Recorded(less) == Recorded(base) - 1
  {
    hide FilesByGroup, SumOf, LinesIn, Recorded, Files;
    var was, now := FilesByGroup(Files(base), base, group), FilesByGroup(Files(base), head, group);
    RecordedByGroup(base, group);
    FileGroupsAddUp(Files(base), head, group);
    var key := SomeKeyIsLarger(was, now);
    var i := SomeOfKey(was, key);
    less := base[i := base[i].(lines := base[i].lines - 1)];
    OneLessLine(base, i);
    RecordedByGroup(less, group);
    assert FilesByGroup(Files(base), less, group) == was[i := was[i].(count := was[i].count - 1)];
    forall g
      ensures SumOf(now, g) <= SumOf(FilesByGroup(Files(base), less, group), g)
    {
      OneLessSum(was, i, g);
    }
  }

  /** Taking away spare lines one by one makes a base tight. */
  lemma {:induction false} Tighten(base: seq<FileSize>, head: seq<FileSize>, group: Grouping) returns (tight: seq<FileSize>)
    requires NoFileRise(base, head, group)
    ensures Tight(base, head, group, tight)
    decreases Recorded(base)
  {
    hide FilesByGroup, SumOf, LinesIn;
    OnlyFreeLinesAreGained(base, head, group);
    CountedOrFree(Files(base), head);
    if Recorded(base) == LinesIn(Files(base), head) {
      tight := base;
    } else {
      var less := TakeOneLine(base, head, group);
      tight := Tighten(less, head, group);
    }
  }

  /** The bound is met, and so says exactly when nothing can be gained: the head
      has no more lines than any base with these files that it has no rise against
      if and only if it has no new file within the limit, save empty ones. */
  lemma GainedIfAndOnlyIfFree(base: seq<FileSize>, head: seq<FileSize>, group: Grouping)
    requires NoFileRise(base, head, group)
    ensures exists tight :: Files(tight) == Files(base) && NoFileRise(tight, head, group)
                            && Recorded(head) == Recorded(tight) + FreeLines(Files(base), head)
    ensures FreeLines(Files(base), head) == 0
       <==> forall other :: Files(other) == Files(base) && NoFileRise(other, head, group) ==> Recorded(head) <= Recorded(other)
  {
    hide FreeLines, LinesIn, Recorded, Files, FilesByGroup;
    var tight := Tighten(base, head, group);
    CountedOrFree(Files(base), head);
    forall other | Files(other) == Files(base) && NoFileRise(other, head, group)
      ensures Recorded(head) <= Recorded(other) + FreeLines(Files(base), head)
    {
      OnlyFreeLinesAreGained(other, head, group);
    }
  }

  /** A new file of 401 lines counts, one of 400 does not, and a recorded file does
      whatever its length. */
  lemma CountedFrom401(recorded: set<string>, f: FileSize)
    ensures f.file in recorded ==> CountedLines(recorded, f) == f.lines
    ensures f.file !in recorded ==> CountedLines(recorded, f) == if f.lines >= 401 then f.lines else 0
  {
  }

  /** Over several commits the recorded total can grow: a part within the limit
      is free when it is first recorded. */
  lemma FreePartsAddUp()
    ensures var one, two := FileSize("a.ts", 500), FileSize("b.ts", 400);
            NoFileRise([one], [one, two], f => f) && LinesIn(Files([one, two]), [one, two]) == LinesIn(Files([one]), [one]) + 400
  {
    var one, two := FileSize("a.ts", 500), FileSize("b.ts", 400);
    var group: Grouping := f => f;
    assert one in [one] && one in [one, two] && two in [one, two];
    assert "b.ts" !in Files([one]);
    var was, now := FilesByGroup(Files([one]), [one], group), FilesByGroup(Files([one]), [one, two], group);
    assert CountedLines(Files([one]), two) == 0 && |was| == 1 && |now| == 2;
    assert now[0] == was[0];
    assert now[1] == Counted("b.ts", 0);
    assert now == was + [Counted("b.ts", 0)];
    forall g
      ensures SumOf(now, g) <= SumOf(was, g)
    {
      AddedLast(was, Counted("b.ts", 0), g);
    }
    assert [one, two][..1] == [one];
    assert LinesIn(Files([one, two]), []) == 0;
  }
}
