/** The size ratchet's own file: checking it, lowering it, and carrying its
    entries over a move or a split. */
module SizeBaseline {
  import opened Options
  import opened Lists

  const FILE_LIMIT := 400

  /** A function's dotted path: its first segment, and what follows the dot. */
  datatype FnKey = FnKey(first: string, rest: Option<string>)

  datatype Baseline = Baseline(files: map<string, nat>, functions: map<string, map<FnKey, nat>>)

  function FnsOf(b: Baseline, file: string): map<FnKey, nat> {
    if file in b.functions then b.functions[file] else map[]
  }

  datatype Failure =
    | OverLimit(file: string) | Grew(file: string) | Shrank(file: string) | Gone(file: string)
    | FnGrew(file: string, fn: FnKey) | FnShrank(file: string, fn: FnKey) | FnGone(file: string, fn: FnKey)

  predicate Fails(b: Baseline, m: Baseline, f: Failure) {
    match f
    case OverLimit(file) => file in m.files && file !in b.files && m.files[file] > FILE_LIMIT
    case Grew(file) => file in m.files && file in b.files && m.files[file] > b.files[file]
    case Shrank(file) => file in m.files && file in b.files && m.files[file] < b.files[file]
    case Gone(file) => file in b.files && file !in m.files
    case FnGrew(file, fn) => fn in FnsOf(b, file) && fn in FnsOf(m, file) && FnsOf(m, file)[fn] > FnsOf(b, file)[fn]
    case FnShrank(file, fn) => fn in FnsOf(b, file) && fn in FnsOf(m, file) && FnsOf(m, file)[fn] < FnsOf(b, file)[fn]
    case FnGone(file, fn) => fn in FnsOf(b, file) && fn !in FnsOf(m, file)
  }

  method CheckFiles(b: Baseline, m: Baseline) returns (failures: set<Failure>)
    ensures forall f :: f in failures <==> Fails(b, m, f) && (f.OverLimit? || f.Grew? || f.Shrank? || f.Gone?)
  {
    failures := {};
    var todo := m.files.Keys;
    while todo != {}
      invariant todo <= m.files.Keys
      invariant forall f :: f in failures <==> Fails(b, m, f) && (f.OverLimit? || f.Grew? || f.Shrank?) && f.file !in todo
    {
      var file :| file in todo;
      todo := todo - {file};
      if file !in b.files {
        if m.files[file] > FILE_LIMIT {
          failures := failures + {OverLimit(file)};
        }
      } else if m.files[file] > b.files[file] {
        failures := failures + {Grew(file)};
      } else if m.files[file] < b.files[file] {
        failures := failures + {Shrank(file)};
      }
    }
    todo := b.files.Keys;
    while todo != {}
      invariant todo <= b.files.Keys
      invariant forall f :: f in failures <==>
        Fails(b, m, f) && (f.OverLimit? || f.Grew? || f.Shrank? || (f.Gone? && f.file !in todo))
    {
      var file :| file in todo;
      todo := todo - {file};
      if file !in m.files {
        failures := failures + {Gone(file)};
      }
    }
  }

  predicate OfFunction(f: Failure) {
    f.FnGrew? || f.FnShrank? || f.FnGone?
  }

  method Check(b: Baseline, m: Baseline) returns (failures: set<Failure>)
    ensures forall f :: f in failures <==> Fails(b, m, f)
  {
    failures := CheckFiles(b, m);
    var todo := b.functions.Keys;
    while todo != {}
      invariant todo <= b.functions.Keys
      invariant forall f :: f in failures <==> Fails(b, m, f) && (OfFunction(f) ==> f.file !in todo)
    {
      var file :| file in todo;
      todo := todo - {file};
      var fns := b.functions[file].Keys;
      while fns != {}
        invariant fns <= b.functions[file].Keys
        invariant forall f :: f in failures <==>
          Fails(b, m, f) && (OfFunction(f) ==> f.file !in todo && !(f.file == file && f.fn in fns))
      {
        var fn :| fn in fns;
        fns := fns - {fn};
        var recorded := b.functions[file][fn];
        if fn !in FnsOf(m, file) {
          failures := failures + {FnGone(file, fn)};
        } else if FnsOf(m, file)[fn] > recorded {
          failures := failures + {FnGrew(file, fn)};
        } else if FnsOf(m, file)[fn] < recorded {
          failures := failures + {FnShrank(file, fn)};
        }
      }
    }
  }

  /** Nothing is reported if and only if every recorded file and function is measured at
      what is recorded, and no other file is over 400 lines. */
  lemma NothingFailsIfExact(b: Baseline, m: Baseline)
    ensures (forall f :: !Fails(b, m, f))
       <==> && (forall file | file in b.files :: file in m.files && m.files[file] == b.files[file])
            && (forall file, fn | fn in FnsOf(b, file) :: fn in FnsOf(m, file) && FnsOf(m, file)[fn] == FnsOf(b, file)[fn])
            && (forall file | file in m.files && file !in b.files :: m.files[file] <= 400)
  {
    if forall f :: !Fails(b, m, f) {
      forall file | file in b.files
        ensures file in m.files && m.files[file] == b.files[file]
      {
        assert !Fails(b, m, Gone(file)) && !Fails(b, m, Grew(file)) && !Fails(b, m, Shrank(file));
      }
      forall file, fn | fn in FnsOf(b, file)
        ensures fn in FnsOf(m, file) && FnsOf(m, file)[fn] == FnsOf(b, file)[fn]
      {
        assert !Fails(b, m, FnGone(file, fn)) && !Fails(b, m, FnGrew(file, fn)) && !Fails(b, m, FnShrank(file, fn));
      }
      forall file | file in m.files && file !in b.files
        ensures m.files[file] <= 400
      {
        assert !Fails(b, m, OverLimit(file));
      }
    }
  }

  // --------------------------------------------------------------------- lowered

  function Min(x: nat, y: nat): nat {
    if x <= y then x else y
  }

  /** The smaller of both counts, where both have one. */
  function Both<K>(a: map<K, nat>, b: map<K, nat>): map<K, nat> {
    map k | k in a && k in b :: Min(a[k], b[k])
  }

  function LoweredTo(b: Baseline, m: Baseline): Baseline {
    Baseline(Both(b.files, m.files),
             map file | file in b.functions && Both(b.functions[file], FnsOf(m, file)) != map[] ::
               Both(b.functions[file], FnsOf(m, file)))
  }

  method LoweredCounts<K(==)>(recorded: map<K, nat>, now: map<K, nat>) returns (out: map<K, nat>)
    ensures out == Both(recorded, now)
  {
    out := map[];
    var keys := recorded.Keys;
    while keys != {}
      invariant keys <= recorded.Keys
      invariant out == map k | k in recorded && k in now && k !in keys :: Min(recorded[k], now[k])
    {
      var key :| key in keys;
      keys := keys - {key};
      if key in now {
        out := out[key := Min(recorded[key], now[key])];
      }
    }
  }

  method Lowered(b: Baseline, m: Baseline) returns (out: Baseline)
    ensures out == LoweredTo(b, m)
  {
    hide Both;
    var files := LoweredCounts(b.files, m.files);
    var functions: map<string, map<FnKey, nat>> := map[];
    var todo := b.functions.Keys;
    while todo != {}
      invariant todo <= b.functions.Keys
      invariant forall f :: f in functions <==>
        f in b.functions && f !in todo && Both(b.functions[f], FnsOf(m, f)) != map[]
      invariant forall f | f in functions :: functions[f] == Both(b.functions[f], FnsOf(m, f))
    {
      var file :| file in todo;
      todo := todo - {file};
      var lowered := LoweredCounts(b.functions[file], FnsOf(m, file));
      if lowered != map[] {
        functions := functions[file := lowered];
      }
    }
    out := Baseline(files, functions);
    assert out.functions == LoweredTo(b, m).functions;
  }

  /** Nothing grew: no recorded file or function is longer, and no other file is
      over the limit. */
  ghost predicate NoGrowth(b: Baseline, m: Baseline) {
    forall f: Failure | f.OverLimit? || f.Grew? || f.FnGrew? :: !Fails(b, m, f)
  }

  lemma LoweredFnsOf(b: Baseline, m: Baseline, file: string)
    ensures FnsOf(LoweredTo(b, m), file) == Both(FnsOf(b, file), FnsOf(m, file))
  {
  }

  /** After lowering there is nothing left to report exactly when nothing grew:
      lowering excuses shrinking and removal, never growth. */
  lemma LoweredPassesUnlessGrown(b: Baseline, m: Baseline)
    ensures (forall f :: !Fails(LoweredTo(b, m), m, f)) <==> NoGrowth(b, m)
  {
    var low := LoweredTo(b, m);
    forall f
      ensures Fails(low, m, f) <==> Fails(b, m, f) && (f.OverLimit? || f.Grew? || f.FnGrew?)
    {
      if OfFunction(f) {
        LoweredFnsOf(b, m, f.file);
      }
    }
  }

  lemma BothTwice<K>(a: map<K, nat>, now: map<K, nat>)
    ensures Both(Both(a, now), now) == Both(a, now)
    ensures forall k | k in Both(a, now) :: k in a && Both(a, now)[k] <= a[k]
  {
  }

  /** Lowering again changes nothing; it never adds an entry or raises one. */
  lemma LoweredOnlyOnce(b: Baseline, m: Baseline)
    ensures LoweredTo(LoweredTo(b, m), m) == LoweredTo(b, m)
    ensures var low := LoweredTo(b, m);
            && (forall f | f in low.files :: f in b.files && low.files[f] <= b.files[f])
            && (forall f, k | k in FnsOf(low, f) :: k in FnsOf(b, f) && FnsOf(low, f)[k] <= FnsOf(b, f)[k])
  {
    var low := LoweredTo(b, m);
    BothTwice(b.files, m.files);
    forall f
      ensures FnsOf(low, f) == Both(FnsOf(b, f), FnsOf(m, f))
      ensures forall k | k in FnsOf(low, f) :: k in FnsOf(b, f) && FnsOf(low, f)[k] <= FnsOf(b, f)[k]
    {
      LoweredFnsOf(b, m, f);
      BothTwice(FnsOf(b, f), FnsOf(m, f));
    }
    forall f | f in low.functions
      ensures Both(low.functions[f], FnsOf(m, f)) == low.functions[f]
    {
      BothTwice(b.functions[f], FnsOf(m, f));
    }
    hide Both, FnsOf;
  }

  // ----------------------------------------------------------------------- moved

  /** A path's new name, if it has one. */
  function NewName(names: map<string, string>, f: string): string {
    if f in names then names[f] else f
  }

  /** b is a with its paths renamed, no two to one, and every count kept. */
  ghost predicate Relabelled<V>(a: map<string, V>, b: map<string, V>, names: map<string, string>) {
    && (forall f | f in a :: NewName(names, f) in b && b[NewName(names, f)] == a[f])
    && (forall g | g in b :: exists f | f in a :: NewName(names, f) == g)
  }

  ghost predicate OneToOne(keys: set<string>, names: map<string, string>) {
    forall f, g | f in keys && g in keys && f != g :: NewName(names, f) != NewName(names, g)
  }

  function Renamed<V>(a: map<string, V>, from: string, to: string): map<string, V> {
    (if from in a then a[to := a[from]] else a) - {from}
  }

  ghost function Extended(keys: set<string>, names: map<string, string>, from: string, to: string): map<string, string> {
    map f | f in keys :: if NewName(names, f) == from then to else NewName(names, f)
  }

  lemma ExtendedName(keys: set<string>, names: map<string, string>, from: string, to: string, f: string)
    requires f in keys
    ensures NewName(Extended(keys, names, from, to), f) == if NewName(names, f) == from then to else NewName(names, f)
  {
  }

  lemma RenamedAt<V>(b: map<string, V>, from: string, to: string, g: string)
    requires to !in b && from != to
    ensures g in Renamed(b, from, to) <==> if g == to then from in b else g != from && g in b
    ensures g in Renamed(b, from, to) ==> Renamed(b, from, to)[g] == b[if g == to then from else g]
  {
  }

  lemma RenameOne<V>(a: map<string, V>, b: map<string, V>, keys: set<string>, names: map<string, string>, from: string, to: string)
    requires a.Keys <= keys && Relabelled(a, b, names) && to !in b && from != to
    ensures Relabelled(a, Renamed(b, from, to), Extended(keys, names, from, to))
  {
    hide Renamed, Extended, NewName;
    var after, names' := Renamed(b, from, to), Extended(keys, names, from, to);
    forall f | f in a
      ensures NewName(names', f) in after && after[NewName(names', f)] == a[f]
    {
      ExtendedName(keys, names, from, to, f);
      RenamedAt(b, from, to, NewName(names', f));
    }
    forall g | g in after
      ensures exists f | f in a :: NewName(names', f) == g
    {
      RenamedAt(b, from, to, g);
      var f :| f in a && NewName(names, f) == if g == to then from else g;
      ExtendedName(keys, names, from, to, f);
    }
  }

  lemma RenameOneToOne(keys: set<string>, names: map<string, string>, from: string, to: string)
    requires OneToOne(keys, names) && forall f | f in keys :: NewName(names, f) != to
    ensures OneToOne(keys, Extended(keys, names, from, to))
  {
  }

  /** Files' and functions' entries alike are renamed, one to one. */
  ghost predicate Carried(b: Baseline, files: map<string, nat>, functions: map<string, map<FnKey, nat>>, names: map<string, string>) {
    && Relabelled(b.files, files, names) && Relabelled(b.functions, functions, names)
    && OneToOne(b.files.Keys + b.functions.Keys, names)
  }

  lemma CarryOne(b: Baseline, files: map<string, nat>, functions: map<string, map<FnKey, nat>>, names: map<string, string>,
                 from: string, to: string)
    requires Carried(b, files, functions, names) && to !in files && to !in functions && from != to
    ensures Carried(b, Renamed(files, from, to), Renamed(functions, from, to),
                    Extended(b.files.Keys + b.functions.Keys, names, from, to))
  {
    hide Extended;
    var keys := b.files.Keys + b.functions.Keys;
    RenameOne(b.files, files, keys, names, from, to);
    RenameOne(b.functions, functions, keys, names, from, to);
    forall f | f in keys
      ensures NewName(names, f) != to
    {
      assert f in b.files || f in b.functions;
    }
    RenameOneToOne(keys, names, from, to);
  }

  datatype Moving = Moving(files: map<string, nat>, functions: map<string, map<FnKey, nat>>, problems: nat)

  /** One pair: refused while the old file exists, the new one does not, or the
      new path is recorded already. */
  function MovePair(s: Moving, m: Baseline, from: string, to: string): Moving {
    if from in m.files || to !in m.files || to in s.files || to in s.functions then s.(problems := s.problems + 1)
    else Moving(Renamed(s.files, from, to), Renamed(s.functions, from, to), s.problems)
  }

  function MovePairs(s: Moving, m: Baseline, paths: seq<string>): Moving
    decreases |paths|
  {
    if |paths| < 2 then s else MovePairs(MovePair(s, m, paths[0], paths[1]), m, paths[2..])
  }

  method Moved(b: Baseline, m: Baseline, paths: seq<string>) returns (out: Baseline, problems: nat)
    ensures var end := MovePairs(Moving(b.files, b.functions, if |paths| == 0 || |paths| % 2 != 0 then 1 else 0), m, paths);
            out == Baseline(end.files, end.functions) && problems == end.problems
  {
    var files, functions := b.files, b.functions;
    problems := 0;
    if |paths| == 0 || |paths| % 2 != 0 {
      problems := 1;
    }
    ghost var start := Moving(files, functions, problems);
    var i := 0;
    while i + 1 < |paths|
      invariant 0 <= i <= |paths|
      invariant MovePairs(start, m, paths) == MovePairs(Moving(files, functions, problems), m, paths[i..])
    {
      assert paths[i..][2..] == paths[i + 2..];
      var from, to := paths[i], paths[i + 1];
      if from in m.files || to !in m.files || to in files || to in functions {
        problems := problems + 1;
      } else {
        files, functions := Renamed(files, from, to), Renamed(functions, from, to);
      }
      i := i + 2;
    }
    out := Baseline(files, functions);
  }

  lemma RenamedIs<V>(a: map<string, V>, from: string, to: string)
    requires to !in a && from != to
    ensures Renamed(a, from, to) == a - {from} + (if from in a then map[to := a[from]] else map[])
  {
  }

  lemma MovedPair(s: Moving, m: Baseline, from: string, to: string)
    ensures var end := MovePair(s, m, from, to);
            if from !in m.files && to in m.files && to !in s.files && to !in s.functions then
              && end.problems == s.problems
              && end.files == s.files - {from} + (if from in s.files then map[to := s.files[from]] else map[])
              && end.functions == s.functions - {from} + (if from in s.functions then map[to := s.functions[from]] else map[])
            else end == s.(problems := s.problems + 1)
  {
    hide Renamed;
    if from !in m.files && to in m.files && to !in s.files && to !in s.functions {
      RenamedIs(s.files, from, to);
      RenamedIs(s.functions, from, to);
    }
  }

  /** One pair of paths, whatever came before: it is applied if and only if the old file
      is gone, the new one is measured and nothing is recorded under the new path; then
      the old path's entries, if any, are under the new path. Else nothing moves and it
      is a problem. */
  lemma OnePair(s: Moving, m: Baseline, from: string, to: string, rest: seq<string>)
    ensures var end := MovePairs(s, m, [from, to]);
            && (if from !in m.files && to in m.files && to !in s.files && to !in s.functions then
                  && end.problems == s.problems
                  && end.files == s.files - {from} + (if from in s.files then map[to := s.files[from]] else map[])
                  && end.functions == s.functions - {from} + (if from in s.functions then map[to := s.functions[from]] else map[])
                else end == s.(problems := s.problems + 1))
            && MovePairs(s, m, [from, to] + rest) == MovePairs(end, m, rest)
  {
    hide MovePair;
    assert [from, to][2..] == [] && ([from, to] + rest)[2..] == rest;
    assert MovePairs(s, m, [from, to]) == MovePairs(MovePair(s, m, from, to), m, []);
    MovedPair(s, m, from, to);
  }

  /** Whatever the pairs, every count is kept under exactly one path, and a file's
      functions stay with it. */
  lemma {:induction false} MovesConserve(b: Baseline, s: Moving, m: Baseline, paths: seq<string>, names: map<string, string>)
    returns (after: map<string, string>)
    requires Carried(b, s.files, s.functions, names)
    ensures Carried(b, MovePairs(s, m, paths).files, MovePairs(s, m, paths).functions, after)
    decreases |paths|
  {
    hide Carried, Renamed;
    after := names;
    if |paths| >= 2 {
      var from, to := paths[0], paths[1];
      var next := MovePair(s, m, from, to);
      if !(from in m.files || to !in m.files || to in s.files || to in s.functions) {
        CarryOne(b, s.files, s.functions, names, from, to);
        after := Extended(b.files.Keys + b.functions.Keys, names, from, to);
      }
      after := MovesConserve(b, next, m, paths[2..], after);
    }
  }

  /** Each pair that is applied takes its old path's entries away and gives them,
      unchanged, to the new path, which had none. */
  lemma RenamedMoves<V>(a: map<string, V>, from: string, to: string)
    requires to !in a && from != to
    ensures var after := Renamed(a, from, to);
            && from !in after && (to in after <==> from in a) && (from in a ==> after[to] == a[from])
            && |after| == |a|
            && forall f | f != from && f != to :: (f in after <==> f in a) && (f in a ==> after[f] == a[f])
  {
    var after := Renamed(a, from, to);
    if from in a {
      assert after.Keys == (a.Keys - {from}) + {to};
    } else {
      assert after.Keys == a.Keys;
    }
  }

  // -------------------------------------------------------------------- recorded

  /** What a body moved whole into a part's function hands it. */
  datatype Carry = Carry(renames: map<string, FnKey>, wrapper: map<FnKey, nat>, total: nat)

  function Rerooted(to: FnKey, rest: Option<string>): FnKey {
    match rest
    case None => to
    case Some(r) => FnKey(to.first, Some(match to.rest case None => r case Some(q) => q + "." + r))
  }

  function SameTail(old_: map<FnKey, nat>, used: set<FnKey>, key: FnKey): set<FnKey> {
    set k | k in old_ && k.rest.Some? && k.rest == key.rest && k !in used
  }

  predicate IsCarried(old_: map<FnKey, nat>, used: set<FnKey>, renames: map<string, FnKey>, key: FnKey, from: FnKey) {
    && from in old_ && from !in used
    && if key in old_ && key !in used then from == key
       else if key.first in renames then from == Rerooted(renames[key.first], key.rest)
       else key.rest.Some? && SameTail(old_, used, key) == {from}
  }

  /** The key as it is written. */
  function Text(key: FnKey): string {
    match key.rest case None => key.first case Some(rest) => key.first + "." + rest
  }

  /** Under a renamed body, a key is the entry's name and what followed the body's. */
  lemma RerootedText(to: FnKey, key: FnKey)
    ensures Text(key) == key.first + Text(Rerooted(to, key.rest))[|Text(to)|..]
    ensures Text(to) <= Text(Rerooted(to, key.rest))
  {
    var tail := if key.rest.Some? then "." + key.rest.value else "";
    assert Text(Rerooted(to, key.rest)) == Text(to) + tail;
  }

  /** Entries not taken yet. */
  function Unused(old_: map<FnKey, nat>, used: set<FnKey>): set<FnKey> {
    old_.Keys - used
  }

  /** There is an entry to carry, and then one only, if and only if the key's own is
      unused; or its body's name is renamed, and the entry that gives is unused; or it is
      not renamed and exactly one unused entry has the same tail. */
  lemma CarriedExactly(old_: map<FnKey, nat>, used: set<FnKey>, renames: map<string, FnKey>, key: FnKey)
    ensures (exists from :: IsCarried(old_, used, renames, key, from))
       <==> || key in Unused(old_, used)
            || (key.first in renames && Rerooted(renames[key.first], key.rest) in Unused(old_, used))
            || (key.first !in renames && key.rest.Some? && |set k | k in Unused(old_, used) && k.rest == key.rest| == 1)
    ensures forall from, other | IsCarried(old_, used, renames, key, from) && IsCarried(old_, used, renames, key, other) :: from == other
  {
    var tails := set k | k in Unused(old_, used) && k.rest == key.rest;
    if key.rest.Some? {
      assert SameTail(old_, used, key) == tails;
      if |tails| == 1 {
        var k :| k in tails;
        SubsetIsSmaller({k}, tails);
      }
    }
    if key in Unused(old_, used) {
      assert IsCarried(old_, used, renames, key, key);
    } else if key.first in renames && Rerooted(renames[key.first], key.rest) in Unused(old_, used) {
      assert IsCarried(old_, used, renames, key, Rerooted(renames[key.first], key.rest));
    } else if key.first !in renames && key.rest.Some? && |tails| == 1 {
      var k :| k in tails;
      assert IsCarried(old_, used, renames, key, k);
    }
  }

  /** The old file's entry a part's function takes over: its own key, else the
      moved body's, else the one entry left with the same tail. */
  method CarriedEntry(key: FnKey, old_: map<FnKey, nat>, used: set<FnKey>, renames: map<string, FnKey>) returns (from: Option<FnKey>)
    ensures from.Some? ==> IsCarried(old_, used, renames, key, from.value)
    ensures from.None? ==> forall k :: !IsCarried(old_, used, renames, key, k)
  {
    if key in old_ && key !in used {
      return Some(key);
    }
    if key.first in renames {
      var was := Rerooted(renames[key.first], key.rest);
      return if was in old_ && was !in used then Some(was) else None;
    }
    if key.rest.None? {
      return None;
    }
    var matches := SameTail(old_, used, key);
    if matches == {} {
      return None;
    }
    var k :| k in matches;
    if matches == {k} {
      return Some(k);
    }
    return None;
  }

  function WrapperOf(carry: Carry, key: FnKey): nat {
    if key in carry.wrapper then carry.wrapper[key] else 0
  }

  /** A part's function: the part's place among the parts, and its key. */
  type FnAt = (nat, FnKey)

  /** An entry a function can take over: its own, the renamed body's, or one with its tail. */
  predicate IsRelated(carry: Carry, key: FnKey, from: FnKey) {
    || from == key
    || (key.first in carry.renames && from == Rerooted(carry.renames[key.first], key.rest))
    || (key.first !in carry.renames && key.rest.Some? && from.rest == key.rest)
  }

  /** Each new function entry came from an old one of its own, related to it, and is at
      most as long as that one and its signature lines. */
  ghost predicate Sourced(m: Baseline, parts: seq<string>, old_: map<FnKey, nat>, carry: Carry, source: map<FnAt, FnKey>) {
    && (forall f | f in source ::
          && f.0 < |parts| && f.1 in FnsOf(m, parts[f.0]) && source[f] in old_
          && FnsOf(m, parts[f.0])[f.1] <= old_[source[f]] + WrapperOf(carry, f.1) && IsRelated(carry, f.1, source[f]))
    && (forall f, g | f in source && g in source && f != g :: source[f] != source[g])
  }

  /** The functions a part brings that are not recorded under its name yet. */
  function NewFns(b: Baseline, m: Baseline, file: string): set<FnKey> {
    FnsOf(m, file).Keys - FnsOf(b, file).Keys
  }

  /** Those functions and their lengths. */
  function NewEntries(b: Baseline, m: Baseline, file: string): map<FnKey, nat> {
    map k | k in NewFns(b, m, file) :: FnsOf(m, file)[k]
  }

  function WithFns(functions: map<string, map<FnKey, nat>>, file: string, more: map<FnKey, nat>): map<string, map<FnKey, nat>> {
    if more == map[] then functions else functions[file := (if file in functions then functions[file] else map[]) + more]
  }

  ghost predicate Uses(used: set<FnKey>, source: map<FnAt, FnKey>) {
    forall k :: k in used <==> k in source.Values
  }

  /** Only the first i parts' functions have a source yet. */
  ghost predicate Below(source: map<FnAt, FnKey>, i: nat) {
    forall f | f in source :: f.0 < i
  }

  /** source' is source and the added functions of one file. */
  ghost predicate AddsSources(source: map<FnAt, FnKey>, source': map<FnAt, FnKey>, i: nat, added: map<FnKey, nat>) {
    && (forall f :: f in source' <==> f in source || (f.0 == i && f.1 in added))
    && (forall f | f in source :: source'[f] == source[f])
  }

  /** The functions weighed so far are added at their length; without a problem,
      all of them. */
  ghost predicate AddedSoFar(b: Baseline, m: Baseline, file: string, todo: set<FnKey>, added: map<FnKey, nat>, problems: nat) {
    && added.Keys <= NewFns(b, m, file) - todo
    && (forall k | k in added :: added[k] == FnsOf(m, file)[k])
    && (problems == 0 ==> added.Keys == NewFns(b, m, file) - todo)
  }

  lemma CarriedIsRelated(old_: map<FnKey, nat>, used: set<FnKey>, carry: Carry, key: FnKey, from: FnKey)
    requires IsCarried(old_, used, carry.renames, key, from)
    ensures IsRelated(carry, key, from) && from in old_ && from !in used
  {
    assert from in SameTail(old_, used, key) ==> from.rest == key.rest;
  }

  lemma TakeSource(m: Baseline, parts: seq<string>, old_: map<FnKey, nat>, carry: Carry, used: set<FnKey>,
                   source: map<FnAt, FnKey>, at: FnAt, from: FnKey)
    requires Sourced(m, parts, old_, carry, source) && Uses(used, source) && at !in source
    requires IsCarried(old_, used, carry.renames, at.1, from)
    requires at.0 < |parts| && at.1 in FnsOf(m, parts[at.0])
    requires FnsOf(m, parts[at.0])[at.1] <= old_[from] + WrapperOf(carry, at.1)
    ensures Sourced(m, parts, old_, carry, source[at := from]) && Uses(used + {from}, source[at := from])
  {
    CarriedIsRelated(old_, used, carry, at.1, from);
    hide IsCarried, IsRelated;
    var next := source[at := from];
    forall k
      ensures k in used + {from} <==> k in next.Values
    {
      if k in source.Values {
        var f :| f in source && source[f] == k;
        assert next[f] == k;
      }
      if k == from {
        assert next[at] == k;
      }
      if k in next.Values {
        var f :| f in next && next[f] == k;
        assert f == at || source[f] == k;
      }
    }
    forall f, g | f in next && g in next && f != g
      ensures next[f] != next[g]
    {
      assert f in source ==> source[f] in source.Values;
      assert g in source ==> source[g] in source.Values;
    }
  }

  /** Part i's new function k was not carried, and its own entry is no help:
      there is none, another function took it, or it is too short. */
  ghost predicate Stuck(b: Baseline, m: Baseline, parts: seq<string>, old_: map<FnKey, nat>, carry: Carry,
                        source: map<FnAt, FnKey>, i: nat, k: FnKey) {
    && i < |parts| && k in NewFns(b, m, parts[i]) && (i, k) !in source
    && (k !in old_ || k in source.Values || FnsOf(m, parts[i])[k] > old_[k] + WrapperOf(carry, k))
  }

  ghost predicate StuckBefore(b: Baseline, m: Baseline, parts: seq<string>, old_: map<FnKey, nat>, carry: Carry,
                              source: map<FnAt, FnKey>, n: nat) {
    exists i: nat, k | i < n :: Stuck(b, m, parts, old_, carry, source, i, k)
  }

  lemma NotCarriedIsStuck(b: Baseline, m: Baseline, parts: seq<string>, old_: map<FnKey, nat>, carry: Carry,
                          used: set<FnKey>, source: map<FnAt, FnKey>, i: nat, k: FnKey, from: Option<FnKey>)
    requires Uses(used, source) && i < |parts| && k in NewFns(b, m, parts[i]) && (i, k) !in source
    requires from.Some? ==> IsCarried(old_, used, carry.renames, k, from.value)
                            && FnsOf(m, parts[i])[k] > old_[from.value] + WrapperOf(carry, k)
    requires from.None? ==> !IsCarried(old_, used, carry.renames, k, k)
    ensures Stuck(b, m, parts, old_, carry, source, i, k)
  {
  }

  lemma StaysStuck(b: Baseline, m: Baseline, parts: seq<string>, old_: map<FnKey, nat>, carry: Carry,
                   source: map<FnAt, FnKey>, source': map<FnAt, FnKey>, i: nat, k: FnKey)
    requires Stuck(b, m, parts, old_, carry, source, i, k) && (i, k) !in source'
    requires forall f | f in source :: f in source' && source'[f] == source[f]
    ensures Stuck(b, m, parts, old_, carry, source', i, k)
  {
    if k in source.Values {
      var f :| f in source && source[f] == k;
      assert source'[f] == k;
    }
  }

  lemma StaysStuckBefore(b: Baseline, m: Baseline, parts: seq<string>, old_: map<FnKey, nat>, carry: Carry,
                         source: map<FnAt, FnKey>, source': map<FnAt, FnKey>, n: nat, added: map<FnKey, nat>)
    requires StuckBefore(b, m, parts, old_, carry, source, n) && AddsSources(source, source', n, added)
    ensures StuckBefore(b, m, parts, old_, carry, source', n + 1)
  {
    hide Stuck;
    var i: nat, k :| i < n && Stuck(b, m, parts, old_, carry, source, i, k);
    assert (i, k) !in source by {
      StuckIsUnsourced(b, m, parts, old_, carry, source, i, k);
    }
    StaysStuck(b, m, parts, old_, carry, source, source', i, k);
  }

  lemma StuckIsUnsourced(b: Baseline, m: Baseline, parts: seq<string>, old_: map<FnKey, nat>, carry: Carry,
                         source: map<FnAt, FnKey>, i: nat, k: FnKey)
    requires Stuck(b, m, parts, old_, carry, source, i, k)
    ensures (i, k) !in source
  {
  }

  /** Every function of the parts has an entry under its own name, which it fits. */
  ghost predicate FitsItsOwn(m: Baseline, parts: seq<string>, old_: map<FnKey, nat>, carry: Carry) {
    forall i, k | 0 <= i < |parts| && k in FnsOf(m, parts[i]) ::
      k in old_ && FnsOf(m, parts[i])[k] <= old_[k] + if k in carry.wrapper then carry.wrapper[k] else 0
  }

  predicate SameTails(k: FnKey, l: FnKey) {
    k == l || (k.rest.Some? && k.rest == l.rest)
  }

  /** No two functions of the parts have the same tail. */
  ghost predicate TailsApart(m: Baseline, parts: seq<string>) {
    forall i, j, k, l | 0 <= i < |parts| && 0 <= j < |parts| && k in FnsOf(m, parts[i]) && l in FnsOf(m, parts[j])
                        && SameTails(k, l) :: i == j && k == l
  }

  lemma SourceOf(m: Baseline, parts: seq<string>, old_: map<FnKey, nat>, carry: Carry, source: map<FnAt, FnKey>, f: FnAt)
    requires Sourced(m, parts, old_, carry, source) && f in source && carry.renames == map[]
    ensures f.0 < |parts| && f.1 in FnsOf(m, parts[f.0]) && SameTails(f.1, source[f])
  {
  }

  lemma OneWithTail(m: Baseline, parts: seq<string>, i: nat, j: nat, k: FnKey, l: FnKey)
    requires TailsApart(m, parts) && SameTails(k, l)
    requires i < |parts| && j < |parts| && k in FnsOf(m, parts[i]) && l in FnsOf(m, parts[j])
    ensures i == j && k == l
  {
  }

  /** A split that moves each function under its own name, no two with the same tail, is no
      problem for its functions when none is longer than it was and its signature lines. */
  lemma SplitByNameFits(b: Baseline, m: Baseline, parts: seq<string>, old_: map<FnKey, nat>, carry: Carry,
                        source: map<FnAt, FnKey>)
    requires Sourced(m, parts, old_, carry, source) && carry.renames == map[]
    requires FitsItsOwn(m, parts, old_, carry) && TailsApart(m, parts)
    ensures !StuckBefore(b, m, parts, old_, carry, source, |parts|)
  {
    hide Sourced, TailsApart, SameTails;
    forall i: nat, k | i < |parts|
      ensures !Stuck(b, m, parts, old_, carry, source, i, k)
    {
      if k in NewFns(b, m, parts[i]) && k in source.Values {
        var f :| f in source && source[f] == k;
        SourceOf(m, parts, old_, carry, source, f);
        OneWithTail(m, parts, f.0, i, f.1, k);
      }
    }
    hide Stuck;
  }

  /** Carries the old entries to one part's functions. */
  method RecordFunctions(b: Baseline, m: Baseline, parts: seq<string>, i: nat, old_: map<FnKey, nat>, carry: Carry,
                         used: set<FnKey>, ghost source: map<FnAt, FnKey>)
    returns (added: map<FnKey, nat>, problems: nat, used': set<FnKey>, ghost source': map<FnAt, FnKey>)
    requires Sourced(m, parts, old_, carry, source) && Uses(used, source)
    requires i < |parts| && Below(source, i)
    ensures Sourced(m, parts, old_, carry, source') && Uses(used', source')
    ensures AddsSources(source, source', i, added)
    ensures AddedSoFar(b, m, parts[i], {}, added, problems)
    ensures problems > 0 ==> StuckBefore(b, m, parts, old_, carry, source', i + 1)
  {
    hide Sourced, Uses, NewFns, Stuck, IsCarried;
    var file := parts[i];
    ghost var stuck := FnKey("", None);
    added, problems, used', source' := map[], 0, used, source;
    var todo := FnsOf(m, file).Keys;
    NothingNew(b, m, file);
    while todo != {}
      invariant todo <= FnsOf(m, file).Keys
      invariant Sourced(m, parts, old_, carry, source') && Uses(used', source')
      invariant AddsSources(source, source', i, added)
      invariant AddedSoFar(b, m, file, todo, added, problems)
      invariant problems > 0 ==>
        stuck in FnsOf(m, file).Keys - todo && stuck !in added && Stuck(b, m, parts, old_, carry, source', i, stuck)
    {
      var key :| key in todo;
      ghost var before := todo;
      todo := todo - {key};
      var lines := FnsOf(m, file)[key];
      NewOrKnown(b, m, file, key, before);
      if key !in FnsOf(b, file) {
        var carried := CarriedEntry(key, old_, used', carry.renames);
        if carried.None? || lines > old_[carried.value] + WrapperOf(carry, key) {
          NewIsListed(b, m, file, key);
          NotCarriedIsStuck(b, m, parts, old_, carry, used', source', i, key, carried);
          problems, stuck := problems + 1, key;
        } else {
          TakeSource(m, parts, old_, carry, used', source', (i, key), carried.value);
          used' := used' + {carried.value};
          added := added[key := lines];
          ghost var was := source';
          source' := source'[(i, key) := carried.value];
          if problems > 0 {
            StaysStuck(b, m, parts, old_, carry, was, source', i, stuck);
          }
        }
      }
    }
  }

  lemma NewIsListed(b: Baseline, m: Baseline, file: string, key: FnKey)
    requires key in FnsOf(m, file) && key !in FnsOf(b, file)
    ensures key in NewFns(b, m, file)
  {
  }

  lemma NothingNew(b: Baseline, m: Baseline, file: string)
    ensures NewFns(b, m, file) - FnsOf(m, file).Keys == {}
  {
  }

  lemma NewOrKnown(b: Baseline, m: Baseline, file: string, key: FnKey, todo: set<FnKey>)
    requires key in todo && key in FnsOf(m, file)
    ensures NewFns(b, m, file) - (todo - {key})
         == NewFns(b, m, file) - todo + if key in FnsOf(b, file) then {} else {key}
  {
  }

  /** Lines of some files together. */
  function LinesOf(m: Baseline, files: seq<string>): nat {
    if files == [] then 0
    else
      var last := files[|files| - 1];
      LinesOf(m, files[..|files| - 1]) + if last in m.files then m.files[last] else 0
  }

  /** They are the files' measured lines, each file as often as it is listed. */
  lemma {:induction false} LinesAreTheTotal(m: Baseline, files: seq<string>)
    requires forall f | f in files :: f in m.files
    ensures LinesOf(m, files) == Total(seq(|files|, i requires 0 <= i < |files| => Counted(files[i], m.files[files[i]])))
  {
    if files != [] {
      var rest := files[..|files| - 1];
      LinesAreTheTotal(m, rest);
      assert seq(|files|, i requires 0 <= i < |files| => Counted(files[i], m.files[files[i]]))[..|rest|]
          == seq(|rest|, i requires 0 <= i < |rest| => Counted(rest[i], m.files[rest[i]]));
    }
  }

  function OldEntry(b: Baseline, from: Option<string>): Option<nat> {
    if from.Some? && from.value in b.files then Some(b.files[from.value]) else None
  }

  /** The files a recording without a problem leaves: the old ones, and each of
      the first n parts at its size. */
  ghost predicate PartsRecorded(b: Baseline, m: Baseline, parts: seq<string>, n: nat, files: map<string, nat>)
    requires n <= |parts|
  {
    && (forall f :: f in files <==> f in b.files || f in parts[..n])
    && (forall f | f in b.files :: files[f] == b.files[f])
    && (forall i | 0 <= i < n :: parts[i] in m.files && parts[i] !in b.files && files[parts[i]] == m.files[parts[i]])
  }

  /** The functions of a file it leaves: the old ones, and a part's new ones at
      their length. */
  ghost predicate FunctionsRecorded(b: Baseline, m: Baseline, parts: seq<string>, n: nat, functions: map<string, map<FnKey, nat>>)
    requires n <= |parts|
  {
    forall file ::
      FnsOf(Baseline(map[], functions), file)
      == FnsOf(b, file) + if file in parts[..n] then NewEntries(b, m, file) else map[]
  }

  /** Every new function of the first n parts has a source. */
  ghost predicate AllSourced(b: Baseline, m: Baseline, parts: seq<string>, n: nat, source: map<FnAt, FnKey>) {
    forall f :: f in source <==> f.0 < n && f.0 < |parts| && f.1 in NewFns(b, m, parts[f.0])
  }

  lemma AddedIsNew(b: Baseline, m: Baseline, file: string, added: map<FnKey, nat>)
    requires AddedSoFar(b, m, file, {}, added, 0)
    ensures added == NewEntries(b, m, file) && added.Keys == NewFns(b, m, file)
  {
    assert NewFns(b, m, file) - {} == NewFns(b, m, file);
  }

  lemma WithFnsOf(functions: map<string, map<FnKey, nat>>, part: string, added: map<FnKey, nat>, file: string)
    ensures FnsOf(Baseline(map[], WithFns(functions, part, added)), file)
         == FnsOf(Baseline(map[], functions), file) + if file == part then added else map[]
  {
  }

  lemma RecordPart(b: Baseline, m: Baseline, parts: seq<string>, i: nat, functions: map<string, map<FnKey, nat>>)
    requires i < |parts| && FunctionsRecorded(b, m, parts, i, functions)
    ensures FunctionsRecorded(b, m, parts, i + 1, WithFns(functions, parts[i], NewEntries(b, m, parts[i])))
  {
    var part := parts[i];
    assert parts[..i + 1] == parts[..i] + [part];
    hide WithFns, NewEntries, NewFns;
    forall file
      ensures FnsOf(Baseline(map[], WithFns(functions, part, NewEntries(b, m, part))), file)
           == FnsOf(b, file) + if file in parts[..i + 1] then NewEntries(b, m, file) else map[]
    {
      assert FnsOf(Baseline(map[], functions), file)
          == FnsOf(b, file) + if file in parts[..i] then NewEntries(b, m, file) else map[];
      WithFnsOf(functions, part, NewEntries(b, m, part), file);
      hide FnsOf;
    }
  }

  /** The first n parts are recorded without a problem. */
  ghost predicate RecordedSoFar(b: Baseline, m: Baseline, parts: seq<string>, from: Option<string>, n: nat,
                                files: map<string, nat>, functions: map<string, map<FnKey, nat>>, source: map<FnAt, FnKey>)
    requires n <= |parts|
  {
    && PartsRecorded(b, m, parts, n, files)
    && (OldEntry(b, from).None? ==> forall k | 0 <= k < n :: parts[k] in m.files && m.files[parts[k]] <= FILE_LIMIT)
    && (from.None? ==> functions == b.functions)
    && (from.Some? ==>
          && (from.value in b.files || from.value in b.functions)
          && (forall k | 0 <= k < n :: parts[k] != from.value)
          && FunctionsRecorded(b, m, parts, n, functions) && AllSourced(b, m, parts, n, source))
  }

  lemma RecordFile(b: Baseline, m: Baseline, parts: seq<string>, i: nat, files: map<string, nat>)
    requires i < |parts| && PartsRecorded(b, m, parts, i, files)
    requires parts[i] in m.files && parts[i] !in b.files
    ensures PartsRecorded(b, m, parts, i + 1, files[parts[i] := m.files[parts[i]]])
  {
    assert parts[..i + 1] == parts[..i] + [parts[i]];
  }

  lemma RecordSources(b: Baseline, m: Baseline, parts: seq<string>, i: nat, source: map<FnAt, FnKey>,
                      added: map<FnKey, nat>, source': map<FnAt, FnKey>)
    requires i < |parts| && AllSourced(b, m, parts, i, source)
    requires AddsSources(source, source', i, added) && added.Keys == NewFns(b, m, parts[i])
    ensures AllSourced(b, m, parts, i + 1, source')
  {
    hide NewFns;
    assert forall k :: k in added <==> k in NewFns(b, m, parts[i]);
  }

  lemma RecordNext(b: Baseline, m: Baseline, parts: seq<string>, from: Option<string>, i: nat, files: map<string, nat>,
                   functions: map<string, map<FnKey, nat>>, source: map<FnAt, FnKey>,
                   added: map<FnKey, nat>, source': map<FnAt, FnKey>)
    requires i < |parts| && RecordedSoFar(b, m, parts, from, i, files, functions, source)
    requires parts[i] in m.files && from != Some(parts[i]) && parts[i] !in b.files
    requires m.files[parts[i]] <= FILE_LIMIT || OldEntry(b, from).Some?
    requires from.Some? ==> AddsSources(source, source', i, added) && AddedSoFar(b, m, parts[i], {}, added, 0)
    ensures RecordedSoFar(b, m, parts, from, i + 1, files[parts[i] := m.files[parts[i]]],
                          if from.None? then functions else WithFns(functions, parts[i], added), source')
  {
    hide PartsRecorded, FunctionsRecorded, AllSourced, AddsSources, AddedSoFar, WithFns, NewFns, NewEntries, OldEntry;
    RecordFile(b, m, parts, i, files);
    if from.Some? {
      AddedIsNew(b, m, parts[i], added);
      RecordPart(b, m, parts, i, functions);
      RecordSources(b, m, parts, i, source, added, source');
    }
  }

  lemma StaysBelow(source: map<FnAt, FnKey>, source': map<FnAt, FnKey>, i: nat, added: map<FnKey, nat>)
    requires Below(source, i)
    ensures Below(source, i + 1) && (AddsSources(source, source', i, added) ==> Below(source', i + 1))
  {
  }

  predicate PartFits(b: Baseline, m: Baseline, from: Option<string>, part: string) {
    part in m.files && from != Some(part) && part !in b.files && (m.files[part] <= FILE_LIMIT || OldEntry(b, from).Some?)
  }

  lemma MoreStuck(b: Baseline, m: Baseline, parts: seq<string>, old_: map<FnKey, nat>, carry: Carry,
                  source: map<FnAt, FnKey>, n: nat)
    ensures StuckBefore(b, m, parts, old_, carry, source, n) ==> StuckBefore(b, m, parts, old_, carry, source, n + 1)
  {
    hide Stuck;
  }

  /** What the files alone can be at fault for. */
  predicate FilesFit(b: Baseline, m: Baseline, parts: seq<string>, from: Option<string>, carry: Carry) {
    && (from.Some? ==> from.value in b.files || from.value in b.functions)
    && (forall p | p in parts :: PartFits(b, m, from, p))
    && (OldEntry(b, from).Some? ==> LinesOf(m, parts) + LinesOf(m, [from.value]) <= OldEntry(b, from).value + carry.total)
  }

  /** Records the parts of a split. Without a problem, each part is recorded at
      its size; each of its new functions has an old entry of its own, no longer
      than that one and its signature lines; and the parts and what is left of the
      split file are no longer together than its entry and the carried lines. There
      is a problem only when a file does not fit or a function is stuck. */
  method Recorded(b: Baseline, m: Baseline, parts: seq<string>, from: Option<string>, carry: Carry)
    returns (out: Baseline, problems: nat, ghost source: map<FnAt, FnKey>)
    ensures problems == 0 ==> PartsRecorded(b, m, parts, |parts|, out.files)
    ensures problems == 0 && from.None? ==> out.functions == b.functions
    ensures problems == 0 && from.Some? ==>
      && from.value !in parts && (from.value in b.files || from.value in b.functions)
      && FunctionsRecorded(b, m, parts, |parts|, out.functions)
      && AllSourced(b, m, parts, |parts|, source) && Sourced(m, parts, FnsOf(b, from.value), carry, source)
    ensures problems == 0 && OldEntry(b, from).None? ==> forall p | p in parts :: p in m.files && m.files[p] <= FILE_LIMIT
    ensures problems == 0 && OldEntry(b, from).Some? ==>
      LinesOf(m, parts) + LinesOf(m, [from.value]) <= OldEntry(b, from).value + carry.total
    ensures problems > 0 ==>
      || !FilesFit(b, m, parts, from, carry)
      || (from.Some? && StuckBefore(b, m, parts, FnsOf(b, from.value), carry, source, |parts|))
  {
    hide StuckBefore, FnsOf, Sourced, Uses, RecordedSoFar, PartsRecorded, FunctionsRecorded, AllSourced, AddsSources, AddedSoFar, Below, LinesOf, WithFns;
    var files: map<string, nat> := b.files;
    var functions := b.functions;
    var oldEntry := OldEntry(b, from);
    var old_ := if from.Some? then FnsOf(b, from.value) else map[];
    problems, source := 0, map[];
    if from.Some? && oldEntry.None? && from.value !in b.functions {
      problems := 1;
    }
    var used: set<FnKey> := {};
    NothingRecorded(b, m, parts, from, old_, carry);
    for i := 0 to |parts|
      invariant Sourced(m, parts, old_, carry, source) && Uses(used, source) && Below(source, i)
      invariant problems == 0 ==> RecordedSoFar(b, m, parts, from, i, files, functions, source)
      invariant problems > 0 ==>
        !FilesFit(b, m, parts, from, carry) || (from.Some? && StuckBefore(b, m, parts, old_, carry, source, i))
    {
      var file := parts[i];
      assert file in parts;
      StaysBelow(source, source, i, map[]);
      MoreStuck(b, m, parts, old_, carry, source, i);
      if file !in m.files || from == Some(file) || file in b.files {
        problems := problems + 1;
        continue;
      }
      var lines := m.files[file];
      ghost var wasFiles, before := files, source;
      var small := lines <= FILE_LIMIT || oldEntry.Some?;
      if !small {
        problems := problems + 1;
      } else {
        files := files[file := lines];
      }
      if from.None? {
        if problems == 0 {
          RecordNext(b, m, parts, from, i, wasFiles, functions, before, map[], source);
        }
        continue;
      }
      var added, more;
      added, more, used, source := RecordFunctions(b, m, parts, i, old_, carry, used, source);
      StaysBelow(before, source, i, added);
      if StuckBefore(b, m, parts, old_, carry, before, i) {
        StaysStuckBefore(b, m, parts, old_, carry, before, source, i, added);
      }
      if problems == 0 && more == 0 {
        RecordNext(b, m, parts, from, i, wasFiles, functions, before, added, source);
      }
      functions := WithFns(functions, file, added);
      problems := problems + more;
    }
    if problems == 0 {
      AllRecorded(b, m, parts, from, files, functions, source);
    }
    if oldEntry.Some? && LinesOf(m, parts) + LinesOf(m, [from.value]) > oldEntry.value + carry.total {
      problems := problems + 1;
    }
    out := Baseline(files, functions);
  }

  lemma NothingRecorded(b: Baseline, m: Baseline, parts: seq<string>, from: Option<string>, old_: map<FnKey, nat>, carry: Carry)
    ensures from.None? || from.value in b.files || from.value in b.functions
            ==> RecordedSoFar(b, m, parts, from, 0, b.files, b.functions, map[])
    ensures Sourced(m, parts, old_, carry, map[]) && Uses({}, map[]) && Below(map[], 0)
  {
    forall file
      ensures FnsOf(Baseline(map[], b.functions), file) == FnsOf(b, file) + map[]
    {
    }
  }

  lemma AllRecorded(b: Baseline, m: Baseline, parts: seq<string>, from: Option<string>, files: map<string, nat>,
                    functions: map<string, map<FnKey, nat>>, source: map<FnAt, FnKey>)
    requires RecordedSoFar(b, m, parts, from, |parts|, files, functions, source)
    ensures PartsRecorded(b, m, parts, |parts|, files)
    ensures OldEntry(b, from).None? ==> forall p | p in parts :: p in m.files && m.files[p] <= FILE_LIMIT
    ensures from.None? ==> functions == b.functions
    ensures from.Some? ==>
      && from.value !in parts && (from.value in b.files || from.value in b.functions)
      && FunctionsRecorded(b, m, parts, |parts|, functions) && AllSourced(b, m, parts, |parts|, source)
  {
    hide PartsRecorded, FunctionsRecorded, AllSourced;
  }
}
