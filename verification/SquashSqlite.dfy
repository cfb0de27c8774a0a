/** What a squash recovery does on SQLite over a whole journal: exactly when it
    commits, which cells it keeps, where its tables end, and how a dropped column can
    come back. */
module SquashSqlite {
  import opened Options
  import opened Lists
  import opened Schema
  import opened Replay
  import opened Recreate
  import opened SqliteTables
  import opened SqliteColumns
  import opened SqliteRows
  import opened SqliteIndexes
  import opened UpgradeGate
  import opened Migration
  import opened SquashTheorems

  /** The table's columns in the snapshot before entry k's, and in entry k's. */
  function ColumnsBefore(r: Release, k: nat, t: string): set<string>
    requires WellFormed(r) && k < |r.journal|
  {
    if k == 0 then {} else ColumnsAt(r.snapshots[k - 1].columns, t)
  }

  function ColumnsWith(r: Release, k: nat, t: string): set<string>
    requires WellFormed(r) && k < |r.journal|
  {
    ColumnsAt(r.snapshots[k].columns, t)
  }

  /** Entry k's recreate of a table, whatever the table has. It runs if and only if the
      table has the new one's columns and, besides, only columns that the snapshot
      before has and entry k's has not; otherwise nothing changes. Where it runs, a row
      with a null where the new table takes none stops the replay, and else the table
      has exactly the new one's columns. */
  lemma RecreateBySnapshots(r: Release, k: nat, db: Database, t: string, cols: set<string>, required: set<string>)
    requires WellFormed(r) && k < |r.journal| && t in db.tables && TempName(t) !in db.tables
    ensures var ran, have := ReplayStep(db, Unit(t, Standard(t, cols, required)), OwnDrops(r, k)), db.tables[t].columns.Keys;
            if !(cols <= have <= cols + (ColumnsBefore(r, k, t) - ColumnsWith(r, k, t))) then ran == Some(db)
            else if HasNullIn(db.tables[t], cols * required) then ran == None
            else ran.Some? && ShapeOf(ran.value).tables == ShapeOf(db).tables[t := cols]
  {
    var own := OwnDrops(r, k);
    assert (if t in own then own[t] else {}) == ColumnsBefore(r, k, t) - ColumnsWith(r, k, t);
    RecreateIsWholeOrNothing(db, t, cols, required, if t in own then own[t] else {});
    hide ReplayUnit, Standard, OwnDrops, HasNullIn;
  }

  /** So over a table exactly as the snapshot before has it, entry k's recreate leaves
      it exactly as entry k's snapshot has it, or stops at a null; over one with a column
      that neither snapshot has, it changes nothing. */
  lemma RecreateFollowsSnapshots(r: Release, k: nat, db: Database, t: string, required: set<string>)
    requires WellFormed(r) && k < |r.journal| && t in db.tables && TempName(t) !in db.tables
    requires ColumnsWith(r, k, t) <= db.tables[t].columns.Keys
    ensures var ran := ReplayStep(db, Unit(t, Standard(t, ColumnsWith(r, k, t), required)), OwnDrops(r, k));
            var have := db.tables[t].columns.Keys;
            && (have == ColumnsBefore(r, k, t) && !HasNullIn(db.tables[t], ColumnsWith(r, k, t) * required) ==>
                  ran.Some? && ShapeOf(ran.value).tables == ShapeOf(db).tables[t := ColumnsWith(r, k, t)])
            && (have == ColumnsBefore(r, k, t) && HasNullIn(db.tables[t], ColumnsWith(r, k, t) * required) ==> ran == None)
            && (have <= ColumnsBefore(r, k, t) + ColumnsWith(r, k, t) || ran == Some(db))
  {
    RecreateBySnapshots(r, k, db, t, ColumnsWith(r, k, t), required);
    hide ReplayStep, Standard, OwnDrops, HasNullIn;
  }

  /** A step that may leave the column alone: no statement drops or renames its table or
      drops it or copies into the table, and a recreate is as drizzle-kit writes it. */
  ghost predicate Leaves(step: Step, t: string, c: string) {
    match step
    case Single(st) =>
      st != DropTable(t) && st != DropColumn(t, c)
      && !(st.RenameTable? && st.from == t) && !(st.CopyRows? && st.to == t)
    case Unit(table, body) => TempName(table) != t && exists cols, required :: body == Standard(table, cols, required)
  }

  /** No entry of the journal drops the column or its table: no statement does, and no
      entry's snapshot lacks it when the one before has it. */
  ghost predicate NoEntryDrops(r: Release, t: string, c: string)
    requires WellFormed(r)
  {
    forall k | 0 <= k < |r.journal| && r.journal[k].file.Some? ::
      && (c in ColumnsBefore(r, k, t) ==> c in ColumnsWith(r, k, t))
      && forall s | s in Plan(r.journal[k].file.value.statements, 0) :: Leaves(s, t, c)
  }

  lemma LeavesIsSpared(r: Release, k: nat, s: Step, t: string, c: string)
    requires WellFormed(r) && k < |r.journal| && Leaves(s, t, c) && (c in ColumnsBefore(r, k, t) ==> c in ColumnsWith(r, k, t))
    ensures Spares(s, OwnDrops(r, k), t, c)
  {
  }

  lemma {:induction false} EntriesSpare(r: Release, db: Database, k: nat, t: string, c: string)
    requires WellFormed(r) && r.dialect == Sqlite && k <= |r.journal| && NoEntryDrops(r, t, c)
    requires HasColumn(ShapeOf(db), t, c) && ReplayEntries(r, db, k).Some?
    ensures SameCells(db, ReplayEntries(r, db, k).value, t, c)
    decreases |r.journal| - k
  {
    hide ReplaySteps, Plan, Spares, Leaves, OwnDrops, ColumnsBefore, ColumnsWith;
    if k < |r.journal| {
      match r.journal[k].file {
        case None => EntriesSpare(r, db, k + 1, t, c);
        case Some(file) =>
          var steps := Plan(file.statements, 0);
          assert forall s | s in steps && s.Unit? :: |s.body| >= 2;
          forall s | s in steps
            ensures Spares(s, OwnDrops(r, k), t, c)
          {
            LeavesIsSpared(r, k, s, t, c);
          }
          FileSpares(db, steps, OwnDrops(r, k), t, c);
          EntriesSpare(r, ReplayFile(r, k, file.statements, db).value, k + 1, t, c);
      }
    }
  }

  /** A SQLite database keeps every row and cell of a column no journal entry
      drops through a squash recovery, whatever release it came from: a column
      a newer release added, or one added by hand. */
  lemma SquashKeepsForeignColumns(
    r: Release, op: Operator, inst: Install, fault: Fault, t: string, c: string)
    requires WellFormed(r) && r.dialect == Sqlite && NoEntryDrops(r, t, c)
    requires HasColumn(ShapeOf(inst.db), t, c) && Migrate(r, op, inst, fault).squashed
    ensures SameCells(inst.db, Migrate(r, op, inst, fault).install.db, t, c)
  {
    hide RefusalOf, NoEntryDrops;
    SquashIsTheOnlyChange(r, op, inst, fault);
    EntriesSpare(r, inst.db, 0, t, c);
  }

  // ------------------------------------------------------- where the tables end

  function OwnSteps(steps: seq<Step>, own: map<string, set<string>>): (r: seq<OwnStep>)
    ensures |r| == |steps|
  {
    if steps == [] then [] else [OwnStep(steps[0], own)] + OwnSteps(steps[1..], own)
  }

  function EntrySteps(r: Release, k: nat): seq<OwnStep>
    requires WellFormed(r) && k < |r.journal|
  {
    match r.journal[k].file
    case None => []
    case Some(file) => OwnSteps(Plan(file.statements, 0), OwnDrops(r, k))
  }

  /** The steps of the entries from k on, each with the columns its entry drops. */
  function FlatSteps(r: Release, k: nat): seq<OwnStep>
    requires WellFormed(r) && k <= |r.journal|
    decreases |r.journal| - k
  {
    if k == |r.journal| then [] else EntrySteps(r, k) + FlatSteps(r, k + 1)
  }

  ghost predicate AllRegular(steps: seq<OwnStep>) {
    forall s | s in steps :: Regular(s)
  }

  lemma RegularParts(a: seq<OwnStep>, b: seq<OwnStep>)
    ensures AllRegular(a + b) <==> AllRegular(a) && AllRegular(b)
  {
    assert forall s :: s in a + b <==> s in a || s in b;
  }

  lemma {:induction false} ReplayOwnConcat(db: Database, a: seq<OwnStep>, b: seq<OwnStep>, j: nat)
    requires AllRegular(a) && AllRegular(b) && AllRegular(a + b) && j <= |b|
    ensures ReplayOwn(db, a + b, |a| + j)
         == match ReplayOwn(db, a, |a|) case None => None case Some(mid) => ReplayOwn(mid, b, j)
  {
    hide ReplayStep, Regular;
    if j == 0 {
      ReplayOwnPrefix(db, a, b, |a|);
    } else {
      ReplayOwnConcat(db, a, b, j - 1);
      assert (a + b)[|a| + j - 1] == b[j - 1];
    }
  }

  lemma {:induction false} ReplayOwnPrefix(db: Database, a: seq<OwnStep>, b: seq<OwnStep>, k: nat)
    requires AllRegular(a) && AllRegular(a + b) && k <= |a|
    ensures ReplayOwn(db, a + b, k) == ReplayOwn(db, a, k)
  {
    hide ReplayStep, Regular;
    if k > 0 {
      ReplayOwnPrefix(db, a, b, k - 1);
    }
  }

  lemma ReplayOfOne(db: Database, s: OwnStep)
    requires Regular(s)
    ensures ReplayOwn(db, [s], 1) == ReplayStep(db, s.step, s.own)
  {
    assert ReplayOwn(db, [s], 0) == Some(db);
    assert [s][0] == s;
  }

  lemma ReplayOfNone(db: Database)
    ensures ReplayOwn(db, [], 0) == Some(db)
  {
  }

  lemma {:induction false} StepsAreOwn(db: Database, steps: seq<Step>, own: map<string, set<string>>)
    requires AllRegular(OwnSteps(steps, own)) && forall s | s in steps && s.Unit? :: s.body != []
    ensures ReplaySteps(db, steps, own) == ReplayOwn(db, OwnSteps(steps, own), |steps|)
    decreases |steps|
  {
    hide ReplayStep, Regular, ReplayOwn;
    if steps == [] {
      ReplayOfNone(db);
    } else {
      var first, rest := [OwnStep(steps[0], own)], OwnSteps(steps[1..], own);
      RegularParts(first, rest);
      assert first[0] in first;
      ReplayOfOne(db, first[0]);
      ReplayOwnConcat(db, first, rest, |rest|);
      if ReplayStep(db, steps[0], own).Some? {
        StepsAreOwn(ReplayStep(db, steps[0], own).value, steps[1..], own);
      }
    }
  }

  /** On SQLite the squash is one replay of the whole journal's steps. */
  lemma {:induction false} EntriesReplaySteps(r: Release, db: Database, k: nat)
    requires WellFormed(r) && r.dialect == Sqlite && k <= |r.journal| && AllRegular(FlatSteps(r, k))
    ensures ReplayEntries(r, db, k) == ReplayOwn(db, FlatSteps(r, k), |FlatSteps(r, k)|)
    decreases |r.journal| - k
  {
    hide ReplayStep, Regular, OwnSteps, ReplaySteps, Plan, OwnDrops;
    if k < |r.journal| {
      var own, rest := EntrySteps(r, k), FlatSteps(r, k + 1);
      RegularParts(own, rest);
      match r.journal[k].file {
        case None =>
          assert FlatSteps(r, k) == rest;
          EntriesReplaySteps(r, db, k + 1);
        case Some(file) =>
          var steps := Plan(file.statements, 0);
          StepsAreOwn(db, steps, OwnDrops(r, k));
          ReplayOwnConcat(db, own, rest, |rest|);
          var next := ReplaySteps(db, steps, OwnDrops(r, k));
          if next.Some? {
            EntriesReplaySteps(r, next.value, k + 1);
          }
      }
    }
  }

  ghost predicate RestIs(all: seq<OwnStep>, n: nat, rest: seq<OwnStep>) {
    n <= |all| && all[n..] == rest
  }

  /** The number of steps of the first i entries. */
  function StepsBefore(r: Release, i: nat): (n: nat)
    requires WellFormed(r) && i <= |r.journal|
    ensures RestIs(FlatSteps(r, 0), n, FlatSteps(r, i))
  {
    if i == 0 then 0
    else
      hide RestIs, EntrySteps;
      var m, own := StepsBefore(r, i - 1), EntrySteps(r, i - 1);
      AfterThose(FlatSteps(r, 0), m, own, FlatSteps(r, i));
      m + |own|
  }

  lemma AfterThose(all: seq<OwnStep>, m: nat, own: seq<OwnStep>, rest: seq<OwnStep>)
    requires RestIs(all, m, own + rest)
    ensures RestIs(all, m + |own|, rest)
  {
    assert |all| - m == |own| + |rest|;
    assert all[m + |own|..] == all[m..][|own|..];
  }

  /** A SQLite release whose journal runs on a fresh install, each file plain
      statements and recreates, and which ships the schema after each entry; snaps[k]
      is the schema after k of the steps. */
  ghost predicate ShipsSteps(r: Release, snaps: seq<Shape>) {
    && WellFormed(r) && r.dialect == Sqlite && r.journal != []
    && InstallsSteps(FlatSteps(r, 0), snaps) && NoNameReturns(snaps)
    && forall i | 0 <= i < |r.journal| :: r.snapshots[i] == SnapshotOf(snaps[StepsBefore(r, i + 1)])
  }

  lemma ShippedSteps(r: Release, snaps: seq<Shape>)
    requires ShipsSteps(r, snaps)
    ensures WellFormed(r) && r.dialect == Sqlite && r.journal != []
    ensures InstallsSteps(FlatSteps(r, 0), snaps) && NoNameReturns(snaps)
    ensures |snaps| == |FlatSteps(r, 0)| + 1 && AllRegular(FlatSteps(r, 0))
    ensures r.snapshots[|r.journal| - 1] == SnapshotOf(snaps[|snaps| - 1])
  {
    assert FlatSteps(r, |r.journal|) == [];
    assert StepsBefore(r, |r.journal|) == |FlatSteps(r, 0)|;
  }

  /** What decides a recovery on SQLite if nothing outside fails: no row of the
      database stops the replay, and the last snapshot's indexes are there after
      it. */
  ghost predicate SqliteAllows(r: Release, snaps: seq<Shape>, db: Database)
    requires ShipsSteps(r, snaps)
  {
    ShippedSteps(r, snaps);
    var steps := FlatSteps(r, 0);
    && Passes(steps, db, |steps|)
    && snaps[|snaps| - 1].indexes.Keys <= ShapesBy(steps, ShapeOf(db), |steps|).indexes.Keys
  }

  lemma CompleteTables(r: Release, snaps: seq<Shape>, after: Database)
    requires ShipsSteps(r, snaps)
    requires var tables, last := ShapeOf(after).tables, snaps[|snaps| - 1].tables;
             tables.Keys == last.Keys && forall t | t in last :: last[t] <= tables[t]
    ensures SchemaComplete(r, after) <==> snaps[|snaps| - 1].indexes.Keys <= after.indexes.Keys
  {
    ShippedSteps(r, snaps);
    hide ShipsSteps, InstallsSteps, NoNameReturns;
  }

  /** The tables and cells after a recovery, of a database at step p. */
  ghost predicate EndsAs(r: Release, snaps: seq<Shape>, p: nat, db: Database, after: Database)
    requires ShipsSteps(r, snaps) && p < |snaps|
  {
    ShippedSteps(r, snaps);
    var steps, last := FlatSteps(r, 0), snaps[|snaps| - 1].tables;
    var tables := ShapeOf(after).tables;
    && ShapeOf(after) == ShapesBy(steps, ShapeOf(db), |steps|)
    && tables.Keys == last.Keys && (forall t | t in last :: last[t] <= tables[t])
    && (OwnIsThere(steps, snaps) ==>
          && (forall t | t in last :: tables[t] == last[t] + Back(steps, snaps, p, |steps|, t))
          && (tables == last <==> forall d, t | 0 <= d < p && t in last :: !Blocks(steps, snaps, p, d, t)))
    && (forall t, c | HasColumn(ShapeOf(db), t, c) && HasColumn(ShapeOf(after), t, c) :: SameCells(db, after, t, c))
  }

  lemma SqliteRecoveryReplay(r: Release, snaps: seq<Shape>, p: nat, db: Database)
    requires ShipsSteps(r, snaps) && p < |snaps| && ShapeOf(db).tables == snaps[p].tables
    ensures (match ReplayEntries(r, db, 0) case None => false case Some(after) => SchemaComplete(r, after))
       <==> SqliteAllows(r, snaps, db)
    ensures match ReplayEntries(r, db, 0) case None => true case Some(after) => EndsAs(r, snaps, p, db, after)
  {
    hide ShipsSteps, FlatSteps, ReplayEntries, ReplayOwn, InstallsSteps, NoNameReturns, Passes, ShapesBy, SteppedBy, Back, Blocks, OwnIsThere, SchemaComplete, HadFrom, Regains, SameCells, HasColumn, Regular;
    ShippedSteps(r, snaps);
    var steps := FlatSteps(r, 0);
    EntriesReplaySteps(r, db, 0);
    SqliteReplayConverges(steps, snaps, p, db);
    SqliteTablesConverge(steps, snaps, p);
    if OwnIsThere(steps, snaps) {
      SqliteColumnsExactly(steps, snaps, p);
    }
    if ReplayEntries(r, db, 0).Some? {
      CompleteTables(r, snaps, ReplayEntries(r, db, 0).value);
    }
  }

  /** A SQLite database with the tables of any step of the journal, let through by
      the gate and in need of a recovery. If nothing outside fails and a backup is
      written or overridden, the recovery commits if and only if none of its rows
      stops the replay and the last snapshot's indexes are there after it. Whenever it
      commits, each of the last snapshot's tables has its columns there and exactly
      those besides that came back; nothing comes back if and only if no recreate
      blocks; and every row and cell of a column it had and has is kept. */
  lemma SqliteSquashTables(r: Release, op: Operator, inst: Install, fault: Fault, snaps: seq<Shape>, p: nat)
    requires ShipsSteps(r, snaps) && p < |snaps| && ShapeOf(inst.db).tables == snaps[p].tables
    ensures var report := Migrate(r, op, inst, fault);
            && (report.squashed ==> SqliteAllows(r, snaps, inst.db) && EndsAs(r, snaps, p, inst.db, report.install.db))
            && (NeedsSquash(r, inst) && RefusalOf(r.journal, ColumnSnaps(r), Elements(inst.rows), Tables(inst.db)) == None
                && fault == Never && (op.canWriteBackup || op.skipBackup) ==>
                  && (report.squashed <==> SqliteAllows(r, snaps, inst.db))
                  && (!report.squashed ==> Unchanged(report.install, inst) && report.failure.Some?))
  {
    hide ShipsSteps, SqliteAllows, EndsAs, ReplayEntries, SchemaComplete, RefusalOf, NeedsRecovery, Label, PendingTags, PendingHashes, ApplyEntries, ShapeOf, Tables;
    ShippedSteps(r, snaps);
    SqliteRecoveryReplay(r, snaps, p, inst.db);
    if Migrate(r, op, inst, fault).squashed {
      SquashIsTheOnlyChange(r, op, inst, fault);
    }
    if NeedsSquash(r, inst) && Squash(r, op, inst, fault).squashed
       && RefusalOf(r.journal, ColumnSnaps(r), Elements(inst.rows), Tables(inst.db)) == None {
      SquashedIsMigrated(r, op, inst, fault);
    }
  }
  /** Where an index name always means the same index, the rows alone decide. */
  lemma RowsDecideSqlite(r: Release, snaps: seq<Shape>, p: nat, db: Database)
    requires ShipsSteps(r, snaps) && p < |snaps| && ShapeOf(db) == snaps[p] && OneDefinition(snaps)
    ensures AllRegular(FlatSteps(r, 0))
    ensures SqliteAllows(r, snaps, db) <==> Passes(FlatSteps(r, 0), db, |FlatSteps(r, 0)|)
  {
    hide ShipsSteps, FlatSteps, InstallsSteps, NoNameReturns, Passes, ShapesBy, OneDefinition, IndexesKept;
    ShippedSteps(r, snaps);
    IndexesThere(FlatSteps(r, 0), snaps, p, db, |FlatSteps(r, 0)|);
  }

  // A journal that makes a table, adds a column, drops it and drops another.
  const FIRST := Entry("0000", Some(File("h0", [CreateTable("x", {"id", "a"}, {})])))
  const ADDS_B := Entry("0001", Some(File("h1", [AddColumn("x", "b", Null, false)])))
  const DROPS_B := Entry("0002", Some(File("h2", Standard("x", {"id", "a"}, {}))))
  const DROPS_A := Entry("0003", Some(File("h3", Standard("x", {"id"}, {}))))
  const SNAPS := [Snapshot(map["x" := {"id", "a"}], {}), Snapshot(map["x" := {"id", "a", "b"}], {}),
                  Snapshot(map["x" := {"id", "a"}], {}), Snapshot(map["x" := {"id"}], {})]
  const TWO_DROPS := Release(Sqlite, [FIRST, ADDS_B, DROPS_B, DROPS_A], SNAPS)

  function OneTable(cols: set<string>): Database {
    Database(map["x" := Table({}, map c | c in cols :: map[])], map[], {})
  }

  lemma OneTableShape(cols: set<string>)
    ensures Tables(OneTable(cols)) == map["x" := cols] && OneTable(cols).tables["x"].columns.Keys == cols
  {
    assert OneTable(cols).tables["x"].columns.Keys == cols;
    assert Tables(OneTable(cols)).Keys == {"x"};
  }

  lemma PlanOfOne(st: Statement)
    requires UnitTable(st) == None
    ensures Plan([st], 0) == [Single(st)]
  {
    assert Plan([st], 1) == [];
  }

  lemma StepsOfOne(db: Database, step: Step, drops: map<string, set<string>>)
    requires step.Unit? ==> step.body != []
    ensures ReplaySteps(db, [step], drops) == ReplayStep(db, step, drops)
  {
    hide ReplayStep;
    assert [step][1..] == [];
  }

  lemma MadeAlready(cols: set<string>, more: set<string>, drops: map<string, set<string>>)
    ensures ReplaySteps(OneTable(cols), Plan([CreateTable("x", more, {})], 0), drops) == Some(OneTable(cols))
  {
    assert |"x"| == 1;
    PlanOfOne(CreateTable("x", more, {}));
    StepsOfOne(OneTable(cols), Single(CreateTable("x", more, {})), drops);
    OneTableShape(cols);
    assert Exec(OneTable(cols), CreateTable("x", more, {})) == Failed(DuplicateTable);
  }

  lemma AddedAgain(cols: set<string>, c: string, drops: map<string, set<string>>)
    requires c !in cols
    ensures ReplaySteps(OneTable(cols), Plan([AddColumn("x", c, Null, false)], 0), drops) == Some(OneTable(cols + {c}))
  {
    var db, add := OneTable(cols), AddColumn("x", c, Null, false);
    PlanOfOne(add);
    StepsOfOne(db, Single(add), drops);
    OneTableShape(cols);
    var was := db.tables["x"];
    var after := was.(columns := was.columns[c := map r | r in was.rows :: Null]);
    assert after.columns == OneTable(cols + {c}).tables["x"].columns;
    assert Exec(db, add) == Applied(Database(db.tables["x" := after], map[], {}));
    assert db.tables["x" := after] == OneTable(cols + {c}).tables;
  }

  lemma RecreateSkipped(cols: set<string>, kept: set<string>, own: set<string>)
    requires !(kept <= cols <= kept + own)
    ensures ReplaySteps(OneTable(cols), Plan(Standard("x", kept, {}), 0), map["x" := own]) == Some(OneTable(cols))
  {
    var db := OneTable(cols);
    OneTableShape(cols);
    StandardIsOneStep("x", kept, {});
    RecreateIsWholeOrNothing(db, "x", kept, {}, own);
    assert !Fits(db, "x", kept, own);
    hide ReplayUnit, Standard, OneTable;
    StepsOfOne(db, Unit("x", Standard("x", kept, {})), map["x" := own]);
  }

  lemma OwnDropsAt()
    ensures OwnDrops(TWO_DROPS, 2) == map["x" := {"b"}] && OwnDrops(TWO_DROPS, 3) == map["x" := {"a"}]
  {
    assert {"id", "a", "b"} - {"id", "a"} == {"b"} && {"id", "a"} - {"id"} == {"a"};
  }

  /** What a recreate keeps, a replay can bring back: on this journal a SQLite
      database exactly at the last snapshot gets the second column again, the
      recreate that drops it is skipped for lack of the first one, and the next
      one will not drop what is not its own. The replay counts as complete. */
  lemma DroppedColumnCanComeBack()
    ensures Tables(OneTable({"id"})) == SNAPS[3].columns
    ensures ReplayEntries(TWO_DROPS, OneTable({"id"}), 0) == Some(OneTable({"id", "b"}))
    ensures SchemaComplete(TWO_DROPS, OneTable({"id", "b"}))
  {
    hide ReplaySteps, Plan, Standard, OneTable, OwnDrops;
    OwnDropsAt();
    OneTableShape({"id"});
    OneTableShape({"id", "b"});
    MadeAlready({"id"}, {"id", "a"}, OwnDrops(TWO_DROPS, 0));
    AddedAgain({"id"}, "b", OwnDrops(TWO_DROPS, 1));
    assert {"id"} + {"b"} == {"id", "b"};
    RecreateSkipped({"id", "b"}, {"id", "a"}, {"b"});
    RecreateSkipped({"id", "b"}, {"id"}, {"a"});
    var more := OneTable({"id", "b"});
    assert ReplayEntries(TWO_DROPS, more, 4) == Some(more);
    assert ReplayEntries(TWO_DROPS, more, 3) == Some(more);
    assert ReplayEntries(TWO_DROPS, more, 2) == Some(more);
    assert ReplayEntries(TWO_DROPS, OneTable({"id"}), 1) == Some(more);
  }
}
