/** What applying the pending migrations does on SQLite, exactly when it commits. */
module PendingSqlite {
  import opened Options
  import opened Lists
  import opened Schema
  import opened Replay
  import opened ReplayRows
  import opened Recreate
  import opened SqliteTables
  import opened SqliteRows
  import opened UpgradeGate
  import opened Migration
  import opened SquashTheorems
  import opened SquashSqlite
  import opened PendingTheorems

  // ----------------------------------------------------------------- one step

  /** Where a step applies, run strictly it does what it does in a replay. */
  lemma StepStrictly(mid: Database, o: OwnStep)
    requires Regular(o) && Applies(ShapeOf(mid), o)
    ensures match ReplayStep(mid, o.step, o.own)
            case None => ExecAll(mid, StatementsIn(o.step)).Failed?
            case Some(after) => ExecAll(mid, StatementsIn(o.step)) == Applied(after)
  {
    match o.step {
      case Single(st) =>
        ExecOne(mid, st);
        RowsDecide(mid, st);
        hide ExecAll, EffectOn, HasDuplicates, CopiesNull;
      case Unit(t, body) =>
        assert Fits(mid, t, UnitColumns(o), OwnOf(o, t));
        UnitStrictly(mid, t, UnitColumns(o), body[0].required, OwnOf(o, t));
        hide ExecAll, ReplayUnit, Standard;
    }
  }

  // ----------------------------------------------------------- along the journal

  function StatementsBy(steps: seq<OwnStep>): seq<Statement> {
    if steps == [] then [] else StatementsBy(steps[..|steps| - 1]) + StatementsIn(steps[|steps| - 1].step)
  }

  /** Steps p to k, none skipped. */
  function Running(steps: seq<OwnStep>, db: Database, p: nat, k: nat): Outcome
    requires p <= k <= |steps|
  {
    ExecAll(db, StatementsBy(steps[p..k]))
  }

  lemma RunningNext(steps: seq<OwnStep>, db: Database, p: nat, k: nat)
    requires p <= k < |steps|
    ensures Running(steps, db, p, k + 1)
         == match Running(steps, db, p, k) case Failed(code) => Failed(code) case Applied(mid) => ExecAll(mid, StatementsIn(steps[k].step))
  {
    hide ExecAll, StatementsIn;
    assert steps[p..k + 1][..k - p] == steps[p..k] && steps[p..k + 1][k - p] == steps[k];
    ExecAllConcat(db, StatementsBy(steps[p..k]), StatementsIn(steps[k].step));
  }

  lemma RunningNone(steps: seq<OwnStep>, db: Database, p: nat)
    requires p <= |steps|
    ensures Running(steps, db, p, p) == Applied(db)
  {
    assert steps[p..p] == [];
  }

  ghost predicate AtSnapshot(steps: seq<OwnStep>, snaps: seq<Shape>, p: nat, db: Database, k: nat, mid: Database)
    requires (forall s | s in steps :: Regular(s)) && k <= |steps| && k < |snaps|
  {
    ShapeOf(mid) == snaps[k] && RowsKept(db, mid, Leads(steps), k)
  }

  lemma SnapshotStep(steps: seq<OwnStep>, snaps: seq<Shape>, p: nat, db: Database, k: nat, mid: Database)
    requires StandsAtStep(steps, snaps, p, db) && p <= k < |steps| && Regular(steps[k])
    requires AtSnapshot(steps, snaps, p, db, k, mid)
    ensures Applies(ShapeOf(mid), steps[k])
    ensures ReplayStep(mid, steps[k].step, steps[k].own) == None <==> RowsRefuseStep(steps, db, k)
    ensures ReplayStep(mid, steps[k].step, steps[k].own).Some? ==>
              AtSnapshot(steps, snaps, p, db, k + 1, ReplayStep(mid, steps[k].step, steps[k].own).value)
  {
    assert Applies(snaps[k], steps[k]) && snaps[k + 1] == StepShape(snaps[k], steps[k]);
    hide InstallsSteps, NoNameReturns, RowsKept, AddsOnce, ReplayStep, RefusedBy, RowsRefuseStep, Applies, StepShape, MakesNew;
    StepStops(mid, steps[k]);
    StepsAddOnce(steps, snaps);
    NewFromThere(steps, snaps, p, k);
    RefusedAsTold(steps, db, k, mid);
    if ReplayStep(mid, steps[k].step, steps[k].own).Some? {
      OwnRowsStep(db, mid, Leads(steps), k, steps[k]);
    }
  }

  lemma NewFromThere(steps: seq<OwnStep>, snaps: seq<Shape>, p: nat, k: nat)
    requires InstallsSteps(steps, snaps) && NoNameReturns(snaps) && |snaps| == |steps| + 1 && p <= k < |steps|
    ensures steps[k].step.Single? ==> MakesNew(snaps[p].tables, snaps[k].tables, steps[k].step.st)
  {
    if steps[k].step.Single? {
      var st := steps[k].step.st;
      JournalStep(steps, snaps, k);
      hide InstallsSteps, NoNameReturns;
      if st.CreateTable? && st.table in snaps[p].tables {
        Stays(snaps, p, k, k + 1, TableName(st.table));
      }
      if st.AddColumn? && HasColumn(snaps[p], st.table, st.column) {
        Stays(snaps, p, k, k + 1, ColumnName(st.table, st.column));
      }
    }
  }

  /** A SQLite database exactly at a step of the journal takes the rest, none skipped,
      if and only if none of its rows refuses a step from there on; then it is exactly
      at the journal's own schema, with its rows and cells kept. */
  lemma {:induction false} StepsRunStrictly(steps: seq<OwnStep>, snaps: seq<Shape>, p: nat, db: Database, k: nat)
    requires StandsAtStep(steps, snaps, p, db) && ShapeOf(db) == snaps[p] && p <= k <= |steps|
    ensures Running(steps, db, p, k).Applied? <==> forall j | p <= j < k :: !RowsRefuseStep(steps, db, j)
    ensures Running(steps, db, p, k).Applied? ==> AtSnapshot(steps, snaps, p, db, k, Running(steps, db, p, k).db)
    decreases k
  {
    hide InstallsSteps, NoNameReturns, Running, AtSnapshot, RowsRefuseStep, Regular, ReplayStep, ExecAll, StatementsIn;
    if k == p {
      RunningNone(steps, db, p);
      AtFirst(steps, snaps, p, db);
    } else {
      StepsRunStrictly(steps, snaps, p, db, k - 1);
      RunningNext(steps, db, p, k - 1);
      assert steps[k - 1] in steps;
      if Running(steps, db, p, k - 1).Applied? {
        var mid := Running(steps, db, p, k - 1).db;
        SnapshotStep(steps, snaps, p, db, k - 1, mid);
        StepStrictly(mid, steps[k - 1]);
      }
    }
  }

  lemma AtFirst(steps: seq<OwnStep>, snaps: seq<Shape>, p: nat, db: Database)
    requires StandsAtStep(steps, snaps, p, db) && ShapeOf(db) == snaps[p]
    ensures AtSnapshot(steps, snaps, p, db, p, db)
  {
    NothingChangedYet(db, Leads(steps), p);
  }

  // ------------------------------------------------------------ the whole journal

  lemma {:induction false} StatementsConcat(a: seq<OwnStep>, b: seq<OwnStep>)
    ensures StatementsBy(a + b) == StatementsBy(a) + StatementsBy(b)
    decreases |b|
  {
    hide StatementsIn, StatementsBy;
    if b == [] {
      NoStatements();
      assert a + b == a;
    } else {
      var init, last := b[..|b| - 1], b[|b| - 1];
      StatementsConcat(a, init);
      LastStatements(a + init, last);
      LastStatements(init, last);
      assert init + [last] == b && (a + init) + [last] == a + b;
    }
  }

  lemma LastStatements(steps: seq<OwnStep>, last: OwnStep)
    ensures StatementsBy(steps + [last]) == StatementsBy(steps) + StatementsIn(last.step)
  {
    hide StatementsIn;
    assert (steps + [last])[..|steps|] == steps;
  }

  lemma StatementsOfOne(o: OwnStep)
    ensures StatementsBy([o]) == StatementsIn(o.step)
  {
    assert [o][..0] == [];
    assert StatementsBy([]) == [];
  }

  lemma {:induction false} StatementsOfOwn(steps: seq<Step>, own: map<string, set<string>>)
    ensures StatementsBy(OwnSteps(steps, own)) == StatementsOf(steps)
    decreases |steps|
  {
    hide StatementsIn, StatementsBy;
    if steps == [] {
      NoStatements();
    } else {
      StatementsOfOwn(steps[1..], own);
      StatementsConcat([OwnStep(steps[0], own)], OwnSteps(steps[1..], own));
      StatementsOfOne(OwnStep(steps[0], own));
    }
  }

  lemma NoStatements()
    ensures StatementsBy([]) == []
  {
  }

  /** The steps of the journal are its statements. */
  lemma {:induction false} FlatIsSteps(r: Release, k: nat)
    requires WellFormed(r) && k <= |r.journal|
    ensures StatementsBy(FlatSteps(r, k)) == Flat(r.journal, k)
    decreases |r.journal| - k
  {
    hide StatementsIn, StatementsBy, OwnDrops, OwnSteps, Plan;
    NoStatements();
    if k < |r.journal| {
      FlatIsSteps(r, k + 1);
      StatementsConcat(EntrySteps(r, k), FlatSteps(r, k + 1));
      if r.journal[k].file.Some? {
        var stmts := r.journal[k].file.value.statements;
        StatementsOfOwn(Plan(stmts, 0), OwnDrops(r, k));
        PlanIsWhole(stmts, 0);
      }
    }
  }

  /** None of the database's rows refuses a step from p on. */
  ghost predicate TakesSteps(steps: seq<OwnStep>, db: Database, p: nat)
    requires forall s | s in steps :: Regular(s)
  {
    forall j | p <= j < |steps| :: !RowsRefuseStep(steps, db, j)
  }

  lemma SqlitePendingRun(r: Release, snaps: seq<Shape>, recorded: set<string>, n: nat, db: Database)
    requires ShipsSteps(r, snaps) && RecordsFirst(r.journal, recorded, n) && n <= |r.journal|
    requires var p := StepsBefore(r, n); p < |snaps| && ShapeOf(db) == snaps[p]
    ensures AllRegular(FlatSteps(r, 0))
    ensures ApplyEntries(r, recorded, db, 0).Some? <==> TakesSteps(FlatSteps(r, 0), db, StepsBefore(r, n))
    ensures match ApplyEntries(r, recorded, db, 0)
            case None => true
            case Some(after) => ShapeOf(after) == snaps[|snaps| - 1] && SchemaComplete(r, after)
  {
    hide ShipsSteps, FlatSteps, Flat, StepsBefore, InstallsSteps, NoNameReturns, ExecAll, StatementsBy, RecordsFirst, RowsRefuseStep, SchemaComplete, RowsKept;
    ShippedSteps(r, snaps);
    var steps, p := FlatSteps(r, 0), StepsBefore(r, n);
    EntriesApplyFlat(r, recorded, db, n, 0);
    FlatIsSteps(r, n);
    assert steps[p..|steps|] == steps[p..] == FlatSteps(r, n);
    StepsRunStrictly(steps, snaps, p, db, |steps|);
    if ApplyEntries(r, recorded, db, 0).Some? {
      CompleteTables(r, snaps, ApplyEntries(r, recorded, db, 0).value);
    }
  }

  ghost predicate UpToStep(r: Release, snaps: seq<Shape>, inst: Install) {
    && ShipsSteps(r, snaps) && RecordedUpTo(r, inst)
    && var p := StepsBefore(r, |inst.rows|); p < |snaps| && ShapeOf(inst.db) == snaps[p]
  }

  /** A SQLite database exactly where its rows say is neither refused nor recovered. If
      nothing outside fails and a backup is written or needs none, its pending migrations
      commit if and only if none of its rows refuses a statement or recreate of theirs;
      whenever they commit, it is exactly at the last snapshot. */
  lemma SqlitePendingCommits(r: Release, op: Operator, inst: Install, fault: Fault, snaps: seq<Shape>)
    requires UpToStep(r, snaps, inst)
    ensures AllRegular(FlatSteps(r, 0))
    ensures var report := Migrate(r, op, inst, fault);
            && !report.squashed && (report.failure.Some? ==> !report.failure.value.Refused?)
            && (report.applied ==> ShapeOf(report.install.db) == snaps[|snaps| - 1] && report.failure == None)
            && (fault == Never && (op.canWriteBackup || op.skipBackup || "people" !in inst.db.tables) ==>
                  (report.applied <==> TakesSteps(FlatSteps(r, 0), inst.db, StepsBefore(r, |inst.rows|))))
  {
    hide Migrate, ApplyEntries, SchemaComplete, RefusalOf, ShipsSteps, TakesSteps, RecordsFirst, RecordedUpTo, FlatSteps, StepsBefore, ShapeOf, Elements;
    ShippedSteps(r, snaps);
    FirstRecorded(r, inst);
    PendingDecides(r, op, inst, fault);
    SqlitePendingRun(r, snaps, Elements(inst.rows), |inst.rows|, inst.db);
  }

  /** A SQLite journal that ran once on a fresh install always does. */
  lemma FreshSqliteCommits(r: Release, op: Operator, inst: Install, snaps: seq<Shape>)
    requires UpToStep(r, snaps, inst) && inst.rows == []
    ensures var report := Migrate(r, op, inst, Never);
            report.applied && ShapeOf(report.install.db) == snaps[|snaps| - 1] && report.failure == None
  {
    ShippedSteps(r, snaps);
    assert ShapeOf(inst.db) == EMPTY;
    assert inst.db.tables == map[] by {
      assert forall t :: t in inst.db.tables <==> t in ShapeOf(inst.db).tables;
    }
    hide ShipsSteps, RecordedUpTo, UpToStep, FlatSteps, InstallsSteps, RefusalOf, ShapeOf;
    NoTablesNoRows(FlatSteps(r, 0), inst.db, StepsBefore(r, 0));
    assert "people" !in inst.db.tables;
    SqlitePendingCommits(r, op, inst, Never, snaps);
  }

  lemma NoTablesNoRows(steps: seq<OwnStep>, db: Database, p: nat)
    requires AllRegular(steps) && db.tables == map[]
    ensures TakesSteps(steps, db, p)
  {
  }
}
