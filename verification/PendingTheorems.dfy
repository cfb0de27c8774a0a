/** What applying the pending migrations does over a whole journal: where it ends,
    and on PostgreSQL exactly when it commits. */
module PendingTheorems {
  import opened Options
  import opened Lists
  import opened Schema
  import opened Replay
  import opened ReplayRows
  import opened Convergence
  import opened Recreate
  import opened UpgradeGate
  import opened Migration
  import opened SquashTheorems

  // ---------------------------------------------------------- strict application

  lemma {:induction false} ExecAllConcat(db: Database, a: seq<Statement>, b: seq<Statement>)
    ensures ExecAll(db, a + b) == match ExecAll(db, a) case Failed(code) => Failed(code) case Applied(mid) => ExecAll(mid, b)
    decreases |a|
  {
    hide Exec;
    if a == [] {
      assert a + b == b;
    } else {
      assert (a + b)[0] == a[0] && (a + b)[1..] == a[1..] + b;
      if Exec(db, a[0]).Applied? {
        ExecAllConcat(Exec(db, a[0]).db, a[1..], b);
      }
    }
  }

  /** Statements p to k, none skipped. */
  function Applying(stmts: seq<Statement>, db: Database, p: nat, k: nat): Outcome
    requires p <= k <= |stmts|
  {
    ExecAll(db, stmts[p..k])
  }

  lemma ExecOne(db: Database, st: Statement)
    ensures ExecAll(db, [st]) == Exec(db, st)
  {
    hide Exec;
    assert [st][1..] == [];
    if Exec(db, st).Applied? {
      assert ExecAll(Exec(db, st).db, []) == Applied(Exec(db, st).db);
    }
  }

  lemma ApplyingNext(stmts: seq<Statement>, db: Database, p: nat, k: nat)
    requires p <= k < |stmts|
    ensures Applying(stmts, db, p, k + 1)
         == match Applying(stmts, db, p, k) case Failed(code) => Failed(code) case Applied(mid) => Exec(mid, stmts[k])
  {
    hide Exec, ExecAll;
    assert stmts[p..k + 1] == stmts[p..k] + [stmts[k]];
    ExecAllConcat(db, stmts[p..k], [stmts[k]]);
    if Applying(stmts, db, p, k).Applied? {
      ExecOne(Applying(stmts, db, p, k).db, stmts[k]);
    }
  }

  lemma ApplyingNone(stmts: seq<Statement>, db: Database, p: nat)
    requires p <= |stmts|
    ensures Applying(stmts, db, p, p) == Applied(db)
  {
  }

  /** On either dialect, recreates and renames included: a database at a snapshot
      is at the journal's own snapshot after every statement that applies. */
  lemma {:induction false} StrictRunFollows(stmts: seq<Statement>, snaps: seq<Shape>, p: nat, db: Database, k: nat)
    requires Installs(stmts, snaps) && p <= k <= |stmts| && ShapeOf(db) == snaps[p]
    ensures Applying(stmts, db, p, k).Applied? ==> ShapeOf(Applying(stmts, db, p, k).db) == snaps[k]
    decreases k
  {
    hide Exec, EffectOn, Applying, ShapeOf;
    if k == p {
      ApplyingNone(stmts, db, p);
    } else {
      StrictRunFollows(stmts, snaps, p, db, k - 1);
      ApplyingNext(stmts, db, p, k - 1);
      assert RunsAt(stmts, snaps, k - 1);
      if Applying(stmts, db, p, k).Applied? {
        ExecShape(Applying(stmts, db, p, k - 1).db, stmts[k - 1]);
      }
    }
  }

  lemma HeldFromThere(stmts: seq<Statement>, snaps: seq<Shape>, p: nat, k: nat)
    requires |snaps| == |stmts| + 1 && p <= k <= |stmts|
    ensures HeldAt(stmts, snaps, p, k, snaps[k].tables)
  {
  }

  /** The rows of the start refuse statement k of a strict run. */
  ghost predicate RowsRefuse(stmts: seq<Statement>, db: Database, k: nat)
    requires k < |stmts|
  {
    StoppedAt(stmts, db, k) || Clash(stmts, db, k)
  }

  lemma RowFaultDecides(stmts: seq<Statement>, snaps: seq<Shape>, p: nat, db: Database, k: nat, mid: Database)
    requires Installs(stmts, snaps) && NoNameReturns(snaps) && AllPlain(stmts) && p <= k < |stmts|
    requires ShapeOf(db) == snaps[p] && ShapeOf(mid) == snaps[k] && RowsKept(db, mid, stmts, k)
    ensures Exec(mid, stmts[k]).Failed? <==> RowsRefuse(stmts, db, k)
  {
    HeldFromThere(stmts, snaps, p, k);
    StatementRuns(stmts, snaps, k);
    RowsDecide(mid, stmts[k]);
    StopsAsTold(stmts, snaps, p, db, k, mid);
    if stmts[k].CreateIndex? {
      ClashDecides(stmts, snaps, k, db, mid);
    }
    hide Installs, NoNameReturns, AllPlain, HasDuplicates, Exec, RowsKept, HeldAt, RowsClash, HoldsNull;
  }

  lemma RowsKeptOn(stmts: seq<Statement>, snaps: seq<Shape>, p: nat, db: Database, k: nat, mid: Database)
    requires Installs(stmts, snaps) && NoNameReturns(snaps) && AllPlain(stmts) && p <= k < |stmts|
    requires ShapeOf(db) == snaps[p] && ShapeOf(mid) == snaps[k] && RowsKept(db, mid, stmts, k)
    requires Exec(mid, stmts[k]).Applied?
    ensures RowsKept(db, Exec(mid, stmts[k]).db, stmts, k + 1)
  {
    HeldFromThere(stmts, snaps, p, k);
    StatementRuns(stmts, snaps, k);
    NothingMadeTwice(stmts, snaps, p, k, ShapeOf(mid).tables);
    hide Installs, NoNameReturns, AllPlain, Exec, RowsKept, HeldAt, MakesNew;
    RowsStep(Postgres, db, mid, stmts, k);
  }

  lemma NothingChangedYet(db: Database, stmts: seq<Statement>, k: nat)
    requires k <= |stmts|
    ensures RowsKept(db, db, stmts, k)
  {
    forall t, c | t in db.tables && c in db.tables[t].columns
      ensures CellsKept(db, db, stmts, k, t, c)
    {
    }
  }

  /** A database at any statement of a plain journal takes the rest, none skipped,
      if and only if its rows break no NOT NULL and clash on no unique index made
      from there on. */
  lemma {:induction false} StrictRunDecided(stmts: seq<Statement>, snaps: seq<Shape>, p: nat, db: Database, k: nat)
    requires Installs(stmts, snaps) && NoNameReturns(snaps) && AllPlain(stmts) && p <= k <= |stmts| && ShapeOf(db) == snaps[p]
    ensures Applying(stmts, db, p, k).Applied? <==> forall j | p <= j < k :: !RowsRefuse(stmts, db, j)
    ensures Applying(stmts, db, p, k).Applied? ==> RowsKept(db, Applying(stmts, db, p, k).db, stmts, k)
    decreases k
  {
    hide Installs, NoNameReturns, AllPlain, Exec, Applying, RowsRefuse, RowsKept, ShapeOf;
    if k == p {
      ApplyingNone(stmts, db, p);
      NothingChangedYet(db, stmts, p);
    } else {
      StrictRunDecided(stmts, snaps, p, db, k - 1);
      StrictRunFollows(stmts, snaps, p, db, k - 1);
      ApplyingNext(stmts, db, p, k - 1);
      if Applying(stmts, db, p, k - 1).Applied? {
        var mid := Applying(stmts, db, p, k - 1).db;
        RowFaultDecides(stmts, snaps, p, db, k - 1, mid);
        if Applying(stmts, db, p, k).Applied? {
          RowsKeptOn(stmts, snaps, p, db, k - 1, mid);
        }
      }
    }
  }

  // ------------------------------------------------------------ the whole journal

  ghost predicate RecordsFirst(journal: seq<Entry>, recorded: set<string>, n: nat) {
    forall k | 0 <= k < |journal| && journal[k].file.Some? :: Records(recorded, journal[k]) <==> k < n
  }

  /** With the first n entries recorded, the pending ones are one strict run. */
  lemma {:induction false} EntriesApplyFlat(r: Release, recorded: set<string>, db: Database, n: nat, k: nat)
    requires WellFormed(r) && RecordsFirst(r.journal, recorded, n) && k <= |r.journal| && n <= |r.journal|
    ensures ApplyEntries(r, recorded, db, k)
         == match ExecAll(db, Flat(r.journal, if k < n then n else k)) case Failed(_) => None case Applied(after) => Some(after)
    decreases |r.journal| - k
  {
    hide Exec, ExecAll;
    if k == |r.journal| {
      ExecNone(db);
    } else if k < n || r.journal[k].file.None? {
      EntriesApplyFlat(r, recorded, db, n, k + 1);
      assert k >= n ==> Flat(r.journal, k) == Flat(r.journal, k + 1);
    } else {
      var own := OwnStatements(r.journal[k]);
      ExecAllConcat(db, own, Flat(r.journal, k + 1));
      if ExecAll(db, own).Applied? {
        EntriesApplyFlat(r, recorded, ExecAll(db, own).db, n, k + 1);
      }
    }
  }

  lemma ExecNone(db: Database)
    ensures ExecAll(db, []) == Applied(db)
  {
  }

  /** The rows of a database at statement p refuse nothing of the rest. */
  ghost predicate TakesRest(stmts: seq<Statement>, db: Database, p: nat) {
    forall j | p <= j < |stmts| :: !RowsRefuse(stmts, db, j)
  }

  /** The pending run from the snapshot after n entries, before its transaction
      ends. */
  lemma PendingRun(r: Release, snaps: seq<Shape>, recorded: set<string>, n: nat, db: Database)
    requires Describes(r, snaps) && RecordsFirst(r.journal, recorded, n) && n <= |r.journal|
    requires var p := Before(r.journal, n); p < |snaps| && ShapeOf(db) == snaps[p]
    ensures match ApplyEntries(r, recorded, db, 0)
            case None => true
            case Some(after) => ShapeOf(after) == snaps[|snaps| - 1] && SchemaComplete(r, after)
    ensures Ships(r, snaps) ==>
              (ApplyEntries(r, recorded, db, 0).Some? <==> TakesRest(Flat(r.journal, 0), db, Before(r.journal, n)))
  {
    hide Describes, Ships, Flat, Before, Installs, NoNameReturns, AllPlain, ExecAll, RecordsFirst, RowsRefuse, SchemaComplete, ShapeOf, ApplyEntries;
    DescribedFacts(r, snaps);
    var stmts, p := Flat(r.journal, 0), Before(r.journal, n);
    EntriesApplyFlat(r, recorded, db, n, 0);
    assert stmts[p..|stmts|] == stmts[p..] == Flat(r.journal, n);
    StrictRunFollows(stmts, snaps, p, db, |stmts|);
    if Ships(r, snaps) {
      LastShipped(r, snaps);
      StrictRunDecided(stmts, snaps, p, db, |stmts|);
    }
    if ApplyEntries(r, recorded, db, 0).Some? {
      AtLastIsComplete(r, snaps, ApplyEntries(r, recorded, db, 0).value);
    }
  }

  lemma AtLastIsComplete(r: Release, snaps: seq<Shape>, db: Database)
    requires Describes(r, snaps) && ShapeOf(db) == snaps[|snaps| - 1]
    ensures SchemaComplete(r, db)
  {
    DescribedFacts(r, snaps);
  }

  /** The rows are the hashes of the journal's first files, each once, with files after
      them; there are some if and only if the database has been migrated before. */
  ghost predicate RecordedUpTo(r: Release, inst: Install) {
    && AllFiles(r.journal) && DistinctHashes(r.journal)
    && RecordsBeginning(r.journal, inst.rows) && |inst.rows| < |r.journal|
    && (if inst.rows == [] then "people" !in inst.db.tables else inst.journalTable)
  }

  /** And the database is at the snapshot after it. */
  ghost predicate UpTo(r: Release, snaps: seq<Shape>, inst: Install) {
    && Describes(r, snaps) && RecordedUpTo(r, inst)
    && var p := Before(r.journal, |inst.rows|); p < |snaps| && ShapeOf(inst.db) == snaps[p]
  }

  lemma FirstRecorded(r: Release, inst: Install)
    requires RecordedUpTo(r, inst)
    ensures |inst.rows| < |r.journal|
    ensures RecordsFirst(r.journal, Elements(inst.rows), |inst.rows|) && PendingTags(r.journal, Elements(inst.rows)) != []
    ensures inst.rows != [] ==> LastAppliedTag(r.journal, Elements(inst.rows)) == Some(r.journal[|inst.rows| - 1].tag)
  {
    hide NeedsRecovery, RecordsBeginning;
    var recorded := Elements(inst.rows);
    NothingToRecover(r.journal, inst.rows, HasPeople(inst.db));
    if inst.rows != [] {
      RecordedIsPrefix(r.journal, inst.rows, HasPeople(inst.db));
      forall k | 0 <= k < |r.journal|
        ensures Records(recorded, r.journal[k]) <==> k < |inst.rows|
      {
        RecordedOnlyFirst(r.journal, inst.rows, k);
      }
    } else {
      PendingIsSuffix(r.journal, recorded, 0);
    }
  }

  /** Such an install needs no recovery and is not refused. */
  lemma GoesStraightToPending(r: Release, inst: Install)
    requires WellFormed(r) && RecordedUpTo(r, inst)
    ensures !NeedsSquash(r, inst)
    ensures RefusalOf(r.journal, ColumnSnaps(r), Elements(inst.rows), Tables(inst.db)) == None
  {
    hide NeedsRecovery, RefusalOf, RecordsBeginning;
    FirstRecorded(r, inst);
    NothingToRecover(r.journal, inst.rows, HasPeople(inst.db));
    var n := |inst.rows|;
    assert Records(Elements(inst.rows), r.journal[0]) <==> 0 < n;
    assert r.journal[n] in r.journal && !Records(Elements(inst.rows), r.journal[n]);
    if inst.rows == [] {
      RefusedExactly(r.journal, ColumnSnaps(r), Elements(inst.rows), Tables(inst.db));
      assert "people" !in Tables(inst.db);
    } else {
      BaselineRecordedAccepted(r.journal, ColumnSnaps(r), Elements(inst.rows), Tables(inst.db));
    }
  }

  /** Such an install has nothing to recover from and is not refused, wherever the start
      throws: its pending files decide, and are recorded after the rest in their order.
      Before they run, an install with data is backed
      up under the tag of the last one recorded. */
  lemma PendingDecides(r: Release, op: Operator, inst: Install, fault: Fault)
    requires WellFormed(r) && RecordedUpTo(r, inst)
    ensures var report, done := Migrate(r, op, inst, fault), ApplyEntries(r, Elements(inst.rows), inst.db, 0);
            && !report.squashed && (report.failure.Some? ==> !report.failure.value.Refused?)
            && (report.applied ==> done == Some(report.install.db) && report.failure == None
                                   && report.install.rows == inst.rows + Hashes(r.journal)[|inst.rows|..])
            && (fault == Never && (op.canWriteBackup || op.skipBackup || "people" !in inst.db.tables) ==>
                  (report.applied <==> done.Some? && SchemaComplete(r, done.value)))
            && (fault != WhileReading && fault != WhilePreparing ==>
                  report.backup == if op.canWriteBackup && "people" in inst.db.tables
                                   then Some(Backup(r.journal[|inst.rows| - 1].tag, inst.db, inst.rows)) else None)
  {
    hide ApplyEntries, SchemaComplete, RefusalOf, PendingTags, PendingHashes, LastAppliedTag, RecordsFirst, RecordsBeginning, DistinctHashes, NeedsRecovery, Elements, Hashes;
    FirstRecorded(r, inst);
    HashesRecorded(r, inst);
    GoesStraightToPending(r, inst);
  }

  lemma HashesRecorded(r: Release, inst: Install)
    requires RecordedUpTo(r, inst)
    ensures PendingHashes(r.journal, Elements(inst.rows)) == Hashes(r.journal)[|inst.rows|..]
  {
    hide NeedsRecovery, RecordsBeginning, DistinctHashes;
    FirstRecorded(r, inst);
    HashesOfTheRest(r.journal, Elements(inst.rows), |inst.rows|);
  }

  /** A database on either dialect that stands where its rows say is neither refused
      nor recovered. Whenever its pending migrations commit, it is exactly at the last
      snapshot. On PostgreSQL, if nothing outside fails and a backup is written or
      needs none, they commit if and only if its rows take the rest. */
  lemma PendingEndsAtLastSnapshot(r: Release, op: Operator, inst: Install, fault: Fault, snaps: seq<Shape>)
    requires UpTo(r, snaps, inst)
    ensures var report := Migrate(r, op, inst, fault);
            && !report.squashed && (report.failure.Some? ==> !report.failure.value.Refused?)
            && (report.applied ==> ShapeOf(report.install.db) == snaps[|snaps| - 1] && report.failure == None)
            && (Ships(r, snaps) && fault == Never && (op.canWriteBackup || op.skipBackup || "people" !in inst.db.tables) ==>
                  (report.applied <==> TakesRest(Flat(r.journal, 0), inst.db, Before(r.journal, |inst.rows|))))
  {
    hide Migrate, ApplyEntries, SchemaComplete, RefusalOf, Ships, Describes, TakesRest, RecordsFirst, RecordedUpTo, Flat, Before, ShapeOf, Elements;
    DescribedFacts(r, snaps);
    FirstRecorded(r, inst);
    PendingDecides(r, op, inst, fault);
    PendingRun(r, snaps, Elements(inst.rows), |inst.rows|, inst.db);
  }

  /** A PostgreSQL journal that ran once on a fresh install always does. */
  lemma FreshInstallCommits(r: Release, op: Operator, inst: Install, snaps: seq<Shape>)
    requires Ships(r, snaps) && UpTo(r, snaps, inst) && inst.rows == []
    ensures var report := Migrate(r, op, inst, Never);
            report.applied && ShapeOf(report.install.db) == snaps[|snaps| - 1] && report.failure == None
  {
    DescribedFacts(r, snaps);
    assert ShapeOf(inst.db) == EMPTY;
    assert "people" !in inst.db.tables by {
      assert "people" !in ShapeOf(inst.db).tables;
    }
    assert inst.db.tables == map[] by {
      assert forall t :: t in inst.db.tables <==> t in ShapeOf(inst.db).tables;
    }
    hide Describes, Ships, RecordedUpTo, UpTo;
    PendingEndsAtLastSnapshot(r, op, inst, Never, snaps);
  }
}
