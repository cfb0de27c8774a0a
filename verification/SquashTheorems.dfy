/** What a squash recovery does over a whole journal: on PostgreSQL, exactly when
    it commits and where it ends; on either dialect, what its backup is called. */
module SquashTheorems {
  import opened Options
  import opened Lists
  import opened Schema
  import opened Replay
  import opened ReplayTables
  import opened ReplayRows
  import opened Convergence
  import opened UpgradeGate
  import opened Migration

  function OwnStatements(e: Entry): seq<Statement> {
    if e.file.Some? then e.file.value.statements else []
  }

  /** The journal's statements from entry k on, one after another. */
  function Flat(journal: seq<Entry>, k: nat): seq<Statement>
    requires k <= |journal|
    decreases |journal| - k
  {
    if k == |journal| then [] else OwnStatements(journal[k]) + Flat(journal, k + 1)
  }

  lemma {:induction false} ReplayOfPrefix(d: Dialect, a: seq<Statement>, b: seq<Statement>, db: Database, k: nat)
    requires k <= |a|
    ensures ReplayTo(d, a + b, db, k) == ReplayTo(d, a, db, k)
  {
    hide ReplayOne;
    if k > 0 {
      ReplayOfPrefix(d, a, b, db, k - 1);
    }
  }

  lemma {:induction false} ReplayOfConcat(d: Dialect, a: seq<Statement>, b: seq<Statement>, db: Database, j: nat)
    requires j <= |b|
    ensures ReplayTo(d, a + b, db, |a| + j)
         == match ReplayAll(d, a, db) case None => None case Some(mid) => ReplayTo(d, b, mid, j)
  {
    hide ReplayOne;
    if j == 0 {
      ReplayOfPrefix(d, a, b, db, |a|);
    } else {
      ReplayOfConcat(d, a, b, db, j - 1);
      assert (a + b)[|a| + j - 1] == b[j - 1];
    }
  }

  /** On PostgreSQL the squash is one replay of the whole journal. */
  lemma {:induction false} EntriesReplayFlat(r: Release, db: Database, k: nat)
    requires WellFormed(r) && r.dialect == Postgres && k <= |r.journal|
    ensures ReplayEntries(r, db, k) == ReplayAll(Postgres, Flat(r.journal, k), db)
    decreases |r.journal| - k
  {
    hide ReplayOne;
    if k < |r.journal| {
      match r.journal[k].file {
        case None =>
          EntriesReplayFlat(r, db, k + 1);
          assert Flat(r.journal, k) == Flat(r.journal, k + 1);
        case Some(file) =>
          var rest := Flat(r.journal, k + 1);
          ReplayOfConcat(Postgres, file.statements, rest, db, |rest|);
          var next := ReplayAll(Postgres, file.statements, db);
          if next.Some? {
            EntriesReplayFlat(r, next.value, k + 1);
          }
      }
    }
  }

  /** A committed squash is all a start changes. */
  lemma SquashIsTheOnlyChange(r: Release, op: Operator, inst: Install, fault: Fault)
    requires WellFormed(r) && Migrate(r, op, inst, fault).squashed
    ensures NeedsSquash(r, inst) && Squash(r, op, inst, fault).squashed
    ensures ReplayEntries(r, inst.db, 0) == Some(Migrate(r, op, inst, fault).install.db)
    ensures AllFiles(r.journal) ==> Migrate(r, op, inst, fault).install.rows == Hashes(r.journal)
  {
    hide ReplayEntries, SchemaComplete, RefusalOf;
    SquashLeavesNothingPending(r, op, inst, fault);
  }

  lemma AfterThese(all: seq<Statement>, m: nat, own: seq<Statement>, rest: seq<Statement>)
    requires m <= |all| && all[m..] == own + rest
    ensures m + |own| <= |all| && all[m + |own|..] == rest
  {
    assert |all| - m == |own| + |rest|;
    assert all[m + |own|..] == all[m..][|own|..];
  }

  /** The number of statements of the first i entries. */
  function Before(journal: seq<Entry>, i: nat): (n: nat)
    requires i <= |journal|
    ensures n <= |Flat(journal, 0)| && Flat(journal, 0)[n..] == Flat(journal, i)
  {
    if i == 0 then 0
    else
      hide OwnStatements;
      var m, own := Before(journal, i - 1), OwnStatements(journal[i - 1]);
      assert Flat(journal, i - 1) == own + Flat(journal, i);
      AfterThese(Flat(journal, 0), m, own, Flat(journal, i));
      m + |own|
  }

  function SnapshotOf(s: Shape): Snapshot {
    Snapshot(s.tables, s.indexes.Keys)
  }

  /** A release whose journal runs on a fresh install, and which ships the schema
      after each entry; snaps[k] is the schema after k statements. */
  ghost predicate Describes(r: Release, snaps: seq<Shape>) {
    && WellFormed(r) && r.journal != [] && Installs(Flat(r.journal, 0), snaps)
    && forall i | 0 <= i < |r.journal| :: r.snapshots[i] == SnapshotOf(snaps[Before(r.journal, i + 1)])
  }

  /** A PostgreSQL release, its journal without renames and copies, that makes no
      table or column again. */
  ghost predicate Ships(r: Release, snaps: seq<Shape>) {
    Describes(r, snaps) && r.dialect == Postgres && NoNameReturns(snaps) && AllPlain(Flat(r.journal, 0))
  }

  lemma DescribedFacts(r: Release, snaps: seq<Shape>)
    requires Describes(r, snaps)
    ensures WellFormed(r) && r.journal != []
    ensures Installs(Flat(r.journal, 0), snaps) && |snaps| == |Flat(r.journal, 0)| + 1
    ensures Before(r.journal, |r.journal|) == |Flat(r.journal, 0)|
    ensures r.snapshots[|r.journal| - 1] == SnapshotOf(snaps[|snaps| - 1])
  {
    assert Flat(r.journal, |r.journal|) == [];
  }

  lemma LastShipped(r: Release, snaps: seq<Shape>)
    requires Ships(r, snaps)
    ensures WellFormed(r) && r.dialect == Postgres && r.journal != []
    ensures var stmts := Flat(r.journal, 0);
            Installs(stmts, snaps) && NoNameReturns(snaps) && AllPlain(stmts) && |snaps| == |stmts| + 1
    ensures Before(r.journal, |r.journal|) == |Flat(r.journal, 0)| == |snaps| - 1
    ensures r.snapshots[|r.journal| - 1] == SnapshotOf(snaps[|snaps| - 1])
  {
    DescribedFacts(r, snaps);
  }

  /** A complete schema is one with the last snapshot's indexes by name, once its
      tables are the last snapshot's. */
  lemma CompleteByIndexes(r: Release, snaps: seq<Shape>, after: Database)
    requires Ships(r, snaps) && ShapeOf(after).tables == snaps[|snaps| - 1].tables
    ensures SchemaComplete(r, after) <==> snaps[|snaps| - 1].indexes.Keys <= after.indexes.Keys
  {
    LastShipped(r, snaps);
    hide Ships;
  }

  /** What decides a recovery of a database at statement p, if nothing outside
      fails: its rows alone. */
  ghost predicate RowsAllow(r: Release, snaps: seq<Shape>, p: nat, db: Database)
    requires Ships(r, snaps)
  {
    var stmts := Flat(r.journal, 0);
    LastShipped(r, snaps);
    GetsThrough(stmts, db, |stmts|) && NoClash(stmts, snaps, p, db)
  }

  /** The replay of the recovery, before its transaction ends. */
  lemma RecoveryReplay(r: Release, snaps: seq<Shape>, p: nat, db: Database)
    requires Ships(r, snaps) && p < |snaps| && ShapeOf(db) == snaps[p] && Lawful(db)
    ensures (match ReplayEntries(r, db, 0) case None => false case Some(after) => SchemaComplete(r, after))
       <==> RowsAllow(r, snaps, p, db)
    ensures match ReplayEntries(r, db, 0)
            case None => true
            case Some(after) =>
              SchemaComplete(r, after) ==>
                && ShapeOf(after) == snaps[|snaps| - 1]
                && forall t, c | HasColumn(ShapeOf(db), t, c) && HasColumn(snaps[|snaps| - 1], t, c) :: SameCells(db, after, t, c)
  {
    hide Ships, Flat, Before, ReplayAll, Installs, NoNameReturns, AllPlain, Lawful, GetsThrough, NoClash, ReplayEntries, SchemaComplete, SameCells, HasColumn, ShapeOf;
    var stmts := Flat(r.journal, 0);
    LastShipped(r, snaps);
    EntriesReplayFlat(r, db, 0);
    ReplayConverges(stmts, snaps, p, db);
    if ReplayEntries(r, db, 0).Some? {
      CompleteByIndexes(r, snaps, ReplayEntries(r, db, 0).value);
    }
  }

  /** A PostgreSQL database at any statement of the journal, let through by the
      gate and in need of a recovery. If nothing outside fails and a backup is
      written or overridden, the recovery commits if and only if the database's
      rows break no NOT NULL of the journal and clash on no unique index made
      since; and whenever it commits, the database is exactly at the last snapshot
      with every row and cell that snapshot keeps. */
  lemma SquashEndsAtLastSnapshot(r: Release, op: Operator, inst: Install, fault: Fault, snaps: seq<Shape>, p: nat)
    requires Ships(r, snaps) && p < |snaps| && ShapeOf(inst.db) == snaps[p] && Lawful(inst.db)
    requires NeedsSquash(r, inst) && RefusalOf(r.journal, ColumnSnaps(r), Elements(inst.rows), Tables(inst.db)) == None
    ensures var report, last := Migrate(r, op, inst, fault), snaps[|snaps| - 1];
            && (fault == Never && (op.canWriteBackup || op.skipBackup) ==> (report.squashed <==> RowsAllow(r, snaps, p, inst.db)))
            && (report.squashed ==>
                  && ShapeOf(report.install.db) == last
                  && forall t, c | HasColumn(ShapeOf(inst.db), t, c) && HasColumn(last, t, c) ::
                       SameCells(inst.db, report.install.db, t, c))
            && (fault == Never && !report.squashed ==> Unchanged(report.install, inst) && report.failure.Some?)
  {
    RecoveryReplay(r, snaps, p, inst.db);
    hide Ships, RowsAllow, Lawful, SameCells, ReplayEntries, SchemaComplete, RefusalOf, NeedsRecovery, Label, PendingTags, ApplyEntries, PendingHashes;
    SquashOutcome(r, op, inst, fault);
    if Squash(r, op, inst, fault).squashed {
      SquashedIsMigrated(r, op, inst, fault);
    }
  }

  /** A committed recovery decides the start's schema and data. */
  lemma SquashedIsMigrated(r: Release, op: Operator, inst: Install, fault: Fault)
    requires WellFormed(r) && NeedsSquash(r, inst) && Squash(r, op, inst, fault).squashed
    requires RefusalOf(r.journal, ColumnSnaps(r), Elements(inst.rows), Tables(inst.db)) == None
    ensures fault != WhileReading
    ensures Migrate(r, op, inst, fault).squashed && Migrate(r, op, inst, fault).install.db == Squash(r, op, inst, fault).install.db
  {
    hide ReplayEntries, SchemaComplete, RefusalOf, NeedsRecovery, Label, ApplyEntries, PendingHashes;
    SquashLeavesNothingPending(r, op, inst, fault);
  }

  /** With the migration rows cleared by a failed run: a database exactly at any
      entry recovers, and is exactly at the last snapshot then, if and only if its
      rows allow it. */
  lemma ClearedJournalRecovers(r: Release, op: Operator, inst: Install, snaps: seq<Shape>, i: nat)
    requires Ships(r, snaps) && i < |r.journal| && inst.journalTable && inst.rows == []
    requires var p := Before(r.journal, i + 1); p < |snaps| && ShapeOf(inst.db) == snaps[p]
    requires "people" in inst.db.tables && Lawful(inst.db) && (op.canWriteBackup || op.skipBackup)
    ensures var report := Migrate(r, op, inst, Never);
            && (report.squashed <==> RowsAllow(r, snaps, Before(r.journal, i + 1), inst.db))
            && (report.squashed ==> ShapeOf(report.install.db) == snaps[|snaps| - 1] && report.failure == None)
            && (!report.squashed ==> Unchanged(report.install, inst) && report.failure.Some?)
  {
    var p := Before(r.journal, i + 1);
    assert Tables(inst.db) == r.snapshots[i].columns;
    assert Elements(inst.rows) == {};
    assert NeedsSquash(r, inst);
    ClearedJournalAccepted(r.journal, ColumnSnaps(r), i);
    hide Ships, RowsAllow, Lawful, RefusalOf, NeedsRecovery;
    SquashEndsAtLastSnapshot(r, op, inst, Never, snaps, p);
    if Migrate(r, op, inst, Never).squashed {
      SquashIsTheOnlyChange(r, op, inst, Never);
      SquashLeavesNothingPending(r, op, inst, Never);
      hide Squash, ReplayEntries, SchemaComplete, PendingHashes;
    }
  }

  /** A journal whose statements ask for no NOT NULL that rows can break, from where
      no unique index is made any more, always lets a recovery commit. */
  lemma NothingToRefuse(r: Release, snaps: seq<Shape>, p: nat, db: Database)
    requires Ships(r, snaps) && p < |snaps|
    requires forall st | st in Flat(r.journal, 0) :: !AsksNotNull(st)
    requires forall j | p <= j < |Flat(r.journal, 0)| :: !(Flat(r.journal, 0)[j].CreateIndex? && Flat(r.journal, 0)[j].def.unique)
    ensures RowsAllow(r, snaps, p, db)
  {
    hide Ships, Flat, Agree, StoppedAt;
    LastShipped(r, snaps);
    NothingAsked(Flat(r.journal, 0), db);
  }

  lemma NothingAsked(stmts: seq<Statement>, db: Database)
    requires forall st | st in stmts :: !AsksNotNull(st)
    ensures GetsThrough(stmts, db, |stmts|)
  {
    forall j | 0 <= j < |stmts|
      ensures !StoppedAt(stmts, db, j)
    {
      assert stmts[j] in stmts;
      hide HoldsNull;
    }
  }

  // ----------------------------------------------------------------- the label

  /** The backup a recovery writes for a database exactly at entry i's snapshot
      with cleared rows carries entry i's tag, on a journal whose entries mark
      themselves. */
  lemma BackupIsLabelledWhereItStands(r: Release, op: Operator, inst: Install, fault: Fault, i: nat)
    requires WellFormed(r) && i < |r.journal| && inst.journalTable && inst.rows == []
    requires forall j | 0 < j < |r.journal| :: MarksItself(ColumnSnaps(r), j)
    requires Tables(inst.db) == r.snapshots[i].columns && "people" in inst.db.tables && fault != WhileReading
    ensures var report := Migrate(r, op, inst, fault);
            && NeedsSquash(r, inst)
            && (op.canWriteBackup ==>
                  report.backup == Some(Backup(if i == 0 then SQUASHED_LINE_TIP else r.journal[i].tag, inst.db, [])))
  {
    hide ReplayEntries, ApplyEntries, SchemaComplete;
    assert Elements(inst.rows) == {};
    ClearedJournalAccepted(r.journal, ColumnSnaps(r), i);
    MarkedJournalsLabelExactly(r.journal, ColumnSnaps(r), i);
    if Migrate(r, op, inst, fault).squashed {
      SquashIsTheOnlyChange(r, op, inst, fault);
    }
  }
}
