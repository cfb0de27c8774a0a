/** The migrator as it runs: statement by statement on one connection, inside
    transactions and savepoints, with any query able to throw. */
module Migrator {
  import opened Options
  import opened Lists
  import opened Schema
  import opened Replay
  import opened Recreate
  import opened UpgradeGate
  import opened Migration

  /** How a run of statements ended: through, at a statement's own error, or at
      a failure from outside. */
  datatype Ran = Through | Stopped | Threw

  lemma {:induction false} ReplayStaysStopped(d: Dialect, stmts: seq<Statement>, db: Database, i: nat, k: nat)
    requires i <= k <= |stmts| && ReplayTo(d, stmts, db, i) == None
    ensures ReplayTo(d, stmts, db, k) == None
  {
    hide ReplayOne;
    if i < k {
      ReplayStaysStopped(d, stmts, db, i, k - 1);
    }
  }

  lemma PlanEnds(stmts: seq<Statement>, db: Database, drops: map<string, set<string>>)
    ensures ReplaySteps(db, Plan(stmts, |stmts|), drops) == Some(db)
  {
  }

  class Connection {
    const release: Release
    const op: Operator
    /** Whether the n-th query gets through. */
    const outside: nat -> bool

    var db: Database
    var rows: seq<string>
    var journalTable: bool
    var backups: seq<Backup>
    /** The state at BEGIN, while a transaction is open. */
    var saved: Option<(Database, seq<string>)>
    var clock: nat
    /** Whether a query of this run has thrown. */
    ghost var failed: bool

    constructor (release: Release, op: Operator, outside: nat -> bool, inst: Install)
      ensures this.release == release && this.op == op && Current() == inst
      ensures saved == None && backups == [] && !failed
    {
      this.release, this.op, this.outside := release, op, outside;
      db, rows, journalTable := inst.db, inst.rows, inst.journalTable;
      backups, saved, clock, failed := [], None, 0, false;
    }

    function Current(): Install
      reads this
    {
      Install(db, rows, journalTable)
    }

    method Query() returns (ok: bool)
      modifies this`clock, this`failed
      ensures ok == outside(old(clock)) && clock == old(clock) + 1
      ensures failed == (old(failed) || !ok)
    {
      ok := outside(clock);
      clock := clock + 1;
      failed := failed || !ok;
    }

    /** PostgreSQL replay: a savepoint for every statement. */
    method ReplayStatementsPg(stmts: seq<Statement>) returns (r: Ran)
      requires !failed
      modifies this`db, this`clock, this`failed
      ensures r.Through? ==> ReplayAll(Postgres, stmts, old(db)) == Some(db)
      ensures r.Stopped? ==> ReplayAll(Postgres, stmts, old(db)) == None
      ensures failed <==> r.Threw?
    {
      for i := 0 to |stmts|
        invariant ReplayTo(Postgres, stmts, old(db), i) == Some(db)
        invariant !failed
      {
        var ok := Query();
        if !ok {
          return Threw;
        }
        var savepoint := db;
        match Exec(db, stmts[i])
        case Applied(next) => db := next;
        case Failed(code) =>
          if Ignorable(Postgres, code) {
            db := savepoint;
          } else {
            ReplayStaysStopped(Postgres, stmts, old(db), i + 1, |stmts|);
            return Stopped;
          }
      }
      return Through;
    }

    /** SQLite replay of one recreate, under one savepoint. */
    method ReplayRecreateSqlite(t: string, body: seq<Statement>, ownDrops: set<string>) returns (r: Ran)
      requires body != []
      requires !failed
      modifies this`db, this`clock, this`failed
      ensures r.Through? ==> ReplayUnit(old(db), t, body, ownDrops) == Some(db)
      ensures r.Stopped? ==> ReplayUnit(old(db), t, body, ownDrops) == None
      ensures failed <==> r.Threw?
    {
      hide Exec, WouldLose, Ignorable;
      var savepoint := db;
      var ok := Query();
      if !ok {
        return Threw;
      }
      match Exec(db, body[0])
      case Failed(code) =>
        return if Ignorable(Sqlite, code) then Through else Stopped;
      case Applied(made) =>
        db := made;
        if WouldLose(db, t, ownDrops) != {} {
          db := savepoint;
          return Through;
        }
        for i := 1 to |body|
          invariant ExecAll(made, body[1..]) == ExecAll(db, body[i..])
          invariant !failed
        {
          ok := Query();
          if !ok {
            return Threw;
          }
          assert body[i..][1..] == body[i + 1..];
          match Exec(db, body[i])
          case Applied(next) => db := next;
          case Failed(code) =>
            if Ignorable(Sqlite, code) {
              db := savepoint;
              return Through;
            }
            return Stopped;
        }
        return Through;
    }

    /** SQLite replay of a statement outside any recreate. */
    method ReplaySingleSqlite(st: Statement) returns (r: Ran)
      requires !failed
      modifies this`db, this`clock, this`failed
      ensures r.Through? ==> ReplayOne(Sqlite, old(db), st) == Some(db)
      ensures r.Stopped? ==> ReplayOne(Sqlite, old(db), st) == None
      ensures failed <==> r.Threw?
    {
      var ok := Query();
      if !ok {
        return Threw;
      }
      match Exec(db, st)
      case Applied(next) =>
        db := next;
        return Through;
      case Failed(code) =>
        return if Ignorable(Sqlite, code) then Through else Stopped;
    }

    /** SQLite replay of one file, a recreate at a time. */
    method ReplayStatementsSqlite(stmts: seq<Statement>, drops: map<string, set<string>>) returns (r: Ran)
      requires !failed
      modifies this`db, this`clock, this`failed
      ensures r.Through? ==> ReplaySteps(old(db), Plan(stmts, 0), drops) == Some(db)
      ensures r.Stopped? ==> ReplaySteps(old(db), Plan(stmts, 0), drops) == None
      ensures failed <==> r.Threw?
    {
      hide ReplaySteps, Plan, ReplayOne, ReplayUnit, UnitTable, UnitEnd;
      var i := 0;
      while i < |stmts|
        invariant 0 <= i <= |stmts|
        invariant ReplaySteps(old(db), Plan(stmts, 0), drops) == ReplaySteps(db, Plan(stmts, i), drops)
        invariant !failed
      {
        PlanUnfolds(stmts, i, db, drops);
        var (step, next) := StepAt(stmts, i);
        match step {
          case Unit(table, body) => r := ReplayRecreateSqlite(table, body, if table in drops then drops[table] else {});
          case Single(st) => r := ReplaySingleSqlite(st);
        }
        if !r.Through? {
          return;
        }
        i := next;
      }
      PlanEnds(stmts, db, drops);
      return Through;
    }

    /** A pending file: every error stops it. */
    method ApplyStatements(stmts: seq<Statement>) returns (r: Ran)
      requires !failed
      modifies this`db, this`clock, this`failed
      ensures r.Through? ==> ExecAll(old(db), stmts) == Applied(db)
      ensures r.Stopped? ==> ExecAll(old(db), stmts).Failed?
      ensures failed <==> r.Threw?
    {
      for i := 0 to |stmts|
        invariant ExecAll(old(db), stmts) == ExecAll(db, stmts[i..])
        invariant !failed
      {
        var ok := Query();
        if !ok {
          return Threw;
        }
        assert stmts[i..][1..] == stmts[i + 1..];
        match Exec(db, stmts[i])
        case Applied(next) => db := next;
        case Failed(code) => return Stopped;
      }
      return Through;
    }

    // ---------------------------------------------------------- transactions

    method Begin() returns (ok: bool)
      requires saved == None
      modifies this`saved, this`clock, this`failed
      ensures saved == if ok then Some((db, rows)) else None
      ensures failed == (old(failed) || !ok)
    {
      ok := Query();
      if ok {
        saved := Some((db, rows));
      }
    }

    method Rollback()
      requires saved.Some?
      modifies this`db, this`rows, this`saved
      ensures db == old(saved).value.0 && rows == old(saved).value.1 && saved == None
    {
      db, rows, saved := saved.value.0, saved.value.1, None;
    }

    method Commit() returns (ok: bool)
      requires saved.Some?
      modifies this`saved, this`clock, this`failed
      ensures saved == if ok then None else old(saved)
      ensures failed == (old(failed) || !ok)
    {
      ok := Query();
      if ok {
        saved := None;
      }
    }

    /** Inside the squash transaction: clear the rows, replay every file and
        record it. */
    method ReplayJournal() returns (r: Ran)
      requires WellFormed(release)
      requires !failed
      modifies this`db, this`rows, this`clock, this`failed
      ensures r.Through? ==> ReplayEntries(release, old(db), 0) == Some(db) && rows == PendingHashes(release.journal, {})
      ensures r.Stopped? ==> ReplayEntries(release, old(db), 0) == None
      ensures failed <==> r.Threw?
    {
      hide ReplayAll, ReplaySteps, Plan, OwnDrops;
      var ok := Query();
      if !ok {
        return Threw;
      }
      rows := [];
      var journal := release.journal;
      for k := 0 to |journal|
        invariant ReplayEntries(release, old(db), 0) == ReplayEntries(release, db, k)
        invariant rows == PendingHashes(journal[..k], {})
        invariant !failed
      {
        assert journal[..k + 1][..k] == journal[..k];
        if journal[k].file.Some? {
          var file := journal[k].file.value;
          if release.dialect.Postgres? {
            r := ReplayStatementsPg(file.statements);
          } else {
            r := ReplayStatementsSqlite(file.statements, OwnDrops(release, k));
          }
          if !r.Through? {
            return;
          }
          ok := Query();
          if !ok {
            return Threw;
          }
          rows := rows + [file.hash];
        }
      }
      assert journal[..|journal|] == journal;
      return Through;
    }

    /** Inside the pending transaction: apply every file not recorded before. */
    method ApplyPending(recorded: set<string>) returns (r: Ran)
      requires !failed
      modifies this`db, this`rows, this`clock, this`failed
      ensures r.Through? ==>
        && ApplyEntries(release, recorded, old(db), 0) == Some(db)
        && rows == old(rows) + PendingHashes(release.journal, recorded)
      ensures r.Stopped? ==> ApplyEntries(release, recorded, old(db), 0) == None
      ensures failed <==> r.Threw?
    {
      hide ExecAll;
      var journal := release.journal;
      for k := 0 to |journal|
        invariant ApplyEntries(release, recorded, old(db), 0) == ApplyEntries(release, recorded, db, k)
        invariant rows == old(rows) + PendingHashes(journal[..k], recorded)
        invariant !failed
      {
        assert journal[..k + 1][..k] == journal[..k];
        if journal[k].file.Some? && journal[k].file.value.hash !in recorded {
          var file := journal[k].file.value;
          r := ApplyStatements(file.statements);
          if !r.Through? {
            return;
          }
          var ok := Query();
          if !ok {
            return Threw;
          }
          rows := rows + [file.hash];
        }
      }
      assert journal[..|journal|] == journal;
      return Through;
    }

    /** The rest of a transaction after its statements: the whole last snapshot
        checked, then COMMIT; anything else rolls back. */
    method Finish(ran: Ran) returns (r: Ran)
      requires WellFormed(release) && saved.Some? && (failed <==> ran.Threw?)
      modifies this`db, this`rows, this`saved, this`clock, this`failed
      ensures saved == None
      ensures r.Through? ==> ran.Through? && SchemaComplete(release, db) && db == old(db) && rows == old(rows)
      ensures !r.Through? ==> db == old(saved).value.0 && rows == old(saved).value.1
      ensures failed <==> r.Threw?
      ensures r.Stopped? ==> ran.Stopped? || (ran.Through? && !SchemaComplete(release, old(db)))
    {
      r := ran;
      if ran.Through? {
        if SchemaComplete(release, db) {
          var ok := Commit();
          if ok {
            return Through;
          }
          r := Threw;
        } else {
          r := Stopped;
        }
      }
      Rollback();
    }

    /** A backup of the database as it is now, when one can be written. */
    method WriteBackup(tag: string) returns (backup: Option<Backup>)
      modifies this`backups
      ensures backup == NewBackup(op, tag, Current())
      ensures backups == if backup.Some? then old(backups) + [backup.value] else old(backups)
    {
      backup := None;
      if op.canWriteBackup {
        backup := Some(Backup(tag, db, rows));
        backups := backups + [backup.value];
      }
    }

    static function FailureOf(r: Ran): Option<Failure> {
      match r
      case Through => None
      case Stopped => Some(MigrationFailed)
      case Threw => Some(Outage)
    }

    method HandleSquashUpgrade() returns (failure: Option<Failure>, backup: Option<Backup>, ghost fault: Fault)
      requires WellFormed(release) && saved == None && NeedsSquash(release, Current()) && !failed
      modifies this`db, this`rows, this`saved, this`clock, this`failed, this`backups
      ensures saved == None && (fault == Never || fault == WhileReading || fault == WhileSquashing)
      ensures fault == Never <==> !failed
      ensures var report := Squash(release, op, old(Current()), fault);
              Current() == report.install && failure == report.failure && backup == report.backup
      ensures failure == None <==> Squash(release, op, old(Current()), fault).squashed
      ensures backups == if backup.Some? then old(backups) + [backup.value] else old(backups)
    {
      hide ReplayEntries, SchemaComplete, PendingHashes, Label, NeedsRecovery;
      fault := Never;
      var ok := Query();
      if !ok {
        return Some(Outage), None, WhileReading;
      }
      var tag := SchemaLabel(release.journal, ColumnSnaps(release), Elements(rows), Tables(db));
      backup := WriteBackup(tag);
      if backup.None? && !op.skipBackup {
        return Some(BackupRequired), None, fault;
      }
      ok := Begin();
      if !ok {
        return Some(Outage), backup, WhileSquashing;
      }
      var r := ReplayJournal();
      r := Finish(r);
      if r.Threw? {
        fault := WhileSquashing;
      }
      failure := FailureOf(r);
    }

    method RunPending(given: Option<Backup>) returns (failure: Option<Failure>, backup: Option<Backup>, ghost fault: Fault)
      requires WellFormed(release) && saved == None && !failed
      modifies this`db, this`rows, this`journalTable, this`saved, this`clock, this`failed, this`backups
      ensures saved == None && (fault == Never || fault == WhileApplying)
      ensures fault == Never <==> !failed
      ensures var report := Pending(release, op, old(Current()), given, fault);
              Current() == report.install && failure == report.failure && backup == report.backup
      ensures backups == if backup.Some? && given.None? then old(backups) + [backup.value] else old(backups)
    {
      hide ApplyEntries, SchemaComplete, PendingTags, LastAppliedTag, PendingHashes, HasPeople;
      fault, backup := Never, given;
      journalTable := true;
      var recorded := Elements(rows);
      var pendingTags, lastAppliedTag := PendingJournalEntries(release.journal, recorded);
      var ok;
      if pendingTags == [] {
        ok := Query();
        return if ok then None else Some(Outage), backup, if ok then Never else WhileApplying;
      }
      if backup.None? && HasPeople(db) {
        backup := WriteBackup(match lastAppliedTag case Some(t) => t case None => op.era);
        if backup.None? && !op.skipBackup {
          return Some(BackupRequired), None, fault;
        }
      }
      ok := Begin();
      if !ok {
        return Some(Outage), backup, WhileApplying;
      }
      var r := ApplyPending(recorded);
      r := Finish(r);
      if r.Threw? {
        fault := WhileApplying;
      }
      failure := FailureOf(r);
    }

    /** One start: the outcome is Migrate's, for the place an outside failure
        struck, whatever query it struck at, and for none exactly when every
        query got through. */
    method Run() returns (failure: Option<Failure>, backup: Option<Backup>, ghost fault: Fault)
      requires WellFormed(release) && saved == None && !failed
      modifies this
      ensures saved == None && (fault == Never <==> !failed)
      ensures var report := Migrate(release, op, old(Current()), fault);
              Current() == report.install && failure == report.failure && backup == report.backup
      ensures backups == if backup.Some? then old(backups) + [backup.value] else old(backups)
    {
      hide Pending, NeedsRecovery, RefusalOf, HasPeople, Label, ReplayEntries, SchemaComplete, PendingHashes;
      var ok := Query();
      if !ok {
        return Some(Outage), None, WhileReading;
      }
      var refusal := AssertSupportedUpgradePath(release.journal, ColumnSnaps(release), Elements(rows), Tables(db));
      if refusal.Some? {
        return Some(Refused(refusal.value)), None, Never;
      }
      failure, backup, fault := None, None, Never;
      if NeedsSquash(release, Current()) {
        failure, backup, fault := HandleSquashUpgrade();
        if failure.Some? {
          return;
        }
      }
      ok := Query();
      if !ok {
        return Some(Outage), backup, WhilePreparing;
      }
      ghost var given := backup;
      PendingOutcome(release, op, Current(), given, Never);
      PendingOutcome(release, op, Current(), given, WhileApplying);
      failure, backup, fault := RunPending(backup);
    }
  }
}
