/** One start of the migrator: the gate, the squash recovery and the pending
    migrations, as a function of the database and of where an outside failure
    strikes, and what holds after every such start. */
module Migration {
  import opened Options
  import opened Lists
  import opened Schema
  import opened Replay
  import opened Recreate
  import opened UpgradeGate

  datatype Snapshot = Snapshot(columns: Columns, indexes: set<string>)

  /** What the image ships: its dialect, journal and one snapshot per entry. */
  datatype Release = Release(dialect: Dialect, journal: seq<Entry>, snapshots: seq<Snapshot>)

  predicate WellFormed(r: Release) {
    |r.snapshots| == |r.journal|
  }

  /** The operator's side: whether a backup can be written, and the override. */
  datatype Operator = Operator(canWriteBackup: bool, skipBackup: bool, era: string)

  datatype Backup = Backup(tag: string, db: Database, rows: seq<string>)

  /** The database and its migration rows (hashes in order of insertion). */
  datatype Install = Install(db: Database, rows: seq<string>, journalTable: bool)

  datatype Failure = Refused(refusal: Refusal) | BackupRequired | MigrationFailed | Outage

  /** Where something outside the migration throws, if it does. */
  datatype Fault = Never | WhileReading | WhileSquashing | WhilePreparing | WhileApplying

  datatype Report = Report(
    install: Install, failure: Option<Failure>, backup: Option<Backup>, squashed: bool, applied: bool)

  function ColumnSnaps(r: Release): (s: seq<Columns>)
    ensures |s| == |r.snapshots|
  {
    seq(|r.snapshots|, i requires 0 <= i < |r.snapshots| => r.snapshots[i].columns)
  }

  function Tables(db: Database): Columns {
    ShapeOf(db).tables
  }

  predicate HasPeople(db: Database) {
    "people" in db.tables
  }

  /** Every table, column and index of the last snapshot. */
  predicate SchemaComplete(r: Release, db: Database)
    requires WellFormed(r)
  {
    r.journal != [] ==>
      var last := r.snapshots[|r.snapshots| - 1];
      HoldsAll(last.columns, Tables(db)) && last.indexes <= db.indexes.Keys
  }

  // ------------------------------------------------------- the two transactions

  /** Per table, the columns entry k drops: its snapshot against the one before. */
  function OwnDrops(r: Release, k: nat): map<string, set<string>>
    requires WellFormed(r) && k < |r.journal|
  {
    if k == 0 then map[]
    else
      var before, own := r.snapshots[k - 1].columns, r.snapshots[k].columns;
      map t | t in before :: before[t] - (if t in own then own[t] else {})
  }

  function ReplayFile(r: Release, k: nat, stmts: seq<Statement>, db: Database): Option<Database>
    requires WellFormed(r) && k < |r.journal|
  {
    match r.dialect
    case Postgres => ReplayAll(Postgres, stmts, db)
    case Sqlite => ReplaySteps(db, Plan(stmts, 0), OwnDrops(r, k))
  }

  /** The squash replay from entry k on. */
  function ReplayEntries(r: Release, db: Database, k: nat): Option<Database>
    requires WellFormed(r) && k <= |r.journal|
    decreases |r.journal| - k
  {
    if k == |r.journal| then Some(db)
    else match r.journal[k].file
      case None => ReplayEntries(r, db, k + 1)
      case Some(file) =>
        match ReplayFile(r, k, file.statements, db)
        case None => None
        case Some(next) => ReplayEntries(r, next, k + 1)
  }

  /** The strict application of the entries from k on that are not recorded. */
  function ApplyEntries(r: Release, recorded: set<string>, db: Database, k: nat): Option<Database>
    requires k <= |r.journal|
    decreases |r.journal| - k
  {
    if k == |r.journal| then Some(db)
    else if r.journal[k].file.None? || Records(recorded, r.journal[k]) then ApplyEntries(r, recorded, db, k + 1)
    else match ExecAll(db, r.journal[k].file.value.statements)
      case Failed(_) => None
      case Applied(next) => ApplyEntries(r, recorded, next, k + 1)
  }

  /** Hashes of the entries whose file is not recorded, in journal order. */
  function PendingHashes(journal: seq<Entry>, recorded: set<string>): seq<string> {
    if journal == [] then []
    else
      var e := journal[|journal| - 1];
      PendingHashes(journal[..|journal| - 1], recorded)
      + if e.file.Some? && !Records(recorded, e) then [e.file.value.hash] else []
  }

  // ------------------------------------------------------------------ one start

  function NewBackup(op: Operator, tag: string, inst: Install): Option<Backup> {
    if op.canWriteBackup then Some(Backup(tag, inst.db, inst.rows)) else None
  }

  predicate NeedsSquash(r: Release, inst: Install) {
    inst.journalTable && NeedsRecovery(r.journal, inst.rows, HasPeople(inst.db))
  }

  /** The squash recovery, when one is needed. */
  function Squash(r: Release, op: Operator, inst: Install, fault: Fault): Report
    requires WellFormed(r)
  {
    var backup := NewBackup(op, Label(r.journal, ColumnSnaps(r), Elements(inst.rows), Tables(inst.db)), inst);
    if fault == WhileReading then Report(inst, Some(Outage), None, false, false)
    else if backup == None && !op.skipBackup then Report(inst, Some(BackupRequired), None, false, false)
    else if fault == WhileSquashing then Report(inst, Some(Outage), backup, false, false)
    else
      match ReplayEntries(r, inst.db, 0)
      case None => Report(inst, Some(MigrationFailed), backup, false, false)
      case Some(after) =>
        if SchemaComplete(r, after)
        then Report(inst.(db := after, rows := PendingHashes(r.journal, {})), None, backup, true, false)
        else Report(inst, Some(MigrationFailed), backup, false, false)
  }

  /** The pending migrations, with the backup the squash made, if any. */
  function Pending(r: Release, op: Operator, inst: Install, backup: Option<Backup>, fault: Fault): Report
    requires WellFormed(r)
  {
    var recorded := Elements(inst.rows);
    var table := inst.(journalTable := true);
    if PendingTags(r.journal, recorded) == [] then
      Report(table, if fault == WhileApplying then Some(Outage) else None, backup, false, false)
    else
      var tag := match LastAppliedTag(r.journal, recorded) case Some(t) => t case None => op.era;
      var kept := if backup == None && HasPeople(inst.db) then NewBackup(op, tag, inst) else backup;
      if backup == None && HasPeople(inst.db) && kept == None && !op.skipBackup
      then Report(table, Some(BackupRequired), None, false, false)
      else if fault == WhileApplying then Report(table, Some(Outage), kept, false, false)
      else
        match ApplyEntries(r, recorded, inst.db, 0)
        case None => Report(table, Some(MigrationFailed), kept, false, false)
        case Some(after) =>
          if SchemaComplete(r, after)
          then Report(Install(after, inst.rows + PendingHashes(r.journal, recorded), true), None, kept, false, true)
          else Report(table, Some(MigrationFailed), kept, false, false)
  }

  /** One start of the migrator. */
  ghost function Migrate(r: Release, op: Operator, inst: Install, fault: Fault): Report
    requires WellFormed(r)
  {
    var refusal := RefusalOf(r.journal, ColumnSnaps(r), Elements(inst.rows), Tables(inst.db));
    if fault == WhileReading then Report(inst, Some(Outage), None, false, false)
    else if refusal.Some? then Report(inst, Some(Refused(refusal.value)), None, false, false)
    else
      var first := if NeedsSquash(r, inst) then Squash(r, op, inst, fault) else Report(inst, None, None, false, false);
      if first.failure.Some? then first
      else if fault == WhilePreparing then first.(failure := Some(Outage))
      else
        var second := Pending(r, op, first.install, first.backup, fault);
        second.(squashed := first.squashed)
  }

  // --------------------------------------------------------- after every start

  /** Every file of the journal is recorded and the whole last snapshot held. */
  ghost predicate Complete(r: Release, inst: Install)
    requires WellFormed(r)
  {
    && (forall e | e in r.journal && e.file.Some? :: e.file.value.hash in inst.rows)
    && SchemaComplete(r, inst.db)
  }

  ghost predicate Unchanged(a: Install, b: Install) {
    a.db == b.db && a.rows == b.rows
  }

  lemma {:induction false} PendingHashesCover(journal: seq<Entry>, recorded: set<string>)
    ensures forall e | e in journal && e.file.Some? :: Records(recorded, e) || e.file.value.hash in PendingHashes(journal, recorded)
    ensures forall h | h in PendingHashes(journal, recorded) :: exists e | e in journal && e.file.Some? :: e.file.value.hash == h
    ensures |PendingHashes(journal, recorded)| == |PendingTags(journal, recorded)|
  {
    if journal != [] {
      var rest := journal[..|journal| - 1];
      PendingHashesCover(rest, recorded);
      assert journal == rest + [journal[|journal| - 1]];
    }
  }

  /** With the first n entries recorded, those are the hashes of the rest, in order. */
  lemma {:induction false} HashesOfTheRest(journal: seq<Entry>, recorded: set<string>, n: nat)
    requires n <= |journal| && AllFiles(journal)
    requires forall k | 0 <= k < |journal| :: Records(recorded, journal[k]) <==> k < n
    ensures PendingHashes(journal, recorded) == Hashes(journal)[n..]
  {
    if journal != [] {
      var rest := journal[..|journal| - 1];
      HashesOfTheRest(rest, recorded, if n < |journal| then n else n - 1);
      assert Hashes(journal) == Hashes(rest) + [journal[|journal| - 1].file.value.hash];
    }
  }

  lemma {:induction false} AllRecordedNonePending(journal: seq<Entry>, recorded: set<string>)
    requires forall e | e in journal && e.file.Some? :: Records(recorded, e)
    ensures PendingTags(journal, recorded) == []
  {
    if journal != [] {
      AllRecordedNonePending(journal[..|journal| - 1], recorded);
    }
  }

  /** After a squash commits, nothing is pending. */
  lemma SquashLeavesNothingPending(r: Release, op: Operator, inst: Install, fault: Fault)
    requires WellFormed(r) && Squash(r, op, inst, fault).squashed
    ensures Complete(r, Squash(r, op, inst, fault).install)
    ensures PendingTags(r.journal, Elements(Squash(r, op, inst, fault).install.rows)) == []
    ensures AllFiles(r.journal) ==> Squash(r, op, inst, fault).install.rows == Hashes(r.journal)
  {
    PendingHashesCover(r.journal, {});
    if AllFiles(r.journal) {
      HashesOfTheRest(r.journal, {}, 0);
    }
    AllRecordedNonePending(r.journal, Elements(Squash(r, op, inst, fault).install.rows));
  }

  /** What was there is backed up, or the operator overrode it. */
  ghost predicate Kept(op: Operator, inst: Install, backup: Option<Backup>) {
    op.skipBackup || (backup.Some? && backup.value.db == inst.db && backup.value.rows == inst.rows)
  }

  lemma SquashOutcome(r: Release, op: Operator, inst: Install, fault: Fault)
    requires WellFormed(r)
    ensures var report := Squash(r, op, inst, fault);
            && !report.applied && (report.squashed <==> report.failure == None)
            && (report.squashed || report.install == inst)
            && (report.squashed ==> Complete(r, report.install) && PendingTags(r.journal, Elements(report.install.rows)) == [])
            && (report.squashed ==> Kept(op, inst, report.backup))
            && (report.failure.Some? ==> !report.failure.value.Refused?)
  {
    hide ReplayEntries, SchemaComplete, Elements, PendingTags, Label, Complete;
    if Squash(r, op, inst, fault).squashed {
      SquashLeavesNothingPending(r, op, inst, fault);
    }
  }

  lemma PendingOutcome(r: Release, op: Operator, inst: Install, backup: Option<Backup>, fault: Fault)
    requires WellFormed(r)
    ensures var report := Pending(r, op, inst, backup, fault);
            && !report.squashed && (report.applied || Unchanged(report.install, inst))
            && (report.applied ==> Complete(r, report.install) && PendingTags(r.journal, Elements(inst.rows)) != [])
            && (report.applied && HasPeople(inst.db) && (backup.None? || Kept(op, inst, backup)) ==> Kept(op, inst, report.backup))
            && (report.backup == backup || (backup.None? && report.backup.Some?))
            && (report.failure.Some? ==> !report.failure.value.Refused?)
  {
    hide ApplyEntries, SchemaComplete, PendingTags, LastAppliedTag;
    PendingHashesCover(r.journal, Elements(inst.rows));
  }

  /** Wherever a start throws, schema, data and migration rows are exactly as
      before, or every file is recorded and the whole last snapshot held; and
      not both transactions have changed something. */
  lemma AllOrNothing(r: Release, op: Operator, inst: Install, fault: Fault)
    requires WellFormed(r)
    ensures var report := Migrate(r, op, inst, fault);
            && (report.squashed || report.applied || Unchanged(report.install, inst))
            && (report.squashed || report.applied ==> Complete(r, report.install))
            && !(report.squashed && report.applied)
  {
    hide Squash, Pending, RefusalOf, NeedsRecovery, Complete, PendingTags;
    SquashOutcome(r, op, inst, fault);
    var first := if NeedsSquash(r, inst) then Squash(r, op, inst, fault) else Report(inst, None, None, false, false);
    PendingOutcome(r, op, first.install, first.backup, fault);
    if first.squashed {
      CompleteStays(r, first.install, Pending(r, op, first.install, first.backup, fault).install);
    }
  }

  lemma CompleteStays(r: Release, a: Install, b: Install)
    requires WellFormed(r) && Complete(r, a)
    ensures Unchanged(b, a) ==> Complete(r, b)
  {
  }

  /** An existing install is changed only after a backup of exactly what was
      there, or under the operator's override; a refused one is not even backed
      up. */
  lemma BackedUpBeforeAnyChange(r: Release, op: Operator, inst: Install, fault: Fault)
    requires WellFormed(r)
    ensures var report := Migrate(r, op, inst, fault);
            && (!Unchanged(report.install, inst) && HasPeople(inst.db) ==> Kept(op, inst, report.backup))
            && (report.failure.Some? && report.failure.value.Refused? ==> report == Report(inst, report.failure, None, false, false))
  {
    hide Squash, Pending, RefusalOf, NeedsRecovery, Complete, PendingTags, HasPeople;
    SquashOutcome(r, op, inst, fault);
    var first := if NeedsSquash(r, inst) then Squash(r, op, inst, fault) else Report(inst, None, None, false, false);
    PendingOutcome(r, op, first.install, first.backup, fault);
  }

  // ------------------------------------------------------------- a second start

  /** Every hash of the journal is recorded once, and nothing else. */
  ghost predicate Settled(r: Release, inst: Install)
    requires AllFiles(r.journal)
  {
    inst.journalTable && |inst.rows| == |r.journal| && Elements(inst.rows) == Elements(Hashes(r.journal))
  }

  lemma {:induction false} FreshHashes(journal: seq<Entry>)
    requires AllFiles(journal)
    ensures PendingHashes(journal, {}) == Hashes(journal)
  {
    if journal != [] {
      var rest := journal[..|journal| - 1];
      FreshHashes(rest);
      assert Hashes(journal) == Hashes(rest) + [journal[|journal| - 1].file.value.hash];
    }
  }

  lemma {:induction false} PendingHashesOfPrefix(journal: seq<Entry>, recorded: set<string>, n: nat)
    requires AllFiles(journal) && n <= |journal|
    requires forall k | 0 <= k < |journal| :: Records(recorded, journal[k]) <==> k < n
    ensures PendingHashes(journal, recorded) == Hashes(journal)[n..]
  {
    if journal != [] {
      var rest := journal[..|journal| - 1];
      assert forall k | 0 <= k < |rest| :: rest[k] == journal[k];
      PendingHashesOfPrefix(rest, recorded, if n < |journal| then n else n - 1);
      assert Hashes(journal) == Hashes(rest) + [journal[|journal| - 1].file.value.hash];
    }
  }

  lemma ElementsOfParts(s: seq<string>, a: seq<string>, n: nat)
    requires n <= |s| && Elements(a) == Elements(s[..n])
    ensures Elements(a + s[n..]) == Elements(s)
  {
    assert s == s[..n] + s[n..];
    assert forall x :: x in a <==> x in Elements(a);
    assert forall x :: x in s[..n] <==> x in Elements(s[..n]);
  }

  lemma SquashSettles(r: Release, op: Operator, inst: Install, fault: Fault)
    requires WellFormed(r) && AllFiles(r.journal) && inst.journalTable
    requires Squash(r, op, inst, fault).squashed
    ensures Settled(r, Squash(r, op, inst, fault).install)
  {
    hide ReplayEntries, SchemaComplete;
    FreshHashes(r.journal);
  }

  lemma PendingSettles(r: Release, op: Operator, inst: Install, backup: Option<Backup>, fault: Fault)
    requires WellFormed(r) && AllFiles(r.journal) && DistinctHashes(r.journal)
    requires inst.rows == [] || !NeedsRecovery(r.journal, inst.rows, HasPeople(inst.db))
    requires Pending(r, op, inst, backup, fault).failure == None
    ensures Settled(r, Pending(r, op, inst, backup, fault).install)
  {
    hide ApplyEntries, SchemaComplete, NeedsRecovery, DistinctHashes;
    if inst.rows == [] {
      FreshHashes(r.journal);
      assert Elements(inst.rows) == {};
      PendingHashesCover(r.journal, {});
      assert inst.rows + Hashes(r.journal) == Hashes(r.journal);
    } else {
      RecordedIsPrefix(r.journal, inst.rows, HasPeople(inst.db));
      PendingRestSettles(r.journal, inst.rows);
    }
  }

  /** A start that ends without an error leaves the journal settled. */
  lemma SuccessSettles(r: Release, op: Operator, inst: Install, fault: Fault)
    requires WellFormed(r) && AllFiles(r.journal) && DistinctHashes(r.journal)
    requires inst.journalTable || inst.rows == []
    requires Migrate(r, op, inst, fault).failure == None
    ensures Settled(r, Migrate(r, op, inst, fault).install)
  {
    hide ReplayEntries, ApplyEntries, SchemaComplete, NeedsRecovery, DistinctHashes, RefusalOf;
    if NeedsSquash(r, inst) {
      SquashLeavesNothingPending(r, op, inst, fault);
      SquashSettles(r, op, inst, fault);
    } else {
      PendingSettles(r, op, inst, None, fault);
    }
  }

  lemma PendingRestSettles(journal: seq<Entry>, rows: seq<string>)
    requires AllFiles(journal) && DistinctHashes(journal) && |rows| <= |journal|
    requires Elements(rows) == Elements(Hashes(journal)[..|rows|])
    ensures var all := rows + PendingHashes(journal, Elements(rows));
            |all| == |journal| && Elements(all) == Elements(Hashes(journal))
    ensures PendingTags(journal, Elements(rows)) == [] ==> PendingHashes(journal, Elements(rows)) == []
  {
    var hashes := Hashes(journal);
    forall k | 0 <= k < |journal|
      ensures Records(Elements(rows), journal[k]) <==> k < |rows|
    {
      if k < |rows| {
        assert hashes[..|rows|][k] == journal[k].file.value.hash;
      } else {
        assert journal[k].file.value.hash !in hashes[..|rows|];
      }
    }
    PendingHashesOfPrefix(journal, Elements(rows), |rows|);
    ElementsOfParts(hashes, rows, |rows|);
    PendingHashesCover(journal, Elements(rows));
  }

  /** After a start that ended without an error, every later start of the same
      release leaves schema, data and rows alone, wherever it may throw, and
      (unless the journal is empty) writes no backup. */
  lemma SecondStartChangesNothing(r: Release, inst: Install, op: Operator, fault: Fault, op2: Operator, fault2: Fault)
    requires WellFormed(r) && AllFiles(r.journal) && DistinctHashes(r.journal)
    requires inst.journalTable || inst.rows == []
    requires Migrate(r, op, inst, fault).failure == None
    ensures var after := Migrate(r, op, inst, fault).install;
            var again := Migrate(r, op2, after, fault2);
            r.journal != [] ==> again.install == after && again.backup == None
  {
    SuccessSettles(r, op, inst, fault);
    if r.journal != [] {
      SettledStartsAreIdle(r, Migrate(r, op, inst, fault).install, op2, fault2);
    }
  }

  lemma SettledStartsAreIdle(r: Release, inst: Install, op: Operator, fault: Fault)
    requires WellFormed(r) && AllFiles(r.journal) && r.journal != [] && Settled(r, inst)
    ensures Migrate(r, op, inst, fault).install == inst && Migrate(r, op, inst, fault).backup == None
  {
    forall k | 0 <= k < |r.journal|
      ensures Records(Elements(inst.rows), r.journal[k])
    {
      assert Hashes(r.journal)[k] in Elements(Hashes(r.journal));
    }
    assert forall e | e in r.journal :: Records(Elements(inst.rows), e);
    assert !NeedsRecovery(r.journal, inst.rows, HasPeople(inst.db)) by {
      assert forall k | 0 <= k < |r.journal| :: r.journal[k].file.value.hash in Elements(inst.rows);
    }
    AllRecordedNonePending(r.journal, Elements(inst.rows));
  }
}
