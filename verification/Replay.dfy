/** The squash replay on PostgreSQL: every statement of the journal runs again,
    under a savepoint, over a database that is somewhere along that journal.
    Errors meaning "already done" are skipped. */
module Replay {
  import opened Options
  import opened Schema

  datatype Dialect = Postgres | Sqlite

  /** The errors a replay skips. */
  predicate Ignorable(dialect: Dialect, code: ErrorCode) {
    code != NotNullViolation && (code == UniqueViolation ==> dialect == Postgres)
  }

  /** One statement of a replay; None when the error is not ignorable. */
  function ReplayOne(dialect: Dialect, db: Database, st: Statement): Option<Database> {
    match Exec(db, st)
    case Applied(after) => Some(after)
    case Failed(code) => if Ignorable(dialect, code) then Some(db) else None
  }

  /** A replay of the first k statements. */
  function ReplayTo(dialect: Dialect, stmts: seq<Statement>, db: Database, k: nat): Option<Database>
    requires k <= |stmts|
  {
    if k == 0 then Some(db)
    else match ReplayTo(dialect, stmts, db, k - 1)
      case None => None
      case Some(mid) => ReplayOne(dialect, mid, stmts[k - 1])
  }

  function ReplayAll(dialect: Dialect, stmts: seq<Statement>, db: Database): Option<Database> {
    ReplayTo(dialect, stmts, db, |stmts|)
  }

  // ---------------------------------------------------------------- snapshots

  /** Statement k runs without an error, from one snapshot to the next. */
  ghost predicate RunsAt(stmts: seq<Statement>, snaps: seq<Shape>, k: nat)
    requires |snaps| == |stmts| + 1 && k < |stmts|
  {
    EffectOn(snaps[k], stmts[k]) == Changed(snaps[k + 1])
  }

  /** A fresh install runs every statement without an error; snaps[k] is its
      schema after the first k of them. */
  ghost predicate Installs(stmts: seq<Statement>, snaps: seq<Shape>) {
    && |snaps| == |stmts| + 1 && snaps[0] == EMPTY
    && forall k | 0 <= k < |stmts| :: RunsAt(stmts, snaps, k)
  }

  /** A table or a column, by name. */
  datatype Name = TableName(table: string) | ColumnName(table: string, column: string)

  predicate Has(s: Shape, n: Name) {
    match n
    case TableName(t) => t in s.tables
    case ColumnName(t, c) => HasColumn(s, t, c)
  }

  /** No table or column that a statement drops is ever there again. An index
      name may be used again. */
  ghost predicate NoNameReturns(snaps: seq<Shape>) {
    forall i, j, k, n | 0 <= i <= j <= k < |snaps| ::
      Has(snaps[i], n) && Has(snaps[k], n) ==> Has(snaps[j], n)
  }

  lemma Stays(snaps: seq<Shape>, i: nat, j: nat, k: nat, n: Name)
    requires NoNameReturns(snaps) && i <= j <= k < |snaps| && Has(snaps[i], n) && Has(snaps[k], n)
    ensures Has(snaps[j], n)
  {
  }

  lemma {:induction false} SnapshotSound(stmts: seq<Statement>, snaps: seq<Shape>, k: nat)
    requires Installs(stmts, snaps) && k < |snaps|
    ensures Sound(snaps[k])
  {
    if k > 0 {
      SnapshotSound(stmts, snaps, k - 1);
      assert RunsAt(stmts, snaps, k - 1);
      EffectIsSound(snaps[k - 1], stmts[k - 1]);
    }
  }

  /** A statement that applies to a database never fails on its snapshot's
      schema, so only its rows can stop it. */
  lemma RowsDecide(db: Database, st: Statement)
    requires EffectOn(ShapeOf(db), st).Changed?
    ensures Exec(db, st).Failed? <==> RowFault(db, st).Some?
  {
  }

  /** Some row breaks a NOT NULL of the statement: one put on a column, one a new
      column without a default comes with, or one of the table rows are copied to. */
  predicate BreaksNotNull(db: Database, st: Statement) {
    match st
    case SetNotNull(t, c) => HasColumn(ShapeOf(db), t, c) && Null in db.tables[t].columns[c].Values
    case AddColumn(t, c, default, notNull) =>
      notNull && default == Null && t in db.tables && c !in db.tables[t].columns && db.tables[t].rows != {}
    case CopyRows(from, to, cols) =>
      && from in db.tables && to in db.tables
      && cols <= db.tables[from].columns.Keys && cols <= db.tables[to].columns.Keys && CopiesNull(db, from, to, cols)
    case _ => false
  }

  /** On PostgreSQL a replay stops at nothing but a NOT NULL that some row
      breaks. */
  lemma StopsOnlyAtNulls(db: Database, st: Statement)
    ensures ReplayOne(Postgres, db, st) == None <==> BreaksNotNull(db, st)
  {
    hide HasDuplicates;
  }
}
