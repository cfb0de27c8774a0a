/** What a replay does to the rows, over a database at any statement of a plain
    journal: on PostgreSQL, which rows stop it, and what every cell is if none
    does. */
module ReplayRows {
  import opened Schema
  import opened Replay
  import opened ReplayTables

  ghost predicate AllPlain(stmts: seq<Statement>) {
    forall st | st in stmts :: Plain(st)
  }

  predicate Adds(st: Statement, t: string, c: string, default: Value) {
    st.AddColumn? && st.table == t && st.column == c && st.default == default
  }

  /** One of the first k statements adds the column, with this default. */
  ghost predicate AddedAs(stmts: seq<Statement>, k: nat, t: string, c: string, default: Value)
    requires k <= |stmts|
  {
    exists j | 0 <= j < k :: Adds(stmts[j], t, c, default)
  }

  /** After k statements the column has a null, told from the rows at the start: one
      of its own, or any row at all where the journal adds the column as null. */
  ghost predicate HoldsNull(stmts: seq<Statement>, db: Database, k: nat, t: string, c: string)
    requires k <= |stmts|
  {
    && t in db.tables
    && if c in db.tables[t].columns then Null in db.tables[t].columns[c].Values
       else db.tables[t].rows != {} && AddedAs(stmts, k, t, c, Null)
  }

  predicate NeedsDefault(st: Statement) {
    st.AddColumn? && st.notNull && st.default == Null
  }

  /** The rows that stop a replay: statement k puts NOT NULL on a column with a null,
      or adds one that is NOT NULL, without a default, to a table with rows. */
  ghost predicate StoppedAt(stmts: seq<Statement>, db: Database, k: nat)
    requires k < |stmts|
  {
    || (stmts[k].SetNotNull? && HoldsNull(stmts, db, k, stmts[k].table, stmts[k].column))
    || (NeedsDefault(stmts[k]) && LacksWithRows(db, stmts[k].table, stmts[k].column))
  }

  predicate LacksWithRows(db: Database, t: string, c: string) {
    t in db.tables && c !in db.tables[t].columns && db.tables[t].rows != {}
  }

  ghost predicate GetsThrough(stmts: seq<Statement>, db: Database, k: nat)
    requires k <= |stmts|
  {
    forall j | 0 <= j < k :: !StoppedAt(stmts, db, j)
  }

  /** A column the database has keeps its cells; one it does not have got the
      default everywhere. */
  ghost predicate CellsKept(db: Database, after: Database, stmts: seq<Statement>, k: nat, t: string, c: string)
    requires k <= |stmts| && t in db.tables && t in after.tables && c in after.tables[t].columns
  {
    if c in db.tables[t].columns then after.tables[t].columns[c] == db.tables[t].columns[c]
    else exists d :: AddedAs(stmts, k, t, c, d) && after.tables[t].columns[c] == map r | r in db.tables[t].rows :: d
  }

  /** A table keeps its rows; one the replay made has none. */
  ghost predicate TableKept(db: Database, after: Database, stmts: seq<Statement>, k: nat, t: string)
    requires k <= |stmts| && t in after.tables
  {
    if t in db.tables then
      && after.tables[t].rows == db.tables[t].rows
      && forall c | c in after.tables[t].columns :: CellsKept(db, after, stmts, k, t, c)
    else
      && after.tables[t].rows == {}
      && forall c | c in after.tables[t].columns :: after.tables[t].columns[c] == map[]
  }

  ghost predicate RowsKept(db: Database, after: Database, stmts: seq<Statement>, k: nat)
    requires k <= |stmts|
  {
    forall t | t in after.tables :: TableKept(db, after, stmts, k, t)
  }

  lemma AddedOn(stmts: seq<Statement>, k: nat, t: string, c: string, d: Value)
    requires k < |stmts| && (AddedAs(stmts, k, t, c, d) || Adds(stmts[k], t, c, d))
    ensures AddedAs(stmts, k + 1, t, c, d)
  {
  }

  // ---------------------------------------------------------------- one statement

  /** A table a statement leaves alone stays as it was kept. */
  lemma SameTableKept(db: Database, mid: Database, after: Database, stmts: seq<Statement>, k: nat, t: string)
    requires k < |stmts| && t in mid.tables && TableKept(db, mid, stmts, k, t)
    requires t in after.tables && after.tables[t].rows == mid.tables[t].rows
    requires forall c | c in after.tables[t].columns ::
               c in mid.tables[t].columns && after.tables[t].columns[c] == mid.tables[t].columns[c]
    ensures TableKept(db, after, stmts, k + 1, t)
  {
    if t in db.tables {
      hide AddedAs;
      forall c | c in after.tables[t].columns
        ensures CellsKept(db, after, stmts, k + 1, t, c)
      {
        assert CellsKept(db, mid, stmts, k, t, c);
        if c !in db.tables[t].columns {
          var d :| AddedAs(stmts, k, t, c, d) && mid.tables[t].columns[c] == map r | r in db.tables[t].rows :: d;
          AddedOn(stmts, k, t, c, d);
        }
      }
    }
  }

  lemma AddedTableKept(db: Database, mid: Database, after: Database, stmts: seq<Statement>, k: nat)
    requires k < |stmts| && stmts[k].AddColumn? && stmts[k].table in mid.tables
    requires TableKept(db, mid, stmts, k, stmts[k].table)
    requires var (t, c) := (stmts[k].table, stmts[k].column);
             && !(t in db.tables && c in db.tables[t].columns)
             && t in after.tables && after.tables[t].rows == mid.tables[t].rows
             && after.tables[t].columns == mid.tables[t].columns[c := map r | r in mid.tables[t].rows :: stmts[k].default]
    ensures TableKept(db, after, stmts, k + 1, stmts[k].table)
  {
    var t := stmts[k].table;
    if t in db.tables {
      hide AddedAs;
      forall c | c in after.tables[t].columns
        ensures CellsKept(db, after, stmts, k + 1, t, c)
      {
        if c == stmts[k].column {
          AddedOn(stmts, k, t, c, stmts[k].default);
        } else {
          assert CellsKept(db, mid, stmts, k, t, c);
          if c !in db.tables[t].columns {
            var d :| AddedAs(stmts, k, t, c, d) && mid.tables[t].columns[c] == map r | r in db.tables[t].rows :: d;
            AddedOn(stmts, k, t, c, d);
          }
        }
      }
    }
  }

  /** What the statement makes, the database did not have. */
  predicate MakesNew(held: Columns, tables: Columns, st: Statement) {
    && (st.CreateTable? && st.table !in tables ==> st.table !in held)
    && (st.AddColumn? && st.table in tables && st.column !in tables[st.table] ==>
          !(st.table in held && st.column in held[st.table]))
  }

  lemma RowsStep(dialect: Dialect, db: Database, mid: Database, stmts: seq<Statement>, k: nat)
    requires k < |stmts| && Plain(stmts[k]) && RowsKept(db, mid, stmts, k)
    requires ReplayOne(dialect, mid, stmts[k]).Some?
    requires MakesNew(ShapeOf(db).tables, ShapeOf(mid).tables, stmts[k])
    ensures RowsKept(db, ReplayOne(dialect, mid, stmts[k]).value, stmts, k + 1)
  {
    var st, after := stmts[k], ReplayOne(dialect, mid, stmts[k]).value;
    StatementOnTables(dialect, mid, st);
    forall t | t in after.tables
      ensures TableKept(db, after, stmts, k + 1, t)
    {
      hide ReplayOne, TableKept;
      if t in mid.tables {
        assert TableKept(db, mid, stmts, k, t);
        if st.AddColumn? && st.table == t && st.column !in mid.tables[t].columns {
          AddedTableKept(db, mid, after, stmts, k);
        } else {
          SameTableKept(db, mid, after, stmts, k, t);
        }
      } else {
        MadeTableKept(db, after, stmts, k + 1, t);
      }
    }
  }

  lemma MadeTableKept(db: Database, after: Database, stmts: seq<Statement>, k: nat, t: string)
    requires k <= |stmts| && t in after.tables && t !in db.tables
    requires after.tables[t].rows == {} && forall c | c in after.tables[t].columns :: after.tables[t].columns[c] == map[]
    ensures TableKept(db, after, stmts, k, t)
  {
  }

  /** Which tables a replayed plain statement touches, and how. */
  lemma StatementOnTables(dialect: Dialect, mid: Database, st: Statement)
    requires Plain(st) && ReplayOne(dialect, mid, st).Some?
    ensures var after := ReplayOne(dialect, mid, st).value;
            forall t | t in after.tables ::
              if t !in mid.tables then
                && st.CreateTable? && st.table == t
                && after.tables[t].rows == {} && forall c | c in after.tables[t].columns :: after.tables[t].columns[c] == map[]
              else
                && after.tables[t].rows == mid.tables[t].rows
                && if st.AddColumn? && st.table == t && st.column !in mid.tables[t].columns
                   then after.tables[t].columns == mid.tables[t].columns[st.column := map r | r in mid.tables[t].rows :: st.default]
                   else forall c | c in after.tables[t].columns ::
                          c in mid.tables[t].columns && after.tables[t].columns[c] == mid.tables[t].columns[c]
  {
    hide HasDuplicates;
  }

  // ---------------------------------------------------------- where the tables are

  lemma PlainLeavesNothing(stmts: seq<Statement>, start: Columns, k: nat)
    requires AllPlain(stmts) && k <= |stmts|
    ensures LeftBehind(stmts, start, k) == {}
  {
    LeftByRename(stmts, start, k);
    assert forall j | 0 <= j < k :: stmts[j] in stmts;
  }

  /** The replay's tables, for a plain journal. */
  ghost predicate HeldAt(stmts: seq<Statement>, snaps: seq<Shape>, p: nat, k: nat, tables: Columns)
    requires |snaps| == |stmts| + 1 && p <= |stmts| && k <= |stmts|
  {
    if k <= p then Mirrors(snaps[p].tables, snaps[k].tables, {}, AddedColumns(stmts, k), tables)
    else tables == snaps[k].tables
  }

  lemma Held(stmts: seq<Statement>, snaps: seq<Shape>, p: nat, k: nat)
    requires Installs(stmts, snaps) && NoNameReturns(snaps) && AllPlain(stmts) && p <= |stmts| && k <= |stmts|
    ensures HeldAt(stmts, snaps, p, k, SteppedTo(stmts, snaps[p].tables, k))
    ensures k >= p ==> SteppedTo(stmts, snaps[p].tables, k) == snaps[k].tables
  {
    hide SteppedTo, NoNameReturns;
    if k <= p {
      PlainLeavesNothing(stmts, snaps[p].tables, k);
      PrefixTables(stmts, snaps, p, k);
    }
    if k >= p {
      PlainLeavesNothing(stmts, snaps[p].tables, p);
      TailTables(stmts, snaps, p, k);
    }
  }

  /** The replay never makes again what the database has. */
  lemma NothingMadeTwice(stmts: seq<Statement>, snaps: seq<Shape>, p: nat, k: nat, tables: Columns)
    requires Installs(stmts, snaps) && NoNameReturns(snaps) && p <= |stmts| && k < |stmts|
    requires HeldAt(stmts, snaps, p, k, tables)
    ensures MakesNew(snaps[p].tables, tables, stmts[k])
  {
    var st := stmts[k];
    JournalRuns(stmts, snaps, k);
    hide Installs, NoNameReturns;
    if k > p {
      if st.CreateTable? && st.table in snaps[p].tables {
        Stays(snaps, p, k, k + 1, TableName(st.table));
      }
      if st.AddColumn? && HasColumn(snaps[p], st.table, st.column) {
        Stays(snaps, p, k, k + 1, ColumnName(st.table, st.column));
      }
    }
  }

  lemma {:induction false} AddedIsListed(stmts: seq<Statement>, k: nat, t: string, c: string)
    requires k <= |stmts|
    ensures (t, c) in AddedColumns(stmts, k) <==> exists d :: AddedAs(stmts, k, t, c, d)
  {
    if k > 0 {
      var l := k - 1;
      AddedIsListed(stmts, l, t, c);
      if d :| AddedAs(stmts, l, t, c, d) {
        AddedOn(stmts, l, t, c, d);
      }
      if stmts[l].AddColumn? && stmts[l].table == t && stmts[l].column == c {
        AddedOn(stmts, l, t, c, stmts[l].default);
      }
      if d :| AddedAs(stmts, k, t, c, d) {
        assert AddedAs(stmts, l, t, c, d) || Adds(stmts[l], t, c, d);
      }
    }
  }

  /** No column is added twice. */
  ghost predicate AddsOnce(stmts: seq<Statement>) {
    forall i, j | 0 <= i < j < |stmts| && stmts[i].AddColumn? && stmts[j].AddColumn? ::
      stmts[i].table == stmts[j].table ==> stmts[i].column != stmts[j].column
  }

  lemma JournalAddsOnce(stmts: seq<Statement>, snaps: seq<Shape>)
    requires Installs(stmts, snaps) && NoNameReturns(snaps)
    ensures AddsOnce(stmts)
  {
    forall i, j | 0 <= i < j < |stmts| && stmts[i].AddColumn? && stmts[j].AddColumn? && stmts[i].table == stmts[j].table
      ensures stmts[i].column != stmts[j].column
    {
      JournalRuns(stmts, snaps, i);
      JournalRuns(stmts, snaps, j);
      if stmts[i].column == stmts[j].column {
        Stays(snaps, i + 1, j, j + 1, ColumnName(stmts[i].table, stmts[i].column));
      }
    }
  }

  lemma OneDefault(stmts: seq<Statement>, k: nat, t: string, c: string, d: Value, e: Value)
    requires AddsOnce(stmts) && k <= |stmts|
    requires AddedAs(stmts, k, t, c, d) && AddedAs(stmts, k, t, c, e)
    ensures d == e
  {
    var i :| 0 <= i < k && Adds(stmts[i], t, c, d);
    var j :| 0 <= j < k && Adds(stmts[j], t, c, e);
    assert !(i < j) && !(j < i);
  }

  /** The start's rows tell whether a column of the replay has a null. */
  lemma NullHeld(stmts: seq<Statement>, db: Database, k: nat, mid: Database, t: string, c: string)
    requires AddsOnce(stmts) && k <= |stmts| && RowsKept(db, mid, stmts, k)
    requires t in mid.tables && c in mid.tables[t].columns
    ensures Null in mid.tables[t].columns[c].Values <==> HoldsNull(stmts, db, k, t, c)
  {
    hide AddsOnce;
    assert TableKept(db, mid, stmts, k, t);
    if t in db.tables && c !in db.tables[t].columns {
      assert CellsKept(db, mid, stmts, k, t, c);
      var d :| AddedAs(stmts, k, t, c, d) && mid.tables[t].columns[c] == map r | r in db.tables[t].rows :: d;
      if AddedAs(stmts, k, t, c, Null) {
        OneDefault(stmts, k, t, c, d, Null);
      }
      AllOneValue(db.tables[t].rows, d);
    }
  }

  /** The column is in the replay at a statement that names it, and its cells
      tell whether that statement stops. */
  lemma NullsDecide(stmts: seq<Statement>, snaps: seq<Shape>, p: nat, db: Database, k: nat, mid: Database)
    requires Installs(stmts, snaps) && NoNameReturns(snaps) && p <= |stmts| && k < |stmts|
    requires ShapeOf(db).tables == snaps[p].tables && HeldAt(stmts, snaps, p, k, ShapeOf(mid).tables)
    requires RowsKept(db, mid, stmts, k) && stmts[k].SetNotNull?
    ensures BreaksNotNull(mid, stmts[k]) <==> StoppedAt(stmts, db, k)
  {
    var t, c := stmts[k].table, stmts[k].column;
    assert RunsAt(stmts, snaps, k);
    assert HasColumn(snaps[k], t, c);
    assert t in db.tables <==> t in snaps[p].tables;
    assert t in db.tables ==> db.tables[t].columns.Keys == snaps[p].tables[t];
    AddedIsListed(stmts, k, t, c);
    JournalAddsOnce(stmts, snaps);
    assert t in db.tables && (c in db.tables[t].columns || (t, c) in AddedColumns(stmts, k)) ==> HasColumn(ShapeOf(mid), t, c);
    if HasColumn(ShapeOf(mid), t, c) {
      NullHeld(stmts, db, k, mid, t, c);
    }
  }

  /** So do the rows of the table, where the statement adds a column. */
  lemma RowsDecideAdding(stmts: seq<Statement>, snaps: seq<Shape>, p: nat, db: Database, k: nat, mid: Database)
    requires Installs(stmts, snaps) && NoNameReturns(snaps) && p <= |stmts| && k < |stmts|
    requires ShapeOf(db).tables == snaps[p].tables && HeldAt(stmts, snaps, p, k, ShapeOf(mid).tables)
    requires RowsKept(db, mid, stmts, k) && stmts[k].AddColumn?
    ensures BreaksNotNull(mid, stmts[k]) <==> StoppedAt(stmts, db, k)
  {
    var t, c := stmts[k].table, stmts[k].column;
    JournalRuns(stmts, snaps, k);
    NothingMadeTwice(stmts, snaps, p, k, ShapeOf(mid).tables);
    hide Installs, NoNameReturns;
    assert t in db.tables <==> t in ShapeOf(db).tables;
    assert t in mid.tables <==> t in ShapeOf(mid).tables;
    assert t in mid.tables ==> TableKept(db, mid, stmts, k, t);
  }

  lemma AllOneValue(rows: set<RowId>, d: Value)
    ensures Null in (map r | r in rows :: d).Values <==> d == Null && rows != {}
  {
    if r :| r in rows {
      assert (map r | r in rows :: d)[r] == d;
    }
  }

  // ------------------------------------------------------------------ the journal

  /** A replay gets as far as statement k if and only if no row stops it before;
      then every table and cell is kept. */
  lemma {:induction false} ReplayThrough(stmts: seq<Statement>, snaps: seq<Shape>, p: nat, db: Database, k: nat)
    requires Installs(stmts, snaps) && NoNameReturns(snaps) && AllPlain(stmts)
    requires p <= |stmts| && k <= |stmts| && ShapeOf(db).tables == snaps[p].tables
    ensures ReplayTo(Postgres, stmts, db, k).Some? <==> GetsThrough(stmts, db, k)
    ensures ReplayTo(Postgres, stmts, db, k).Some? ==> RowsKept(db, ReplayTo(Postgres, stmts, db, k).value, stmts, k)
  {
    hide Installs, NoNameReturns, ReplayOne, StoppedAt, BreaksNotNull, RowsKept, SteppedTo, HeldAt, MakesNew;
    if k == 0 {
      NothingChanged(db, stmts);
    } else {
      ReplayThrough(stmts, snaps, p, db, k - 1);
      if ReplayTo(Postgres, stmts, db, k - 1).Some? {
        var mid := ReplayTo(Postgres, stmts, db, k - 1).value;
        ReplayStepsTo(Postgres, stmts, db, k - 1);
        Held(stmts, snaps, p, k - 1);
        NothingMadeTwice(stmts, snaps, p, k - 1, ShapeOf(mid).tables);
        StopsOnlyAtNulls(mid, stmts[k - 1]);
        assert stmts[k - 1] in stmts;
        StopsAsTold(stmts, snaps, p, db, k - 1, mid);
        if ReplayOne(Postgres, mid, stmts[k - 1]).Some? {
          RowsStep(Postgres, db, mid, stmts, k - 1);
        }
      }
    }
  }

  lemma StopsAsTold(stmts: seq<Statement>, snaps: seq<Shape>, p: nat, db: Database, k: nat, mid: Database)
    requires Installs(stmts, snaps) && NoNameReturns(snaps) && p <= |stmts| && k < |stmts| && Plain(stmts[k])
    requires ShapeOf(db).tables == snaps[p].tables && HeldAt(stmts, snaps, p, k, ShapeOf(mid).tables)
    requires RowsKept(db, mid, stmts, k)
    ensures BreaksNotNull(mid, stmts[k]) <==> StoppedAt(stmts, db, k)
  {
    hide Installs, NoNameReturns, HeldAt, RowsKept, ShapeOf;
    if stmts[k].SetNotNull? {
      NullsDecide(stmts, snaps, p, db, k, mid);
    } else if stmts[k].AddColumn? {
      RowsDecideAdding(stmts, snaps, p, db, k, mid);
    }
  }

  lemma NothingChanged(db: Database, stmts: seq<Statement>)
    ensures RowsKept(db, db, stmts, 0)
  {
  }

  /** What the database itself sees to, it still does after any part of a replay. */
  lemma {:induction false} ReplayStaysLawful(dialect: Dialect, stmts: seq<Statement>, db: Database, k: nat)
    requires AllPlain(stmts) && k <= |stmts| && Lawful(db) && Sound(ShapeOf(db))
    ensures var after := ReplayTo(dialect, stmts, db, k);
            after.Some? ==> Lawful(after.value) && Sound(ShapeOf(after.value))
  {
    hide Lawful, Sound, EffectOn, Plain, Exec;
    if k > 0 {
      ReplayStaysLawful(dialect, stmts, db, k - 1);
      var last, mid := stmts[k - 1], ReplayTo(dialect, stmts, db, k - 1);
      if mid.Some? && Exec(mid.value, last).Applied? {
        PlainStaysLawful(mid.value, last);
        ExecShape(mid.value, last);
        EffectIsSound(ShapeOf(mid.value), last);
      }
    }
  }
}
