/** Where a PostgreSQL replay ends: NOT NULLs and indexes, and exactly when that is
    the last snapshot, told from the rows there were before. */
module Convergence {
  import opened Options
  import opened Schema
  import opened Replay
  import opened ReplayTables
  import opened ReplayRows

  /** A lawful database at statement p of a plain journal. */
  ghost predicate StandsAt(stmts: seq<Statement>, snaps: seq<Shape>, p: nat, db: Database) {
    && Installs(stmts, snaps) && NoNameReturns(snaps) && AllPlain(stmts)
    && p <= |stmts| && ShapeOf(db) == snaps[p] && Lawful(db)
  }

  /** The replay has run k statements and has come to mid. */
  ghost predicate ComesTo(stmts: seq<Statement>, snaps: seq<Shape>, p: nat, db: Database, k: nat, mid: Database) {
    StandsAt(stmts, snaps, p, db) && k <= |stmts| && ReplayTo(Postgres, stmts, db, k) == Some(mid)
  }

  /** What is known of the tables and rows then. */
  lemma ThenTables(stmts: seq<Statement>, snaps: seq<Shape>, p: nat, db: Database, k: nat, mid: Database)
    requires ComesTo(stmts, snaps, p, db, k, mid)
    ensures |snaps| == |stmts| + 1 && p <= |stmts| && k <= |stmts|
    ensures HeldAt(stmts, snaps, p, k, ShapeOf(mid).tables) && RowsKept(db, mid, stmts, k)
    ensures k >= p ==> ShapeOf(mid).tables == snaps[k].tables
  {
    assert |snaps| == |stmts| + 1 && ShapeOf(db).tables == snaps[p].tables;
    hide Installs, NoNameReturns, AllPlain, Lawful, ReplayTo, SteppedTo, HeldAt, RowsKept;
    ReplayThrough(stmts, snaps, p, db, k);
    ReplayStepsTo(Postgres, stmts, db, k);
    Held(stmts, snaps, p, k);
  }

  lemma ThenFirst(stmts: seq<Statement>, snaps: seq<Shape>, p: nat, db: Database, k: nat, mid: Database)
    requires ComesTo(stmts, snaps, p, db, k, mid)
    ensures StandsAt(stmts, snaps, p, db) && |snaps| == |stmts| + 1 && p <= |stmts| && k <= |stmts|
    ensures k == 0 ==> mid == db
  {
  }

  lemma ThenNext(stmts: seq<Statement>, snaps: seq<Shape>, p: nat, db: Database, k: nat, mid: Database)
    returns (before: Database)
    requires ComesTo(stmts, snaps, p, db, k, mid) && 0 < k
    ensures |snaps| == |stmts| + 1 && k <= |stmts|
    ensures ComesTo(stmts, snaps, p, db, k - 1, before) && ReplayOne(Postgres, before, stmts[k - 1]) == Some(mid)
    ensures EffectOn(snaps[k - 1], stmts[k - 1]) == Changed(snaps[k]) && Plain(stmts[k - 1])
  {
    hide ReplayOne, EffectOn, Plain, ShapeOf, Lawful, Installs, NoNameReturns, AllPlain;
    ThenFirst(stmts, snaps, p, db, k, mid);
    before := ReplayTo(Postgres, stmts, db, k - 1).value;
    StatementRuns(stmts, snaps, k - 1);
  }

  lemma StatementRuns(stmts: seq<Statement>, snaps: seq<Shape>, k: nat)
    requires Installs(stmts, snaps) && AllPlain(stmts) && k < |stmts|
    ensures EffectOn(snaps[k], stmts[k]) == Changed(snaps[k + 1]) && Plain(stmts[k])
  {
    assert RunsAt(stmts, snaps, k);
  }

  lemma SnapshotsSound(stmts: seq<Statement>, snaps: seq<Shape>, p: nat, db: Database, k: nat)
    requires StandsAt(stmts, snaps, p, db) && k <= |stmts|
    ensures |snaps| == |stmts| + 1 && p <= |stmts| && Sound(snaps[k]) && Sound(snaps[p])
    ensures ShapeOf(db) == snaps[p] && snaps[p] == Shape(ShapeOf(db).tables, db.indexes, db.required)
  {
    SnapshotSound(stmts, snaps, k);
    SnapshotSound(stmts, snaps, p);
  }

  // -------------------------------------------------------------------- NOT NULLs

  /** The NOT NULL columns after a replayed plain statement. */
  function Flagged(required: set<ColumnOf>, tables: Columns, st: Statement): set<ColumnOf> {
    match st
    case CreateTable(t, cols, notNull) =>
      if t in tables then required else (set q | q in required && q.0 != t) + ColumnsIn(t, cols * notNull)
    case AddColumn(t, c, _, notNull) =>
      if notNull && t in tables && c !in tables[t] then required + {(t, c)} else required
    case DropTable(t) => if t in tables then set q | q in required && q.0 != t else required
    case DropColumn(t, c) => if t in tables && c in tables[t] then required - {(t, c)} else required
    case SetNotNull(t, c) => if t in tables && c in tables[t] then required + {(t, c)} else required
    case DropNotNull(t, c) => if t in tables && c in tables[t] then required - {(t, c)} else required
    case _ => required
  }

  lemma ReplayFlags(mid: Database, st: Statement)
    requires Plain(st) && ReplayOne(Postgres, mid, st).Some?
    ensures ReplayOne(Postgres, mid, st).value.required == Flagged(mid.required, ShapeOf(mid).tables, st)
  {
    hide HasDuplicates;
  }

  function Touches(st: Statement): set<ColumnOf> {
    if st.SetNotNull? || st.DropNotNull? then {(st.table, st.column)} else {}
  }

  /** Columns that the first k statements make NOT NULL or nullable. */
  function TouchedColumns(stmts: seq<Statement>, k: nat): set<ColumnOf>
    requires k <= |stmts|
  {
    if k == 0 then {}
    else TouchedColumns(stmts, k - 1) + Touches(stmts[k - 1])
  }

  /** Within the part the database is past, a column it has is NOT NULL as it was,
      until the journal says so or not; any other is as the journal has it. */
  ghost predicate Flags(start: Shape, now: Shape, touched: set<ColumnOf>, tables: Columns, required: set<ColumnOf>) {
    forall t, c :: (t, c) in required <==>
      && t in tables && c in tables[t]
      && (t, c) in (if HasColumn(start, t, c) && (t, c) !in touched then start.required else now.required)
  }

  /** What the statement makes was never set NOT NULL or nullable before, and if the
      replay has it already, so had the database. */
  ghost predicate MadeFresh(start: Shape, touched: set<ColumnOf>, tables: Columns, st: Statement) {
    && (st.CreateTable? ==> forall c ::
          (st.table, c) !in touched && (HasIn(tables, st.table, c) ==> HasColumn(start, st.table, c)))
    && (st.AddColumn? ==>
          (st.table, st.column) !in touched && (HasIn(tables, st.table, st.column) ==> HasColumn(start, st.table, st.column)))
  }

  predicate HasIn(tables: Columns, t: string, c: string) {
    t in tables && c in tables[t]
  }

  lemma {:induction false} TouchedWasThere(stmts: seq<Statement>, snaps: seq<Shape>, k: nat, t: string, c: string)
    requires Installs(stmts, snaps) && k <= |stmts| && (t, c) in TouchedColumns(stmts, k)
    ensures exists i :: 0 <= i < k && HasColumn(snaps[i], t, c)
  {
    if (t, c) in TouchedColumns(stmts, k - 1) {
      TouchedWasThere(stmts, snaps, k - 1, t, c);
    } else {
      assert RunsAt(stmts, snaps, k - 1);
      assert HasColumn(snaps[k - 1], t, c);
    }
  }

  lemma NeverTouched(stmts: seq<Statement>, snaps: seq<Shape>, k: nat, t: string, c: string)
    requires Installs(stmts, snaps) && NoNameReturns(snaps) && k < |stmts|
    requires !HasColumn(snaps[k], t, c) && HasColumn(snaps[k + 1], t, c)
    ensures (t, c) !in TouchedColumns(stmts, k)
  {
    hide TouchedColumns;
    if (t, c) in TouchedColumns(stmts, k) {
      TouchedWasThere(stmts, snaps, k, t, c);
      var i :| 0 <= i < k && HasColumn(snaps[i], t, c);
      Stays(snaps, i, k, k + 1, ColumnName(t, c));
    }
  }

  lemma NothingTouchedOf(stmts: seq<Statement>, snaps: seq<Shape>, k: nat, t: string, c: string)
    requires Installs(stmts, snaps) && NoNameReturns(snaps) && k < |stmts|
    requires t !in snaps[k].tables && t in snaps[k + 1].tables
    ensures (t, c) !in TouchedColumns(stmts, k)
  {
    hide TouchedColumns;
    if (t, c) in TouchedColumns(stmts, k) {
      TouchedWasThere(stmts, snaps, k, t, c);
      var i :| 0 <= i < k && HasColumn(snaps[i], t, c);
      Stays(snaps, i, k, k + 1, TableName(t));
    }
  }

  lemma MakesFresh(stmts: seq<Statement>, snaps: seq<Shape>, p: nat, k: nat, tables: Columns)
    requires Installs(stmts, snaps) && NoNameReturns(snaps) && k < p <= |stmts| && HeldAt(stmts, snaps, p, k, tables)
    ensures MadeFresh(snaps[p], TouchedColumns(stmts, k), tables, stmts[k])
  {
    JournalRuns(stmts, snaps, k);
    var st, touched := stmts[k], TouchedColumns(stmts, k);
    if st.CreateTable? {
      forall c
        ensures (st.table, c) !in touched && (HasIn(tables, st.table, c) ==> HasColumn(snaps[p], st.table, c))
      {
        NothingTouchedOf(stmts, snaps, k, st.table, c);
        hide Installs, NoNameReturns, TouchedColumns;
      }
    }
    if st.AddColumn? {
      NeverTouched(stmts, snaps, k, st.table, st.column);
    }
    hide Installs, NoNameReturns, TouchedColumns;
  }

  lemma FlagStep(start: Shape, now: Shape, touched: set<ColumnOf>, tables: Columns, required: set<ColumnOf>, st: Statement)
    requires Flags(start, now, touched, tables, required) && Sound(now) && Plain(st)
    requires EffectOn(now, st).Changed? && MakesNew(start.tables, tables, st) && MadeFresh(start, touched, tables, st)
    ensures Flags(start, EffectOn(now, st).shape, touched + Touches(st), Stepped(tables, st), Flagged(required, tables, st))
  {
    var next := EffectOn(now, st).shape;
    var more := touched + Touches(st);
    forall t, c
      ensures (t, c) in Flagged(required, tables, st) <==>
                && t in Stepped(tables, st) && c in Stepped(tables, st)[t]
                && (t, c) in (if HasColumn(start, t, c) && (t, c) !in more then start.required else next.required)
    {
      assert (t, c) in required <==>
        && t in tables && c in tables[t]
        && (t, c) in (if HasColumn(start, t, c) && (t, c) !in touched then start.required else now.required);
    }
  }

  ghost predicate FlagsAt(stmts: seq<Statement>, snaps: seq<Shape>, p: nat, k: nat, mid: Database)
    requires |snaps| == |stmts| + 1 && p <= |stmts| && k <= |stmts|
  {
    if k <= p then Flags(snaps[p], snaps[k], TouchedColumns(stmts, k), ShapeOf(mid).tables, mid.required)
    else mid.required == snaps[k].required
  }

  lemma FlagsNext(stmts: seq<Statement>, snaps: seq<Shape>, p: nat, db: Database, k: nat, mid: Database, after: Database)
    requires ComesTo(stmts, snaps, p, db, k, mid) && k < p <= |stmts| && |snaps| == |stmts| + 1
    requires ReplayOne(Postgres, mid, stmts[k]) == Some(after)
    requires EffectOn(snaps[k], stmts[k]) == Changed(snaps[k + 1]) && Plain(stmts[k]) && FlagsAt(stmts, snaps, p, k, mid)
    ensures FlagsAt(stmts, snaps, p, k + 1, after)
  {
    ThenTables(stmts, snaps, p, db, k, mid);
    SnapshotsSound(stmts, snaps, p, db, k);
    NothingMadeTwice(stmts, snaps, p, k, ShapeOf(mid).tables);
    MakesFresh(stmts, snaps, p, k, ShapeOf(mid).tables);
    ReplayedTables(Postgres, mid, stmts[k]);
    hide ReplayOne, ReplayTo, EffectOn, Stepped, Flagged, Flags, HeldAt, RowsKept, MakesNew, MadeFresh, Sound, Touches, ShapeOf, Installs, StandsAt;
    ReplayFlags(mid, stmts[k]);
    FlagStep(snaps[p], snaps[k], TouchedColumns(stmts, k), ShapeOf(mid).tables, mid.required, stmts[k]);
  }

  lemma FlagsNextTail(stmts: seq<Statement>, snaps: seq<Shape>, p: nat, db: Database, k: nat, mid: Database, after: Database)
    requires ComesTo(stmts, snaps, p, db, k, mid) && p <= k < |stmts| && |snaps| == |stmts| + 1
    requires ReplayOne(Postgres, mid, stmts[k]) == Some(after)
    requires EffectOn(snaps[k], stmts[k]) == Changed(snaps[k + 1]) && Plain(stmts[k]) && FlagsAt(stmts, snaps, p, k, mid)
    ensures FlagsAt(stmts, snaps, p, k + 1, after)
  {
    ThenTables(stmts, snaps, p, db, k, mid);
    SnapshotsSound(stmts, snaps, p, db, k);
    hide ReplayOne, ReplayTo, EffectOn, Flagged, Flags, HeldAt, RowsKept, Sound, TouchedColumns, Installs, StandsAt;
    if k == p {
      FlagsSettle(snaps[p], TouchedColumns(stmts, p), mid.required);
    }
    ReplayFlags(mid, stmts[k]);
    FlagsFollow(snaps[k], stmts[k]);
  }

  lemma {:induction false} FlagsFor(stmts: seq<Statement>, snaps: seq<Shape>, p: nat, db: Database, k: nat, mid: Database)
    requires ComesTo(stmts, snaps, p, db, k, mid)
    ensures |snaps| == |stmts| + 1 && p <= |stmts| && k <= |stmts| && FlagsAt(stmts, snaps, p, k, mid)
    decreases k
  {
    hide StandsAt, ComesTo, ReplayOne, EffectOn, FlagsAt, Sound, Plain, ShapeOf;
    ThenFirst(stmts, snaps, p, db, k, mid);
    if k == 0 {
      SnapshotsSound(stmts, snaps, p, db, p);
      NoFlagsYet(stmts, snaps, p, db);
    } else {
      var before := ThenNext(stmts, snaps, p, db, k, mid);
      FlagsFor(stmts, snaps, p, db, k - 1, before);
      if k <= p {
        FlagsNext(stmts, snaps, p, db, k - 1, before, mid);
      } else {
        FlagsNextTail(stmts, snaps, p, db, k - 1, before, mid);
      }
    }
  }

  lemma RequiredFor(stmts: seq<Statement>, snaps: seq<Shape>, p: nat, db: Database, k: nat, mid: Database)
    requires ComesTo(stmts, snaps, p, db, k, mid) && p <= k
    ensures |snaps| == |stmts| + 1 && k <= |stmts| && mid.required == snaps[k].required
  {
    FlagsFor(stmts, snaps, p, db, k, mid);
    SnapshotsSound(stmts, snaps, p, db, p);
    ThenTables(stmts, snaps, p, db, k, mid);
    hide ComesTo, StandsAt, HeldAt, RowsKept, Flags, Sound, ShapeOf;
    if k == p {
      FlagsSettle(snaps[p], TouchedColumns(stmts, p), mid.required);
    }
  }

  lemma NoFlagsYet(stmts: seq<Statement>, snaps: seq<Shape>, p: nat, db: Database)
    requires StandsAt(stmts, snaps, p, db) && |snaps| == |stmts| + 1 && p <= |stmts| && Sound(snaps[p])
    ensures FlagsAt(stmts, snaps, p, 0, db)
  {
  }

  lemma FlagsSettle(start: Shape, touched: set<ColumnOf>, required: set<ColumnOf>)
    requires Flags(start, start, touched, start.tables, required) && Sound(start)
    ensures required == start.required
  {
    forall q
      ensures q in required <==> q in start.required
    {
      assert q == (q.0, q.1);
    }
  }

  lemma FlagsFollow(now: Shape, st: Statement)
    requires EffectOn(now, st).Changed? && Plain(st)
    ensures EffectOn(now, st).shape.required == Flagged(now.required, now.tables, st)
  {
  }

  /** Within the part it is past, a lawful database stops a replay only at a NOT
      NULL that the journal takes back before p, with the column or alone, or on a
      column it drops before p. */
  lemma PrefixStopsAtRevoked(stmts: seq<Statement>, snaps: seq<Shape>, p: nat, db: Database, k: nat)
    requires StandsAt(stmts, snaps, p, db) && k < p && StoppedAt(stmts, db, k)
    ensures !HasColumn(snaps[p], stmts[k].table, stmts[k].column)
            || exists j :: k < j < p && stmts[j] == DropNotNull(stmts[k].table, stmts[k].column)
  {
    var t, c := stmts[k].table, stmts[k].column;
    if HasColumn(snaps[p], t, c) {
      assert (t, c) !in db.required;
      StatementRuns(stmts, snaps, k);
      if forall j | k < j < p :: stmts[j] != DropNotNull(t, c) {
        StaysRequired(stmts, snaps, k + 1, p, t, c);
      }
    }
  }

  /** A NOT NULL stays until the journal drops it or its column. */
  lemma {:induction false} StaysRequired(stmts: seq<Statement>, snaps: seq<Shape>, k: nat, p: nat, t: string, c: string)
    requires Installs(stmts, snaps) && NoNameReturns(snaps) && AllPlain(stmts) && k <= p <= |stmts|
    requires (t, c) in snaps[k].required && HasColumn(snaps[k], t, c) && HasColumn(snaps[p], t, c)
    requires forall j | k <= j < p :: stmts[j] != DropNotNull(t, c)
    ensures (t, c) in snaps[p].required
    decreases p - k
  {
    if k < p {
      StatementRuns(stmts, snaps, k);
      Stays(snaps, k, k + 1, p, ColumnName(t, c));
      StaysRequired(stmts, snaps, k + 1, p, t, c);
    }
  }

  // ---------------------------------------------------------------------- indexes

  type Indexes = map<string, IndexDef>

  /** The rows refuse a unique index. */
  predicate Refuses(db: Database, def: IndexDef) {
    def.unique && def.table in db.tables && HasDuplicates(db.tables[def.table], def.columns)
  }

  /** The indexes after a replayed plain statement. */
  function Indexed(mid: Database, st: Statement): Indexes {
    var tables, indexes := ShapeOf(mid).tables, mid.indexes;
    match st
    case CreateIndex(i, def) =>
      if i !in indexes && def.table in tables && def.columns <= tables[def.table] && !Refuses(mid, def)
      then indexes[i := def] else indexes
    case DropIndex(i) => indexes - {i}
    case DropTable(t) => if t in tables then map i | i in indexes && indexes[i].table != t :: indexes[i] else indexes
    case DropColumn(t, c) =>
      if t in tables && c in tables[t]
      then map i | i in indexes && !(indexes[i].table == t && c in indexes[i].columns) :: indexes[i] else indexes
    case _ => indexes
  }

  lemma ReplayIndexes(mid: Database, st: Statement)
    requires Plain(st) && ReplayOne(Postgres, mid, st).Some?
    ensures ReplayOne(Postgres, mid, st).value.indexes == Indexed(mid, st)
  {
    hide HasDuplicates;
  }

  lemma ReplayIsSound(mid: Database, st: Statement)
    requires ReplayOne(Postgres, mid, st).Some? && Sound(ShapeOf(mid))
    ensures Sound(ShapeOf(ReplayOne(Postgres, mid, st).value))
  {
    if Exec(mid, st).Applied? {
      ExecShape(mid, st);
      EffectIsSound(ShapeOf(mid), st);
    }
  }

  /** The index is there from snapshot k to snapshot p. */
  ghost predicate Settled(snaps: seq<Shape>, k: nat, p: nat, i: string)
    requires p < |snaps|
  {
    forall j | k <= j <= p :: i in snaps[j].indexes
  }

  /** Each index is as the database or as the journal has it, and one that stays
      from here on is there. */
  ghost predicate IndexBounds(snaps: seq<Shape>, p: nat, k: nat, indexes: Indexes)
    requires k <= p < |snaps|
  {
    && (forall i | i in indexes ::
          || (i in snaps[p].indexes && indexes[i] == snaps[p].indexes[i])
          || (i in snaps[k].indexes && indexes[i] == snaps[k].indexes[i]))
    && (forall i | i in snaps[p].indexes && Settled(snaps, k, p, i) :: i in indexes && indexes[i] == snaps[p].indexes[i])
  }

  lemma SameDef(stmts: seq<Statement>, snaps: seq<Shape>, k: nat, i: string)
    requires Installs(stmts, snaps) && AllPlain(stmts) && k < |stmts| && i in snaps[k].indexes && i in snaps[k + 1].indexes
    ensures snaps[k].indexes[i] == snaps[k + 1].indexes[i]
  {
    assert RunsAt(stmts, snaps, k) && Plain(stmts[k]);
  }

  lemma {:induction false} SettledDef(stmts: seq<Statement>, snaps: seq<Shape>, k: nat, p: nat, i: string)
    requires Installs(stmts, snaps) && AllPlain(stmts) && k <= p <= |stmts| && Settled(snaps, k, p, i)
    ensures snaps[k].indexes[i] == snaps[p].indexes[i]
    decreases p - k
  {
    assert i in snaps[k].indexes;
    if k < p {
      assert i in snaps[k + 1].indexes;
      SettledDef(stmts, snaps, k + 1, p, i);
      SameDef(stmts, snaps, k, i);
    }
  }

  /** The rows of a table the database has are as they were, so a lawful unique
      index can be made again. */
  lemma NeverRefusesItsOwn(db: Database, mid: Database, stmts: seq<Statement>, k: nat, i: string)
    requires k <= |stmts| && RowsKept(db, mid, stmts, k) && Lawful(db) && Sound(ShapeOf(db)) && i in db.indexes
    requires db.indexes[i].table in mid.tables && db.indexes[i].columns <= mid.tables[db.indexes[i].table].columns.Keys
    ensures !Refuses(mid, db.indexes[i])
  {
    var def := db.indexes[i];
    assert TableKept(db, mid, stmts, k, def.table);
    assert def.columns <= db.tables[def.table].columns.Keys;
    forall c | c in def.columns
      ensures c in mid.tables[def.table].columns && mid.tables[def.table].columns[c] == db.tables[def.table].columns[c]
    {
      assert CellsKept(db, mid, stmts, k, def.table, c);
    }
    hide RowsKept;
    SameDuplicates(mid.tables[def.table], db.tables[def.table], def.columns);
  }

  lemma SameDuplicates(a: Table, b: Table, cols: set<string>)
    requires a.rows == b.rows && cols <= a.columns.Keys && cols <= b.columns.Keys
    requires forall c | c in cols :: a.columns[c] == b.columns[c]
    ensures HasDuplicates(a, cols) <==> HasDuplicates(b, cols)
  {
  }

  lemma BoundsUpper(snaps: seq<Shape>, p: nat, k: nat, mid: Database, st: Statement, i: string)
    requires k < p < |snaps| && IndexBounds(snaps, p, k, mid.indexes) && Sound(ShapeOf(mid)) && Plain(st)
    requires EffectOn(snaps[k], st) == Changed(snaps[k + 1]) && i in Indexed(mid, st)
    ensures || (i in snaps[p].indexes && Indexed(mid, st)[i] == snaps[p].indexes[i])
            || (i in snaps[k + 1].indexes && Indexed(mid, st)[i] == snaps[k + 1].indexes[i])
  {
    hide Refuses;
    if i in mid.indexes {
      assert mid.indexes[i].table in ShapeOf(mid).tables && mid.indexes[i].columns <= ShapeOf(mid).tables[mid.indexes[i].table];
    }
  }

  lemma NewIndex(now: Shape, next: Shape, st: Statement, i: string, def: IndexDef, mid: Database)
    requires EffectOn(now, st) == Changed(next) && Plain(st) && i in next.indexes && i !in now.indexes && next.indexes[i] == def
    ensures MakesIt(mid, CreateIndex(i, def), i, def) ==> MakesIt(mid, st, i, def)
  {
    assert st == CreateIndex(i, def);
    hide Refuses, Indexed;
  }

  /** After the replayed statement the index is there, with this definition. */
  predicate MakesIt(mid: Database, st: Statement, i: string, def: IndexDef) {
    i in Indexed(mid, st) && Indexed(mid, st)[i] == def
  }

  lemma KeptIndex(now: Shape, next: Shape, st: Statement, mid: Database, i: string)
    requires EffectOn(now, st) == Changed(next) && Plain(st) && i in now.indexes && i in next.indexes
    requires i in mid.indexes && mid.indexes[i] == now.indexes[i]
    ensures next.indexes[i] == now.indexes[i] && i in Indexed(mid, st) && Indexed(mid, st)[i] == now.indexes[i]
  {
    hide Refuses;
  }

  lemma SettledSooner(snaps: seq<Shape>, k: nat, p: nat, i: string)
    requires k < p < |snaps| && Settled(snaps, k + 1, p, i)
    ensures i in snaps[k + 1].indexes && (i in snaps[k].indexes ==> Settled(snaps, k, p, i))
  {
  }

  lemma KeepsItsOwn(stmts: seq<Statement>, snaps: seq<Shape>, p: nat, k: nat, db: Database, mid: Database, i: string)
    requires Installs(stmts, snaps) && AllPlain(stmts) && k < p <= |stmts| && InBounds(stmts, snaps, p, k, db, mid)
    requires i in snaps[p].indexes && i in snaps[k].indexes && Settled(snaps, k, p, i)
    ensures MakesIt(mid, stmts[k], i, snaps[p].indexes[i])
  {
    assert |snaps| == |stmts| + 1 && i in snaps[k + 1].indexes;
    hide Lawful, Sound, RowsKept, Mirrors, AddedColumns, EffectOn, Indexed, Plain, ShapeOf;
    BoundsOf(snaps, p, k, mid.indexes, i);
    SettledDef(stmts, snaps, k, p, i);
    StatementRuns(stmts, snaps, k);
    KeptIndex(snaps[k], snaps[k + 1], stmts[k], mid, i);
  }

  lemma MakesInBounds(stmts: seq<Statement>, snaps: seq<Shape>, p: nat, k: nat, db: Database, mid: Database, i: string)
    requires |snaps| == |stmts| + 1 && k <= p <= |stmts| && InBounds(stmts, snaps, p, k, db, mid)
    requires i in snaps[p].indexes && i !in snaps[k].indexes
    ensures MakesIt(mid, CreateIndex(i, snaps[p].indexes[i]), i, snaps[p].indexes[i])
  {
    hide Lawful, Sound, RowsKept, Mirrors, AddedColumns, Indexed, ShapeOf, Settled, IndexBounds;
    BoundsOf(snaps, p, k, mid.indexes, i);
    MakesItsOwn(snaps[p], snaps[k], AddedColumns(stmts, k), db, mid, stmts, k, i);
  }

  lemma MakesItAgain(stmts: seq<Statement>, snaps: seq<Shape>, p: nat, k: nat, db: Database, mid: Database, i: string)
    requires Installs(stmts, snaps) && AllPlain(stmts) && |snaps| == |stmts| + 1 && k < p <= |stmts|
    requires InBounds(stmts, snaps, p, k, db, mid)
    requires i in snaps[p].indexes && i !in snaps[k].indexes && i in snaps[k + 1].indexes && Settled(snaps, k + 1, p, i)
    ensures MakesIt(mid, stmts[k], i, snaps[p].indexes[i])
  {
    hide Installs, AllPlain, Settled, InBounds, EffectOn, Indexed, Plain, MakesIt;
    MakesInBounds(stmts, snaps, p, k, db, mid, i);
    SettledDef(stmts, snaps, k + 1, p, i);
    StatementRuns(stmts, snaps, k);
    NewIndex(snaps[k], snaps[k + 1], stmts[k], i, snaps[p].indexes[i], mid);
  }

  lemma BoundsLower(stmts: seq<Statement>, snaps: seq<Shape>, p: nat, k: nat, db: Database, mid: Database, i: string)
    requires Installs(stmts, snaps) && AllPlain(stmts) && k < p <= |stmts| && InBounds(stmts, snaps, p, k, db, mid)
    requires i in snaps[p].indexes && Settled(snaps, k + 1, p, i)
    ensures MakesIt(mid, stmts[k], i, snaps[p].indexes[i])
  {
    assert |snaps| == |stmts| + 1;
    hide Installs, AllPlain, Settled, Indexed, InBounds;
    SettledSooner(snaps, k, p, i);
    if i in snaps[k].indexes {
      KeepsItsOwn(stmts, snaps, p, k, db, mid, i);
    } else {
      MakesItAgain(stmts, snaps, p, k, db, mid, i);
    }
  }

  lemma MakesItsOwn(start: Shape, now: Shape, added: set<ColumnOf>, db: Database, mid: Database, stmts: seq<Statement>, k: nat, i: string)
    requires k <= |stmts| && ShapeOf(db) == start && Lawful(db) && Sound(start) && RowsKept(db, mid, stmts, k)
    requires Mirrors(start.tables, now.tables, {}, added, ShapeOf(mid).tables) && i in start.indexes
    requires i in mid.indexes ==> mid.indexes[i] == start.indexes[i]
    ensures MakesIt(mid, CreateIndex(i, start.indexes[i]), i, start.indexes[i])
  {
    var def := start.indexes[i];
    assert def.table in start.tables && def.columns <= start.tables[def.table];
    assert ShapeOf(mid).tables[def.table] == start.tables[def.table] + Regained(now.tables, added, def.table);
    hide Mirrors, Regained;
    NeverRefusesItsOwn(db, mid, stmts, k, i);
    hide RowsKept, Lawful, Refuses;
  }

  /** What the indexes keep to within the part the database is past. */
  ghost predicate InBounds(stmts: seq<Statement>, snaps: seq<Shape>, p: nat, k: nat, db: Database, mid: Database)
    requires |snaps| == |stmts| + 1 && k <= p <= |stmts|
  {
    && ShapeOf(db) == snaps[p] && Lawful(db) && Sound(snaps[p]) && Sound(ShapeOf(mid)) && RowsKept(db, mid, stmts, k)
    && Mirrors(snaps[p].tables, snaps[k].tables, {}, AddedColumns(stmts, k), ShapeOf(mid).tables)
    && IndexBounds(snaps, p, k, mid.indexes)
  }

  lemma PrefixIndexStep(stmts: seq<Statement>, snaps: seq<Shape>, p: nat, k: nat, db: Database, mid: Database)
    requires Installs(stmts, snaps) && AllPlain(stmts) && k < p <= |stmts| && InBounds(stmts, snaps, p, k, db, mid)
    ensures IndexBounds(snaps, p, k + 1, Indexed(mid, stmts[k]))
  {
    assert |snaps| == |stmts| + 1;
    StatementRuns(stmts, snaps, k);
    hide Installs, AllPlain, Settled, EffectOn, Indexed, Plain, InBounds;
    forall i | i in Indexed(mid, stmts[k])
      ensures || (i in snaps[p].indexes && Indexed(mid, stmts[k])[i] == snaps[p].indexes[i])
              || (i in snaps[k + 1].indexes && Indexed(mid, stmts[k])[i] == snaps[k + 1].indexes[i])
    {
      InBoundsUpper(stmts, snaps, p, k, db, mid, i);
    }
    forall i | i in snaps[p].indexes && Settled(snaps, k + 1, p, i)
      ensures MakesIt(mid, stmts[k], i, snaps[p].indexes[i])
    {
      BoundsLower(stmts, snaps, p, k, db, mid, i);
    }
  }

  lemma InBoundsUpper(stmts: seq<Statement>, snaps: seq<Shape>, p: nat, k: nat, db: Database, mid: Database, i: string)
    requires |snaps| == |stmts| + 1 && k < p <= |stmts| && InBounds(stmts, snaps, p, k, db, mid)
    requires EffectOn(snaps[k], stmts[k]) == Changed(snaps[k + 1]) && Plain(stmts[k]) && i in Indexed(mid, stmts[k])
    ensures || (i in snaps[p].indexes && Indexed(mid, stmts[k])[i] == snaps[p].indexes[i])
            || (i in snaps[k + 1].indexes && Indexed(mid, stmts[k])[i] == snaps[k + 1].indexes[i])
  {
    hide Lawful, Sound, RowsKept, Mirrors, AddedColumns, IndexBounds, EffectOn, Indexed, Plain, ShapeOf;
    BoundsUpper(snaps, p, k, mid, stmts[k], i);
  }

  lemma BoundsOf(snaps: seq<Shape>, p: nat, k: nat, indexes: Indexes, i: string)
    requires k <= p < |snaps| && IndexBounds(snaps, p, k, indexes) && i in snaps[p].indexes
    ensures Settled(snaps, k, p, i) ==> i in indexes && indexes[i] == snaps[p].indexes[i]
    ensures i in indexes && i !in snaps[k].indexes ==> indexes[i] == snaps[p].indexes[i]
  {
    hide Settled;
  }

  lemma BoundsNext(stmts: seq<Statement>, snaps: seq<Shape>, p: nat, db: Database, k: nat, mid: Database, after: Database)
    requires ComesTo(stmts, snaps, p, db, k, mid) && |snaps| == |stmts| + 1 && k < p <= |stmts|
    requires ReplayOne(Postgres, mid, stmts[k]) == Some(after) && Plain(stmts[k])
    requires Sound(ShapeOf(mid)) && IndexBounds(snaps, p, k, mid.indexes)
    ensures Sound(ShapeOf(after)) && IndexBounds(snaps, p, k + 1, after.indexes)
  {
    ThenTables(stmts, snaps, p, db, k, mid);
    SnapshotsSound(stmts, snaps, p, db, p);
    hide ReplayOne, ReplayTo, Installs, NoNameReturns, AllPlain, RowsKept, Sound, Lawful, Mirrors, AddedColumns, IndexBounds, ShapeOf, Plain;
    PrefixIndexStep(stmts, snaps, p, k, db, mid);
    ReplayIndexes(mid, stmts[k]);
    ReplayIsSound(mid, stmts[k]);
  }

  lemma {:induction false} PrefixIndexes(stmts: seq<Statement>, snaps: seq<Shape>, p: nat, db: Database, k: nat, mid: Database)
    requires ComesTo(stmts, snaps, p, db, k, mid) && k <= p
    ensures |snaps| == |stmts| + 1 && p <= |stmts| && IndexBounds(snaps, p, k, mid.indexes) && Sound(ShapeOf(mid))
  {
    hide StandsAt, ComesTo, ReplayOne, EffectOn, IndexBounds, Sound, Plain, ShapeOf;
    ThenFirst(stmts, snaps, p, db, k, mid);
    if k == 0 {
      SnapshotsSound(stmts, snaps, p, db, p);
      NoBoundsYet(stmts, snaps, p, db);
    } else {
      var before := ThenNext(stmts, snaps, p, db, k, mid);
      PrefixIndexes(stmts, snaps, p, db, k - 1, before);
      BoundsNext(stmts, snaps, p, db, k - 1, before, mid);
    }
  }

  lemma NoBoundsYet(stmts: seq<Statement>, snaps: seq<Shape>, p: nat, db: Database)
    requires StandsAt(stmts, snaps, p, db)
    ensures IndexBounds(snaps, p, 0, db.indexes)
  {
  }

  lemma BoundsSettle(snaps: seq<Shape>, p: nat, indexes: Indexes)
    requires p < |snaps| && IndexBounds(snaps, p, p, indexes)
    ensures indexes == snaps[p].indexes
  {
    forall i | i in snaps[p].indexes
      ensures i in indexes && indexes[i] == snaps[p].indexes[i]
    {
      assert Settled(snaps, p, p, i);
    }
  }

  // --------------------------------------------------------------- past that part

  /** Both rows have the same value that is not null: their own, or the default
      of a column the journal adds. */
  ghost predicate Agree(stmts: seq<Statement>, k: nat, db: Database, t: string, c: string, r: RowId, q: RowId)
    requires k <= |stmts| && t in db.tables
  {
    if c in db.tables[t].columns then
      var cells := db.tables[t].columns[c];
      r in cells && q in cells && cells[r] != Null && cells[r] == cells[q]
    else exists d :: d != Null && AddedAs(stmts, k, t, c, d)
  }

  /** Two rows of the database that a unique index made after k statements refuses. */
  ghost predicate RowsClash(stmts: seq<Statement>, k: nat, db: Database, def: IndexDef)
    requires k <= |stmts|
  {
    && def.unique && def.table in db.tables
    && exists r, q | r in db.tables[def.table].rows && q in db.tables[def.table].rows ::
         r != q && forall c | c in def.columns :: Agree(stmts, k, db, def.table, c, r, q)
  }

  ghost predicate Clash(stmts: seq<Statement>, db: Database, k: nat)
    requires k < |stmts|
  {
    stmts[k].CreateIndex? && RowsClash(stmts, k, db, stmts[k].def)
  }

  predicate Same(table: Table, c: string, r: RowId, q: RowId) {
    c in table.columns && r in table.columns[c] && q in table.columns[c]
    && table.columns[c][r] != Null && table.columns[c][r] == table.columns[c][q]
  }

  lemma AgreeIsSame(stmts: seq<Statement>, k: nat, db: Database, mid: Database, t: string, c: string, r: RowId, q: RowId)
    requires AddsOnce(stmts) && k <= |stmts|
    requires t in db.tables && t in mid.tables && TableKept(db, mid, stmts, k, t)
    requires c in mid.tables[t].columns && r in db.tables[t].rows && q in db.tables[t].rows
    ensures Agree(stmts, k, db, t, c, r, q) <==> Same(mid.tables[t], c, r, q)
  {
    assert CellsKept(db, mid, stmts, k, t, c);
    if c !in db.tables[t].columns {
      var d :| AddedAs(stmts, k, t, c, d) && mid.tables[t].columns[c] == map r | r in db.tables[t].rows :: d;
      if e :| e != Null && AddedAs(stmts, k, t, c, e) {
        OneDefault(stmts, k, t, c, d, e);
      }
    }
  }

  /** The start's rows tell whether the replay's refuse a unique index. */
  lemma ClashHeld(stmts: seq<Statement>, k: nat, db: Database, mid: Database, def: IndexDef)
    requires AddsOnce(stmts) && k <= |stmts| && RowsKept(db, mid, stmts, k)
    requires def.table in mid.tables && def.columns <= mid.tables[def.table].columns.Keys
    ensures Refuses(mid, def) <==> RowsClash(stmts, k, db, def)
  {
    assert TableKept(db, mid, stmts, k, def.table);
    if def.table in db.tables {
      forall r, q, c | r in db.tables[def.table].rows && q in db.tables[def.table].rows && c in def.columns
        ensures Agree(stmts, k, db, def.table, c, r, q) <==> Same(mid.tables[def.table], c, r, q)
      {
        AgreeIsSame(stmts, k, db, mid, def.table, c, r, q);
      }
      DuplicatesAreSame(mid.tables[def.table], def.columns);
      hide Agree, Same, HasDuplicates, AddsOnce, TableKept, RowsKept;
    }
  }

  lemma ClashDecides(stmts: seq<Statement>, snaps: seq<Shape>, k: nat, db: Database, mid: Database)
    requires Installs(stmts, snaps) && NoNameReturns(snaps) && k < |stmts| && stmts[k].CreateIndex?
    requires RowsKept(db, mid, stmts, k) && ShapeOf(mid).tables == snaps[k].tables
    ensures Refuses(mid, stmts[k].def) <==> Clash(stmts, db, k)
    ensures stmts[k].def.table in mid.tables && stmts[k].def.columns <= ShapeOf(mid).tables[stmts[k].def.table]
  {
    var def := stmts[k].def;
    assert RunsAt(stmts, snaps, k);
    assert def.table in ShapeOf(mid).tables && def.columns <= ShapeOf(mid).tables[def.table];
    JournalAddsOnce(stmts, snaps);
    hide Installs, NoNameReturns, RowsKept, AddsOnce, RowsClash, Refuses;
    ClashHeld(stmts, k, db, mid, def);
  }

  lemma DuplicatesAreSame(table: Table, cols: set<string>)
    ensures HasDuplicates(table, cols) <==> exists r, q | r in table.rows && q in table.rows ::
              r != q && forall c | c in cols :: Same(table, c, r, q)
  {
    if HasDuplicates(table, cols) {
      var r, q :| r in table.rows && q in table.rows && r != q && forall c | c in cols ::
        c in table.columns && r in table.columns[c] && q in table.columns[c]
        && table.columns[c][r] != Null && table.columns[c][r] == table.columns[c][q];
      assert forall c | c in cols :: Same(table, c, r, q);
    }
  }

  /** Statement j makes the index that is there from then on, up to snapshot k. */
  ghost predicate MakesFor(stmts: seq<Statement>, snaps: seq<Shape>, j: nat, k: nat, i: string)
    requires |snaps| == |stmts| + 1 && j < k <= |stmts|
  {
    stmts[j].CreateIndex? && stmts[j].index == i && forall l | j < l <= k :: i in snaps[l].indexes
  }

  ghost predicate Missing(stmts: seq<Statement>, snaps: seq<Shape>, p: nat, db: Database, k: nat, i: string)
    requires |snaps| == |stmts| + 1 && k <= |stmts|
  {
    exists j | p <= j < k :: MakesFor(stmts, snaps, j, k, i) && Clash(stmts, db, j)
  }

  /** The snapshot's indexes, but for the unique ones whose rows clash. */
  ghost predicate AllButClashes(stmts: seq<Statement>, snaps: seq<Shape>, p: nat, db: Database, k: nat, indexes: Indexes)
    requires |snaps| == |stmts| + 1 && k <= |stmts|
  {
    && (forall i | i in indexes :: i in snaps[k].indexes && indexes[i] == snaps[k].indexes[i])
    && (forall i | i in snaps[k].indexes :: i in indexes <==> !Missing(stmts, snaps, p, db, k, i))
  }

  lemma MissingStep(stmts: seq<Statement>, snaps: seq<Shape>, p: nat, db: Database, k: nat, i: string)
    requires |snaps| == |stmts| + 1 && p <= k < |stmts| && i in snaps[k + 1].indexes
    ensures Missing(stmts, snaps, p, db, k + 1, i)
       <==> || (i in snaps[k].indexes && Missing(stmts, snaps, p, db, k, i))
            || (stmts[k].CreateIndex? && stmts[k].index == i && Clash(stmts, db, k))
  {
    hide Clash;
    if i in snaps[k].indexes && Missing(stmts, snaps, p, db, k, i) {
      var j :| p <= j < k && MakesFor(stmts, snaps, j, k, i) && Clash(stmts, db, j);
      assert MakesFor(stmts, snaps, j, k + 1, i);
    }
    if stmts[k].CreateIndex? && stmts[k].index == i && Clash(stmts, db, k) {
      assert MakesFor(stmts, snaps, k, k + 1, i);
    }
    if Missing(stmts, snaps, p, db, k + 1, i) {
      var j :| p <= j < k + 1 && MakesFor(stmts, snaps, j, k + 1, i) && Clash(stmts, db, j);
      if j < k {
        assert MakesFor(stmts, snaps, j, k, i);
      }
    }
  }

  /** One statement of the tail, on the indexes alone. */
  lemma TailIndexStep(stmts: seq<Statement>, snaps: seq<Shape>, p: nat, k: nat, db: Database, mid: Database)
    requires Installs(stmts, snaps) && NoNameReturns(snaps) && AllPlain(stmts) && p <= k < |stmts|
    requires RowsKept(db, mid, stmts, k) && ShapeOf(mid).tables == snaps[k].tables
    requires AllButClashes(stmts, snaps, p, db, k, mid.indexes)
    ensures AllButClashes(stmts, snaps, p, db, k + 1, Indexed(mid, stmts[k]))
  {
    var st := stmts[k];
    assert RunsAt(stmts, snaps, k) && Plain(st);
    if st.CreateIndex? {
      ClashDecides(stmts, snaps, k, db, mid);
    }
    hide Installs, NoNameReturns, RowsKept, Refuses, Clash, Missing;
    forall i | i in snaps[k + 1].indexes
      ensures i in Indexed(mid, st) <==> !Missing(stmts, snaps, p, db, k + 1, i)
    {
      MissingStep(stmts, snaps, p, db, k, i);
    }
  }

  lemma TailNext(stmts: seq<Statement>, snaps: seq<Shape>, p: nat, db: Database, k: nat, mid: Database, after: Database)
    requires ComesTo(stmts, snaps, p, db, k, mid) && |snaps| == |stmts| + 1 && p <= k < |stmts|
    requires ReplayOne(Postgres, mid, stmts[k]) == Some(after) && Plain(stmts[k])
    requires AllButClashes(stmts, snaps, p, db, k, mid.indexes)
    ensures AllButClashes(stmts, snaps, p, db, k + 1, after.indexes)
  {
    ThenTables(stmts, snaps, p, db, k, mid);
    hide ReplayOne, ReplayTo, Installs, NoNameReturns, AllPlain, RowsKept, HeldAt, Lawful, AllButClashes, ShapeOf, Plain;
    TailIndexStep(stmts, snaps, p, k, db, mid);
    ReplayIndexes(mid, stmts[k]);
  }

  lemma {:induction false} TailIndexes(stmts: seq<Statement>, snaps: seq<Shape>, p: nat, db: Database, k: nat, mid: Database)
    requires ComesTo(stmts, snaps, p, db, k, mid) && p <= k
    ensures |snaps| == |stmts| + 1 && k <= |stmts| && AllButClashes(stmts, snaps, p, db, k, mid.indexes)
    decreases k
  {
    hide StandsAt, ComesTo, ReplayOne, EffectOn, AllButClashes, Plain, IndexBounds, Sound, ShapeOf;
    ThenFirst(stmts, snaps, p, db, k, mid);
    if k == p {
      PrefixIndexes(stmts, snaps, p, db, p, mid);
      BoundsSettle(snaps, p, mid.indexes);
      NothingMissing(stmts, snaps, p, db);
    } else {
      var before := ThenNext(stmts, snaps, p, db, k, mid);
      TailIndexes(stmts, snaps, p, db, k - 1, before);
      TailNext(stmts, snaps, p, db, k - 1, before, mid);
    }
  }

  lemma NothingMissing(stmts: seq<Statement>, snaps: seq<Shape>, p: nat, db: Database)
    requires |snaps| == |stmts| + 1 && p <= |stmts|
    ensures AllButClashes(stmts, snaps, p, db, p, snaps[p].indexes)
  {
  }

  // ------------------------------------------------------------------ the theorem

  /** No unique index that is made from statement p on, and stays to the end, is
      refused by the rows. */
  ghost predicate NoClash(stmts: seq<Statement>, snaps: seq<Shape>, p: nat, db: Database)
    requires |snaps| == |stmts| + 1
  {
    forall j | p <= j < |stmts| && stmts[j].CreateIndex? && MakesFor(stmts, snaps, j, |stmts|, stmts[j].index) :: !Clash(stmts, db, j)
  }

  /** A database at any statement of a plain journal, replayed on PostgreSQL from
      the start. It gets through if and only if none of its rows breaks a NOT NULL
      of the journal. Then it has the last snapshot's tables, columns and NOT
      NULLs, and exactly the last snapshot if and only if no two of its rows clash
      on a unique index made since; and every row and every cell of a column the
      last snapshot keeps is as it was. */
  lemma ReplayConverges(stmts: seq<Statement>, snaps: seq<Shape>, p: nat, db: Database)
    requires Installs(stmts, snaps) && NoNameReturns(snaps) && AllPlain(stmts)
    requires p <= |stmts| && ShapeOf(db) == snaps[p] && Lawful(db)
    ensures ReplayAll(Postgres, stmts, db).Some? <==> GetsThrough(stmts, db, |stmts|)
    ensures match ReplayAll(Postgres, stmts, db)
            case None => true
            case Some(after) =>
              var last := snaps[|stmts|];
              && ShapeOf(after).tables == last.tables && after.required == last.required
              && (ShapeOf(after) == last <==> NoClash(stmts, snaps, p, db))
              && (ShapeOf(after) == last <==> last.indexes.Keys <= after.indexes.Keys)
              && forall t, c | HasColumn(ShapeOf(db), t, c) && HasColumn(last, t, c) :: SameCells(db, after, t, c)
  {
    var n := |stmts|;
    assert StandsAt(stmts, snaps, p, db);
    ReplayThrough(stmts, snaps, p, db, n);
    if ReplayAll(Postgres, stmts, db).Some? {
      var after, last := ReplayAll(Postgres, stmts, db).value, snaps[n];
      ThenTables(stmts, snaps, p, db, n, after);
      RequiredFor(stmts, snaps, p, db, n, after);
      TailIndexes(stmts, snaps, p, db, n, after);
      hide Installs, NoNameReturns, ReplayTo, SteppedTo, HeldAt, Lawful, GetsThrough;
      ClashesAreMissing(stmts, snaps, p, db, after.indexes);
      forall t, c | HasColumn(ShapeOf(db), t, c) && HasColumn(last, t, c)
        ensures SameCells(db, after, t, c)
      {
        KeptIsSame(db, after, stmts, n, t, c);
      }
    }
  }

  lemma KeptIsSame(db: Database, after: Database, stmts: seq<Statement>, k: nat, t: string, c: string)
    requires k <= |stmts| && RowsKept(db, after, stmts, k) && HasColumn(ShapeOf(db), t, c) && HasColumn(ShapeOf(after), t, c)
    ensures SameCells(db, after, t, c)
  {
    assert TableKept(db, after, stmts, k, t) && CellsKept(db, after, stmts, k, t, c);
  }

  lemma ClashesAreMissing(stmts: seq<Statement>, snaps: seq<Shape>, p: nat, db: Database, indexes: Indexes)
    requires |snaps| == |stmts| + 1 && AllButClashes(stmts, snaps, p, db, |stmts|, indexes)
    ensures indexes == snaps[|stmts|].indexes <==> NoClash(stmts, snaps, p, db)
    ensures indexes == snaps[|stmts|].indexes <==> snaps[|stmts|].indexes.Keys <= indexes.Keys
  {
    hide Clash;
    var last := snaps[|stmts|].indexes;
    if NoClash(stmts, snaps, p, db) {
      forall i | i in last
        ensures i in indexes
      {
      }
    }
    if last.Keys <= indexes.Keys {
      forall j | p <= j < |stmts| && stmts[j].CreateIndex? && MakesFor(stmts, snaps, j, |stmts|, stmts[j].index)
        ensures !Clash(stmts, db, j)
      {
        assert stmts[j].index in snaps[|stmts|].indexes;
        assert !Missing(stmts, snaps, p, db, |stmts|, stmts[j].index);
      }
    }
  }
}
