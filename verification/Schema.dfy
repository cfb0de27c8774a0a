/** The database a migration works on, and what each kind of SQL statement in
    a migration file does to it: apply, or fail with a code. */
module Schema {
  import opened Options

  datatype Value = Null | Text(text: string)
  type RowId = nat

  /** A table's rows and, for each column, the cell of every row. */
  datatype Table = Table(rows: set<RowId>, columns: map<string, map<RowId, Value>>)

  datatype IndexDef = IndexDef(table: string, columns: set<string>, unique: bool)

  /** A table and a column of it. */
  type ColumnOf = (string, string)

  /** Tables with their rows, indexes, and the NOT NULL columns. */
  datatype Database = Database(tables: map<string, Table>, indexes: map<string, IndexDef>, required: set<ColumnOf>)

  /** Tables and their columns, as a snapshot lists them or a database has them. */
  type Columns = map<string, set<string>>

  /** A database without its rows: tables, columns, indexes and NOT NULLs. */
  datatype Shape = Shape(tables: Columns, indexes: map<string, IndexDef>, required: set<ColumnOf>)

  const EMPTY := Shape(map[], map[], {})

  function ColumnsOf(tables: map<string, Table>): Columns {
    map t | t in tables :: tables[t].columns.Keys
  }

  function ShapeOf(db: Database): Shape {
    Shape(ColumnsOf(db.tables), db.indexes, db.required)
  }

  function ColumnsIn(t: string, cols: set<string>): set<ColumnOf> {
    set c | c in cols :: (t, c)
  }

  /** Tables and columns may be made NOT NULL, or changed to be. */
  datatype Statement =
    | CreateTable(table: string, columns: set<string>, required: set<string>)
    | DropTable(table: string)
    | AddColumn(table: string, column: string, default: Value, notNull: bool)
    | DropColumn(table: string, column: string)
    | CreateIndex(index: string, def: IndexDef)
    | DropIndex(index: string)
    | SetNotNull(table: string, column: string)
    | DropNotNull(table: string, column: string)
    | CopyRows(from: string, to: string, columns: set<string>)
    | RenameTable(from: string, to: string)

  datatype ErrorCode =
    | DuplicateTable | DuplicateColumn | DuplicateObject
    | UndefinedTable | UndefinedColumn | UndefinedObject
    | UniqueViolation | NotNullViolation

  datatype Effect = Changed(shape: Shape) | Rejected(code: ErrorCode)

  /** What a statement does to a schema, when the rows allow it. */
  function EffectOn(s: Shape, st: Statement): Effect {
    match st
    case CreateTable(t, cols, required) =>
      if t in s.tables then Rejected(DuplicateTable)
      else Changed(s.(tables := s.tables[t := cols],
                      required := (set q | q in s.required && q.0 != t) + ColumnsIn(t, cols * required)))
    case DropTable(t) =>
      if t !in s.tables then Rejected(UndefinedTable)
      else Changed(Shape(s.tables - {t}, map i | i in s.indexes && s.indexes[i].table != t :: s.indexes[i],
                         set q | q in s.required && q.0 != t))
    case AddColumn(t, c, _, notNull) =>
      if t !in s.tables then Rejected(UndefinedTable)
      else if c in s.tables[t] then Rejected(DuplicateColumn)
      else Changed(s.(tables := s.tables[t := s.tables[t] + {c}],
                      required := s.required + if notNull then {(t, c)} else {}))
    case DropColumn(t, c) =>
      if t !in s.tables then Rejected(UndefinedTable)
      else if c !in s.tables[t] then Rejected(UndefinedColumn)
      else Changed(Shape(s.tables[t := s.tables[t] - {c}],
                         map i | i in s.indexes && !(s.indexes[i].table == t && c in s.indexes[i].columns) :: s.indexes[i],
                         s.required - {(t, c)}))
    case CreateIndex(i, def) =>
      if i in s.indexes then Rejected(DuplicateObject)
      else if def.table !in s.tables then Rejected(UndefinedTable)
      else if !(def.columns <= s.tables[def.table]) then Rejected(UndefinedColumn)
      else Changed(s.(indexes := s.indexes[i := def]))
    case DropIndex(i) =>
      if i !in s.indexes then Rejected(UndefinedObject)
      else Changed(s.(indexes := s.indexes - {i}))
    case SetNotNull(t, c) =>
      if t !in s.tables then Rejected(UndefinedTable)
      else if c !in s.tables[t] then Rejected(UndefinedColumn)
      else Changed(s.(required := s.required + {(t, c)}))
    case DropNotNull(t, c) =>
      if t !in s.tables then Rejected(UndefinedTable)
      else if c !in s.tables[t] then Rejected(UndefinedColumn)
      else Changed(s.(required := s.required - {(t, c)}))
    case CopyRows(from, to, cols) =>
      if from !in s.tables || to !in s.tables then Rejected(UndefinedTable)
      else if !(cols <= s.tables[from] && cols <= s.tables[to]) then Rejected(UndefinedColumn)
      else Changed(s)
    case RenameTable(from, to) =>
      if from !in s.tables then Rejected(UndefinedTable)
      else if to in s.tables then Rejected(DuplicateTable)
      else Changed(Shape((s.tables - {from})[to := s.tables[from]],
                         map i | i in s.indexes :: Retargeted(s.indexes[i], from, to),
                         set q | q in s.required :: if q.0 == from then (to, q.1) else q))
  }

  function Retargeted(def: IndexDef, from: string, to: string): IndexDef {
    if def.table == from then def.(table := to) else def
  }

  /** Two rows hold the same non-null value in every indexed column. */
  predicate HasDuplicates(t: Table, cols: set<string>) {
    exists r, q | r in t.rows && q in t.rows ::
      r != q && forall c | c in cols ::
        c in t.columns && r in t.columns[c] && q in t.columns[c]
        && t.columns[c][r] != Null && t.columns[c][r] == t.columns[c][q]
  }

  /** A NOT NULL column of the target would get a null: its own in the source, or
      one for lack of the column there. */
  predicate CopiesNull(db: Database, from: string, to: string, cols: set<string>)
    requires from in db.tables && to in db.tables && cols <= db.tables[from].columns.Keys
  {
    exists c | c in db.tables[to].columns :: (to, c) in db.required
      && if c in cols then Null in db.tables[from].columns[c].Values else db.tables[from].rows != {}
  }

  /** The rows' objection to a statement the schema allows. */
  function RowFault(db: Database, st: Statement): Option<ErrorCode>
    requires EffectOn(ShapeOf(db), st).Changed?
  {
    match st
    case CreateIndex(_, def) =>
      if def.unique && HasDuplicates(db.tables[def.table], def.columns) then Some(UniqueViolation) else None
    case SetNotNull(t, c) =>
      if Null in db.tables[t].columns[c].Values then Some(NotNullViolation) else None
    case AddColumn(t, _, default, notNull) =>
      if notNull && default == Null && db.tables[t].rows != {} then Some(NotNullViolation) else None
    case CopyRows(from, to, cols) =>
      if CopiesNull(db, from, to, cols) then Some(NotNullViolation)
      else if db.tables[from].rows * db.tables[to].rows != {} then Some(UniqueViolation) else None
    case _ => None
  }

  function Copied(source: Table, target: Table, cols: set<string>): Table
    requires cols <= source.columns.Keys
  {
    Table(target.rows + source.rows,
          map c | c in target.columns ::
            target.columns[c] + (if c in cols then source.columns[c] else map r | r in source.rows :: Null))
  }

  /** The rows after a statement that applies. */
  function TablesAfter(db: Database, st: Statement): map<string, Table>
    requires EffectOn(ShapeOf(db), st).Changed?
  {
    match st
    case CreateTable(t, cols, _) => db.tables[t := Table({}, map c | c in cols :: map[])]
    case DropTable(t) => db.tables - {t}
    case AddColumn(t, c, default, _) =>
      var was := db.tables[t];
      db.tables[t := was.(columns := was.columns[c := map r | r in was.rows :: default])]
    case DropColumn(t, c) =>
      var was := db.tables[t];
      db.tables[t := was.(columns := was.columns - {c})]
    case CopyRows(from, to, cols) => db.tables[to := Copied(db.tables[from], db.tables[to], cols)]
    case RenameTable(from, to) => (db.tables - {from})[to := db.tables[from]]
    case _ => db.tables
  }

  datatype Outcome = Applied(db: Database) | Failed(code: ErrorCode)

  /** One statement against a database. */
  function Exec(db: Database, st: Statement): Outcome {
    match EffectOn(ShapeOf(db), st)
    case Rejected(code) => Failed(code)
    case Changed(after) =>
      match RowFault(db, st)
      case Some(code) => Failed(code)
      case None => Applied(Database(TablesAfter(db, st), after.indexes, after.required))
  }

  lemma ColumnsOfUpdate(tables: map<string, Table>, t: string, table: Table)
    ensures ColumnsOf(tables[t := table]) == ColumnsOf(tables)[t := table.columns.Keys]
    ensures ColumnsOf(tables - {t}) == ColumnsOf(tables) - {t}
  {
  }

  lemma ColumnsAfter(db: Database, st: Statement)
    requires EffectOn(ShapeOf(db), st).Changed?
    ensures ColumnsOf(TablesAfter(db, st)) == EffectOn(ShapeOf(db), st).shape.tables
  {
    hide Retargeted;
    match st {
      case CreateTable(t, cols, _) =>
        var made := Table({}, map c | c in cols :: map[]);
        ColumnsOfUpdate(db.tables, t, made);
        assert made.columns.Keys == cols;
      case DropTable(t) =>
        ColumnsOfUpdate(db.tables, t, db.tables[t]);
      case AddColumn(t, c, default, _) =>
        var was := db.tables[t];
        var now := was.(columns := was.columns[c := map r | r in was.rows :: default]);
        ColumnsOfUpdate(db.tables, t, now);
        assert now.columns.Keys == was.columns.Keys + {c};
      case DropColumn(t, c) =>
        var was := db.tables[t];
        ColumnsOfUpdate(db.tables, t, was.(columns := was.columns - {c}));
        assert (was.columns - {c}).Keys == was.columns.Keys - {c};
      case CopyRows(from, to, cols) =>
        var now := Copied(db.tables[from], db.tables[to], cols);
        ColumnsOfUpdate(db.tables, to, now);
        assert now.columns.Keys == db.tables[to].columns.Keys;
        assert ColumnsOf(db.tables)[to := db.tables[to].columns.Keys] == ColumnsOf(db.tables);
      case RenameTable(from, to) =>
        ColumnsOfUpdate(db.tables, from, db.tables[from]);
        ColumnsOfUpdate(db.tables - {from}, to, db.tables[from]);
      case _ =>
    }
  }

  /** The schema of the result is the statement's effect on the schema. */
  lemma ExecShape(db: Database, st: Statement)
    requires Exec(db, st).Applied?
    ensures EffectOn(ShapeOf(db), st) == Changed(ShapeOf(Exec(db, st).db))
  {
    ColumnsAfter(db, st);
    hide EffectOn, RowFault, TablesAfter;
  }

  predicate HasColumn(s: Shape, t: string, c: string) {
    t in s.tables && c in s.tables[t]
  }

  /** The column is there before and after, with the same rows and cells. */
  ghost predicate SameCells(a: Database, b: Database, t: string, c: string) {
    && HasColumn(ShapeOf(a), t, c) && HasColumn(ShapeOf(b), t, c)
    && a.tables[t].rows == b.tables[t].rows
    && a.tables[t].columns[c] == b.tables[t].columns[c]
  }

  /** A statement of the kinds a PostgreSQL journal uses. */
  predicate Plain(st: Statement) {
    !st.CopyRows? && !st.RenameTable?
  }

  /** A plain statement never touches a cell of a column that stays. */
  lemma PlainKeepsCells(db: Database, st: Statement, t: string, c: string)
    requires Plain(st) && Exec(db, st).Applied?
    requires HasColumn(ShapeOf(db), t, c) && HasColumn(ShapeOf(Exec(db, st).db), t, c)
    ensures SameCells(db, Exec(db, st).db, t, c)
  {
  }

  /** Every index and NOT NULL names a table and columns the schema has. */
  ghost predicate Sound(s: Shape) {
    && (forall i | i in s.indexes ::
          s.indexes[i].table in s.tables && s.indexes[i].columns <= s.tables[s.indexes[i].table])
    && (forall q | q in s.required :: HasColumn(s, q.0, q.1))
  }

  /** No NOT NULL column holds a null. */
  ghost predicate NoNulls(db: Database) {
    forall q | q in db.required && q.0 in db.tables && q.1 in db.tables[q.0].columns ::
      Null !in db.tables[q.0].columns[q.1].Values
  }

  /** What the database itself sees to: no two rows agree on a unique index, and
      no NOT NULL column holds a null. */
  ghost predicate Lawful(db: Database) {
    && (forall i | i in db.indexes && db.indexes[i].unique ::
          db.indexes[i].table in db.tables && !HasDuplicates(db.tables[db.indexes[i].table], db.indexes[i].columns))
    && NoNulls(db)
  }

  lemma EffectIsSound(s: Shape, st: Statement)
    requires Sound(s) && EffectOn(s, st).Changed?
    ensures Sound(EffectOn(s, st).shape)
  {
  }

  /** The database a statement would leave if the rows were never asked. */
  function Unchecked(db: Database, st: Statement): Database
    requires EffectOn(ShapeOf(db), st).Changed?
  {
    var after := EffectOn(ShapeOf(db), st).shape;
    Database(TablesAfter(db, st), after.indexes, after.required)
  }

  lemma CopyLeavesNull(db: Database, from: string, to: string, cols: set<string>)
    requires NoNulls(db) && EffectOn(ShapeOf(db), CopyRows(from, to, cols)).Changed?
    ensures CopiesNull(db, from, to, cols) <==> !NoNulls(Unchecked(db, CopyRows(from, to, cols)))
  {
    var source, target := db.tables[from], db.tables[to];
    var after := Unchecked(db, CopyRows(from, to, cols));
    forall c | c in target.columns && (to, c) in db.required
      ensures (if c in cols then Null in source.columns[c].Values else source.rows != {})
         <==> Null in after.tables[to].columns[c].Values
    {
      assert Null !in target.columns[c].Values;
      var more := if c in cols then source.columns[c] else map r | r in source.rows :: Null;
      assert after.tables[to].columns[c] == target.columns[c] + more;
      NullsIn(target.columns[c], more);
      if r :| r in source.rows {
        assert c !in cols ==> more[r] == Null;
      }
    }
  }

  lemma NullsIn(a: map<RowId, Value>, b: map<RowId, Value>)
    requires Null !in a.Values
    ensures Null in (a + b).Values <==> Null in b.Values
  {
    if Null in b.Values {
      var r :| r in b && b[r] == Null;
      assert (a + b)[r] == Null;
    }
  }

  /** Rows refuse a statement for a null if and only if it would leave one in a NOT NULL
      column; so no statement that applies ever does. */
  lemma NullsAreRefused(db: Database, st: Statement)
    requires NoNulls(db) && Sound(ShapeOf(db)) && EffectOn(ShapeOf(db), st).Changed?
    ensures RowFault(db, st) == Some(NotNullViolation) <==> !NoNulls(Unchecked(db, st))
    ensures Exec(db, st).Applied? ==> NoNulls(Exec(db, st).db)
  {
    match st {
      case CopyRows(from, to, cols) =>
        CopyLeavesNull(db, from, to, cols);
        hide NoNulls, CopiesNull, EffectOn, TablesAfter;
      case AddColumn(t, c, default, notNull) =>
        AddLeavesNull(db, t, c, default, notNull);
        hide NoNulls, EffectOn, TablesAfter;
      case SetNotNull(t, c) =>
        assert !NoNulls(Unchecked(db, st)) <== Null in db.tables[t].columns[c].Values by {
          assert (t, c) in Unchecked(db, st).required;
        }
      case _ =>
    }
  }

  lemma AddLeavesNull(db: Database, t: string, c: string, default: Value, notNull: bool)
    requires NoNulls(db) && Sound(ShapeOf(db)) && EffectOn(ShapeOf(db), AddColumn(t, c, default, notNull)).Changed?
    ensures (notNull && default == Null && db.tables[t].rows != {})
       <==> !NoNulls(Unchecked(db, AddColumn(t, c, default, notNull)))
  {
    var after := Unchecked(db, AddColumn(t, c, default, notNull));
    assert !HasColumn(ShapeOf(db), t, c);
    if notNull && default == Null && db.tables[t].rows != {} {
      var r :| r in db.tables[t].rows;
      assert after.tables[t].columns[c][r] == Null && (t, c) in after.required;
    }
  }

  /** And no plain statement that applies leaves two rows that agree on a unique index. */
  lemma PlainStaysLawful(db: Database, st: Statement)
    requires Lawful(db) && Sound(ShapeOf(db)) && Plain(st) && Exec(db, st).Applied?
    ensures Lawful(Exec(db, st).db)
  {
    NullsAreRefused(db, st);
    hide NoNulls;
    var after := Exec(db, st).db;
    forall i | i in after.indexes && after.indexes[i].unique
      ensures after.indexes[i].table in after.tables
      ensures !HasDuplicates(after.tables[after.indexes[i].table], after.indexes[i].columns)
    {
      if i in db.indexes && after.indexes[i] == db.indexes[i] {
        StayApart(db, st, db.indexes[i]);
      }
    }
  }

  lemma StayApart(db: Database, st: Statement, def: IndexDef)
    requires Plain(st) && Exec(db, st).Applied? && Sound(ShapeOf(db))
    requires def.table in db.tables && def.table in Exec(db, st).db.tables
    requires def.columns <= db.tables[def.table].columns.Keys && def.columns <= Exec(db, st).db.tables[def.table].columns.Keys
    requires !HasDuplicates(db.tables[def.table], def.columns)
    ensures !HasDuplicates(Exec(db, st).db.tables[def.table], def.columns)
  {
    var was, now := db.tables[def.table], Exec(db, st).db.tables[def.table];
    assert now.rows == was.rows;
    forall c | c in def.columns
      ensures was.columns[c] == now.columns[c]
    {
      PlainKeepsCells(db, st, def.table, c);
    }
  }

  /** Every row has a cell in a column, and no other. */
  ghost predicate OneCellEach(t: Table, c: string) {
    c in t.columns && t.columns[c].Keys == t.rows
  }

  /** A copy that applies adds rows and overwrites none: those there keep their cells, and
      the new ones have theirs in the columns copied. */
  lemma CopyOverwritesNothing(db: Database, from: string, to: string, cols: set<string>, c: string)
    requires Exec(db, CopyRows(from, to, cols)).Applied? && from in db.tables && to in db.tables
    requires OneCellEach(db.tables[to], c) && (c in cols ==> OneCellEach(db.tables[from], c))
    ensures var source, target := db.tables[from], db.tables[to];
            var after := Exec(db, CopyRows(from, to, cols)).db.tables[to];
            && source.rows !! target.rows && after.rows == source.rows + target.rows && OneCellEach(after, c)
            && (forall r | r in target.rows :: after.columns[c][r] == target.columns[c][r])
            && (c in cols ==> forall r | r in source.rows :: after.columns[c][r] == source.columns[c][r])
  {
    var source, target := db.tables[from], db.tables[to];
    assert source.rows * target.rows == {};
    forall r | r in source.rows
      ensures r !in target.rows
    {
      assert r !in source.rows * target.rows;
    }
  }
}
