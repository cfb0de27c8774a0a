/** The squash replay on SQLite, where a column is dropped by recreating its
    table: a recreate runs as a unit, and only drops what its own entry drops. */
module Recreate {
  import opened Options
  import opened Schema
  import opened Replay

  function TempName(t: string): string {
    "__new_" + t
  }

  /** The table a CREATE TABLE `__new_X` is about to recreate. */
  function UnitTable(st: Statement): Option<string> {
    if st.CreateTable? && |st.table| > 6 && st.table[..6] == "__new_" then Some(st.table[6..]) else None
  }

  /** It is one if and only if it is `__new_` and the name of that table, which is not empty. */
  lemma UnitTableIs(st: Statement, t: string)
    ensures UnitTable(st) == Some(t) <==> st.CreateTable? && t != "" && st.table == "__new_" + t
    ensures UnitTable(st) == Some(t) ==> st.table == TempName(t)
  {
    if st.CreateTable? && |st.table| > 6 && st.table[..6] == "__new_" {
      assert st.table == st.table[..6] + st.table[6..];
    }
  }

  /** The first rename of the new table to its final name after statement i. */
  function UnitEnd(stmts: seq<Statement>, i: nat, t: string): (end: nat)
    requires i <= |stmts|
    ensures i <= end <= |stmts|
    ensures end < |stmts| ==> stmts[end] == RenameTable(TempName(t), t)
    ensures forall j | i <= j < end :: stmts[j] != RenameTable(TempName(t), t)
    decreases |stmts| - i
  {
    if i == |stmts| || stmts[i] == RenameTable(TempName(t), t) then i else UnitEnd(stmts, i + 1, t)
  }

  datatype Step = Single(st: Statement) | Unit(table: string, body: seq<Statement>)

  /** The step statement i starts, and where the next one starts. */
  function StepAt(stmts: seq<Statement>, i: nat): (r: (Step, nat))
    requires i < |stmts|
    ensures i < r.1 <= |stmts| && (r.0.Unit? ==> |r.0.body| >= 2)
  {
    var table := UnitTable(stmts[i]);
    var end := if table.Some? then UnitEnd(stmts, i + 1, table.value) else |stmts|;
    if table.Some? && end < |stmts| then (Unit(table.value, stmts[i..end + 1]), end + 1) else (Single(stmts[i]), i + 1)
  }

  /** A file's statements from i on, with each recreate as one step. */
  function Plan(stmts: seq<Statement>, i: nat): (steps: seq<Step>)
    requires i <= |stmts|
    ensures forall s | s in steps && s.Unit? :: |s.body| >= 2
    decreases |stmts| - i
  {
    if i == |stmts| then [] else [StepAt(stmts, i).0] + Plan(stmts, StepAt(stmts, i).1)
  }

  /** Statements run one after another, none skipped. */
  function ExecAll(db: Database, stmts: seq<Statement>): Outcome
    decreases |stmts|
  {
    if stmts == [] then Applied(db)
    else match Exec(db, stmts[0])
      case Applied(next) => ExecAll(next, stmts[1..])
      case Failed(code) => Failed(code)
  }

  function ColumnsHeld(db: Database, t: string): set<string> {
    if t in db.tables then db.tables[t].columns.Keys else {}
  }

  /** Columns of the table the new one lacks and this entry does not drop. */
  function WouldLose(db: Database, t: string, ownDrops: set<string>): set<string> {
    ColumnsHeld(db, t) - ColumnsHeld(db, TempName(t)) - ownDrops
  }

  /** One recreate: whole, or not at all; None stops the replay. */
  function ReplayUnit(db: Database, t: string, body: seq<Statement>, ownDrops: set<string>): Option<Database>
    requires body != []
  {
    match Exec(db, body[0])
    case Failed(code) => if Ignorable(Sqlite, code) then Some(db) else None
    case Applied(made) =>
      if WouldLose(made, t, ownDrops) != {} then Some(db)
      else match ExecAll(made, body[1..])
        case Applied(after) => Some(after)
        case Failed(code) => if Ignorable(Sqlite, code) then Some(db) else None
  }

  function ReplayStep(db: Database, step: Step, drops: map<string, set<string>>): Option<Database>
    requires step.Unit? ==> step.body != []
  {
    match step
    case Single(st) => ReplayOne(Sqlite, db, st)
    case Unit(t, body) => ReplayUnit(db, t, body, if t in drops then drops[t] else {})
  }

  function ReplaySteps(db: Database, steps: seq<Step>, drops: map<string, set<string>>): Option<Database>
    requires forall s | s in steps && s.Unit? :: s.body != []
    decreases |steps|
  {
    if steps == [] then Some(db)
    else match ReplayStep(db, steps[0], drops)
      case None => None
      case Some(next) => ReplaySteps(next, steps[1..], drops)
  }

  function StatementsIn(step: Step): seq<Statement> {
    match step case Single(st) => [st] case Unit(_, body) => body
  }

  /** The statements of some steps, one after another. */
  function StatementsOf(steps: seq<Step>): seq<Statement> {
    if steps == [] then [] else StatementsIn(steps[0]) + StatementsOf(steps[1..])
  }

  lemma StepIsWhole(stmts: seq<Statement>, i: nat)
    requires i < |stmts|
    ensures stmts[i..] == StatementsIn(StepAt(stmts, i).0) + stmts[StepAt(stmts, i).1..]
  {
    var (step, next) := StepAt(stmts, i);
    assert StatementsIn(step) == stmts[i..next];
    hide StepAt, StatementsIn;
    assert stmts[i..] == stmts[i..next] + stmts[next..];
  }

  /** The steps of a file are the file: every statement once and in order, each
      alone or in its recreate. */
  lemma {:induction false} PlanIsWhole(stmts: seq<Statement>, i: nat)
    requires i <= |stmts|
    ensures StatementsOf(Plan(stmts, i)) == stmts[i..]
    decreases |stmts| - i
  {
    hide StepAt, StatementsIn;
    if i < |stmts| {
      PlanIsWhole(stmts, StepAt(stmts, i).1);
      StepIsWhole(stmts, i);
    }
  }

  /** The replay of a file is its first step and then the rest. */
  lemma PlanUnfolds(stmts: seq<Statement>, i: nat, db: Database, drops: map<string, set<string>>)
    requires i < |stmts|
    ensures var (step, next) := StepAt(stmts, i);
            ReplaySteps(db, Plan(stmts, i), drops)
            == match ReplayStep(db, step, drops)
               case None => None
               case Some(mid) => ReplaySteps(mid, Plan(stmts, next), drops)
  {
    hide ReplayStep, StepAt;
  }

  // -------------------------------------------------------------- the theorems

  /** The shape drizzle-kit gives a recreate. */
  function Standard(t: string, cols: set<string>, required: set<string>): seq<Statement> {
    [CreateTable(TempName(t), cols, required), CopyRows(t, TempName(t), cols), DropTable(t), RenameTable(TempName(t), t)]
  }

  /** Each recreate drizzle-kit writes is found, as one step. */
  lemma StandardIsOneStep(t: string, cols: set<string>, required: set<string>)
    requires t != ""
    ensures Plan(Standard(t, cols, required), 0) == [Unit(t, Standard(t, cols, required))]
  {
    var stmts := Standard(t, cols, required);
    assert TempName(t)[..6] == "__new_" && TempName(t)[6..] == t;
    assert UnitTable(stmts[0]) == Some(t);
    assert UnitEnd(stmts, 3, t) == 3;
    assert UnitEnd(stmts, 2, t) == 3;
    assert UnitEnd(stmts, 1, t) == 3;
    assert stmts[0..4] == stmts;
    assert Plan(stmts, 4) == [];
  }

  /** The table with only some of its columns, every row and cell kept. */
  function Narrowed(table: Table, cols: set<string>): Table
    requires cols <= table.columns.Keys
  {
    Table(table.rows, map c | c in cols :: table.columns[c])
  }

  /** Nothing stands in the way of a recreate. */
  predicate Fits(db: Database, t: string, cols: set<string>, ownDrops: set<string>) {
    && TempName(t) !in db.tables && t in db.tables
    && cols <= db.tables[t].columns.Keys <= cols + ownDrops
  }

  /** A row has a null in one of these columns. */
  predicate HasNullIn(table: Table, required: set<string>) {
    exists c | c in required && c in table.columns :: Null in table.columns[c].Values
  }

  /** The schema with the new table in the old one's place: without the indexes of
      the old one, and with the new one's NOT NULLs. */
  function Recreated(s: Shape, t: string, cols: set<string>, required: set<string>): Shape {
    Shape(s.tables[t := cols],
          map i | i in s.indexes && s.indexes[i].table != t :: Retargeted(s.indexes[i], TempName(t), t),
          (set q | q in s.required && q.0 != t && q.0 != TempName(t)) + ColumnsIn(t, cols * required))
  }

  lemma TempIsOther(t: string)
    ensures TempName(t) != t
  {
    assert |TempName(t)| == |t| + 6;
  }

  lemma StandardRest(t: string, cols: set<string>, required: set<string>)
    ensures var body := Standard(t, cols, required);
            && body[1..] == [CopyRows(t, TempName(t), cols), DropTable(t), RenameTable(TempName(t), t)]
            && body[1..][1..] == [DropTable(t), RenameTable(TempName(t), t)]
            && body[1..][1..][1..] == [RenameTable(TempName(t), t)]
            && body[1..][1..][1..][1..] == []
  {
  }

  /** Once the new table is made and nothing else would be lost, the rest of the
      unit copies every row over and puts the new table in the old one's place,
      unless a row has a null where the new table takes none. */
  lemma RestOfUnit(made: Database, t: string, cols: set<string>, required: set<string>)
    requires t in made.tables && TempName(t) in made.tables
    requires made.tables[TempName(t)] == Table({}, map c | c in cols :: map[])
    requires forall c :: (TempName(t), c) in made.required <==> c in cols * required
    ensures var r := ExecAll(made, Standard(t, cols, required)[1..]);
            if !(cols <= made.tables[t].columns.Keys) then r == Failed(UndefinedColumn)
            else if HasNullIn(made.tables[t], cols * required) then r == Failed(NotNullViolation)
            else r.Applied? && r.db.tables == (made.tables - {TempName(t)})[t := Narrowed(made.tables[t], cols)]
  {
    hide EffectOn, RowFault, TablesAfter, HasNullIn;
    TempIsOther(t);
    StandardRest(t, cols, required);
    var rest := Standard(t, cols, required)[1..];
    CopyStep(made, t, cols, required);
    if cols <= made.tables[t].columns.Keys && !HasNullIn(made.tables[t], cols * required) {
      var copied := Exec(made, rest[0]).db;
      DropStep(copied, t);
      var dropped := Exec(copied, rest[1]).db;
      RenameStep(dropped, t);
      assert ExecAll(dropped, rest[1..][1..]) == Exec(dropped, rest[2]);
      assert ExecAll(copied, rest[1..]) == Exec(dropped, rest[2]);
      assert ExecAll(made, rest) == Exec(dropped, rest[2]);
    }
  }

  lemma CopyStep(made: Database, t: string, cols: set<string>, required: set<string>)
    requires t in made.tables && TempName(t) in made.tables
    requires made.tables[TempName(t)] == Table({}, map c | c in cols :: map[])
    requires forall c :: (TempName(t), c) in made.required <==> c in cols * required
    ensures var r := Exec(made, CopyRows(t, TempName(t), cols));
            if !(cols <= made.tables[t].columns.Keys) then r == Failed(UndefinedColumn)
            else if HasNullIn(made.tables[t], cols * required) then r == Failed(NotNullViolation)
            else r.Applied? && r.db.tables == made.tables[TempName(t) := Narrowed(made.tables[t], cols)]
  {
    assert made.tables[TempName(t)].columns.Keys == cols;
    assert made.tables[t].rows * made.tables[TempName(t)].rows == {};
    if cols <= made.tables[t].columns.Keys {
      assert CopiesNull(made, t, TempName(t), cols) <==> HasNullIn(made.tables[t], cols * required);
      hide CopiesNull, HasNullIn;
      forall c | c in cols
        ensures map[] + made.tables[t].columns[c] == made.tables[t].columns[c]
      {
      }
      var copied := Copied(made.tables[t], made.tables[TempName(t)], cols);
      assert copied.rows == made.tables[t].rows && copied.columns == Narrowed(made.tables[t], cols).columns;
    }
  }

  lemma DropStep(db: Database, t: string)
    requires t in db.tables
    ensures Exec(db, DropTable(t)).Applied? && Exec(db, DropTable(t)).db.tables == db.tables - {t}
  {
  }

  lemma RenameStep(db: Database, t: string)
    requires TempName(t) in db.tables && t !in db.tables
    ensures var r := Exec(db, RenameTable(TempName(t), t));
            r.Applied? && r.db.tables == (db.tables - {TempName(t)})[t := db.tables[TempName(t)]]
  {
  }

  lemma FirstApplies(db: Database, stmts: seq<Statement>)
    requires stmts != [] && ExecAll(db, stmts).Applied?
    ensures Exec(db, stmts[0]).Applied? && ExecAll(Exec(db, stmts[0]).db, stmts[1..]) == ExecAll(db, stmts)
    ensures EffectOn(ShapeOf(db), stmts[0]) == Changed(ShapeOf(Exec(db, stmts[0]).db))
  {
    hide Exec, EffectOn;
    ExecShape(db, stmts[0]);
  }

  /** The schema after the whole unit. */
  lemma UnitShape(db: Database, t: string, cols: set<string>, required: set<string>)
    requires ExecAll(db, Standard(t, cols, required)).Applied?
    ensures ShapeOf(ExecAll(db, Standard(t, cols, required)).db) == Recreated(ShapeOf(db), t, cols, required)
  {
    hide Exec, ExecAll, EffectOn, ShapeOf, Recreated;
    StandardRest(t, cols, required);
    var body := Standard(t, cols, required);
    FirstApplies(db, body);
    var made := Exec(db, body[0]).db;
    FirstApplies(made, body[1..]);
    var copied := Exec(made, body[1]).db;
    FirstApplies(copied, body[1..][1..]);
    var dropped := Exec(copied, body[2]).db;
    FirstApplies(dropped, body[1..][1..][1..]);
    var after := Exec(dropped, body[3]).db;
    NothingLeftToRun(after);
    EffectOfUnit(ShapeOf(db), ShapeOf(made), ShapeOf(copied), ShapeOf(dropped), ShapeOf(after), t, cols, required);
  }

  lemma NothingLeftToRun(db: Database)
    ensures ExecAll(db, []) == Applied(db)
  {
  }

  lemma EffectOfUnit(s: Shape, made: Shape, copied: Shape, dropped: Shape, after: Shape, t: string, cols: set<string>, required: set<string>)
    requires EffectOn(s, CreateTable(TempName(t), cols, required)) == Changed(made)
    requires EffectOn(made, CopyRows(t, TempName(t), cols)) == Changed(copied)
    requires EffectOn(copied, DropTable(t)) == Changed(dropped)
    requires EffectOn(dropped, RenameTable(TempName(t), t)) == Changed(after)
    ensures after == Recreated(s, t, cols, required)
  {
    TempIsOther(t);
    assert copied == made;
    assert dropped.tables == s.tables[TempName(t) := cols] - {t};
    assert after.tables == s.tables[t := cols];
    assert after.indexes == Recreated(s, t, cols, required).indexes;
    UnitRequired(s.required, t, cols * required);
  }

  lemma UnitRequired(required: set<ColumnOf>, t: string, cols: set<string>)
    ensures var made := (set q | q in required && q.0 != TempName(t)) + ColumnsIn(TempName(t), cols);
            var dropped := set q | q in made && q.0 != t;
            (set q | q in dropped :: if q.0 == TempName(t) then (t, q.1) else q)
            == (set q | q in required && q.0 != t && q.0 != TempName(t)) + ColumnsIn(t, cols)
  {
    TempIsOther(t);
    var made := (set q | q in required && q.0 != TempName(t)) + ColumnsIn(TempName(t), cols);
    var dropped := set q | q in made && q.0 != t;
    var renamed := set q | q in dropped :: if q.0 == TempName(t) then (t, q.1) else q;
    forall c | c in cols
      ensures (t, c) in renamed
    {
      assert (TempName(t), c) in dropped;
    }
    forall q | q in required && q.0 != t && q.0 != TempName(t)
      ensures q in renamed
    {
      assert q in dropped;
    }
  }

  /** A recreate runs whole, keeping every row and every cell of the new table's
      columns and every other table, exactly when the new table needs no column the
      old one lacks and drops none but the entry's own, and no row has a null where
      the new table takes none; with such a row it stops the replay; and where it
      does not fit, the database is exactly as it was. */
  lemma RecreateIsWholeOrNothing(db: Database, t: string, cols: set<string>, required: set<string>, ownDrops: set<string>)
    ensures var r := ReplayUnit(db, t, Standard(t, cols, required), ownDrops);
            if !Fits(db, t, cols, ownDrops) then r == Some(db)
            else if HasNullIn(db.tables[t], cols * required) then r == None
            else && r.Some? && r.value.tables == db.tables[t := Narrowed(db.tables[t], cols)]
                 && ShapeOf(r.value) == Recreated(ShapeOf(db), t, cols, required)
  {
    hide EffectOn, RowFault, TablesAfter, HasNullIn, ShapeOf, Recreated;
    TempIsOther(t);
    var body := Standard(t, cols, required);
    MakeStep(db, t, cols, required);
    if TempName(t) !in db.tables {
      var made := Exec(db, body[0]).db;
      assert ColumnsHeld(made, TempName(t)) == cols && ColumnsHeld(made, t) == ColumnsHeld(db, t);
      FitsMeansNoLoss(ColumnsHeld(db, t), cols, ownDrops);
      assert ExecAll(db, body) == ExecAll(made, body[1..]);
      if t in db.tables {
        RestOfUnit(made, t, cols, required);
        if ExecAll(db, body).Applied? {
          UnitShape(db, t, cols, required);
        }
      } else {
        NoSourceStep(made, t, cols, required);
      }
    }
  }

  /** Where it fits, a recreate run strictly does what it does in a replay. */
  lemma UnitStrictly(db: Database, t: string, cols: set<string>, required: set<string>, ownDrops: set<string>)
    requires Fits(db, t, cols, ownDrops)
    ensures match ReplayUnit(db, t, Standard(t, cols, required), ownDrops)
            case None => ExecAll(db, Standard(t, cols, required)).Failed?
            case Some(after) => ExecAll(db, Standard(t, cols, required)) == Applied(after)
  {
    hide EffectOn, RowFault, TablesAfter, HasNullIn, ShapeOf;
    TempIsOther(t);
    var body := Standard(t, cols, required);
    MakeStep(db, t, cols, required);
    var made := Exec(db, body[0]).db;
    assert ColumnsHeld(made, TempName(t)) == cols && ColumnsHeld(made, t) == ColumnsHeld(db, t);
    FitsMeansNoLoss(ColumnsHeld(db, t), cols, ownDrops);
    assert ExecAll(db, body) == ExecAll(made, body[1..]);
    RestOfUnit(made, t, cols, required);
  }

  lemma MakeStep(db: Database, t: string, cols: set<string>, required: set<string>)
    ensures var r := Exec(db, CreateTable(TempName(t), cols, required));
            if TempName(t) in db.tables then r == Failed(DuplicateTable)
            else && r.Applied? && r.db.tables == db.tables[TempName(t) := Table({}, map c | c in cols :: map[])]
                 && forall c :: (TempName(t), c) in r.db.required <==> c in cols * required
  {
  }

  lemma NoSourceStep(made: Database, t: string, cols: set<string>, required: set<string>)
    requires t !in made.tables
    ensures ExecAll(made, Standard(t, cols, required)[1..]) == Failed(UndefinedTable)
  {
    assert Standard(t, cols, required)[1..][0] == CopyRows(t, TempName(t), cols);
  }

  lemma FitsMeansNoLoss(have: set<string>, cols: set<string>, ownDrops: set<string>)
    ensures have - cols - ownDrops == {} <==> have <= cols + ownDrops
  {
    if have - cols - ownDrops == {} {
      assert forall c | c in have :: c in cols + ownDrops || c in have - cols - ownDrops;
    }
  }

  // ------------------------------------------------------------ a whole file

  /** The step leaves the column alone: it neither drops nor renames its table
      nor copies rows into it outside a recreate, and if it recreates its table
      the journal entry does not drop the column. */
  ghost predicate Spares(step: Step, drops: map<string, set<string>>, t: string, c: string) {
    match step
    case Single(st) =>
      st != DropTable(t) && st != DropColumn(t, c)
      && !(st.RenameTable? && st.from == t) && !(st.CopyRows? && st.to == t)
    case Unit(table, body) =>
      && TempName(table) != t
      && (exists cols, required :: body == Standard(table, cols, required))
      && (table == t && t in drops ==> c !in drops[t])
  }

  lemma SingleSpares(db: Database, st: Statement, t: string, c: string)
    requires ReplayOne(Sqlite, db, st).Some? && HasColumn(ShapeOf(db), t, c)
    requires Spares(Single(st), map[], t, c)
    ensures SameCells(db, ReplayOne(Sqlite, db, st).value, t, c)
  {
    if Exec(db, st).Applied? {
      ExecShape(db, st);
    }
  }

  lemma StepSpares(db: Database, step: Step, drops: map<string, set<string>>, t: string, c: string)
    requires HasColumn(ShapeOf(db), t, c) && Spares(step, drops, t, c)
    requires (step.Unit? ==> step.body != []) && ReplayStep(db, step, drops).Some?
    ensures SameCells(db, ReplayStep(db, step, drops).value, t, c)
  {
    hide Exec, ExecAll, ReplayUnit, ReplayOne;
    match step {
      case Single(st) => SingleSpares(db, st, t, c);
      case Unit(table, body) =>
        var cols, required :| body == Standard(table, cols, required);
        RecreateIsWholeOrNothing(db, table, cols, required, if table in drops then drops[table] else {});
    }
  }

  /** A file keeps every row and cell of a column none of its steps touches,
      whatever else the database holds and however far past the file it is. */
  lemma {:induction false} FileSpares(db: Database, steps: seq<Step>, drops: map<string, set<string>>, t: string, c: string)
    requires HasColumn(ShapeOf(db), t, c) && forall s | s in steps :: Spares(s, drops, t, c)
    requires forall s | s in steps && s.Unit? :: s.body != []
    requires ReplaySteps(db, steps, drops).Some?
    ensures SameCells(db, ReplaySteps(db, steps, drops).value, t, c)
    decreases |steps|
  {
    hide ReplayStep, Spares;
    if steps != [] {
      StepSpares(db, steps[0], drops, t, c);
      FileSpares(ReplayStep(db, steps[0], drops).value, steps[1..], drops, t, c);
    }
  }
}
