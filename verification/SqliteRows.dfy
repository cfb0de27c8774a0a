/** What a SQLite replay of statements and recreates does to a database: exactly
    which of its rows stop it, and the schema and cells it ends with if none does. */
module SqliteRows {
  import opened Options
  import opened Schema
  import opened Replay
  import opened ReplayRows
  import opened Convergence
  import opened Recreate
  import opened SqliteTables
  import opened SqliteColumns

  function ReplayOwn(db: Database, steps: seq<OwnStep>, k: nat): Option<Database>
    requires k <= |steps| && forall s | s in steps :: Regular(s)
  {
    if k == 0 then Some(db)
    else match ReplayOwn(db, steps, k - 1)
      case None => None
      case Some(mid) => assert steps[k - 1] in steps; ReplayStep(mid, steps[k - 1].step, steps[k - 1].own)
  }

  /** The schema after k steps, if no row stops them. */
  function ShapesBy(steps: seq<OwnStep>, s: Shape, k: nat): Shape
    requires k <= |steps| && forall s | s in steps :: Regular(s)
  {
    if k == 0 then s else StepShape(ShapesBy(steps, s, k - 1), steps[k - 1])
  }

  lemma {:induction false} ShapesHaveTables(steps: seq<OwnStep>, s: Shape, k: nat)
    requires k <= |steps| && forall s | s in steps :: Regular(s)
    ensures ShapesBy(steps, s, k).tables == SteppedBy(steps, s.tables, k)
  {
    hide StepShape, StepTables;
    if k > 0 {
      ShapesHaveTables(steps, s, k - 1);
      ShapeTables(ShapesBy(steps, s, k - 1), steps[k - 1]);
    }
  }

  /** Each step's statement, and of a recreate its first. */
  function Leads(steps: seq<OwnStep>): (stmts: seq<Statement>)
    requires forall s | s in steps :: Regular(s)
    ensures |stmts| == |steps| && forall k | 0 <= k < |steps| :: stmts[k] == Lead(steps[k])
  {
    seq(|steps|, k requires 0 <= k < |steps| => assert steps[k] in steps; Lead(steps[k]))
  }

  function Lead(o: OwnStep): Statement
    requires Regular(o)
  {
    match o.step case Single(st) => st case Unit(_, body) => body[0]
  }

  function NotNullOf(o: OwnStep): set<string>
    requires Regular(o) && o.step.Unit?
  {
    UnitColumns(o) * o.step.body[0].required
  }

  // ------------------------------------------------------------ what stops one step

  /** A row refuses the step on this database, where the schema allows it. */
  ghost predicate RefusedBy(mid: Database, o: OwnStep)
    requires Regular(o) && Applies(ShapeOf(mid), o)
  {
    match o.step
    case Single(SetNotNull(t, c)) => Null in mid.tables[t].columns[c].Values
    case Single(AddColumn(t, _, default, notNull)) => notNull && default == Null && mid.tables[t].rows != {}
    case Single(CreateIndex(_, def)) => Refuses(mid, def)
    case Single(_) => false
    case Unit(t, _) => HasNullIn(mid.tables[t], NotNullOf(o))
  }

  lemma StepStops(mid: Database, o: OwnStep)
    requires Regular(o)
    ensures ReplayStep(mid, o.step, o.own) == None <==> Applies(ShapeOf(mid), o) && RefusedBy(mid, o)
    ensures ReplayStep(mid, o.step, o.own).Some? ==> ShapeOf(ReplayStep(mid, o.step, o.own).value) == StepShape(ShapeOf(mid), o)
  {
    match o.step {
      case Single(st) => StatementStops(mid, o, st);
      case Unit(t, body) =>
        RecreateIsWholeOrNothing(mid, t, UnitColumns(o), body[0].required, OwnOf(o, t));
        hide ReplayUnit, Standard, Exec, Recreated, HasNullIn;
        assert Fits(mid, t, UnitColumns(o), OwnOf(o, t)) <==> UnitFits(ShapeOf(mid).tables, t, UnitColumns(o), OwnOf(o, t));
    }
  }

  lemma StatementStops(mid: Database, o: OwnStep, st: Statement)
    requires Regular(o) && o.step == Single(st)
    ensures ReplayOne(Sqlite, mid, st) == None <==> Applies(ShapeOf(mid), o) && RefusedBy(mid, o)
    ensures ReplayOne(Sqlite, mid, st).Some? ==> ShapeOf(ReplayOne(Sqlite, mid, st).value) == StepShape(ShapeOf(mid), o)
  {
    hide HasDuplicates;
    if Exec(mid, st).Applied? {
      ExecShape(mid, st);
    }
    hide EffectOn;
  }

  // -------------------------------------------------------------- the rows, kept

  lemma StepsAddOnce(steps: seq<OwnStep>, snaps: seq<Shape>)
    requires InstallsSteps(steps, snaps) && NoNameReturns(snaps)
    ensures AddsOnce(Leads(steps))
  {
    var stmts := Leads(steps);
    forall i, j | 0 <= i < j < |stmts| && stmts[i].AddColumn? && stmts[j].AddColumn? && stmts[i].table == stmts[j].table
      ensures stmts[i].column != stmts[j].column
    {
      JournalStep(steps, snaps, i);
      JournalStep(steps, snaps, j);
      assert |snaps| == |steps| + 1;
      hide InstallsSteps, NoNameReturns;
      if stmts[i].column == stmts[j].column {
        Stays(snaps, i + 1, j, j + 1, ColumnName(stmts[i].table, stmts[i].column));
      }
    }
  }

  /** The replay never makes again what the database has. */
  lemma NothingMadeAgain(steps: seq<OwnStep>, snaps: seq<Shape>, p: nat, k: nat)
    requires InstallsSteps(steps, snaps) && NoNameReturns(snaps) && p <= |steps| && k < |steps|
    ensures (forall s | s in steps :: Regular(s)) && |snaps| == |steps| + 1
    ensures steps[k].step.Single? ==> MakesNew(snaps[p].tables, SteppedBy(steps, snaps[p].tables, k), steps[k].step.st)
  {
    if steps[k].step.Single? {
      var st := steps[k].step.st;
      JournalStep(steps, snaps, k);
      hide InstallsSteps, NoNameReturns, SteppedBy;
      if k <= p {
        PrefixCovers(steps, snaps, p, k);
      } else {
        if st.CreateTable? && st.table in snaps[p].tables {
          Stays(snaps, p, k, k + 1, TableName(st.table));
        }
        if st.AddColumn? && HasColumn(snaps[p], st.table, st.column) {
          Stays(snaps, p, k, k + 1, ColumnName(st.table, st.column));
        }
      }
    }
  }

  lemma NarrowedRowsKept(db: Database, mid: Database, after: Database, stmts: seq<Statement>, k: nat, t: string, cols: set<string>)
    requires k < |stmts| && RowsKept(db, mid, stmts, k)
    requires after == mid || (t in mid.tables && cols <= mid.tables[t].columns.Keys
                              && after.tables == mid.tables[t := Narrowed(mid.tables[t], cols)])
    ensures RowsKept(db, after, stmts, k + 1)
  {
    hide TableKept;
    forall u | u in after.tables
      ensures TableKept(db, after, stmts, k + 1, u)
    {
      assert TableKept(db, mid, stmts, k, u);
      SameTableKept(db, mid, after, stmts, k, u);
    }
  }

  lemma OwnRowsStep(db: Database, mid: Database, stmts: seq<Statement>, k: nat, o: OwnStep)
    requires Regular(o) && k < |stmts| && stmts[k] == Lead(o) && RowsKept(db, mid, stmts, k)
    requires ReplayStep(mid, o.step, o.own).Some?
    requires o.step.Single? ==> MakesNew(ShapeOf(db).tables, ShapeOf(mid).tables, o.step.st)
    ensures RowsKept(db, ReplayStep(mid, o.step, o.own).value, stmts, k + 1)
  {
    hide ReplayOne, ReplayUnit, RowsKept, MakesNew, Standard, Recreated, HasNullIn, ShapeOf;
    match o.step {
      case Single(st) => RowsStep(Sqlite, db, mid, stmts, k);
      case Unit(t, body) =>
        RecreateIsWholeOrNothing(mid, t, UnitColumns(o), body[0].required, OwnOf(o, t));
        NarrowedRowsKept(db, mid, ReplayStep(mid, o.step, o.own).value, stmts, k, t, UnitColumns(o));
    }
  }

  // ------------------------------------------------------- told from the start's rows

  /** The start's rows refuse step k, where the schema then allows it. */
  ghost predicate RowsRefuseStep(steps: seq<OwnStep>, db: Database, k: nat)
    requires (forall s | s in steps :: Regular(s)) && k < |steps|
  {
    var stmts := Leads(steps);
    match steps[k].step
    case Single(SetNotNull(t, c)) => HoldsNull(stmts, db, k, t, c)
    case Single(AddColumn(t, c, _, _)) => NeedsDefault(stmts[k]) && LacksWithRows(db, t, c)
    case Single(CreateIndex(_, def)) => RowsClash(stmts, k, db, def)
    case Single(_) => false
    case Unit(t, _) => assert steps[k] in steps; exists c | c in NotNullOf(steps[k]) :: HoldsNull(stmts, db, k, t, c)
  }

  lemma RefusedAsTold(steps: seq<OwnStep>, db: Database, k: nat, mid: Database)
    requires (forall s | s in steps :: Regular(s)) && k < |steps| && AddsOnce(Leads(steps))
    requires Regular(steps[k]) && Applies(ShapeOf(mid), steps[k]) && RowsKept(db, mid, Leads(steps), k)
    requires steps[k].step.Single? ==> MakesNew(ShapeOf(db).tables, ShapeOf(mid).tables, steps[k].step.st)
    ensures RefusedBy(mid, steps[k]) <==> RowsRefuseStep(steps, db, k)
  {
    var stmts := Leads(steps);
    match steps[k].step {
      case Single(SetNotNull(t, c)) => NullHeld(stmts, db, k, mid, t, c);
      case Single(AddColumn(t, c, _, _)) =>
        assert TableKept(db, mid, stmts, k, t);
        assert t in db.tables <==> t in ShapeOf(db).tables;
      case Single(CreateIndex(_, def)) => ClashHeld(stmts, k, db, mid, def);
      case Single(_) =>
      case Unit(t, _) =>
        assert t in ShapeOf(mid).tables && NotNullOf(steps[k]) <= mid.tables[t].columns.Keys;
        forall c | c in NotNullOf(steps[k])
          ensures Null in mid.tables[t].columns[c].Values <==> HoldsNull(stmts, db, k, t, c)
        {
          NullHeld(stmts, db, k, mid, t, c);
        }
    }
  }

  /** The rows that stop a SQLite replay at step k: it reaches a statement or recreate
      that the schema allows there, and they refuse it. */
  ghost predicate StopsAt(steps: seq<OwnStep>, db: Database, k: nat)
    requires (forall s | s in steps :: Regular(s)) && k < |steps|
  {
    && Applies(ShapesBy(steps, ShapeOf(db), k), (assert steps[k] in steps; steps[k]))
    && RowsRefuseStep(steps, db, k)
  }

  ghost predicate Passes(steps: seq<OwnStep>, db: Database, k: nat)
    requires (forall s | s in steps :: Regular(s)) && k <= |steps|
  {
    forall j | 0 <= j < k :: !StopsAt(steps, db, j)
  }

  /** At the tables of step p of such a journal. */
  ghost predicate StandsAtStep(steps: seq<OwnStep>, snaps: seq<Shape>, p: nat, db: Database) {
    && InstallsSteps(steps, snaps) && NoNameReturns(snaps) && |snaps| == |steps| + 1 && (forall s | s in steps :: Regular(s))
    && p <= |steps| && ShapeOf(db).tables == snaps[p].tables
  }

  /** What is known of the replay after k steps. */
  ghost predicate KeptBy(steps: seq<OwnStep>, db: Database, k: nat, mid: Database)
    requires (forall s | s in steps :: Regular(s)) && k <= |steps|
  {
    ShapeOf(mid) == ShapesBy(steps, ShapeOf(db), k) && RowsKept(db, mid, Leads(steps), k)
  }

  lemma OwnStepOn(steps: seq<OwnStep>, snaps: seq<Shape>, p: nat, db: Database, k: nat, mid: Database)
    requires StandsAtStep(steps, snaps, p, db) && k < |steps| && Regular(steps[k]) && KeptBy(steps, db, k, mid)
    ensures ReplayStep(mid, steps[k].step, steps[k].own) == None <==> StopsAt(steps, db, k)
    ensures ReplayStep(mid, steps[k].step, steps[k].own).Some? ==>
              KeptBy(steps, db, k + 1, ReplayStep(mid, steps[k].step, steps[k].own).value)
  {
    hide InstallsSteps, NoNameReturns, RowsKept, AddsOnce, ReplayStep, RefusedBy, RowsRefuseStep, Applies, StepShape, MakesNew, SteppedBy;
    StepStops(mid, steps[k]);
    StepsAddOnce(steps, snaps);
    NothingMadeAgain(steps, snaps, p, k);
    ShapesHaveTables(steps, ShapeOf(db), k);
    if Applies(ShapeOf(mid), steps[k]) {
      RefusedAsTold(steps, db, k, mid);
    }
    if ReplayStep(mid, steps[k].step, steps[k].own).Some? {
      OwnRowsStep(db, mid, Leads(steps), k, steps[k]);
    }
  }

  lemma KeptAtFirst(steps: seq<OwnStep>, db: Database)
    requires forall s | s in steps :: Regular(s)
    ensures KeptBy(steps, db, 0, db)
  {
    NothingChanged(db, Leads(steps));
  }

  /** A SQLite replay gets as far as step k if and only if no row of the start stops
      it before; then its schema is what the steps make of the start's, and every row
      and cell of every column it had is kept. */
  lemma {:induction false} OwnThrough(steps: seq<OwnStep>, snaps: seq<Shape>, p: nat, db: Database, k: nat)
    requires StandsAtStep(steps, snaps, p, db) && k <= |steps|
    ensures ReplayOwn(db, steps, k).Some? <==> Passes(steps, db, k)
    ensures ReplayOwn(db, steps, k).Some? ==> KeptBy(steps, db, k, ReplayOwn(db, steps, k).value)
  {
    hide InstallsSteps, NoNameReturns, KeptBy, StopsAt, ReplayStep, Regular;
    if k == 0 {
      KeptAtFirst(steps, db);
    } else {
      OwnThrough(steps, snaps, p, db, k - 1);
      assert steps[k - 1] in steps;
      if ReplayOwn(db, steps, k - 1).Some? {
        OwnStepOn(steps, snaps, p, db, k - 1, ReplayOwn(db, steps, k - 1).value);
      }
    }
  }

  /** A SQLite database with the tables of any step of a journal of plain statements
      and recreates, replayed from the start. It gets through if and only if no row of
      its own stops it; then its schema, indexes and NOT NULLs included, is what the
      steps make of the schema it had; every row and every cell of a column it had and
      still has is as it was; and where each recreate drops what is there, its tables
      are exactly the last snapshot's if and only if no recreate blocks. */
  lemma SqliteReplayConverges(steps: seq<OwnStep>, snaps: seq<Shape>, p: nat, db: Database)
    requires StandsAtStep(steps, snaps, p, db)
    ensures ReplayOwn(db, steps, |steps|).Some? <==> Passes(steps, db, |steps|)
    ensures match ReplayOwn(db, steps, |steps|)
            case None => true
            case Some(after) =>
              && ShapeOf(after) == ShapesBy(steps, ShapeOf(db), |steps|)
              && ShapeOf(after).tables == SteppedBy(steps, snaps[p].tables, |steps|)
              && (forall t, c | HasColumn(ShapeOf(db), t, c) && HasColumn(ShapeOf(after), t, c) :: SameCells(db, after, t, c))
              && (OwnIsThere(steps, snaps) ==>
                    (ShapeOf(after).tables == snaps[|steps|].tables
                     <==> forall d, t | 0 <= d < p && t in snaps[|steps|].tables :: !Blocks(steps, snaps, p, d, t)))
  {
    hide InstallsSteps, NoNameReturns, ReplayOwn, ShapesBy, Passes, SteppedBy, Blocks, OwnIsThere, SameCells, RowsKept;
    OwnThrough(steps, snaps, p, db, |steps|);
    ShapesHaveTables(steps, ShapeOf(db), |steps|);
    if OwnIsThere(steps, snaps) {
      SqliteColumnsExactly(steps, snaps, p);
    }
    if ReplayOwn(db, steps, |steps|).Some? {
      var after := ReplayOwn(db, steps, |steps|).value;
      forall t, c | HasColumn(ShapeOf(db), t, c) && HasColumn(ShapeOf(after), t, c)
        ensures SameCells(db, after, t, c)
      {
        KeptIsSame(db, after, Leads(steps), |steps|, t, c);
      }
    }
  }
}
