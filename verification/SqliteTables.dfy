/** Where a SQLite replay of statements and recreates leaves the tables, if no row
    stops it: exactly which columns each has, and which dropped ones come back. */
module SqliteTables {
  import opened Schema
  import opened Replay
  import opened ReplayTables
  import opened Recreate

  /** A step of the replay, and per table the columns its journal entry drops. */
  datatype OwnStep = OwnStep(step: Step, own: map<string, set<string>>)

  function OwnOf(s: OwnStep, t: string): set<string> {
    if t in s.own then s.own[t] else {}
  }

  /** A statement that neither renames nor copies, or a recreate as drizzle-kit
      writes it. */
  predicate Regular(s: OwnStep) {
    match s.step
    case Single(st) => Plain(st)
    case Unit(t, body) => body != [] && body[0].CreateTable? && body == Standard(t, body[0].columns, body[0].required)
  }

  function UnitColumns(s: OwnStep): set<string>
    requires Regular(s) && s.step.Unit?
  {
    s.step.body[0].columns
  }

  // -------------------------------------------------------- what a step does to tables

  predicate UnitFits(tables: Columns, t: string, cols: set<string>, own: set<string>) {
    TempName(t) !in tables && t in tables && cols <= tables[t] <= cols + own
  }

  function StepTables(tables: Columns, s: OwnStep): Columns
    requires Regular(s)
  {
    match s.step
    case Single(st) => Stepped(tables, st)
    case Unit(t, _) => if UnitFits(tables, t, UnitColumns(s), OwnOf(s, t)) then tables[t := UnitColumns(s)] else tables
  }

  /** The step runs on this schema, the rows allowing it. */
  predicate Applies(s: Shape, o: OwnStep)
    requires Regular(o)
  {
    match o.step
    case Single(st) => EffectOn(s, st).Changed?
    case Unit(t, _) => UnitFits(s.tables, t, UnitColumns(o), OwnOf(o, t))
  }

  /** The schema after the step, applied or skipped. */
  function StepShape(s: Shape, o: OwnStep): Shape
    requires Regular(o)
  {
    if !Applies(s, o) then s
    else match o.step
      case Single(st) => EffectOn(s, st).shape
      case Unit(t, body) => Recreated(s, t, UnitColumns(o), body[0].required)
  }

  lemma ShapeTables(s: Shape, o: OwnStep)
    requires Regular(o)
    ensures StepShape(s, o).tables == StepTables(s.tables, o)
  {
    if o.step.Single? {
      if Applies(s, o) {
        EffectSteps(s, o.step.st);
      } else {
        RejectedKeepsTables(s, o.step.st);
      }
    }
  }

  lemma RejectedKeepsTables(s: Shape, st: Statement)
    requires EffectOn(s, st).Rejected?
    ensures Stepped(s.tables, st) == s.tables
  {
    match st {
      case AddColumn(t, c, _, _) =>
        if t in s.tables {
          assert s.tables[t] + {c} == s.tables[t];
        }
      case DropColumn(t, c) =>
        if t in s.tables {
          assert s.tables[t] - {c} == s.tables[t];
        }
      case _ =>
    }
  }

  // --------------------------------------------------------------------- the journal

  /** What the journal's own run of a step does to the tables. */
  predicate StepRuns(now: Columns, s: OwnStep, next: Columns)
    requires Regular(s)
  {
    match s.step
    case Single(st) => Runs(now, st) && next == Stepped(now, st)
    case Unit(t, _) => UnitFits(now, t, UnitColumns(s), OwnOf(s, t)) && next == now[t := UnitColumns(s)]
  }

  /** A fresh install runs every step; snaps[k] is its schema after k of them. A
      recreate drops no column but its entry's own. No recreated table's temporary
      name is another table's; what an entry drops was there. */
  ghost predicate InstallsSteps(steps: seq<OwnStep>, snaps: seq<Shape>) {
    && |snaps| == |steps| + 1 && snaps[0] == EMPTY
    && (forall s | s in steps :: Regular(s))
    && (forall k | 0 <= k < |steps| :: Applies(snaps[k], steps[k]) && snaps[k + 1] == StepShape(snaps[k], steps[k]))
    && (forall k, j | 0 <= k < |steps| && 0 <= j < |snaps| && steps[k].step.Unit? :: TempName(steps[k].step.table) !in snaps[j].tables)
    && (forall k | 0 <= k < |steps| && steps[k].step.Unit? :: OwnWasThere(snaps, k, steps[k].step.table, OwnOf(steps[k], steps[k].step.table)))
  }

  ghost predicate OwnWasThere(snaps: seq<Shape>, k: nat, t: string, own: set<string>)
    requires k < |snaps|
  {
    forall c | c in own :: exists i :: 0 <= i <= k && HasColumn(snaps[i], t, c)
  }

  /** Columns that ADD COLUMN gave a table and DROP COLUMN has not taken back, so
      far: only a recreate drops them. */
  function AddedSoFar(steps: seq<OwnStep>, k: nat): set<ColumnOf>
    requires k <= |steps|
  {
    if k == 0 then {}
    else
      var before := AddedSoFar(steps, k - 1);
      match steps[k - 1].step
      case Single(AddColumn(t, c, _, _)) => before + {(t, c)}
      case Single(DropColumn(t, c)) => before - {(t, c)}
      case _ => before
  }

  function AddedTo(added: set<ColumnOf>, t: string): set<string> {
    set q | q in added && q.0 == t :: q.1
  }

  // ------------------------------------------------- within the part it is past

  /** A table the database has keeps all its columns, and can have regained some
      that were added to it; any other table is as the journal has it. */
  ghost predicate Covers(start: Columns, now: Columns, added: set<ColumnOf>, tables: Columns) {
    && tables.Keys == start.Keys + now.Keys
    && (forall t | t in start :: start[t] <= tables[t] <= start[t] + AddedTo(added, t))
    && (forall t | t in now && t !in start :: tables[t] == now[t])
  }

  /** What a step drops, start has no more. */
  ghost predicate DropsNothingHeld(start: Columns, now: Columns, next: Columns) {
    && (forall t | t in now && t !in next :: t !in start)
    && (forall t, c | t in now && t in next && c in now[t] && c !in next[t] :: !(t in start && c in start[t]))
  }

  lemma CoverTable(start: Columns, now: Columns, added: set<ColumnOf>, tables: Columns, st: Statement)
    requires Covers(start, now, added, tables) && Runs(now, st) && Plain(st) && !st.AddColumn? && !st.DropColumn?
    requires DropsNothingHeld(start, now, Stepped(now, st))
    ensures Covers(start, Stepped(now, st), added, Stepped(tables, st))
  {
    hide AddedTo;
  }

  lemma AddedToOne(added: set<ColumnOf>, table: string, column: string, t: string)
    ensures AddedTo(added + {(table, column)}, t) == AddedTo(added, t) + if t == table then {column} else {}
    ensures AddedTo(added - {(table, column)}, t) == AddedTo(added, t) - if t == table then {column} else {}
  {
  }

  lemma CoverAdd(start: Columns, now: Columns, added: set<ColumnOf>, tables: Columns, st: Statement)
    requires Covers(start, now, added, tables) && Runs(now, st) && st.AddColumn?
    ensures Covers(start, Stepped(now, st), added + {(st.table, st.column)}, Stepped(tables, st))
  {
    forall t
      ensures AddedTo(added + {(st.table, st.column)}, t) == AddedTo(added, t) + if t == st.table then {st.column} else {}
    {
      AddedToOne(added, st.table, st.column, t);
    }
    hide AddedTo;
  }

  lemma CoverDrop(start: Columns, now: Columns, added: set<ColumnOf>, tables: Columns, st: Statement)
    requires Covers(start, now, added, tables) && Runs(now, st) && st.DropColumn?
    requires DropsNothingHeld(start, now, Stepped(now, st))
    ensures Covers(start, Stepped(now, st), added - {(st.table, st.column)}, Stepped(tables, st))
  {
    var next := Stepped(now, st);
    assert st.column in now[st.table] && st.column !in next[st.table];
    assert !(st.table in start && st.column in start[st.table]);
    forall t
      ensures AddedTo(added - {(st.table, st.column)}, t) == AddedTo(added, t) - if t == st.table then {st.column} else {}
    {
      AddedToOne(added, st.table, st.column, t);
    }
    hide AddedTo, DropsNothingHeld;
  }

  lemma CoverUnit(start: Columns, now: Columns, added: set<ColumnOf>, tables: Columns, t: string, cols: set<string>, own: set<string>)
    requires Covers(start, now, added, tables) && UnitFits(now, t, cols, own)
    requires TempName(t) !in tables && (t in start ==> own !! start[t] - cols)
    ensures Covers(start, now[t := cols], added, if UnitFits(tables, t, cols, own) then tables[t := cols] else tables)
  {
    hide AddedTo;
    if t in start && UnitFits(tables, t, cols, own) {
      forall c | c in start[t]
        ensures c in cols
      {
        assert c in start[t] - cols || c in cols;
      }
    }
  }

  lemma JournalStep(steps: seq<OwnStep>, snaps: seq<Shape>, k: nat)
    requires InstallsSteps(steps, snaps) && k < |steps|
    ensures Regular(steps[k]) && StepRuns(snaps[k].tables, steps[k], snaps[k + 1].tables)
    ensures steps[k].step.Unit? ==> OwnWasThere(snaps, k, steps[k].step.table, OwnOf(steps[k], steps[k].step.table))
  {
    assert steps[k] in steps;
    assert Applies(snaps[k], steps[k]) && snaps[k + 1] == StepShape(snaps[k], steps[k]);
    ShapeTables(snaps[k], steps[k]);
    hide InstallsSteps;
    if steps[k].step.Single? {
      ChangedRuns(snaps[k], steps[k].step.st);
    }
  }

  lemma ChangedRuns(s: Shape, st: Statement)
    requires EffectOn(s, st).Changed?
    ensures Runs(s.tables, st)
  {
  }

  lemma NoTemp(steps: seq<OwnStep>, snaps: seq<Shape>, k: nat, j: nat)
    requires InstallsSteps(steps, snaps) && k < |steps| && j < |snaps| && steps[k].step.Unit?
    ensures TempName(steps[k].step.table) !in snaps[j].tables
  {
  }

  lemma StepDropsNothingHeld(snaps: seq<Shape>, p: nat, k: nat)
    requires NoNameReturns(snaps) && k < p < |snaps|
    ensures DropsNothingHeld(snaps[p].tables, snaps[k].tables, snaps[k + 1].tables)
  {
    hide NoNameReturns;
    forall t | t in snaps[k].tables && t !in snaps[k + 1].tables
      ensures t !in snaps[p].tables
    {
      if t in snaps[p].tables {
        Stays(snaps, k, k + 1, p, TableName(t));
      }
    }
    forall t, c | t in snaps[k].tables && t in snaps[k + 1].tables && c in snaps[k].tables[t] && c !in snaps[k + 1].tables[t]
      ensures !(t in snaps[p].tables && c in snaps[p].tables[t])
    {
      if HasColumn(snaps[p], t, c) {
        Stays(snaps, k, k + 1, p, ColumnName(t, c));
      }
    }
  }

  /** A recreate within that part drops nothing the database has. */
  lemma OwnIsNotHeld(steps: seq<OwnStep>, snaps: seq<Shape>, p: nat, k: nat)
    requires InstallsSteps(steps, snaps) && NoNameReturns(snaps) && k < p < |snaps| && steps[k].step.Unit?
    ensures Regular(steps[k])
    ensures var t := steps[k].step.table;
            t in snaps[p].tables ==> OwnOf(steps[k], t) !! snaps[p].tables[t] - UnitColumns(steps[k])
  {
    JournalStep(steps, snaps, k);
    hide InstallsSteps, NoNameReturns;
    var t := steps[k].step.table;
    forall c | c in OwnOf(steps[k], t) && HasColumn(snaps[p], t, c)
      ensures c in UnitColumns(steps[k])
    {
      var i :| 0 <= i <= k && HasColumn(snaps[i], t, c);
      Stays(snaps, i, k + 1, p, ColumnName(t, c));
    }
  }

  function SteppedBy(steps: seq<OwnStep>, tables: Columns, k: nat): Columns
    requires k <= |steps| && forall s | s in steps :: Regular(s)
  {
    if k == 0 then tables else StepTables(SteppedBy(steps, tables, k - 1), steps[k - 1])
  }

  lemma CoverStep(steps: seq<OwnStep>, snaps: seq<Shape>, p: nat, k: nat, tables: Columns)
    requires InstallsSteps(steps, snaps) && NoNameReturns(snaps) && k < p < |snaps|
    requires Covers(snaps[p].tables, snaps[k].tables, AddedSoFar(steps, k), tables)
    ensures Regular(steps[k])
    ensures Covers(snaps[p].tables, snaps[k + 1].tables, AddedSoFar(steps, k + 1), StepTables(tables, steps[k]))
  {
    JournalStep(steps, snaps, k);
    StepDropsNothingHeld(snaps, p, k);
    var start, now, added := snaps[p].tables, snaps[k].tables, AddedSoFar(steps, k);
    match steps[k].step {
      case Single(st) =>
        hide InstallsSteps, NoNameReturns, Covers, DropsNothingHeld, Stepped, Runs;
        if st.AddColumn? {
          CoverAdd(start, now, added, tables, st);
        } else if st.DropColumn? {
          CoverDrop(start, now, added, tables, st);
        } else {
          CoverTable(start, now, added, tables, st);
        }
      case Unit(t, _) =>
        OwnIsNotHeld(steps, snaps, p, k);
        NoTemp(steps, snaps, k, p);
        NoTemp(steps, snaps, k, k);
        hide InstallsSteps, NoNameReturns, Covers, DropsNothingHeld;
        CoverUnit(start, now, added, tables, t, UnitColumns(steps[k]), OwnOf(steps[k], t));
    }
  }

  lemma NothingCovered(steps: seq<OwnStep>, snaps: seq<Shape>, p: nat)
    requires InstallsSteps(steps, snaps) && p < |snaps|
    ensures |snaps| == |steps| + 1 && (forall s | s in steps :: Regular(s))
    ensures Covers(snaps[p].tables, snaps[0].tables, AddedSoFar(steps, 0), snaps[p].tables)
  {
    assert AddedTo({}, "") == {};
  }

  lemma {:induction false} PrefixCovers(steps: seq<OwnStep>, snaps: seq<Shape>, p: nat, k: nat)
    requires InstallsSteps(steps, snaps) && NoNameReturns(snaps) && k <= p < |snaps|
    ensures Covers(snaps[p].tables, snaps[k].tables, AddedSoFar(steps, k), SteppedBy(steps, snaps[p].tables, k))
  {
    hide InstallsSteps, NoNameReturns, Covers, StepTables, AddedSoFar, Regular;
    NothingCovered(steps, snaps, p);
    if k > 0 {
      PrefixCovers(steps, snaps, p, k - 1);
      CoverStep(steps, snaps, p, k - 1, SteppedBy(steps, snaps[p].tables, k - 1));
    }
  }

  // -------------------------------------------------------------- past that part

  /** A column of the table was added, is gone, and only a recreate dropped it. */
  ghost predicate Regains(start: Columns, added: set<ColumnOf>, t: string) {
    t in start && !(AddedTo(added, t) <= start[t])
  }

  function Pairs(tables: Columns): set<ColumnOf> {
    set t, c | t in tables && c in tables[t] :: (t, c)
  }

  /** The columns of the snapshots from p to k. */
  function HadFrom(snaps: seq<Shape>, p: nat, k: nat): set<ColumnOf>
    requires p <= k < |snaps|
    decreases k
  {
    Pairs(snaps[k].tables) + if k == p then {} else HadFrom(snaps, p, k - 1)
  }

  /** The journal's tables; one that regained a column can have more than the
      journal's, but nothing it has not had since or regained. */
  ghost predicate Exceeds(start: Columns, now: Columns, added: set<ColumnOf>, had: set<ColumnOf>, tables: Columns) {
    && tables.Keys == now.Keys
    && (forall t | t in now && !Regains(start, added, t) :: tables[t] == now[t])
    && (forall t | t in now :: now[t] <= tables[t])
    && (forall t, c | t in now && c in tables[t] :: (t, c) in added || (t, c) in had)
  }

  /** No table is made again. */
  ghost predicate MakesNoneAgain(start: Columns, now: Columns, next: Columns) {
    forall t | t in next && t !in now :: t !in start
  }

  lemma ExceedSingle(start: Columns, now: Columns, added: set<ColumnOf>, had: set<ColumnOf>, tables: Columns, st: Statement)
    requires Exceeds(start, now, added, had, tables) && Runs(now, st) && Plain(st)
    requires MakesNoneAgain(start, now, Stepped(now, st))
    ensures Exceeds(start, Stepped(now, st), added, had + Pairs(Stepped(now, st)), Stepped(tables, st))
  {
    var next, after := Stepped(now, st), Stepped(tables, st);
    assert forall t, c | t in next && c in next[t] :: (t, c) in Pairs(next);
    hide Pairs, AddedTo;
  }

  lemma ExceedUnit(start: Columns, now: Columns, added: set<ColumnOf>, had: set<ColumnOf>, tables: Columns, t: string, cols: set<string>, own: set<string>)
    requires Exceeds(start, now, added, had, tables) && UnitFits(now, t, cols, own)
    ensures Exceeds(start, now[t := cols], added, had + Pairs(now[t := cols]), if UnitFits(tables, t, cols, own) then tables[t := cols] else tables)
  {
    var next := now[t := cols];
    assert forall u, c | u in next && c in next[u] :: (u, c) in Pairs(next);
    hide Pairs, Regains;
    if !Regains(start, added, t) {
      assert tables[t] == now[t];
    }
  }

  lemma MadeOnce(snaps: seq<Shape>, p: nat, k: nat)
    requires NoNameReturns(snaps) && p <= k < |snaps| - 1
    ensures MakesNoneAgain(snaps[p].tables, snaps[k].tables, snaps[k + 1].tables)
  {
    hide NoNameReturns;
    forall t | t in snaps[k + 1].tables && t !in snaps[k].tables
      ensures t !in snaps[p].tables
    {
      if t in snaps[p].tables {
        Stays(snaps, p, k, k + 1, TableName(t));
      }
    }
  }

  lemma ExceedStep(steps: seq<OwnStep>, snaps: seq<Shape>, p: nat, k: nat, added: set<ColumnOf>, tables: Columns)
    requires InstallsSteps(steps, snaps) && NoNameReturns(snaps) && |snaps| == |steps| + 1 && p <= k < |steps|
    requires Exceeds(snaps[p].tables, snaps[k].tables, added, HadFrom(snaps, p, k), tables)
    ensures Regular(steps[k])
    ensures Exceeds(snaps[p].tables, snaps[k + 1].tables, added, HadFrom(snaps, p, k + 1), StepTables(tables, steps[k]))
  {
    JournalStep(steps, snaps, k);
    MadeOnce(snaps, p, k);
    var start, now, had := snaps[p].tables, snaps[k].tables, HadFrom(snaps, p, k);
    assert HadFrom(snaps, p, k + 1) == had + Pairs(snaps[k + 1].tables);
    match steps[k].step {
      case Single(st) =>
        hide InstallsSteps, NoNameReturns, Exceeds, MakesNoneAgain, Stepped, Runs, HadFrom, Pairs;
        ExceedSingle(start, now, added, had, tables, st);
      case Unit(t, _) =>
        hide InstallsSteps, NoNameReturns, Exceeds, MakesNoneAgain, HadFrom, Pairs;
        ExceedUnit(start, now, added, had, tables, t, UnitColumns(steps[k]), OwnOf(steps[k], t));
    }
  }

  lemma ExceedsNothingYet(start: Columns, added: set<ColumnOf>, tables: Columns)
    requires Covers(start, start, added, tables)
    ensures Exceeds(start, start, added, Pairs(start), tables)
  {
    assert forall t, c | t in start && c in start[t] :: (t, c) in Pairs(start);
    forall t, c | t in start && c in tables[t] && c !in start[t]
      ensures (t, c) in added
    {
      var q :| q in added && q.0 == t && q.1 == c;
      assert q == (t, c);
    }
    forall t | t in start && !Regains(start, added, t)
      ensures tables[t] == start[t]
    {
      assert start[t] <= tables[t] <= start[t] + AddedTo(added, t);
    }
    hide Pairs, AddedTo, Regains;
  }

  lemma {:induction false} TailExceeds(steps: seq<OwnStep>, snaps: seq<Shape>, p: nat, k: nat)
    requires InstallsSteps(steps, snaps) && NoNameReturns(snaps) && |snaps| == |steps| + 1 && p <= k <= |steps|
    ensures Exceeds(snaps[p].tables, snaps[k].tables, AddedSoFar(steps, p), HadFrom(snaps, p, k), SteppedBy(steps, snaps[p].tables, k))
    decreases k
  {
    hide InstallsSteps, NoNameReturns, Covers, Exceeds, StepTables, AddedSoFar, Regular, Pairs, HadFrom;
    NothingCovered(steps, snaps, p);
    if k == p {
      PrefixCovers(steps, snaps, p, p);
      HadFirst(snaps, p);
      ExceedsNothingYet(snaps[p].tables, AddedSoFar(steps, p), SteppedBy(steps, snaps[p].tables, p));
    } else {
      TailExceeds(steps, snaps, p, k - 1);
      ExceedStep(steps, snaps, p, k - 1, AddedSoFar(steps, p), SteppedBy(steps, snaps[p].tables, k - 1));
    }
  }

  lemma HadFirst(snaps: seq<Shape>, p: nat)
    requires p < |snaps|
    ensures HadFrom(snaps, p, p) == Pairs(snaps[p].tables)
  {
  }

  /** The tables of any step of a journal of plain statements and recreates, after
      its replay from the start: the last snapshot's, each with all of its columns
      and, if it regains none, exactly those. Any other column is one regained, or
      one the table had from there on that a recreate did not drop again. */
  lemma SqliteTablesConverge(steps: seq<OwnStep>, snaps: seq<Shape>, p: nat)
    requires InstallsSteps(steps, snaps) && NoNameReturns(snaps) && |snaps| == |steps| + 1 && p <= |steps|
    ensures var tables, last, added := SteppedBy(steps, snaps[p].tables, |steps|), snaps[|steps|].tables, AddedSoFar(steps, p);
            && tables.Keys == last.Keys && (forall t | t in last :: last[t] <= tables[t])
            && (forall t | t in last && !Regains(snaps[p].tables, added, t) :: tables[t] == last[t])
            && ((forall t :: !Regains(snaps[p].tables, added, t)) ==> tables == last)
            && forall t, c | t in last && c in tables[t] && c !in last[t] ::
                 (t, c) in added || (t, c) in HadFrom(snaps, p, |steps|)
  {
    TailExceeds(steps, snaps, p, |steps|);
    hide InstallsSteps, NoNameReturns, SteppedBy, HadFrom, AddedSoFar, Regains;
  }
}
