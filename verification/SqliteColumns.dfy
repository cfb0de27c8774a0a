/** Exactly which columns a SQLite replay ends with in a table, and so exactly when
    a dropped column comes back, on a journal where each recreate drops what is
    there. */
module SqliteColumns {
  import opened Schema
  import opened Replay
  import opened Recreate
  import opened SqliteTables

  function ColumnsAt(tables: Columns, t: string): set<string> {
    if t in tables then tables[t] else {}
  }

  ghost predicate Fitting(steps: seq<OwnStep>, snaps: seq<Shape>, p: nat) {
    |snaps| == |steps| + 1 && p <= |steps| && forall s | s in steps :: Regular(s)
  }

  /** What an entry drops from a table is in the table at that entry's recreate. */
  ghost predicate OwnIsThere(steps: seq<OwnStep>, snaps: seq<Shape>) {
    forall k | 0 <= k < |steps| && k < |snaps| && steps[k].step.Unit? ::
      OwnOf(steps[k], steps[k].step.table) <= ColumnsAt(snaps[k].tables, steps[k].step.table)
  }

  ghost predicate Journal(steps: seq<OwnStep>, snaps: seq<Shape>, p: nat) {
    Fitting(steps, snaps, p) && InstallsSteps(steps, snaps) && NoNameReturns(snaps) && OwnIsThere(steps, snaps)
  }

  function AddedIn(steps: seq<OwnStep>, k: nat, t: string): set<string>
    requires k <= |steps|
  {
    AddedTo(AddedSoFar(steps, k), t)
  }

  /** Columns of the table that recreate k drops and that the database had, or
      that ADD COLUMN gave the table before. */
  ghost function DroppedAt(steps: seq<OwnStep>, snaps: seq<Shape>, p: nat, k: nat, t: string): set<string>
    requires Fitting(steps, snaps, p) && k < |steps| && steps[k].step.Unit?
  {
    (ColumnsAt(snaps[k].tables, t) - UnitColumns(steps[k])) * (ColumnsAt(snaps[p].tables, t) + AddedIn(steps, k, t))
  }

  ghost predicate Recreates(steps: seq<OwnStep>, k: nat, t: string)
    requires k < |steps|
  {
    steps[k].step.Unit? && steps[k].step.table == t
  }

  /** Recreate d of a table the database is past drops an added column, and does not
      fit the table as the database has it with what was added. */
  ghost predicate Blocks(steps: seq<OwnStep>, snaps: seq<Shape>, p: nat, d: nat, t: string)
    requires Fitting(steps, snaps, p) && d < |steps|
  {
    && d < p && Recreates(steps, d, t) && t in snaps[p].tables
    && DroppedAt(steps, snaps, p, d, t) != {}
    && !(ColumnsAt(snaps[p].tables, t) <= UnitColumns(steps[d]) <= ColumnsAt(snaps[p].tables, t) + AddedIn(steps, d, t))
  }

  /** The dropped columns that the replay of k steps has brought back. */
  ghost function Back(steps: seq<OwnStep>, snaps: seq<Shape>, p: nat, k: nat, t: string): set<string>
    requires Fitting(steps, snaps, p) && k <= |steps|
  {
    if k == 0 then {}
    else
      var before := Back(steps, snaps, p, k - 1, t);
      if Recreates(steps, k - 1, t) && (before != {} || Blocks(steps, snaps, p, k - 1, t))
      then before + DroppedAt(steps, snaps, p, k - 1, t) else before
  }

  // ------------------------------------------------------------------- one table

  /** The columns of a table after a step that neither makes nor drops it. */
  function ColumnsStep(cols: set<string>, o: OwnStep, t: string): set<string>
    requires Regular(o)
  {
    match o.step
    case Single(AddColumn(u, c, _, _)) => if u == t then cols + {c} else cols
    case Single(DropColumn(u, c)) => if u == t then cols - {c} else cols
    case Single(_) => cols
    case Unit(u, _) => if u == t && UnitColumns(o) <= cols <= UnitColumns(o) + OwnOf(o, u) then UnitColumns(o) else cols
  }

  lemma TableSteps(tables: Columns, o: OwnStep, t: string)
    requires Regular(o) && t in tables && t in StepTables(tables, o)
    requires o.step.Unit? ==> TempName(o.step.table) !in tables
    ensures StepTables(tables, o)[t] == ColumnsStep(tables[t], o, t)
  {
  }

  function AddedStep(added: set<string>, o: OwnStep, t: string): set<string> {
    match o.step
    case Single(AddColumn(u, c, _, _)) => if u == t then added + {c} else added
    case Single(DropColumn(u, c)) => if u == t then added - {c} else added
    case _ => added
  }

  lemma AddedNext(steps: seq<OwnStep>, k: nat, t: string)
    requires k < |steps|
    ensures AddedIn(steps, k + 1, t) == AddedStep(AddedIn(steps, k, t), steps[k], t)
  {
    match steps[k].step {
      case Single(AddColumn(u, c, _, _)) => AddedToOne(AddedSoFar(steps, k), u, c, t);
      case Single(DropColumn(u, c)) => AddedToOne(AddedSoFar(steps, k), u, c, t);
      case _ =>
    }
  }

  /** One step of the replay on one table: start, what the journal added and has, what
      has come back. */
  lemma RecreateInPrefix(start: set<string>, added: set<string>, now: set<string>, back: set<string>, cols: set<string>, own: set<string>)
    requires cols <= now <= cols + own && own <= now && start !! own - cols && back !! now
    ensures var tables := start + added * now + back;
            var dropped := (now - cols) * (start + added);
            var blocks := dropped != {} && !(start <= cols <= start + added);
            (if cols <= tables <= cols + own then cols else tables)
            == start + added * cols + if back != {} || blocks then back + dropped else back
  {
    var tables := start + added * now + back;
    var dropped := (now - cols) * (start + added);
    assert dropped == added * (now - cols);
    assert added * now == added * cols + dropped;
    if e :| e in back {
      assert e in tables && e !in cols + own;
    } else if dropped != {} {
      assert cols <= tables <= cols + own <==> start <= cols <= start + added;
    }
  }

  lemma RecreateInTail(known: set<string>, now: set<string>, back: set<string>, cols: set<string>, own: set<string>)
    requires cols <= now <= cols + own && own <= now && now <= known && back !! now
    ensures var dropped := (now - cols) * known;
            (if cols <= now + back <= cols + own then cols else now + back)
            == cols + if back != {} then back + dropped else back
  {
    if e :| e in back {
      assert e in now + back && e !in cols + own;
    }
  }

  // ------------------------------------------------------------- along the journal

  lemma JournalTable(steps: seq<OwnStep>, snaps: seq<Shape>, p: nat, k: nat, t: string)
    requires Journal(steps, snaps, p) && k < |steps| && t in snaps[k].tables && t in snaps[k + 1].tables
    ensures Regular(steps[k]) && snaps[k + 1].tables[t] == ColumnsStep(snaps[k].tables[t], steps[k], t)
    ensures Recreates(steps, k, t) ==>
              var cols, own := UnitColumns(steps[k]), OwnOf(steps[k], t);
              cols <= snaps[k].tables[t] <= cols + own && own <= snaps[k].tables[t] && snaps[k + 1].tables[t] == cols
  {
    JournalStep(steps, snaps, k);
    if steps[k].step.Unit? {
      NoTemp(steps, snaps, k, k);
    }
    hide InstallsSteps, NoNameReturns, Fitting;
    if steps[k].step.Single? {
      TableSteps(snaps[k].tables, steps[k], t);
    }
  }

  /** What has come back is gone from the journal. */
  lemma {:induction false} BackIsGone(steps: seq<OwnStep>, snaps: seq<Shape>, p: nat, k: nat, t: string, c: string)
    requires Journal(steps, snaps, p) && k <= |steps| && c in Back(steps, snaps, p, k, t)
    ensures forall j | k <= j < |snaps| :: c !in ColumnsAt(snaps[j].tables, t)
  {
    hide InstallsSteps, NoNameReturns, OwnIsThere, Blocks, AddedIn;
    if c in Back(steps, snaps, p, k - 1, t) {
      BackIsGone(steps, snaps, p, k - 1, t, c);
    } else {
      JournalStep(steps, snaps, k - 1);
      assert HasColumn(snaps[k - 1], t, c) && !HasColumn(snaps[k], t, c);
      forall j | k <= j < |snaps|
        ensures !HasColumn(snaps[j], t, c)
      {
        if HasColumn(snaps[j], t, c) {
          Stays(snaps, k - 1, k, j, ColumnName(t, c));
        }
      }
    }
  }

  lemma {:induction false} AddedOnlyOnce(steps: seq<OwnStep>, snaps: seq<Shape>, p: nat, k: nat, t: string)
    requires Journal(steps, snaps, p) && k <= p && t in snaps[p].tables && AddedIn(steps, k, t) != {}
    ensures t in snaps[k].tables
  {
    hide InstallsSteps, NoNameReturns, OwnIsThere, AddedIn;
    NothingAddedYet(steps, t);
    AddedNext(steps, k - 1, t);
    JournalStep(steps, snaps, k - 1);
    if t in snaps[k - 1].tables {
      Stays(snaps, k - 1, k, p, TableName(t));
    } else if AddedIn(steps, k - 1, t) != {} {
      AddedOnlyOnce(steps, snaps, p, k - 1, t);
    }
  }

  lemma NothingAddedYet(steps: seq<OwnStep>, t: string)
    ensures AddedIn(steps, 0, t) == {}
  {
  }

  /** The columns of a table the database has and the last snapshot keeps. */
  ghost predicate ColumnsAre(steps: seq<OwnStep>, snaps: seq<Shape>, p: nat, k: nat, t: string, tables: Columns)
    requires Fitting(steps, snaps, p) && k <= |steps|
  {
    && t in tables
    && tables[t] == Back(steps, snaps, p, k, t)
       + if k <= p then ColumnsAt(snaps[p].tables, t) + AddedIn(steps, k, t) * ColumnsAt(snaps[k].tables, t)
         else ColumnsAt(snaps[k].tables, t)
  }

  lemma BackIsApart(steps: seq<OwnStep>, snaps: seq<Shape>, p: nat, k: nat, t: string)
    requires Journal(steps, snaps, p) && k <= |steps|
    ensures Back(steps, snaps, p, k, t) !! ColumnsAt(snaps[k].tables, t)
  {
    hide InstallsSteps, NoNameReturns, OwnIsThere, Back, ColumnsAt;
    forall c | c in Back(steps, snaps, p, k, t)
      ensures c !in ColumnsAt(snaps[k].tables, t)
    {
      BackIsGone(steps, snaps, p, k, t, c);
    }
  }

  lemma BackNext(steps: seq<OwnStep>, snaps: seq<Shape>, p: nat, k: nat, t: string)
    requires Fitting(steps, snaps, p) && k < |steps|
    ensures !Recreates(steps, k, t) ==> Back(steps, snaps, p, k + 1, t) == Back(steps, snaps, p, k, t)
    ensures Recreates(steps, k, t) ==>
              var back := Back(steps, snaps, p, k, t);
              Back(steps, snaps, p, k + 1, t)
              == if back != {} || Blocks(steps, snaps, p, k, t) then back + DroppedAt(steps, snaps, p, k, t) else back
  {
    hide Recreates, Blocks, DroppedAt;
  }

  /** What the algebra of one recreate within the part needs. */
  lemma RecreateFacts(steps: seq<OwnStep>, snaps: seq<Shape>, p: nat, k: nat, t: string)
    requires Journal(steps, snaps, p) && k < p && t in snaps[p].tables && Recreates(steps, k, t)
    ensures Regular(steps[k])
    ensures var cols, own, now := UnitColumns(steps[k]), OwnOf(steps[k], t), ColumnsAt(snaps[k].tables, t);
            && cols <= now <= cols + own && own <= now && ColumnsAt(snaps[k + 1].tables, t) == cols
            && ColumnsAt(snaps[p].tables, t) !! own - cols
  {
    JournalStep(steps, snaps, k);
    OwnIsNotHeld(steps, snaps, p, k);
    hide InstallsSteps, NoNameReturns;
  }

  lemma RecreatePrefixStep(steps: seq<OwnStep>, snaps: seq<Shape>, p: nat, k: nat, t: string, tables: Columns)
    requires Journal(steps, snaps, p) && k < p && t in snaps[p].tables && Recreates(steps, k, t)
    requires ColumnsAre(steps, snaps, p, k, t, tables) && TempName(t) !in tables
    ensures Regular(steps[k]) && ColumnsAre(steps, snaps, p, k + 1, t, StepTables(tables, steps[k]))
  {
    RecreateFacts(steps, snaps, p, k, t);
    BackIsApart(steps, snaps, p, k, t);
    BackNext(steps, snaps, p, k, t);
    AddedNext(steps, k, t);
    TableSteps(tables, steps[k], t);
    var start, added, now := ColumnsAt(snaps[p].tables, t), AddedIn(steps, k, t), ColumnsAt(snaps[k].tables, t);
    RecreateInPrefix(start, added, now, Back(steps, snaps, p, k, t), UnitColumns(steps[k]), OwnOf(steps[k], t));
    hide Journal, AddedIn, Back, UnitColumns, OwnOf, ColumnsAt;
  }

  /** What any other step does to the table within that part. */
  lemma OtherFacts(steps: seq<OwnStep>, snaps: seq<Shape>, p: nat, k: nat, t: string)
    requires Journal(steps, snaps, p) && k < p && t in snaps[p].tables && !Recreates(steps, k, t)
    ensures Regular(steps[k]) && steps[k].step != Single(DropTable(t))
    ensures var o, now, next := steps[k], ColumnsAt(snaps[k].tables, t), ColumnsAt(snaps[k + 1].tables, t);
            && (AddedIn(steps, k, t) == {} || next == ColumnsStep(now, o, t))
            && (AddedIn(steps, k, t) == {} || t in snaps[k].tables)
            && (o.step.Single? && o.step.st.AddColumn? && o.step.st.table == t ==> next == now + {o.step.st.column})
            && (o.step.Single? && o.step.st.DropColumn? && o.step.st.table == t ==>
                  && next == now - {o.step.st.column} && o.step.st.column in now
                  && o.step.st.column !in ColumnsAt(snaps[p].tables, t))
  {
    JournalStep(steps, snaps, k);
    StepDropsNothingHeld(snaps, p, k);
    if AddedIn(steps, k, t) != {} {
      AddedOnlyOnce(steps, snaps, p, k, t);
    }
    hide InstallsSteps, NoNameReturns, AddedIn, OwnIsThere;
  }

  lemma OtherPrefixStep(steps: seq<OwnStep>, snaps: seq<Shape>, p: nat, k: nat, t: string, tables: Columns)
    requires Journal(steps, snaps, p) && k < p && t in snaps[p].tables && !Recreates(steps, k, t)
    requires ColumnsAre(steps, snaps, p, k, t, tables) && (steps[k].step.Unit? ==> TempName(steps[k].step.table) !in tables)
    ensures Regular(steps[k]) && ColumnsAre(steps, snaps, p, k + 1, t, StepTables(tables, steps[k]))
  {
    OtherFacts(steps, snaps, p, k, t);
    BackIsApart(steps, snaps, p, k, t);
    BackNext(steps, snaps, p, k, t);
    AddedNext(steps, k, t);
    assert t in StepTables(tables, steps[k]);
    TableSteps(tables, steps[k], t);
    hide Journal, AddedIn, Back, ColumnsAt, StepTables;
  }

  // ------------------------------------------------------------------ past that part

  /** Past that part a column of the table was held or added. */
  lemma {:induction false} HeldOrAdded(steps: seq<OwnStep>, snaps: seq<Shape>, p: nat, k: nat, t: string)
    requires Journal(steps, snaps, p) && p <= k <= |steps| && t in snaps[p].tables && t in snaps[k].tables
    ensures ColumnsAt(snaps[k].tables, t) <= ColumnsAt(snaps[p].tables, t) + AddedIn(steps, k, t)
    decreases k
  {
    hide InstallsSteps, NoNameReturns, AddedIn, OwnIsThere;
    if k > p {
      Stays(snaps, p, k - 1, k, TableName(t));
      HeldOrAdded(steps, snaps, p, k - 1, t);
      JournalTable(steps, snaps, p, k - 1, t);
      AddedNext(steps, k - 1, t);
    }
  }

  lemma RecreateTailStep(steps: seq<OwnStep>, snaps: seq<Shape>, p: nat, k: nat, t: string, tables: Columns)
    requires Journal(steps, snaps, p) && p <= k < |steps| && Recreates(steps, k, t)
    requires t in snaps[p].tables && t in snaps[k].tables && t in snaps[k + 1].tables
    requires ColumnsAre(steps, snaps, p, k, t, tables) && TempName(t) !in tables
    ensures Regular(steps[k]) && ColumnsAre(steps, snaps, p, k + 1, t, StepTables(tables, steps[k]))
  {
    JournalTable(steps, snaps, p, k, t);
    HeldOrAdded(steps, snaps, p, k, t);
    BackIsApart(steps, snaps, p, k, t);
    BackNext(steps, snaps, p, k, t);
    TableSteps(tables, steps[k], t);
    TailIsNow(steps, snaps, p, k, t, tables);
    var known := ColumnsAt(snaps[p].tables, t) + AddedIn(steps, k, t);
    RecreateInTail(known, ColumnsAt(snaps[k].tables, t), Back(steps, snaps, p, k, t), UnitColumns(steps[k]), OwnOf(steps[k], t));
    hide Journal, AddedIn, Back, UnitColumns, OwnOf;
  }

  lemma TailIsNow(steps: seq<OwnStep>, snaps: seq<Shape>, p: nat, k: nat, t: string, tables: Columns)
    requires Fitting(steps, snaps, p) && p <= k <= |steps| && ColumnsAre(steps, snaps, p, k, t, tables)
    ensures t in tables && tables[t] == Back(steps, snaps, p, k, t) + ColumnsAt(snaps[k].tables, t)
  {
    hide AddedIn, Back;
  }

  lemma OtherTailStep(steps: seq<OwnStep>, snaps: seq<Shape>, p: nat, k: nat, t: string, tables: Columns)
    requires Journal(steps, snaps, p) && p <= k < |steps| && !Recreates(steps, k, t)
    requires t in snaps[p].tables && t in snaps[k].tables && t in snaps[k + 1].tables
    requires ColumnsAre(steps, snaps, p, k, t, tables) && (steps[k].step.Unit? ==> TempName(steps[k].step.table) !in tables)
    ensures Regular(steps[k]) && ColumnsAre(steps, snaps, p, k + 1, t, StepTables(tables, steps[k]))
  {
    JournalTable(steps, snaps, p, k, t);
    JournalStep(steps, snaps, k);
    BackIsApart(steps, snaps, p, k, t);
    BackNext(steps, snaps, p, k, t);
    TailIsNow(steps, snaps, p, k, t, tables);
    assert t in StepTables(tables, steps[k]);
    TableSteps(tables, steps[k], t);
    hide Journal, AddedIn, Back, StepTables;
  }

  // ------------------------------------------------------------------- the theorem

  lemma NoTempHere(steps: seq<OwnStep>, snaps: seq<Shape>, p: nat, k: nat)
    requires Journal(steps, snaps, p) && k < |steps| && steps[k].step.Unit?
    ensures TempName(steps[k].step.table) !in SteppedBy(steps, snaps[p].tables, k)
  {
    NoTemp(steps, snaps, k, p);
    NoTemp(steps, snaps, k, k);
    hide InstallsSteps, NoNameReturns, SteppedBy, OwnIsThere;
    if k <= p {
      PrefixCovers(steps, snaps, p, k);
    } else {
      TailExceeds(steps, snaps, p, k);
    }
  }

  lemma ColumnsAtFirst(steps: seq<OwnStep>, snaps: seq<Shape>, p: nat, t: string)
    requires Fitting(steps, snaps, p) && t in snaps[p].tables
    ensures ColumnsAre(steps, snaps, p, 0, t, snaps[p].tables)
  {
    NothingAddedYet(steps, t);
  }

  lemma {:induction false} TableColumns(steps: seq<OwnStep>, snaps: seq<Shape>, p: nat, k: nat, t: string)
    requires Journal(steps, snaps, p) && k <= |steps| && t in snaps[p].tables && t in snaps[|steps|].tables
    ensures ColumnsAre(steps, snaps, p, k, t, SteppedBy(steps, snaps[p].tables, k))
    decreases k
  {
    hide InstallsSteps, NoNameReturns, OwnIsThere, ColumnsAre, StepTables;
    if k == 0 {
      ColumnsAtFirst(steps, snaps, p, t);
    } else {
      var l, tables := k - 1, SteppedBy(steps, snaps[p].tables, k - 1);
      TableColumns(steps, snaps, p, l, t);
      if steps[l].step.Unit? {
        NoTempHere(steps, snaps, p, l);
      }
      if l >= p {
        Stays(snaps, p, l, |steps|, TableName(t));
        Stays(snaps, p, k, |steps|, TableName(t));
      }
      if Recreates(steps, l, t) {
        if l < p {
          RecreatePrefixStep(steps, snaps, p, l, t, tables);
        } else {
          RecreateTailStep(steps, snaps, p, l, t, tables);
        }
      } else if l < p {
        OtherPrefixStep(steps, snaps, p, l, t, tables);
      } else {
        OtherTailStep(steps, snaps, p, l, t, tables);
      }
    }
  }

  /** Recreate j drops the column again, after recreate d has blocked. */
  ghost predicate ComesBack(steps: seq<OwnStep>, snaps: seq<Shape>, p: nat, d: nat, j: nat, t: string, c: string)
    requires Fitting(steps, snaps, p) && d <= j < |steps|
  {
    Blocks(steps, snaps, p, d, t) && Recreates(steps, j, t) && c in DroppedAt(steps, snaps, p, j, t)
  }

  /** Something has come back if and only if a recreate has blocked, and what has
      come back is what that recreate and those after it drop. */
  lemma {:induction false} BackIs(steps: seq<OwnStep>, snaps: seq<Shape>, p: nat, k: nat, t: string)
    requires Fitting(steps, snaps, p) && k <= |steps|
    ensures Back(steps, snaps, p, k, t) != {} <==> exists d :: 0 <= d < k && Blocks(steps, snaps, p, d, t)
    ensures forall c :: c in Back(steps, snaps, p, k, t) <==> exists d, j :: 0 <= d <= j < k && ComesBack(steps, snaps, p, d, j, t, c)
  {
    hide DroppedAt, Recreates;
    if k > 0 {
      var l := k - 1;
      BackIs(steps, snaps, p, l, t);
      BackNext(steps, snaps, p, l, t);
      BlockDrops(steps, snaps, p, l, t);
      hide Back, Blocks;
      forall c
        ensures c in Back(steps, snaps, p, k, t) <==> exists d, j :: 0 <= d <= j < k && ComesBack(steps, snaps, p, d, j, t, c)
      {
        if c in Back(steps, snaps, p, l, t) {
          var d, j :| 0 <= d <= j < l && ComesBack(steps, snaps, p, d, j, t, c);
          assert j < k;
        } else if c in Back(steps, snaps, p, k, t) {
          var d :| 0 <= d < k && Blocks(steps, snaps, p, d, t);
          assert ComesBack(steps, snaps, p, d, l, t, c);
        }
      }
    }
  }

  lemma BlockDrops(steps: seq<OwnStep>, snaps: seq<Shape>, p: nat, d: nat, t: string)
    requires Fitting(steps, snaps, p) && d < |steps|
    ensures Blocks(steps, snaps, p, d, t) ==> Recreates(steps, d, t) && t in snaps[p].tables && DroppedAt(steps, snaps, p, d, t) != {}
  {
    hide DroppedAt;
  }

  lemma OneTable(steps: seq<OwnStep>, snaps: seq<Shape>, p: nat, t: string)
    requires Journal(steps, snaps, p) && t in snaps[|steps|].tables
    ensures var tables, back := SteppedBy(steps, snaps[p].tables, |steps|), Back(steps, snaps, p, |steps|, t);
            t in tables && tables[t] == snaps[|steps|].tables[t] + back && back !! snaps[|steps|].tables[t]
  {
    hide InstallsSteps, NoNameReturns, OwnIsThere, SteppedBy, Back, Regains, AddedSoFar, HadFrom;
    BackIsApart(steps, snaps, p, |steps|, t);
    if t in snaps[p].tables {
      TableColumns(steps, snaps, p, |steps|, t);
      TailIsNow(steps, snaps, p, |steps|, t, SteppedBy(steps, snaps[p].tables, |steps|));
    } else {
      SqliteTablesConverge(steps, snaps, p);
      NotRegained(snaps[p].tables, AddedSoFar(steps, p), t);
      NeverBlocks(steps, snaps, p, t);
      BackIs(steps, snaps, p, |steps|, t);
    }
  }

  lemma NotRegained(start: Columns, added: set<ColumnOf>, t: string)
    requires t !in start
    ensures !Regains(start, added, t)
  {
  }

  lemma NeverBlocks(steps: seq<OwnStep>, snaps: seq<Shape>, p: nat, t: string)
    requires Fitting(steps, snaps, p) && t !in snaps[p].tables
    ensures forall d | 0 <= d < |steps| :: !Blocks(steps, snaps, p, d, t)
  {
    hide DroppedAt;
  }

  /** The tables of any step of a journal of plain statements and recreates, after
      its replay from the start. Each of the last snapshot's tables has its columns
      there and, besides, exactly those that came back; nothing comes back, and the
      tables are exactly the last snapshot's, if and only if no recreate the database
      is past, of a table that is still there at the end, blocks. */
  lemma SqliteColumnsExactly(steps: seq<OwnStep>, snaps: seq<Shape>, p: nat)
    requires Journal(steps, snaps, p)
    ensures var tables, last := SteppedBy(steps, snaps[p].tables, |steps|), snaps[|steps|].tables;
            && tables.Keys == last.Keys
            && (forall t | t in last ::
                  && tables[t] == last[t] + Back(steps, snaps, p, |steps|, t)
                  && Back(steps, snaps, p, |steps|, t) !! last[t]
                  && (tables[t] == last[t] <==> forall d | 0 <= d < p :: !Blocks(steps, snaps, p, d, t)))
            && (tables == last <==> forall d, t | 0 <= d < p && t in last :: !Blocks(steps, snaps, p, d, t))
  {
    hide InstallsSteps, NoNameReturns, OwnIsThere, SteppedBy, Back, Regains, AddedSoFar, HadFrom, Recreates, DroppedAt;
    SqliteTablesConverge(steps, snaps, p);
    var tables, last := SteppedBy(steps, snaps[p].tables, |steps|), snaps[|steps|].tables;
    forall t | t in last
      ensures tables[t] == last[t] + Back(steps, snaps, p, |steps|, t) && Back(steps, snaps, p, |steps|, t) !! last[t]
      ensures tables[t] == last[t] <==> forall d | 0 <= d < p :: !Blocks(steps, snaps, p, d, t)
    {
      OneTable(steps, snaps, p, t);
      BackIs(steps, snaps, p, |steps|, t);
      assert forall d | 0 <= d < |steps| && Blocks(steps, snaps, p, d, t) :: d < p;
    }
  }

  // A journal that makes a table, adds a column, drops it and adds another.
  const X := "x"
  const MAKES := OwnStep(Single(CreateTable(X, {"id"}, {})), map[])
  const ADDS_ONE := OwnStep(Single(AddColumn(X, "b", Null, false)), map[])
  const DROPS_IT := OwnStep(Unit(X, Standard(X, {"id"}, {})), map[X := {"b"}])
  const ADDS_ANOTHER := OwnStep(Single(AddColumn(X, "c", Null, false)), map[])
  const STEPS := [MAKES, ADDS_ONE, DROPS_IT, ADDS_ANOTHER]
  const STEP_SNAPS := [EMPTY, OnlyX({"id"}), OnlyX({"id", "b"}), OnlyX({"id"}), OnlyX({"id", "c"})]

  function OnlyX(cols: set<string>): Shape {
    Shape(map[X := cols], map[], {})
  }

  lemma ExampleRuns()
    ensures Regular(MAKES) && Regular(ADDS_ONE) && Regular(DROPS_IT) && Regular(ADDS_ANOTHER)
    ensures Applies(EMPTY, MAKES) && StepShape(EMPTY, MAKES) == OnlyX({"id"})
    ensures Applies(OnlyX({"id"}), ADDS_ONE) && StepShape(OnlyX({"id"}), ADDS_ONE) == OnlyX({"id", "b"})
    ensures Applies(OnlyX({"id", "b"}), DROPS_IT) && StepShape(OnlyX({"id", "b"}), DROPS_IT) == OnlyX({"id"})
    ensures Applies(OnlyX({"id"}), ADDS_ANOTHER) && StepShape(OnlyX({"id"}), ADDS_ANOTHER) == OnlyX({"id", "c"})
  {
    TempIsOther(X);
    assert {"id"} + {"b"} == {"id", "b"} && {"id"} + {"c"} == {"id", "c"};
    var ids: set<string> := {"id"};
    assert ids * {} == {};
    assert Recreated(OnlyX({"id", "b"}), X, {"id"}, {}) == OnlyX({"id"});
    assert EffectOn(EMPTY, MAKES.step.st).shape == OnlyX({"id"});
  }

  lemma ExampleNames()
    ensures NoNameReturns(STEP_SNAPS)
  {
    forall i, j, k, n | 0 <= i <= j <= k < |STEP_SNAPS| && Has(STEP_SNAPS[i], n) && Has(STEP_SNAPS[k], n)
      ensures Has(STEP_SNAPS[j], n)
    {
      var c := if n.ColumnName? then n.column else "";
      assert "b" != "c" && "b" != "id" && "c" != "id";
    }
  }

  lemma ExampleJournal()
    ensures Journal(STEPS, STEP_SNAPS, 4)
  {
    ExampleRuns();
    ExampleNames();
    TempIsOther(X);
    hide Regular, Applies, StepShape, NoNameReturns;
    assert STEPS[0] == MAKES && STEPS[1] == ADDS_ONE && STEPS[2] == DROPS_IT && STEPS[3] == ADDS_ANOTHER;
    assert OwnOf(DROPS_IT, X) == {"b"} && HasColumn(STEP_SNAPS[2], X, "b");
  }

  /** So a column added and dropped again comes back as soon as the table has any later
      column: the recreate would drop that one. */
  lemma AddedColumnComesBack()
    ensures Journal(STEPS, STEP_SNAPS, 4) && Blocks(STEPS, STEP_SNAPS, 4, 2, X)
    ensures SteppedBy(STEPS, STEP_SNAPS[4].tables, 4) != STEP_SNAPS[4].tables
  {
    ExampleJournal();
    assert AddedSoFar(STEPS, 0) == {};
    assert AddedSoFar(STEPS, 1) == {};
    assert AddedSoFar(STEPS, 2) == {(X, "b")};
    assert (X, "b") in AddedSoFar(STEPS, 2) && "b" in AddedIn(STEPS, 2, X);
    assert "b" in DroppedAt(STEPS, STEP_SNAPS, 4, 2, X);
    assert "c" in ColumnsAt(STEP_SNAPS[4].tables, X) && "c" !in UnitColumns(STEPS[2]);
    assert Blocks(STEPS, STEP_SNAPS, 4, 2, X) && X in STEP_SNAPS[4].tables;
    hide Journal, Blocks, SteppedBy;
    assert |STEPS| == 4;
    SqliteColumnsExactly(STEPS, STEP_SNAPS, 4);
  }
}
