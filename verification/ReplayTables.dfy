/** What a replay does to tables and columns, over a database that is anywhere
    along the journal and whatever its rows: where it ends, and exactly when that
    is the last snapshot. */
module ReplayTables {
  import opened Schema
  import opened Replay

  /** The tables after a replayed statement, applied or skipped. */
  function Stepped(tables: Columns, st: Statement): Columns {
    match st
    case CreateTable(t, cols, _) => if t in tables then tables else tables[t := cols]
    case DropTable(t) => tables - {t}
    case AddColumn(t, c, _, _) => if t in tables then tables[t := tables[t] + {c}] else tables
    case DropColumn(t, c) => if t in tables then tables[t := tables[t] - {c}] else tables
    case RenameTable(from, to) =>
      if from in tables && to !in tables then (tables - {from})[to := tables[from]] else tables
    case _ => tables
  }

  lemma ReplayedTables(dialect: Dialect, db: Database, st: Statement)
    requires ReplayOne(dialect, db, st).Some?
    ensures ShapeOf(ReplayOne(dialect, db, st).value).tables == Stepped(ShapeOf(db).tables, st)
  {
    if Exec(db, st).Applied? {
      ExecShape(db, st);
      hide RowFault, HasDuplicates, Retargeted;
      EffectSteps(ShapeOf(db), st);
    } else {
      SkippedKeepsTables(dialect, db, st);
    }
  }

  lemma EffectSteps(s: Shape, st: Statement)
    requires EffectOn(s, st).Changed?
    ensures EffectOn(s, st).shape.tables == Stepped(s.tables, st)
  {
  }

  /** A statement that is skipped, for the schema or for the rows, would not have
      changed tables or columns. */
  lemma SkippedKeepsTables(dialect: Dialect, db: Database, st: Statement)
    requires Exec(db, st).Failed? && Ignorable(dialect, Exec(db, st).code)
    ensures Stepped(ShapeOf(db).tables, st) == ShapeOf(db).tables
  {
    hide HasDuplicates;
    var tables := ShapeOf(db).tables;
    match st {
      case AddColumn(t, c, _, _) =>
        if t in tables {
          assert c in tables[t];
          assert tables[t] + {c} == tables[t];
        }
      case DropColumn(t, c) =>
        if t in tables {
          assert tables[t] - {c} == tables[t];
        }
      case _ =>
    }
  }

  // ------------------------------------------------------ along one statement

  /** What the journal's own run of a statement says of the tables. */
  predicate Runs(tables: Columns, st: Statement) {
    match st
    case CreateTable(t, _, _) => t !in tables
    case DropTable(t) => t in tables
    case AddColumn(t, c, _, _) => t in tables && c !in tables[t]
    case DropColumn(t, c) => t in tables && c in tables[t]
    case RenameTable(from, to) => from in tables && to !in tables
    case _ => true
  }

  /** Tables the replay makes again under a name the journal renamed: the new
      name is taken by the table itself. */
  function LeftBehind(stmts: seq<Statement>, start: Columns, k: nat): set<string>
    requires k <= |stmts|
  {
    if k == 0 then {}
    else LeftBehind(stmts, start, k - 1)
         + if stmts[k - 1].RenameTable? && stmts[k - 1].to in start then {stmts[k - 1].from} else {}
  }

  /** Columns that the first k statements add to a table there already. */
  function AddedColumns(stmts: seq<Statement>, k: nat): set<ColumnOf>
    requires k <= |stmts|
  {
    if k == 0 then {}
    else AddedColumns(stmts, k - 1)
         + if stmts[k - 1].AddColumn? then {(stmts[k - 1].table, stmts[k - 1].column)} else {}
  }

  function Regained(now: Columns, added: set<ColumnOf>, t: string): set<string> {
    if t in now then set c | c in now[t] && (t, c) in added else {}
  }

  /** The replay of a part the database is past. A table the database has keeps
      its columns and regains those the journal adds and has not dropped yet; any
      other table is as the journal has it, and some are left behind. */
  ghost predicate Mirrors(start: Columns, now: Columns, left: set<string>, added: set<ColumnOf>, tables: Columns) {
    && tables.Keys == start.Keys + now.Keys + left
    && (forall t | t in start :: tables[t] == start[t] + Regained(now, added, t))
    && (forall t | t in now && t !in start :: tables[t] == now[t])
  }

  /** What the statement drops, start has no more; what it makes was never there,
      added to or left behind. */
  ghost predicate NothingReturns(start: Columns, now: Columns, next: Columns, left: set<string>, added: set<ColumnOf>) {
    && (forall t | t in now && t !in next :: t !in start)
    && (forall t, c | t in now && t in next && c in now[t] && c !in next[t] :: !(t in start && c in start[t]))
    && (forall t | t in next && t !in now :: t !in left && forall c :: (t, c) !in added)
    && (forall t | t in left :: t !in start && t !in now)
  }

  lemma MirrorCreate(start: Columns, now: Columns, left: set<string>, added: set<ColumnOf>, tables: Columns, st: Statement)
    requires Mirrors(start, now, left, added, tables) && Runs(now, st)
    requires NothingReturns(start, now, Stepped(now, st), left, added)
    requires st.CreateTable? || st.DropTable?
    ensures Mirrors(start, Stepped(now, st), left, added, Stepped(tables, st))
  {
    var next := Stepped(now, st);
    forall t | t in start
      ensures Stepped(tables, st)[t] == start[t] + Regained(next, added, t)
    {
      assert tables[t] == start[t] + Regained(now, added, t);
      assert Regained(next, added, t) == Regained(now, added, t);
    }
  }

  lemma MirrorAdd(start: Columns, now: Columns, left: set<string>, added: set<ColumnOf>, tables: Columns, st: Statement)
    requires Mirrors(start, now, left, added, tables) && Runs(now, st) && st.AddColumn?
    ensures Mirrors(start, Stepped(now, st), left, added + {(st.table, st.column)}, Stepped(tables, st))
  {
    var next, more := Stepped(now, st), added + {(st.table, st.column)};
    forall t | t in start
      ensures Stepped(tables, st)[t] == start[t] + Regained(next, more, t)
    {
      RegainOne(now, added, st.table, st.column, t);
    }
    hide Regained;
  }

  lemma RegainOne(now: Columns, added: set<ColumnOf>, table: string, column: string, t: string)
    requires table in now && column !in now[table]
    ensures Regained(now[table := now[table] + {column}], added + {(table, column)}, t)
         == Regained(now, added, t) + if t == table then {column} else {}
  {
  }

  lemma MirrorDrop(start: Columns, now: Columns, left: set<string>, added: set<ColumnOf>, tables: Columns, st: Statement)
    requires Mirrors(start, now, left, added, tables) && Runs(now, st) && st.DropColumn?
    requires !(st.table in start && st.column in start[st.table])
    ensures Mirrors(start, Stepped(now, st), left, added, Stepped(tables, st))
  {
    var next := Stepped(now, st);
    forall t | t in start
      ensures Stepped(tables, st)[t] == start[t] + Regained(next, added, t)
    {
      assert Regained(next, added, t) == Regained(now, added, t) - if t == st.table then {st.column} else {};
    }
    hide Regained;
  }

  lemma MirrorRename(start: Columns, now: Columns, left: set<string>, added: set<ColumnOf>, tables: Columns, st: Statement)
    requires Mirrors(start, now, left, added, tables) && Runs(now, st)
    requires NothingReturns(start, now, Stepped(now, st), left, added)
    requires st.RenameTable?
    ensures Mirrors(start, Stepped(now, st), left + if st.to in start then {st.from} else {}, added, Stepped(tables, st))
  {
    var next := Stepped(now, st);
    assert st.from in now && st.from !in next && st.from !in start;
    forall t | t in start
      ensures Stepped(tables, st)[t] == start[t] + Regained(next, added, t)
    {
      assert tables[t] == start[t] + Regained(now, added, t);
      if t == st.to {
        assert Regained(next, added, t) == {} == Regained(now, added, t);
      } else {
        assert Regained(next, added, t) == Regained(now, added, t);
      }
    }
  }

  // ---------------------------------------------------------- along the journal

  function SteppedTo(stmts: seq<Statement>, tables: Columns, k: nat): Columns
    requires k <= |stmts|
  {
    if k == 0 then tables else Stepped(SteppedTo(stmts, tables, k - 1), stmts[k - 1])
  }

  lemma {:induction false} ReplayStepsTo(dialect: Dialect, stmts: seq<Statement>, db: Database, k: nat)
    requires k <= |stmts| && ReplayTo(dialect, stmts, db, k).Some?
    ensures ShapeOf(ReplayTo(dialect, stmts, db, k).value).tables == SteppedTo(stmts, ShapeOf(db).tables, k)
  {
    hide ReplayOne, Stepped;
    if k > 0 {
      ReplayStepsTo(dialect, stmts, db, k - 1);
      ReplayedTables(dialect, ReplayTo(dialect, stmts, db, k - 1).value, stmts[k - 1]);
    }
  }

  lemma JournalRuns(stmts: seq<Statement>, snaps: seq<Shape>, k: nat)
    requires Installs(stmts, snaps) && k < |stmts|
    ensures Runs(snaps[k].tables, stmts[k]) && snaps[k + 1].tables == Stepped(snaps[k].tables, stmts[k])
  {
    assert RunsAt(stmts, snaps, k);
    EffectSteps(snaps[k], stmts[k]);
  }

  /** A table left behind was there once, and is not there from then on. */
  lemma {:induction false} LeftIsGone(stmts: seq<Statement>, snaps: seq<Shape>, start: Columns, k: nat, t: string)
    requires Installs(stmts, snaps) && NoNameReturns(snaps) && k <= |stmts| && t in LeftBehind(stmts, start, k)
    ensures forall j | k <= j < |snaps| :: t !in snaps[j].tables
  {
    assert |snaps| == |stmts| + 1;
    hide Stepped, Runs, Installs, NoNameReturns;
    var st := stmts[k - 1];
    if t in LeftBehind(stmts, start, k - 1) {
      LeftIsGone(stmts, snaps, start, k - 1, t);
    } else {
      RenamedIsGone(stmts, snaps, k - 1);
      forall j | k <= j < |snaps|
        ensures t !in snaps[j].tables
      {
        if t in snaps[j].tables {
          Stays(snaps, k - 1, k, j, TableName(t));
        }
      }
    }
  }

  lemma RenamedIsGone(stmts: seq<Statement>, snaps: seq<Shape>, k: nat)
    requires Installs(stmts, snaps) && k < |stmts| && stmts[k].RenameTable?
    ensures stmts[k].from in snaps[k].tables && stmts[k].from !in snaps[k + 1].tables
  {
    JournalRuns(stmts, snaps, k);
  }

  /** A column was added to a table that was there. */
  lemma {:induction false} AddedWasThere(stmts: seq<Statement>, snaps: seq<Shape>, k: nat, t: string, c: string)
    requires Installs(stmts, snaps) && k <= |stmts| && (t, c) in AddedColumns(stmts, k)
    ensures exists i :: 0 <= i < k && t in snaps[i].tables && stmts[i].AddColumn? && stmts[i].table == t && stmts[i].column == c
  {
    hide Stepped, Installs;
    if (t, c) in AddedColumns(stmts, k - 1) {
      AddedWasThere(stmts, snaps, k - 1, t, c);
    } else {
      JournalRuns(stmts, snaps, k - 1);
    }
  }

  lemma StepReturnsNothing(stmts: seq<Statement>, snaps: seq<Shape>, p: nat, k: nat)
    requires Installs(stmts, snaps) && NoNameReturns(snaps) && k < p <= |stmts|
    ensures var start := snaps[p].tables;
            NothingReturns(start, snaps[k].tables, snaps[k + 1].tables, LeftBehind(stmts, start, k), AddedColumns(stmts, k))
  {
    assert |snaps| == |stmts| + 1;
    hide Installs, NoNameReturns;
    var start, now, next := snaps[p].tables, snaps[k].tables, snaps[k + 1].tables;
    forall t | t in now && t !in next
      ensures t !in start
    {
      if t in start {
        Stays(snaps, k, k + 1, p, TableName(t));
      }
    }
    forall t, c | t in now && t in next && c in now[t] && c !in next[t]
      ensures !(t in start && c in start[t])
    {
      if t in start && c in start[t] {
        Stays(snaps, k, k + 1, p, ColumnName(t, c));
      }
    }
    forall t | t in LeftBehind(stmts, start, k)
      ensures t !in start && t !in now && t !in next
    {
      LeftIsGone(stmts, snaps, start, k, t);
    }
    forall t, c | t in next && t !in now
      ensures (t, c) !in AddedColumns(stmts, k)
    {
      if (t, c) in AddedColumns(stmts, k) {
        AddedWasThere(stmts, snaps, k, t, c);
        var i :| 0 <= i < k && t in snaps[i].tables;
        Stays(snaps, i, k, k + 1, TableName(t));
      }
    }
  }

  lemma DroppedIsNotHeld(stmts: seq<Statement>, snaps: seq<Shape>, p: nat, k: nat)
    requires Installs(stmts, snaps) && NoNameReturns(snaps) && k < p <= |stmts|
    ensures stmts[k].DropColumn? ==> !HasColumn(snaps[p], stmts[k].table, stmts[k].column)
  {
    JournalRuns(stmts, snaps, k);
    hide Installs, NoNameReturns;
    if stmts[k].DropColumn? && HasColumn(snaps[p], stmts[k].table, stmts[k].column) {
      Stays(snaps, k, k + 1, p, ColumnName(stmts[k].table, stmts[k].column));
    }
  }

  /** Within the part the database is past. */
  lemma {:induction false} PrefixTables(stmts: seq<Statement>, snaps: seq<Shape>, p: nat, k: nat)
    requires Installs(stmts, snaps) && NoNameReturns(snaps) && k <= p <= |stmts|
    ensures var start := snaps[p].tables;
            Mirrors(start, snaps[k].tables, LeftBehind(stmts, start, k), AddedColumns(stmts, k), SteppedTo(stmts, start, k))
  {
    var start := snaps[p].tables;
    if k == 0 {
      assert snaps[0].tables == map[];
    } else {
      PrefixTables(stmts, snaps, p, k - 1);
      StepReturnsNothing(stmts, snaps, p, k - 1);
      JournalRuns(stmts, snaps, k - 1);
      DroppedIsNotHeld(stmts, snaps, p, k - 1);
      hide Mirrors, NothingReturns, Installs, NoNameReturns, Runs, Regained;
      var now, left, added := snaps[k - 1].tables, LeftBehind(stmts, start, k - 1), AddedColumns(stmts, k - 1);
      var tables, st := SteppedTo(stmts, start, k - 1), stmts[k - 1];
      assert left + {} == left && added + {} == added;
      if st.CreateTable? || st.DropTable? {
        MirrorCreate(start, now, left, added, tables, st);
      } else if st.AddColumn? {
        MirrorAdd(start, now, left, added, tables, st);
      } else if st.DropColumn? {
        MirrorDrop(start, now, left, added, tables, st);
      } else if st.RenameTable? {
        MirrorRename(start, now, left, added, tables, st);
      }
    }
  }

  /** Past that part: the journal's tables, and those left behind. */
  ghost predicate Follows(now: Columns, left: set<string>, tables: Columns) {
    && tables.Keys == now.Keys + left && left !! now.Keys
    && (forall t | t in now :: tables[t] == now[t])
  }

  lemma FollowStep(now: Columns, left: set<string>, tables: Columns, st: Statement)
    requires Follows(now, left, tables) && Runs(now, st) && left !! Stepped(now, st).Keys
    ensures Follows(Stepped(now, st), left, Stepped(tables, st))
  {
  }

  lemma {:induction false} TailTables(stmts: seq<Statement>, snaps: seq<Shape>, p: nat, k: nat)
    requires Installs(stmts, snaps) && NoNameReturns(snaps) && p <= k <= |stmts|
    ensures var start := snaps[p].tables;
            Follows(snaps[k].tables, LeftBehind(stmts, start, p), SteppedTo(stmts, start, k))
    decreases k
  {
    var start := snaps[p].tables;
    var left := LeftBehind(stmts, start, p);
    forall t | t in left
      ensures t !in snaps[k].tables
    {
      LeftIsGone(stmts, snaps, start, p, t);
    }
    if k == p {
      PrefixTables(stmts, snaps, p, p);
      hide Installs, NoNameReturns, Stepped;
    } else {
      TailTables(stmts, snaps, p, k - 1);
      JournalRuns(stmts, snaps, k - 1);
      hide Installs, NoNameReturns, Stepped, Follows, Runs;
      FollowStep(snaps[k - 1].tables, left, SteppedTo(stmts, start, k - 1), stmts[k - 1]);
    }
  }

  lemma {:induction false} LeftByRename(stmts: seq<Statement>, start: Columns, k: nat)
    requires k <= |stmts|
    ensures LeftBehind(stmts, start, k) == {} <==> forall j | 0 <= j < k :: !(stmts[j].RenameTable? && stmts[j].to in start)
  {
    if k > 0 {
      LeftByRename(stmts, start, k - 1);
    }
  }

  /** A statement that rows can stop: it puts NOT NULL on a column, adds one that is
      NOT NULL without a default, or copies rows. */
  predicate AsksNotNull(st: Statement) {
    st.SetNotNull? || (st.AddColumn? && st.notNull && st.default == Null) || st.CopyRows?
  }

  /** A journal without such a statement never stops a PostgreSQL replay, whatever
      the database. */
  lemma {:induction false} NoNotNullNeverStops(stmts: seq<Statement>, db: Database, k: nat)
    requires k <= |stmts| && forall st | st in stmts :: !AsksNotNull(st)
    ensures ReplayTo(Postgres, stmts, db, k).Some?
  {
    hide ReplayOne;
    if k > 0 {
      NoNotNullNeverStops(stmts, db, k - 1);
      assert stmts[k - 1] in stmts;
      StopsOnlyAtNulls(ReplayTo(Postgres, stmts, db, k - 1).value, stmts[k - 1]);
    }
  }

  /** A database at any statement of any journal, replayed on PostgreSQL from the
      start. Unless some NOT NULL stops it, its tables and columns are the last
      snapshot's if and only if no statement it is past renames a table to a name
      it still has. The tables it has besides are those such renames left behind. */
  lemma TablesConverge(stmts: seq<Statement>, snaps: seq<Shape>, p: nat, db: Database)
    requires Installs(stmts, snaps) && NoNameReturns(snaps)
    requires p <= |stmts| && ShapeOf(db).tables == snaps[p].tables
    ensures match ReplayAll(Postgres, stmts, db)
            case None => exists st :: st in stmts && AsksNotNull(st)
            case Some(after) =>
              && (ShapeOf(after).tables == snaps[|stmts|].tables
                  <==> forall k | 0 <= k < p :: !(stmts[k].RenameTable? && stmts[k].to in db.tables))
              && ShapeOf(after).tables.Keys == snaps[|stmts|].tables.Keys + LeftBehind(stmts, snaps[p].tables, p)
              && forall t | t in snaps[|stmts|].tables :: ShapeOf(after).tables[t] == snaps[|stmts|].tables[t]
  {
    if ReplayAll(Postgres, stmts, db).Some? {
      ReplayStepsTo(Postgres, stmts, db, |stmts|);
      TailTables(stmts, snaps, p, |stmts|);
      LeftByRename(stmts, snaps[p].tables, p);
      hide Installs, NoNameReturns, ReplayTo, LeftBehind, SteppedTo;
      var after, last, left := ShapeOf(ReplayAll(Postgres, stmts, db).value).tables, snaps[|stmts|].tables, LeftBehind(stmts, snaps[p].tables, p);
      assert forall t :: t in db.tables <==> t in snaps[p].tables;
      if left == {} {
        assert after == last;
      } else {
        var t :| t in left;
        assert t in after && t !in last;
      }
    } else if forall st | st in stmts :: !AsksNotNull(st) {
      NoNotNullNeverStops(stmts, db, |stmts|);
    }
  }

  const RENAMING := [CreateTable("a", {"x"}, {}), RenameTable("a", "b")]
  const RENAMING_SNAPS := [EMPTY, Shape(map["a" := {"x"}], map[], {}), Shape(map["b" := {"x"}], map[], {})]

  /** Replaying a rename over a database already past it makes the old table
      again and leaves it there. */
  lemma RenameLeavesOldTable(db: Database)
    requires ShapeOf(db) == RENAMING_SNAPS[2]
    ensures Installs(RENAMING, RENAMING_SNAPS) && NoNameReturns(RENAMING_SNAPS)
    ensures ReplayAll(Postgres, RENAMING, db).Some?
    ensures ShapeOf(ReplayAll(Postgres, RENAMING, db).value).tables != RENAMING_SNAPS[2].tables
  {
    var renamed := EffectOn(RENAMING_SNAPS[1], RENAMING[1]).shape;
    assert renamed.tables == map["b" := {"x"}] && renamed.indexes == map[] && renamed.required == {};
    assert RunsAt(RENAMING, RENAMING_SNAPS, 0) && RunsAt(RENAMING, RENAMING_SNAPS, 1);
    assert RENAMING[1].RenameTable? && "b" in RENAMING_SNAPS[2].tables;
    hide Installs, NoNameReturns, ReplayTo;
    NoNotNullNeverStops(RENAMING, db, 2);
    TablesConverge(RENAMING, RENAMING_SNAPS, 2, db);
    assert "b" in ShapeOf(db).tables;
  }
}
