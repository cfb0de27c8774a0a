/** The last snapshot's indexes are there after a SQLite replay that gets through,
    on a journal that gives each index name one definition. */
module SqliteIndexes {
  import opened Schema
  import opened Replay
  import opened Convergence
  import opened Recreate
  import opened SqliteTables
  import opened SqliteRows

  /** An index name means the same index whenever it is there. */
  ghost predicate OneDefinition(snaps: seq<Shape>) {
    forall j, k, i | 0 <= j < |snaps| && 0 <= k < |snaps| && i in snaps[j].indexes && i in snaps[k].indexes ::
      snaps[j].indexes[i] == snaps[k].indexes[i]
  }

  ghost predicate MadeAs(snaps: seq<Shape>, i: string, def: IndexDef) {
    exists j | 0 <= j < |snaps| :: i in snaps[j].indexes && snaps[j].indexes[i] == def
  }

  /** Every index is one the journal makes, and those that stay to the end from here
      on are there. */
  ghost predicate IndexesKept(snaps: seq<Shape>, k: nat, indexes: Indexes)
    requires k < |snaps|
  {
    && (forall i | i in indexes :: MadeAs(snaps, i, indexes[i]))
    && (forall i | Settled(snaps, k, |snaps| - 1, i) :: i in indexes)
  }

  /** A step keeps an index that it keeps in the journal. */
  lemma StepKeepsIndex(now: Shape, s: Shape, o: OwnStep, i: string)
    requires Regular(o) && Applies(now, o) && i in now.indexes && i in StepShape(now, o).indexes
    requires i in s.indexes && s.indexes[i] == now.indexes[i]
    requires o.step.Unit? ==> now.indexes[i].table != TempName(o.step.table)
    ensures i in StepShape(s, o).indexes && StepShape(s, o).indexes[i] == s.indexes[i]
  {
    if o.step.Unit? {
      TempIsOther(o.step.table);
    }
  }

  /** Any index after a step was there or is the one the statement makes. */
  lemma StepOnIndex(s: Shape, o: OwnStep, i: string)
    requires Regular(o) && i in StepShape(s, o).indexes
    requires o.step.Unit? && i in s.indexes ==> s.indexes[i].table != TempName(o.step.table)
    ensures || (i in s.indexes && StepShape(s, o).indexes[i] == s.indexes[i])
            || (i !in s.indexes && o.step.Single? && o.step.st == CreateIndex(i, StepShape(s, o).indexes[i]))
  {
  }

  lemma StepMakesIndex(s: Shape, o: OwnStep, i: string, def: IndexDef)
    requires Regular(o) && o.step == Single(CreateIndex(i, def))
    requires def.table in s.tables && def.columns <= s.tables[def.table]
    ensures i in StepShape(s, o).indexes
  {
  }

  // ------------------------------------------------------------- along the journal

  lemma RecreatedIsSound(s: Shape, t: string, cols: set<string>, required: set<string>, own: set<string>)
    requires Sound(s) && UnitFits(s.tables, t, cols, own)
    ensures Sound(Recreated(s, t, cols, required))
  {
    TempIsOther(t);
  }

  lemma {:induction false} StepsSound(steps: seq<OwnStep>, snaps: seq<Shape>, k: nat)
    requires InstallsSteps(steps, snaps) && k < |snaps|
    ensures Sound(snaps[k])
  {
    hide Sound, StepShape, Applies, NoNameReturns;
    if k == 0 {
      EmptyIsSound();
    } else {
      StepsSound(steps, snaps, k - 1);
      assert steps[k - 1] in steps;
      assert Applies(snaps[k - 1], steps[k - 1]) && snaps[k] == StepShape(snaps[k - 1], steps[k - 1]);
      StepIsSound(snaps[k - 1], steps[k - 1]);
    }
  }

  lemma EmptyIsSound()
    ensures Sound(EMPTY)
  {
  }

  lemma StepIsSound(s: Shape, o: OwnStep)
    requires Regular(o) && Sound(s)
    ensures Sound(StepShape(s, o))
  {
    hide Sound, Recreated;
    match o.step {
      case Single(st) =>
        if Applies(s, o) {
          EffectIsSound(s, st);
        }
      case Unit(t, body) =>
        if Applies(s, o) {
          RecreatedIsSound(s, t, UnitColumns(o), body[0].required, OwnOf(o, t));
        }
    }
  }

  /** No index is on a recreate's temporary table. */
  lemma NotOnTemp(steps: seq<OwnStep>, snaps: seq<Shape>, k: nat, i: string, def: IndexDef)
    requires InstallsSteps(steps, snaps) && k < |steps| && steps[k].step.Unit? && MadeAs(snaps, i, def)
    ensures def.table != TempName(steps[k].step.table)
  {
    var j :| 0 <= j < |snaps| && i in snaps[j].indexes && snaps[j].indexes[i] == def;
    StepsSound(steps, snaps, j);
    NoTemp(steps, snaps, k, j);
    hide InstallsSteps;
  }

  lemma OneMeaning(snaps: seq<Shape>, i: string, def: IndexDef, j: nat)
    requires OneDefinition(snaps) && MadeAs(snaps, i, def) && j < |snaps| && i in snaps[j].indexes
    ensures snaps[j].indexes[i] == def
  {
  }

  /** An index that the journal makes, and that stays, finds its columns. */
  lemma ColumnsThere(steps: seq<OwnStep>, snaps: seq<Shape>, p: nat, k: nat, i: string, def: IndexDef)
    requires InstallsSteps(steps, snaps) && NoNameReturns(snaps) && OneDefinition(snaps)
    requires |snaps| == |steps| + 1 && (forall s | s in steps :: Regular(s)) && p <= |steps| && k < |steps|
    requires MadeAs(snaps, i, def) && Settled(snaps, k + 1, |steps|, i)
    requires def.table in snaps[k].tables && def.columns <= snaps[k].tables[def.table]
    ensures var tables := SteppedBy(steps, snaps[p].tables, k);
            def.table in tables && def.columns <= tables[def.table]
  {
    if k < p {
      StepsSound(steps, snaps, p);
      assert i in snaps[p].indexes;
      OneMeaning(snaps, i, def, p);
      PrefixCovers(steps, snaps, p, k);
    } else {
      TailExceeds(steps, snaps, p, k);
    }
    hide InstallsSteps, NoNameReturns, OneDefinition, SteppedBy;
  }

  lemma SettledNext(snaps: seq<Shape>, k: nat, i: string)
    requires k + 1 < |snaps| && Settled(snaps, k + 1, |snaps| - 1, i)
    ensures i in snaps[k + 1].indexes && (i in snaps[k].indexes ==> Settled(snaps, k, |snaps| - 1, i))
  {
  }

  lemma IndexesStep(steps: seq<OwnStep>, snaps: seq<Shape>, p: nat, db: Database, k: nat)
    requires StandsAtStep(steps, snaps, p, db) && OneDefinition(snaps) && k < |steps|
    requires IndexesKept(snaps, k, ShapesBy(steps, ShapeOf(db), k).indexes)
    ensures IndexesKept(snaps, k + 1, ShapesBy(steps, ShapeOf(db), k + 1).indexes)
  {
    hide NoNameReturns, Applies, StepShape, SteppedBy, MadeAs, Settled, OneDefinition, Regular;
    var s, o := ShapesBy(steps, ShapeOf(db), k), steps[k];
    assert o in steps;
    assert Applies(snaps[k], o) && snaps[k + 1] == StepShape(snaps[k], o);
    hide InstallsSteps;
    assert ShapesBy(steps, ShapeOf(db), k + 1) == StepShape(s, o);
    hide ShapesBy;
    forall i | i in StepShape(s, o).indexes
      ensures MadeAs(snaps, i, StepShape(s, o).indexes[i])
    {
      StepKeepsMeaning(steps, snaps, k, s, i);
    }
    forall i | Settled(snaps, k + 1, |snaps| - 1, i)
      ensures i in StepShape(s, o).indexes
    {
      SettledNext(snaps, k, i);
      SettledIsKept(steps, snaps, p, db, k, s, i);
    }
  }

  lemma StepKeepsMeaning(steps: seq<OwnStep>, snaps: seq<Shape>, k: nat, s: Shape, i: string)
    requires InstallsSteps(steps, snaps) && k < |steps| && Regular(steps[k]) && i in StepShape(s, steps[k]).indexes
    requires forall i | i in s.indexes :: MadeAs(snaps, i, s.indexes[i])
    ensures MadeAs(snaps, i, StepShape(s, steps[k]).indexes[i])
  {
    var o := steps[k];
    assert Applies(snaps[k], o) && snaps[k + 1] == StepShape(snaps[k], o) && |snaps| == |steps| + 1;
    if i in s.indexes && o.step.Unit? {
      NotOnTemp(steps, snaps, k, i, s.indexes[i]);
    }
    hide InstallsSteps, MadeAs;
    StepOnIndex(s, o, i);
    if i !in s.indexes {
      JournalMakes(snaps, k, o, i, StepShape(s, o).indexes[i]);
    }
  }

  lemma JournalMakes(snaps: seq<Shape>, k: nat, o: OwnStep, i: string, def: IndexDef)
    requires k + 1 < |snaps| && Regular(o) && o.step == Single(CreateIndex(i, def)) && Applies(snaps[k], o)
    requires snaps[k + 1] == StepShape(snaps[k], o)
    ensures MadeAs(snaps, i, def)
  {
    assert i in snaps[k + 1].indexes && snaps[k + 1].indexes[i] == def;
  }

  lemma SettledIsKept(steps: seq<OwnStep>, snaps: seq<Shape>, p: nat, db: Database, k: nat, s: Shape, i: string)
    requires StandsAtStep(steps, snaps, p, db) && OneDefinition(snaps) && k < |steps| && Regular(steps[k])
    requires s == ShapesBy(steps, ShapeOf(db), k) && IndexesKept(snaps, k, s.indexes)
    requires Applies(snaps[k], steps[k]) && snaps[k + 1] == StepShape(snaps[k], steps[k])
    requires Settled(snaps, k + 1, |snaps| - 1, i) && i in snaps[k + 1].indexes
    requires i in snaps[k].indexes ==> Settled(snaps, k, |snaps| - 1, i)
    ensures i in StepShape(s, steps[k]).indexes
  {
    hide InstallsSteps, NoNameReturns, SteppedBy, Settled, OneDefinition, ShapesBy, Sound;
    var o := steps[k];
    if i in snaps[k].indexes {
      OneMeaning(snaps, i, s.indexes[i], k);
      if o.step.Unit? {
        NotOnTemp(steps, snaps, k, i, s.indexes[i]);
      }
      StepKeepsIndex(snaps[k], s, o, i);
    } else {
      StepOnIndex(snaps[k], o, i);
      var def := snaps[k + 1].indexes[i];
      assert MadeAs(snaps, i, def);
      assert def.table in snaps[k].tables && def.columns <= snaps[k].tables[def.table];
      ColumnsThere(steps, snaps, p, k, i, def);
      ShapesHaveTables(steps, ShapeOf(db), k);
      StepMakesIndex(s, o, i, def);
    }
  }

  lemma NoIndexYet(snaps: seq<Shape>, p: nat)
    requires p < |snaps| && snaps[0] == EMPTY
    ensures IndexesKept(snaps, 0, snaps[p].indexes)
  {
    forall i | i in snaps[p].indexes
      ensures MadeAs(snaps, i, snaps[p].indexes[i])
    {
    }
    var last := |snaps| - 1;
    forall i
      ensures !Settled(snaps, 0, last, i)
    {
      assert i !in snaps[0].indexes;
    }
  }

  /** A database at any step of such a journal has all of the last snapshot's indexes
      after a replay that gets through. */
  lemma {:induction false} IndexesThere(steps: seq<OwnStep>, snaps: seq<Shape>, p: nat, db: Database, k: nat)
    requires StandsAtStep(steps, snaps, p, db) && ShapeOf(db) == snaps[p] && OneDefinition(snaps) && k <= |steps|
    ensures IndexesKept(snaps, k, ShapesBy(steps, ShapeOf(db), k).indexes)
    ensures k == |steps| ==> snaps[k].indexes.Keys <= ShapesBy(steps, ShapeOf(db), k).indexes.Keys
  {
    assert snaps[0] == EMPTY;
    hide InstallsSteps, NoNameReturns, OneDefinition, IndexesKept, StepShape;
    if k == 0 {
      NoIndexYet(snaps, p);
    } else {
      IndexesThere(steps, snaps, p, db, k - 1);
      IndexesStep(steps, snaps, p, db, k - 1);
    }
    if k == |steps| {
      KeptAtLast(snaps, ShapesBy(steps, ShapeOf(db), k).indexes);
    }
  }

  lemma KeptAtLast(snaps: seq<Shape>, indexes: Indexes)
    requires |snaps| > 0 && IndexesKept(snaps, |snaps| - 1, indexes)
    ensures snaps[|snaps| - 1].indexes.Keys <= indexes.Keys
  {
    forall i | i in snaps[|snaps| - 1].indexes
      ensures i in indexes
    {
      assert Settled(snaps, |snaps| - 1, |snaps| - 1, i);
    }
  }
}
