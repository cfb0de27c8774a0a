/** Where an existing database stands along the journal, and whether this
    release may upgrade it. */
module UpgradeGate {
  import opened Options
  import opened Lists
  import opened Schema

  datatype File = File(hash: string, statements: seq<Statement>)
  datatype Entry = Entry(tag: string, file: Option<File>)

  datatype Missing = MissingTable(table: string) | MissingColumn(table: string, column: string)

  const SQUASHED_LINE_TIP := "0012_v0814_perf_annotations"

  // ------------------------------------------------ a snapshot and a database

  predicate HoldsAll(expected: Columns, actual: Columns) {
    forall t | t in expected :: t in actual && expected[t] <= actual[t]
  }

  predicate Lacks(expected: Columns, actual: Columns, m: Missing) {
    match m
    case MissingTable(t) => t in expected && t !in actual
    case MissingColumn(t, c) => t in expected && c in expected[t] && t in actual && c !in actual[t]
  }

  /** What a snapshot has that the database does not, each name once. */
  method MissingFromSnapshot(expected: Columns, actual: Columns) returns (missing: seq<Missing>)
    ensures forall m :: m in missing <==> Lacks(expected, actual, m)
    ensures missing == [] <==> HoldsAll(expected, actual)
  {
    missing := [];
    var tables := expected.Keys;
    while tables != {}
      invariant tables <= expected.Keys
      invariant forall m :: m in missing <==> Lacks(expected, actual, m) && m.table !in tables
    {
      var t :| t in tables;
      tables := tables - {t};
      if t !in actual {
        missing := missing + [MissingTable(t)];
      } else {
        var cols := expected[t];
        while cols != {}
          invariant cols <= expected[t]
          invariant forall m :: m in missing <==>
            Lacks(expected, actual, m) && m.table !in tables && !(m.table == t && m.MissingColumn? && m.column in cols)
        {
          var c :| c in cols;
          cols := cols - {c};
          if c !in actual[t] {
            missing := missing + [MissingColumn(t, c)];
          }
        }
      }
    }
    if missing == [] {
      forall t | t in expected
        ensures t in actual && expected[t] <= actual[t]
      {
        assert !Lacks(expected, actual, MissingTable(t));
        assert forall c | c in expected[t] :: !Lacks(expected, actual, MissingColumn(t, c));
      }
    } else {
      assert Lacks(expected, actual, missing[0]);
    }
  }

  /** What is lacking is the difference: of the tables, and of the columns of each
      table that is there. */
  lemma LackingIsTheDifference(expected: Columns, actual: Columns)
    ensures (set t | t in expected && Lacks(expected, actual, MissingTable(t))) == expected.Keys - actual.Keys
    ensures forall t | t in expected && t in actual ::
              (set c | c in expected[t] && Lacks(expected, actual, MissingColumn(t, c))) == expected[t] - actual[t]
    ensures forall m | Lacks(expected, actual, m) ::
              m.table in expected && (m.MissingColumn? ==> m.table in actual && m.column in expected[m.table])
  {
  }

  // ------------------------------------------------------------ recorded hashes

  predicate Records(recorded: set<string>, e: Entry) {
    e.file.Some? && e.file.value.hash in recorded
  }

  /** Tags of the entries whose file is not recorded yet, in journal order. */
  function PendingTags(journal: seq<Entry>, recorded: set<string>): seq<string> {
    if journal == [] then []
    else
      var rest := journal[..|journal| - 1];
      var e := journal[|journal| - 1];
      PendingTags(rest, recorded) + if e.file.Some? && !Records(recorded, e) then [e.tag] else []
  }

  function LastAppliedTag(journal: seq<Entry>, recorded: set<string>): Option<string> {
    if journal == [] then None
    else
      var e := journal[|journal| - 1];
      if Records(recorded, e) then Some(e.tag) else LastAppliedTag(journal[..|journal| - 1], recorded)
  }

  method PendingJournalEntries(journal: seq<Entry>, recorded: set<string>)
    returns (pendingTags: seq<string>, lastAppliedTag: Option<string>)
    ensures pendingTags == PendingTags(journal, recorded)
    ensures lastAppliedTag == LastAppliedTag(journal, recorded)
  {
    pendingTags, lastAppliedTag := [], None;
    for i := 0 to |journal|
      invariant pendingTags == PendingTags(journal[..i], recorded)
      invariant lastAppliedTag == LastAppliedTag(journal[..i], recorded)
    {
      assert journal[..i + 1][..i] == journal[..i];
      if journal[i].file.Some? {
        if journal[i].file.value.hash in recorded {
          lastAppliedTag := Some(journal[i].tag);
        } else {
          pendingTags := pendingTags + [journal[i].tag];
        }
      }
    }
    assert journal[..|journal|] == journal;
  }

  /** As many rows as the journal can have, an empty table with no data, or each
      of the first entries recorded: anything else is a squash to recover from. */
  predicate NeedsRecovery(journal: seq<Entry>, rows: seq<string>, hasPeople: bool) {
    || |rows| > |journal|
    || (|rows| == 0 && hasPeople)
    || (exists k | 0 <= k < |rows| && k < |journal| ::
          journal[k].file.Some? && journal[k].file.value.hash !in rows)
  }

  predicate AllFiles(journal: seq<Entry>) {
    forall e | e in journal :: e.file.Some?
  }

  predicate DistinctHashes(journal: seq<Entry>)
    requires AllFiles(journal)
  {
    forall i, j | 0 <= i < j < |journal| :: journal[i].file.value.hash != journal[j].file.value.hash
  }

  function Hashes(journal: seq<Entry>): seq<string>
    requires AllFiles(journal)
  {
    seq(|journal|, i requires 0 <= i < |journal| => journal[i].file.value.hash)
  }

  lemma {:induction false} PendingIsSuffix(journal: seq<Entry>, recorded: set<string>, n: nat)
    requires n <= |journal| && AllFiles(journal)
    requires forall k | 0 <= k < |journal| :: Records(recorded, journal[k]) <==> k < n
    ensures |PendingTags(journal, recorded)| == |journal| - n
    ensures forall i | 0 <= i < |journal| - n :: PendingTags(journal, recorded)[i] == journal[n + i].tag
    ensures LastAppliedTag(journal, recorded) == if n == 0 then None else Some(journal[n - 1].tag)
  {
    if journal != [] {
      var rest := journal[..|journal| - 1];
      assert forall k | 0 <= k < |rest| :: rest[k] == journal[k];
      PendingIsSuffix(rest, recorded, if n < |journal| then n else n - 1);
    }
  }

  lemma FirstAreRecorded(journal: seq<Entry>, rows: seq<string>)
    requires AllFiles(journal) && DistinctHashes(journal) && |rows| <= |journal|
    requires forall k | 0 <= k < |rows| :: journal[k].file.value.hash in rows
    ensures Elements(rows) == Elements(Hashes(journal)[..|rows|]) && |Elements(rows)| == |rows|
  {
    var first := Hashes(journal)[..|rows|];
    DistinctElements(first);
    ElementsAtMostLength(rows);
    SubsetIsSmaller(Elements(first), Elements(rows));
  }

  lemma RecordedOnlyFirst(journal: seq<Entry>, rows: seq<string>, k: nat)
    requires AllFiles(journal) && DistinctHashes(journal) && |rows| <= |journal| && k < |journal|
    requires Elements(rows) == Elements(Hashes(journal)[..|rows|])
    ensures Records(Elements(rows), journal[k]) <==> k < |rows|
  {
    var first := Hashes(journal)[..|rows|];
    var hash := journal[k].file.value.hash;
    assert hash in Elements(rows) <==> hash in first;
    if k < |rows| {
      assert first[k] == hash;
    }
  }

  /** With something recorded and nothing to recover from, what is recorded is
      exactly the journal's beginning, each hash once, and what is pending is
      exactly the rest of the journal in order. */
  lemma RecordedIsPrefix(journal: seq<Entry>, rows: seq<string>, hasPeople: bool)
    requires AllFiles(journal) && DistinctHashes(journal)
    requires rows != [] && !NeedsRecovery(journal, rows, hasPeople)
    ensures |rows| <= |journal|
    ensures Elements(rows) == Elements(Hashes(journal)[..|rows|]) && |Elements(rows)| == |rows|
    ensures LastAppliedTag(journal, Elements(rows)) == Some(journal[|rows| - 1].tag)
    ensures var pending := PendingTags(journal, Elements(rows));
            |pending| == |journal| - |rows| && forall i | 0 <= i < |pending| :: pending[i] == journal[|rows| + i].tag
  {
    FirstAreRecorded(journal, rows);
    hide NeedsRecovery, PendingTags, LastAppliedTag, Elements;
    forall k | 0 <= k < |journal|
      ensures Records(Elements(rows), journal[k]) <==> k < |rows|
    {
      RecordedOnlyFirst(journal, rows, k);
    }
    PendingIsSuffix(journal, Elements(rows), |rows|);
  }

  /** The rows are the hashes of the journal's first files, each once, in any
      order. */
  ghost predicate RecordsBeginning(journal: seq<Entry>, rows: seq<string>)
    requires AllFiles(journal)
  {
    |rows| <= |journal| && multiset(rows) == multiset(Hashes(journal)[..|rows|])
  }

  /** With something recorded there is nothing to recover from if and only if what is
      recorded is the journal's beginning; with nothing, if and only if there is no
      data. */
  lemma NothingToRecover(journal: seq<Entry>, rows: seq<string>, hasPeople: bool)
    requires AllFiles(journal) && DistinctHashes(journal)
    ensures rows != [] ==> (!NeedsRecovery(journal, rows, hasPeople) <==> RecordsBeginning(journal, rows))
    ensures rows == [] ==> (!NeedsRecovery(journal, rows, hasPeople) <==> !hasPeople)
  {
    if rows != [] && |rows| <= |journal| {
      var first := Hashes(journal)[..|rows|];
      if !NeedsRecovery(journal, rows, hasPeople) {
        FirstAreRecorded(journal, rows);
        SameElementsSameCounts(rows, first);
      }
      if multiset(rows) == multiset(first) {
        forall k | 0 <= k < |rows|
          ensures journal[k].file.value.hash in rows
        {
          assert first[k] in multiset(first);
        }
      }
    }
  }

  function FileHashes(journal: seq<Entry>): set<string> {
    set e | e in journal && e.file.Some? :: e.file.value.hash
  }

  /** Files may be missing from the image: those there among the first entries are
      recorded, or there is something to recover from. */
  lemma RecoveryWithFilesMissing(journal: seq<Entry>, rows: seq<string>, hasPeople: bool)
    ensures !NeedsRecovery(journal, rows, hasPeople)
       <==> |rows| <= |journal| && (rows == [] ==> !hasPeople) && FileHashes(journal[..|rows|]) <= Elements(rows)
  {
    if |rows| <= |journal| {
      var first := journal[..|rows|];
      if !NeedsRecovery(journal, rows, hasPeople) {
        forall e | e in first && e.file.Some?
          ensures e.file.value.hash in Elements(rows)
        {
          var k :| 0 <= k < |first| && first[k] == e;
          assert journal[k] == e;
        }
      }
      if FileHashes(first) <= Elements(rows) {
        forall k | 0 <= k < |rows| && journal[k].file.Some?
          ensures journal[k].file.value.hash in rows
        {
          assert first[k] in first;
          assert journal[k].file.value.hash in FileHashes(first);
        }
      }
    }
  }

  // ----------------------------------------------------------------- the label

  /** Entry j drops a column that the database still has. */
  predicate DropsHeld(snaps: seq<Columns>, j: nat, actual: Columns)
    requires 0 < j < |snaps|
  {
    exists t | t in snaps[j - 1] && t in actual ::
      exists c | c in snaps[j - 1][t] && c in actual[t] :: !(t in snaps[j] && c in snaps[j][t])
  }

  /** The database has all of entry j's snapshot and none of what entry j drops. */
  predicate Reached(snaps: seq<Columns>, j: nat, actual: Columns)
    requires 0 < j < |snaps|
  {
    HoldsAll(snaps[j], actual) && !DropsHeld(snaps, j, actual)
  }

  /** The last entry up to `top` that the database has reached; 0 for none. */
  function LabelIndex(snaps: seq<Columns>, actual: Columns, top: nat): (i: nat)
    requires top < |snaps| || top == 0
    ensures i <= top && (i > 0 ==> Reached(snaps, i, actual))
    ensures forall j | i < j <= top :: !Reached(snaps, j, actual)
  {
    if top == 0 then 0
    else if Reached(snaps, top, actual) then top
    else LabelIndex(snaps, actual, top - 1)
  }

  function Label(journal: seq<Entry>, snaps: seq<Columns>, recorded: set<string>, actual: Columns): string
    requires |snaps| == |journal|
  {
    match LastAppliedTag(journal, recorded)
    case Some(tag) => tag
    case None =>
      var i := LabelIndex(snaps, actual, if journal == [] then 0 else |journal| - 1);
      if i == 0 then SQUASHED_LINE_TIP else journal[i].tag
  }

  method SchemaLabel(journal: seq<Entry>, snaps: seq<Columns>, recorded: set<string>, actual: Columns)
    returns (tag: string)
    requires |snaps| == |journal|
    ensures tag == Label(journal, snaps, recorded, actual)
  {
    var _, lastAppliedTag := PendingJournalEntries(journal, recorded);
    if lastAppliedTag.Some? {
      return lastAppliedTag.value;
    }
    if journal == [] {
      return SQUASHED_LINE_TIP;
    }
    var idx := |journal| - 1;
    while idx > 0
      invariant 0 <= idx < |journal|
      invariant LabelIndex(snaps, actual, |journal| - 1) == LabelIndex(snaps, actual, idx)
    {
      var missing := MissingFromSnapshot(snaps[idx], actual);
      if missing == [] {
        if !DropsHeld(snaps, idx, actual) {
          return journal[idx].tag;
        }
      }
      idx := idx - 1;
    }
    return SQUASHED_LINE_TIP;
  }

  /** Seen from a database at snapshot i, entry j shows: it adds a name snapshot
      i lacks, or itself drops a column snapshot i has. */
  predicate Shows(snaps: seq<Columns>, i: nat, j: nat)
    requires i < j < |snaps|
  {
    !HoldsAll(snaps[j], snaps[i]) || DropsHeld(snaps, j, snaps[i])
  }

  lemma SnapshotReachesItself(snaps: seq<Columns>, i: nat)
    requires 0 < i < |snaps|
    ensures Reached(snaps, i, snaps[i])
  {
  }

  /** Every database exactly at a snapshot is labelled with it, if and only if
      every entry shows from every earlier snapshot. */
  lemma LabelExactness(snaps: seq<Columns>)
    requires snaps != []
    ensures (forall i | 0 <= i < |snaps| :: LabelIndex(snaps, snaps[i], |snaps| - 1) == i)
       <==> (forall i, j | 0 <= i < j < |snaps| :: Shows(snaps, i, j))
  {
    if forall i | 0 <= i < |snaps| :: LabelIndex(snaps, snaps[i], |snaps| - 1) == i {
      forall i, j | 0 <= i < j < |snaps|
        ensures Shows(snaps, i, j)
      {
        assert LabelIndex(snaps, snaps[i], |snaps| - 1) == i;
        assert !Reached(snaps, j, snaps[i]);
      }
    }
    if forall i, j | 0 <= i < j < |snaps| :: Shows(snaps, i, j) {
      forall i | 0 <= i < |snaps|
        ensures LabelIndex(snaps, snaps[i], |snaps| - 1) == i
      {
        forall j | i < j < |snaps|
          ensures !Reached(snaps, j, snaps[i])
        {
          assert Shows(snaps, i, j);
        }
        if i > 0 {
          SnapshotReachesItself(snaps, i);
        }
      }
    }
  }

  predicate HasName(s: Columns, m: Missing) {
    m.table in s && (m.MissingColumn? ==> m.column in s[m.table])
  }

  /** Entry j adds a name no earlier snapshot has, or drops a column every
      earlier snapshot has. */
  ghost predicate MarksItself(snaps: seq<Columns>, j: nat)
    requires 0 < j < |snaps|
  {
    || (exists m :: HasName(snaps[j], m) && forall i | 0 <= i < j :: !HasName(snaps[i], m))
    || (exists m: Missing :: m.MissingColumn? && !HasName(snaps[j], m) && forall i | 0 <= i < j :: HasName(snaps[i], m))
  }

  lemma MarkShows(snaps: seq<Columns>, i: nat, j: nat)
    requires i < j < |snaps| && MarksItself(snaps, j)
    ensures Shows(snaps, i, j)
  {
    if m :| HasName(snaps[j], m) && forall k | 0 <= k < j :: !HasName(snaps[k], m) {
      assert !HasName(snaps[i], m);
    } else {
      var m: Missing :| m.MissingColumn? && !HasName(snaps[j], m) && forall k | 0 <= k < j :: HasName(snaps[k], m);
      assert HasName(snaps[i], m) && HasName(snaps[j - 1], m);
    }
  }

  /** A journal whose later entries each mark themselves labels every database
      exactly: entry i for snapshot i, the squashed line's tip for the baseline. */
  lemma MarkedJournalsLabelExactly(journal: seq<Entry>, snaps: seq<Columns>, i: nat)
    requires i < |snaps| == |journal|
    requires forall j | 0 < j < |snaps| :: MarksItself(snaps, j)
    ensures Label(journal, snaps, {}, snaps[i]) == if i == 0 then SQUASHED_LINE_TIP else journal[i].tag
  {
    hide MarksItself, Shows, LabelIndex, LastAppliedTag;
    forall i, j | 0 <= i < j < |snaps|
      ensures Shows(snaps, i, j)
    {
      MarkShows(snaps, i, j);
    }
    LabelExactness(snaps);
    NothingRecorded(journal);
  }

  lemma {:induction false} NothingRecorded(journal: seq<Entry>)
    ensures LastAppliedTag(journal, {}) == None
  {
    if journal != [] {
      NothingRecorded(journal[..|journal| - 1]);
    }
  }

  /** No database at a snapshot is labelled at or after an entry that drops a
      column it still has (a restore would then skip that drop). */
  ghost predicate NeverLabelledPastADrop(snaps: seq<Columns>)
    requires snaps != []
  {
    forall i, j | 0 <= i < j < |snaps| ::
      DropsHeld(snaps, j, snaps[i]) ==> LabelIndex(snaps, snaps[i], |snaps| - 1) < j
  }

  /** That holds exactly when, after an entry that drops a column of snapshot i,
      every still later entry shows from snapshot i too: the code only looks at
      what each entry itself drops. */
  lemma LabelSafety(snaps: seq<Columns>)
    requires snaps != []
    ensures NeverLabelledPastADrop(snaps)
       <==> (forall i, j, l | 0 <= i < j < l < |snaps| && DropsHeld(snaps, j, snaps[i]) :: Shows(snaps, i, l))
  {
    if NeverLabelledPastADrop(snaps) {
      forall i, j, l | 0 <= i < j < l < |snaps| && DropsHeld(snaps, j, snaps[i])
        ensures Shows(snaps, i, l)
      {
        assert LabelIndex(snaps, snaps[i], |snaps| - 1) < j;
        assert !Reached(snaps, l, snaps[i]);
      }
    }
    if forall i, j, l | 0 <= i < j < l < |snaps| && DropsHeld(snaps, j, snaps[i]) :: Shows(snaps, i, l) {
      forall i, j | 0 <= i < j < |snaps| && DropsHeld(snaps, j, snaps[i])
        ensures LabelIndex(snaps, snaps[i], |snaps| - 1) < j
      {
        forall l | j <= l < |snaps|
          ensures !Reached(snaps, l, snaps[i])
        {
          assert l == j || Shows(snaps, i, l);
        }
      }
    }
  }

  /** A drop followed by an entry that changes no column: the baseline's
      database is labelled with the second entry, past the drop. */
  lemma NeutralEntryHidesADrop()
    ensures var snaps := [map["people" := {"id", "note"}], map["people" := {"id"}], map["people" := {"id"}]];
            && DropsHeld(snaps, 1, snaps[0])
            && LabelIndex(snaps, snaps[0], 2) == 2
            && !NeverLabelledPastADrop(snaps)
  {
    var snaps: seq<Columns> := [map["people" := {"id", "note"}], map["people" := {"id"}], map["people" := {"id"}]];
    assert "note" in snaps[0]["people"] && "note" !in snaps[1]["people"];
    assert DropsHeld(snaps, 1, snaps[0]);
    assert Reached(snaps, 2, snaps[0]);
  }

  // ------------------------------------------------------------------ the gate

  datatype Refusal = NewerRelease | OlderRelease | UnknownSchema

  /** Every file of this journal is recorded, and a migration it does not have. */
  predicate FromNewerRelease(journal: seq<Entry>, recorded: set<string>) {
    && (forall e | e in journal && e.file.Some? :: Records(recorded, e))
    && (exists h | h in recorded :: forall e | e in journal && e.file.Some? :: e.file.value.hash != h)
  }

  method AssertNotFromNewerRelease(journal: seq<Entry>, recorded: set<string>) returns (newer: bool)
    ensures newer <==> FromNewerRelease(journal, recorded)
  {
    var own: set<string> := {};
    for i := 0 to |journal|
      invariant forall k | 0 <= k < i && journal[k].file.Some? :: Records(recorded, journal[k])
      invariant forall h :: h in own <==> exists k | 0 <= k < i && journal[k].file.Some? :: journal[k].file.value.hash == h
    {
      if journal[i].file.Some? {
        if journal[i].file.value.hash !in recorded {
          assert journal[i] in journal && !Records(recorded, journal[i]);
          return false;
        }
        own := own + {journal[i].file.value.hash};
      }
    }
    newer := recorded - own != {};
    forall h
      ensures h !in own <==> forall e | e in journal && e.file.Some? :: e.file.value.hash != h
    {
      if h in own {
        var k :| 0 <= k < |journal| && journal[k].file.Some? && journal[k].file.value.hash == h;
        assert journal[k] in journal;
      }
    }
    if newer {
      var h :| h in recorded - own;
      assert h in recorded && h !in own;
    } else {
      assert forall h | h in recorded :: h in own || h in recorded - own;
    }
  }

  /** A baseline name some later snapshot lacks; with `held`, only a snapshot
      the database holds in full. */
  ghost predicate DroppedLater(snaps: seq<Columns>, held: Option<Columns>, m: Missing)
    requires snaps != []
  {
    exists j | 0 < j < |snaps| ::
      (held.Some? ==> HoldsAll(snaps[j], held.value)) && Lacks(snaps[0], snaps[j], m)
  }

  method DroppedAfterBaseline(snaps: seq<Columns>, held: Option<Columns>) returns (dropped: set<Missing>)
    requires snaps != []
    ensures forall m :: m in dropped <==> DroppedLater(snaps, held, m)
  {
    dropped := {};
    for j := 1 to |snaps|
      invariant forall m :: m in dropped <==>
        exists k | 0 < k < j :: (held.Some? ==> HoldsAll(snaps[k], held.value)) && Lacks(snaps[0], snaps[k], m)
    {
      var skip := false;
      if held.Some? {
        var missing := MissingFromSnapshot(snaps[j], held.value);
        skip := missing != [];
      }
      if !skip {
        var gone := MissingFromSnapshot(snaps[0], snaps[j]);
        dropped := dropped + set m | m in gone;
      }
    }
  }

  ghost function RefusalOf(journal: seq<Entry>, snaps: seq<Columns>, recorded: set<string>, actual: Columns): Option<Refusal>
    requires |snaps| == |journal|
  {
    if "people" !in actual then None
    else if FromNewerRelease(journal, recorded) then Some(NewerRelease)
    else if journal == [] || Records(recorded, journal[0]) then None
    else if exists m :: Lacks(snaps[0], actual, m) && !DroppedLater(snaps, None, m) then Some(OlderRelease)
    else if exists m :: Lacks(snaps[0], actual, m) && !DroppedLater(snaps, Some(actual), m) then Some(UnknownSchema)
    else None
  }

  method AssertSupportedUpgradePath(journal: seq<Entry>, snaps: seq<Columns>, recorded: set<string>, actual: Columns)
    returns (refusal: Option<Refusal>)
    requires |snaps| == |journal|
    ensures refusal == RefusalOf(journal, snaps, recorded, actual)
  {
    if "people" !in actual {
      return None;
    }
    var newer := AssertNotFromNewerRelease(journal, recorded);
    if newer {
      return Some(NewerRelease);
    }
    if journal == [] || Records(recorded, journal[0]) {
      return None;
    }
    var lacking := MissingFromSnapshot(snaps[0], actual);
    var dropped := DroppedAfterBaseline(snaps, None);
    var excused := DroppedAfterBaseline(snaps, Some(actual));
    if exists m | m in lacking :: m !in dropped {
      return Some(OlderRelease);
    }
    if exists m | m in lacking :: m !in excused {
      return Some(UnknownSchema);
    }
    return None;
  }

  /** A database exactly at any entry's snapshot, its journal cleared, is let
      through. */
  lemma ClearedJournalAccepted(journal: seq<Entry>, snaps: seq<Columns>, i: nat)
    requires i < |snaps| == |journal|
    ensures RefusalOf(journal, snaps, {}, snaps[i]) == None
  {
    forall m | Lacks(snaps[0], snaps[i], m)
      ensures DroppedLater(snaps, Some(snaps[i]), m) && DroppedLater(snaps, None, m)
    {
      assert i > 0 && HoldsAll(snaps[i], snaps[i]);
    }
  }

  /** A database with tables that has not recorded the baseline is let through
      exactly when it is not from a newer release and everything of the baseline
      it lacks, a later snapshot it holds in full lacks in the same way; so every
      baseline table and column is there or gone from a snapshot it holds. */
  lemma AcceptedWithoutBaseline(journal: seq<Entry>, snaps: seq<Columns>, recorded: set<string>, actual: Columns)
    requires |snaps| == |journal| > 0 && "people" in actual && !Records(recorded, journal[0])
    ensures RefusalOf(journal, snaps, recorded, actual) == None
       <==> && !FromNewerRelease(journal, recorded)
            && forall m | Lacks(snaps[0], actual, m) ::
                 exists j | 0 < j < |snaps| :: HoldsAll(snaps[j], actual) && Lacks(snaps[0], snaps[j], m)
    ensures RefusalOf(journal, snaps, recorded, actual) == None ==>
              forall m | HasName(snaps[0], m) ::
                HasName(actual, m) || exists j | 0 < j < |snaps| :: HoldsAll(snaps[j], actual) && !HasName(snaps[j], m)
  {
    forall m | DroppedLater(snaps, Some(actual), m)
      ensures DroppedLater(snaps, None, m)
    {
    }
    if RefusalOf(journal, snaps, recorded, actual) == None {
      forall m | HasName(snaps[0], m) && !HasName(actual, m)
        ensures exists j | 0 < j < |snaps| :: HoldsAll(snaps[j], actual) && !HasName(snaps[j], m)
      {
        var lacked := if m.table in actual then m else MissingTable(m.table);
        assert Lacks(snaps[0], actual, lacked);
        assert DroppedLater(snaps, Some(actual), lacked);
        var j :| 0 < j < |snaps| && HoldsAll(snaps[j], actual) && Lacks(snaps[0], snaps[j], lacked);
        assert !HasName(snaps[j], m);
      }
    }
  }

  /** A database records every file of this journal and something else. */
  lemma NewerIsProperlyMore(journal: seq<Entry>, recorded: set<string>)
    ensures FromNewerRelease(journal, recorded) <==> FileHashes(journal) < recorded
  {
    var own := FileHashes(journal);
    assert (forall e | e in journal && e.file.Some? :: Records(recorded, e)) <==> own <= recorded;
    if h :| h in recorded && forall e | e in journal && e.file.Some? :: e.file.value.hash != h {
      assert h !in own;
    }
    if own < recorded {
      var h :| h in recorded && h !in own;
      assert forall e | e in journal && e.file.Some? :: e.file.value.hash in own;
    }
  }

  /** The one answer, from the recorded hashes and the snapshots: nothing is asked of
      a fresh install; then a database that records more than the whole journal is a
      newer release's; then one that records the baseline is let through; then one
      that lacks something of the baseline that every later snapshot has is older;
      then one that lacks something that every later snapshot it holds in full has is
      unknown; any other is let through. */
  lemma RefusedExactly(journal: seq<Entry>, snaps: seq<Columns>, recorded: set<string>, actual: Columns)
    requires |snaps| == |journal|
    ensures var answer := RefusalOf(journal, snaps, recorded, actual);
            && (answer == Some(NewerRelease) <==> "people" in actual && FileHashes(journal) < recorded)
            && (answer == Some(OlderRelease) <==>
                  && "people" in actual && !(FileHashes(journal) < recorded) && BaselineUnrecorded(journal, recorded)
                  && LacksForever(snaps, {}, actual))
            && (answer == Some(UnknownSchema) <==>
                  && "people" in actual && !(FileHashes(journal) < recorded) && BaselineUnrecorded(journal, recorded)
                  && !LacksForever(snaps, {}, actual) && LacksForever(snaps, NotHeld(snaps, actual), actual))
            && ("people" !in actual ==> answer == None)
  {
    NewerIsProperlyMore(journal, recorded);
    if snaps != [] {
      NotDroppedLater(snaps, None, {}, actual);
      NotDroppedLater(snaps, Some(actual), NotHeld(snaps, actual), actual);
    }
    hide FromNewerRelease, FileHashes, Lacks, DroppedLater, LacksForever, NotHeld;
  }

  predicate BaselineUnrecorded(journal: seq<Entry>, recorded: set<string>) {
    journal != [] && FileHashes(journal[..1]) !! recorded
  }

  /** Later snapshots with something the database lacks. */
  ghost function NotHeld(snaps: seq<Columns>, actual: Columns): set<nat> {
    set j | 0 <= j < |snaps| && exists n :: HasName(snaps[j], n) && !HasName(actual, n)
  }

  /** The database lacks a table of the baseline, or a column of a table it has, that
      is in every later snapshot but those left out. */
  ghost predicate LacksForever(snaps: seq<Columns>, leftOut: set<nat>, actual: Columns) {
    snaps != [] && exists n | HasName(snaps[0], n) && !HasName(actual, n) && (n.MissingColumn? ==> n.table in actual) ::
      forall j | 0 < j < |snaps| && j !in leftOut :: HasName(snaps[j], n) || (n.MissingColumn? && n.table !in snaps[j])
  }

  lemma NotDroppedLater(snaps: seq<Columns>, held: Option<Columns>, leftOut: set<nat>, actual: Columns)
    requires snaps != []
    requires (held == None && leftOut == {}) || (held == Some(actual) && leftOut == NotHeld(snaps, actual))
    ensures (exists m :: Lacks(snaps[0], actual, m) && !DroppedLater(snaps, held, m)) <==> LacksForever(snaps, leftOut, actual)
  {
    forall j | 0 <= j < |snaps|
      ensures HoldsAll(snaps[j], actual) <==> j !in NotHeld(snaps, actual)
    {
      if HoldsAll(snaps[j], actual) {
        assert forall n | HasName(snaps[j], n) :: HasName(actual, n);
      } else {
        var t :| t in snaps[j] && !(t in actual && snaps[j][t] <= actual[t]);
        if t in actual {
          var c :| c in snaps[j][t] && c !in actual[t];
          assert HasName(snaps[j], MissingColumn(t, c)) && !HasName(actual, MissingColumn(t, c));
        } else {
          assert HasName(snaps[j], MissingTable(t)) && !HasName(actual, MissingTable(t));
        }
      }
    }
    hide HoldsAll, NotHeld;
    if m :| Lacks(snaps[0], actual, m) && !DroppedLater(snaps, held, m) {
      assert HasName(snaps[0], m) && !HasName(actual, m);
      forall j | 0 < j < |snaps| && j !in leftOut
        ensures HasName(snaps[j], m) || (m.MissingColumn? && m.table !in snaps[j])
      {
        assert !Lacks(snaps[0], snaps[j], m);
      }
    }
    if LacksForever(snaps, leftOut, actual) {
      var n :| HasName(snaps[0], n) && !HasName(actual, n) && (n.MissingColumn? ==> n.table in actual)
        && forall j | 0 < j < |snaps| && j !in leftOut :: HasName(snaps[j], n) || (n.MissingColumn? && n.table !in snaps[j]);
      assert Lacks(snaps[0], actual, n);
      forall j | 0 < j < |snaps| && (held.Some? ==> HoldsAll(snaps[j], actual))
        ensures !Lacks(snaps[0], snaps[j], n)
      {
        assert j !in leftOut;
      }
    }
  }

  /** With the baseline recorded, a database is let through unless it records more
      than the whole journal, whatever its tables. */
  lemma BaselineRecordedAccepted(journal: seq<Entry>, snaps: seq<Columns>, recorded: set<string>, actual: Columns)
    requires |snaps| == |journal| > 0 && journal[0].file.Some? && journal[0].file.value.hash in recorded
    ensures RefusalOf(journal, snaps, recorded, actual) == None <==> "people" !in actual || !(FileHashes(journal) < recorded)
    ensures (exists e | e in journal && e.file.Some? :: e.file.value.hash !in recorded) ==>
              RefusalOf(journal, snaps, recorded, actual) == None
  {
    RefusedExactly(journal, snaps, recorded, actual);
    assert journal[..1][0] == journal[0] && journal[0] in journal[..1];
    assert journal[0].file.value.hash in FileHashes(journal[..1]);
    if e :| e in journal && e.file.Some? && e.file.value.hash !in recorded {
      assert e.file.value.hash in FileHashes(journal);
    }
    hide RefusalOf, LacksForever, NotHeld;
  }
}
