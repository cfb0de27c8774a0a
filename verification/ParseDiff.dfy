/** The ratchets' own reading of a diff: the lines each file gains and loses. */
module ParseDiff {
  import opened Options
  import opened Diffs

  datatype Delta = Delta(added: seq<string>, deleted: seq<string>)

  datatype Parser = Parser(files: map<string, Delta>, oldFile: string, newFile: string, header: bool)

  function DeltaOf(files: map<string, Delta>, f: string): Delta {
    if f in files then files[f] else Delta([], [])
  }

  function PushAdded(files: map<string, Delta>, f: string, text: string): map<string, Delta> {
    var d := DeltaOf(files, f);
    files[f := d.(added := d.added + [text])]
  }

  function PushDeleted(files: map<string, Delta>, f: string, text: string): map<string, Delta> {
    var d := DeltaOf(files, f);
    files[f := d.(deleted := d.deleted + [text])]
  }

  const NO_LINES := Parser(map[], "", "", false)

  function ParseLine(p: Parser, line: string): Parser {
    if GIT <= line then Parser(p.files, "", "", true)
    else if "@@" <= line then p.(header := false)
    else if p.header then
      if "--- " <= line then p.(oldFile := if "--- a/" <= line then line[6..] else "")
      else if "+++ " <= line then p.(newFile := if "+++ b/" <= line then line[6..] else "")
      else p
    else if "+" <= line && p.newFile != "" then p.(files := PushAdded(p.files, p.newFile, line[1..]))
    else if "-" <= line && p.oldFile != "" then p.(files := PushDeleted(p.files, p.oldFile, line[1..]))
    else p
  }

  function ParseLines(p: Parser, lines: seq<string>): Parser
    decreases |lines|
  {
    if lines == [] then p else ParseLines(ParseLine(p, lines[0]), lines[1..])
  }

  method Parse(lines: seq<string>) returns (files: map<string, Delta>)
    ensures files == ParseLines(NO_LINES, lines).files
  {
    files := map[];
    var oldFile, newFile, header := "", "", false;
    for i := 0 to |lines|
      invariant ParseLines(NO_LINES, lines) == ParseLines(Parser(files, oldFile, newFile, header), lines[i..])
    {
      var line := lines[i];
      assert lines[i..][1..] == lines[i + 1..];
      if GIT <= line {
        header, oldFile, newFile := true, "", "";
      } else if "@@" <= line {
        header := false;
      } else if header {
        if "--- " <= line {
          oldFile := if "--- a/" <= line then line[6..] else "";
        } else if "+++ " <= line {
          newFile := if "+++ b/" <= line then line[6..] else "";
        }
      } else if "+" <= line && newFile != "" {
        files := PushAdded(files, newFile, line[1..]);
      } else if "-" <= line && oldFile != "" {
        files := PushDeleted(files, oldFile, line[1..]);
      }
    }
    assert lines[|lines|..] == [];
  }

  // ---------------------------------------------------------- what was rendered

  function Added(bs: seq<Block>): seq<string> {
    if bs == [] then [] else (if bs[0].Change? then bs[0].added else []) + Added(bs[1..])
  }

  function Removed(bs: seq<Block>): seq<string> {
    if bs == [] then [] else (if bs[0].Change? then bs[0].removed else []) + Removed(bs[1..])
  }

  function Adds(s: FileScript, f: string): seq<string> {
    if s.newName == Some(f) then Added(Flatten(s.hunks)) else []
  }

  function Deletes(s: FileScript, f: string): seq<string> {
    if s.oldName == Some(f) then Removed(Flatten(s.hunks)) else []
  }

  /** The lines a whole diff adds to a file, in order. */
  function AddedTo(ss: seq<FileScript>, f: string): seq<string> {
    if ss == [] then [] else Adds(ss[0], f) + AddedTo(ss[1..], f)
  }

  function DeletedFrom(ss: seq<FileScript>, f: string): seq<string> {
    if ss == [] then [] else Deletes(ss[0], f) + DeletedFrom(ss[1..], f)
  }

  /** File f gained and lost these lines, and is listed if it has any. */
  ghost predicate Gained(a: map<string, Delta>, b: map<string, Delta>, f: string, add: seq<string>, del: seq<string>) {
    && DeltaOf(b, f) == Delta(DeltaOf(a, f).added + add, DeltaOf(a, f).deleted + del)
    && (f in b <==> f in a || add != [] || del != [])
  }

  lemma GainedTwice(a: map<string, Delta>, b: map<string, Delta>, c: map<string, Delta>, f: string,
                    add1: seq<string>, del1: seq<string>, add2: seq<string>, del2: seq<string>)
    requires Gained(a, b, f, add1, del1) && Gained(b, c, f, add2, del2)
    ensures Gained(a, c, f, add1 + add2, del1 + del2)
  {
  }

  /** The lines, for the named file; "" names no file. */
  function For(lines: seq<string>, name: string, f: string): seq<string> {
    if f == name && name != "" then lines else []
  }

  /** b is a with lines added to file n and lines deleted from file o. */
  ghost predicate Pushed(a: map<string, Delta>, b: map<string, Delta>, n: string, added: seq<string>, o: string, deleted: seq<string>) {
    forall f :: Gained(a, b, f, For(added, n, f), For(deleted, o, f))
  }

  lemma ForBoth(one: seq<string>, two: seq<string>, name: string, f: string)
    ensures For(one + two, name, f) == For(one, name, f) + For(two, name, f)
  {
  }

  lemma PushedTwice(a: map<string, Delta>, b: map<string, Delta>, c: map<string, Delta>,
                    n: string, add1: seq<string>, add2: seq<string>, o: string, del1: seq<string>, del2: seq<string>)
    requires Pushed(a, b, n, add1, o, del1) && Pushed(b, c, n, add2, o, del2)
    ensures Pushed(a, c, n, add1 + add2, o, del1 + del2)
  {
    hide Gained, For;
    forall f
      ensures Gained(a, c, f, For(add1 + add2, n, f), For(del1 + del2, o, f))
    {
      ForBoth(add1, add2, n, f);
      ForBoth(del1, del2, o, f);
      GainedTwice(a, b, c, f, For(add1, n, f), For(del1, o, f), For(add2, n, f), For(del2, o, f));
    }
  }

  lemma {:induction false} ParseConcat(p: Parser, a: seq<string>, b: seq<string>)
    ensures ParseLines(p, a + b) == ParseLines(ParseLines(p, a), b)
    decreases |a|
  {
    hide ParseLine;
    if a == [] {
      assert a + b == b;
    } else {
      assert (a + b)[1..] == a[1..] + b;
      ParseConcat(ParseLine(p, a[0]), a[1..], b);
    }
  }

  lemma ParseOne(p: Parser, text: string)
    requires !p.header
    ensures ParseLine(p, " " + text) == p
    ensures ParseLine(p, "+" + text) == if p.newFile == "" then p else p.(files := PushAdded(p.files, p.newFile, text))
    ensures ParseLine(p, "-" + text) == if p.oldFile == "" then p else p.(files := PushDeleted(p.files, p.oldFile, text))
  {
    LinesOfAHunk(text);
    assert ("-" + text)[0] == '-' && "+"[0] == '+';
  }

  lemma NothingPushed(a: map<string, Delta>, n: string, o: string)
    ensures Pushed(a, a, n, [], o, [])
  {
  }

  lemma PushOne(a: map<string, Delta>, n: string, o: string, text: string)
    ensures Pushed(a, if n == "" then a else PushAdded(a, n, text), n, [text], o, [])
    ensures Pushed(a, if o == "" then a else PushDeleted(a, o, text), n, [], o, [text])
  {
    forall f
      ensures Gained(a, if n == "" then a else PushAdded(a, n, text), f, For([text], n, f), For([], o, f))
      ensures Gained(a, if o == "" then a else PushDeleted(a, o, text), f, For([], n, f), For([text], o, f))
    {
    }
  }

  lemma PushedOne(p: Parser, text: string)
    requires !p.header
    ensures var q := ParseLine(p, "-" + text);
            q == p.(files := q.files) && Pushed(p.files, q.files, p.newFile, [], p.oldFile, [text])
    ensures var q := ParseLine(p, "+" + text);
            q == p.(files := q.files) && Pushed(p.files, q.files, p.newFile, [text], p.oldFile, [])
  {
    ParseOne(p, text);
    hide ParseLine;
    PushOne(p.files, p.newFile, p.oldFile, text);
    NothingPushed(p.files, p.newFile, p.oldFile);
    hide Pushed, PushAdded, PushDeleted;
  }

  lemma PrefixedUnfolds(p: Parser, mark: char, texts: seq<string>)
    ensures ParseLines(p, Prefixed(mark, texts))
         == if texts == [] then p else ParseLines(ParseLine(p, [mark] + texts[0]), Prefixed(mark, texts[1..]))
  {
    hide ParseLine;
  }

  lemma {:induction false} ParseRemoved(p: Parser, texts: seq<string>)
    requires !p.header
    ensures var q := ParseLines(p, Prefixed('-', texts));
            q == p.(files := q.files) && Pushed(p.files, q.files, p.newFile, [], p.oldFile, texts)
    decreases |texts|
  {
    PrefixedUnfolds(p, '-', texts);
    hide ParseLine, ParseLines, Pushed, Prefixed;
    if texts == [] {
      NothingPushed(p.files, p.newFile, p.oldFile);
    } else {
      PushedOne(p, texts[0]);
      var next := ParseLine(p, "-" + texts[0]);
      ParseRemoved(next, texts[1..]);
      var q := ParseLines(next, Prefixed('-', texts[1..]));
      PushedTwice(p.files, next.files, q.files, p.newFile, [], [], p.oldFile, [texts[0]], texts[1..]);
      assert (var none: seq<string> := []; none + none == none);
      assert [texts[0]] + texts[1..] == texts;
    }
  }

  lemma {:induction false} ParseAdded(p: Parser, texts: seq<string>)
    requires !p.header
    ensures var q := ParseLines(p, Prefixed('+', texts));
            q == p.(files := q.files) && Pushed(p.files, q.files, p.newFile, texts, p.oldFile, [])
    decreases |texts|
  {
    PrefixedUnfolds(p, '+', texts);
    hide ParseLine, ParseLines, Pushed, Prefixed;
    if texts == [] {
      NothingPushed(p.files, p.newFile, p.oldFile);
    } else {
      PushedOne(p, texts[0]);
      var next := ParseLine(p, "+" + texts[0]);
      ParseAdded(next, texts[1..]);
      var q := ParseLines(next, Prefixed('+', texts[1..]));
      PushedTwice(p.files, next.files, q.files, p.newFile, [texts[0]], texts[1..], p.oldFile, [], []);
      assert (var none: seq<string> := []; none + none == none);
      assert [texts[0]] + texts[1..] == texts;
    }
  }

  lemma {:induction false} ParseNotes(p: Parser, notes: seq<string>)
    requires !p.header && AreNotes(notes)
    ensures ParseLines(p, notes) == p
    decreases |notes|
  {
    hide ParseLine;
    if notes != [] {
      assert notes[0] in notes;
      assert forall n :: n in notes[1..] ==> n in notes;
      ParseNote(p, notes[0]);
      ParseNotes(p, notes[1..]);
    }
  }

  lemma ParseNote(p: Parser, note: string)
    requires !p.header && "\\" <= note
    ensures ParseLine(p, note) == p
  {
    NoteIsNoLine(note);
  }

  lemma ParseSingle(p: Parser, line: string)
    ensures ParseLines(p, [line]) == ParseLine(p, line)
  {
    hide ParseLine;
    var one := [line];
    assert one[1..] == [];
  }

  lemma ParseKeep(p: Parser, text: string, notes: seq<string>)
    requires !p.header && AreNotes(notes)
    ensures ParseLines(p, [" " + text] + notes) == p
  {
    hide ParseLine, ParseLines, AreNotes;
    ParseConcat(p, [" " + text], notes);
    ParseSingle(p, " " + text);
    ParseOne(p, text);
    ParseNotes(p, notes);
  }

  lemma ParseChange(p: Parser, b: Block)
    requires !p.header && b.Change? && AreNotes(b.oldNotes) && AreNotes(b.newNotes)
    ensures var q := ParseLines(p, RenderBlock(b));
            q == p.(files := q.files) && Pushed(p.files, q.files, p.newFile, b.added, p.oldFile, b.removed)
  {
    hide ParseLine, ParseLines, Pushed, AreNotes, Prefixed;
    var minus, plus := Prefixed('-', b.removed), Prefixed('+', b.added);
    ParseConcat(p, minus + b.oldNotes, plus + b.newNotes);
    ParseConcat(p, minus, b.oldNotes);
    ParseRemoved(p, b.removed);
    var mid := ParseLines(p, minus);
    ParseNotes(mid, b.oldNotes);
    ParseConcat(mid, plus, b.newNotes);
    ParseAdded(mid, b.added);
    var q := ParseLines(mid, plus);
    ParseNotes(q, b.newNotes);
    PushedTwice(p.files, mid.files, q.files, p.newFile, [], b.added, p.oldFile, b.removed, []);
    assert [] + b.added == b.added && b.removed + [] == b.removed;
  }

  lemma ParseBlock(p: Parser, b: Block)
    requires !p.header && AreNotes(Notes(b))
    ensures var q := ParseLines(p, RenderBlock(b));
            && q == p.(files := q.files)
            && Pushed(p.files, q.files, p.newFile, if b.Change? then b.added else [], p.oldFile, if b.Change? then b.removed else [])
  {
    hide ParseLine, ParseLines, Pushed, AreNotes;
    match b {
      case Keep(text, notes) =>
        ParseKeep(p, text, notes);
        NothingPushed(p.files, p.newFile, p.oldFile);
      case Change(_, _, _, _) =>
        NotesOfBoth(b);
        ParseChange(p, b);
    }
  }

  lemma {:induction false} ParseBlocks(p: Parser, bs: seq<Block>)
    requires !p.header && forall b | b in bs :: AreNotes(Notes(b))
    ensures var q := ParseLines(p, RenderBlocks(bs));
            q == p.(files := q.files) && Pushed(p.files, q.files, p.newFile, Added(bs), p.oldFile, Removed(bs))
    decreases |bs|
  {
    hide ParseLine, Pushed, RenderBlock, AreNotes, Notes;
    if bs == [] {
      NothingPushed(p.files, p.newFile, p.oldFile);
    } else {
      ParseBlock(p, bs[0]);
      ParseConcat(p, RenderBlock(bs[0]), RenderBlocks(bs[1..]));
      var mid := ParseLines(p, RenderBlock(bs[0]));
      ParseBlocks(mid, bs[1..]);
      var q := ParseLines(mid, RenderBlocks(bs[1..]));
      PushedTwice(p.files, mid.files, q.files,
                  p.newFile, if bs[0].Change? then bs[0].added else [], Added(bs[1..]),
                  p.oldFile, if bs[0].Change? then bs[0].removed else [], Removed(bs[1..]));
    }
  }

  lemma {:induction false} LinesConcat(a: seq<Block>, b: seq<Block>)
    ensures Added(a + b) == Added(a) + Added(b) && Removed(a + b) == Removed(a) + Removed(b)
    decreases |a|
  {
    if a == [] {
      assert a + b == b;
    } else {
      assert (a + b)[0] == a[0] && (a + b)[1..] == a[1..] + b;
      LinesConcat(a[1..], b);
    }
  }

  lemma ParseHunk(p: Parser, h: Hunk)
    requires ValidHunk(h)
    ensures var q := ParseLines(p, [h.at] + RenderBlocks(h.blocks));
            && q == p.(files := q.files, header := false)
            && Pushed(p.files, q.files, p.newFile, Added(h.blocks), p.oldFile, Removed(h.blocks))
  {
    hide ParseLine, ParseLines, Pushed, RenderBlocks, AreNotes, Notes;
    ParseAt(p, h.at);
    ParseSingle(p, h.at);
    ParseConcat(p, [h.at], RenderBlocks(h.blocks));
    ParseBlocks(p.(header := false), h.blocks);
  }

  lemma {:induction false} ParseHunks(p: Parser, hs: seq<Hunk>)
    requires forall h | h in hs :: ValidHunk(h)
    ensures var q := ParseLines(p, RenderHunks(hs));
            && q == p.(files := q.files, header := q.header) && (hs == [] ==> q == p)
            && Pushed(p.files, q.files, p.newFile, Added(Flatten(hs)), p.oldFile, Removed(Flatten(hs)))
    decreases |hs|
  {
    if hs == [] {
      NothingPushed(p.files, p.newFile, p.oldFile);
    } else {
      hide ParseLine, ParseLines, Pushed, RenderBlocks, ValidHunk;
      var first, rest := [hs[0].at] + RenderBlocks(hs[0].blocks), hs[1..];
      ParseHunk(p, hs[0]);
      ParseConcat(p, first, RenderHunks(rest));
      var mid := ParseLines(p, first);
      ParseHunks(mid, rest);
      var q := ParseLines(mid, RenderHunks(rest));
      PushedTwice(p.files, mid.files, q.files, p.newFile, Added(hs[0].blocks), Added(Flatten(rest)),
                  p.oldFile, Removed(hs[0].blocks), Removed(Flatten(rest)));
      LinesConcat(hs[0].blocks, Flatten(rest));
    }
  }

  lemma ParseAt(p: Parser, at: string)
    requires "@@" <= at
    ensures ParseLine(p, at) == p.(header := false)
  {
    assert at[0] == '@' && GIT[0] == 'd';
  }

  // ------------------------------------------------------- headers and whole diffs

  lemma ParseHeadLine(p: Parser, l: string)
    requires p.header && Inert(l)
    ensures ParseLine(p, l) == p
  {
  }

  lemma {:induction false} ParseHead(p: Parser, head: seq<string>)
    requires p.header && forall l | l in head :: Inert(l)
    ensures ParseLines(p, head) == p
    decreases |head|
  {
    hide ParseLine, Inert;
    if head != [] {
      ParseHeadLine(p, head[0]);
      ParseHead(p, head[1..]);
    }
  }

  function Named(name: Option<string>): string {
    match name case Some(n) => n case None => ""
  }

  lemma ParseNames(files: map<string, Delta>, s: FileScript)
    ensures ParseLine(ParseLine(Parser(files, "", "", true), OldNameLine(s.oldName)), NewNameLine(s.newName))
         == Parser(files, Named(s.oldName), Named(s.newName), true)
  {
    var o, n := OldNameLine(s.oldName), NewNameLine(s.newName);
    assert o[0] == '-' && n[0] == '+' && GIT[0] == 'd' && "@@"[0] == '@';
    assert o[..4] == "--- " && n[..4] == "+++ ";
    match s.oldName {
      case Some(name) => assert o[..6] == "--- a/" && o[6..] == name;
      case None => assert o[4] == '/' && "--- a/"[4] == 'a';
    }
    match s.newName {
      case Some(name) => assert n[..6] == "+++ b/" && n[6..] == name;
      case None => assert n[4] == '/' && "+++ b/"[4] == 'b';
    }
  }

  lemma ParseFile(p: Parser, s: FileScript)
    requires ValidScript(s)
    ensures Pushed(p.files, ParseLines(p, Render(s)).files,
                   Named(s.newName), Added(Flatten(s.hunks)), Named(s.oldName), Removed(Flatten(s.hunks)))
  {
    var start := Parser(p.files, "", "", true);
    assert ParseLine(p, s.git) == start;
    hide ParseLine, Pushed, RenderHunks, Flatten, OldNameLine, NewNameLine, ValidHunk;
    var git: seq<string> := [s.git];
    assert git[1..] == [] && ParseLines(p, git) == start;
    ParseConcat(p, git, s.head);
    ParseHead(start, s.head);
    if s.hunks == [] {
      assert Render(s) == git + s.head;
      ParseHunks(start, s.hunks);
      NoLines();
      NothingPushed(p.files, Named(s.newName), Named(s.oldName));
    } else {
      var names: seq<string> := [OldNameLine(s.oldName), NewNameLine(s.newName)];
      assert Render(s) == (git + s.head) + (names + RenderHunks(s.hunks));
      ParseConcat(p, git + s.head, names + RenderHunks(s.hunks));
      ParseConcat(start, names, RenderHunks(s.hunks));
      ParseNames(p.files, s);
      assert names[1..][1..] == [] && names[1..][0] == names[1];
      ParseHunks(Parser(p.files, Named(s.oldName), Named(s.newName), true), s.hunks);
    }
  }

  lemma NoLines()
    ensures Added(Flatten([])) == [] && Removed(Flatten([])) == []
  {
  }

  /** Rendered as a diff and parsed, any edits give each file exactly the lines
      they add to it and delete from it, in order, and list exactly the files
      with such a line. */
  lemma {:induction false} ParseRoundTrip(ss: seq<FileScript>, p: Parser, f: string)
    requires f != "" && forall s | s in ss :: ValidScript(s)
    ensures Gained(p.files, ParseLines(p, RenderAll(ss)).files, f, AddedTo(ss, f), DeletedFrom(ss, f))
    decreases |ss|
  {
    hide ParseLine, ParseLines, Render, ValidScript, Pushed, Gained, Adds, Deletes;
    if ss == [] {
      ParseNothing(p);
      GainedNothing(p.files, f);
    } else {
      var s, rest := ss[0], ss[1..];
      ParseFile(p, s);
      ParseConcat(p, Render(s), RenderAll(rest));
      var mid := ParseLines(p, Render(s));
      PushedAt(p.files, mid.files, s, f);
      ParseRoundTrip(rest, mid, f);
      GainedTwice(p.files, mid.files, ParseLines(mid, RenderAll(rest)).files, f,
                  Adds(s, f), Deletes(s, f), AddedTo(rest, f), DeletedFrom(rest, f));
    }
  }

  lemma GainedNothing(a: map<string, Delta>, f: string)
    ensures Gained(a, a, f, [], [])
  {
  }

  lemma ParseNothing(p: Parser)
    ensures ParseLines(p, []) == p
  {
  }

  lemma PushedAt(a: map<string, Delta>, b: map<string, Delta>, s: FileScript, f: string)
    requires f != "" && ValidScript(s)
    requires Pushed(a, b, Named(s.newName), Added(Flatten(s.hunks)), Named(s.oldName), Removed(Flatten(s.hunks)))
    ensures Gained(a, b, f, Adds(s, f), Deletes(s, f))
  {
    var added, removed := Added(Flatten(s.hunks)), Removed(Flatten(s.hunks));
    assert Gained(a, b, f, For(added, Named(s.newName), f), For(removed, Named(s.oldName), f));
    assert For(added, Named(s.newName), f) == Adds(s, f) && For(removed, Named(s.oldName), f) == Deletes(s, f);
  }

  // ------------------------------------------------------------- the two agree

  ghost function ChangedTexts(side: DiffSide): seq<string>
    requires MarksInside(side)
  {
    seq(|side.changed|, k requires 0 <= k < |side.changed| =>
      assert side.changed[k] in side.changed; side.lines[side.changed[k].at])
  }

  ghost predicate MarksInside(side: DiffSide) {
    forall m | m in side.changed :: m.at < |side.lines|
  }

  /** A side with more lines, marked or not. */
  ghost function MarkedWith(side: DiffSide, text: seq<string>, marked: bool, group: nat): DiffSide {
    DiffSide(side.lines + text, side.changed + if marked then Marks(|side.lines|, |text|, group) else [])
  }

  lemma MarkStep(side: DiffSide, text: seq<string>, marked: bool, group: nat)
    requires MarksInside(side)
    ensures var next := MarkedWith(side, text, marked, group);
            MarksInside(next) && ChangedTexts(next) == ChangedTexts(side) + if marked then text else []
  {
    var marks := if marked then Marks(|side.lines|, |text|, group) else [];
    var next := DiffSide(side.lines + text, side.changed + marks);
    forall m | m in next.changed
      ensures m.at < |next.lines|
    {
      assert m in side.changed || m in marks;
    }
    assert forall k | 0 <= k < |side.changed| :: side.changed[k] in side.changed;
  }

  lemma SidesOf(side: DiffSide, bs: seq<Block>, group: nat)
    ensures bs == [] ==> OldSide(side, bs, group) == NewSide(side, bs, group) == side
    ensures bs != [] ==>
      var g := if bs[0].Change? then group + 1 else group;
      && OldSide(side, bs, group) == OldSide(MarkedWith(side, OldText(bs[0]), bs[0].Change?, g), bs[1..], g)
      && NewSide(side, bs, group) == NewSide(MarkedWith(side, NewText(bs[0]), bs[0].Change?, g), bs[1..], g)
  {
  }

  lemma LinesUnfold(bs: seq<Block>)
    ensures bs == [] ==> Added(bs) == Removed(bs) == []
    ensures bs != [] ==>
      && Added(bs) == (if bs[0].Change? then bs[0].added else []) + Added(bs[1..])
      && Removed(bs) == (if bs[0].Change? then bs[0].removed else []) + Removed(bs[1..])
  {
  }

  /** One side's marks give its changed texts, for any blocks. */
  lemma {:induction false} MarkedOld(side: DiffSide, bs: seq<Block>, group: nat)
    requires MarksInside(side)
    ensures MarksInside(OldSide(side, bs, group)) && ChangedTexts(OldSide(side, bs, group)) == ChangedTexts(side) + Removed(bs)
    decreases |bs|
  {
    SidesOf(side, bs, group);
    hide ChangedTexts, MarksInside, MarkedWith, OldSide, Removed;
    LinesUnfold(bs);
    if bs != [] {
      var g := if bs[0].Change? then group + 1 else group;
      MarkStep(side, OldText(bs[0]), bs[0].Change?, g);
      var next := MarkedWith(side, OldText(bs[0]), bs[0].Change?, g);
      MarkedOld(next, bs[1..], g);
      var text := if bs[0].Change? then OldText(bs[0]) else [];
      assert Removed(bs) == text + Removed(bs[1..]);
      assert (ChangedTexts(side) + text) + Removed(bs[1..]) == ChangedTexts(side) + (text + Removed(bs[1..]));
    }
  }

  lemma {:induction false} MarkedNew(side: DiffSide, bs: seq<Block>, group: nat)
    requires MarksInside(side)
    ensures MarksInside(NewSide(side, bs, group)) && ChangedTexts(NewSide(side, bs, group)) == ChangedTexts(side) + Added(bs)
    decreases |bs|
  {
    SidesOf(side, bs, group);
    hide ChangedTexts, MarksInside, MarkedWith, NewSide, Added;
    LinesUnfold(bs);
    if bs != [] {
      var g := if bs[0].Change? then group + 1 else group;
      MarkStep(side, NewText(bs[0]), bs[0].Change?, g);
      var next := MarkedWith(side, NewText(bs[0]), bs[0].Change?, g);
      MarkedNew(next, bs[1..], g);
      var text := if bs[0].Change? then NewText(bs[0]) else [];
      assert Added(bs) == text + Added(bs[1..]);
      assert (ChangedTexts(side) + text) + Added(bs[1..]) == ChangedTexts(side) + (text + Added(bs[1..]));
    }
  }

  lemma MarkedInFile(s: FileScript, group: nat)
    ensures var file := ExpectedFile(s, group);
            && MarksInside(file.old_) && ChangedTexts(file.old_) == Removed(Flatten(s.hunks))
            && MarksInside(file.new_) && ChangedTexts(file.new_) == Added(Flatten(s.hunks))
  {
    MarkedOld(EMPTY_SIDE, Flatten(s.hunks), group);
    MarkedNew(EMPTY_SIDE, Flatten(s.hunks), group);
  }

  ghost predicate AllInside(files: seq<FileDiff>) {
    forall d | d in files :: MarksInside(d.old_) && MarksInside(d.new_)
  }

  /** The texts marked as changed on one side of the files of a diff whose scripts
      name f there, one file after another. */
  ghost function MarkedDeleted(files: seq<FileDiff>, ss: seq<FileScript>, f: string): seq<string>
    requires |files| == |ss| && AllInside(files)
  {
    if ss == [] then []
    else (if ss[0].oldName == Some(f) then ChangedTexts(files[0].old_) else []) + MarkedDeleted(files[1..], ss[1..], f)
  }

  ghost function MarkedAdded(files: seq<FileDiff>, ss: seq<FileScript>, f: string): seq<string>
    requires |files| == |ss| && AllInside(files)
  {
    if ss == [] then []
    else (if ss[0].newName == Some(f) then ChangedTexts(files[0].new_) else []) + MarkedAdded(files[1..], ss[1..], f)
  }

  lemma {:induction false} MarkedIsChanged(ss: seq<FileScript>, group: nat, f: string)
    ensures |Expected(ss, group)| == |ss| && AllInside(Expected(ss, group))
    ensures MarkedDeleted(Expected(ss, group), ss, f) == DeletedFrom(ss, f)
    ensures MarkedAdded(Expected(ss, group), ss, f) == AddedTo(ss, f)
  {
    hide MarksInside, ChangedTexts, ExpectedFile, Changes, Flatten;
    if ss != [] {
      var g := group + Changes(Flatten(ss[0].hunks));
      MarkedInFile(ss[0], group);
      MarkedIsChanged(ss[1..], g, f);
      assert Expected(ss, group)[1..] == Expected(ss[1..], g);
    }
  }

  lemma EmptyLineParsed(p: Parser)
    ensures ParseLines(p, [""]) == p
  {
    ParseSingle(p, "");
  }

  /** Both parsers over what git prints for any edits: for every file name, what the
      commit check marks as changed in the files of that name, one after another, is
      what the ratchets parse as the file's added and deleted lines. */
  lemma ParsersAgree(ss: seq<FileScript>, f: string)
    requires f != "" && forall s | s in ss :: ValidScript(s)
    ensures var files := ReadLines(START, Printed(ss)).files;
            && |files| == |ss| && AllInside(files)
            && DeltaOf(ParseLines(NO_LINES, Printed(ss)).files, f)
               == Delta(MarkedAdded(files, ss, f), MarkedDeleted(files, ss, f))
    ensures Gained(map[], ParseLines(NO_LINES, Printed(ss)).files, f, AddedTo(ss, f), DeletedFrom(ss, f))
  {
    hide ReadLines, ParseLines, RenderAll, ValidScript, AllInside, MarkedAdded, MarkedDeleted;
    PrintedRoundTrip(ss);
    MarkedIsChanged(ss, 0, f);
    ParseRoundTrip(ss, NO_LINES, f);
    ParseConcat(NO_LINES, RenderAll(ss), [""]);
    EmptyLineParsed(ParseLines(NO_LINES, RenderAll(ss)));
  }
}
