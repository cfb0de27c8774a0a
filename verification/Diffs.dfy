/** Unified diffs: what git renders from the edits to each file, and the two
    parsers that read it back. */
module Diffs {
  import opened Options

  /** A kept line or a maximal run of changed ones, each side with the notes git
      prints after it: that the file ends without a newline. */
  datatype Block =
    | Keep(text: string, notes: seq<string>)
    | Change(removed: seq<string>, oldNotes: seq<string>, added: seq<string>, newNotes: seq<string>)

  datatype Hunk = Hunk(at: string, blocks: seq<Block>)

  /** One file of a diff: the line it starts with, its names (none on the side
      where it does not exist), git's other header lines, and its hunks. */
  datatype FileScript = FileScript(
    git: string, oldName: Option<string>, newName: Option<string>, head: seq<string>, hunks: seq<Hunk>)

  const GIT := "diff --git "

  predicate IsModeLine(line: string) {
    "new file mode " <= line || "deleted file mode " <= line
  }

  function Notes(b: Block): seq<string> {
    match b case Keep(_, notes) => notes case Change(_, oldNotes, _, newNotes) => oldNotes + newNotes
  }

  predicate AreNotes(notes: seq<string>) {
    forall n | n in notes :: "\\" <= n
  }

  /** Change blocks are not empty and have a kept line between them. */
  predicate ValidBlocks(bs: seq<Block>) {
    && (forall k | 0 <= k < |bs| && bs[k].Change? :: |bs[k].removed| + |bs[k].added| > 0)
    && (forall k | 0 <= k < |bs| - 1 :: bs[k].Keep? || bs[k + 1].Keep?)
    && (forall k | 0 <= k < |bs| :: AreNotes(Notes(bs[k])))
  }

  predicate ValidHunk(h: Hunk) {
    "@@" <= h.at && ValidBlocks(h.blocks)
  }

  /** A header line neither parser reads a name or a boundary from. */
  predicate Inert(l: string) {
    !(GIT <= l) && !("@@" <= l) && !("--- " <= l) && !("+++ " <= l)
  }

  predicate ValidScript(s: FileScript) {
    && GIT <= s.git
    && (forall l | l in s.head :: Inert(l))
    && (forall h | h in s.hunks :: ValidHunk(h))
    && s.oldName != Some("") && s.newName != Some("")
  }

  // ------------------------------------------------------------------ rendering

  function Prefixed(mark: char, texts: seq<string>): seq<string> {
    if texts == [] then [] else [[mark] + texts[0]] + Prefixed(mark, texts[1..])
  }

  function RenderBlock(b: Block): seq<string> {
    match b
    case Keep(text, notes) => [" " + text] + notes
    case Change(removed, oldNotes, added, newNotes) => Prefixed('-', removed) + oldNotes + (Prefixed('+', added) + newNotes)
  }

  function RenderBlocks(bs: seq<Block>): seq<string> {
    if bs == [] then [] else RenderBlock(bs[0]) + RenderBlocks(bs[1..])
  }

  function RenderHunks(hs: seq<Hunk>): seq<string> {
    if hs == [] then [] else [hs[0].at] + RenderBlocks(hs[0].blocks) + RenderHunks(hs[1..])
  }

  function OldNameLine(name: Option<string>): string {
    match name case Some(n) => "--- a/" + n case None => "--- /dev/null"
  }

  function NewNameLine(name: Option<string>): string {
    match name case Some(n) => "+++ b/" + n case None => "+++ /dev/null"
  }

  /** git names the files only when there are hunks. */
  function Render(s: FileScript): seq<string> {
    [s.git] + s.head + (if s.hunks == [] then [] else [OldNameLine(s.oldName), NewNameLine(s.newName)] + RenderHunks(s.hunks))
  }

  function RenderAll(ss: seq<FileScript>): seq<string> {
    if ss == [] then [] else Render(ss[0]) + RenderAll(ss[1..])
  }

  /** The lines of what git prints: its text ends with a newline, so the last of them
      is empty. */
  function Printed(ss: seq<FileScript>): seq<string> {
    RenderAll(ss) + [""]
  }

  // ------------------------------------------------------------------ what is read

  /** A changed line's index in its side, with its change group. */
  datatype Mark = Mark(at: nat, group: nat)
  datatype DiffSide = DiffSide(lines: seq<string>, changed: seq<Mark>)
  datatype FileDiff = FileDiff(file: string, wholeFile: bool, old_: DiffSide, new_: DiffSide)

  const EMPTY_SIDE := DiffSide([], [])

  datatype Reader = Reader(files: seq<FileDiff>, header: bool, group: nat, inChange: bool)

  const START := Reader([], false, 0, false)

  function Marked(side: DiffSide, text: string, group: nat): DiffSide {
    DiffSide(side.lines + [text], side.changed + [Mark(|side.lines|, group)])
  }

  function Kept(side: DiffSide, text: string): DiffSide {
    side.(lines := side.lines + [text])
  }

  /** One line of the diff. */
  function ReadLine(r: Reader, line: string): Reader {
    if GIT <= line then
      r.(files := r.files + [FileDiff("", false, EMPTY_SIDE, EMPTY_SIDE)], header := true)
    else if r.files == [] then r
    else
      var last := |r.files| - 1;
      var current := r.files[last];
      if r.header && IsModeLine(line) then r.(files := r.files[last := current.(wholeFile := true)])
      else if "@@" <= line then r.(header := false, inChange := false)
      else if r.header then
        if "--- a/" <= line || "+++ b/" <= line then r.(files := r.files[last := current.(file := line[6..])]) else r
      else
        var group := if r.inChange then r.group else r.group + 1;
        if "-" <= line then
          Reader(r.files[last := current.(old_ := Marked(current.old_, line[1..], group))], false, group, true)
        else if "+" <= line then
          Reader(r.files[last := current.(new_ := Marked(current.new_, line[1..], group))], false, group, true)
        else if " " <= line then
          Reader(r.files[last := current.(old_ := Kept(current.old_, line[1..]), new_ := Kept(current.new_, line[1..]))],
                 false, r.group, false)
        else r
  }

  function ReadLines(r: Reader, lines: seq<string>): Reader
    decreases |lines|
  {
    if lines == [] then r else ReadLines(ReadLine(r, lines[0]), lines[1..])
  }

  method ReadDiff(lines: seq<string>) returns (files: seq<FileDiff>)
    ensures files == ReadLines(START, lines).files
  {
    files := [];
    var header, group, inChange := false, 0, false;
    for i := 0 to |lines|
      invariant ReadLines(START, lines) == ReadLines(Reader(files, header, group, inChange), lines[i..])
    {
      var line := lines[i];
      assert lines[i..][1..] == lines[i + 1..];
      if GIT <= line {
        files := files + [FileDiff("", false, EMPTY_SIDE, EMPTY_SIDE)];
        header := true;
        continue;
      }
      if files == [] {
        continue;
      }
      var last := |files| - 1;
      var current := files[last];
      if header && IsModeLine(line) {
        files := files[last := current.(wholeFile := true)];
      } else if "@@" <= line {
        header, inChange := false, false;
      } else if header {
        if "--- a/" <= line {
          files := files[last := current.(file := line[6..])];
        } else if "+++ b/" <= line {
          files := files[last := current.(file := line[6..])];
        }
      } else if "-" <= line || "+" <= line {
        if !inChange {
          group := group + 1;
        }
        inChange := true;
        files := files[last :=
          if "-" <= line then current.(old_ := Marked(current.old_, line[1..], group))
          else current.(new_ := Marked(current.new_, line[1..], group))];
      } else if " " <= line {
        inChange := false;
        files := files[last := current.(old_ := Kept(current.old_, line[1..]), new_ := Kept(current.new_, line[1..]))];
      }
    }
    assert lines[|lines|..] == [];
  }

  // ---------------------------------------------------------- what was rendered

  function Flatten(hs: seq<Hunk>): seq<Block> {
    if hs == [] then [] else hs[0].blocks + Flatten(hs[1..])
  }

  function OldText(b: Block): seq<string> {
    match b case Keep(t, _) => [t] case Change(r, _, _, _) => r
  }

  function NewText(b: Block): seq<string> {
    match b case Keep(t, _) => [t] case Change(_, _, a, _) => a
  }

  function Marks(at: nat, n: nat, group: nat): (m: seq<Mark>)
    ensures |m| == n
  {
    seq(n, k requires 0 <= k < n => Mark(at + k, group))
  }

  /** A side of the file after some blocks; the j-th change block of the whole
      diff is group j. */
  function OldSide(side: DiffSide, bs: seq<Block>, group: nat): DiffSide
    decreases |bs|
  {
    if bs == [] then side
    else
      var g := if bs[0].Change? then group + 1 else group;
      var text := OldText(bs[0]);
      var marks := if bs[0].Change? then Marks(|side.lines|, |text|, g) else [];
      OldSide(DiffSide(side.lines + text, side.changed + marks), bs[1..], g)
  }

  function NewSide(side: DiffSide, bs: seq<Block>, group: nat): DiffSide
    decreases |bs|
  {
    if bs == [] then side
    else
      var g := if bs[0].Change? then group + 1 else group;
      var text := NewText(bs[0]);
      var marks := if bs[0].Change? then Marks(|side.lines|, |text|, g) else [];
      NewSide(DiffSide(side.lines + text, side.changed + marks), bs[1..], g)
  }

  function Changes(bs: seq<Block>): nat {
    if bs == [] then 0 else (if bs[0].Change? then 1 else 0) + Changes(bs[1..])
  }

  function NameOf(s: FileScript): string {
    if s.hunks == [] then ""
    else match s.newName
      case Some(n) => n
      case None => (match s.oldName case Some(n) => n case None => "")
  }

  function ExpectedFile(s: FileScript, group: nat): FileDiff {
    var bs := Flatten(s.hunks);
    FileDiff(NameOf(s), exists l | l in s.head :: IsModeLine(l), OldSide(EMPTY_SIDE, bs, group), NewSide(EMPTY_SIDE, bs, group))
  }

  function Expected(ss: seq<FileScript>, group: nat): seq<FileDiff> {
    if ss == [] then [] else [ExpectedFile(ss[0], group)] + Expected(ss[1..], group + Changes(Flatten(ss[0].hunks)))
  }

  // ------------------------------------------------------------- the round trip

  lemma {:induction false} ReadConcat(r: Reader, a: seq<string>, b: seq<string>)
    ensures ReadLines(r, a + b) == ReadLines(ReadLines(r, a), b)
    decreases |a|
  {
    hide ReadLine;
    if a == [] {
      assert a + b == b;
    } else {
      assert (a + b)[1..] == a[1..] + b;
      ReadConcat(ReadLine(r, a[0]), a[1..], b);
    }
  }

  /** A reader inside a hunk of the last file. */
  function In(done: seq<FileDiff>, current: FileDiff, group: nat, inChange: bool): Reader {
    Reader(done + [current], false, group, inChange)
  }

  lemma LinesOfAHunk(text: string)
    ensures !(GIT <= "-" + text) && !("@@" <= "-" + text) && "-" <= "-" + text && ("-" + text)[1..] == text
    ensures !(GIT <= "+" + text) && !("@@" <= "+" + text) && !("-" <= "+" + text) && "+" <= "+" + text && ("+" + text)[1..] == text
    ensures !(GIT <= " " + text) && !("@@" <= " " + text) && !("-" <= " " + text) && !("+" <= " " + text)
    ensures " " <= " " + text && (" " + text)[1..] == text
  {
    assert GIT[0] == 'd' && "@@"[0] == '@' && "-"[0] == '-' && "+"[0] == '+' && " "[0] == ' ';
    assert ("-" + text)[0] == '-' && ("+" + text)[0] == '+' && (" " + text)[0] == ' ';
  }

  lemma ReadOne(done: seq<FileDiff>, current: FileDiff, group: nat, inChange: bool, text: string)
    ensures var g := if inChange then group else group + 1;
            && ReadLine(In(done, current, group, inChange), "-" + text)
               == In(done, current.(old_ := Marked(current.old_, text, g)), g, true)
            && ReadLine(In(done, current, group, inChange), "+" + text)
               == In(done, current.(new_ := Marked(current.new_, text, g)), g, true)
            && ReadLine(In(done, current, group, inChange), " " + text)
               == In(done, current.(old_ := Kept(current.old_, text), new_ := Kept(current.new_, text)), group, false)
  {
    LinesOfAHunk(text);
  }

  lemma {:induction false} ReadRemoved(done: seq<FileDiff>, current: FileDiff, group: nat, inChange: bool, texts: seq<string>)
    ensures var g := if inChange || texts == [] then group else group + 1;
            var side := DiffSide(current.old_.lines + texts, current.old_.changed + Marks(|current.old_.lines|, |texts|, g));
            ReadLines(In(done, current, group, inChange), Prefixed('-', texts))
            == In(done, current.(old_ := side), g, inChange || texts != [])
    decreases |texts|
  {
    hide ReadLine;
    if texts == [] {
      assert current.old_.changed + Marks(|current.old_.lines|, 0, group) == current.old_.changed;
      assert current.old_.lines + texts == current.old_.lines;
    } else {
      var g := if inChange then group else group + 1;
      ReadOne(done, current, group, inChange, texts[0]);
      var next := current.(old_ := Marked(current.old_, texts[0], g));
      ReadRemoved(done, next, g, true, texts[1..]);
      assert next.old_.lines + texts[1..] == current.old_.lines + texts;
      assert next.old_.changed + Marks(|next.old_.lines|, |texts| - 1, g)
          == current.old_.changed + Marks(|current.old_.lines|, |texts|, g);
    }
  }

  lemma {:induction false} ReadAdded(done: seq<FileDiff>, current: FileDiff, group: nat, inChange: bool, texts: seq<string>)
    ensures var g := if inChange || texts == [] then group else group + 1;
            var side := DiffSide(current.new_.lines + texts, current.new_.changed + Marks(|current.new_.lines|, |texts|, g));
            ReadLines(In(done, current, group, inChange), Prefixed('+', texts))
            == In(done, current.(new_ := side), g, inChange || texts != [])
    decreases |texts|
  {
    hide ReadLine;
    if texts == [] {
      assert current.new_.changed + Marks(|current.new_.lines|, 0, group) == current.new_.changed;
      assert current.new_.lines + texts == current.new_.lines;
    } else {
      var g := if inChange then group else group + 1;
      ReadOne(done, current, group, inChange, texts[0]);
      var next := current.(new_ := Marked(current.new_, texts[0], g));
      ReadAdded(done, next, g, true, texts[1..]);
      assert next.new_.lines + texts[1..] == current.new_.lines + texts;
      assert next.new_.changed + Marks(|next.new_.lines|, |texts| - 1, g)
          == current.new_.changed + Marks(|current.new_.lines|, |texts|, g);
    }
  }

  /** The notes change nothing, not even whether a run goes on. */
  lemma {:induction false} ReadNotes(done: seq<FileDiff>, current: FileDiff, group: nat, inChange: bool, notes: seq<string>)
    requires AreNotes(notes)
    ensures ReadLines(In(done, current, group, inChange), notes) == In(done, current, group, inChange)
    decreases |notes|
  {
    hide ReadLine;
    if notes != [] {
      assert notes[0] in notes;
      assert forall n :: n in notes[1..] ==> n in notes;
      ReadNote(done, current, group, inChange, notes[0]);
      ReadNotes(done, current, group, inChange, notes[1..]);
    }
  }

  lemma NoteIsNoLine(note: string)
    requires "\\" <= note
    ensures !(GIT <= note) && !("@@" <= note) && !("-" <= note) && !("+" <= note) && !(" " <= note)
  {
    assert note[0] == '\\' && GIT[0] == 'd' && "@@"[0] == '@' && "-"[0] == '-' && "+"[0] == '+' && " "[0] == ' ';
  }

  lemma ReadNote(done: seq<FileDiff>, current: FileDiff, group: nat, inChange: bool, note: string)
    requires "\\" <= note
    ensures ReadLine(In(done, current, group, inChange), note) == In(done, current, group, inChange)
  {
    NoteIsNoLine(note);
  }

  ghost function WithSides(current: FileDiff, bs: seq<Block>, group: nat): FileDiff {
    current.(old_ := OldSide(current.old_, bs, group), new_ := NewSide(current.new_, bs, group))
  }

  lemma SidesOfOne(side: DiffSide, b: Block, group: nat)
    ensures Changes([b]) == if b.Change? then 1 else 0
    ensures OldSide(side, [b], group)
         == DiffSide(side.lines + OldText(b),
                     side.changed + if b.Change? then Marks(|side.lines|, |OldText(b)|, group + 1) else [])
    ensures NewSide(side, [b], group)
         == DiffSide(side.lines + NewText(b),
                     side.changed + if b.Change? then Marks(|side.lines|, |NewText(b)|, group + 1) else [])
  {
    var one := [b];
    assert one[1..] == [];
  }

  lemma ReadKeep(done: seq<FileDiff>, current: FileDiff, group: nat, inChange: bool, b: Block)
    requires b.Keep? && AreNotes(Notes(b))
    ensures ReadLines(In(done, current, group, inChange), RenderBlock(b)) == In(done, WithSides(current, [b], group), group, false)
  {
    hide ReadLine, ReadLines, OldSide, NewSide, AreNotes;
    SidesOfOne(current.old_, b, group);
    SidesOfOne(current.new_, b, group);
    var line: seq<string> := [" " + b.text];
    ReadConcat(In(done, current, group, inChange), line, b.notes);
    ReadSingle(In(done, current, group, inChange), line[0]);
    ReadOne(done, current, group, inChange, b.text);
    ReadNotes(done, current.(old_ := Kept(current.old_, b.text), new_ := Kept(current.new_, b.text)), group, false, b.notes);
    assert current.old_.changed + [] == current.old_.changed && current.new_.changed + [] == current.new_.changed;
  }

  lemma ReadRemovedAndNotes(done: seq<FileDiff>, current: FileDiff, group: nat, b: Block)
    requires b.Change? && AreNotes(b.oldNotes)
    ensures var g := if b.removed == [] then group else group + 1;
            var side := DiffSide(current.old_.lines + b.removed, current.old_.changed + Marks(|current.old_.lines|, |b.removed|, g));
            ReadLines(In(done, current, group, false), Prefixed('-', b.removed) + b.oldNotes)
            == In(done, current.(old_ := side), g, b.removed != [])
  {
    hide ReadLine, ReadLines, AreNotes;
    var start := In(done, current, group, false);
    ReadConcat(start, Prefixed('-', b.removed), b.oldNotes);
    ReadRemoved(done, current, group, false, b.removed);
    var g := if b.removed == [] then group else group + 1;
    var side := DiffSide(current.old_.lines + b.removed, current.old_.changed + Marks(|current.old_.lines|, |b.removed|, g));
    ReadNotes(done, current.(old_ := side), g, b.removed != [], b.oldNotes);
  }

  lemma ReadAddedAndNotes(done: seq<FileDiff>, current: FileDiff, group: nat, inChange: bool, b: Block)
    requires b.Change? && AreNotes(b.newNotes)
    ensures var g := if inChange || b.added == [] then group else group + 1;
            var side := DiffSide(current.new_.lines + b.added, current.new_.changed + Marks(|current.new_.lines|, |b.added|, g));
            ReadLines(In(done, current, group, inChange), Prefixed('+', b.added) + b.newNotes)
            == In(done, current.(new_ := side), g, inChange || b.added != [])
  {
    hide ReadLine, ReadLines, AreNotes;
    var start := In(done, current, group, inChange);
    ReadConcat(start, Prefixed('+', b.added), b.newNotes);
    ReadAdded(done, current, group, inChange, b.added);
    var g := if inChange || b.added == [] then group else group + 1;
    var side := DiffSide(current.new_.lines + b.added, current.new_.changed + Marks(|current.new_.lines|, |b.added|, g));
    ReadNotes(done, current.(new_ := side), g, inChange || b.added != [], b.newNotes);
  }

  lemma ReadChange(done: seq<FileDiff>, current: FileDiff, group: nat, b: Block)
    requires b.Change? && |b.removed| + |b.added| > 0 && AreNotes(Notes(b))
    ensures ReadLines(In(done, current, group, false), RenderBlock(b)) == In(done, WithSides(current, [b], group), group + 1, true)
  {
    NotesOfBoth(b);
    hide ReadLine, ReadLines, OldSide, NewSide, AreNotes, Prefixed;
    SidesOfOne(current.old_, b, group);
    SidesOfOne(current.new_, b, group);
    ReadConcat(In(done, current, group, false), Prefixed('-', b.removed) + b.oldNotes, Prefixed('+', b.added) + b.newNotes);
    ReadRemovedAndNotes(done, current, group, b);
    var g := group + 1;
    var mid := current.(old_ := DiffSide(current.old_.lines + b.removed,
                                         current.old_.changed + Marks(|current.old_.lines|, |b.removed|, g)));
    if b.removed == [] {
      assert mid.old_ == current.old_;
      ReadAddedAndNotes(done, mid, group, false, b);
    } else {
      ReadAddedAndNotes(done, mid, g, true, b);
    }
  }

  lemma NotesOfBoth(b: Block)
    requires b.Change? && AreNotes(Notes(b))
    ensures AreNotes(b.oldNotes) && AreNotes(b.newNotes)
  {
    assert forall n | n in b.oldNotes || n in b.newNotes :: n in Notes(b);
  }

  lemma ReadBlock(done: seq<FileDiff>, current: FileDiff, group: nat, inChange: bool, b: Block)
    requires (b.Change? ==> !inChange && |b.removed| + |b.added| > 0) && AreNotes(Notes(b))
    ensures ReadLines(In(done, current, group, inChange), RenderBlock(b))
         == In(done, WithSides(current, [b], group), group + Changes([b]), b.Change?)
  {
    hide ReadLine, ReadLines, OldSide, NewSide, RenderBlock, AreNotes;
    SidesOfOne(current.old_, b, group);
    if b.Keep? {
      ReadKeep(done, current, group, inChange, b);
    } else {
      ReadChange(done, current, group, b);
    }
  }

  function InChangeAfter(inChange: bool, bs: seq<Block>): bool {
    if bs == [] then inChange else bs[|bs| - 1].Change?
  }

  lemma {:induction false} SidesConcat(side: DiffSide, a: seq<Block>, b: seq<Block>, group: nat)
    ensures OldSide(side, a + b, group) == OldSide(OldSide(side, a, group), b, group + Changes(a))
    ensures NewSide(side, a + b, group) == NewSide(NewSide(side, a, group), b, group + Changes(a))
    ensures Changes(a + b) == Changes(a) + Changes(b)
    decreases |a|
  {
    if a == [] {
      assert a + b == b;
    } else {
      var g := if a[0].Change? then group + 1 else group;
      assert (a + b)[0] == a[0] && (a + b)[1..] == a[1..] + b;
      var oldText, newText := OldText(a[0]), NewText(a[0]);
      var olds := if a[0].Change? then Marks(|side.lines|, |oldText|, g) else [];
      var news := if a[0].Change? then Marks(|side.lines|, |newText|, g) else [];
      SidesConcat(DiffSide(side.lines + oldText, side.changed + olds), a[1..], b, g);
      SidesConcat(DiffSide(side.lines + newText, side.changed + news), a[1..], b, g);
    }
  }

  lemma WithSidesConcat(current: FileDiff, a: seq<Block>, b: seq<Block>, group: nat)
    ensures WithSides(WithSides(current, a, group), b, group + Changes(a)) == WithSides(current, a + b, group)
    ensures Changes(a + b) == Changes(a) + Changes(b)
  {
    SidesConcat(current.old_, a, b, group);
    SidesConcat(current.new_, a, b, group);
  }

  lemma WithNoSides(current: FileDiff, group: nat)
    ensures WithSides(current, [], group) == current && Changes([]) == 0
  {
  }

  lemma FirstAndRest(bs: seq<Block>)
    requires ValidBlocks(bs) && bs != []
    ensures AreNotes(Notes(bs[0])) && (bs[0].Change? ==> |bs[0].removed| + |bs[0].added| > 0)
    ensures ValidBlocks(bs[1..]) && (bs[0].Change? && bs[1..] != [] ==> bs[1].Keep?)
  {
    hide AreNotes;
    assert forall k | 0 <= k < |bs| - 1 :: bs[1..][k] == bs[k + 1];
  }

  /** The blocks of one hunk, read into the current file. */
  lemma {:induction false} ReadBlocks(done: seq<FileDiff>, current: FileDiff, group: nat, inChange: bool, bs: seq<Block>)
    requires ValidBlocks(bs) && (bs != [] && bs[0].Change? ==> !inChange)
    ensures ReadLines(In(done, current, group, inChange), RenderBlocks(bs))
         == In(done, WithSides(current, bs, group), group + Changes(bs), InChangeAfter(inChange, bs))
    decreases |bs|
  {
    hide ReadLine, ReadLines, WithSides, RenderBlock, Changes, ValidBlocks, AreNotes;
    if bs == [] {
      WithNoSides(current, group);
      ReadNothing(In(done, current, group, inChange));
    } else {
      var rest := bs[1..];
      FirstAndRest(bs);
      ReadBlock(done, current, group, inChange, bs[0]);
      ReadConcat(In(done, current, group, inChange), RenderBlock(bs[0]), RenderBlocks(rest));
      ReadBlocks(done, WithSides(current, [bs[0]], group), group + Changes([bs[0]]), bs[0].Change?, rest);
      assert [bs[0]] + rest == bs;
      WithSidesConcat(current, [bs[0]], rest, group);
    }
  }

  lemma ReadAt(done: seq<FileDiff>, current: FileDiff, r: Reader, at: string)
    requires r.files == done + [current] && "@@" <= at
    ensures ReadLine(r, at) == In(done, current, r.group, false)
  {
    assert at[0] == '@';
    assert GIT[0] == 'd' && "new file mode "[0] == 'n' && "deleted file mode "[0] == 'd';
  }

  lemma ReadHunk(done: seq<FileDiff>, current: FileDiff, r: Reader, h: Hunk)
    requires ValidHunk(h) && r.files == done + [current]
    ensures ReadLines(r, [h.at] + RenderBlocks(h.blocks))
         == In(done, WithSides(current, h.blocks, r.group), r.group + Changes(h.blocks), InChangeAfter(false, h.blocks))
  {
    hide ReadLine, ReadLines, WithSides, RenderBlocks, Changes, ValidBlocks;
    ReadAt(done, current, r, h.at);
    ReadSingle(r, h.at);
    ReadConcat(r, [h.at], RenderBlocks(h.blocks));
    ReadBlocks(done, current, r.group, false, h.blocks);
  }

  /** All hunks of a file, whatever state the header left the reader in. */
  lemma {:induction false} ReadHunks(done: seq<FileDiff>, current: FileDiff, r: Reader, hs: seq<Hunk>)
    requires hs != [] && forall h | h in hs :: ValidHunk(h)
    requires r.files == done + [current]
    ensures ReadLines(r, RenderHunks(hs))
         == In(done, WithSides(current, Flatten(hs), r.group), r.group + Changes(Flatten(hs)),
               InChangeAfter(false, hs[|hs| - 1].blocks))
    decreases |hs|
  {
    hide ReadLine, ReadLines, WithSides, RenderBlocks, Changes, ValidHunk;
    var first, rest := hs[0].blocks, hs[1..];
    var lines: seq<string> := [hs[0].at] + RenderBlocks(first);
    assert RenderHunks(hs) == lines + RenderHunks(rest);
    ReadHunk(done, current, r, hs[0]);
    ReadConcat(r, lines, RenderHunks(rest));
    var after := In(done, WithSides(current, first, r.group), r.group + Changes(first), InChangeAfter(false, first));
    if rest == [] {
      assert Flatten(hs) == first;
      ReadNothing(after);
    } else {
      ReadHunks(done, WithSides(current, first, r.group), after, rest);
      WithSidesConcat(current, first, Flatten(rest), r.group);
    }
  }

  lemma ReadNothing(r: Reader)
    ensures ReadLines(r, []) == r
  {
  }

  // ------------------------------------------------------- headers and whole diffs

  /** A reader in the header of the last file. */
  function AtHeader(done: seq<FileDiff>, current: FileDiff, group: nat, inChange: bool): Reader {
    Reader(done + [current], true, group, inChange)
  }

  lemma PrefixOfPrefix(a: string, b: string, l: string)
    requires a <= b <= l
    ensures a <= l
  {
    assert l[..|a|] == b[..|a|];
  }

  lemma ReadHeadLine(done: seq<FileDiff>, current: FileDiff, group: nat, inChange: bool, l: string)
    requires Inert(l)
    ensures ReadLine(AtHeader(done, current, group, inChange), l)
         == AtHeader(done, current.(wholeFile := current.wholeFile || IsModeLine(l)), group, inChange)
  {
    if "--- a/" <= l {
      PrefixOfPrefix("--- ", "--- a/", l);
    }
    if "+++ b/" <= l {
      PrefixOfPrefix("+++ ", "+++ b/", l);
    }
  }

  lemma {:induction false} ReadHead(done: seq<FileDiff>, current: FileDiff, group: nat, inChange: bool, head: seq<string>)
    requires forall l | l in head :: Inert(l)
    ensures ReadLines(AtHeader(done, current, group, inChange), head)
         == AtHeader(done, current.(wholeFile := current.wholeFile || exists l | l in head :: IsModeLine(l)), group, inChange)
    decreases |head|
  {
    hide ReadLine, IsModeLine, Inert;
    if head != [] {
      ReadHeadLine(done, current, group, inChange, head[0]);
      ReadHead(done, current.(wholeFile := current.wholeFile || IsModeLine(head[0])), group, inChange, head[1..]);
      assert forall l :: l in head <==> l == head[0] || l in head[1..];
    }
  }

  lemma ReadOldName(done: seq<FileDiff>, current: FileDiff, group: nat, inChange: bool, name: Option<string>)
    ensures ReadLine(AtHeader(done, current, group, inChange), OldNameLine(name))
         == AtHeader(done, if name.Some? then current.(file := name.value) else current, group, inChange)
  {
    var o := OldNameLine(name);
    assert o[0] == '-' && GIT[0] == 'd' && "@@"[0] == '@' && "+++ b/"[0] == '+';
    assert "new file mode "[0] == 'n' && "deleted file mode "[0] == 'd';
    match name {
      case Some(n) => assert o[..6] == "--- a/" && o[6..] == n;
      case None => assert o[4] == '/' && "--- a/"[4] == 'a';
    }
  }

  lemma ReadNewName(done: seq<FileDiff>, current: FileDiff, group: nat, inChange: bool, name: Option<string>)
    ensures ReadLine(AtHeader(done, current, group, inChange), NewNameLine(name))
         == AtHeader(done, if name.Some? then current.(file := name.value) else current, group, inChange)
  {
    var n := NewNameLine(name);
    assert n[0] == '+' && GIT[0] == 'd' && "@@"[0] == '@' && "--- a/"[0] == '-';
    assert "new file mode "[0] == 'n' && "deleted file mode "[0] == 'd';
    match name {
      case Some(file) => assert n[..6] == "+++ b/" && n[6..] == file;
      case None => assert n[4] == '/' && "+++ b/"[4] == 'b';
    }
  }

  lemma ReadNames(done: seq<FileDiff>, current: FileDiff, group: nat, inChange: bool, s: FileScript)
    requires s.hunks != [] && current.file == ""
    ensures ReadLine(ReadLine(AtHeader(done, current, group, inChange), OldNameLine(s.oldName)), NewNameLine(s.newName))
         == AtHeader(done, current.(file := NameOf(s)), group, inChange)
  {
    hide ReadLine, OldNameLine, NewNameLine;
    ReadOldName(done, current, group, inChange, s.oldName);
    ReadNewName(done, if s.oldName.Some? then current.(file := s.oldName.value) else current, group, inChange, s.newName);
  }

  const BLANK := FileDiff("", false, EMPTY_SIDE, EMPTY_SIDE)

  lemma ReadHeader(r: Reader, line: string, head: seq<string>)
    requires GIT <= line && forall l | l in head :: Inert(l)
    ensures ReadLines(r, [line] + head)
         == AtHeader(r.files, BLANK.(wholeFile := exists l | l in head :: IsModeLine(l)), r.group, r.inChange)
  {
    assert ReadLine(r, line) == AtHeader(r.files, BLANK, r.group, r.inChange);
    hide ReadLine, IsModeLine, Inert;
    ReadSingle(r, line);
    ReadConcat(r, [line], head);
    ReadHead(r.files, BLANK, r.group, r.inChange, head);
  }

  lemma ReadFile(r: Reader, s: FileScript)
    requires ValidScript(s)
    ensures ReadLines(r, Render(s)).files == r.files + [ExpectedFile(s, r.group)]
    ensures ReadLines(r, Render(s)).group == r.group + Changes(Flatten(s.hunks))
  {
    var whole := exists l | l in s.head :: IsModeLine(l);
    var atHead := AtHeader(r.files, BLANK.(wholeFile := whole), r.group, r.inChange);
    hide ReadLine, ReadLines, IsModeLine, WithSides, Changes, Flatten, RenderHunks, OldNameLine, NewNameLine, Inert;
    ReadHeader(r, s.git, s.head);
    if s.hunks == [] {
      assert Render(s) == [s.git] + s.head;
      NoHunks(r.group);
    } else {
      var names: seq<string> := [OldNameLine(s.oldName), NewNameLine(s.newName)];
      assert Render(s) == ([s.git] + s.head) + (names + RenderHunks(s.hunks));
      ReadConcat(r, [s.git] + s.head, names + RenderHunks(s.hunks));
      ReadConcat(atHead, names, RenderHunks(s.hunks));
      ReadNames(r.files, BLANK.(wholeFile := whole), r.group, r.inChange, s);
      ReadTwo(atHead, names);
      var named := BLANK.(wholeFile := whole, file := NameOf(s));
      ReadHunks(r.files, named, AtHeader(r.files, named, r.group, r.inChange), s.hunks);
      FileSides(named, s, r.group);
    }
  }

  lemma NoHunks(group: nat)
    ensures OldSide(EMPTY_SIDE, Flatten([]), group) == EMPTY_SIDE == NewSide(EMPTY_SIDE, Flatten([]), group)
    ensures Changes(Flatten([])) == 0
  {
  }

  lemma ReadSingle(r: Reader, line: string)
    ensures ReadLines(r, [line]) == ReadLine(r, line)
  {
    hide ReadLine;
    var one := [line];
    assert one[1..] == [];
  }

  lemma ReadTwo(r: Reader, lines: seq<string>)
    requires |lines| == 2
    ensures ReadLines(r, lines) == ReadLine(ReadLine(r, lines[0]), lines[1])
  {
    hide ReadLine;
    ReadSingle(ReadLine(r, lines[0]), lines[1]);
    assert lines[1..] == [lines[1]];
  }

  lemma FileSides(named: FileDiff, s: FileScript, group: nat)
    requires named == FileDiff(NameOf(s), exists l | l in s.head :: IsModeLine(l), EMPTY_SIDE, EMPTY_SIDE)
    ensures WithSides(named, Flatten(s.hunks), group) == ExpectedFile(s, group)
  {
  }

  /** Rendered as a diff and read back, any edits come out as they went in: every
      file with both its sides' lines, exactly the - and + lines marked as
      changed, and each run of them one group, whatever their own text looks
      like. */
  lemma {:induction false} RoundTrip(ss: seq<FileScript>, r: Reader)
    requires forall s | s in ss :: ValidScript(s)
    ensures ReadLines(r, RenderAll(ss)).files == r.files + Expected(ss, r.group)
    decreases |ss|
  {
    hide ReadLine, ExpectedFile, Render, ValidScript, Changes, Flatten;
    if ss == [] {
      assert r.files + Expected(ss, r.group) == r.files;
    } else {
      ReadFile(r, ss[0]);
      ReadConcat(r, Render(ss[0]), RenderAll(ss[1..]));
      RoundTrip(ss[1..], ReadLines(r, Render(ss[0])));
      assert (r.files + [ExpectedFile(ss[0], r.group)]) + Expected(ss[1..], r.group + Changes(Flatten(ss[0].hunks)))
          == r.files + Expected(ss, r.group);
    }
  }

  lemma EmptyLine(r: Reader)
    ensures ReadLines(r, [""]) == r
  {
    ReadSingle(r, "");
  }

  /** So does the text git prints. */
  lemma PrintedRoundTrip(ss: seq<FileScript>)
    requires forall s | s in ss :: ValidScript(s)
    ensures ReadLines(START, Printed(ss)).files == Expected(ss, 0)
  {
    hide ReadLines, RenderAll, ValidScript, Expected;
    RoundTrip(ss, START);
    ReadConcat(START, RenderAll(ss), [""]);
    EmptyLine(ReadLines(START, RenderAll(ss)));
    assert START.files + Expected(ss, 0) == Expected(ss, 0);
  }
}
