/**
 * A text buffer kept as raw text plus a table of line start offsets and a
 * per-line change classification, and the four transforms that apply the
 * hunks of a unified diff to a working copy of its lines
 * (TextFile.java).
 */
module TextFile {
  import opened Wrappers

  datatype ChangeType = NoChange | Added | Deleted

  /**
   * One hunk of a unified diff, already parsed: the start lines from its
   * `@@ -oldStart,oldCount +newStart,newCount @@` header, the header line
   * itself (hunk line 0) and the body lines, each still carrying its tag
   * (' ', '-', '+' or '\') as its first character.
   */
  datatype Hunk = Hunk(oldStartLine: int, newStartLine: int, header: string, body: seq<string>)

  /** A parsed patch: one entry per file header, each entry being that file's hunks. */
  datatype Patch = Patch(files: seq<seq<Hunk>>)

  datatype PatchError =
    | WrongFileCount        // the patch does not hold exactly one file header
    | EmptyHunkLine         // a hunk body line has no first character to switch on
    | LineIndexOutOfBounds  // a list get/add/remove at an index outside the working lines
    | HunkMismatch          // a context or removed line differs from the working line
    | NoHunks               // the last hunk of a file without hunks is looked up
    | NothingToJoin         // the trailing separator of an empty join is deleted

  datatype IndexError = InvalidLine(line: int)

  /** The four transforms: direction times alignment. */
  datatype Mode = Forwards | ForwardsAlign | Backwards | BackwardsAlign

  /** What an aligned transform inserts for a line missing on its side: fifteen blanks. */
  const Placeholder: string := "               "

  /** The marker line that ends a hunk whose last line has no trailing newline. */
  const NoNewlineMarker: string := "\\ No newline at end of file"

  // ---------------------------------------------------------------------
  // Lines of a text
  // ---------------------------------------------------------------------

  predicate NoNewlines(lines: seq<string>) {
    forall i :: 0 <= i < |lines| ==> '\n' !in lines[i]
  }

  /** Every line followed by one '\n'. */
  function Flatten(lines: seq<string>): string {
    if lines == [] then [] else Flatten(lines[..|lines| - 1]) + lines[|lines| - 1] + "\n"
  }

  /** The lines joined by single '\n's, with no trailing separator. */
  function Join(lines: seq<string>): (s: string)
    requires lines != []
  {
    var f := Flatten(lines);
    f[..|f| - 1]
  }

  /** Index of the first '\n' in s, or |s| when there is none. */
  function LineEnd(s: string): (i: nat)
    ensures i <= |s|
    ensures '\n' !in s[..i]
    ensures i < |s| ==> s[i] == '\n'
  {
    if s == [] || s[0] == '\n' then 0
    else
      var i := 1 + LineEnd(s[1..]);
      assert s[..i] == [s[0]] + s[1..][..i - 1];
      i
  }

  /**
   * The lines of a text as a line-splitting raw text sees them: the pieces
   * between '\n's, where a final '\n' does not open another (empty) line.
   */
  function Lines(text: string): (ls: seq<string>)
    ensures NoNewlines(ls)
    decreases |text|
  {
    if text == [] then []
    else
      var i := LineEnd(text);
      if i == |text| then [text] else [text[..i]] + Lines(text[i + 1..])
  }

  /** Offset of line i: the lengths of the lines before it, each plus one for its '\n'. */
  function StartOffsetTable(lines: seq<string>): (t: map<int, int>)
    ensures forall i :: i in t <==> 0 <= i < |lines|
  {
    map i | 0 <= i < |lines| :: |Flatten(lines[..i])|
  }

  lemma {:induction false} FlattenAppend(a: seq<string>, b: seq<string>)
    ensures Flatten(a + b) == Flatten(a) + Flatten(b)
    decreases |b|
  {
    if b == [] {
      assert a + b == a;
    } else {
      var n, ab := |b| - 1, a + b;
      assert ab[..|ab| - 1] == a + b[..n];
      assert ab[|ab| - 1] == b[n];
      calc {
        Flatten(ab);
        Flatten(a + b[..n]) + b[n] + "\n";
        { FlattenAppend(a, b[..n]); }
        Flatten(a) + Flatten(b[..n]) + b[n] + "\n";
        Flatten(a) + Flatten(b);
      }
    }
  }

  lemma FlattenCons(x: string, rest: seq<string>)
    ensures Flatten([x] + rest) == x + "\n" + Flatten(rest)
  {
    FlattenAppend([x], rest);
    assert [x][..0] == [];
  }

  /** The first line of a line followed by '\n' is that line. */
  lemma {:induction false} LineEndOfLine(a: string, rest: string)
    requires '\n' !in a
    ensures LineEnd(a + "\n" + rest) == |a|
    decreases |a|
  {
    var t := a + "\n" + rest;
    if a != [] {
      assert t[1..] == a[1..] + "\n" + rest;
      LineEndOfLine(a[1..], rest);
    }
  }

  /** Splitting flattened lines, followed by one more newline-free piece, gives the lines back. */
  lemma {:induction false} LinesOfFlattenPlus(p: seq<string>, s: string)
    requires NoNewlines(p) && '\n' !in s
    ensures Lines(Flatten(p) + s) == p + (if s == [] then [] else [s])
    decreases |p|
  {
    if p == [] {
      assert Flatten(p) + s == s;
    } else {
      var a, q := p[0], p[1..];
      assert p == [a] + q;
      FlattenCons(a, q);
      var t := Flatten(p) + s;
      var rest := Flatten(q) + s;
      assert t == a + "\n" + rest;
      LineEndOfLine(a, rest);
      assert t[..|a|] == a && t[|a| + 1..] == rest;
      LinesOfFlattenPlus(q, s);
    }
  }

  /** Lines whose text holds no '\n' survive flattening and splitting unchanged. */
  lemma LinesOfFlatten(p: seq<string>)
    requires NoNewlines(p)
    ensures Lines(Flatten(p)) == p
  {
    LinesOfFlattenPlus(p, []);
    assert Flatten(p) + [] == Flatten(p);
  }

  /**
   * Splitting the single-'\n' join of lines gives them back, except that a
   * final empty line merges into the preceding separator.
   */
  lemma LinesOfJoin(p: seq<string>)
    requires p != [] && NoNewlines(p)
    ensures Lines(Join(p)) == if p[|p| - 1] == [] then p[..|p| - 1] else p
  {
    var init, last := p[..|p| - 1], p[|p| - 1];
    assert NoNewlines(init);
    assert Flatten(p) == Flatten(init) + last + "\n";
    assert Join(p) == Flatten(init) + last;
    LinesOfFlattenPlus(init, last);
    assert p == init + [last];
  }

  /** The text is a prefix of its lines flattened, which add at most the one missing final '\n'. */
  lemma {:induction false} FlattenOfLines(text: string)
    ensures |text| <= |Flatten(Lines(text))| <= |text| + 1
    ensures Flatten(Lines(text))[..|text|] == text
    decreases |text|
  {
    if text != [] {
      var i := LineEnd(text);
      if i == |text| {
        assert Lines(text) == [text];
        FlattenCons(text, []);
      } else {
        var head, rest := text[..i], text[i + 1..];
        assert text == head + "\n" + rest by {
          assert text[..i + 1] == head + [text[i]];
          assert text == text[..i + 1] + rest;
        }
        FlattenOfLines(rest);
        FlattenOfLinesStep(head, rest);
      }
    }
  }

  /** A text whose first line ends in '\n' splits into that line and the lines after it. */
  lemma LinesCons(text: string)
    requires LineEnd(text) < |text|
    ensures var i := LineEnd(text); Lines(text) == [text[..i]] + Lines(text[i + 1..])
  {
  }

  /** The inductive step of FlattenOfLines: a first line ended by '\n' goes in front of the rest. */
  lemma FlattenOfLinesStep(head: string, rest: string)
    requires '\n' !in head
    requires |rest| <= |Flatten(Lines(rest))| <= |rest| + 1 && Flatten(Lines(rest))[..|rest|] == rest
    ensures var text := head + "\n" + rest;
      |text| <= |Flatten(Lines(text))| <= |text| + 1 && Flatten(Lines(text))[..|text|] == text
  {
    var text, lead := head + "\n" + rest, head + "\n";
    assert Flatten(Lines(text)) == lead + Flatten(Lines(rest)) by {
      LineEndOfLine(head, rest);
      LinesCons(text);
      assert text[..|head|] == head && text[|head| + 1..] == rest;
      FlattenCons(head, Lines(rest));
    }
    PrefixAfter(lead, Flatten(Lines(rest)), rest);
  }

  /** Line i of a text starts at its start offset and ends, before its '\n', inside the text. */
  lemma StartOffsetLocatesLine(text: string, i: int)
    requires 0 <= i < |Lines(text)|
    ensures var ls, s := Lines(text), StartOffsetTable(Lines(text))[i];
      s + |ls[i]| <= |text| && text[s..s + |ls[i]|] == ls[i]
  {
    var ls := Lines(text);
    LineInFlatten(ls, i);
    FlattenOfLines(text);
    SliceOfPrefix(text, Flatten(ls), |Flatten(ls[..i])|, |Flatten(ls[..i])| + |ls[i]|);
  }

  /** Line i stands in the flattened lines right after the lines before it, followed by its '\n'. */
  lemma LineInFlatten(ls: seq<string>, i: int)
    requires 0 <= i < |ls|
    ensures var s, f := |Flatten(ls[..i])|, Flatten(ls);
      s + |ls[i]| < |f| && f[s..s + |ls[i]|] == ls[i]
  {
    var before, line, after := Flatten(ls[..i]), ls[i], Flatten(ls[i + 1..]);
    var f := Flatten(ls);
    assert f == before + (line + ("\n" + after)) by {
      assert ls == ls[..i] + ([line] + ls[i + 1..]);
      FlattenAppend(ls[..i], [line] + ls[i + 1..]);
      FlattenCons(line, ls[i + 1..]);
    }
    SliceAfter(before, line, "\n" + after);
  }

  lemma SliceAfter<T>(a: seq<T>, x: seq<T>, b: seq<T>)
    ensures (a + (x + b))[|a|..|a| + |x|] == x
  {
    assert a + (x + b) == (a + x) + b;
  }

  /** A prefix of f that is at most one shorter stays such a prefix with a in front of both. */
  lemma PrefixAfter<T>(a: seq<T>, f: seq<T>, t: seq<T>)
    requires |t| <= |f| <= |t| + 1 && f[..|t|] == t
    ensures |a + t| <= |a + f| <= |a + t| + 1 && (a + f)[..|a + t|] == a + t
  {
    assert (a + f)[..|a + t|] == a + f[..|t|];
  }

  /** A slice of a prefix of f, inside the prefix, is the same slice of f. */
  lemma SliceOfPrefix<T>(t: seq<T>, f: seq<T>, lo: int, hi: int)
    requires |t| <= |f| <= |t| + 1 && t == f[..|t|] && 0 <= lo <= hi && hi < |f|
    ensures hi <= |t| && t[lo..hi] == f[lo..hi]
  {
  }

  // ---------------------------------------------------------------------
  // Walking the hunks of a patch
  // ---------------------------------------------------------------------

  /** The working lines and the change map while a patch is walked. */
  datatype Work = Work(lines: seq<string>, changes: map<int, ChangeType>)

  /** Outcome of one hunk body line: the new work and whether the cursor advances, or an exception. */
  datatype StepResult = Next(work: Work, advance: bool) | Stop(stopped: map<int, ChangeType>, error: PatchError)

  /** Outcome of walking hunk lines: the final work, or the changes recorded before an exception. */
  datatype Walked = Continue(work: Work) | Abort(changes: map<int, ChangeType>, error: PatchError)

  /** Outcome of a whole transform: the new text and changes, or the changes left by an exception. */
  datatype Applied = Done(text: string, changes: map<int, ChangeType>) | Rejected(changes: map<int, ChangeType>, error: PatchError)

  function Insert(lines: seq<string>, k: nat, x: string): (r: seq<string>)
    requires k <= |lines|
    ensures |r| == |lines| + 1 && r[k] == x
  {
    lines[..k] + [x] + lines[k..]
  }

  function Remove(lines: seq<string>, k: nat): (r: seq<string>)
    requires k < |lines|
    ensures |r| == |lines| - 1
  {
    lines[..k] + lines[k + 1..]
  }

  /** How many working lines a body line with this tag adds (or, negative, removes) in a mode. */
  function Growth(mode: Mode, tag: char): int {
    match mode
    case Forwards => 0
    case ForwardsAlign => if tag == '+' then 1 else 0
    case BackwardsAlign => if tag == '+' then 1 else 0
    case Backwards => if tag == '+' then 1 else if tag == '-' then -1 else 0
  }

  /**
   * The change each transform records at the cursor for a body line with this
   * tag: forwards marks removed lines Deleted; aligned forwards marks added
   * lines Added and removed lines Deleted; aligned backwards swaps the two;
   * plain backwards marks only the lines it inserts, Added.
   */
  function Mark(mode: Mode, tag: char): Option<ChangeType> {
    match mode
    case Forwards => if tag == '-' then Some(Deleted) else None
    case ForwardsAlign => if tag == '+' then Some(Added) else if tag == '-' then Some(Deleted) else None
    case BackwardsAlign => if tag == '+' then Some(Deleted) else if tag == '-' then Some(Added) else None
    case Backwards => if tag == '+' then Some(Added) else None
  }

  /** Whether the cursor moves past a body line with this tag. */
  predicate Advances(mode: Mode, tag: char) {
    match mode
    case Forwards => tag == ' ' || tag == '-'
    case Backwards => tag == ' ' || tag == '+'
    case _ => tag == ' ' || tag == '-' || tag == '+'
  }

  /** The changes c with mark m, if there is one, put at line k. */
  function Record(c: map<int, ChangeType>, k: int, m: Option<ChangeType>): map<int, ChangeType> {
    match m
    case None => c
    case Some(t) => c[k := t]
  }

  /**
   * One hunk body line at working index k = newStartLine - 1 + pos, by the
   * switch on its first character in each of the four transforms.
   */
  function Step(mode: Mode, w: Work, k: int, line: string): (r: StepResult)
    requires line != []
    // tags other than ' ', '-' and '+' change nothing and keep the cursor
    ensures line[0] !in " -+" ==> r == Next(w, false)
    // the line count moves by the tag's growth, and no recorded change is dropped
    ensures r.Next? ==> |r.work.lines| == |w.lines| + Growth(mode, line[0])
    ensures r.Next? ==> w.changes.Keys <= r.work.changes.Keys
    ensures r.Stop? ==> w.changes.Keys <= r.stopped.Keys
    // the mode's mark for the tag is put at k, and the cursor moves as the tag says
    ensures r.Next? ==> r.work.changes == Record(w.changes, k, Mark(mode, line[0]))
    ensures r.Next? ==> r.advance == Advances(mode, line[0])
    // an aligned transform puts its mark before the insertion throws; plain backwards puts none
    ensures r.Stop? ==> r.stopped == if mode == Backwards then w.changes else Record(w.changes, k, Mark(mode, line[0]))
    // only the plain backwards transform inspects or reorders existing lines
    ensures r.Next? && mode != Backwards ==> r.work.lines == Place(w.lines, k, mode, line[0])
    // the plain backwards transform accepts a context or removed line only if it matches
    ensures mode == Backwards && line[0] in " -" && r.Next? ==> 0 <= k < |w.lines| && w.lines[k] == line[1..]
    // plain forwards never fails
    ensures mode == Forwards ==> r.Next?
  {
    var tag, rest := line[0], line[1..];
    match mode
    case Forwards =>
      if tag == ' ' then Next(w, true)
      else if tag == '-' then Next(w.(changes := w.changes[k := Deleted]), true)
      else Next(w, false)
    case ForwardsAlign =>
      if tag == ' ' then Next(w, true)
      else if tag == '-' then Next(w.(changes := w.changes[k := Deleted]), true)
      else if tag == '+' then
        var c := w.changes[k := Added];
        if 0 <= k <= |w.lines| then Next(Work(Insert(w.lines, k, Placeholder), c), true)
        else Stop(c, LineIndexOutOfBounds)
      else Next(w, false)
    case BackwardsAlign =>
      if tag == ' ' then Next(w, true)
      else if tag == '+' then
        var c := w.changes[k := Deleted];
        if 0 <= k <= |w.lines| then Next(Work(Insert(w.lines, k, Placeholder), c), true)
        else Stop(c, LineIndexOutOfBounds)
      else if tag == '-' then Next(w.(changes := w.changes[k := Added]), true)
      else Next(w, false)
    case Backwards =>
      if tag == ' ' || tag == '-' then
        if !(0 <= k < |w.lines|) then Stop(w.changes, LineIndexOutOfBounds)
        else if w.lines[k] != rest then Stop(w.changes, HunkMismatch)
        else if tag == ' ' then Next(w, true)
        else Next(w.(lines := Remove(w.lines, k)), false)
      else if tag == '+' then
        if 0 <= k <= |w.lines| then Next(Work(Insert(w.lines, k, rest), w.changes[k := Added]), true)
        else Stop(w.changes, LineIndexOutOfBounds)
      else Next(w, false)
  }

  /** The lines an aligned or forwards step leaves: a placeholder at k for an aligned '+', else unchanged. */
  function Place(lines: seq<string>, k: int, mode: Mode, tag: char): seq<string> {
    if mode in {ForwardsAlign, BackwardsAlign} && tag == '+' && 0 <= k <= |lines|
    then Insert(lines, k, Placeholder) else lines
  }

  /**
   * Walks the body lines of one hunk with the cursor pos, anchored at working
   * index anchor. No recorded change is dropped, even by an aborted walk.
   */
  function WalkBody(mode: Mode, w: Work, anchor: int, pos: int, body: seq<string>): (r: Walked)
    ensures r.Continue? ==> w.changes.Keys <= r.work.changes.Keys
    ensures r.Abort? ==> w.changes.Keys <= r.changes.Keys
    decreases |body|
  {
    if body == [] then Continue(w)
    else if body[0] == [] then Abort(w.changes, EmptyHunkLine)
    else
      match Step(mode, w, anchor + pos, body[0])
      case Stop(c, e) => Abort(c, e)
      case Next(w', adv) => WalkBody(mode, w', anchor, if adv then pos + 1 else pos, body[1..])
  }

  /**
   * Walks the hunks in order; each restarts the cursor at 0 and anchors at its
   * newStartLine - 1. No recorded change is dropped, even by an aborted walk.
   */
  function WalkHunks(mode: Mode, w: Work, hunks: seq<Hunk>): (r: Walked)
    ensures r.Continue? ==> w.changes.Keys <= r.work.changes.Keys
    ensures r.Abort? ==> w.changes.Keys <= r.changes.Keys
    decreases |hunks|
  {
    if hunks == [] then Continue(w)
    else
      match WalkBody(mode, w, hunks[0].newStartLine - 1, 0, hunks[0].body)
      case Abort(c, e) => Abort(c, e)
      case Continue(w') => WalkHunks(mode, w', hunks[1..])
  }

  /** The last line of a hunk: its last body line, or its header when it has no body. */
  function LastLine(h: Hunk): string {
    if h.body == [] then h.header else h.body[|h.body| - 1]
  }

  predicate NoNewlineAtEndOfFile(hunks: seq<Hunk>)
    requires hunks != []
  {
    LastLine(hunks[|hunks| - 1]) == NoNewlineMarker
  }

  /** The working lines after the walk, with the trailing empty line unless the marker ends the patch. */
  function Finish(lines: seq<string>, hunks: seq<Hunk>): seq<string>
    requires hunks != []
  {
    if NoNewlineAtEndOfFile(hunks) then lines else lines + [""]
  }

  /**
   * What a transform does to a buffer holding text and changes. A patch that
   * does not hold exactly one file is rejected before anything is recorded,
   * and otherwise the recorded changes are only added to, whatever the outcome.
   */
  function Apply(mode: Mode, text: string, changes: map<int, ChangeType>, patch: Patch): (r: Applied)
    ensures |patch.files| != 1 ==> r == Rejected(changes, WrongFileCount)
    ensures changes.Keys <= r.changes.Keys
    ensures r.Done? ==> |patch.files| == 1 && patch.files[0] != []
  {
    if |patch.files| != 1 then Rejected(changes, WrongFileCount)
    else
      var hunks := patch.files[0];
      match WalkHunks(mode, Work(Lines(text), changes), hunks)
      case Abort(c, e) => Rejected(c, e)
      case Continue(w) =>
        if hunks == [] then Rejected(w.changes, NoHunks)
        else
          var out := Finish(w.lines, hunks);
          if out == [] then Rejected(w.changes, NothingToJoin) else Done(Join(out), w.changes)
  }

  // ---------------------------------------------------------------------
  // The buffer
  // ---------------------------------------------------------------------

  class TextFile {
    var text: string
    var lineStartOffsets: map<int, int>
    var changesByLine: map<int, ChangeType>

    /** The offset table always describes the current text. */
    ghost predicate Valid()
      reads this
    {
      lineStartOffsets == StartOffsetTable(Lines(text))
    }

    constructor (text: string)
      ensures Valid() && this.text == text && changesByLine == map[]
    {
      this.text := text;
      changesByLine := map[];
      lineStartOffsets := map[];
      new;
      UpdateLineStartOffsets();
    }

    method SetText(text: string)
      modifies this
      ensures Valid() && this.text == text && changesByLine == old(changesByLine)
    {
      this.text := text;
      UpdateLineStartOffsets();
    }

    /** Rebuilds the offset table: line i starts after lines 0..i-1 and their separators. */
    method UpdateLineStartOffsets()
      modifies this`lineStartOffsets
      ensures Valid()
    {
      lineStartOffsets := map[];
      var lines := Lines(text);
      var offset := 0;
      for i := 0 to |lines|
        invariant offset == |Flatten(lines[..i])|
        invariant lineStartOffsets == map j | 0 <= j < i :: |Flatten(lines[..j])|
      {
        lineStartOffsets := lineStartOffsets[i := offset];
        assert lines[..i + 1][..i] == lines[..i];
        offset := offset + |lines[i]| + 1;
      }
      assert lines[..|lines|] == lines;
    }

    /** The number of lines: none for the empty text, and one per offset-table entry. */
    function GetLineCount(): (n: nat)
      reads this
      ensures n == 0 <==> text == []
      ensures Valid() ==> forall i :: i in lineStartOffsets <==> 0 <= i < n
    {
      |Lines(text)|
    }

    /** The recorded changes; for an existing line they agree with GetChangeType. */
    function GetChangedLines(): (m: map<int, ChangeType>)
      reads this
      ensures forall line :: 0 <= line < GetLineCount() ==>
        GetChangeType(line) == Success(if line in m then m[line] else NoChange)
    {
      changesByLine
    }

    /** The classification of an existing line; NoChange when nothing was recorded for it. */
    function GetChangeType(line: int): (r: Result<ChangeType, IndexError>)
      reads this
      ensures r.Success? <==> 0 <= line < GetLineCount()
      ensures r.Success? ==> r.value == if line in changesByLine then changesByLine[line] else NoChange
      ensures r.Success? && r.value != NoChange ==> line in changesByLine
    {
      if line < 0 || line >= |Lines(text)| then Failure(InvalidLine(line))
      else if line in changesByLine then Success(changesByLine[line]) else Success(NoChange)
    }

    /** Where an existing line starts in the text; line 0 starts at 0. */
    function GetLineStartOffset(line: int): (r: Result<int, IndexError>)
      requires Valid()
      reads this
      ensures r.Success? <==> 0 <= line < GetLineCount()
      ensures r.Success? ==> r.value == |Flatten(Lines(text)[..line])|
      ensures r.Success? && line == 0 ==> r.value == 0
    {
      if line < 0 || line >= |Lines(text)| then Failure(InvalidLine(line))
      else Success(lineStartOffsets[line])
    }

    /** Where an existing line ends, one past its '\n': the start of the next line. */
    function GetLineEndOffset(line: int): (r: Result<int, IndexError>)
      requires Valid()
      reads this
      ensures r.Success? <==> 0 <= line < GetLineCount()
      ensures r.Success? && line + 1 < GetLineCount() ==> r == GetLineStartOffset(line + 1)
      ensures r.Success? ==> r.value == GetLineStartOffset(line).value + |Lines(text)[line]| + 1
    {
      match GetLineStartOffset(line)
      case Failure(e) => Failure(e)
      case Success(s) =>
        var ls := Lines(text);
        assert line + 1 < |ls| ==> ls[..line + 1][..line] == ls[..line];
        Success(s + |ls[line]| + 1)
    }

    method ForwardsPatch(patch: Patch) returns (failure: Option<PatchError>)
      requires Valid()
      modifies this
      ensures Valid()
      ensures Outcome(Apply(Forwards, old(text), old(changesByLine), patch), old(text), failure)
    {
      failure := ApplyPatch(Forwards, patch);
    }

    method ForwardsPatchAndAlign(patch: Patch) returns (failure: Option<PatchError>)
      requires Valid()
      modifies this
      ensures Valid()
      ensures Outcome(Apply(ForwardsAlign, old(text), old(changesByLine), patch), old(text), failure)
    {
      failure := ApplyPatch(ForwardsAlign, patch);
    }

    method BackwardsPatch(patch: Patch) returns (failure: Option<PatchError>)
      requires Valid()
      modifies this
      ensures Valid()
      ensures Outcome(Apply(Backwards, old(text), old(changesByLine), patch), old(text), failure)
    {
      failure := ApplyPatch(Backwards, patch);
    }

    method BackwardsPatchAndAlign(patch: Patch) returns (failure: Option<PatchError>)
      requires Valid()
      modifies this
      ensures Valid()
      ensures Outcome(Apply(BackwardsAlign, old(text), old(changesByLine), patch), old(text), failure)
    {
      failure := ApplyPatch(BackwardsAlign, patch);
    }

    /** The buffer after a transform: the new text on success, the old text on failure, and the changes either way. */
    ghost predicate Outcome(r: Applied, oldText: string, failure: Option<PatchError>)
      reads this
    {
      && changesByLine == r.changes
      && (r.Done? ==> text == r.text && failure == None)
      && (r.Rejected? ==> text == oldText && failure == Some(r.error))
    }

    /** One hunk body line: the mode's switch on its tag at working index k. */
    method ApplyHunkLine(mode: Mode, lines: seq<string>, k: int, line: string)
      returns (newLines: seq<string>, advance: bool, failure: Option<PatchError>)
      requires line != []
      modifies this`changesByLine
      ensures match Step(mode, Work(lines, old(changesByLine)), k, line)
        case Next(w, adv) => failure == None && newLines == w.lines && changesByLine == w.changes && advance == adv
        case Stop(c, e) => failure == Some(e) && changesByLine == c
    {
      newLines, advance, failure := lines, false, None;
      var tag := line[0];
      match mode
      case Forwards =>
        if tag == ' ' {
          advance := true;
        } else if tag == '-' {
          changesByLine := changesByLine[k := Deleted];
          advance := true;
        }
      case ForwardsAlign =>
        if tag == ' ' {
          advance := true;
        } else if tag == '-' {
          changesByLine := changesByLine[k := Deleted];
          advance := true;
        } else if tag == '+' {
          changesByLine := changesByLine[k := Added];
          if !(0 <= k <= |lines|) {
            return lines, false, Some(LineIndexOutOfBounds);
          }
          newLines := Insert(lines, k, Placeholder);
          advance := true;
        }
      case BackwardsAlign =>
        if tag == ' ' {
          advance := true;
        } else if tag == '+' {
          changesByLine := changesByLine[k := Deleted];
          if !(0 <= k <= |lines|) {
            return lines, false, Some(LineIndexOutOfBounds);
          }
          newLines := Insert(lines, k, Placeholder);
          advance := true;
        } else if tag == '-' {
          changesByLine := changesByLine[k := Added];
          advance := true;
        }
      case Backwards =>
        if tag == ' ' || tag == '-' {
          if !(0 <= k < |lines|) {
            return lines, false, Some(LineIndexOutOfBounds);
          }
          if lines[k] != line[1..] {
            return lines, false, Some(HunkMismatch);
          }
          if tag == ' ' {
            advance := true;
          } else {
            newLines := Remove(lines, k);
          }
        } else if tag == '+' {
          if !(0 <= k <= |lines|) {
            return lines, false, Some(LineIndexOutOfBounds);
          }
          newLines := Insert(lines, k, line[1..]);
          changesByLine := changesByLine[k := Added];
          advance := true;
        }
    }

    /** Walks the body of one hunk with its cursor, as the inner loop of each transform does. */
    method ApplyHunk(mode: Mode, hunk: Hunk, lines: seq<string>) returns (newLines: seq<string>, failure: Option<PatchError>)
      modifies this`changesByLine
      ensures match WalkBody(mode, Work(lines, old(changesByLine)), hunk.newStartLine - 1, 0, hunk.body)
        case Continue(w) => failure == None && newLines == w.lines && changesByLine == w.changes
        case Abort(c, e) => failure == Some(e) && changesByLine == c
    {
      var anchor := hunk.newStartLine - 1;
      ghost var whole := WalkBody(mode, Work(lines, changesByLine), anchor, 0, hunk.body);
      newLines := lines;
      var pos := 0;
      for j := 0 to |hunk.body|
        invariant whole == WalkBody(mode, Work(newLines, changesByLine), anchor, pos, hunk.body[j..])
      {
        var line := hunk.body[j];
        assert hunk.body[j..][1..] == hunk.body[j + 1..];
        if line == [] {
          return newLines, Some(EmptyHunkLine);
        }
        var advance, stepFailure;
        newLines, advance, stepFailure := ApplyHunkLine(mode, newLines, anchor + pos, line);
        if stepFailure.Some? {
          return newLines, stepFailure;
        }
        if advance {
          pos := pos + 1;
        }
      }
      assert hunk.body[|hunk.body|..] == [];
      failure := None;
    }

    /** Walks the hunks of the patch's one file in order over the working lines. */
    method ApplyHunks(mode: Mode, hunks: seq<Hunk>, lines: seq<string>) returns (newLines: seq<string>, failure: Option<PatchError>)
      modifies this`changesByLine
      ensures match WalkHunks(mode, Work(lines, old(changesByLine)), hunks)
        case Continue(w) => failure == None && newLines == w.lines && changesByLine == w.changes
        case Abort(c, e) => failure == Some(e) && changesByLine == c
    {
      ghost var whole := WalkHunks(mode, Work(lines, changesByLine), hunks);
      newLines := lines;
      for h := 0 to |hunks|
        invariant whole == WalkHunks(mode, Work(newLines, changesByLine), hunks[h..])
      {
        assert hunks[h..][1..] == hunks[h + 1..];
        var hunkFailure;
        newLines, hunkFailure := ApplyHunk(mode, hunks[h], newLines);
        if hunkFailure.Some? {
          return newLines, hunkFailure;
        }
      }
      assert hunks[|hunks|..] == [];
      failure := None;
    }

    /** The shared skeleton of the four transforms. */
    method ApplyPatch(mode: Mode, patch: Patch) returns (failure: Option<PatchError>)
      requires Valid()
      modifies this
      ensures Valid()
      ensures Outcome(Apply(mode, old(text), old(changesByLine), patch), old(text), failure)
    {
      if |patch.files| != 1 {
        return Some(WrongFileCount);
      }
      var hunks := patch.files[0];
      var newLines;
      newLines, failure := ApplyHunks(mode, hunks, Lines(text));
      if failure.Some? {
        return;
      }
      if |hunks| == 0 {
        return Some(NoHunks);
      }
      if !NoNewlineAtEndOfFile(hunks) {
        newLines := newLines + [""];
      }
      var joined := JoinLines(newLines);
      if joined.None? {
        return Some(NothingToJoin);
      }
      SetText(joined.value);
    }
  }

  /** Appends every line and a '\n', then deletes the last character; nothing to delete for no lines. */
  method JoinLines(lines: seq<string>) returns (joined: Option<string>)
    ensures lines == [] <==> joined == None
    ensures joined.Some? ==> joined.value == Join(lines)
  {
    var sb := "";
    for i := 0 to |lines|
      invariant sb == Flatten(lines[..i])
    {
      assert lines[..i + 1][..i] == lines[..i];
      sb := sb + lines[i] + "\n";
    }
    assert lines[..|lines|] == lines;
    if |sb| == 0 {
      return None;
    }
    return Some(sb[..|sb| - 1]);
  }
}

/** What the four transforms promise, stated over the walk that specifies them. */
module TextFileProperties {
  import opened Wrappers
  import opened TextFile

  /** Body lines whose first character is tag. */
  function CountTag(body: seq<string>, tag: char): nat {
    if body == [] then 0
    else (if body[0] != [] && body[0][0] == tag then 1 else 0) + CountTag(body[1..], tag)
  }

  function HunksCountTag(hunks: seq<Hunk>, tag: char): nat {
    if hunks == [] then 0 else CountTag(hunks[0].body, tag) + HunksCountTag(hunks[1..], tag)
  }

  /** The net number of working lines a transform adds for plus '+' lines and minus '-' lines. */
  function ExpectedGrowth(mode: Mode, plus: nat, minus: nat): int {
    match mode
    case Forwards => 0
    case ForwardsAlign => plus
    case BackwardsAlign => plus
    case Backwards => plus - minus
  }

  predicate CleanLines(body: seq<string>) {
    forall j :: 0 <= j < |body| ==> body[j] != [] && '\n' !in body[j]
  }

  predicate CleanHunks(hunks: seq<Hunk>) {
    forall i :: 0 <= i < |hunks| ==> CleanLines(hunks[i].body)
  }

  lemma {:induction false} WalkBodyLineCount(mode: Mode, w: Work, anchor: int, pos: int, body: seq<string>)
    ensures var r := WalkBody(mode, w, anchor, pos, body);
      r.Continue? ==> |r.work.lines| == |w.lines| + ExpectedGrowth(mode, CountTag(body, '+'), CountTag(body, '-'))
    decreases |body|
  {
    if body != [] && body[0] != [] {
      match Step(mode, w, anchor + pos, body[0])
      case Stop(_, _) =>
      case Next(w', adv) =>
        WalkBodyLineCount(mode, w', anchor, if adv then pos + 1 else pos, body[1..]);
    }
  }

  /** A walk that finishes changes the line count by the mode's growth for the '+' and '-' lines. */
  lemma {:induction false} WalkHunksLineCount(mode: Mode, w: Work, hunks: seq<Hunk>)
    ensures var r := WalkHunks(mode, w, hunks);
      r.Continue? ==> |r.work.lines| == |w.lines| + ExpectedGrowth(mode, HunksCountTag(hunks, '+'), HunksCountTag(hunks, '-'))
    decreases |hunks|
  {
    if hunks != [] {
      var h := hunks[0];
      WalkBodyLineCount(mode, w, h.newStartLine - 1, 0, h.body);
      match WalkBody(mode, w, h.newStartLine - 1, 0, h.body)
      case Abort(_, _) =>
      case Continue(w') => WalkHunksLineCount(mode, w', hunks[1..]);
    }
  }

  lemma {:induction false} ForwardsBodyKeepsLines(w: Work, anchor: int, pos: int, body: seq<string>)
    ensures var r := WalkBody(Forwards, w, anchor, pos, body);
      (r.Continue? ==> r.work.lines == w.lines) && (r.Abort? ==> r.error == EmptyHunkLine)
    ensures (forall j :: 0 <= j < |body| ==> body[j] != []) ==> WalkBody(Forwards, w, anchor, pos, body).Continue?
    decreases |body|
  {
    if body != [] && body[0] != [] {
      var r := Step(Forwards, w, anchor + pos, body[0]);
      ForwardsBodyKeepsLines(r.work, anchor, if r.advance then pos + 1 else pos, body[1..]);
      if forall j :: 0 <= j < |body| ==> body[j] != [] {
        assert forall j :: 0 <= j < |body[1..]| ==> body[1..][j] == body[j + 1];
      }
    }
  }

  /** The plain forwards walk never inserts or removes a line; it fails only on an empty hunk line. */
  lemma {:induction false} ForwardsKeepsLines(w: Work, hunks: seq<Hunk>)
    ensures var r := WalkHunks(Forwards, w, hunks);
      (r.Continue? ==> r.work.lines == w.lines) && (r.Abort? ==> r.error == EmptyHunkLine)
    decreases |hunks|
  {
    if hunks != [] {
      var h := hunks[0];
      ForwardsBodyKeepsLines(w, h.newStartLine - 1, 0, h.body);
      match WalkBody(Forwards, w, h.newStartLine - 1, 0, h.body)
      case Abort(_, _) =>
      case Continue(w') => ForwardsKeepsLines(w', hunks[1..]);
    }
  }

  lemma InsertKeepsNoNewlines(ls: seq<string>, k: nat, x: string)
    requires k <= |ls| && NoNewlines(ls) && '\n' !in x
    ensures NoNewlines(Insert(ls, k, x))
  {
    var r := Insert(ls, k, x);
    forall i | 0 <= i < |r| ensures '\n' !in r[i] {
      assert r[i] == if i < k then ls[i] else if i == k then x else ls[i - 1];
    }
  }

  lemma RemoveKeepsNoNewlines(ls: seq<string>, k: nat)
    requires k < |ls| && NoNewlines(ls)
    ensures NoNewlines(Remove(ls, k))
  {
    var r := Remove(ls, k);
    forall i | 0 <= i < |r| ensures '\n' !in r[i] {
      assert r[i] == if i < k then ls[i] else ls[i + 1];
    }
  }

  /** A step keeps the working lines free of '\n' when the hunk line has none. */
  lemma StepKeepsNoNewlines(mode: Mode, w: Work, k: int, line: string)
    requires line != [] && '\n' !in line && NoNewlines(w.lines)
    ensures var r := Step(mode, w, k, line); r.Next? ==> NoNewlines(r.work.lines)
  {
    var tag, x := line[0], line[1..];
    assert '\n' !in x by {
      assert forall i :: 0 <= i < |x| ==> x[i] == line[i + 1];
    }
    if 0 <= k <= |w.lines| {
      if mode == Backwards {
        if tag == '-' && k < |w.lines| {
          RemoveKeepsNoNewlines(w.lines, k);
        } else if tag == '+' {
          InsertKeepsNoNewlines(w.lines, k, x);
        }
      } else if tag == '+' {
        InsertKeepsNoNewlines(w.lines, k, Placeholder);
      }
    }
  }

  lemma {:induction false} WalkBodyKeepsNoNewlines(mode: Mode, w: Work, anchor: int, pos: int, body: seq<string>)
    requires NoNewlines(w.lines) && CleanLines(body)
    ensures var r := WalkBody(mode, w, anchor, pos, body); r.Continue? ==> NoNewlines(r.work.lines)
    decreases |body|
  {
    if body != [] {
      StepKeepsNoNewlines(mode, w, anchor + pos, body[0]);
      match Step(mode, w, anchor + pos, body[0])
      case Stop(_, _) =>
      case Next(w', adv) =>
        WalkBodyKeepsNoNewlines(mode, w', anchor, if adv then pos + 1 else pos, body[1..]);
    }
  }

  lemma {:induction false} WalkHunksKeepsNoNewlines(mode: Mode, w: Work, hunks: seq<Hunk>)
    requires NoNewlines(w.lines) && CleanHunks(hunks)
    ensures var r := WalkHunks(mode, w, hunks); r.Continue? ==> NoNewlines(r.work.lines)
    decreases |hunks|
  {
    if hunks != [] {
      var h := hunks[0];
      assert CleanLines(h.body);
      WalkBodyKeepsNoNewlines(mode, w, h.newStartLine - 1, 0, h.body);
      match WalkBody(mode, w, h.newStartLine - 1, 0, h.body)
      case Abort(_, _) =>
      case Continue(w') => WalkHunksKeepsNoNewlines(mode, w', hunks[1..]);
    }
  }

  /**
   * After a successful transform whose patch does not end with the
   * no-newline marker, the text has exactly the old line count plus the
   * mode's growth: plus the '+' lines for the aligned transforms, plus '+'
   * minus '-' for the plain backwards transform, unchanged for plain forwards.
   */
  lemma PatchLineCount(mode: Mode, text: string, changes: map<int, ChangeType>, patch: Patch)
    requires |patch.files| == 1 && CleanHunks(patch.files[0])
    requires patch.files[0] != [] && !NoNewlineAtEndOfFile(patch.files[0])
    requires Apply(mode, text, changes, patch).Done?
    ensures var hunks := patch.files[0];
      |Lines(Apply(mode, text, changes, patch).text)| ==
        |Lines(text)| + ExpectedGrowth(mode, HunksCountTag(hunks, '+'), HunksCountTag(hunks, '-'))
  {
    var hunks := patch.files[0];
    var w0 := Work(Lines(text), changes);
    var r := WalkHunks(mode, w0, hunks);
    WalkHunksLineCount(mode, w0, hunks);
    WalkHunksKeepsNoNewlines(mode, w0, hunks);
    var ls := r.work.lines;
    assert Finish(ls, hunks) == ls + [""];
    assert NoNewlines(ls + [""]);
    LinesOfJoin(ls + [""]);
    assert (ls + [""])[..|ls|] == ls;
  }

  /**
   * The text a transform joins ends every working line with '\n', except that
   * the last line's '\n' is missing exactly when the no-newline marker ends
   * the patch.
   */
  lemma FinishEndsText(lines: seq<string>, hunks: seq<Hunk>)
    requires lines != [] && hunks != []
    ensures !NoNewlineAtEndOfFile(hunks) ==> Join(Finish(lines, hunks)) == Flatten(lines)
    ensures NoNewlineAtEndOfFile(hunks) ==> Join(Finish(lines, hunks)) + "\n" == Flatten(lines)
  {
    var f := Flatten(lines);
    assert f == Flatten(lines[..|lines| - 1]) + lines[|lines| - 1] + "\n";
    assert f[..|f| - 1] + "\n" == f;
    if !NoNewlineAtEndOfFile(hunks) {
      var ext := lines + [""];
      assert ext[..|ext| - 1] == lines;
      assert Flatten(ext) == f + "\n";
      assert Flatten(ext)[..|Flatten(ext)| - 1] == f;
    }
  }

  /** The plain forwards transform gives the text back line for line; only the changes grow. */
  lemma ForwardsPatchKeepsText(text: string, changes: map<int, ChangeType>, patch: Patch)
    requires |patch.files| == 1 && patch.files[0] != [] && !NoNewlineAtEndOfFile(patch.files[0])
    requires Apply(Forwards, text, changes, patch).Done?
    ensures Lines(Apply(Forwards, text, changes, patch).text) == Lines(text)
    ensures changes.Keys <= Apply(Forwards, text, changes, patch).changes.Keys
  {
    var hunks := patch.files[0];
    var w0 := Work(Lines(text), changes);
    ForwardsKeepsLines(w0, hunks);
    var ls := Lines(text);
    LinesOfJoin(ls + [""]);
    assert (ls + [""])[..|ls|] == ls;
  }

  // ---------------------------------------------------------------------
  // The two aligned transforms are mirror images
  // ---------------------------------------------------------------------

  function Flip(t: ChangeType): ChangeType {
    match t
    case Added => Deleted
    case Deleted => Added
    case NoChange => NoChange
  }

  /** The change map with Added and Deleted swapped. */
  function Mirror(c: map<int, ChangeType>): (m: map<int, ChangeType>)
    ensures m.Keys == c.Keys
  {
    map k | k in c :: Flip(c[k])
  }

  function MirrorWalked(r: Walked): Walked {
    match r
    case Continue(w) => Continue(w.(changes := Mirror(w.changes)))
    case Abort(c, e) => Abort(Mirror(c), e)
  }

  function MirrorApplied(r: Applied): Applied {
    match r
    case Done(t, c) => Done(t, Mirror(c))
    case Rejected(c, e) => Rejected(Mirror(c), e)
  }

  lemma MirrorPut(c: map<int, ChangeType>, k: int, v: ChangeType)
    ensures Mirror(c[k := v]) == Mirror(c)[k := Flip(v)]
  {
    assert Mirror(c[k := v]).Keys == Mirror(c)[k := Flip(v)].Keys;
  }

  lemma {:induction false} AlignedBodiesMirror(lines: seq<string>, c: map<int, ChangeType>, anchor: int, pos: int, body: seq<string>)
    ensures WalkBody(BackwardsAlign, Work(lines, Mirror(c)), anchor, pos, body)
         == MirrorWalked(WalkBody(ForwardsAlign, Work(lines, c), anchor, pos, body))
    decreases |body|
  {
    if body != [] && body[0] != [] {
      var k := anchor + pos;
      var tag := body[0][0];
      if tag == '+' {
        MirrorPut(c, k, Added);
      } else if tag == '-' {
        MirrorPut(c, k, Deleted);
      }
      match Step(ForwardsAlign, Work(lines, c), k, body[0])
      case Stop(_, _) =>
      case Next(w', adv) =>
        AlignedBodiesMirror(w'.lines, w'.changes, anchor, if adv then pos + 1 else pos, body[1..]);
    }
  }

  lemma {:induction false} AlignedHunksMirror(lines: seq<string>, c: map<int, ChangeType>, hunks: seq<Hunk>)
    ensures WalkHunks(BackwardsAlign, Work(lines, Mirror(c)), hunks)
         == MirrorWalked(WalkHunks(ForwardsAlign, Work(lines, c), hunks))
    decreases |hunks|
  {
    if hunks != [] {
      var h := hunks[0];
      AlignedBodiesMirror(lines, c, h.newStartLine - 1, 0, h.body);
      match WalkBody(ForwardsAlign, Work(lines, c), h.newStartLine - 1, 0, h.body)
      case Abort(_, _) =>
      case Continue(w') => AlignedHunksMirror(w'.lines, w'.changes, hunks[1..]);
    }
  }

  /**
   * The aligned backwards transform produces exactly the text of the aligned
   * forwards transform, with every Added mark a Deleted mark and vice versa:
   * placeholders go to the same rows, so both panes have the same line count.
   */
  lemma AlignedTransformsMirror(text: string, changes: map<int, ChangeType>, patch: Patch)
    ensures Apply(BackwardsAlign, text, Mirror(changes), patch) == MirrorApplied(Apply(ForwardsAlign, text, changes, patch))
  {
    if |patch.files| == 1 {
      AlignedHunksMirror(Lines(text), changes, patch.files[0]);
    }
  }

  // ---------------------------------------------------------------------
  // The plain backwards transform applies a hunk
  // ---------------------------------------------------------------------

  /** The hunk's lines as they stand before the change: context and removed lines. */
  function OldSide(body: seq<string>): seq<string> {
    if body == [] then []
    else (if body[0] != [] && body[0][0] in " -" then [body[0][1..]] else []) + OldSide(body[1..])
  }

  /** The hunk's lines as they stand after the change: context and added lines. */
  function NewSide(body: seq<string>): seq<string> {
    if body == [] then []
    else (if body[0] != [] && body[0][0] in " +" then [body[0][1..]] else []) + NewSide(body[1..])
  }

  /** One walk step unfolded: a non-empty first line that steps on continues with the rest. */
  lemma WalkBodyUnfold(mode: Mode, w: Work, anchor: int, pos: int, body: seq<string>, w': Work, adv: bool)
    requires body != [] && body[0] != [] && Step(mode, w, anchor + pos, body[0]) == Next(w', adv)
    ensures WalkBody(mode, w, anchor, pos, body) == WalkBody(mode, w', anchor, if adv then pos + 1 else pos, body[1..])
  {
  }

  /** The next hunk line for the plain backwards walk, over lines that hold the old side at the cursor. */
  predicate AtCursor(body: seq<string>, pre: seq<string>, anchor: int, pos: int) {
    body != [] && body[0] != [] && anchor + pos == |pre|
  }

  /** A context line that matches the working line at the cursor keeps the lines and advances. */
  lemma BackwardsContextMatches(ls: seq<string>, c: map<int, ChangeType>, k: int, line: string)
    requires line != [] && line[0] == ' ' && 0 <= k < |ls| && ls[k] == line[1..]
    ensures Step(Backwards, Work(ls, c), k, line) == Next(Work(ls, c), true)
  {
  }

  lemma BackwardsContextStep(body: seq<string>, pre: seq<string>, post: seq<string>, c: map<int, ChangeType>, anchor: int, pos: int)
    requires AtCursor(body, pre, anchor, pos) && body[0][0] == ' '
    ensures var x := body[0][1..];
      && WalkBody(Backwards, Work(pre + OldSide(body) + post, c), anchor, pos, body)
         == WalkBody(Backwards, Work((pre + [x]) + OldSide(body[1..]) + post, c), anchor, pos + 1, body[1..])
      && pre + NewSide(body) + post == (pre + [x]) + NewSide(body[1..]) + post
  {
    var x, rest := body[0][1..], body[1..];
    assert OldSide(body) == [x] + OldSide(rest);
    assert NewSide(body) == [x] + NewSide(rest);
    ShiftAcross(pre, x, OldSide(rest), post);
    ShiftAcross(pre, x, NewSide(rest), post);
    var ls := pre + OldSide(body) + post;
    BackwardsContextMatches(ls, c, anchor + pos, body[0]);
    WalkBodyUnfold(Backwards, Work(ls, c), anchor, pos, body, Work(ls, c), true);
  }

  /** Moving the head of the middle part to the end of the prefix leaves the whole unchanged, and the head sits at the prefix's length. */
  lemma ShiftAcross<T>(pre: seq<T>, x: T, mid: seq<T>, post: seq<T>)
    ensures pre + ([x] + mid) + post == (pre + [x]) + mid + post
    ensures (pre + ([x] + mid) + post)[|pre|] == x
  {
  }

  lemma BackwardsRemovedStep(body: seq<string>, pre: seq<string>, post: seq<string>, c: map<int, ChangeType>, anchor: int, pos: int)
    requires AtCursor(body, pre, anchor, pos) && body[0][0] == '-'
    ensures && WalkBody(Backwards, Work(pre + OldSide(body) + post, c), anchor, pos, body)
         == WalkBody(Backwards, Work(pre + OldSide(body[1..]) + post, c), anchor, pos, body[1..])
      && NewSide(body) == NewSide(body[1..])
  {
    var x, rest := body[0][1..], body[1..];
    var ls := pre + OldSide(body) + post;
    var tail := OldSide(rest) + post;
    var ls' := pre + OldSide(rest) + post;
    assert ls == pre + [x] + tail by {
      assert OldSide(body) == [x] + OldSide(rest);
    }
    assert ls' == pre + tail;
    BackwardsRemovedWalk(pre, tail, c, anchor, pos, body);
    assert NewSide(body) == NewSide(rest);
  }

  /** A walk whose first line is a matching removed line goes on with that line taken out. */
  lemma BackwardsRemovedWalk(pre: seq<string>, tail: seq<string>, c: map<int, ChangeType>, anchor: int, pos: int, body: seq<string>)
    requires AtCursor(body, pre, anchor, pos) && body[0][0] == '-'
    ensures WalkBody(Backwards, Work(pre + [body[0][1..]] + tail, c), anchor, pos, body)
         == WalkBody(Backwards, Work(pre + tail, c), anchor, pos, body[1..])
  {
    BackwardsRemovedMatches(pre, tail, c, body[0]);
    WalkBodyUnfold(Backwards, Work(pre + [body[0][1..]] + tail, c), anchor, pos, body, Work(pre + tail, c), false);
  }

  lemma BackwardsAddedStep(body: seq<string>, pre: seq<string>, post: seq<string>, c: map<int, ChangeType>, anchor: int, pos: int)
    requires AtCursor(body, pre, anchor, pos) && body[0][0] == '+'
    ensures var x := body[0][1..];
      && WalkBody(Backwards, Work(pre + OldSide(body) + post, c), anchor, pos, body)
         == WalkBody(Backwards, Work((pre + [x]) + OldSide(body[1..]) + post, c[anchor + pos := Added]), anchor, pos + 1, body[1..])
      && pre + NewSide(body) + post == (pre + [x]) + NewSide(body[1..]) + post
  {
    var x, rest := body[0][1..], body[1..];
    var ls := pre + OldSide(body) + post;
    var tail := OldSide(rest) + post;
    assert ls == pre + tail by {
      assert OldSide(body) == OldSide(rest);
    }
    assert (pre + [x]) + OldSide(rest) + post == (pre + [x]) + tail;
    BackwardsAddedWalk(pre, tail, c, anchor, pos, body);
    assert NewSide(body) == [x] + NewSide(rest);
    ShiftAcross(pre, x, NewSide(rest), post);
  }

  /** A walk whose first line is an added line goes on with that line inserted and marked Added. */
  lemma BackwardsAddedWalk(pre: seq<string>, tail: seq<string>, c: map<int, ChangeType>, anchor: int, pos: int, body: seq<string>)
    requires AtCursor(body, pre, anchor, pos) && body[0][0] == '+'
    ensures WalkBody(Backwards, Work(pre + tail, c), anchor, pos, body)
         == WalkBody(Backwards, Work((pre + [body[0][1..]]) + tail, c[anchor + pos := Added]), anchor, pos + 1, body[1..])
  {
    BackwardsAddedInserts(pre, tail, c, body[0]);
    WalkBodyUnfold(Backwards, Work(pre + tail, c), anchor, pos, body, Work((pre + [body[0][1..]]) + tail, c[anchor + pos := Added]), true);
  }

  /** A removed line that matches the working line after pre takes that line out and keeps the cursor. */
  lemma BackwardsRemovedMatches(pre: seq<string>, tail: seq<string>, c: map<int, ChangeType>, line: string)
    requires line != [] && line[0] == '-'
    ensures Step(Backwards, Work(pre + [line[1..]] + tail, c), |pre|, line) == Next(Work(pre + tail, c), false)
  {
    var ls := pre + [line[1..]] + tail;
    assert ls[|pre|] == line[1..];
    assert Remove(ls, |pre|) == pre + tail by {
      assert ls[..|pre|] == pre && ls[|pre| + 1..] == tail;
    }
  }

  /** An added line is inserted after pre, marked Added, and the cursor moves past it. */
  lemma BackwardsAddedInserts(pre: seq<string>, tail: seq<string>, c: map<int, ChangeType>, line: string)
    requires line != [] && line[0] == '+'
    ensures Step(Backwards, Work(pre + tail, c), |pre|, line)
         == Next(Work((pre + [line[1..]]) + tail, c[|pre| := Added]), true)
  {
    var ls := pre + tail;
    assert Insert(ls, |pre|, line[1..]) == (pre + [line[1..]]) + tail by {
      assert ls[..|pre|] == pre && ls[|pre|..] == tail;
    }
  }

  lemma BackwardsOtherStep(body: seq<string>, pre: seq<string>, post: seq<string>, c: map<int, ChangeType>, anchor: int, pos: int)
    requires AtCursor(body, pre, anchor, pos) && body[0][0] !in " -+"
    ensures && WalkBody(Backwards, Work(pre + OldSide(body) + post, c), anchor, pos, body)
         == WalkBody(Backwards, Work(pre + OldSide(body[1..]) + post, c), anchor, pos, body[1..])
      && NewSide(body) == NewSide(body[1..])
  {
    var ls := pre + OldSide(body) + post;
    assert OldSide(body) == OldSide(body[1..]) && NewSide(body) == NewSide(body[1..]);
    WalkBodyUnfold(Backwards, Work(ls, c), anchor, pos, body, Work(ls, c), false);
  }

  /**
   * Over working lines that hold the hunk's old side at the cursor, the plain
   * backwards walk succeeds and leaves the hunk's new side in its place.
   */
  lemma {:induction false} BackwardsAppliesBody(body: seq<string>, pre: seq<string>, post: seq<string>,
                                                c: map<int, ChangeType>, anchor: int, pos: int)
    requires forall j :: 0 <= j < |body| ==> body[j] != []
    requires anchor + pos == |pre|
    ensures var r := WalkBody(Backwards, Work(pre + OldSide(body) + post, c), anchor, pos, body);
      r.Continue? && r.work.lines == pre + NewSide(body) + post
    decreases |body|
  {
    if body != [] {
      var x, rest := body[0][1..], body[1..];
      var tag := body[0][0];
      if tag == ' ' {
        BackwardsContextStep(body, pre, post, c, anchor, pos);
        BackwardsAppliesBody(rest, pre + [x], post, c, anchor, pos + 1);
      } else if tag == '-' {
        BackwardsRemovedStep(body, pre, post, c, anchor, pos);
        BackwardsAppliesBody(rest, pre, post, c, anchor, pos);
      } else if tag == '+' {
        BackwardsAddedStep(body, pre, post, c, anchor, pos);
        BackwardsAppliesBody(rest, pre + [x], post, c[anchor + pos := Added], anchor, pos + 1);
      } else {
        BackwardsOtherStep(body, pre, post, c, anchor, pos);
        BackwardsAppliesBody(rest, pre, post, c, anchor, pos);
      }
    }
  }

  /** Both sides of a clean hunk body are lines without '\n'. */
  lemma {:induction false} SidesHaveNoNewlines(body: seq<string>)
    requires CleanLines(body)
    ensures NoNewlines(OldSide(body)) && NoNewlines(NewSide(body))
    decreases |body|
  {
    if body != [] {
      assert CleanLines(body[1..]);
      SidesHaveNoNewlines(body[1..]);
      assert '\n' !in body[0][1..];
    }
  }

  /**
   * Backwards patching with one hunk whose old side stands in the text at the
   * line the hunk names succeeds. The result holds the hunk's new side in that
   * place with every other line untouched, the lines the hunk adds are marked
   * Added, and every other line keeps its entry.
   */
  lemma BackwardsPatchAppliesHunk(text: string, c: map<int, ChangeType>, h: Hunk, pre: seq<string>, post: seq<string>)
    requires Lines(text) == pre + OldSide(h.body) + post && |pre| == h.newStartLine - 1
    requires CleanLines(h.body) && LastLine(h) != NoNewlineMarker
    ensures var r := Apply(Backwards, text, c, Patch([[h]]));
      && r.Done? && Lines(r.text) == pre + NewSide(h.body) + post
      && forall k ::
           if |pre| <= k < |pre| + |NewSide(h.body)| && NewTags(h.body)[k - |pre|] == '+' then
             k in r.changes && r.changes[k] == Added
           else
             (k in r.changes <==> k in c) && (k in c ==> r.changes[k] == c[k])
  {
    var w0 := Work(Lines(text), c);
    BackwardsBodyMarks(h.body, pre, post, c, h.newStartLine - 1, 0);
    var r := WalkBody(Backwards, w0, h.newStartLine - 1, 0, h.body);
    assert WalkHunks(Backwards, w0, [h]) == WalkHunks(Backwards, r.work, []);
    var ls := pre + NewSide(h.body) + post;
    assert r.work.lines == ls;
    assert NoNewlines(ls) by {
      SidesHaveNoNewlines(h.body);
      assert NoNewlines(pre) && NoNewlines(post) by {
        assert forall i :: 0 <= i < |pre| ==> pre[i] == Lines(text)[i];
        assert forall i :: 0 <= i < |post| ==> post[i] == Lines(text)[|pre| + |OldSide(h.body)| + i];
      }
    }
    assert Finish(ls, [h]) == ls + [""];
    LinesOfJoin(ls + [""]);
    assert (ls + [""])[..|ls|] == ls;
  }
  // ---------------------------------------------------------------------
  // Which lines a walk marks
  // ---------------------------------------------------------------------

  /** The tags of the body lines the switch acts on (' ', '-' or '+'), in order. */
  function Tags(body: seq<string>): (tags: seq<char>)
    ensures |tags| <= |body|
    ensures forall p :: 0 <= p < |tags| ==> tags[p] in " -+"
  {
    if body == [] then []
    else (if body[0] != [] && body[0][0] in " -+" then [body[0][0]] else []) + Tags(body[1..])
  }

  /** The changes c once the tags are walked from line at: each tag puts its mark at the cursor, then moves it if it advances. */
  function MarksOf(mode: Mode, c: map<int, ChangeType>, at: int, tags: seq<char>): map<int, ChangeType>
    decreases |tags|
  {
    if tags == [] then c
    else MarksOf(mode, Record(c, at, Mark(mode, tags[0])), if Advances(mode, tags[0]) then at + 1 else at, tags[1..])
  }

  /** Every walk of a hunk body that finishes leaves exactly the marks its tags put, each at its cursor. */
  lemma {:induction false} WalkBodyMarks(mode: Mode, w: Work, anchor: int, pos: int, body: seq<string>)
    ensures var r := WalkBody(mode, w, anchor, pos, body);
      r.Continue? ==> r.work.changes == MarksOf(mode, w.changes, anchor + pos, Tags(body))
    decreases |body|
  {
    if body != [] && body[0] != [] {
      var rest, at := body[1..], anchor + pos;
      match Step(mode, w, at, body[0])
      case Stop(_, _) =>
      case Next(w', adv) =>
        WalkBodyMarks(mode, w', anchor, if adv then pos + 1 else pos, rest);
        MarksOfCons(mode, w.changes, at, body);
    }
  }

  /** Walking the tags of a body is walking its first line's tag, then the tags of the rest. */
  lemma MarksOfCons(mode: Mode, c: map<int, ChangeType>, at: int, body: seq<string>)
    requires body != [] && body[0] != []
    ensures var t := body[0][0];
      MarksOf(mode, c, at, Tags(body))
      == MarksOf(mode, Record(c, at, Mark(mode, t)), if Advances(mode, t) then at + 1 else at, Tags(body[1..]))
  {
    var tag, rest := body[0][0], body[1..];
    if tag in " -+" {
      assert Tags(body) == [tag] + Tags(rest);
      assert ([tag] + Tags(rest))[1..] == Tags(rest);
    } else {
      assert Tags(body) == Tags(rest);
      assert Mark(mode, tag) == None && !Advances(mode, tag);
    }
  }

  predicate AllAdvance(mode: Mode, tags: seq<char>) {
    forall p :: 0 <= p < |tags| ==> Advances(mode, tags[p])
  }

  /** The tags that move the cursor in this mode; the others neither move it nor mark a line. */
  function Active(mode: Mode, tags: seq<char>): (a: seq<char>)
    ensures AllAdvance(mode, a)
    ensures |a| <= |tags|
  {
    if tags == [] then []
    else (if Advances(mode, tags[0]) then [tags[0]] else []) + Active(mode, tags[1..])
  }

  /** Dropping the tags that do not move the cursor leaves the marks as they are. */
  lemma {:induction false} MarksOfActive(mode: Mode, c: map<int, ChangeType>, at: int, tags: seq<char>)
    ensures MarksOf(mode, c, at, tags) == MarksOf(mode, c, at, Active(mode, tags))
    decreases |tags|
  {
    if tags != [] {
      var t, rest := tags[0], tags[1..];
      MarksOfActive(mode, Record(c, at, Mark(mode, t)), if Advances(mode, t) then at + 1 else at, rest);
      if Advances(mode, t) {
        assert Active(mode, tags) == [t] + Active(mode, rest);
        assert ([t] + Active(mode, rest))[1..] == Active(mode, rest);
      } else {
        assert Active(mode, tags) == Active(mode, rest);
      }
    }
  }

  /**
   * Over tags that all move the cursor, line k carries the mark of the tag at
   * k - at when that tag has one, and keeps its previous entry otherwise.
   */
  lemma {:induction false} MarksOfAt(mode: Mode, c: map<int, ChangeType>, at: int, tags: seq<char>, k: int)
    requires AllAdvance(mode, tags)
    ensures var m := MarksOf(mode, c, at, tags);
      if at <= k < at + |tags| && Mark(mode, tags[k - at]).Some? then k in m && m[k] == Mark(mode, tags[k - at]).value
      else (k in m <==> k in c) && (k in c ==> m[k] == c[k])
    decreases |tags|
  {
    if tags != [] {
      var rest := tags[1..];
      assert Advances(mode, tags[0]);
      assert AllAdvance(mode, rest) by {
        forall p | 0 <= p < |rest| ensures Advances(mode, rest[p]) {
          assert rest[p] == tags[p + 1];
        }
      }
      MarksOfAt(mode, Record(c, at, Mark(mode, tags[0])), at + 1, rest, k);
      if at + 1 <= k < at + |tags| {
        assert tags[k - at] == rest[k - (at + 1)];
      }
    }
  }

  /**
   * An aligned walk that finishes marks the line of every '+' and '-' body line,
   * counted from the cursor, since every tagged line moves it: aligned forwards
   * marks '+' Added and '-' Deleted, aligned backwards marks '+' Deleted and '-'
   * Added. Every other line keeps its entry.
   */
  lemma AlignedBodyMarks(mode: Mode, w: Work, anchor: int, pos: int, body: seq<string>, k: int)
    requires mode == ForwardsAlign || mode == BackwardsAlign
    requires WalkBody(mode, w, anchor, pos, body).Continue?
    ensures var m, tags, at := WalkBody(mode, w, anchor, pos, body).work.changes, Tags(body), anchor + pos;
      if at <= k < at + |tags| && tags[k - at] in "+-" then
        k in m && m[k] == if (tags[k - at] == '+') == (mode == ForwardsAlign) then Added else Deleted
      else (k in m <==> k in w.changes) && (k in w.changes ==> m[k] == w.changes[k])
  {
    var tags, at := Tags(body), anchor + pos;
    WalkBodyMarks(mode, w, anchor, pos, body);
    assert AllAdvance(mode, tags) by {
      forall p | 0 <= p < |tags| ensures Advances(mode, tags[p]) {
        assert tags[p] in " -+";
      }
    }
    MarksOfAt(mode, w.changes, at, tags, k);
    if at <= k < at + |tags| {
      var t := tags[k - at];
      assert t in " -+";
      assert Mark(mode, t).Some? <==> t in "+-";
    }
  }

  /** The tags of the old side's lines, ' ' or '-', parallel to OldSide. */
  function OldTags(body: seq<string>): (tags: seq<char>)
    ensures |tags| == |OldSide(body)|
    ensures forall p :: 0 <= p < |tags| ==> tags[p] in " -"
  {
    SidesParallel(body);
    Active(Forwards, Tags(body))
  }

  /** The tags of the new side's lines, ' ' or '+', parallel to NewSide. */
  function NewTags(body: seq<string>): (tags: seq<char>)
    ensures |tags| == |NewSide(body)|
    ensures forall p :: 0 <= p < |tags| ==> tags[p] in " +"
  {
    SidesParallel(body);
    Active(Backwards, Tags(body))
  }

  lemma {:induction false} SidesParallel(body: seq<string>)
    ensures |Active(Forwards, Tags(body))| == |OldSide(body)|
    ensures |Active(Backwards, Tags(body))| == |NewSide(body)|
    decreases |body|
  {
    if body != [] {
      var rest := body[1..];
      SidesParallel(rest);
      if body[0] != [] && body[0][0] in " -+" {
        var t := body[0][0];
        assert Tags(body) == [t] + Tags(rest);
        assert ([t] + Tags(rest))[1..] == Tags(rest);
      } else {
        assert Tags(body) == Tags(rest);
      }
    }
  }

  /**
   * Over working lines that hold the hunk's old side at the cursor, the plain
   * backwards walk leaves the new side in its place and marks Added exactly
   * the lines of it that the hunk adds; every other line keeps its entry.
   */
  lemma BackwardsBodyMarks(body: seq<string>, pre: seq<string>, post: seq<string>,
                           c: map<int, ChangeType>, anchor: int, pos: int)
    requires forall j :: 0 <= j < |body| ==> body[j] != []
    requires anchor + pos == |pre|
    ensures var r := WalkBody(Backwards, Work(pre + OldSide(body) + post, c), anchor, pos, body);
      && r.Continue? && r.work.lines == pre + NewSide(body) + post
      && forall k ::
           if |pre| <= k < |pre| + |NewSide(body)| && NewTags(body)[k - |pre|] == '+' then
             k in r.work.changes && r.work.changes[k] == Added
           else
             (k in r.work.changes <==> k in c) && (k in c ==> r.work.changes[k] == c[k])
  {
    var w := Work(pre + OldSide(body) + post, c);
    BackwardsAppliesBody(body, pre, post, c, anchor, pos);
    var m := WalkBody(Backwards, w, anchor, pos, body).work.changes;
    var tags := NewTags(body);
    assert m == MarksOf(Backwards, c, |pre|, tags) by {
      WalkBodyMarks(Backwards, w, anchor, pos, body);
      MarksOfActive(Backwards, c, |pre|, Tags(body));
    }
    forall k ensures if |pre| <= k < |pre| + |NewSide(body)| && NewTags(body)[k - |pre|] == '+' then
        k in m && m[k] == Added
      else (k in m <==> k in c) && (k in c ==> m[k] == c[k])
    {
      MarksOfAt(Backwards, c, |pre|, tags, k);
    }
  }
}
