/**
 * The non-graphical computations of the main window: the span of one displayed
 * line, the table from line numbers to spans that is rebuilt whenever the
 * current revision's text is shown, the two lookups in that table, and the
 * keyboard stepping of the revision slider.
 */
module MyFrame {
  import opened Wrappers
  import GitHelper

  // ---------------------------------------------------------------------
  // Line spans
  // ---------------------------------------------------------------------

  /** The half-open character span [start, end) of one line of a text. */
  datatype LineOffsets = LineOffsets(lineNumber: int, start: int, end: int)
  {
    /** Whether the span holds the offset; only a non-empty span holds any. */
    predicate ContainsOffset(offset: int)
      ensures ContainsOffset(offset) ==> start < end
    {
      start <= offset < end
    }
  }

  datatype LineOffsetsError = InvalidLineNumber | InvalidOffset

  /** What the constructor accepts: a non-negative line number and offsets 0 <= start <= end. */
  predicate Accepted(l: LineOffsets) {
    l.lineNumber >= 0 && l.start >= 0 && l.end >= 0 && l.start <= l.end
  }

  /** The checked constructor: rejects a negative line number first, then negative or reversed offsets. */
  function NewLineOffsets(lineNumber: int, start: int, end: int): (r: Result<LineOffsets, LineOffsetsError>)
    ensures r.Success? <==> lineNumber >= 0 && start >= 0 && end >= 0 && start <= end
    ensures r.Success? ==> r.value == LineOffsets(lineNumber, start, end) && Accepted(r.value)
    ensures r.Failure? ==> (r.error == InvalidLineNumber <==> lineNumber < 0)
  {
    if lineNumber < 0 then Failure(InvalidLineNumber)
    else if start < 0 || end < 0 then Failure(InvalidOffset)
    else if end < start then Failure(InvalidOffset)
    else Success(LineOffsets(lineNumber, start, end))
  }

  // ---------------------------------------------------------------------
  // The span table of a text
  // ---------------------------------------------------------------------

  /** Strictly increasing, non-negative positions. */
  predicate Ascending(ps: seq<int>) {
    (forall k :: 0 <= k < |ps| ==> 0 <= ps[k]) && (forall j, k :: 0 <= j < k < |ps| ==> ps[j] < ps[k])
  }

  /** The positions of the '\n' characters of s, in increasing order. */
  function NewlinePositions(s: string): (ps: seq<int>)
    ensures forall k :: 0 <= k < |ps| ==> 0 <= ps[k] < |s|
  {
    if s == [] then []
    else NewlinePositions(s[..|s| - 1]) + (if s[|s| - 1] == '\n' then [|s| - 1] else [])
  }

  /** The positions come in increasing order. */
  lemma {:induction false} NewlinePositionsAscending(s: string)
    ensures Ascending(NewlinePositions(s))
    decreases |s|
  {
    if s != [] {
      NewlinePositionsAscending(s[..|s| - 1]);
    }
  }

  /** One more character adds its position when it is a '\n'. */
  lemma NewlinePositionsSnoc(s: string, i: int)
    requires 0 <= i < |s|
    ensures NewlinePositions(s[..i + 1]) == NewlinePositions(s[..i]) + (if s[i] == '\n' then [i] else [])
  {
    assert s[..i + 1][..i] == s[..i];
  }

  /** The positions found are exactly the '\n's of s, one per '\n'. */
  lemma {:induction false} NewlinePositionsExact(s: string)
    ensures var ps := NewlinePositions(s);
      && (forall k :: 0 <= k < |ps| ==> s[ps[k]] == '\n')
      && (forall i :: 0 <= i < |s| && s[i] == '\n' ==> i in ps)
      && |ps| == multiset(s)['\n']
    decreases |s|
  {
    if s != [] {
      var init := s[..|s| - 1];
      NewlinePositionsExact(init);
      assert s == init + [s[|s| - 1]];
      assert forall i :: 0 <= i < |init| ==> s[i] == init[i];
    }
  }

  /** Where line k starts: at offset 0 for the first line, else at the previous line's '\n'. */
  function SpanStart(ps: seq<int>, k: int): int
    requires 0 <= k < |ps|
  {
    if k == 0 then 0 else ps[k - 1]
  }

  /** One entry per '\n': line k spans from its start to the k-th '\n'. */
  function SpanTable(ps: seq<int>): map<int, LineOffsets> {
    map k | 0 <= k < |ps| :: LineOffsets(k, SpanStart(ps, k), ps[k])
  }

  /** A new last position adds one entry, from the previous last position to the new one. */
  lemma SpanTableSnoc(ps: seq<int>, p: int)
    ensures SpanTable(ps + [p]) == SpanTable(ps)[|ps| := LineOffsets(|ps|, if ps == [] then 0 else ps[|ps| - 1], p)]
  {
    var ps' := ps + [p];
    assert forall k :: 0 <= k < |ps| ==> SpanStart(ps', k) == SpanStart(ps, k) && ps'[k] == ps[k];
  }

  /** Every entry of the table is keyed by its own line number and passes the constructor's checks. */
  lemma SpanTableAccepted(ps: seq<int>)
    requires Ascending(ps)
    ensures forall k :: k in SpanTable(ps) <==> 0 <= k < |ps|
    ensures forall k :: k in SpanTable(ps) ==> SpanTable(ps)[k].lineNumber == k && Accepted(SpanTable(ps)[k])
  {
  }

  /** Consecutive entries meet: each line ends where the next one starts. */
  lemma SpanTableContiguous(ps: seq<int>)
    ensures forall k :: 0 <= k && k + 1 < |ps| ==> SpanTable(ps)[k].end == SpanTable(ps)[k + 1].start
  {
  }

  /** No offset lies in two different entries. */
  lemma SpanTableDisjoint(ps: seq<int>, j: int, k: int, offset: int)
    requires Ascending(ps)
    requires j in SpanTable(ps) && k in SpanTable(ps) && j != k
    ensures !(SpanTable(ps)[j].ContainsOffset(offset) && SpanTable(ps)[k].ContainsOffset(offset))
  {
    if j < k {
      assert ps[j] <= SpanStart(ps, k);
    } else {
      assert ps[k] <= SpanStart(ps, j);
    }
  }

  /** Whether offset lies in line k's span. */
  predicate InSpan(ps: seq<int>, k: int, offset: int)
    requires 0 <= k < |ps|
  {
    SpanStart(ps, k) <= offset < ps[k]
  }

  lemma {:induction false} SpansCover(ps: seq<int>, offset: int)
    requires Ascending(ps)
    ensures (exists k :: 0 <= k < |ps| && InSpan(ps, k, offset)) <==> ps != [] && 0 <= offset < ps[|ps| - 1]
    decreases |ps|
  {
    if ps != [] {
      var n := |ps| - 1;
      var init := ps[..n];
      assert forall k :: 0 <= k < n ==> InSpan(init, k, offset) == InSpan(ps, k, offset);
      SpansCover(init, offset);
      if 0 <= offset < ps[n] {
        if n > 0 && offset < ps[n - 1] {
          var k :| 0 <= k < n && InSpan(init, k, offset);
          assert InSpan(ps, k, offset);
        } else {
          assert InSpan(ps, n, offset);
        }
      }
      if exists k :: 0 <= k < |ps| && InSpan(ps, k, offset) {
        var k :| 0 <= k < |ps| && InSpan(ps, k, offset);
        assert ps[k] <= ps[n];
      }
    }
  }

  /**
   * The entries cover the offsets before the last '\n' and nothing else: text
   * after the last '\n' (and any text without one) has no line in the table.
   */
  lemma SpanTableCovers(ps: seq<int>, offset: int)
    requires Ascending(ps)
    ensures (exists k :: k in SpanTable(ps) && SpanTable(ps)[k].ContainsOffset(offset))
        <==> ps != [] && 0 <= offset < ps[|ps| - 1]
  {
    SpansCover(ps, offset);
    var t := SpanTable(ps);
    assert forall k :: k in t ==> (t[k].ContainsOffset(offset) <==> InSpan(ps, k, offset));
  }

  /** Looking up the start of a line that has characters finds that line again, and no other. */
  lemma StartFindsLine(ps: seq<int>, k: int)
    requires Ascending(ps) && 0 <= k < |ps|
    requires SpanStart(ps, k) < ps[k]
    ensures SpanTable(ps)[k].ContainsOffset(SpanTable(ps)[k].start)
    ensures forall j :: j in SpanTable(ps) && SpanTable(ps)[j].ContainsOffset(SpanTable(ps)[k].start) ==> j == k
  {
    forall j | j in SpanTable(ps) && SpanTable(ps)[j].ContainsOffset(SpanTable(ps)[k].start)
      ensures j == k
    {
      if j != k {
        SpanTableDisjoint(ps, j, k, SpanTable(ps)[k].start);
      }
    }
  }

  /**
   * The table of a text has one entry per '\n', numbered from 0; each entry
   * ends at its '\n' and passes the constructor's checks.
   */
  lemma TextTable(t: string)
    ensures var tab := SpanTable(NewlinePositions(t));
      && (forall k :: k in tab <==> 0 <= k < multiset(t)['\n'])
      && (forall k :: k in tab ==> t[tab[k].end] == '\n' && tab[k].lineNumber == k && Accepted(tab[k]))
  {
    NewlinePositionsExact(t);
    NewlinePositionsAscending(t);
    SpanTableAccepted(NewlinePositions(t));
  }

  // ---------------------------------------------------------------------
  // The diff panel
  // ---------------------------------------------------------------------

  /** The right-hand text of the diff panel together with its line span table. */
  class DiffPanel {
    var currentText: string
    var lineNumberToOffsets: map<int, LineOffsets>

    /** The table always describes the text on display. */
    ghost predicate Valid()
      reads this
    {
      lineNumberToOffsets == SpanTable(NewlinePositions(currentText))
    }

    constructor()
      ensures Valid() && currentText == [] && lineNumberToOffsets == map[]
    {
      currentText := [];
      lineNumberToOffsets := map[];
    }

    /** Shows a new text and rebuilds the table with one entry per '\n' of it. */
    method SetCurrentText(newText: string)
      modifies this
      ensures Valid() && currentText == newText
      ensures lineNumberToOffsets == SpanTable(NewlinePositions(newText))
    {
      lineNumberToOffsets := map[];
      var table := map[];
      var offset1, offset2, currentLine := 0, 0, 0;
      ghost var ps: seq<int> := [];
      for i := 0 to |newText|
        invariant ps == NewlinePositions(newText[..i])
        invariant currentLine == |ps| && offset2 == (if ps == [] then 0 else ps[|ps| - 1])
        invariant table == SpanTable(ps)
      {
        NewlinePositionsSnoc(newText, i);
        if newText[i] == '\n' {
          offset1 := offset2;
          offset2 := i;
          var entry := NewLineOffsets(currentLine, offset1, offset2);
          table := table[currentLine := entry.value];
          currentLine := currentLine + 1;
          SpanTableSnoc(ps, i);
          ps := ps + [i];
        }
      }
      assert newText[..|newText|] == newText;
      lineNumberToOffsets := table;
      currentText := newText;
    }

    /** The start offset of the entry for lineNumber, or -1 when the table has none. */
    method LineNumberToOffset(lineNumber: int) returns (offset: int)
      requires Valid()
      ensures lineNumber in lineNumberToOffsets ==> offset == lineNumberToOffsets[lineNumber].start
      ensures lineNumber !in lineNumberToOffsets ==> offset == -1
    {
      var n := |NewlinePositions(currentText)|;
      for k := 0 to n
        invariant forall j :: 0 <= j < k ==> lineNumberToOffsets[j].lineNumber != lineNumber
      {
        if lineNumberToOffsets[k].lineNumber == lineNumber {
          return lineNumberToOffsets[k].start;
        }
      }
      return -1;
    }

    /** The number of the entry whose span holds offset, or -1 when no span does. */
    method OffsetToLineNumber(offset: int) returns (line: int)
      requires Valid()
      ensures line >= 0 ==> line in lineNumberToOffsets && lineNumberToOffsets[line].ContainsOffset(offset)
      ensures line < 0 ==> line == -1 && forall k :: k in lineNumberToOffsets ==> !lineNumberToOffsets[k].ContainsOffset(offset)
    {
      var n := |NewlinePositions(currentText)|;
      for k := 0 to n
        invariant forall j :: 0 <= j < k ==> !lineNumberToOffsets[j].ContainsOffset(offset)
      {
        if lineNumberToOffsets[k].ContainsOffset(offset) {
          return lineNumberToOffsets[k].lineNumber;
        }
      }
      return -1;
    }
  }

  // ---------------------------------------------------------------------
  // The revision slider
  // ---------------------------------------------------------------------

  datatype Key = Left | Right | OtherKey

  /** The slider value after a key is released: one step left or right while that stays inside 1 .. size. */
  function StepRevision(key: Key, current: int, size: int): (next: int)
    ensures key == Left && current > 1 ==> next == current - 1
    ensures key == Right && current < size ==> next == current + 1
    ensures next != current ==> (key == Left && current > 1) || (key == Right && current < size)
  {
    if key == Left && current > 1 then current - 1
    else if key == Right && current < size then current + 1
    else current
  }

  /** The slider value after a series of key releases. */
  function StepAll(keys: seq<Key>, current: int, size: int): int
    decreases |keys|
  {
    if keys == [] then current else StepAll(keys[1..], StepRevision(keys[0], current, size), size)
  }

  /**
   * Starting inside 1 .. size, any series of key releases keeps the slider
   * there, so the commit it selects (position value - 1) always exists.
   */
  lemma {:induction false} StepsStayInRange(keys: seq<Key>, current: int, size: int)
    requires 1 <= current <= size
    ensures 1 <= StepAll(keys, current, size) <= size
    decreases |keys|
  {
    if keys != [] {
      StepsStayInRange(keys[1..], StepRevision(keys[0], current, size), size);
    }
  }

  /** The slider, kept inside 1 .. Size(), always selects a commit of the list. */
  lemma SteppedRevisionIsACommit(list: GitHelper.CommitList, keys: seq<Key>, current: int)
    requires 1 <= current <= list.Size()
    ensures list.GetCommit(StepAll(keys, current, list.Size()) - 1).Success?
  {
    StepsStayInRange(keys, current, list.Size());
  }
}
