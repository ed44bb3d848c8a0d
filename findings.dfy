/**
 * Where plain forwards patching puts its Deleted marks. The transform leaves the
 * previous revision's lines in place, so a removed line stands at its position in
 * the OLD file; the walk nevertheless anchors every hunk at its new-side start.
 */
module ForwardsMarks {
  import opened Wrappers
  import opened TextFile
  import opened TextFileProperties

  /** Whether line k is a removed old-side line, the first old-side line being line at. */
  predicate RemovedAt(at: int, tags: seq<char>, k: int) {
    at <= k < at + |tags| && tags[k - at] == '-'
  }

  /**
   * The plain forwards walk of one hunk keeps the lines and marks Deleted exactly
   * the positions of the removed old-side lines, counted from the cursor.
   */
  lemma ForwardsBodyMarks(w: Work, anchor: int, pos: int, body: seq<string>)
    requires forall j :: 0 <= j < |body| ==> body[j] != []
    ensures WalkBody(Forwards, w, anchor, pos, body)
      == Continue(Work(w.lines, MarksOf(Forwards, w.changes, anchor + pos, OldTags(body))))
  {
    ForwardsBodyKeepsLines(w, anchor, pos, body);
    WalkBodyMarks(Forwards, w, anchor, pos, body);
    MarksOfActive(Forwards, w.changes, anchor + pos, Tags(body));
  }

  // ---------------------------------------------------------------------
  // As written: the new-side anchor on the unchanged old text
  // ---------------------------------------------------------------------

  /** One hunk walked on: when its body continues, the remaining hunks start from there. */
  lemma WalkHunksStep(mode: Mode, w: Work, hunks: seq<Hunk>, w': Work)
    requires hunks != [] && WalkBody(mode, w, hunks[0].newStartLine - 1, 0, hunks[0].body) == Continue(w')
    ensures WalkHunks(mode, w, hunks) == WalkHunks(mode, w', hunks[1..])
  {
  }

  /** The four-line text used below splits into its four lines. */
  lemma FourLines()
    ensures Lines("a\nb\nc\nd\n") == ["a", "b", "c", "d"]
  {
    var ls := ["a", "b", "c", "d"];
    assert Flatten(ls[..1]) == "a\n" by {
      assert ls[..1][..0] == [];
    }
    assert Flatten(ls[..2]) == "a\nb\n" by {
      assert ls[..2][..1] == ls[..1];
    }
    assert Flatten(ls[..3]) == "a\nb\nc\n" by {
      assert ls[..3][..2] == ls[..2];
    }
    assert Flatten(ls) == "a\nb\nc\nd\n" by {
      assert ls[..3] == ls[..|ls| - 1];
    }
    LinesOfFlatten(ls);
  }

  /**
   * Two hunks over the lines a, b, c, d: the first removes a, the second removes
   * d. The second hunk starts at old line 3 but new line 2, so plain forwards
   * patching marks line 2 (c, which the patch keeps) and leaves line 3 (d, which
   * the patch removes) unmarked. FourLines shows such a text exists.
   */
  lemma ForwardsPatchMarksKeptLine(text: string)
    requires Lines(text) == ["a", "b", "c", "d"]
    ensures var p := Patch([[Hunk(1, 1, "@@ -1,2 +1,1 @@", ["-a", " b"]), Hunk(3, 2, "@@ -3,2 +2,1 @@", [" c", "-d"])]]);
      var r := Apply(Forwards, text, map[], p);
      && r.Done? && r.changes == map[0 := Deleted, 2 := Deleted]
      && 3 !in r.changes
  {
    var h1 := Hunk(1, 1, "@@ -1,2 +1,1 @@", ["-a", " b"]);
    var h2 := Hunk(3, 2, "@@ -3,2 +2,1 @@", [" c", "-d"]);
    var ls := ["a", "b", "c", "d"];
    var w0 := Work(ls, map[]);
    var m1 := map[0 := Deleted];
    var m2 := map[0 := Deleted, 2 := Deleted];
    KeptLineFirstHunk(ls);
    KeptLineSecondHunk(ls);
    WalkHunksStep(Forwards, w0, [h1, h2], Work(ls, m1));
    assert [h1, h2][1..] == [h2];
    WalkHunksStep(Forwards, Work(ls, m1), [h2], Work(ls, m2));
    assert [h2][1..] == [];
    assert Finish(ls, [h1, h2]) != [];
  }

  /** The first hunk of ForwardsPatchMarksKeptLine marks line 0 only. */
  lemma KeptLineFirstHunk(ls: seq<string>)
    ensures WalkBody(Forwards, Work(ls, map[]), 0, 0, ["-a", " b"]) == Continue(Work(ls, map[0 := Deleted]))
  {
    var m1 := map[0 := Deleted];
    ForwardsBodyMarks(Work(ls, map[]), 0, 0, ["-a", " b"]);
    assert OldTags(["-a", " b"]) == ['-', ' '];
    assert MarksOf(Forwards, map[], 0, ['-', ' ']) == MarksOf(Forwards, m1, 1, [' ']) == MarksOf(Forwards, m1, 2, []);
  }

  /** The second hunk, anchored at line 1 where the walk puts it, marks line 2 and not line 3. */
  lemma KeptLineSecondHunk(ls: seq<string>)
    ensures WalkBody(Forwards, Work(ls, map[0 := Deleted]), 1, 0, [" c", "-d"])
         == Continue(Work(ls, map[0 := Deleted, 2 := Deleted]))
  {
    var m1, m2 := map[0 := Deleted], map[0 := Deleted, 2 := Deleted];
    ForwardsBodyMarks(Work(ls, m1), 1, 0, [" c", "-d"]);
    assert OldTags([" c", "-d"]) == [' ', '-'];
    assert MarksOf(Forwards, m1, 1, [' ', '-']) == MarksOf(Forwards, m1, 2, ['-']) == MarksOf(Forwards, m2, 3, []);
  }

  /**
   * A hunk that removes the whole four-line file a, b, c, d has new-side start
   * line 0, so plain forwards patching marks lines -1 to 2 Deleted: a line
   * before the first, and never line 3 (d), which the patch removes.
   */
  lemma ForwardsPatchMarksBeforeFirstLine(text: string)
    requires Lines(text) == ["a", "b", "c", "d"]
    ensures var p := Patch([[Hunk(1, 0, "@@ -1,4 +0,0 @@", ["-a", "-b", "-c", "-d"])]]);
      var r := Apply(Forwards, text, map[], p);
      && r.Done? && r.changes == map[-1 := Deleted, 0 := Deleted, 1 := Deleted, 2 := Deleted]
      && 3 !in r.changes
  {
    var h := Hunk(1, 0, "@@ -1,4 +0,0 @@", ["-a", "-b", "-c", "-d"]);
    var ls := ["a", "b", "c", "d"];
    var m := map[-1 := Deleted, 0 := Deleted, 1 := Deleted, 2 := Deleted];
    DeleteAllMarks(ls);
    WalkHunksStep(Forwards, Work(ls, map[]), [h], Work(ls, m));
    assert [h][1..] == [];
    assert Finish(ls, [h]) != [];
  }

  /** Walking four removed lines from line -1 marks lines -1 to 2. */
  lemma DeleteAllMarks(ls: seq<string>)
    ensures WalkBody(Forwards, Work(ls, map[]), -1, 0, ["-a", "-b", "-c", "-d"])
      == Continue(Work(ls, map[-1 := Deleted, 0 := Deleted, 1 := Deleted, 2 := Deleted]))
  {
    ForwardsBodyMarks(Work(ls, map[]), -1, 0, ["-a", "-b", "-c", "-d"]);
    assert OldTags(["-a", "-b", "-c", "-d"]) == ['-', '-', '-', '-'] by {
      assert Tags(["-a", "-b", "-c", "-d"]) == ['-', '-', '-', '-'];
      assert Active(Forwards, ['-', '-', '-', '-']) == ['-', '-', '-', '-'];
    }
    assert MarksOf(Forwards, map[], -1, ['-', '-', '-', '-'])
        == MarksOf(Forwards, map[-1 := Deleted], 0, ['-', '-', '-'])
        == MarksOf(Forwards, map[-1 := Deleted, 0 := Deleted], 1, ['-', '-'])
        == MarksOf(Forwards, map[-1 := Deleted, 0 := Deleted, 1 := Deleted], 2, ['-'])
        == MarksOf(Forwards, map[-1 := Deleted, 0 := Deleted, 1 := Deleted, 2 := Deleted], 3, []);
  }

  // ---------------------------------------------------------------------
  // Corrected: each hunk anchored at its old-side start
  // ---------------------------------------------------------------------

  /** Plain forwards marking with every hunk anchored at its old-side start line. */
  function CorrectedForwardsWalk(w: Work, hunks: seq<Hunk>): Walked
    decreases |hunks|
  {
    if hunks == [] then Continue(w)
    else
      match WalkBody(Forwards, w, hunks[0].oldStartLine - 1, 0, hunks[0].body)
      case Abort(c, e) => Abort(c, e)
      case Continue(w') => CorrectedForwardsWalk(w', hunks[1..])
  }

  /** Whether one of the hunks removes line k, each anchored at its old-side start. */
  predicate RemovedByAny(hunks: seq<Hunk>, k: int)
    decreases |hunks|
  {
    hunks != [] && (RemovedAt(hunks[0].oldStartLine - 1, OldTags(hunks[0].body), k) || RemovedByAny(hunks[1..], k))
  }

  /** The hunk's old side stands in the lines from the line its old-side start names. */
  predicate OldSideAt(ls: seq<string>, h: Hunk) {
    var at, side := h.oldStartLine - 1, OldSide(h.body);
    0 <= at && at + |side| <= |ls| && ls[at..at + |side|] == side
  }

  /**
   * When every hunk's old side stands in the text at the line its old-side
   * start names, the corrected walk keeps the text and marks Deleted exactly
   * the text lines some hunk removes, each holding the removed content; every
   * other line keeps its previous entry. Earlier hunks that change the line
   * count do not move the marks of later ones.
   */
  lemma {:induction false} CorrectedForwardsMarksRemovedLines(ls: seq<string>, c: map<int, ChangeType>, hunks: seq<Hunk>)
    requires CleanHunks(hunks)
    requires forall i :: 0 <= i < |hunks| ==> OldSideAt(ls, hunks[i])
    ensures var r := CorrectedForwardsWalk(Work(ls, c), hunks);
      && r.Continue? && r.work.lines == ls
      && (forall k :: RemovedByAny(hunks, k) ==> k in r.work.changes && r.work.changes[k] == Deleted)
      && (forall k :: !RemovedByAny(hunks, k) ==>
            (k in r.work.changes <==> k in c) && (k in c ==> r.work.changes[k] == c[k]))
    ensures forall i | 0 <= i < |hunks| :: RemovedLinesHold(ls, hunks[i])
    decreases |hunks|
  {
    if hunks != [] {
      var h, rest := hunks[0], hunks[1..];
      var at, tags := h.oldStartLine - 1, OldTags(h.body);
      assert CleanLines(h.body);
      ForwardsBodyMarks(Work(ls, c), at, 0, h.body);
      var m1 := MarksOf(Forwards, c, at, tags);
      assert CorrectedForwardsWalk(Work(ls, c), hunks) == CorrectedForwardsWalk(Work(ls, m1), rest);
      assert CleanHunks(rest) by {
        forall i | 0 <= i < |rest| ensures CleanLines(rest[i].body) {
          assert rest[i] == hunks[i + 1];
        }
      }
      assert forall i :: 0 <= i < |rest| ==> OldSideAt(ls, rest[i]) by {
        forall i | 0 <= i < |rest| ensures OldSideAt(ls, rest[i]) {
          assert rest[i] == hunks[i + 1];
        }
      }
      CorrectedForwardsMarksRemovedLines(ls, m1, rest);
      var m := CorrectedForwardsWalk(Work(ls, m1), rest).work.changes;
      forall k
        ensures RemovedByAny(hunks, k) ==> k in m && m[k] == Deleted
        ensures !RemovedByAny(hunks, k) ==> (k in m <==> k in c) && (k in c ==> m[k] == c[k])
      {
        MarksOfAt(Forwards, c, at, tags, k);
      }
    }
    forall i | 0 <= i < |hunks| ensures RemovedLinesHold(ls, hunks[i]) {
      OldSideHoldsRemovedLines(ls, hunks[i]);
    }
  }

  lemma OldSideHoldsRemovedLines(ls: seq<string>, h: Hunk)
    requires OldSideAt(ls, h)
    ensures RemovedLinesHold(ls, h)
  {
    var a, side := h.oldStartLine - 1, OldSide(h.body);
    forall k | RemovedAt(a, OldTags(h.body), k) ensures 0 <= k < |ls| && ls[k] == side[k - a] {
      assert ls[k] == ls[a..a + |side|][k - a];
    }
  }

  /** Every line the hunk removes holds the removed content. */
  ghost predicate RemovedLinesHold(ls: seq<string>, h: Hunk) {
    var a, side := h.oldStartLine - 1, OldSide(h.body);
    forall k :: RemovedAt(a, OldTags(h.body), k) ==> 0 <= k < |ls| && ls[k] == side[k - a]
  }

  /**
   * On the four-line example above, the corrected walk marks exactly the two
   * lines the patch removes: 0 (a) and 3 (d).
   */
  lemma CorrectedWalkMarksRemovedLines(text: string)
    requires Lines(text) == ["a", "b", "c", "d"]
    ensures var hunks := [Hunk(1, 1, "@@ -1,2 +1,1 @@", ["-a", " b"]), Hunk(3, 2, "@@ -3,2 +2,1 @@", [" c", "-d"])];
      CorrectedForwardsWalk(Work(Lines(text), map[]), hunks) == Continue(Work(Lines(text), map[0 := Deleted, 3 := Deleted]))
  {
    var h1 := Hunk(1, 1, "@@ -1,2 +1,1 @@", ["-a", " b"]);
    var h2 := Hunk(3, 2, "@@ -3,2 +2,1 @@", [" c", "-d"]);
    var ls := ["a", "b", "c", "d"];
    var m1 := map[0 := Deleted];
    var m2 := map[0 := Deleted, 3 := Deleted];
    assert WalkBody(Forwards, Work(ls, map[]), 0, 0, h1.body) == Continue(Work(ls, m1)) by {
      ForwardsBodyMarks(Work(ls, map[]), 0, 0, h1.body);
      assert OldTags(h1.body) == ['-', ' '];
      assert MarksOf(Forwards, map[], 0, ['-', ' ']) == MarksOf(Forwards, m1, 1, [' ']) == MarksOf(Forwards, m1, 2, []);
    }
    assert WalkBody(Forwards, Work(ls, m1), 2, 0, h2.body) == Continue(Work(ls, m2)) by {
      ForwardsBodyMarks(Work(ls, m1), 2, 0, h2.body);
      assert OldTags(h2.body) == [' ', '-'];
      assert MarksOf(Forwards, m1, 2, [' ', '-']) == MarksOf(Forwards, m1, 3, ['-']) == MarksOf(Forwards, m2, 4, []);
    }
    assert [h1, h2][1..] == [h2];
    assert [h2][1..] == [];
  }
}
