# git-timelapse core in Dafny

git-timelapse shows how one file changed across the commits of a Git
repository. A slider selects a revision. Two panes show the previous and the
current text, with removed and added lines highlighted. This project models
the sequential logic under that window, without the Swing and JGit layers:

- `textfile.dfy`, modules `TextFile` and `TextFileProperties`. The text buffer
  (`TextFile.java`) holds its text, a line-start offset table and a per-line
  change map. Its four transforms walk the hunks of a parsed unified diff over
  a working copy of the lines. They insert, remove or verify lines at
  `newStartLine - 1 + pos` and record `Added`/`Deleted` per line. Finally they
  append a trailing empty line unless the no-newline marker ends the patch, and
  join the lines with `'\n'`.
  - The class `TextFile.TextFile` carries the source's mutable state.
  - Each transform is one method, proved against the spec function
    `TextFile.Apply`. That function is built from `Step` (the switch on a hunk
    line's tag), `WalkBody` (one hunk) and `WalkHunks` (all hunks).
  - Java exceptions become `PatchError` values. Changes recorded before an
    exception stay in the map, as they do in the source.
- `findings.dfy`, module `ForwardsMarks`: where plain forwards patching puts
  its `Deleted` marks, and a corrected walk (see Findings).
- `githelper.dfy`, module `GitHelper` (`GitHelper.java`):
  - the `CommitList` class;
  - stripping the repository base directory from a path;
  - the directory depth of a path;
  - the early-exit commit visitor;
  - `findCommits` as filter-then-reverse over a commit walk and a
    "commit changes the file" test, both given as inputs.
- `myframe.dfy`, module `MyFrame` (`MyFrame.java`):
  - the `LineOffsets` span;
  - the diff panel's line-number-to-span table, rebuilt by `setCurrentText`;
  - its two lookups;
  - keyboard stepping of the revision slider.
- `wrappers.dfy`: `Option` and `Result`, standing for `null` returns and thrown
  exceptions.

`TextFile.java` never clears `changesByLine`. Each transform only adds
entries, and entries put before a failure stay. The ensures clauses of
`TextFile.WalkBody`, `TextFile.WalkHunks` and `TextFile.Apply` state this.

## Model

| member | source | states |
|---|---|---|
| TextFile.TextFile.constructor | src/main/java/de/codesourcery/gittimelapse/TextFile.java:55-59 | The new buffer holds the given text and an offset table for that text, and its change map is empty. |
| TextFile.TextFile.SetText | src/main/java/de/codesourcery/gittimelapse/TextFile.java:70-74 | Replaces the text and rebuilds the offset table for it. The change map is left as it was. |
| TextFile.TextFile.UpdateLineStartOffsets | src/main/java/de/codesourcery/gittimelapse/TextFile.java:76-86 | The loop leaves an entry for every line `i`: the summed lengths of lines `0..i-1`, each plus one for its `'\n'`. Line 0 starts at 0. |
| TextFile.StartOffsetTable | src/main/java/de/codesourcery/gittimelapse/TextFile.java:76-86 | The offset table has a key exactly for each line index `0 <= i < line count`. |
| TextFile.StartOffsetLocatesLine | src/main/java/de/codesourcery/gittimelapse/TextFile.java:76-86 | The characters of the text from line `i`'s start offset, for the length of line `i`, are line `i`. The offsets really point at the lines. |
| TextFile.TextFile.GetLineCount | src/main/java/de/codesourcery/gittimelapse/TextFile.java:88-90 | The line count is 0 exactly for the empty text. For a valid buffer, the offset table has a key exactly for each line below it. |
| TextFile.TextFile.GetChangedLines | src/main/java/de/codesourcery/gittimelapse/TextFile.java:92-94 | The recorded change map. For each existing line it agrees with `GetChangeType`: its entry, or `NoChange` when it has none. |
| TextFile.TextFile.GetChangeType | src/main/java/de/codesourcery/gittimelapse/TextFile.java:96-102 | Fails exactly for `line < 0` or `line >= line count`. Otherwise gives the recorded change, or `NoChange` for a line with no entry. |
| TextFile.TextFile.GetLineStartOffset | src/main/java/de/codesourcery/gittimelapse/TextFile.java:104-110 | Fails exactly outside `0 <= line < line count`. Otherwise gives the length of the text before the line, which is 0 for line 0. |
| TextFile.TextFile.GetLineEndOffset | src/main/java/de/codesourcery/gittimelapse/TextFile.java:112-114 | Fails exactly where the start lookup fails. Otherwise gives start + line length + 1, which equals the start of the next line when there is one. |
| TextFile.Step | src/main/java/de/codesourcery/gittimelapse/TextFile.java:294-320 | One hunk line in each mode, by the four switches. On success, the mark at index `k` is the mode's mark for the tag: forwards puts `Deleted` for `'-'`; aligned forwards puts `Added` for `'+'` and `Deleted` for `'-'`; aligned backwards puts `Deleted` for `'+'` and `Added` for `'-'`; plain backwards puts `Added` for `'+'`. No other entry changes. The cursor moves as the tag says. An aligned mode that fails on insertion has already put its mark; plain backwards fails with the map unchanged. A tag other than `' '`, `'-'` or `'+'` changes nothing. The line count moves by the mode's growth. The aligned and forwards modes touch lines only by inserting the 15-blank placeholder. Plain backwards accepts a context or removed line only if it equals the working line at `k`. Plain forwards never fails. |
| TextFile.WalkBody | src/main/java/de/codesourcery/gittimelapse/TextFile.java:146-165 | The walk over one hunk's lines, with the cursor anchored at `newStartLine - 1`. Whether it finishes or aborts, every entry of the change map it started with is still there. |
| TextFile.WalkHunks | src/main/java/de/codesourcery/gittimelapse/TextFile.java:130-166 | The walk over all hunks in order, stopping at the first failure. Whether it finishes or aborts, no entry of the change map it started with is dropped. |
| TextFile.NoNewlineAtEndOfFile | src/main/java/de/codesourcery/gittimelapse/TextFile.java:186-191 | Whether the last line of the last hunk is the `\ No newline at end of file` marker. |
| TextFile.Apply | src/main/java/de/codesourcery/gittimelapse/TextFile.java:343-402 | One transform of a text and change map by a patch. A patch without exactly one file is rejected with the map unchanged. A success needs a non-empty hunk list. Whatever the outcome, no entry of the old change map is dropped. |
| TextFile.TextFile.ApplyHunkLine | src/main/java/de/codesourcery/gittimelapse/TextFile.java:294-320 | The per-mode switch updates the working lines, the cursor step and the change map exactly as `Step` says. It fails with the same error and the same partial changes. |
| TextFile.TextFile.ApplyHunk | src/main/java/de/codesourcery/gittimelapse/TextFile.java:146-165 | The inner loop over hunk lines `1..n` has the cursor anchored at `newStartLine - 1`. Its final lines and changes, or its error and partial changes, are those of `WalkBody`. An empty hunk line fails, as `charAt(0)` does. |
| TextFile.TextFile.ApplyHunks | src/main/java/de/codesourcery/gittimelapse/TextFile.java:130-166 | Walks the hunks in order. The result is that of `WalkHunks`, stopping at the first failing hunk. |
| TextFile.TextFile.ApplyPatch | src/main/java/de/codesourcery/gittimelapse/TextFile.java:343-402 | The shared skeleton of the four transforms: the file-count check, the walk, the trailing empty line unless the marker ends the patch, then the join. Its effect on text and changes is `Apply` of the old state. A failure keeps the old text and the offset table stays valid. |
| TextFile.TextFile.ForwardsPatch | src/main/java/de/codesourcery/gittimelapse/TextFile.java:343-402 | The buffer's new text, changes and error are those `Apply(Forwards, …)` gives for the old text and changes. |
| TextFile.TextFile.ForwardsPatchAndAlign | src/main/java/de/codesourcery/gittimelapse/TextFile.java:117-183 | The buffer's new state is `Apply(ForwardsAlign, …)` of the old state. Its marks are those `TextFileProperties.AlignedBodyMarks` states per hunk: `'+'` lines `Added`, `'-'` lines `Deleted`. |
| TextFile.TextFile.BackwardsPatch | src/main/java/de/codesourcery/gittimelapse/TextFile.java:269-340 | The buffer's new state is `Apply(Backwards, …)` of the old state. `TextFileProperties.BackwardsPatchAppliesHunk` states its lines and `Added` marks for a hunk that matches. |
| TextFile.TextFile.BackwardsPatchAndAlign | src/main/java/de/codesourcery/gittimelapse/TextFile.java:199-266 | The buffer's new state is `Apply(BackwardsAlign, …)` of the old state. Its marks are those `TextFileProperties.AlignedBodyMarks` states per hunk: `'+'` lines `Deleted`, `'-'` lines `Added`. |
| TextFile.JoinLines | src/main/java/de/codesourcery/gittimelapse/TextFile.java:175-181 | The append-then-delete-last-character loop gives the lines joined by single `'\n'`s. It fails exactly for an empty line list, where `deleteCharAt(-1)` throws. |
| TextFile.LinesOfJoin | src/main/java/de/codesourcery/gittimelapse/TextFile.java:167-182 | Re-splitting the joined working lines gives them back. The exception is the appended empty last line, which becomes the final `'\n'`. |
| TextFileProperties.WalkBodyLineCount | src/main/java/de/codesourcery/gittimelapse/TextFile.java:294-320 | A hunk walk that finishes changes the working line count by the mode's growth: 0, `#'+'`, or `#'+'` minus `#'-'`. |
| TextFileProperties.WalkHunksLineCount | src/main/java/de/codesourcery/gittimelapse/TextFile.java:130-166 | The same line-count law summed over all the hunks of the file. |
| TextFileProperties.ForwardsKeepsLines | src/main/java/de/codesourcery/gittimelapse/TextFile.java:368-382 | The plain forwards walk never inserts or removes a working line. Its only possible failure is an empty hunk line. |
| TextFileProperties.WalkHunksKeepsNoNewlines | src/main/java/de/codesourcery/gittimelapse/TextFile.java:294-320 | Walking clean hunks over `'\n'`-free lines leaves `'\n'`-free lines. |
| TextFileProperties.FinishEndsText | src/main/java/de/codesourcery/gittimelapse/TextFile.java:167-182 | The joined text ends every working line with `'\n'`, except that the last `'\n'` is missing exactly when the no-newline marker ends the patch. |
| TextFileProperties.PatchLineCount | src/main/java/de/codesourcery/gittimelapse/TextFile.java:322-339 | This covers a successful transform of clean hunks whose patch does not end with the marker. Its result text has the old line count plus the mode's growth for all the `'+'` and `'-'` lines. |
| TextFileProperties.ForwardsPatchKeepsText | src/main/java/de/codesourcery/gittimelapse/TextFile.java:343-402 | A successful plain forwards transform gives back the same lines, and only adds change entries. |
| TextFileProperties.AlignedTransformsMirror | src/main/java/de/codesourcery/gittimelapse/TextFile.java:228-247 | On the same text and patch, aligned backwards produces exactly aligned forwards' result: the same text, and the same error if any. Added and Deleted are swapped in its changes. |
| TextFileProperties.BackwardsAppliesBody | src/main/java/de/codesourcery/gittimelapse/TextFile.java:294-320 | The working lines hold the hunk's old side (context and `'-'` lines) at the cursor. Then the plain backwards walk succeeds and leaves the hunk's new side (context and `'+'` lines) in its place, with everything around it untouched. |
| TextFileProperties.BackwardsPatchAppliesHunk | src/main/java/de/codesourcery/gittimelapse/TextFile.java:269-340 | A text holds a hunk's old side at line `newStartLine - 1`. Then backwards patching with that hunk succeeds, and the lines of the new text are the text's lines with the old side replaced by the new side. Exactly the new text's lines that come from `'+'` lines are marked `Added`; every other entry is unchanged. |
| TextFileProperties.WalkBodyMarks | src/main/java/de/codesourcery/gittimelapse/TextFile.java:146-165 | A hunk walk that finishes leaves exactly the marks of `MarksOf`: each tag puts its mode's mark at the cursor, and the cursor then moves if the tag advances it. |
| TextFileProperties.MarksOfActive | src/main/java/de/codesourcery/gittimelapse/TextFile.java:146-165 | Tags that do not move the cursor put no mark, so dropping them leaves the marks as they are. |
| TextFileProperties.MarksOfAt | src/main/java/de/codesourcery/gittimelapse/TextFile.java:146-165 | When every tag advances, tag `i` owns index `at + i`: that entry is the tag's mark if it has one. Every index outside the tags' range, or under an unmarked tag, keeps its old entry or its absence. |
| TextFileProperties.AlignedBodyMarks | src/main/java/de/codesourcery/gittimelapse/TextFile.java:228-247 | An aligned walk that finishes marks each `'+'` and `'-'` line at its own index. Aligned forwards marks `'+'` `Added` and `'-'` `Deleted`; aligned backwards swaps them. Every other index keeps its entry. |
| TextFileProperties.BackwardsBodyMarks | src/main/java/de/codesourcery/gittimelapse/TextFile.java:294-320 | Over lines that hold the hunk's old side, the plain backwards walk finishes with the new side in place. It marks `Added` exactly the new side's `'+'` lines and leaves every other entry as it was. |
| ForwardsMarks.ForwardsBodyMarks | src/main/java/de/codesourcery/gittimelapse/TextFile.java:368-382 | The plain forwards walk of a hunk keeps the lines. It marks `Deleted` exactly the positions, counted from the cursor, of the removed lines among the old side. |
| ForwardsMarks.ForwardsPatchMarksKeptLine | src/main/java/de/codesourcery/gittimelapse/TextFile.java:376 | As written: one text and two hunks for which forwards patching marks a kept line `Deleted` and leaves the removed line unmarked. |
| ForwardsMarks.ForwardsPatchMarksBeforeFirstLine | src/main/java/de/codesourcery/gittimelapse/TextFile.java:376 | As written: a hunk removing all four lines has new-side start 0. Forwards patching marks lines -1, 0, 1 and 2 `Deleted` and never line 3. |
| ForwardsMarks.CorrectedForwardsMarksRemovedLines | src/main/java/de/codesourcery/gittimelapse/TextFile.java:376 | Corrected, for any list of clean hunks: each hunk is anchored at `oldStartLine - 1`. When every hunk's old side stands there in the text, the walk keeps the lines. Exactly the lines some hunk removes are marked `Deleted`, each holding the removed content, and every other entry is unchanged. |
| ForwardsMarks.CorrectedWalkMarksRemovedLines | src/main/java/de/codesourcery/gittimelapse/TextFile.java:376 | Corrected, on the two-hunk example: exactly lines 0 (`a`) and 3 (`d`) are marked `Deleted`. |
| GitHelper.FirstIndex | src/main/java/de/codesourcery/gittimelapse/GitHelper.java:88-100 | -1 exactly when the id is absent. Otherwise it is a position holding the id, with no earlier position holding it. |
| GitHelper.CommitList.constructor | src/main/java/de/codesourcery/gittimelapse/GitHelper.java:81-86 | A new list is empty and remembers its file. |
| GitHelper.CommitList.IndexOf | src/main/java/de/codesourcery/gittimelapse/GitHelper.java:88-100 | The search loop returns -1 exactly when the id is absent. Otherwise it returns the smallest index holding it. |
| GitHelper.CommitList.Add | src/main/java/de/codesourcery/gittimelapse/GitHelper.java:102-107 | Appends the id at the end and keeps the earlier elements. |
| GitHelper.CommitList.Reverse | src/main/java/de/codesourcery/gittimelapse/GitHelper.java:109-111 | The in-place swapping loop leaves the old list in reverse order. |
| GitHelper.Reversed | src/main/java/de/codesourcery/gittimelapse/GitHelper.java:109-111 | The reversal has the same length, and position `i` holds the old element at position `n-1-i`. |
| GitHelper.ReversedTwice | src/main/java/de/codesourcery/gittimelapse/GitHelper.java:109-111 | Reversing twice restores the list. |
| GitHelper.CommitList.GetPredecessor | src/main/java/de/codesourcery/gittimelapse/GitHelper.java:113-117 | Some exactly when the id occurs and is not first. The value is the element just before its first occurrence. |
| GitHelper.CommitList.GetLatestCommit | src/main/java/de/codesourcery/gittimelapse/GitHelper.java:153-155 | None exactly for an empty list. Otherwise it is the last element. |
| GitHelper.CommitList.GetCommit | src/main/java/de/codesourcery/gittimelapse/GitHelper.java:157-163 | Succeeds exactly for `0 <= i < size` with element `i`. Otherwise it is the no-such-commit error for `i`. |
| GitHelper.CommitList.Size | src/main/java/de/codesourcery/gittimelapse/GitHelper.java:149-151 | The number of commits in the list. |
| GitHelper.CommitList.IsEmpty | src/main/java/de/codesourcery/gittimelapse/GitHelper.java:145-147 | True exactly when the size is 0. |
| GitHelper.StripRepoBaseDir | src/main/java/de/codesourcery/gittimelapse/GitHelper.java:318-328 | A path starting with the base directory is the base directory, then an optional single separator, then the result. The separator is taken only when one follows the base directory. Any other path is returned unchanged. |
| GitHelper.CleanPathDepth | src/main/java/de/codesourcery/gittimelapse/GitHelper.java:382-388 | The counting loop gives the number of `'/'` characters in the stripped path. |
| GitHelper.JoinPathDepth | src/main/java/de/codesourcery/gittimelapse/GitHelper.java:382-388 | A path of `n` separator-free names joined by `'/'` has depth `n - 1`. |
| GitHelper.VisitCommits | src/main/java/de/codesourcery/gittimelapse/GitHelper.java:293-301 | The visited commits are a prefix of the walk, in order. Every visited commit but the last was accepted. When the walk was cut short, the last visited commit was declined. |
| GitHelper.Filter | src/main/java/de/codesourcery/gittimelapse/GitHelper.java:232-242 | The kept commits are exactly the walk's commits that pass the test, and never more than the walk. |
| GitHelper.ReversedFilter | src/main/java/de/codesourcery/gittimelapse/GitHelper.java:243-246 | Filtering then reversing equals reversing then filtering. |
| GitHelper.FindCommits | src/main/java/de/codesourcery/gittimelapse/GitHelper.java:225-248 | A new list for the file holding the walk's commits that change the file, in reverse walk order. |
| GitHelper.FoundCommitsChronological | src/main/java/de/codesourcery/gittimelapse/GitHelper.java:225-248 | The found list holds exactly the walk's commits that change the file. It is the walk reversed into chronological order, then filtered. |
| MyFrame.LineOffsets.ContainsOffset | src/main/java/de/codesourcery/gittimelapse/MyFrame.java:78-80 | Whether the half-open span `[start, end)` holds the offset. A span that holds any offset is non-empty. |
| MyFrame.NewLineOffsets | src/main/java/de/codesourcery/gittimelapse/MyFrame.java:63-76 | Succeeds exactly for line number >= 0 and 0 <= start <= end, keeping the three values. The line-number error is reported exactly when the line number is negative. |
| MyFrame.NewlinePositions | src/main/java/de/codesourcery/gittimelapse/MyFrame.java:620-629 | Every position found is an index into the text. |
| MyFrame.NewlinePositionsExact | src/main/java/de/codesourcery/gittimelapse/MyFrame.java:620-629 | The positions found are exactly the `'\n'` indices, and there are as many as the text has `'\n'`s. |
| MyFrame.NewlinePositionsAscending | src/main/java/de/codesourcery/gittimelapse/MyFrame.java:620-629 | The positions are non-negative and strictly increasing. |
| MyFrame.SpanTableAccepted | src/main/java/de/codesourcery/gittimelapse/MyFrame.java:616-627 | The table has keys exactly `0 .. n-1`. Every entry is keyed by its own line number and passes the constructor's checks, so building it never throws. |
| MyFrame.SpanTableContiguous | src/main/java/de/codesourcery/gittimelapse/MyFrame.java:616-627 | Each entry ends where the next begins. |
| MyFrame.SpanTableDisjoint | src/main/java/de/codesourcery/gittimelapse/MyFrame.java:602-610 | No offset lies in two entries, so the lookup's answer does not depend on the map's iteration order. |
| MyFrame.SpanTableCovers | src/main/java/de/codesourcery/gittimelapse/MyFrame.java:602-610 | Some entry contains an offset exactly when the text has a `'\n'` and `0 <= offset <` the last `'\n'`'s index. Text after the last `'\n'` has no line. |
| MyFrame.StartFindsLine | src/main/java/de/codesourcery/gittimelapse/MyFrame.java:586-610 | A non-empty line's start offset lies in that line's span and in no other, so offset lookup inverts line lookup. |
| MyFrame.TextTable | src/main/java/de/codesourcery/gittimelapse/MyFrame.java:612-629 | A text's table has one entry per `'\n'`, keyed `0, 1, …`. Each entry ends at its `'\n'` and passes the constructor's checks. |
| MyFrame.DiffPanel.constructor | src/main/java/de/codesourcery/gittimelapse/MyFrame.java:314 | A new panel shows no text and has an empty table. |
| MyFrame.DiffPanel.SetCurrentText | src/main/java/de/codesourcery/gittimelapse/MyFrame.java:612-631 | The loop with `offset1`, `offset2` and `currentLine` leaves exactly the span table of the new text, and the panel shows that text. |
| MyFrame.DiffPanel.LineNumberToOffset | src/main/java/de/codesourcery/gittimelapse/MyFrame.java:586-594 | The start of the entry for that line number, or -1 when the table has none. |
| MyFrame.DiffPanel.OffsetToLineNumber | src/main/java/de/codesourcery/gittimelapse/MyFrame.java:602-610 | A line whose span holds the offset, or -1 exactly when no span does. |
| MyFrame.StepRevision | src/main/java/de/codesourcery/gittimelapse/MyFrame.java:90-98 | Left decrements only above 1, Right increments only below size, and anything else leaves the value. |
| MyFrame.StepsStayInRange | src/main/java/de/codesourcery/gittimelapse/MyFrame.java:92-97 | From a value in `[1, size]`, any series of key releases stays in `[1, size]`. |
| MyFrame.SteppedRevisionIsACommit | src/main/java/de/codesourcery/gittimelapse/MyFrame.java:203-206 | After any key releases, `getCommit(value - 1)` finds a commit of the list. |

## Left out

- Line splitting by JGit's `RawText` is outside this model. `TextFile.Lines` stands for it: pieces between `'\n'`s, with a final `'\n'` opening no extra line. `'\r'` is kept in the line, as the source's comment says.
- Parsing the patch text (`Patch.parse`) and cutting each hunk out of the patch buffer by its start and end offsets are not modelled. A hunk is given already parsed, as its start lines, its header line and its tagged body lines.
- TextFile.NoNewlineAtEndOfFile: the source splits the whole buffer of the last hunk's patch and looks at that buffer's last line. The model looks at the last line of the last hunk. The two agree when the last hunk ends the patch text. That holds for the `DiffFormatter` output that `MyFrame.java` passes in. It does not hold for every one-file patch: a `git format-patch` mail ends with a `-- ` signature after the last hunk, and the source would then read the signature's last line.
- The `oldLines` copies and their trailing `""` in the four transforms are never read, and are not modelled.
- `TextFile.toString` returns the buffer's text, and the model reads the `text` field for it. `getLineCount` and `getChangedLines` are the functions `TextFile.TextFile.GetLineCount` and `TextFile.TextFile.GetChangedLines`. The read-only view that `Collections.unmodifiableMap` gives is not modelled.
- `null` arguments and their `IllegalArgumentException`s (commit ids, files, the commit-list file) cannot arise in the model: Dafny values here are never null.
- Java `int` overflow of offsets and line numbers is not modelled. Integers are unbounded.
- Bytes versus characters: the source converts between `String` and `byte[]` with the platform charset. The model works on decoded characters throughout.
- TextFile.TextFile.BackwardsPatch reads the hunk lines as the file's own characters. The source builds each hunk's text with `(char) buffer[j]` at `TextFile.java:135`, 217, 287 and 361. That is a sign-extending widening: a byte of 0x80 or more becomes a character from U+FF80 to U+FFFF, which `getBytes()` then encodes differently. For a file with non-ASCII context or removed lines, the source's `backwardsPatch` throws `PatchApplyException` where the model succeeds, and its `'+'` lines carry the altered characters. The other three transforms use only the tags of hunk lines, so their marks are unaffected.
- TextFileProperties.BackwardsPatchAppliesHunk: for the same reason, its success and its new lines hold in the source only for hunks and files whose lines are ASCII.
- GitHelper's JGit plumbing is not part of this model. That covers the repository lookup, `findGitDir`, `traverse`, `readFile`, `visitSingleCommit`, `visitCommitTree`'s tree walk, `getFilesInCommit` and `createPathFilter`. The commit walk is a given sequence of ids. Whether a commit changes the file is a given predicate; the walk's own filter by that predicate is part of how the input sequence came about.
- GitHelper.StripRepoBaseDir: the base directory is a parameter (the repository's absolute path in the source), and the separator is `'/'`, the platform separator on the systems the tool targets.
- GitHelper.VisitCommits: the visitor is a pure predicate. A visitor's side effects, such as adding to a list, are modelled in the caller.
- GitHelper.FindCommits: the source's visitor adds each matching commit to the result as a side effect and always returns true, so it visits the whole walk. A Dafny function value cannot update the list, so `FindCommits` runs that loop itself instead of calling `VisitCommits`.
- MyFrame.DiffPanel.LineNumberToOffset and MyFrame.DiffPanel.OffsetToLineNumber scan the table in ascending key order. `HashMap.values()` has an unspecified order. `SpanTableDisjoint` and the key-equals-line-number invariant show the result is the same for any order.
- All Swing code in `MyFrame.java` is left out as presentation: layout, styles, highlighting, caret save and restore through the view, scrollbar listeners and threading. Diff computation by `DiffFormatter` and commit-info formatting are left out for the same reason.
- `Main.java` is not part of this model.

## Findings

| source | as written | input that shows it | evidently intended | confidence | as-written member | corrected member |
|---|---|---|---|---|---|---|
| src/main/java/de/codesourcery/gittimelapse/TextFile.java:376 | `forwardsPatch` leaves the previous revision's lines in place. It marks each removed line `Deleted` at `newStartLine - 1 + pos`, the hunk's position in the NEW file. | Text `a b c d` (one per line). Hunk 1 `@@ -1,2 +1,1 @@` with `-a`, ` b`; hunk 2 `@@ -3,2 +2,1 @@` with ` c`, `-d`. Line 2 (`c`, kept) is marked `Deleted` and line 3 (`d`, removed) is not marked. `DiffFormatter`'s three context lines would merge these two hunks into one, but a single hunk shows it too: `@@ -1,4 +0,0 @@` removing all four lines has new-side start 0 and marks lines -1 to 2, never line 3. | The anchor `oldStartLine - 1 + pos`, the removed line's position in the unchanged old text. The two differ whenever an earlier hunk changes the line count, and for a hunk with no new-side line, whose new-side start names the line before it. | high; not executed | ForwardsMarks.ForwardsPatchMarksKeptLine, ForwardsMarks.ForwardsPatchMarksBeforeFirstLine | ForwardsMarks.CorrectedForwardsMarksRemovedLines, ForwardsMarks.CorrectedWalkMarksRemovedLines |

The buffer methods (`TextFile.TextFile.ForwardsPatch`) model the code as
written. The corrected walk `ForwardsMarks.CorrectedForwardsWalk` stands beside
them, with its property proved.
