/**
 * The list-based helpers of the Git access layer: the ordered list of commits
 * that touched a file, prefix stripping of repository paths, the directory depth
 * of a path, the early-exit commit visitor and the filter-then-reverse search for
 * the commits that changed a file. The commit walk and the "commit changes the
 * file" test are inputs.
 */
module GitHelper {
  import opened Wrappers

  /** A commit id (an object id); only its equality matters here. */
  type CommitId = string

  /** The path separator of the platform the repository is read on. */
  const Separator: char := '/'

  datatype CommitListError = NoSuchCommit(index: int)

  // ---------------------------------------------------------------------
  // Sequence helpers
  // ---------------------------------------------------------------------

  /** The position of the first occurrence of x in s, or -1 when x does not occur. */
  function FirstIndex(s: seq<CommitId>, x: CommitId): (i: int)
    ensures -1 <= i
    ensures i == -1 <==> x !in s
    ensures 0 <= i ==> i < |s| && s[i] == x && x !in s[..i]
  {
    if s == [] then -1
    else if s[0] == x then 0
    else
      var j := FirstIndex(s[1..], x);
      assert s == [s[0]] + s[1..];
      if j == -1 then -1
      else
        assert s[..j + 1] == [s[0]] + s[1..][..j];
        j + 1
  }

  /** s in the opposite order. */
  function Reversed<T>(s: seq<T>): (r: seq<T>)
    ensures |r| == |s|
    ensures forall i :: 0 <= i < |s| ==> r[i] == s[|s| - 1 - i]
  {
    if s == [] then [] else Reversed(s[1..]) + [s[0]]
  }

  /** The commits of s that satisfy p, in their order in s. */
  function Filter(s: seq<CommitId>, p: CommitId -> bool): (r: seq<CommitId>)
    ensures forall x :: x in r <==> x in s && p(x)
    ensures |r| <= |s|
  {
    if s == [] then [] else (if p(s[0]) then [s[0]] else []) + Filter(s[1..], p)
  }

  lemma ReversedTwice<T>(s: seq<T>)
    ensures Reversed(Reversed(s)) == s
  {
  }

  lemma {:induction false} FilterAppend(a: seq<CommitId>, b: seq<CommitId>, p: CommitId -> bool)
    ensures Filter(a + b, p) == Filter(a, p) + Filter(b, p)
    decreases |a|
  {
    if a != [] {
      assert (a + b)[1..] == a[1..] + b;
      FilterAppend(a[1..], b, p);
    } else {
      assert a + b == b;
    }
  }

  /** Filtering a list with one more commit at its end keeps that commit exactly when it matches. */
  lemma FilterSnoc(s: seq<CommitId>, x: CommitId, p: CommitId -> bool)
    ensures Filter(s + [x], p) == Filter(s, p) + if p(x) then [x] else []
  {
    FilterAppend(s, [x], p);
    assert Filter([x], p) == if p(x) then [x] else [] by {
      assert [x][1..] == [];
    }
  }

  /** Reversing keeps the members. */
  lemma ReversedMembers<T>(s: seq<T>)
    ensures forall c :: c in Reversed(s) <==> c in s
  {
    var r := Reversed(s);
    forall c ensures c in r <==> c in s {
      if c in r {
        var i :| 0 <= i < |r| && r[i] == c;
        assert s[|s| - 1 - i] == c;
      }
      if c in s {
        var i :| 0 <= i < |s| && s[i] == c;
        assert r[|s| - 1 - i] == c;
      }
    }
  }

  lemma ReversedAppend<T>(a: seq<T>, b: seq<T>)
    ensures Reversed(a + b) == Reversed(b) + Reversed(a)
  {
  }

  /** Filtering then reversing is reversing then filtering. */
  lemma {:induction false} ReversedFilter(s: seq<CommitId>, p: CommitId -> bool)
    ensures Reversed(Filter(s, p)) == Filter(Reversed(s), p)
    decreases |s|
  {
    if s != [] {
      var head := if p(s[0]) then [s[0]] else [];
      ReversedFilter(s[1..], p);
      ReversedAppend(head, Filter(s[1..], p));
      assert Reversed(head) == head;
      assert Reversed(s) == Reversed(s[1..]) + [s[0]];
      FilterSnoc(Reversed(s[1..]), s[0], p);
    }
  }

  // ---------------------------------------------------------------------
  // The commit list
  // ---------------------------------------------------------------------

  /** The commits that changed one file, in the order they were added. */
  class CommitList {
    var commits: seq<CommitId>
    const file: string

    constructor(file: string)
      ensures this.file == file && commits == []
    {
      this.file := file;
      commits := [];
    }

    /** The first position of current in the list, or -1. */
    method IndexOf(current: CommitId) returns (i: int)
      ensures -1 <= i
      ensures i == -1 <==> current !in commits
      ensures 0 <= i ==> i < |commits| && commits[i] == current && current !in commits[..i]
    {
      var k := 0;
      while k < |commits|
        invariant 0 <= k <= |commits|
        invariant current !in commits[..k]
      {
        if current == commits[k] {
          return k;
        }
        assert commits[..k + 1] == commits[..k] + [commits[k]];
        k := k + 1;
      }
      assert commits[..k] == commits;
      return -1;
    }

    method Add(id: CommitId)
      modifies this
      ensures commits == old(commits) + [id]
    {
      commits := commits + [id];
    }

    /** Reverses the list in place by swapping the two ends towards the middle. */
    method Reverse()
      modifies this
      ensures commits == Reversed(old(commits))
    {
      var n := |commits|;
      var i := 0;
      while i < n / 2
        invariant 0 <= i <= n / 2
        invariant |commits| == n
        invariant forall k :: 0 <= k < i ==> commits[k] == old(commits)[n - 1 - k] && commits[n - 1 - k] == old(commits)[k]
        invariant forall k :: i <= k < n - i ==> commits[k] == old(commits)[k]
      {
        var a, b := commits[i], commits[n - 1 - i];
        commits := commits[i := b][n - 1 - i := a];
        i := i + 1;
      }
    }

    /** The commit just before current, or None when current is first or absent. */
    function GetPredecessor(current: CommitId): (r: Option<CommitId>)
      reads this
      ensures r.Some? <==> current in commits && commits[0] != current
      ensures r.Some? ==> exists i :: 0 < i < |commits| && commits[i] == current && current !in commits[..i] && r.value == commits[i - 1]
    {
      var idx := FirstIndex(commits, current);
      if idx > 0 then Some(commits[idx - 1]) else None
    }

    /** The last commit added, or None for an empty list. */
    function GetLatestCommit(): (r: Option<CommitId>)
      reads this
      ensures r.None? <==> commits == []
      ensures r.Some? ==> r.value == commits[|commits| - 1]
    {
      if IsEmpty() then None else Some(commits[|commits| - 1])
    }

    /** The commit at position i, or an error outside 0 .. Size()-1. */
    function GetCommit(i: int): (r: Result<CommitId, CommitListError>)
      reads this
      ensures r.Success? <==> 0 <= i < Size()
      ensures r.Success? ==> r.value == commits[i]
      ensures r.Failure? ==> r.error == NoSuchCommit(i)
    {
      if i < 0 || i >= |commits| then Failure(NoSuchCommit(i)) else Success(commits[i])
    }

    function Size(): (n: nat)
      reads this
      ensures n == |commits|
    {
      |commits|
    }

    function IsEmpty(): (e: bool)
      reads this
      ensures e <==> Size() == 0
    {
      |commits| == 0
    }
  }

  // ---------------------------------------------------------------------
  // Paths
  // ---------------------------------------------------------------------

  /**
   * The path relative to the repository's base directory: when the path starts
   * with the base directory, that prefix and then at most one separator are
   * removed; any other path comes back unchanged.
   */
  function StripRepoBaseDir(base: string, path: string): (r: string)
    ensures base <= path && |path| > |base| && path[|base|] == Separator ==> path == base + [Separator] + r
    ensures base <= path && !(|path| > |base| && path[|base|] == Separator) ==> path == base + r
    ensures !(base <= path) ==> r == path
  {
    if base <= path then
      var rest := path[|base|..];
      if rest != [] && rest[0] == Separator then rest[1..] else rest
    else path
  }

  /** The depth of a path below the base directory: the number of separators in the stripped path. */
  method CleanPathDepth(base: string, path: string) returns (depth: nat)
    ensures depth == multiset(StripRepoBaseDir(base, path))[Separator]
  {
    var cleanPath := StripRepoBaseDir(base, path);
    depth := 0;
    for i := 0 to |cleanPath|
      invariant depth == multiset(cleanPath[..i])[Separator]
    {
      assert cleanPath[..i + 1] == cleanPath[..i] + [cleanPath[i]];
      if cleanPath[i] == Separator {
        depth := depth + 1;
      }
    }
    assert cleanPath[..|cleanPath|] == cleanPath;
  }

  /** Directory names joined by the separator. */
  function JoinPath(names: seq<string>): string
    requires names != []
  {
    if |names| == 1 then names[0] else names[0] + [Separator] + JoinPath(names[1..])
  }

  /** A path made of n names without separators has depth n - 1. */
  lemma {:induction false} JoinPathDepth(names: seq<string>)
    requires names != []
    requires forall i :: 0 <= i < |names| ==> Separator !in names[i]
    ensures multiset(JoinPath(names))[Separator] == |names| - 1
    decreases |names|
  {
    assert multiset(names[0])[Separator] == 0;
    if |names| > 1 {
      JoinPathDepth(names[1..]);
      assert multiset(names[0] + [Separator] + JoinPath(names[1..]))
        == multiset(names[0]) + multiset([Separator]) + multiset(JoinPath(names[1..]));
    }
  }

  // ---------------------------------------------------------------------
  // Walking commits
  // ---------------------------------------------------------------------

  /**
   * Visits the commits of a walk in order and stops after the first one the
   * visitor declines; returns the commits visited.
   */
  method VisitCommits(walk: seq<CommitId>, visit: CommitId -> bool) returns (visited: seq<CommitId>)
    ensures visited <= walk
    ensures forall i :: 0 <= i < |visited| - 1 ==> visit(visited[i])
    ensures |visited| < |walk| ==> visited != [] && !visit(visited[|visited| - 1])
  {
    visited := [];
    var i := 0;
    while i < |walk|
      invariant 0 <= i <= |walk| && visited == walk[..i]
      invariant forall k :: 0 <= k < i ==> visit(walk[k])
    {
      visited := visited + [walk[i]];
      if !visit(walk[i]) {
        assert visited == walk[..i + 1];
        return;
      }
      i := i + 1;
    }
    assert walk[..i] == walk;
  }

  /**
   * The commits of the walk (newest first) that change the file, in chronological
   * order: the visitor appends each matching commit and always asks for the next
   * one, so the whole walk is visited; the list is reversed at the end.
   */
  method FindCommits(file: string, walk: seq<CommitId>, changesFile: CommitId -> bool) returns (result: CommitList)
    ensures fresh(result) && result.file == file
    ensures result.commits == Reversed(Filter(walk, changesFile))
  {
    result := new CommitList(file);
    for i := 0 to |walk|
      invariant result.file == file
      invariant result.commits == Filter(walk[..i], changesFile)
    {
      assert walk[..i + 1] == walk[..i] + [walk[i]];
      FilterSnoc(walk[..i], walk[i], changesFile);
      if changesFile(walk[i]) {
        result.Add(walk[i]);
      }
    }
    assert walk[..|walk|] == walk;
    result.Reverse();
  }

  /**
   * The search result lists exactly the walk's commits that change the file, in
   * the walk's order reversed.
   */
  lemma FoundCommitsChronological(walk: seq<CommitId>, changesFile: CommitId -> bool)
    ensures var found := Reversed(Filter(walk, changesFile));
      && (forall c :: c in found <==> c in walk && changesFile(c))
      && found == Filter(Reversed(walk), changesFile)
  {
    ReversedFilter(walk, changesFile);
    ReversedMembers(Filter(walk, changesFile));
  }

}
