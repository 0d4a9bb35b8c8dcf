/** The commits of a branch and the files they change (changes.go). */
module GitCommits {
  import opened Collections

  /** The hash of a commit, as a number. */
  type Hash = nat

  /** The parents of each commit. */
  type History = map<Hash, seq<Hash>>

  datatype ChangeType = Added | Modified | Deleted | Renamed

  type Changes = map<string, ChangeType>

  /** What iterating a log gives: commits, newest first, and then the end or an error. */
  datatype Log = Log(commits: seq<Hash>, broken: bool)

  /** A reference that may be missing, and its log, which may not open. */
  datatype Ref = Missing | NoLog | Opens(log: Log)

  datatype Error = NoReference | NoBranchLog | BrokenBranchLog | NoChanges(commit: Hash)

  datatype Result<T> = Ok(value: T) | Err(error: Error)

  // ----- the history -----

  function Parents(h: History, c: Hash): seq<Hash> {
    if c in h then h[c] else []
  }

  /** k steps from commit to parent lead from a to b. */
  ghost predicate Leads(h: History, a: Hash, b: Hash, k: nat)
    decreases k
  {
    if k == 0 then a == b else exists m :: Leads(h, a, m, k - 1) && b in Parents(h, m)
  }

  ghost predicate Reachable(h: History, a: Hash, b: Hash) {
    exists k: nat :: Leads(h, a, b, k)
  }

  /** The whole log of a commit: what is reachable from it, once each, itself first and every other
      commit behind a child of it. */
  ghost predicate IsLog(h: History, from: Hash, log: Log) {
    && !log.broken && NoRepeat(log.commits)
    && log.commits != [] && log.commits[0] == from
    && (forall c :: c in log.commits <==> Reachable(h, from, c))
    && forall i :: 0 < i < |log.commits| ==> BehindAChild(h, log.commits, i)
  }

  predicate BehindAChild(h: History, commits: seq<Hash>, i: nat)
    requires i < |commits|
  {
    exists j :: 0 <= j < i && commits[i] in Parents(h, commits[j])
  }

  predicate Linear(h: History) {
    forall c :: c in h ==> |h[c]| <= 1
  }

  // ----- the commits of the main references -----

  function Reached(ref: Ref): seq<Hash> {
    if ref.Opens? then ref.log.commits else []
  }

  /** A reference that is missing or has no log counts for nothing, a broken log for what it gave. */
  predicate InMain(mains: seq<Ref>, c: Hash) {
    exists i :: 0 <= i < |mains| && c in Reached(mains[i])
  }

  /** How many commits come before the first one of main. */
  function BeforeMain(mains: seq<Ref>, commits: seq<Hash>): (n: nat)
    ensures n <= |commits|
    ensures forall i :: 0 <= i < n ==> !InMain(mains, commits[i])
    ensures n < |commits| ==> InMain(mains, commits[n])
    decreases |commits|
  {
    if commits == [] || InMain(mains, commits[0]) then 0 else 1 + BeforeMain(mains, commits[1..])
  }

  /** What the program answers: an error of the branch log counts if no commit of main comes before it. */
  function CommitsInBranch(mains: seq<Ref>, branch: Ref): Result<seq<Hash>> {
    match branch
    case Missing => Err(NoReference)
    case NoLog => Err(NoBranchLog)
    case Opens(log) =>
      var n := BeforeMain(mains, log.commits);
      if n == |log.commits| && log.broken then Err(BrokenBranchLog) else Ok(log.commits[..n])
  }

  lemma {:induction false} BeforeMainIs(mains: seq<Ref>, commits: seq<Hash>, n: nat)
    requires n <= |commits| && (forall i :: 0 <= i < n ==> !InMain(mains, commits[i]))
    requires n < |commits| ==> InMain(mains, commits[n])
    ensures BeforeMain(mains, commits) == n
    decreases n
  {
    var m := BeforeMain(mains, commits);
    assert !(m < n);
    assert !(n < m);
  }

  method MainReachable(mains: seq<Ref>) returns (reachable: set<Hash>)
    ensures forall c :: c in reachable <==> exists i :: 0 <= i < |mains| && mains[i].Opens? && c in mains[i].log.commits
  {
    reachable := {};
    for i := 0 to |mains|
      invariant forall c :: c in reachable <==> InMain(mains[..i], c)
    {
      ghost var before := reachable;
      if mains[i].Opens? {
        var commits := mains[i].log.commits;
        for j := 0 to |commits|
          invariant forall c :: c in reachable <==> c in before || c in commits[..j]
        {
          reachable := reachable + {commits[j]};
        }
        assert commits[..|commits|] == commits;
      }
      assert Reached(mains[i]) == if mains[i].Opens? then mains[i].log.commits else [];
      forall c ensures InMain(mains[..i + 1], c) <==> InMain(mains[..i], c) || c in Reached(mains[i]) {
        OneMoreMain(mains, i, c);
      }
    }
    assert mains[..|mains|] == mains;
    forall c ensures InMain(mains, c) <==> exists i :: 0 <= i < |mains| && mains[i].Opens? && c in mains[i].log.commits {
      if InMain(mains, c) {
        var i :| 0 <= i < |mains| && c in Reached(mains[i]);
        assert mains[i].Opens?;
      }
      if i :| 0 <= i < |mains| && mains[i].Opens? && c in mains[i].log.commits { assert c in Reached(mains[i]); }
    }
  }

  lemma OneMoreMain(mains: seq<Ref>, i: nat, c: Hash)
    requires i < |mains|
    ensures InMain(mains[..i + 1], c) <==> InMain(mains[..i], c) || c in Reached(mains[i])
  {
    if InMain(mains[..i], c) {
      var j :| 0 <= j < i && c in Reached(mains[..i][j]);
      assert mains[..i + 1][j] == mains[..i][j];
    }
    if c in Reached(mains[i]) {
      assert mains[..i + 1][i] == mains[i];
    }
    if InMain(mains[..i + 1], c) {
      var j :| 0 <= j < i + 1 && c in Reached(mains[..i + 1][j]);
      assert j < i ==> mains[..i][j] == mains[..i + 1][j];
    }
  }

  /** The commits before the first one of main, or all of them. */
  predicate StopsAtMain(mains: seq<Ref>, log: seq<Hash>, commits: seq<Hash>) {
    && commits <= log && (forall c :: c in commits ==> !InMain(mains, c))
    && (|commits| < |log| ==> InMain(mains, log[|commits|]))
  }

  method GetCommitsInBranch(mains: seq<Ref>, branch: Ref) returns (r: Result<seq<Hash>>)
    ensures r == CommitsInBranch(mains, branch)
    ensures branch.Missing? ==> r == Err(NoReference)
    ensures branch.NoLog? ==> r == Err(NoBranchLog)
    ensures branch.Opens? && branch.log.broken && (forall c :: c in branch.log.commits ==> !InMain(mains, c)) ==>
      r == Err(BrokenBranchLog)
    ensures branch.Opens? && (!branch.log.broken || exists c :: c in branch.log.commits && InMain(mains, c)) ==>
      r.Ok? && StopsAtMain(mains, branch.log.commits, r.value)
  {
    if branch.Missing? {
      return Err(NoReference);
    }
    var mainReachable := MainReachable(mains);
    if branch.NoLog? {
      return Err(NoBranchLog);
    }
    var log, commits := branch.log.commits, [];
    for i := 0 to |log|
      invariant commits == log[..i] && forall j :: 0 <= j < i ==> !InMain(mains, log[j])
    {
      if log[i] in mainReachable {
        BeforeMainIs(mains, log, i);
        return Ok(commits);
      }
      commits := commits + [log[i]];
    }
    BeforeMainIs(mains, log, |log|);
    if branch.log.broken {
      return Err(BrokenBranchLog);
    }
    return Ok(commits);
  }

  // ----- what the answer means -----

  /** The references stand at these commits, and their logs are whole. */
  ghost predicate Whole(h: History, mains: seq<Ref>, heads: seq<Hash>) {
    && |heads| == |mains|
    && forall i :: 0 <= i < |mains| ==> mains[i].Missing? || (mains[i].Opens? && IsLog(h, heads[i], mains[i].log))
  }

  ghost predicate ReachableFromMain(h: History, mains: seq<Ref>, heads: seq<Hash>, c: Hash)
    requires |heads| == |mains|
  {
    exists i :: 0 <= i < |mains| && !mains[i].Missing? && Reachable(h, heads[i], c)
  }

  lemma InMainIsReachable(h: History, mains: seq<Ref>, heads: seq<Hash>, c: Hash)
    requires Whole(h, mains, heads)
    ensures InMain(mains, c) <==> ReachableFromMain(h, mains, heads, c)
  {
    if InMain(mains, c) {
      var i :| 0 <= i < |mains| && c in Reached(mains[i]);
      assert !mains[i].Missing? && Reachable(h, heads[i], c);
    }
    if ReachableFromMain(h, mains, heads, c) {
      var i :| 0 <= i < |mains| && !mains[i].Missing? && Reachable(h, heads[i], c);
      assert c in Reached(mains[i]);
    }
  }

  /** Always: some first commits of the log, once each, none of them reachable from main. */
  lemma CommitsArePrefix(h: History, mains: seq<Ref>, heads: seq<Hash>, head: Hash, log: Log)
    requires Whole(h, mains, heads) && IsLog(h, head, log)
    ensures var r := CommitsInBranch(mains, Opens(log));
      && r.Ok? && r.value <= log.commits && NoRepeat(r.value)
      && forall c :: c in r.value ==> Reachable(h, head, c) && !ReachableFromMain(h, mains, heads, c)
  {
    var commits := CommitsInBranch(mains, Opens(log)).value;
    forall c | c in commits ensures Reachable(h, head, c) && !ReachableFromMain(h, mains, heads, c) {
      assert c in log.commits;
      InMainIsReachable(h, mains, heads, c);
    }
  }

  /** Exactly the commits reachable from the branch and not from main. */
  ghost predicate Exact(h: History, mains: seq<Ref>, heads: seq<Hash>, head: Hash, commits: seq<Hash>)
    requires |heads| == |mains|
  {
    forall c :: c in commits <==> Reachable(h, head, c) && !ReachableFromMain(h, mains, heads, c)
  }

  /** No commit of main stands before one that is not. */
  ghost predicate MainComesLast(mains: seq<Ref>, commits: seq<Hash>) {
    forall i, j :: 0 <= i < j < |commits| && InMain(mains, commits[i]) ==> InMain(mains, commits[j])
  }

  /** The answer is exact just when main comes last in the log of the branch. */
  lemma ExactWhenMainComesLast(h: History, mains: seq<Ref>, heads: seq<Hash>, head: Hash, log: Log)
    requires Whole(h, mains, heads) && IsLog(h, head, log)
    ensures Exact(h, mains, heads, head, CommitsInBranch(mains, Opens(log)).value) <==> MainComesLast(mains, log.commits)
  {
    var commits, n := log.commits, BeforeMain(mains, log.commits);
    CommitsArePrefix(h, mains, heads, head, log);
    forall c { InMainIsReachable(h, mains, heads, c); }
    if Exact(h, mains, heads, head, commits[..n]) {
      forall i, j | 0 <= i < j < |commits| && InMain(mains, commits[i]) ensures InMain(mains, commits[j]) {
        assert n <= i;
        assert commits[j] in commits && commits[j] !in commits[..n];
      }
    }
    if MainComesLast(mains, commits) {
      forall c | Reachable(h, head, c) && !InMain(mains, c) ensures c in commits[..n] {
        assert c in commits;
        var j :| 0 <= j < |commits| && commits[j] == c;
        if n < j { assert InMain(mains, commits[n]); }
      }
    }
  }

  /** In a linear history each commit of a log is followed by its parent. */
  lemma {:induction false} LinearLogIsChain(h: History, commits: seq<Hash>, i: nat)
    requires Linear(h) && NoRepeat(commits) && i + 1 < |commits|
    requires forall k :: 0 < k < |commits| ==> BehindAChild(h, commits, k)
    ensures Parents(h, commits[i]) == [commits[i + 1]]
    decreases i
  {
    assert BehindAChild(h, commits, i + 1);
    var j :| 0 <= j < i + 1 && commits[i + 1] in Parents(h, commits[j]);
    assert Parents(h, commits[j]) == [commits[i + 1]];
    if j < i {
      LinearLogIsChain(h, commits, j);
    }
  }

  lemma {:induction false} MainStaysMain(h: History, mains: seq<Ref>, heads: seq<Hash>, commits: seq<Hash>, i: nat, j: nat)
    requires Whole(h, mains, heads) && Linear(h) && NoRepeat(commits) && i <= j < |commits|
    requires forall k :: 0 < k < |commits| ==> BehindAChild(h, commits, k)
    requires InMain(mains, commits[i])
    ensures InMain(mains, commits[j])
    decreases j
  {
    if i < j {
      MainStaysMain(h, mains, heads, commits, i, j - 1);
      var c, p := commits[j - 1], commits[j];
      assert p in Parents(h, c) by { LinearLogIsChain(h, commits, j - 1); }
      ParentOfMain(h, mains, heads, c, p);
    }
  }

  lemma ParentOfMain(h: History, mains: seq<Ref>, heads: seq<Hash>, c: Hash, p: Hash)
    requires Whole(h, mains, heads) && InMain(mains, c) && p in Parents(h, c)
    ensures InMain(mains, p)
  {
    var i :| 0 <= i < |mains| && c in Reached(mains[i]);
    var k: nat :| Leads(h, heads[i], c, k);
    assert Leads(h, heads[i], p, k + 1);
    assert p in Reached(mains[i]);
  }

  /** On a linear history the answer is what `git log main..branch` lists. */
  lemma LinearIsExact(h: History, mains: seq<Ref>, heads: seq<Hash>, head: Hash, log: Log)
    requires Linear(h) && Whole(h, mains, heads) && IsLog(h, head, log)
    ensures Exact(h, mains, heads, head, CommitsInBranch(mains, Opens(log)).value)
  {
    forall i, j | 0 <= i < j < |log.commits| && InMain(mains, log.commits[i]) ensures InMain(mains, log.commits[j]) {
      MainStaysMain(h, mains, heads, log.commits, i, j);
    }
    ExactWhenMainComesLast(h, mains, heads, head, log);
  }

  // ----- a merge can hide commits -----

  /** 3 merges 1 and 2, which both follow 0, the commit of main. */
  const MERGED: History := map[3 := [1, 2], 1 := [0], 2 := [0]]

  lemma LeadsInMerged(c: Hash, k: nat)
    requires Leads(MERGED, 3, c, k)
    ensures c == 3 || c == 1 || c == 2 || c == 0
    decreases k
  {
    if k > 0 {
      var m :| Leads(MERGED, 3, m, k - 1) && c in Parents(MERGED, m);
      LeadsInMerged(m, k - 1);
    }
  }

  lemma RootHasNoParent(c: Hash)
    ensures Reachable(MERGED, 0, c) <==> c == 0
  {
    assert Leads(MERGED, 0, 0, 0);
    assert Parents(MERGED, 0) == [];
    forall k: nat | Leads(MERGED, 0, c, k) ensures c == 0 { NoStepFromRoot(c, k); }
  }

  lemma {:induction false} NoStepFromRoot(c: Hash, k: nat)
    requires Leads(MERGED, 0, c, k)
    ensures c == 0 && k == 0
    decreases k
  {
    if k > 0 {
      var m :| Leads(MERGED, 0, m, k - 1) && c in Parents(MERGED, m);
      NoStepFromRoot(m, k - 1);
    }
  }

  lemma ReachedFromMerge(c: Hash)
    ensures Reachable(MERGED, 3, c) <==> c == 3 || c == 1 || c == 2 || c == 0
  {
    assert Leads(MERGED, 3, 3, 0);
    assert 1 in Parents(MERGED, 3) && 2 in Parents(MERGED, 3) && 0 in Parents(MERGED, 1);
    assert Leads(MERGED, 3, 1, 1) && Leads(MERGED, 3, 2, 1);
    assert Leads(MERGED, 3, 0, 2);
    forall k: nat | Leads(MERGED, 3, c, k) ensures c == 3 || c == 1 || c == 2 || c == 0 { LeadsInMerged(c, k); }
  }

  lemma MainLog()
    ensures IsLog(MERGED, 0, Log([0], false))
  {
    forall c { RootHasNoParent(c); }
  }

  lemma MergedLog()
    ensures IsLog(MERGED, 3, Log([3, 1, 0, 2], false))
  {
    var commits := [3, 1, 0, 2];
    forall c ensures c in commits <==> Reachable(MERGED, 3, c) { ReachedFromMerge(c); }
    assert 1 in Parents(MERGED, 3) && 2 in Parents(MERGED, 3) && 0 in Parents(MERGED, 1);
    forall i | 0 < i < |commits| ensures BehindAChild(MERGED, commits, i) {
      var j := if i == 2 then 1 else 0;
      assert 0 <= j < i && commits[i] in Parents(MERGED, commits[j]);
    }
  }

  /** The walk meets the commit of main between the two merged ones, and misses the second. */
  lemma MergeMayHideCommits()
    ensures !Exact(MERGED, [Opens(Log([0], false))], [0], 3,
      CommitsInBranch([Opens(Log([0], false))], Opens(Log([3, 1, 0, 2], false))).value)
  {
    var mains, log := [Opens(Log([0], false))], Log([3, 1, 0, 2], false);
    MainLog();
    MergedLog();
    assert 0 in Reached(mains[0]);
    assert InMain(mains, log.commits[2]) && !InMain(mains, log.commits[3]);
    ExactWhenMainComesLast(MERGED, mains, [0], 3, log);
  }

  // ----- the changed files -----

  /** The changes of each commit that has any to tell; asking for others fails. */
  type Diffs = map<Hash, Changes>

  /** A file is listed when one of the commits changes it, with the change of the last such commit
      of the list, which is the oldest one. */
  ghost predicate Unites(diffs: Diffs, commits: seq<Hash>, files: Changes) {
    && (forall f :: f in files <==> exists i :: 0 <= i < |commits| && Touches(diffs, commits[i], f))
    && forall f, i :: LastTouches(diffs, commits, i, f) ==> f in files && files[f] == diffs[commits[i]][f]
  }

  ghost predicate LastTouches(diffs: Diffs, commits: seq<Hash>, i: int, f: string) {
    && 0 <= i < |commits| && Touches(diffs, commits[i], f)
    && forall j :: i < j < |commits| ==> !Touches(diffs, commits[j], f)
  }

  predicate Touches(diffs: Diffs, c: Hash, f: string) {
    c in diffs && f in diffs[c]
  }

  method UniteChanges(diffs: Diffs, commits: seq<Hash>) returns (r: Result<Changes>)
    ensures r.Ok? <==> forall i :: 0 <= i < |commits| ==> commits[i] in diffs
    ensures r.Ok? ==> Unites(diffs, commits, r.value)
    ensures r.Err? ==> r.error.NoChanges? && r.error.commit in commits && r.error.commit !in diffs
  {
    var changed: Changes := map[];
    for i := 0 to |commits|
      invariant forall j :: 0 <= j < i ==> commits[j] in diffs
      invariant Unites(diffs, commits[..i], changed)
    {
      if commits[i] !in diffs {
        return Err(NoChanges(commits[i]));
      }
      UniteOneMore(diffs, commits[..i], commits[i], changed);
      assert commits[..i + 1] == commits[..i] + [commits[i]];
      changed := changed + diffs[commits[i]];
    }
    assert commits[..|commits|] == commits;
    return Ok(changed);
  }

  lemma UniteOneMore(diffs: Diffs, commits: seq<Hash>, c: Hash, files: Changes)
    requires Unites(diffs, commits, files) && c in diffs
    ensures Unites(diffs, commits + [c], files + diffs[c])
  {
    var longer, united := commits + [c], files + diffs[c];
    forall f ensures f in united <==> exists i :: 0 <= i < |longer| && Touches(diffs, longer[i], f) {
      if f in diffs[c] { assert Touches(diffs, longer[|commits|], f); }
      if f in files {
        var i :| 0 <= i < |commits| && Touches(diffs, commits[i], f);
        assert Touches(diffs, longer[i], f);
      }
      if exists i :: 0 <= i < |longer| && Touches(diffs, longer[i], f) {
        var i :| 0 <= i < |longer| && Touches(diffs, longer[i], f);
        assert i < |commits| ==> Touches(diffs, commits[i], f);
      }
    }
    forall f, i | LastTouches(diffs, longer, i, f)
      ensures f in united && united[f] == diffs[longer[i]][f]
    {
      if i < |commits| {
        assert !Touches(diffs, longer[|commits|], f);
        forall j | i < j < |commits| ensures !Touches(diffs, commits[j], f) { assert longer[j] == commits[j]; }
        assert LastTouches(diffs, commits, i, f);
      }
    }
  }

  /** The files that some commit reachable from the branch and not from main touches. */
  ghost predicate FilesTouched(h: History, mains: seq<Ref>, heads: seq<Hash>, head: Hash, diffs: Diffs, files: Changes)
    requires |heads| == |mains|
  {
    forall f :: f in files <==>
      exists c :: Reachable(h, head, c) && !ReachableFromMain(h, mains, heads, c) && Touches(diffs, c, f)
  }

  ghost predicate AllTold(h: History, mains: seq<Ref>, heads: seq<Hash>, head: Hash, diffs: Diffs)
    requires |heads| == |mains|
  {
    forall c :: Reachable(h, head, c) && !ReachableFromMain(h, mains, heads, c) ==> c in diffs
  }

  /** On a main branch the changes of the last commit; on another branch, when the history is linear
      and the logs are whole, those of the commits that main does not have. */
  method GetFilesChangedInCurrentBranch(isMain: bool, last: Option<Hash>, mains: seq<Ref>, branch: Ref, diffs: Diffs)
    returns (r: Result<Changes>)
    ensures isMain && last.None? ==> r == Err(NoReference)
    ensures isMain && last.Some? ==> r == if last.value in diffs then Ok(diffs[last.value]) else Err(NoChanges(last.value))
    ensures !isMain ==> BranchChanges(CommitsInBranch(mains, branch), diffs, r)
    ensures forall h, heads, head ::
      !isMain && branch.Opens? && Linear(h) && Whole(h, mains, heads) && IsLog(h, head, branch.log) ==>
      && (r.Ok? <==> AllTold(h, mains, heads, head, diffs))
      && (r.Ok? ==> FilesTouched(h, mains, heads, head, diffs, r.value))
  {
    var commitHashes := [];
    if isMain {
      if last.None? {
        return Err(NoReference);
      }
      commitHashes := [last.value];
    } else {
      var commits := GetCommitsInBranch(mains, branch);
      if commits.Err? {
        return Err(commits.error);
      }
      commitHashes := commits.value;
    }
    r := UniteChanges(diffs, commitHashes);
    if isMain {
      assert commitHashes[0] == last.value;
      if r.Ok? { UnitesOne(diffs, last.value, r.value); }
    } else {
      forall h, heads, head | branch.Opens? && Linear(h) && Whole(h, mains, heads) && IsLog(h, head, branch.log)
        ensures r.Ok? <==> AllTold(h, mains, heads, head, diffs)
        ensures r.Ok? ==> FilesTouched(h, mains, heads, head, diffs, r.value)
      {
        LinearIsExact(h, mains, heads, head, branch.log);
        if r.Ok? { FilesOfBranch(h, mains, heads, head, branch.log, diffs, r.value); }
      }
    }
  }

  /** A failure of the list of commits, or of one of its commits, or the changes of all of them. */
  ghost predicate BranchChanges(commits: Result<seq<Hash>>, diffs: Diffs, r: Result<Changes>) {
    && (commits.Err? ==> r == Err(commits.error))
    && (commits.Ok? ==> (r.Ok? <==> forall i :: 0 <= i < |commits.value| ==> commits.value[i] in diffs))
    && (commits.Ok? && r.Ok? ==> Unites(diffs, commits.value, r.value))
  }

  lemma UnitesOne(diffs: Diffs, c: Hash, files: Changes)
    requires c in diffs && Unites(diffs, [c], files)
    ensures files == diffs[c]
  {
    forall f ensures f in files <==> f in diffs[c] { assert Touches(diffs, [c][0], f) <==> f in diffs[c]; }
    forall f | f in files ensures files[f] == diffs[c][f] { assert LastTouches(diffs, [c], 0, f); }
  }

  /** The listed files are exactly those that the commits of the branch touch. */
  lemma FilesOfBranch(h: History, mains: seq<Ref>, heads: seq<Hash>, head: Hash, log: Log, diffs: Diffs, files: Changes)
    requires Linear(h) && Whole(h, mains, heads) && IsLog(h, head, log)
    requires Unites(diffs, CommitsInBranch(mains, Opens(log)).value, files)
    ensures FilesTouched(h, mains, heads, head, diffs, files)
  {
    var commits := CommitsInBranch(mains, Opens(log)).value;
    LinearIsExact(h, mains, heads, head, log);
    forall f | f in files
      ensures exists c :: Reachable(h, head, c) && !ReachableFromMain(h, mains, heads, c) && Touches(diffs, c, f)
    {
      var i :| 0 <= i < |commits| && Touches(diffs, commits[i], f);
      assert commits[i] in commits;
    }
    forall c, f | Reachable(h, head, c) && !ReachableFromMain(h, mains, heads, c) && Touches(diffs, c, f) ensures f in files {
      assert c in commits;
    }
  }
}
