/** The charts to build after a change, and their order (ciChart.go). */
module Charts {
  import opened Collections

  /** The charts directly under the charts folder, and the local dependencies of each, as joined
      (hence already clean) paths. */
  datatype Folder = Folder(all: seq<string>, localDeps: map<string, seq<string>>)

  /** Only charts of the folder have dependencies that were read. */
  predicate Read(f: Folder) {
    forall d :: d in f.localDeps ==> d in f.all
  }

  function Deps(f: Folder, dir: string): seq<string> {
    if dir in f.localDeps then f.localDeps[dir] else []
  }

  /** k dependency steps lead from a to b. */
  ghost predicate Leads(f: Folder, a: string, b: string, k: nat)
    decreases k
  {
    if k == 0 then a == b else exists m :: m in Deps(f, a) && Leads(f, m, b, k - 1)
  }

  ghost predicate DependsOn(f: Folder, a: string, b: string) {
    exists k: nat :: Leads(f, a, b, k)
  }

  ghost predicate Cyclic(f: Folder, a: string) {
    exists k: nat :: k > 0 && Leads(f, a, a, k)
  }

  lemma {:induction false} LeadsFurther(f: Folder, a: string, b: string, c: string, j: nat, k: nat)
    requires Leads(f, a, b, j) && Leads(f, b, c, k)
    ensures Leads(f, a, c, j + k)
    decreases j
  {
    if j > 0 {
      var m :| m in Deps(f, a) && Leads(f, m, b, j - 1);
      LeadsFurther(f, m, b, c, j - 1, k);
      assert Leads(f, m, c, j + k - 1);
    }
  }

  lemma OneStep(f: Folder, a: string, b: string)
    requires b in Deps(f, a)
    ensures Leads(f, a, b, 1)
  {
    assert Leads(f, b, b, 0);
  }

  lemma DependsOneMore(f: Folder, a: string, b: string, c: string)
    requires DependsOn(f, a, b) && c in Deps(f, b)
    ensures DependsOn(f, a, c)
  {
    var k: nat :| Leads(f, a, b, k);
    OneStep(f, b, c);
    LeadsFurther(f, a, b, c, k, 1);
  }

  // ----- the selection -----

  /** A chart of the folder with a dependency in the set is in it. */
  predicate Closed(f: Folder, s: set<string>) {
    forall d, e :: d in f.all && e in Deps(f, d) && e in s ==> d in s
  }

  ghost predicate Affected(f: Folder, changed: set<string>, d: string) {
    exists c :: c in changed && DependsOn(f, d, c)
  }

  lemma {:induction false} ClosedHoldsWhatLeadsIn(f: Folder, s: set<string>, a: string, b: string, k: nat)
    requires Read(f) && Closed(f, s) && Leads(f, a, b, k) && b in s
    ensures a in s
    decreases k
  {
    if k > 0 {
      var m :| m in Deps(f, a) && Leads(f, m, b, k - 1);
      ClosedHoldsWhatLeadsIn(f, s, m, b, k - 1);
    }
  }

  /** The affected charts are the least closed set that holds the changed ones. */
  lemma AffectedIsLeast(f: Folder, changed: set<string>, s: set<string>, d: string)
    requires Read(f) && Closed(f, s) && changed <= s && Affected(f, changed, d)
    ensures d in s
  {
    var c :| c in changed && DependsOn(f, d, c);
    var k: nat :| Leads(f, d, c, k);
    ClosedHoldsWhatLeadsIn(f, s, d, c, k);
  }

  lemma AffectedSpreads(f: Folder, changed: set<string>, d: string, e: string)
    requires e in Deps(f, d) && Affected(f, changed, e)
    ensures Affected(f, changed, d)
  {
    var c :| c in changed && DependsOn(f, e, c);
    var k: nat :| Leads(f, e, c, k);
    assert Leads(f, d, c, k + 1);
  }

  lemma ChangedIsAffected(f: Folder, changed: set<string>, d: string)
    requires d in changed
    ensures Affected(f, changed, d)
  {
    assert Leads(f, d, d, 0);
    assert DependsOn(f, d, d);
  }

  ghost predicate OnlyAffected(f: Folder, changed: set<string>, s: set<string>) {
    forall d :: d in s ==> Affected(f, changed, d)
  }

  predicate NothingToAdd(f: Folder, s: set<string>, d: string) {
    d in s || forall e :: e in Deps(f, d) ==> e !in s
  }

  lemma SelectionStaysAffected(f: Folder, changed: set<string>, s: set<string>, d: string)
    requires OnlyAffected(f, changed, s) && exists e :: e in Deps(f, d) && e in s
    ensures OnlyAffected(f, changed, s + {d})
  {
    var e :| e in Deps(f, d) && e in s;
    AffectedSpreads(f, changed, d, e);
  }

  /** A closed set of affected charts that holds the changed ones is all the affected charts. */
  lemma SelectedIsAffected(f: Folder, changed: set<string>, s: set<string>, d: string)
    requires Read(f) && Closed(f, s) && changed <= s && OnlyAffected(f, changed, s)
    ensures d in s <==> Affected(f, changed, d)
  {
    if Affected(f, changed, d) { AffectedIsLeast(f, changed, s, d); }
  }

  // ----- the order -----

  ghost function Elements(s: seq<string>): set<string> {
    set x | x in s
  }

  /** Each chart comes after its selected dependencies, save those that depend on it in turn. */
  ghost predicate DependenciesFirst(f: Folder, selected: set<string>, ordered: seq<string>) {
    forall i, e :: 0 <= i < |ordered| && e in Deps(f, ordered[i]) && e in selected && e !in ordered[..i] ==>
        DependsOn(f, e, ordered[i])
  }

  /** Without cycles that is: after all of them. */
  lemma AcyclicIsInOrder(f: Folder, selected: set<string>, ordered: seq<string>, i: nat, e: string)
    requires DependenciesFirst(f, selected, ordered) && (forall a :: !Cyclic(f, a))
    requires i < |ordered| && e in Deps(f, ordered[i]) && e in selected
    ensures e in ordered[..i]
  {
    if e !in ordered[..i] {
      var k: nat :| Leads(f, e, ordered[i], k);
      OneStep(f, ordered[i], e);
      LeadsFurther(f, ordered[i], e, ordered[i], 1, k);
      assert Cyclic(f, ordered[i]);
    }
  }

  lemma OrderGrows(f: Folder, selected: set<string>, ordered: seq<string>, dir: string)
    requires DependenciesFirst(f, selected, ordered)
    requires forall e :: e in Deps(f, dir) && e in selected ==> e in ordered || DependsOn(f, e, dir)
    ensures DependenciesFirst(f, selected, ordered + [dir])
  {
    forall i, e | 0 <= i < |ordered + [dir]| && e in Deps(f, (ordered + [dir])[i]) && e in selected && e !in (ordered + [dir])[..i]
      ensures DependsOn(f, e, (ordered + [dir])[i])
    {
      if i < |ordered| {
        assert (ordered + [dir])[..i] == ordered[..i];
      } else {
        assert (ordered + [dir])[..i] == ordered;
      }
    }
  }

  // ----- the order of the charts of the folder -----

  /** k dependency steps lead from a to b, by selected charts only. */
  ghost predicate LeadsWithin(f: Folder, selected: set<string>, a: string, b: string, k: nat)
    decreases k
  {
    a in selected && if k == 0 then a == b else exists m :: m in Deps(f, a) && LeadsWithin(f, selected, m, b, k - 1)
  }

  ghost predicate Needs(f: Folder, selected: set<string>, a: string, b: string) {
    exists k: nat :: LeadsWithin(f, selected, a, b, k)
  }

  lemma NeedsItself(f: Folder, selected: set<string>, a: string)
    requires a in selected
    ensures Needs(f, selected, a, a)
  {
    assert LeadsWithin(f, selected, a, a, 0);
  }

  lemma NeedsMore(f: Folder, selected: set<string>, a: string, m: string, b: string)
    requires a in selected && m in Deps(f, a) && Needs(f, selected, m, b)
    ensures Needs(f, selected, a, b)
  {
    var k: nat :| LeadsWithin(f, selected, m, b, k);
    assert LeadsWithin(f, selected, a, b, k + 1);
  }

  /** The list holds the selected dependencies of what it holds. */
  ghost predicate Whole(f: Folder, selected: set<string>, ordered: seq<string>) {
    forall d, e :: d in ordered && e in Deps(f, d) && e in selected ==> e in ordered
  }

  lemma {:induction false} NeededIsThere(f: Folder, selected: set<string>, ordered: seq<string>, a: string, b: string, k: nat)
    requires Whole(f, selected, ordered) && a in ordered && LeadsWithin(f, selected, a, b, k)
    ensures b in ordered
    decreases k
  {
    if k > 0 {
      var m :| m in Deps(f, a) && LeadsWithin(f, selected, m, b, k - 1);
      NeededIsThere(f, selected, ordered, m, b, k - 1);
    }
  }

  /** One of the first n charts of the folder needs d. */
  ghost predicate NeededByFirst(f: Folder, selected: set<string>, n: nat, d: string) {
    exists i :: 0 <= i < n && i < |f.all| && Needs(f, selected, f.all[i], d)
  }

  /** What the first charts of the folder need comes before what only later ones do. */
  ghost predicate FolderOrder(f: Folder, selected: set<string>, ordered: seq<string>) {
    forall p, q, n: nat :: 0 <= p < q < |ordered| && NeededByFirst(f, selected, n, ordered[q]) ==> NeededByFirst(f, selected, n, ordered[p])
  }

  lemma FirstIsElement(s: seq<string>)
    ensures Elements(s) == {} <==> s == []
  {
    if s != [] { assert s[0] in Elements(s); }
  }

  /** What is listed once the first n charts were visited. */
  ghost predicate Listed(f: Folder, selected: set<string>, n: nat, ordered: seq<string>) {
    && Whole(f, selected, ordered)
    && (forall d :: d in ordered ==> NeededByFirst(f, selected, n, d))
    && forall i :: 0 <= i < n && i < |f.all| && f.all[i] in selected ==> f.all[i] in ordered
  }

  /** And the order so far; nothing is listed that is not of the folder, nor what a chart of it depends on. */
  ghost predicate Rounds(f: Folder, selected: set<string>, n: nat, ordered: seq<string>) {
    && Listed(f, selected, n, ordered) && FolderOrder(f, selected, ordered)
    && forall d :: d in ordered ==> d in f.all || Depended(f, d)
  }

  lemma NothingListed(f: Folder, selected: set<string>, ordered: seq<string>)
    requires Elements(ordered) == {}
    ensures Rounds(f, selected, 0, ordered)
  {
    FirstIsElement(ordered);
  }

  lemma AllVisited(f: Folder, selected: set<string>, ordered: seq<string>)
    requires Rounds(f, selected, |f.all|, ordered) && Closed(f, selected) && Elements(ordered) <= selected
    ensures forall d :: d in ordered <==> d in selected && (d in f.all || Depended(f, d))
  {
    forall d | d in ordered ensures d in selected { assert d in Elements(ordered); }
    forall d | d in selected && Depended(f, d) ensures d in ordered {
      var e :| e in f.all && d in Deps(f, e);
      assert e in ordered;
    }
  }

  lemma ListedIsNeeded(f: Folder, selected: set<string>, n: nat, ordered: seq<string>, d: string)
    requires Listed(f, selected, n, ordered)
    ensures d in ordered <==> NeededByFirst(f, selected, n, d)
  {
    if NeededByFirst(f, selected, n, d) {
      var i :| 0 <= i < n && i < |f.all| && Needs(f, selected, f.all[i], d);
      var k: nat :| LeadsWithin(f, selected, f.all[i], d, k);
      NeededIsThere(f, selected, ordered, f.all[i], d, k);
    }
  }

  /** One more chart of the folder is visited. */
  lemma FolderOrderGrows(f: Folder, selected: set<string>, i: nat, ordered: seq<string>, more: seq<string>)
    requires i < |f.all| && Listed(f, selected, i, ordered) && FolderOrder(f, selected, ordered)
    requires NoRepeat(ordered + more) && forall d :: d in more ==> Needs(f, selected, f.all[i], d)
    ensures FolderOrder(f, selected, ordered + more)
  {
    var all := ordered + more;
    forall p, q, n: nat | 0 <= p < q < |all| && NeededByFirst(f, selected, n, all[q]) ensures NeededByFirst(f, selected, n, all[p]) {
      if q >= |ordered| {
        ListedIsNeeded(f, selected, i, ordered, all[q]);
        NotBefore(ordered, more, q - |ordered|);
        assert i < n by { if n <= i { NeededByMore(f, selected, n, i, all[q]); } }
        if p < |ordered| { NeededByMore(f, selected, i, n, all[p]); }
        assert all[p] in ordered || Needs(f, selected, f.all[i], all[p]);
      }
    }
  }

  lemma NotBefore(before: seq<string>, more: seq<string>, j: nat)
    requires NoRepeat(before + more) && j < |more|
    ensures more[j] !in before
  {
    var all := before + more;
    assert all[|before| + j] == more[j];
    assert forall r :: 0 <= r < |before| ==> before[r] == all[r];
  }

  lemma OneMoreListed(f: Folder, selected: set<string>, i: nat, before: seq<string>, more: seq<string>)
    requires i < |f.all| && Listed(f, selected, i, before) && Whole(f, selected, before + more)
    requires forall d :: d in more ==> Needs(f, selected, f.all[i], d)
    requires f.all[i] in selected ==> f.all[i] in before + more
    ensures Listed(f, selected, i + 1, before + more)
  {
    forall d | d in before + more ensures NeededByFirst(f, selected, i + 1, d) {
      if d in before { NeededByMore(f, selected, i, i + 1, d); }
    }
  }

  lemma NeededByMore(f: Folder, selected: set<string>, m: nat, n: nat, d: string)
    requires m <= n
    ensures NeededByFirst(f, selected, m, d) ==> NeededByFirst(f, selected, n, d)
  {
  }

  ghost predicate Depended(f: Folder, n: string) {
    exists d :: d in f.all && n in Deps(f, d)
  }

  /** What the visits have left: done are the charts met, ordered those that are finished. */
  class Visits {
    const folder: Folder
    var selected: set<string>
    var done: set<string>
    var ordered: seq<string>

    constructor (folder: Folder)
      ensures this.folder == folder && selected == {} && done == {} && ordered == []
    {
      this.folder := folder;
      selected, done, ordered := {}, {}, [];
    }

    ghost predicate Valid()
      reads this
    {
      && Read(folder)
      && NoRepeat(ordered)
      && Elements(ordered) <= done <= selected
      && DependenciesFirst(folder, selected, ordered)
      && forall d, e :: d in ordered && e in Deps(folder, d) && e in selected ==> e in done
    }

    /** The charts whose visit has begun and not ended. */
    ghost function Open(): set<string>
      reads this
    {
      done - Elements(ordered)
    }

    /** Passes over the charts until one adds nothing. */
    method Select(changed: set<string>)
      requires Read(folder)
      modifies this`selected
      ensures changed <= selected && Closed(folder, selected)
      ensures OnlyAffected(folder, changed, selected)
    {
      selected := changed;
      forall d | d in changed ensures Affected(folder, changed, d) { ChangedIsAffected(folder, changed, d); }
      var updated := true;
      ghost var world := Elements(folder.all) + changed;
      while updated
        invariant changed <= selected <= world
        invariant OnlyAffected(folder, changed, selected)
        invariant !updated ==> Closed(folder, selected)
        decreases world - selected, updated
      {
        updated := Pass(changed);
      }
    }

    /** One pass; each addition may make room for another, also of a chart already passed. */
    method Pass(ghost changed: set<string>) returns (updated: bool)
      requires OnlyAffected(folder, changed, selected)
      modifies this`selected
      ensures old(selected) <= selected <= old(selected) + Elements(folder.all)
      ensures OnlyAffected(folder, changed, selected)
      ensures updated <==> selected != old(selected)
      ensures !updated ==> Closed(folder, selected)
    {
      updated := false;
      for i := 0 to |folder.all|
        invariant old(selected) <= selected <= old(selected) + Elements(folder.all)
        invariant updated <==> selected != old(selected)
        invariant OnlyAffected(folder, changed, selected)
        invariant !updated ==> forall j :: 0 <= j < i ==> NothingToAdd(folder, selected, folder.all[j])
      {
        var dir := folder.all[i];
        if dir !in selected {
          var found := AnySelected(Deps(folder, dir));
          if found {
            SelectionStaysAffected(folder, changed, selected, dir);
            selected, updated := selected + {dir}, true;
          }
        }
      }
      forall d, e | !updated && d in folder.all && e in Deps(folder, d) && e in selected ensures d in selected {
        var j :| 0 <= j < |folder.all| && folder.all[j] == d;
        assert NothingToAdd(folder, selected, folder.all[j]);
      }
    }

    method AnySelected(deps: seq<string>) returns (found: bool)
      ensures found <==> exists e :: e in deps && e in selected
    {
      for i := 0 to |deps|
        invariant forall e :: e in deps[..i] ==> e !in selected
      {
        if deps[i] in selected {
          return true;
        }
      }
      return false;
    }

    /** Depth first; a chart is listed once the visits of its dependencies are over. */
    method Visit(dir: string)
      requires Valid() && forall d :: d in Open() ==> DependsOn(folder, d, dir)
      modifies this`done, this`ordered
      ensures Valid() && Open() == old(Open())
      ensures old(done) <= done && old(ordered) <= ordered
      ensures dir in selected ==> dir in done
      ensures forall n :: n in done ==> n in old(done) || n == dir || Depended(folder, n)
      ensures forall n :: n in done ==> n in old(done) || Needs(folder, selected, dir, n)
      decreases selected - done
    {
      if dir in done || dir !in selected {
        return;
      }
      done := done + {dir};
      ghost var open := Open();
      var deps := Deps(folder, dir);
      assert DependsOn(folder, dir, dir) by { assert Leads(folder, dir, dir, 0); }
      NeedsItself(folder, selected, dir);
      for i := 0 to |deps|
        invariant Valid() && Open() == open
        invariant old(done) + {dir} <= done && old(ordered) <= ordered
        invariant forall j :: 0 <= j < i && deps[j] in selected ==> deps[j] in done
        invariant forall n :: n in done ==> n in old(done) || n == dir || Depended(folder, n)
        invariant forall n :: n in done ==> n in old(done) || Needs(folder, selected, dir, n)
      {
        forall d | d in open ensures DependsOn(folder, d, deps[i]) { DependsOneMore(folder, d, dir, deps[i]); }
        assert deps[i] in Deps(folder, dir) && dir in folder.all;
        Visit(deps[i]);
        forall n | Needs(folder, selected, deps[i], n) ensures Needs(folder, selected, dir, n) {
          NeedsMore(folder, selected, dir, deps[i], n);
        }
      }
      Finish(dir);
    }

    /** The end of a visit. */
    method Finish(dir: string)
      requires Valid() && dir in Open() && (forall d :: d in Open() ==> DependsOn(folder, d, dir))
      requires forall e :: e in Deps(folder, dir) && e in selected ==> e in done
      modifies this`ordered
      ensures Valid() && ordered == old(ordered) + [dir] && Open() == old(Open()) - {dir}
    {
      forall e | e in Deps(folder, dir) && e in selected ensures e in ordered || DependsOn(folder, e, dir) {
        assert e in ordered || e in Open();
      }
      OrderGrows(folder, selected, ordered, dir);
      assert Elements(ordered + [dir]) == Elements(ordered) + {dir};
      ordered := ordered + [dir];
    }

    /** Visits every chart of the folder. */
    method Order()
      requires Valid() && done == {} && Closed(folder, selected)
      modifies this`done, this`ordered
      ensures Valid()
      ensures forall d :: d in ordered <==> d in selected && (d in folder.all || Depended(folder, d))
      ensures FolderOrder(folder, selected, ordered)
    {
      NothingListed(folder, selected, ordered);
      for i := 0 to |folder.all|
        invariant Valid() && Open() == {} && Rounds(folder, selected, i, ordered)
      {
        VisitNext(i);
      }
      AllVisited(folder, selected, ordered);
    }

    /** One round of the loop. */
    method VisitNext(i: nat)
      requires Valid() && Open() == {} && i < |folder.all| && Rounds(folder, selected, i, ordered)
      modifies this`done, this`ordered
      ensures Valid() && Open() == {} && Rounds(folder, selected, i + 1, ordered)
    {
      ghost var before := ordered;
      DoneIsListed();
      Visit(folder.all[i]);
      DoneIsListed();
      VisitListed(i, before);
    }

    lemma DoneIsListed()
      requires Valid() && Open() == {}
      ensures forall d :: d in done <==> d in ordered
    {
      forall d ensures d in done <==> d in ordered { assert d !in Open(); }
    }

    /** What a visit from outside has listed. */
    lemma VisitListed(i: nat, before: seq<string>)
      requires NoRepeat(ordered) && i < |folder.all| && before <= ordered
      requires Rounds(folder, selected, i, before) && Whole(folder, selected, ordered)
      requires folder.all[i] in selected ==> folder.all[i] in ordered
      requires forall n :: n in ordered ==> n in before || Needs(folder, selected, folder.all[i], n)
      requires forall n :: n in ordered ==> n in before || n == folder.all[i] || Depended(folder, n)
      ensures Rounds(folder, selected, i + 1, ordered)
    {
      var more := ordered[|before|..];
      assert ordered == before + more;
      forall d | d in more ensures Needs(folder, selected, folder.all[i], d) {
        var j :| 0 <= j < |more| && more[j] == d;
        NotBefore(before, more, j);
        assert ordered[|before| + j] == d;
      }
      FolderOrderGrows(folder, selected, i, before, more);
      OneMoreListed(folder, selected, i, before, more);
    }

    /** The charts to build: the affected ones of the folder, and those a chart of the folder depends on. */
    method AddLocalDependents(changed: set<string>)
      requires Read(folder) && done == {} && ordered == []
      modifies this
      ensures NoRepeat(ordered) && DependenciesFirst(folder, selected, ordered)
      ensures forall d :: d in selected <==> Affected(folder, changed, d)
      ensures forall d :: d in ordered <==> d in selected && (d in folder.all || Depended(folder, d))
      ensures FolderOrder(folder, selected, ordered)
    {
      Select(changed);
      forall d ensures d in selected <==> Affected(folder, changed, d) {
        SelectedIsAffected(folder, changed, selected, d);
      }
      Order();
    }
  }

  /** When every changed chart is of the folder, the list holds the selection and nothing else. */
  lemma AllAreListed(f: Folder, changed: set<string>, selected: set<string>, ordered: seq<string>)
    requires Read(f) && OnlyAffected(f, changed, selected) && changed <= Elements(f.all)
    requires forall d :: d in ordered <==> d in selected && (d in f.all || Depended(f, d))
    ensures Elements(ordered) == selected
  {
    forall d | d in selected ensures d in f.all {
      var c :| c in changed && DependsOn(f, d, c);
      var k: nat :| Leads(f, d, c, k);
      if k > 0 {
        var m :| m in Deps(f, d) && Leads(f, m, c, k - 1);
        assert d in f.localDeps;
      }
    }
  }
}
