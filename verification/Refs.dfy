/** Fields that accept a reference (refs.go). */
module Refs {
  import opened Collections
  import opened Json
  import opened Schema
  import opened Walk
  import opened Agreement
  import opened SchemaTypes
  import opened PathWalk
  import opened SchemaNodes

  // ----- which node a path stands for -----

  function Keep(m: Keywords, path: string): Keywords {
    m
  }

  predicate DescribesValue(m: Keywords) {
    TYPE in m || PROPERTIES in m || ADDITIONAL_PROPERTIES in m || ITEMS in m
  }

  /** The nodes found for a path: those of its visits that describe a value. */
  function Found(visits: seq<Keywords>): seq<Keywords>
    decreases |visits|
  {
    if visits == [] then []
    else
      var last := visits[|visits| - 1];
      Found(visits[..|visits| - 1]) + (if DescribesValue(last) then [last] else [])
  }

  lemma {:induction false} KeepKeeps(s: Json, path: string)
    ensures WalkAt(s, path, Keep) == s
    ensures s.Obj? ==> WalkBelowAt(s, path, Keep) == s.m
    decreases s, 1
  {
    if s.Obj? {
      forall k | k in s.m ensures WalkKeywordAt(s, k, path, Keep) == s.m[k] { KeepKeepsBelow(s, k, path); }
      assert WalkBelowAt(s, path, Keep) == s.m;
    }
  }

  lemma {:induction false} KeepKeepsBelow(s: Json, k: Text, path: string)
    requires s.Obj? && k in s.m
    ensures WalkKeywordAt(s, k, path, Keep) == s.m[k]
    decreases s, 0
  {
    var arg := s.m[k];
    if k == PROPERTIES && arg.Obj? {
      forall name | name in arg.m ensures WalkAt(arg.m[name], ChildPath(path, name), Keep) == arg.m[name] {
        KeepKeeps(arg.m[name], ChildPath(path, name));
      }
      assert WalkKeywordAt(s, k, path, Keep).m == arg.m;
    } else if IsSingle(k) {
      KeepKeeps(arg, path);
    } else if IsListing(k) && arg.Arr? {
      forall i | 0 <= i < |arg.a| ensures WalkAt(arg.a[i], path, Keep) == arg.a[i] { KeepKeeps(arg.a[i], path); }
      assert WalkKeywordAt(s, k, path, Keep).a == arg.a;
    }
  }

  lemma {:induction false} FoundConcat(a: seq<Keywords>, b: seq<Keywords>)
    ensures Found(a + b) == Found(a) + Found(b)
    decreases |b|
  {
    if b == [] {
      assert a + b == a;
    } else {
      var last := |b| - 1;
      FoundConcat(a, b[..last]);
      assert (a + b)[..|a + b| - 1] == a + b[..last];
    }
  }

  lemma {:induction false} FoundDescribe(visits: seq<Keywords>, m: Keywords)
    ensures m in Found(visits) <==> m in visits && DescribesValue(m)
    decreases |visits|
  {
    if visits != [] {
      var first, last := visits[..|visits| - 1], visits[|visits| - 1];
      FoundDescribe(first, m);
      assert visits == first + [last];
    }
  }

  ghost function FoundAt(s: Json, path: string, p: string): seq<Keywords> {
    Found(VisitsAt(s, path, Keep, p))
  }

  /** What is found for a path: the nodes of the schema there that describe a value. */
  lemma FoundAreNodes(s: Json, p: string, m: Keywords)
    requires Everywhere(s, Readable)
    ensures m in FoundAt(s, "", p) <==>
      NodeAt(s, "", p, m) && (TYPE in m || PROPERTIES in m || ADDITIONAL_PROPERTIES in m || ITEMS in m)
  {
    FoundDescribe(VisitsAt(s, "", Keep, p), m);
    if m in VisitsAt(s, "", Keep, p) { VisitsAreVisited(s, "", p, m); }
    if Visited(s, "", Keep, p, m) { VisitedIsOrdered(s, "", p, m); }
    VisitedAreTheNodes(s, Keep, p, m);
    forall n ensures BecomesAt(n, p, Keep, m) <==> n == m { KeepKeeps(Obj(n), p); }
  }

  /** What is found below each nesting keyword, in the order of the walk. */
  ghost function Parts(s: Json, path: string, p: string): seq<seq<Keywords>>
    requires s.Obj?
  {
    seq(|NESTING|, i requires 0 <= i < |NESTING| => Found(VisitsBelow(s, NESTING[i], path, Keep, p)))
  }

  ghost function BranchParts(s: Json, k: Text, path: string, p: string): seq<seq<Keywords>>
    requires s.Obj? && k in s.m && s.m[k].Arr?
  {
    seq(|s.m[k].a|, i requires 0 <= i < |s.m[k].a| => FoundAt(s.m[k].a[i], path, p))
  }

  /** What is found at p lies in the node of that path, or comes from one place below each node on
      the way to it: not from a property and the schema of the entries, nor from two branches. */
  ghost predicate OneSource(s: Json, path: string, p: string)
    decreases s, 1
  {
    var one := s.Obj? ==>
      (path == p && DescribesValue(s.m)) || exists i :: OnePart(Parts(s, path, p), i) && OneSourceBelow(s, i, path, p);
    one
  }

  ghost predicate OneSourceBelow(s: Json, i: int, path: string, p: string)
    requires s.Obj?
    decreases s, 0
  {
    var one := 0 <= i < |NESTING| && NESTING[i] in s.m ==>
      var k, arg := NESTING[i], s.m[NESTING[i]];
      if k == PROPERTIES then forall name :: LeadsTo(s, path, name, p) ==> OneSource(arg.m[name], ChildPath(path, name), p)
      else if IsSingle(k) then OneSource(arg, path, p)
      else IsListing(k) && arg.Arr? ==> exists j :: OnePart(BranchParts(s, k, path, p), j) && (0 <= j < |arg.a| ==> OneSource(arg.a[j], path, p));
    one
  }

  // ----- lists in parts -----

  function Flatten<T>(parts: seq<seq<T>>): seq<T>
    decreases |parts|
  {
    if parts == [] then [] else Flatten(parts[..|parts| - 1]) + parts[|parts| - 1]
  }

  /** No part but the i-th has an element. */
  predicate OnePart<T(==)>(parts: seq<seq<T>>, i: int) {
    forall j :: 0 <= j < |parts| && j != i ==> parts[j] == []
  }

  lemma {:induction false} FlattenOne<T>(parts: seq<seq<T>>, i: int)
    requires OnePart(parts, i)
    ensures Flatten(parts) == if 0 <= i < |parts| then parts[i] else []
    decreases |parts|
  {
    if parts != [] { FlattenOne(parts[..|parts| - 1], i); }
  }

  lemma {:induction false} FlattenHas<T>(parts: seq<seq<T>>, i: nat, x: T)
    requires i < |parts| && x in parts[i]
    ensures x in Flatten(parts)
    decreases |parts|
  {
    if i < |parts| - 1 { FlattenHas(parts[..|parts| - 1], i, x); }
  }

  lemma {:induction false} LastPart<T>(parts: seq<seq<T>>) returns (i: nat)
    requires Flatten(parts) != []
    ensures i < |parts| && parts[i] != [] && Last(Flatten(parts)) == Last(parts[i])
    decreases |parts|
  {
    i := |parts| - 1;
    if parts[i] == [] { i := LastPart(parts[..i]); }
  }

  function Last<T>(s: seq<T>): T
    requires s != []
  {
    s[|s| - 1]
  }

  /** A list without repetition has no element in two parts. */
  lemma {:induction false} InOnePart<T>(parts: seq<seq<T>>, i: nat, j: nat, x: T)
    requires NoRepeat(Flatten(parts)) && i < j < |parts| && x in parts[i]
    ensures x !in parts[j]
    decreases |parts|
  {
    var last := |parts| - 1;
    var before := Flatten(parts[..last]);
    assert Flatten(parts)[..|before|] == before;
    if j < last {
      forall a, b | 0 <= a < b < |before| ensures before[a] != before[b] { assert Flatten(parts)[a] == before[a] && Flatten(parts)[b] == before[b]; }
      InOnePart(parts[..last], i, j, x);
    } else {
      FlattenHas(parts[..last], i, x);
      var a :| 0 <= a < |before| && before[a] == x;
      forall b | 0 <= b < |parts[j]| ensures parts[j][b] != x { assert Flatten(parts)[a] != Flatten(parts)[|before| + b]; }
    }
  }

  // ----- the visits are those of the visited nodes -----

  /** The order of the visits is one of the visited nodes. */
  lemma {:induction false} VisitsAreVisited(s: Json, path: string, p: string, m: Keywords)
    requires m in VisitsAt(s, path, Keep, p)
    ensures Visited(s, path, Keep, p, m)
    decreases s, 3
  {
    if m in VisitsUpTo(s, |NESTING|, path, Keep, p) { VisitsUpToAreVisited(s, |NESTING|, path, p, m); }
  }

  lemma {:induction false} VisitsUpToAreVisited(s: Json, n: nat, path: string, p: string, m: Keywords)
    requires s.Obj? && n <= |NESTING| && m in VisitsUpTo(s, n, path, Keep, p)
    ensures exists k :: k in s.m && VisitedBelow(s, k, path, Keep, p, m)
    decreases s, 2, n
  {
    var k := NESTING[n - 1];
    if m in VisitsUpTo(s, n - 1, path, Keep, p) {
      VisitsUpToAreVisited(s, n - 1, path, p, m);
    } else {
      assert m in VisitsBelow(s, k, path, Keep, p);
      VisitsBelowAreVisited(s, k, path, p, m);
    }
  }

  lemma {:induction false} VisitsBelowAreVisited(s: Json, k: Text, path: string, p: string, m: Keywords)
    requires s.Obj? && m in VisitsBelow(s, k, path, Keep, p)
    ensures k in s.m && VisitedBelow(s, k, path, Keep, p, m)
    decreases s, 1
  {
    if k == PROPERTIES {
      var name :| LeadsTo(s, path, name, p) && m in VisitsAt(s.m[k].m[name], ChildPath(path, name), Keep, p);
      VisitsAreVisited(s.m[k].m[name], ChildPath(path, name), p, m);
    } else if IsSingle(k) {
      VisitsAreVisited(s.m[k], path, p, m);
    } else {
      ItemsAreVisited(s, k, |s.m[k].a|, path, p, m);
    }
  }

  lemma {:induction false} ItemsAreVisited(s: Json, k: Text, n: nat, path: string, p: string, m: Keywords)
    requires s.Obj? && k in s.m && s.m[k].Arr? && n <= |s.m[k].a| && m in VisitsOfItems(s, k, n, path, Keep, p)
    ensures exists i :: 0 <= i < n && Visited(s.m[k].a[i], path, Keep, p, m)
    decreases s, 0, n
  {
    if m in VisitsAt(s.m[k].a[n - 1], path, Keep, p) {
      VisitsAreVisited(s.m[k].a[n - 1], path, p, m);
    } else {
      ItemsAreVisited(s, k, n - 1, path, p, m);
    }
  }

  lemma {:induction false} VisitsAreOrdered(s: Json, n: nat, i: nat, path: string, p: string, m: Keywords)
    requires s.Obj? && i < n <= |NESTING| && m in VisitsBelow(s, NESTING[i], path, Keep, p)
    ensures m in VisitsUpTo(s, n, path, Keep, p)
    decreases n
  {
    if i < n - 1 { VisitsAreOrdered(s, n - 1, i, path, p, m); }
  }

  /** Each visited node has a place in the order of the visits. */
  lemma {:induction false} VisitedIsOrdered(s: Json, path: string, p: string, m: Keywords)
    requires Everywhere(s, Readable) && Visited(s, path, Keep, p, m)
    ensures m in VisitsAt(s, path, Keep, p)
    decreases s, 2
  {
    if !(path == p && m == WalkBelowAt(s, path, Keep)) {
      var k :| k in s.m && VisitedBelow(s, k, path, Keep, p, m);
      NestingIsListed(k);
      assert EverywhereBelow(s, k, Readable);
      VisitedBelowIsOrdered(s, k, path, p, m);
      var i :| 0 <= i < |NESTING| && NESTING[i] == k;
      VisitsAreOrdered(s, |NESTING|, i, path, p, m);
    }
  }

  lemma {:induction false} VisitedBelowIsOrdered(s: Json, k: Text, path: string, p: string, m: Keywords)
    requires s.Obj? && k in s.m && Everywhere(s, Readable) && EverywhereBelow(s, k, Readable) && VisitedBelow(s, k, path, Keep, p, m)
    ensures m in VisitsBelow(s, k, path, Keep, p)
    decreases s, 1
  {
    var arg := s.m[k];
    if k == PROPERTIES {
      var name :| name in arg.m && Visited(arg.m[name], ChildPath(path, name), Keep, p, m);
      VisitedIsOrdered(arg.m[name], ChildPath(path, name), p, m);
      OneProperty(s, path, Keep, name, p);
    } else if IsSingle(k) {
      VisitedIsOrdered(arg, path, p, m);
    } else {
      var i :| 0 <= i < |arg.a| && Visited(arg.a[i], path, Keep, p, m);
      VisitedIsOrdered(arg.a[i], path, p, m);
      ItemIsOrdered(s, k, |arg.a|, i, path, p, m);
    }
  }

  lemma {:induction false} ItemIsOrdered(s: Json, k: Text, n: nat, i: nat, path: string, p: string, m: Keywords)
    requires s.Obj? && k in s.m && s.m[k].Arr? && i < n <= |s.m[k].a| && m in VisitsAt(s.m[k].a[i], path, Keep, p)
    ensures m in VisitsOfItems(s, k, n, path, Keep, p)
    decreases n
  {
    if i < n - 1 { ItemIsOrdered(s, k, n - 1, i, path, p, m); }
  }

  /** A node visited at p in the walk from a node visited at p is one itself. */
  lemma {:induction false} VisitedWithin(s: Json, path: string, p: string, outer: Keywords, m: Keywords)
    requires Visited(s, path, Keep, p, outer) && Visited(Obj(outer), p, Keep, p, m)
    ensures Visited(s, path, Keep, p, m)
    decreases s, 1
  {
    KeepKeeps(s, path);
    if !(path == p && outer == s.m) {
      var k :| k in s.m && VisitedBelow(s, k, path, Keep, p, outer);
      VisitedWithinBelow(s, k, path, p, outer, m);
    }
  }

  lemma {:induction false} VisitedWithinBelow(s: Json, k: Text, path: string, p: string, outer: Keywords, m: Keywords)
    requires s.Obj? && k in s.m && VisitedBelow(s, k, path, Keep, p, outer) && Visited(Obj(outer), p, Keep, p, m)
    ensures VisitedBelow(s, k, path, Keep, p, m)
    decreases s, 0
  {
    var arg := s.m[k];
    if k == PROPERTIES {
      var name :| name in arg.m && Visited(arg.m[name], ChildPath(path, name), Keep, p, outer);
      VisitedWithin(arg.m[name], ChildPath(path, name), p, outer, m);
    } else if IsSingle(k) {
      VisitedWithin(arg, path, p, outer, m);
    } else {
      var i :| 0 <= i < |arg.a| && Visited(arg.a[i], path, Keep, p, outer);
      VisitedWithin(arg.a[i], path, p, outer, m);
    }
  }

  // ----- the last node found -----

  /** All of nodes are visited, at p, in the walk from the last of them. */
  ghost predicate LastHoldsAll(nodes: seq<Keywords>, p: string) {
    nodes != [] ==> forall m :: m in nodes ==> Visited(Obj(Last(nodes)), p, Keep, p, m)
  }

  lemma {:induction false} FoundInParts(s: Json, n: nat, path: string, p: string)
    requires s.Obj? && n <= |NESTING|
    ensures Found(VisitsUpTo(s, n, path, Keep, p)) == Flatten(Parts(s, path, p)[..n])
    decreases n
  {
    if n > 0 {
      FoundInParts(s, n - 1, path, p);
      FoundConcat(VisitsUpTo(s, n - 1, path, Keep, p), VisitsBelow(s, NESTING[n - 1], path, Keep, p));
      assert Parts(s, path, p)[..n][..n - 1] == Parts(s, path, p)[..n - 1];
    }
  }

  lemma {:induction false} FoundInBranches(s: Json, k: Text, n: nat, path: string, p: string)
    requires s.Obj? && k in s.m && s.m[k].Arr? && n <= |s.m[k].a|
    ensures Found(VisitsOfItems(s, k, n, path, Keep, p)) == Flatten(BranchParts(s, k, path, p)[..n])
    decreases n
  {
    if n > 0 {
      FoundInBranches(s, k, n - 1, path, p);
      FoundConcat(VisitsOfItems(s, k, n - 1, path, Keep, p), VisitsAt(s.m[k].a[n - 1], path, Keep, p));
      assert BranchParts(s, k, path, p)[..n][..n - 1] == BranchParts(s, k, path, p)[..n - 1];
    }
  }

  /** What is found at a node that is not found itself. */
  lemma FoundBelow(s: Json, path: string, p: string)
    requires s.Obj? && !(path == p && DescribesValue(s.m))
    ensures FoundAt(s, path, p) == Flatten(Parts(s, path, p))
  {
    var below := VisitsUpTo(s, |NESTING|, path, Keep, p);
    KeepKeeps(s, path);
    FoundInParts(s, |NESTING|, path, p);
    assert Parts(s, path, p)[..|NESTING|] == Parts(s, path, p);
    FoundConcat(below, if path == p then [s.m] else []);
    assert Found([s.m]) == Found([s.m][..0]) + if DescribesValue(s.m) then [s.m] else [];
    assert below + [] == below;
  }

  lemma FoundHere(s: Json, p: string)
    requires s.Obj? && DescribesValue(s.m)
    ensures LastHoldsAll(FoundAt(s, p, p), p)
  {
    var below := VisitsUpTo(s, |NESTING|, p, Keep, p);
    KeepKeeps(s, p);
    assert VisitsAt(s, p, Keep, p) == below + [s.m];
    assert (below + [s.m])[..|below|] == below;
    forall m | m in FoundAt(s, p, p) ensures Visited(s, p, Keep, p, m) {
      FoundDescribe(VisitsAt(s, p, Keep, p), m);
      VisitsAreVisited(s, p, p, m);
    }
  }

  /** The last node found for a path is the outermost, each of the others lies in it: where a path has one source. */
  lemma {:induction false} OneSourceHasOutermost(s: Json, path: string, p: string)
    requires Everywhere(s, Readable) && OneSource(s, path, p)
    ensures LastHoldsAll(FoundAt(s, path, p), p)
    decreases s, 3
  {
    if s.Obj? {
      if path == p && DescribesValue(s.m) {
        FoundHere(s, p);
      } else {
        var i :| OnePart(Parts(s, path, p), i) && OneSourceBelow(s, i, path, p);
        FoundBelow(s, path, p);
        FlattenOne(Parts(s, path, p), i);
        if 0 <= i < |NESTING| { PartHasOutermost(s, i, path, p); }
      }
    }
  }

  lemma {:induction false} PartHasOutermost(s: Json, i: nat, path: string, p: string)
    requires s.Obj? && Everywhere(s, Readable) && i < |NESTING| && OneSourceBelow(s, i, path, p)
    ensures LastHoldsAll(Parts(s, path, p)[i], p)
    decreases s, 2
  {
    var k := NESTING[i];
    if k in s.m {
      var arg := s.m[k];
      assert EverywhereBelow(s, k, Readable);
      if k == PROPERTIES && arg.Obj? {
        if name :| LeadsTo(s, path, name, p) {
          OneProperty(s, path, Keep, name, p);
          OneSourceHasOutermost(arg.m[name], ChildPath(path, name), p);
        }
      } else if IsSingle(k) && arg.Obj? {
        OneSourceHasOutermost(arg, path, p);
      } else if IsListing(k) && arg.Arr? {
        var parts := BranchParts(s, k, path, p);
        var j :| OnePart(parts, j) && (0 <= j < |arg.a| ==> OneSource(arg.a[j], path, p));
        FoundInBranches(s, k, |arg.a|, path, p);
        assert parts[..|arg.a|] == parts;
        FlattenOne(parts, j);
        if 0 <= j < |arg.a| { OneSourceHasOutermost(arg.a[j], path, p); }
      }
    }
  }

  /** Where the last holds all, and none is found twice, all come from one part. */
  lemma OutermostIsInOnePart(s: Json, i: nat, path: string, p: string)
    requires s.Obj? && Everywhere(s, Readable) && i < |NESTING|
    requires var found := Flatten(Parts(s, path, p)); NoRepeat(found) && LastHoldsAll(found, p) && found != []
    requires var found := Flatten(Parts(s, path, p)); Parts(s, path, p)[i] != [] && Last(found) == Last(Parts(s, path, p)[i])
    ensures OnePart(Parts(s, path, p), i)
  {
    var parts := Parts(s, path, p);
    forall j | 0 <= j < |parts| && j != i ensures parts[j] == [] {
      if parts[j] != [] {
        var m := parts[j][0];
        FlattenHas(parts, j, m);
        FoundDescribe(VisitsBelow(s, NESTING[j], path, Keep, p), m);
        FoundDescribe(VisitsBelow(s, NESTING[i], path, Keep, p), Last(parts[i]));
        VisitsBelowAreVisited(s, NESTING[i], path, p, Last(parts[i]));
        VisitedWithinBelow(s, NESTING[i], path, p, Last(parts[i]), m);
        assert EverywhereBelow(s, NESTING[i], Readable);
        VisitedBelowIsOrdered(s, NESTING[i], path, p, m);
        FoundDescribe(VisitsBelow(s, NESTING[i], path, Keep, p), m);
        if i < j { InOnePart(parts, i, j, m); } else { InOnePart(parts, j, i, m); }
      }
    }
  }

  lemma OutermostIsInOneBranch(s: Json, k: Text, i: nat, path: string, p: string)
    requires s.Obj? && k in s.m && s.m[k].Arr? && IsListing(k) && EverywhereBelow(s, k, Readable) && i < |s.m[k].a|
    requires var found := Flatten(BranchParts(s, k, path, p)); NoRepeat(found) && LastHoldsAll(found, p) && found != []
    requires var found := Flatten(BranchParts(s, k, path, p)); BranchParts(s, k, path, p)[i] != [] && Last(found) == Last(BranchParts(s, k, path, p)[i])
    ensures OnePart(BranchParts(s, k, path, p), i)
  {
    var parts, branch := BranchParts(s, k, path, p), s.m[k].a[i];
    forall j | 0 <= j < |parts| && j != i ensures parts[j] == [] {
      if parts[j] != [] {
        var m := parts[j][0];
        FlattenHas(parts, j, m);
        FoundDescribe(VisitsAt(s.m[k].a[j], path, Keep, p), m);
        FoundDescribe(VisitsAt(branch, path, Keep, p), Last(parts[i]));
        VisitsAreVisited(branch, path, p, Last(parts[i]));
        VisitedWithin(branch, path, p, Last(parts[i]), m);
        VisitedIsOrdered(branch, path, p, m);
        FoundDescribe(VisitsAt(branch, path, Keep, p), m);
        if i < j { InOnePart(parts, i, j, m); } else { InOnePart(parts, j, i, m); }
      }
    }
  }

  lemma {:induction false} OutermostHasOneSource(s: Json, path: string, p: string)
    requires Everywhere(s, Readable) && NoRepeat(FoundAt(s, path, p)) && LastHoldsAll(FoundAt(s, path, p), p)
    ensures OneSource(s, path, p)
    decreases s, 2
  {
    if s.Obj? && !(path == p && DescribesValue(s.m)) {
      var parts := Parts(s, path, p);
      FoundBelow(s, path, p);
      var i: nat := 0;
      if Flatten(parts) == [] {
        forall j | 0 <= j < |parts| ensures parts[j] == [] { if parts[j] != [] { FlattenHas(parts, j, parts[j][0]); } }
      } else {
        i := LastPart(parts);
        OutermostIsInOnePart(s, i, path, p);
      }
      FlattenOne(parts, i);
      PartHasOneSource(s, i, path, p);
      assert OnePart(parts, i) && OneSourceBelow(s, i, path, p);
    }
  }

  lemma {:induction false} PartHasOneSource(s: Json, i: nat, path: string, p: string)
    requires s.Obj? && Everywhere(s, Readable) && i < |NESTING|
    requires NoRepeat(Parts(s, path, p)[i]) && LastHoldsAll(Parts(s, path, p)[i], p)
    ensures OneSourceBelow(s, i, path, p)
    decreases s, 1
  {
    var k := NESTING[i];
    if k in s.m {
      var arg := s.m[k];
      assert EverywhereBelow(s, k, Readable);
      if k == PROPERTIES {
        forall name | LeadsTo(s, path, name, p) ensures OneSource(arg.m[name], ChildPath(path, name), p) {
          OneProperty(s, path, Keep, name, p);
          OutermostHasOneSource(arg.m[name], ChildPath(path, name), p);
        }
      } else if IsSingle(k) {
        if arg.Obj? { OutermostHasOneSource(arg, path, p); }
      } else if IsListing(k) && arg.Arr? {
        BranchHasOneSource(s, k, path, p);
      }
    }
  }

  lemma {:induction false} BranchHasOneSource(s: Json, k: Text, path: string, p: string)
    requires s.Obj? && k in s.m && s.m[k].Arr? && IsListing(k) && EverywhereBelow(s, k, Readable)
    requires var found := Found(VisitsBelow(s, k, path, Keep, p)); NoRepeat(found) && LastHoldsAll(found, p)
    ensures exists j :: OnePart(BranchParts(s, k, path, p), j) && (0 <= j < |s.m[k].a| ==> OneSource(s.m[k].a[j], path, p))
    decreases s, 0
  {
    var parts := BranchParts(s, k, path, p);
    FoundInBranches(s, k, |parts|, path, p);
    assert parts[..|parts|] == parts;
    var j := -1;
    if Flatten(parts) == [] {
      forall i | 0 <= i < |parts| ensures parts[i] == [] { if parts[i] != [] { FlattenHas(parts, i, parts[i][0]); } }
    } else {
      j := LastPart(parts);
      OutermostIsInOneBranch(s, k, j, path, p);
      FlattenOne(parts, j);
      OutermostHasOneSource(s.m[k].a[j], path, p);
    }
    assert OnePart(parts, j) && (0 <= j < |s.m[k].a| ==> OneSource(s.m[k].a[j], path, p));
  }

  /** The last node found for a path holds all the others exactly when the path has one source. */
  lemma LastFoundIsOutermost(s: Json, p: string)
    requires Everywhere(s, Readable) && NoRepeat(FoundAt(s, "", p))
    ensures LastHoldsAll(FoundAt(s, "", p), p) <==> OneSource(s, "", p)
  {
    if OneSource(s, "", p) { OneSourceHasOutermost(s, "", p); }
    if LastHoldsAll(FoundAt(s, "", p), p) { OutermostHasOneSource(s, "", p); }
  }

  // ----- schemas of one source -----

  predicate Holds(m: Keywords, k: Text) {
    k in m && m[k].Obj?
  }

  /** No combinators, and the entries of one kind. */
  predicate OneWay(m: Keywords) {
    && (forall k :: IsListing(k) && k in m ==> !m[k].Arr?)
    && (Holds(m, PROPERTIES) ==> !Holds(m, ADDITIONAL_PROPERTIES) && !Holds(m, ITEMS))
    && (Holds(m, ADDITIONAL_PROPERTIES) ==> !Holds(m, ITEMS))
  }

  lemma NestingApart(i: nat, j: nat)
    requires i < |NESTING| && j < |NESTING| && i != j
    ensures NESTING[i] != NESTING[j]
  {
    assert NESTING[0] == PROPERTIES && NESTING[1] == ADDITIONAL_PROPERTIES && NESTING[2] == ITEMS;
    assert NESTING[3] == ONE_OF && NESTING[4] == ANY_OF && NESTING[5] == ALL_OF;
  }

  /** Where the entries of each node are of one kind, each path has one source. */
  lemma {:induction false} OneWayHasOneSource(s: Json, path: string, p: string)
    requires Everywhere(s, OneWay)
    ensures OneSource(s, path, p)
    decreases s
  {
    if s.Obj? {
      var i := if Holds(s.m, PROPERTIES) then 0 else if Holds(s.m, ADDITIONAL_PROPERTIES) then 1 else 2;
      var k := NESTING[i];
      assert NESTING[0] == PROPERTIES && NESTING[1] == ADDITIONAL_PROPERTIES && NESTING[2] == ITEMS;
      assert k in s.m ==> EverywhereBelow(s, k, OneWay);
      forall j | 0 <= j < |NESTING| && j != i ensures Parts(s, path, p)[j] == [] {
        NestingIsListed(NESTING[j]);
        NestingApart(i, j);
        assert VisitsBelow(s, NESTING[j], path, Keep, p) == [];
      }
      if k == PROPERTIES {
        forall name | LeadsTo(s, path, name, p) ensures OneSource(s.m[k].m[name], ChildPath(path, name), p) {
          OneWayHasOneSource(s.m[k].m[name], ChildPath(path, name), p);
        }
      } else if k in s.m {
        OneWayHasOneSource(s.m[k], path, p);
      }
      assert OnePart(Parts(s, path, p), i) && OneSourceBelow(s, i, path, p);
    }
  }

  /** A property and the entries may share a path: of the two nodes found there, none holds the other. */
  lemma SharedPathHasNoOutermost()
    ensures var text, texts := Only(TYPE, Str(STRING)), Only(TYPE, Str(OBJECT));
      var s := Obj(map[PROPERTIES := Only(NAME, text), ADDITIONAL_PROPERTIES := Only(PROPERTIES, Only(NAME, texts))]);
      FoundAt(s, "", "name") == [text.m, texts.m] && !LastHoldsAll(FoundAt(s, "", "name"), "name")
  {
    var text, texts := Only(TYPE, Str(STRING)), Only(TYPE, Str(OBJECT));
    var entry := Only(PROPERTIES, Only(NAME, texts));
    var s := Obj(map[PROPERTIES := Only(NAME, text), ADDITIONAL_PROPERTIES := entry]);
    FoundAtOneName(entry, texts.m);
    TwoFound(s, text.m, entry, texts.m);
    LeafHoldsItself(texts.m, text.m);
  }

  lemma FoundAtLeaf(s: Json, p: string)
    requires s.Obj? && DescribesValue(s.m) && s.m.Keys == {TYPE}
    ensures FoundAt(s, p, p) == [s.m]
  {
    KeepKeeps(s, p);
    NoVisitsBelow(s, |NESTING|, p, p);
    assert [s.m][..0] == [] && [] + [s.m] == [s.m];
    assert Found([s.m]) == Found([s.m][..0]) + [s.m];
  }

  lemma {:induction false} NoVisitsBelow(s: Json, n: nat, path: string, p: string)
    requires s.Obj? && n <= |NESTING| && s.m.Keys == {TYPE}
    ensures VisitsUpTo(s, n, path, Keep, p) == []
    decreases n
  {
    if n > 0 {
      NoVisitsBelow(s, n - 1, path, p);
      NestingIsListed(NESTING[n - 1]);
    }
  }

  lemma OnlyNameLeads(s: Json, inner: Keywords)
    requires s.Obj? && PROPERTIES in s.m && s.m[PROPERTIES] == Only(NAME, Obj(inner))
    ensures VisitsBelow(s, PROPERTIES, "", Keep, "name") == VisitsAt(Obj(inner), "name", Keep, "name")
  {
    assert ChildPath("", NAME) == Spell(NAME) == "name";
    assert LeadsTo(s, "", NAME, "name");
  }

  lemma FoundAtOneName(s: Json, inner: Keywords)
    requires s == Only(PROPERTIES, Only(NAME, Obj(inner))) && inner.Keys == {TYPE}
    ensures FoundAt(s, "", "name") == [inner]
  {
    FoundBelow(s, "", "name");
    OnlyNameLeads(s, inner);
    FoundAtLeaf(Obj(inner), "name");
    assert NESTING[0] == PROPERTIES;
    forall j | 0 < j < |NESTING| ensures Parts(s, "", "name")[j] == [] { NestingApart(0, j); }
    FlattenOne(Parts(s, "", "name"), 0);
  }

  lemma TwoFound(s: Json, inner: Keywords, entry: Json, other: Keywords)
    requires s.Obj? && s.m.Keys == {PROPERTIES, ADDITIONAL_PROPERTIES} && s.m[PROPERTIES] == Only(NAME, Obj(inner))
    requires s.m[ADDITIONAL_PROPERTIES] == entry && inner.Keys == {TYPE} && entry.Obj? && FoundAt(entry, "", "name") == [other]
    ensures FoundAt(s, "", "name") == [inner, other]
  {
    var parts := Parts(s, "", "name");
    FoundBelow(s, "", "name");
    FoundAtLeaf(Obj(inner), "name");
    OnlyNameLeads(s, inner);
    EntryPart(s, entry);
    forall j | 1 < j < |NESTING| ensures parts[j] == [] { NoOtherPart(s, j); }
    assert NESTING[0] == PROPERTIES;
    FlattenTwo(parts, [inner], [other]);
  }

  lemma EntryPart(s: Json, entry: Json)
    requires s.Obj? && ADDITIONAL_PROPERTIES in s.m && s.m[ADDITIONAL_PROPERTIES] == entry && entry.Obj?
    ensures Parts(s, "", "name")[1] == FoundAt(entry, "", "name")
  {
    assert NESTING[1] == ADDITIONAL_PROPERTIES;
  }

  lemma NoOtherPart(s: Json, j: nat)
    requires s.Obj? && s.m.Keys == {PROPERTIES, ADDITIONAL_PROPERTIES} && 1 < j < |NESTING|
    ensures Parts(s, "", "name")[j] == []
  {
    assert NESTING[0] == PROPERTIES && NESTING[1] == ADDITIONAL_PROPERTIES;
    NestingApart(0, j);
    NestingApart(1, j);
  }

  lemma {:induction false} FlattenTwo<T>(parts: seq<seq<T>>, a: seq<T>, b: seq<T>)
    requires |parts| >= 2 && parts[0] == a && parts[1] == b && forall j :: 1 < j < |parts| ==> parts[j] == []
    ensures Flatten(parts) == a + b
    decreases |parts|
  {
    if |parts| == 2 {
      FlattenOne(parts[..1], 0);
    } else {
      FlattenTwo(parts[..|parts| - 1], a, b);
    }
  }

  lemma LeafHoldsItself(outer: Keywords, m: Keywords)
    requires outer.Keys == {TYPE} && m != outer
    ensures !Visited(Obj(outer), "name", Keep, "name", m)
    ensures !LastHoldsAll([m, outer], "name")
  {
    KeepKeeps(Obj(outer), "name");
    assert !VisitedBelow(Obj(outer), TYPE, "name", Keep, "name", m);
    assert m in [m, outer] && Last([m, outer]) == outer;
  }

  // ----- what a relaxed node accepts -----

  const REF_PATTERN := Other("^ref:.+$")
  const REF_NODE := Obj(map[TYPE := Str(STRING), PATTERN := Str(REF_PATTERN)])

  predicate IsRef(o: Oracle, v: Json) {
    v.Str? && o.matches(REF_PATTERN, v.t)
  }

  /** A reference, or what the schema accepts. */
  function OrRef(s: Json): Json {
    Only(ANY_OF, Arr([REF_NODE, s]))
  }

  function RelaxNode(m: Keywords): Keywords {
    (if DESCRIPTION in m then map[DESCRIPTION := m[DESCRIPTION]] else map[])[ANY_OF := Arr([REF_NODE, Obj(m)])]
  }

  function RelaxObject(m: Keywords): Keywords {
    if ITEMS in m && m[ITEMS].Obj? && TypeIncludes(m, ARRAY) then m[ITEMS := OrRef(m[ITEMS])]
    else if ADDITIONAL_PROPERTIES in m && m[ADDITIONAL_PROPERTIES].Obj? then
      m[TYPE := Arr([Str(OBJECT), Str(ARRAY)])][ITEMS := REF_NODE][ADDITIONAL_PROPERTIES := OrRef(m[ADDITIONAL_PROPERTIES])]
    else RelaxNode(m)
  }

  /** An array of one schema for its items. */
  predicate KeepsArray(m: Keywords) {
    && ITEMS in m && m[ITEMS].Obj?
    && TYPE in m && (m[TYPE].Str? || m[TYPE].Arr?) && TypeOk(m[TYPE], Arr([]))
  }

  predicate MapsEntries(m: Keywords) {
    ADDITIONAL_PROPERTIES in m && m[ADDITIONAL_PROPERTIES].Obj?
  }

  lemma KeepsArrayIs(m: Keywords)
    ensures KeepsArray(m) <==> ITEMS in m && m[ITEMS].Obj? && TypeIncludes(m, ARRAY)
  {
    if TYPE in m && m[TYPE].Arr? && TypeIncludes(m, ARRAY) {
      var i :| 0 <= i < |m[TYPE].a| && m[TYPE].a[i] == Str(ARRAY);
    }
  }

  method Relax(node: GoMap)
    modifies node
    ensures node.kw == RelaxNode(old(node.kw))
    ensures node.kw.Keys == {ANY_OF} + (if DESCRIPTION in old(node.kw) then {DESCRIPTION} else {})
    ensures node.kw[ANY_OF] == Arr([Obj(map[TYPE := Str(STRING), PATTERN := Str(REF_PATTERN)]), Obj(old(node.kw))])
    ensures DESCRIPTION in old(node.kw) ==> node.kw[DESCRIPTION] == old(node.kw)[DESCRIPTION]
  {
    var original := node.kw;
    node.kw := map[];
    if DESCRIPTION in original {
      node.kw := node.kw[DESCRIPTION := original[DESCRIPTION]];
    }
    node.kw := node.kw[ANY_OF := Arr([REF_NODE, Obj(original)])];
  }

  method RelaxObjectNode(node: GoMap)
    modifies node
    ensures node.kw == RelaxObject(old(node.kw))
    ensures KeepsArray(old(node.kw)) ==>
      node.kw == old(node.kw)[ITEMS := Only(ANY_OF, Arr([REF_NODE, old(node.kw)[ITEMS]]))]
    ensures !KeepsArray(old(node.kw)) && MapsEntries(old(node.kw)) ==>
      && node.kw.Keys == old(node.kw).Keys + {TYPE, ITEMS}
      && (forall k :: k in old(node.kw) && k !in {TYPE, ITEMS, ADDITIONAL_PROPERTIES} ==> node.kw[k] == old(node.kw)[k])
      && node.kw[TYPE] == Arr([Str(OBJECT), Str(ARRAY)]) && node.kw[ITEMS] == REF_NODE
      && node.kw[ADDITIONAL_PROPERTIES] == Only(ANY_OF, Arr([REF_NODE, old(node.kw)[ADDITIONAL_PROPERTIES]]))
    ensures !KeepsArray(old(node.kw)) && !MapsEntries(old(node.kw)) ==> node.kw == RelaxNode(old(node.kw))
  {
    KeepsArrayIs(node.kw);
    var isArray := SchemaTypeIncludes(node.kw, ARRAY);
    if ITEMS in node.kw && node.kw[ITEMS].Obj? && isArray {
      node.kw := node.kw[ITEMS := OrRef(node.kw[ITEMS])];
      return;
    }
    if ADDITIONAL_PROPERTIES !in node.kw || !node.kw[ADDITIONAL_PROPERTIES].Obj? {
      Relax(node);
      return;
    }
    var entry := node.kw[ADDITIONAL_PROPERTIES];
    node.kw := node.kw[TYPE := Arr([Str(OBJECT), Str(ARRAY)])];
    node.kw := node.kw[ITEMS := REF_NODE];
    node.kw := node.kw[ADDITIONAL_PROPERTIES := OrRef(entry)];
  }

  lemma RefNodeAccepts(o: Oracle, v: Json)
    ensures Valid(o, REF_NODE, v) <==> IsRef(o, v)
  {
    assert KeywordOk(o, REF_NODE, TYPE, v) <==> v.Str?;
    assert KeywordOk(o, REF_NODE, PATTERN, v) <==> (v.Str? ==> o.matches(REF_PATTERN, v.t));
  }

  lemma OrRefAccepts(o: Oracle, s: Json, v: Json)
    ensures Valid(o, OrRef(s), v) <==> IsRef(o, v) || Valid(o, s, v)
  {
    RefNodeAccepts(o, v);
    ValidOnly(o, ANY_OF, Arr([REF_NODE, s]), v);
    assert [REF_NODE, s][0] == REF_NODE && [REF_NODE, s][1] == s;
  }

  /** A relaxed node accepts a reference next to what it accepted, and nothing else. */
  lemma RelaxedAccepts(o: Oracle, m: Keywords, v: Json)
    ensures Valid(o, Obj(RelaxNode(m)), v) <==> IsRef(o, v) || Valid(o, Obj(m), v)
  {
    var n := RelaxNode(m);
    OrRefAccepts(o, Obj(m), v);
    ValidOnly(o, ANY_OF, n[ANY_OF], v);
    SameKeyword(o, n, map[ANY_OF := n[ANY_OF]], ANY_OF, v);
    if KeywordOk(o, Obj(n), ANY_OF, v) {
      forall k | k in n ensures KeywordOk(o, Obj(n), k, v) {}
    }
  }

  /** A list left as it is takes a reference for each of its items; anything else is judged as before. */
  lemma RelaxedListAccepts(o: Oracle, m: Keywords, v: Json)
    requires ITEMS in m && m[ITEMS].Obj? && TypeIncludes(m, ARRAY)
    ensures Valid(o, Obj(RelaxObject(m)), v) <==>
      && Valid(o, Obj(m - {ITEMS}), v)
      && (v.Arr? ==> forall i :: 0 <= i < |v.a| ==> IsRef(o, v.a[i]) || Valid(o, m[ITEMS], v.a[i]))
  {
    var n := RelaxObject(m);
    assert n - {ITEMS} == m - {ITEMS};
    WithoutKeyword(o, n, ITEMS, v);
    if v.Arr? {
      forall i | 0 <= i < |v.a| ensures Valid(o, n[ITEMS], v.a[i]) <==> IsRef(o, v.a[i]) || Valid(o, m[ITEMS], v.a[i]) {
        OrRefAccepts(o, m[ITEMS], v.a[i]);
      }
    }
  }

  predicate AllRefs(o: Oracle, v: Json) {
    v.Arr? && forall i :: 0 <= i < |v.a| ==> IsRef(o, v.a[i])
  }

  /** A map of entries becomes a map or a list: an object whose entries may be references next to
      what they were, or a list of references, which the rest of the node accepts. */
  lemma RelaxedMapAccepts(o: Oracle, m: Keywords, v: Json)
    requires ADDITIONAL_PROPERTIES in m && m[ADDITIONAL_PROPERTIES].Obj?
    requires !(ITEMS in m && m[ITEMS].Obj? && TypeIncludes(m, ARRAY))
    ensures Valid(o, Obj(RelaxObject(m)), v) <==>
      && Valid(o, Obj(m - {TYPE} - {ITEMS} - {ADDITIONAL_PROPERTIES}), v)
      && (v.Obj? || AllRefs(o, v))
      && (v.Obj? ==> forall p :: p in v.m && p !in Named(m) && !PatternNamed(o, m, p) ==>
        IsRef(o, v.m[p]) || Valid(o, m[ADDITIONAL_PROPERTIES], v.m[p]))
  {
    var n := RelaxObject(m);
    assert n - {TYPE} - {ITEMS} - {ADDITIONAL_PROPERTIES} == m - {TYPE} - {ITEMS} - {ADDITIONAL_PROPERTIES};
    WithoutThree(o, n, v);
    MapOrList(o, n, v);
    ItemsAreRefs(o, n - {TYPE}, v);
    EntriesOrRefs(o, n - {TYPE} - {ITEMS}, m[ADDITIONAL_PROPERTIES], v);
  }

  lemma WithoutThree(o: Oracle, n: Keywords, v: Json)
    requires TYPE in n && ITEMS in n && ADDITIONAL_PROPERTIES in n
    ensures Valid(o, Obj(n), v) <==>
      && Valid(o, Obj(n - {TYPE} - {ITEMS} - {ADDITIONAL_PROPERTIES}), v)
      && KeywordOk(o, Obj(n), TYPE, v)
      && KeywordOk(o, Obj(n - {TYPE}), ITEMS, v)
      && KeywordOk(o, Obj(n - {TYPE} - {ITEMS}), ADDITIONAL_PROPERTIES, v)
  {
    WithoutKeyword(o, n, TYPE, v);
    WithoutKeyword(o, n - {TYPE}, ITEMS, v);
    WithoutKeyword(o, n - {TYPE} - {ITEMS}, ADDITIONAL_PROPERTIES, v);
  }

  lemma MapOrList(o: Oracle, n: Keywords, v: Json)
    requires TYPE in n && n[TYPE] == Arr([Str(OBJECT), Str(ARRAY)])
    ensures KeywordOk(o, Obj(n), TYPE, v) <==> v.Obj? || v.Arr?
  {
    assert n[TYPE].a[0] == Str(OBJECT) && n[TYPE].a[1] == Str(ARRAY);
  }

  lemma ItemsAreRefs(o: Oracle, n: Keywords, v: Json)
    requires ITEMS in n && n[ITEMS] == REF_NODE
    ensures KeywordOk(o, Obj(n), ITEMS, v) <==> (v.Arr? ==> AllRefs(o, v))
  {
    if v.Arr? { forall i | 0 <= i < |v.a| ensures Valid(o, REF_NODE, v.a[i]) <==> IsRef(o, v.a[i]) { RefNodeAccepts(o, v.a[i]); } }
  }

  lemma EntriesOrRefs(o: Oracle, n: Keywords, entry: Json, v: Json)
    requires ADDITIONAL_PROPERTIES in n && n[ADDITIONAL_PROPERTIES] == OrRef(entry)
    ensures KeywordOk(o, Obj(n), ADDITIONAL_PROPERTIES, v) <==>
      (v.Obj? ==> forall p :: p in v.m && p !in Named(n) && !PatternNamed(o, n, p) ==> IsRef(o, v.m[p]) || Valid(o, entry, v.m[p]))
  {
    if v.Obj? {
      forall p | p in v.m ensures Valid(o, OrRef(entry), v.m[p]) <==> IsRef(o, v.m[p]) || Valid(o, entry, v.m[p]) {
        OrRefAccepts(o, entry, v.m[p]);
      }
    }
  }
}
