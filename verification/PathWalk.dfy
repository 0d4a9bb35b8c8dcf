/** The post-order walk that tells each node's path (helpers.go). */
module PathWalk {
  import opened Json
  import opened Walk

  type PathVisitor = (Keywords, string) -> Keywords

  /** The names from the root, joined by dots. */
  function ChildPath(path: string, name: Text): string {
    if path == "" then Spell(name) else path + "." + Spell(name)
  }

  function WalkAt(s: Json, path: string, visit: PathVisitor): Json
    decreases s, 2
  {
    if s.Obj? then Obj(visit(WalkBelowAt(s, path, visit), path)) else s
  }

  function WalkBelowAt(s: Json, path: string, visit: PathVisitor): (r: Keywords)
    requires s.Obj?
    ensures r.Keys == s.m.Keys
    decreases s, 1
  {
    map k | k in s.m :: WalkKeywordAt(s, k, path, visit)
  }

  function WalkKeywordAt(s: Json, k: Text, path: string, visit: PathVisitor): (r: Json)
    requires s.Obj? && k in s.m
    ensures k == PROPERTIES && s.m[k].Obj? ==> r.Obj? && r.m.Keys == s.m[k].m.Keys
    ensures !((k == PROPERTIES || IsSingle(k)) && s.m[k].Obj?) && !(IsListing(k) && s.m[k].Arr?) ==> r == s.m[k]
    decreases s, 0
  {
    var arg := s.m[k];
    if k == PROPERTIES && arg.Obj? then
      Obj(map name | name in arg.m :: WalkAt(arg.m[name], ChildPath(path, name), visit))
    else if IsSingle(k) && arg.Obj? then WalkAt(arg, path, visit)
    else if IsListing(k) && arg.Arr? then Arr(seq(|arg.a|, i requires 0 <= i < |arg.a| => WalkAt(arg.a[i], path, visit)))
    else arg
  }

  // ----- the visits at one path -----

  /** A visited node, as it was when its visit began. */
  type Log = seq<(string, Keywords)>

  function At(log: Log, path: string): seq<Keywords>
    decreases |log|
  {
    if log == [] then []
    else
      var last := log[|log| - 1];
      At(log[..|log| - 1], path) + (if last.0 == path then [last.1] else [])
  }

  /** p is path, or a path below it. */
  predicate Reaches(path: string, p: string) {
    path == "" || p == path || path + "." <= p
  }

  predicate DotFree(t: string) {
    '.' !in t && t != ""
  }

  predicate NamedWithoutDots(m: Keywords) {
    PROPERTIES in m && m[PROPERTIES].Obj? ==> forall name :: name in m[PROPERTIES].m ==> DotFree(Spell(name))
  }

  /** No two property names of a node read the same. */
  predicate NamedApart(m: Keywords) {
    PROPERTIES in m && m[PROPERTIES].Obj? ==>
      forall a, b :: a in m[PROPERTIES].m && b in m[PROPERTIES].m && Spell(a) == Spell(b) ==> a == b
  }

  ghost predicate Readable(m: Keywords) {
    NamedWithoutDots(m) && NamedApart(m)
  }

  /** The nodes visited at p, in the order of their visits: below a node, at most one property
      leads to p, whatever the order the properties are ranged over. */
  ghost function VisitsAt(s: Json, path: string, visit: PathVisitor, p: string): seq<Keywords>
    decreases s, 3
  {
    if !s.Obj? then []
    else VisitsUpTo(s, |NESTING|, path, visit, p) + (if path == p then [WalkBelowAt(s, path, visit)] else [])
  }

  /** The visits below the first n nesting keywords. */
  ghost function VisitsUpTo(s: Json, n: nat, path: string, visit: PathVisitor, p: string): seq<Keywords>
    requires s.Obj? && n <= |NESTING|
    decreases s, 2, n
  {
    if n == 0 then [] else VisitsUpTo(s, n - 1, path, visit, p) + VisitsBelow(s, NESTING[n - 1], path, visit, p)
  }

  ghost function VisitsBelow(s: Json, k: Text, path: string, visit: PathVisitor, p: string): seq<Keywords>
    requires s.Obj?
    decreases s, 1
  {
    if k !in s.m then []
    else if k == PROPERTIES && s.m[k].Obj? then
      if exists name :: LeadsTo(s, path, name, p) then
        var name :| LeadsTo(s, path, name, p);
        VisitsAt(s.m[k].m[name], ChildPath(path, name), visit, p)
      else []
    else if IsSingle(k) && s.m[k].Obj? then VisitsAt(s.m[k], path, visit, p)
    else if IsListing(k) && s.m[k].Arr? then VisitsOfItems(s, k, |s.m[k].a|, path, visit, p)
    else []
  }

  ghost predicate LeadsTo(s: Json, path: string, name: Text, p: string)
    requires s.Obj?
  {
    PROPERTIES in s.m && s.m[PROPERTIES].Obj? && name in s.m[PROPERTIES].m && Reaches(ChildPath(path, name), p)
  }

  ghost function VisitsOfItems(s: Json, k: Text, n: nat, path: string, visit: PathVisitor, p: string): seq<Keywords>
    requires s.Obj? && k in s.m && s.m[k].Arr? && n <= |s.m[k].a|
    decreases s, 0, n
  {
    if n == 0 then []
    else VisitsOfItems(s, k, n - 1, path, visit, p) + VisitsAt(s.m[k].a[n - 1], path, visit, p)
  }

  /** The keywords come one after the other, and the node last. */
  lemma VisitsInOrder(s: Json, path: string, visit: PathVisitor, p: string)
    requires s.Obj?
    ensures VisitsAt(s, path, visit, p) ==
      VisitsBelow(s, PROPERTIES, path, visit, p) + VisitsBelow(s, ADDITIONAL_PROPERTIES, path, visit, p)
      + VisitsBelow(s, ITEMS, path, visit, p) + VisitsBelow(s, ONE_OF, path, visit, p)
      + VisitsBelow(s, ANY_OF, path, visit, p) + VisitsBelow(s, ALL_OF, path, visit, p)
      + (if path == p then [WalkBelowAt(s, path, visit)] else [])
  {
    SixVisited(s, 0, 3, 6, path, visit, p);
  }

  lemma SixVisited(s: Json, none: nat, half: nat, all: nat, path: string, visit: PathVisitor, p: string)
    requires s.Obj? && none == 0 && half == 3 && all == |NESTING|
    ensures VisitsUpTo(s, all, path, visit, p) ==
      VisitsBelow(s, PROPERTIES, path, visit, p) + VisitsBelow(s, ADDITIONAL_PROPERTIES, path, visit, p)
      + VisitsBelow(s, ITEMS, path, visit, p) + VisitsBelow(s, ONE_OF, path, visit, p)
      + VisitsBelow(s, ANY_OF, path, visit, p) + VisitsBelow(s, ALL_OF, path, visit, p)
  {
    ThreeMore(s, none, PROPERTIES, ADDITIONAL_PROPERTIES, ITEMS, path, visit, p);
    ThreeMore(s, half, ONE_OF, ANY_OF, ALL_OF, path, visit, p);
    FromNothing(VisitsUpTo(s, none, path, visit, p), VisitsBelow(s, PROPERTIES, path, visit, p));
  }

  lemma FromNothing<T>(a: seq<T>, b: seq<T>)
    requires a == []
    ensures a + b == b
  {
  }

  lemma ThreeMore(s: Json, n: nat, a: Text, b: Text, c: Text, path: string, visit: PathVisitor, p: string)
    requires s.Obj? && n + 3 <= |NESTING| && NESTING[n] == a && NESTING[n + 1] == b && NESTING[n + 2] == c
    ensures VisitsUpTo(s, n + 3, path, visit, p) ==
      VisitsUpTo(s, n, path, visit, p) + VisitsBelow(s, a, path, visit, p) + VisitsBelow(s, b, path, visit, p) + VisitsBelow(s, c, path, visit, p)
  {
    UpToNext(s, n, a, path, visit, p);
    UpToNext(s, n + 1, b, path, visit, p);
    UpToNext(s, n + 2, c, path, visit, p);
  }

  lemma UpToNext(s: Json, n: nat, k: Text, path: string, visit: PathVisitor, p: string)
    requires s.Obj? && n < |NESTING| && NESTING[n] == k
    ensures VisitsUpTo(s, n + 1, path, visit, p) == VisitsUpTo(s, n, path, visit, p) + VisitsBelow(s, k, path, visit, p)
  {
  }

  // ----- paths of different names never meet -----

  lemma AtConcat(a: Log, b: Log, p: string)
    ensures At(a + b, p) == At(a, p) + At(b, p)
    decreases |b|
  {
    if b == [] {
      assert a + b == a;
    } else {
      var last := |b| - 1;
      AtConcat(a, b[..last], p);
      assert (a + b)[..|a + b| - 1] == a + b[..last];
    }
  }

  lemma ReachesUp(path: string, name: Text, p: string)
    requires Reaches(ChildPath(path, name), p) && DotFree(Spell(name))
    ensures Reaches(path, p) && p != path
  {
    if path != "" {
      var c := path + "." + Spell(name);
      assert path + "." <= c;
    }
  }

  /** A dot-free name is read off a path below it. */
  lemma OneNameLeads(path: string, a: Text, b: Text, p: string)
    requires DotFree(Spell(a)) && DotFree(Spell(b))
    requires Reaches(ChildPath(path, a), p) && Reaches(ChildPath(path, b), p)
    ensures Spell(a) == Spell(b)
  {
    var start := if path == "" then 0 else |path| + 1;
    var x, y := Spell(a), Spell(b);
    NameAt(path, a, p, start);
    NameAt(path, b, p, start);
    assert |x| == |y| ==> x == y;
  }

  lemma NameAt(path: string, a: Text, p: string, start: nat)
    requires Reaches(ChildPath(path, a), p) && DotFree(Spell(a)) && start == if path == "" then 0 else |path| + 1
    ensures start + |Spell(a)| <= |p| && p[start..start + |Spell(a)|] == Spell(a)
    ensures start + |Spell(a)| < |p| ==> p[start + |Spell(a)|] == '.'
  {
    var c := ChildPath(path, a);
    assert |c| == start + |Spell(a)| && c[start..] == Spell(a);
    assert c == p[..|c|];
  }

  /** Below a path, only paths it reaches are visited. */
  lemma {:induction false} VisitsAreReached(s: Json, path: string, visit: PathVisitor, p: string)
    requires Everywhere(s, Readable) && VisitsAt(s, path, visit, p) != []
    ensures Reaches(path, p)
    decreases s, 3
  {
    if path != p { VisitsUpToAreReached(s, |NESTING|, path, visit, p); }
  }

  lemma {:induction false} VisitsUpToAreReached(s: Json, n: nat, path: string, visit: PathVisitor, p: string)
    requires s.Obj? && n <= |NESTING| && Everywhere(s, Readable) && VisitsUpTo(s, n, path, visit, p) != []
    ensures Reaches(path, p)
    decreases s, 2, n
  {
    var k := NESTING[n - 1];
    if VisitsBelow(s, k, path, visit, p) == [] {
      VisitsUpToAreReached(s, n - 1, path, visit, p);
    } else {
      assert EverywhereBelow(s, k, Readable);
      if k == PROPERTIES {
        var name :| LeadsTo(s, path, name, p);
        ReachesUp(path, name, p);
      } else if IsSingle(k) {
        VisitsAreReached(s.m[k], path, visit, p);
      } else {
        ItemsAreReached(s, k, |s.m[k].a|, path, visit, p);
      }
    }
  }

  lemma {:induction false} ItemsAreReached(s: Json, k: Text, n: nat, path: string, visit: PathVisitor, p: string)
    requires s.Obj? && k in s.m && s.m[k].Arr? && n <= |s.m[k].a| && IsListing(k) && EverywhereBelow(s, k, Readable)
    requires VisitsOfItems(s, k, n, path, visit, p) != []
    ensures Reaches(path, p)
    decreases s, 1, n
  {
    if VisitsAt(s.m[k].a[n - 1], path, visit, p) != [] {
      VisitsAreReached(s.m[k].a[n - 1], path, visit, p);
    } else {
      ItemsAreReached(s, k, n - 1, path, visit, p);
    }
  }

  /** Of the properties of a node, one at most has visits at p: the one that leads there. */
  lemma OneProperty(s: Json, path: string, visit: PathVisitor, name: Text, p: string)
    requires s.Obj? && Everywhere(s, Readable) && PROPERTIES in s.m && s.m[PROPERTIES].Obj? && name in s.m[PROPERTIES].m
    ensures var visits := VisitsAt(s.m[PROPERTIES].m[name], ChildPath(path, name), visit, p);
      if LeadsTo(s, path, name, p) then VisitsBelow(s, PROPERTIES, path, visit, p) == visits else visits == []
  {
    var props := s.m[PROPERTIES].m;
    assert EverywhereBelow(s, PROPERTIES, Readable) && Everywhere(props[name], Readable);
    if !LeadsTo(s, path, name, p) {
      if VisitsAt(props[name], ChildPath(path, name), visit, p) != [] {
        VisitsAreReached(props[name], ChildPath(path, name), visit, p);
      }
    } else {
      forall other | LeadsTo(s, path, other, p) ensures other == name {
        OneNameLeads(path, name, other, p);
      }
    }
  }

  // ----- the visits of a walk -----

  /** m is a node as it is when it is visited at p. */
  ghost predicate Visited(s: Json, path: string, visit: PathVisitor, p: string, m: Keywords)
    decreases s, 1
  {
    var visited := s.Obj? &&
      ((path == p && m == WalkBelowAt(s, path, visit)) || exists k :: k in s.m && VisitedBelow(s, k, path, visit, p, m));
    visited
  }

  ghost predicate VisitedBelow(s: Json, k: Text, path: string, visit: PathVisitor, p: string, m: Keywords)
    requires s.Obj? && k in s.m
    decreases s, 0
  {
    var arg := s.m[k];
    var visited :=
      if k == PROPERTIES then arg.Obj? && exists name :: name in arg.m && Visited(arg.m[name], ChildPath(path, name), visit, p, m)
      else if IsSingle(k) then Visited(arg, path, visit, p, m)
      else IsListing(k) && arg.Arr? && exists i :: 0 <= i < |arg.a| && Visited(arg.a[i], path, visit, p, m);
    visited
  }

  /** The log of a walk over s: the visited nodes, and for readable names also their order. */
  ghost predicate Logs(log: Log, s: Json, path: string, visit: PathVisitor) {
    var nodes := forall p, m :: m in At(log, p) <==> Visited(s, path, visit, p, m);
    var order := Everywhere(s, Readable) ==> forall p :: At(log, p) == VisitsAt(s, path, visit, p);
    nodes && order
  }

  ghost predicate VisitedUpTo(s: Json, n: nat, path: string, visit: PathVisitor, p: string, m: Keywords)
    requires s.Obj? && n <= |NESTING|
  {
    exists j :: 0 <= j < n && NESTING[j] in s.m && VisitedBelow(s, NESTING[j], path, visit, p, m)
  }

  ghost predicate LogsUpTo(log: Log, s: Json, n: nat, path: string, visit: PathVisitor)
    requires s.Obj? && n <= |NESTING|
  {
    var nodes := forall p, m :: m in At(log, p) <==> VisitedUpTo(s, n, path, visit, p, m);
    var order := Everywhere(s, Readable) ==> forall p :: At(log, p) == VisitsUpTo(s, n, path, visit, p);
    nodes && order
  }

  ghost predicate LogsBelow(log: Log, s: Json, k: Text, path: string, visit: PathVisitor)
    requires s.Obj?
  {
    var nodes := forall p, m :: m in At(log, p) <==> k in s.m && VisitedBelow(s, k, path, visit, p, m);
    var order := Everywhere(s, Readable) ==> forall p :: At(log, p) == VisitsBelow(s, k, path, visit, p);
    nodes && order
  }

  lemma NothingLogged(s: Json, path: string, visit: PathVisitor)
    ensures !s.Obj? ==> Logs([], s, path, visit)
    ensures s.Obj? ==> LogsUpTo([], s, 0, path, visit)
    ensures s.Obj? ==> forall k :: k !in s.m ==> LogsBelow([], s, k, path, visit)
  {
  }

  lemma OneMoreKeyword(log: Log, more: Log, s: Json, n: nat, path: string, visit: PathVisitor)
    requires s.Obj? && n < |NESTING| && LogsUpTo(log, s, n, path, visit) && LogsBelow(more, s, NESTING[n], path, visit)
    ensures LogsUpTo(log + more, s, n + 1, path, visit)
  {
    forall p ensures At(log + more, p) == At(log, p) + At(more, p) { AtConcat(log, more, p); }
    forall p, m ensures VisitedUpTo(s, n + 1, path, visit, p, m) <==>
      VisitedUpTo(s, n, path, visit, p, m) || (NESTING[n] in s.m && VisitedBelow(s, NESTING[n], path, visit, p, m))
    {
    }
  }

  lemma NodeLogged(log: Log, s: Json, path: string, visit: PathVisitor)
    requires s.Obj? && LogsUpTo(log, s, |NESTING|, path, visit)
    ensures Logs(log + [(path, WalkBelowAt(s, path, visit))], s, path, visit)
  {
    var entry := (path, WalkBelowAt(s, path, visit));
    forall p ensures At(log + [entry], p) == At(log, p) + (if entry.0 == p then [entry.1] else []) { EntryAdded(log, entry, p); }
    forall p, m ensures VisitedUpTo(s, |NESTING|, path, visit, p, m) <==> exists k :: k in s.m && VisitedBelow(s, k, path, visit, p, m) {
      if k :| k in s.m && VisitedBelow(s, k, path, visit, p, m) { NestingIsListed(k); }
    }
  }

  lemma NestingIsListed(k: Text)
    ensures k == PROPERTIES || IsSingle(k) || IsListing(k) <==> k in NESTING
  {
    assert NESTING[0] == PROPERTIES && NESTING[1] == ADDITIONAL_PROPERTIES && NESTING[2] == ITEMS;
    assert NESTING[3] == ONE_OF && NESTING[4] == ANY_OF && NESTING[5] == ALL_OF;
  }

  lemma EntryAdded(log: Log, entry: (string, Keywords), p: string)
    ensures At(log + [entry], p) == At(log, p) + (if entry.0 == p then [entry.1] else [])
  {
    assert (log + [entry])[..|log|] == log;
  }

  // ----- the walk -----

  /** The walk of the source, with the visits it makes. The properties are ranged over in whatever
      order they come: the log depends on it, the nodes visited at a path do not, nor, for readable
      names, does their order. */
  method WalkSchemaNodesWithPath(node: Json, path: string, visit: PathVisitor) returns (r: Json, log: Log)
    ensures r == WalkAt(node, path, visit)
    ensures forall p, m :: m in At(log, p) <==> Visited(node, path, visit, p, m)
    ensures Everywhere(node, Readable) ==> forall p :: At(log, p) == VisitsAt(node, path, visit, p)
    ensures Logs(log, node, path, visit)
    decreases node, 3
  {
    log := [];
    NothingLogged(node, path, visit);
    if !node.Obj? {
      return node, log;
    }
    var m := new GoMap(node.m);
    for i := 0 to |NESTING|
      invariant m.kw == SomeAt(node, path, visit, NESTING[..i]) && LogsUpTo(log, node, i, path, visit)
    {
      var key := NESTING[i];
      var more: Log := [];
      if key in m.kw {
        var child;
        child, more := WalkBelow(node, key, path, visit);
        m.kw := m.kw[key := child];
      }
      assert NESTING[..i + 1] == NESTING[..i] + [key];
      OneMoreAt(node, path, visit, NESTING[..i], key);
      OneMoreKeyword(log, more, node, i, path, visit);
      log := log + more;
    }
    assert NESTING[..|NESTING|] == NESTING;
    AllAt(node, path, visit);
    NodeLogged(log, node, path, visit);
    log := log + [(path, m.kw)];
    m.kw := visit(m.kw, path);
    r := Obj(m.kw);
  }

  /** The node after the walk went through the keywords of done. */
  ghost function SomeAt(s: Json, path: string, visit: PathVisitor, done: seq<Text>): Keywords
    requires s.Obj?
  {
    map k | k in s.m :: if k in done then WalkKeywordAt(s, k, path, visit) else s.m[k]
  }

  lemma OneMoreAt(s: Json, path: string, visit: PathVisitor, done: seq<Text>, k: Text)
    requires s.Obj?
    ensures var some := SomeAt(s, path, visit, done);
      SomeAt(s, path, visit, done + [k]) == if k in s.m then some[k := WalkKeywordAt(s, k, path, visit)] else some
  {
  }

  lemma AllAt(s: Json, path: string, visit: PathVisitor)
    requires s.Obj?
    ensures SomeAt(s, path, visit, NESTING) == WalkBelowAt(s, path, visit)
  {
    forall k | k in s.m && k !in NESTING
      ensures WalkKeywordAt(s, k, path, visit) == s.m[k]
    {
      NestingIsListed(k);
    }
  }

  /** The nodes below one keyword. */
  method WalkBelow(node: Json, key: Text, path: string, visit: PathVisitor) returns (r: Json, log: Log)
    requires node.Obj? && key in node.m && key in NESTING
    ensures r == WalkKeywordAt(node, key, path, visit) && LogsBelow(log, node, key, path, visit)
    decreases node, 2
  {
    r, log := node.m[key], [];
    NestingIsListed(key);
    if key == PROPERTIES && r.Obj? {
      r, log := WalkProperties(node, path, visit);
    } else if IsSingle(key) && r.Obj? {
      r, log := WalkSchemaNodesWithPath(r, path, visit);
      SingleLogged(log, node, key, path, visit);
    } else if IsListing(key) && r.Arr? {
      r, log := WalkBranches(node, key, path, visit);
    } else {
      NothingBelow(node, key, path, visit);
    }
  }

  lemma NothingBelow(s: Json, k: Text, path: string, visit: PathVisitor)
    requires s.Obj? && k in s.m
    requires !((k == PROPERTIES || IsSingle(k)) && s.m[k].Obj?) && !(IsListing(k) && s.m[k].Arr?)
    ensures LogsBelow([], s, k, path, visit)
  {
  }

  lemma SingleLogged(log: Log, s: Json, k: Text, path: string, visit: PathVisitor)
    requires s.Obj? && k in s.m && IsSingle(k) && s.m[k].Obj? && Logs(log, s.m[k], path, visit)
    ensures LogsBelow(log, s, k, path, visit)
  {
    assert Everywhere(s, Readable) ==> EverywhereBelow(s, k, Readable);
  }

  // ----- the nodes of a list -----

  ghost predicate LogsItems(log: Log, s: Json, k: Text, n: nat, path: string, visit: PathVisitor)
    requires s.Obj? && k in s.m && s.m[k].Arr? && n <= |s.m[k].a|
  {
    var nodes := forall p, m :: m in At(log, p) <==> exists i :: 0 <= i < n && Visited(s.m[k].a[i], path, visit, p, m);
    var order := Everywhere(s, Readable) ==> forall p :: At(log, p) == VisitsOfItems(s, k, n, path, visit, p);
    nodes && order
  }

  lemma OneMoreItem(log: Log, more: Log, s: Json, k: Text, n: nat, path: string, visit: PathVisitor)
    requires s.Obj? && k in s.m && IsListing(k) && s.m[k].Arr? && n < |s.m[k].a|
    requires LogsItems(log, s, k, n, path, visit) && Logs(more, s.m[k].a[n], path, visit)
    ensures LogsItems(log + more, s, k, n + 1, path, visit)
  {
    forall p ensures At(log + more, p) == At(log, p) + At(more, p) { AtConcat(log, more, p); }
    assert Everywhere(s, Readable) ==> EverywhereBelow(s, k, Readable);
  }

  lemma ItemsLogged(log: Log, s: Json, k: Text, path: string, visit: PathVisitor)
    requires s.Obj? && k in s.m && IsListing(k) && s.m[k].Arr? && LogsItems(log, s, k, |s.m[k].a|, path, visit)
    ensures LogsBelow(log, s, k, path, visit)
  {
  }

  method WalkBranches(node: Json, key: Text, path: string, visit: PathVisitor) returns (r: Json, log: Log)
    requires node.Obj? && key in node.m && IsListing(key) && node.m[key].Arr?
    ensures r == WalkKeywordAt(node, key, path, visit) && LogsBelow(log, node, key, path, visit)
    decreases node, 1
  {
    log := [];
    var list := node.m[key].a;
    var walked := list;
    for i := 0 to |list|
      invariant |walked| == |list| && LogsItems(log, node, key, i, path, visit)
      invariant forall j :: 0 <= j < |walked| ==> walked[j] == if j < i then WalkAt(list[j], path, visit) else list[j]
    {
      var item, more := WalkSchemaNodesWithPath(list[i], path, visit);
      walked := walked[i := item];
      OneMoreItem(log, more, node, key, i, path, visit);
      log := log + more;
    }
    ItemsLogged(log, node, key, path, visit);
    r := Arr(walked);
  }

  // ----- the nodes of the properties -----

  /** What the properties outside left have visited at p: everything, or nothing yet. */
  ghost function VisitsOnce(s: Json, path: string, visit: PathVisitor, left: set<Text>, p: string): seq<Keywords>
    requires s.Obj?
  {
    if exists name :: LeadsTo(s, path, name, p) && name !in left then VisitsBelow(s, PROPERTIES, path, visit, p) else []
  }

  ghost predicate LogsOutside(log: Log, s: Json, left: set<Text>, path: string, visit: PathVisitor)
    requires s.Obj? && PROPERTIES in s.m && s.m[PROPERTIES].Obj?
  {
    var props := s.m[PROPERTIES].m;
    var nodes := forall p, m ::
      m in At(log, p) <==> exists name :: name in props && name !in left && Visited(props[name], ChildPath(path, name), visit, p, m);
    var order := Everywhere(s, Readable) ==> forall p :: At(log, p) == VisitsOnce(s, path, visit, left, p);
    nodes && order
  }

  lemma OneMoreName(log: Log, more: Log, s: Json, left: set<Text>, name: Text, path: string, visit: PathVisitor)
    requires s.Obj? && PROPERTIES in s.m && s.m[PROPERTIES].Obj? && name in s.m[PROPERTIES].m && name in left
    requires LogsOutside(log, s, left, path, visit) && Logs(more, s.m[PROPERTIES].m[name], ChildPath(path, name), visit)
    ensures LogsOutside(log + more, s, left - {name}, path, visit)
  {
    var props := s.m[PROPERTIES].m;
    forall p ensures At(log + more, p) == At(log, p) + At(more, p) { AtConcat(log, more, p); }
    if Everywhere(s, Readable) {
      assert EverywhereBelow(s, PROPERTIES, Readable);
      forall p ensures At(log + more, p) == VisitsOnce(s, path, visit, left - {name}, p) {
        OneMoreProperty(s, path, visit, left, name, log, more, p);
      }
    }
    forall p, m ensures m in At(log + more, p) <==>
      exists other :: other in props && other !in left - {name} && Visited(props[other], ChildPath(path, other), visit, p, m)
    {
      if Visited(props[name], ChildPath(path, name), visit, p, m) { assert name !in left - {name}; }
    }
  }

  lemma OneMoreProperty(s: Json, path: string, visit: PathVisitor, left: set<Text>, name: Text, log: Log, more: Log, p: string)
    requires s.Obj? && Everywhere(s, Readable) && PROPERTIES in s.m && s.m[PROPERTIES].Obj? && name in s.m[PROPERTIES].m
    requires name in left && At(log, p) == VisitsOnce(s, path, visit, left, p)
    requires At(more, p) == VisitsAt(s.m[PROPERTIES].m[name], ChildPath(path, name), visit, p)
    ensures At(log + more, p) == VisitsOnce(s, path, visit, left - {name}, p)
  {
    AtConcat(log, more, p);
    OneMoreVisited(s, path, visit, left, name, p);
  }

  lemma OneMoreVisited(s: Json, path: string, visit: PathVisitor, left: set<Text>, name: Text, p: string)
    requires s.Obj? && Everywhere(s, Readable) && PROPERTIES in s.m && s.m[PROPERTIES].Obj? && name in s.m[PROPERTIES].m && name in left
    ensures VisitsOnce(s, path, visit, left - {name}, p) ==
      VisitsOnce(s, path, visit, left, p) + VisitsAt(s.m[PROPERTIES].m[name], ChildPath(path, name), visit, p)
  {
    OneProperty(s, path, visit, name, p);
    OneNameAtMost(s, path, name, p);
    if LeadsTo(s, path, name, p) {
      assert name !in left - {name};
    }
  }

  lemma OneNameAtMost(s: Json, path: string, name: Text, p: string)
    requires s.Obj? && Everywhere(s, Readable) && PROPERTIES in s.m && s.m[PROPERTIES].Obj? && name in s.m[PROPERTIES].m
    ensures LeadsTo(s, path, name, p) ==> forall other :: LeadsTo(s, path, other, p) ==> other == name
  {
    if LeadsTo(s, path, name, p) {
      forall other | LeadsTo(s, path, other, p) ensures other == name { OneNameLeads(path, name, other, p); }
    }
  }

  lemma NamesLogged(log: Log, s: Json, path: string, visit: PathVisitor)
    requires s.Obj? && PROPERTIES in s.m && s.m[PROPERTIES].Obj? && LogsOutside(log, s, {}, path, visit)
    ensures LogsBelow(log, s, PROPERTIES, path, visit)
  {
  }

  method WalkProperties(node: Json, path: string, visit: PathVisitor) returns (r: Json, log: Log)
    requires node.Obj? && PROPERTIES in node.m && node.m[PROPERTIES].Obj?
    ensures r == WalkKeywordAt(node, PROPERTIES, path, visit) && LogsBelow(log, node, PROPERTIES, path, visit)
    decreases node, 1
  {
    var props, left := node.m[PROPERTIES].m, node.m[PROPERTIES].m.Keys;
    var walked := props;
    log := [];
    while left != {}
      invariant left <= props.Keys && walked.Keys == props.Keys && LogsOutside(log, node, left, path, visit)
      invariant forall name :: name in props ==>
        walked[name] == if name in left then props[name] else WalkAt(props[name], ChildPath(path, name), visit)
    {
      var name :| name in left;
      var child, more := WalkSchemaNodesWithPath(props[name], ChildPath(path, name), visit);
      walked := walked[name := child];
      OneMoreName(log, more, node, left, name, path, visit);
      log := log + more;
      left := left - {name};
    }
    NamesLogged(log, node, path, visit);
    r := Obj(walked);
  }
}
