/** The nodes of a schema and their paths (helpers.go), told without the walks: what the walks visit. */
module SchemaNodes {
  import opened Json
  import opened Walk
  import opened PathWalk

  /** m is a node of s at path p, where s itself is at path: a property adds its name, the schemas of
      entries and items and the branches of the three combinators add nothing. */
  ghost predicate NodeAt(s: Json, path: string, p: string, m: Keywords)
    decreases s, 1
  {
    var at := s.Obj? &&
      (|| (p == path && m == s.m)
       || (PROPERTIES in s.m && s.m[PROPERTIES].Obj? && NodeUnder(s, path, p, m))
       || (ADDITIONAL_PROPERTIES in s.m && NodeAt(s.m[ADDITIONAL_PROPERTIES], path, p, m))
       || (ITEMS in s.m && NodeAt(s.m[ITEMS], path, p, m))
       || (ONE_OF in s.m && s.m[ONE_OF].Arr? && NodeIn(s.m[ONE_OF].a, path, p, m))
       || (ANY_OF in s.m && s.m[ANY_OF].Arr? && NodeIn(s.m[ANY_OF].a, path, p, m))
       || (ALL_OF in s.m && s.m[ALL_OF].Arr? && NodeIn(s.m[ALL_OF].a, path, p, m)));
    at
  }

  ghost predicate NodeUnder(s: Json, path: string, p: string, m: Keywords)
    requires s.Obj? && PROPERTIES in s.m && s.m[PROPERTIES].Obj?
    decreases s, 0
  {
    var props := s.m[PROPERTIES].m;
    exists name :: name in props && NodeAt(props[name], if path == "" then Spell(name) else path + "." + Spell(name), p, m)
  }

  ghost predicate NodeIn(list: seq<Json>, path: string, p: string, m: Keywords)
    decreases list, 0
  {
    exists i :: 0 <= i < |list| && NodeAt(list[i], path, p, m)
  }

  /** The nodes below keyword k. */
  ghost predicate NodeBelow(s: Json, k: Text, path: string, p: string, m: Keywords)
    requires s.Obj? && k in s.m
  {
    var arg := s.m[k];
    var below :=
      if k == PROPERTIES then arg.Obj? && exists name :: name in arg.m && NodeAt(arg.m[name], ChildPath(path, name), p, m)
      else if IsSingle(k) then NodeAt(arg, path, p, m)
      else IsListing(k) && arg.Arr? && NodeIn(arg.a, path, p, m);
    below
  }

  lemma NodeIsBelow(s: Json, path: string, p: string, m: Keywords)
    requires s.Obj?
    ensures NodeAt(s, path, p, m) <==> (p == path && m == s.m) || exists k :: k in s.m && NodeBelow(s, k, path, p, m)
  {
    if NodeAt(s, path, p, m) && !(p == path && m == s.m) {
      if k :| k in [ADDITIONAL_PROPERTIES, ITEMS] && k in s.m && NodeAt(s.m[k], path, p, m) {
        assert NodeBelow(s, k, path, p, m);
      } else if k :| k in [ONE_OF, ANY_OF, ALL_OF] && k in s.m && s.m[k].Arr? && NodeIn(s.m[k].a, path, p, m) {
        assert NodeBelow(s, k, path, p, m);
      } else {
        var name :| name in s.m[PROPERTIES].m && NodeAt(s.m[PROPERTIES].m[name], ChildPath(path, name), p, m);
        assert NodeBelow(s, PROPERTIES, path, p, m);
      }
    }
    if k :| k in s.m && NodeBelow(s, k, path, p, m) { BelowIsNode(s, k, path, p, m); }
  }

  lemma BelowIsNode(s: Json, k: Text, path: string, p: string, m: Keywords)
    requires s.Obj? && k in s.m && NodeBelow(s, k, path, p, m)
    ensures NodeAt(s, path, p, m)
  {
    if k == PROPERTIES {
      var name :| name in s.m[k].m && NodeAt(s.m[k].m[name], ChildPath(path, name), p, m);
      assert NodeAt(s.m[k].m[name], if path == "" then Spell(name) else path + "." + Spell(name), p, m);
    }
  }

  ghost predicate EndsIn(p: string, suffix: string) {
    exists q :: p == q + suffix
  }

  // ----- what holds everywhere -----

  /** What holds everywhere holds of each node, at whatever path. */
  lemma {:induction false} EverywhereHolds(s: Json, f: Keywords -> bool, path: string, p: string, m: Keywords)
    requires Everywhere(s, f) && NodeAt(s, path, p, m)
    ensures f(m)
    decreases s
  {
    NodeIsBelow(s, path, p, m);
    if !(p == path && m == s.m) {
      var k :| k in s.m && NodeBelow(s, k, path, p, m);
      assert EverywhereBelow(s, k, f);
      if k == PROPERTIES {
        var name :| name in s.m[k].m && NodeAt(s.m[k].m[name], ChildPath(path, name), p, m);
        EverywhereHolds(s.m[k].m[name], f, ChildPath(path, name), p, m);
      } else if IsSingle(k) {
        EverywhereHolds(s.m[k], f, path, p, m);
      } else {
        var i :| 0 <= i < |s.m[k].a| && NodeAt(s.m[k].a[i], path, p, m);
        EverywhereHolds(s.m[k].a[i], f, path, p, m);
      }
    }
  }

  /** What holds of each node holds everywhere. */
  lemma {:induction false} HoldsEverywhere(s: Json, f: Keywords -> bool, path: string)
    requires forall p, m :: NodeAt(s, path, p, m) ==> f(m)
    ensures Everywhere(s, f)
    decreases s, 1
  {
    if s.Obj? {
      assert NodeAt(s, path, path, s.m);
      forall k | k in s.m ensures EverywhereBelow(s, k, f) {
        forall p, m | NodeBelow(s, k, path, p, m) ensures f(m) { BelowIsNode(s, k, path, p, m); }
        HoldsEverywhereBelow(s, k, f, path);
      }
    }
  }

  lemma {:induction false} HoldsEverywhereBelow(s: Json, k: Text, f: Keywords -> bool, path: string)
    requires s.Obj? && k in s.m && forall p, m :: NodeBelow(s, k, path, p, m) ==> f(m)
    ensures EverywhereBelow(s, k, f)
    decreases s, 0
  {
    var arg := s.m[k];
    if k == PROPERTIES && arg.Obj? {
      forall name | name in arg.m ensures Everywhere(arg.m[name], f) {
        forall p, m | NodeAt(arg.m[name], ChildPath(path, name), p, m) ensures f(m) { assert NodeBelow(s, k, path, p, m); }
        HoldsEverywhere(arg.m[name], f, ChildPath(path, name));
      }
    } else if IsSingle(k) {
      forall p, m | NodeAt(arg, path, p, m) ensures f(m) { assert NodeBelow(s, k, path, p, m); }
      HoldsEverywhere(arg, f, path);
    } else if IsListing(k) && arg.Arr? {
      forall i | 0 <= i < |arg.a| ensures Everywhere(arg.a[i], f) {
        forall p, m | NodeAt(arg.a[i], path, p, m) ensures f(m) { assert NodeBelow(s, k, path, p, m); }
        HoldsEverywhere(arg.a[i], f, path);
      }
    }
  }

  ghost predicate EachNode(s: Json, f: Keywords -> bool) {
    forall p, m :: NodeAt(s, "", p, m) ==> f(m)
  }

  /** The nodes a theorem about every node speaks of are the nodes of the schema, no more and no less. */
  lemma EverywhereIsEachNode(s: Json, f: Keywords -> bool)
    ensures Everywhere(s, f) <==> EachNode(s, f)
  {
    if Everywhere(s, f) {
      forall p, m | NodeAt(s, "", p, m) ensures f(m) { EverywhereHolds(s, f, "", p, m); }
    }
    if EachNode(s, f) { HoldsEverywhere(s, f, ""); }
  }

  // ----- what a walk visits -----

  /** n, with the nodes below it rewritten, is m. */
  ghost predicate BecomesAt(n: Keywords, p: string, visit: PathVisitor, m: Keywords) {
    m == WalkBelowAt(Obj(n), p, visit)
  }

  /** The walk visits each node of the schema at its path, once those below it are rewritten. */
  lemma {:induction false} VisitedIsNode(s: Json, path: string, visit: PathVisitor, p: string, m: Keywords)
    requires Visited(s, path, visit, p, m)
    ensures exists n :: NodeAt(s, path, p, n) && BecomesAt(n, p, visit, m)
    decreases s
  {
    assert s == Obj(s.m);
    if path == p && m == WalkBelowAt(s, path, visit) {
      assert NodeAt(s, path, p, s.m) && BecomesAt(s.m, p, visit, m);
    } else {
      var k :| k in s.m && VisitedBelow(s, k, path, visit, p, m);
      var n: Keywords;
      if k == PROPERTIES {
        var name :| name in s.m[k].m && Visited(s.m[k].m[name], ChildPath(path, name), visit, p, m);
        VisitedIsNode(s.m[k].m[name], ChildPath(path, name), visit, p, m);
        n :| NodeAt(s.m[k].m[name], ChildPath(path, name), p, n) && BecomesAt(n, p, visit, m);
      } else if IsSingle(k) {
        VisitedIsNode(s.m[k], path, visit, p, m);
        n :| NodeAt(s.m[k], path, p, n) && BecomesAt(n, p, visit, m);
      } else {
        var i :| 0 <= i < |s.m[k].a| && Visited(s.m[k].a[i], path, visit, p, m);
        VisitedIsNode(s.m[k].a[i], path, visit, p, m);
        n :| NodeAt(s.m[k].a[i], path, p, n) && BecomesAt(n, p, visit, m);
      }
      assert NodeBelow(s, k, path, p, n);
      BelowIsNode(s, k, path, p, n);
    }
  }

  lemma {:induction false} NodeIsVisited(s: Json, path: string, visit: PathVisitor, p: string, n: Keywords)
    requires NodeAt(s, path, p, n)
    ensures Visited(s, path, visit, p, WalkBelowAt(Obj(n), p, visit))
    decreases s
  {
    assert s == Obj(s.m);
    NodeIsBelow(s, path, p, n);
    if !(p == path && n == s.m) {
      var k :| k in s.m && NodeBelow(s, k, path, p, n);
      if k == PROPERTIES {
        var name :| name in s.m[k].m && NodeAt(s.m[k].m[name], ChildPath(path, name), p, n);
        NodeIsVisited(s.m[k].m[name], ChildPath(path, name), visit, p, n);
      } else if IsSingle(k) {
        NodeIsVisited(s.m[k], path, visit, p, n);
      } else {
        var i :| 0 <= i < |s.m[k].a| && NodeAt(s.m[k].a[i], path, p, n);
        NodeIsVisited(s.m[k].a[i], path, visit, p, n);
      }
      assert VisitedBelow(s, k, path, visit, p, WalkBelowAt(Obj(n), p, visit));
    }
  }

  /** A node's properties stay where they are when it and those below are rewritten by such a visitor. */
  lemma PropertiesStay(s: Json, path: string, visit: PathVisitor)
    requires s.Obj?
    requires var n := WalkBelowAt(s, path, visit); PROPERTIES in visit(n, path) <==> PROPERTIES in n
    requires var n := WalkBelowAt(s, path, visit); PROPERTIES in n ==> visit(n, path)[PROPERTIES] == n[PROPERTIES]
    ensures PROPERTIES in WalkAt(s, path, visit).m <==> PROPERTIES in s.m
    ensures PROPERTIES in s.m ==> WalkAt(s, path, visit).m[PROPERTIES] == WalkKeywordAt(s, PROPERTIES, path, visit)
  {
    assert PROPERTIES in s.m ==> WalkBelowAt(s, path, visit)[PROPERTIES] == WalkKeywordAt(s, PROPERTIES, path, visit);
  }

  /** What a visitor meets at a path. */
  lemma VisitedAreTheNodes(s: Json, visit: PathVisitor, p: string, m: Keywords)
    ensures Visited(s, "", visit, p, m) <==> exists n :: NodeAt(s, "", p, n) && BecomesAt(n, p, visit, m)
  {
    if Visited(s, "", visit, p, m) { VisitedIsNode(s, "", visit, p, m); }
    if n :| NodeAt(s, "", p, n) && BecomesAt(n, p, visit, m) { NodeIsVisited(s, "", visit, p, n); }
  }
}
