/** Arrays of the schema become maps keyed by an id (arraysToMaps.go). */
module ArraysToMaps {
  import opened Json
  import opened Schema
  import opened Walk
  import opened Agreement
  import opened SchemaTypes
  import opened PathWalk
  import opened SchemaNodes

  // ----- what a visit does to a node -----

  const DROPPED: set<Text> := {ITEMS, MIN_ITEMS, MAX_ITEMS, UNIQUE_ITEMS, LIST_TYPE, LIST_MAP_KEYS}

  predicate Convertible(m: Keywords) {
    TypeIncludes(m, ARRAY) && ITEMS in m && m[ITEMS].Obj?
  }

  function Converted(m: Keywords): Keywords
    requires Convertible(m)
  {
    m[TYPE := ReplaceType(m[TYPE], ARRAY, OBJECT)][ADDITIONAL_PROPERTIES := m[ITEMS]] - DROPPED
  }

  function Visit(ignore: set<string>): PathVisitor {
    (m: Keywords, path: string) => if path !in ignore && Convertible(m) then Converted(m) else m
  }

  function Convert(s: Json, path: string, ignore: set<string>): Json {
    WalkAt(s, path, Visit(ignore))
  }

  // ----- which nodes are concerned -----

  /** The node holds one schema for its items, and its type, a name or a list, admits arrays. */
  predicate ListsObjects(m: Keywords) {
    && ITEMS in m && m[ITEMS].Obj?
    && TYPE in m && (m[TYPE].Str? || m[TYPE].Arr?) && TypeOk(m[TYPE], Arr([]))
  }

  ghost predicate ListsObjectsAt(s: Json, p: string) {
    exists m :: NodeAt(s, "", p, m) && ListsObjects(m)
  }

  ghost predicate ConvertibleVisited(s: Json, visit: PathVisitor, p: string) {
    exists m :: Visited(s, "", visit, p, m) && Convertible(m)
  }

  /** A path is reported when it is not ignored and a node of the schema there lists objects. */
  ghost predicate Reports(paths: seq<string>, s: Json, ignore: set<string>) {
    forall p :: p in paths <==> p !in ignore && ListsObjectsAt(s, p)
  }

  lemma ConvertibleListsObjects(m: Keywords)
    ensures Convertible(m) <==> ListsObjects(m)
  {
    if ListsObjects(m) && m[TYPE].Arr? {
      var names := m[TYPE].a;
      var i :| 0 <= i < |names| && names[i].Str? && HasType(names[i].t, Arr([]));
      assert names[i] == Str(ARRAY);
    }
    if Convertible(m) && m[TYPE].Arr? {
      var i :| 0 <= i < |m[TYPE].a| && m[TYPE].a[i] == Str(ARRAY);
    }
  }

  /** Rewriting the nodes below keeps it that way. */
  lemma StillConvertible(n: Keywords, path: string, visit: PathVisitor)
    ensures Convertible(WalkBelowAt(Obj(n), path, visit)) <==> Convertible(n)
  {
    var m := WalkBelowAt(Obj(n), path, visit);
    assert TYPE in n ==> m[TYPE] == WalkKeywordAt(Obj(n), TYPE, path, visit) == n[TYPE];
    assert ITEMS in n ==> m[ITEMS] == WalkKeywordAt(Obj(n), ITEMS, path, visit);
  }

  /** What the walk meets at a path, and what the schema has there. */
  lemma VisitedListsObjects(s: Json, visit: PathVisitor, p: string)
    ensures ConvertibleVisited(s, visit, p) <==> ListsObjectsAt(s, p)
  {
    if m :| Visited(s, "", visit, p, m) && Convertible(m) {
      VisitedAreTheNodes(s, visit, p, m);
      var n :| NodeAt(s, "", p, n) && BecomesAt(n, p, visit, m);
      StillConvertible(n, p, visit);
      ConvertibleListsObjects(n);
    }
    if n :| NodeAt(s, "", p, n) && ListsObjects(n) {
      NodeIsVisited(s, "", visit, p, n);
      StillConvertible(n, p, visit);
      ConvertibleListsObjects(n);
    }
  }

  /** A node that lists objects, and is not ignored, becomes a map of them: what it was but for the
      six array keywords, and the type takes objects for arrays. */
  lemma VisitedBecomesMap(m: Keywords, path: string, ignore: set<string>)
    requires ListsObjects(m) && path !in ignore
    ensures var n := Visit(ignore)(m, path);
      n.Keys == m.Keys + {ADDITIONAL_PROPERTIES} - {ITEMS, MIN_ITEMS, MAX_ITEMS, UNIQUE_ITEMS, LIST_TYPE, LIST_MAP_KEYS}
    ensures var n := Visit(ignore)(m, path);
      n[ADDITIONAL_PROPERTIES] == m[ITEMS] && forall k :: k in n && k != ADDITIONAL_PROPERTIES && k != TYPE ==> n[k] == m[k]
    ensures var n := Visit(ignore)(m, path);
      forall v :: TypeOk(n[TYPE], v) <==> !v.Arr? && (v.Obj? || TypeOk(m[TYPE], v))
  {
    ConvertibleListsObjects(m);
    forall v { ReplacedTypeAccepts(m[TYPE], v); }
  }

  /** Any other node is left as it is. */
  lemma OtherStays(m: Keywords, path: string, ignore: set<string>)
    requires !ListsObjects(m) || path in ignore
    ensures Visit(ignore)(m, path) == m
  {
    ConvertibleListsObjects(m);
  }

  // ----- the visitor -----

  method DropArrayKeywords(node: GoMap)
    modifies node
    ensures node.kw == old(node.kw) - DROPPED
  {
    node.kw := node.kw - {ITEMS};
    node.kw := node.kw - {MIN_ITEMS};
    node.kw := node.kw - {MAX_ITEMS};
    node.kw := node.kw - {UNIQUE_ITEMS};
    node.kw := node.kw - {LIST_TYPE};
    node.kw := node.kw - {LIST_MAP_KEYS};
  }

  method ConvertArrayNodeToMap(node: GoMap) returns (converted: bool)
    modifies node
    ensures converted == Convertible(old(node.kw))
    ensures node.kw == if converted then Converted(old(node.kw)) else old(node.kw)
  {
    var isArray := SchemaTypeIncludes(node.kw, ARRAY);
    if !isArray {
      return false;
    }
    if ITEMS !in node.kw || !node.kw[ITEMS].Obj? {
      return false;
    }
    var items := node.kw[ITEMS];
    var t := ReplaceSchemaType(node.kw[TYPE], ARRAY, OBJECT);
    node.kw := node.kw[TYPE := t];
    node.kw := node.kw[ADDITIONAL_PROPERTIES := items];
    DropArrayKeywords(node);
    return true;
  }

  /** The paths of the visited nodes that get converted, one for each. */
  method ConvertedPaths(log: Log, converts: (Keywords, string) -> bool) returns (paths: seq<string>)
    ensures forall p :: p in paths <==> exists m :: m in At(log, p) && converts(m, p)
  {
    paths := [];
    for i := 0 to |log|
      invariant forall p :: p in paths <==> exists m :: m in At(log[..i], p) && converts(m, p)
    {
      assert log[..i + 1] == log[..i] + [log[i]];
      forall p { EntryAdded(log[..i], log[i], p); }
      if converts(log[i].1, log[i].0) {
        paths := paths + [log[i].0];
      }
    }
    assert log[..|log|] == log;
  }

  /** The mutation, and the paths it reports: those where a node was converted. */
  method Mutate(schema: Json, ignore: set<string>, disabled: bool) returns (r: Json, paths: seq<string>)
    ensures disabled ==> r == schema && paths == []
    ensures !disabled ==> r == Convert(schema, "", ignore) && Reports(paths, schema, ignore)
  {
    if disabled {
      return schema, [];
    }
    var log;
    r, log := WalkSchemaNodesWithPath(schema, "", Visit(ignore));
    paths := ConvertedPaths(log, (m, path) => path !in ignore && Convertible(m));
    forall p ensures ConvertibleVisited(schema, Visit(ignore), p) <==> ListsObjectsAt(schema, p) {
      VisitedListsObjects(schema, Visit(ignore), p);
    }
  }

  // ----- no array of objects is left -----

  ghost predicate NoneLeft(s: Json, path: string, ignore: set<string>)
    decreases s, 1
  {
    s.Obj? ==> (path in ignore || !Convertible(s.m)) && forall k :: k in s.m ==> NoneLeftBelow(s, k, path, ignore)
  }

  ghost predicate NoneLeftBelow(s: Json, k: Text, path: string, ignore: set<string>)
    requires s.Obj? && k in s.m
    decreases s, 0
  {
    var arg := s.m[k];
    var ok :=
      if k == PROPERTIES then arg.Obj? ==> forall name :: name in arg.m ==> NoneLeft(arg.m[name], ChildPath(path, name), ignore)
      else if IsSingle(k) then NoneLeft(arg, path, ignore)
      else IsListing(k) && arg.Arr? ==> forall i :: 0 <= i < |arg.a| ==> NoneLeft(arg.a[i], path, ignore);
    ok
  }

  lemma ConvertedIsNoArray(m: Keywords)
    requires Convertible(m)
    ensures !TypeIncludes(Converted(m), ARRAY) && !Convertible(Converted(m))
  {
  }

  /** Outside the ignored paths, no node the walk reaches is an array of objects any more. */
  lemma {:induction false} ConvertLeavesNone(s: Json, path: string, ignore: set<string>)
    ensures NoneLeft(Convert(s, path, ignore), path, ignore)
    decreases s, 1
  {
    if s.Obj? {
      var n := WalkBelowAt(s, path, Visit(ignore));
      forall k | k in n ensures NoneLeftBelow(Obj(n), k, path, ignore) { ConvertLeavesNoneBelow(s, k, path, ignore); }
      if path !in ignore && Convertible(n) {
        var r := Converted(n);
        ConvertedIsNoArray(n);
        forall k | k in r ensures NoneLeftBelow(Obj(r), k, path, ignore) {
          assert NoneLeftBelow(Obj(n), if k == ADDITIONAL_PROPERTIES then ITEMS else k, path, ignore);
        }
      }
    }
  }

  lemma {:induction false} ConvertLeavesNoneBelow(s: Json, k: Text, path: string, ignore: set<string>)
    requires s.Obj? && k in s.m
    ensures NoneLeftBelow(Obj(WalkBelowAt(s, path, Visit(ignore))), k, path, ignore)
    decreases s, 0
  {
    var arg, n := s.m[k], WalkBelowAt(s, path, Visit(ignore));
    assert n[k] == WalkKeywordAt(s, k, path, Visit(ignore));
    if k == PROPERTIES && arg.Obj? {
      forall name | name in arg.m ensures NoneLeft(n[k].m[name], ChildPath(path, name), ignore) {
        ConvertLeavesNone(arg.m[name], ChildPath(path, name), ignore);
      }
    } else if IsSingle(k) {
      ConvertLeavesNone(arg, path, ignore);
    } else if IsListing(k) && arg.Arr? {
      forall i | 0 <= i < |arg.a| ensures NoneLeft(n[k].a[i], path, ignore) { ConvertLeavesNone(arg.a[i], path, ignore); }
    }
  }

  lemma {:induction false} LeftIsNoArray(s: Json, path: string, ignore: set<string>, p: string, m: Keywords)
    requires NoneLeft(s, path, ignore) && NodeAt(s, path, p, m) && p !in ignore
    ensures !ListsObjects(m)
    decreases s
  {
    ConvertibleListsObjects(m);
    NodeIsBelow(s, path, p, m);
    if !(p == path && m == s.m) {
      var k :| k in s.m && NodeBelow(s, k, path, p, m);
      assert NoneLeftBelow(s, k, path, ignore);
      if k == PROPERTIES {
        var name :| name in s.m[k].m && NodeAt(s.m[k].m[name], ChildPath(path, name), p, m);
        LeftIsNoArray(s.m[k].m[name], ChildPath(path, name), ignore, p, m);
      } else if IsSingle(k) {
        LeftIsNoArray(s.m[k], path, ignore, p, m);
      } else {
        var i :| 0 <= i < |s.m[k].a| && NodeAt(s.m[k].a[i], path, p, m);
        LeftIsNoArray(s.m[k].a[i], path, ignore, p, m);
      }
    }
  }

  /** Outside the ignored paths, no node of the converted schema lists objects. */
  lemma NoArrayIsLeft(s: Json, path: string, ignore: set<string>, p: string, m: Keywords)
    requires NodeAt(Convert(s, path, ignore), path, p, m) && p !in ignore
    ensures !ListsObjects(m)
  {
    ConvertLeavesNone(s, path, ignore);
    LeftIsNoArray(Convert(s, path, ignore), path, ignore, p, m);
  }
}
