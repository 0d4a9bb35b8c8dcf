/** The three conversions of arrays into maps, one after the other: environments, ports, the rest
    (envMaps.go, portMaps.go, arraysToMaps.go). */
module Conversions {
  import opened Json
  import opened Walk
  import opened SchemaTypes
  import opened PathWalk
  import opened SchemaNodes
  import opened ArraysToMaps
  import EnvMaps
  import PortMaps

  datatype Pass = Env | Ports | Arrays(ignore: set<string>)

  predicate Converts(pass: Pass, m: Keywords, path: string) {
    match pass
    case Env => EnvMaps.IsEnvPath(path) && EnvMaps.EnvConvertible(m)
    case Ports => PortMaps.IsPortPath(path) && PortMaps.PortConvertible(m)
    case Arrays(ignore) => path !in ignore && Convertible(m)
  }

  function Rewritten(pass: Pass, m: Keywords, path: string): Keywords
    requires Converts(pass, m, path)
  {
    match pass
    case Env => EnvMaps.EnvConverted(m)
    case Ports => PortMaps.PortConverted(m)
    case Arrays(_) => Converted(m)
  }

  function VisitorOf(pass: Pass): PathVisitor {
    match pass
    case Env => EnvMaps.ENV_VISIT
    case Ports => PortMaps.PORT_VISIT
    case Arrays(ignore) => Visit(ignore)
  }

  // ----- following a node through the passes -----

  /** A keyword no pass knows, which a converted node is given to be told apart by later ones. */
  const MARK := Other("converted")

  function Marking(pass: Pass): PathVisitor {
    (m: Keywords, path: string) => if Converts(pass, m, path) then Rewritten(pass, m, path)[MARK := Bool(true)] else m
  }

  const UNMARK: Visitor := (m: Keywords) => m - {MARK}

  function Erased(s: Json): Json {
    WalkNodes(s, UNMARK)
  }

  function ErasedNode(m: Keywords): Keywords {
    WalkChildren(Obj(m), UNMARK) - {MARK}
  }

  lemma ErasedIs(m: Keywords)
    ensures Erased(Obj(m)) == Obj(ErasedNode(m))
  {
  }

  lemma ErasedAt(m: Keywords, k: Text)
    requires k in m && k != MARK
    ensures k in ErasedNode(m) && ErasedNode(m)[k] == WalkKeyword(Obj(m), k, UNMARK)
  {
  }

  lemma ErasedItems(m: Keywords)
    requires ITEMS in m
    ensures ITEMS in ErasedNode(m) && ErasedNode(m)[ITEMS] == Erased(m[ITEMS])
    ensures m[ITEMS].Obj? ==> ErasedNode(m)[ITEMS] == Obj(ErasedNode(m[ITEMS].m))
  {
    ErasedAt(m, ITEMS);
    if m[ITEMS].Obj? { ErasedIs(m[ITEMS].m); }
  }

  lemma ErasedProperties(m: Keywords)
    requires PROPERTIES in m
    ensures PROPERTIES in ErasedNode(m) && ErasedNode(m)[PROPERTIES].Obj? == m[PROPERTIES].Obj?
    ensures m[PROPERTIES].Obj? ==> ErasedNode(m)[PROPERTIES].m.Keys == m[PROPERTIES].m.Keys
    ensures m[PROPERTIES].Obj? ==> forall name :: name in m[PROPERTIES].m ==> ErasedNode(m)[PROPERTIES].m[name] == Erased(m[PROPERTIES].m[name])
  {
    ErasedAt(m, PROPERTIES);
  }

  lemma ErasedSame(m: Keywords, k: Text)
    requires k != MARK && k != PROPERTIES && !IsSingle(k) && !IsListing(k)
    ensures k in ErasedNode(m) <==> k in m
    ensures k in m ==> ErasedNode(m)[k] == m[k]
  {
    if k in m { ErasedAt(m, k); }
  }

  lemma ErasedKeeps(pass: Pass, m: Keywords, path: string)
    ensures Converts(pass, ErasedNode(m), path) == Converts(pass, m, path)
  {
    ErasedSame(m, TYPE);
    if ITEMS in m {
      ErasedItems(m);
      if m[ITEMS].Obj? {
        var items := m[ITEMS].m;
        if PROPERTIES in items { ErasedProperties(items); }
        ErasedVariables(m);
      }
    }
  }

  lemma ErasedVariables(m: Keywords)
    requires ITEMS in m && m[ITEMS].Obj?
    ensures EnvMaps.Variables(ErasedNode(m)).Keys == EnvMaps.Variables(m).Keys
    ensures forall name :: name in EnvMaps.Variables(m) ==>
      EnvMaps.Variables(ErasedNode(m))[name] == Erased(EnvMaps.Variables(m)[name])
  {
    ErasedItems(m);
    if PROPERTIES in m[ITEMS].m { ErasedProperties(m[ITEMS].m); }
  }

  /** What all three passes make of a node: an object with these entries. */
  function Turned(m: Keywords, entry: Json): Keywords
    requires TYPE in m
  {
    m[TYPE := ReplaceType(m[TYPE], ARRAY, OBJECT)][ADDITIONAL_PROPERTIES := entry] - DROPPED
  }

  function Entry(pass: Pass, m: Keywords, path: string): Json
    requires Converts(pass, m, path)
  {
    match pass
    case Env => Obj(map[ANY_OF := Arr([EnvMaps.SCALAR, EnvMaps.Variables(m)[VALUE_FROM]])])
    case Ports => Obj(PortMaps.Unnamed(m[ITEMS].m))
    case Arrays(_) => m[ITEMS]
  }

  lemma AllTurn(pass: Pass, m: Keywords, path: string)
    requires Converts(pass, m, path)
    ensures Rewritten(pass, m, path) == Turned(m, Entry(pass, m, path))
  {
  }

  lemma ErasedTurned(m: Keywords, entry: Json)
    requires TYPE in m && TYPE in ErasedNode(m)
    ensures ErasedNode(Turned(m, entry)[MARK := Bool(true)]) == Turned(ErasedNode(m), Erased(entry))
  {
    var marked := Turned(m, entry)[MARK := Bool(true)];
    var left, right := ErasedNode(marked), Turned(ErasedNode(m), Erased(entry));
    ErasedEnds(m, entry, marked);
    assert left.Keys == right.Keys;
    forall k | k in left && k != ADDITIONAL_PROPERTIES && k != TYPE ensures left[k] == right[k] { ErasedKept(m, marked, k); }
    assert left == right;
  }

  lemma ErasedEnds(m: Keywords, entry: Json, marked: Keywords)
    requires TYPE in m && TYPE in ErasedNode(m) && marked == Turned(m, entry)[MARK := Bool(true)]
    ensures TYPE in ErasedNode(marked) && ErasedNode(marked)[TYPE] == ReplaceType(ErasedNode(m)[TYPE], ARRAY, OBJECT)
    ensures ADDITIONAL_PROPERTIES in ErasedNode(marked) && ErasedNode(marked)[ADDITIONAL_PROPERTIES] == Erased(entry)
  {
    ErasedSame(m, TYPE);
    ErasedSame(marked, TYPE);
    ErasedAt(marked, ADDITIONAL_PROPERTIES);
  }

  /** A keyword that a conversion keeps is erased the same before and after. */
  lemma ErasedKept(m: Keywords, n: Keywords, k: Text)
    requires k in m && k in n && m[k] == n[k] && k in ErasedNode(m) && k in ErasedNode(n)
    ensures ErasedNode(n)[k] == ErasedNode(m)[k]
  {
    ErasedAt(n, k);
    ErasedAt(m, k);
    KeywordAlone(m, n, k);
  }

  lemma ErasedRewriting(pass: Pass, m: Keywords, path: string)
    requires Converts(pass, m, path) && Converts(pass, ErasedNode(m), path)
    ensures ErasedNode(Rewritten(pass, m, path)[MARK := Bool(true)]) == Rewritten(pass, ErasedNode(m), path)
  {
    AllTurn(pass, m, path);
    AllTurn(pass, ErasedNode(m), path);
    ErasedEntry(pass, m, path);
    ErasedTurned(m, Entry(pass, m, path));
  }

  lemma KeywordAlone(m: Keywords, n: Keywords, k: Text)
    requires k in m && k in n && m[k] == n[k]
    ensures WalkKeyword(Obj(m), k, UNMARK) == WalkKeyword(Obj(n), k, UNMARK)
  {
  }

  lemma ErasedEntry(pass: Pass, m: Keywords, path: string)
    requires Converts(pass, m, path) && Converts(pass, ErasedNode(m), path)
    ensures Erased(Entry(pass, m, path)) == Entry(pass, ErasedNode(m), path)
  {
    ErasedItems(m);
    match pass
    case Env => ErasedVariable(m);
    case Ports =>
      ErasedIs(PortMaps.Unnamed(m[ITEMS].m));
      ErasedPort(m[ITEMS].m);
    case Arrays(_) =>
  }

  lemma ErasedVariable(m: Keywords)
    requires EnvMaps.EnvConvertible(m) && EnvMaps.EnvConvertible(ErasedNode(m))
    ensures Erased(Entry(Env, m, "env")) == Entry(Env, ErasedNode(m), "env")
  {
    var valueFrom := EnvMaps.Variables(m)[VALUE_FROM];
    ErasedVariables(m);
    ErasedScalar();
    ErasedChoice(EnvMaps.SCALAR, valueFrom);
  }

  lemma ErasedScalar()
    ensures Erased(EnvMaps.SCALAR) == EnvMaps.SCALAR
  {
    var m := EnvMaps.SCALAR.m;
    ErasedIs(m);
    ErasedSame(m, TYPE);
    ErasedSame(m, DESCRIPTION);
    assert ErasedNode(m) == m;
  }

  lemma ErasedChoice(a: Json, b: Json)
    ensures Erased(Obj(map[ANY_OF := Arr([a, b])])) == Obj(map[ANY_OF := Arr([Erased(a), Erased(b)])])
  {
    var m := map[ANY_OF := Arr([a, b])];
    ErasedIs(m);
    ErasedAt(m, ANY_OF);
    assert WalkList([a, b], UNMARK) == [Erased(a), Erased(b)];
    assert ErasedNode(m) == map[ANY_OF := Arr([Erased(a), Erased(b)])];
  }

  lemma ErasedPort(items: Keywords)
    requires PortMaps.NamesPorts(items) && PortMaps.NamesPorts(ErasedNode(items))
    ensures ErasedNode(PortMaps.Unnamed(items)) == PortMaps.Unnamed(ErasedNode(items))
  {
    var n := PortMaps.Unnamed(items);
    var left, right := ErasedNode(n), PortMaps.Unnamed(ErasedNode(items));
    assert left.Keys == right.Keys;
    forall k | k in left ensures left[k] == right[k] {
      if k == PROPERTIES {
        ErasedPortProperties(items);
      } else if k == REQUIRED {
        ErasedSame(items, REQUIRED);
        ErasedSame(n, REQUIRED);
      } else {
        ErasedAt(n, k);
        ErasedAt(items, k);
        KeywordAlone(items, n, k);
      }
    }
    assert left == right;
  }

  function ErasedEach(props: map<Text, Json>): map<Text, Json> {
    map name | name in props :: Erased(props[name])
  }

  lemma ErasedPropertiesAre(m: Keywords)
    requires PROPERTIES in m && m[PROPERTIES].Obj?
    ensures PROPERTIES in ErasedNode(m) && ErasedNode(m)[PROPERTIES] == Obj(ErasedEach(m[PROPERTIES].m))
  {
    ErasedProperties(m);
    assert ErasedNode(m)[PROPERTIES].m == ErasedEach(m[PROPERTIES].m);
  }

  lemma ErasedWithout(props: map<Text, Json>, name: Text)
    ensures ErasedEach(props - {name}) == ErasedEach(props) - {name}
  {
  }

  lemma ErasedPortProperties(items: Keywords)
    requires PortMaps.NamesPorts(items) && PortMaps.NamesPorts(ErasedNode(items))
    ensures PROPERTIES in ErasedNode(PortMaps.Unnamed(items))
    ensures ErasedNode(PortMaps.Unnamed(items))[PROPERTIES] == PortMaps.Unnamed(ErasedNode(items))[PROPERTIES]
  {
    ErasedPropertiesAre(items);
    ErasedPropertiesAre(PortMaps.Unnamed(items));
    ErasedWithout(items[PROPERTIES].m, NAME);
  }

  /** Without the marks, a marking pass is the pass. */
  lemma {:induction false} MarkingIsThePass(pass: Pass, s: Json, path: string)
    ensures Erased(WalkAt(s, path, Marking(pass))) == WalkAt(Erased(s), path, VisitorOf(pass))
    decreases s, 2
  {
    if s.Obj? {
      var n := WalkBelowAt(s, path, Marking(pass));
      BelowIsThePass(pass, s, path);
      ErasedKeeps(pass, n, path);
      if Converts(pass, n, path) {
        ErasedRewriting(pass, n, path);
      }
      ErasedIs(Marking(pass)(n, path));
      ErasedIs(s.m);
    }
  }

  lemma {:induction false} BelowIsThePass(pass: Pass, s: Json, path: string)
    requires s.Obj?
    ensures ErasedNode(WalkBelowAt(s, path, Marking(pass))) == WalkBelowAt(Obj(ErasedNode(s.m)), path, VisitorOf(pass))
    decreases s, 1
  {
    var left := ErasedNode(WalkBelowAt(s, path, Marking(pass)));
    var right := WalkBelowAt(Obj(ErasedNode(s.m)), path, VisitorOf(pass));
    forall k | k in left ensures left[k] == right[k] {
      KeywordIsThePass(pass, s, k, path);
    }
    assert left.Keys == right.Keys;
    assert left == right;
  }

  lemma {:induction false} KeywordIsThePass(pass: Pass, s: Json, k: Text, path: string)
    requires s.Obj? && k in s.m && k != MARK
    ensures k in ErasedNode(s.m)
    ensures ErasedNode(WalkBelowAt(s, path, Marking(pass)))[k] == WalkKeywordAt(Obj(ErasedNode(s.m)), k, path, VisitorOf(pass))
    decreases s, 0, 1
  {
    var arg, n := s.m[k], WalkBelowAt(s, path, Marking(pass));
    ErasedAt(n, k);
    ErasedAt(s.m, k);
    assert n[k] == WalkKeywordAt(s, k, path, Marking(pass));
    if k == PROPERTIES && arg.Obj? {
      PropertiesAreThePass(pass, s, n, path);
    } else if IsSingle(k) && arg.Obj? {
      MarkingIsThePass(pass, arg, path);
    } else if IsListing(k) && arg.Arr? {
      BranchesAreThePass(pass, s, n, k, path);
    }
  }

  lemma {:induction false} PropertiesAreThePass(pass: Pass, s: Json, n: Keywords, path: string)
    requires s.Obj? && PROPERTIES in s.m && s.m[PROPERTIES].Obj?
    requires PROPERTIES in n && n[PROPERTIES] == WalkKeywordAt(s, PROPERTIES, path, Marking(pass))
    requires PROPERTIES in ErasedNode(s.m) && ErasedNode(s.m)[PROPERTIES] == WalkKeyword(Obj(s.m), PROPERTIES, UNMARK)
    ensures WalkKeyword(Obj(n), PROPERTIES, UNMARK) == WalkKeywordAt(Obj(ErasedNode(s.m)), PROPERTIES, path, VisitorOf(pass))
    decreases s, 0, 0
  {
    var props := s.m[PROPERTIES].m;
    var left, right := WalkKeyword(Obj(n), PROPERTIES, UNMARK).m, WalkKeywordAt(Obj(ErasedNode(s.m)), PROPERTIES, path, VisitorOf(pass)).m;
    forall name | name in props ensures left[name] == right[name] {
      MarkingIsThePass(pass, props[name], ChildPath(path, name));
    }
    assert left == right;
  }

  lemma {:induction false} BranchesAreThePass(pass: Pass, s: Json, n: Keywords, k: Text, path: string)
    requires s.Obj? && k in s.m && IsListing(k) && s.m[k].Arr?
    requires k in n && n[k] == WalkKeywordAt(s, k, path, Marking(pass))
    requires k in ErasedNode(s.m) && ErasedNode(s.m)[k] == WalkKeyword(Obj(s.m), k, UNMARK)
    ensures WalkKeyword(Obj(n), k, UNMARK) == WalkKeywordAt(Obj(ErasedNode(s.m)), k, path, VisitorOf(pass))
    decreases s, 0, 0
  {
    var list := s.m[k].a;
    var left, right := WalkKeyword(Obj(n), k, UNMARK).a, WalkKeywordAt(Obj(ErasedNode(s.m)), k, path, VisitorOf(pass)).a;
    forall i | 0 <= i < |list| ensures left[i] == right[i] {
      MarkingIsThePass(pass, list[i], path);
    }
    assert left == right;
  }

  // ----- a marked node is no array -----

  predicate MarkedIsNoArray(m: Keywords) {
    MARK in m ==> !TypeIncludes(m, ARRAY)
  }

  predicate Unmarked(m: Keywords) {
    MARK !in m
  }

  lemma {:induction false} UnmarkedAtFirst(s: Json)
    requires Everywhere(s, Unmarked)
    ensures Everywhere(s, MarkedIsNoArray)
    decreases s, 1
  {
    if s.Obj? {
      forall k | k in s.m ensures EverywhereBelow(s, k, MarkedIsNoArray) { UnmarkedBelow(s, k); }
    }
  }

  lemma {:induction false} UnmarkedBelow(s: Json, k: Text)
    requires s.Obj? && k in s.m && EverywhereBelow(s, k, Unmarked)
    ensures EverywhereBelow(s, k, MarkedIsNoArray)
    decreases s, 0
  {
    var arg := s.m[k];
    if k == PROPERTIES && arg.Obj? {
      forall name | name in arg.m ensures Everywhere(arg.m[name], MarkedIsNoArray) { UnmarkedAtFirst(arg.m[name]); }
    } else if IsSingle(k) {
      UnmarkedAtFirst(arg);
    } else if IsListing(k) && arg.Arr? {
      forall i | 0 <= i < |arg.a| ensures Everywhere(arg.a[i], MarkedIsNoArray) { UnmarkedAtFirst(arg.a[i]); }
    }
  }

  /** A node is no array after its conversion, and the nodes below it are those it had below. */
  lemma MarkingKeepsNode(pass: Pass, m: Keywords, path: string)
    requires Everywhere(Obj(m), MarkedIsNoArray)
    ensures Everywhere(Obj(Marking(pass)(m, path)), MarkedIsNoArray)
  {
    if Converts(pass, m, path) {
      var r := Marking(pass)(m, path);
      assert EverywhereBelow(Obj(m), ITEMS, MarkedIsNoArray);
      EntriesKeepMarks(pass, m, path);
      assert !TypeIncludes(r, ARRAY);
      forall k | k in r ensures EverywhereBelow(Obj(r), k, MarkedIsNoArray) {
        if k != ADDITIONAL_PROPERTIES && k != TYPE && k != MARK { assert EverywhereBelow(Obj(m), k, MarkedIsNoArray); }
      }
    }
  }

  lemma EntriesKeepMarks(pass: Pass, m: Keywords, path: string)
    requires Converts(pass, m, path) && Everywhere(m[ITEMS], MarkedIsNoArray)
    ensures Everywhere(Rewritten(pass, m, path)[ADDITIONAL_PROPERTIES], MarkedIsNoArray)
  {
    match pass
    case Env => VariableKeepsMarks(m);
    case Ports => PortKeepsMarks(m[ITEMS].m);
    case Arrays(_) =>
  }

  lemma VariableKeepsMarks(m: Keywords)
    requires EnvMaps.EnvConvertible(m) && Everywhere(m[ITEMS], MarkedIsNoArray)
    ensures Everywhere(EnvMaps.EnvConverted(m)[ADDITIONAL_PROPERTIES], MarkedIsNoArray)
  {
    var items, entry := m[ITEMS], EnvMaps.EnvConverted(m)[ADDITIONAL_PROPERTIES];
    assert EverywhereBelow(items, PROPERTIES, MarkedIsNoArray);
    var valueFrom := items.m[PROPERTIES].m[VALUE_FROM];
    assert entry.m.Keys == {ANY_OF} && entry.m[ANY_OF].a == [EnvMaps.SCALAR, valueFrom];
    assert Everywhere(EnvMaps.SCALAR, MarkedIsNoArray);
    assert EverywhereBelow(entry, ANY_OF, MarkedIsNoArray);
  }

  lemma PortKeepsMarks(items: Keywords)
    requires PortMaps.NamesPorts(items) && Everywhere(Obj(items), MarkedIsNoArray)
    ensures Everywhere(Obj(PortMaps.Unnamed(items)), MarkedIsNoArray)
  {
    var n := PortMaps.Unnamed(items);
    assert EverywhereBelow(Obj(items), PROPERTIES, MarkedIsNoArray);
    forall k | k in n ensures EverywhereBelow(Obj(n), k, MarkedIsNoArray) {
      assert EverywhereBelow(Obj(items), k, MarkedIsNoArray);
    }
  }

  /** So every pass leaves every marked node no array. */
  lemma {:induction false} MarkingKeeps(pass: Pass, s: Json, path: string)
    requires Everywhere(s, MarkedIsNoArray)
    ensures Everywhere(WalkAt(s, path, Marking(pass)), MarkedIsNoArray)
    decreases s, 2
  {
    if s.Obj? {
      BelowKeeps(pass, s, path);
      MarkingKeepsNode(pass, WalkBelowAt(s, path, Marking(pass)), path);
    }
  }

  lemma {:induction false} BelowKeeps(pass: Pass, s: Json, path: string)
    requires s.Obj? && Everywhere(s, MarkedIsNoArray)
    ensures Everywhere(Obj(WalkBelowAt(s, path, Marking(pass))), MarkedIsNoArray)
    decreases s, 1
  {
    var n := WalkBelowAt(s, path, Marking(pass));
    assert TYPE in s.m ==> n[TYPE] == s.m[TYPE];
    forall k | k in n ensures EverywhereBelow(Obj(n), k, MarkedIsNoArray) {
      assert n[k] == WalkKeywordAt(s, k, path, Marking(pass));
      KeywordKeeps(pass, s, k, path);
    }
  }

  lemma {:induction false} KeywordKeeps(pass: Pass, s: Json, k: Text, path: string)
    requires s.Obj? && k in s.m && EverywhereBelow(s, k, MarkedIsNoArray)
    ensures EverywhereBelow(Obj(WalkBelowAt(s, path, Marking(pass))), k, MarkedIsNoArray)
    decreases s, 0
  {
    var arg, r := s.m[k], WalkKeywordAt(s, k, path, Marking(pass));
    assert WalkBelowAt(s, path, Marking(pass))[k] == r;
    if k == PROPERTIES && arg.Obj? {
      forall name | name in arg.m ensures Everywhere(r.m[name], MarkedIsNoArray) {
        MarkingKeeps(pass, arg.m[name], ChildPath(path, name));
      }
    } else if IsSingle(k) {
      MarkingKeeps(pass, arg, path);
    } else if IsListing(k) && arg.Arr? {
      forall i | 0 <= i < |arg.a| ensures Everywhere(r.a[i], MarkedIsNoArray) { MarkingKeeps(pass, arg.a[i], path); }
    }
  }

  // ----- no node is converted twice -----

  /** Every node a pass visits, if it carries a mark, is no array. */
  lemma {:induction false} VisitsKeepMarks(pass: Pass, s: Json, path: string, p: string, m: Keywords)
    requires Everywhere(s, MarkedIsNoArray) && Visited(s, path, Marking(pass), p, m)
    ensures MarkedIsNoArray(m)
    decreases s, 1
  {
    BelowKeeps(pass, s, path);
    if !(path == p && m == WalkBelowAt(s, path, Marking(pass))) {
      var k :| k in s.m && VisitedBelow(s, k, path, Marking(pass), p, m);
      VisitsBelowKeepMarks(pass, s, k, path, p, m);
    }
  }

  lemma {:induction false} VisitsBelowKeepMarks(pass: Pass, s: Json, k: Text, path: string, p: string, m: Keywords)
    requires s.Obj? && k in s.m && EverywhereBelow(s, k, MarkedIsNoArray) && VisitedBelow(s, k, path, Marking(pass), p, m)
    ensures MarkedIsNoArray(m)
    decreases s, 0
  {
    var arg := s.m[k];
    if k == PROPERTIES {
      var name :| name in arg.m && Visited(arg.m[name], ChildPath(path, name), Marking(pass), p, m);
      VisitsKeepMarks(pass, arg.m[name], ChildPath(path, name), p, m);
    } else if IsSingle(k) {
      VisitsKeepMarks(pass, arg, path, p, m);
    } else {
      var i :| 0 <= i < |arg.a| && Visited(arg.a[i], path, Marking(pass), p, m);
      VisitsKeepMarks(pass, arg.a[i], path, p, m);
    }
  }

  /** The schema before a pass, after those before it, in this order. */
  function Before(s: Json, pass: Pass): Json {
    match pass
    case Env => s
    case Ports => WalkAt(s, "", Marking(Env))
    case Arrays(_) => WalkAt(WalkAt(s, "", Marking(Env)), "", Marking(Ports))
  }

  /** What a pass converts, no pass before it, nor the pass itself below the node, has converted. */
  lemma ConvertedOnce(s: Json, pass: Pass, p: string, m: Keywords)
    requires Everywhere(s, Unmarked)
    requires Visited(Before(s, pass), "", Marking(pass), p, m) && Converts(pass, m, p)
    ensures MARK !in m
  {
    UnmarkedAtFirst(s);
    MarkingKeeps(Env, s, "");
    MarkingKeeps(Ports, WalkAt(s, "", Marking(Env)), "");
    VisitsKeepMarks(pass, Before(s, pass), "", p, m);
  }

  function ThreePasses(s: Json, ignore: set<string>): Json {
    WalkAt(WalkAt(WalkAt(s, "", VisitorOf(Env)), "", VisitorOf(Ports)), "", VisitorOf(Arrays(ignore)))
  }

  /** After the three, outside the ignored paths, no node of the schema lists objects. */
  lemma NoneLeftAfterAll(s: Json, ignore: set<string>, p: string, m: Keywords)
    requires NodeAt(ThreePasses(s, ignore), "", p, m) && p !in ignore
    ensures !ListsObjects(m)
  {
    NoArrayIsLeft(WalkAt(WalkAt(s, "", VisitorOf(Env)), "", VisitorOf(Ports)), "", ignore, p, m);
  }

  /** The three marking passes, without the marks, are the three passes. */
  lemma MarkingIsThreePasses(s: Json, ignore: set<string>)
    ensures Erased(WalkAt(Before(s, Arrays(ignore)), "", Marking(Arrays(ignore)))) == ThreePasses(Erased(s), ignore)
  {
    MarkingIsThePass(Env, s, "");
    MarkingIsThePass(Ports, Before(s, Ports), "");
    MarkingIsThePass(Arrays(ignore), Before(s, Arrays(ignore)), "");
  }
}
