/** Named ports become maps keyed by the name (portMaps.go). */
module PortMaps {
  import opened Json
  import opened Schema
  import opened Walk
  import opened Agreement
  import opened SchemaTypes
  import opened PathWalk
  import opened SchemaNodes
  import opened ArraysToMaps

  predicate IsPortPath(path: string) {
    path == "ports" || (|path| >= 6 && path[|path| - 6..] == ".ports")
  }

  predicate NamesPorts(items: Keywords) {
    PROPERTIES in items && items[PROPERTIES].Obj? && NAME in items[PROPERTIES].m &&
    (PORT in items[PROPERTIES].m || CONTAINER_PORT in items[PROPERTIES].m)
  }

  predicate PortConvertible(m: Keywords) {
    TypeIncludes(m, ARRAY) && ITEMS in m && m[ITEMS].Obj? && NamesPorts(m[ITEMS].m)
  }

  /** slices.DeleteFunc of the name. */
  function WithoutName(list: seq<Json>): seq<Json>
    decreases |list|
  {
    if list == [] then []
    else
      var last := list[|list| - 1];
      WithoutName(list[..|list| - 1]) + (if last == Str(NAME) then [] else [last])
  }

  /** A port without its name, which is now its key. */
  function Unnamed(items: Keywords): Keywords
    requires NamesPorts(items)
  {
    var nameless := items[PROPERTIES := Obj(items[PROPERTIES].m - {NAME})];
    if REQUIRED in items && items[REQUIRED].Arr? then nameless[REQUIRED := Arr(WithoutName(items[REQUIRED].a))] else nameless
  }

  function PortConverted(m: Keywords): Keywords
    requires PortConvertible(m)
  {
    m[TYPE := ReplaceType(m[TYPE], ARRAY, OBJECT)][ADDITIONAL_PROPERTIES := Obj(Unnamed(m[ITEMS].m))] - DROPPED
  }

  const PORT_VISIT: PathVisitor :=
    (m: Keywords, path: string) => if IsPortPath(path) && PortConvertible(m) then PortConverted(m) else m

  method DeleteName(list: seq<Json>) returns (r: seq<Json>)
    ensures r == WithoutName(list)
  {
    r := [];
    for i := 0 to |list|
      invariant r == WithoutName(list[..i])
    {
      assert list[..i + 1][..i] == list[..i];
      if list[i] != Str(NAME) {
        r := r + [list[i]];
      }
    }
    assert list[..|list|] == list;
  }

  method TakeNameOut(items: GoMap)
    requires NamesPorts(items.kw)
    modifies items
    ensures items.kw == Unnamed(old(items.kw))
  {
    items.kw := items.kw[PROPERTIES := Obj(items.kw[PROPERTIES].m - {NAME})];
    if REQUIRED in items.kw && items.kw[REQUIRED].Arr? {
      var required := DeleteName(items.kw[REQUIRED].a);
      items.kw := items.kw[REQUIRED := Arr(required)];
    }
  }

  method ConvertPortNodeToMap(node: GoMap) returns (converted: bool)
    modifies node
    ensures converted == PortConvertible(old(node.kw))
    ensures node.kw == if converted then PortConverted(old(node.kw)) else old(node.kw)
  {
    var isArray := SchemaTypeIncludes(node.kw, ARRAY);
    if !isArray || ITEMS !in node.kw || !node.kw[ITEMS].Obj? || !NamesPorts(node.kw[ITEMS].m) {
      return false;
    }
    var items := new GoMap(node.kw[ITEMS].m);
    TakeNameOut(items);
    var t := ReplaceSchemaType(node.kw[TYPE], ARRAY, OBJECT);
    node.kw := node.kw[TYPE := t];
    node.kw := node.kw[ADDITIONAL_PROPERTIES := Obj(items.kw)];
    DropArrayKeywords(node);
    return true;
  }

  /** The mutation, and the paths it reports. */
  method Mutate(schema: Json) returns (r: Json, paths: seq<string>)
    ensures r == WalkAt(schema, "", PORT_VISIT)
    ensures forall p :: p in paths <==> (p == "ports" || EndsIn(p, ".ports")) && PortsAt(schema, p)
  {
    var log;
    r, log := WalkSchemaNodesWithPath(schema, "", PORT_VISIT);
    paths := ConvertedPaths(log, (m, path) => IsPortPath(path) && PortConvertible(m));
    forall p ensures IsPortPath(p) <==> p == "ports" || EndsIn(p, ".ports") { PortPathEnds(p); }
    forall p ensures PortsVisited(schema, p) <==> PortsAt(schema, p) { VisitedPorts(schema, p); }
  }

  // ----- which nodes are concerned -----

  lemma PortPathEnds(p: string)
    ensures IsPortPath(p) <==> p == "ports" || EndsIn(p, ".ports")
  {
    if |p| >= 6 && p[|p| - 6..] == ".ports" { assert p == p[..|p| - 6] + ".ports"; }
    if q :| p == q + ".ports" { assert p[|p| - 6..] == ".ports"; }
  }

  /** The node lists objects that have a name, and a port or a container port. */
  predicate ListsPorts(m: Keywords) {
    ListsObjects(m) &&
    var items := m[ITEMS].m;
    && PROPERTIES in items && items[PROPERTIES].Obj?
    && NAME in items[PROPERTIES].m
    && (PORT in items[PROPERTIES].m || CONTAINER_PORT in items[PROPERTIES].m)
  }

  ghost predicate PortsAt(s: Json, p: string) {
    exists m :: NodeAt(s, "", p, m) && ListsPorts(m)
  }

  ghost predicate PortsVisited(s: Json, p: string) {
    exists m :: Visited(s, "", PORT_VISIT, p, m) && PortConvertible(m)
  }

  lemma ConvertibleListsPorts(m: Keywords)
    ensures PortConvertible(m) <==> ListsPorts(m)
  {
    ConvertibleListsObjects(m);
  }

  lemma PropertiesUntouched(m: Keywords, path: string)
    ensures PROPERTIES in PORT_VISIT(m, path) <==> PROPERTIES in m
    ensures PROPERTIES in m ==> PORT_VISIT(m, path)[PROPERTIES] == m[PROPERTIES]
  {
    assert PROPERTIES !in DROPPED;
  }

  /** Converting the nodes below keeps it that way. */
  lemma StillPorts(n: Keywords, path: string)
    ensures PortConvertible(WalkBelowAt(Obj(n), path, PORT_VISIT)) <==> PortConvertible(n)
  {
    var m := WalkBelowAt(Obj(n), path, PORT_VISIT);
    assert TYPE in n ==> m[TYPE] == WalkKeywordAt(Obj(n), TYPE, path, PORT_VISIT) == n[TYPE];
    if ITEMS in n {
      assert m[ITEMS] == WalkKeywordAt(Obj(n), ITEMS, path, PORT_VISIT);
      if n[ITEMS].Obj? {
        PropertiesUntouched(WalkBelowAt(n[ITEMS], path, PORT_VISIT), path);
        PropertiesStay(n[ITEMS], path, PORT_VISIT);
      }
    }
  }

  /** What the walk meets at a path, and what the schema has there. */
  lemma VisitedPorts(s: Json, p: string)
    ensures PortsVisited(s, p) <==> PortsAt(s, p)
  {
    if m :| Visited(s, "", PORT_VISIT, p, m) && PortConvertible(m) {
      VisitedAreTheNodes(s, PORT_VISIT, p, m);
      var n :| NodeAt(s, "", p, n) && BecomesAt(n, p, PORT_VISIT, m);
      StillPorts(n, p);
      ConvertibleListsPorts(n);
    }
    if n :| NodeAt(s, "", p, n) && ListsPorts(n) {
      NodeIsVisited(s, "", PORT_VISIT, p, n);
      StillPorts(n, p);
      ConvertibleListsPorts(n);
    }
  }

  /** A list of ports at such a path becomes a map: what it was but for the six array keywords, and
      the type takes objects for arrays. What its entries accept is said by EntryAccepts. */
  lemma VisitedBecomesPorts(m: Keywords, path: string)
    requires ListsPorts(m) && (path == "ports" || EndsIn(path, ".ports"))
    ensures var n := PORT_VISIT(m, path);
      n.Keys == m.Keys + {ADDITIONAL_PROPERTIES} - {ITEMS, MIN_ITEMS, MAX_ITEMS, UNIQUE_ITEMS, LIST_TYPE, LIST_MAP_KEYS}
    ensures var n := PORT_VISIT(m, path); forall k :: k in n && k != ADDITIONAL_PROPERTIES && k != TYPE ==> n[k] == m[k]
    ensures var n := PORT_VISIT(m, path); forall v :: TypeOk(n[TYPE], v) <==> !v.Arr? && (v.Obj? || TypeOk(m[TYPE], v))
  {
    PortPathEnds(path);
    ConvertibleListsPorts(m);
    forall v { ReplacedTypeAccepts(m[TYPE], v); }
  }

  /** Its entries are described as the ports were, but for the property "name". */
  lemma EntryIsUnnamed(m: Keywords, path: string)
    requires ListsPorts(m) && (path == "ports" || EndsIn(path, ".ports"))
    ensures var n := PORT_VISIT(m, path);
      ADDITIONAL_PROPERTIES in n && n[ADDITIONAL_PROPERTIES].Obj? && n[ADDITIONAL_PROPERTIES].m.Keys == m[ITEMS].m.Keys
    ensures var items, entry := m[ITEMS].m, PORT_VISIT(m, path)[ADDITIONAL_PROPERTIES].m;
      entry[PROPERTIES] == Obj(items[PROPERTIES].m - {NAME}) && forall k :: k in items && k != PROPERTIES && k != REQUIRED ==> entry[k] == items[k]
    ensures var items, entry := m[ITEMS].m, PORT_VISIT(m, path)[ADDITIONAL_PROPERTIES].m;
      REQUIRED in items ==> entry[REQUIRED] == if items[REQUIRED].Arr? then Arr(WithoutName(items[REQUIRED].a)) else items[REQUIRED]
  {
    PortPathEnds(path);
    ConvertibleListsPorts(m);
  }

  /** Any other node is left as it is. */
  lemma OtherStays(m: Keywords, path: string)
    requires !ListsPorts(m) || !(path == "ports" || EndsIn(path, ".ports"))
    ensures PORT_VISIT(m, path) == m
  {
    PortPathEnds(path);
    ConvertibleListsPorts(m);
  }

  // ----- what an entry accepts -----

  /** The names keep their order, and "name" is gone: a list in two parts is cleared part by part. */
  lemma {:induction false} WithoutNameConcat(a: seq<Json>, b: seq<Json>)
    ensures WithoutName(a + b) == WithoutName(a) + WithoutName(b)
    decreases |b|
  {
    if b == [] {
      assert a + b == a;
    } else {
      var last := |b| - 1;
      WithoutNameConcat(a, b[..last]);
      assert (a + b)[..|a + b| - 1] == a + b[..last];
    }
  }

  lemma WithoutNameOne(r: Json)
    ensures WithoutName([r]) == if r == Str(NAME) then [] else [r]
  {
    assert [r][..0] == [];
  }

  lemma {:induction false} WithoutNameHas(list: seq<Json>, r: Json)
    ensures r in WithoutName(list) <==> r in list && r != Str(NAME)
    decreases |list|
  {
    if list != [] {
      WithoutNameHas(list[..|list| - 1], r);
      assert r in list <==> r in list[..|list| - 1] || r == list[|list| - 1];
    }
  }

  /** The keywords that judge a port by its properties. */
  predicate JudgedByProperties(items: Keywords) {
    forall k :: k in items ==>
      k == TYPE || k == REQUIRED || k == PROPERTIES || k == ADDITIONAL_PROPERTIES || IsAnnotation(k)
  }

  lemma UnnamedAccepts(o: Oracle, items: Keywords, name: Json, port: map<Text, Json>)
    requires NamesPorts(items) && JudgedByProperties(items)
    requires NAME !in port && Valid(o, items[PROPERTIES].m[NAME], name)
    ensures Valid(o, Obj(Unnamed(items)), Obj(port)) <==> Valid(o, Obj(items), Obj(port[NAME := name]))
  {
    var n, v, w := Unnamed(items), Obj(port), Obj(port[NAME := name]);
    forall k | k in items ensures KeywordOk(o, Obj(n), k, v) == KeywordOk(o, Obj(items), k, w) {
      UnnamedKeyword(o, items, name, port, k);
    }
    SameKeywords(o, n, v, items, w);
  }

  lemma UnnamedKeyword(o: Oracle, items: Keywords, name: Json, port: map<Text, Json>, k: Text)
    requires NamesPorts(items) && JudgedByProperties(items) && k in items
    requires NAME !in port && Valid(o, items[PROPERTIES].m[NAME], name)
    ensures KeywordOk(o, Obj(Unnamed(items)), k, Obj(port)) == KeywordOk(o, Obj(items), k, Obj(port[NAME := name]))
  {
    if k == PROPERTIES {
      UnnamedProperties(o, items, name, port);
    } else if k == REQUIRED {
      UnnamedRequired(items, name, port);
    } else if k == ADDITIONAL_PROPERTIES {
      UnnamedAdditional(o, items, name, port);
    }
  }

  /** A port put under its name is accepted exactly when the port with that name in it was. */
  lemma EntryAccepts(o: Oracle, m: Keywords, path: string, name: Json, port: map<Text, Json>)
    requires ListsPorts(m) && (path == "ports" || EndsIn(path, ".ports")) && JudgedByProperties(m[ITEMS].m)
    requires NAME !in port && Valid(o, m[ITEMS].m[PROPERTIES].m[NAME], name)
    ensures ADDITIONAL_PROPERTIES in PORT_VISIT(m, path)
    ensures Valid(o, PORT_VISIT(m, path)[ADDITIONAL_PROPERTIES], Obj(port)) <==> Valid(o, m[ITEMS], Obj(port[NAME := name]))
  {
    PortPathEnds(path);
    ConvertibleListsPorts(m);
    UnnamedAccepts(o, m[ITEMS].m, name, port);
    assert Obj(m[ITEMS].m) == m[ITEMS];
  }

  lemma SameKeywords(o: Oracle, n: Keywords, v: Json, m: Keywords, w: Json)
    requires n.Keys == m.Keys && forall k :: k in m ==> KeywordOk(o, Obj(n), k, v) == KeywordOk(o, Obj(m), k, w)
    ensures Valid(o, Obj(n), v) == Valid(o, Obj(m), w)
  {
    if Valid(o, Obj(n), v) {
      forall k | k in m ensures KeywordOk(o, Obj(m), k, w) { assert KeywordOk(o, Obj(n), k, v); }
    }
    if Valid(o, Obj(m), w) {
      forall k | k in n ensures KeywordOk(o, Obj(n), k, v) { assert KeywordOk(o, Obj(m), k, w); }
    }
  }

  lemma UnnamedProperties(o: Oracle, items: Keywords, name: Json, port: map<Text, Json>)
    requires NamesPorts(items) && NAME !in port && Valid(o, items[PROPERTIES].m[NAME], name)
    ensures PropertiesOk(o, Obj(Unnamed(items)), Obj(port)) == PropertiesOk(o, Obj(items), Obj(port[NAME := name]))
  {
    var props, w := items[PROPERTIES].m, port[NAME := name];
    var fewer := props - {NAME};
    assert Unnamed(items)[PROPERTIES] == Obj(fewer);
    assert forall p :: p in fewer ==> fewer[p] == props[p];
    assert forall p :: p in props && p != NAME ==> p in fewer;
    assert forall p :: p in port ==> p in w && w[p] == port[p];
  }

  lemma UnnamedRequired(items: Keywords, name: Json, port: map<Text, Json>)
    requires NamesPorts(items) && NAME !in port && REQUIRED in items
    ensures RequiredOk(Unnamed(items)[REQUIRED], Obj(port)) == RequiredOk(items[REQUIRED], Obj(port[NAME := name]))
  {
    if items[REQUIRED].Arr? {
      var list := items[REQUIRED].a;
      forall r ensures r in WithoutName(list) <==> r in list && r != Str(NAME) { WithoutNameHas(list, r); }
    }
  }

  lemma UnnamedAdditional(o: Oracle, items: Keywords, name: Json, port: map<Text, Json>)
    requires NamesPorts(items) && NAME !in port && JudgedByProperties(items) && ADDITIONAL_PROPERTIES in items
    ensures AdditionalPropertiesOk(o, Obj(Unnamed(items)), Obj(port)) ==
      AdditionalPropertiesOk(o, Obj(items), Obj(port[NAME := name]))
  {
    var n, w := Unnamed(items), port[NAME := name];
    assert Named(n) == Named(items) - {NAME} && NAME in Named(items);
    assert PATTERN_PROPERTIES !in items && PATTERN_PROPERTIES !in n;
    assert forall p :: p in w && p !in Named(items) <==> p in port && p !in Named(n);
  }
}
