/** Container environments become maps of values (envMaps.go). */
module EnvMaps {
  import opened Json
  import opened Schema
  import opened SchemaTypes
  import opened PathWalk
  import opened SchemaNodes
  import opened ArraysToMaps

  const SCALAR: Json := Obj(map[
    TYPE := Arr([Str(STRING), Str(NUMBER), Str(BOOLEAN)]),
    DESCRIPTION := Str(Other("Value of the environment variable."))
  ])

  predicate IsEnvPath(path: string) {
    path == "env" || (|path| >= 4 && path[|path| - 4..] == ".env")
  }

  function Variables(m: Keywords): map<Text, Json> {
    if ITEMS in m && m[ITEMS].Obj? && PROPERTIES in m[ITEMS].m && m[ITEMS].m[PROPERTIES].Obj? then m[ITEMS].m[PROPERTIES].m else map[]
  }

  /** An array of variables: a name, a value, and where else the value may come from. */
  predicate EnvConvertible(m: Keywords) {
    && TypeIncludes(m, ARRAY)
    && VALUE_FROM in Variables(m) && Variables(m)[VALUE_FROM].Obj?
    && NAME in Variables(m) && VALUE in Variables(m)
  }

  function EnvConverted(m: Keywords): Keywords
    requires EnvConvertible(m)
  {
    var entry := Only(ANY_OF, Arr([SCALAR, Variables(m)[VALUE_FROM]]));
    m[TYPE := ReplaceType(m[TYPE], ARRAY, OBJECT)][ADDITIONAL_PROPERTIES := entry] - DROPPED
  }

  const ENV_VISIT: PathVisitor :=
    (m: Keywords, path: string) => if IsEnvPath(path) && EnvConvertible(m) then EnvConverted(m) else m

  method ConvertEnvNodeToMap(node: GoMap) returns (converted: bool)
    modifies node
    ensures converted == EnvConvertible(old(node.kw))
    ensures node.kw == if converted then EnvConverted(old(node.kw)) else old(node.kw)
  {
    var isArray := SchemaTypeIncludes(node.kw, ARRAY);
    if !isArray || ITEMS !in node.kw || !node.kw[ITEMS].Obj? {
      return false;
    }
    var items := node.kw[ITEMS].m;
    if PROPERTIES !in items || !items[PROPERTIES].Obj? {
      return false;
    }
    var props := items[PROPERTIES].m;
    if VALUE_FROM !in props || !props[VALUE_FROM].Obj? || NAME !in props {
      return false;
    }
    if VALUE !in props {
      return false;
    }
    var valueFrom := props[VALUE_FROM];
    var t := ReplaceSchemaType(node.kw[TYPE], ARRAY, OBJECT);
    node.kw := node.kw[TYPE := t];
    node.kw := node.kw[ADDITIONAL_PROPERTIES := Only(ANY_OF, Arr([SCALAR, valueFrom]))];
    DropArrayKeywords(node);
    return true;
  }

  /** The mutation, and the paths it reports. */
  method Mutate(schema: Json) returns (r: Json, paths: seq<string>)
    ensures r == WalkAt(schema, "", ENV_VISIT)
    ensures forall p :: p in paths <==> (p == "env" || EndsIn(p, ".env")) && VariablesAt(schema, p)
  {
    var log;
    r, log := WalkSchemaNodesWithPath(schema, "", ENV_VISIT);
    paths := ConvertedPaths(log, (m, path) => IsEnvPath(path) && EnvConvertible(m));
    forall p ensures IsEnvPath(p) <==> p == "env" || EndsIn(p, ".env") { EnvPathEnds(p); }
    forall p ensures EnvVisited(schema, p) <==> VariablesAt(schema, p) { VisitedVariables(schema, p); }
  }

  // ----- which nodes are concerned -----

  lemma EnvPathEnds(p: string)
    ensures IsEnvPath(p) <==> p == "env" || EndsIn(p, ".env")
  {
    if |p| >= 4 && p[|p| - 4..] == ".env" { assert p == p[..|p| - 4] + ".env"; }
    if q :| p == q + ".env" { assert p[|p| - 4..] == ".env"; }
  }

  /** The node lists objects that have a name, a value, and a schema of where else it comes from. */
  predicate ListsVariables(m: Keywords) {
    ListsObjects(m) &&
    var items := m[ITEMS].m;
    && PROPERTIES in items && items[PROPERTIES].Obj?
    && NAME in items[PROPERTIES].m && VALUE in items[PROPERTIES].m
    && VALUE_FROM in items[PROPERTIES].m && items[PROPERTIES].m[VALUE_FROM].Obj?
  }

  ghost predicate VariablesAt(s: Json, p: string) {
    exists m :: NodeAt(s, "", p, m) && ListsVariables(m)
  }

  ghost predicate EnvVisited(s: Json, p: string) {
    exists m :: Visited(s, "", ENV_VISIT, p, m) && EnvConvertible(m)
  }

  lemma ConvertibleListsVariables(m: Keywords)
    ensures EnvConvertible(m) <==> ListsVariables(m)
  {
    ConvertibleListsObjects(m);
  }

  lemma PropertiesUntouched(m: Keywords, path: string)
    ensures PROPERTIES in ENV_VISIT(m, path) <==> PROPERTIES in m
    ensures PROPERTIES in m ==> ENV_VISIT(m, path)[PROPERTIES] == m[PROPERTIES]
  {
    assert PROPERTIES !in DROPPED;
    if IsEnvPath(path) && EnvConvertible(m) {
      var n := m[TYPE := ReplaceType(m[TYPE], ARRAY, OBJECT)];
      var entry := Only(ANY_OF, Arr([SCALAR, Variables(m)[VALUE_FROM]]));
      assert ENV_VISIT(m, path) == n[ADDITIONAL_PROPERTIES := entry] - DROPPED;
    }
  }

  /** Converting the nodes below keeps it that way. */
  lemma StillVariables(n: Keywords, path: string)
    ensures EnvConvertible(WalkBelowAt(Obj(n), path, ENV_VISIT)) <==> EnvConvertible(n)
  {
    var m := WalkBelowAt(Obj(n), path, ENV_VISIT);
    assert TYPE in n ==> m[TYPE] == WalkKeywordAt(Obj(n), TYPE, path, ENV_VISIT) == n[TYPE];
    if ITEMS in n {
      assert m[ITEMS] == WalkKeywordAt(Obj(n), ITEMS, path, ENV_VISIT);
      if n[ITEMS].Obj? {
        PropertiesUntouched(WalkBelowAt(n[ITEMS], path, ENV_VISIT), path);
        PropertiesStay(n[ITEMS], path, ENV_VISIT);
      }
    }
  }

  /** What the walk meets at a path, and what the schema has there. */
  lemma VisitedVariables(s: Json, p: string)
    ensures EnvVisited(s, p) <==> VariablesAt(s, p)
  {
    if m :| Visited(s, "", ENV_VISIT, p, m) && EnvConvertible(m) {
      VisitedAreTheNodes(s, ENV_VISIT, p, m);
      var n :| NodeAt(s, "", p, n) && BecomesAt(n, p, ENV_VISIT, m);
      StillVariables(n, p);
      ConvertibleListsVariables(n);
    }
    if n :| NodeAt(s, "", p, n) && ListsVariables(n) {
      NodeIsVisited(s, "", ENV_VISIT, p, n);
      StillVariables(n, p);
      ConvertibleListsVariables(n);
    }
  }

  /** A list of variables at such a path becomes a map: what it was but for the six array keywords,
      and the type takes objects for arrays. What its entries accept is said by EntryAccepts. */
  lemma VisitedBecomesVariables(m: Keywords, path: string)
    requires ListsVariables(m) && (path == "env" || EndsIn(path, ".env"))
    ensures var n := ENV_VISIT(m, path);
      n.Keys == m.Keys + {ADDITIONAL_PROPERTIES} - {ITEMS, MIN_ITEMS, MAX_ITEMS, UNIQUE_ITEMS, LIST_TYPE, LIST_MAP_KEYS}
    ensures var n := ENV_VISIT(m, path); forall k :: k in n && k != ADDITIONAL_PROPERTIES && k != TYPE ==> n[k] == m[k]
    ensures var n := ENV_VISIT(m, path); forall v :: TypeOk(n[TYPE], v) <==> !v.Arr? && (v.Obj? || TypeOk(m[TYPE], v))
  {
    EnvPathEnds(path);
    ConvertibleListsVariables(m);
    forall v { ReplacedTypeAccepts(m[TYPE], v); }
  }

  /** Any other node is left as it is. */
  lemma OtherStays(m: Keywords, path: string)
    requires !ListsVariables(m) || !(path == "env" || EndsIn(path, ".env"))
    ensures ENV_VISIT(m, path) == m
  {
    EnvPathEnds(path);
    ConvertibleListsVariables(m);
  }

  // ----- what an entry accepts -----

  /** A variable is a text, a number or a boolean, or what its valueFrom says; and nothing else. */
  lemma EntryAccepts(o: Oracle, m: Keywords, path: string, v: Json)
    requires ListsVariables(m) && (path == "env" || EndsIn(path, ".env"))
    ensures ADDITIONAL_PROPERTIES in ENV_VISIT(m, path)
    ensures Valid(o, ENV_VISIT(m, path)[ADDITIONAL_PROPERTIES], v) <==>
      v.Str? || v.Num? || v.Bool? || Valid(o, m[ITEMS].m[PROPERTIES].m[VALUE_FROM], v)
  {
    EnvPathEnds(path);
    ConvertibleListsVariables(m);
    var valueFrom := Variables(m)[VALUE_FROM];
    ScalarAccepts(o, v);
    ValidOnly(o, ANY_OF, Arr([SCALAR, valueFrom]), v);
    assert [SCALAR, valueFrom][0] == SCALAR && [SCALAR, valueFrom][1] == valueFrom;
  }

  lemma ScalarAccepts(o: Oracle, v: Json)
    ensures Valid(o, SCALAR, v) <==> v.Str? || v.Num? || v.Bool?
  {
    var names := SCALAR.m[TYPE].a;
    assert names[0] == Str(STRING) && names[1] == Str(NUMBER) && names[2] == Str(BOOLEAN);
    assert KeywordOk(o, SCALAR, TYPE, v) <==> v.Str? || v.Num? || v.Bool?;
    assert KeywordOk(o, SCALAR, DESCRIPTION, v);
  }
}
