/** Schemas and values that the template reads otherwise (_mapsToArrays.tpl): what the conditions of
    ArrayReading.RoundTrip are for. */
module ArrayExamples {
  import opened Json
  import opened Schema
  import opened SchemaTypes
  import opened PathWalk
  import opened SchemaNodes
  import opened ArraysToMaps
  import opened ArrayValues
  import opened ArrayReading

  const LIST: Keywords := map[TYPE := Str(ARRAY), ITEMS := Obj(map[])]
  const MAP_OF_LISTS: Keywords := map[TYPE := Str(OBJECT), ADDITIONAL_PROPERTIES := Obj(LIST)]
  const MIXED: Keywords := map[TYPE := Arr([Str(ARRAY), Str(OBJECT)]), ITEMS := Obj(map[])]

  function ListOf(s: Json): Keywords {
    map[TYPE := Str(ARRAY), ITEMS := s]
  }

  /** An object with one property. */
  function Holding(name: Text, s: Json): Json {
    Only(PROPERTIES, Only(name, s))
  }

  /** The schema accepts the value, which the template does not give back. */
  ghost predicate ReadOtherwise(o: Oracle, ids: Ids, paths: seq<string>, s: Json, ignore: set<string>, v: Json) {
    Valid(o, s, v) && ReadValue(ids, paths, "", Encode(ids, s, "", ignore, v)) != v
  }

  lemma HoldingAccepts(o: Oracle, name: Text, s: Json, v: Json)
    ensures Valid(o, Holding(name, s), Only(name, v)) <==> Valid(o, s, v)
  {
    ValidOnly(o, PROPERTIES, Only(name, s), Only(name, v));
    assert Only(name, s).m[name] == s && Only(name, v).m[name] == v;
  }

  lemma ListAccepts(o: Oracle, s: Json, a: seq<Json>)
    requires !s.Arr? && forall i :: 0 <= i < |a| ==> Valid(o, s, a[i])
    ensures Valid(o, Obj(ListOf(s)), Arr(a))
  {
    var l := Obj(ListOf(s));
    assert KeywordOk(o, l, ITEMS, Arr(a)) && KeywordOk(o, l, TYPE, Arr(a));
  }

  /** A property fits when its value does, below its path. */
  lemma HoldingFits(ids: Ids, paths: seq<string>, name: Text, s: Json, ignore: set<string>, v: Json)
    requires Ordered(ids)
    ensures ReadValue(ids, paths, "", Encode(ids, Holding(name, s), "", ignore, Only(name, v))) == Only(name, v) <==>
      Fits(paths, s, Spell(name), ignore, Field, Spell(name), v)
  {
    var holding, w := Holding(name, s), Only(name, v);
    ReadsBackExactly(ids, paths, holding, "", ignore, Field, "", w);
    assert EntrySchema(holding, "", ignore, name) == s && EntryPath(holding, "", name) == Spell(name);
    assert w.m.Keys == {name} && w.m[name] == v;
  }

  lemma HoldingReadsOtherwise(o: Oracle, ids: Ids, paths: seq<string>, name: Text, s: Json, ignore: set<string>, v: Json)
    requires Ordered(ids) && Valid(o, s, v) && !Fits(paths, s, Spell(name), ignore, Field, Spell(name), v)
    ensures ReadOtherwise(o, ids, paths, Holding(name, s), ignore, Only(name, v))
  {
    HoldingAccepts(o, name, s, v);
    HoldingFits(ids, paths, name, s, ignore, v);
  }

  lemma MapDoesNotFit(paths: seq<string>, s: Json, path: string, ignore: set<string>, at: string, m: map<Text, Json>)
    requires at != "" && at in paths
    ensures !Fits(paths, s, path, ignore, Field, at, Obj(m))
  {
  }

  /** A list at the root stays a map. */
  lemma RootStaysMap(o: Oracle, ids: Ids, paths: seq<string>)
    requires Ordered(ids)
    ensures ReadOtherwise(o, ids, paths, Obj(LIST), {}, Arr([]))
  {
    ListAccepts(o, Obj(map[]), []);
    ReadsBackExactly(ids, paths, Obj(LIST), "", {}, Field, "", Arr([]));
  }

  lemma ListDoesNotFit(paths: seq<string>, path: string, ignore: set<string>, pos: Position, at: string)
    requires path !in ignore && !pos.Field?
    ensures !Fits(paths, Obj(LIST), path, ignore, pos, at, Arr([]))
  {
  }

  /** In a list of lists the inner ones stay maps. */
  lemma InnerListStaysMap(o: Oracle, ids: Ids, paths: seq<string>, name: Text)
    requires Ordered(ids)
    ensures ReadOtherwise(o, ids, paths, Holding(name, Obj(ListOf(Obj(LIST)))), {}, Only(name, Arr([Arr([])])))
  {
    var s, a := Obj(ListOf(Obj(LIST))), [Arr([])];
    ListAccepts(o, Obj(map[]), []);
    ListAccepts(o, Obj(LIST), a);
    ListDoesNotFit(paths, Spell(name), {}, Entry, Spell(name));
    OneItemDoesNotFit(paths, Obj(LIST), Spell(name), {}, Spell(name), Arr([]));
    HoldingReadsOtherwise(o, ids, paths, name, s, {}, Arr(a));
  }

  lemma OneItemDoesNotFit(paths: seq<string>, items: Json, path: string, ignore: set<string>, at: string, v: Json)
    requires items.Obj? && !Fits(paths, items, path, ignore, if path in ignore then Inside else Entry, at, v)
    ensures !Fits(paths, Obj(ListOf(items)), path, ignore, Field, at, Arr([v]))
  {
    assert [v][0] == v;
  }

  /** So does a list inside a list that is kept. */
  lemma ListInKeptListStaysMap(o: Oracle, ids: Ids, paths: seq<string>, name: Text, inner: Text)
    requires Ordered(ids) && Spell(name) != ""
    ensures ReadOtherwise(o, ids, paths, Holding(name, Obj(ListOf(Holding(inner, Obj(LIST))))), {Spell(name)},
      Only(name, Arr([Only(inner, Arr([]))])))
  {
    var ignore, items, a := {Spell(name)}, Holding(inner, Obj(LIST)), [Only(inner, Arr([]))];
    ListAccepts(o, Obj(map[]), []);
    HoldingAccepts(o, inner, Obj(LIST), Arr([]));
    ListAccepts(o, items, a);
    InnerDoesNotFit(paths, name, inner, ignore);
    OneItemDoesNotFit(paths, items, Spell(name), ignore, Spell(name), a[0]);
    HoldingReadsOtherwise(o, ids, paths, name, Obj(ListOf(items)), ignore, Arr(a));
  }

  lemma InnerDoesNotFit(paths: seq<string>, name: Text, inner: Text, ignore: set<string>)
    requires Spell(name) != "" && ignore == {Spell(name)}
    ensures !Fits(paths, Holding(inner, Obj(LIST)), Spell(name), ignore, Inside, Spell(name), Only(inner, Arr([])))
  {
    var holding, v, path := Holding(inner, Obj(LIST)), Only(inner, Arr([])), ChildPath(Spell(name), inner);
    assert |path| > |Spell(name)|;
    assert EntrySchema(holding, Spell(name), ignore, inner) == Obj(LIST) && EntryPath(holding, Spell(name), inner) == path;
    ListDoesNotFit(paths, path, ignore, Inside, path);
    assert inner in v.m && v.m[inner] == Arr([]);
  }

  /** A map of lists becomes a list itself. */
  lemma MapOfListsTurns(o: Oracle, ids: Ids, paths: seq<string>, name: Text, key: Text)
    requires Ordered(ids) && Spell(name) != "" && Reports(paths, Holding(name, Obj(MAP_OF_LISTS)), {})
    ensures ReadOtherwise(o, ids, paths, Holding(name, Obj(MAP_OF_LISTS)), {}, Only(name, Only(key, Arr([]))))
  {
    MapOfListsAccepts(o, key);
    MapOfListsReports(paths, name);
    MapDoesNotFit(paths, Obj(MAP_OF_LISTS), Spell(name), {}, Spell(name), Only(key, Arr([])).m);
    HoldingReadsOtherwise(o, ids, paths, name, Obj(MAP_OF_LISTS), {}, Only(key, Arr([])));
  }

  lemma MapOfListsAccepts(o: Oracle, key: Text)
    ensures Valid(o, Obj(MAP_OF_LISTS), Only(key, Arr([])))
  {
    var s, v := Obj(MAP_OF_LISTS), Only(key, Arr([]));
    ListAccepts(o, Obj(map[]), []);
    assert KeywordOk(o, s, TYPE, v) && KeywordOk(o, s, ADDITIONAL_PROPERTIES, v);
  }

  lemma ListIsConverted(path: string)
    ensures Plain(Obj(LIST), path, {}) && ConvertedAt(Obj(LIST), path, {}, path)
  {
    assert Plain(Obj(map[]), path, {});
  }

  lemma MapOfListsReports(paths: seq<string>, name: Text)
    requires Reports(paths, Holding(name, Obj(MAP_OF_LISTS)), {})
    ensures Spell(name) in paths
  {
    ListIsConverted(Spell(name));
    assert Plain(Obj(MAP_OF_LISTS), Spell(name), {}) && ConvertedAt(Obj(MAP_OF_LISTS), Spell(name), {}, Spell(name));
    HoldingReports(paths, name, Obj(MAP_OF_LISTS), Spell(name));
  }

  /** What is converted below a property is reported. */
  lemma HoldingReports(paths: seq<string>, name: Text, s: Json, q: string)
    requires Reports(paths, Holding(name, s), {}) && Plain(s, Spell(name), {}) && ConvertedAt(s, Spell(name), {}, q)
    ensures q in paths
  {
    HoldingConverts("", name, s, q);
    ReportedIsConverted(paths, Holding(name, s), {}, q);
  }

  lemma HoldingConverts(path: string, name: Text, s: Json, q: string)
    requires Plain(s, ChildPath(path, name), {}) && ConvertedAt(s, ChildPath(path, name), {}, q)
    ensures Plain(Holding(name, s), path, {}) && ConvertedAt(Holding(name, s), path, {}, q)
  {
    var holding := Holding(name, s);
    assert Named(holding.m) == {name} && holding.m[PROPERTIES].m[name] == s;
  }

  /** A map whose name has a dot becomes a list, when it reads like the path of one. */
  lemma DottedNameTurns(o: Oracle, ids: Ids, paths: seq<string>, name: Text, inner: Text)
    requires Ordered(ids) && Reports(paths, Holding(name, Holding(inner, Obj(LIST))), {})
    requires Spell(name) != "" && name != Other(ChildPath(Spell(name), inner))
    ensures ReadOtherwise(o, ids, paths, Holding(name, Holding(inner, Obj(LIST))), {},
      Only(Other(ChildPath(Spell(name), inner)), Obj(map[])))
  {
    var path := ChildPath(Spell(name), inner);
    var s, dotted := Holding(name, Holding(inner, Obj(LIST))), Other(path);
    OtherNameAccepts(o, name, Holding(inner, Obj(LIST)), dotted);
    ListIsConverted(path);
    HoldingConverts(Spell(name), inner, Obj(LIST), path);
    HoldingReports(paths, name, Holding(inner, Obj(LIST)), path);
    DottedDoesNotFit(paths, s, dotted, path);
    ReadsBackExactly(ids, paths, s, "", {}, Field, "", Only(dotted, Obj(map[])));
  }

  lemma OtherNameAccepts(o: Oracle, name: Text, s: Json, other: Text)
    requires name != other
    ensures Valid(o, Holding(name, s), Only(other, Obj(map[])))
  {
    ValidOnly(o, PROPERTIES, Only(name, s), Only(other, Obj(map[])));
  }

  lemma DottedDoesNotFit(paths: seq<string>, s: Json, dotted: Text, path: string)
    requires path != "" && path in paths && Spell(dotted) == path
    ensures !Fits(paths, s, "", {}, Field, "", Only(dotted, Obj(map[])))
  {
    var v := Only(dotted, Obj(map[]));
    MapDoesNotFit(paths, EntrySchema(s, "", {}, dotted), EntryPath(s, "", dotted), {}, path, map[]);
    assert dotted in v.m && v.m[dotted] == Obj(map[]) && ChildPath("", dotted) == path;
  }

  /** An object becomes a list where the schema admits both. */
  lemma MixedTypeTurns(o: Oracle, ids: Ids, paths: seq<string>, name: Text)
    requires Ordered(ids) && Spell(name) != "" && Reports(paths, Holding(name, Obj(MIXED)), {})
    ensures ReadOtherwise(o, ids, paths, Holding(name, Obj(MIXED)), {}, Only(name, Obj(map[])))
  {
    MixedAccepts(o);
    MixedIsReported(paths, name);
    MapDoesNotFit(paths, Obj(MIXED), Spell(name), {}, Spell(name), map[]);
    HoldingReadsOtherwise(o, ids, paths, name, Obj(MIXED), {}, Obj(map[]));
  }

  lemma MixedAccepts(o: Oracle)
    ensures Valid(o, Obj(MIXED), Obj(map[]))
  {
    var s, v := Obj(MIXED), Obj(map[]);
    assert MIXED[TYPE].a[0] == Str(ARRAY) && MIXED[TYPE].a[1] == Str(OBJECT);
    assert KeywordOk(o, s, TYPE, v) && KeywordOk(o, s, ITEMS, v);
  }

  lemma MixedIsReported(paths: seq<string>, name: Text)
    requires Reports(paths, Holding(name, Obj(MIXED)), {})
    ensures Spell(name) in paths
  {
    var s := Holding(name, Obj(MIXED));
    assert MIXED[TYPE].a[0] == Str(ARRAY) && ListsObjects(MIXED);
    assert NodeAt(Obj(MIXED), Spell(name), Spell(name), MIXED);
    assert s.m[PROPERTIES].m[name] == Obj(MIXED) && NodeUnder(s, "", Spell(name), MIXED);
    assert NodeAt(s, "", Spell(name), MIXED);
  }
}
