/** What a schema accepts: JSON Schema Validation (draft-07), for the keywords the mutations
    touch. Whatever the repository leaves to others is a parameter, so every theorem holds for
    each meaning of it: regular expressions, formats, how characters are counted, and the
    keywords named nowhere. */
module Schema {
  import opened Json

  datatype Oracle = Oracle(
    matches: (Text, Text) -> bool,       // pattern, text
    format: (Json, Text) -> bool,        // format, text
    length: Text -> nat,                 // number of characters
    other: (Text, Json, Json) -> bool)   // keyword, its argument, value

  predicate HasType(t: Text, v: Json) {
    if t == NULL then v.Null?
    else if t == BOOLEAN then v.Bool?
    else if t == OBJECT then v.Obj?
    else if t == ARRAY then v.Arr?
    else if t == NUMBER then v.Num?
    else if t == STRING then v.Str?
    else t == INTEGER && v.Num? && v.n.Floor as real == v.n
  }

  /** Section 6.1.1: a type name, or a list of alternatives. */
  predicate TypeOk(t: Json, v: Json) {
    match t
    case Str(name) => HasType(name, v)
    case Arr(names) => exists i :: 0 <= i < |names| && names[i].Str? && HasType(names[i].t, v)
    case _ => true
  }

  /** The names `properties` lists. */
  function Named(m: Keywords): set<Text> {
    if PROPERTIES in m && m[PROPERTIES].Obj? then m[PROPERTIES].m.Keys else {}
  }

  /** The names a `patternProperties` pattern matches. */
  predicate PatternNamed(o: Oracle, m: Keywords, name: Text) {
    PATTERN_PROPERTIES in m && m[PATTERN_PROPERTIES].Obj? &&
    exists p :: p in m[PATTERN_PROPERTIES].m && o.matches(p, name)
  }

  predicate Valid(o: Oracle, s: Json, v: Json)
    decreases s, 2
  {
    var ok := match s
      case Bool(b) => b
      case Obj(m) => forall k {:trigger KeywordOk(o, s, k, v)} :: k in m ==> KeywordOk(o, s, k, v)
      case _ => true;
    ok
  }

  /** What keyword k of node s asks of v. */
  predicate KeywordOk(o: Oracle, s: Json, k: Text, v: Json)
    requires s.Obj? && k in s.m
    decreases s, 1
  {
    var ok :=
      if k == TYPE then TypeOk(s.m[k], v)
      else if k == REQUIRED then RequiredOk(s.m[k], v)
      else if k == PROPERTIES then PropertiesOk(o, s, v)
      else if k == PATTERN_PROPERTIES then PatternPropertiesOk(o, s, v)
      else if k == ADDITIONAL_PROPERTIES then AdditionalPropertiesOk(o, s, v)
      else if k == ITEMS then ItemsOk(o, s, v)
      else if k == ALL_OF then AllOfOk(o, s, v)
      else if k == ANY_OF then AnyOfOk(o, s, v)
      else if k == ONE_OF then OneOfOk(o, s, v)
      else if k == NOT then !Valid(o, s.m[k], v)
      else LeafOk(o, k, s.m[k], v);
    ok
  }

  /** Section 6.5.3. */
  predicate RequiredOk(arg: Json, v: Json) {
    v.Obj? && arg.Arr? ==> forall r :: r in arg.a && r.Str? ==> r.t in v.m
  }

  /** Section 6.5.4. */
  predicate PropertiesOk(o: Oracle, s: Json, v: Json)
    requires s.Obj? && PROPERTIES in s.m
    decreases s, 0
  {
    var arg := s.m[PROPERTIES];
    v.Obj? && arg.Obj? ==> forall p :: p in arg.m && p in v.m ==> Valid(o, arg.m[p], v.m[p])
  }

  /** Section 6.5.5. */
  predicate PatternPropertiesOk(o: Oracle, s: Json, v: Json)
    requires s.Obj? && PATTERN_PROPERTIES in s.m
    decreases s, 0
  {
    var arg := s.m[PATTERN_PROPERTIES];
    v.Obj? && arg.Obj? ==>
      forall p, name :: p in arg.m && name in v.m && o.matches(p, name) ==> Valid(o, arg.m[p], v.m[name])
  }

  /** Section 6.5.6. */
  predicate AdditionalPropertiesOk(o: Oracle, s: Json, v: Json)
    requires s.Obj? && ADDITIONAL_PROPERTIES in s.m
    decreases s, 0
  {
    v.Obj? ==> forall name :: name in v.m && name !in Named(s.m) && !PatternNamed(o, s.m, name) ==>
      Valid(o, s.m[ADDITIONAL_PROPERTIES], v.m[name])
  }

  /** Section 6.4.1. */
  predicate ItemsOk(o: Oracle, s: Json, v: Json)
    requires s.Obj? && ITEMS in s.m
    decreases s, 0
  {
    var arg := s.m[ITEMS];
    v.Arr? ==>
      if arg.Arr? then forall i :: 0 <= i < |arg.a| && i < |v.a| ==> Valid(o, arg.a[i], v.a[i])
      else forall i :: 0 <= i < |v.a| ==> Valid(o, arg, v.a[i])
  }

  /** Section 6.7.1. */
  predicate AllOfOk(o: Oracle, s: Json, v: Json)
    requires s.Obj? && ALL_OF in s.m
    decreases s, 0
  {
    var arg := s.m[ALL_OF];
    arg.Arr? ==> forall i :: 0 <= i < |arg.a| ==> Valid(o, arg.a[i], v)
  }

  /** Section 6.7.2. */
  predicate AnyOfOk(o: Oracle, s: Json, v: Json)
    requires s.Obj? && ANY_OF in s.m
    decreases s, 0
  {
    var arg := s.m[ANY_OF];
    arg.Arr? ==> exists i :: 0 <= i < |arg.a| && Valid(o, arg.a[i], v)
  }

  /** Section 6.7.3. */
  predicate OneOfOk(o: Oracle, s: Json, v: Json)
    requires s.Obj? && ONE_OF in s.m
    decreases s, 0
  {
    var arg := s.m[ONE_OF];
    arg.Arr? ==>
      exists i :: 0 <= i < |arg.a| && Valid(o, arg.a[i], v) && (forall j :: 0 <= j < |arg.a| && Valid(o, arg.a[j], v) ==> j == i)
  }

  /** The keywords that hold no schema. */
  predicate LeafOk(o: Oracle, k: Text, arg: Json, v: Json) {
    var ok :=
      if k == ENUM then arg.Arr? ==> v in arg.a
      else if k == CONST then v == arg
      else if k == PATTERN then v.Str? && arg.Str? ==> o.matches(arg.t, v.t)
      else if k == FORMAT then v.Str? ==> o.format(arg, v.t)
      else if k == MIN_LENGTH then v.Str? && arg.Num? ==> arg.n <= o.length(v.t) as real
      else if k == MAX_LENGTH then v.Str? && arg.Num? ==> o.length(v.t) as real <= arg.n
      else if k == MINIMUM then v.Num? && arg.Num? ==> arg.n <= v.n
      else if k == MAXIMUM then v.Num? && arg.Num? ==> v.n <= arg.n
      else if k == MIN_ITEMS then v.Arr? && arg.Num? ==> arg.n <= |v.a| as real
      else if k == MAX_ITEMS then v.Arr? && arg.Num? ==> |v.a| as real <= arg.n
      else if k == UNIQUE_ITEMS then
        v.Arr? && arg == Bool(true) ==> Distinct(v.a)
      else if IsAnnotation(k) then true
      else o.other(k, arg, v);
    ok
  }

  predicate Distinct(a: seq<Json>) {
    forall i, j :: 0 <= i < j < |a| ==> a[i] != a[j]
  }

  predicate IsAnnotation(k: Text) {
    k == INT_OR_STRING || k == LIST_TYPE || k == LIST_MAP_KEYS || k == DESCRIPTION
  }

  /** A node of one keyword. */
  function Only(k: Text, arg: Json): Json {
    Obj(map[k := arg])
  }

  lemma ValidOnly(o: Oracle, k: Text, arg: Json, v: Json)
    ensures Valid(o, Only(k, arg), v) <==> KeywordOk(o, Only(k, arg), k, v)
  {
  }

  lemma AllOfOne(o: Oracle, a: Json, v: Json)
    ensures Valid(o, Only(ALL_OF, Arr([a])), v) <==> Valid(o, a, v)
  {
    ValidOnly(o, ALL_OF, Arr([a]), v);
    assert [a][0] == a;
  }

  lemma OneOfTwo(o: Oracle, a: Json, b: Json, v: Json)
    ensures Valid(o, Only(ONE_OF, Arr([a, b])), v) <==> Valid(o, a, v) != Valid(o, b, v)
  {
    var s := Only(ONE_OF, Arr([a, b]));
    ValidOnly(o, ONE_OF, Arr([a, b]), v);
    assert [a, b][0] == a && [a, b][1] == b;
  }
}
