/** Letting string fields hold a template (templatedStrings.go). */
module TemplatedStrings {
  import opened Json
  import opened Schema
  import opened Walk
  import opened Agreement
  import opened SchemaTypes

  // ----- what a visit does to a node -----

  const VALIDATION: seq<Text> := [ENUM, CONST, PATTERN, FORMAT, MIN_LENGTH, MAX_LENGTH]

  predicate IsValidation(k: Text) {
    k == ENUM || k == CONST || k == PATTERN || k == FORMAT || k == MIN_LENGTH || k == MAX_LENGTH
  }

  const TEMPLATE := Only(PATTERN, Str(TEMPLATE_PATTERN))

  predicate Combined(m: Keywords) {
    ANY_OF in m || ONE_OF in m || ALL_OF in m || NOT in m
  }

  function Validation(m: Keywords): Keywords {
    map k | k in m && IsValidation(k) :: m[k]
  }

  predicate Relaxable(m: Keywords) {
    TypeIncludes(m, STRING) && !Combined(m) && Validation(m) != map[]
  }

  function Rest(m: Keywords): Keywords {
    map k | k in m && !IsValidation(k) :: m[k]
  }

  function RelaxNode(m: Keywords): Keywords {
    if Relaxable(m) then Rest(m)[ANY_OF := Arr([Obj(Validation(m)), TEMPLATE])] else m
  }

  function Relax(s: Json): Json {
    WalkNodes(s, RelaxNode)
  }

  // ----- the visitor -----

  method RelaxStringNode(node: GoMap)
    modifies node
    ensures node.kw == RelaxNode(old(node.kw))
  {
    var isString := SchemaTypeIncludes(node.kw, STRING);
    if !isString {
      return;
    }
    var combining := [ANY_OF, ONE_OF, ALL_OF, NOT];
    for i := 0 to |combining|
      invariant forall j :: 0 <= j < i ==> combining[j] !in node.kw
      invariant node.kw == old(node.kw)
    {
      if combining[i] in node.kw {
        return;
      }
    }
    assert !Combined(node.kw) by {
      assert combining[0] == ANY_OF && combining[1] == ONE_OF && combining[2] == ALL_OF && combining[3] == NOT;
    }
    var validation := TakeValidation(node);
    if validation == map[] {
      NothingTaken(old(node.kw));
      return;
    }
    node.kw := node.kw[ANY_OF := Arr([Obj(validation), TEMPLATE])];
  }

  /** Moves the validation keywords out of the node. */
  method TakeValidation(node: GoMap) returns (validation: Keywords)
    modifies node
    ensures validation == Validation(old(node.kw)) && node.kw == Rest(old(node.kw))
  {
    validation := map[];
    for i := 0 to |VALIDATION|
      invariant forall k :: k in validation <==> k in old(node.kw) && k in VALIDATION[..i]
      invariant forall k :: k in validation ==> validation[k] == old(node.kw)[k]
      invariant forall k :: k in node.kw <==> k in old(node.kw) && k !in VALIDATION[..i]
      invariant forall k :: k in node.kw ==> node.kw[k] == old(node.kw)[k]
    {
      var key := VALIDATION[i];
      assert VALIDATION[..i + 1] == VALIDATION[..i] + [key];
      ValidationIsDistinct(i);
      if key in node.kw {
        validation := validation[key := node.kw[key]];
        node.kw := node.kw - {key};
      }
    }
    assert VALIDATION[..|VALIDATION|] == VALIDATION;
    forall k ensures k in VALIDATION <==> IsValidation(k) { ValidationIsListed(k); }
  }

  lemma ValidationIsDistinct(i: nat)
    requires i < |VALIDATION|
    ensures VALIDATION[i] !in VALIDATION[..i]
  {
    assert VALIDATION[0] == ENUM && VALIDATION[1] == CONST && VALIDATION[2] == PATTERN;
    assert VALIDATION[3] == FORMAT && VALIDATION[4] == MIN_LENGTH && VALIDATION[5] == MAX_LENGTH;
  }

  lemma NothingTaken(m: Keywords)
    requires Validation(m) == map[]
    ensures Rest(m) == m
  {
    assert forall k :: k in m && IsValidation(k) ==> k in Validation(m);
  }

  lemma ValidationIsListed(k: Text)
    ensures k in VALIDATION <==> IsValidation(k)
  {
    assert VALIDATION[0] == ENUM && VALIDATION[1] == CONST && VALIDATION[2] == PATTERN;
    assert VALIDATION[3] == FORMAT && VALIDATION[4] == MIN_LENGTH && VALIDATION[5] == MAX_LENGTH;
  }

  /** The mutation. */
  method Mutate(schema: Json) returns (r: Json)
    ensures r == Relax(schema)
  {
    r := WalkSchemaNodes(schema, RelaxNode);
  }

  // ----- relaxing twice is relaxing once -----

  ghost predicate Settled(m: Keywords) {
    !Relaxable(m)
  }

  lemma {:induction false} RelaxSettles(s: Json)
    ensures Everywhere(Relax(s), Settled)
    decreases s, 1
  {
    if s.Obj? {
      var n := WalkChildren(s, RelaxNode);
      forall k | k in n ensures EverywhereBelow(Obj(n), k, Settled) { RelaxSettlesBelow(s, k); }
      VisitSettles(n);
    }
  }

  lemma {:induction false} RelaxSettlesBelow(s: Json, k: Text)
    requires s.Obj? && k in s.m
    ensures EverywhereBelow(Obj(WalkChildren(s, RelaxNode)), k, Settled)
    decreases s, 0
  {
    var arg := s.m[k];
    if k == PROPERTIES && arg.Obj? {
      forall p | p in arg.m ensures Everywhere(Relax(arg.m[p]), Settled) { RelaxSettles(arg.m[p]); }
    } else if IsSingle(k) {
      RelaxSettles(arg);
    } else if IsListing(k) && arg.Arr? {
      var list := WalkList(arg.a, RelaxNode);
      forall i | 0 <= i < |list| ensures Everywhere(list[i], Settled) { RelaxSettles(arg.a[i]); }
      assert WalkKeyword(s, k, RelaxNode) == Arr(list);
    }
  }

  lemma VisitSettles(n: Keywords)
    requires forall k :: k in n ==> EverywhereBelow(Obj(n), k, Settled)
    ensures Everywhere(Obj(RelaxNode(n)), Settled)
  {
    if Relaxable(n) {
      var r := RelaxNode(n);
      AlternativesSettle(n);
      forall k | k in r ensures EverywhereBelow(Obj(r), k, Settled) {
        if k != ANY_OF { assert EverywhereBelow(Obj(n), k, Settled); }
      }
    }
  }

  lemma AlternativesSettle(n: Keywords)
    ensures Everywhere(Obj(Validation(n)), Settled) && Everywhere(TEMPLATE, Settled)
  {
    var wrapped := Validation(n);
    assert TYPE !in wrapped && TYPE !in TEMPLATE.m;
    assert forall k :: k in wrapped ==> EverywhereBelow(Obj(wrapped), k, Settled);
    assert forall k :: k in TEMPLATE.m ==> EverywhereBelow(TEMPLATE, k, Settled);
  }

  lemma RelaxIdempotent(s: Json)
    ensures Relax(Relax(s)) == Relax(s)
  {
    RelaxSettles(s);
    WalkIdentity(Relax(s), RelaxNode, Settled);
  }

  // ----- what a relaxed node accepts -----

  /** A template action in a text: "{{", and "}}" later on. None of the named texts holds one. */
  ghost predicate HasAction(t: Text) {
    t.Other? && exists i, j :: ActionAt(t.spelling, i, j)
  }

  predicate ActionAt(s: string, i: nat, j: nat) {
    i + 2 <= j && j + 2 <= |s| && s[i] == '{' && s[i + 1] == '{' && s[j] == '}' && s[j + 1] == '}'
  }

  /** The regular expressions read the template pattern as it is meant. */
  ghost predicate ReadsTemplates(o: Oracle) {
    forall t :: o.matches(TEMPLATE_PATTERN, t) <==> HasAction(t)
  }

  lemma SplitNode(o: Oracle, m: Keywords, v: Json)
    ensures Valid(o, Obj(m), v) <==> Valid(o, Obj(Rest(m)), v) && Valid(o, Obj(Validation(m)), v)
  {
    var rest, validation := Rest(m), Validation(m);
    forall k | k in rest ensures KeywordOk(o, Obj(rest), k, v) == KeywordOk(o, Obj(m), k, v) {
      SameKeyword(o, m, rest, k, v);
    }
    forall k | k in validation ensures KeywordOk(o, Obj(validation), k, v) == KeywordOk(o, Obj(m), k, v) {
      SameKeyword(o, m, validation, k, v);
    }
    if Valid(o, Obj(rest), v) && Valid(o, Obj(validation), v) {
      forall k | k in m ensures KeywordOk(o, Obj(m), k, v) {
        assert if k in rest then KeywordOk(o, Obj(rest), k, v) else KeywordOk(o, Obj(validation), k, v);
      }
    }
  }

  lemma AnyOfAdded(o: Oracle, m: Keywords, a: Json, b: Json, v: Json)
    requires ANY_OF !in m
    ensures Valid(o, Obj(m[ANY_OF := Arr([a, b])]), v) <==> Valid(o, Obj(m), v) && (Valid(o, a, v) || Valid(o, b, v))
  {
    var n := m[ANY_OF := Arr([a, b])];
    assert n[ANY_OF].a[0] == a && n[ANY_OF].a[1] == b;
    forall k | k in m ensures KeywordOk(o, Obj(n), k, v) == KeywordOk(o, Obj(m), k, v) { SameKeyword(o, m, n, k, v); }
    assert KeywordOk(o, Obj(n), ANY_OF, v) <==> Valid(o, a, v) || Valid(o, b, v);
    if Valid(o, Obj(n), v) {
      forall k | k in m ensures KeywordOk(o, Obj(m), k, v) { assert KeywordOk(o, Obj(n), k, v); }
      assert KeywordOk(o, Obj(n), ANY_OF, v);
    } else if Valid(o, Obj(m), v) {
      forall k | k in m ensures KeywordOk(o, Obj(n), k, v) { assert KeywordOk(o, Obj(m), k, v); }
    }
  }

  lemma TemplateAccepts(o: Oracle, v: Json)
    requires ReadsTemplates(o)
    ensures Valid(o, TEMPLATE, v) <==> (v.Str? ==> HasAction(v.t))
  {
    ValidOnly(o, PATTERN, Str(TEMPLATE_PATTERN), v);
    if v.Str? { assert o.matches(TEMPLATE_PATTERN, v.t) <==> HasAction(v.t); }
  }

  /** A relaxed node gains exactly the texts that hold an action, and what is no text at all:
      its keywords apart from the validation ones still have to be met. */
  lemma RelaxedNodeAccepts(o: Oracle, m: Keywords, v: Json)
    requires ReadsTemplates(o) && Relaxable(m)
    ensures Valid(o, Obj(RelaxNode(m)), v) <==>
      Valid(o, Obj(Rest(m)), v) && (Valid(o, Obj(m), v) || (v.Str? ==> HasAction(v.t)))
  {
    SplitNode(o, m, v);
    AnyOfAdded(o, Rest(m), Obj(Validation(m)), TEMPLATE, v);
    TemplateAccepts(o, v);
  }

  // ----- which nodes are relaxed, and what they become -----

  /** A text node: its type is text, or a list that names it. */
  predicate IsText(m: Keywords) {
    TYPE in m && (m[TYPE] == Str(STRING) || (m[TYPE].Arr? && Str(STRING) in m[TYPE].a))
  }

  /** A text node without combinators that has one of the six has all of them under anyOf, beside the
      pattern of a template; the rest of it stays. */
  lemma RelaxedNodeIs(m: Keywords, six: set<Text>)
    requires six == {ENUM, CONST, PATTERN, FORMAT, MIN_LENGTH, MAX_LENGTH}
    requires IsText(m) && m.Keys !! {ANY_OF, ONE_OF, ALL_OF, NOT} && m.Keys * six != {}
    ensures RelaxNode(m).Keys == m.Keys - six + {ANY_OF}
    ensures forall k :: k in m && k !in six ==> RelaxNode(m)[k] == m[k]
    ensures RelaxNode(m)[ANY_OF] == Arr([Obj(map k | k in m && k in six :: m[k]), Only(PATTERN, Str(TEMPLATE_PATTERN))])
  {
    var k :| k in m.Keys * six;
    assert k in Validation(m);
    assert Validation(m) == map k | k in m && k in six :: m[k];
  }

  /** Any other node stays as it is. */
  lemma OtherNodeStays(m: Keywords, six: set<Text>)
    requires six == {ENUM, CONST, PATTERN, FORMAT, MIN_LENGTH, MAX_LENGTH}
    requires !IsText(m) || ANY_OF in m || ONE_OF in m || ALL_OF in m || NOT in m || m.Keys !! six
    ensures RelaxNode(m) == m
  {
    if m.Keys !! six {
      assert forall k :: k in Validation(m) ==> k in m.Keys * six;
      assert Validation(m) == map[];
    }
  }

  /** What the mutation is for: a text that holds a template action is accepted by a text node,
      whatever the node asks of texts by the six keywords. */
  lemma TemplateIsAccepted(o: Oracle, m: Keywords, t: Text)
    requires ReadsTemplates(o) && HasAction(t) && IsText(m)
    requires forall k :: k in m ==>
      k in {TYPE, ENUM, CONST, PATTERN, FORMAT, MIN_LENGTH, MAX_LENGTH} || IsAnnotation(k)
    ensures Valid(o, Relax(Obj(m)), Str(t))
  {
    NothingBelow(m);
    TextNodeAccepts(o, m, Str(t));
  }

  lemma NothingBelow(m: Keywords)
    requires forall k :: k in m ==> k == TYPE || IsValidation(k) || IsAnnotation(k)
    ensures Relax(Obj(m)) == Obj(RelaxNode(m))
  {
    var s := Obj(m);
    forall k | k in m ensures WalkKeyword(s, k, RelaxNode) == m[k] { assert !IsSingle(k) && !IsListing(k) && k != PROPERTIES; }
    assert WalkChildren(s, RelaxNode) == m;
  }

  lemma TextNodeAccepts(o: Oracle, m: Keywords, v: Json)
    requires ReadsTemplates(o) && v.Str? && HasAction(v.t) && IsText(m)
    requires forall k :: k in m ==> k == TYPE || IsValidation(k) || IsAnnotation(k)
    ensures Valid(o, Obj(RelaxNode(m)), v)
  {
    TextTyped(m, v);
    TypedRestAccepts(o, m, v);
    if Relaxable(m) {
      RelaxedNodeAccepts(o, m, v);
    } else {
      NothingTaken(m);
    }
  }

  lemma TextTyped(m: Keywords, v: Json)
    requires IsText(m) && v.Str?
    ensures TypeOk(m[TYPE], v)
  {
    if m[TYPE].Arr? {
      var i :| 0 <= i < |m[TYPE].a| && m[TYPE].a[i] == Str(STRING);
    }
  }

  // ----- plain values -----

  /** No text of v holds a template action. */
  ghost predicate Plain(v: Json) {
    match v
    case Str(t) => !HasAction(t)
    case Arr(a) => forall i :: 0 <= i < |a| ==> Plain(a[i])
    case Obj(m) => forall k :: k in m ==> Plain(m[k])
    case _ => true
  }

  /** v is among the values that "enum" and "const" list. */
  predicate Lists(m: Keywords, v: Json) {
    (ENUM in m && m[ENUM].Arr? ==> v in m[ENUM].a) && (CONST in m ==> v == m[CONST])
  }

  /** A node that lists its values, and gets relaxed, lists each value its type admits that is no
      text: of null and the booleans that is possible, of the other types never. */
  predicate NonTextsListed(m: Keywords) {
    Relaxable(m) && ((ENUM in m && m[ENUM].Arr?) || CONST in m) ==>
      && !TypeIncludes(m, OBJECT) && !TypeIncludes(m, ARRAY) && !TypeIncludes(m, NUMBER) && !TypeIncludes(m, INTEGER)
      && (TypeIncludes(m, NULL) ==> Lists(m, Null))
      && (TypeIncludes(m, BOOLEAN) ==> Lists(m, Bool(true)) && Lists(m, Bool(false)))
  }

  /** Of the validation keywords, only enum and const ask something of what is no text. */
  lemma NonTextIsValidated(o: Oracle, m: Keywords, v: Json)
    requires !v.Str?
    ensures Valid(o, Obj(Validation(m)), v) <==> Lists(m, v)
  {
    var n := Validation(m);
    if Lists(m, v) {
      forall k | k in n ensures KeywordOk(o, Obj(n), k, v) { assert LeafOk(o, k, n[k], v); }
    }
    if Valid(o, Obj(n), v) {
      assert ENUM in m ==> KeywordOk(o, Obj(n), ENUM, v);
      assert CONST in m ==> KeywordOk(o, Obj(n), CONST, v);
    }
  }

  /** A value of a type the node admits that is no text is listed. */
  lemma AdmittedIsListed(o: Oracle, m: Keywords, v: Json)
    requires Relaxable(m) && NonTextsListed(m) && !v.Str? && Valid(o, Obj(Rest(m)), v)
    ensures Lists(m, v)
  {
    assert KeywordOk(o, Obj(Rest(m)), TYPE, v);
    assert TypeOk(m[TYPE], v);
    if m[TYPE].Arr? {
      var i :| 0 <= i < |m[TYPE].a| && m[TYPE].a[i].Str? && HasType(m[TYPE].a[i].t, v);
      assert TypeIncludes(m, m[TYPE].a[i].t);
    } else {
      assert TypeIncludes(m, m[TYPE].t) && HasType(m[TYPE].t, v);
    }
  }

  lemma VisitIsConservative(o: Oracle, m: Keywords, v: Json)
    requires ReadsTemplates(o) && NonTextsListed(m) && Plain(v)
    ensures Valid(o, Obj(m), v) <==> Valid(o, Obj(RelaxNode(m)), v)
  {
    if Relaxable(m) {
      RelaxedNodeAccepts(o, m, v);
      SplitNode(o, m, v);
      if !v.Str? && Valid(o, Obj(Rest(m)), v) {
        AdmittedIsListed(o, m, v);
        NonTextIsValidated(o, m, v);
      }
    }
  }

  /** Values without templates are accepted after exactly when they were before, however deep,
      and under every combinator. */
  lemma {:induction false} RelaxIsConservative(o: Oracle, s: Json, v: Json)
    requires ReadsTemplates(o) && Everywhere(s, NonTextsListed) && Plain(v)
    ensures Valid(o, s, v) <==> Valid(o, Relax(s), v)
    decreases s, 1
  {
    if s.Obj? {
      forall k | k in s.m ensures WalkAgrees(o, s, RelaxNode, k, v) { RelaxIsConservativeBelow(o, s, k, v); }
      AgreeWalked(o, s, RelaxNode, v);
      VisitKeepsCondition(s);
      VisitIsConservative(o, WalkChildren(s, RelaxNode), v);
    }
  }

  lemma {:induction false} RelaxIsConservativeBelow(o: Oracle, s: Json, k: Text, v: Json)
    requires ReadsTemplates(o) && s.Obj? && k in s.m && EverywhereBelow(s, k, NonTextsListed) && Plain(v)
    ensures WalkAgrees(o, s, RelaxNode, k, v)
    decreases s, 0
  {
    var arg := s.m[k];
    assert WalkChildren(s, RelaxNode)[k] == WalkKeyword(s, k, RelaxNode);
    if k == PROPERTIES && arg.Obj? {
      forall p, w | p in arg.m && Plain(w) ensures Valid(o, arg.m[p], w) == Valid(o, Relax(arg.m[p]), w) {
        RelaxIsConservative(o, arg.m[p], w);
      }
    } else if IsSingle(k) && arg.Obj? {
      forall w | Plain(w) ensures Valid(o, arg, w) == Valid(o, Relax(arg), w) { RelaxIsConservative(o, arg, w); }
    } else if IsListing(k) && arg.Arr? {
      forall i | 0 <= i < |arg.a| ensures Valid(o, arg.a[i], v) == Valid(o, Relax(arg.a[i]), v) {
        RelaxIsConservative(o, arg.a[i], v);
      }
    }
  }

  /** The walk below a node changes neither its type nor its validation keywords. */
  lemma VisitKeepsCondition(s: Json)
    requires s.Obj? && NonTextsListed(s.m)
    ensures NonTextsListed(WalkChildren(s, RelaxNode))
  {
    var n := WalkChildren(s, RelaxNode);
    forall k | k in s.m && (k == TYPE || IsValidation(k)) ensures n[k] == s.m[k] { assert n[k] == WalkKeyword(s, k, RelaxNode); }
    if Relaxable(n) { WalkKeepsRelaxable(s.m, n); }
  }

  lemma WalkKeepsRelaxable(m: Keywords, n: Keywords)
    requires m.Keys == n.Keys && (TYPE in m ==> m[TYPE] == n[TYPE])
    ensures Relaxable(n) ==> Relaxable(m)
  {
    if Relaxable(n) {
      assert Validation(m).Keys == Validation(n).Keys != {};
    }
  }

  // ----- the condition is exact -----

  /** Values of one type, told apart by a number. */
  function Numbered(v: Json): nat {
    match v
    case Num(n) => if n.Floor >= 0 then n.Floor else 0
    case Arr(a) => |a|
    case Obj(m) => if VALUE in m && m[VALUE].Num? && m[VALUE].n.Floor >= 0 then m[VALUE].n.Floor else 0
    case _ => 0
  }

  function Above(list: seq<Json>): (n: nat)
    ensures forall v :: v in list ==> Numbered(v) < n
    decreases |list|
  {
    if list == [] then 0
    else
      var last := |list| - 1;
      var n := Above(list[..last]);
      if Numbered(list[last]) < n then n else Numbered(list[last]) + 1
  }

  /** A value of that type and number. */
  function Fresh(t: Text, n: nat): (v: Json)
    requires t in {OBJECT, ARRAY, NUMBER, INTEGER}
    ensures Numbered(v) == n && !v.Str?
  {
    if t == OBJECT then Only(VALUE, Num(n as real))
    else if t == ARRAY then Arr(seq(n, i => Null))
    else Num(n as real)
  }

  lemma FreshIs(t: Text, n: nat)
    requires t in {OBJECT, ARRAY, NUMBER, INTEGER}
    ensures HasType(t, Fresh(t, n)) && Plain(Fresh(t, n))
  {
  }

  /** A value that is no text, that the type admits and the node does not list. */
  lemma Unlisted(m: Keywords) returns (v: Json)
    requires Relaxable(m) && !NonTextsListed(m)
    ensures !v.Str? && Plain(v) && TypeOk(m[TYPE], v) && !Lists(m, v)
  {
    var listed := (if ENUM in m && m[ENUM].Arr? then m[ENUM].a else []) + (if CONST in m then [m[CONST]] else []);
    var n := Above(listed);
    if t :| t in [OBJECT, ARRAY, NUMBER, INTEGER] && TypeIncludes(m, t) {
      v := Fresh(t, n);
      FreshIs(t, n);
      IncludedIsOk(m, t, v);
      assert v !in listed;
    } else if TypeIncludes(m, NULL) && !Lists(m, Null) {
      v := Null;
      IncludedIsOk(m, NULL, v);
    } else {
      v := Bool(!Lists(m, Bool(true)));
      IncludedIsOk(m, BOOLEAN, v);
    }
  }

  lemma IncludedIsOk(m: Keywords, t: Text, v: Json)
    requires TypeIncludes(m, t) && HasType(t, v)
    ensures TypeOk(m[TYPE], v)
  {
    if m[TYPE].Arr? {
      var i :| 0 <= i < |m[TYPE].a| && m[TYPE].a[i] == Str(t);
    }
  }

  /** Of a node that has a type and annotations besides: relaxing it changes nothing for values
      without templates exactly when it lists all its type admits that is no text. */
  lemma RelaxIsConservativeExactly(o: Oracle, m: Keywords)
    requires ReadsTemplates(o) && Relaxable(m)
    requires forall k :: k in m ==> k == TYPE || IsValidation(k) || IsAnnotation(k)
    ensures NonTextsListed(m) <==> forall v :: Plain(v) ==> (Valid(o, Obj(m), v) <==> Valid(o, Obj(RelaxNode(m)), v))
  {
    if NonTextsListed(m) {
      forall v | Plain(v) ensures Valid(o, Obj(m), v) <==> Valid(o, Obj(RelaxNode(m)), v) { VisitIsConservative(o, m, v); }
    } else {
      var v := Unlisted(m);
      TypedRestAccepts(o, m, v);
      RelaxedNodeAccepts(o, m, v);
      SplitNode(o, m, v);
      NonTextIsValidated(o, m, v);
    }
  }

  lemma TypedRestAccepts(o: Oracle, m: Keywords, v: Json)
    requires TYPE in m && TypeOk(m[TYPE], v) && forall k :: k in m ==> k == TYPE || IsValidation(k) || IsAnnotation(k)
    ensures Valid(o, Obj(Rest(m)), v)
  {
    var rest := Rest(m);
    forall k | k in rest ensures KeywordOk(o, Obj(rest), k, v) { assert k != TYPE ==> LeafOk(o, k, rest[k], v); }
  }

  const NULLABLE: Keywords := map[TYPE := Arr([Str(STRING), Str(NULL)]), ENUM := Arr([Str(NAME)])]

  /** Without the condition it fails: a nullable list of values accepts null once relaxed. */
  lemma NullableListGainsNull(o: Oracle)
    requires ReadsTemplates(o)
    ensures !Valid(o, Obj(NULLABLE), Null) && Valid(o, Relax(Obj(NULLABLE)), Null)
  {
    assert !KeywordOk(o, Obj(NULLABLE), ENUM, Null);
    NullableRelaxable();
    RelaxedNodeAccepts(o, NULLABLE, Null);
    NullableRestAccepts(o);
  }

  lemma NullableRelaxable()
    ensures Relaxable(NULLABLE) && Relax(Obj(NULLABLE)) == Obj(RelaxNode(NULLABLE))
  {
    assert NULLABLE[TYPE].a[0] == Str(STRING);
    assert ENUM in Validation(NULLABLE);
    var s := Obj(NULLABLE);
    assert forall k :: k in s.m ==> WalkKeyword(s, k, RelaxNode) == s.m[k];
    assert WalkChildren(s, RelaxNode) == s.m;
  }

  lemma NullableRestAccepts(o: Oracle)
    ensures Valid(o, Obj(Rest(NULLABLE)), Null)
  {
    var rest := Rest(NULLABLE);
    assert rest.Keys == {TYPE};
    assert rest[TYPE].a[1] == Str(NULL);
    assert KeywordOk(o, Obj(rest), TYPE, Null);
  }
}
