/** Schemas for which a condition of the theorems about the hoist fails, and the theorem with it. */
module RequiredExamples {
  import opened Collections
  import opened Json
  import opened Schema
  import opened Agreement
  import opened RequiredTree
  import opened Required

  const ANYTHING := Obj(map[])
  const NAMING := Only(PROPERTIES, Only(VALUE, Asking(NAME)))
  const ASKING_ENTRIES := Only(ADDITIONAL_PROPERTIES, Asking(PORT))

  function Asking(name: Text): Json {
    Only(REQUIRED, Arr([Str(name)]))
  }

  function Asks(name: Text): Tree {
    Tree([name], map[], None)
  }

  /** What NAMING and ASKING_ENTRIES ask. */
  const OWN := Tree([], map[VALUE := Asks(NAME)], None)
  const ENTRIES := Tree([], map[], Some(Asks(PORT)))

  /** One entry, which lacks every name. */
  const NAMELESS := Only(VALUE, ANYTHING)

  /** One entry, which has a name and no port. */
  const PORTLESS := Only(VALUE, Only(NAME, Null))

  // ----- what is collected from the parts -----

  lemma AddOneText(r: Text)
    ensures AddTexts([], [r]) == [r] && AddTexts([], []) == []
  {
    assert [r][..0] == [];
    assert AddTexts([], [r]) == AddText(AddTexts([], [r][..0]), r);
  }

  lemma CollectAsking(name: Text)
    requires name != EMPTY
    ensures Collect(Asking(name), false) == Asks(name)
    ensures Strip(Asking(name), false) == ANYTHING
  {
    var list := [Str(name)];
    assert list[..0] == [] && Names(list[..0]) == [];
    assert Names(list) == AddText(Names(list[..0]), name) == [name];
    assert CollectEach(Asking(name)) == None && CollectProperties(Asking(name)) == map[];
    assert Own(Asking(name), false) == Asks(name);
  }

  lemma AskingAsks(o: Oracle, name: Text, m: Keywords)
    ensures Valid(o, Asking(name), Obj(m)) <==> name in m
  {
    ValidOnly(o, REQUIRED, Arr([Str(name)]), Obj(m));
    assert Str(name) in Asking(name).m[REQUIRED].a;
  }

  lemma CollectEntries(s: Json, name: Text)
    requires s.Obj? && name != EMPTY
    requires ADDITIONAL_PROPERTIES in s.m && s.m[ADDITIONAL_PROPERTIES] == Asking(name) && ITEMS !in s.m
    ensures CollectEach(s) == Some(Asks(name))
  {
    CollectAsking(name);
    AddOneText(name);
    assert CollectSingle(s, ADDITIONAL_PROPERTIES) == Asks(name) && CollectSingle(s, ITEMS) == NOTHING;
    assert Merge(NOTHING, Asks(name)) == Asks(name);
  }

  lemma CollectItems(s: Json, name: Text)
    requires s.Obj? && name != EMPTY && ITEMS in s.m && s.m[ITEMS] == Asking(name) && ADDITIONAL_PROPERTIES !in s.m
    ensures CollectEach(s) == Some(Asks(name))
  {
    CollectAsking(name);
    AddOneText(name);
    assert CollectSingle(s, ITEMS) == Asks(name) && CollectSingle(s, ADDITIONAL_PROPERTIES) == NOTHING;
    assert Merge(NOTHING, Asks(name)) == Asks(name);
  }

  lemma CollectNaming(s: Json)
    requires s.Obj? && PROPERTIES in s.m && s.m[PROPERTIES] == Only(VALUE, Asking(NAME))
    ensures CollectProperties(s) == map[VALUE := Asks(NAME)]
  {
    CollectAsking(NAME);
  }

  predicate Unlisted(m: Keywords) {
    ONE_OF !in m && ANY_OF !in m && ALL_OF !in m
  }

  lemma CollectUnlisted(s: Json, alternative: bool)
    requires s.Obj? && Unlisted(s.m) && REQUIRED !in s.m
    ensures Collect(s, alternative) == Tree([], CollectProperties(s), CollectEach(s))
  {
  }

  /** A node of one listing, whose branches are merged into what the rest of it asks. */
  lemma CollectListed(s: Json, k: Text)
    requires s.Obj? && k in s.m && s.m[k].Arr? && Unlisted(s.m - {k}) && REQUIRED !in s.m
    requires k == ONE_OF || k == ANY_OF || k == ALL_OF
    ensures Collect(s, false) == CollectBranches(s, k, |s.m[k].a|, Tree([], CollectProperties(s), CollectEach(s)))
  {
    assert forall j :: j in s.m && j != k ==> j in s.m - {k};
  }

  lemma TypedNode(o: Oracle, m: Keywords, a: Text, b: Text, v: Json)
    requires m.Keys == {TYPE, a, b} && m[TYPE] == Str(OBJECT) && v.Obj?
    ensures Valid(o, Obj(m), v) <==> KeywordOk(o, Obj(m), a, v) && KeywordOk(o, Obj(m), b, v)
  {
    if KeywordOk(o, Obj(m), a, v) && KeywordOk(o, Obj(m), b, v) {
      forall k | k in m ensures KeywordOk(o, Obj(m), k, v) { assert k == TYPE ==> TypeOk(m[k], v); }
    }
  }

  lemma AnythingAccepts(o: Oracle, v: Json)
    ensures Valid(o, ANYTHING, v)
  {
  }

  /** The check fails at the one entry, which is asked for a name. */
  lemma EntryFails(s: Json, v: Json)
    requires s.Obj? && Unlisted(s.m) && REQUIRED !in s.m && v == NAMELESS
    requires CollectEach(s) == Some(Asks(NAME)) && VALUE !in CollectProperties(s)
    ensures !Check(Collect(s, false), v)
  {
    CollectUnlisted(s, false);
    var t := Collect(s, false);
    assert VALUE in v.m && NAME in t.each.value.required && NAME !in v.m[VALUE].m;
    assert !Check(t.each.value, v.m[VALUE]);
  }

  // ----- the check asks for more than the schema -----

  /** The schema accepts a value that the check stops. */
  ghost predicate Stops(o: Oracle, s: Json, v: Json) {
    var stops := Valid(o, s, v) && !Check(Collect(s, false), v);
    stops
  }

  /** items beside a type that allows objects: the check asks the entries of an object too. */
  lemma UntypedItemsAskMore(o: Oracle)
    ensures Stops(o, Only(ITEMS, Asking(NAME)), NAMELESS)
  {
    ItemsSkipObjects(o, Asking(NAME), NAMELESS.m);
    CollectItems(Only(ITEMS, Asking(NAME)), NAME);
    EntryFails(Only(ITEMS, Asking(NAME)), NAMELESS);
  }

  lemma ItemsSkipObjects(o: Oracle, items: Json, m: Keywords)
    ensures Valid(o, Only(ITEMS, items), Obj(m))
  {
    ValidOnly(o, ITEMS, items, Obj(m));
  }

  /** additionalProperties beside a type that allows arrays: the check asks the items of an array too. */
  lemma UntypedEntriesAskMore(o: Oracle)
    ensures Stops(o, Only(ADDITIONAL_PROPERTIES, Asking(NAME)), Arr([ANYTHING]))
  {
    EntriesSkipArrays(o, Asking(NAME), [ANYTHING]);
    CollectEntries(Only(ADDITIONAL_PROPERTIES, Asking(NAME)), NAME);
    ItemFails(Only(ADDITIONAL_PROPERTIES, Asking(NAME)), Arr([ANYTHING]));
  }

  lemma EntriesSkipArrays(o: Oracle, entries: Json, a: seq<Json>)
    ensures Valid(o, Only(ADDITIONAL_PROPERTIES, entries), Arr(a))
  {
    ValidOnly(o, ADDITIONAL_PROPERTIES, entries, Arr(a));
  }

  lemma ItemFails(s: Json, v: Json)
    requires s.Obj? && Unlisted(s.m) && REQUIRED !in s.m && CollectEach(s) == Some(Asks(NAME)) && v == Arr([ANYTHING])
    ensures !Check(Collect(s, false), v)
  {
    CollectUnlisted(s, false);
    var t := Collect(s, false);
    assert NAME in t.each.value.required && NAME !in v.a[0].m && !Check(t.each.value, v.a[0]);
  }

  /** A listed name without a tree of its own: the check asks its entry what the others are asked. */
  lemma ListedNameAsksMore(o: Oracle)
    ensures Stops(o, Obj(map[TYPE := Str(OBJECT), PROPERTIES := Only(VALUE, ANYTHING), ADDITIONAL_PROPERTIES := Asking(NAME)]), NAMELESS)
  {
    ListedName(o, map[TYPE := Str(OBJECT), PROPERTIES := Only(VALUE, ANYTHING), ADDITIONAL_PROPERTIES := Asking(NAME)], NAMELESS);
  }

  lemma ListedName(o: Oracle, m: Keywords, v: Json)
    requires m == map[TYPE := Str(OBJECT), PROPERTIES := Only(VALUE, ANYTHING), ADDITIONAL_PROPERTIES := Asking(NAME)] && v == NAMELESS
    ensures Stops(o, Obj(m), v)
  {
    ListedAccepts(o, m, v);
    CollectEntries(Obj(m), NAME);
    NothingListed(Obj(m));
    EntryFails(Obj(m), v);
  }

  lemma ListedAccepts(o: Oracle, m: Keywords, v: Json)
    requires m.Keys == {TYPE, PROPERTIES, ADDITIONAL_PROPERTIES} && m[TYPE] == Str(OBJECT) && m[PROPERTIES] == Only(VALUE, ANYTHING)
    requires v.Obj? && v.m.Keys == {VALUE}
    ensures Valid(o, Obj(m), v)
  {
    AnythingAccepts(o, v.m[VALUE]);
    TypedNode(o, m, PROPERTIES, ADDITIONAL_PROPERTIES, v);
  }

  lemma NothingListed(s: Json)
    requires s.Obj? && PROPERTIES in s.m && s.m[PROPERTIES] == Only(VALUE, ANYTHING)
    ensures VALUE !in CollectProperties(s)
  {
    CollectAnything(ANYTHING, false);
  }

  /** A pattern that matches the name: the check asks its entry what the others are asked. */
  lemma PatternNameAsksMore(o: Oracle, pattern: Text)
    requires o.matches(pattern, VALUE)
    ensures Stops(o, Obj(map[TYPE := Str(OBJECT), PATTERN_PROPERTIES := Only(pattern, ANYTHING), ADDITIONAL_PROPERTIES := Asking(NAME)]), NAMELESS)
  {
    var m := map[TYPE := Str(OBJECT), PATTERN_PROPERTIES := Only(pattern, ANYTHING), ADDITIONAL_PROPERTIES := Asking(NAME)];
    PatternName(o, pattern, m, NAMELESS);
  }

  lemma PatternName(o: Oracle, pattern: Text, m: Keywords, v: Json)
    requires m == map[TYPE := Str(OBJECT), PATTERN_PROPERTIES := Only(pattern, ANYTHING), ADDITIONAL_PROPERTIES := Asking(NAME)]
    requires o.matches(pattern, VALUE) && v == NAMELESS
    ensures Stops(o, Obj(m), v)
  {
    PatternAccepts(o, pattern, m, v);
    CollectEntries(Obj(m), NAME);
    EntryFails(Obj(m), v);
  }

  lemma PatternAccepts(o: Oracle, pattern: Text, m: Keywords, v: Json)
    requires m.Keys == {TYPE, PATTERN_PROPERTIES, ADDITIONAL_PROPERTIES} && m[TYPE] == Str(OBJECT)
    requires m[PATTERN_PROPERTIES] == Only(pattern, ANYTHING) && o.matches(pattern, VALUE) && v.Obj? && v.m.Keys == {VALUE}
    ensures Valid(o, Obj(m), v)
  {
    AnythingAccepts(o, v.m[VALUE]);
    assert pattern in m[PATTERN_PROPERTIES].m && PatternNamed(o, m, VALUE);
    TypedNode(o, m, PATTERN_PROPERTIES, ADDITIONAL_PROPERTIES, v);
  }

  /** A branch of a oneOf or anyOf that asks for a name below: the check asks for it whichever branch applies. */
  lemma AlternativeAsksMore(o: Oracle, k: Text)
    requires k == ONE_OF || k == ANY_OF
    ensures Stops(o, Only(k, Arr([NAMING, ANYTHING])), NAMELESS)
  {
    NamingRejects(o, NAMELESS);
    AnythingAccepts(o, NAMELESS);
    OneOfThem(o, k, NAMING, ANYTHING, NAMELESS);
    CollectAlternative(Only(k, Arr([NAMING, ANYTHING])), k, NAMING, ANYTHING);
    NamelessFails(Collect(Only(k, Arr([NAMING, ANYTHING])), false), NAMELESS);
  }

  lemma NamingRejects(o: Oracle, v: Json)
    requires v == NAMELESS
    ensures !Valid(o, NAMING, v)
  {
    AskingAsks(o, NAME, map[]);
    ValidOnly(o, PROPERTIES, Only(VALUE, Asking(NAME)), v);
    assert VALUE in v.m && VALUE in NAMING.m[PROPERTIES].m;
  }

  lemma OneOfThem(o: Oracle, k: Text, a: Json, b: Json, v: Json)
    requires (k == ONE_OF || k == ANY_OF) && !Valid(o, a, v) && Valid(o, b, v)
    ensures Valid(o, Only(k, Arr([a, b])), v)
  {
    assert [a, b][0] == a && [a, b][1] == b;
    ValidOnly(o, k, Arr([a, b]), v);
  }

  lemma CollectAlternative(s: Json, k: Text, a: Json, b: Json)
    requires (k == ONE_OF || k == ANY_OF) && s == Only(k, Arr([a, b])) && a == NAMING && b == ANYTHING
    ensures Collect(s, false).properties == map[VALUE := Asks(NAME)]
  {
    CollectNamingItself(a, true);
    CollectAnything(b, true);
    assert CollectProperties(s) == map[] && CollectEach(s) == None;
    CollectListed(s, k);
    CollectTwo(s, k, a, b);
  }

  lemma CollectTwo(s: Json, k: Text, a: Json, b: Json)
    requires s.Obj? && k in s.m && s.m[k] == Arr([a, b]) && Collect(a, k != ALL_OF) == OWN && Collect(b, k != ALL_OF) == NOTHING
    ensures CollectBranches(s, k, 2, NOTHING) == OWN
  {
    assert [a, b][0] == a && [a, b][1] == b;
    TwoBranches(s, k, NOTHING);
    MergeOwn();
  }

  lemma MergeOwn()
    ensures Merge(NOTHING, OWN) == OWN
  {
    AddOneText(NAME);
  }

  lemma CollectNamingItself(s: Json, alternative: bool)
    requires s == NAMING
    ensures Collect(s, alternative) == OWN
  {
    CollectNaming(s);
    CollectUnlisted(s, alternative);
    assert CollectEach(s) == None;
  }

  lemma CollectAnything(s: Json, alternative: bool)
    requires s == ANYTHING
    ensures Collect(s, alternative) == NOTHING
  {
    CollectUnlisted(s, alternative);
    assert CollectProperties(s) == map[] && CollectEach(s) == None;
  }

  lemma TwoBranches(s: Json, k: Text, out: Tree)
    requires s.Obj? && k in s.m && s.m[k].Arr? && |s.m[k].a| == 2
    ensures CollectBranches(s, k, 2, out) == Merge(Merge(out, Collect(s.m[k].a[0], k != ALL_OF)), Collect(s.m[k].a[1], k != ALL_OF))
  {
    OneBranch(s, k, out);
    assert CollectBranches(s, k, 2, out) == Merge(CollectBranches(s, k, 1, out), Collect(s.m[k].a[1], k != ALL_OF));
  }

  lemma NamelessFails(t: Tree, v: Json)
    requires t.properties == map[VALUE := Asks(NAME)] && v == NAMELESS
    ensures !Check(t, v)
  {
    assert NAME in Asks(NAME).required && !Check(t.properties[VALUE], v.m[VALUE]);
  }

  // ----- the check asks for less than the schema did -----

  /** What is left accepts a value that the whole rejects, and the check does not make up for it. */
  ghost predicate Lets(o: Oracle, s: Json, v: Json) {
    var lets := !Valid(o, s, v) && Valid(o, Strip(s, false), v) && Check(Collect(s, false), v);
    lets
  }

  /** The empty name is dropped and not collected. */
  lemma EmptyNameIsDropped(o: Oracle)
    ensures Lets(o, Asking(EMPTY), ANYTHING)
  {
    var list := [Str(EMPTY)];
    AskingAsks(o, EMPTY, map[]);
    assert list[..0] == [] && Names(list[..0]) == [];
    assert Strip(Asking(EMPTY), false) == ANYTHING;
    assert Names(list) == [];
    assert CollectEach(Asking(EMPTY)) == None && CollectProperties(Asking(EMPTY)) == map[];
    assert Empty(Own(Asking(EMPTY), false));
  }

  ghost predicate BranchNode(m: Keywords, k: Text, branch: Json) {
    && (k == ONE_OF || k == ANY_OF || k == ALL_OF)
    && m.Keys == {TYPE, PROPERTIES, k}
    && m[TYPE] == Str(OBJECT) && m[PROPERTIES] == Only(VALUE, Asking(NAME)) && m[k] == Arr([branch])
  }

  /** A property takes its entry from what a branch asks of every entry. */
  lemma BranchMayAskLess(o: Oracle, k: Text)
    requires k == ONE_OF || k == ANY_OF || k == ALL_OF
    ensures Lets(o, Obj(map[TYPE := Str(OBJECT), PROPERTIES := Only(VALUE, Asking(NAME)), k := Arr([ASKING_ENTRIES])]), PORTLESS)
  {
    BranchAsksLess(o, k, map[TYPE := Str(OBJECT), PROPERTIES := Only(VALUE, Asking(NAME)), k := Arr([ASKING_ENTRIES])], ASKING_ENTRIES, PORTLESS);
  }

  lemma BranchAsksLess(o: Oracle, k: Text, m: Keywords, branch: Json, v: Json)
    requires BranchNode(m, k, branch) && branch == ASKING_ENTRIES && v == PORTLESS
    ensures Lets(o, Obj(m), v)
  {
    EntriesReject(o, v);
    OneBranchDecides(o, m, k, branch, v);
    StripBranch(o, k, m, branch, v);
    CollectBranch(k, m, branch);
    MergedPasses(v);
  }

  lemma OneBranchDecides(o: Oracle, n: Keywords, k: Text, branch: Json, v: Json)
    requires (k == ONE_OF || k == ANY_OF || k == ALL_OF) && k in n && n[k] == Arr([branch])
    ensures KeywordOk(o, Obj(n), k, v) <==> Valid(o, branch, v)
    ensures Valid(o, Obj(n), v) ==> Valid(o, branch, v)
  {
    assert n[k].a[0] == branch;
    assert Valid(o, Obj(n), v) ==> KeywordOk(o, Obj(n), k, v);
  }

  lemma EntriesReject(o: Oracle, v: Json)
    requires v == PORTLESS
    ensures !Valid(o, ASKING_ENTRIES, v)
  {
    AskingAsks(o, PORT, v.m[VALUE].m);
    assert VALUE in v.m && !AdditionalPropertiesOk(o, ASKING_ENTRIES, v);
    ValidOnly(o, ADDITIONAL_PROPERTIES, Asking(PORT), v);
  }

  lemma StripBranch(o: Oracle, k: Text, m: Keywords, branch: Json, v: Json)
    requires BranchNode(m, k, branch) && branch == ASKING_ENTRIES && v == PORTLESS
    ensures Valid(o, Strip(Obj(m), false), v)
  {
    var n, left := StripNode(Obj(m), false), Only(ADDITIONAL_PROPERTIES, ANYTHING);
    StripParts(k, m, branch);
    AnyEntryAccepted(o, v);
    OneBranchDecides(o, n, k, left, v);
    AnyValueAccepted(o, n, v);
    TypedNode(o, n, PROPERTIES, k, v);
  }

  lemma AnyValueAccepted(o: Oracle, n: Keywords, v: Json)
    requires PROPERTIES in n && n[PROPERTIES] == Only(VALUE, ANYTHING) && v.Obj? && VALUE in v.m
    ensures KeywordOk(o, Obj(n), PROPERTIES, v)
  {
    AnythingAccepts(o, v.m[VALUE]);
  }

  lemma StripParts(k: Text, m: Keywords, branch: Json)
    requires BranchNode(m, k, branch) && branch == ASKING_ENTRIES
    ensures StripNode(Obj(m), false).Keys == {TYPE, PROPERTIES, k} && StripNode(Obj(m), false)[TYPE] == Str(OBJECT)
    ensures StripNode(Obj(m), false)[PROPERTIES] == Only(VALUE, ANYTHING)
    ensures StripNode(Obj(m), false)[k] == Arr([Only(ADDITIONAL_PROPERTIES, ANYTHING)])
  {
    var n := StripNode(Obj(m), false);
    assert n[TYPE] == StripKeyword(Obj(m), TYPE);
    assert n[PROPERTIES] == StripKeyword(Obj(m), PROPERTIES);
    assert n[k] == StripKeyword(Obj(m), k);
    StripOneProperty(Obj(m));
    StripEntries(k != ALL_OF);
    StripOneBranch(Obj(m), k, branch);
  }

  lemma StripOneProperty(s: Json)
    requires s.Obj? && PROPERTIES in s.m && s.m[PROPERTIES] == Only(VALUE, Asking(NAME))
    ensures StripKeyword(s, PROPERTIES) == Only(VALUE, ANYTHING)
  {
    CollectAsking(NAME);
    assert StripKeyword(s, PROPERTIES).m == map[VALUE := ANYTHING];
  }

  lemma StripOneBranch(s: Json, k: Text, branch: Json)
    requires (k == ONE_OF || k == ANY_OF || k == ALL_OF) && s.Obj? && k in s.m && s.m[k] == Arr([branch])
    ensures StripKeyword(s, k) == Arr([Strip(branch, k != ALL_OF)])
  {
    assert StripKeyword(s, k).a == [Strip(branch, k != ALL_OF)];
  }

  lemma StripEntries(alternative: bool)
    ensures Strip(ASKING_ENTRIES, alternative) == Only(ADDITIONAL_PROPERTIES, ANYTHING)
  {
    CollectAsking(PORT);
    assert StripNode(ASKING_ENTRIES, alternative) == map[ADDITIONAL_PROPERTIES := ANYTHING];
  }

  lemma CollectBranch(k: Text, m: Keywords, branch: Json)
    requires BranchNode(m, k, branch) && branch == ASKING_ENTRIES
    ensures Collect(Obj(m), false) == Merge(OWN, ENTRIES)
  {
    var s := Obj(m);
    BranchOwn(s, k, branch);
    CollectBranchItself(branch, k != ALL_OF);
    CollectListed(s, k);
    OneBranch(s, k, OWN);
  }

  lemma BranchOwn(s: Json, k: Text, branch: Json)
    requires s.Obj? && BranchNode(s.m, k, branch)
    ensures Own(s, false) == OWN
  {
    CollectNaming(s);
    assert CollectEach(s) == None;
  }

  lemma CollectBranchItself(branch: Json, alternative: bool)
    requires branch == ASKING_ENTRIES
    ensures Collect(branch, alternative) == ENTRIES
  {
    CollectEntries(branch, PORT);
    CollectUnlisted(branch, alternative);
    assert CollectProperties(branch) == map[];
  }

  lemma OneBranch(s: Json, k: Text, out: Tree)
    requires s.Obj? && k in s.m && s.m[k].Arr? && |s.m[k].a| >= 1
    ensures CollectBranches(s, k, 1, out) == Merge(out, Collect(s.m[k].a[0], k != ALL_OF))
  {
    assert CollectBranches(s, k, 0, out) == out;
  }

  lemma MergedPasses(v: Json)
    requires v == PORTLESS
    ensures Check(Merge(OWN, ENTRIES), v)
  {
    AddOneText(NAME);
    assert Merge(OWN, ENTRIES) == Tree([], OWN.properties, ENTRIES.each);
    assert Check(OWN.properties[VALUE], v.m[VALUE]);
  }

  /** The same below additionalProperties and items, which share one each. */
  lemma ItemsMayAskLess(o: Oracle)
    ensures Lets(o, Obj(map[ADDITIONAL_PROPERTIES := NAMING, ITEMS := ASKING_ENTRIES]), Arr([PORTLESS]))
  {
    ItemsAskLess(o, map[ADDITIONAL_PROPERTIES := NAMING, ITEMS := ASKING_ENTRIES], Arr([PORTLESS]));
  }

  lemma ItemsAskLess(o: Oracle, m: Keywords, v: Json)
    requires m == map[ADDITIONAL_PROPERTIES := NAMING, ITEMS := ASKING_ENTRIES] && v == Arr([PORTLESS])
    ensures Lets(o, Obj(m), v)
  {
    EntriesReject(o, PORTLESS);
    OneItem(o, m, ASKING_ENTRIES, PORTLESS);
    StripItems(o, m, v);
    CollectBoth(m);
    MergedPasses(PORTLESS);
  }

  lemma StripItems(o: Oracle, m: Keywords, v: Json)
    requires m == map[ADDITIONAL_PROPERTIES := NAMING, ITEMS := ASKING_ENTRIES] && v == Arr([PORTLESS])
    ensures Valid(o, Strip(Obj(m), false), v)
  {
    var n := StripNode(Obj(m), false);
    StripEntries(false);
    AnyEntryAccepted(o, PORTLESS);
    assert n[ITEMS] == StripKeyword(Obj(m), ITEMS);
    OneItem(o, n, Only(ADDITIONAL_PROPERTIES, ANYTHING), PORTLESS);
  }

  lemma AnyEntryAccepted(o: Oracle, v: Json)
    requires v == PORTLESS
    ensures Valid(o, Only(ADDITIONAL_PROPERTIES, ANYTHING), v)
  {
    AnythingAccepts(o, v.m[VALUE]);
    ValidOnly(o, ADDITIONAL_PROPERTIES, ANYTHING, v);
  }

  lemma OneItem(o: Oracle, m: Keywords, items: Json, x: Json)
    requires m.Keys == {ADDITIONAL_PROPERTIES, ITEMS} && m[ITEMS] == items && items.Obj?
    ensures Valid(o, Obj(m), Arr([x])) <==> Valid(o, items, x)
  {
    var v := Arr([x]);
    assert v.a[0] == x;
    assert KeywordOk(o, Obj(m), ITEMS, v) <==> Valid(o, items, x);
    assert KeywordOk(o, Obj(m), ADDITIONAL_PROPERTIES, v);
  }

  lemma CollectBoth(m: Keywords)
    requires m == map[ADDITIONAL_PROPERTIES := NAMING, ITEMS := ASKING_ENTRIES]
    ensures Collect(Obj(m), false) == Tree([], map[], Some(Merge(OWN, ENTRIES)))
  {
    var s := Obj(m);
    CollectNamingItself(NAMING, false);
    CollectBranchItself(ASKING_ENTRIES, false);
    EachOfBoth(s);
    CollectUnlisted(s, false);
  }

  lemma EachOfBoth(s: Json)
    requires s.Obj? && CollectSingle(s, ADDITIONAL_PROPERTIES) == OWN && CollectSingle(s, ITEMS) == ENTRIES
    ensures CollectEach(s) == Some(Merge(OWN, ENTRIES))
  {
    MergeOwn();
  }
}
