/** Hoisting "required" out of the schema (Required.go), into the tree that the template
    validation checks once the defaults are merged (_required.tpl). */
module Required {
  import opened Collections
  import opened Json
  import opened Schema
  import opened Walk
  import opened Agreement
  import opened SchemaTypes
  import opened RequiredTree

  // ----- what is collected, and what is left -----

  /** The names of a "required" list, without repetition; what is no name is skipped. */
  function Names(list: seq<Json>): seq<Text>
    decreases |list|
  {
    if list == [] then []
    else
      var names, r := Names(list[..|list| - 1]), list[|list| - 1];
      if r.Str? && r.t != EMPTY then AddText(names, r.t) else names
  }

  function OwnNames(m: Keywords, alternative: bool): seq<Text> {
    if !alternative && REQUIRED in m && m[REQUIRED].Arr? then Names(m[REQUIRED].a) else []
  }

  function Collect(s: Json, alternative: bool): Tree
    decreases s, 4
  {
    if !s.Obj? then NOTHING
    else CollectListing(s, ALL_OF, CollectListing(s, ANY_OF, CollectListing(s, ONE_OF, Own(s, alternative))))
  }

  /** The tree before the branches are merged in. */
  function Own(s: Json, alternative: bool): Tree
    requires s.Obj?
    decreases s, 3
  {
    Tree(OwnNames(s.m, alternative), CollectProperties(s), CollectEach(s))
  }

  function CollectProperties(s: Json): map<Text, Tree>
    requires s.Obj?
    decreases s, 2
  {
    if PROPERTIES in s.m && s.m[PROPERTIES].Obj? then
      var props := s.m[PROPERTIES].m;
      map name | name in props && !Empty(Collect(props[name], false)) :: Collect(props[name], false)
    else map[]
  }

  function CollectSingle(s: Json, k: Text): Tree
    requires s.Obj?
    decreases s, 0
  {
    if k in s.m && s.m[k].Obj? then Collect(s.m[k], false) else NOTHING
  }

  function CollectEach(s: Json): Option<Tree>
    requires s.Obj?
    decreases s, 1
  {
    AddEach(AddEach(None, CollectSingle(s, ADDITIONAL_PROPERTIES)), CollectSingle(s, ITEMS))
  }

  function CollectListing(s: Json, k: Text, out: Tree): Tree
    requires s.Obj?
    decreases s, 2
  {
    if k in s.m && s.m[k].Arr? then CollectBranches(s, k, |s.m[k].a|, out) else out
  }

  /** The first n branches merged into out. */
  function CollectBranches(s: Json, k: Text, n: nat, out: Tree): Tree
    requires s.Obj? && k in s.m && s.m[k].Arr? && n <= |s.m[k].a|
    decreases s, 1, n
  {
    if n == 0 then out
    else Merge(CollectBranches(s, k, n - 1, out), Collect(s.m[k].a[n - 1], k != ALL_OF))
  }

  function Strip(s: Json, alternative: bool): Json
    decreases s, 2
  {
    if s.Obj? then Obj(StripNode(s, alternative)) else s
  }

  function StripNode(s: Json, alternative: bool): Keywords
    requires s.Obj?
    decreases s, 1
  {
    map k | k in s.m && !(k == REQUIRED && !alternative && s.m[k].Arr?) :: StripKeyword(s, k)
  }

  function StripKeyword(s: Json, k: Text): (r: Json)
    requires s.Obj? && k in s.m
    ensures k == PROPERTIES && s.m[k].Obj? ==> r.Obj? && r.m.Keys == s.m[k].m.Keys
    ensures !((k == PROPERTIES || IsSingle(k)) && s.m[k].Obj?) && !(IsListing(k) && s.m[k].Arr?) ==> r == s.m[k]
    decreases s, 0
  {
    var arg := s.m[k];
    if k == PROPERTIES && arg.Obj? then Obj(map name | name in arg.m :: Strip(arg.m[name], false))
    else if IsSingle(k) && arg.Obj? then Strip(arg, false)
    else if IsListing(k) && arg.Arr? then Arr(seq(|arg.a|, i requires 0 <= i < |arg.a| => Strip(arg.a[i], k != ALL_OF)))
    else arg
  }

  // ----- what a tree answers for -----

  /** t asks for every name that stripping s drops. */
  ghost predicate Covers(t: Option<Tree>, s: Json, alternative: bool)
    decreases s, 1
  {
    var covers := s.Obj? ==> forall k :: k in s.m ==> CoversBelow(t, s, k, alternative);
    covers
  }

  ghost predicate CoversBelow(t: Option<Tree>, s: Json, k: Text, alternative: bool)
    requires s.Obj? && k in s.m
    decreases s, 0
  {
    var arg := s.m[k];
    var ok :=
      if k == REQUIRED then
        !alternative && arg.Arr? ==> forall r :: r in arg.a && r.Str? ==> t.Some? && r.t in t.value.required
      else if k == PROPERTIES then
        arg.Obj? ==> forall name :: name in arg.m ==> Covers(At(t, name), arg.m[name], false)
      else if k == ADDITIONAL_PROPERTIES then
        forall name :: name !in Named(s.m) ==> Covers(At(t, name), arg, false)
      else if k == ITEMS then Covers(EachOf(t), arg, false)
      else IsListing(k) && arg.Arr? ==> forall i :: 0 <= i < |arg.a| ==> Covers(t, arg.a[i], k != ALL_OF);
    ok
  }

  /** Where the tree's check passes, stripping changes nothing: under every combinator, a value
      is accepted by what is left exactly when it was by the whole. */
  lemma {:induction false} StrippedAgrees(o: Oracle, t: Option<Tree>, s: Json, alternative: bool, v: Json)
    requires Covers(t, s, alternative) && CheckIf(t, v)
    ensures Valid(o, s, v) <==> Valid(o, Strip(s, alternative), v)
    decreases s, 1
  {
    if s.Obj? {
      var n := StripNode(s, alternative);
      var m := if REQUIRED in s.m && REQUIRED !in n then s.m - {REQUIRED} else s.m;
      StrippedNames(o, s, alternative);
      assert m.Keys == n.Keys;
      forall k | k in m ensures AgreeAt(o, m, n, k, v) { StrippedAgreesAt(o, t, s, alternative, m, k, v); }
      AgreeNodes(o, m, n, v);
      if m != s.m {
        WithoutKeyword(o, s.m, REQUIRED, v);
        assert s == Obj(s.m) && CoversBelow(t, s, REQUIRED, alternative);
      }
    }
  }

  lemma StrippedNames(o: Oracle, s: Json, alternative: bool)
    requires s.Obj?
    ensures SameNames(o, s.m, StripNode(s, alternative))
  {
    var n := StripNode(s, alternative);
    assert PROPERTIES in s.m ==> n[PROPERTIES] == StripKeyword(s, PROPERTIES);
    assert PATTERN_PROPERTIES in s.m ==> n[PATTERN_PROPERTIES] == StripKeyword(s, PATTERN_PROPERTIES);
  }

  lemma {:induction false} StrippedAgreesAt(o: Oracle, t: Option<Tree>, s: Json, alternative: bool, m: Keywords, k: Text, v: Json)
    requires s.Obj? && k in s.m && CoversBelow(t, s, k, alternative) && CheckIf(t, v)
    requires (m == s.m || m == s.m - {REQUIRED}) && k in m && k in StripNode(s, alternative)
    ensures AgreeAt(o, m, StripNode(s, alternative), k, v)
    decreases s, 0, 1
  {
    var arg := s.m[k];
    assert StripNode(s, alternative)[k] == StripKeyword(s, k);
    if k == PROPERTIES && arg.Obj? {
      StrippedEntriesAgree(o, t, s, k, alternative, v);
    } else if IsSingle(k) && arg.Obj? {
      assert Strip(arg, false).Obj? && Named(m) == Named(s.m);
      StrippedEntriesAgree(o, t, s, k, alternative, v);
    } else if IsListing(k) && arg.Arr? {
      forall i | 0 <= i < |arg.a| ensures Valid(o, arg.a[i], v) == Valid(o, Strip(arg.a[i], k != ALL_OF), v) {
        StrippedAgrees(o, t, arg.a[i], k != ALL_OF, v);
      }
    }
  }

  /** The schemas that k holds for the entries of v. */
  lemma {:induction false} StrippedEntriesAgree(o: Oracle, t: Option<Tree>, s: Json, k: Text, alternative: bool, v: Json)
    requires s.Obj? && k in s.m && s.m[k].Obj? && CoversBelow(t, s, k, alternative) && CheckIf(t, v)
    ensures k == PROPERTIES && v.Obj? ==> forall p :: p in s.m[k].m && p in v.m ==>
      Valid(o, s.m[k].m[p], v.m[p]) == Valid(o, Strip(s.m[k].m[p], false), v.m[p])
    ensures k == ADDITIONAL_PROPERTIES && v.Obj? ==> forall p :: p in v.m && p !in Named(s.m) ==>
      Valid(o, s.m[k], v.m[p]) == Valid(o, Strip(s.m[k], false), v.m[p])
    ensures k == ITEMS && v.Arr? ==> forall i :: 0 <= i < |v.a| ==>
      Valid(o, s.m[k], v.a[i]) == Valid(o, Strip(s.m[k], false), v.a[i])
    decreases s, 0, 0
  {
    var arg := s.m[k];
    if v.Obj? && k == PROPERTIES {
      forall p | p in arg.m && p in v.m ensures Valid(o, arg.m[p], v.m[p]) == Valid(o, Strip(arg.m[p], false), v.m[p]) {
        StrippedAgrees(o, At(t, p), arg.m[p], false, v.m[p]);
      }
    } else if v.Obj? && k == ADDITIONAL_PROPERTIES {
      forall p | p in v.m && p !in Named(s.m) ensures Valid(o, arg, v.m[p]) == Valid(o, Strip(arg, false), v.m[p]) {
        StrippedAgrees(o, At(t, p), arg, false, v.m[p]);
      }
    } else if v.Arr? && k == ITEMS {
      forall i | 0 <= i < |v.a| ensures Valid(o, arg, v.a[i]) == Valid(o, Strip(arg, false), v.a[i]) {
        StrippedAgrees(o, EachOf(t), arg, false, v.a[i]);
      }
    }
  }

  // ----- a tree that implies another covers what that one does -----

  predicate ImpliesIf(t: Option<Tree>, u: Option<Tree>) {
    u.Some? ==> Implies(t, u.value)
  }

  lemma {:induction false} ImpliedCovers(t: Option<Tree>, u: Option<Tree>, s: Json, alternative: bool)
    requires ImpliesIf(t, u) && Covers(u, s, alternative)
    ensures Covers(t, s, alternative)
    decreases s, 1
  {
    if s.Obj? {
      forall k | k in s.m ensures CoversBelow(t, s, k, alternative) {
        assert CoversBelow(u, s, k, alternative);
        ImpliedCoversBelow(t, u, s, k, alternative);
      }
    }
  }

  lemma {:induction false} ImpliedCoversBelow(t: Option<Tree>, u: Option<Tree>, s: Json, k: Text, alternative: bool)
    requires ImpliesIf(t, u) && s.Obj? && k in s.m && CoversBelow(u, s, k, alternative)
    ensures CoversBelow(t, s, k, alternative)
    decreases s, 0
  {
    var arg := s.m[k];
    if k == PROPERTIES && arg.Obj? {
      forall name | name in arg.m ensures Covers(At(t, name), arg.m[name], false) {
        ImpliedCovers(At(t, name), At(u, name), arg.m[name], false);
      }
    } else if k == ADDITIONAL_PROPERTIES {
      forall name | name !in Named(s.m) ensures Covers(At(t, name), arg, false) {
        ImpliedCovers(At(t, name), At(u, name), arg, false);
      }
    } else if k == ITEMS {
      ImpliedCovers(EachOf(t), EachOf(u), arg, false);
    } else if IsListing(k) && arg.Arr? {
      forall i | 0 <= i < |arg.a| ensures Covers(t, arg.a[i], k != ALL_OF) { ImpliedCovers(t, u, arg.a[i], k != ALL_OF); }
    }
  }

  /** The merge of two trees covers what either of them does, when it keeps their checks. */
  lemma CoversMerged(a: Tree, b: Tree, s: Json, alternative: bool)
    requires Keeps(a, b) && (Covers(Some(a), s, alternative) || Covers(Some(b), s, alternative))
    ensures Covers(Some(Merge(a, b)), s, alternative)
  {
    MergeImplies(a, b);
    ImpliedCovers(Some(Merge(a, b)), Some(if Covers(Some(a), s, alternative) then a else b), s, alternative);
  }

  // ----- the collected tree answers for the whole schema -----

  predicate NamesOnly(list: seq<Json>) {
    Str(EMPTY) !in list
  }

  /** No merge on the way loses a check, and no name is the empty text. */
  predicate Safe(s: Json, alternative: bool)
    decreases s, 1
  {
    var safe := s.Obj? ==>
      && Keeps(CollectSingle(s, ADDITIONAL_PROPERTIES), CollectSingle(s, ITEMS))
      && SafeListing(s, ONE_OF, Own(s, alternative))
      && SafeListing(s, ANY_OF, CollectListing(s, ONE_OF, Own(s, alternative)))
      && SafeListing(s, ALL_OF, CollectListing(s, ANY_OF, CollectListing(s, ONE_OF, Own(s, alternative))))
      && forall k :: k in s.m ==> SafeBelow(s, k, alternative);
    safe
  }

  predicate SafeListing(s: Json, k: Text, out: Tree)
    requires s.Obj?
    decreases s, 0
  {
    var safe := k in s.m && s.m[k].Arr? ==>
      forall i :: 0 <= i < |s.m[k].a| ==> Keeps(CollectBranches(s, k, i, out), Collect(s.m[k].a[i], k != ALL_OF));
    safe
  }

  predicate SafeBelow(s: Json, k: Text, alternative: bool)
    requires s.Obj? && k in s.m
    decreases s, 0
  {
    var arg := s.m[k];
    var ok :=
      if k == REQUIRED then !alternative && arg.Arr? ==> NamesOnly(arg.a)
      else if k == PROPERTIES then arg.Obj? ==> forall name :: name in arg.m ==> Safe(arg.m[name], false)
      else if IsSingle(k) then Safe(arg, false)
      else IsListing(k) && arg.Arr? ==> forall i :: 0 <= i < |arg.a| ==> Safe(arg.a[i], k != ALL_OF);
    ok
  }

  lemma {:induction false} NamesHas(list: seq<Json>, r: Text)
    ensures r in Names(list) <==> Str(r) in list && r != EMPTY
    decreases |list|
  {
    if list != [] {
      NamesHas(list[..|list| - 1], r);
      assert Str(r) in list <==> Str(r) in list[..|list| - 1] || Str(r) == list[|list| - 1];
    }
  }

  function Collected(s: Json, k: Text): seq<Tree>
    requires s.Obj? && k in s.m && s.m[k].Arr?
  {
    seq(|s.m[k].a|, i requires 0 <= i < |s.m[k].a| => Collect(s.m[k].a[i], k != ALL_OF))
  }

  lemma {:induction false} BranchesMergeAll(s: Json, k: Text, n: nat, out: Tree)
    requires s.Obj? && k in s.m && s.m[k].Arr? && n <= |s.m[k].a|
    ensures CollectBranches(s, k, n, out) == MergeAll(out, Collected(s, k)[..n])
    decreases n
  {
    if n > 0 {
      BranchesMergeAll(s, k, n - 1, out);
      assert Collected(s, k)[..n][..n - 1] == Collected(s, k)[..n - 1];
    }
  }

  predicate ListingImplied(t: Tree, s: Json, k: Text)
    requires s.Obj?
  {
    k in s.m && s.m[k].Arr? ==> AllImplied(t, Collected(s, k))
  }

  /** A safe merge of branches asks for what was asked before, and for what each branch does. */
  lemma ListingImplies(s: Json, k: Text, out: Tree)
    requires s.Obj? && SafeListing(s, k, out)
    ensures Implies(Some(CollectListing(s, k, out)), out)
    ensures ListingImplied(CollectListing(s, k, out), s, k)
  {
    if k in s.m && s.m[k].Arr? {
      var trees := Collected(s, k);
      forall i | 0 <= i < |trees| ensures Keeps(MergeAll(out, trees[..i]), trees[i]) { BranchesMergeAll(s, k, i, out); }
      MergeAllImplies(out, trees);
      BranchesMergeAll(s, k, |trees|, out);
      assert trees[..|trees|] == trees;
    } else {
      ImpliesItself(out);
    }
  }

  lemma ListingChain(t: Tree, u: Tree, s: Json, k: Text)
    requires s.Obj? && Implies(Some(t), u) && ListingImplied(u, s, k)
    ensures ListingImplied(t, s, k)
  {
    if k in s.m && s.m[k].Arr? { AllImpliedChain(t, u, Collected(s, k)); }
  }

  lemma CollectImplies(s: Json, alternative: bool)
    requires s.Obj? && Safe(s, alternative)
    ensures Implies(Some(Collect(s, alternative)), Own(s, alternative))
    ensures forall k :: IsListing(k) ==> ListingImplied(Collect(s, alternative), s, k)
  {
    var own := Own(s, alternative);
    var one := CollectListing(s, ONE_OF, own);
    var any := CollectListing(s, ANY_OF, one);
    var all := CollectListing(s, ALL_OF, any);
    ListingImplies(s, ONE_OF, own);
    ListingImplies(s, ANY_OF, one);
    ListingImplies(s, ALL_OF, any);
    ImpliesChain(any, one, own);
    ImpliesChain(all, any, own);
    ImpliesChain(all, any, one);
    ListingChain(all, any, s, ANY_OF);
    ListingChain(all, one, s, ONE_OF);
  }

  /** Every name that is hoisted is checked: the collected tree answers for the schema. */
  lemma {:induction false} CollectCovers(s: Json, alternative: bool)
    requires Safe(s, alternative)
    ensures Covers(Some(Collect(s, alternative)), s, alternative)
    decreases s, 3
  {
    if s.Obj? {
      CollectImplies(s, alternative);
      forall k | k in s.m ensures CoversBelow(Some(Collect(s, alternative)), s, k, alternative) {
        assert SafeBelow(s, k, alternative);
        if IsListing(k) {
          ListingCovers(Collect(s, alternative), s, k, alternative);
        } else {
          OwnCovers(s, k, alternative);
          ImpliedCoversBelow(Some(Collect(s, alternative)), Some(Own(s, alternative)), s, k, alternative);
        }
      }
    }
  }

  lemma {:induction false} ListingCovers(t: Tree, s: Json, k: Text, alternative: bool)
    requires s.Obj? && k in s.m && IsListing(k) && SafeBelow(s, k, alternative) && ListingImplied(t, s, k)
    ensures CoversBelow(Some(t), s, k, alternative)
    decreases s, 2
  {
    if s.m[k].Arr? {
      forall i | 0 <= i < |s.m[k].a| ensures Covers(Some(t), s.m[k].a[i], k != ALL_OF) {
        CollectCovers(s.m[k].a[i], k != ALL_OF);
        assert Implies(Some(t), Collected(s, k)[i]);
        ImpliedCovers(Some(t), Some(Collect(s.m[k].a[i], k != ALL_OF)), s.m[k].a[i], k != ALL_OF);
      }
    }
  }

  lemma {:induction false} OwnCovers(s: Json, k: Text, alternative: bool)
    requires s.Obj? && k in s.m && !IsListing(k) && SafeBelow(s, k, alternative)
    requires Keeps(CollectSingle(s, ADDITIONAL_PROPERTIES), CollectSingle(s, ITEMS))
    ensures CoversBelow(Some(Own(s, alternative)), s, k, alternative)
    decreases s, 2
  {
    var arg := s.m[k];
    if k == REQUIRED && !alternative && arg.Arr? {
      forall r | r in arg.a && r.Str? ensures r.t in Names(arg.a) { NamesHas(arg.a, r.t); }
    } else if k == PROPERTIES && arg.Obj? {
      OwnCoversProperties(s, alternative);
    } else if IsSingle(k) && arg.Obj? {
      CollectCovers(arg, false);
      EachCovers(s, k);
      OwnEach(s, alternative);
    }
  }

  lemma OwnEach(s: Json, alternative: bool)
    requires s.Obj?
    ensures Own(s, alternative).each == CollectEach(s)
    ensures forall name :: name !in Named(s.m) ==> At(Some(Own(s, alternative)), name) == CollectEach(s)
  {
  }

  lemma {:induction false} OwnCoversProperties(s: Json, alternative: bool)
    requires s.Obj? && PROPERTIES in s.m && s.m[PROPERTIES].Obj? && SafeBelow(s, PROPERTIES, alternative)
    ensures CoversBelow(Some(Own(s, alternative)), s, PROPERTIES, alternative)
    decreases s, 1
  {
    var props, own := s.m[PROPERTIES].m, Own(s, alternative);
    forall name | name in props ensures Covers(At(Some(own), name), props[name], false) {
      CollectCovers(props[name], false);
      if Empty(Collect(props[name], false)) {
        ImpliedCovers(At(Some(own), name), Some(Collect(props[name], false)), props[name], false);
      } else {
        assert own.properties == CollectProperties(s) && name in CollectProperties(s);
        assert own.properties[name] == Collect(props[name], false);
      }
    }
  }

  /** each answers for both keywords. */
  lemma EachCovers(s: Json, k: Text)
    requires s.Obj? && k in s.m && IsSingle(k) && s.m[k].Obj? && Covers(Some(Collect(s.m[k], false)), s.m[k], false)
    requires Keeps(CollectSingle(s, ADDITIONAL_PROPERTIES), CollectSingle(s, ITEMS))
    ensures Covers(CollectEach(s), s.m[k], false)
  {
    var a, b := CollectSingle(s, ADDITIONAL_PROPERTIES), CollectSingle(s, ITEMS);
    EachImplies(a, b);
    ImpliedCovers(CollectEach(s), Some(Collect(s.m[k], false)), s.m[k], false);
  }

  // ----- nothing more is asked than the schema did -----

  /** Where a check on each entry is collected, the schema asks it of each entry too: an array is
      ruled out beside additionalProperties, an object beside items, no listed name goes without a
      tree of its own, and no pattern takes a name away. No oneOf or anyOf branch asks for a name. */
  predicate Exact(s: Json, noObjects: bool, noArrays: bool)
    decreases s, 1
  {
    s.Obj? ==>
      && (Empty(CollectSingle(s, ADDITIONAL_PROPERTIES)) ||
          ((noArrays || Excludes(s.m, ARRAY)) && PATTERN_PROPERTIES !in s.m && Named(s.m) <= CollectProperties(s).Keys))
      && (Empty(CollectSingle(s, ITEMS)) || noObjects || Excludes(s.m, OBJECT))
      && forall k :: k in s.m ==> ExactBelow(s, k, noObjects || Excludes(s.m, OBJECT), noArrays || Excludes(s.m, ARRAY))
  }

  predicate ExactBelow(s: Json, k: Text, noObjects: bool, noArrays: bool)
    requires s.Obj? && k in s.m
    decreases s, 0
  {
    var arg := s.m[k];
    var ok :=
      if k == PROPERTIES then arg.Obj? ==> forall name :: name in arg.m ==> Exact(arg.m[name], false, false)
      else if IsSingle(k) then Exact(arg, false, false)
      else if k == ALL_OF then arg.Arr? ==> forall i :: 0 <= i < |arg.a| ==> Exact(arg.a[i], noObjects, noArrays)
      else (k == ONE_OF || k == ANY_OF) && arg.Arr? ==> forall i :: 0 <= i < |arg.a| ==> Empty(Collect(arg.a[i], true));
    ok
  }

  /** A value the schema accepts passes the check. */
  lemma {:induction false} AcceptedChecks(o: Oracle, s: Json, alternative: bool, noObjects: bool, noArrays: bool, v: Json)
    requires Exact(s, noObjects, noArrays) && Valid(o, s, v)
    requires (noObjects ==> !v.Obj?) && (noArrays ==> !v.Arr?)
    ensures Check(Collect(s, alternative), v)
    decreases s, 2
  {
    if s.Obj? {
      var noO, noA := noObjects || Excludes(s.m, OBJECT), noArrays || Excludes(s.m, ARRAY);
      ExcludedIsRejected(o, s.m, v);
      OwnChecks(o, s, alternative, noO, noA, v);
      var own := Own(s, alternative);
      AlternativesCheck(s, ONE_OF, own, noO, noA, v);
      var one := CollectListing(s, ONE_OF, own);
      AlternativesCheck(s, ANY_OF, one, noO, noA, v);
      var any := CollectListing(s, ANY_OF, one);
      if ALL_OF in s.m && s.m[ALL_OF].Arr? {
        assert KeywordOk(o, s, ALL_OF, v) && ExactBelow(s, ALL_OF, noO, noA);
        BranchesCheck(o, s, |s.m[ALL_OF].a|, any, noO, noA, v);
      }
    }
  }

  lemma AlternativesCheck(s: Json, k: Text, out: Tree, noObjects: bool, noArrays: bool, v: Json)
    requires s.Obj? && (k == ONE_OF || k == ANY_OF) && (k in s.m ==> ExactBelow(s, k, noObjects, noArrays)) && Check(out, v)
    ensures Check(CollectListing(s, k, out), v)
  {
    if k in s.m && s.m[k].Arr? { EmptyBranches(s, k, |s.m[k].a|, out); }
  }

  lemma {:induction false} EmptyBranches(s: Json, k: Text, n: nat, out: Tree)
    requires s.Obj? && k in s.m && s.m[k].Arr? && n <= |s.m[k].a|
    requires forall i :: 0 <= i < n ==> Empty(Collect(s.m[k].a[i], k != ALL_OF))
    ensures CollectBranches(s, k, n, out) == out
    decreases n
  {
    if n > 0 {
      EmptyBranches(s, k, n - 1, out);
      assert Empty(Collect(s.m[k].a[n - 1], k != ALL_OF));
    }
  }

  lemma {:induction false} BranchesCheck(o: Oracle, s: Json, n: nat, out: Tree, noObjects: bool, noArrays: bool, v: Json)
    requires s.Obj? && ALL_OF in s.m && s.m[ALL_OF].Arr? && n <= |s.m[ALL_OF].a| && Check(out, v)
    requires ExactBelow(s, ALL_OF, noObjects, noArrays) && AllOfOk(o, s, v)
    requires (noObjects ==> !v.Obj?) && (noArrays ==> !v.Arr?)
    ensures Check(CollectBranches(s, ALL_OF, n, out), v)
    decreases s, 0, n
  {
    if n > 0 {
      BranchesCheck(o, s, n - 1, out, noObjects, noArrays, v);
      AcceptedChecks(o, s.m[ALL_OF].a[n - 1], false, noObjects, noArrays, v);
      CheckMerged(CollectBranches(s, ALL_OF, n - 1, out), Collect(s.m[ALL_OF].a[n - 1], false), v);
    }
  }

  lemma {:induction false} OwnChecks(o: Oracle, s: Json, alternative: bool, noObjects: bool, noArrays: bool, v: Json)
    requires s.Obj? && Exact(s, noObjects, noArrays) && Valid(o, s, v)
    requires (noObjects ==> !v.Obj?) && (noArrays ==> !v.Arr?)
    ensures Check(Own(s, alternative), v)
    decreases s, 1
  {
    var own := Own(s, alternative);
    if v.Obj? {
      forall r | r in own.required ensures r in v.m {
        NamesHas(s.m[REQUIRED].a, r);
        assert KeywordOk(o, s, REQUIRED, v);
      }
      forall name | name in own.properties && name in v.m ensures Check(own.properties[name], v.m[name]) {
        PropertyChecks(o, s, name, v, noObjects, noArrays);
      }
      forall name | name in v.m && name !in own.properties ensures CheckIf(own.each, v.m[name]) {
        EntryChecks(o, s, name, v, noObjects, noArrays);
      }
    } else if v.Arr? {
      forall i | 0 <= i < |v.a| ensures CheckIf(own.each, v.a[i]) { ItemChecks(o, s, i, v, noObjects, noArrays); }
    }
  }

  lemma {:induction false} PropertyChecks(o: Oracle, s: Json, name: Text, v: Json, noObjects: bool, noArrays: bool)
    requires s.Obj? && Exact(s, noObjects, noArrays) && Valid(o, s, v)
    requires v.Obj? && name in v.m && name in CollectProperties(s)
    ensures Check(CollectProperties(s)[name], v.m[name])
    decreases s, 0
  {
    assert PropertiesOk(o, s, v) by { assert KeywordOk(o, s, PROPERTIES, v); }
    assert ExactBelow(s, PROPERTIES, noObjects || Excludes(s.m, OBJECT), noArrays || Excludes(s.m, ARRAY));
    AcceptedChecks(o, s.m[PROPERTIES].m[name], false, false, false, v.m[name]);
  }

  /** An entry without a tree of its own. */
  lemma {:induction false} EntryChecks(o: Oracle, s: Json, name: Text, v: Json, noObjects: bool, noArrays: bool)
    requires s.Obj? && Exact(s, noObjects, noArrays) && Valid(o, s, v) && !noObjects
    requires v.Obj? && name in v.m && name !in CollectProperties(s)
    ensures CheckIf(CollectEach(s), v.m[name])
    decreases s, 0
  {
    var a, b := CollectSingle(s, ADDITIONAL_PROPERTIES), CollectSingle(s, ITEMS);
    ExcludedIsRejected(o, s.m, v);
    if Empty(a) {
      EmptyChecks(a, v.m[name]);
    } else {
      assert AdditionalPropertiesOk(o, s, v) by { assert KeywordOk(o, s, ADDITIONAL_PROPERTIES, v); }
      assert ExactBelow(s, ADDITIONAL_PROPERTIES, noObjects || Excludes(s.m, OBJECT), noArrays || Excludes(s.m, ARRAY));
      AcceptedChecks(o, s.m[ADDITIONAL_PROPERTIES], false, false, false, v.m[name]);
    }
    EmptyChecks(b, v.m[name]);
    CheckAdded(None, a, v.m[name]);
    CheckAdded(AddEach(None, a), b, v.m[name]);
  }

  lemma {:induction false} ItemChecks(o: Oracle, s: Json, i: nat, v: Json, noObjects: bool, noArrays: bool)
    requires s.Obj? && Exact(s, noObjects, noArrays) && Valid(o, s, v) && !noArrays
    requires v.Arr? && i < |v.a|
    ensures CheckIf(CollectEach(s), v.a[i])
    decreases s, 0
  {
    var a, b := CollectSingle(s, ADDITIONAL_PROPERTIES), CollectSingle(s, ITEMS);
    ExcludedIsRejected(o, s.m, v);
    EmptyChecks(a, v.a[i]);
    if Empty(b) {
      EmptyChecks(b, v.a[i]);
    } else {
      assert ItemsOk(o, s, v) by { assert KeywordOk(o, s, ITEMS, v); }
      assert ExactBelow(s, ITEMS, noObjects || Excludes(s.m, OBJECT), noArrays || Excludes(s.m, ARRAY));
      AcceptedChecks(o, s.m[ITEMS], false, false, false, v.a[i]);
    }
    CheckAdded(None, a, v.a[i]);
    CheckAdded(AddEach(None, a), b, v.a[i]);
  }

  /** The hoist splits the meaning of the schema: a value is accepted exactly when what is left
      accepts it and the collected names are there. */
  lemma HoistSplits(o: Oracle, s: Json, v: Json)
    requires Safe(s, false) && Exact(s, false, false)
    ensures Valid(o, s, v) <==> Valid(o, Strip(s, false), v) && Check(Collect(s, false), v)
  {
    CollectCovers(s, false);
    if Valid(o, s, v) { AcceptedChecks(o, s, false, false, false, v); }
    if Check(Collect(s, false), v) { StrippedAgrees(o, Some(Collect(s, false)), s, false, v); }
  }

  // ----- about the conditions -----

  /** A node without combinators, and without two kinds of entries, whose names are texts. */
  predicate Simple(m: Keywords) {
    && (forall k :: k in m && m[k].Arr? ==> !IsListing(k))
    && !(ADDITIONAL_PROPERTIES in m && m[ADDITIONAL_PROPERTIES].Obj? && ITEMS in m && m[ITEMS].Obj?)
    && (REQUIRED in m && m[REQUIRED].Arr? ==> NamesOnly(m[REQUIRED].a))
  }

  lemma {:induction false} SimpleIsSafe(s: Json, alternative: bool)
    requires Everywhere(s, Simple)
    ensures Safe(s, alternative)
    decreases s, 1
  {
    if s.Obj? {
      forall k | k in s.m ensures SafeBelow(s, k, alternative) {
        assert EverywhereBelow(s, k, Simple);
        SimpleIsSafeBelow(s, k, alternative);
      }
    }
  }

  lemma {:induction false} SimpleIsSafeBelow(s: Json, k: Text, alternative: bool)
    requires s.Obj? && Simple(s.m) && k in s.m && EverywhereBelow(s, k, Simple)
    ensures SafeBelow(s, k, alternative)
    decreases s, 0
  {
    var arg := s.m[k];
    if k == PROPERTIES && arg.Obj? {
      forall name | name in arg.m ensures Safe(arg.m[name], false) { SimpleIsSafe(arg.m[name], false); }
    } else if IsSingle(k) {
      SimpleIsSafe(arg, false);
    }
  }

  // ----- nothing is left to hoist -----

  /** Only the branches of a oneOf or anyOf keep a list of their own. */
  ghost predicate NoneRequired(s: Json, alternative: bool)
    decreases s, 1
  {
    s.Obj? ==>
      && (alternative || !(REQUIRED in s.m && s.m[REQUIRED].Arr?))
      && forall k :: k in s.m ==> NoneRequiredBelow(s, k)
  }

  ghost predicate NoneRequiredBelow(s: Json, k: Text)
    requires s.Obj? && k in s.m
    decreases s, 0
  {
    var arg := s.m[k];
    var ok :=
      if k == PROPERTIES then arg.Obj? ==> forall name :: name in arg.m ==> NoneRequired(arg.m[name], false)
      else if IsSingle(k) then NoneRequired(arg, false)
      else IsListing(k) && arg.Arr? ==> forall i :: 0 <= i < |arg.a| ==> NoneRequired(arg.a[i], k != ALL_OF);
    ok
  }

  lemma {:induction false} StripLeavesNone(s: Json, alternative: bool)
    ensures NoneRequired(Strip(s, alternative), alternative)
    decreases s, 1
  {
    if s.Obj? {
      var t := Strip(s, alternative);
      assert t.m == StripNode(s, alternative);
      forall k | k in t.m ensures NoneRequiredBelow(t, k) { StripLeavesNoneBelow(s, k, alternative); }
      assert REQUIRED in t.m ==> t.m[REQUIRED] == s.m[REQUIRED];
    }
  }

  lemma {:induction false} StripLeavesNoneBelow(s: Json, k: Text, alternative: bool)
    requires s.Obj? && k in s.m && k in StripNode(s, alternative)
    ensures NoneRequiredBelow(Strip(s, alternative), k)
    decreases s, 0
  {
    var arg, t := s.m[k], Strip(s, alternative);
    assert t.m[k] == StripKeyword(s, k);
    if k == PROPERTIES && arg.Obj? {
      forall name | name in arg.m ensures NoneRequired(t.m[k].m[name], false) { StripLeavesNone(arg.m[name], false); }
    } else if IsSingle(k) {
      StripLeavesNone(arg, false);
    } else if IsListing(k) && arg.Arr? {
      forall i | 0 <= i < |arg.a| ensures NoneRequired(t.m[k].a[i], k != ALL_OF) { StripLeavesNone(arg.a[i], k != ALL_OF); }
    }
  }

  // ----- a second run -----

  lemma {:induction false} SecondRun(s: Json, alternative: bool)
    ensures Empty(Collect(Strip(s, alternative), alternative))
    ensures Strip(Strip(s, alternative), alternative) == Strip(s, alternative)
    decreases s, 1
  {
    if s.Obj? {
      var t := Strip(s, alternative);
      assert t.m == StripNode(s, alternative);
      forall k | k in t.m ensures StripKeyword(t, k) == t.m[k] && NothingBelow(t, k) { SecondRunBelow(s, k, alternative); }
      assert REQUIRED in t.m ==> t.m[REQUIRED] == StripKeyword(s, REQUIRED) == s.m[REQUIRED];
      assert StripNode(t, alternative) == t.m;
      NothingCollected(t, alternative);
    }
  }

  /** Nothing is left to collect below k. */
  predicate NothingBelow(s: Json, k: Text)
    requires s.Obj? && k in s.m
  {
    var arg := s.m[k];
    var nothing :=
      && (k == PROPERTIES && arg.Obj? ==> forall name :: name in arg.m ==> Empty(Collect(arg.m[name], false)))
      && (IsSingle(k) && arg.Obj? ==> Empty(Collect(arg, false)))
      && (IsListing(k) && arg.Arr? ==> forall i :: 0 <= i < |arg.a| ==> Empty(Collect(arg.a[i], k != ALL_OF)));
    nothing
  }

  lemma NothingCollected(s: Json, alternative: bool)
    requires s.Obj? && (REQUIRED in s.m && s.m[REQUIRED].Arr? ==> alternative)
    requires forall k :: k in s.m ==> NothingBelow(s, k)
    ensures Empty(Collect(s, alternative))
  {
    var own := Own(s, alternative);
    assert CollectProperties(s) == map[];
    assert CollectEach(s) == None;
    assert own == NOTHING;
    NothingListed(s, ONE_OF, own);
    NothingListed(s, ANY_OF, own);
    NothingListed(s, ALL_OF, own);
  }

  lemma NothingListed(s: Json, k: Text, out: Tree)
    requires s.Obj? && IsListing(k) && (k in s.m ==> NothingBelow(s, k))
    ensures CollectListing(s, k, out) == out
  {
    if k in s.m && s.m[k].Arr? { EmptyBranches(s, k, |s.m[k].a|, out); }
  }

  lemma {:induction false} SecondRunBelow(s: Json, k: Text, alternative: bool)
    requires s.Obj? && k in s.m && k in StripNode(s, alternative)
    ensures var t := Strip(s, alternative); StripKeyword(t, k) == t.m[k] && NothingBelow(t, k)
    decreases s, 0
  {
    var arg, t := s.m[k], Strip(s, alternative);
    assert t.m[k] == StripKeyword(s, k);
    if k == PROPERTIES && arg.Obj? {
      forall name | name in arg.m
        ensures Empty(Collect(t.m[k].m[name], false)) && Strip(t.m[k].m[name], false) == t.m[k].m[name]
      {
        SecondRun(arg.m[name], false);
      }
      assert StripKeyword(t, k).m == t.m[k].m;
    } else if IsSingle(k) && arg.Obj? {
      SecondRun(arg, false);
    } else if IsListing(k) && arg.Arr? {
      var list := t.m[k].a;
      forall i | 0 <= i < |list| ensures Empty(Collect(list[i], k != ALL_OF)) && Strip(list[i], k != ALL_OF) == list[i] {
        SecondRun(arg.a[i], k != ALL_OF);
      }
      assert StripKeyword(t, k).a == list;
    }
  }

  // ----- the mutation, in place -----

  method CollectNames(list: seq<Json>) returns (names: seq<Text>)
    ensures names == Names(list)
  {
    names := [];
    for i := 0 to |list|
      invariant names == Names(list[..i])
    {
      assert list[..i + 1][..i] == list[..i];
      if list[i].Str? && list[i].t != EMPTY && list[i].t !in names {
        names := names + [list[i].t];
      }
    }
    assert list[..|list|] == list;
  }

  /** collect: s is the schema as it came in, whose map is updated keyword by keyword. */
  method CollectInPlace(schema: GoMap, ghost s: Json, alternative: bool) returns (out: Tree)
    requires s == Obj(schema.kw)
    modifies schema
    ensures Obj(schema.kw) == Strip(s, alternative)
    ensures out == Collect(s, alternative)
    decreases s, 3
  {
    var before := Obj(schema.kw);
    var required := TakeNames(schema, alternative);
    var properties := map[];
    if PROPERTIES in schema.kw {
      var left;
      properties, left := CollectFromProperties(before);
      schema.kw := schema.kw[PROPERTIES := left];
    }
    StripOneMore(s, alternative, [], PROPERTIES);
    assert NESTING[..1] == [] + [PROPERTIES] && properties == CollectProperties(before);
    var each := CollectSingles(schema, before, alternative);
    out := CollectListings(schema, before, alternative, Tree(required, properties, each));
    StrippedAll(s, alternative);
  }

  /** The node's own list, dropped from it. */
  method TakeNames(schema: GoMap, alternative: bool) returns (required: seq<Text>)
    modifies schema
    ensures schema.kw == StripSome(Obj(old(schema.kw)), alternative, [])
    ensures required == OwnNames(old(schema.kw), alternative)
  {
    required := [];
    if !alternative && REQUIRED in schema.kw && schema.kw[REQUIRED].Arr? {
      required := CollectNames(schema.kw[REQUIRED].a);
      schema.kw := schema.kw - {REQUIRED};
    }
  }

  ghost function EachAfter(s: Json, i: nat): Option<Tree>
    requires s.Obj?
  {
    if i <= 1 then None
    else if i == 2 then AddEach(None, CollectSingle(s, ADDITIONAL_PROPERTIES))
    else CollectEach(s)
  }

  ghost function TreeAfter(s: Json, i: nat, tree: Tree): Tree
    requires s.Obj?
  {
    if i <= 3 then tree
    else if i == 4 then CollectListing(s, ONE_OF, tree)
    else if i == 5 then CollectListing(s, ANY_OF, CollectListing(s, ONE_OF, tree))
    else CollectListing(s, ALL_OF, CollectListing(s, ANY_OF, CollectListing(s, ONE_OF, tree)))
  }

  method CollectSingles(schema: GoMap, before: Json, alternative: bool) returns (each: Option<Tree>)
    requires before.Obj? && schema.kw == StripSome(before, alternative, NESTING[..1])
    modifies schema
    ensures schema.kw == StripSome(before, alternative, NESTING[..3])
    ensures each == CollectEach(before)
    decreases before, 2
  {
    each := None;
    for i := 1 to 3
      invariant schema.kw == StripSome(before, alternative, NESTING[..i])
      invariant each == EachAfter(before, i)
    {
      var key := NESTING[i];
      assert NESTING[1] == ADDITIONAL_PROPERTIES && NESTING[2] == ITEMS;
      assert EachAfter(before, i + 1) == AddEach(EachAfter(before, i), CollectSingle(before, key));
      assert key in schema.kw <==> key in before.m;
      if key in schema.kw {
        var left;
        each, left := CollectFromSingle(before, key, each);
        schema.kw := schema.kw[key := left];
      }
      StripOneMore(before, alternative, NESTING[..i], key);
      assert NESTING[..i + 1] == NESTING[..i] + [key];
    }
  }

  method CollectListings(schema: GoMap, before: Json, alternative: bool, tree: Tree) returns (out: Tree)
    requires before.Obj? && schema.kw == StripSome(before, alternative, NESTING[..3])
    modifies schema
    ensures schema.kw == StripSome(before, alternative, NESTING)
    ensures out == CollectListing(before, ALL_OF, CollectListing(before, ANY_OF, CollectListing(before, ONE_OF, tree)))
    decreases before, 2
  {
    out := tree;
    for i := 3 to 6
      invariant schema.kw == StripSome(before, alternative, NESTING[..i])
      invariant out == TreeAfter(before, i, tree)
    {
      var key := NESTING[i];
      if key in schema.kw {
        var left;
        out, left := CollectFromListing(before, key, out);
        schema.kw := schema.kw[key := left];
      }
      StripOneMore(before, alternative, NESTING[..i], key);
      assert NESTING[..i + 1] == NESTING[..i] + [key];
    }
    assert NESTING[..6] == NESTING;
  }

  /** The node once its own list is dropped, and the keywords of done are stripped. */
  ghost function StripSome(s: Json, alternative: bool, done: seq<Text>): Keywords
    requires s.Obj?
  {
    map k | k in s.m && !(k == REQUIRED && !alternative && s.m[k].Arr?) :: if k in done then StripKeyword(s, k) else s.m[k]
  }

  lemma StripOneMore(s: Json, alternative: bool, done: seq<Text>, k: Text)
    requires s.Obj? && k != REQUIRED
    ensures var some := StripSome(s, alternative, done);
      StripSome(s, alternative, done + [k]) == if k in s.m then some[k := StripKeyword(s, k)] else some
  {
  }

  lemma StrippedAll(s: Json, alternative: bool)
    requires s.Obj?
    ensures StripSome(s, alternative, NESTING) == StripNode(s, alternative)
  {
    forall k | k in s.m && k !in NESTING
      ensures StripKeyword(s, k) == s.m[k]
    {
      assert k != NESTING[0] && k != NESTING[1] && k != NESTING[2] && k != NESTING[3] && k != NESTING[4] && k != NESTING[5];
    }
  }

  /** The nodes below "properties", each opened, updated in place and put back. */
  method CollectFromProperties(before: Json) returns (properties: map<Text, Tree>, left: Json)
    requires before.Obj? && PROPERTIES in before.m
    ensures properties == CollectProperties(before) && left == StripKeyword(before, PROPERTIES)
    decreases before, 1
  {
    properties, left := map[], before.m[PROPERTIES];
    if left.Obj? {
      var props, todo := left.m, left.m.Keys;
      var stripped := props;
      while todo != {}
        invariant todo <= props.Keys && stripped.Keys == props.Keys && properties.Keys <= props.Keys
        invariant forall name :: name in props ==> stripped[name] == if name in todo then props[name] else Strip(props[name], false)
        invariant forall name :: name in properties <==> name in props && name !in todo && !Empty(Collect(props[name], false))
        invariant forall name :: name in properties ==> properties[name] == Collect(props[name], false)
      {
        var name :| name in todo;
        todo := todo - {name};
        var c, child := CollectFrom(props[name], false);
        stripped := stripped[name := child];
        if !Empty(c) {
          properties := properties[name := c];
        }
      }
      left := Obj(stripped);
    }
  }

  method CollectFromSingle(before: Json, k: Text, each: Option<Tree>) returns (r: Option<Tree>, left: Json)
    requires before.Obj? && IsSingle(k) && k in before.m
    ensures r == AddEach(each, CollectSingle(before, k)) && left == StripKeyword(before, k)
    decreases before, 1
  {
    r, left := each, before.m[k];
    if left.Obj? {
      var c;
      c, left := CollectFrom(left, false);
      if !Empty(c) {
        var merged := MergeTrees(if r.None? then NOTHING else r.value, c);
        r := Some(merged);
      }
    }
  }

  method CollectFromListing(before: Json, k: Text, tree: Tree) returns (out: Tree, left: Json)
    requires before.Obj? && IsListing(k) && k in before.m
    ensures out == CollectListing(before, k, tree) && left == StripKeyword(before, k)
    decreases before, 1
  {
    out, left := tree, before.m[k];
    if left.Arr? {
      var branches := left.a;
      var stripped := branches;
      for i := 0 to |branches|
        invariant |stripped| == |branches|
        invariant forall j :: 0 <= j < |branches| ==> stripped[j] == if j < i then Strip(branches[j], k != ALL_OF) else branches[j]
        invariant out == CollectBranches(before, k, i, tree)
      {
        var c, branch := CollectFrom(branches[i], k != ALL_OF);
        stripped := stripped[i := branch];
        out := MergeTrees(out, c);
      }
      left := Arr(stripped);
    }
  }

  /** One nested value: skipped when it is no map. */
  method CollectFrom(v: Json, alternative: bool) returns (c: Tree, left: Json)
    ensures c == Collect(v, alternative) && left == Strip(v, alternative)
    decreases v, 4
  {
    if !v.Obj? {
      return NOTHING, v;
    }
    var child := new GoMap(v.m);
    c := CollectInPlace(child, v, alternative);
    left := Obj(child.kw);
  }

  /** The mutation: what is left, and the tree, reported when there is something to check. */
  method Mutate(schema: GoMap) returns (tree: Option<Tree>)
    modifies schema
    ensures Obj(schema.kw) == Strip(Obj(old(schema.kw)), false)
    ensures var collected := Collect(Obj(old(schema.kw)), false); tree == if Empty(collected) then None else Some(collected)
  {
    var root := CollectInPlace(schema, Obj(schema.kw), false);
    tree := if Empty(root) then None else Some(root);
  }
}
