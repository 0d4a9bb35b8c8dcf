/** Which names the collected tree lists, and what stripping leaves of a node (Required.go). */
module RequiredNames {
  import opened Collections
  import opened Json
  import opened Walk
  import opened RequiredTree
  import opened Required

  // ----- the names of a node -----

  /** r is listed by the tree of one of the branches. */
  ghost predicate InBranch(s: Json, k: Text, alternative: bool, r: Text)
    requires s.Obj?
  {
    k in s.m && s.m[k].Arr? && exists i :: 0 <= i < |s.m[k].a| && r in Collect(s.m[k].a[i], alternative).required
  }

  lemma MergedNamesAre(a: Tree, b: Tree, r: Text)
    ensures r in Merge(a, b).required <==> r in a.required || r in b.required
  {
    AddTextsHas(a.required, b.required, r);
  }

  lemma {:induction false} BranchNames(s: Json, k: Text, n: nat, out: Tree, r: Text)
    requires s.Obj? && k in s.m && s.m[k].Arr? && n <= |s.m[k].a|
    ensures r in CollectBranches(s, k, n, out).required <==>
      r in out.required || exists i :: 0 <= i < n && r in Collect(s.m[k].a[i], k != ALL_OF).required
    decreases n
  {
    if n > 0 {
      BranchNames(s, k, n - 1, out, r);
      MergedNamesAre(CollectBranches(s, k, n - 1, out), Collect(s.m[k].a[n - 1], k != ALL_OF), r);
    }
  }

  lemma ListingNames(s: Json, k: Text, out: Tree, r: Text)
    requires s.Obj?
    ensures r in CollectListing(s, k, out).required <==> r in out.required || InBranch(s, k, k != ALL_OF, r)
  {
    if k in s.m && s.m[k].Arr? { BranchNames(s, k, |s.m[k].a|, out, r); }
  }

  /** The node's own names, unless it is an alternative; those of the branches of allOf; and of the
      alternatives of oneOf and anyOf, what they bring besides their own. */
  lemma CollectedNames(s: Json, alternative: bool, r: Text)
    requires s.Obj?
    ensures r in Collect(s, alternative).required <==>
      || (!alternative && REQUIRED in s.m && s.m[REQUIRED].Arr? && Str(r) in s.m[REQUIRED].a && r != EMPTY)
      || InBranch(s, ALL_OF, false, r) || InBranch(s, ANY_OF, true, r) || InBranch(s, ONE_OF, true, r)
  {
    var own := Own(s, alternative);
    var one := CollectListing(s, ONE_OF, own);
    var any := CollectListing(s, ANY_OF, one);
    ListingNames(s, ONE_OF, own, r);
    ListingNames(s, ANY_OF, one, r);
    ListingNames(s, ALL_OF, any, r);
    if REQUIRED in s.m && s.m[REQUIRED].Arr? { NamesHas(s.m[REQUIRED].a, r); }
  }

  // ----- no name twice, no tree for nothing -----

  predicate Tidy(t: Tree)
    decreases t
  {
    && NoRepeat(t.required)
    && (forall name :: name in t.properties ==> !Empty(t.properties[name]) && Tidy(t.properties[name]))
    && (t.each.Some? ==> !Empty(t.each.value) && Tidy(t.each.value))
  }

  lemma {:induction false} AddTextsTidy(out: seq<Text>, list: seq<Text>)
    requires NoRepeat(out)
    ensures NoRepeat(AddTexts(out, list))
    ensures AddTexts(out, list) == [] ==> out == [] && list == []
    decreases |list|
  {
    if list != [] { AddTextsTidy(out, list[..|list| - 1]); }
  }

  lemma {:induction false} MergeTidy(a: Tree, b: Tree)
    requires Tidy(a) && Tidy(b)
    ensures Tidy(Merge(a, b)) && (Empty(Merge(a, b)) ==> Empty(a) && Empty(b))
    decreases b
  {
    if !Empty(b) {
      AddTextsTidy(a.required, b.required);
      forall name | name in a.properties && name in b.properties
        ensures Tidy(Merge(a.properties[name], b.properties[name])) && !Empty(Merge(a.properties[name], b.properties[name]))
      {
        MergeTidy(a.properties[name], b.properties[name]);
      }
      if a.each.Some? && b.each.Some? { MergeTidy(a.each.value, b.each.value); }
      assert Merge(a, b).properties.Keys == a.properties.Keys + b.properties.Keys;
    }
  }

  lemma {:induction false} NamesTidy(list: seq<Json>)
    ensures NoRepeat(Names(list))
    decreases |list|
  {
    if list != [] { NamesTidy(list[..|list| - 1]); }
  }

  lemma EachTidy(each: Option<Tree>, c: Tree)
    requires Tidy(c) && (each.Some? ==> Tidy(each.value) && !Empty(each.value))
    ensures AddEach(each, c).Some? ==> Tidy(AddEach(each, c).value) && !Empty(AddEach(each, c).value)
  {
    MergeTidy(if each.None? then NOTHING else each.value, c);
  }

  lemma {:induction false} OwnTidy(s: Json, alternative: bool)
    requires s.Obj?
    ensures Tidy(Own(s, alternative))
    decreases s, 0
  {
    if REQUIRED in s.m && s.m[REQUIRED].Arr? { NamesTidy(s.m[REQUIRED].a); }
    if PROPERTIES in s.m && s.m[PROPERTIES].Obj? {
      var props := s.m[PROPERTIES].m;
      forall name | name in props ensures Tidy(Collect(props[name], false)) { CollectIsTidy(props[name], false); }
    }
    if ADDITIONAL_PROPERTIES in s.m { CollectIsTidy(s.m[ADDITIONAL_PROPERTIES], false); }
    if ITEMS in s.m { CollectIsTidy(s.m[ITEMS], false); }
    var first := AddEach(None, CollectSingle(s, ADDITIONAL_PROPERTIES));
    EachTidy(None, CollectSingle(s, ADDITIONAL_PROPERTIES));
    EachTidy(first, CollectSingle(s, ITEMS));
  }

  lemma {:induction false} BranchesTidy(s: Json, k: Text, n: nat, out: Tree)
    requires s.Obj? && k in s.m && s.m[k].Arr? && n <= |s.m[k].a| && Tidy(out)
    ensures Tidy(CollectBranches(s, k, n, out))
    decreases s, 0, n
  {
    if n > 0 {
      BranchesTidy(s, k, n - 1, out);
      CollectIsTidy(s.m[k].a[n - 1], k != ALL_OF);
      MergeTidy(CollectBranches(s, k, n - 1, out), Collect(s.m[k].a[n - 1], k != ALL_OF));
    }
  }

  lemma {:induction false} ListingTidy(s: Json, k: Text, out: Tree)
    requires s.Obj? && Tidy(out)
    ensures Tidy(CollectListing(s, k, out))
    decreases s, 1
  {
    if k in s.m && s.m[k].Arr? { BranchesTidy(s, k, |s.m[k].a|, out); }
  }

  /** In the collected tree no name stands twice in a list, and no part asks for nothing. */
  lemma {:induction false} CollectIsTidy(s: Json, alternative: bool)
    ensures Tidy(Collect(s, alternative))
    decreases s, 2
  {
    if s.Obj? {
      var own := Own(s, alternative);
      var one := CollectListing(s, ONE_OF, own);
      OwnTidy(s, alternative);
      ListingTidy(s, ONE_OF, own);
      ListingTidy(s, ANY_OF, one);
      ListingTidy(s, ALL_OF, CollectListing(s, ANY_OF, one));
    }
  }

  // ----- what is left of a node -----

  /** Only the list goes, and only of what is no alternative; what holds no schema stays as it is. */
  lemma StrippedNodeIs(s: Json, alternative: bool, k: Text)
    requires s.Obj?
    ensures Strip(s, alternative).Obj?
    ensures k in Strip(s, alternative).m <==> k in s.m && !(k == REQUIRED && s.m[k].Arr? && !alternative)
    ensures k in Strip(s, alternative).m && k !in {PROPERTIES, ADDITIONAL_PROPERTIES, ITEMS, ONE_OF, ANY_OF, ALL_OF} ==>
      Strip(s, alternative).m[k] == s.m[k]
    ensures k in s.m && k == PROPERTIES && s.m[k].Obj? ==>
      Strip(s, alternative).m[k].Obj? && Strip(s, alternative).m[k].m.Keys == s.m[k].m.Keys
    ensures k in s.m && k in {ONE_OF, ANY_OF, ALL_OF} && s.m[k].Arr? ==>
      Strip(s, alternative).m[k].Arr? && |Strip(s, alternative).m[k].a| == |s.m[k].a|
  {
    if k in StripNode(s, alternative) { assert StripNode(s, alternative)[k] == StripKeyword(s, k); }
  }
}
