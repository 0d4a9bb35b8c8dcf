/** Collapsing "allOf" (flattenAllOf.go). */
module FlattenAllOf {
  import opened Json
  import opened Schema
  import opened Walk
  import opened Agreement

  // ----- what a visit does to a node -----

  const COPIED: seq<Text> := [TYPE, ADDITIONAL_PROPERTIES, ITEMS, FORMAT, ENUM, PATTERN, MIN_LENGTH, MAX_LENGTH, MINIMUM, MAXIMUM, INT_OR_STRING]

  predicate IsCopied(k: Text) {
    || k == TYPE || k == ADDITIONAL_PROPERTIES || k == ITEMS || k == FORMAT || k == ENUM || k == PATTERN
    || k == MIN_LENGTH || k == MAX_LENGTH || k == MINIMUM || k == MAXIMUM || k == INT_OR_STRING
  }

  lemma CopiedAreListed(k: Text)
    ensures IsCopied(k) <==> k in COPIED
  {
    if IsCopied(k) {
      assert COPIED[0] == TYPE && COPIED[1] == ADDITIONAL_PROPERTIES && COPIED[2] == ITEMS && COPIED[3] == FORMAT;
      assert COPIED[4] == ENUM && COPIED[5] == PATTERN && COPIED[6] == MIN_LENGTH && COPIED[7] == MAX_LENGTH;
      assert COPIED[8] == MINIMUM && COPIED[9] == MAXIMUM && COPIED[10] == INT_OR_STRING;
    }
  }

  function Flatten(s: Json): Json {
    WalkNodes(s, FlattenNode)
  }

  function FlattenNode(m: Keywords): Keywords {
    if ALL_OF in m && m[ALL_OF].Arr? && m[ALL_OF].a != [] then MergeBranches(m - {ALL_OF}, m[ALL_OF].a) else m
  }

  function MergeBranches(m: Keywords, branches: seq<Json>): Keywords
    decreases |branches|
  {
    if branches == [] then m
    else
      var last := |branches| - 1;
      var merged := MergeBranches(m, branches[..last]);
      if branches[last].Obj? then MergeBranch(merged, branches[last].m) else merged
  }

  function MergeBranch(m: Keywords, branch: Keywords): Keywords {
    CopyMissing(MergeRequired(MergeProperties(m, branch), branch), branch)
  }

  function MergeProperties(m: Keywords, branch: Keywords): Keywords {
    if PROPERTIES in branch && branch[PROPERTIES].Obj? then
      m[PROPERTIES := Obj(branch[PROPERTIES].m + (if PROPERTIES in m && m[PROPERTIES].Obj? then m[PROPERTIES].m else map[]))]
    else m
  }

  function MergeRequired(m: Keywords, branch: Keywords): Keywords {
    if REQUIRED in branch && branch[REQUIRED].Arr? then
      m[REQUIRED := Arr(AddNames(AddNames([], Listed(m)), branch[REQUIRED].a))]
    else m
  }

  function Listed(m: Keywords): seq<Json> {
    if REQUIRED in m && m[REQUIRED].Arr? then m[REQUIRED].a else []
  }

  /** The names of list not in out yet, appended to it. */
  function AddNames(out: seq<Json>, list: seq<Json>): seq<Json>
    decreases |list|
  {
    if list == [] then out
    else AddName(AddNames(out, list[..|list| - 1]), list[|list| - 1])
  }

  function AddName(out: seq<Json>, r: Json): seq<Json> {
    if r.Str? && r.t != EMPTY && r !in out then out + [r] else out
  }

  /** The copied keywords that m lacks, taken from the branch. */
  function CopyMissing(m: Keywords, branch: Keywords): Keywords {
    map k | k in m.Keys + branch.Keys && (k in m || IsCopied(k)) :: if k in m then m[k] else branch[k]
  }

  // ----- the visitor -----

  method FlattenAllOfNode(node: GoMap)
    modifies node
    ensures node.kw == FlattenNode(old(node.kw))
  {
    if ALL_OF !in node.kw || !node.kw[ALL_OF].Arr? || node.kw[ALL_OF].a == [] {
      return;
    }
    var allOf := node.kw[ALL_OF].a;
    node.kw := node.kw - {ALL_OF};
    ghost var bare := node.kw;
    for i := 0 to |allOf|
      invariant node.kw == MergeBranches(bare, allOf[..i])
    {
      assert allOf[..i + 1][..i] == allOf[..i];
      if allOf[i].Obj? {
        MergeAllOfBranch(node, allOf[i].m);
      }
    }
    assert allOf[..|allOf|] == allOf;
  }

  method MergeAllOfBranch(node: GoMap, branch: Keywords)
    modifies node
    ensures node.kw == MergeBranch(old(node.kw), branch)
  {
    if PROPERTIES in branch && branch[PROPERTIES].Obj? {
      var merged := branch[PROPERTIES].m;
      if PROPERTIES in node.kw && node.kw[PROPERTIES].Obj? {
        merged := merged + node.kw[PROPERTIES].m;
      }
      assert branch[PROPERTIES].m + map[] == branch[PROPERTIES].m;
      node.kw := node.kw[PROPERTIES := Obj(merged)];
    }
    assert node.kw == MergeProperties(old(node.kw), branch);

    if REQUIRED in branch && branch[REQUIRED].Arr? {
      var out := [];
      if REQUIRED in node.kw && node.kw[REQUIRED].Arr? {
        out := AppendNames(out, node.kw[REQUIRED].a);
      }
      out := AppendNames(out, branch[REQUIRED].a);
      node.kw := node.kw[REQUIRED := Arr(out)];
    }
    assert node.kw == MergeRequired(MergeProperties(old(node.kw), branch), branch);

    CopyKeywords(node, branch);
  }

  method CopyKeywords(node: GoMap, branch: Keywords)
    modifies node
    ensures node.kw == CopyMissing(old(node.kw), branch)
  {
    for i := 0 to |COPIED|
      invariant forall k :: k in node.kw <==> k in old(node.kw) || (k in COPIED[..i] && k in branch)
      invariant forall k :: k in node.kw ==> node.kw[k] == if k in old(node.kw) then old(node.kw)[k] else branch[k]
    {
      var key := COPIED[i];
      assert COPIED[..i + 1] == COPIED[..i] + [key];
      if key in node.kw {
        continue;
      }
      if key in branch {
        node.kw := node.kw[key := branch[key]];
      }
    }
    assert COPIED[..|COPIED|] == COPIED;
    forall k { CopiedAreListed(k); }
  }

  /** The two loops over "required": seen holds the names of out. */
  method AppendNames(existing: seq<Json>, list: seq<Json>) returns (out: seq<Json>)
    ensures out == AddNames(existing, list)
  {
    out := existing;
    var seen := set r | r in existing;
    for i := 0 to |list|
      invariant out == AddNames(existing, list[..i])
      invariant seen == set r | r in out
    {
      assert list[..i + 1][..i] == list[..i];
      var r := list[i];
      if r.Str? && r.t != EMPTY && r !in seen {
        seen := seen + {r};
        out := out + [r];
      }
    }
    assert list[..|list|] == list;
  }

  /** The mutation. */
  method Mutate(schema: Json) returns (r: Json)
    ensures r == Flatten(schema)
  {
    r := WalkSchemaNodes(schema, FlattenNode);
  }

  // ----- what a merge leaves under each keyword -----

  lemma MergedAt(m: Keywords, branch: Keywords, k: Text)
    ensures var r, props, req := MergeBranch(m, branch), MergeProperties(m, branch), MergeRequired(m, branch);
      if k == PROPERTIES then (k in r <==> k in props) && (k in r ==> r[k] == props[k])
      else if k == REQUIRED then (k in r <==> k in req) && (k in r ==> r[k] == req[k])
      else
        && (k in r <==> k in m || (IsCopied(k) && k in branch))
        && (k in r ==> r[k] == if k in m then m[k] else branch[k])
  {
  }

  // ----- no allOf is left -----

  ghost predicate NoBranches(m: Keywords) {
    !(ALL_OF in m && m[ALL_OF].Arr? && m[ALL_OF].a != [])
  }

  /** allOf aside, nothing below m has branches left. */
  ghost predicate FlatBelow(m: Keywords) {
    forall k :: k in m && k != ALL_OF ==> EverywhereBelow(Obj(m), k, NoBranches)
  }

  lemma MergeBranchFlat(m: Keywords, branch: Keywords)
    requires FlatBelow(m) && FlatBelow(branch) && ALL_OF !in m
    ensures FlatBelow(MergeBranch(m, branch)) && ALL_OF !in MergeBranch(m, branch)
  {
    var r := MergeBranch(m, branch);
    forall k | k in r ensures k != ALL_OF && EverywhereBelow(Obj(r), k, NoBranches) {
      MergedAt(m, branch, k);
    }
  }

  lemma {:induction false} MergeBranchesFlat(m: Keywords, branches: seq<Json>)
    requires FlatBelow(m) && ALL_OF !in m
    requires forall i :: 0 <= i < |branches| ==> Everywhere(branches[i], NoBranches)
    ensures FlatBelow(MergeBranches(m, branches)) && ALL_OF !in MergeBranches(m, branches)
    decreases |branches|
  {
    if branches != [] {
      var last := |branches| - 1;
      MergeBranchesFlat(m, branches[..last]);
      if branches[last].Obj? {
        assert Everywhere(branches[last], NoBranches) && branches[last] == Obj(branches[last].m);
        MergeBranchFlat(MergeBranches(m, branches[..last]), branches[last].m);
      }
    }
  }

  /** No node the walk reaches in a flattened schema has an allOf branch left. */
  lemma {:induction false} FlattenLeavesNoBranch(s: Json)
    ensures Everywhere(Flatten(s), NoBranches)
    decreases s, 1
  {
    if s.Obj? {
      var m := WalkChildren(s, FlattenNode);
      forall k | k in m ensures EverywhereBelow(Obj(m), k, NoBranches) { FlattenBelowLeavesNoBranch(s, k); }
      if !NoBranches(m) {
        assert EverywhereBelow(Obj(m), ALL_OF, NoBranches);
        MergeBranchesFlat(m - {ALL_OF}, m[ALL_OF].a);
      }
    }
  }

  lemma {:induction false} FlattenBelowLeavesNoBranch(s: Json, k: Text)
    requires s.Obj? && k in s.m
    ensures EverywhereBelow(Obj(WalkChildren(s, FlattenNode)), k, NoBranches)
    decreases s, 0
  {
    var arg := s.m[k];
    if k == PROPERTIES && arg.Obj? {
      forall p | p in arg.m ensures Everywhere(Flatten(arg.m[p]), NoBranches) { FlattenLeavesNoBranch(arg.m[p]); }
    } else if IsSingle(k) {
      FlattenLeavesNoBranch(arg);
    } else if IsListing(k) && arg.Arr? {
      var list := WalkList(arg.a, FlattenNode);
      forall i | 0 <= i < |list| ensures Everywhere(list[i], NoBranches) { FlattenLeavesNoBranch(arg.a[i]); }
      assert WalkKeyword(s, k, FlattenNode) == Arr(list);
    }
  }

  // ----- a schema without branches is left as it is -----

  lemma FlatIsKept(s: Json)
    requires Everywhere(s, NoBranches)
    ensures Flatten(s) == s
  {
    WalkIdentity(s, FlattenNode, NoBranches);
  }

  /** Flattening twice is flattening once. */
  lemma FlattenIdempotent(s: Json)
    ensures Flatten(Flatten(s)) == Flatten(s)
  {
    FlattenLeavesNoBranch(s);
    FlatIsKept(Flatten(s));
  }

  // ----- every value accepted before is accepted after -----

  lemma {:induction false} AddNamesHas(out: seq<Json>, list: seq<Json>, r: Json)
    ensures r in AddNames(out, list) <==> r in out || (r in list && r.Str? && r.t != EMPTY)
    decreases |list|
  {
    if list != [] {
      AddNamesHas(out, list[..|list| - 1], r);
      assert r in list <==> r in list[..|list| - 1] || r == list[|list| - 1];
    }
  }

  /** A node asks for every text of its "required". */
  lemma RequiredAsSet(o: Oracle, m: Keywords, v: Json)
    requires REQUIRED in m
    ensures KeywordOk(o, Obj(m), REQUIRED, v) <==> (v.Obj? ==> forall r :: r in Listed(m) && r.Str? ==> r.t in v.m)
  {
  }

  lemma MergedRequired(m: Keywords, branch: Keywords, r: Json)
    ensures r in Listed(MergeBranch(m, branch)) ==> r in Listed(m) || r in Listed(branch)
    ensures (r in Listed(m) || r in Listed(branch)) && r.Str? && r.t != EMPTY ==> r in Listed(MergeBranch(m, branch))
  {
    MergedAt(m, branch, REQUIRED);
    AddNamesHas([], Listed(m), r);
    if REQUIRED in branch && branch[REQUIRED].Arr? {
      AddNamesHas(AddNames([], Listed(m)), branch[REQUIRED].a, r);
    }
  }

  lemma MergedNames(o: Oracle, m: Keywords, branch: Keywords)
    ensures Named(MergeBranch(m, branch)) == Named(m) + Named(branch)
    ensures forall name :: PatternNamed(o, MergeBranch(m, branch), name) == PatternNamed(o, m, name)
  {
    MergedAt(m, branch, PROPERTIES);
    MergedAt(m, branch, PATTERN_PROPERTIES);
  }

  function Patterns(m: Keywords): set<Text> {
    if PATTERN_PROPERTIES in m && m[PATTERN_PROPERTIES].Obj? then m[PATTERN_PROPERTIES].m.Keys else {}
  }

  /** additionalProperties is not copied away from patterns that it leaves to others. */
  predicate PatternsStay(m: Keywords, branch: Keywords) {
    ADDITIONAL_PROPERTIES in branch && ADDITIONAL_PROPERTIES !in m ==> Patterns(branch) <= Patterns(m)
  }

  lemma MergeBranchAccepts(o: Oracle, m: Keywords, branch: Keywords, v: Json)
    requires Valid(o, Obj(m), v) && Valid(o, Obj(branch), v) && PatternsStay(m, branch)
    ensures Valid(o, Obj(MergeBranch(m, branch)), v)
  {
    var r := MergeBranch(m, branch);
    forall k | k in r ensures KeywordOk(o, Obj(r), k, v) { MergeKeywordAccepts(o, m, branch, k, v); }
  }

  lemma MergeKeywordAccepts(o: Oracle, m: Keywords, branch: Keywords, k: Text, v: Json)
    requires Valid(o, Obj(m), v) && Valid(o, Obj(branch), v) && k in MergeBranch(m, branch) && PatternsStay(m, branch)
    ensures KeywordOk(o, Obj(MergeBranch(m, branch)), k, v)
  {
    if k == PROPERTIES {
      MergePropertiesAccepts(o, m, branch, v);
    } else if k == REQUIRED {
      MergeRequiredAccepts(o, m, branch, v);
    } else {
      MergedAt(m, branch, k);
      MergedNames(o, m, branch);
      KeptAccepts(o, m, branch, MergeBranch(m, branch), k, v);
    }
  }

  /** A keyword taken over as it is, by a node that lists as many names. */
  lemma KeptAccepts(o: Oracle, m: Keywords, branch: Keywords, r: Keywords, k: Text, v: Json)
    requires Valid(o, Obj(m), v) && Valid(o, Obj(branch), v)
    requires k in r && (if k in m then r[k] == m[k] else k in branch && r[k] == branch[k])
    requires Named(r) == Named(m) + Named(branch)
    requires forall name :: PatternNamed(o, r, name) == PatternNamed(o, m, name)
    requires PatternsStay(m, branch)
    ensures KeywordOk(o, Obj(r), k, v)
  {
    var from := if k in m then m else branch;
    assert KeywordOk(o, Obj(from), k, v);
    if k == ADDITIONAL_PROPERTIES {
      FewerAdditional(o, from, r, v);
    } else {
      SameKeyword(o, from, r, k, v);
    }
  }

  lemma MergePropertiesAccepts(o: Oracle, m: Keywords, branch: Keywords, v: Json)
    requires Valid(o, Obj(m), v) && Valid(o, Obj(branch), v) && PROPERTIES in MergeBranch(m, branch)
    ensures KeywordOk(o, Obj(MergeBranch(m, branch)), PROPERTIES, v)
  {
    MergedAt(m, branch, PROPERTIES);
    assert PROPERTIES in m ==> KeywordOk(o, Obj(m), PROPERTIES, v);
    assert PROPERTIES in branch ==> KeywordOk(o, Obj(branch), PROPERTIES, v);
    assert PropertiesOk(o, Obj(MergeBranch(m, branch)), v) by {
      assert PROPERTIES in m ==> PropertiesOk(o, Obj(m), v);
      assert PROPERTIES in branch ==> PropertiesOk(o, Obj(branch), v);
    }
  }

  lemma MergeRequiredAccepts(o: Oracle, m: Keywords, branch: Keywords, v: Json)
    requires Valid(o, Obj(m), v) && Valid(o, Obj(branch), v) && REQUIRED in MergeBranch(m, branch)
    ensures KeywordOk(o, Obj(MergeBranch(m, branch)), REQUIRED, v)
  {
    var r := MergeBranch(m, branch);
    if REQUIRED in m { RequiredAsSet(o, m, v); }
    if REQUIRED in branch { RequiredAsSet(o, branch, v); }
    RequiredAsSet(o, r, v);
    if v.Obj? {
      forall q | q in Listed(r) && q.Str? ensures q.t in v.m { MergedRequired(m, branch, q); }
    }
  }

  /** The more names are listed, the fewer are additional. */
  lemma FewerAdditional(o: Oracle, m: Keywords, n: Keywords, v: Json)
    requires ADDITIONAL_PROPERTIES in m && ADDITIONAL_PROPERTIES in n && m[ADDITIONAL_PROPERTIES] == n[ADDITIONAL_PROPERTIES]
    requires Named(m) <= Named(n)
    requires forall name :: PatternNamed(o, m, name) ==> PatternNamed(o, n, name)
    requires KeywordOk(o, Obj(m), ADDITIONAL_PROPERTIES, v)
    ensures KeywordOk(o, Obj(n), ADDITIONAL_PROPERTIES, v)
  {
  }

  /** No merge of these branches, in turn, copies additionalProperties away from its patterns. */
  predicate BranchesStay(m: Keywords, branches: seq<Json>)
    decreases |branches|
  {
    branches == [] ||
    var last := |branches| - 1;
    && BranchesStay(m, branches[..last])
    && (branches[last].Obj? ==> PatternsStay(MergeBranches(m, branches[..last]), branches[last].m))
  }

  lemma {:induction false} MergeBranchesAccepts(o: Oracle, m: Keywords, branches: seq<Json>, v: Json)
    requires Valid(o, Obj(m), v) && BranchesStay(m, branches)
    requires forall i :: 0 <= i < |branches| ==> Valid(o, branches[i], v)
    ensures Valid(o, Obj(MergeBranches(m, branches)), v)
    decreases |branches|
  {
    if branches != [] {
      var last := |branches| - 1;
      MergeBranchesAccepts(o, m, branches[..last], v);
      assert Valid(o, branches[last], v);
      if branches[last].Obj? {
        assert branches[last] == Obj(branches[last].m);
        MergeBranchAccepts(o, MergeBranches(m, branches[..last]), branches[last].m, v);
      }
    }
  }

  /** What the theorem asks of each node: nothing is lost below a oneOf, and additionalProperties
      stays with its patterns, in the branches as they are once flattened. */
  ghost predicate Mergeable(m: Keywords) {
    && (ONE_OF in m && m[ONE_OF].Arr? ==> forall i :: 0 <= i < |m[ONE_OF].a| ==> Everywhere(m[ONE_OF].a[i], LosslessNode))
    && NodeStays(WalkChildren(Obj(m), FlattenNode))
  }

  predicate NodeStays(n: Keywords) {
    ALL_OF in n && n[ALL_OF].Arr? ==> BranchesStay(n - {ALL_OF}, n[ALL_OF].a)
  }

  /** A value the schema accepts is accepted once the allOf are collapsed. */
  lemma {:induction false} FlattenAccepts(o: Oracle, s: Json, v: Json)
    requires Everywhere(s, Mergeable) && Valid(o, s, v)
    ensures Valid(o, Flatten(s), v)
    decreases s, 1
  {
    if s.Obj? {
      var m := WalkChildren(s, FlattenNode);
      forall k | k in m ensures KeywordOk(o, Obj(m), k, v) {
        assert KeywordOk(o, s, k, v);
        FlattenBelowAccepts(o, s, k, v);
      }
      assert Valid(o, Obj(m), v);
      assert s == Obj(s.m) && Mergeable(s.m);
      VisitAccepts(o, m, v);
    }
  }

  lemma VisitAccepts(o: Oracle, m: Keywords, v: Json)
    requires Valid(o, Obj(m), v) && NodeStays(m)
    ensures Valid(o, Obj(FlattenNode(m)), v)
  {
    if !NoBranches(m) {
      WithoutKeyword(o, m, ALL_OF, v);
      MergeBranchesAccepts(o, m - {ALL_OF}, m[ALL_OF].a, v);
    }
  }

  lemma {:induction false} FlattenBelowAccepts(o: Oracle, s: Json, k: Text, v: Json)
    requires s.Obj? && k in s.m && Everywhere(s, Mergeable) && KeywordOk(o, s, k, v)
    ensures KeywordOk(o, Obj(WalkChildren(s, FlattenNode)), k, v)
    decreases s, 0, 1
  {
    if WalkKeyword(s, k, FlattenNode) == s.m[k] {
      UnchangedAccepts(o, s, k, v);
    } else if k == PROPERTIES {
      FlattenPropertiesAccepts(o, s, v);
    } else if IsSingle(k) {
      FlattenSingleAccepts(o, s, k, v);
    } else {
      FlattenListAccepts(o, s, k, v);
    }
  }

  lemma UnchangedAccepts(o: Oracle, s: Json, k: Text, v: Json)
    requires s.Obj? && k in s.m && WalkKeyword(s, k, FlattenNode) == s.m[k]
    ensures KeywordOk(o, s, k, v) == KeywordOk(o, Obj(WalkChildren(s, FlattenNode)), k, v)
  {
    WalkedNames(o, s, FlattenNode);
    assert WalkChildren(s, FlattenNode)[k] == WalkKeyword(s, k, FlattenNode);
    if k != ADDITIONAL_PROPERTIES { SameKeyword(o, s.m, WalkChildren(s, FlattenNode), k, v); }
  }

  lemma {:induction false} FlattenPropertiesAccepts(o: Oracle, s: Json, v: Json)
    requires s.Obj? && PROPERTIES in s.m && s.m[PROPERTIES].Obj?
    requires Everywhere(s, Mergeable) && KeywordOk(o, s, PROPERTIES, v)
    ensures KeywordOk(o, Obj(WalkChildren(s, FlattenNode)), PROPERTIES, v)
    decreases s, 0, 0
  {
    assert EverywhereBelow(s, PROPERTIES, Mergeable);
    var props := s.m[PROPERTIES].m;
    if v.Obj? {
      forall p | p in props && p in v.m ensures Valid(o, Flatten(props[p]), v.m[p]) { FlattenAccepts(o, props[p], v.m[p]); }
    }
  }

  lemma {:induction false} FlattenSingleAccepts(o: Oracle, s: Json, k: Text, v: Json)
    requires s.Obj? && k in s.m && IsSingle(k) && s.m[k].Obj?
    requires Everywhere(s, Mergeable) && KeywordOk(o, s, k, v)
    ensures KeywordOk(o, Obj(WalkChildren(s, FlattenNode)), k, v)
    decreases s, 0, 0
  {
    var arg := s.m[k];
    assert EverywhereBelow(s, k, Mergeable) && WalkChildren(s, FlattenNode)[k] == Flatten(arg);
    WalkedNames(o, s, FlattenNode);
    forall w | Valid(o, arg, w) ensures Valid(o, Flatten(arg), w) { FlattenAccepts(o, arg, w); }
  }

  lemma {:induction false} FlattenListAccepts(o: Oracle, s: Json, k: Text, v: Json)
    requires s.Obj? && k in s.m && IsListing(k) && s.m[k].Arr?
    requires Everywhere(s, Mergeable) && KeywordOk(o, s, k, v)
    ensures KeywordOk(o, Obj(WalkChildren(s, FlattenNode)), k, v)
    decreases s, 0, 0
  {
    var list, n := s.m[k].a, WalkChildren(s, FlattenNode);
    assert EverywhereBelow(s, k, Mergeable) && n[k] == WalkKeyword(s, k, FlattenNode);
    if k == ONE_OF {
      forall i | 0 <= i < |list| ensures Valid(o, list[i], v) == Valid(o, n[k].a[i], v) { FlattenExact(o, list[i], v); }
      AgreeListing(o, s.m, n, k, v);
    } else {
      forall i | 0 <= i < |list| && Valid(o, list[i], v) ensures Valid(o, n[k].a[i], v) { FlattenAccepts(o, list[i], v); }
    }
  }

  // ----- when nothing is lost -----

  /** Every keyword of the branch ends up in the node, and none of them changes the meaning of another. */
  predicate Lossless(m: Keywords, branch: Keywords) {
    && (forall k :: k in branch ==> IsCopied(k) || k == PROPERTIES || k == REQUIRED || IsAnnotation(k))
    && (forall k :: k in branch && k in m && IsCopied(k) ==> m[k] == branch[k])
    && (forall p :: p in Named(m) && p in Named(branch) ==> m[PROPERTIES].m[p] == branch[PROPERTIES].m[p])
    && (ADDITIONAL_PROPERTIES in m ==> Named(branch) <= Named(m))
    && (ADDITIONAL_PROPERTIES in branch ==> Named(m) <= Named(branch) && PATTERN_PROPERTIES !in m)
    && Str(EMPTY) !in Listed(m) && Str(EMPTY) !in Listed(branch)
  }

  lemma MergeBranchExact(o: Oracle, m: Keywords, branch: Keywords, v: Json)
    requires Lossless(m, branch)
    ensures Valid(o, Obj(MergeBranch(m, branch)), v) <==> Valid(o, Obj(m), v) && Valid(o, Obj(branch), v)
  {
    var r := MergeBranch(m, branch);
    if Valid(o, Obj(m), v) && Valid(o, Obj(branch), v) {
      LosslessStays(m, branch);
      MergeBranchAccepts(o, m, branch, v);
    }
    if Valid(o, Obj(r), v) { MergeLosesNothing(o, m, branch, v); }
  }

  lemma MergeLosesNothing(o: Oracle, m: Keywords, branch: Keywords, v: Json)
    requires Lossless(m, branch) && Valid(o, Obj(MergeBranch(m, branch)), v)
    ensures Valid(o, Obj(m), v) && Valid(o, Obj(branch), v)
  {
    forall k | k in m ensures KeywordOk(o, Obj(m), k, v) { MergeKeepsNode(o, m, branch, k, v); }
    forall k | k in branch ensures KeywordOk(o, Obj(branch), k, v) { MergeKeepsBranch(o, m, branch, k, v); }
  }

  lemma LosslessStays(m: Keywords, branch: Keywords)
    requires Lossless(m, branch)
    ensures PatternsStay(m, branch)
  {
    assert PATTERN_PROPERTIES !in branch by { assert !IsCopied(PATTERN_PROPERTIES) && !IsAnnotation(PATTERN_PROPERTIES); }
  }

  lemma MergeKeepsNode(o: Oracle, m: Keywords, branch: Keywords, k: Text, v: Json)
    requires Lossless(m, branch) && k in m && Valid(o, Obj(MergeBranch(m, branch)), v)
    ensures KeywordOk(o, Obj(m), k, v)
  {
    MergedAt(m, branch, k);
    assert KeywordOk(o, Obj(MergeBranch(m, branch)), k, v);
    if k == PROPERTIES {
      MergedProperties(o, m, branch, v);
    } else if k == REQUIRED {
      RequiredAsSet(o, m, v);
      RequiredAsSet(o, MergeBranch(m, branch), v);
      forall r | r in Listed(m) && r.Str? ensures r in Listed(MergeBranch(m, branch)) { MergedRequired(m, branch, r); }
    } else {
      MergedNames(o, m, branch);
      SameKeyword(o, m, MergeBranch(m, branch), k, v);
    }
  }

  lemma MergedProperties(o: Oracle, m: Keywords, branch: Keywords, v: Json)
    requires PROPERTIES in MergeBranch(m, branch) && PropertiesOk(o, Obj(MergeBranch(m, branch)), v)
    requires forall p :: p in Named(m) && p in Named(branch) ==> m[PROPERTIES].m[p] == branch[PROPERTIES].m[p]
    ensures PROPERTIES in m ==> PropertiesOk(o, Obj(m), v)
    ensures PROPERTIES in branch ==> PropertiesOk(o, Obj(branch), v)
  {
    MergedAt(m, branch, PROPERTIES);
    var r := MergeBranch(m, branch);
    if PROPERTIES in branch && branch[PROPERTIES].Obj? && v.Obj? {
      var props := branch[PROPERTIES].m;
      forall p | p in props && p in v.m ensures Valid(o, props[p], v.m[p]) {
        assert r[PROPERTIES].m[p] == props[p];
      }
    }
  }

  lemma MergeKeepsBranch(o: Oracle, m: Keywords, branch: Keywords, k: Text, v: Json)
    requires Lossless(m, branch) && k in branch && Valid(o, Obj(MergeBranch(m, branch)), v)
    ensures KeywordOk(o, Obj(branch), k, v)
  {
    if k == PROPERTIES {
      MergeKeepsProperties(o, m, branch, v);
    } else if k == REQUIRED {
      if branch[k].Arr? { MergeKeepsRequired(o, m, branch, v); }
    } else if IsCopied(k) {
      MergeKeepsCopied(o, m, branch, k, v);
    } else {
      assert IsAnnotation(k);
    }
  }

  lemma MergeKeepsProperties(o: Oracle, m: Keywords, branch: Keywords, v: Json)
    requires Lossless(m, branch) && PROPERTIES in branch && Valid(o, Obj(MergeBranch(m, branch)), v)
    ensures PropertiesOk(o, Obj(branch), v)
  {
    MergedAt(m, branch, PROPERTIES);
    if branch[PROPERTIES].Obj? {
      assert KeywordOk(o, Obj(MergeBranch(m, branch)), PROPERTIES, v);
      MergedProperties(o, m, branch, v);
    }
  }

  lemma MergeKeepsRequired(o: Oracle, m: Keywords, branch: Keywords, v: Json)
    requires Lossless(m, branch) && REQUIRED in branch && branch[REQUIRED].Arr?
    requires Valid(o, Obj(MergeBranch(m, branch)), v)
    ensures KeywordOk(o, Obj(branch), REQUIRED, v)
  {
    MergedAt(m, branch, REQUIRED);
    assert KeywordOk(o, Obj(MergeBranch(m, branch)), REQUIRED, v);
    RequiredAsSet(o, branch, v);
    RequiredAsSet(o, MergeBranch(m, branch), v);
    forall r | r in Listed(branch) && r.Str? ensures r in Listed(MergeBranch(m, branch)) { MergedRequired(m, branch, r); }
  }

  lemma MergeKeepsCopied(o: Oracle, m: Keywords, branch: Keywords, k: Text, v: Json)
    requires Lossless(m, branch) && k in branch && IsCopied(k) && Valid(o, Obj(MergeBranch(m, branch)), v)
    ensures KeywordOk(o, Obj(branch), k, v)
  {
    CopiedAgrees(o, m, branch, k);
    assert KeywordOk(o, Obj(MergeBranch(m, branch)), k, v);
    SameKeyword(o, branch, MergeBranch(m, branch), k, v);
  }

  lemma CopiedAgrees(o: Oracle, m: Keywords, branch: Keywords, k: Text)
    requires Lossless(m, branch) && k in branch && IsCopied(k)
    ensures var r := MergeBranch(m, branch);
      k in r && r[k] == branch[k] && (k == ADDITIONAL_PROPERTIES ==> SameNames(o, branch, r))
  {
    MergedAt(m, branch, k);
    MergedNames(o, m, branch);
    if k == ADDITIONAL_PROPERTIES {
      assert PATTERN_PROPERTIES !in branch by { assert !IsCopied(PATTERN_PROPERTIES); }
    }
  }

  predicate LosslessBranches(m: Keywords, branches: seq<Json>)
    decreases |branches|
  {
    branches == [] ||
    var last := |branches| - 1;
    && LosslessBranches(m, branches[..last])
    && (if branches[last].Obj? then Lossless(MergeBranches(m, branches[..last]), branches[last].m) else branches[last] != Bool(false))
  }

  lemma {:induction false} MergeBranchesExact(o: Oracle, m: Keywords, branches: seq<Json>, v: Json)
    requires LosslessBranches(m, branches)
    ensures Valid(o, Obj(MergeBranches(m, branches)), v) <==>
      Valid(o, Obj(m), v) && forall i :: 0 <= i < |branches| ==> Valid(o, branches[i], v)
    decreases |branches|
  {
    if branches != [] {
      var last := |branches| - 1;
      MergeBranchesExact(o, m, branches[..last], v);
      assert forall i :: 0 <= i < last ==> branches[..last][i] == branches[i];
      if branches[last].Obj? {
        assert branches[last] == Obj(branches[last].m);
        MergeBranchExact(o, MergeBranches(m, branches[..last]), branches[last].m, v);
      }
    }
  }

  /** The condition, at one node, whose own nodes are flattened first. */
  predicate LosslessNode(m: Keywords) {
    var n := WalkChildren(Obj(m), FlattenNode);
    ALL_OF in n && n[ALL_OF].Arr? ==> LosslessBranches(n - {ALL_OF}, n[ALL_OF].a)
  }

  lemma VisitExact(o: Oracle, m: Keywords, v: Json)
    requires ALL_OF in m && m[ALL_OF].Arr? ==> LosslessBranches(m - {ALL_OF}, m[ALL_OF].a)
    ensures Valid(o, Obj(m), v) <==> Valid(o, Obj(FlattenNode(m)), v)
  {
    if !NoBranches(m) {
      WithoutKeyword(o, m, ALL_OF, v);
      MergeBranchesExact(o, m - {ALL_OF}, m[ALL_OF].a, v);
    }
  }

  /** A schema whose merges lose nothing accepts exactly the same values once flattened. */
  lemma {:induction false} FlattenExact(o: Oracle, s: Json, v: Json)
    requires Everywhere(s, LosslessNode)
    ensures Valid(o, s, v) <==> Valid(o, Flatten(s), v)
    decreases s, 1
  {
    if s.Obj? {
      forall k | k in s.m ensures WalkAgrees(o, s, FlattenNode, k, v) { FlattenExactBelow(o, s, k, v); }
      AgreeWalked(o, s, FlattenNode, v);
      assert s == Obj(s.m);
      VisitExact(o, WalkChildren(s, FlattenNode), v);
    }
  }

  lemma {:induction false} FlattenExactBelow(o: Oracle, s: Json, k: Text, v: Json)
    requires s.Obj? && k in s.m && EverywhereBelow(s, k, LosslessNode)
    ensures WalkAgrees(o, s, FlattenNode, k, v)
    decreases s, 0
  {
    var arg := s.m[k];
    assert WalkChildren(s, FlattenNode)[k] == WalkKeyword(s, k, FlattenNode);
    if k == PROPERTIES && arg.Obj? {
      forall p, w | p in arg.m ensures Valid(o, arg.m[p], w) == Valid(o, Flatten(arg.m[p]), w) {
        FlattenExact(o, arg.m[p], w);
      }
    } else if IsSingle(k) && arg.Obj? {
      assert Flatten(arg).Obj?;
      forall w ensures Valid(o, arg, w) == Valid(o, Flatten(arg), w) { FlattenExact(o, arg, w); }
    } else if IsListing(k) && arg.Arr? {
      forall i | 0 <= i < |arg.a| ensures Valid(o, arg.a[i], v) == Valid(o, Flatten(arg.a[i]), v) {
        FlattenExact(o, arg.a[i], v);
      }
    }
  }

  /** A schema without branches loses nothing. */
  lemma {:induction false} FlatIsLossless(s: Json)
    requires Everywhere(s, NoBranches)
    ensures Everywhere(s, LosslessNode)
    decreases s, 1
  {
    if s.Obj? {
      assert NoBranches(s.m) && s == Obj(s.m);
      var n := WalkChildren(s, FlattenNode);
      assert ALL_OF in s.m ==> n[ALL_OF] == WalkKeyword(s, ALL_OF, FlattenNode);
      forall k | k in s.m ensures EverywhereBelow(s, k, LosslessNode) {
        assert EverywhereBelow(s, k, NoBranches);
        FlatIsLosslessBelow(s, k);
      }
    }
  }

  lemma {:induction false} FlatIsLosslessBelow(s: Json, k: Text)
    requires s.Obj? && k in s.m && EverywhereBelow(s, k, NoBranches)
    ensures EverywhereBelow(s, k, LosslessNode)
    decreases s, 0
  {
    var arg := s.m[k];
    if k == PROPERTIES && arg.Obj? {
      forall p | p in arg.m ensures Everywhere(arg.m[p], LosslessNode) { FlatIsLossless(arg.m[p]); }
    } else if IsSingle(k) {
      FlatIsLossless(arg);
    } else if IsListing(k) && arg.Arr? {
      forall i | 0 <= i < |arg.a| ensures Everywhere(arg.a[i], LosslessNode) { FlatIsLossless(arg.a[i]); }
    }
  }

  // ----- why the conditions are there -----

  lemma FlattenOneBranch(branch: Keywords)
    requires Everywhere(Obj(branch), NoBranches)
    ensures Flatten(Only(ALL_OF, Arr([Obj(branch)]))) == Obj(MergeBranch(map[], branch))
  {
    var list := [Obj(branch)];
    var s := Only(ALL_OF, Arr(list));
    FlatIsKept(Obj(branch));
    assert WalkList(list, FlattenNode) == list;
    assert WalkKeyword(s, ALL_OF, FlattenNode) == Arr(list);
    assert WalkChildren(s, FlattenNode) == s.m && s.m - {ALL_OF} == map[];
    assert list[..0] == [];
    assert MergeBranches(map[], list) == MergeBranch(MergeBranches(map[], list[..0]), branch);
  }

  const NEVER := Only(NOT, Bool(true))
  const STRICT := Only(ALL_OF, Arr([NEVER]))

  /** A oneOf with a branch that gets laxer: every value is lost. */
  lemma OneOfMayLoseValues(o: Oracle, v: Json)
    ensures var s := Only(ONE_OF, Arr([STRICT, Bool(true)])); Valid(o, s, v) && !Valid(o, Flatten(s), v)
  {
    StrictRelaxed(o, v);
    FlattenOneOfTwo(STRICT, Bool(true));
    OneOfTwo(o, STRICT, Bool(true), v);
    OneOfTwo(o, Obj(map[]), Bool(true), v);
  }

  lemma StrictRelaxed(o: Oracle, v: Json)
    ensures !Valid(o, STRICT, v) && Flatten(STRICT) == Obj(map[])
  {
    NeverAccepts(o, v);
    AllOfOne(o, NEVER, v);
    FlattenOneBranch(NEVER.m);
    assert MergeBranch(map[], NEVER.m) == map[];
  }

  lemma NeverAccepts(o: Oracle, v: Json)
    ensures !Valid(o, NEVER, v)
  {
    ValidOnly(o, NOT, Bool(true), v);
  }

  lemma FlattenOneOfTwo(a: Json, b: Json)
    ensures Flatten(Only(ONE_OF, Arr([a, b]))) == Only(ONE_OF, Arr([Flatten(a), Flatten(b)]))
  {
    var s := Only(ONE_OF, Arr([a, b]));
    assert WalkList([a, b], FlattenNode) == [Flatten(a), Flatten(b)];
    assert WalkKeyword(s, ONE_OF, FlattenNode) == Arr([Flatten(a), Flatten(b)]);
    assert WalkChildren(s, FlattenNode) == map[ONE_OF := Arr([Flatten(a), Flatten(b)])];
  }

  const OPEN_BRANCH := map[PATTERN_PROPERTIES := Only(PATTERN, Bool(true)), ADDITIONAL_PROPERTIES := Bool(false)]

  /** additionalProperties without the patternProperties it came with: a value is lost. */
  lemma PatternsMayLoseValues(o: Oracle)
    requires o.matches(PATTERN, NAME)
    ensures var s, v := Only(ALL_OF, Arr([Obj(OPEN_BRANCH)])), Only(NAME, Null);
      Valid(o, s, v) && !Valid(o, Flatten(s), v)
  {
    var v := Only(NAME, Null);
    AllOfOne(o, Obj(OPEN_BRANCH), v);
    OpenBranchAccepts(o);
    FlattenOneBranch(OPEN_BRANCH);
    OpenBranchMerged();
    ValidOnly(o, ADDITIONAL_PROPERTIES, Bool(false), v);
    assert NAME in v.m;
  }

  lemma OpenBranchAccepts(o: Oracle)
    requires o.matches(PATTERN, NAME)
    ensures Valid(o, Obj(OPEN_BRANCH), Only(NAME, Null))
  {
    assert PatternNamed(o, OPEN_BRANCH, NAME) by { assert PATTERN in OPEN_BRANCH[PATTERN_PROPERTIES].m; }
    assert KeywordOk(o, Obj(OPEN_BRANCH), ADDITIONAL_PROPERTIES, Only(NAME, Null));
    assert KeywordOk(o, Obj(OPEN_BRANCH), PATTERN_PROPERTIES, Only(NAME, Null));
  }

  lemma OpenBranchMerged()
    ensures Obj(MergeBranch(map[], OPEN_BRANCH)) == Only(ADDITIONAL_PROPERTIES, Bool(false))
  {
    var r := MergeBranch(map[], OPEN_BRANCH);
    assert r.Keys == {ADDITIONAL_PROPERTIES};
  }
}
