/** Whose keywords a flattened node has (flattenAllOf.go): its own first, then those of its branches in order. */
module FlattenPrecedence {
  import opened Collections
  import opened Json
  import opened Schema
  import opened FlattenAllOf

  predicate HasBranches(m: Keywords) {
    ALL_OF in m && m[ALL_OF].Arr? && m[ALL_OF].a != []
  }

  // ----- properties -----

  /** The node has a schema for the property. */
  predicate Lists(m: Keywords, p: Text) {
    PROPERTIES in m && m[PROPERTIES].Obj? && p in m[PROPERTIES].m
  }

  predicate BranchLists(branches: seq<Json>, i: nat, p: Text) {
    i < |branches| && branches[i].Obj? && Lists(branches[i].m, p)
  }

  predicate FirstToList(branches: seq<Json>, i: nat, p: Text) {
    BranchLists(branches, i, p) && forall j :: 0 <= j < i ==> !BranchLists(branches, j, p)
  }

  lemma MergedLists(m: Keywords, branch: Keywords, p: Text)
    ensures Lists(MergeBranch(m, branch), p) <==> Lists(m, p) || Lists(branch, p)
    ensures Lists(m, p) ==> MergeBranch(m, branch)[PROPERTIES].m[p] == m[PROPERTIES].m[p]
    ensures Lists(branch, p) && !Lists(m, p) ==> MergeBranch(m, branch)[PROPERTIES].m[p] == branch[PROPERTIES].m[p]
  {
    MergedAt(m, branch, PROPERTIES);
  }

  lemma {:induction false} PropertyStays(m: Keywords, branches: seq<Json>, p: Text)
    requires Lists(m, p)
    ensures var r := MergeBranches(m, branches); Lists(r, p) && r[PROPERTIES].m[p] == m[PROPERTIES].m[p]
    decreases |branches|
  {
    if branches != [] {
      var last := |branches| - 1;
      PropertyStays(m, branches[..last], p);
      if branches[last].Obj? { MergedLists(MergeBranches(m, branches[..last]), branches[last].m, p); }
    }
  }

  lemma {:induction false} PropertyOfNone(m: Keywords, branches: seq<Json>, p: Text)
    requires !Lists(m, p) && forall i: nat :: !BranchLists(branches, i, p)
    ensures !Lists(MergeBranches(m, branches), p)
    decreases |branches|
  {
    if branches != [] {
      var last := |branches| - 1;
      forall i: nat ensures !BranchLists(branches[..last], i, p) { assert !BranchLists(branches, i, p); }
      PropertyOfNone(m, branches[..last], p);
      assert !BranchLists(branches, last, p);
      if branches[last].Obj? { MergedLists(MergeBranches(m, branches[..last]), branches[last].m, p); }
    }
  }

  lemma {:induction false} PropertyOfFirst(m: Keywords, branches: seq<Json>, i: nat, p: Text)
    requires !Lists(m, p) && FirstToList(branches, i, p)
    ensures var r := MergeBranches(m, branches); Lists(r, p) && r[PROPERTIES].m[p] == branches[i].m[PROPERTIES].m[p]
    decreases |branches|
  {
    var last := |branches| - 1;
    if i < last {
      assert FirstToList(branches[..last], i, p) by {
        forall j | 0 <= j < i ensures !BranchLists(branches[..last], j, p) { assert !BranchLists(branches, j, p); }
      }
      PropertyOfFirst(m, branches[..last], i, p);
    } else {
      forall j: nat ensures !BranchLists(branches[..last], j, p) { assert j < i ==> !BranchLists(branches, j, p); }
      PropertyOfNone(m, branches[..last], p);
    }
    if branches[last].Obj? { MergedLists(MergeBranches(m, branches[..last]), branches[last].m, p); }
  }

  /** Of two schemas for one property the node's own stays. */
  lemma OwnPropertyStays(m: Keywords, p: Text)
    requires HasBranches(m) && Lists(m, p)
    ensures Lists(FlattenNode(m), p) && FlattenNode(m)[PROPERTIES].m[p] == m[PROPERTIES].m[p]
  {
    PropertyStays(m - {ALL_OF}, m[ALL_OF].a, p);
  }

  /** Else the schema of the first branch that has one is taken. */
  lemma FirstPropertyIsTaken(m: Keywords, i: nat, p: Text)
    requires HasBranches(m) && !Lists(m, p) && FirstToList(m[ALL_OF].a, i, p)
    ensures Lists(FlattenNode(m), p) && FlattenNode(m)[PROPERTIES].m[p] == m[ALL_OF].a[i].m[PROPERTIES].m[p]
  {
    PropertyOfFirst(m - {ALL_OF}, m[ALL_OF].a, i, p);
  }

  lemma NoPropertyIsMade(m: Keywords, p: Text)
    requires HasBranches(m) && !Lists(m, p) && forall i: nat :: !BranchLists(m[ALL_OF].a, i, p)
    ensures !Lists(FlattenNode(m), p)
  {
    PropertyOfNone(m - {ALL_OF}, m[ALL_OF].a, p);
  }

  // ----- the keywords that are copied -----

  predicate BranchHas(branches: seq<Json>, i: nat, k: Text) {
    i < |branches| && branches[i].Obj? && k in branches[i].m
  }

  predicate FirstToHave(branches: seq<Json>, i: nat, k: Text) {
    BranchHas(branches, i, k) && forall j :: 0 <= j < i ==> !BranchHas(branches, j, k)
  }

  lemma {:induction false} KeywordStays(m: Keywords, branches: seq<Json>, k: Text)
    requires k != PROPERTIES && k != REQUIRED && k in m
    ensures var r := MergeBranches(m, branches); k in r && r[k] == m[k]
    decreases |branches|
  {
    if branches != [] {
      var last := |branches| - 1;
      KeywordStays(m, branches[..last], k);
      if branches[last].Obj? { MergedAt(MergeBranches(m, branches[..last]), branches[last].m, k); }
    }
  }

  lemma {:induction false} KeywordOfNone(m: Keywords, branches: seq<Json>, k: Text)
    requires k != PROPERTIES && k != REQUIRED && k !in m && (!IsCopied(k) || forall i: nat :: !BranchHas(branches, i, k))
    ensures k !in MergeBranches(m, branches)
    decreases |branches|
  {
    if branches != [] {
      var last := |branches| - 1;
      forall i: nat ensures BranchHas(branches[..last], i, k) ==> BranchHas(branches, i, k) {}
      KeywordOfNone(m, branches[..last], k);
      assert IsCopied(k) ==> !BranchHas(branches, last, k);
      if branches[last].Obj? { MergedAt(MergeBranches(m, branches[..last]), branches[last].m, k); }
    }
  }

  lemma {:induction false} KeywordOfFirst(m: Keywords, branches: seq<Json>, i: nat, k: Text)
    requires k != PROPERTIES && k != REQUIRED && k !in m && IsCopied(k) && FirstToHave(branches, i, k)
    ensures var r := MergeBranches(m, branches); k in r && r[k] == branches[i].m[k]
    decreases |branches|
  {
    var last := |branches| - 1;
    if i < last {
      assert FirstToHave(branches[..last], i, k) by {
        forall j | 0 <= j < i ensures !BranchHas(branches[..last], j, k) { assert !BranchHas(branches, j, k); }
      }
      KeywordOfFirst(m, branches[..last], i, k);
    } else {
      forall j: nat ensures !BranchHas(branches[..last], j, k) { assert j < i ==> !BranchHas(branches, j, k); }
      KeywordOfNone(m, branches[..last], k);
    }
    if branches[last].Obj? { MergedAt(MergeBranches(m, branches[..last]), branches[last].m, k); }
  }

  const ELEVEN: set<Text> :=
    {TYPE, ADDITIONAL_PROPERTIES, ITEMS, FORMAT, ENUM, PATTERN, MIN_LENGTH, MAX_LENGTH, MINIMUM, MAXIMUM, INT_OR_STRING}

  /** A keyword the node has stays as it is. */
  lemma OwnKeywordStays(m: Keywords, k: Text)
    requires HasBranches(m) && k != PROPERTIES && k != REQUIRED && k != ALL_OF && k in m
    ensures k in FlattenNode(m) && FlattenNode(m)[k] == m[k]
  {
    KeywordStays(m - {ALL_OF}, m[ALL_OF].a, k);
  }

  /** One of the eleven that it lacks is taken from the first branch to have it. */
  lemma FirstKeywordIsTaken(m: Keywords, i: nat, k: Text)
    requires HasBranches(m) && k in ELEVEN && k !in m && FirstToHave(m[ALL_OF].a, i, k)
    ensures k in FlattenNode(m) && FlattenNode(m)[k] == m[ALL_OF].a[i].m[k]
  {
    KeywordOfFirst(m - {ALL_OF}, m[ALL_OF].a, i, k);
  }

  /** Any other is not taken, nor one that no branch has. */
  lemma NoKeywordIsMade(m: Keywords, k: Text)
    requires HasBranches(m) && k != PROPERTIES && k != REQUIRED && k !in m
    requires k !in ELEVEN || forall i: nat :: !BranchHas(m[ALL_OF].a, i, k)
    ensures k !in FlattenNode(m)
  {
    KeywordOfNone(m - {ALL_OF}, m[ALL_OF].a, k);
  }

  // ----- the names that are asked for -----

  predicate AsksByList(m: Keywords) {
    REQUIRED in m && m[REQUIRED].Arr?
  }

  /** What the node and its branches ask for, one after the other. */
  function Asked(m: Keywords, branches: seq<Json>): seq<Json>
    decreases |branches|
  {
    if branches == [] then (if AsksByList(m) then m[REQUIRED].a else [])
    else
      var last := branches[|branches| - 1];
      Asked(m, branches[..|branches| - 1]) + (if last.Obj? && AsksByList(last.m) then last.m[REQUIRED].a else [])
  }

  /** A name that is no empty text, where it is first mentioned. */
  predicate Mentioned(all: seq<Json>, i: nat) {
    i < |all| && all[i].Str? && all[i].t != EMPTY && all[i] !in all[..i]
  }

  function Mentions(all: seq<Json>): nat -> bool {
    (i: nat) => Mentioned(all, i)
  }

  function ItemOf(all: seq<Json>): nat -> Json {
    (i: nat) => if i < |all| then all[i] else Null
  }

  lemma {:induction false} AddNamesConcat(out: seq<Json>, a: seq<Json>, b: seq<Json>)
    ensures AddNames(out, a + b) == AddNames(AddNames(out, a), b)
    decreases |b|
  {
    if b == [] {
      assert a + b == a;
    } else {
      var last := |b| - 1;
      AddNamesConcat(out, a, b[..last]);
      assert (a + b)[..|a + b| - 1] == a + b[..last];
    }
  }

  lemma {:induction false} NamesInOrder(all: seq<Json>, n: nat) returns (at: seq<nat>)
    requires n <= |all|
    ensures InOrder(AddNames([], all[..n]), n, Mentions(all), ItemOf(all), at)
    decreases n
  {
    at := [];
    if n > 0 {
      at := NamesInOrder(all, n - 1);
      assert all[..n][..n - 1] == all[..n - 1];
      AddNamesHas([], all[..n - 1], all[n - 1]);
      OneMoreInOrder(AddNames([], all[..n - 1]), n - 1, Mentions(all), ItemOf(all), at);
      if Mentioned(all, n - 1) { at := at + [n - 1]; }
    }
  }

  /** Adding the names again leaves them as they are. */
  lemma {:induction false} AddedNames(list: seq<Json>)
    requires forall i :: 0 <= i < |list| ==> list[i].Str? && list[i].t != EMPTY
    requires NoRepeat(list)
    ensures AddNames([], list) == list
    decreases |list|
  {
    if list != [] {
      var last := |list| - 1;
      AddedNames(list[..last]);
      assert list == list[..last] + [list[last]];
    }
  }

  lemma {:induction false} NamesAreNames(out: seq<Json>, list: seq<Json>)
    requires NoRepeat(out) && forall i :: 0 <= i < |out| ==> out[i].Str? && out[i].t != EMPTY
    ensures var r := AddNames(out, list); NoRepeat(r) && forall i :: 0 <= i < |r| ==> r[i].Str? && r[i].t != EMPTY
    decreases |list|
  {
    if list != [] { NamesAreNames(out, list[..|list| - 1]); }
  }

  ghost predicate BranchAsks(branches: seq<Json>) {
    exists i :: 0 <= i < |branches| && branches[i].Obj? && AsksByList(branches[i].m)
  }

  lemma {:induction false} RequiredAfter(m: Keywords, branches: seq<Json>)
    ensures var r := MergeBranches(m, branches);
      if BranchAsks(branches) then AsksByList(r) && r[REQUIRED].a == AddNames([], Asked(m, branches))
      else (REQUIRED in r <==> REQUIRED in m) && (REQUIRED in m ==> r[REQUIRED] == m[REQUIRED]) && Asked(m, branches) == Listed(m)
    decreases |branches|
  {
    if branches != [] {
      var last := |branches| - 1;
      var before, branch := branches[..last], branches[last];
      RequiredAfter(m, before);
      AsksBefore(branches);
      if branch.Obj? {
        MergedAt(MergeBranches(m, before), branch.m, REQUIRED);
        if AsksByList(branch.m) {
          assert BranchAsks(branches);
          var all := Asked(m, before);
          AddNamesConcat([], all, branch.m[REQUIRED].a);
          NamesAreNames([], all);
          AddedNames(AddNames([], all));
          assert AddNames([], Listed(MergeBranches(m, before))) == AddNames([], all);
        } else {
          assert Asked(m, branches) == Asked(m, before) + [] == Asked(m, before);
        }
      } else {
        assert Asked(m, branches) == Asked(m, before) + [] == Asked(m, before);
      }
    }
  }

  lemma AsksBefore(branches: seq<Json>)
    requires branches != []
    ensures var last := |branches| - 1;
      BranchAsks(branches) <==> BranchAsks(branches[..last]) || (branches[last].Obj? && AsksByList(branches[last].m))
  {
    var last := |branches| - 1;
    if BranchAsks(branches[..last]) {
      var i :| 0 <= i < last && branches[..last][i].Obj? && AsksByList(branches[..last][i].m);
      assert branches[i].Obj? && AsksByList(branches[i].m);
    }
    if i :| 0 <= i < |branches| && branches[i].Obj? && AsksByList(branches[i].m) {
      if i < last { assert branches[..last][i] == branches[i]; }
    }
  }

  /** When a branch asks for names, the node asks for all of them and of its own, in the order they
      are first mentioned; else its own list stays. */
  lemma FlattenedRequired(m: Keywords) returns (at: seq<nat>)
    requires HasBranches(m)
    ensures BranchAsks(m[ALL_OF].a) ==> AsksByList(FlattenNode(m)) && var all := Asked(m, m[ALL_OF].a);
      InOrder(FlattenNode(m)[REQUIRED].a, |all|, Mentions(all), ItemOf(all), at)
    ensures !BranchAsks(m[ALL_OF].a) ==>
      (REQUIRED in FlattenNode(m) <==> REQUIRED in m) && (REQUIRED in m ==> FlattenNode(m)[REQUIRED] == m[REQUIRED])
  {
    var bare, branches := m - {ALL_OF}, m[ALL_OF].a;
    RequiredAfter(bare, branches);
    SameAsked(m, bare, branches);
    var all := Asked(m, branches);
    at := NamesInOrder(all, |all|);
    assert all[..|all|] == all;
  }

  lemma {:induction false} SameAsked(m: Keywords, n: Keywords, branches: seq<Json>)
    requires AsksByList(m) == AsksByList(n) && (AsksByList(m) ==> m[REQUIRED] == n[REQUIRED])
    ensures Asked(m, branches) == Asked(n, branches)
    decreases |branches|
  {
    if branches != [] { SameAsked(m, n, branches[..|branches| - 1]); }
  }
}
