/** The tree of required names (Required.go) and the check it stands for in the template
    (base.lib.requiredCheck): what merging two trees keeps of their checks. */
module RequiredTree {
  import opened Collections
  import opened Json

  // ----- the tree -----

  datatype Tree = Tree(required: seq<Text>, properties: map<Text, Tree>, each: Option<Tree>)

  const NOTHING := Tree([], map[], None)

  predicate Empty(t: Tree) {
    var empty := t.required == [] && t.properties == map[] && t.each.None?;
    empty
  }

  function AddText(out: seq<Text>, r: Text): seq<Text> {
    if r in out then out else out + [r]
  }

  function AddTexts(out: seq<Text>, list: seq<Text>): seq<Text>
    decreases |list|
  {
    if list == [] then out else AddText(AddTexts(out, list[..|list| - 1]), list[|list| - 1])
  }

  function Merge(n: Tree, other: Tree): Tree
    decreases other, 1
  {
    if Empty(other) then n
    else
      Tree(
        AddTexts(n.required, other.required),
        map name | name in n.properties.Keys + other.properties.Keys ::
          if name !in other.properties then n.properties[name]
          else if name !in n.properties then other.properties[name]
          else Merge(n.properties[name], other.properties[name]),
        MergeEach(n.each, other.each))
  }

  function MergeEach(n: Option<Tree>, other: Option<Tree>): Option<Tree>
    decreases other, 0
  {
    if other.None? then n else if n.None? then other else Some(Merge(n.value, other.value))
  }

  /** out.each.merge(c), out.each made when there is none yet. */
  function AddEach(each: Option<Tree>, c: Tree): Option<Tree> {
    if Empty(c) then each else Some(Merge(if each.None? then NOTHING else each.value, c))
  }

  // ----- the check -----

  /** base.lib.requiredCheck: each applies to the entries that have no tree of their own. */
  predicate Check(t: Tree, v: Json) {
    var passes := match v
      case Obj(m) =>
        && (forall r :: r in t.required ==> r in m)
        && (forall name :: name in t.properties && name in m ==> Check(t.properties[name], m[name]))
        && (t.each.Some? ==> forall name :: name in m && name !in t.properties ==> Check(t.each.value, m[name]))
      case Arr(a) => t.each.Some? ==> forall i :: 0 <= i < |a| ==> Check(t.each.value, a[i])
      case _ => true;
    passes
  }

  /** What the check applies to the entry of that name. */
  function At(t: Option<Tree>, name: Text): Option<Tree> {
    if t.None? then None
    else if name in t.value.properties then Some(t.value.properties[name])
    else t.value.each
  }

  predicate CheckIf(t: Option<Tree>, v: Json) {
    t.Some? ==> Check(t.value, v)
  }

  lemma {:induction false} AddTextsHas(out: seq<Text>, list: seq<Text>, r: Text)
    ensures r in AddTexts(out, list) <==> r in out || r in list
    decreases |list|
  {
    if list != [] { AddTextsHas(out, list[..|list| - 1], r); }
  }

  lemma EmptyChecks(t: Tree, v: Json)
    requires Empty(t)
    ensures Check(t, v)
  {
  }

  /** What passes both trees passes their merge. */
  lemma {:induction false} CheckMerged(a: Tree, b: Tree, v: Json)
    requires Check(a, v) && Check(b, v)
    ensures Check(Merge(a, b), v)
    decreases b, 1
  {
    if !Empty(b) {
      var c := Merge(a, b);
      if v.Obj? {
        forall r | r in c.required ensures r in v.m { AddTextsHas(a.required, b.required, r); }
        forall name | name in c.properties && name in v.m ensures Check(c.properties[name], v.m[name]) {
          if name in a.properties && name in b.properties { CheckMerged(a.properties[name], b.properties[name], v.m[name]); }
        }
        forall name | name in v.m && name !in c.properties ensures CheckIf(c.each, v.m[name]) {
          CheckMergedEach(a.each, b.each, v.m[name]);
        }
      } else if v.Arr? {
        forall i | 0 <= i < |v.a| ensures CheckIf(c.each, v.a[i]) { CheckMergedEach(a.each, b.each, v.a[i]); }
      }
    }
  }

  lemma {:induction false} CheckMergedEach(a: Option<Tree>, b: Option<Tree>, v: Json)
    requires CheckIf(a, v) && CheckIf(b, v)
    ensures CheckIf(MergeEach(a, b), v)
    decreases b, 0
  {
    if a.Some? && b.Some? { CheckMerged(a.value, b.value, v); }
  }

  lemma CheckAdded(each: Option<Tree>, c: Tree, v: Json)
    requires CheckIf(each, v) && Check(c, v)
    ensures CheckIf(AddEach(each, c), v)
  {
    EmptyChecks(NOTHING, v);
    if !Empty(c) { CheckMerged(if each.None? then NOTHING else each.value, c, v); }
  }

  // ----- when one check implies another -----

  function EachOf(t: Option<Tree>): Option<Tree> {
    if t.None? then None else t.value.each
  }

  /** Whatever passes t passes u, read off the trees. */
  predicate Implies(t: Option<Tree>, u: Tree)
    decreases u
  {
    var names := forall r :: r in u.required ==> t.Some? && r in t.value.required;
    var listed := forall name :: name in u.properties ==> Implies(At(t, name), u.properties[name]);
    var others := u.each.Some? ==>
      && Implies(EachOf(t), u.each.value)
      && (t.Some? ==> forall name :: name in t.value.properties && name !in u.properties ==>
            Implies(Some(t.value.properties[name]), u.each.value));
    names && listed && others
  }

  lemma {:induction false} ImpliesIs(t: Option<Tree>, u: Tree)
    ensures Implies(t, u) <==> forall v :: CheckIf(t, v) ==> Check(u, v)
  {
    if Implies(t, u) {
      forall v | CheckIf(t, v) ensures Check(u, v) { ImpliedChecks(t, u, v); }
    } else {
      var v := Refuter(t, u);
      assert CheckIf(t, v) && !Check(u, v);
    }
  }

  lemma {:induction false} ImpliedChecks(t: Option<Tree>, u: Tree, v: Json)
    requires Implies(t, u) && CheckIf(t, v)
    ensures Check(u, v)
    decreases v
  {
    if v.Obj? {
      forall name | name in u.properties && name in v.m ensures Check(u.properties[name], v.m[name]) {
        ImpliedChecks(At(t, name), u.properties[name], v.m[name]);
      }
      if u.each.Some? {
        forall name | name in v.m && name !in u.properties ensures Check(u.each.value, v.m[name]) {
          ImpliedChecks(At(t, name), u.each.value, v.m[name]);
        }
      }
    } else if v.Arr? && u.each.Some? {
      forall i | 0 <= i < |v.a| ensures Check(u.each.value, v.a[i]) { ImpliedChecks(EachOf(t), u.each.value, v.a[i]); }
    }
  }

  /** The least object that passes t: null, under each name t asks for, passes every tree. */
  function Least(t: Option<Tree>): (v: Json)
    ensures v.Obj?
  {
    if t.None? then Obj(map[]) else Obj(map r | r in t.value.required :: Null)
  }

  lemma NullPasses(t: Tree)
    ensures Check(t, Null)
  {
  }

  lemma LeastPasses(t: Option<Tree>)
    ensures CheckIf(t, Least(t))
  {
    if t.Some? {
      forall name | name in t.value.properties { NullPasses(t.value.properties[name]); }
      if t.value.each.Some? { NullPasses(t.value.each.value); }
    }
  }

  /** The least object, with x under one more name. */
  lemma LeastWith(t: Option<Tree>, name: Text, x: Json)
    requires CheckIf(At(t, name), x)
    ensures CheckIf(t, Obj(Least(t).m[name := x]))
  {
    LeastPasses(t);
  }

  /** A value that tells apart a tree from one it does not imply. */
  lemma {:induction false} Refuter(t: Option<Tree>, u: Tree) returns (v: Json)
    requires !Implies(t, u)
    ensures CheckIf(t, v) && !Check(u, v)
    decreases u
  {
    v := Least(t);
    LeastPasses(t);
    if name :| name in u.properties && !Implies(At(t, name), u.properties[name]) {
      var x := Refuter(At(t, name), u.properties[name]);
      LeastWith(t, name, x);
      v := Obj(v.m[name := x]);
      assert v.m[name] == x;
    } else if u.each.Some? && !Implies(EachOf(t), u.each.value) {
      var x := Refuter(EachOf(t), u.each.value);
      v := Arr([x]);
      assert v.a[0] == x;
    } else if u.each.Some? && t.Some? {
      if name :| name in t.value.properties && name !in u.properties && !Implies(Some(t.value.properties[name]), u.each.value) {
        var x := Refuter(Some(t.value.properties[name]), u.each.value);
        LeastWith(t, name, x);
        v := Obj(v.m[name := x]);
        assert v.m[name] == x;
      }
    }
  }

  // ----- what a merge keeps -----

  /** Wherever one tree's property takes an entry from the other's each, its tree implies that each. */
  predicate Keeps(a: Tree, b: Tree) {
    && (forall name :: name in a.properties && name in b.properties ==> Keeps(a.properties[name], b.properties[name]))
    && (a.each.Some? && b.each.Some? ==> Keeps(a.each.value, b.each.value))
    && Takes(a, b)
    && Takes(b, a)
  }

  /** The entries that a takes from the each of b. */
  predicate Takes(a: Tree, b: Tree) {
    b.each.Some? ==> forall name :: name in a.properties && name !in b.properties ==> Implies(Some(a.properties[name]), b.each.value)
  }

  /** node.merge loses no check exactly when no entry is taken by a tree that asks for less. */
  lemma {:induction false} MergeKeepsExactly(a: Tree, b: Tree)
    ensures Keeps(a, b) <==> forall v :: Check(Merge(a, b), v) ==> Check(a, v) && Check(b, v)
  {
    if Keeps(a, b) {
      forall v | Check(Merge(a, b), v) ensures Check(a, v) && Check(b, v) { MergeKeeps(a, b, v); }
    } else {
      var v := Lost(a, b);
      assert Check(Merge(a, b), v) && !(Check(a, v) && Check(b, v));
    }
  }

  /** An entry of the merge has the merge of the two trees it had, or one that implies the other. */
  lemma MergedAt(a: Tree, b: Tree, name: Text)
    requires !Empty(b)
    ensures Merge(a, b).properties.Keys == a.properties.Keys + b.properties.Keys
    ensures name in a.properties && name in b.properties ==> At(Some(Merge(a, b)), name) == Some(Merge(a.properties[name], b.properties[name]))
    ensures name in a.properties && name !in b.properties ==> At(Some(Merge(a, b)), name) == Some(a.properties[name])
    ensures name !in a.properties && name in b.properties ==> At(Some(Merge(a, b)), name) == Some(b.properties[name])
    ensures name !in a.properties && name !in b.properties ==> At(Some(Merge(a, b)), name) == MergeEach(a.each, b.each)
  {
  }

  lemma {:induction false} MergeKeeps(a: Tree, b: Tree, v: Json)
    requires Keeps(a, b) && Check(Merge(a, b), v)
    ensures Check(a, v) && Check(b, v)
    decreases v, 1
  {
    if Empty(b) {
      EmptyChecks(b, v);
    } else if v.Obj? {
      forall r | r in a.required || r in b.required ensures r in v.m { AddTextsHas(a.required, b.required, r); }
      forall name | name in v.m ensures CheckIf(At(Some(a), name), v.m[name]) && CheckIf(At(Some(b), name), v.m[name]) {
        MergeKeepsAt(a, b, name, v);
      }
      AllAt(a, v);
      AllAt(b, v);
    } else if v.Arr? {
      forall i | 0 <= i < |v.a| ensures CheckIf(a.each, v.a[i]) && CheckIf(b.each, v.a[i]) {
        MergeKeepsEach(a.each, b.each, v.a[i]);
      }
    }
  }

  lemma {:induction false} MergeKeepsEach(a: Option<Tree>, b: Option<Tree>, v: Json)
    requires (a.Some? && b.Some? ==> Keeps(a.value, b.value)) && CheckIf(MergeEach(a, b), v)
    ensures CheckIf(a, v) && CheckIf(b, v)
    decreases v, 2
  {
    if a.Some? && b.Some? { MergeKeeps(a.value, b.value, v); }
  }

  lemma AllAt(t: Tree, v: Json)
    requires v.Obj? && (forall r :: r in t.required ==> r in v.m)
    requires forall name :: name in v.m ==> CheckIf(At(Some(t), name), v.m[name])
    ensures Check(t, v)
  {
  }

  lemma {:induction false} MergeKeepsAt(a: Tree, b: Tree, name: Text, v: Json)
    requires Keeps(a, b) && !Empty(b) && v.Obj? && name in v.m && CheckIf(At(Some(Merge(a, b)), name), v.m[name])
    ensures CheckIf(At(Some(a), name), v.m[name]) && CheckIf(At(Some(b), name), v.m[name])
    decreases v, 0
  {
    MergedAt(a, b, name);
    if name in a.properties && name in b.properties {
      MergeKeeps(a.properties[name], b.properties[name], v.m[name]);
    } else if name in a.properties {
      if b.each.Some? { ImpliedChecks(Some(a.properties[name]), b.each.value, v.m[name]); }
    } else if name in b.properties {
      if a.each.Some? { ImpliedChecks(Some(b.properties[name]), a.each.value, v.m[name]); }
    } else {
      MergeKeepsEach(a.each, b.each, v.m[name]);
    }
  }

  /** A value that passes the merge and not both trees. */
  lemma {:induction false} Lost(a: Tree, b: Tree) returns (v: Json)
    requires !Keeps(a, b)
    ensures Check(Merge(a, b), v) && !(Check(a, v) && Check(b, v))
    decreases a
  {
    if name :| name in a.properties && name in b.properties && !Keeps(a.properties[name], b.properties[name]) {
      var x := Lost(a.properties[name], b.properties[name]);
      v := LostAt(a, b, name, x);
    } else if a.each.Some? && b.each.Some? && !Keeps(a.each.value, b.each.value) {
      var x := Lost(a.each.value, b.each.value);
      v := Arr([x]);
      assert v.a[0] == x;
    } else if !Takes(a, b) {
      var name :| name in a.properties && name !in b.properties && !Implies(Some(a.properties[name]), b.each.value);
      var x := Refuter(Some(a.properties[name]), b.each.value);
      v := LostAt(a, b, name, x);
    } else {
      var name :| name in b.properties && name !in a.properties && !Implies(Some(b.properties[name]), a.each.value);
      var x := Refuter(Some(b.properties[name]), a.each.value);
      v := LostAt(a, b, name, x);
    }
  }

  /** The loss at one entry, as a loss of the whole. */
  lemma LostAt(a: Tree, b: Tree, name: Text, x: Json) returns (v: Json)
    requires !Empty(b) && CheckIf(At(Some(Merge(a, b)), name), x)
    requires !(CheckIf(At(Some(a), name), x) && CheckIf(At(Some(b), name), x))
    ensures Check(Merge(a, b), v) && !(Check(a, v) && Check(b, v))
  {
    var c := Some(Merge(a, b));
    LeastWith(c, name, x);
    v := Obj(Least(c).m[name := x]);
    assert v.m[name] == x;
  }

  /** A merge that keeps both checks implies both trees. */
  lemma MergeImplies(a: Tree, b: Tree)
    requires Keeps(a, b)
    ensures Implies(Some(Merge(a, b)), a) && Implies(Some(Merge(a, b)), b)
  {
    MergeKeepsExactly(a, b);
    ImpliesIs(Some(Merge(a, b)), a);
    ImpliesIs(Some(Merge(a, b)), b);
  }

  lemma ImpliesItself(t: Tree)
    ensures Implies(Some(t), t)
  {
    ImpliesIs(Some(t), t);
  }

  lemma ImpliesChain(t: Tree, u: Tree, w: Tree)
    requires Implies(Some(t), u) && Implies(Some(u), w)
    ensures Implies(Some(t), w)
  {
    ImpliesIs(Some(t), u);
    ImpliesIs(Some(u), w);
    ImpliesIs(Some(t), w);
  }

  /** What is added to each, in turn, is implied by it. */
  lemma EachImplies(a: Tree, b: Tree)
    requires Keeps(a, b)
    ensures var each := AddEach(AddEach(None, a), b); Implies(each, a) && Implies(each, b)
  {
    var first := Merge(NOTHING, a);
    MergeImplies(NOTHING, a);
    if Empty(a) {
      MergeImplies(NOTHING, b);
    } else if !Empty(b) {
      assert MergeEach(None, a.each) == a.each;
      assert first.properties == a.properties && first.each == a.each;
      MergeImplies(first, b);
      ImpliesChain(Merge(first, b), first, a);
    }
  }

  function MergeAll(out: Tree, branches: seq<Tree>): Tree
    decreases |branches|
  {
    if branches == [] then out else Merge(MergeAll(out, branches[..|branches| - 1]), branches[|branches| - 1])
  }

  predicate AllImplied(t: Tree, trees: seq<Tree>) {
    forall i :: 0 <= i < |trees| ==> Implies(Some(t), trees[i])
  }

  lemma AllImpliedChain(t: Tree, u: Tree, trees: seq<Tree>)
    requires Implies(Some(t), u) && AllImplied(u, trees)
    ensures AllImplied(t, trees)
  {
    forall i | 0 <= i < |trees| ensures Implies(Some(t), trees[i]) { ImpliesChain(t, u, trees[i]); }
  }

  /** Merges that each keep their checks ask together for what any of the trees asks. */
  lemma {:induction false} MergeAllImplies(out: Tree, branches: seq<Tree>)
    requires forall i :: 0 <= i < |branches| ==> Keeps(MergeAll(out, branches[..i]), branches[i])
    ensures Implies(Some(MergeAll(out, branches)), out)
    ensures AllImplied(MergeAll(out, branches), branches)
  {
    PrefixImplies(out, branches, |branches|);
    assert branches[..|branches|] == branches;
  }

  lemma {:induction false} PrefixImplies(out: Tree, branches: seq<Tree>, n: nat)
    requires n <= |branches| && forall i :: 0 <= i < |branches| ==> Keeps(MergeAll(out, branches[..i]), branches[i])
    ensures Implies(Some(MergeAll(out, branches[..n])), out)
    ensures AllImplied(MergeAll(out, branches[..n]), branches[..n])
    decreases n
  {
    if n == 0 {
      ImpliesItself(out);
    } else {
      var last := n - 1;
      PrefixImplies(out, branches, last);
      MergeOneMore(out, branches[..last], branches[last]);
      assert branches[..n] == branches[..last] + [branches[last]];
    }
  }

  lemma MergeOneMore(out: Tree, first: seq<Tree>, c: Tree)
    requires var t := MergeAll(out, first); Keeps(t, c) && Implies(Some(t), out) && AllImplied(t, first)
    ensures var t := MergeAll(out, first + [c]); Implies(Some(t), out) && AllImplied(t, first + [c])
  {
    assert (first + [c])[..|first|] == first;
    OneMoreImplied(MergeAll(out, first), c, out, first);
  }

  lemma OneMoreImplied(t: Tree, c: Tree, out: Tree, trees: seq<Tree>)
    requires Keeps(t, c) && Implies(Some(t), out) && AllImplied(t, trees)
    ensures Implies(Some(Merge(t, c)), out) && AllImplied(Merge(t, c), trees + [c])
  {
    MergeImplies(t, c);
    ImpliesChain(Merge(t, c), t, out);
    AllImpliedChain(Merge(t, c), t, trees);
  }

  // ----- merging, with the loops of the source -----

  /** slices.Contains before each append. */
  method AppendTexts(existing: seq<Text>, list: seq<Text>) returns (out: seq<Text>)
    ensures out == AddTexts(existing, list)
  {
    out := existing;
    for i := 0 to |list|
      invariant out == AddTexts(existing, list[..i])
    {
      assert list[..i + 1][..i] == list[..i];
      if list[i] !in out {
        out := out + [list[i]];
      }
    }
    assert list[..|list|] == list;
  }

  ghost function MergedProperty(n: Tree, other: Tree, name: Text): Tree
    requires name in n.properties.Keys + other.properties.Keys
  {
    if name !in other.properties then n.properties[name]
    else if name !in n.properties then other.properties[name]
    else Merge(n.properties[name], other.properties[name])
  }

  method MergeTrees(n: Tree, other: Tree) returns (r: Tree)
    ensures r == Merge(n, other)
    decreases other
  {
    if Empty(other) {
      return n;
    }
    var required := AppendTexts(n.required, other.required);
    var properties, left := n.properties, other.properties.Keys;
    while left != {}
      invariant left <= other.properties.Keys
      invariant properties.Keys == n.properties.Keys + (other.properties.Keys - left)
      invariant forall name :: name in properties && name in left ==> properties[name] == n.properties[name]
      invariant forall name :: name in properties && name !in left ==> properties[name] == MergedProperty(n, other, name)
    {
      var name :| name in left;
      var child := other.properties[name];
      if name in properties {
        child := MergeTrees(properties[name], child);
      }
      properties := properties[name := child];
      left := left - {name};
    }
    var each := n.each;
    if other.each.Some? {
      if each.None? {
        each := other.each;
      } else {
        var merged := MergeTrees(each.value, other.each.value);
        each := Some(merged);
      }
    }
    assert properties == Merge(n, other).properties;
    r := Tree(required, properties, each);
  }
}
