/** The post-order walk over the nodes of a schema (helpers.go). */
module Walk {
  import opened Json

  type Visitor = Keywords -> Keywords

  /** The keywords that hold one node. */
  predicate IsSingle(k: Text) {
    k == ADDITIONAL_PROPERTIES || k == ITEMS
  }

  /** The keywords that hold a list of nodes. */
  predicate IsListing(k: Text) {
    k == ONE_OF || k == ANY_OF || k == ALL_OF
  }

  /** Every node rewritten by the visitor, the nodes below it first. */
  function WalkNodes(s: Json, visit: Visitor): Json
    decreases s, 2
  {
    match s
    case Obj(_) => Obj(visit(WalkChildren(s, visit)))
    case _ => s
  }

  /** The node with the nodes below it rewritten, not yet visited itself. */
  function WalkChildren(s: Json, visit: Visitor): (r: Keywords)
    requires s.Obj?
    ensures r.Keys == s.m.Keys
    ensures PROPERTIES in s.m ==> r[PROPERTIES] == WalkKeyword(s, PROPERTIES, visit)
    ensures PATTERN_PROPERTIES in s.m ==> r[PATTERN_PROPERTIES] == s.m[PATTERN_PROPERTIES]
    decreases s, 1
  {
    map k | k in s.m :: WalkKeyword(s, k, visit)
  }

  function WalkKeyword(s: Json, k: Text, visit: Visitor): (r: Json)
    requires s.Obj? && k in s.m
    ensures k == PROPERTIES && s.m[k].Obj? ==> r.Obj? && r.m.Keys == s.m[k].m.Keys
    ensures k != PROPERTIES && !IsSingle(k) && !IsListing(k) ==> r == s.m[k]
    ensures k == PROPERTIES && !s.m[k].Obj? ==> r == s.m[k]
    decreases s, 0
  {
    var arg := s.m[k];
    if k == PROPERTIES && arg.Obj? then Obj(map p | p in arg.m :: WalkNodes(arg.m[p], visit))
    else if IsSingle(k) && arg.Obj? then WalkNodes(arg, visit)
    else if IsListing(k) && arg.Arr? then Arr(WalkList(arg.a, visit))
    else arg
  }

  function WalkList(a: seq<Json>, visit: Visitor): (r: seq<Json>)
    ensures |r| == |a|
    ensures forall i :: 0 <= i < |a| ==> r[i] == WalkNodes(a[i], visit)
    decreases a, 0
  {
    seq(|a|, i requires 0 <= i < |a| => WalkNodes(a[i], visit))
  }

  /** p holds of every node the walk visits. */
  ghost predicate Everywhere(s: Json, p: Keywords -> bool)
    decreases s, 1
  {
    s.Obj? ==> p(s.m) && forall k :: k in s.m ==> EverywhereBelow(s, k, p)
  }

  ghost predicate EverywhereBelow(s: Json, k: Text, p: Keywords -> bool)
    requires s.Obj? && k in s.m
    decreases s, 0
  {
    var arg := s.m[k];
    if k == PROPERTIES then arg.Obj? ==> forall name :: name in arg.m ==> Everywhere(arg.m[name], p)
    else if IsSingle(k) then Everywhere(arg, p)
    else IsListing(k) && arg.Arr? ==> forall i :: 0 <= i < |arg.a| ==> Everywhere(arg.a[i], p)
  }

  /** A walk whose visits change nothing changes nothing. */
  lemma {:induction false} WalkIdentity(s: Json, visit: Visitor, p: Keywords -> bool)
    requires forall m :: p(m) ==> visit(m) == m
    requires Everywhere(s, p)
    ensures WalkNodes(s, visit) == s
    decreases s, 1
  {
    if s.Obj? {
      forall k | k in s.m ensures WalkKeyword(s, k, visit) == s.m[k] { WalkIdentityBelow(s, k, visit, p); }
      assert WalkChildren(s, visit) == s.m;
    }
  }

  lemma {:induction false} WalkIdentityBelow(s: Json, k: Text, visit: Visitor, p: Keywords -> bool)
    requires forall m :: p(m) ==> visit(m) == m
    requires s.Obj? && k in s.m && EverywhereBelow(s, k, p)
    ensures WalkKeyword(s, k, visit) == s.m[k]
    decreases s, 0
  {
    var arg := s.m[k];
    if k == PROPERTIES && arg.Obj? {
      forall name | name in arg.m ensures WalkNodes(arg.m[name], visit) == arg.m[name] {
        WalkIdentity(arg.m[name], visit, p);
      }
      assert (map name | name in arg.m :: WalkNodes(arg.m[name], visit)) == arg.m;
    } else if IsSingle(k) {
      WalkIdentity(arg, visit, p);
    } else if IsListing(k) && arg.Arr? {
      forall i | 0 <= i < |arg.a| ensures WalkNodes(arg.a[i], visit) == arg.a[i] { WalkIdentity(arg.a[i], visit, p); }
      assert WalkList(arg.a, visit) == arg.a;
    }
  }

  const NESTING := [PROPERTIES, ADDITIONAL_PROPERTIES, ITEMS, ONE_OF, ANY_OF, ALL_OF]

  /** The walk of the source: the node is updated in place, keyword by keyword, then visited. */
  method WalkSchemaNodes(node: Json, visit: Visitor) returns (r: Json)
    ensures r == WalkNodes(node, visit)
    decreases node, 2
  {
    if !node.Obj? {
      return node;
    }
    var m := new GoMap(node.m);
    for i := 0 to |NESTING|
      invariant m.kw.Keys == node.m.Keys
      invariant forall j :: i <= j < |NESTING| && NESTING[j] in node.m ==> m.kw[NESTING[j]] == node.m[NESTING[j]]
      invariant m.kw == WalkSome(node, visit, NESTING[..i])
    {
      var key := NESTING[i];
      if key in m.kw {
        var child := WalkBelow(node, key, visit);
        m.kw := m.kw[key := child];
      }
      assert NESTING[..i + 1] == NESTING[..i] + [key];
      WalkOneMore(node, visit, NESTING[..i], key);
    }
    assert NESTING[..|NESTING|] == NESTING;
    WalkedAll(node, visit);
    m.kw := visit(m.kw);
    r := Obj(m.kw);
  }

  /** The node after the walk went through the keywords of done. */
  ghost function WalkSome(s: Json, visit: Visitor, done: seq<Text>): Keywords
    requires s.Obj?
  {
    map k | k in s.m :: if k in done then WalkKeyword(s, k, visit) else s.m[k]
  }

  lemma WalkOneMore(s: Json, visit: Visitor, done: seq<Text>, k: Text)
    requires s.Obj?
    ensures WalkSome(s, visit, done + [k]) ==
      if k in s.m then WalkSome(s, visit, done)[k := WalkKeyword(s, k, visit)] else WalkSome(s, visit, done)
  {
  }

  lemma WalkedAll(s: Json, visit: Visitor)
    requires s.Obj?
    ensures WalkSome(s, visit, NESTING) == WalkChildren(s, visit)
  {
    forall k | k in s.m && k !in NESTING
      ensures WalkKeyword(s, k, visit) == s.m[k]
    {
      assert k != NESTING[0] && k != NESTING[1] && k != NESTING[2] && k != NESTING[3] && k != NESTING[4] && k != NESTING[5];
    }
  }

  /** The nodes below one keyword. A property map is ranged over in whatever order it comes. */
  method WalkBelow(node: Json, key: Text, visit: Visitor) returns (r: Json)
    requires node.Obj? && key in node.m
    ensures r == WalkKeyword(node, key, visit)
    decreases node, 1
  {
    r := node.m[key];
    if key == PROPERTIES && r.Obj? {
      var props, left := r.m, r.m.Keys;
      var walked := props;
      while left != {}
        invariant left <= props.Keys && walked.Keys == props.Keys
        invariant forall p :: p in props ==> walked[p] == if p in left then props[p] else WalkNodes(props[p], visit)
      {
        var p :| p in left;
        left := left - {p};
        var child := WalkSchemaNodes(props[p], visit);
        walked := walked[p := child];
      }
      assert walked == map p | p in props :: WalkNodes(props[p], visit);
      r := Obj(walked);
    } else if IsSingle(key) && r.Obj? {
      r := WalkSchemaNodes(r, visit);
    } else if IsListing(key) && r.Arr? {
      r := WalkItems(r, node, visit);
    }
  }

  method WalkItems(list: Json, ghost node: Json, visit: Visitor) returns (r: Json)
    requires list.Arr? && list < node
    ensures r == Arr(WalkList(list.a, visit))
    decreases node, 0
  {
    var walked := list.a;
    for i := 0 to |walked|
      invariant |walked| == |list.a|
      invariant forall j :: 0 <= j < |walked| ==> walked[j] == if j < i then WalkNodes(list.a[j], visit) else list.a[j]
    {
      var item := WalkSchemaNodes(list.a[i], visit);
      walked := walked[i := item];
    }
    r := Arr(walked);
  }
}
