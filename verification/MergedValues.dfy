/** Merging chart values on the heap, one into another in place (kubeBootstrap.go, mergeValues). */
module MergedValues {
  import opened Collections
  import opened ValuesAlgebra
  import opened Values

  ghost function At(seen: map<string, Seen>, k: string): Option<Seen> {
    if k in seen then Some(seen[k]) else None
  }

  ghost function DictsOf(s: Option<Seen>): set<Dict> {
    if s.Some? then Dicts(s.value) else {}
  }

  /** What an entry becomes under an override. */
  ghost function MergedContent(before: Option<Seen>, s: Seen): Value {
    if before.Some? then Merge(Content(before.value), Content(s)) else Content(s)
  }

  lemma DictsWithout(seen: map<string, Seen>, k: string)
    ensures DictsBelow(seen - {k}) <= DictsBelow(seen)
    ensures k in seen ==> Dicts(seen[k]) <= DictsBelow(seen)
  {
    forall d | d in DictsBelow(seen - {k}) ensures d in DictsBelow(seen) {
      var l :| l in seen - {k} && d in Dicts((seen - {k})[l]);
      assert l in seen && d in Dicts(seen[l]);
    }
  }

  lemma StandWithout(es: map<string, Any>, seen: map<string, Seen>, k: string)
    requires StandAll(es, seen)
    ensures StandAll(es - {k}, seen - {k})
  {
  }

  lemma SeparateWithout(seen: map<string, Seen>, k: string)
    requires SeparateAll(seen)
    ensures SeparateAll(seen - {k})
    ensures k in seen ==> Separate(seen[k]) && Dicts(seen[k]) !! DictsBelow(seen - {k})
  {
    if k in seen {
      forall d | d in DictsBelow(seen - {k}) ensures d !in Dicts(seen[k]) {
        var l :| l in seen - {k} && d in Dicts((seen - {k})[l]);
        assert Dicts(seen[k]) !! Dicts(seen[l]);
      }
    }
  }

  /** Merges the override into the base; entries that are no maps on both sides are put in as they are. */
  method MergeValues(base: Dict, override: Dict, ghost b: Seen, ghost o: Seen) returns (r: Dict, ghost merged: Seen)
    requires Stands(MapAny(base), b) && Stands(MapAny(override), o)
    requires Separate(b) && Dicts(b) !! Dicts(o)
    modifies Dicts(b)
    ensures r == base && Stands(MapAny(base), merged) && Dicts(merged) <= Dicts(b) + Dicts(o)
    ensures Content(merged) == Merge(Content(b), Content(o))
    ensures Separate(o) ==> Separate(merged)
    decreases o, 3
  {
    MapIsItsEntries(base, b.entries);
    MapIsItsEntries(override, o.entries);
    ghost var cur := MergeEntries(base, override, b.entries, o.entries, o);
    merged := MapSeen(base, cur);
    MapIsItsEntries(base, cur);
    MergedIsMerge(b, o, merged);
    r := base;
  }

  ghost predicate MergedAt(b: map<string, Seen>, o: map<string, Seen>, cur: map<string, Seen>, k: string)
    requires k in cur && (k in b || k in o)
  {
    Content(cur[k]) == if k in o then MergedContent(At(b, k), o[k]) else Content(b[k])
  }

  ghost function Contents(seen: map<string, Seen>): (c: map<string, Value>)
    ensures c.Keys == seen.Keys && forall k :: k in seen ==> c[k] == Content(seen[k])
  {
    map k | k in seen :: Content(seen[k])
  }

  lemma ContentOfMap(s: Seen)
    requires s.MapSeen?
    ensures Content(s) == Map(Contents(s.entries))
  {
  }

  lemma MergedIsMerge(b: Seen, o: Seen, merged: Seen)
    requires b.MapSeen? && o.MapSeen? && merged.MapSeen?
    requires MergedExcept(b.entries, o.entries, merged.entries, {})
    ensures Content(merged) == Merge(Content(b), Content(o))
  {
    ContentOfMap(b);
    ContentOfMap(o);
    ContentOfMap(merged);
    MergedContents(b.entries, o.entries, merged.entries);
  }

  lemma MergedContents(b: map<string, Seen>, o: map<string, Seen>, cur: map<string, Seen>)
    requires MergedExcept(b, o, cur, {})
    ensures Merge(Map(Contents(b)), Map(Contents(o))) == Map(Contents(cur))
  {
    forall k | k in Contents(cur) ensures MergedKey(Contents(b), Contents(o), Contents(cur), k) {
      assert MergedAt(b, o, cur, k);
    }
    MergeIs(Contents(b), Contents(o), Contents(cur));
  }

  /** The keys not left are merged; those left are as they were. */
  ghost predicate MergedExcept(b: map<string, Seen>, o: map<string, Seen>, cur: map<string, Seen>, left: set<string>) {
    var keys := left <= o.Keys && cur.Keys == b.Keys + (o.Keys - left);
    var same := forall k :: k in left && k in b ==> k in cur && cur[k] == b[k];
    keys && same && forall k :: k in cur && k !in left ==> MergedAt(b, o, cur, k)
  }

  lemma OneMoreMerged(b: map<string, Seen>, o: map<string, Seen>, cur: map<string, Seen>, left: set<string>, k: string, m: Seen)
    requires MergedExcept(b, o, cur, left) && k in left && Content(m) == MergedContent(At(b, k), o[k])
    ensures MergedExcept(b, o, cur[k := m], left - {k})
  {
    forall l | l in cur[k := m] && l !in left - {k} ensures MergedAt(b, o, cur[k := m], l) {
      assert l != k ==> MergedAt(b, o, cur, l);
    }
  }

  // ----- which maps are where, before each round -----

  /** No map of the base that is left to change is anywhere else. */
  ghost predicate BaseApart(b: map<string, Seen>, cur: map<string, Seen>, left: set<string>) {
    forall k :: k in left && k in b ==> Dicts(b[k]) !! DictsBelow(cur - {k})
  }

  /** None of the maps left to merge is in what was merged, and none was merged twice. */
  ghost predicate Apart(o: map<string, Seen>, cur: map<string, Seen>, left: set<string>) {
    SeparateAll(cur) && forall k :: k in left && k in o ==> Dicts(o[k]) !! DictsBelow(cur)
  }

  /** Where the maps are: those of an override without sharing are shared by nothing merged. */
  ghost predicate Places(b: map<string, Seen>, o: map<string, Seen>, cur: map<string, Seen>, left: set<string>) {
    var below := DictsBelow(cur) <= DictsBelow(b) + DictsBelow(o) && BaseApart(b, cur, left);
    below && (SeparateAll(o) ==> Apart(o, cur, left))
  }

  lemma PlacesAtFirst(b: map<string, Seen>, o: map<string, Seen>)
    requires SeparateAll(b) && DictsBelow(b) !! DictsBelow(o)
    ensures Places(b, o, b, o.Keys)
  {
    forall k | k in b ensures Dicts(b[k]) !! DictsBelow(b - {k}) { SeparateWithout(b, k); }
    forall k | k in o ensures Dicts(o[k]) !! DictsBelow(b) { DictsWithout(o, k); }
  }

  /** One entry more is merged, of the maps it had and those of the override. */
  lemma OneMorePlaced(b: map<string, Seen>, o: map<string, Seen>, cur: map<string, Seen>, left: set<string>, k: string, m: Seen)
    requires SeparateAll(b) && DictsBelow(b) !! DictsBelow(o) && left <= o.Keys && k in left
    requires MergedExcept(b, o, cur, left) && Places(b, o, cur, left)
    requires Dicts(m) <= DictsOf(At(b, k)) + Dicts(o[k]) && (Separate(o[k]) ==> Separate(m))
    ensures Places(b, o, (cur - {k})[k := m], left - {k})
  {
    var others := cur - {k};
    DictsWith(others, k, m);
    DictsWithout(cur, k);
    DictsWithout(b, k);
    DictsWithout(o, k);
    forall l | l in left - {k} && l in b ensures Dicts(b[l]) !! DictsBelow(others[k := m] - {l}) {
      BaseStaysApart(b, o, cur, left, k, m, l);
    }
    if SeparateAll(o) { OneMoreApart(b, o, cur, left, k, m); }
  }

  lemma BaseStaysApart(b: map<string, Seen>, o: map<string, Seen>, cur: map<string, Seen>, left: set<string>, k: string, m: Seen, l: string)
    requires SeparateAll(b) && DictsBelow(b) !! DictsBelow(o) && left <= o.Keys && k in left && l in left - {k} && l in b
    requires BaseApart(b, cur, left) && Dicts(m) <= DictsOf(At(b, k)) + Dicts(o[k])
    ensures Dicts(b[l]) !! DictsBelow((cur - {k})[k := m] - {l})
  {
    var others := cur - {k} - {l};
    assert (cur - {k})[k := m] - {l} == others[k := m];
    assert others == cur - {l} - {k};
    DictsWith(others, k, m);
    DictsWithout(cur - {l}, k);
    DictsWithout(b, l);
    DictsWithout(o, k);
    assert k in b ==> Dicts(b[k]) !! Dicts(b[l]);
  }

  lemma OneMoreApart(b: map<string, Seen>, o: map<string, Seen>, cur: map<string, Seen>, left: set<string>, k: string, m: Seen)
    requires SeparateAll(b) && DictsBelow(b) !! DictsBelow(o) && SeparateAll(o) && left <= o.Keys && k in left
    requires Apart(o, cur, left) && BaseApart(b, cur, left)
    requires Dicts(m) <= DictsOf(At(b, k)) + Dicts(o[k]) && (Separate(o[k]) ==> Separate(m))
    ensures Apart(o, (cur - {k})[k := m], left - {k})
  {
    var others := cur - {k};
    SeparateWithout(cur, k);
    DictsWithout(cur, k);
    SeparateWith(others, k, m);
    DictsWith(others, k, m);
    DictsWithout(b, k);
    forall l | l in left - {k} && l in o ensures Dicts(o[l]) !! DictsBelow(others[k := m]) {
      DictsWithout(o, l);
      assert Dicts(o[l]) !! Dicts(o[k]);
    }
  }

  lemma OneMoreEntry(b: map<string, Seen>, o: map<string, Seen>, cur: map<string, Seen>, left: set<string>, k: string, m: Seen)
    requires SeparateAll(b) && DictsBelow(b) !! DictsBelow(o) && k in left
    requires MergedExcept(b, o, cur, left) && Places(b, o, cur, left) && Content(m) == MergedContent(At(b, k), o[k])
    requires Dicts(m) <= DictsOf(At(b, k)) + Dicts(o[k]) && (Separate(o[k]) ==> Separate(m))
    ensures MergedExcept(b, o, (cur - {k})[k := m], left - {k}) && Places(b, o, (cur - {k})[k := m], left - {k})
  {
    OneMoreMerged(b, o, cur, left, k, m);
    OneMorePlaced(b, o, cur, left, k, m);
    assert (cur - {k})[k := m] == cur[k := m];
  }

  // ----- the loop -----

  /** The entries not left are merged into the base; the override stands. */
  ghost predicate Merging(base: Dict, override: Dict, b: map<string, Seen>, o: map<string, Seen>, cur: map<string, Seen>, left: set<string>)
    reads base, override, DictsBelow(cur), DictsBelow(o)
  {
    var standing := Holds(base, cur) && StandAll(override.entries, o);
    standing && MergedExcept(b, o, cur, left) && Places(b, o, cur, left)
  }

  ghost predicate Inputs(base: Dict, override: Dict, b: map<string, Seen>, o: map<string, Seen>) {
    SeparateAll(b) && {base} + DictsBelow(b) !! {override} + DictsBelow(o) && base !in DictsBelow(b)
  }

  method MergeEntries(base: Dict, override: Dict, ghost b: map<string, Seen>, ghost o: map<string, Seen>, ghost whole: Seen)
    returns (ghost cur: map<string, Seen>)
    requires Own(base, b) && StandAll(override.entries, o) && forall k :: k in o ==> o[k] < whole
    requires {base} + DictsBelow(b) !! {override} + DictsBelow(o)
    modifies {base} + DictsBelow(b)
    ensures Holds(base, cur) && DictsBelow(cur) <= DictsBelow(b) + DictsBelow(o) && MergedExcept(b, o, cur, {})
    ensures SeparateAll(o) ==> SeparateAll(cur)
    decreases whole, 2
  {
    cur := b;
    var left := override.entries.Keys;
    PlacesAtFirst(b, o);
    while left != {}
      invariant Inputs(base, override, b, o) && Merging(base, override, b, o, cur, left)
      decreases left
    {
      var k :| k in left;
      DictsWithout(b, k);
      cur := MergeEntry(base, override, k, b, o, cur, left);
      left := left - {k};
    }
  }

  /** One round of the loop. */
  method MergeEntry(base: Dict, override: Dict, k: string, ghost b: map<string, Seen>, ghost o: map<string, Seen>,
    ghost cur: map<string, Seen>, ghost left: set<string>) returns (ghost more: map<string, Seen>)
    requires Inputs(base, override, b, o) && Merging(base, override, b, o, cur, left) && k in left
    modifies {base} + DictsOf(At(b, k))
    ensures Merging(base, override, b, o, more, left - {k})
    decreases o[k], 6
  {
    EntriesAreAllocated(o);
    DictsWithout(b, k);
    ghost var m := PutMerged(base, k, override.entries[k], b, o, cur, left);
    more := (cur - {k})[k := m];
    OneMoreEntry(b, o, cur, left, k, m);
  }

  method PutMerged(base: Dict, k: string, v: Any, ghost b: map<string, Seen>, ghost o: map<string, Seen>,
    ghost cur: map<string, Seen>, ghost left: set<string>) returns (ghost m: Seen)
    requires SeparateAll(b) && DictsBelow(b) !! DictsBelow(o) && base !in DictsBelow(b) + DictsBelow(o) && k in left && k in o && Stands(v, o[k])
    requires Holds(base, cur) && MergedExcept(b, o, cur, left) && BaseApart(b, cur, left)
    modifies {base} + DictsOf(At(b, k))
    ensures Holds(base, (cur - {k})[k := m]) && Content(m) == MergedContent(At(b, k), o[k])
    ensures Dicts(m) <= DictsOf(At(b, k)) + Dicts(o[k]) && (Separate(o[k]) ==> Separate(m))
    decreases o[k], 5
  {
    ghost var others := cur - {k};
    EntriesAreAllocated(others);
    DictsWithout(cur, k);
    DictsWithout(b, k);
    DictsWithout(o, k);
    StandWithout(base.entries, cur, k);
    assert At(cur, k) == At(b, k);
    var before := if k in base.entries then Some(base.entries[k]) else None;
    ghost var es := base.entries - {k};
    var r;
    r, m := MergeValue(before, v, At(b, k), o[k]);
    assert base.entries - {k} == es;
    Put(base, k, r, others, m);
  }

  /** Two maps merge, in the map that is there; otherwise the override is taken. */
  method MergeValue(before: Option<Any>, v: Any, ghost b: Option<Seen>, ghost s: Seen) returns (r: Any, ghost m: Seen)
    requires Stands(v, s) && before.Some? == b.Some?
    requires b.Some? ==> Stands(before.value, b.value) && Separate(b.value) && Dicts(b.value) !! Dicts(s)
    modifies DictsOf(b)
    ensures Stands(r, m) && Dicts(m) <= DictsOf(b) + Dicts(s) && (Separate(s) ==> Separate(m))
    ensures Content(m) == MergedContent(b, s)
    decreases s, 4
  {
    if v.MapAny? && before.Some? && before.value.MapAny? {
      var d;
      d, m := MergeValues(before.value.dict, v.dict, b.value, s);
      r := MapAny(d);
    } else {
      r, m := v, s;
    }
  }

  /** Merging deep copies: both inputs stand as they did, and the result has no map in common with
      them, nor with anything else there was. */
  method MergeCopies(base: Dict, override: Dict, ghost b: Seen, ghost o: Seen) returns (r: Dict, ghost merged: Seen)
    requires Stands(MapAny(base), b) && Stands(MapAny(override), o)
    ensures Stands(MapAny(r), merged) && fresh(Dicts(merged))
    ensures Content(merged) == Merge(Content(b), Content(o))
    ensures Stands(MapAny(base), b) && Stands(MapAny(override), o)
  {
    SeenIsAllocated(b);
    SeenIsAllocated(o);
    ghost var c, d;
    var copy, over;
    copy, c := DeepCopyMap(base, b);
    SeenIsAllocated(c);
    over, d := DeepCopyMap(override, o);
    SeenIsAllocated(d);
    r, merged := MergeValues(copy, over, c, d);
  }

  // ----- a map in two places of the base -----

  ghost function One(v: Value): Value {
    Map(map["x" := v])
  }

  ghost function Two(v: Value, w: Value): Value {
    Map(map["x" := v, "y" := w])
  }

  lemma MergedAtX(v: Value, w: Value, x: Value)
    ensures Merge(Two(v, w), One(x)) == Two(Merge(v, x), w)
  {
    assert Merge(Two(v, w), One(x)).entries == map["x" := Merge(v, x), "y" := w];
  }

  lemma ContentOfTwo(base: Dict, m: Seen)
    ensures Content(MapSeen(base, map["x" := m, "y" := m])) == Two(Content(m), Content(m))
  {
    assert Content(MapSeen(base, map["x" := m, "y" := m])).entries == map["x" := Content(m), "y" := Content(m)];
  }

  lemma SameAtBoth(v: Value, w: Value)
    ensures Two(v, v) == Two(v, w) <==> v == w
  {
    assert Two(v, v).entries["y"] == v && Two(v, w).entries["y"] == w;
  }

  /** The round for x, the one entry of an override, on a base that has a map at x and at y: it shows
      at y too. The result is the merge of the contents just when there was nothing to change. */
  method SharedMapChangesTwice(base: Dict, shared: Dict, inner: Dict, ghost s: Seen, ghost o: Seen) returns (ghost merged: Seen)
    requires base.entries == map["x" := MapAny(shared), "y" := MapAny(shared)]
    requires Stands(MapAny(shared), s) && Stands(MapAny(inner), o) && Separate(s) && Dicts(s) !! Dicts(o) && base !in Dicts(s) + Dicts(o)
    modifies base, Dicts(s)
    ensures Stands(MapAny(base), merged)
    ensures Content(merged) == Merge(Two(Content(s), Content(s)), One(Content(o))) <==> Merge(Content(s), Content(o)) == Content(s)
  {
    ghost var m := MergeAtX(base, shared, inner, s, o);
    merged := MapSeen(base, map["x" := m, "y" := m]);
    TwoStand(base, MapAny(shared), m);
    ContentOfTwo(base, m);
    MergedAtX(Content(s), Content(s), Content(o));
    SameAtBoth(Content(m), Content(s));
  }

  lemma TwoStand(base: Dict, v: Any, m: Seen)
    requires base.entries == map["x" := v, "y" := v] && Stands(v, m)
    ensures Stands(MapAny(base), MapSeen(base, map["x" := m, "y" := m]))
  {
  }

  method MergeAtX(base: Dict, shared: Dict, inner: Dict, ghost s: Seen, ghost o: Seen) returns (ghost m: Seen)
    requires base.entries == map["x" := MapAny(shared), "y" := MapAny(shared)]
    requires Stands(MapAny(shared), s) && Stands(MapAny(inner), o) && Separate(s) && Dicts(s) !! Dicts(o) && base !in Dicts(s) + Dicts(o)
    modifies base, Dicts(s)
    ensures base.entries == map["x" := MapAny(shared), "y" := MapAny(shared)]
    ensures Stands(MapAny(shared), m) && Content(m) == Merge(Content(s), Content(o))
  {
    ghost var es := base.entries;
    var r;
    r, m := MergeValues(shared, inner, s, o);
    base.entries := base.entries["x" := MapAny(r)];
    assert base.entries == es;
  }
}
