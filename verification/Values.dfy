/** Chart values on the heap: copying them, and looking one up (kubeBootstrap.go). */
module Values {
  import opened Collections
  import opened ValuesAlgebra

  /** A Go value of type any; maps are references. */
  datatype Any = NilAny | ScalarAny(code: nat) | ListAny(items: seq<Any>) | MapAny(dict: Dict)

  class Dict {
    var entries: map<string, Any>

    constructor ()
      ensures entries == map[]
    {
      entries := map[];
    }
  }

  // ----- what stands on the heap -----

  /** A value as it was seen on the heap: its content, and the object of each map. */
  datatype Seen = NilSeen | ScalarSeen(code: nat) | ListSeen(items: seq<Seen>) | MapSeen(dict: Dict, entries: map<string, Seen>)

  /** The heap still is as it was seen. */
  ghost predicate Stands(v: Any, s: Seen)
    reads Dicts(s)
    decreases s
  {
    var stands := match s
      case NilSeen => v == NilAny
      case ScalarSeen(code) => v == ScalarAny(code)
      case ListSeen(items) =>
        v.ListAny? && |v.items| == |items| && forall i :: 0 <= i < |items| ==> Stands(v.items[i], items[i])
      case MapSeen(dict, entries) =>
        && v == MapAny(dict) && dict.entries.Keys == entries.Keys
        && forall k :: k in entries ==> Stands(dict.entries[k], entries[k]);
    stands
  }

  ghost function Dicts(s: Seen): (r: set<Dict>)
    decreases s
  {
    match s
    case ListSeen(items) => set i, d | 0 <= i < |items| && d in Dicts(items[i]) :: d
    case MapSeen(dict, entries) => {dict} + set k, d | k in entries && d in Dicts(entries[k]) :: d
    case _ => {}
  }

  /** No map is met twice. */
  ghost predicate Separate(s: Seen)
    decreases s
  {
    var separate := match s
      case ListSeen(items) =>
        && (forall i :: 0 <= i < |items| ==> Separate(items[i]))
        && forall i, j :: 0 <= i < j < |items| ==> Dicts(items[i]) !! Dicts(items[j])
      case MapSeen(dict, entries) =>
        && (forall k :: k in entries ==> Separate(entries[k]) && dict !in Dicts(entries[k]))
        && forall k, l :: k in entries && l in entries && k != l ==> Dicts(entries[k]) !! Dicts(entries[l])
      case _ => true;
    separate
  }

  ghost function Content(s: Seen): Value
    decreases s
  {
    match s
    case NilSeen => Nil
    case ScalarSeen(code) => Scalar(code)
    case ListSeen(items) => List(seq(|items|, i requires 0 <= i < |items| => Content(items[i])))
    case MapSeen(_, entries) => Map(map k | k in entries :: Content(entries[k]))
  }

  lemma {:induction false} SeenIsAllocated(s: Seen)
    ensures forall d :: d in Dicts(s) ==> allocated(d)
    decreases s
  {
    match s
    case ListSeen(items) =>
      forall i | 0 <= i < |items| ensures forall d :: d in Dicts(items[i]) ==> allocated(d) { SeenIsAllocated(items[i]); }
    case MapSeen(dict, entries) =>
      forall k | k in entries ensures forall d :: d in Dicts(entries[k]) ==> allocated(d) { SeenIsAllocated(entries[k]); }
    case _ =>
  }

  // ----- the entries of a map -----

  ghost function DictsBelow(seen: map<string, Seen>): set<Dict> {
    set k, d | k in seen && d in Dicts(seen[k]) :: d
  }

  ghost predicate StandAll(es: map<string, Any>, seen: map<string, Seen>)
    reads DictsBelow(seen)
  {
    var all := es.Keys == seen.Keys && forall k :: k in seen ==> Stands(es[k], seen[k]);
    all
  }

  ghost predicate SeparateAll(seen: map<string, Seen>) {
    var each := forall k :: k in seen ==> Separate(seen[k]);
    var pairs := forall k, l :: k in seen && l in seen && k != l ==> Dicts(seen[k]) !! Dicts(seen[l]);
    each && pairs
  }

  /** The entries of the map stand as seen, and the map is not met in them. */
  ghost predicate Holds(dict: Dict, seen: map<string, Seen>)
    reads dict, DictsBelow(seen)
  {
    var holds := StandAll(dict.entries, seen) && dict !in DictsBelow(seen);
    holds
  }

  /** Nor is another map met twice in them. */
  ghost predicate Own(dict: Dict, seen: map<string, Seen>)
    reads dict, DictsBelow(seen)
  {
    Holds(dict, seen) && SeparateAll(seen)
  }

  lemma EntriesAreAllocated(seen: map<string, Seen>)
    ensures forall d :: d in DictsBelow(seen) ==> allocated(d)
  {
    forall k | k in seen ensures forall d :: d in Dicts(seen[k]) ==> allocated(d) { SeenIsAllocated(seen[k]); }
  }

  lemma MapIsItsEntries(dict: Dict, seen: map<string, Seen>)
    ensures Dicts(MapSeen(dict, seen)) == {dict} + DictsBelow(seen)
    ensures Stands(MapAny(dict), MapSeen(dict, seen)) <==> StandAll(dict.entries, seen)
    ensures Separate(MapSeen(dict, seen)) <==> SeparateAll(seen) && dict !in DictsBelow(seen)
    ensures Stands(MapAny(dict), MapSeen(dict, seen)) && Separate(MapSeen(dict, seen)) <==> Own(dict, seen)
  {
  }

  lemma DictsWith(seen: map<string, Seen>, k: string, s: Seen)
    requires k !in seen
    ensures DictsBelow(seen[k := s]) == DictsBelow(seen) + Dicts(s)
  {
    var more := seen[k := s];
    forall d | d in DictsBelow(seen) ensures d in DictsBelow(more) {
      var l :| l in seen && d in Dicts(seen[l]);
      assert l in more && more[l] == seen[l];
    }
    forall d | d in Dicts(s) ensures d in DictsBelow(more) {
      assert k in more && d in Dicts(more[k]);
    }
    forall d | d in DictsBelow(more) ensures d in DictsBelow(seen) || d in Dicts(s) {
      var l :| l in more && d in Dicts(more[l]);
      assert l != k ==> l in seen && d in Dicts(seen[l]);
    }
  }

  lemma StandWith(es: map<string, Any>, seen: map<string, Seen>, k: string, v: Any, s: Seen)
    requires StandAll(es, seen) && k !in seen && Stands(v, s)
    ensures StandAll(es[k := v], seen[k := s])
  {
  }

  lemma SeparateWith(seen: map<string, Seen>, k: string, s: Seen)
    requires SeparateAll(seen) && k !in seen && Separate(s) && Dicts(s) !! DictsBelow(seen)
    ensures SeparateAll(seen[k := s])
  {
    forall l | l in seen ensures Dicts(s) !! Dicts(seen[l]) {
      forall d | d in Dicts(seen[l]) ensures d in DictsBelow(seen) {}
    }
  }

  /** Sets an entry; the others stand as seen. */
  method Put(dict: Dict, k: string, v: Any, ghost others: map<string, Seen>, ghost s: Seen)
    requires k !in others && StandAll(dict.entries - {k}, others) && Stands(v, s) && dict !in DictsBelow(others) + Dicts(s)
    modifies dict
    ensures dict.entries == old(dict.entries)[k := v] && Holds(dict, others[k := s])
    ensures DictsBelow(others[k := s]) == DictsBelow(others) + Dicts(s)
  {
    DictsWith(others, k, s);
    StandWith(dict.entries - {k}, others, k, v, s);
    dict.entries := dict.entries[k := v];
    assert dict.entries == (old(dict.entries) - {k})[k := v];
  }

  // ----- deep copies -----

  lemma SameContent(d: Dict, seen: map<string, Seen>, e: Dict, copies: map<string, Seen>)
    requires copies.Keys == seen.Keys && SameEntries(copies, seen)
    ensures Content(MapSeen(e, copies)) == Content(MapSeen(d, seen))
  {
    assert Content(MapSeen(e, copies)).entries == Content(MapSeen(d, seen)).entries;
  }

  /** The copy has the same content, in maps of its own. */
  method DeepCopyMap(values: Dict, ghost seen: Seen) returns (result: Dict, ghost copy: Seen)
    requires Stands(MapAny(values), seen)
    ensures Stands(MapAny(result), copy) && Separate(copy) && fresh(Dicts(copy))
    ensures Content(copy) == Content(seen)
    decreases seen, 3
  {
    MapIsItsEntries(values, seen.entries);
    ghost var copies;
    result, copies := CopyEntries(values, seen.entries, seen);
    copy := MapSeen(result, copies);
    MapIsItsEntries(result, copies);
    assert fresh({result} + DictsBelow(copies));
    SameContent(values, seen.entries, result, copies);
  }

  ghost predicate SameEntries(copies: map<string, Seen>, seen: map<string, Seen>) {
    var same := copies.Keys <= seen.Keys && forall k :: k in copies ==> Content(copies[k]) == Content(seen[k]);
    same
  }

  lemma OneMoreSame(copies: map<string, Seen>, seen: map<string, Seen>, k: string, copy: Seen)
    requires SameEntries(copies, seen) && k in seen && Content(copy) == Content(seen[k])
    ensures SameEntries(copies[k := copy], seen)
  {
  }

  /** The entries not left are copied, into maps of their own; the original stands. */
  ghost predicate Copying(values: Dict, seen: map<string, Seen>, result: Dict, copies: map<string, Seen>, left: set<string>)
    reads values, result, DictsBelow(seen), DictsBelow(copies)
  {
    var standing := StandAll(values.entries, seen) && Own(result, copies) && {values} + DictsBelow(seen) !! {result} + DictsBelow(copies);
    var copied := left <= seen.Keys && copies.Keys == seen.Keys - left && SameEntries(copies, seen);
    standing && copied
  }

  method CopyEntries(values: Dict, ghost seen: map<string, Seen>, ghost whole: Seen)
    returns (result: Dict, ghost copies: map<string, Seen>)
    requires StandAll(values.entries, seen) && forall k :: k in seen ==> seen[k] < whole
    ensures fresh(result) && fresh(DictsBelow(copies)) && Own(result, copies)
    ensures copies.Keys == seen.Keys && SameEntries(copies, seen)
    decreases whole, 2
  {
    EntriesAreAllocated(seen);
    result := new Dict();
    copies := map[];
    var left := values.entries.Keys;
    while left != {}
      invariant fresh(result) && fresh(DictsBelow(copies)) && Copying(values, seen, result, copies, left)
      decreases left
    {
      var k :| k in left;
      ghost var copy := CopyEntry(values, result, k, seen, copies, left);
      copies, left := copies[k := copy], left - {k};
    }
  }

  /** One round of the loop. */
  method CopyEntry(values: Dict, result: Dict, k: string, ghost seen: map<string, Seen>, ghost copies: map<string, Seen>,
    ghost left: set<string>) returns (ghost copy: Seen)
    requires Copying(values, seen, result, copies, left) && k in left
    modifies result
    ensures Copying(values, seen, result, copies[k := copy], left - {k}) && fresh(Dicts(copy))
    ensures DictsBelow(copies[k := copy]) == DictsBelow(copies) + Dicts(copy)
    decreases seen[k], 6
  {
    EntriesAreAllocated(seen);
    copy := PutCopy(result, k, values.entries[k], seen[k], copies);
    OneMoreSame(copies, seen, k, copy);
  }

  method PutCopy(result: Dict, k: string, value: Any, ghost seen: Seen, ghost copies: map<string, Seen>)
    returns (ghost copy: Seen)
    requires Stands(value, seen) && k !in copies && Own(result, copies)
    modifies result
    ensures Content(copy) == Content(seen) && Own(result, copies[k := copy]) && fresh(Dicts(copy))
    ensures DictsBelow(copies[k := copy]) == DictsBelow(copies) + Dicts(copy)
    decreases seen, 5
  {
    EntriesAreAllocated(copies);
    var v;
    v, copy := DeepCopyValue(value, seen);
    assert result.entries - {k} == result.entries;
    SeparateWith(copies, k, copy);
    Put(result, k, v, copies, copy);
  }

  method DeepCopyValue(value: Any, ghost seen: Seen) returns (result: Any, ghost copy: Seen)
    requires Stands(value, seen)
    ensures Stands(result, copy) && Separate(copy) && fresh(Dicts(copy))
    ensures Content(copy) == Content(seen)
    decreases seen, 4
  {
    match value {
      case MapAny(dict) =>
        var d;
        d, copy := DeepCopyMap(dict, seen);
        result := MapAny(d);
      case ListAny(items) =>
        result, copy := DeepCopyList(items, seen);
      case _ =>
        result, copy := value, seen;
    }
  }

  method DeepCopyList(items: seq<Any>, ghost seen: Seen) returns (result: Any, ghost copy: Seen)
    requires Stands(ListAny(items), seen)
    ensures Stands(result, copy) && Separate(copy) && fresh(Dicts(copy))
    ensures Content(copy) == Content(seen)
    decreases seen, 3
  {
    SeenIsAllocated(seen);
    var results: seq<Any> := [];
    ghost var copies: seq<Seen> := [];
    for i := 0 to |items|
      invariant |copies| == i && fresh(Dicts(ListSeen(copies)))
      invariant Stands(ListAny(items), seen) && Stands(ListAny(results), ListSeen(copies)) && Separate(ListSeen(copies))
      invariant forall j :: 0 <= j < i ==> Content(copies[j]) == Content(seen.items[j])
    {
      SeenIsAllocated(ListSeen(copies));
      var v, c := DeepCopyValue(items[i], seen.items[i]);
      ListWith(results, copies, v, c);
      results, copies := results + [v], copies + [c];
    }
    result, copy := ListAny(results), ListSeen(copies);
  }

  lemma ListWith(vs: seq<Any>, seen: seq<Seen>, v: Any, s: Seen)
    requires Stands(ListAny(vs), ListSeen(seen)) && Separate(ListSeen(seen))
    requires Stands(v, s) && Separate(s) && Dicts(s) !! Dicts(ListSeen(seen))
    ensures Stands(ListAny(vs + [v]), ListSeen(seen + [s])) && Separate(ListSeen(seen + [s]))
    ensures Dicts(ListSeen(seen + [s])) == Dicts(ListSeen(seen)) + Dicts(s)
  {
    var more := seen + [s];
    assert forall i :: 0 <= i < |seen| ==> more[i] == seen[i];
    forall d | d in Dicts(ListSeen(seen)) ensures d in Dicts(ListSeen(more)) {
      var i :| 0 <= i < |seen| && d in Dicts(seen[i]);
      assert d in Dicts(more[i]);
    }
    forall d | d in Dicts(s) ensures d in Dicts(ListSeen(more)) {
      assert d in Dicts(more[|seen|]);
    }
    forall i | 0 <= i < |seen| ensures Dicts(s) !! Dicts(seen[i]) {
      forall d | d in Dicts(seen[i]) ensures d in Dicts(ListSeen(seen)) {}
    }
  }

  // ----- looking up -----

  method NestedValue(doc: Dict, keys: seq<string>, ghost seen: Seen) returns (current: Any, ghost found: Seen)
    requires Stands(MapAny(doc), seen)
    ensures Stands(current, found) && Content(found) == Nested(Content(seen), keys)
  {
    current, found := MapAny(doc), seen;
    for i := 0 to |keys|
      invariant Stands(current, found) && Nested(Content(found), keys[i..]) == Nested(Content(seen), keys)
    {
      NestedStep(Content(found), keys[i..]);
      assert keys[i..][1..] == keys[i + 1..];
      if !current.MapAny? {
        return NilAny, NilSeen;
      }
      if keys[i] in current.dict.entries {
        current, found := current.dict.entries[keys[i]], found.entries[keys[i]];
      } else {
        current, found := NilAny, NilSeen;
      }
    }
  }
}
