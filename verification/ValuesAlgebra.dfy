/** The algebra of chart values: merging one value over another (kubeBootstrap.go, mergeValues). */
module ValuesAlgebra {
  import opened Collections

  datatype Value = Nil | Scalar(code: nat) | List(items: seq<Value>) | Map(entries: map<string, Value>)

  /** Maps merge key by key; anything else is replaced. */
  function Merge(a: Value, b: Value): Value
    decreases b
  {
    if a.Map? && b.Map? then
      Map(map k | k in a.entries.Keys + b.entries.Keys ::
        if k !in b.entries then a.entries[k]
        else if k !in a.entries then b.entries[k]
        else Merge(a.entries[k], b.entries[k]))
    else b
  }

  /** The value of one key after a merge. */
  predicate MergedKey(a: map<string, Value>, b: map<string, Value>, c: map<string, Value>, k: string)
    requires k in c && (k in a || k in b)
  {
    c[k] == if k !in b then a[k] else if k !in a then b[k] else Merge(a[k], b[k])
  }

  lemma MergeIs(a: map<string, Value>, b: map<string, Value>, c: map<string, Value>)
    requires c.Keys == a.Keys + b.Keys && forall k :: k in c ==> MergedKey(a, b, c, k)
    ensures Merge(Map(a), Map(b)) == Map(c)
  {
    var m := Merge(Map(a), Map(b)).entries;
    forall k | k in c ensures m[k] == c[k] {
      assert MergedKey(a, b, c, k);
    }
    assert m == c;
  }

  // ----- looking up -----

  function Find(v: Value, path: seq<string>): Option<Value>
    decreases |path|
  {
    if path == [] then Some(v)
    else if v.Map? && path[0] in v.entries then Find(v.entries[path[0]], path[1..])
    else None
  }

  /** What nestedValue answers: nil when there is nothing. */
  function Nested(v: Value, path: seq<string>): Value {
    if Find(v, path).Some? then Find(v, path).value else Nil
  }

  lemma NestedStep(v: Value, path: seq<string>)
    requires path != []
    ensures Nested(v, path) == if v.Map? && path[0] in v.entries then Nested(v.entries[path[0]], path[1..]) else Nil
  {
  }

  /** Something that is no map stands on the way. */
  predicate Blocks(v: Value, path: seq<string>)
    decreases |path|
  {
    path != [] && if v.Map? then path[0] in v.entries && Blocks(v.entries[path[0]], path[1..]) else true
  }

  /** The override wins, two maps merge, and what the override does not speak of stays. */
  lemma {:induction false} FindInMerge(a: Value, b: Value, path: seq<string>)
    ensures var x, y := Find(a, path), Find(b, path);
      Find(Merge(a, b), path) ==
        if y.Some? then (if x.Some? then Some(Merge(x.value, y.value)) else y)
        else if Blocks(b, path) then None
        else x
    decreases |path|
  {
    if path != [] && a.Map? && b.Map? && path[0] in a.entries && path[0] in b.entries {
      FindInMerge(a.entries[path[0]], b.entries[path[0]], path[1..]);
    }
  }

  // ----- merging the same again -----

  lemma {:induction false} MergeTwiceIsOnce(a: Value, b: Value)
    ensures Merge(Merge(a, b), b) == Merge(a, b)
    decreases b
  {
    if b.Map? {
      MergeWithItself(b);
      if a.Map? {
        forall k | k in a.entries && k in b.entries
          ensures Merge(Merge(a.entries[k], b.entries[k]), b.entries[k]) == Merge(a.entries[k], b.entries[k])
        {
          MergeTwiceIsOnce(a.entries[k], b.entries[k]);
        }
        forall k | k in b.entries ensures Merge(b.entries[k], b.entries[k]) == b.entries[k] {
          MergeWithItself(b.entries[k]);
        }
        assert Merge(Merge(a, b), b).entries == Merge(a, b).entries;
      }
    }
  }

  lemma {:induction false} MergeWithItself(v: Value)
    ensures Merge(v, v) == v
    decreases v
  {
    if v.Map? {
      forall k | k in v.entries ensures Merge(v.entries[k], v.entries[k]) == v.entries[k] {
        MergeWithItself(v.entries[k]);
      }
      assert Merge(v, v).entries == v.entries;
    }
  }

  // ----- when merging is associative -----

  /** Every key of a is a key of c, at every depth where both are maps. */
  predicate Covers(c: Value, a: Value)
    decreases c
  {
    a.Map? && c.Map? ==> forall k :: k in a.entries ==> k in c.entries && Covers(c.entries[k], a.entries[k])
  }

  /** Then nothing of a is left. */
  lemma {:induction false} CoveredLeavesNothing(a: Value, c: Value)
    ensures Covers(c, a) <==> Merge(a, c) == c
    decreases c
  {
    if a.Map? && c.Map? {
      forall k | k in a.entries && k in c.entries
        ensures Covers(c.entries[k], a.entries[k]) <==> Merge(a.entries[k], c.entries[k]) == c.entries[k]
      {
        CoveredLeavesNothing(a.entries[k], c.entries[k]);
      }
      if Covers(c, a) {
        assert Merge(a, c).entries == c.entries;
      }
      if Merge(a, c) == c {
        forall k | k in a.entries ensures k in c.entries && Merge(a.entries[k], c.entries[k]) == c.entries[k] {
          assert k in Merge(a, c).entries;
        }
      }
    }
  }

  /** Wherever something that is no map comes between two maps, the last covers the first. */
  predicate NothingUncovered(a: Value, b: Value, c: Value)
    decreases b
  {
    if a.Map? && c.Map? then
      if b.Map? then
        forall k :: k in a.entries && k in b.entries && k in c.entries ==>
            NothingUncovered(a.entries[k], b.entries[k], c.entries[k])
      else Covers(c, a)
    else true
  }

  /** Merging is associative exactly then. */
  lemma {:induction false} Associative(a: Value, b: Value, c: Value)
    ensures Merge(Merge(a, b), c) == Merge(a, Merge(b, c)) <==> NothingUncovered(a, b, c)
    decreases b
  {
    if a.Map? && c.Map? {
      if b.Map? {
        forall k | k in a.entries && k in b.entries && k in c.entries
          ensures AssociativeAt(a.entries[k], b.entries[k], c.entries[k])
             <==> NothingUncovered(a.entries[k], b.entries[k], c.entries[k])
        {
          Associative(a.entries[k], b.entries[k], c.entries[k]);
        }
        KeyByKey(a, b, c);
      } else {
        CoveredLeavesNothing(a, c);
      }
    }
  }

  predicate AssociativeAt(a: Value, b: Value, c: Value) {
    Merge(Merge(a, b), c) == Merge(a, Merge(b, c))
  }

  lemma KeyByKey(a: Value, b: Value, c: Value)
    requires a.Map? && b.Map? && c.Map?
    ensures AssociativeAt(a, b, c) <==>
      forall k :: k in a.entries && k in b.entries && k in c.entries ==> AssociativeAt(a.entries[k], b.entries[k], c.entries[k])
  {
    var left, right := Merge(Merge(a, b), c), Merge(a, Merge(b, c));
    assert left.entries.Keys == right.entries.Keys;
    forall k | k in left.entries && !(k in a.entries && k in b.entries && k in c.entries)
      ensures left.entries[k] == right.entries[k]
    {
    }
    forall k | k in a.entries && k in b.entries && k in c.entries
      ensures left.entries[k] == Merge(Merge(a.entries[k], b.entries[k]), c.entries[k])
      ensures right.entries[k] == Merge(a.entries[k], Merge(b.entries[k], c.entries[k]))
    {
    }
    if left.entries == right.entries {
      forall k | k in a.entries && k in b.entries && k in c.entries
        ensures AssociativeAt(a.entries[k], b.entries[k], c.entries[k])
      {
        assert left.entries[k] == right.entries[k];
      }
    }
    if forall k :: k in a.entries && k in b.entries && k in c.entries ==> AssociativeAt(a.entries[k], b.entries[k], c.entries[k]) {
      forall k | k in left.entries ensures left.entries[k] == right.entries[k] {
        if k in a.entries && k in b.entries && k in c.entries { assert AssociativeAt(a.entries[k], b.entries[k], c.entries[k]); }
      }
      assert left.entries == right.entries;
    }
  }

  // ----- merging many -----

  /** From an empty map on, each value over those before it. */
  function MergeAll(values: seq<Value>): Value
    decreases |values|
  {
    if values == [] then Map(map[]) else Merge(MergeAll(values[..|values| - 1]), values[|values| - 1])
  }

  /** What value i has at a path, no map, is what all together have there, if no later value speaks of
      the path or puts something that is no map above it. */
  lemma {:induction false} LastSpeakerWins(values: seq<Value>, i: nat, path: seq<string>)
    requires i < |values| && Find(values[i], path).Some? && !Find(values[i], path).value.Map?
    requires forall j :: i < j < |values| ==> Find(values[j], path).None? && !Blocks(values[j], path)
    ensures Find(MergeAll(values), path) == Find(values[i], path)
    decreases |values|
  {
    var last := |values| - 1;
    FindInMerge(MergeAll(values[..last]), values[last], path);
    if i < last {
      assert forall j :: i < j < last ==> values[..last][j] == values[j];
      LastSpeakerWins(values[..last], i, path);
    }
  }
}
