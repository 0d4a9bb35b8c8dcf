/** The values flux gives to the chart of a release (kubeBootstrap.go, helmReleaseValues). */
module HelmValues {
  import opened Collections
  import opened ValuesAlgebra
  import opened Values
  import opened MergedValues

  /** What became of one valuesFrom entry. */
  datatype Source = OtherKind | NotFound | Unparsable | Parsed(values: Dict)

  datatype Failure = OnlyConfigMapsAreSupported | ConfigMapNotFound | NotParsed

  datatype Outcome = Release(values: Dict) | Failed(failure: Failure)

  function FailureOf(source: Source): Option<Failure> {
    match source
    case OtherKind => Some(OnlyConfigMapsAreSupported)
    case NotFound => Some(ConfigMapNotFound)
    case Unparsable => Some(NotParsed)
    case Parsed(_) => None
  }

  predicate ParsedBefore(sources: seq<Source>, n: nat)
    requires n <= |sources|
  {
    forall i :: 0 <= i < n ==> sources[i].Parsed?
  }

  predicate Fails(source: Source, failure: Failure) {
    || (source.OtherKind? && failure == OnlyConfigMapsAreSupported)
    || (source.NotFound? && failure == ConfigMapNotFound)
    || (source.Unparsable? && failure == NotParsed)
  }

  /** The first source that fails decides. */
  predicate FailsWith(sources: seq<Source>, failure: Failure) {
    exists i :: 0 <= i < |sources| && ParsedBefore(sources, i) && Fails(sources[i], failure)
  }

  function Parsing(sources: seq<Source>): (vs: seq<Any>)
    ensures |vs| == |sources|
  {
    seq(|sources|, i requires 0 <= i < |sources| => if sources[i].Parsed? then MapAny(sources[i].values) else NilAny)
  }

  ghost function ContentsOf(seen: seq<Seen>): (c: seq<Value>)
    ensures |c| == |seen|
  {
    seq(|seen|, i requires 0 <= i < |seen| => Content(seen[i]))
  }

  /** The values stand as seen, no map in two places. */
  ghost predicate AllStand(vs: seq<Any>, seen: seq<Seen>)
    reads Dicts(ListSeen(seen))
  {
    var stand := Stands(ListAny(vs), ListSeen(seen)) && Separate(ListSeen(seen));
    stand
  }

  lemma Peel(vs: seq<Any>, seen: seq<Seen>)
    requires vs != [] && AllStand(vs, seen)
    ensures seen != [] && Stands(vs[0], seen[0]) && Separate(seen[0]) && AllStand(vs[1..], seen[1..])
    ensures Dicts(ListSeen(seen)) == Dicts(seen[0]) + Dicts(ListSeen(seen[1..]))
    ensures Dicts(seen[0]) !! Dicts(ListSeen(seen[1..]))
  {
    forall d | d in Dicts(ListSeen(seen[1..])) ensures d in Dicts(ListSeen(seen)) && d !in Dicts(seen[0]) {
      var i :| 0 <= i < |seen[1..]| && d in Dicts(seen[1..][i]);
      assert seen[1..][i] == seen[i + 1];
    }
    forall d | d in Dicts(ListSeen(seen)) ensures d in Dicts(seen[0]) || d in Dicts(ListSeen(seen[1..])) {
      var i :| 0 <= i < |seen| && d in Dicts(seen[i]);
      if i > 0 { assert seen[1..][i - 1] == seen[i]; }
    }
    forall d | d in Dicts(seen[0]) ensures d in Dicts(ListSeen(seen)) {
    }
  }

  /** The result so far: its maps are new ones or those of sources that are through. */
  ghost predicate SoFar(result: Dict, cur: Seen, through: set<Dict>)
    reads Dicts(cur)
  {
    var far := Stands(MapAny(result), cur) && Separate(cur) && Dicts(cur) <= through;
    far
  }

  /** What holds before round i: the result is built of the maps of through, and the sources still to
      come and the inline values stand as they did, in other maps. */
  ghost predicate Folding(result: Dict, cur: Seen, through: set<Dict>, vs: seq<Any>, seen: seq<Seen>, i: nat, inline: Dict, inlineSeen: Seen)
    requires i <= |vs| == |seen|
    reads Dicts(cur), Dicts(ListSeen(seen[i..])), Dicts(inlineSeen)
  {
    var stand := SoFar(result, cur, through) && AllStand(vs[i..], seen[i..]) && Stands(MapAny(inline), inlineSeen);
    var apart := through !! Dicts(ListSeen(seen[i..])) + Dicts(inlineSeen);
    stand && apart
  }

  /** One round of the loop. */
  method MergeSource(result: Dict, values: Dict, ghost cur: Seen, ghost through: set<Dict>,
    ghost vs: seq<Any>, ghost seen: seq<Seen>, ghost i: nat, inline: Dict, ghost inlineSeen: Seen) returns (r: Dict, ghost merged: Seen)
    requires i < |vs| == |seen| && Folding(result, cur, through, vs, seen, i, inline, inlineSeen) && vs[i] == MapAny(values)
    requires Dicts(ListSeen(seen[i..])) !! Dicts(inlineSeen)
    modifies through
    ensures Folding(r, merged, through + Dicts(seen[i]), vs, seen, i + 1, inline, inlineSeen)
    ensures Dicts(seen[i]) <= Dicts(ListSeen(seen[i..])) && Dicts(ListSeen(seen[i + 1..])) <= Dicts(ListSeen(seen[i..]))
    ensures Content(merged) == Merge(Content(cur), Content(seen[i]))
  {
    Peel(vs[i..], seen[i..]);
    TailOfTail(vs, i);
    TailOfTail(seen, i);
    SeenIsAllocated(ListSeen(seen[i + 1..]));
    SeenIsAllocated(inlineSeen);
    r, merged := MergeValues(result, values, cur, seen[i]);
  }

  /** The result as far as the sources go. */
  method MergeSources(sources: seq<Source>, ghost seen: seq<Seen>, inline: Dict, ghost inlineSeen: Seen)
    returns (result: Dict, failure: Option<Failure>, ghost cur: Seen, ghost through: set<Dict>)
    requires |seen| == |sources| && AllStand(Parsing(sources), seen)
    requires Stands(MapAny(inline), inlineSeen) && Dicts(inlineSeen) !! Dicts(ListSeen(seen))
    modifies Dicts(ListSeen(seen))
    ensures Stands(MapAny(inline), inlineSeen) && SoFar(result, cur, through) && through !! Dicts(inlineSeen)
    ensures forall d :: d in through ==> fresh(d) || d in Dicts(ListSeen(seen))
    ensures failure.Some? ==> FailsWith(sources, failure.value)
    ensures failure.None? ==> ParsedBefore(sources, |sources|) && Content(cur) == MergeAll(ContentsOf(seen))
  {
    SeenIsAllocated(ListSeen(seen));
    SeenIsAllocated(inlineSeen);
    result := new Dict();
    cur, through, failure := MapSeen(result, map[]), {result}, None;
    ghost var vs := Parsing(sources);
    assert Content(cur) == Map(map[]) && vs[0..] == vs && seen[0..] == seen;
    for i := 0 to |sources|
      invariant failure.None? && ParsedBefore(sources, i)
      invariant Folding(result, cur, through, vs, seen, i, inline, inlineSeen)
      invariant Dicts(ListSeen(seen[i..])) <= Dicts(ListSeen(seen))
      invariant forall d :: d in through ==> fresh(d) || d in Dicts(ListSeen(seen))
      invariant Content(cur) == MergeAll(ContentsOf(seen)[..i])
    {
      failure := FailureOf(sources[i]);
      if failure.Some? {
        assert FailsWith(sources, failure.value);
        return;
      }
      result, cur := MergeSource(result, sources[i].values, cur, through, vs, seen, i, inline, inlineSeen);
      OneMoreContent(seen, i);
      through := through + Dicts(seen[i]);
    }
    assert ContentsOf(seen)[..|sources|] == ContentsOf(seen);
  }

  lemma TailOfTail<T>(s: seq<T>, i: nat)
    requires i < |s|
    ensures s[i..][1..] == s[i + 1..]
  {
  }

  lemma OneMoreContent(seen: seq<Seen>, i: nat)
    requires i < |seen|
    ensures MergeAll(ContentsOf(seen)[..i + 1]) == Merge(MergeAll(ContentsOf(seen)[..i]), Content(seen[i]))
  {
    assert ContentsOf(seen)[..i + 1][..i] == ContentsOf(seen)[..i];
  }

  /** The config maps in order, then the inline values, which stand as they did. Sources may change:
      the maps of one are in the result when the next is merged into it. */
  method HelmReleaseValues(sources: seq<Source>, inline: Dict, ghost seen: seq<Seen>, ghost inlineSeen: Seen)
    returns (r: Outcome, ghost merged: Seen)
    requires |seen| == |sources| && AllStand(Parsing(sources), seen)
    requires Stands(MapAny(inline), inlineSeen) && Dicts(inlineSeen) !! Dicts(ListSeen(seen))
    modifies Dicts(ListSeen(seen))
    ensures r.Release? <==> ParsedBefore(sources, |sources|)
    ensures r.Release? ==> Stands(MapAny(r.values), merged)
    ensures r.Release? ==> Content(merged) == Merge(MergeAll(ContentsOf(seen)), Content(inlineSeen))
    ensures r.Failed? ==> FailsWith(sources, r.failure)
    ensures Stands(MapAny(inline), inlineSeen)
  {
    ghost var cur, through;
    var result, failure;
    result, failure, cur, through := MergeSources(sources, seen, inline, inlineSeen);
    if failure.Some? {
      return Failed(failure.value), cur;
    }
    SeenIsAllocated(inlineSeen);
    result, merged := MergeValues(result, inline, cur, inlineSeen);
    r := Release(result);
  }
}
