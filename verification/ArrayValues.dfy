/** The values of a converted schema (arraysToMaps.go): an array becomes a map, its items keyed by
    ids that sort in their order, and is restored as the list of the entries in the order of their
    keys. Here the schema says which maps to restore; ArrayReading is about the template, which has
    the reported paths only. */
module ArrayValues {
  import opened Json
  import opened Schema
  import opened Walk
  import opened Agreement
  import opened SchemaTypes
  import opened PathWalk
  import opened ArraysToMaps

  /** The ids given to the items of an array, and the listing of a set of keys in order. */
  datatype Ids = Ids(id: nat -> Text, sorted: set<Text> -> seq<Text>)

  function FirstIds(ids: Ids, n: nat): set<Text> {
    set i | 0 <= i < n :: ids.id(i)
  }

  ghost predicate Ordered(ids: Ids) {
    && (forall i: nat, j: nat :: i != j ==> ids.id(i) != ids.id(j))
    && (forall n: nat :: ids.sorted(FirstIds(ids, n)) == seq(n, i requires 0 <= i < n => ids.id(i)))
    && (forall keys, k :: k in ids.sorted(keys) <==> k in keys)
  }

  // ----- the schemas concerned -----

  predicate IsTextual(k: Text) {
    k == PATTERN || k == FORMAT || k == MIN_LENGTH || k == MAX_LENGTH || k == MINIMUM || k == MAXIMUM
  }

  predicate IsCounting(k: Text) {
    k == MIN_ITEMS || k == MAX_ITEMS || k == UNIQUE_ITEMS
  }

  predicate IsPlainKeyword(k: Text) {
    || k == TYPE || k == REQUIRED || k == PROPERTIES || IsSingle(k) || k == ENUM || k == CONST
    || IsTextual(k) || IsCounting(k) || IsAnnotation(k)
  }

  /** A node without combinators; no object keyword beside a converted array; no list of values
      where an array or an object may be. */
  predicate PlainNode(m: Keywords, converted: bool) {
    && (forall k :: k in m ==> IsPlainKeyword(k))
    && (ENUM in m || CONST in m ==> Excludes(m, ARRAY) && Excludes(m, OBJECT))
    && (ITEMS in m ==> !m[ITEMS].Arr?)
    && (converted ==> PROPERTIES !in m && ADDITIONAL_PROPERTIES !in m && REQUIRED !in m && Excludes(m, OBJECT))
  }

  /** No array that stays one asks for distinct items: reading back may make two of them equal. */
  ghost predicate NoneDistinct(s: Json, path: string, ignore: set<string>)
    decreases s, 1
  {
    s.Obj? ==>
      && (IsConverted(s.m, path, ignore) || !(UNIQUE_ITEMS in s.m && ITEMS in s.m && s.m[ITEMS].Obj?))
      && (forall name :: name in Named(s.m) ==> NoneDistinct(s.m[PROPERTIES].m[name], ChildPath(path, name), ignore))
      && (ADDITIONAL_PROPERTIES in s.m ==> NoneDistinct(s.m[ADDITIONAL_PROPERTIES], path, ignore))
      && (ITEMS in s.m ==> NoneDistinct(s.m[ITEMS], path, ignore))
  }

  predicate IsConverted(m: Keywords, path: string, ignore: set<string>) {
    path !in ignore && Convertible(m)
  }

  ghost predicate Plain(s: Json, path: string, ignore: set<string>)
    decreases s, 1
  {
    s.Obj? ==>
      && PlainNode(s.m, IsConverted(s.m, path, ignore))
      && (forall name :: name in Named(s.m) ==> Plain(s.m[PROPERTIES].m[name], ChildPath(path, name), ignore))
      && (ADDITIONAL_PROPERTIES in s.m ==> Plain(s.m[ADDITIONAL_PROPERTIES], path, ignore))
      && (ITEMS in s.m ==> Plain(s.m[ITEMS], path, ignore))
  }

  // ----- encoding -----

  /** The entries of a list, keyed by their ids. */
  function Entries(ids: Ids, a: seq<Json>): map<Text, Json>
    decreases |a|
  {
    if a == [] then map[] else Entries(ids, a[..|a| - 1])[ids.id(|a| - 1) := a[|a| - 1]]
  }

  function Encode(ids: Ids, s: Json, path: string, ignore: set<string>, v: Json): Json
    decreases s, 2
  {
    if !s.Obj? then v
    else match v
      case Arr(a) =>
        if !(ITEMS in s.m && s.m[ITEMS].Obj?) then v
        else
          var items := EncodeItems(ids, s.m[ITEMS], path, ignore, a);
          if IsConverted(s.m, path, ignore) then Obj(Entries(ids, items)) else Arr(items)
      case Obj(m) => if IsConverted(s.m, path, ignore) then v else Obj(map k | k in m :: EncodeEntry(ids, s, path, ignore, k, m[k]))
      case _ => v
  }

  function EncodeItems(ids: Ids, items: Json, path: string, ignore: set<string>, a: seq<Json>): (r: seq<Json>)
    ensures |r| == |a|
    decreases items, 3
  {
    seq(|a|, i requires 0 <= i < |a| => Encode(ids, items, path, ignore, a[i]))
  }

  function EncodeEntry(ids: Ids, s: Json, path: string, ignore: set<string>, k: Text, v: Json): Json
    requires s.Obj?
    decreases s, 1
  {
    if k in Named(s.m) then Encode(ids, s.m[PROPERTIES].m[k], ChildPath(path, k), ignore, v)
    else if ADDITIONAL_PROPERTIES in s.m then Encode(ids, s.m[ADDITIONAL_PROPERTIES], path, ignore, v)
    else v
  }

  // ----- restoring, with the schema at hand -----

  function Restore(ids: Ids, s: Json, path: string, ignore: set<string>, w: Json): Json
    decreases s, 2
  {
    if !s.Obj? then w
    else match w
      case Obj(m) =>
        if IsConverted(s.m, path, ignore) then
          var keys := ids.sorted(m.Keys);
          Arr(seq(|keys|, i requires 0 <= i < |keys| => if keys[i] in m then Restore(ids, s.m[ITEMS], path, ignore, m[keys[i]]) else Null))
        else Obj(map k | k in m :: RestoreEntry(ids, s, path, ignore, k, m[k]))
      case Arr(a) =>
        if !IsConverted(s.m, path, ignore) && ITEMS in s.m && s.m[ITEMS].Obj? then
          Arr(seq(|a|, i requires 0 <= i < |a| => Restore(ids, s.m[ITEMS], path, ignore, a[i])))
        else w
      case _ => w
  }

  function RestoreEntry(ids: Ids, s: Json, path: string, ignore: set<string>, k: Text, w: Json): Json
    requires s.Obj?
    decreases s, 1
  {
    if k in Named(s.m) then Restore(ids, s.m[PROPERTIES].m[k], ChildPath(path, k), ignore, w)
    else if ADDITIONAL_PROPERTIES in s.m then Restore(ids, s.m[ADDITIONAL_PROPERTIES], path, ignore, w)
    else w
  }

  lemma {:induction false} EntriesAt(ids: Ids, a: seq<Json>)
    requires Ordered(ids)
    ensures Entries(ids, a).Keys == FirstIds(ids, |a|)
    ensures forall i :: 0 <= i < |a| ==> ids.id(i) in Entries(ids, a) && Entries(ids, a)[ids.id(i)] == a[i]
    decreases |a|
  {
    if a != [] {
      EntriesAt(ids, a[..|a| - 1]);
      OneMoreId(ids, |a| - 1);
    }
  }

  lemma OneMoreId(ids: Ids, n: nat)
    ensures FirstIds(ids, n + 1) == FirstIds(ids, n) + {ids.id(n)}
  {
  }

  /** The parts of an accepted value are accepted by the nodes that describe them. */
  lemma AcceptedParts(o: Oracle, m: Keywords, v: Json)
    requires PATTERN_PROPERTIES !in m && (ITEMS in m ==> !m[ITEMS].Arr?) && Valid(o, Obj(m), v)
    ensures v.Obj? ==> forall name :: name in v.m && name in Named(m) ==> Valid(o, m[PROPERTIES].m[name], v.m[name])
    ensures v.Obj? && ADDITIONAL_PROPERTIES in m ==>
      forall name :: name in v.m && name !in Named(m) ==> Valid(o, m[ADDITIONAL_PROPERTIES], v.m[name])
    ensures v.Arr? && ITEMS in m ==> forall i :: 0 <= i < |v.a| ==> Valid(o, m[ITEMS], v.a[i])
  {
    assert PROPERTIES in m ==> KeywordOk(o, Obj(m), PROPERTIES, v) && PropertiesOk(o, Obj(m), v);
    assert ADDITIONAL_PROPERTIES in m ==> KeywordOk(o, Obj(m), ADDITIONAL_PROPERTIES, v) && AdditionalPropertiesOk(o, Obj(m), v);
    assert ITEMS in m ==> KeywordOk(o, Obj(m), ITEMS, v) && ItemsOk(o, Obj(m), v);
  }

  lemma PlainHasNoPatterns(m: Keywords, converted: bool)
    requires PlainNode(m, converted)
    ensures PATTERN_PROPERTIES !in m && (forall k :: k in m ==> !IsListing(k))
  {
    assert !IsPlainKeyword(PATTERN_PROPERTIES);
  }

  /** Decoding undoes encoding, on every value the schema accepts. */
  lemma {:induction false} RestoreUndoes(o: Oracle, ids: Ids, s: Json, path: string, ignore: set<string>, v: Json)
    requires Ordered(ids) && Plain(s, path, ignore) && Valid(o, s, v)
    ensures Restore(ids, s, path, ignore, Encode(ids, s, path, ignore, v)) == v
    decreases s, 1
  {
    if s.Obj? {
      ExcludedIsRejected(o, s.m, v);
      PlainHasNoPatterns(s.m, IsConverted(s.m, path, ignore));
      AcceptedParts(o, s.m, v);
      if v.Arr? && ITEMS in s.m && s.m[ITEMS].Obj? {
        RestoreUndoesItems(o, ids, s, path, ignore, v);
      } else if v.Obj? && !IsConverted(s.m, path, ignore) {
        forall k | k in v.m ensures RestoreEntry(ids, s, path, ignore, k, EncodeEntry(ids, s, path, ignore, k, v.m[k])) == v.m[k] {
          RestoreUndoesEntry(o, ids, s, path, ignore, v, k);
        }
        assert Restore(ids, s, path, ignore, Encode(ids, s, path, ignore, v)).m == v.m;
      }
    }
  }

  lemma {:induction false} RestoreUndoesItems(o: Oracle, ids: Ids, s: Json, path: string, ignore: set<string>, v: Json)
    requires Ordered(ids) && s.Obj? && Plain(s, path, ignore) && v.Arr? && ITEMS in s.m && s.m[ITEMS].Obj?
    requires forall i :: 0 <= i < |v.a| ==> Valid(o, s.m[ITEMS], v.a[i])
    ensures Restore(ids, s, path, ignore, Encode(ids, s, path, ignore, v)) == v
    decreases s, 0
  {
    var items := EncodeItems(ids, s.m[ITEMS], path, ignore, v.a);
    forall i | 0 <= i < |v.a| ensures Restore(ids, s.m[ITEMS], path, ignore, items[i]) == v.a[i] {
      RestoreUndoes(o, ids, s.m[ITEMS], path, ignore, v.a[i]);
    }
    if IsConverted(s.m, path, ignore) { SortedEntries(ids, items); }
    assert Restore(ids, s, path, ignore, Encode(ids, s, path, ignore, v)).a == v.a;
  }

  /** The keys in order are the ids in order. */
  lemma SortedEntries(ids: Ids, items: seq<Json>)
    requires Ordered(ids)
    ensures var es := Entries(ids, items); var keys := ids.sorted(es.Keys);
      |keys| == |items| && forall i :: 0 <= i < |items| ==> keys[i] in es && es[keys[i]] == items[i]
  {
    EntriesAt(ids, items);
    var keys := ids.sorted(Entries(ids, items).Keys);
    assert |keys| == |items| && forall i :: 0 <= i < |items| ==> keys[i] == ids.id(i);
  }

  lemma {:induction false} RestoreUndoesEntry(o: Oracle, ids: Ids, s: Json, path: string, ignore: set<string>, v: Json, k: Text)
    requires Ordered(ids) && s.Obj? && Plain(s, path, ignore) && v.Obj? && k in v.m
    requires k in Named(s.m) ==> Valid(o, s.m[PROPERTIES].m[k], v.m[k])
    requires k !in Named(s.m) && ADDITIONAL_PROPERTIES in s.m ==> Valid(o, s.m[ADDITIONAL_PROPERTIES], v.m[k])
    ensures RestoreEntry(ids, s, path, ignore, k, EncodeEntry(ids, s, path, ignore, k, v.m[k])) == v.m[k]
    decreases s, 0
  {
    if k in Named(s.m) {
      RestoreUndoes(o, ids, s.m[PROPERTIES].m[k], ChildPath(path, k), ignore, v.m[k]);
    } else if ADDITIONAL_PROPERTIES in s.m {
      RestoreUndoes(o, ids, s.m[ADDITIONAL_PROPERTIES], path, ignore, v.m[k]);
    }
  }

  // ----- an encoded value is accepted -----

  /** The keywords that hold no schema and list no values look at texts and numbers, and at how
      many items an array has. */
  lemma LeafOfOther(o: Oracle, k: Text, arg: Json, v: Json, w: Json)
    requires IsTextual(k) || IsCounting(k) || IsAnnotation(k)
    requires v.Obj? ||
      (v.Arr? && w.Arr? && |v.a| == |w.a| && (k == UNIQUE_ITEMS && Distinct(w.a) ==> Distinct(v.a)) && LeafOk(o, k, arg, w))
    ensures LeafOk(o, k, arg, v)
  {
  }

  /** A node before its visit, after those below it. */
  lemma WalkedNode(s: Json, path: string, ignore: set<string>, visit: PathVisitor)
    requires s.Obj? && Plain(s, path, ignore)
    ensures var n := WalkBelowAt(s, path, visit);
      && (forall k :: k in s.m && k != PROPERTIES && !IsSingle(k) ==> n[k] == s.m[k])
      && (forall k :: k in s.m && IsSingle(k) ==> n[k] == WalkAt(s.m[k], path, visit))
      && Named(n) == Named(s.m)
      && (forall name :: name in Named(s.m) ==>
            n[PROPERTIES].m[name] == WalkAt(s.m[PROPERTIES].m[name], ChildPath(path, name), visit))
  {
    PlainHasNoPatterns(s.m, IsConverted(s.m, path, ignore));
    var n := WalkBelowAt(s, path, visit);
    forall k | k in s.m ensures n[k] == WalkKeywordAt(s, k, path, visit) {}
  }

  lemma WalkedIsConverted(s: Json, path: string, ignore: set<string>)
    requires s.Obj? && Plain(s, path, ignore)
    ensures IsConverted(WalkBelowAt(s, path, Visit(ignore)), path, ignore) == IsConverted(s.m, path, ignore)
  {
    WalkedNode(s, path, ignore, Visit(ignore));
  }

  /** The converted node, keyword by keyword. */
  lemma ConvertedNode(s: Json, path: string, ignore: set<string>)
    requires s.Obj? && Plain(s, path, ignore) && IsConverted(s.m, path, ignore)
    ensures var r := Convert(s, path, ignore);
      && r.Obj? && TYPE in r.m && r.m[TYPE] == ReplaceType(s.m[TYPE], ARRAY, OBJECT)
      && ADDITIONAL_PROPERTIES in r.m && r.m[ADDITIONAL_PROPERTIES] == Convert(s.m[ITEMS], path, ignore)
      && Named(r.m) == {} && PATTERN_PROPERTIES !in r.m && ITEMS !in r.m
      && (forall k :: k in r.m && k != TYPE && k != ADDITIONAL_PROPERTIES ==>
            k in s.m && r.m[k] == s.m[k] && k != REQUIRED && k != PROPERTIES)
  {
    ConvertedIsTurned(s, path, ignore);
    PlainHasNoPatterns(s.m, true);
  }

  lemma ConvertedIsTurned(s: Json, path: string, ignore: set<string>)
    requires s.Obj? && Plain(s, path, ignore) && IsConverted(s.m, path, ignore)
    ensures Convertible(WalkBelowAt(s, path, Visit(ignore)))
    ensures var n := WalkBelowAt(s, path, Visit(ignore));
      Convert(s, path, ignore) == Obj(Converted(n)) && n.Keys == s.m.Keys && n[ITEMS] == Convert(s.m[ITEMS], path, ignore)
      && forall k :: k in s.m && !IsSingle(k) ==> n[k] == s.m[k]
  {
    WalkedNode(s, path, ignore, Visit(ignore));
    WalkedIsConverted(s, path, ignore);
  }

  lemma ConvertedKeeps(s: Json, path: string, ignore: set<string>)
    requires s.Obj? && Plain(s, path, ignore) && IsConverted(s.m, path, ignore)
    ensures var r := Convert(s, path, ignore);
      forall k :: k in s.m && k != TYPE && k != ITEMS && !IsCounting(k) && !IsAnnotation(k) ==> k in r.m && r.m[k] == s.m[k]
  {
    WalkedNode(s, path, ignore, Visit(ignore));
    WalkedIsConverted(s, path, ignore);
  }

  /** t has the keywords of s, with the nodes below it walked. */
  ghost predicate SameShape(s: Json, t: Json, path: string, visit: PathVisitor)
    requires s.Obj?
  {
    && t.Obj? && t.m.Keys == s.m.Keys
    && (forall k :: k in s.m && k != PROPERTIES && !IsSingle(k) ==> t.m[k] == s.m[k])
    && (forall k :: k in s.m && IsSingle(k) ==> t.m[k] == WalkAt(s.m[k], path, visit))
    && Named(t.m) == Named(s.m)
    && (forall name :: name in Named(s.m) ==>
          t.m[PROPERTIES].m[name] == WalkAt(s.m[PROPERTIES].m[name], ChildPath(path, name), visit))
  }

  lemma KeptShape(s: Json, path: string, ignore: set<string>)
    requires s.Obj? && Plain(s, path, ignore) && !IsConverted(s.m, path, ignore)
    ensures SameShape(s, Convert(s, path, ignore), path, Visit(ignore))
  {
    WalkedNode(s, path, ignore, Visit(ignore));
    WalkedIsConverted(s, path, ignore);
  }

  /** The value rewritten with ids is accepted by the converted schema. */
  lemma {:induction false} EncodedIsAccepted(o: Oracle, ids: Ids, s: Json, path: string, ignore: set<string>, v: Json)
    requires Ordered(ids) && Plain(s, path, ignore) && Valid(o, s, v)
    ensures Valid(o, Convert(s, path, ignore), Encode(ids, s, path, ignore, v))
    decreases s, 3
  {
    if s.Obj? {
      var r, w := Convert(s, path, ignore), Encode(ids, s, path, ignore, v);
      PlainHasNoPatterns(s.m, IsConverted(s.m, path, ignore));
      AcceptedParts(o, s.m, v);
      if IsConverted(s.m, path, ignore) {
        ExcludedIsRejected(o, s.m, v);
        ConvertedEntriesAccept(o, ids, s, path, ignore, v);
        forall k | k in r.m ensures KeywordOk(o, r, k, w) {
          if k != ADDITIONAL_PROPERTIES { ConvertedKeywordAccepts(o, ids, s, path, ignore, v, k); }
        }
      } else {
        KeptShape(s, path, ignore);
        KeptPartsAccept(o, ids, s, path, ignore, r, v);
        forall k | k in r.m ensures KeywordOk(o, r, k, w) {
          if k != PROPERTIES && !IsSingle(k) { KeptLeafAccepts(o, ids, s, path, ignore, r, v, k); }
        }
      }
    }
  }

  lemma ConvertedKeywordAccepts(o: Oracle, ids: Ids, s: Json, path: string, ignore: set<string>, v: Json, k: Text)
    requires s.Obj? && Plain(s, path, ignore) && Valid(o, s, v) && IsConverted(s.m, path, ignore)
    requires k in Convert(s, path, ignore).m && k != ADDITIONAL_PROPERTIES
    ensures KeywordOk(o, Convert(s, path, ignore), k, Encode(ids, s, path, ignore, v))
  {
    ConvertedNode(s, path, ignore);
    ExcludedIsRejected(o, s.m, v);
    assert v.Arr? ==> Encode(ids, s, path, ignore, v).Obj?;
    assert !v.Arr? ==> Encode(ids, s, path, ignore, v) == v;
    ConvertedLeafAccepts(o, s.m, Convert(s, path, ignore).m, k, v, Encode(ids, s, path, ignore, v));
  }

  lemma {:induction false} ConvertedEntriesAccept(o: Oracle, ids: Ids, s: Json, path: string, ignore: set<string>, v: Json)
    requires Ordered(ids) && s.Obj? && Plain(s, path, ignore) && IsConverted(s.m, path, ignore) && !v.Obj?
    requires v.Arr? ==> forall i :: 0 <= i < |v.a| ==> Valid(o, s.m[ITEMS], v.a[i])
    ensures var r := Convert(s, path, ignore);
      ADDITIONAL_PROPERTIES in r.m && AdditionalPropertiesOk(o, r, Encode(ids, s, path, ignore, v))
    decreases s, 2
  {
    ConvertedNode(s, path, ignore);
    if v.Arr? { EntriesAccepted(o, ids, s.m[ITEMS], path, ignore, v.a, Convert(s, path, ignore)); }
  }

  /** A keyword of a converted node, on an object in the place of an array, or on what is neither. */
  lemma ConvertedLeafAccepts(o: Oracle, m: Keywords, r: Keywords, k: Text, v: Json, w: Json)
    requires PlainNode(m, true) && Convertible(m) && Valid(o, Obj(m), v)
    requires !v.Obj? && (if v.Arr? then w.Obj? else w == v)
    requires k in m && k in r && !IsSingle(k) && r[k] == if k == TYPE then ReplaceType(m[k], ARRAY, OBJECT) else m[k]
    ensures KeywordOk(o, Obj(r), k, w)
  {
    assert KeywordOk(o, Obj(m), k, v);
    if k == TYPE {
      ReplacedTypeAccepts(m[TYPE], w);
    } else {
      ExcludedIsRejected(o, m, v);
      assert IsPlainKeyword(k);
      if w.Obj? { LeafOfOther(o, k, m[k], w, v); }
    }
  }

  lemma {:induction false} EntriesAccepted(o: Oracle, ids: Ids, items: Json, path: string, ignore: set<string>, a: seq<Json>, r: Json)
    requires Ordered(ids) && Plain(items, path, ignore) && forall i :: 0 <= i < |a| ==> Valid(o, items, a[i])
    requires r.Obj? && ADDITIONAL_PROPERTIES in r.m && r.m[ADDITIONAL_PROPERTIES] == Convert(items, path, ignore)
    ensures AdditionalPropertiesOk(o, r, Obj(Entries(ids, EncodeItems(ids, items, path, ignore, a))))
    decreases items, 4
  {
    var encoded := EncodeItems(ids, items, path, ignore, a);
    EntriesAt(ids, encoded);
    forall i | 0 <= i < |a| ensures Valid(o, r.m[ADDITIONAL_PROPERTIES], encoded[i]) {
      EncodedIsAccepted(o, ids, items, path, ignore, a[i]);
    }
  }

  lemma {:induction false} KeptPartsAccept(o: Oracle, ids: Ids, s: Json, path: string, ignore: set<string>, r: Json, v: Json)
    requires Ordered(ids) && s.Obj? && Plain(s, path, ignore) && Valid(o, s, v)
    requires !IsConverted(s.m, path, ignore) && SameShape(s, r, path, Visit(ignore))
    ensures var w := Encode(ids, s, path, ignore, v);
      && (PROPERTIES in r.m ==> PropertiesOk(o, r, w))
      && (ADDITIONAL_PROPERTIES in r.m ==> AdditionalPropertiesOk(o, r, w))
      && (ITEMS in r.m ==> ItemsOk(o, r, w))
    decreases s, 2
  {
    PlainHasNoPatterns(s.m, false);
    AcceptedParts(o, s.m, v);
    if v.Obj? { KeptEntriesAccept(o, ids, s, path, ignore, r, v); }
    if v.Arr? && ITEMS in s.m { KeptItemsAccept(o, ids, s, path, ignore, r, v); }
  }

  lemma {:induction false} KeptEntriesAccept(o: Oracle, ids: Ids, s: Json, path: string, ignore: set<string>, r: Json, v: Json)
    requires Ordered(ids) && s.Obj? && Plain(s, path, ignore) && v.Obj?
    requires forall name :: name in v.m && name in Named(s.m) ==> Valid(o, s.m[PROPERTIES].m[name], v.m[name])
    requires ADDITIONAL_PROPERTIES in s.m ==>
      forall name :: name in v.m && name !in Named(s.m) ==> Valid(o, s.m[ADDITIONAL_PROPERTIES], v.m[name])
    requires !IsConverted(s.m, path, ignore) && SameShape(s, r, path, Visit(ignore))
    ensures PROPERTIES in r.m ==> PropertiesOk(o, r, Encode(ids, s, path, ignore, v))
    ensures ADDITIONAL_PROPERTIES in r.m ==> AdditionalPropertiesOk(o, r, Encode(ids, s, path, ignore, v))
    decreases s, 1
  {
    var w := Encode(ids, s, path, ignore, v);
    forall name | name in v.m && name in Named(s.m) ensures Valid(o, r.m[PROPERTIES].m[name], w.m[name]) {
      EncodedIsAccepted(o, ids, s.m[PROPERTIES].m[name], ChildPath(path, name), ignore, v.m[name]);
    }
    forall name | name in v.m && name !in Named(s.m) && ADDITIONAL_PROPERTIES in s.m
      ensures Valid(o, r.m[ADDITIONAL_PROPERTIES], w.m[name])
    {
      EncodedIsAccepted(o, ids, s.m[ADDITIONAL_PROPERTIES], path, ignore, v.m[name]);
    }
  }

  lemma {:induction false} KeptItemsAccept(o: Oracle, ids: Ids, s: Json, path: string, ignore: set<string>, r: Json, v: Json)
    requires Ordered(ids) && s.Obj? && Plain(s, path, ignore) && v.Arr? && ITEMS in s.m
    requires forall i :: 0 <= i < |v.a| ==> Valid(o, s.m[ITEMS], v.a[i])
    requires !IsConverted(s.m, path, ignore) && SameShape(s, r, path, Visit(ignore))
    ensures ItemsOk(o, r, Encode(ids, s, path, ignore, v))
    decreases s, 1
  {
    var w := Encode(ids, s, path, ignore, v);
    forall i | 0 <= i < |v.a| ensures Valid(o, r.m[ITEMS], w.a[i]) {
      EncodedIsAccepted(o, ids, s.m[ITEMS], path, ignore, v.a[i]);
      assert w.a[i] == Encode(ids, s.m[ITEMS], path, ignore, v.a[i]);
    }
  }

  lemma KeptLeafAccepts(o: Oracle, ids: Ids, s: Json, path: string, ignore: set<string>, r: Json, v: Json, k: Text)
    requires Ordered(ids) && s.Obj? && Plain(s, path, ignore) && Valid(o, s, v)
    requires !IsConverted(s.m, path, ignore) && r.Obj? && k in s.m && k in r.m && r.m[k] == s.m[k] && k != PROPERTIES && !IsSingle(k)
    ensures KeywordOk(o, r, k, Encode(ids, s, path, ignore, v))
  {
    ExcludedIsRejected(o, s.m, v);
    assert KeywordOk(o, s, k, v) && IsPlainKeyword(k);
    if v.Arr? && ITEMS in s.m && s.m[ITEMS].Obj? { EncodedStaysDistinct(o, ids, s, path, ignore, v); }
    KeptLeafOfOther(o, s.m, r, k, v, Encode(ids, s, path, ignore, v));
  }

  /** What can be read back is not made equal. */
  lemma EncodedStaysDistinct(o: Oracle, ids: Ids, s: Json, path: string, ignore: set<string>, v: Json)
    requires Ordered(ids) && s.Obj? && Plain(s, path, ignore) && Valid(o, s, v) && v.Arr?
    requires ITEMS in s.m && s.m[ITEMS].Obj?
    ensures Distinct(v.a) ==> Distinct(EncodeItems(ids, s.m[ITEMS], path, ignore, v.a))
  {
    PlainHasNoPatterns(s.m, IsConverted(s.m, path, ignore));
    AcceptedParts(o, s.m, v);
    forall i | 0 <= i < |v.a|
      ensures Restore(ids, s.m[ITEMS], path, ignore, Encode(ids, s.m[ITEMS], path, ignore, v.a[i])) == v.a[i]
    {
      RestoreUndoes(o, ids, s.m[ITEMS], path, ignore, v.a[i]);
    }
  }

  /** A keyword that holds no schema, on a value of the same kind and size. */
  lemma KeptLeafOfOther(o: Oracle, m: Keywords, r: Json, k: Text, v: Json, w: Json)
    requires PlainNode(m, false) && k in m && k != PROPERTIES && !IsSingle(k) && KeywordOk(o, Obj(m), k, v)
    requires r.Obj? && k in r.m && r.m[k] == m[k]
    requires Excludes(m, OBJECT) ==> !v.Obj?
    requires Excludes(m, ARRAY) ==> !v.Arr?
    requires if v.Obj? then w.Obj? && w.m.Keys == v.m.Keys
      else if v.Arr? then w.Arr? && |w.a| == |v.a| && (UNIQUE_ITEMS in m && Distinct(v.a) ==> Distinct(w.a))
      else w == v
    ensures KeywordOk(o, r, k, w)
  {
    assert IsPlainKeyword(k);
    if k == TYPE || k == REQUIRED {
      SameKind(o, m, r.m, k, v, w);
    } else if k == ENUM || k == CONST {
      PlainExcludes(m, false, k);
      SameKeyword(o, m, r.m, k, v);
    } else if w == v {
      SameKeyword(o, m, r.m, k, v);
    } else {
      LeafOfOther(o, k, m[k], w, v);
    }
  }

  lemma PlainExcludes(m: Keywords, converted: bool, k: Text)
    requires PlainNode(m, converted) && (k == ENUM || k == CONST) && k in m
    ensures Excludes(m, ARRAY) && Excludes(m, OBJECT)
  {
  }

  lemma SameKind(o: Oracle, m: Keywords, n: Keywords, k: Text, v: Json, w: Json)
    requires (k == TYPE || k == REQUIRED) && k in m && k in n && n[k] == m[k] && KeywordOk(o, Obj(m), k, v)
    requires if v.Obj? then w.Obj? && w.m.Keys == v.m.Keys else if v.Arr? then w.Arr? else w == v
    ensures KeywordOk(o, Obj(n), k, w)
  {
  }

  // ----- a decoded value is accepted -----

  /** The schema as it was, but for the counts that a conversion drops. */
  function LooseVisit(ignore: set<string>): PathVisitor {
    (m: Keywords, path: string) => if path !in ignore && Convertible(m) then m - {MIN_ITEMS, MAX_ITEMS, UNIQUE_ITEMS} else m
  }

  function Loosen(s: Json, path: string, ignore: set<string>): Json {
    WalkAt(s, path, LooseVisit(ignore))
  }

  lemma LooseShape(s: Json, path: string, ignore: set<string>)
    requires s.Obj? && Plain(s, path, ignore) && !IsConverted(s.m, path, ignore)
    ensures SameShape(s, Loosen(s, path, ignore), path, LooseVisit(ignore))
  {
    WalkedNode(s, path, ignore, LooseVisit(ignore));
  }

  lemma LooseNode(s: Json, path: string, ignore: set<string>)
    requires s.Obj? && Plain(s, path, ignore) && IsConverted(s.m, path, ignore)
    ensures var l := Loosen(s, path, ignore);
      && l.Obj? && ITEMS in l.m && l.m[ITEMS] == Loosen(s.m[ITEMS], path, ignore)
      && forall k :: k in l.m ==> k in s.m && !IsCounting(k) && (k != ITEMS ==> l.m[k] == s.m[k])
  {
    WalkedNode(s, path, ignore, LooseVisit(ignore));
    PlainHasNoPatterns(s.m, true);
  }

  /** A value the converted schema accepts is read back as one that the schema accepted, counts aside. */
  lemma {:induction false} RestoredValueAccepted(o: Oracle, ids: Ids, s: Json, path: string, ignore: set<string>, w: Json)
    requires Ordered(ids) && Plain(s, path, ignore) && NoneDistinct(s, path, ignore) && Valid(o, Convert(s, path, ignore), w)
    ensures Valid(o, Loosen(s, path, ignore), Restore(ids, s, path, ignore, w))
    decreases s, 4
  {
    if s.Obj? {
      if IsConverted(s.m, path, ignore) {
        RestoredArrayAccepted(o, ids, s, path, ignore, Convert(s, path, ignore), Loosen(s, path, ignore), w);
      } else {
        KeptShape(s, path, ignore);
        LooseShape(s, path, ignore);
        KeptIsAccepted(o, ids, s, path, ignore, Convert(s, path, ignore), Loosen(s, path, ignore), w);
      }
    }
  }

  lemma {:induction false} RestoredArrayAccepted(o: Oracle, ids: Ids, s: Json, path: string, ignore: set<string>, r: Json, l: Json, w: Json)
    requires Ordered(ids) && s.Obj? && Plain(s, path, ignore) && NoneDistinct(s, path, ignore) && IsConverted(s.m, path, ignore)
    requires r == Convert(s, path, ignore) && l == Loosen(s, path, ignore) && Valid(o, r, w)
    ensures Valid(o, l, Restore(ids, s, path, ignore, w))
    decreases s, 3
  {
    ConvertedNode(s, path, ignore);
    ConvertedKeeps(s, path, ignore);
    LooseNode(s, path, ignore);
    AcceptedParts(o, r.m, w);
    var v := Restore(ids, s, path, ignore, w);
    assert KeywordOk(o, r, TYPE, w);
    ReplacedTypeAccepts(s.m[TYPE], w);
    assert r == Obj(r.m) && l == Obj(l.m);
    RestoredItemsAccepted(o, ids, s, path, ignore, l, w);
    RestoredNodeAccepted(o, s.m, r.m, l.m, v, w);
  }

  lemma RestoredNodeAccepted(o: Oracle, m: Keywords, r: Keywords, l: Keywords, v: Json, w: Json)
    requires PlainNode(m, true) && Convertible(m) && Valid(o, Obj(r), w)
    requires if w.Obj? then v.Arr? else v == w
    requires TypeOk(m[TYPE], w) || w.Obj?
    requires ITEMS in l && ItemsOk(o, Obj(l), v)
    requires forall k :: k in l ==> k in m && !IsCounting(k) && (k != ITEMS ==> l[k] == m[k])
    requires forall k :: k in m && k != TYPE && k != ITEMS && !IsCounting(k) && !IsAnnotation(k) ==> k in r && r[k] == m[k]
    ensures Valid(o, Obj(l), v)
  {
    forall k | k in l ensures KeywordOk(o, Obj(l), k, v) {
      if k != ITEMS { RestoredLeafAccepted(o, m, r, l, k, v, w); }
    }
  }

  lemma {:induction false} RestoredItemsAccepted(o: Oracle, ids: Ids, s: Json, path: string, ignore: set<string>, l: Json, w: Json)
    requires Ordered(ids) && s.Obj? && Plain(s, path, ignore) && NoneDistinct(s, path, ignore) && IsConverted(s.m, path, ignore) && !w.Arr?
    requires w.Obj? ==> forall name :: name in w.m ==> Valid(o, Convert(s.m[ITEMS], path, ignore), w.m[name])
    requires l.Obj? && ITEMS in l.m && l.m[ITEMS] == Loosen(s.m[ITEMS], path, ignore)
    ensures w.Obj? ==> Restore(ids, s, path, ignore, w).Arr?
    ensures !w.Obj? ==> Restore(ids, s, path, ignore, w) == w
    ensures ItemsOk(o, l, Restore(ids, s, path, ignore, w))
    decreases s, 2
  {
    if w.Obj? {
      var keys, v := ids.sorted(w.m.Keys), Restore(ids, s, path, ignore, w);
      forall i | 0 <= i < |keys| ensures Valid(o, l.m[ITEMS], v.a[i]) {
        assert keys[i] in w.m;
        RestoredValueAccepted(o, ids, s.m[ITEMS], path, ignore, w.m[keys[i]]);
      }
      WalkKeepsKind(s.m[ITEMS], path, LooseVisit(ignore));
    }
  }

  lemma WalkKeepsKind(s: Json, path: string, visit: PathVisitor)
    requires s.Obj?
    ensures WalkAt(s, path, visit).Obj?
  {
  }

  /** A keyword of a converted node, on an array read back from an object, or on what is neither. */
  lemma RestoredLeafAccepted(o: Oracle, m: Keywords, r: Keywords, l: Keywords, k: Text, v: Json, w: Json)
    requires PlainNode(m, true) && Convertible(m) && Valid(o, Obj(r), w)
    requires if w.Obj? then v.Arr? else v == w
    requires TypeOk(m[TYPE], w) || w.Obj?
    requires k in m && k in l && l[k] == m[k] && k != ITEMS && !IsCounting(k)
    requires k != TYPE && !IsAnnotation(k) ==> k in r && r[k] == m[k]
    ensures KeywordOk(o, Obj(l), k, v)
  {
    assert IsPlainKeyword(k);
    if k == TYPE {
      if v.Arr? { ArrayIsOfType(m, v); }
    } else if !IsAnnotation(k) {
      assert KeywordOk(o, Obj(r), k, w);
    }
  }

  lemma ArrayIsOfType(m: Keywords, v: Json)
    requires TypeIncludes(m, ARRAY) && v.Arr?
    ensures TypeOk(m[TYPE], v)
  {
    if m[TYPE].Arr? {
      var i :| 0 <= i < |m[TYPE].a| && m[TYPE].a[i] == Str(ARRAY);
    }
  }

  lemma {:induction false} KeptIsAccepted(o: Oracle, ids: Ids, s: Json, path: string, ignore: set<string>, r: Json, l: Json, w: Json)
    requires Ordered(ids) && s.Obj? && Plain(s, path, ignore) && NoneDistinct(s, path, ignore) && !IsConverted(s.m, path, ignore) && Valid(o, r, w)
    requires SameShape(s, r, path, Visit(ignore)) && SameShape(s, l, path, LooseVisit(ignore))
    ensures Valid(o, l, Restore(ids, s, path, ignore, w))
    decreases s, 3
  {
    var v := Restore(ids, s, path, ignore, w);
    PlainHasNoPatterns(s.m, false);
    AcceptedParts(o, r.m, w);
    assert r == Obj(r.m);
    ExcludedIsRejected(o, r.m, w);
    if w.Obj? { KeptEntriesDecoded(o, ids, s, path, ignore, r, l, w); }
    if w.Arr? && ITEMS in s.m { KeptItemsDecoded(o, ids, s, path, ignore, r, l, w); }
    forall k | k in l.m ensures KeywordOk(o, l, k, v) {
      if k != PROPERTIES && !IsSingle(k) {
        assert KeywordOk(o, r, k, w);
        SameKeyword(o, r.m, s.m, k, w);
        KeptLeafOfOther(o, s.m, l, k, w, v);
      }
    }
  }

  lemma {:induction false} KeptEntriesDecoded(o: Oracle, ids: Ids, s: Json, path: string, ignore: set<string>, r: Json, l: Json, w: Json)
    requires Ordered(ids) && s.Obj? && Plain(s, path, ignore) && NoneDistinct(s, path, ignore) && !IsConverted(s.m, path, ignore) && w.Obj?
    requires SameShape(s, r, path, Visit(ignore)) && SameShape(s, l, path, LooseVisit(ignore))
    requires forall name :: name in w.m && name in Named(r.m) ==> Valid(o, r.m[PROPERTIES].m[name], w.m[name])
    requires ADDITIONAL_PROPERTIES in r.m ==>
      forall name :: name in w.m && name !in Named(r.m) ==> Valid(o, r.m[ADDITIONAL_PROPERTIES], w.m[name])
    ensures PROPERTIES in l.m ==> PropertiesOk(o, l, Restore(ids, s, path, ignore, w))
    ensures ADDITIONAL_PROPERTIES in l.m ==> AdditionalPropertiesOk(o, l, Restore(ids, s, path, ignore, w))
    decreases s, 2
  {
    var v := Restore(ids, s, path, ignore, w);
    forall name | name in w.m && name in Named(s.m) ensures Valid(o, l.m[PROPERTIES].m[name], v.m[name]) {
      RestoredValueAccepted(o, ids, s.m[PROPERTIES].m[name], ChildPath(path, name), ignore, w.m[name]);
    }
    forall name | name in w.m && name !in Named(s.m) && ADDITIONAL_PROPERTIES in s.m
      ensures Valid(o, l.m[ADDITIONAL_PROPERTIES], v.m[name])
    {
      RestoredValueAccepted(o, ids, s.m[ADDITIONAL_PROPERTIES], path, ignore, w.m[name]);
    }
  }

  lemma {:induction false} KeptItemsDecoded(o: Oracle, ids: Ids, s: Json, path: string, ignore: set<string>, r: Json, l: Json, w: Json)
    requires Ordered(ids) && s.Obj? && Plain(s, path, ignore) && NoneDistinct(s, path, ignore) && !IsConverted(s.m, path, ignore) && w.Arr? && ITEMS in s.m
    requires SameShape(s, r, path, Visit(ignore)) && SameShape(s, l, path, LooseVisit(ignore))
    requires forall i :: 0 <= i < |w.a| ==> Valid(o, r.m[ITEMS], w.a[i])
    ensures ItemsOk(o, l, Restore(ids, s, path, ignore, w))
    decreases s, 2
  {
    var v := Restore(ids, s, path, ignore, w);
    forall i | 0 <= i < |w.a| ensures Valid(o, l.m[ITEMS], v.a[i]) {
      RestoredValueAccepted(o, ids, s.m[ITEMS], path, ignore, w.a[i]);
      assert v.a[i] == Restore(ids, s.m[ITEMS], path, ignore, w.a[i]);
    }
  }
}
