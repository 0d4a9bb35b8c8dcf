/** Reading the values of a converted schema back, as the template does (_mapsToArrays.tpl): it has no
    schema, only the paths that the conversion reported (arraysToMaps.go). */
module ArrayReading {
  import opened Json
  import opened Schema
  import opened Walk
  import opened SchemaTypes
  import opened PathWalk
  import opened SchemaNodes
  import opened ArraysToMaps
  import opened ArrayValues

  // ----- the template -----

  /** base.lib.mapsToArraysValue: a map at a reported path becomes the list of its entries. */
  function ReadValue(ids: Ids, paths: seq<string>, path: string, w: Json): Json
    decreases w, 1
  {
    if w.Obj? && path != "" && path in paths then
      var keys := ids.sorted(w.m.Keys);
      Arr(seq(|keys|, i requires 0 <= i < |keys| => if keys[i] in w.m then ReadObject(ids, paths, path, w.m[keys[i]]) else Null))
    else ReadObject(ids, paths, path, w)
  }

  /** base.lib.mapsToArraysObject: each key of a map adds to the path; lists are not entered. */
  function ReadObject(ids: Ids, paths: seq<string>, path: string, w: Json): Json
    decreases w, 0
  {
    if w.Obj? then Obj(map k | k in w.m :: ReadValue(ids, paths, ChildPath(path, k), w.m[k])) else w
  }

  /** What the template makes of a value, by where it meets it: under a key, as an entry of a map it
      turns into a list, or inside a list, where it does not come. */
  datatype Position = Field | Entry | Inside

  function ReadAt(ids: Ids, paths: seq<string>, pos: Position, path: string, w: Json): Json {
    match pos
    case Field => ReadValue(ids, paths, path, w)
    case Entry => ReadObject(ids, paths, path, w)
    case Inside => w
  }

  // ----- exactly which values are read back -----

  /** The node that describes the entry k of an object, and its path in the schema. */
  function EntrySchema(s: Json, path: string, ignore: set<string>, k: Text): Json {
    if !s.Obj? || IsConverted(s.m, path, ignore) then Bool(true)
    else if k in Named(s.m) then s.m[PROPERTIES].m[k]
    else if ADDITIONAL_PROPERTIES in s.m then s.m[ADDITIONAL_PROPERTIES]
    else Bool(true)
  }

  function EntryPath(s: Json, path: string, k: Text): string {
    if s.Obj? && k in Named(s.m) then ChildPath(path, k) else path
  }

  /** Every list that the conversion keys stands at a reported path, not directly in another such list
      nor inside a list that is kept; and no map stands at a reported path. `at` is the path in the
      value, which differs from that in the schema below entries that are named nowhere. */
  ghost predicate Fits(paths: seq<string>, s: Json, path: string, ignore: set<string>, pos: Position, at: string, v: Json)
    decreases v
  {
    match v
    case Arr(a) =>
      if s.Obj? && IsConverted(s.m, path, ignore) then
        && pos.Field? && at != "" && at in paths
        && forall i :: 0 <= i < |a| ==> Fits(paths, s.m[ITEMS], path, ignore, Entry, at, a[i])
      else s.Obj? && ITEMS in s.m && s.m[ITEMS].Obj? ==>
        forall i :: 0 <= i < |a| ==> Fits(paths, s.m[ITEMS], path, ignore, Inside, at, a[i])
    case Obj(m) =>
      && (pos.Field? && at in paths ==> at == "")
      && forall k :: k in m ==>
        Fits(paths, EntrySchema(s, path, ignore, k), EntryPath(s, path, k), ignore, if pos.Inside? then Inside else Field, ChildPath(at, k), m[k])
    case _ => true
  }

  lemma EncodedObject(ids: Ids, s: Json, path: string, ignore: set<string>, m: map<Text, Json>)
    ensures Encode(ids, s, path, ignore, Obj(m)) ==
      Obj(map k | k in m :: Encode(ids, EntrySchema(s, path, ignore, k), EntryPath(s, path, k), ignore, m[k]))
  {
    var e := Encode(ids, s, path, ignore, Obj(m));
    assert e.Obj? && e.m.Keys == m.Keys;
    forall k | k in m ensures e.m[k] == Encode(ids, EntrySchema(s, path, ignore, k), EntryPath(s, path, k), ignore, m[k]) {
      if s.Obj? && !IsConverted(s.m, path, ignore) {
        assert e.m[k] == EncodeEntry(ids, s, path, ignore, k, m[k]);
      } else {
        assert e == Obj(m) && Encode(ids, Bool(true), EntryPath(s, path, k), ignore, m[k]) == m[k];
      }
    }
  }

  lemma PlainValue(ids: Ids, paths: seq<string>, s: Json, path: string, ignore: set<string>, pos: Position, at: string, v: Json)
    requires !v.Arr? && !v.Obj?
    ensures ReadAt(ids, paths, pos, at, Encode(ids, s, path, ignore, v)) == v
  {
    assert Encode(ids, s, path, ignore, v) == v;
    assert ReadObject(ids, paths, at, v) == v;
    assert ReadValue(ids, paths, at, v) == ReadObject(ids, paths, at, v);
  }

  lemma ReadsListBack(ids: Ids, paths: seq<string>, pos: Position, at: string, a: seq<Json>)
    ensures ReadAt(ids, paths, pos, at, Arr(a)) == Arr(a)
  {
    assert ReadObject(ids, paths, at, Arr(a)) == Arr(a);
    assert ReadValue(ids, paths, at, Arr(a)) == ReadObject(ids, paths, at, Arr(a));
  }

  lemma ReadObjectStays(ids: Ids, paths: seq<string>, pos: Position, at: string, w: Json)
    requires w.Obj? && !(pos.Field? && at != "" && at in paths)
    ensures ReadAt(ids, paths, pos, at, w).Obj? && ReadAt(ids, paths, pos, at, w).m.Keys == w.m.Keys
    ensures var read, below := ReadAt(ids, paths, pos, at, w), if pos.Inside? then Inside else Field;
      forall k :: k in w.m ==> read.m[k] == ReadAt(ids, paths, below, ChildPath(at, k), w.m[k])
  {
    var read := ReadObject(ids, paths, at, w);
    assert read.Obj? && read.m.Keys == w.m.Keys && forall k :: k in w.m ==> read.m[k] == ReadValue(ids, paths, ChildPath(at, k), w.m[k]);
    if pos.Field? { assert ReadValue(ids, paths, at, w) == read; }
  }

  /** For every schema and every value: the template gives the value back exactly when it fits. */
  lemma {:induction false} ReadsBackExactly(ids: Ids, paths: seq<string>, s: Json, path: string, ignore: set<string>,
    pos: Position, at: string, v: Json)
    requires Ordered(ids)
    ensures ReadAt(ids, paths, pos, at, Encode(ids, s, path, ignore, v)) == v <==> Fits(paths, s, path, ignore, pos, at, v)
    decreases v
  {
    match v
    case Arr(a) =>
      if s.Obj? && IsConverted(s.m, path, ignore) {
        ReadsConvertedBack(ids, paths, s, path, ignore, pos, at, a);
      } else if s.Obj? && ITEMS in s.m && s.m[ITEMS].Obj? {
        var items := EncodeItems(ids, s.m[ITEMS], path, ignore, a);
        forall i | 0 <= i < |a| ensures items[i] == a[i] <==> Fits(paths, s.m[ITEMS], path, ignore, Inside, at, a[i]) {
          ReadsBackExactly(ids, paths, s.m[ITEMS], path, ignore, Inside, at, a[i]);
        }
        assert items == a <==> forall i :: 0 <= i < |a| ==> items[i] == a[i];
        assert Encode(ids, s, path, ignore, v) == Arr(items);
        ReadsListBack(ids, paths, pos, at, items);
      } else {
        assert Encode(ids, s, path, ignore, v) == v;
        ReadsListBack(ids, paths, pos, at, a);
      }
    case Obj(m) => ReadsObjectBack(ids, paths, s, path, ignore, pos, at, m);
    case _ => PlainValue(ids, paths, s, path, ignore, pos, at, v);
  }

  lemma {:induction false} ReadsConvertedBack(ids: Ids, paths: seq<string>, s: Json, path: string, ignore: set<string>,
    pos: Position, at: string, a: seq<Json>)
    requires Ordered(ids) && s.Obj? && IsConverted(s.m, path, ignore)
    ensures ReadAt(ids, paths, pos, at, Encode(ids, s, path, ignore, Arr(a))) == Arr(a) <==> Fits(paths, s, path, ignore, pos, at, Arr(a))
    decreases Arr(a), 0
  {
    var items := EncodeItems(ids, s.m[ITEMS], path, ignore, a);
    var entries := Entries(ids, items);
    assert Encode(ids, s, path, ignore, Arr(a)) == Obj(entries);
    if pos.Field? && at != "" && at in paths {
      EntriesAt(ids, items);
      var keys := ids.sorted(entries.Keys);
      assert |keys| == |items| && forall i :: 0 <= i < |items| ==> keys[i] == ids.id(i);
      var read := ReadValue(ids, paths, at, Obj(entries));
      forall i | 0 <= i < |a| ensures read.a[i] == a[i] <==> Fits(paths, s.m[ITEMS], path, ignore, Entry, at, a[i]) {
        assert read.a[i] == ReadObject(ids, paths, at, items[i]);
        ReadsBackExactly(ids, paths, s.m[ITEMS], path, ignore, Entry, at, a[i]);
      }
      assert read.a == a <==> forall i :: 0 <= i < |a| ==> read.a[i] == a[i];
    } else {
      ReadObjectStays(ids, paths, pos, at, Obj(entries));
    }
  }

  lemma {:induction false} ReadsObjectBack(ids: Ids, paths: seq<string>, s: Json, path: string, ignore: set<string>,
    pos: Position, at: string, m: map<Text, Json>)
    requires Ordered(ids)
    ensures ReadAt(ids, paths, pos, at, Encode(ids, s, path, ignore, Obj(m))) == Obj(m) <==> Fits(paths, s, path, ignore, pos, at, Obj(m))
    decreases Obj(m), 0
  {
    var w := Encode(ids, s, path, ignore, Obj(m));
    EncodedObject(ids, s, path, ignore, m);
    if !(pos.Field? && at != "" && at in paths) {
      var read, below := ReadAt(ids, paths, pos, at, w), if pos.Inside? then Inside else Field;
      ReadObjectStays(ids, paths, pos, at, w);
      forall k | k in m
        ensures read.m[k] == m[k] <==>
          Fits(paths, EntrySchema(s, path, ignore, k), EntryPath(s, path, k), ignore, below, ChildPath(at, k), m[k])
      {
        ReadsBackExactly(ids, paths, EntrySchema(s, path, ignore, k), EntryPath(s, path, k), ignore, below, ChildPath(at, k), m[k]);
      }
      SameEntries(read.m, m);
    }
  }

  lemma SameEntries(a: map<Text, Json>, b: map<Text, Json>)
    requires a.Keys == b.Keys
    ensures a == b <==> forall k :: k in b ==> a[k] == b[k]
  {
    if forall k :: k in b ==> a[k] == b[k] { assert forall k :: k in a ==> k in b.Keys; }
  }

  // ----- names -----

  function WordOf(s: string, i: nat): Text
    decreases |SPELLINGS| - i
  {
    if i >= |SPELLINGS| then Other(s) else if SPELLINGS[i] == s then Word(i) else WordOf(s, i + 1)
  }

  /** The name has no dot, and is the one text of its spelling. */
  predicate GoodName(k: Text) {
    DotFree(Spell(k)) && WordOf(Spell(k), 0) == k
  }

  /** The names of a value, as far as no list comes between. */
  ghost predicate OutNames(w: Json) {
    w.Obj? ==> forall k :: k in w.m ==> GoodName(k) && OutNames(w.m[k])
  }

  /** The names of a value, the ids of converted lists aside. */
  ghost predicate NamesReadable(s: Json, path: string, ignore: set<string>, x: Json)
    decreases x
  {
    var converted := s.Obj? && IsConverted(s.m, path, ignore);
    match x
    case Obj(m) =>
      forall k :: k in m ==>
        if converted then NamesReadable(s.m[ITEMS], path, ignore, m[k])
        else GoodName(k) && if s.Obj? && k in Named(s.m) then NamesReadable(s.m[PROPERTIES].m[k], ChildPath(path, k), ignore, m[k]) else OutNames(m[k])
    case Arr(a) => converted ==> forall i :: 0 <= i < |a| ==> NamesReadable(s.m[ITEMS], path, ignore, a[i])
    case _ => true
  }

  // ----- where the schema converts -----

  ghost predicate NoneConverted(s: Json, path: string, ignore: set<string>)
    decreases s
  {
    var none := s.Obj? ==>
      && !IsConverted(s.m, path, ignore)
      && (forall name :: name in Named(s.m) ==> NoneConverted(s.m[PROPERTIES].m[name], ChildPath(path, name), ignore))
      && (ADDITIONAL_PROPERTIES in s.m ==> NoneConverted(s.m[ADDITIONAL_PROPERTIES], path, ignore))
      && (ITEMS in s.m ==> NoneConverted(s.m[ITEMS], path, ignore));
    none
  }

  /** Every converted node is reached through properties and the items of converted nodes only, with a
      property between any two of them, and is not the root. `entry`: the node describes the items of
      a converted node. */
  ghost predicate Routed(s: Json, path: string, ignore: set<string>, entry: bool)
    decreases s
  {
    var routed := s.Obj? ==>
      if IsConverted(s.m, path, ignore) then !entry && path != "" && Routed(s.m[ITEMS], path, ignore, true)
      else
        && (forall name :: name in Named(s.m) ==>
              GoodName(name) && Routed(s.m[PROPERTIES].m[name], ChildPath(path, name), ignore, false))
        && (ADDITIONAL_PROPERTIES in s.m ==> NoneConverted(s.m[ADDITIONAL_PROPERTIES], path, ignore))
        && (ITEMS in s.m ==> NoneConverted(s.m[ITEMS], path, ignore));
    routed
  }

  /** A node at q is converted. */
  ghost predicate ConvertedAt(s: Json, path: string, ignore: set<string>, q: string)
    decreases s
  {
    var at := s.Obj? &&
      (|| (path == q && IsConverted(s.m, path, ignore))
       || (exists name :: name in Named(s.m) && ConvertedAt(s.m[PROPERTIES].m[name], ChildPath(path, name), ignore, q))
       || (ADDITIONAL_PROPERTIES in s.m && ConvertedAt(s.m[ADDITIONAL_PROPERTIES], path, ignore, q))
       || (ITEMS in s.m && ConvertedAt(s.m[ITEMS], path, ignore, q)));
    at
  }

  lemma {:induction false} NodeIsConverted(s: Json, path: string, ignore: set<string>, q: string, m: Keywords)
    requires Plain(s, path, ignore) && NodeAt(s, path, q, m) && q !in ignore && Convertible(m)
    ensures ConvertedAt(s, path, ignore, q)
    decreases s
  {
    NodeIsBelow(s, path, q, m);
    if !(q == path && m == s.m) {
      PlainHasNoPatterns(s.m, IsConverted(s.m, path, ignore));
      var k :| k in s.m && NodeBelow(s, k, path, q, m);
      if k == PROPERTIES {
        var name :| name in s.m[k].m && NodeAt(s.m[k].m[name], ChildPath(path, name), q, m);
        NodeIsConverted(s.m[k].m[name], ChildPath(path, name), ignore, q, m);
      } else {
        NodeIsConverted(s.m[k], path, ignore, q, m);
      }
    }
  }

  lemma {:induction false} ConvertedIsNode(s: Json, path: string, ignore: set<string>, q: string) returns (m: Keywords)
    requires Plain(s, path, ignore) && ConvertedAt(s, path, ignore, q)
    ensures NodeAt(s, path, q, m) && q !in ignore && Convertible(m)
    decreases s
  {
    if path == q && IsConverted(s.m, path, ignore) {
      m := s.m;
    } else if name :| name in Named(s.m) && ConvertedAt(s.m[PROPERTIES].m[name], ChildPath(path, name), ignore, q) {
      m := ConvertedIsNode(s.m[PROPERTIES].m[name], ChildPath(path, name), ignore, q);
      assert NodeBelow(s, PROPERTIES, path, q, m);
      BelowIsNode(s, PROPERTIES, path, q, m);
    } else {
      var k := if ADDITIONAL_PROPERTIES in s.m && ConvertedAt(s.m[ADDITIONAL_PROPERTIES], path, ignore, q) then ADDITIONAL_PROPERTIES else ITEMS;
      m := ConvertedIsNode(s.m[k], path, ignore, q);
    }
  }

  /** The reported paths are those at which the schema has a converted node. */
  lemma ReportedIsConverted(paths: seq<string>, s: Json, ignore: set<string>, q: string)
    requires Plain(s, "", ignore) && Reports(paths, s, ignore)
    ensures q in paths <==> ConvertedAt(s, "", ignore, q)
  {
    if q in paths {
      var m :| NodeAt(s, "", q, m) && ListsObjects(m);
      ConvertibleListsObjects(m);
      NodeIsConverted(s, "", ignore, q, m);
    }
    if ConvertedAt(s, "", ignore, q) {
      var m := ConvertedIsNode(s, "", ignore, q);
      ConvertibleListsObjects(m);
    }
  }

  lemma {:induction false} NoneIsConvertedAt(s: Json, path: string, ignore: set<string>, q: string)
    requires NoneConverted(s, path, ignore)
    ensures !ConvertedAt(s, path, ignore, q)
    decreases s
  {
    if s.Obj? {
      forall name | name in Named(s.m) ensures !ConvertedAt(s.m[PROPERTIES].m[name], ChildPath(path, name), ignore, q) {
        NoneIsConvertedAt(s.m[PROPERTIES].m[name], ChildPath(path, name), ignore, q);
      }
      if ADDITIONAL_PROPERTIES in s.m { NoneIsConvertedAt(s.m[ADDITIONAL_PROPERTIES], path, ignore, q); }
      if ITEMS in s.m { NoneIsConvertedAt(s.m[ITEMS], path, ignore, q); }
    }
  }

  /** On such a schema a path leads one way only: from a node that is not converted, through the one
      property whose name it has. */
  lemma ConvertedBelowName(s: Json, path: string, ignore: set<string>, entry: bool, k: Text, q: string)
    requires s.Obj? && Plain(s, path, ignore) && Routed(s, path, ignore, entry) && !IsConverted(s.m, path, ignore)
    requires GoodName(k) && Reaches(ChildPath(path, k), q)
    ensures ConvertedAt(s, path, ignore, q) <==>
      k in Named(s.m) && ConvertedAt(s.m[PROPERTIES].m[k], ChildPath(path, k), ignore, q)
  {
    if ADDITIONAL_PROPERTIES in s.m { NoneIsConvertedAt(s.m[ADDITIONAL_PROPERTIES], path, ignore, q); }
    if ITEMS in s.m { NoneIsConvertedAt(s.m[ITEMS], path, ignore, q); }
    if name :| name in Named(s.m) && ConvertedAt(s.m[PROPERTIES].m[name], ChildPath(path, name), ignore, q) {
      ConvertedIsBelow(s.m[PROPERTIES].m[name], ChildPath(path, name), ignore, false, q);
      OneNameLeads(path, name, k, q);
    }
  }

  lemma {:induction false} ConvertedIsBelow(s: Json, path: string, ignore: set<string>, entry: bool, q: string)
    requires Plain(s, path, ignore) && Routed(s, path, ignore, entry) && ConvertedAt(s, path, ignore, q)
    ensures Reaches(path, q)
    ensures s.Obj? && !IsConverted(s.m, path, ignore) ==> q != path
    ensures entry ==> q != path
    decreases s
  {
    if IsConverted(s.m, path, ignore) {
      if path != q { ConvertedIsBelow(s.m[ITEMS], path, ignore, true, q); }
    } else {
      if ADDITIONAL_PROPERTIES in s.m { NoneIsConvertedAt(s.m[ADDITIONAL_PROPERTIES], path, ignore, q); }
      if ITEMS in s.m { NoneIsConvertedAt(s.m[ITEMS], path, ignore, q); }
      var name :| name in Named(s.m) && ConvertedAt(s.m[PROPERTIES].m[name], ChildPath(path, name), ignore, q);
      ConvertedIsBelow(s.m[PROPERTIES].m[name], ChildPath(path, name), ignore, false, q);
      ReachesUp(path, name, q);
    }
  }

  // ----- reading by paths is restoring by the schema -----

  /** Below a path, the reported paths are those where the schema converts. */
  ghost predicate Agrees(paths: seq<string>, s: Json, path: string, ignore: set<string>, entry: bool) {
    var agrees := forall q :: Reaches(path, q) && !(entry && q == path) ==> (q in paths <==> ConvertedAt(s, path, ignore, q));
    agrees
  }

  lemma PropertyAgrees(paths: seq<string>, s: Json, path: string, ignore: set<string>, entry: bool, k: Text)
    requires s.Obj? && Plain(s, path, ignore) && Routed(s, path, ignore, entry) && !IsConverted(s.m, path, ignore)
    requires Agrees(paths, s, path, ignore, entry) && GoodName(k)
    ensures k in Named(s.m) ==> Agrees(paths, s.m[PROPERTIES].m[k], ChildPath(path, k), ignore, false)
    ensures k !in Named(s.m) ==> NothingBelow(paths, ChildPath(path, k))
  {
    forall q | Reaches(ChildPath(path, k), q)
      ensures q in paths <==> k in Named(s.m) && ConvertedAt(s.m[PROPERTIES].m[k], ChildPath(path, k), ignore, q)
    {
      ReachesUp(path, k, q);
      ConvertedBelowName(s, path, ignore, entry, k, q);
    }
  }

  lemma NothingBelowNoNode(paths: seq<string>, s: Json, path: string, ignore: set<string>, entry: bool, k: Text)
    requires !s.Obj? && Agrees(paths, s, path, ignore, entry) && GoodName(k)
    ensures NothingBelow(paths, ChildPath(path, k))
  {
    forall q | Reaches(ChildPath(path, k), q) ensures q !in paths { ReachesUp(path, k, q); }
  }

  lemma ItemsAgree(paths: seq<string>, s: Json, path: string, ignore: set<string>)
    requires s.Obj? && Plain(s, path, ignore) && Routed(s, path, ignore, false) && IsConverted(s.m, path, ignore)
    requires Agrees(paths, s, path, ignore, false)
    ensures path != "" && path in paths && Agrees(paths, s.m[ITEMS], path, ignore, true)
  {
    assert Reaches(path, path);
  }

  lemma PathIsNotReported(paths: seq<string>, s: Json, path: string, ignore: set<string>)
    requires Plain(s, path, ignore) && Routed(s, path, ignore, false) && !(s.Obj? && IsConverted(s.m, path, ignore))
    requires Agrees(paths, s, path, ignore, false)
    ensures path !in paths
  {
    assert Reaches(path, path);
    if ConvertedAt(s, path, ignore, path) { ConvertedIsBelow(s, path, ignore, false, path); }
  }

  ghost predicate NothingBelow(paths: seq<string>, path: string) {
    forall q :: Reaches(path, q) ==> q !in paths
  }

  lemma {:induction false} ReadsNothing(ids: Ids, paths: seq<string>, path: string, w: Json)
    requires NothingBelow(paths, path) && OutNames(w)
    ensures ReadValue(ids, paths, path, w) == w
    decreases w
  {
    assert Reaches(path, path);
    if w.Obj? {
      forall k | k in w.m ensures ReadValue(ids, paths, ChildPath(path, k), w.m[k]) == w.m[k] {
        forall q | Reaches(ChildPath(path, k), q) ensures Reaches(path, q) { ReachesUp(path, k, q); }
        ReadsNothing(ids, paths, ChildPath(path, k), w.m[k]);
      }
      ReadObjectStays(ids, paths, Field, path, w);
      SameEntries(ReadValue(ids, paths, path, w).m, w.m);
    } else if w.Arr? {
      ReadsListBack(ids, paths, Field, path, w.a);
    } else {
      assert ReadObject(ids, paths, path, w) == w;
    }
  }

  /** Where nothing is converted, nothing is encoded or restored. */
  lemma {:induction false} NothingToRestore(ids: Ids, s: Json, path: string, ignore: set<string>, w: Json)
    requires NoneConverted(s, path, ignore)
    ensures Restore(ids, s, path, ignore, w) == w
    decreases s
  {
    if s.Obj? && w.Obj? {
      forall k | k in w.m ensures RestoreEntry(ids, s, path, ignore, k, w.m[k]) == w.m[k] {
        if k in Named(s.m) {
          NothingToRestore(ids, s.m[PROPERTIES].m[k], ChildPath(path, k), ignore, w.m[k]);
        } else if ADDITIONAL_PROPERTIES in s.m {
          NothingToRestore(ids, s.m[ADDITIONAL_PROPERTIES], path, ignore, w.m[k]);
        }
      }
      SameEntries(Restore(ids, s, path, ignore, w).m, w.m);
    } else if s.Obj? && w.Arr? && ITEMS in s.m && s.m[ITEMS].Obj? {
      forall i | 0 <= i < |w.a| ensures Restore(ids, s.m[ITEMS], path, ignore, w.a[i]) == w.a[i] {
        NothingToRestore(ids, s.m[ITEMS], path, ignore, w.a[i]);
      }
      assert Restore(ids, s, path, ignore, w).a == w.a;
    }
  }

  lemma {:induction false} NothingToEncode(ids: Ids, s: Json, path: string, ignore: set<string>, v: Json)
    requires NoneConverted(s, path, ignore)
    ensures Encode(ids, s, path, ignore, v) == v
    decreases s
  {
    if s.Obj? && v.Obj? {
      forall k | k in v.m ensures EncodeEntry(ids, s, path, ignore, k, v.m[k]) == v.m[k] {
        if k in Named(s.m) {
          NothingToEncode(ids, s.m[PROPERTIES].m[k], ChildPath(path, k), ignore, v.m[k]);
        } else if ADDITIONAL_PROPERTIES in s.m {
          NothingToEncode(ids, s.m[ADDITIONAL_PROPERTIES], path, ignore, v.m[k]);
        }
      }
      SameEntries(Encode(ids, s, path, ignore, v).m, v.m);
    } else if s.Obj? && v.Arr? && ITEMS in s.m && s.m[ITEMS].Obj? {
      forall i | 0 <= i < |v.a| ensures Encode(ids, s.m[ITEMS], path, ignore, v.a[i]) == v.a[i] {
        NothingToEncode(ids, s.m[ITEMS], path, ignore, v.a[i]);
      }
      assert Encode(ids, s, path, ignore, v).a == v.a;
    }
  }

  /** With the reported paths the template does what the schema says. */
  lemma {:induction false} ReadsAsRestored(ids: Ids, paths: seq<string>, s: Json, path: string, ignore: set<string>, entry: bool, w: Json)
    requires Plain(s, path, ignore) && Routed(s, path, ignore, entry) && Agrees(paths, s, path, ignore, entry)
    requires NamesReadable(s, path, ignore, w)
    ensures ReadAt(ids, paths, if entry then Entry else Field, path, w) == Restore(ids, s, path, ignore, w)
    decreases w
  {
    if w.Obj? {
      if s.Obj? && IsConverted(s.m, path, ignore) {
        ReadsConverted(ids, paths, s, path, ignore, w);
      } else {
        ReadsKept(ids, paths, s, path, ignore, entry, w);
      }
    } else if w.Arr? {
      ReadsListBack(ids, paths, if entry then Entry else Field, path, w.a);
      RestoresList(ids, s, path, ignore, entry, w);
    } else {
      assert ReadObject(ids, paths, path, w) == w && ReadValue(ids, paths, path, w) == w;
    }
  }

  lemma RestoresList(ids: Ids, s: Json, path: string, ignore: set<string>, entry: bool, w: Json)
    requires Routed(s, path, ignore, entry) && w.Arr?
    ensures Restore(ids, s, path, ignore, w) == w
  {
    if s.Obj? && !IsConverted(s.m, path, ignore) && ITEMS in s.m && s.m[ITEMS].Obj? {
      forall i | 0 <= i < |w.a| ensures Restore(ids, s.m[ITEMS], path, ignore, w.a[i]) == w.a[i] {
        NothingToRestore(ids, s.m[ITEMS], path, ignore, w.a[i]);
      }
      assert Restore(ids, s, path, ignore, w).a == w.a;
    }
  }

  lemma {:induction false} ReadsConverted(ids: Ids, paths: seq<string>, s: Json, path: string, ignore: set<string>, w: Json)
    requires Plain(s, path, ignore) && Routed(s, path, ignore, false) && Agrees(paths, s, path, ignore, false)
    requires NamesReadable(s, path, ignore, w) && w.Obj? && s.Obj? && IsConverted(s.m, path, ignore)
    ensures ReadValue(ids, paths, path, w) == Restore(ids, s, path, ignore, w)
    decreases w, 0
  {
    ItemsAgree(paths, s, path, ignore);
    var read, restored := ReadValue(ids, paths, path, w), Restore(ids, s, path, ignore, w);
    forall k | k in w.m ensures ReadObject(ids, paths, path, w.m[k]) == Restore(ids, s.m[ITEMS], path, ignore, w.m[k]) {
      ReadsAsRestored(ids, paths, s.m[ITEMS], path, ignore, true, w.m[k]);
    }
    assert read.a == restored.a;
  }

  lemma {:induction false} ReadsKept(ids: Ids, paths: seq<string>, s: Json, path: string, ignore: set<string>, entry: bool, w: Json)
    requires Plain(s, path, ignore) && Routed(s, path, ignore, entry) && Agrees(paths, s, path, ignore, entry)
    requires NamesReadable(s, path, ignore, w) && w.Obj? && !(s.Obj? && IsConverted(s.m, path, ignore))
    ensures ReadAt(ids, paths, if entry then Entry else Field, path, w) == Restore(ids, s, path, ignore, w)
    decreases w, 0
  {
    var pos := if entry then Entry else Field;
    if !entry { PathIsNotReported(paths, s, path, ignore); }
    ReadObjectStays(ids, paths, pos, path, w);
    RestoresEntries(ids, s, path, ignore, w);
    forall k | k in w.m
      ensures ReadValue(ids, paths, ChildPath(path, k), w.m[k]) == if s.Obj? then RestoreEntry(ids, s, path, ignore, k, w.m[k]) else w.m[k]
    {
      if !s.Obj? {
        NothingBelowNoNode(paths, s, path, ignore, entry, k);
        ReadsNothing(ids, paths, ChildPath(path, k), w.m[k]);
      } else {
        PropertyAgrees(paths, s, path, ignore, entry, k);
        if k in Named(s.m) {
          ReadsAsRestored(ids, paths, s.m[PROPERTIES].m[k], ChildPath(path, k), ignore, false, w.m[k]);
        } else {
          ReadsNothing(ids, paths, ChildPath(path, k), w.m[k]);
          if ADDITIONAL_PROPERTIES in s.m { NothingToRestore(ids, s.m[ADDITIONAL_PROPERTIES], path, ignore, w.m[k]); }
        }
      }
    }
    SameEntries(ReadAt(ids, paths, pos, path, w).m, Restore(ids, s, path, ignore, w).m);
  }

  lemma RestoresEntries(ids: Ids, s: Json, path: string, ignore: set<string>, w: Json)
    requires w.Obj? && !(s.Obj? && IsConverted(s.m, path, ignore))
    ensures Restore(ids, s, path, ignore, w).Obj? && Restore(ids, s, path, ignore, w).m.Keys == w.m.Keys
    ensures forall k :: k in w.m ==>
      Restore(ids, s, path, ignore, w).m[k] == if s.Obj? then RestoreEntry(ids, s, path, ignore, k, w.m[k]) else w.m[k]
  {
  }

  // ----- the round trip -----

  lemma {:induction false} EncodedNames(ids: Ids, s: Json, path: string, ignore: set<string>, entry: bool, v: Json)
    requires Ordered(ids) && Routed(s, path, ignore, entry) && NamesReadable(s, path, ignore, v)
    ensures NamesReadable(s, path, ignore, Encode(ids, s, path, ignore, v))
    decreases v
  {
    if v.Arr? && s.Obj? && IsConverted(s.m, path, ignore) {
      var items := EncodeItems(ids, s.m[ITEMS], path, ignore, v.a);
      EntriesAt(ids, items);
      forall k | k in Entries(ids, items) ensures NamesReadable(s.m[ITEMS], path, ignore, Entries(ids, items)[k]) {
        var i :| 0 <= i < |items| && k == ids.id(i);
        EncodedNames(ids, s.m[ITEMS], path, ignore, true, v.a[i]);
      }
    } else if v.Obj? && s.Obj? && !IsConverted(s.m, path, ignore) {
      var w := Encode(ids, s, path, ignore, v);
      forall k | k in v.m
        ensures if k in Named(s.m) then NamesReadable(s.m[PROPERTIES].m[k], ChildPath(path, k), ignore, w.m[k]) else OutNames(w.m[k])
      {
        assert w.m[k] == EncodeEntry(ids, s, path, ignore, k, v.m[k]);
        if k in Named(s.m) {
          EncodedNames(ids, s.m[PROPERTIES].m[k], ChildPath(path, k), ignore, false, v.m[k]);
        } else if ADDITIONAL_PROPERTIES in s.m {
          NothingToEncode(ids, s.m[ADDITIONAL_PROPERTIES], path, ignore, v.m[k]);
        }
      }
    }
  }

  lemma ReportsAgree(paths: seq<string>, s: Json, ignore: set<string>)
    requires Plain(s, "", ignore) && Reports(paths, s, ignore)
    ensures Agrees(paths, s, "", ignore, false)
  {
    forall q { ReportedIsConverted(paths, s, ignore, q); }
  }

  /** The template gives back every accepted value of readable names. */
  lemma RoundTrip(o: Oracle, ids: Ids, paths: seq<string>, s: Json, ignore: set<string>, v: Json)
    requires Ordered(ids) && Plain(s, "", ignore) && Routed(s, "", ignore, false) && Reports(paths, s, ignore)
    requires Valid(o, s, v) && NamesReadable(s, "", ignore, v)
    ensures ReadValue(ids, paths, "", Encode(ids, s, "", ignore, v)) == v
  {
    ReportsAgree(paths, s, ignore);
    EncodedNames(ids, s, "", ignore, false, v);
    ReadsAsRestored(ids, paths, s, "", ignore, false, Encode(ids, s, "", ignore, v));
    RestoreUndoes(o, ids, s, "", ignore, v);
  }

  /** What it reads from a value that the converted schema accepts is accepted by the schema, the
      dropped counts aside. */
  lemma ReadIsAccepted(o: Oracle, ids: Ids, paths: seq<string>, s: Json, ignore: set<string>, w: Json)
    requires Ordered(ids) && Plain(s, "", ignore) && Routed(s, "", ignore, false) && Reports(paths, s, ignore)
    requires NoneDistinct(s, "", ignore) && Valid(o, Convert(s, "", ignore), w) && NamesReadable(s, "", ignore, w)
    ensures Valid(o, Loosen(s, "", ignore), ReadValue(ids, paths, "", w))
  {
    ReportsAgree(paths, s, ignore);
    ReadsAsRestored(ids, paths, s, "", ignore, false, w);
    RestoredValueAccepted(o, ids, s, "", ignore, w);
  }
}
