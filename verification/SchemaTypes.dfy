/** The "type" of a node: one name, or several (helpers.go). */
module SchemaTypes {
  import opened Json
  import opened Schema

  predicate TypeIncludes(m: Keywords, want: Text) {
    TYPE in m && (m[TYPE] == Str(want) || (m[TYPE].Arr? && Str(want) in m[TYPE].a))
  }

  /** The type rules out every value of type t. */
  predicate Excludes(m: Keywords, t: Text) {
    TYPE in m && ((m[TYPE].Str? && m[TYPE].t != t) || (m[TYPE].Arr? && Str(t) !in m[TYPE].a))
  }

  lemma ExcludedIsRejected(o: Oracle, m: Keywords, v: Json)
    requires Valid(o, Obj(m), v)
    ensures Excludes(m, OBJECT) ==> !v.Obj?
    ensures Excludes(m, ARRAY) ==> !v.Arr?
  {
    assert TYPE in m ==> KeywordOk(o, Obj(m), TYPE, v);
  }

  function Renamed(name: Json, from: Text, to: Text): Json {
    if name == Str(from) then Str(to) else name
  }

  function ReplaceType(t: Json, from: Text, to: Text): Json {
    match t
    case Str(_) => Renamed(t, from, to)
    case Arr(names) => Arr(seq(|names|, i requires 0 <= i < |names| => Renamed(names[i], from, to)))
    case _ => t
  }

  method SchemaTypeIncludes(m: Keywords, want: Text) returns (r: bool)
    ensures r == TypeIncludes(m, want)
    ensures r <==> TYPE in m && (m[TYPE] == Str(want) || (m[TYPE].Arr? && exists i :: 0 <= i < |m[TYPE].a| && m[TYPE].a[i] == Str(want)))
  {
    if TYPE !in m {
      return false;
    }
    var t := m[TYPE];
    if t.Str? {
      return t.t == want;
    }
    if t.Arr? {
      for i := 0 to |t.a|
        invariant Str(want) !in t.a[..i]
      {
        if t.a[i] == Str(want) {
          return true;
        }
      }
      assert t.a[..|t.a|] == t.a;
    }
    return false;
  }

  method ReplaceSchemaType(t: Json, from: Text, to: Text) returns (r: Json)
    ensures r == ReplaceType(t, from, to)
    ensures !t.Arr? ==> r == if t == Str(from) then Str(to) else t
    ensures t.Arr? ==> r.Arr? && |r.a| == |t.a|
    ensures t.Arr? ==> forall i :: 0 <= i < |t.a| ==> r.a[i] == if t.a[i] == Str(from) then Str(to) else t.a[i]
  {
    if t.Str? {
      return if t.t == from then Str(to) else t;
    }
    if t.Arr? {
      var out := t.a;
      for i := 0 to |out|
        invariant |out| == |t.a|
        invariant forall j :: 0 <= j < |out| ==> out[j] == if j < i then Renamed(t.a[j], from, to) else t.a[j]
      {
        if out[i] == Str(from) {
          out := out[i := Str(to)];
        }
      }
      return Arr(out);
    }
    return t;
  }

  /** Once arrays are renamed to objects, a value is of the type exactly when it is no array, and
      was of the type, or is an object in the place of an array. */
  lemma ReplacedTypeAccepts(t: Json, v: Json)
    requires t.Str? || t.Arr?
    ensures TypeOk(ReplaceType(t, ARRAY, OBJECT), v) <==> !v.Arr? && (TypeOk(t, v) || (v.Obj? && TypeOk(t, Arr([]))))
  {
    var r := ReplaceType(t, ARRAY, OBJECT);
    if t.Arr? {
      if TypeOk(r, v) {
        var i :| 0 <= i < |r.a| && r.a[i].Str? && HasType(r.a[i].t, v);
        assert r.a[i] == Renamed(t.a[i], ARRAY, OBJECT);
      }
      if !v.Arr? && TypeOk(t, v) {
        var i :| 0 <= i < |t.a| && t.a[i].Str? && HasType(t.a[i].t, v);
        assert r.a[i] == t.a[i];
      }
      if v.Obj? && TypeOk(t, Arr([])) {
        var i :| 0 <= i < |t.a| && t.a[i].Str? && HasType(t.a[i].t, Arr([]));
        assert r.a[i] == Str(OBJECT);
      }
    }
  }
}
