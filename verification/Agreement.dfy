/** When two nodes accept the same value. */
module Agreement {
  import opened Json
  import opened Schema
  import opened Walk

  /** Both nodes list the same names and patterns. */
  ghost predicate SameNames(o: Oracle, m: Keywords, n: Keywords) {
    Named(m) == Named(n) && forall name :: PatternNamed(o, m, name) == PatternNamed(o, n, name)
  }

  /** What keyword k holds, in m and in n, agrees on each part of v it is asked about. */
  ghost predicate AgreeAt(o: Oracle, m: Keywords, n: Keywords, k: Text, v: Json)
    requires k in m && k in n
  {
    var a, b := m[k], n[k];
    || a == b
    || (k == PROPERTIES && a.Obj? && b.Obj? && a.m.Keys == b.m.Keys &&
        (v.Obj? ==> forall p :: p in a.m && p in v.m ==> Valid(o, a.m[p], v.m[p]) == Valid(o, b.m[p], v.m[p])))
    || (k == ADDITIONAL_PROPERTIES &&
        (v.Obj? ==> forall p :: p in v.m && p !in Named(m) ==> Valid(o, a, v.m[p]) == Valid(o, b, v.m[p])))
    || (k == ITEMS && !a.Arr? && !b.Arr? &&
        (v.Arr? ==> forall i :: 0 <= i < |v.a| ==> Valid(o, a, v.a[i]) == Valid(o, b, v.a[i])))
    || (IsListing(k) && a.Arr? && b.Arr? && |a.a| == |b.a| &&
        forall i :: 0 <= i < |a.a| ==> Valid(o, a.a[i], v) == Valid(o, b.a[i], v))
  }

  /** A keyword means the same in any two nodes that hold it and list the same names. */
  lemma SameKeyword(o: Oracle, m: Keywords, n: Keywords, k: Text, v: Json)
    requires k in m && k in n && m[k] == n[k] && (k == ADDITIONAL_PROPERTIES ==> SameNames(o, m, n))
    ensures KeywordOk(o, Obj(m), k, v) == KeywordOk(o, Obj(n), k, v)
  {
  }

  lemma AgreeKeyword(o: Oracle, m: Keywords, n: Keywords, k: Text, v: Json)
    requires k in m && k in n && AgreeAt(o, m, n, k, v) && SameNames(o, m, n)
    ensures KeywordOk(o, Obj(m), k, v) == KeywordOk(o, Obj(n), k, v)
  {
    if m[k] == n[k] {
      SameKeyword(o, m, n, k, v);
    } else if IsListing(k) {
      AgreeListing(o, m, n, k, v);
    }
  }

  lemma AgreeListing(o: Oracle, m: Keywords, n: Keywords, k: Text, v: Json)
    requires k in m && k in n && IsListing(k) && m[k].Arr? && n[k].Arr? && |m[k].a| == |n[k].a|
    requires forall i :: 0 <= i < |m[k].a| ==> Valid(o, m[k].a[i], v) == Valid(o, n[k].a[i], v)
    ensures KeywordOk(o, Obj(m), k, v) == KeywordOk(o, Obj(n), k, v)
  {
    if k == ONE_OF { AgreeOneOf(o, m, n, v); }
  }

  lemma AgreeOneOf(o: Oracle, m: Keywords, n: Keywords, v: Json)
    requires ONE_OF in m && ONE_OF in n && m[ONE_OF].Arr? && n[ONE_OF].Arr? && |m[ONE_OF].a| == |n[ONE_OF].a|
    requires forall i :: 0 <= i < |m[ONE_OF].a| ==> Valid(o, m[ONE_OF].a[i], v) == Valid(o, n[ONE_OF].a[i], v)
    ensures OneOfOk(o, Obj(m), v) == OneOfOk(o, Obj(n), v)
  {
    if OneOfOk(o, Obj(m), v) { OneOfKept(o, m, n, v); }
    if OneOfOk(o, Obj(n), v) { OneOfKept(o, n, m, v); }
  }

  lemma OneOfKept(o: Oracle, m: Keywords, n: Keywords, v: Json)
    requires ONE_OF in m && ONE_OF in n && m[ONE_OF].Arr? && n[ONE_OF].Arr? && |m[ONE_OF].a| == |n[ONE_OF].a|
    requires forall i :: 0 <= i < |m[ONE_OF].a| ==> Valid(o, m[ONE_OF].a[i], v) == Valid(o, n[ONE_OF].a[i], v)
    requires OneOfOk(o, Obj(m), v)
    ensures OneOfOk(o, Obj(n), v)
  {
    var a, b := m[ONE_OF].a, n[ONE_OF].a;
    var i :| 0 <= i < |a| && Valid(o, a[i], v) && forall j :: 0 <= j < |a| && Valid(o, a[j], v) ==> j == i;
    forall j | 0 <= j < |b| && Valid(o, b[j], v) ensures j == i { assert Valid(o, a[j], v); }
    assert Valid(o, b[i], v);
  }

  /** Two nodes of the same keywords, whose keywords agree, agree. */
  lemma AgreeNodes(o: Oracle, m: Keywords, n: Keywords, v: Json)
    requires m.Keys == n.Keys && SameNames(o, m, n)
    requires forall k :: k in m ==> AgreeAt(o, m, n, k, v)
    ensures Valid(o, Obj(m), v) == Valid(o, Obj(n), v)
  {
    forall k | k in m ensures KeywordOk(o, Obj(m), k, v) == KeywordOk(o, Obj(n), k, v) { AgreeKeyword(o, m, n, k, v); }
    if Valid(o, Obj(m), v) {
      forall k | k in n ensures KeywordOk(o, Obj(n), k, v) { assert KeywordOk(o, Obj(m), k, v); }
    }
    if Valid(o, Obj(n), v) {
      forall k | k in m ensures KeywordOk(o, Obj(m), k, v) { assert KeywordOk(o, Obj(n), k, v); }
    }
  }

  /** A node is a keyword and the rest of it. */
  lemma WithoutKeyword(o: Oracle, m: Keywords, k: Text, v: Json)
    requires k != PROPERTIES && k != PATTERN_PROPERTIES
    ensures Valid(o, Obj(m), v) <==> Valid(o, Obj(m - {k}), v) && (k in m ==> KeywordOk(o, Obj(m), k, v))
  {
    var rest := m - {k};
    forall key | key in rest ensures KeywordOk(o, Obj(rest), key, v) == KeywordOk(o, Obj(m), key, v) {
      SameKeyword(o, m, rest, key, v);
    }
    if Valid(o, Obj(rest), v) && (k in m ==> KeywordOk(o, Obj(m), k, v)) {
      forall key | key in m ensures KeywordOk(o, Obj(m), key, v) {
        assert key in rest ==> KeywordOk(o, Obj(rest), key, v);
      }
    }
  }

  lemma WalkedNames(o: Oracle, s: Json, visit: Visitor)
    requires s.Obj?
    ensures SameNames(o, s.m, WalkChildren(s, visit))
  {
  }

  /** The nodes below s, before and after the walk went through them, agree. */
  ghost predicate WalkAgrees(o: Oracle, s: Json, visit: Visitor, k: Text, v: Json)
    requires s.Obj? && k in s.m
  {
    AgreeAt(o, s.m, WalkChildren(s, visit), k, v)
  }

  lemma AgreeWalked(o: Oracle, s: Json, visit: Visitor, v: Json)
    requires s.Obj? && forall k :: k in s.m ==> WalkAgrees(o, s, visit, k, v)
    ensures Valid(o, s, v) == Valid(o, Obj(WalkChildren(s, visit)), v)
  {
    WalkedNames(o, s, visit);
    AgreeNodes(o, s.m, WalkChildren(s, visit), v);
  }
}
