/** Filling environment variables into values, one variable after the other
    (kubeBootstrapOld.go, substituteEnvInStructure). */
module Substitution {
  import opened Collections
  import opened Strings

  datatype Structure = Map(entries: map<string, Structure>) | List(items: seq<Structure>) | Str(text: string) | Other(code: nat)

  type Envs = map<string, string>

  function Placeholder(name: string): string {
    "${" + name + "}"
  }

  // ----- one variable after the other -----

  function SubstituteOne(s: string, envs: Envs, name: string): string {
    if name == "" || name !in envs then s else ReplaceAll(s, Placeholder(name), envs[name])
  }

  function InOrder(s: string, envs: Envs, order: seq<string>): string
    decreases |order|
  {
    if order == [] then s else SubstituteOne(InOrder(s, envs, order[..|order| - 1]), envs, order[|order| - 1])
  }

  /** Every variable once. */
  ghost predicate Enumerates(order: seq<string>, envs: Envs) {
    (forall name :: name in order <==> name in envs) && NoRepeat(order)
  }

  /** The same shape; in each text the variables were filled in, in some order. */
  ghost predicate Substituted(v: Structure, r: Structure, envs: Envs)
    decreases v
  {
    match v
    case Map(entries) =>
      && r.Map? && r.entries.Keys == entries.Keys
      && forall k :: k in entries ==> Substituted(entries[k], r.entries[k], envs)
    case List(items) =>
      && r.List? && |r.items| == |items|
      && forall i :: 0 <= i < |items| ==> Substituted(items[i], r.items[i], envs)
    case Str(text) =>
      r.Str? && exists order :: Enumerates(order, envs) && r.text == InOrder(text, envs, order)
    case Other(_) => r == v
  }

  method SubstituteEnvInStructure(value: Structure, envs: Envs) returns (r: Structure)
    ensures Substituted(value, r, envs)
    decreases value
  {
    match value {
      case Map(entries) =>
        var res: map<string, Structure>, left := map[], entries.Keys;
        while left != {}
          invariant left <= entries.Keys && res.Keys == entries.Keys - left
          invariant forall k :: k in res ==> Substituted(entries[k], res[k], envs)
          decreases left
        {
          var k :| k in left;
          var val := SubstituteEnvInStructure(entries[k], envs);
          res, left := res[k := val], left - {k};
        }
        r := Map(res);
      case List(items) =>
        var res: seq<Structure> := [];
        for i := 0 to |items|
          invariant |res| == i
          invariant forall j :: 0 <= j < i ==> Substituted(items[j], res[j], envs)
        {
          var val := SubstituteEnvInStructure(items[i], envs);
          res := res + [val];
        }
        r := List(res);
      case Str(text) =>
        var res := SubstituteText(text, envs);
        r := Str(res);
      case Other(_) =>
        r := value;
    }
  }

  method SubstituteText(text: string, envs: Envs) returns (res: string)
    ensures exists order :: Enumerates(order, envs) && res == InOrder(text, envs, order)
  {
    res := text;
    var left := envs.Keys;
    ghost var order: seq<string> := [];
    while left != {}
      invariant left <= envs.Keys && res == InOrder(text, envs, order)
      invariant forall name :: name in order <==> name in envs.Keys - left
      invariant NoRepeat(order)
      decreases left
    {
      var k :| k in left;
      assert k !in order;
      left := left - {k};
      assert (order + [k])[..|order|] == order;
      order := order + [k];
      if k == "" {
        continue;
      }
      var placeholder := "${" + k + "}";
      if Contains(res, placeholder) {
        res := ReplaceAll(res, placeholder, envs[k]);
      } else {
        NothingToReplace(res, placeholder, envs[k]);
      }
    }
  }

  function Contains(s: string, p: string): bool
    decreases |s|
  {
    Prefix(p, s) || (s != "" && Contains(s[1..], p))
  }

  lemma {:induction false} NothingToReplace(s: string, p: string, new_: string)
    requires p != "" && !Contains(s, p)
    ensures ReplaceAll(s, p, new_) == s
    decreases |s|
  {
    if s != "" { NothingToReplace(s[1..], p, new_); }
  }

  // ----- all variables at once -----

  datatype Segment = Lit(text: string) | Hole(name: string)

  function Shown(seg: Segment): string {
    match seg
    case Lit(text) => text
    case Hole(name) => Placeholder(name)
  }

  function Render(segs: seq<Segment>): string
    decreases |segs|
  {
    if segs == [] then "" else Shown(segs[0]) + Render(segs[1..])
  }

  /** The length of the text before the first closing brace, or of the whole text. */
  function UpToBrace(s: string): (n: nat)
    ensures n <= |s| && (forall i :: 0 <= i < n ==> s[i] != '}') && (n < |s| ==> s[n] == '}')
    decreases |s|
  {
    if s == "" || s[0] == '}' then 0 else 1 + UpToBrace(s[1..])
  }

  function Parse(s: string): seq<Segment>
    decreases |s|
  {
    if s == "" then []
    else if Prefix("${", s) && UpToBrace(s[2..]) < |s| - 2 then
      var n := UpToBrace(s[2..]);
      [Hole(s[2..][..n])] + Parse(s[n + 3..])
    else [Lit([s[0]])] + Parse(s[1..])
  }

  function FillSegment(seg: Segment, envs: Envs): Segment {
    if seg.Hole? && seg.name != "" && seg.name in envs then Lit(envs[seg.name]) else seg
  }

  function Fill(segs: seq<Segment>, envs: Envs): (r: seq<Segment>)
    ensures |r| == |segs| && forall i :: 0 <= i < |segs| ==> r[i] == FillSegment(segs[i], envs)
  {
    seq(|segs|, i requires 0 <= i < |segs| => FillSegment(segs[i], envs))
  }

  function FillText(s: string, envs: Envs): string {
    Render(Fill(Parse(s), envs))
  }

  function FillStructure(v: Structure, envs: Envs): Structure
    decreases v
  {
    match v
    case Map(entries) => Map(map k | k in entries :: FillStructure(entries[k], envs))
    case List(items) => List(seq(|items|, i requires 0 <= i < |items| => FillStructure(items[i], envs)))
    case Str(text) => Str(FillText(text, envs))
    case Other(_) => v
  }

  // ----- when the two agree -----

  predicate Free(s: string, c: char) {
    forall i :: 0 <= i < |s| ==> s[i] != c
  }

  /** Dollar signs begin holes and stand nowhere else. */
  predicate CleanSegment(seg: Segment) {
    match seg
    case Lit(text) => Free(text, '$')
    case Hole(name) => Free(name, '$') && Free(name, '}')
  }

  predicate Clean(segs: seq<Segment>) {
    forall i :: 0 <= i < |segs| ==> CleanSegment(segs[i])
  }

  predicate CleanEnvs(envs: Envs) {
    forall name :: name in envs ==> Free(name, '}') && Free(envs[name], '$')
  }

  predicate Template(s: string) {
    Clean(Parse(s))
  }

  predicate TemplateStructure(v: Structure)
    decreases v
  {
    match v
    case Map(entries) => forall k :: k in entries ==> TemplateStructure(entries[k])
    case List(items) => forall i :: 0 <= i < |items| ==> TemplateStructure(items[i])
    case Str(text) => Template(text)
    case Other(_) => true
  }

  lemma HoleIsThere(s: string, n: nat)
    requires Prefix("${", s) && n + 2 < |s| && s[n + 2] == '}'
    ensures s == Placeholder(s[2..][..n]) + s[n + 3..]
  {
    assert s == s[..2] + s[2..][..n] + [s[n + 2]] + s[n + 3..];
  }

  lemma {:induction false} ParseRenders(s: string)
    ensures Render(Parse(s)) == s
    decreases |s|
  {
    if s == "" {
    } else if Prefix("${", s) && UpToBrace(s[2..]) < |s| - 2 {
      var n := UpToBrace(s[2..]);
      ParseRenders(s[n + 3..]);
      HoleIsThere(s, n);
    } else {
      ParseRenders(s[1..]);
      assert s == [s[0]] + s[1..];
    }
  }

  /** A text without a dollar sign is passed over. */
  lemma {:induction false} PassOver(t: string, rest: string, name: string, new_: string)
    requires Free(t, '$')
    ensures ReplaceAll(t + rest, Placeholder(name), new_) == t + ReplaceAll(rest, Placeholder(name), new_)
    decreases |t|
  {
    if t == "" {
      assert t + rest == rest;
    } else {
      PassOver(t[1..], rest, name, new_);
      assert (t + rest)[1..] == t[1..] + rest;
      assert t == [t[0]] + t[1..];
      NotHere(t + rest, name);
    }
  }

  lemma NotHere(s: string, name: string)
    requires s != "" && s[0] != '$'
    ensures !Prefix(Placeholder(name), s)
  {
  }

  lemma HoleIsFilled(rest: string, name: string, new_: string)
    ensures ReplaceAll(Placeholder(name) + rest, Placeholder(name), new_) == new_ + ReplaceAll(rest, Placeholder(name), new_)
  {
    var s := Placeholder(name) + rest;
    assert s[..|Placeholder(name)|] == Placeholder(name) && s[|Placeholder(name)|..] == rest;
  }

  lemma OtherHoleStays(hole: string, rest: string, name: string, new_: string)
    requires hole != name && Free(hole, '$') && Free(hole, '}') && Free(name, '}')
    ensures ReplaceAll(Placeholder(hole) + rest, Placeholder(name), new_)
         == Placeholder(hole) + ReplaceAll(rest, Placeholder(name), new_)
  {
    var s, after := Placeholder(hole) + rest, "{" + hole + "}";
    if Prefix(Placeholder(name), s) {
      OneHoleStarts(hole, rest, name);
    }
    assert s[1..] == after + rest;
    PassOver(after, rest, name, new_);
    assert Placeholder(hole) == [s[0]] + after;
  }

  /** Two placeholders begin the same text only if they are the same. */
  lemma OneHoleStarts(hole: string, rest: string, name: string)
    requires Free(hole, '}') && Free(name, '}') && Prefix(Placeholder(name), Placeholder(hole) + rest)
    ensures hole == name
  {
    var s, p := Placeholder(hole) + rest, Placeholder(name);
    assert forall i :: 0 <= i < |p| ==> s[..|p|][i] == s[i] == p[i];
    assert s[|hole| + 2] == '}' && p[|name| + 2] == '}';
    assert forall i :: 0 <= i < |hole| ==> s[i + 2] == hole[i];
    assert forall i :: 0 <= i < |name| ==> p[i + 2] == name[i];
    assert |hole| == |name|;
  }

  /** Replacing one placeholder in a clean text fills the holes of that name and touches nothing else. */
  lemma {:induction false} ReplaceFills(segs: seq<Segment>, name: string, value: string)
    requires Clean(segs) && name != "" && Free(name, '}')
    ensures ReplaceAll(Render(segs), Placeholder(name), value) == Render(Fill(segs, map[name := value]))
    decreases |segs|
  {
    if segs != [] {
      var rest, envs := Render(segs[1..]), map[name := value];
      ReplaceFills(segs[1..], name, value);
      assert Fill(segs, envs)[1..] == Fill(segs[1..], envs);
      match segs[0]
      case Lit(text) => PassOver(text, rest, name, value);
      case Hole(hole) =>
        if hole == name { HoleIsFilled(rest, name, value); } else { OtherHoleStays(hole, rest, name, value); }
    }
  }

  /** The variables of an order. */
  function Restricted(envs: Envs, order: seq<string>): Envs {
    map name | name in envs && name in order :: envs[name]
  }

  lemma {:induction false} InOrderFills(segs: seq<Segment>, envs: Envs, order: seq<string>)
    requires Clean(segs) && CleanEnvs(envs)
    ensures InOrder(Render(segs), envs, order) == Render(Fill(segs, Restricted(envs, order)))
    decreases |order|
  {
    if order == [] {
      assert Fill(segs, Restricted(envs, order)) == segs;
    } else {
      var before, last := order[..|order| - 1], order[|order| - 1];
      InOrderFills(segs, envs, before);
      FillStaysClean(segs, envs, before);
      OneMoreFills(segs, Fill(segs, Restricted(envs, before)), envs, before, last);
      assert before + [last] == order;
    }
  }

  lemma OneMoreFills(segs: seq<Segment>, filled: seq<Segment>, envs: Envs, before: seq<string>, last: string)
    requires filled == Fill(segs, Restricted(envs, before)) && Clean(filled) && CleanEnvs(envs)
    ensures SubstituteOne(Render(filled), envs, last) == Render(Fill(segs, Restricted(envs, before + [last])))
  {
    if last == "" || last !in envs {
      assert filled == Fill(segs, Restricted(envs, before + [last]));
    } else {
      ReplaceFills(filled, last, envs[last]);
      FillOneMore(segs, envs, before, last);
    }
  }

  lemma FillStaysClean(segs: seq<Segment>, envs: Envs, order: seq<string>)
    requires Clean(segs) && CleanEnvs(envs)
    ensures Clean(Fill(segs, Restricted(envs, order)))
  {
  }

  lemma FillOneMore(segs: seq<Segment>, envs: Envs, before: seq<string>, last: string)
    requires last in envs
    ensures Fill(Fill(segs, Restricted(envs, before)), map[last := envs[last]]) == Fill(segs, Restricted(envs, before + [last]))
  {
  }

  /** In a template, every order of the variables fills all the known holes at once. */
  lemma AnyOrderFills(s: string, envs: Envs, order: seq<string>)
    requires Template(s) && CleanEnvs(envs) && Enumerates(order, envs)
    ensures InOrder(s, envs, order) == FillText(s, envs)
  {
    ParseRenders(s);
    InOrderFills(Parse(s), envs, order);
    assert Restricted(envs, order) == envs;
  }

  /** So the whole structure is filled, whatever orders the maps were gone through in. */
  lemma {:induction false} StructureIsFilled(v: Structure, r: Structure, envs: Envs)
    requires Substituted(v, r, envs) && TemplateStructure(v) && CleanEnvs(envs)
    ensures r == FillStructure(v, envs)
    decreases v
  {
    match v
    case Map(entries) =>
      forall k | k in entries ensures r.entries[k] == FillStructure(entries[k], envs) {
        StructureIsFilled(entries[k], r.entries[k], envs);
      }
    case List(items) =>
      forall i | 0 <= i < |items| ensures r.items[i] == FillStructure(items[i], envs) {
        StructureIsFilled(items[i], r.items[i], envs);
      }
    case Str(text) =>
      var order :| Enumerates(order, envs) && r.text == InOrder(text, envs, order);
      AnyOrderFills(text, envs, order);
    case Other(_) =>
  }

  lemma OneHoleIsTemplate()
    ensures Template(Placeholder("A"))
  {
    var s := Placeholder("A");
    assert s == "${A}" && s[..2] == "${" && s[2..] == "A}" && s[4..] == "";
    assert "A}"[1..] == "}" && UpToBrace("}") == 0;
    assert UpToBrace("A}") == 1 && "A}"[..1] == "A";
    assert Parse(s) == [Hole("A")];
  }

  lemma OneHoleAlone(envs: Envs, hole: string, name: string)
    requires name in envs && name != "" && Free(hole, '$') && Free(hole, '}') && Free(name, '}')
    ensures SubstituteOne(Placeholder(hole), envs, name) == if hole == name then envs[name] else Placeholder(hole)
  {
    assert Placeholder(hole) + "" == Placeholder(hole);
    if hole == name { HoleIsFilled("", name, envs[name]); } else { OtherHoleStays(hole, "", name, envs[name]); }
  }

  lemma TwoInOrder(s: string, envs: Envs, a: string, b: string)
    ensures InOrder(s, envs, [a, b]) == SubstituteOne(SubstituteOne(s, envs, a), envs, b)
  {
    assert [a, b][..1] == [a] && [a][..0] == [];
    assert InOrder(s, envs, [a]) == SubstituteOne(InOrder(s, envs, []), envs, a);
  }

  /** a holds a hole for b: filled first, the hole is filled in turn; filled last, it stays. */
  lemma OrderShows(envs: Envs, a: string, b: string)
    requires a in envs && b in envs && a != b && a != "" && b != "" && envs[a] == Placeholder(b)
    requires Free(a, '$') && Free(a, '}') && Free(b, '$') && Free(b, '}')
    ensures InOrder(Placeholder(a), envs, [a, b]) == envs[b]
    ensures InOrder(Placeholder(a), envs, [b, a]) == Placeholder(b)
  {
    OneHoleAlone(envs, a, a);
    OneHoleAlone(envs, a, b);
    OneHoleAlone(envs, b, b);
    TwoInOrder(Placeholder(a), envs, a, b);
    TwoInOrder(Placeholder(a), envs, b, a);
  }

  ghost predicate OrderMatters(s: string, envs: Envs, p: seq<string>, q: seq<string>) {
    Template(s) && Enumerates(p, envs) && Enumerates(q, envs) && InOrder(s, envs, p) != InOrder(s, envs, q)
  }

  /** So a dollar sign in a value can make the result depend on the order. */
  lemma DollarShowsTheOrder()
    ensures exists s, envs, p, q :: OrderMatters(s, envs, p, q)
  {
    var envs := map["A" := Placeholder("B"), "B" := "x"];
    OneHoleIsTemplate();
    OrderShows(envs, "A", "B");
    assert Enumerates(["A", "B"], envs) && Enumerates(["B", "A"], envs);
    assert |envs["B"]| != |Placeholder("B")|;
    assert OrderMatters(Placeholder("A"), envs, ["A", "B"], ["B", "A"]);
  }
}
