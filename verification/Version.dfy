/** The next version under a prefix of tags (version.go, GenerateIncrementalVersion). */
module Version {
  import opened Collections
  import opened Strings

  const MIN_INT64 := -0x8000_0000_0000_0000
  const MAX_INT64 := 0x7FFF_FFFF_FFFF_FFFF

  /** The numbers of an int on a 64-bit machine. */
  predicate IsInt64(n: int) {
    MIN_INT64 <= n <= MAX_INT64
  }

  /** Addition of one wraps around. */
  function Increment(n: int): int {
    if n == MAX_INT64 then MIN_INT64 else n + 1
  }

  // ----- decimal numbers -----

  function Digit(d: nat): (c: char)
    requires d < 10
    ensures '0' <= c <= '9' && DigitValue(c) == d
  {
    '0' + (d as char)
  }

  function DigitValue(c: char): int {
    c as int - '0' as int
  }

  function PrintNat(n: nat): (s: string)
    ensures s != ""
  {
    if n < 10 then [Digit(n)] else PrintNat(n / 10) + [Digit(n % 10)]
  }

  /** The verb %d. */
  function Print(n: int): string {
    if n < 0 then "-" + PrintNat(-n) else PrintNat(n)
  }

  predicate AllDigits(s: string) {
    forall i :: 0 <= i < |s| ==> '0' <= s[i] <= '9'
  }

  function ParseNat(s: string): (n: int)
    requires AllDigits(s)
    ensures n >= 0
    decreases |s|
  {
    if s == "" then 0 else 10 * ParseNat(s[..|s| - 1]) + DigitValue(s[|s| - 1])
  }

  /** strconv.Atoi: an optional sign, then digits, in the range of an int. */
  function Atoi(s: string): Option<int> {
    var signed := s != "" && (s[0] == '-' || s[0] == '+');
    var body := if signed then s[1..] else s;
    if body == "" || !AllDigits(body) then None
    else
      var n := if signed && s[0] == '-' then -ParseNat(body) else ParseNat(body);
      if IsInt64(n) then Some(n) else None
  }

  lemma {:induction false} ParsePrintedNat(n: nat)
    ensures AllDigits(PrintNat(n)) && ParseNat(PrintNat(n)) == n
    decreases n
  {
    if n < 10 {
      assert [Digit(n)][..0] == "" && ParseNat("") == 0;
    } else {
      ParsePrintedNat(n / 10);
      var s, t := PrintNat(n), PrintNat(n / 10);
      assert s[..|s| - 1] == t && s[|s| - 1] == Digit(n % 10);
    }
  }

  /** Parsing undoes printing. */
  lemma AtoiOfPrint(n: int)
    requires IsInt64(n)
    ensures Atoi(Print(n)) == Some(n)
  {
    ParsePrintedNat(if n < 0 then -n else n);
    if n < 0 {
      assert Print(n)[1..] == PrintNat(-n);
    } else {
      assert '0' <= PrintNat(n)[0] <= '9';
    }
  }

  // ----- the tags -----

  /** The number a tag has behind the prefix. */
  function Number(tag: string, prefix: string): (n: Option<int>)
    ensures n.Some? ==> IsInt64(n.value)
  {
    if Prefix(prefix, tag) then Atoi(tag[|prefix|..]) else None
  }

  function Numbers(tags: seq<string>, prefix: string): (ns: seq<Option<int>>)
    ensures |ns| == |tags| && forall i :: 0 <= i < |tags| ==> ns[i] == Number(tags[i], prefix)
  {
    seq(|tags|, i requires 0 <= i < |tags| => Number(tags[i], prefix))
  }

  /** The count after one number after the other. */
  function Next(ns: seq<Option<int>>): int
    decreases |ns|
  {
    if ns == [] then 0 else Advance(Next(ns[..|ns| - 1]), ns[|ns| - 1])
  }

  function Advance(next: int, n: Option<int>): int {
    if n.Some? && n.value >= next then Increment(n.value) else next
  }

  function NextNumber(tags: seq<string>, prefix: string): int {
    Next(Numbers(tags, prefix))
  }

  function TagPrefix(major: int, date: string): string {
    "v" + Print(major) + "." + date + "."
  }

  /** The callback of the tag iteration, one tag after the other. */
  method CountTags(tags: seq<string>, prefix: string) returns (next: int)
    ensures next == NextNumber(tags, prefix)
  {
    next := 0;
    ghost var ns := Numbers(tags, prefix);
    for i := 0 to |tags|
      invariant next == Next(ns[..i])
    {
      assert ns[..i + 1][..i] == ns[..i];
      if Prefix(prefix, tags[i]) {
        var n := Atoi(tags[i][|prefix|..]);
        if n.Some? && n.value >= next {
          next := Increment(n.value);
        }
      }
    }
    assert ns[..|tags|] == ns;
  }

  lemma TagOfVersion(major: string, date: string, next: string)
    ensures "v" + (major + "." + date + "." + next) == "v" + major + "." + date + "." + next
  {
  }

  method GenerateIncrementalVersion(tags: seq<string>, major: int, date: string) returns (version: string)
    ensures var prefix := "v" + Print(major) + "." + date + ".";
      && version == Print(major) + "." + date + "." + Print(NextNumber(tags, prefix))
      && (!Exhausted(tags, prefix) ==> "v" + version !in tags)
  {
    var prefix := TagPrefix(major, date);
    var next := CountTags(tags, prefix);
    version := Print(major) + "." + date + "." + Print(next);
    TagOfVersion(Print(major), date, Print(next));
    if !Exhausted(tags, prefix) { NextIsFresh(tags, prefix); }
  }

  predicate HoldsMax(ns: seq<Option<int>>) {
    exists i :: 0 <= i < |ns| && ns[i] == Some(MAX_INT64)
  }

  predicate Exceeds(next: int, ns: seq<Option<int>>) {
    forall i :: 0 <= i < |ns| && ns[i].Some? ==> ns[i].value < next
  }

  /** The tag is the prefix and the number behind it. */
  predicate Counts(tag: string, prefix: string, n: int) {
    |prefix| <= |tag| && tag[..|prefix|] == prefix && Atoi(tag[|prefix|..]) == Some(n)
  }

  /** Some tag has the largest number there is. */
  predicate Exhausted(tags: seq<string>, prefix: string) {
    exists i :: 0 <= i < |tags| && Counts(tags[i], prefix, MAX_INT64)
  }

  ghost predicate ExceedsTags(next: int, tags: seq<string>, prefix: string) {
    forall i, n :: 0 <= i < |tags| && Counts(tags[i], prefix, n) ==> n < next
  }

  lemma NumbersOfTags(tags: seq<string>, prefix: string, m: int)
    ensures Exhausted(tags, prefix) <==> HoldsMax(Numbers(tags, prefix))
    ensures ExceedsTags(m, tags, prefix) <==> Exceeds(m, Numbers(tags, prefix))
  {
    var ns := Numbers(tags, prefix);
    forall i, n | 0 <= i < |tags| ensures Counts(tags[i], prefix, n) <==> ns[i] == Some(n) {
      assert ns[i] == Number(tags[i], prefix);
    }
    if Exceeds(m, ns) {
      forall i, n | 0 <= i < |tags| && Counts(tags[i], prefix, n) ensures n < m { assert ns[i] == Some(n); }
    }
    if ExceedsTags(m, tags, prefix) {
      forall i | 0 <= i < |ns| && ns[i].Some? ensures ns[i].value < m { assert Counts(tags[i], prefix, ns[i].value); }
    }
  }

  lemma {:induction false} NextGrows(ns: seq<Option<int>>)
    requires !HoldsMax(ns)
    ensures Exceeds(Next(ns), ns) && 0 <= Next(ns)
    decreases |ns|
  {
    if ns != [] {
      var before := ns[..|ns| - 1];
      assert forall i :: 0 <= i < |before| ==> before[i] == ns[i];
      NextGrows(before);
      assert ns[|ns| - 1] != Some(MAX_INT64);
    }
  }

  lemma {:induction false} NextStaysInt64(ns: seq<Option<int>>)
    requires forall i :: 0 <= i < |ns| && ns[i].Some? ==> IsInt64(ns[i].value)
    ensures IsInt64(Next(ns))
    decreases |ns|
  {
    if ns != [] {
      var before := ns[..|ns| - 1];
      assert forall i :: 0 <= i < |before| ==> before[i] == ns[i];
      NextStaysInt64(before);
    }
  }

  /** The next number exceeds those of all tags just when there is one to exceed them. */
  lemma NextExceedsAll(tags: seq<string>, prefix: string)
    ensures ExceedsTags(NextNumber(tags, prefix), tags, prefix) <==> !Exhausted(tags, prefix)
  {
    var ns := Numbers(tags, prefix);
    NumbersOfTags(tags, prefix, Next(ns));
    NextStaysInt64(ns);
    if HoldsMax(ns) {
      var i :| 0 <= i < |ns| && ns[i] == Some(MAX_INT64);
      assert !(ns[i].value < Next(ns));
    } else {
      NextGrows(ns);
    }
  }

  /** And it is the least such number, from 0 on. */
  lemma NextNumberIsLeast(tags: seq<string>, prefix: string, m: nat)
    requires !Exhausted(tags, prefix) && ExceedsTags(m, tags, prefix)
    ensures NextNumber(tags, prefix) <= m
  {
    NumbersOfTags(tags, prefix, m);
    NextIsLeast(Numbers(tags, prefix), m);
  }

  lemma {:induction false} NextIsLeast(ns: seq<Option<int>>, m: nat)
    requires !HoldsMax(ns) && Exceeds(m, ns)
    ensures Next(ns) <= m
    decreases |ns|
  {
    if ns != [] {
      var before := ns[..|ns| - 1];
      assert forall i :: 0 <= i < |before| ==> before[i] == ns[i];
      NextIsLeast(before, m);
      assert ns[|ns| - 1] != Some(MAX_INT64);
    }
  }

  lemma NumberOfTag(prefix: string, n: int)
    requires IsInt64(n)
    ensures Number(prefix + Print(n), prefix) == Some(n)
  {
    AtoiOfPrint(n);
    assert (prefix + Print(n))[|prefix|..] == Print(n);
  }

  /** So its tag is not there yet. */
  lemma NextIsFresh(tags: seq<string>, prefix: string)
    requires !Exhausted(tags, prefix)
    ensures prefix + Print(NextNumber(tags, prefix)) !in tags
  {
    var ns := Numbers(tags, prefix);
    NumbersOfTags(tags, prefix, 0);
    NextGrows(ns);
    NextStaysInt64(ns);
    NumberOfTag(prefix, Next(ns));
    forall i | 0 <= i < |tags| ensures tags[i] != prefix + Print(Next(ns)) {
      assert ns[i] == Number(tags[i], prefix);
    }
  }

  lemma NextOfThree(a: Option<int>, b: Option<int>, c: Option<int>)
    ensures Next([a, b, c]) == Advance(Advance(Advance(0, a), b), c)
  {
    assert [a, b, c][..2] == [a, b] && [a, b][..1] == [a] && [a][..0] == [];
    assert Next([a]) == Advance(0, a);
  }

  lemma CountBeginsAgain(tags: seq<string>, prefix: string, n: nat)
    requires n < MAX_INT64 && |tags| == 3 && Number(tags[0], prefix) == Some(n + 1)
    requires Number(tags[1], prefix) == Some(MAX_INT64) && Number(tags[2], prefix) == Some(n)
    ensures Exhausted(tags, prefix) && NextNumber(tags, prefix) == n + 1
  {
    var ns := Numbers(tags, prefix);
    NumbersOfTags(tags, prefix, 0);
    assert ns[1] == Some(MAX_INT64);
    NextOfThree(ns[0], ns[1], ns[2]);
    assert ns == [ns[0], ns[1], ns[2]];
  }

  /** After the largest number the count begins again, and may meet a tag that is there. */
  lemma ExhaustedMayRepeat(prefix: string, max: int, n: nat)
    requires max == MAX_INT64 && n < max
    ensures var tags := [prefix + Print(n + 1), prefix + Print(max), prefix + Print(n)];
      Exhausted(tags, prefix) && NextNumber(tags, prefix) == n + 1 && prefix + Print(n + 1) in tags
  {
    var tags := [prefix + Print(n + 1), prefix + Print(max), prefix + Print(n)];
    NumberOfTag(prefix, n + 1);
    NumberOfTag(prefix, max);
    NumberOfTag(prefix, n);
    CountBeginsAgain(tags, prefix, n);
    assert tags[0] in tags;
  }
}
