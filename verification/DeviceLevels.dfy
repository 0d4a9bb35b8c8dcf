/** The devices below one, level by level in tree order (nixosHardwareDisks.go). */
module DeviceLevels {
  import opened Collections

  /** The names listed under each parent. */
  type Children = map<string, seq<string>>

  function Below(children: Children, n: string): seq<string> {
    if n in children then children[n] else []
  }

  /** The children of each, one after the other. */
  function Expand(children: Children, s: seq<string>): seq<string>
    decreases |s|
  {
    if s == [] then [] else Expand(children, s[..|s| - 1]) + Below(children, s[|s| - 1])
  }

  /** Level 0 is the device, and each level has the children of the one before, in order. */
  function Level(children: Children, from: string, k: nat): seq<string>
    decreases k
  {
    if k == 0 then [from] else Expand(children, Level(children, from, k - 1))
  }

  /** Levels 1 to k, one after the other. */
  function LevelsTo(children: Children, from: string, k: nat): seq<string>
    decreases k
  {
    if k == 0 then [] else LevelsTo(children, from, k - 1) + Level(children, from, k)
  }

  lemma ExpandLast(children: Children, s: seq<string>, x: string)
    ensures Expand(children, s + [x]) == Expand(children, s) + Below(children, x)
  {
    assert (s + [x])[..|s|] == s;
  }

  lemma {:induction false} ExpandHas(children: Children, s: seq<string>, c: string)
    ensures c in Expand(children, s) <==> exists x :: x in s && c in Below(children, x)
    decreases |s|
  {
    if s != [] {
      var last := |s| - 1;
      ExpandHas(children, s[..last], c);
      assert forall x :: x in s <==> x in s[..last] || x == s[last];
    }
  }

  // ----- what is met for the first time -----

  /** The names of s that are not among seen, each where it is first mentioned. */
  function Fresh(s: seq<string>, seen: set<string>): seq<string>
    decreases |s|
  {
    if s == [] then []
    else
      var before, x := s[..|s| - 1], s[|s| - 1];
      Fresh(before, seen) + (if x in before || x in seen then [] else [x])
  }

  lemma {:induction false} FreshHas(s: seq<string>, seen: set<string>, x: string)
    ensures x in Fresh(s, seen) <==> x in s && x !in seen
    decreases |s|
  {
    if s != [] {
      FreshHas(s[..|s| - 1], seen, x);
      assert x in s <==> x in s[..|s| - 1] || x == s[|s| - 1];
    }
  }

  predicate FirstMention(s: seq<string>, seen: set<string>, i: nat) {
    i < |s| && s[i] !in seen && s[i] !in s[..i]
  }

  function FirstMentions(s: seq<string>, seen: set<string>): nat -> bool {
    (i: nat) => FirstMention(s, seen, i)
  }

  function NameAt(s: seq<string>): nat -> string {
    (i: nat) => if i < |s| then s[i] else ""
  }

  lemma {:induction false} FreshInOrder(s: seq<string>, seen: set<string>, n: nat) returns (at: seq<nat>)
    requires n <= |s|
    ensures InOrder(Fresh(s[..n], seen), n, FirstMentions(s, seen), NameAt(s), at)
    decreases n
  {
    at := [];
    if n > 0 {
      at := FreshInOrder(s, seen, n - 1);
      assert s[..n][..n - 1] == s[..n - 1];
      OneMoreInOrder(Fresh(s[..n - 1], seen), n - 1, FirstMentions(s, seen), NameAt(s), at);
      if FirstMention(s, seen, n - 1) { at := at + [n - 1]; }
    }
  }

  function SetOf(s: seq<string>): set<string>
    decreases |s|
  {
    if s == [] then {} else SetOf(s[..|s| - 1]) + {s[|s| - 1]}
  }

  lemma {:induction false} SetOfHas(s: seq<string>, x: string)
    ensures x in SetOf(s) <==> x in s
    decreases |s|
  {
    if s != [] {
      SetOfHas(s[..|s| - 1], x);
      assert x in s <==> x in s[..|s| - 1] || x == s[|s| - 1];
    }
  }

  lemma SetOfNext(s: seq<string>, x: string)
    ensures SetOf(s + [x]) == SetOf(s) + {x}
  {
    assert (s + [x])[..|s|] == s;
  }

  lemma {:induction false} SetOfConcat(a: seq<string>, b: seq<string>)
    ensures SetOf(a + b) == SetOf(a) + SetOf(b)
    decreases |b|
  {
    if b == [] {
      assert a + b == a;
    } else {
      var last := |b| - 1;
      SetOfConcat(a, b[..last]);
      assert (a + b)[..|a + b| - 1] == a + b[..last];
    }
  }

  lemma {:induction false} FreshConcat(a: seq<string>, b: seq<string>, seen: set<string>)
    ensures Fresh(a + b, seen) == Fresh(a, seen) + Fresh(b, seen + SetOf(a))
    decreases |b|
  {
    if b == [] {
      assert a + b == a;
    } else {
      var last := |b| - 1;
      FreshConcat(a, b[..last], seen);
      assert (a + b)[..|a + b| - 1] == a + b[..last];
      assert b[last] in a + b[..last] <==> b[last] in a || b[last] in b[..last];
      SetOfHas(a, b[last]);
    }
  }

  // ----- going down without going twice -----

  /** What the queue holds of level k, when a device met before is not expanded again. */
  function Queued(children: Children, from: string, k: nat): seq<string>
    decreases k, 1
  {
    if k == 0 then [from] else Expand(children, Fresh(Queued(children, from, k - 1), Met(children, from, k - 1)))
  }

  /** The devices met before level k. */
  function Met(children: Children, from: string, k: nat): set<string>
    decreases k, 0
  {
    if k == 0 then {} else Met(children, from, k - 1) + SetOf(Queued(children, from, k - 1))
  }

  ghost predicate ChildrenIn(children: Children, seen: set<string>, met: set<string>) {
    forall x :: x in seen ==> SetOf(Below(children, x)) <= met
  }

  lemma ExpandNames(children: Children, s: seq<string>, x: string)
    ensures SetOf(Expand(children, s + [x])) == SetOf(Expand(children, s)) + SetOf(Below(children, x))
  {
    ExpandLast(children, s, x);
    SetOfConcat(Expand(children, s), Below(children, x));
  }

  lemma {:induction false} ChildrenInExpand(children: Children, s: seq<string>, x: string)
    requires x in s
    ensures SetOf(Below(children, x)) <= SetOf(Expand(children, s))
    decreases |s|
  {
    var last := |s| - 1;
    ExpandNames(children, s[..last], s[last]);
    assert s[..last] + [s[last]] == s;
    if x != s[last] { ChildrenInExpand(children, s[..last], x); }
  }

  lemma FreshNext(before: seq<string>, x: string, seen: set<string>)
    ensures Fresh(before + [x], seen) == if x in before || x in seen then Fresh(before, seen) else Fresh(before, seen) + [x]
  {
    assert (before + [x])[..|before|] == before;
  }

  lemma ExpandKnown(children: Children, before: seq<string>, x: string, seen: set<string>, met: set<string>)
    requires ChildrenIn(children, seen, met) && (x in before || x in seen)
    ensures met + SetOf(Expand(children, before + [x])) == met + SetOf(Expand(children, before))
  {
    ExpandNames(children, before, x);
    if x in before { ChildrenInExpand(children, before, x); }
  }

  /** Expanding only what is fresh finds no fewer devices, when the children of those seen are met. */
  lemma {:induction false} FreshFindsAll(children: Children, s: seq<string>, seen: set<string>, met: set<string>)
    requires ChildrenIn(children, seen, met)
    ensures met + SetOf(Expand(children, Fresh(s, seen))) == met + SetOf(Expand(children, s))
    decreases |s|
  {
    if s != [] {
      var before, x := s[..|s| - 1], s[|s| - 1];
      FreshFindsAll(children, before, seen, met);
      assert before + [x] == s;
      FreshNext(before, x, seen);
      if x in before || x in seen {
        ExpandKnown(children, before, x, seen, met);
      } else {
        ExpandNames(children, before, x);
        ExpandNames(children, Fresh(before, seen), x);
      }
    }
  }

  lemma {:induction false} NothingFresh(s: seq<string>, seen: set<string>)
    requires SetOf(s) <= seen
    ensures Fresh(s, seen) == []
    decreases |s|
  {
    if s != [] {
      NothingFresh(s[..|s| - 1], seen);
    }
  }

  /** It finds the same fresh devices, in the same order. */
  lemma {:induction false} FreshOfFresh(children: Children, s: seq<string>, seen: set<string>, met: set<string>)
    requires ChildrenIn(children, seen, met)
    ensures Fresh(Expand(children, Fresh(s, seen)), met) == Fresh(Expand(children, s), met)
    decreases |s|
  {
    if s != [] {
      var before, x := s[..|s| - 1], s[|s| - 1];
      assert before + [x] == s;
      FreshOfFresh(children, before, seen, met);
      FreshFindsAll(children, before, seen, met);
      ExpandLast(children, before, x);
      FreshConcat(Expand(children, before), Below(children, x), met);
      if x in before || x in seen {
        KnownIsNotExpanded(children, before, x, seen, met);
      } else {
        FreshIsExpanded(children, before, x, seen, met);
      }
    }
  }

  lemma KnownIsNotExpanded(children: Children, before: seq<string>, x: string, seen: set<string>, met: set<string>)
    requires ChildrenIn(children, seen, met) && (x in before || x in seen)
    ensures Fresh(before + [x], seen) == Fresh(before, seen)
    ensures Fresh(Below(children, x), met + SetOf(Expand(children, before))) == []
  {
    FreshNext(before, x, seen);
    if x in before { ChildrenInExpand(children, before, x); }
    NothingFresh(Below(children, x), met + SetOf(Expand(children, before)));
  }

  lemma FreshIsExpanded(children: Children, before: seq<string>, x: string, seen: set<string>, met: set<string>)
    requires x !in before && x !in seen
    ensures var a := Expand(children, Fresh(before, seen));
      Fresh(Expand(children, Fresh(before + [x], seen)), met) == Fresh(a, met) + Fresh(Below(children, x), met + SetOf(a))
  {
    FreshNext(before, x, seen);
    ExpandLast(children, Fresh(before, seen), x);
    FreshConcat(Expand(children, Fresh(before, seen)), Below(children, x), met);
  }

  /** The children of what was met before a level were met before the next. */
  lemma {:induction false} ChildrenAreMet(children: Children, from: string, k: nat, next: nat)
    requires next == k + 1
    ensures ChildrenIn(children, Met(children, from, k), Met(children, from, next))
    decreases k
  {
    if k > 0 {
      var before := k - 1;
      ChildrenAreMet(children, from, before, k);
      MetNext(children, from, before, k);
      MetNext(children, from, k, next);
      QueuedNext(children, from, before, k);
      forall x | x in SetOf(Queued(children, from, before)) && x !in Met(children, from, before)
        ensures SetOf(Below(children, x)) <= SetOf(Queued(children, from, k))
      {
        FreshChildren(children, Queued(children, from, before), Met(children, from, before), x);
      }
      OneLevelMore(children, Met(children, from, before), SetOf(Queued(children, from, before)), SetOf(Queued(children, from, k)));
    }
  }

  lemma OneLevelMore(children: Children, met: set<string>, level: set<string>, below: set<string>)
    requires ChildrenIn(children, met, met + level)
    requires forall x :: x in level && x !in met ==> SetOf(Below(children, x)) <= below
    ensures ChildrenIn(children, met + level, met + level + below)
  {
  }

  lemma MetNext(children: Children, from: string, k: nat, next: nat)
    requires next == k + 1
    ensures Met(children, from, next) == Met(children, from, k) + SetOf(Queued(children, from, k))
  {
  }

  lemma FreshChildren(children: Children, queued: seq<string>, met: set<string>, x: string)
    requires x in SetOf(queued) && x !in met
    ensures SetOf(Below(children, x)) <= SetOf(Expand(children, Fresh(queued, met)))
  {
    SetOfHas(queued, x);
    FreshHas(queued, met, x);
    ChildrenInExpand(children, Fresh(queued, met), x);
  }

  lemma QueuedNext(children: Children, from: string, k: nat, next: nat)
    requires next == k + 1
    ensures Queued(children, from, next) == Expand(children, Fresh(Queued(children, from, k), Met(children, from, k)))
  {
  }

  /** Both lists have the same fresh devices, in the same order. */
  predicate SameFresh(a: seq<string>, b: seq<string>, met: set<string>) {
    Fresh(a, met) == Fresh(b, met) && met + SetOf(a) == met + SetOf(b)
  }

  lemma NextLevel(children: Children, queued: seq<string>, level: seq<string>, seen: set<string>, met: set<string>,
    nextQueued: seq<string>, nextLevel: seq<string>)
    requires SameFresh(queued, level, seen) && ChildrenIn(children, seen, met)
    requires nextQueued == Expand(children, Fresh(queued, seen)) && nextLevel == Expand(children, level)
    ensures SameFresh(nextQueued, nextLevel, met)
  {
    FreshOfFresh(children, level, seen, met);
    FreshFindsAll(children, level, seen, met);
  }

  lemma LevelNext(children: Children, from: string, k: nat, next: nat)
    requires next == k + 1
    ensures Level(children, from, next) == Expand(children, Level(children, from, k))
  {
  }

  /** At each level the queue has the fresh devices of the level, in its order. */
  lemma {:induction false} QueuedIsLevel(children: Children, from: string, k: nat)
    ensures SameFresh(Queued(children, from, k), Level(children, from, k), Met(children, from, k))
    decreases k
  {
    if k > 0 {
      var before := k - 1;
      QueuedIsLevel(children, from, before);
      ChildrenAreMet(children, from, before, k);
      QueuedNext(children, from, before, k);
      LevelNext(children, from, before, k);
      NextLevel(children, Queued(children, from, before), Level(children, from, before), Met(children, from, before),
        Met(children, from, k), Queued(children, from, k), Level(children, from, k));
    }
  }

  // ----- one step of the queue -----

  /** The first i devices of q, which is what the queue had of a level, are through. */
  ghost predicate Between(children: Children, q: seq<string>, met: set<string>, i: nat, queue: seq<string>, seen: set<string>) {
    var between := i <= |q| && queue == q[i..] + Expand(children, Fresh(q[..i], met)) && seen == met + SetOf(q[..i]);
    between
  }

  lemma RoundBegins(children: Children, q: seq<string>, met: set<string>)
    ensures Between(children, q, met, 0, q, met)
  {
  }

  /** When a level is through, the queue has the next. */
  lemma RoundEnds(children: Children, from: string, k: nat, queue: seq<string>, seen: set<string>)
    requires Between(children, Queued(children, from, k), Met(children, from, k), |Queued(children, from, k)|, queue, seen)
    ensures Between(children, Queued(children, from, k + 1), Met(children, from, k + 1), 0, queue, seen)
    ensures queue == Queued(children, from, k + 1)
  {
    var q := Queued(children, from, k);
    assert q[..|q|] == q && q[|q|..] == [];
    RoundBegins(children, Queued(children, from, k + 1), Met(children, from, k + 1));
  }

  lemma FrontIsNext(children: Children, q: seq<string>, met: set<string>, i: nat, queue: seq<string>, seen: set<string>)
    requires Between(children, q, met, i, queue, seen) && i < |q|
    ensures queue != [] && queue[0] == q[i]
  {
  }

  lemma FrontGoes(queue: seq<string>, q: seq<string>, i: nat, below: seq<string>, more: seq<string>)
    requires i < |q| && queue == q[i..] + below
    ensures queue != [] && queue[1..] + more == q[i + 1..] + (below + more)
  {
  }

  lemma OneMoreSeen(q: seq<string>, met: set<string>, i: nat, seen: set<string>)
    requires i < |q| && seen == met + SetOf(q[..i])
    ensures seen + {q[i]} == met + SetOf(q[..i + 1])
    ensures q[i] !in seen ==> Fresh(q[..i + 1], met) == Fresh(q[..i], met) + [q[i]]
    ensures q[i] in seen ==> Fresh(q[..i + 1], met) == Fresh(q[..i], met)
  {
    var done, x := q[..i], q[i];
    assert q[..i + 1] == done + [x];
    SetOfNext(done, x);
    SetOfHas(done, x);
    FreshNext(done, x, met);
  }

  /** A device met before is skipped. */
  lemma StepOver(children: Children, q: seq<string>, met: set<string>, i: nat, queue: seq<string>, seen: set<string>)
    requires Between(children, q, met, i, queue, seen) && i < |q| && q[i] in seen
    ensures queue != [] && Between(children, q, met, i + 1, queue[1..], seen)
  {
    OneMoreSeen(q, met, i, seen);
    FrontGoes(queue, q, i, Expand(children, Fresh(q[..i], met)), []);
  }

  /** Of a device met for the first time the children are put behind. */
  lemma StepDown(children: Children, q: seq<string>, met: set<string>, i: nat, queue: seq<string>, seen: set<string>)
    requires Between(children, q, met, i, queue, seen) && i < |q| && q[i] !in seen
    ensures queue != [] && Between(children, q, met, i + 1, queue[1..] + Below(children, q[i]), seen + {q[i]})
  {
    OneMoreSeen(q, met, i, seen);
    ExpandLast(children, Fresh(q[..i], met), q[i]);
    FrontGoes(queue, q, i, Expand(children, Fresh(q[..i], met)), Below(children, q[i]));
  }

  // ----- when the queue is empty -----

  lemma {:induction false} MetGrows(children: Children, from: string, j: nat, k: nat)
    requires j <= k
    ensures Met(children, from, j) <= Met(children, from, k)
    decreases k
  {
    if j < k { MetGrows(children, from, j, k - 1); }
  }

  /** A level that is through was met. */
  lemma LevelIsMet(children: Children, from: string, j: nat, k: nat)
    requires j < k
    ensures SetOf(Level(children, from, j)) <= Met(children, from, k)
  {
    QueuedIsLevel(children, from, j);
    MetGrows(children, from, j + 1, k);
  }

  lemma {:induction false} NothingQueued(children: Children, from: string, j: nat, k: nat)
    requires j <= k && Queued(children, from, j) == []
    ensures Queued(children, from, k) == [] && Met(children, from, k) == Met(children, from, j)
    decreases k
  {
    if j < k {
      var before := k - 1;
      NothingQueued(children, from, j, before);
      NothingNext(children, from, before, k);
    }
  }

  lemma NothingExpanded(children: Children, seen: set<string>)
    ensures Expand(children, Fresh([], seen)) == [] && SetOf([]) == {}
  {
  }

  lemma NothingNext(children: Children, from: string, k: nat, next: nat)
    requires next == k + 1 && Queued(children, from, k) == []
    ensures Queued(children, from, next) == [] && Met(children, from, next) == Met(children, from, k)
  {
    MetNext(children, from, k, next);
    QueuedNext(children, from, k, next);
    NothingExpanded(children, Met(children, from, k));
  }

  /** Then all levels were met. */
  lemma AllIsMet(children: Children, from: string, j: nat, k: nat)
    requires Queued(children, from, j) == []
    ensures SetOf(Level(children, from, k)) <= Met(children, from, j)
  {
    if k < j {
      LevelIsMet(children, from, k, j);
    } else {
      NothingQueued(children, from, j, k);
      QueuedIsLevel(children, from, k);
    }
  }
}
