/** The block devices of a system, and the walks over them (nixosHardwareDisks.go). */
module BlockDevices {
  import opened Collections
  import opened DeviceLevels

  /** A row of lsblk. */
  datatype Row = Row(name: string, kind: string, mountPoint: string, parent: string, transport: string)

  datatype BlockDevice = BlockDevice(name: string, kind: string)

  // ----- the graph -----

  /** The last row of each name. */
  function ByName(rows: seq<Row>): map<string, Row>
    decreases |rows|
  {
    if rows == [] then map[] else ByName(rows[..|rows| - 1])[rows[|rows| - 1].name := rows[|rows| - 1]]
  }

  /** The names of the rows of each parent, in the order of the rows. */
  function ChildrenOf(rows: seq<Row>): Children
    decreases |rows|
  {
    if rows == [] then map[]
    else
      var before, row := ChildrenOf(rows[..|rows| - 1]), rows[|rows| - 1];
      if row.parent == "" then before else before[row.parent := Below(before, row.parent) + [row.name]]
  }

  /** k steps down lead from a to b. */
  ghost predicate Down(children: Children, a: string, b: string, k: nat)
    decreases k
  {
    if k == 0 then a == b else exists m :: Down(children, a, m, k - 1) && b in Below(children, m)
  }

  ghost predicate Reaches(children: Children, a: string, b: string) {
    exists k: nat :: Down(children, a, b, k)
  }

  ghost predicate StrictlyBelow(children: Children, a: string, b: string) {
    exists k: nat :: k > 0 && Down(children, a, b, k)
  }

  ghost predicate Acyclic(children: Children) {
    forall n :: !StrictlyBelow(children, n, n)
  }

  /** k steps from a device to the parent its row names lead from a to b. */
  ghost predicate Up(byName: map<string, Row>, a: string, b: string, k: nat)
    decreases k
  {
    if k == 0 then a == b && a != ""
    else exists m :: Up(byName, a, m, k - 1) && m in byName && byName[m].parent == b && b != ""
  }

  ghost predicate Above(byName: map<string, Row>, a: string, b: string) {
    exists k: nat :: Up(byName, a, b, k)
  }

  /** Each device that names a parent is among the children of that parent. */
  ghost predicate Consistent(byName: map<string, Row>, children: Children) {
    var consistent :=
      forall n :: n in byName ==> byName[n].name == n && (byName[n].parent != "" ==> n in Below(children, byName[n].parent));
    consistent
  }

  lemma {:induction false} LoadedIsConsistent(rows: seq<Row>)
    ensures Consistent(ByName(rows), ChildrenOf(rows))
    decreases |rows|
  {
    if rows != [] {
      LoadedIsConsistent(rows[..|rows| - 1]);
    }
  }

  /** A device has the last row of its name. */
  lemma {:induction false} LastRowCounts(rows: seq<Row>, n: string)
    ensures n in ByName(rows) <==> exists i :: 0 <= i < |rows| && rows[i].name == n
    ensures forall i :: 0 <= i < |rows| && rows[i].name == n && (forall j :: i < j < |rows| ==> rows[j].name != n) ==>
      n in ByName(rows) && ByName(rows)[n] == rows[i]
    decreases |rows|
  {
    if rows != [] {
      var before := rows[..|rows| - 1];
      LastRowCounts(before, n);
      assert forall i :: 0 <= i < |before| ==> before[i] == rows[i];
    }
  }

  /** The children of a device are the names of the rows that name it as parent. */
  lemma {:induction false} ChildrenAreRows(rows: seq<Row>, p: string, c: string)
    ensures c in Below(ChildrenOf(rows), p) <==> p != "" && exists i :: 0 <= i < |rows| && rows[i].parent == p && rows[i].name == c
    decreases |rows|
  {
    if rows != [] {
      var before, row := rows[..|rows| - 1], rows[|rows| - 1];
      ChildrenAreRows(before, p, c);
      assert forall i :: 0 <= i < |before| ==> before[i] == rows[i];
      assert Below(ChildrenOf(rows), p) ==
        if row.parent == p && p != "" then Below(ChildrenOf(before), p) + [row.name] else Below(ChildrenOf(before), p);
    }
  }

  function ChildRow(rows: seq<Row>, p: string): nat -> bool {
    (i: nat) => i < |rows| && rows[i].parent == p
  }

  function RowName(rows: seq<Row>): nat -> string {
    (i: nat) => if i < |rows| then rows[i].name else ""
  }

  /** They come in the order of those rows, one for each. */
  lemma {:induction false} ChildrenInOrder(rows: seq<Row>, p: string, n: nat) returns (at: seq<nat>)
    requires p != "" && n <= |rows|
    ensures InOrder(Below(ChildrenOf(rows[..n]), p), n, ChildRow(rows, p), RowName(rows), at)
    decreases n
  {
    at := [];
    if n > 0 {
      at := ChildrenInOrder(rows, p, n - 1);
      assert rows[..n][..n - 1] == rows[..n - 1];
      OneMoreInOrder(Below(ChildrenOf(rows[..n - 1]), p), n - 1, ChildRow(rows, p), RowName(rows), at);
      if rows[n - 1].parent == p { at := at + [n - 1]; }
    }
  }

  lemma {:induction false} DownTwice(children: Children, a: string, b: string, c: string, j: nat, k: nat)
    requires Down(children, a, b, j) && Down(children, b, c, k)
    ensures Down(children, a, c, j + k)
    decreases k
  {
    if k > 0 {
      var m :| Down(children, b, m, k - 1) && c in Below(children, m);
      DownTwice(children, a, b, m, j, k - 1);
      assert Down(children, a, m, j + k - 1);
    }
  }

  lemma OneDown(children: Children, a: string, b: string)
    requires b in Below(children, a)
    ensures Down(children, a, b, 1)
  {
    assert Down(children, a, a, 0);
  }

  // ----- the finite world of a graph -----

  ghost function World(children: Children): set<string> {
    children.Keys + set p, n | p in children && n in children[p] :: n
  }

  lemma {:induction false} DownStaysInside(children: Children, a: string, b: string, k: nat)
    requires Down(children, a, b, k) && k > 0
    ensures a in World(children) && b in World(children)
    decreases k
  {
    var m :| Down(children, a, m, k - 1) && b in Below(children, m);
    assert m in children && b in children[m];
    if k > 1 { DownStaysInside(children, a, m, k - 1); }
  }

  ghost function Descendants(children: Children, n: string): set<string> {
    set x | x in World(children) && StrictlyBelow(children, n, x)
  }

  lemma SubsetIsSmaller<T>(a: set<T>, b: set<T>)
    requires a < b
    ensures |a| < |b|
  {
    var x :| x in b && x !in a;
    assert a <= b - {x};
    SubsetIsNoLarger(a, b - {x});
  }

  lemma {:induction false} SubsetIsNoLarger<T>(a: set<T>, b: set<T>)
    requires a <= b
    ensures |a| <= |b|
    decreases a
  {
    if a != {} {
      var x :| x in a;
      SubsetIsNoLarger(a - {x}, b - {x});
    }
  }

  /** On an acyclic graph a child has fewer descendants. */
  lemma ChildHasFewer(children: Children, n: string, c: string)
    requires Acyclic(children) && c in Below(children, n)
    ensures |Descendants(children, c)| < |Descendants(children, n)|
  {
    OneDown(children, n, c);
    DownStaysInside(children, n, c, 1);
    forall x | StrictlyBelow(children, c, x) ensures StrictlyBelow(children, n, x) {
      var k: nat :| k > 0 && Down(children, c, x, k);
      DownTwice(children, n, c, x, 1, k);
    }
    assert c in Descendants(children, n) && c !in Descendants(children, c);
    SubsetIsSmaller(Descendants(children, c), Descendants(children, n));
  }

  // ----- the measure of a queue that may hold repeats -----

  /** How many ways lead down from n, the empty one included. */
  ghost function Ways(children: Children, n: string): nat
    requires Acyclic(children)
    decreases |Descendants(children, n)|, 1, 0
  {
    1 + WaysOfChildren(children, n, |Below(children, n)|)
  }

  ghost function WaysOfChildren(children: Children, n: string, k: nat): nat
    requires Acyclic(children) && k <= |Below(children, n)|
    decreases |Descendants(children, n)|, 0, k
  {
    if k == 0 then 0
    else
      var c := Below(children, n)[k - 1];
      ChildHasFewer(children, n, c);
      WaysOfChildren(children, n, k - 1) + Ways(children, c)
  }

  ghost function WaysOfAll(children: Children, queue: seq<string>): nat
    requires Acyclic(children)
    decreases |queue|
  {
    if queue == [] then 0 else WaysOfAll(children, queue[..|queue| - 1]) + Ways(children, queue[|queue| - 1])
  }

  lemma {:induction false} WaysOfConcat(children: Children, a: seq<string>, b: seq<string>)
    requires Acyclic(children)
    ensures WaysOfAll(children, a + b) == WaysOfAll(children, a) + WaysOfAll(children, b)
    decreases |b|
  {
    if b == [] {
      assert a + b == a;
    } else {
      WaysOfConcat(children, a, b[..|b| - 1]);
      assert (a + b)[..|a + b| - 1] == a + b[..|b| - 1];
    }
  }

  lemma {:induction false} WaysOfPrefix(children: Children, n: string, k: nat)
    requires Acyclic(children) && k <= |Below(children, n)|
    ensures WaysOfAll(children, Below(children, n)[..k]) == WaysOfChildren(children, n, k)
    decreases k
  {
    if k > 0 {
      WaysOfPrefix(children, n, k - 1);
      assert Below(children, n)[..k][..k - 1] == Below(children, n)[..k - 1];
    }
  }

  /** Taking a device off the queue and putting its children there makes the measure smaller. */
  lemma QueueShrinks(children: Children, queue: seq<string>)
    requires Acyclic(children) && queue != []
    ensures WaysOfAll(children, queue[1..] + Below(children, queue[0])) == WaysOfAll(children, queue) - 1
  {
    var n := queue[0];
    WaysOfConcat(children, queue[1..], Below(children, n));
    WaysOfConcat(children, [n], queue[1..]);
    assert [n] + queue[1..] == queue;
    assert [n][..0] == [];
    WaysOfPrefix(children, n, |Below(children, n)|);
    assert Below(children, n)[..|Below(children, n)|] == Below(children, n);
  }

  // ----- the walk down to a mount point -----

  predicate Mounted(byName: map<string, Row>, n: string) {
    n in byName && byName[n].mountPoint != ""
  }

  /** n is mounted, d steps below from, and nothing mounted is closer. */
  ghost predicate Nearest(byName: map<string, Row>, children: Children, from: string, n: string, d: nat) {
    && Mounted(byName, n) && Down(children, from, n, d)
    && forall x, k: nat :: Mounted(byName, x) && Down(children, from, x, k) ==> d <= k
  }

  lemma {:induction false} InLevelIsDown(children: Children, from: string, k: nat, x: string)
    requires x in Level(children, from, k)
    ensures Down(children, from, x, k)
    decreases k
  {
    if k > 0 {
      ExpandHas(children, Level(children, from, k - 1), x);
      var m :| m in Level(children, from, k - 1) && x in Below(children, m);
      InLevelIsDown(children, from, k - 1, m);
    }
  }

  lemma {:induction false} DownIsInLevel(children: Children, from: string, k: nat, x: string)
    requires Down(children, from, x, k)
    ensures x in Level(children, from, k)
    decreases k
  {
    if k > 0 {
      var m :| Down(children, from, m, k - 1) && x in Below(children, m);
      DownIsInLevel(children, from, k - 1, m);
      ExpandHas(children, Level(children, from, k - 1), x);
    }
  }

  /** Level k has the devices k steps down. */
  lemma LevelIsDown(children: Children, from: string, k: nat, x: string)
    ensures x in Level(children, from, k) <==> Down(children, from, x, k)
  {
    if x in Level(children, from, k) { InLevelIsDown(children, from, k, x); }
    if Down(children, from, x, k) { DownIsInLevel(children, from, k, x); }
  }

  predicate NoneMounted(byName: map<string, Row>, s: seq<string>) {
    forall i :: 0 <= i < |s| ==> !Mounted(byName, s[i])
  }

  /** n stands in s, is mounted, and no device before it is. */
  predicate FirstMounted(byName: map<string, Row>, s: seq<string>, n: string) {
    exists j :: 0 <= j < |s| && s[j] == n && Mounted(byName, n) && NoneMounted(byName, s[..j])
  }

  /** n is the first mounted device of level k, and the levels before have none. */
  ghost predicate FirstInTree(byName: map<string, Row>, children: Children, from: string, k: nat, n: string) {
    FirstMounted(byName, Level(children, from, k), n) && forall j: nat :: j < k ==> NoneMounted(byName, Level(children, from, j))
  }

  lemma FirstIsNearest(byName: map<string, Row>, children: Children, from: string, k: nat, n: string)
    requires FirstInTree(byName, children, from, k, n)
    ensures Nearest(byName, children, from, n, k)
  {
    LevelIsDown(children, from, k, n);
    forall x, j: nat | j < k && Down(children, from, x, j) ensures !Mounted(byName, x) {
      LevelIsDown(children, from, j, x);
      assert NoneMounted(byName, Level(children, from, j));
    }
  }

  lemma NothingIsReached(byName: map<string, Row>, children: Children, from: string)
    requires forall k: nat :: NoneMounted(byName, Level(children, from, k))
    ensures forall n :: Mounted(byName, n) ==> !Reaches(children, from, n)
  {
    forall n | Reaches(children, from, n) ensures !Mounted(byName, n) {
      var k: nat :| Down(children, from, n, k);
      LevelIsDown(children, from, k, n);
      assert NoneMounted(byName, Level(children, from, k));
    }
  }

  lemma {:induction false} NoneFresh(byName: map<string, Row>, s: seq<string>, met: set<string>)
    requires forall x :: x in met ==> !Mounted(byName, x)
    ensures NoneMounted(byName, Fresh(s, met)) <==> NoneMounted(byName, s)
    decreases |s|
  {
    if s != [] {
      var before, x := s[..|s| - 1], s[|s| - 1];
      NoneFresh(byName, before, met);
      NoneOfTwo(byName, before, [x]);
      assert before + [x] == s;
      NoneOfTwo(byName, Fresh(before, met), if x in before || x in met then [] else [x]);
    }
  }

  lemma NoneOfTwo(byName: map<string, Row>, a: seq<string>, b: seq<string>)
    ensures NoneMounted(byName, a + b) <==> NoneMounted(byName, a) && NoneMounted(byName, b)
  {
    if NoneMounted(byName, a + b) {
      forall i | 0 <= i < |b| ensures !Mounted(byName, b[i]) { assert (a + b)[|a| + i] == b[i]; }
      forall i | 0 <= i < |a| ensures !Mounted(byName, a[i]) { assert (a + b)[i] == a[i]; }
    }
  }

  lemma FirstOfTwo(byName: map<string, Row>, a: seq<string>, b: seq<string>, n: string)
    ensures FirstMounted(byName, a + b, n) <==> FirstMounted(byName, a, n) || (NoneMounted(byName, a) && FirstMounted(byName, b, n))
  {
    if j :| 0 <= j < |a| && a[j] == n && Mounted(byName, n) && NoneMounted(byName, a[..j]) {
      assert (a + b)[j] == n && (a + b)[..j] == a[..j];
    }
    if NoneMounted(byName, a) {
      if j :| 0 <= j < |b| && b[j] == n && Mounted(byName, n) && NoneMounted(byName, b[..j]) {
        NoneOfTwo(byName, a, b[..j]);
        assert (a + b)[|a| + j] == n && (a + b)[..|a| + j] == a + b[..j];
      }
    }
    if j :| 0 <= j < |a + b| && (a + b)[j] == n && Mounted(byName, n) && NoneMounted(byName, (a + b)[..j]) {
      if j < |a| {
        assert a[j] == n && (a + b)[..j] == a[..j];
      } else {
        assert (a + b)[..j] == a + b[..j - |a|] && b[j - |a|] == n;
        NoneOfTwo(byName, a, b[..j - |a|]);
      }
    }
  }

  /** Leaving out what was met, or mentioned before, leaves the first mounted device as it is. */
  lemma {:induction false} FreshFirst(byName: map<string, Row>, s: seq<string>, met: set<string>, n: string)
    requires forall x :: x in met ==> !Mounted(byName, x)
    ensures FirstMounted(byName, Fresh(s, met), n) <==> FirstMounted(byName, s, n)
    decreases |s|
  {
    if s != [] {
      var before, x := s[..|s| - 1], s[|s| - 1];
      FreshFirst(byName, before, met, n);
      NoneFresh(byName, before, met);
      FirstOfTwo(byName, before, [x], n);
      assert before + [x] == s;
      FirstOfTwo(byName, Fresh(before, met), if x in before || x in met then [] else [x], n);
      if x in before && NoneMounted(byName, before) {
        var i :| 0 <= i < |before| && before[i] == x;
        assert !Mounted(byName, x);
      }
    }
  }

  /** The device the queue comes to is the first of its level. */
  lemma FoundIsFirst(byName: map<string, Row>, children: Children, from: string, k: nat, i: nat, queue: seq<string>, seen: set<string>)
    requires Searching(byName, children, from, k, i, queue, seen) && i < |Queued(children, from, k)|
    requires Mounted(byName, Queued(children, from, k)[i])
    ensures FirstInTree(byName, children, from, k, Queued(children, from, k)[i])
  {
    var q, met, n := Queued(children, from, k), Met(children, from, k), Queued(children, from, k)[i];
    forall j | 0 <= j < i ensures !Mounted(byName, q[..i][j]) { SetOfHas(q[..i], q[j]); }
    assert FirstMounted(byName, q, n);
    QueuedIsLevel(children, from, k);
    FreshFirst(byName, q, met, n);
    FreshFirst(byName, Level(children, from, k), met, n);
    forall j: nat | j < k ensures NoneMounted(byName, Level(children, from, j)) {
      LevelIsMet(children, from, j, k);
      NoneOfMet(byName, Level(children, from, j), met);
    }
  }

  lemma NoneOfMet(byName: map<string, Row>, s: seq<string>, met: set<string>)
    requires SetOf(s) <= met && forall x :: x in met ==> !Mounted(byName, x)
    ensures NoneMounted(byName, s)
  {
    forall i | 0 <= i < |s| ensures !Mounted(byName, s[i]) { SetOfHas(s, s[i]); }
  }

  /** What holds between two steps of the search: i devices of level k are through, and none mounted was met. */
  ghost predicate Searching(byName: map<string, Row>, children: Children, from: string, k: nat, i: nat, queue: seq<string>, seen: set<string>) {
    var unmounted := forall x :: x in seen ==> !Mounted(byName, x);
    Between(children, Queued(children, from, k), Met(children, from, k), i, queue, seen) && unmounted
  }

  /** The devices met, and those on the queue, are of the finite graph. */
  ghost predicate Inside(world: set<string>, queue: seq<string>, seen: set<string>) {
    var inside := seen <= world && SetOf(queue) <= world;
    inside
  }

  lemma InsideBegins(children: Children, from: string)
    ensures Inside(World(children) + {from}, [from], {})
  {
    assert [from][..0] == [];
  }

  lemma InsideGoesOn(children: Children, world: set<string>, queue: seq<string>, seen: set<string>)
    requires Inside(world, queue, seen) && queue != [] && World(children) <= world
    ensures queue[0] in world && Inside(world, queue[1..], seen)
    ensures Inside(world, queue[1..] + Below(children, queue[0]), seen + {queue[0]})
  {
    SetOfHas(queue, queue[0]);
    assert [queue[0]] + queue[1..] == queue;
    SetOfConcat([queue[0]], queue[1..]);
    SetOfConcat(queue[1..], Below(children, queue[0]));
    forall c | c in SetOf(Below(children, queue[0])) ensures c in world { SetOfHas(Below(children, queue[0]), c); }
  }

  lemma SearchBegins(byName: map<string, Row>, children: Children, from: string)
    ensures Searching(byName, children, from, 0, 0, [from], {})
  {
    RoundBegins(children, [from], {});
  }

  /** The front of the queue is the next device of a level. */
  lemma NextOfLevel(byName: map<string, Row>, children: Children, from: string, k: nat, i: nat, queue: seq<string>, seen: set<string>)
    returns (l: nat, j: nat)
    requires Searching(byName, children, from, k, i, queue, seen) && queue != []
    ensures Searching(byName, children, from, l, j, queue, seen) && j < |Queued(children, from, l)| && queue[0] == Queued(children, from, l)[j]
  {
    l, j := k, i;
    if i == |Queued(children, from, k)| {
      RoundEnds(children, from, k, queue, seen);
      l, j := k + 1, 0;
    }
    FrontIsNext(children, Queued(children, from, l), Met(children, from, l), j, queue, seen);
  }

  lemma SearchSkips(byName: map<string, Row>, children: Children, from: string, k: nat, i: nat, queue: seq<string>, seen: set<string>)
    requires Searching(byName, children, from, k, i, queue, seen) && i < |Queued(children, from, k)|
    requires queue != [] && queue[0] == Queued(children, from, k)[i] && queue[0] in seen
    ensures Searching(byName, children, from, k, i + 1, queue[1..], seen)
  {
    StepOver(children, Queued(children, from, k), Met(children, from, k), i, queue, seen);
  }

  lemma SearchGoesDown(byName: map<string, Row>, children: Children, from: string, k: nat, i: nat, queue: seq<string>, seen: set<string>)
    requires Searching(byName, children, from, k, i, queue, seen) && i < |Queued(children, from, k)|
    requires queue != [] && queue[0] == Queued(children, from, k)[i] && queue[0] !in seen && !Mounted(byName, queue[0])
    ensures Searching(byName, children, from, k, i + 1, queue[1..] + Below(children, queue[0]), seen + {queue[0]})
  {
    StepDown(children, Queued(children, from, k), Met(children, from, k), i, queue, seen);
  }

  /** When the queue is empty, no level has a mounted device. */
  lemma NothingIsFound(byName: map<string, Row>, children: Children, from: string, k: nat, i: nat, seen: set<string>)
    requires Searching(byName, children, from, k, i, [], seen)
    ensures forall j: nat :: NoneMounted(byName, Level(children, from, j))
  {
    var q := Queued(children, from, k);
    assert i == |q|;
    RoundEnds(children, from, k, [], seen);
    EmptyIsMet(children, Queued(children, from, k + 1), Met(children, from, k + 1), seen);
    forall j: nat ensures NoneMounted(byName, Level(children, from, j)) {
      AllIsMet(children, from, k + 1, j);
      NoneOfMet(byName, Level(children, from, j), seen);
    }
  }

  lemma EmptyIsMet(children: Children, q: seq<string>, met: set<string>, seen: set<string>)
    requires Between(children, q, met, 0, [], seen)
    ensures met == seen
  {
  }

  // ----- the devices related to one -----

  /** Itself, the devices its row leads up to, and all those below it. */
  ghost predicate Related(byName: map<string, Row>, children: Children, name: string, n: string) {
    Above(byName, name, n) || StrictlyBelow(children, name, n)
  }

  /** One row per device, and a row for every parent. */
  ghost predicate OneRowEach(byName: map<string, Row>, children: Children) {
    && Consistent(byName, children)
    && "" !in byName && "" !in children
    && EachHasItsRow(byName, children)
  }

  ghost predicate EachHasItsRow(byName: map<string, Row>, children: Children) {
    forall p, c :: c in Below(children, p) ==> IsParent(byName, p, c)
  }

  predicate IsParent(byName: map<string, Row>, p: string, c: string) {
    p in byName && c in byName && byName[c].parent == p
  }

  predicate DistinctDevices(rows: seq<Row>) {
    (forall i, j :: 0 <= i < j < |rows| ==> rows[i].name != rows[j].name) && forall i :: 0 <= i < |rows| ==> rows[i].name != ""
  }

  predicate HasRow(rows: seq<Row>, name: string) {
    exists i :: 0 <= i < |rows| && rows[i].name == name
  }

  predicate ParentsListed(rows: seq<Row>) {
    forall i :: 0 <= i < |rows| && rows[i].parent != "" ==> HasRow(rows, rows[i].parent)
  }

  /** Rows of different devices, each parent among them, make such a graph. */
  lemma RowsMakeOneRowEach(rows: seq<Row>)
    requires DistinctDevices(rows) && ParentsListed(rows)
    ensures OneRowEach(ByName(rows), ChildrenOf(rows))
  {
    LoadedHasRows(rows);
    LoadedIsConsistent(rows);
    NoChildrenOfNoName(rows);
    LastRowCounts(rows, "");
  }

  lemma LoadedHasRows(rows: seq<Row>)
    requires DistinctDevices(rows) && ParentsListed(rows)
    ensures EachHasItsRow(ByName(rows), ChildrenOf(rows))
  {
    var byName, children := ByName(rows), ChildrenOf(rows);
    forall p, c | c in Below(children, p) ensures IsParent(byName, p, c) {
      ChildHasItsRow(rows, p, c);
    }
  }

  lemma ChildHasItsRow(rows: seq<Row>, p: string, c: string)
    requires DistinctDevices(rows) && ParentsListed(rows) && c in Below(ChildrenOf(rows), p)
    ensures IsParent(ByName(rows), p, c)
  {
    ChildrenAreRows(rows, p, c);
    var i :| 0 <= i < |rows| && rows[i].parent == p && rows[i].name == c;
    assert HasRow(rows, p);
    LastRowCounts(rows, p);
    LastRowCounts(rows, c);
    assert forall j :: i < j < |rows| ==> rows[j].name != c;
    assert ByName(rows)[c] == rows[i];
  }

  lemma {:induction false} NoChildrenOfNoName(rows: seq<Row>)
    ensures "" !in ChildrenOf(rows)
    decreases |rows|
  {
    if rows != [] { NoChildrenOfNoName(rows[..|rows| - 1]); }
  }

  /** Then going up is going down backwards. */
  lemma UpIsDown(byName: map<string, Row>, children: Children, a: string, b: string, k: nat)
    requires OneRowEach(byName, children) && a in byName
    ensures Up(byName, a, b, k) <==> Down(children, b, a, k)
  {
    if k > 0 {
      if Up(byName, a, b, k) { UpIsBelow(byName, children, a, b, k); }
      if Down(children, b, a, k) { DownThenUp(byName, children, a, b, k); }
    }
  }

  lemma {:induction false} UpTwice(byName: map<string, Row>, a: string, b: string, c: string, j: nat, k: nat, n: nat)
    requires Up(byName, a, b, j) && Up(byName, b, c, k) && n == j + k
    ensures Up(byName, a, c, n)
    decreases k
  {
    if k > 0 {
      var m :| Up(byName, b, m, k - 1) && m in byName && byName[m].parent == c && c != "";
      UpTwice(byName, a, b, m, j, k - 1, n - 1);
    }
  }

  /** Each device listed under a parent has a row, and that row names the parent. */
  ghost predicate ListedUnderParent(byName: map<string, Row>, children: Children) {
    forall p, c :: c in Below(children, p) ==> p != "" && c in byName && byName[c].parent == p
  }

  lemma {:induction false} DownThenUp(byName: map<string, Row>, children: Children, a: string, b: string, k: nat)
    requires ListedUnderParent(byName, children) && a != "" && Down(children, b, a, k)
    ensures Up(byName, a, b, k)
    decreases k
  {
    if k > 0 {
      var m :| Down(children, b, m, k - 1) && a in Below(children, m);
      assert Up(byName, a, a, 0) && byName[a].parent == m;
      DownThenUp(byName, children, m, b, k - 1);
      UpTwice(byName, a, m, b, 1, k - 1, k);
    }
  }

  /** With one row per device, a device is in the chain of another exactly when that one is in its own. */
  lemma RelatedIsSymmetric(byName: map<string, Row>, children: Children, a: string, b: string)
    requires OneRowEach(byName, children) && a in byName && b in byName
    ensures Related(byName, children, a, b) <==> Related(byName, children, b, a)
    ensures Related(byName, children, a, b) <==> Reaches(children, a, b) || Reaches(children, b, a)
  {
    RelatedIsReaching(byName, children, a, b);
    RelatedIsReaching(byName, children, b, a);
  }

  lemma RelatedIsReaching(byName: map<string, Row>, children: Children, a: string, b: string)
    requires OneRowEach(byName, children) && a in byName && b in byName
    ensures Related(byName, children, a, b) <==> Reaches(children, a, b) || Reaches(children, b, a)
  {
    if Above(byName, a, b) {
      var k: nat :| Up(byName, a, b, k);
      UpIsDown(byName, children, a, b, k);
    }
    if Reaches(children, b, a) {
      var k: nat :| Down(children, b, a, k);
      UpIsDown(byName, children, a, b, k);
    }
    if Reaches(children, a, b) {
      var k: nat :| Down(children, a, b, k);
      if k == 0 { assert Up(byName, a, b, 0); }
    }
  }

  /** Going up visits ever more devices: none is met twice. */
  lemma {:induction false} UpIsBelow(byName: map<string, Row>, children: Children, a: string, b: string, k: nat)
    requires Consistent(byName, children) && Up(byName, a, b, k)
    ensures Down(children, b, a, k)
    decreases k
  {
    if k > 0 {
      var m :| Up(byName, a, m, k - 1) && m in byName && byName[m].parent == b && b != "";
      UpIsBelow(byName, children, a, m, k - 1);
      OneDown(children, b, m);
      DownTwice(children, b, m, a, 1, k - 1);
    }
  }

  function Names(chain: seq<BlockDevice>): seq<string> {
    seq(|chain|, i requires 0 <= i < |chain| => chain[i].name)
  }

  /** The chain lists the known devices of seen, each once, as their rows have them. */
  ghost predicate Lists(chain: seq<BlockDevice>, seen: set<string>, byName: map<string, Row>) {
    && NoRepeat(Names(chain))
    && (forall d :: d in chain ==> d.name in byName && d.kind == byName[d.name].kind)
    && (forall n :: n in Names(chain) <==> n in seen && n in byName)
  }

  /** The devices of the queue, and all those below them. */
  ghost predicate Pending(children: Children, queue: seq<string>, n: string) {
    exists i, k: nat :: 0 <= i < |queue| && Down(children, queue[i], n, k)
  }

  lemma {:induction false} FirstStep(children: Children, a: string, b: string, k: nat) returns (c: string)
    requires k > 0 && Down(children, a, b, k)
    ensures c in Below(children, a) && Down(children, c, b, k - 1)
    decreases k
  {
    var m :| Down(children, a, m, k - 1) && b in Below(children, m);
    if k == 1 {
      c := b;
    } else {
      c := FirstStep(children, a, m, k - 1);
      OneDown(children, m, b);
      DownTwice(children, c, m, b, k - 2, 1);
    }
  }

  lemma BelowIsPending(children: Children, a: string, n: string)
    ensures StrictlyBelow(children, a, n) <==> Pending(children, Below(children, a), n)
  {
    var below := Below(children, a);
    if StrictlyBelow(children, a, n) {
      var k: nat :| k > 0 && Down(children, a, n, k);
      var c := FirstStep(children, a, n, k);
      var i :| 0 <= i < |below| && below[i] == c;
      assert Down(children, below[i], n, k - 1);
    }
    if Pending(children, below, n) {
      var i, k: nat :| 0 <= i < |below| && Down(children, below[i], n, k);
      OneDown(children, a, below[i]);
      DownTwice(children, a, below[i], n, 1, k);
    }
  }

  lemma PendingConcat(children: Children, a: seq<string>, b: seq<string>, n: string)
    ensures Pending(children, a + b, n) <==> Pending(children, a, n) || Pending(children, b, n)
  {
    if Pending(children, a + b, n) {
      var i, k: nat :| 0 <= i < |a + b| && Down(children, (a + b)[i], n, k);
      if i < |a| { assert Down(children, a[i], n, k); } else { assert Down(children, b[i - |a|], n, k); }
    }
    if Pending(children, a, n) {
      var i, k: nat :| 0 <= i < |a| && Down(children, a[i], n, k);
      assert Down(children, (a + b)[i], n, k);
    }
    if Pending(children, b, n) {
      var i, k: nat :| 0 <= i < |b| && Down(children, b[i], n, k);
      assert Down(children, (a + b)[|a| + i], n, k);
    }
  }

  /** The front of the queue is met; what lies below it becomes pending in its place. */
  lemma PendingSplits(children: Children, queue: seq<string>, n: string)
    requires queue != []
    ensures Pending(children, queue, n) <==> n == queue[0] || Pending(children, queue[1..] + Below(children, queue[0]), n)
  {
    var cur := queue[0];
    assert [cur] + queue[1..] == queue;
    PendingConcat(children, [cur], queue[1..], n);
    PendingConcat(children, queue[1..], Below(children, cur), n);
    BelowIsPending(children, cur, n);
    if Pending(children, [cur], n) {
      var i, k: nat :| 0 <= i < 1 && Down(children, [cur][i], n, k);
      assert k > 0 ==> StrictlyBelow(children, cur, n);
    }
    assert [cur][0] == cur && Down(children, cur, cur, 0);
    if StrictlyBelow(children, cur, n) {
      var k: nat :| k > 0 && Down(children, cur, n, k);
      assert Down(children, [cur][0], n, k);
    }
  }

  /** The chain goes up step by step. */
  ghost predicate Upwards(byName: map<string, Row>, name: string, chain: seq<BlockDevice>) {
    var upwards := forall i :: 0 <= i < |chain| ==> Up(byName, name, chain[i].name, i);
    upwards
  }

  lemma OneMoreUpwards(byName: map<string, Row>, name: string, chain: seq<BlockDevice>, d: BlockDevice)
    requires Upwards(byName, name, chain) && Up(byName, name, d.name, |chain|)
    ensures Upwards(byName, name, chain + [d])
  {
  }

  /** First the device and those its row leads up to, nearest first, then others. */
  ghost predicate AncestorsFirst(byName: map<string, Row>, name: string, chain: seq<BlockDevice>, n: nat) {
    var first := n <= |chain| && Upwards(byName, name, chain[..n]);
    first && forall i :: n <= i < |chain| ==> !Above(byName, name, chain[i].name)
  }

  lemma OneMoreBelow(byName: map<string, Row>, name: string, chain: seq<BlockDevice>, n: nat, d: BlockDevice)
    requires AncestorsFirst(byName, name, chain, n) && !Above(byName, name, d.name)
    ensures AncestorsFirst(byName, name, chain + [d], n)
  {
    assert (chain + [d])[..n] == chain[..n];
  }

  // ----- the way up is one -----

  lemma {:induction false} UpFrom(byName: map<string, Row>, a: string, b: string, c: string, j: nat, k: nat)
    requires Up(byName, a, b, j) && Up(byName, a, c, k) && j <= k
    ensures Up(byName, b, c, k - j)
    ensures j == k ==> b == c
    decreases k
  {
    if j == k {
      if k > 0 {
        var m :| Up(byName, a, m, j - 1) && m in byName && byName[m].parent == b && b != "";
        var n :| Up(byName, a, n, k - 1) && n in byName && byName[n].parent == c && c != "";
        UpFrom(byName, a, m, n, j - 1, k - 1);
      }
      NotEmpty(byName, a, b, j);
    } else {
      var n :| Up(byName, a, n, k - 1) && n in byName && byName[n].parent == c && c != "";
      UpFrom(byName, a, b, n, j, k - 1);
    }
  }

  lemma NotEmpty(byName: map<string, Row>, a: string, b: string, k: nat)
    requires Up(byName, a, b, k)
    ensures b != ""
  {
  }

  /** Without a known device, or without a parent, the way up ends. */
  lemma UpEnds(byName: map<string, Row>, a: string, b: string, k: nat, n: string, j: nat)
    requires Up(byName, a, b, k) && (b in byName ==> byName[b].parent == "")
    ensures Up(byName, a, n, j) ==> j <= k
  {
    if Up(byName, a, n, j) && k < j {
      UpFrom(byName, a, b, n, k, j);
      UpStarts(byName, b, n, j - k);
    }
  }

  lemma {:induction false} UpStarts(byName: map<string, Row>, a: string, b: string, k: nat)
    requires Up(byName, a, b, k) && k > 0
    ensures a in byName && byName[a].parent != ""
    decreases k
  {
    var m :| Up(byName, a, m, k - 1) && m in byName && byName[m].parent == b && b != "";
    if k > 1 { UpStarts(byName, a, m, k - 1); }
  }

  /** n is fewer than k steps up from a. */
  ghost predicate UpWithin(byName: map<string, Row>, a: string, n: string, k: nat) {
    exists j: nat :: j < k && Up(byName, a, n, j)
  }

  lemma UpOneMore(byName: map<string, Row>, a: string, cur: string, k: nat, n: string)
    requires Up(byName, a, cur, k)
    ensures UpWithin(byName, a, n, k + 1) <==> UpWithin(byName, a, n, k) || n == cur
  {
    if UpWithin(byName, a, n, k + 1) {
      var j: nat :| j < k + 1 && Up(byName, a, n, j);
      if j == k { UpFrom(byName, a, n, cur, j, k); } else { assert j < k && Up(byName, a, n, j); }
    }
    if UpWithin(byName, a, n, k) {
      var j: nat :| j < k && Up(byName, a, n, j);
      assert j < k + 1 && Up(byName, a, n, j);
    }
    assert k < k + 1 && Up(byName, a, cur, k);
  }

  /** On a graph without cycles the way up meets no device twice. */
  lemma UpMeetsOnce(byName: map<string, Row>, children: Children, a: string, b: string, j: nat, k: nat)
    requires Consistent(byName, children) && Acyclic(children)
    requires Up(byName, a, b, j) && j < k
    ensures !Up(byName, a, b, k)
  {
    if Up(byName, a, b, k) {
      UpFrom(byName, a, b, b, j, k);
      UpIsBelow(byName, children, b, b, k - j);
      assert StrictlyBelow(children, b, b);
    }
  }

  lemma {:induction false} NothingAboveNoName(byName: map<string, Row>, n: string, k: nat)
    ensures !Up(byName, "", n, k)
    decreases k
  {
    if k > 0 && Up(byName, "", n, k) {
      var m :| Up(byName, "", m, k - 1) && m in byName && byName[m].parent == n && n != "";
      NothingAboveNoName(byName, m, k - 1);
    }
  }

  ghost predicate SeenUp(byName: map<string, Row>, name: string, seen: set<string>, k: nat) {
    var up := forall n :: n in seen <==> UpWithin(byName, name, n, k);
    up
  }

  ghost predicate EndsBefore(byName: map<string, Row>, name: string, k: nat) {
    var ends := forall n, j: nat :: Up(byName, name, n, j) ==> j < k;
    ends
  }

  lemma NothingIsAboveNoName(byName: map<string, Row>)
    ensures EndsBefore(byName, "", 0)
  {
    forall n, j: nat ensures !Up(byName, "", n, j) { NothingAboveNoName(byName, n, j); }
  }

  lemma SeenOneMore(byName: map<string, Row>, name: string, seen: set<string>, cur: string, k: nat)
    requires SeenUp(byName, name, seen, k) && Up(byName, name, cur, k)
    ensures SeenUp(byName, name, seen + {cur}, k + 1)
  {
    forall n { UpOneMore(byName, name, cur, k, n); }
  }

  lemma NotMetBefore(byName: map<string, Row>, children: Children, name: string, seen: set<string>, cur: string, k: nat)
    requires Consistent(byName, children) && Acyclic(children)
    requires SeenUp(byName, name, seen, k) && Up(byName, name, cur, k)
    ensures cur !in seen
  {
    if cur in seen {
      var j: nat :| j < k && Up(byName, name, cur, j);
      UpMeetsOnce(byName, children, name, cur, j, k);
    }
  }

  lemma WayEnds(byName: map<string, Row>, name: string, cur: string, k: nat)
    requires Up(byName, name, cur, k) && (cur in byName ==> byName[cur].parent == "")
    ensures EndsBefore(byName, name, k + 1)
  {
    forall n, j: nat | Up(byName, name, n, j) ensures j < k + 1 { UpEnds(byName, name, cur, k, n, j); }
  }

  lemma SeenIsAbove(byName: map<string, Row>, name: string, seen: set<string>, k: nat)
    requires SeenUp(byName, name, seen, k) && EndsBefore(byName, name, k)
    ensures forall n :: n in seen <==> Above(byName, name, n)
  {
    forall n ensures UpWithin(byName, name, n, k) <==> Above(byName, name, n) {
      if Above(byName, name, n) {
        var j: nat :| Up(byName, name, n, j);
        assert j < k;
      }
    }
  }

  /** The walk up to cur, and the devices met before it. */
  ghost predicate Climbing(byName: map<string, Row>, name: string, seen: set<string>, chain: seq<BlockDevice>, cur: string) {
    var met := Upwards(byName, name, chain) && SeenUp(byName, name, seen, |chain|);
    var here := if cur != "" then Up(byName, name, cur, |chain|) else EndsBefore(byName, name, |chain|);
    met && here
  }

  lemma ClimbStarts(byName: map<string, Row>, name: string)
    ensures Climbing(byName, name, {}, [], name)
  {
    if name == "" { NothingIsAboveNoName(byName); }
  }

  lemma ClimbGoesOn(byName: map<string, Row>, children: Children, name: string, seen: set<string>, chain: seq<BlockDevice>, cur: string)
    requires Consistent(byName, children) && Acyclic(children) && Climbing(byName, name, seen, chain, cur) && cur != ""
    ensures cur !in seen && Upwards(byName, name, chain)
    ensures cur in byName ==> Climbing(byName, name, seen + {cur}, chain + [BlockDevice(cur, byName[cur].kind)], byName[cur].parent)
    ensures cur !in byName ==> forall n :: n in seen + {cur} <==> Above(byName, name, n)
  {
    NotMetBefore(byName, children, name, seen, cur, |chain|);
    SeenOneMore(byName, name, seen, cur, |chain|);
    if cur in byName {
      OneMoreUpwards(byName, name, chain, BlockDevice(cur, byName[cur].kind));
      if byName[cur].parent == "" {
        WayEnds(byName, name, cur, |chain|);
      } else {
        assert Up(byName, name, byName[cur].parent, |chain| + 1);
      }
    } else {
      WayEnds(byName, name, cur, |chain|);
      SeenIsAbove(byName, name, seen + {cur}, |chain| + 1);
    }
  }

  // ----- the order of the chain -----

  function Known(byName: map<string, Row>, s: seq<string>): seq<string>
    decreases |s|
  {
    if s == [] then [] else Known(byName, s[..|s| - 1]) + (if s[|s| - 1] in byName then [s[|s| - 1]] else [])
  }

  /** Behind the first n devices come the known ones of the levels below, each where it is first met. */
  ghost predicate ThenLevels(byName: map<string, Row>, children: Children, name: string, chain: seq<BlockDevice>, n: nat, d: nat) {
    n <= |chain| && Level(children, name, d + 1) == [] &&
    Names(chain) == Names(chain[..n]) + Fresh(Known(byName, LevelsTo(children, name, d)), SetOf(Names(chain[..n])))
  }

  lemma KnownLast(byName: map<string, Row>, s: seq<string>, x: string)
    ensures Known(byName, s + [x]) == Known(byName, s) + (if x in byName then [x] else [])
  {
    assert (s + [x])[..|s|] == s;
  }

  lemma {:induction false} KnownHas(byName: map<string, Row>, s: seq<string>, x: string)
    ensures x in Known(byName, s) <==> x in s && x in byName
    decreases |s|
  {
    if s != [] {
      KnownHas(byName, s[..|s| - 1], x);
      assert x in s <==> x in s[..|s| - 1] || x == s[|s| - 1];
    }
  }

  lemma {:induction false} FreshSame(s: seq<string>, a: set<string>, b: set<string>)
    requires forall x :: x in s ==> (x in a <==> x in b)
    ensures Fresh(s, a) == Fresh(s, b)
    decreases |s|
  {
    if s != [] { FreshSame(s[..|s| - 1], a, b); }
  }

  /** The devices listed so far are those of u, the levels as far as they were gone through. */
  ghost predicate ListedSoFar(byName: map<string, Row>, above: set<string>, before: seq<BlockDevice>, u: seq<string>,
    seen: set<string>, chain: seq<BlockDevice>)
  {
    var soFar := before <= chain && Names(chain) == Names(before) + Fresh(Known(byName, u), above) && seen == above + SetOf(u);
    soFar
  }

  lemma OneMoreListed(byName: map<string, Row>, above: set<string>, before: seq<BlockDevice>, u: seq<string>,
    seen: set<string>, chain: seq<BlockDevice>, x: string, longer: seq<BlockDevice>)
    requires ListedSoFar(byName, above, before, u, seen, chain)
    requires longer == if x !in seen && x in byName then chain + [BlockDevice(x, byName[x].kind)] else chain
    ensures ListedSoFar(byName, above, before, u + [x], seen + {x}, longer)
  {
    SetOfHas(u, x);
    SetOfConcat(u, [x]);
    SetOfOne(x);
    assert above + (SetOf(u) + {x}) == above + SetOf(u) + {x};
    assert x in seen <==> x in above || x in u;
    ListedNames(byName, above, before, u, chain, x, longer);
  }

  lemma ListedNames(byName: map<string, Row>, above: set<string>, before: seq<BlockDevice>, u: seq<string>,
    chain: seq<BlockDevice>, x: string, longer: seq<BlockDevice>)
    requires Names(chain) == Names(before) + Fresh(Known(byName, u), above)
    requires longer == if x !in above && x !in u && x in byName then chain + [BlockDevice(x, byName[x].kind)] else chain
    ensures Names(longer) == Names(before) + Fresh(Known(byName, u + [x]), above)
  {
    KnownFresh(byName, u, above, x);
    if x !in above && x !in u && x in byName { NamesOneMore(chain, BlockDevice(x, byName[x].kind)); }
    ListedBehind(Names(before), Fresh(Known(byName, u), above), Names(chain), x, Fresh(Known(byName, u + [x]), above), Names(longer));
  }

  lemma NamesOneMore(chain: seq<BlockDevice>, d: BlockDevice)
    ensures Names(chain + [d]) == Names(chain) + [d.name]
  {
  }

  lemma ListedBehind(before: seq<string>, added: seq<string>, names: seq<string>, x: string, more: seq<string>, longer: seq<string>)
    requires names == before + added
    requires (more == added && longer == names) || (more == added + [x] && longer == names + [x])
    ensures longer == before + more
  {
  }

  lemma SetOfOne(x: string)
    ensures SetOf([x]) == {x}
  {
    assert [x][..0] == [];
  }

  lemma KnownFresh(byName: map<string, Row>, u: seq<string>, above: set<string>, x: string)
    ensures Fresh(Known(byName, u + [x]), above) ==
      if x in byName && x !in above && x !in u then Fresh(Known(byName, u), above) + [x] else Fresh(Known(byName, u), above)
  {
    var known := Known(byName, u);
    KnownLast(byName, u, x);
    KnownHas(byName, u, x);
    FreshLast(known, above, x);
    assert known + [] == known && Fresh(known, above) + [] == Fresh(known, above);
  }

  lemma FreshLast(s: seq<string>, seen: set<string>, x: string)
    ensures Fresh(s + [x], seen) == Fresh(s, seen) + (if x in s || x in seen then [] else [x])
  {
    assert (s + [x])[..|s|] == s;
  }

  /** What holds between two steps: of the levels those of past are through, and i devices of the next. */
  ghost predicate ListingLevel(byName: map<string, Row>, children: Children, above: set<string>, before: seq<BlockDevice>,
    past: seq<string>, level: seq<string>, i: nat, queue: seq<string>, seen: set<string>, chain: seq<BlockDevice>)
  {
    var listing := i <= |level| && queue == level[i..] + Expand(children, level[..i]) &&
      ListedSoFar(byName, above, before, past + level[..i], seen, chain);
    listing
  }

  ghost predicate Listing(byName: map<string, Row>, children: Children, name: string, above: set<string>, before: seq<BlockDevice>,
    d: nat, i: nat, queue: seq<string>, seen: set<string>, chain: seq<BlockDevice>)
  {
    d > 0 &&
    ListingLevel(byName, children, above, before, LevelsTo(children, name, d - 1), Level(children, name, d), i, queue, seen, chain)
  }

  lemma LevelBegins(byName: map<string, Row>, children: Children, above: set<string>, before: seq<BlockDevice>,
    past: seq<string>, level: seq<string>, seen: set<string>, chain: seq<BlockDevice>)
    requires ListedSoFar(byName, above, before, past, seen, chain)
    ensures ListingLevel(byName, children, above, before, past, level, 0, level, seen, chain)
  {
    assert past + level[..0] == past && level[0..] + Expand(children, level[..0]) == level;
  }

  lemma LevelEnds(byName: map<string, Row>, children: Children, above: set<string>, before: seq<BlockDevice>,
    past: seq<string>, level: seq<string>, queue: seq<string>, seen: set<string>, chain: seq<BlockDevice>)
    requires ListingLevel(byName, children, above, before, past, level, |level|, queue, seen, chain)
    ensures queue == Expand(children, level) && ListedSoFar(byName, above, before, past + level, seen, chain)
  {
    assert level[..|level|] == level && level[|level|..] == [];
  }

  lemma LevelGoesOn(byName: map<string, Row>, children: Children, above: set<string>, before: seq<BlockDevice>,
    past: seq<string>, level: seq<string>, i: nat, queue: seq<string>, seen: set<string>, chain: seq<BlockDevice>, longer: seq<BlockDevice>)
    requires ListingLevel(byName, children, above, before, past, level, i, queue, seen, chain) && i < |level|
    requires longer == if level[i] !in seen && level[i] in byName then chain + [BlockDevice(level[i], byName[level[i]].kind)] else chain
    ensures queue != [] && queue[0] == level[i]
    ensures ListingLevel(byName, children, above, before, past, level, i + 1, queue[1..] + Below(children, level[i]), seen + {level[i]}, longer)
  {
    var x := level[i];
    OneMoreListed(byName, above, before, past + level[..i], seen, chain, x, longer);
    assert past + level[..i] + [x] == past + level[..i + 1];
    QueueGoesOn(children, level, i, queue);
  }

  lemma QueueGoesOn(children: Children, level: seq<string>, i: nat, queue: seq<string>)
    requires i < |level| && queue == level[i..] + Expand(children, level[..i])
    ensures queue[1..] + Below(children, level[i]) == level[i + 1..] + Expand(children, level[..i + 1])
  {
    assert level[..i + 1] == level[..i] + [level[i]];
    ExpandLast(children, level[..i], level[i]);
  }

  lemma ListingBegins(byName: map<string, Row>, children: Children, name: string, above: set<string>, before: seq<BlockDevice>)
    ensures Listing(byName, children, name, above, before, 1, 0, Below(children, name), above, before)
  {
    FirstLevel(children, name);
    assert Names(before) + [] == Names(before);
    LevelBegins(byName, children, above, before, LevelsTo(children, name, 0), Level(children, name, 1), above, before);
  }

  lemma FirstLevel(children: Children, name: string)
    ensures Level(children, name, 1) == Below(children, name)
  {
    ExpandLast(children, [], name);
    assert [] + [name] == [name];
    assert Level(children, name, 0) == [name];
    assert Level(children, name, 1) == Expand(children, Level(children, name, 0));
  }

  lemma NextListed(byName: map<string, Row>, children: Children, name: string, above: set<string>, before: seq<BlockDevice>,
    d: nat, i: nat, queue: seq<string>, seen: set<string>, chain: seq<BlockDevice>) returns (e: nat, j: nat)
    requires Listing(byName, children, name, above, before, d, i, queue, seen, chain) && queue != []
    ensures Listing(byName, children, name, above, before, e, j, queue, seen, chain) && j < |Level(children, name, e)|
  {
    e, j := d, i;
    if i == |Level(children, name, d)| {
      LevelIsListed(byName, children, name, above, before, d, queue, seen, chain);
      e, j := d + 1, 0;
    }
  }

  lemma LevelIsListed(byName: map<string, Row>, children: Children, name: string, above: set<string>, before: seq<BlockDevice>,
    d: nat, queue: seq<string>, seen: set<string>, chain: seq<BlockDevice>)
    requires Listing(byName, children, name, above, before, d, |Level(children, name, d)|, queue, seen, chain)
    ensures queue == Level(children, name, d + 1) && ListedSoFar(byName, above, before, LevelsTo(children, name, d), seen, chain)
    ensures Listing(byName, children, name, above, before, d + 1, 0, queue, seen, chain)
  {
    LevelEnds(byName, children, above, before, LevelsTo(children, name, d - 1), Level(children, name, d), queue, seen, chain);
    LevelBegins(byName, children, above, before, LevelsTo(children, name, d), Level(children, name, d + 1), seen, chain);
  }

  lemma ListingGoesOn(byName: map<string, Row>, children: Children, name: string, above: set<string>, before: seq<BlockDevice>,
    d: nat, i: nat, queue: seq<string>, seen: set<string>, chain: seq<BlockDevice>, longer: seq<BlockDevice>)
    requires Listing(byName, children, name, above, before, d, i, queue, seen, chain) && i < |Level(children, name, d)|
    requires queue != [] ==>
      longer == if queue[0] !in seen && queue[0] in byName then chain + [BlockDevice(queue[0], byName[queue[0]].kind)] else chain
    ensures queue != [] && Listing(byName, children, name, above, before, d, i + 1, queue[1..] + Below(children, queue[0]), seen + {queue[0]}, longer)
  {
    LevelFront(byName, children, above, before, LevelsTo(children, name, d - 1), Level(children, name, d), i, queue, seen, chain);
    LevelGoesOn(byName, children, above, before, LevelsTo(children, name, d - 1), Level(children, name, d), i, queue, seen, chain, longer);
  }

  lemma LevelFront(byName: map<string, Row>, children: Children, above: set<string>, before: seq<BlockDevice>,
    past: seq<string>, level: seq<string>, i: nat, queue: seq<string>, seen: set<string>, chain: seq<BlockDevice>)
    requires ListingLevel(byName, children, above, before, past, level, i, queue, seen, chain) && i < |level|
    ensures queue != [] && queue[0] == level[i]
  {
  }

  lemma ListingEnds(byName: map<string, Row>, children: Children, name: string, above: set<string>, before: seq<BlockDevice>,
    d: nat, i: nat, seen: set<string>, chain: seq<BlockDevice>)
    requires Listing(byName, children, name, above, before, d, i, [], seen, chain)
    ensures Level(children, name, d + 1) == [] && before <= chain
    ensures Names(chain) == Names(before) + Fresh(Known(byName, LevelsTo(children, name, d)), above)
  {
    if i < |Level(children, name, d)| {
      LevelFront(byName, children, above, before, LevelsTo(children, name, d - 1), Level(children, name, d), i, [], seen, chain);
    }
    LevelIsListed(byName, children, name, above, before, d, [], seen, chain);
  }

  lemma AfterAncestors(byName: map<string, Row>, children: Children, name: string, before: seq<BlockDevice>, above: set<string>,
    chain: seq<BlockDevice>, d: nat)
    requires Lists(before, above, byName) && before <= chain && Level(children, name, d + 1) == []
    requires Names(chain) == Names(before) + Fresh(Known(byName, LevelsTo(children, name, d)), above)
    ensures ThenLevels(byName, children, name, chain, |before|, d)
  {
    var known := Known(byName, LevelsTo(children, name, d));
    assert chain[..|before|] == before;
    forall x | x in known ensures x in above <==> x in SetOf(Names(before)) {
      KnownHas(byName, LevelsTo(children, name, d), x);
      SetOfHas(Names(before), x);
    }
    FreshSame(known, above, SetOf(Names(before)));
  }

  // ----- the graph, and its methods -----

  class BlockDeviceGraph {
    var byName: map<string, Row>
    var children: Children

    ghost predicate Valid()
      reads this
    {
      Consistent(byName, children)
    }

    /** Indexes the rows one by one. */
    constructor (rows: seq<Row>)
      ensures Valid() && byName == ByName(rows) && children == ChildrenOf(rows)
    {
      byName, children := map[], map[];
      new;
      for i := 0 to |rows|
        invariant byName == ByName(rows[..i]) && children == ChildrenOf(rows[..i])
      {
        assert rows[..i + 1][..i] == rows[..i];
        var row := rows[i];
        byName := byName[row.name := row];
        if row.parent != "" {
          children := children[row.parent := Below(children, row.parent) + [row.name]];
        }
      }
      assert rows[..|rows|] == rows;
      LoadedIsConsistent(rows);
    }

    /** The mount point of the first mounted device, in tree order; on any graph, cycles included. */
    method DescendMountPoint(name: string) returns (mountPoint: string, ok: bool)
      ensures ok ==> exists k, n :: FirstInTree(byName, children, name, k, n) && mountPoint == byName[n].mountPoint
      ensures !ok ==> forall k :: NoneMounted(byName, Level(children, name, k))
      ensures ok <==> exists n :: Mounted(byName, n) && Reaches(children, name, n)
      ensures ok ==> exists n, d: nat :: Nearest(byName, children, name, n, d) && mountPoint == byName[n].mountPoint
    {
      var queue, seen := [name], {};
      ghost var k: nat, i: nat := 0, 0;
      SearchBegins(byName, children, name);
      InsideBegins(children, name);
      ghost var world := World(children) + {name};
      while queue != []
        invariant Searching(byName, children, name, k, i, queue, seen)
        invariant Inside(world, queue, seen)
        decreases world - seen, |queue|
      {
        InsideGoesOn(children, world, queue, seen);
        k, i := NextOfLevel(byName, children, name, k, i, queue, seen);
        var cur := queue[0];
        if cur in seen {
          SearchSkips(byName, children, name, k, i, queue, seen);
          queue, i := queue[1..], i + 1;
          continue;
        }
        if cur in byName && byName[cur].mountPoint != "" {
          FoundIsFirst(byName, children, name, k, i, queue, seen);
          FirstIsNearest(byName, children, name, k, cur);
          return byName[cur].mountPoint, true;
        }
        SearchGoesDown(byName, children, name, k, i, queue, seen);
        seen := seen + {cur};
        queue, i := queue[1..] + Below(children, cur), i + 1;
      }
      NothingIsFound(byName, children, name, k, i, seen);
      NothingIsReached(byName, children, name);
      return "", false;
    }

    /** The walk up follows the row of each device; the walk down keeps no account of what it met,
        and ends because the graph has no cycle. */
    method RelatedChain(name: string) returns (chain: seq<BlockDevice>)
      requires Valid() && Acyclic(children)
      ensures NoRepeat(Names(chain))
      ensures forall n :: n in Names(chain) <==> n in byName && Related(byName, children, name, n)
      ensures forall d :: d in chain ==> d.name in byName && d.kind == byName[d.name].kind
      ensures exists n, d :: AncestorsFirst(byName, name, chain, n) && ThenLevels(byName, children, name, chain, n, d)
    {
      var above, before;
      above, before := AddAncestors(name);
      assert before[..|before|] == before;
      assert AncestorsFirst(byName, name, before, |before|);
      var seen;
      ghost var d;
      seen, chain, d := AddDescendants(name, above, before, |before|);
      AfterAncestors(byName, children, name, before, above, chain, d);
    }

    method AddDescendants(name: string, above: set<string>, before: seq<BlockDevice>, ghost k: nat)
      returns (seen: set<string>, chain: seq<BlockDevice>, ghost d: nat)
      requires Valid() && Acyclic(children) && Lists(before, above, byName)
      requires AncestorsFirst(byName, name, before, k) && forall n :: n in above <==> Above(byName, name, n)
      ensures Lists(chain, seen, byName) && AncestorsFirst(byName, name, chain, k)
      ensures forall n :: n in seen <==> Related(byName, children, name, n)
      ensures Level(children, name, d + 1) == [] && before <= chain
      ensures Names(chain) == Names(before) + Fresh(Known(byName, LevelsTo(children, name, d)), above)
    {
      seen, chain := above, before;
      var queue := Below(children, name);
      d := 1;
      ghost var i: nat := 0;
      ListingBegins(byName, children, name, above, before);
      forall n ensures Related(byName, children, name, n) <==> n in seen || Pending(children, queue, n) {
        BelowIsPending(children, name, n);
      }
      while queue != []
        invariant Lists(chain, seen, byName) && AncestorsFirst(byName, name, chain, k) && above <= seen
        invariant forall n :: Related(byName, children, name, n) <==> n in seen || Pending(children, queue, n)
        invariant Listing(byName, children, name, above, before, d, i, queue, seen, chain)
        decreases WaysOfAll(children, queue)
      {
        d, i := NextListed(byName, children, name, above, before, d, i, queue, seen, chain);
        var cur := queue[0];
        QueueShrinks(children, queue);
        forall n { PendingSplits(children, queue, n); }
        ghost var shorter := chain;
        chain := Add(seen, chain, cur);
        if chain != shorter { OneMoreBelow(byName, name, shorter, k, BlockDevice(cur, byName[cur].kind)); }
        ListingGoesOn(byName, children, name, above, before, d, i, queue, seen, shorter, chain);
        seen := seen + {cur};
        queue, i := queue[1..] + Below(children, cur), i + 1;
      }
      ListingEnds(byName, children, name, above, before, d, i, seen, chain);
    }

    /** The closure that adds a device once. */
    method Add(seen: set<string>, chain: seq<BlockDevice>, n: string) returns (r: seq<BlockDevice>)
      requires Valid() && Lists(chain, seen, byName)
      ensures Lists(r, seen + {n}, byName)
      ensures r == if n !in seen && n in byName then chain + [BlockDevice(n, byName[n].kind)] else chain
    {
      r := chain;
      if n !in seen && n in byName {
        r := chain + [BlockDevice(byName[n].name, byName[n].kind)];
        assert Names(r) == Names(chain) + [n];
      }
    }

    method AddAncestors(name: string) returns (seen: set<string>, chain: seq<BlockDevice>)
      requires Valid() && Acyclic(children)
      ensures Lists(chain, seen, byName) && Upwards(byName, name, chain)
      ensures forall n :: n in seen <==> Above(byName, name, n)
    {
      seen, chain := {}, [];
      var cur := name;
      ClimbStarts(byName, name);
      while cur != ""
        invariant Lists(chain, seen, byName) && Climbing(byName, name, seen, chain, cur)
        decreases byName.Keys - seen, if cur == "" then 0 else 1
      {
        ClimbGoesOn(byName, children, name, seen, chain, cur);
        chain := Add(seen, chain, cur);
        seen := seen + {cur};
        if cur !in byName {
          break;
        }
        cur := byName[cur].parent;
      }
      if cur == "" { SeenIsAbove(byName, name, seen, |chain|); }
    }

    /** Filters a chain down to the physical disks. */
    method PhysicalDeviceNames(chain: seq<BlockDevice>) returns (names: seq<string>)
      ensures forall n :: n in names <==> BlockDevice(n, "disk") in chain
      ensures names == DiskNames(chain)
    {
      names := [];
      for i := 0 to |chain|
        invariant forall n :: n in names <==> BlockDevice(n, "disk") in chain[..i]
        invariant names == DiskNames(chain[..i])
      {
        assert chain[..i + 1][..i] == chain[..i];
        if chain[i].kind == "disk" {
          names := names + [chain[i].name];
        }
      }
      assert chain[..|chain|] == chain;
    }
  }

  function DiskNames(chain: seq<BlockDevice>): seq<string>
    decreases |chain|
  {
    if chain == [] then []
    else
      var last := chain[|chain| - 1];
      DiskNames(chain[..|chain| - 1]) + (if last.kind == "disk" then [last.name] else [])
  }

  function IsDisk(chain: seq<BlockDevice>): nat -> bool {
    (i: nat) => i < |chain| && chain[i].kind == "disk"
  }

  function DeviceName(chain: seq<BlockDevice>): nat -> string {
    (i: nat) => if i < |chain| then chain[i].name else ""
  }

  /** The disks of a chain are listed in its order. */
  lemma {:induction false} DisksInOrder(chain: seq<BlockDevice>, n: nat) returns (at: seq<nat>)
    requires n <= |chain|
    ensures InOrder(DiskNames(chain[..n]), n, IsDisk(chain), DeviceName(chain), at)
    decreases n
  {
    at := [];
    if n > 0 {
      at := DisksInOrder(chain, n - 1);
      assert chain[..n][..n - 1] == chain[..n - 1];
      OneMoreInOrder(DiskNames(chain[..n - 1]), n - 1, IsDisk(chain), DeviceName(chain), at);
      if chain[n - 1].kind == "disk" { at := at + [n - 1]; }
    }
  }
}
