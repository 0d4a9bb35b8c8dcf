/** What the modules share about values that may be missing and lists. */
module Collections {

  datatype Option<T> = None | Some(value: T)

  predicate NoRepeat<T(==)>(s: seq<T>) {
    forall i, j :: 0 <= i < j < |s| ==> s[i] != s[j]
  }

  /** r has the values of the picked indices below n, each once and in order; at says where they come from. */
  ghost predicate InOrder<T(!new)>(r: seq<T>, n: nat, picked: nat -> bool, value: nat -> T, at: seq<nat>) {
    var from := |at| == |r| && forall k :: 0 <= k < |at| ==> at[k] < n && picked(at[k]) && r[k] == value(at[k]);
    var increasing := forall k, l :: 0 <= k < l < |at| ==> at[k] < at[l];
    var covering := forall i: nat :: i < n && picked(i) ==> i in at;
    from && increasing && covering
  }

  lemma OneMoreInOrder<T(!new)>(r: seq<T>, n: nat, picked: nat -> bool, value: nat -> T, at: seq<nat>)
    requires InOrder(r, n, picked, value, at)
    ensures !picked(n) ==> InOrder(r, n + 1, picked, value, at)
    ensures picked(n) ==> InOrder(r + [value(n)], n + 1, picked, value, at + [n])
  {
    if picked(n) {
      var more := at + [n];
      forall i: nat | i < n + 1 && picked(i) ensures i in more { assert i < n ==> i in at; assert more[|at|] == n; }
    }
  }
}
