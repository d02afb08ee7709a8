/** The plain sorted sequence that the skip list of tc_skiplist.h stands for. */
module Ranking {

  /** An element of the leaderboard; the list orders elements by `second` alone. */
  datatype Key = Key(first: int, second: int)

  /** The comparison `m_stCmp`: `ascending` selects less-than, otherwise greater-than. */
  predicate Before(ascending: bool, a: Key, b: Key) {
    if ascending then a.second < b.second else a.second > b.second
  }

  ghost predicate Sorted(ascending: bool, ks: seq<Key>) {
    forall i, j :: 0 <= i < j < |ks| ==> !Before(ascending, ks[j], ks[i])
  }

  /** How many leading elements `key` does not come before. */
  function UpperBound(ascending: bool, ks: seq<Key>, key: Key): (u: nat)
    ensures u <= |ks|
    ensures forall k :: 0 <= k < u ==> !Before(ascending, key, ks[k])
    ensures u < |ks| ==> Before(ascending, key, ks[u])
  {
    if ks == [] || Before(ascending, key, ks[0]) then 0
    else 1 + UpperBound(ascending, ks[1..], key)
  }

  /** How many leading elements come before `key`. */
  function LowerBound(ascending: bool, ks: seq<Key>, key: Key): (l: nat)
    ensures l <= |ks|
    ensures forall k :: 0 <= k < l ==> Before(ascending, ks[k], key)
    ensures l < |ks| ==> !Before(ascending, ks[l], key)
  {
    if ks == [] || !Before(ascending, ks[0], key) then 0
    else 1 + LowerBound(ascending, ks[1..], key)
  }

  /** The number of elements whose score is `score`. */
  function CountScore(ks: seq<Key>, score: int): (c: nat) {
    if ks == [] then 0
    else (if ks[|ks| - 1].second == score then 1 else 0) + CountScore(ks[..|ks| - 1], score)
  }

  function InsertAt<T>(s: seq<T>, r: nat, x: T): seq<T>
    requires r <= |s|
  {
    s[..r] + [x] + s[r..]
  }

  function RemoveAt<T>(s: seq<T>, r: nat): seq<T>
    requires r < |s|
  {
    s[..r] + s[r + 1..]
  }

  lemma InsertKeepsSorted(ascending: bool, ks: seq<Key>, key: Key)
    requires Sorted(ascending, ks)
    ensures Sorted(ascending, InsertAt(ks, UpperBound(ascending, ks, key), key))
  {
    var u := UpperBound(ascending, ks, key);
    var s := InsertAt(ks, u, key);
    forall i, j | 0 <= i < j < |s| ensures !Before(ascending, s[j], s[i]) {
      if j == u {
        assert s[i] == ks[i];
      } else if i == u {
        assert s[j] == ks[j - 1];
      } else {
        assert s[i] == ks[if i < u then i else i - 1];
        assert s[j] == ks[if j < u then j else j - 1];
      }
    }
  }

  lemma RemoveKeepsSorted(ascending: bool, ks: seq<Key>, r: nat)
    requires Sorted(ascending, ks) && r < |ks|
    ensures Sorted(ascending, RemoveAt(ks, r))
  {
    var s := RemoveAt(ks, r);
    forall i, j | 0 <= i < j < |s| ensures !Before(ascending, s[j], s[i]) {
      assert s[i] == ks[if i < r then i else i + 1];
      assert s[j] == ks[if j < r then j else j + 1];
    }
  }

  // ---------- in terms of the scores ----------

  /** In order means: the scores never decrease when ascending, and never increase otherwise. */
  lemma SortedScores(ascending: bool, ks: seq<Key>)
    ensures Sorted(ascending, ks) <==>
      forall i, j :: 0 <= i < j < |ks| ==>
        if ascending then ks[i].second <= ks[j].second else ks[i].second >= ks[j].second
  {
    assert forall i, j :: 0 <= i < j < |ks| && Sorted(ascending, ks) ==> !Before(ascending, ks[j], ks[i]);
  }

  /** A key belongs behind the scores at least as good as its own and in front of the worse ones. */
  ghost predicate Divides(ascending: bool, ks: seq<Key>, score: int, u: nat) {
    && u <= |ks|
    && (forall k :: 0 <= k < u ==> if ascending then ks[k].second <= score else ks[k].second >= score)
    && (forall k :: u <= k < |ks| ==> if ascending then ks[k].second > score else ks[k].second < score)
  }

  lemma UpperBoundDivides(ascending: bool, ks: seq<Key>, key: Key)
    requires Sorted(ascending, ks)
    ensures Divides(ascending, ks, key.second, UpperBound(ascending, ks, key))
  {
    var u := UpperBound(ascending, ks, key);
    SortedScores(ascending, ks);
    assert forall k :: 0 <= k < u ==> !Before(ascending, key, ks[k]);
  }

  /** The first element of a score stands behind the better scores, the last one in front of the worse ones. */
  lemma LowerBoundFirst(ascending: bool, ks: seq<Key>, key: Key)
    requires Sorted(ascending, ks)
    ensures var l := LowerBound(ascending, ks, key);
      && (forall k :: 0 <= k < l ==> ks[k].second != key.second)
      && (l == |ks| || ks[l].second != key.second ==> forall k :: 0 <= k < |ks| ==> ks[k].second != key.second)
  {
    BoundsCountScore(ascending, ks, key);
  }

  lemma UpperBoundLast(ascending: bool, ks: seq<Key>, key: Key)
    requires Sorted(ascending, ks)
    ensures var u := UpperBound(ascending, ks, key);
      && (forall k :: u <= k < |ks| ==> ks[k].second != key.second)
      && (u == 0 || ks[u - 1].second != key.second ==> forall k :: 0 <= k < |ks| ==> ks[k].second != key.second)
  {
    BoundsCountScore(ascending, ks, key);
  }

  lemma UpperBoundIs(ascending: bool, ks: seq<Key>, key: Key, u: nat)
    requires Sorted(ascending, ks) && u <= |ks|
    requires u == 0 || !Before(ascending, key, ks[u - 1])
    requires u == |ks| || Before(ascending, key, ks[u])
    ensures UpperBound(ascending, ks, key) == u
  {
    var b := UpperBound(ascending, ks, key);
    assert b < u - 1 ==> !Before(ascending, ks[u - 1], ks[b]);
  }

  lemma LowerBoundIs(ascending: bool, ks: seq<Key>, key: Key, l: nat)
    requires Sorted(ascending, ks) && l <= |ks|
    requires l == 0 || Before(ascending, ks[l - 1], key)
    requires l == |ks| || !Before(ascending, ks[l], key)
    ensures LowerBound(ascending, ks, key) == l
  {
    var b := LowerBound(ascending, ks, key);
    assert b < l - 1 ==> !Before(ascending, ks[l - 1], ks[b]);
  }

  /** In a sorted sequence the elements scoring `key.second` fill exactly the gap between the two bounds. */
  lemma {:induction false} BoundsCountScore(ascending: bool, ks: seq<Key>, key: Key)
    requires Sorted(ascending, ks)
    ensures LowerBound(ascending, ks, key) <= UpperBound(ascending, ks, key)
    ensures forall k :: 0 <= k < |ks| ==>
      (ks[k].second == key.second <==>
       LowerBound(ascending, ks, key) <= k < UpperBound(ascending, ks, key))
    ensures CountScore(ks, key.second) == UpperBound(ascending, ks, key) - LowerBound(ascending, ks, key)
  {
    var l, u := LowerBound(ascending, ks, key), UpperBound(ascending, ks, key);
    forall k | 0 <= k < |ks|
      ensures ks[k].second == key.second <==> l <= k < u
    {
      assert l < k ==> !Before(ascending, ks[k], ks[l]);
      assert u < k ==> !Before(ascending, ks[k], ks[u]);
    }
    CountRun(ks, key.second, l, u);
  }

  lemma {:induction false} CountRun(ks: seq<Key>, score: int, l: nat, u: nat)
    requires l <= u <= |ks|
    requires forall k :: 0 <= k < |ks| ==> (ks[k].second == score <==> l <= k < u)
    ensures CountScore(ks, score) == u - l
  {
    if ks == [] {
    } else {
      var n := |ks| - 1;
      var init := ks[..n];
      assert ks[n].second == score <==> l <= n < u;
      if u == |ks| && l < u {
        CountRun(init, score, l, n);
      } else if u == |ks| {
        CountRun(init, score, n, n);
      } else {
        CountRun(init, score, l, u);
      }
    }
  }

  /**
   A sequence is in order both ways only when all its scores are equal, so `SetCmp` on any other list
   breaks the order.
   */
  lemma SortedBothWays(ks: seq<Key>)
    ensures Sorted(true, ks) && Sorted(false, ks) <==>
      forall i, j :: 0 <= i < j < |ks| ==> ks[i].second == ks[j].second
  {
    forall i, j | 0 <= i < j < |ks| && Sorted(true, ks) && Sorted(false, ks)
      ensures ks[i].second == ks[j].second
    {
      assert !Before(true, ks[j], ks[i]) && !Before(false, ks[j], ks[i]);
    }
  }

  // ---------- runs of operations ----------

  /** A client's operation: add a key, or erase the element of a rank (of no effect beyond the last rank). */
  datatype Op = Add(key: Key) | Remove(rank: nat)

  /** The sequence after one operation, and the rank that it reports (0 for an erasure). */
  function Report(ascending: bool, ks: seq<Key>, op: Op): (seq<Key>, nat) {
    match op
    case Add(key) =>
      var u := UpperBound(ascending, ks, key);
      (InsertAt(ks, u, key), u + 1)
    case Remove(rank) =>
      (if 1 <= rank <= |ks| then RemoveAt(ks, rank - 1) else ks, 0)
  }

  /** The sequence after a run, and all the ranks reported. */
  function Replay(ascending: bool, ops: seq<Op>): (r: (seq<Key>, seq<nat>))
    ensures |r.1| == |ops|
  {
    if ops == [] then ([], []) else
    var (ks, ranks) := Replay(ascending, ops[..|ops| - 1]);
    var (ks', rank) := Report(ascending, ks, ops[|ops| - 1]);
    (ks', ranks + [rank])
  }

  lemma {:induction false} ReplaySorted(ascending: bool, ops: seq<Op>)
    ensures Sorted(ascending, Replay(ascending, ops).0)
  {
    if ops == [] {
    } else {
      var op := ops[|ops| - 1];
      var ks := Replay(ascending, ops[..|ops| - 1]).0;
      ReplaySorted(ascending, ops[..|ops| - 1]);
      match op
      case Add(key) => InsertKeepsSorted(ascending, ks, key);
      case Remove(rank) =>
        if 1 <= rank <= |ks| {
          RemoveKeepsSorted(ascending, ks, rank - 1);
        }
    }
  }

  lemma ReplayNone(ascending: bool)
    ensures Replay(ascending, []) == ([], []) && Sorted(ascending, [])
  {
  }

  lemma ReplayMore(ascending: bool, ops: seq<Op>, n: nat)
    requires n < |ops|
    ensures var (ks, ranks) := Replay(ascending, ops[..n]);
      var (ks', rank) := Report(ascending, ks, ops[n]);
      Sorted(ascending, ks) && Replay(ascending, ops[..n + 1]) == (ks', ranks + [rank])
  {
    assert ops[..n + 1][..n] == ops[..n];
    ReplaySorted(ascending, ops[..n]);
  }
}
