/** Whole runs of the skip list: what clients see does not depend on the tower heights drawn. */
module SkipRuns {
  import opened Ranking
  import opened SkipTowers
  import opened SkipLists

  /** Run the operations on a fresh list, drawing the tower heights `heights`. */
  method Run(less: bool, ops: seq<Op>, heights: seq<nat>) returns (ks: seq<Key>, ranks: seq<nat>)
    requires |heights| == |ops|
    requires forall k :: 0 <= k < |heights| ==> 1 <= heights[k] <= MAX_SKIPLIST_LEVEL
    ensures (ks, ranks) == Replay(less, ops)
  {
    hide SkipList.Framed, Levels, Sorted, Replay, Report;
    var list := new SkipList();
    list.SetCmp(less);
    ranks := [];
    var n := 0;
    ReplayNone(less);
    while n < |ops|
      invariant 0 <= n <= |ops| && list.Linked() && list.ascending == less
      invariant fresh(list) && fresh(list.spine)
      invariant (list.Keys(), ranks) == Replay(less, ops[..n])
    {
      ReplayMore(less, ops, n);
      var rank := Step(list, ops[n], heights[n]);
      ranks := ranks + [rank];
      n := n + 1;
    }
    assert ops[..n] == ops;
    ks := list.Iterate();
  }

  method Step(list: SkipList, op: Op, height: nat) returns (rank: nat)
    requires list.Linked() && list.Ordered() && 1 <= height <= MAX_SKIPLIST_LEVEL
    modifies list, list.spine
    ensures list.Linked() && list.Ordered() && list.ascending == old(list.ascending)
    ensures forall k :: 0 <= k < |list.spine| ==> list.spine[k] in old(list.spine) || fresh(list.spine[k])
    ensures (list.Keys(), rank) == Report(list.ascending, old(list.Keys()), op)
  {
    hide SkipList.Framed, Levels, Sorted, UpperBound, KeysOf;
    list.Bounds();
    match op {
      case Add(key) =>
        var it;
        rank, it := list.Insert(key, height);
      case Remove(r) =>
        rank := 0;
        if 1 <= r <= list.length {
          var it := list.AtRank(r);
          list.OnlyHeader(r);
          var next := list.Erase(it, r);
        } else {
          var next := list.Erase(list.header, 0);
        }
    }
  }

  /** Two lists given the same operations but different random heights report the same ranks and iterate alike. */
  method SameForAllHeights(less: bool, ops: seq<Op>, hs1: seq<nat>, hs2: seq<nat>)
    returns (ks1: seq<Key>, ranks1: seq<nat>, ks2: seq<Key>, ranks2: seq<nat>)
    requires |hs1| == |ops| == |hs2|
    requires forall k :: 0 <= k < |hs1| ==> 1 <= hs1[k] <= MAX_SKIPLIST_LEVEL
    requires forall k :: 0 <= k < |hs2| ==> 1 <= hs2[k] <= MAX_SKIPLIST_LEVEL
    ensures ks1 == ks2 && ranks1 == ranks2
  {
    ks1, ranks1 := Run(less, ops, hs1);
    ks2, ranks2 := Run(less, ops, hs2);
  }

  /** Two elements, the first on two levels and the last on one: looking up rank 2 yields the end. */
  method LastRankMissed(first: Key, last: Key) returns (list: SkipList, it: Node)
    requires Before(false, first, last)
    ensures list.Linked() && list.Keys() == [first, last] && it == list.header
  {
    list := new SkipList();
    var r1, it1 := list.Insert(first, 2);
    var r2, it2 := list.Insert(last, 1);
    it := list.FindByRank(2);
  }
}
