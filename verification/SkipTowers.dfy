/**
 Towers over a sequence of nodes.  `sp`, the spine, lists the nodes in level-0 order with the
 header at position 0, so that the position of a node is its rank.  `LinkAt` says what every
 link of every tower must be, as a function of the spine and the tower heights alone.
 */
module SkipTowers {
  import opened Ranking

  const MAX_SKIPLIST_LEVEL: nat := 32

  datatype Link = Link(forward: Node?, backward: Node?, span: nat)

  class Node {
    const key: Key
    const height: nat
    var level: seq<Link>

    /** `CreateNode`: a tower has at least one level and starts with null links. */
    constructor (levels: nat, key: Key)
      ensures this.key == key
      ensures this.height == if levels == 0 then 1 else levels
      ensures this.level == seq(this.height, _ => Link(null, null, 0))
    {
      this.key := key;
      this.height := if levels == 0 then 1 else levels;
      this.level := seq(if levels == 0 then 1 else levels, _ => Link(null, null, 0));
    }
  }

  // ---------- links as a function of the spine ----------

  /** The first position after `p` whose tower is taller than `i`; `|sp|` stands for the header as end. */
  ghost function Next(sp: seq<Node>, p: nat, i: nat): (q: nat)
    requires p < |sp|
    ensures p < q <= |sp|
    decreases |sp| - p
  {
    if p + 1 == |sp| || sp[p + 1].height > i then p + 1 else Next(sp, p + 1, i)
  }

  /** The last position before `k` whose tower is taller than `i`. */
  ghost function Last(sp: seq<Node>, k: nat, i: nat): (q: nat)
    requires 1 <= k <= |sp| && sp[0].height > i
    ensures q < k && sp[q].height > i
  {
    if sp[k - 1].height > i then k - 1 else Last(sp, k - 1, i)
  }

  /** The position a link to `q` leads to: past the last node comes the header. */
  ghost function Wrap(sp: seq<Node>, q: nat): (w: nat)
    requires 0 < |sp| && q <= |sp|
    ensures w < |sp|
  {
    if q == |sp| then 0 else q
  }

  /** The rank a span is measured to: the header as end counts as the length of the list. */
  ghost function RankOf(sp: seq<Node>, q: nat): (r: nat)
    requires 0 < |sp| && q <= |sp|
    ensures r < |sp|
  {
    if q == |sp| then |sp| - 1 else q
  }

  ghost function Forward(sp: seq<Node>, p: nat, i: nat): Node
    requires p < |sp|
  {
    sp[Wrap(sp, Next(sp, p, i))]
  }

  ghost function Backward(sp: seq<Node>, p: nat, i: nat): Node
    requires p < |sp| && sp[0].height > i
  {
    sp[Last(sp, if p == 0 then |sp| else p, i)]
  }

  ghost function Span(sp: seq<Node>, p: nat, i: nat): nat
    requires p < |sp|
  {
    RankOf(sp, Next(sp, p, i)) - p
  }

  /** The link that the node at position `p` has on level `i`. */
  ghost function LinkAt(sp: seq<Node>, p: nat, i: nat): Link
    requires p < |sp| && sp[0].height > i
  {
    Link(Forward(sp, p, i), Backward(sp, p, i), Span(sp, p, i))
  }

  /** The towers' links by position: as many rows as nodes, each as long as the tower is high. */
  ghost predicate Shape(sp: seq<Node>, ls: seq<seq<Link>>) {
    && 0 < |sp| == |ls|
    && sp[0].height == MAX_SKIPLIST_LEVEL
    && (forall p :: 0 <= p < |sp| ==> 1 <= sp[p].height <= MAX_SKIPLIST_LEVEL && |ls[p]| == sp[p].height)
  }

  ghost predicate LevelOk(sp: seq<Node>, ls: seq<seq<Link>>, i: nat)
    requires Shape(sp, ls) && i < MAX_SKIPLIST_LEVEL
  {
    forall p :: 0 <= p < |sp| && sp[p].height > i ==> ls[p][i] == LinkAt(sp, p, i)
  }

  /** A level not in use is an empty circle, whose span may be stale. */
  ghost predicate Unused(sp: seq<Node>, ls: seq<seq<Link>>, i: nat)
    requires Shape(sp, ls) && i < MAX_SKIPLIST_LEVEL
  {
    ls[0][i].forward == sp[0] && ls[0][i].backward == sp[0]
  }

  /** With `n` levels in use: every link of a level in use is as `LinkAt` says, and no node is taller. */
  ghost predicate Levels(sp: seq<Node>, ls: seq<seq<Link>>, n: nat) {
    && Shape(sp, ls) && n <= MAX_SKIPLIST_LEVEL
    && (forall p :: 1 <= p < |sp| ==> sp[p].height <= n)
    && (forall i :: 0 <= i < n ==> LevelOk(sp, ls, i))
    && (forall i :: n <= i < MAX_SKIPLIST_LEVEL ==> Unused(sp, ls, i))
  }

  /** Only links of level `i` differ. */
  ghost predicate SameBut(ls: seq<seq<Link>>, ls': seq<seq<Link>>, i: nat) {
    && |ls| == |ls'|
    && (forall p :: 0 <= p < |ls| ==> |ls[p]| == |ls'[p]|)
    && (forall p, j :: 0 <= p < |ls| && 0 <= j < |ls[p]| && j != i ==> ls'[p][j] == ls[p][j])
  }

  // ---------- what Next and Last find, and that nothing else satisfies it ----------

  lemma {:induction false} NextGap(sp: seq<Node>, p: nat, i: nat)
    requires p < |sp|
    ensures var q := Next(sp, p, i);
      && (q < |sp| ==> sp[q].height > i)
      && forall k :: p < k < q ==> sp[k].height <= i
    decreases |sp| - p
  {
    if p + 1 < |sp| && sp[p + 1].height <= i {
      NextGap(sp, p + 1, i);
    }
  }

  lemma {:induction false} LastGap(sp: seq<Node>, k: nat, i: nat)
    requires 1 <= k <= |sp| && sp[0].height > i
    ensures forall j :: Last(sp, k, i) < j < k ==> sp[j].height <= i
  {
    if sp[k - 1].height <= i {
      LastGap(sp, k - 1, i);
    }
  }

  lemma NextIs(sp: seq<Node>, p: nat, q: nat, i: nat)
    requires p < q <= |sp|
    requires q < |sp| ==> sp[q].height > i
    requires forall k :: p < k < q ==> sp[k].height <= i
    ensures Next(sp, p, i) == q
  {
    NextGap(sp, p, i);
  }

  lemma LastIs(sp: seq<Node>, k: nat, q: nat, i: nat)
    requires q < k <= |sp| && sp[0].height > i
    requires sp[q].height > i
    requires forall j :: q < j < k ==> sp[j].height <= i
    ensures Last(sp, k, i) == q
  {
    LastGap(sp, k, i);
  }

  /** The node before and the node after a gap are linked to each other. */
  lemma LastNext(sp: seq<Node>, r: nat, i: nat)
    requires 1 <= r <= |sp| && sp[0].height > i
    ensures var a := Last(sp, r, i);
      && Next(sp, a, i) >= r
      && Last(sp, Next(sp, a, i), i) == a
      && Last(sp, if Wrap(sp, Next(sp, a, i)) == 0 then |sp| else Wrap(sp, Next(sp, a, i)), i) == a
  {
    var a := Last(sp, r, i);
    LastGap(sp, r, i);
    NextGap(sp, a, i);
    LastIs(sp, Next(sp, a, i), a, i);
  }

  // ---------- the rows of links ----------

  ghost function Put(ls: seq<seq<Link>>, p: nat, i: nat, link: Link): (ls': seq<seq<Link>>)
    requires p < |ls| && i < |ls[p]|
    ensures |ls'| == |ls| && forall q :: 0 <= q < |ls| ==> |ls'[q]| == |ls[q]|
  {
    ls[p := ls[p][i := link]]
  }

  lemma PutRows(ls: seq<seq<Link>>, p: nat, i: nat, link: Link)
    requires p < |ls| && i < |ls[p]|
    ensures SameBut(ls, Put(ls, p, i, link), i)
    ensures forall q :: 0 <= q < |ls| && q != p ==> Put(ls, p, i, link)[q] == ls[q]
    ensures Put(ls, p, i, link)[p][i] == link
  {
  }

  lemma KeepLevels(sp: seq<Node>, ls: seq<seq<Link>>, ls': seq<seq<Link>>, i: nat)
    requires Shape(sp, ls) && Shape(sp, ls') && SameBut(ls, ls', i)
    ensures forall j :: 0 <= j < MAX_SKIPLIST_LEVEL && j != i && LevelOk(sp, ls, j) ==> LevelOk(sp, ls', j)
  {
  }

  lemma WrapTall(sp: seq<Node>, p: nat, i: nat)
    requires p < |sp| && sp[0].height > i
    ensures sp[Wrap(sp, Next(sp, p, i))].height > i
  {
    NextGap(sp, p, i);
  }

  lemma EmptyLevel(sp: seq<Node>, ls: seq<seq<Link>>, i: nat)
    requires Shape(sp, ls) && i < MAX_SKIPLIST_LEVEL
    requires forall p :: 1 <= p < |sp| ==> sp[p].height <= i
    requires ls[0][i] == Link(sp[0], sp[0], |sp| - 1)
    ensures LevelOk(sp, ls, i)
  {
    NextIs(sp, 0, |sp|, i);
    LastIs(sp, |sp|, 0, i);
  }

  lemma RaiseLevels(sp: seq<Node>, ls: seq<seq<Link>>, n: nat)
    requires Levels(sp, ls, n) && n < MAX_SKIPLIST_LEVEL
    ensures Levels(sp, Put(ls, 0, n, ls[0][n].(span := |sp| - 1)), n + 1)
  {
    assert Unused(sp, ls, n);
    var link := ls[0][n].(span := |sp| - 1);
    var ls' := Put(ls, 0, n, link);
    PutRows(ls, 0, n, link);
    EmptyLevel(sp, ls', n);
    KeepLevels(sp, ls, ls', n);
    forall i | 0 <= i < MAX_SKIPLIST_LEVEL && i != n
      ensures if i < n then LevelOk(sp, ls', i) else Unused(sp, ls', i)
    {
      if i < n {
        assert LevelOk(sp, ls, i);
      } else {
        assert Unused(sp, ls, i) && ls'[0][i] == ls[0][i];
      }
    }
  }

  // ---------- the keys in rank order ----------

  ghost function KeysOf(sp: seq<Node>): (ks: seq<Key>)
    requires 0 < |sp|
    ensures |ks| == |sp| - 1
    ensures forall k :: 0 <= k < |ks| ==> ks[k] == sp[k + 1].key
  {
    seq(|sp| - 1, k requires 0 <= k < |sp| - 1 => sp[k + 1].key)
  }
}
