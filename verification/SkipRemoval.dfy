/**
 How the links change when a node leaves the skip list.  `sp` is the spine without the node,
 `r` the position `x` had; the rows `ls` still include the row of `x`.
 */
module SkipRemoval {
  import opened Ranking
  import opened SkipTowers
  import opened SkipInsertion

  /** On level `i` the other towers already have their links as without `x`. */
  ghost predicate Left(sp: seq<Node>, ls: seq<seq<Link>>, r: nat, x: Node, i: nat)
    requires 1 <= r <= |sp| && Shape(InsertAt(sp, r, x), ls) && sp[0].height > i
  {
    forall p :: 0 <= p < |sp| && sp[p].height > i ==>
      Tall(sp, ls, r, x, p, i) && ls[Shift(r, p)][i] == LinkAt(sp, p, i)
  }

  ghost predicate Tall(sp: seq<Node>, ls: seq<seq<Link>>, r: nat, x: Node, p: nat, i: nat)
    requires r <= |sp| && p < |sp|
  {
    Shift(r, p) < |ls| && i < |ls[Shift(r, p)]|
  }

  /** The loops of `erase` have done the levels below `i`. */
  ghost predicate Leaving(sp: seq<Node>, ls: seq<seq<Link>>, n: nat, r: nat, x: Node, i: nat) {
    && 1 <= r <= |sp| && sp[0].height == MAX_SKIPLIST_LEVEL
    && Shape(InsertAt(sp, r, x), ls)
    && i <= n <= MAX_SKIPLIST_LEVEL && 1 <= x.height == |ls[r]| <= n
    && (forall p :: 1 <= p < |sp| ==> sp[p].height <= n)
    && (forall j :: 0 <= j < x.height ==> ls[r][j] == OwnLink(sp, r, j))
    && (forall j :: 0 <= j < i ==> Left(sp, ls, r, x, j))
    && (forall j :: i <= j < n ==> LevelOk(InsertAt(sp, r, x), ls, j))
    && (forall j :: n <= j < MAX_SKIPLIST_LEVEL ==> Unused(InsertAt(sp, r, x), ls, j))
  }

  lemma RemoveInsert<T>(s: seq<T>, r: nat)
    requires r < |s|
    ensures InsertAt(RemoveAt(s, r), r, s[r]) == s
  {
  }

  lemma RemovedAt<T>(s: seq<T>, r: nat)
    requires r < |s|
    ensures |RemoveAt(s, r)| == |s| - 1
    ensures r + 1 < |s| ==> RemoveAt(s, r)[r] == s[r + 1]
  {
  }

  lemma ShapeRow(sp: seq<Node>, ls: seq<seq<Link>>, r: nat, x: Node, p: nat)
    requires 1 <= r <= |sp| && p < |sp| && Shape(InsertAt(sp, r, x), ls)
    ensures Shift(r, p) < |ls| && |ls[Shift(r, p)]| == sp[p].height
    ensures InsertAt(sp, r, x)[Shift(r, p)] == sp[p]
    ensures r < |ls| && InsertAt(sp, r, x)[r] == x && |ls[r]| == x.height
    ensures 1 <= sp[p].height <= MAX_SKIPLIST_LEVEL
    ensures sp[0].height == MAX_SKIPLIST_LEVEL && InsertAt(sp, r, x)[0] == sp[0]
  {
    InsertedAt(sp, r, x, 0);
    InsertedAt(sp, r, x, r);
    InsertedAt(sp, r, x, Shift(r, p));
  }

  /** What a level not yet done says about the other nodes. */
  lemma OldRow(sp: seq<Node>, ls: seq<seq<Link>>, r: nat, x: Node, p: nat, i: nat)
    requires 1 <= r <= |sp| && p < |sp| && Shape(InsertAt(sp, r, x), ls) && sp[p].height > i
    requires i < MAX_SKIPLIST_LEVEL && LevelOk(InsertAt(sp, r, x), ls, i)
    ensures sp[0].height > i && Tall(sp, ls, r, x, p, i)
    ensures ls[Shift(r, p)][i] == InsertedLink(sp, r, x, p, i)
  {
    ShapeRow(sp, ls, r, x, p);
    InsertLink(sp, r, x, p, i);
  }

  lemma LeavingBounds(sp: seq<Node>, ls: seq<seq<Link>>, n: nat, r: nat, x: Node, i: nat)
    requires Leaving(sp, ls, n, r, x, i)
    ensures 1 <= r <= |sp| && sp[0].height == MAX_SKIPLIST_LEVEL >= n
    ensures r < |ls| == |sp| + 1 && 1 <= x.height == |ls[r]| <= n && i <= n
  {
  }

  lemma LeavingStart(full: seq<Node>, ls: seq<seq<Link>>, n: nat, r: nat)
    requires Levels(full, ls, n) && 1 <= r < |full|
    ensures Leaving(RemoveAt(full, r), ls, n, r, full[r], 0)
  {
    var sp, x := RemoveAt(full, r), full[r];
    RemoveInsert(full, r);
    forall j | 0 <= j < x.height ensures ls[r][j] == OwnLink(sp, r, j) {
      assert LevelOk(full, ls, j);
      InsertOwnLink(sp, r, x, j);
    }
    forall p | 1 <= p < |sp| ensures sp[p].height <= n {
      ShapeRow(sp, ls, r, x, p);
    }
  }

  lemma KeepLeaving(sp: seq<Node>, ls: seq<seq<Link>>, ls': seq<seq<Link>>, n: nat, r: nat, x: Node, i: nat)
    requires Leaving(sp, ls, n, r, x, i) && i < n
    requires SameBut(ls, ls', i) && ls'[r] == ls[r]
    requires forall p :: 0 <= p < |sp| && sp[p].height > i ==>
      Tall(sp, ls', r, x, p, i) && ls'[Shift(r, p)][i] == LinkAt(sp, p, i)
    ensures Leaving(sp, ls', n, r, x, i + 1)
  {
    var full := InsertAt(sp, r, x);
    assert Shape(full, ls');
    forall j | 0 <= j < i ensures Left(sp, ls', r, x, j) {
      assert Left(sp, ls, r, x, j);
    }
    forall j | i < j < n ensures LevelOk(full, ls', j) {
      assert LevelOk(full, ls, j);
    }
    forall j | n <= j < MAX_SKIPLIST_LEVEL ensures Unused(full, ls', j) {
      assert Unused(full, ls, j);
    }
  }

  /** The three assignments to the neighbours' links in one turn of the unlinking loop of `erase`. */
  ghost function Unsplice(ls: seq<seq<Link>>, r: nat, a: nat, w: nat, i: nat): (ls': seq<seq<Link>>)
    requires a < |ls| && w < |ls| && r < |ls| && i < |ls[a]| && i < |ls[w]| && i < |ls[r]|
    requires ls[a][i].span > 0
    ensures |ls'| == |ls| && forall q :: 0 <= q < |ls| ==> |ls'[q]| == |ls[q]|
  {
    var l1 := Put(ls, a, i, ls[a][i].(forward := ls[r][i].forward));
    var l2 := Put(l1, w, i, l1[w][i].(backward := ls[r][i].backward));
    Put(l2, a, i, l2[a][i].(span := ls[a][i].span - 1 + ls[r][i].span))
  }

  lemma UnspliceRows(ls: seq<seq<Link>>, r: nat, a: nat, w: nat, i: nat, p: nat)
    requires a < |ls| && w < |ls| && r < |ls| && i < |ls[a]| && i < |ls[w]| && i < |ls[r]|
    requires ls[a][i].span > 0 && p < |ls|
    ensures i < |ls[p]| ==>
      Unsplice(ls, r, a, w, i)[p][i] == Link(if p == a then ls[r][i].forward else ls[p][i].forward,
                                             if p == w then ls[r][i].backward else ls[p][i].backward,
                                             if p == a then ls[a][i].span - 1 + ls[r][i].span else ls[p][i].span)
    ensures forall j :: 0 <= j < |ls[p]| && j != i ==> Unsplice(ls, r, a, w, i)[p][j] == ls[p][j]
    ensures p != a && p != w ==> Unsplice(ls, r, a, w, i)[p] == ls[p]
  {
  }

  lemma UnspliceSame(ls: seq<seq<Link>>, r: nat, a: nat, w: nat, i: nat)
    requires a < |ls| && w < |ls| && r < |ls| && i < |ls[a]| && i < |ls[w]| && i < |ls[r]|
    requires ls[a][i].span > 0
    ensures SameBut(ls, Unsplice(ls, r, a, w, i), i)
  {
    forall p, j | 0 <= p < |ls| && 0 <= j < |ls[p]| && j != i
      ensures Unsplice(ls, r, a, w, i)[p][j] == ls[p][j]
    {
      UnspliceRows(ls, r, a, w, i, p);
    }
  }

  /** What a turn of the unlinking loop finds on level `i`: the neighbours of `x`, by position in the full spine. */
  lemma LeavingOld(sp: seq<Node>, ls: seq<seq<Link>>, n: nat, r: nat, x: Node, i: nat)
    requires Leaving(sp, ls, n, r, x, i) && i < x.height
    ensures var a := Last(sp, r, i);
      var w := Shift(r, Wrap(sp, Next(sp, a, i)));
      var full := InsertAt(sp, r, x);
      && x.height == |ls[r]| && x.height <= n && r < |ls| && a < r && w < |ls| == |full| && w != r
      && full[r] == x && full[a].height > i && full[w].height > i
      && ls[r][i].backward == full[a] && ls[r][i].forward == full[w]
      && ls[a][i].span > 0
  {
    var a := Last(sp, r, i);
    assert LevelOk(InsertAt(sp, r, x), ls, i);
    WrapTall(sp, a, i);
    ShapeRow(sp, ls, r, x, a);
    ShapeRow(sp, ls, r, x, Wrap(sp, Next(sp, a, i)));
    OldRow(sp, ls, r, x, a, i);
  }

  lemma LeavingUnsplice(sp: seq<Node>, ls: seq<seq<Link>>, n: nat, r: nat, x: Node, i: nat, a: nat, w: nat)
    requires Leaving(sp, ls, n, r, x, i) && i < x.height
    requires a == Last(sp, r, i) && w == Shift(r, Wrap(sp, Next(sp, a, i)))
    requires w < |ls| && a < |ls| && i < |ls[a]| && i < |ls[w]| && ls[a][i].span > 0
    ensures Leaving(sp, Unsplice(ls, r, a, w, i), n, r, x, i + 1)
  {
    var ls' := Unsplice(ls, r, a, w, i);
    assert LevelOk(InsertAt(sp, r, x), ls, i);
    forall p | 0 <= p < |sp| && sp[p].height > i
      ensures Tall(sp, ls', r, x, p, i) && ls'[Shift(r, p)][i] == LinkAt(sp, p, i)
    {
      UnspliceOne(sp, ls, r, x, i, a, w, p);
    }
    UnspliceSame(ls, r, a, w, i);
    UnspliceRows(ls, r, a, w, i, r);
    KeepLeaving(sp, ls, ls', n, r, x, i);
  }

  /** Undoing an insertion link by link. */
  lemma UninsertedLink(sp: seq<Node>, r: nat, x: Node, i: nat, p: nat)
    requires 1 <= r <= |sp| && p < |sp| && sp[0].height > i && x.height > i
    ensures var a := Last(sp, r, i);
      var l := InsertedLink(sp, r, x, p, i);
      var own := OwnLink(sp, r, i);
      && InsertedLink(sp, r, x, a, i).span > 0
      && LinkAt(sp, p, i) == Link(if p == a then own.forward else l.forward,
                                  if p == Wrap(sp, Next(sp, a, i)) then own.backward else l.backward,
                                  if p == a then InsertedLink(sp, r, x, a, i).span - 1 + own.span else l.span)
  {
    LastNext(sp, r, i);
  }

  lemma UnspliceOne(sp: seq<Node>, ls: seq<seq<Link>>, r: nat, x: Node, i: nat, a: nat, w: nat, p: nat)
    requires 1 <= r <= |sp| && p < |sp| && Shape(InsertAt(sp, r, x), ls) && sp[p].height > i
    requires i < MAX_SKIPLIST_LEVEL && LevelOk(InsertAt(sp, r, x), ls, i)
    requires i < x.height == |ls[r]| && sp[0].height > i && ls[r][i] == OwnLink(sp, r, i)
    requires a == Last(sp, r, i) && w == Shift(r, Wrap(sp, Next(sp, a, i)))
    requires w < |ls| && a < |ls| && i < |ls[a]| && i < |ls[w]| && ls[a][i].span > 0
    ensures Tall(sp, Unsplice(ls, r, a, w, i), r, x, p, i)
    ensures Unsplice(ls, r, a, w, i)[Shift(r, p)][i] == LinkAt(sp, p, i)
  {
    hide Shape, LevelOk, Put, Unsplice, InsertedLink, OwnLink, LinkAt, Next, Last, InsertAt;
    ShapeRow(sp, ls, r, x, p);
    OldRow(sp, ls, r, x, p, i);
    OldRow(sp, ls, r, x, a, i);
    UninsertedLink(sp, r, x, i, p);
    UnspliceRows(ls, r, a, w, i, Shift(r, p));
  }

  lemma LeavingNarrow(sp: seq<Node>, ls: seq<seq<Link>>, n: nat, r: nat, x: Node, i: nat, a: nat)
    requires Leaving(sp, ls, n, r, x, i) && x.height <= i < n && a == Last(sp, r, i)
    ensures a < |ls| && i < |ls[a]| && ls[a][i].span > 0
    ensures Leaving(sp, Put(ls, a, i, ls[a][i].(span := ls[a][i].span - 1)), n, r, x, i + 1)
  {
    assert LevelOk(InsertAt(sp, r, x), ls, i);
    OldRow(sp, ls, r, x, a, i);
    var link := ls[a][i].(span := ls[a][i].span - 1);
    var ls' := Put(ls, a, i, link);
    PutRows(ls, a, i, link);
    forall p | 0 <= p < |sp| && sp[p].height > i
      ensures Tall(sp, ls', r, x, p, i) && ls'[Shift(r, p)][i] == LinkAt(sp, p, i)
    {
      OldRow(sp, ls, r, x, p, i);
    }
    KeepLeaving(sp, ls, ls', n, r, x, i);
  }

  lemma LeavingDone(sp: seq<Node>, ls: seq<seq<Link>>, n: nat, r: nat, x: Node)
    requires Leaving(sp, ls, n, r, x, n)
    ensures Levels(sp, RemoveAt(ls, r), n)
  {
    var ls' := RemoveAt(ls, r);
    forall p | 0 <= p < |sp|
      ensures 1 <= sp[p].height <= MAX_SKIPLIST_LEVEL && |ls'[p]| == sp[p].height && ls'[p] == ls[Shift(r, p)]
    {
      ShapeRow(sp, ls, r, x, p);
    }
    forall i | 0 <= i < n ensures LevelOk(sp, ls', i) {
      assert Left(sp, ls, r, x, i);
    }
    forall i | n <= i < MAX_SKIPLIST_LEVEL ensures Unused(sp, ls', i) {
      assert Unused(InsertAt(sp, r, x), ls, i);
      ShapeRow(sp, ls, r, x, 0);
    }
  }

  /** When no node reaches the top level, that level may go out of use. */
  lemma LowerLevel(sp: seq<Node>, ls: seq<seq<Link>>, n: nat)
    requires Levels(sp, ls, n) && n >= 1
    requires Bare(sp, n - 1)
    ensures Levels(sp, ls, n - 1)
  {
    assert LevelOk(sp, ls, n - 1);
    NextIs(sp, 0, |sp|, n - 1);
    LastIs(sp, |sp|, 0, n - 1);
  }

  /** No node but the header reaches level `i`. */
  ghost predicate Bare(sp: seq<Node>, i: nat) {
    forall p :: 1 <= p < |sp| ==> sp[p].height <= i
  }

  /** A node is alone on a level exactly when both its neighbours there are the header. */
  lemma AloneOnLevel(sp: seq<Node>, r: nat, i: nat)
    requires 1 <= r <= |sp| && sp[0].height > i
    requires forall p, q :: 0 <= p < q < |sp| ==> sp[p] != sp[q]
    ensures OwnLink(sp, r, i).backward == sp[0] && OwnLink(sp, r, i).forward == sp[0] <==> Bare(sp, i)
  {
    var a := Last(sp, r, i);
    NextGap(sp, a, i);
    LastGap(sp, r, i);
    if Bare(sp, i) {
      NextIs(sp, 0, |sp|, i);
      LastIs(sp, r, 0, i);
    }
  }

  lemma LeavingOwn(sp: seq<Node>, ls: seq<seq<Link>>, n: nat, r: nat, x: Node, i: nat, j: nat)
    requires Leaving(sp, ls, n, r, x, i) && j < x.height
    ensures j < |ls[r]| && ls[r][j] == OwnLink(sp, r, j)
  {
  }

  // ---------- the backward climb ----------

  /** The climb stands at position `p`, below or at the last node before `r` that is taller than `u`. */
  ghost predicate ClimbAt(sp: seq<Node>, r: nat, p: nat, u: nat) {
    && p < r <= |sp| && sp[p].height >= u
    && forall k :: p < k < r ==> sp[k].height <= u
  }

  lemma ClimbStart(sp: seq<Node>, r: nat, h: nat)
    requires 1 <= r <= |sp| && 1 <= h <= sp[0].height
    ensures ClimbAt(sp, r, Last(sp, r, h - 1), h)
  {
    LastGap(sp, r, h - 1);
  }

  lemma ClimbFound(sp: seq<Node>, r: nat, p: nat, u: nat)
    requires ClimbAt(sp, r, p, u) && sp[p].height > u && sp[0].height > u
    ensures Last(sp, r, u) == p && ClimbAt(sp, r, p, u + 1)
  {
    LastIs(sp, r, p, u);
  }

  lemma ClimbBack(sp: seq<Node>, ls: seq<seq<Link>>, n: nat, r: nat, x: Node, p: nat, u: nat)
    requires Leaving(sp, ls, n, r, x, u) && 1 <= u < n
    requires ClimbAt(sp, r, p, u) && sp[p].height <= u
    ensures p > 0 && |ls[p]| == u && sp[0].height > u
    ensures var b := Last(sp, p, u - 1);
      b < p && ls[p][u - 1].backward == sp[b] && ClimbAt(sp, r, b, u)
  {
    LeavingBounds(sp, ls, n, r, x, u);
    hide Leaving, Next, Last, InsertAt;
    LeavingRow(sp, ls, n, r, x, u, p, u - 1);
    LastGap(sp, p, u - 1);
  }

  /** The link of another node on a level already done. */
  lemma LeavingRow(sp: seq<Node>, ls: seq<seq<Link>>, n: nat, r: nat, x: Node, i: nat, p: nat, j: nat)
    requires Leaving(sp, ls, n, r, x, i) && j < i && p < |sp| && sp[p].height > j
    ensures sp[0].height > j && Shift(r, p) < |ls| && |ls[Shift(r, p)]| == sp[p].height
    ensures ls[Shift(r, p)][j] == LinkAt(sp, p, j)
  {
    hide InsertAt, LinkAt;
    assert Left(sp, ls, r, x, j);
    ShapeRow(sp, ls, r, x, p);
  }
}
