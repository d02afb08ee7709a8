/**
 How the links change when a node enters the skip list.  `sp` is the spine before the insertion, `r` the
 position that `x` gets, `xl` the links of its tower.
 */
module SkipInsertion {
  import opened Ranking
  import opened SkipTowers

  // ---------- a node enters the spine ----------

  ghost function Shift(r: nat, p: nat): nat {
    if p < r then p else p + 1
  }

  lemma InsertedAt<T>(s: seq<T>, r: nat, x: T, k: nat)
    requires r <= |s| && k <= |s|
    ensures |InsertAt(s, r, x)| == |s| + 1
    ensures InsertAt(s, r, x)[k] == if k < r then s[k] else if k == r then x else s[k - 1]
  {
  }

  /** How one node's successor changes when `x` enters the spine at position `r`. */
  lemma InsertNext(sp: seq<Node>, r: nat, x: Node, p: nat, i: nat)
    requires 1 <= r <= |sp| && p < |sp|
    requires sp[0].height > i && sp[p].height > i
    ensures var q := Next(sp, p, i);
      && (p == Last(sp, r, i) <==> p < r <= q)
      && Next(InsertAt(sp, r, x), Shift(r, p), i) ==
         if p == Last(sp, r, i) then (if x.height > i then r else q + 1) else Shift(r, q)
  {
    hide InsertAt, Next, Last;
    InsertedAt(sp, r, x, 0);
    var sp' := InsertAt(sp, r, x);
    var q := Next(sp, p, i);
    NextGap(sp, p, i);
    if p < r <= q {
      LastIs(sp, r, p, i);
    } else {
      LastGap(sp, r, i);
    }
    var p', q' := Shift(r, p), if p < r <= q then (if x.height > i then r else q + 1) else Shift(r, q);
    if q' < |sp'| {
      InsertedAt(sp, r, x, q');
    }
    forall k | p' < k < q' ensures sp'[k].height <= i {
      InsertedAt(sp, r, x, k);
    }
    NextIs(sp', p', q', i);
  }

  /** How one node's predecessor changes; position 0 asks for the predecessor of the header as end. */
  lemma InsertLast(sp: seq<Node>, r: nat, x: Node, p: nat, i: nat)
    requires 1 <= r <= |sp| && p < |sp|
    requires sp[0].height > i && sp[p].height > i
    ensures var sp' := InsertAt(sp, r, x);
      var b := Last(sp, if p == 0 then |sp| else p, i);
      && Last(sp', if p == 0 then |sp'| else Shift(r, p), i) ==
         if p == Wrap(sp, Next(sp, Last(sp, r, i), i)) && x.height > i then r else Shift(r, b)
  {
    hide InsertAt, Next, Last;
    var sp' := InsertAt(sp, r, x);
    var k := if p == 0 then |sp| else p;
    var b := Last(sp, k, i);
    LastNext(sp, r, i);
    LastGap(sp, k, i);
    NextGap(sp, Last(sp, r, i), i);
    InsertedAt(sp, r, x, 0);
    var k' := if p == 0 then |sp'| else Shift(r, p);
    var b' := if p == Wrap(sp, Next(sp, Last(sp, r, i), i)) && x.height > i then r else Shift(r, b);
    InsertedAt(sp, r, x, b');
    forall j | b' < j < k' ensures sp'[j].height <= i {
      InsertedAt(sp, r, x, j);
    }
    LastIs(sp', k', b', i);
  }

  lemma InsertForward(sp: seq<Node>, r: nat, x: Node, p: nat, i: nat)
    requires 1 <= r <= |sp| && p < |sp|
    requires sp[0].height > i && sp[p].height > i
    ensures var sp' := InsertAt(sp, r, x);
      var a := Last(sp, r, i);
      && Forward(sp', Shift(r, p), i) == (if p == a && x.height > i then x else Forward(sp, p, i))
      && Span(sp', Shift(r, p), i) ==
         if p != a then Span(sp, p, i) else if x.height > i then r - a else Span(sp, p, i) + 1
  {
    hide Next, Last, InsertAt;
    InsertNext(sp, r, x, p, i);
    var sp' := InsertAt(sp, r, x);
    InsertedAt(sp, r, x, 0);
    InsertedAt(sp, r, x, Wrap(sp', Next(sp', Shift(r, p), i)));
  }

  lemma InsertBackward(sp: seq<Node>, r: nat, x: Node, p: nat, i: nat)
    requires 1 <= r <= |sp| && p < |sp|
    requires sp[0].height > i && sp[p].height > i
    ensures var sp' := InsertAt(sp, r, x);
      && sp'[0].height > i
      && Backward(sp', Shift(r, p), i) ==
         if p == Wrap(sp, Next(sp, Last(sp, r, i), i)) && x.height > i then x else Backward(sp, p, i)
  {
    hide Next, Last, InsertAt;
    InsertedAt(sp, r, x, 0);
    InsertLast(sp, r, x, p, i);
    var sp' := InsertAt(sp, r, x);
    InsertedAt(sp, r, x, Last(sp', if p == 0 then |sp'| else Shift(r, p), i));
  }

  /** The level-`i` link of the node at `p` after `x` has entered the spine at position `r`. */
  ghost function InsertedLink(sp: seq<Node>, r: nat, x: Node, p: nat, i: nat): Link
    requires 1 <= r <= |sp| && p < |sp| && sp[0].height > i
  {
    var a := Last(sp, r, i);
    var l := LinkAt(sp, p, i);
    if x.height > i then
      Link(if p == a then x else l.forward,
           if p == Wrap(sp, Next(sp, a, i)) then x else l.backward,
           if p == a then r - a else l.span)
    else
      l.(span := if p == a then l.span + 1 else l.span)
  }

  lemma InsertLink(sp: seq<Node>, r: nat, x: Node, p: nat, i: nat)
    requires 1 <= r <= |sp| && p < |sp|
    requires sp[0].height > i && sp[p].height > i
    ensures var sp' := InsertAt(sp, r, x);
      && sp'[Shift(r, p)] == sp[p]
      && sp'[0].height > i
      && LinkAt(sp', Shift(r, p), i) == InsertedLink(sp, r, x, p, i)
  {
    InsertForward(sp, r, x, p, i);
    InsertBackward(sp, r, x, p, i);
    InsertedAt(sp, r, x, Shift(r, p));
  }

  lemma SpanCovers(sp: seq<Node>, r: nat, i: nat)
    requires 1 <= r <= |sp| && sp[0].height > i
    ensures Span(sp, Last(sp, r, i), i) >= r - 1 - Last(sp, r, i)
  {
    LastNext(sp, r, i);
  }

  /** The level-`i` link of a node that enters at position `r`. */
  ghost function OwnLink(sp: seq<Node>, r: nat, i: nat): Link
    requires 1 <= r <= |sp| && sp[0].height > i
  {
    var a := Last(sp, r, i);
    SpanCovers(sp, r, i);
    Link(Forward(sp, a, i), sp[a], Span(sp, a, i) - (r - 1 - a))
  }

  lemma InsertOwnLink(sp: seq<Node>, r: nat, x: Node, i: nat)
    requires 1 <= r <= |sp|
    requires sp[0].height > i && x.height > i
    ensures InsertAt(sp, r, x)[0].height > i
    ensures LinkAt(InsertAt(sp, r, x), r, i) == OwnLink(sp, r, i)
  {
    var sp' := InsertAt(sp, r, x);
    var a := Last(sp, r, i);
    var q := Next(sp, a, i);
    LastNext(sp, r, i);
    LastGap(sp, r, i);
    NextGap(sp, a, i);
    InsertedAt(sp, r, x, 0);
    InsertedAt(sp, r, x, a);
    InsertedAt(sp, r, x, Wrap(sp', q + 1));
    forall k | a < k <= q ensures sp'[k].height <= i || k == r {
      InsertedAt(sp, r, x, k);
    }
    NextIs(sp', r, q + 1, i);
    LastIs(sp', r, a, i);
  }

  /** On level `i` the other towers already have their links as after the entry of `x` at position `r`. */
  ghost predicate Entered(sp: seq<Node>, ls: seq<seq<Link>>, r: nat, x: Node, i: nat)
    requires Shape(sp, ls) && 1 <= r <= |sp| && i < MAX_SKIPLIST_LEVEL
  {
    forall p :: 0 <= p < |sp| && sp[p].height > i ==> ls[p][i] == InsertedLink(sp, r, x, p, i)
  }

  /** A level stays linked when the node enters it as `InsertedLink` and its own link say. */
  lemma LevelAfterInsert(sp: seq<Node>, ls: seq<seq<Link>>, r: nat, x: Node, xl: seq<Link>, i: nat)
    requires Shape(sp, ls) && 1 <= r <= |sp|
    requires 1 <= x.height == |xl| <= MAX_SKIPLIST_LEVEL && i < MAX_SKIPLIST_LEVEL
    requires Entered(sp, ls, r, x, i)
    requires x.height > i ==> xl[i] == OwnLink(sp, r, i)
    ensures Shape(InsertAt(sp, r, x), InsertAt(ls, r, xl))
    ensures LevelOk(InsertAt(sp, r, x), InsertAt(ls, r, xl), i)
  {
    InsertShape(sp, ls, r, x, xl);
    forall k | 0 <= k <= |sp| && InsertAt(sp, r, x)[k].height > i
      ensures InsertAt(ls, r, xl)[k][i] == LinkAt(InsertAt(sp, r, x), k, i)
    {
      if k == r {
        InsertedAt(sp, r, x, k);
        InsertedAt(ls, r, xl, k);
        InsertOwnLink(sp, r, x, i);
      } else {
        var p := if k < r then k else k - 1;
        assert k == Shift(r, p);
        RowAfterInsert(sp, ls, r, x, xl, p, i);
      }
    }
  }

  lemma RowAfterInsert(sp: seq<Node>, ls: seq<seq<Link>>, r: nat, x: Node, xl: seq<Link>, p: nat, i: nat)
    requires Shape(sp, ls) && 1 <= r <= |sp| && p < |sp| && i < MAX_SKIPLIST_LEVEL
    requires InsertAt(sp, r, x)[Shift(r, p)].height > i
    requires sp[p].height > i ==> ls[p][i] == InsertedLink(sp, r, x, p, i)
    ensures sp[p].height > i && InsertAt(sp, r, x)[0].height > i
    ensures InsertAt(ls, r, xl)[Shift(r, p)] == ls[p]
    ensures ls[p][i] == LinkAt(InsertAt(sp, r, x), Shift(r, p), i)
  {
    InsertedAt(sp, r, x, Shift(r, p));
    InsertedAt(ls, r, xl, Shift(r, p));
    InsertLink(sp, r, x, p, i);
  }

  lemma InsertShape(sp: seq<Node>, ls: seq<seq<Link>>, r: nat, x: Node, xl: seq<Link>)
    requires Shape(sp, ls) && 1 <= r <= |sp|
    requires 1 <= x.height == |xl| <= MAX_SKIPLIST_LEVEL
    ensures Shape(InsertAt(sp, r, x), InsertAt(ls, r, xl))
  {
    var sp', ls' := InsertAt(sp, r, x), InsertAt(ls, r, xl);
    InsertedAt(sp, r, x, 0);
    forall k | 0 <= k < |sp'|
      ensures 1 <= sp'[k].height <= MAX_SKIPLIST_LEVEL && |ls'[k]| == sp'[k].height
    {
      InsertedAt(sp, r, x, k);
      InsertedAt(ls, r, xl, k);
    }
  }

  /** The three assignments to the neighbours' links in one turn of the linking loop of `insert`. */
  ghost function Splice(ls: seq<seq<Link>>, a: nat, w: nat, i: nat, x: Node, gap: nat): (ls': seq<seq<Link>>)
    requires a < |ls| && w < |ls| && i < |ls[a]| && i < |ls[w]|
    ensures |ls'| == |ls| && forall q :: 0 <= q < |ls| ==> |ls'[q]| == |ls[q]|
  {
    var l1 := Put(ls, a, i, ls[a][i].(forward := x));
    var l2 := Put(l1, w, i, l1[w][i].(backward := x));
    Put(l2, a, i, l2[a][i].(span := gap + 1))
  }

  lemma SpliceRows(ls: seq<seq<Link>>, a: nat, w: nat, i: nat, x: Node, gap: nat, p: nat)
    requires a < |ls| && w < |ls| && i < |ls[a]| && i < |ls[w]| && p < |ls|
    ensures i < |ls[p]| ==>
      Splice(ls, a, w, i, x, gap)[p][i] == Link(if p == a then x else ls[p][i].forward,
                                                if p == w then x else ls[p][i].backward,
                                                if p == a then gap + 1 else ls[p][i].span)
    ensures forall j :: 0 <= j < |ls[p]| && j != i ==> Splice(ls, a, w, i, x, gap)[p][j] == ls[p][j]
  {
  }

  lemma SpliceSame(ls: seq<seq<Link>>, a: nat, w: nat, i: nat, x: Node, gap: nat)
    requires a < |ls| && w < |ls| && i < |ls[a]| && i < |ls[w]|
    ensures SameBut(ls, Splice(ls, a, w, i, x, gap), i)
  {
    forall p, j | 0 <= p < |ls| && 0 <= j < |ls[p]| && j != i
      ensures Splice(ls, a, w, i, x, gap)[p][j] == ls[p][j]
    {
      SpliceRows(ls, a, w, i, x, gap, p);
    }
  }

  lemma SpliceEntered(sp: seq<Node>, ls: seq<seq<Link>>, r: nat, x: Node, i: nat, a: nat, w: nat)
    requires Shape(sp, ls) && 1 <= r <= |sp| && i < MAX_SKIPLIST_LEVEL && i < x.height
    requires LevelOk(sp, ls, i)
    requires a == Last(sp, r, i) && w == Wrap(sp, Next(sp, a, i)) && sp[w].height > i
    ensures Shape(sp, Splice(ls, a, w, i, x, r - 1 - a))
    ensures Entered(sp, Splice(ls, a, w, i, x, r - 1 - a), r, x, i)
  {
    hide Splice, Next, Last, LinkAt;
    forall p | 0 <= p < |sp| && sp[p].height > i
      ensures Splice(ls, a, w, i, x, r - 1 - a)[p][i] == InsertedLink(sp, r, x, p, i)
    {
      SpliceRows(ls, a, w, i, x, r - 1 - a, p);
      assert ls[p][i] == LinkAt(sp, p, i);
    }
  }

  // ---------- the descent of `insert` ----------

  /** On level `j` the walk stopped at position `a`, and the walk up to `pos` has not passed its successor. */
  ghost predicate Stops(ascending: bool, sp: seq<Node>, key: Key, j: nat, a: nat, pos: nat) {
    && a <= pos < |sp| && sp[a].height > j
    && pos < Next(sp, a, j)
    && (Next(sp, a, j) < |sp| ==> Before(ascending, key, sp[Next(sp, a, j)].key))
  }

  /** No node of level `i` passed on the way from `from` to `pos` is after `key`. */
  ghost predicate Passed(ascending: bool, sp: seq<Node>, key: Key, i: nat, from: nat, pos: nat)
    requires pos < |sp|
  {
    forall q :: from < q <= pos && sp[q].height > i ==> !Before(ascending, key, sp[q].key)
  }

  lemma PassNone(ascending: bool, sp: seq<Node>, key: Key, i: nat, from: nat)
    requires from < |sp|
    ensures Passed(ascending, sp, key, i, from, from)
  {
  }

  lemma PassNext(ascending: bool, sp: seq<Node>, key: Key, i: nat, from: nat, pos: nat)
    requires from <= pos < |sp| && Next(sp, pos, i) < |sp|
    requires Passed(ascending, sp, key, i, from, pos)
    requires !Before(ascending, key, sp[Next(sp, pos, i)].key)
    ensures Passed(ascending, sp, key, i, from, Next(sp, pos, i))
  {
    NextGap(sp, pos, i);
  }

  /** A walk on a lower level stops before the successor at which the walk on level `j` stopped. */
  lemma StillStops(ascending: bool, sp: seq<Node>, key: Key, j: nat, a: nat, i: nat, from: nat, pos: nat)
    requires i <= j && from <= pos < |sp|
    requires Stops(ascending, sp, key, j, a, from) && Passed(ascending, sp, key, i, from, pos)
    ensures Stops(ascending, sp, key, j, a, pos)
  {
    NextGap(sp, a, j);
  }

  /** Where the walk stopped is the last node of its level before the final position. */
  lemma StopIsLast(ascending: bool, sp: seq<Node>, key: Key, j: nat, a: nat, pos: nat)
    requires Stops(ascending, sp, key, j, a, pos) && sp[0].height > j
    ensures Last(sp, pos + 1, j) == a
  {
    NextGap(sp, a, j);
    LastIs(sp, pos + 1, a, j);
  }

  lemma StopAtNext(ascending: bool, sp: seq<Node>, ls: seq<seq<Link>>, n: nat, key: Key, pos: nat)
    requires Levels(sp, ls, n) && pos + 1 < |sp| && Stops(ascending, sp, key, 0, pos, pos)
    ensures Before(ascending, key, sp[pos + 1].key)
  {
    NextIs(sp, pos, pos + 1, 0);
  }

  // ---------- the linking loops of `insert` ----------

  /** On each of the `n` levels in use `update` is the last node before position `r`, and `rankStep` its rank. */
  ghost predicate InFront(sp: seq<Node>, update: seq<Node>, rankStep: seq<nat>, n: nat, r: nat) {
    && 1 <= r <= |sp| && n <= MAX_SKIPLIST_LEVEL == |update| == |rankStep|
    && sp[0].height == MAX_SKIPLIST_LEVEL
    && (if n > 0 then r == 1 + rankStep[0] else r == 1)
    && (forall i :: 0 <= i < n ==> rankStep[i] == Last(sp, r, i) && update[i] == sp[rankStep[i]])
  }

  lemma InFrontRaised(sp: seq<Node>, ls: seq<seq<Link>>, update: seq<Node>, rankStep: seq<nat>, n: nat, r: nat)
    requires InFront(sp, update, rankStep, n, r) && Levels(sp, ls, n) && n < MAX_SKIPLIST_LEVEL
    ensures |update| == |rankStep| == MAX_SKIPLIST_LEVEL && sp[0].height == MAX_SKIPLIST_LEVEL
    ensures InFront(sp, update[n := sp[0]], rankStep[n := 0], n + 1, r)
  {
    LastIs(sp, r, 0, n);
  }

  lemma InFrontAt(sp: seq<Node>, update: seq<Node>, rankStep: seq<nat>, n: nat, r: nat, i: nat)
    requires InFront(sp, update, rankStep, n, r) && i < n
    ensures |update| == |rankStep| == MAX_SKIPLIST_LEVEL && 1 <= r <= |sp| && sp[0].height == MAX_SKIPLIST_LEVEL > i
    ensures rankStep[i] == Last(sp, r, i) && update[i] == sp[rankStep[i]] && r == 1 + rankStep[0]
    ensures rankStep[i] <= rankStep[0]
  {
  }

  /** The linking loops have done the levels below `i`; the spine is still the one before the insertion. */
  ghost predicate Linking(sp: seq<Node>, ls: seq<seq<Link>>, n: nat, r: nat, x: Node, xl: seq<Link>, i: nat) {
    && Shape(sp, ls) && 1 <= r <= |sp| && i <= n <= MAX_SKIPLIST_LEVEL
    && 1 <= x.height == |xl| <= n
    && (forall p :: 1 <= p < |sp| ==> sp[p].height <= n)
    && (forall j :: 0 <= j < i ==> Entered(sp, ls, r, x, j))
    && (forall j :: 0 <= j < i && j < x.height ==> xl[j] == OwnLink(sp, r, j))
    && (forall j :: i <= j < n ==> LevelOk(sp, ls, j))
    && (forall j :: n <= j < MAX_SKIPLIST_LEVEL ==> Unused(sp, ls, j))
  }

  lemma LinkingBound(sp: seq<Node>, ls: seq<seq<Link>>, n: nat, r: nat, x: Node, xl: seq<Link>, i: nat)
    requires Linking(sp, ls, n, r, x, xl, i)
    ensures 1 <= x.height == |xl| <= n <= MAX_SKIPLIST_LEVEL && 1 <= r <= |sp|
  {
  }

  /** What the next turn of the linking loop still finds on level `i`. */
  lemma LinkingOld(sp: seq<Node>, ls: seq<seq<Link>>, n: nat, r: nat, x: Node, xl: seq<Link>, i: nat)
    requires Linking(sp, ls, n, r, x, xl, i) && i < x.height
    ensures x.height == |xl| <= n <= MAX_SKIPLIST_LEVEL
    ensures Shape(sp, ls) && 1 <= r <= |sp|
    ensures var a := Last(sp, r, i);
      var w := Wrap(sp, Next(sp, a, i));
      && sp[w].height > i
      && ls[a][i].forward == sp[w] && ls[a][i].span >= r - 1 - a
      && OwnLink(sp, r, i) == Link(sp[w], sp[a], ls[a][i].span - (r - 1 - a))
  {
    assert LevelOk(sp, ls, i);
    WrapTall(sp, Last(sp, r, i), i);
    SpanCovers(sp, r, i);
  }

  lemma KeepLinking(sp: seq<Node>, ls: seq<seq<Link>>, ls': seq<seq<Link>>, n: nat, r: nat, x: Node,
                    xl: seq<Link>, xl': seq<Link>, i: nat)
    requires Linking(sp, ls, n, r, x, xl, i) && i < n
    requires Shape(sp, ls') && SameBut(ls, ls', i) && Entered(sp, ls', r, x, i)
    requires if i < x.height then xl' == xl[i := OwnLink(sp, r, i)] else xl' == xl
    ensures Linking(sp, ls', n, r, x, xl', i + 1)
  {
    hide Entered, LevelOk, Unused, SameBut;
    forall j | 0 <= j < i ensures Entered(sp, ls', r, x, j) {
      OtherLevel(sp, ls, ls', i, j);
      EnteredAlike(sp, ls, ls', r, x, j);
    }
    forall j | i < j < n ensures LevelOk(sp, ls', j) {
      OtherLevel(sp, ls, ls', i, j);
      LevelAlike(sp, ls, ls', j);
    }
    forall j | n <= j < MAX_SKIPLIST_LEVEL ensures Unused(sp, ls', j) {
      OtherLevel(sp, ls, ls', i, j);
      UnusedAlike(sp, ls, ls', j);
    }
  }

  /** The links of a level are the same in both. */
  ghost predicate Alike(sp: seq<Node>, ls: seq<seq<Link>>, ls': seq<seq<Link>>, j: nat)
    requires Shape(sp, ls) && Shape(sp, ls') && j < MAX_SKIPLIST_LEVEL
  {
    forall p :: 0 <= p < |sp| && sp[p].height > j ==> ls'[p][j] == ls[p][j]
  }

  lemma OtherLevel(sp: seq<Node>, ls: seq<seq<Link>>, ls': seq<seq<Link>>, i: nat, j: nat)
    requires Shape(sp, ls) && Shape(sp, ls') && SameBut(ls, ls', i) && j != i && j < MAX_SKIPLIST_LEVEL
    ensures Alike(sp, ls, ls', j)
  {
  }

  lemma EnteredAlike(sp: seq<Node>, ls: seq<seq<Link>>, ls': seq<seq<Link>>, r: nat, x: Node, j: nat)
    requires Shape(sp, ls) && Shape(sp, ls') && 1 <= r <= |sp| && j < MAX_SKIPLIST_LEVEL && Alike(sp, ls, ls', j)
    ensures Entered(sp, ls, r, x, j) ==> Entered(sp, ls', r, x, j)
  {
    hide InsertedLink;
  }

  lemma LevelAlike(sp: seq<Node>, ls: seq<seq<Link>>, ls': seq<seq<Link>>, j: nat)
    requires Shape(sp, ls) && Shape(sp, ls') && j < MAX_SKIPLIST_LEVEL && Alike(sp, ls, ls', j)
    ensures LevelOk(sp, ls, j) ==> LevelOk(sp, ls', j)
  {
    hide LinkAt;
  }

  lemma UnusedAlike(sp: seq<Node>, ls: seq<seq<Link>>, ls': seq<seq<Link>>, j: nat)
    requires Shape(sp, ls) && Shape(sp, ls') && j < MAX_SKIPLIST_LEVEL && Alike(sp, ls, ls', j)
    ensures Unused(sp, ls, j) ==> Unused(sp, ls', j)
  {
  }

  lemma LinkingSplice(sp: seq<Node>, ls: seq<seq<Link>>, n: nat, r: nat, x: Node, xl: seq<Link>, i: nat, a: nat,
                      w: nat)
    requires Linking(sp, ls, n, r, x, xl, i) && i < x.height
    requires a == Last(sp, r, i) && w == Wrap(sp, Next(sp, a, i)) && sp[w].height > i
    ensures Linking(sp, Splice(ls, a, w, i, x, r - 1 - a), n, r, x, xl[i := OwnLink(sp, r, i)], i + 1)
  {
    assert LevelOk(sp, ls, i);
    SpliceEntered(sp, ls, r, x, i, a, w);
    SpliceSame(ls, a, w, i, x, r - 1 - a);
    KeepLinking(sp, ls, Splice(ls, a, w, i, x, r - 1 - a), n, r, x, xl, xl[i := OwnLink(sp, r, i)], i);
  }

  lemma LinkingWiden(sp: seq<Node>, ls: seq<seq<Link>>, n: nat, r: nat, x: Node, xl: seq<Link>, i: nat, a: nat)
    requires Linking(sp, ls, n, r, x, xl, i) && x.height <= i < n && a == Last(sp, r, i)
    ensures Linking(sp, Put(ls, a, i, ls[a][i].(span := ls[a][i].span + 1)), n, r, x, xl, i + 1)
  {
    hide Put, SameBut, Unused, LinkAt;
    var link := ls[a][i].(span := ls[a][i].span + 1);
    var ls' := Put(ls, a, i, link);
    PutRows(ls, a, i, link);
    assert LevelOk(sp, ls, i);
    forall p | 0 <= p < |sp| && sp[p].height > i ensures ls'[p][i] == InsertedLink(sp, r, x, p, i) {
      assert ls[p][i] == LinkAt(sp, p, i);
    }
    KeepLinking(sp, ls, ls', n, r, x, xl, xl, i);
  }

  lemma LinkingStart(sp: seq<Node>, ls: seq<seq<Link>>, n: nat, r: nat, x: Node, xl: seq<Link>)
    requires Levels(sp, ls, n) && 1 <= r <= |sp| && 1 <= x.height == |xl| <= n
    ensures Linking(sp, ls, n, r, x, xl, 0)
  {
  }

  lemma LinkingDone(sp: seq<Node>, ls: seq<seq<Link>>, n: nat, r: nat, x: Node, xl: seq<Link>)
    requires Linking(sp, ls, n, r, x, xl, n)
    ensures Levels(InsertAt(sp, r, x), InsertAt(ls, r, xl), n)
  {
    var sp', ls' := InsertAt(sp, r, x), InsertAt(ls, r, xl);
    InsertShape(sp, ls, r, x, xl);
    forall p | 1 <= p < |sp'| ensures sp'[p].height <= n {
      InsertedAt(sp, r, x, p);
    }
    forall i | 0 <= i < n ensures LevelOk(sp', ls', i) {
      assert Entered(sp, ls, r, x, i);
      LevelAfterInsert(sp, ls, r, x, xl, i);
    }
    forall i | n <= i < MAX_SKIPLIST_LEVEL ensures Unused(sp', ls', i) {
      InsertedAt(sp, r, x, 0);
      InsertedAt(ls, r, xl, 0);
      assert Unused(sp, ls, i);
    }
  }

  lemma InsertKeys(sp: seq<Node>, r: nat, x: Node)
    requires 1 <= r <= |sp|
    ensures KeysOf(InsertAt(sp, r, x)) == InsertAt(KeysOf(sp), r - 1, x.key)
  {
    var ks := KeysOf(InsertAt(sp, r, x));
    forall k | 0 <= k < |ks| ensures ks[k] == InsertAt(KeysOf(sp), r - 1, x.key)[k] {
      InsertedAt(sp, r, x, k + 1);
      InsertedAt(KeysOf(sp), r - 1, x.key, k);
    }
  }
}
