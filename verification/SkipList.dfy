/**
 The order-statistic skip list `CTCSkipList`: nodes linked on several levels, every link
 carrying the number of ranks it spans.
 */
module SkipLists {
  import opened Ranking
  import opened SkipTowers
  import opened SkipInsertion
  import opened SkipRemoval

  class SkipList {
    var ascending: bool
    const header: Node
    var length: nat
    var level: nat

    /** The nodes by rank, the header first, and the links of their towers by rank. */
    ghost var spine: seq<Node>
    ghost var links: seq<seq<Link>>

    /** The towers in the heap are the rows of `links`. */
    ghost predicate Framed()
      reads `spine, `links, spine
    {
      && Shape(spine, links)
      && spine[0] == header
      && (forall p, q :: 0 <= p < q < |spine| ==> spine[p] != spine[q])
      && (forall p :: 0 <= p < |spine| ==> spine[p].level == links[p])
    }

    /** The representation invariant; it does not need the keys to be in order. */
    ghost predicate Linked()
      reads this, spine
    {
      Framed() && length == |spine| - 1 && Levels(spine, links, level)
    }

    ghost function Keys(): seq<Key>
      requires Linked()
      reads this, spine
    {
      KeysOf(spine)
    }

    ghost predicate Ordered()
      requires Linked()
      reads this, spine
    {
      Sorted(ascending, Keys())
    }

    constructor ()
      ensures Linked() && fresh(header) && spine == [header] && Keys() == []
      ensures !ascending && level == 1
    {
      var node := new Node(MAX_SKIPLIST_LEVEL, Key(0, 0));
      var i := 0;
      while i < MAX_SKIPLIST_LEVEL
        invariant 0 <= i <= MAX_SKIPLIST_LEVEL == |node.level|
        invariant forall j :: 0 <= j < i ==> node.level[j] == Link(node, node, 0)
      {
        node.level := node.level[i := Link(node, node, 0)];
        i := i + 1;
      }
      header := node;
      ascending := false;
      length := 0;
      level := 1;
      spine := [node];
      links := [node.level];
      new;
      NewLinked();
    }

    /** A header whose links all lead back to it. */
    lemma NewLinked()
      requires spine == [header] && links == [header.level] && !ascending && level == 1 && length == 0
      requires header.height == MAX_SKIPLIST_LEVEL == |header.level|
      requires forall j :: 0 <= j < MAX_SKIPLIST_LEVEL ==> header.level[j] == Link(header, header, 0)
      ensures Linked() && Keys() == []
    {
      EmptyLevel(spine, links, 0);
    }

    /** One assignment to a tower's link. */
    method SetLink(ghost p: nat, node: Node, i: nat, link: Link)
      requires Framed() && p < |spine| && node == spine[p] && i < node.height
      modifies node`level, `links
      ensures Framed() && links == Put(old(links), p, i, link)
    {
      node.level := node.level[i := link];
      links := Put(links, p, i, link);
    }

    lemma FramedHeader()
      requires Framed()
      ensures 0 < |spine| && header == spine[0]
    {
    }

    lemma Bounds()
      requires Linked()
      ensures 0 < |spine| && header == spine[0] && header.height == MAX_SKIPLIST_LEVEL >= level
    {
    }

    lemma LinkOf(p: nat, i: nat)
      requires Linked() && i < level && p < |spine| && spine[p].height > i
      ensures header == spine[0] && header.height == MAX_SKIPLIST_LEVEL > i && |spine[p].level| == spine[p].height
      ensures spine[p].level[i] == LinkAt(spine, p, i)
      ensures var q := Next(spine, p, i);
        if spine[p].level[i].forward == header then q == |spine|
        else
          q < |spine| && spine[p].level[i].forward == spine[q] && spine[q].height > i &&
          spine[p].level[i].span == q - p
    {
      assert LevelOk(spine, links, i);
      NextGap(spine, p, i);
    }

    /** The inner loop of `insert`: forward on level `i` while the next key is not after `key`. */
    method Walk(key: Key, i: nat, start: Node, ghost from: nat) returns (node: Node, steps: nat, ghost pos: nat)
      requires Linked() && i < level
      requires from < |spine| && start == spine[from] && start.height > i
      ensures from <= pos < |spine| && node == spine[pos] && node.height > i && steps == pos - from
      ensures Passed(ascending, spine, key, i, from, pos) && Stops(ascending, spine, key, i, pos, pos)
      ensures pos == from || !Before(ascending, key, node.key)
    {
      hide Framed, Levels, Next, Passed, LinkAt;
      node, steps, pos := start, 0, from;
      LinkOf(pos, i);
      PassNone(ascending, spine, key, i, from);
      while header != node.level[i].forward && !Before(ascending, key, node.level[i].forward.key)
        invariant from <= pos < |spine| && node == spine[pos] && node.height > i && steps == pos - from
        invariant |node.level| == node.height && node.level[i].forward != null
        invariant Passed(ascending, spine, key, i, from, pos)
        invariant pos == from || !Before(ascending, key, node.key)
        decreases |spine| - pos
      {
        LinkOf(pos, i);
        PassNext(ascending, spine, key, i, from, pos);
        steps := steps + node.level[i].span;
        node, pos := node.level[i].forward, Next(spine, pos, i);
        LinkOf(pos, i);
      }
      LinkOf(pos, i);
    }

    /**
     The descent of `insert`: where `key` belongs, behind every key it does not precede, and the links in
     front of that place.
     */
    method Search(key: Key) returns (update: seq<Node>, rankStep: seq<nat>, ghost r: nat)
      requires Linked()
      ensures InFront(spine, update, rankStep, level, r)
      ensures r == 1 || !Before(ascending, key, spine[r - 1].key)
      ensures r == |spine| || Before(ascending, key, spine[r].key)
    {
      hide Framed, Next, Last, Passed;
      FramedHeader();
      update := seq(MAX_SKIPLIST_LEVEL, _ => header);
      rankStep := seq(MAX_SKIPLIST_LEVEL, _ => 0);
      var node := header;
      ghost var pos: nat := 0;
      var i := level - 1;
      while i >= 0
        invariant -1 <= i < level
        invariant |update| == |rankStep| == MAX_SKIPLIST_LEVEL
        invariant pos < |spine| && node == spine[pos] && node.height > i
        invariant if i + 1 < level then rankStep[i + 1] == pos else pos == 0
        invariant forall j :: i < j < level ==>
          Stops(ascending, spine, key, j, rankStep[j], pos) && update[j] == spine[rankStep[j]]
        invariant pos == 0 || !Before(ascending, key, spine[pos].key)
      {
        rankStep := rankStep[i := if i == level - 1 then 0 else rankStep[i + 1]];
        var steps;
        ghost var from := pos;
        node, steps, pos := Walk(key, i, node, from);
        forall j | i < j < level ensures Stops(ascending, spine, key, j, rankStep[j], pos) {
          StillStops(ascending, spine, key, j, rankStep[j], i, from, pos);
        }
        rankStep := rankStep[i := rankStep[i] + steps];
        update := update[i := node];
        i := i - 1;
      }
      r := pos + 1;
      forall j | 0 <= j < level ensures rankStep[j] == Last(spine, r, j) {
        StopIsLast(ascending, spine, key, j, rankStep[j], pos);
      }
      if level > 0 && r < |spine| {
        StopAtNext(ascending, spine, links, level, key, pos);
      }
    }

    /** Levels come into use up to `height`: the header precedes everything there, and its stale span is rewritten. */
    method RaiseLevels(height: nat, update0: seq<Node>, rankStep0: seq<nat>, ghost r: nat)
      returns (update: seq<Node>, rankStep: seq<nat>)
      requires Linked() && level <= height <= MAX_SKIPLIST_LEVEL && InFront(spine, update0, rankStep0, level, r)
      modifies header`level, `links, `level
      ensures Linked() && level == height && InFront(spine, update, rankStep, level, r)
    {
      hide Levels, InFront;
      update, rankStep := update0, rankStep0;
      var i := level;
      while i < height
        invariant Linked() && i == level <= height && InFront(spine, update, rankStep, level, r)
      {
        InFrontRaised(spine, links, update, rankStep, i, r);
        SkipTowers.RaiseLevels(spine, links, i);
        rankStep := rankStep[i := 0];
        update := update[i := header];
        SetLink(0, header, i, header.level[i].(span := length));
        i := i + 1;
        level := i;
      }
    }

    /** One turn of the linking loop of `insert`: `node` enters level `i` behind `prev`. */
    method LinkIn(ghost a: nat, ghost w: nat, node: Node, prev: Node, i: nat, gap: nat)
      requires Framed() && node !in spine && i < node.height == |node.level|
      requires a < |spine| && prev == spine[a] && prev.height > i
      requires w < |spine| && links[a][i].forward == spine[w] && spine[w].height > i
      requires links[a][i].span >= gap
      modifies this`links, node`level, spine
      ensures Framed() && links == Splice(old(links), a, w, i, node, gap)
      ensures node.level == old(node.level)[i := Link(spine[w], prev, old(links)[a][i].span - gap)]
    {
      var next: Node := prev.level[i].forward;
      node.level := node.level[i := Link(next, prev, 0)];
      SetLink(a, prev, i, prev.level[i].(forward := node));
      SetLink(w, next, i, next.level[i].(backward := node));
      node.level := node.level[i := node.level[i].(span := prev.level[i].span - gap)];
      SetLink(a, prev, i, prev.level[i].(span := gap + 1));
    }

    /** The linking loop of `insert`. */
    method LinkUp(node: Node, update: seq<Node>, rankStep: seq<nat>, ghost r: nat)
      requires Framed() && node !in spine && InFront(spine, update, rankStep, level, r) && level > 0
      requires Linking(spine, links, level, r, node, node.level, 0)
      modifies `links, node`level, spine
      ensures Framed() && Linking(spine, links, level, r, node, node.level, node.height)
    {
      hide Linking, InFront;
      LinkingBound(spine, links, level, r, node, node.level, 0);
      var i := 0;
      while i < node.height
        invariant 0 <= i <= node.height && Framed()
        invariant Linking(spine, links, level, r, node, node.level, i)
      {
        InFrontAt(spine, update, rankStep, level, r, i);
        LinkTurn(node, update[i], i, rankStep[0] - rankStep[i], r);
        i := i + 1;
      }
    }

    method LinkTurn(node: Node, prev: Node, i: nat, gap: nat, ghost r: nat)
      requires Framed() && node !in spine && 1 <= r <= |spine| && i < node.height
      requires Linking(spine, links, level, r, node, node.level, i)
      requires prev == spine[Last(spine, r, i)] && gap == r - 1 - Last(spine, r, i)
      modifies `links, node`level, spine
      ensures Framed() && Linking(spine, links, level, r, node, node.level, i + 1)
    {
      hide Linking, OwnLink, LinkAt, Splice;
      ghost var a := Last(spine, r, i);
      ghost var w := Wrap(spine, Next(spine, a, i));
      LinkingOld(spine, links, level, r, node, node.level, i);
      LinkingSplice(spine, links, level, r, node, node.level, i, a, w);
      LinkIn(a, w, node, prev, i, gap);
    }

    /** The last loop of `insert`: links that pass over the new node become one rank longer. */
    method Widen(ghost node: Node, update: seq<Node>, rankStep: seq<nat>, ghost r: nat, height: nat)
      requires Framed() && node !in spine && InFront(spine, update, rankStep, level, r)
      requires node.height == height && Linking(spine, links, level, r, node, node.level, height)
      modifies `links, spine
      ensures Framed() && Linking(spine, links, level, r, node, node.level, level)
    {
      hide Linking, InFront;
      LinkingBound(spine, links, level, r, node, node.level, height);
      var i := height;
      while i < level
        invariant height <= i <= level && Framed()
        invariant Linking(spine, links, level, r, node, node.level, i)
      {
        InFrontAt(spine, update, rankStep, level, r, i);
        ghost var a := Last(spine, r, i);
        LinkingWiden(spine, links, level, r, node, node.level, i, a);
        SetLink(a, update[i], i, update[i].level[i].(span := update[i].level[i].span + 1));
        i := i + 1;
      }
    }

    /**
     `insert`; `height` is the tower height that `GetRandomLevel` draws.  The new node goes behind
     every key it does not precede and its rank is returned with it.
     */
    method Insert(key: Key, height: nat) returns (rank: nat, it: Node)
      requires Linked() && 1 <= height <= MAX_SKIPLIST_LEVEL
      modifies this, spine
      ensures Linked() && fresh(it) && it.key == key && it.height == height
      ensures 1 <= rank <= |old(spine)| && spine == InsertAt(old(spine), rank, it)
      ensures level == if height > old(level) then height else old(level)
      ensures ascending == old(ascending)
      ensures Keys() == InsertAt(old(Keys()), rank - 1, key)
      ensures old(Ordered()) ==> Ordered() && rank == 1 + UpperBound(ascending, old(Keys()), key)
      ensures old(Ordered()) ==> Divides(ascending, old(Keys()), key.second, rank - 1)
    {
      hide Framed, Levels, InFront, InsertAt, Sorted, UpperBound, KeysOf;
      FramedHeader();
      var update, rankStep;
      ghost var r;
      update, rankStep, r := Search(key);
      if height > level {
        update, rankStep := RaiseLevels(height, update, rankStep, r);
      }
      it := Place(key, height, update, rankStep, r);
      rank := rankStep[0] + 1;
      InsertMeans(ascending, old(spine), r, it);
      if old(Ordered()) {
        UpperBoundDivides(ascending, old(Keys()), key);
      }
    }

    /** In an ordered list the scores never decrease when ascending, and never increase otherwise. */
    lemma OrderedScores()
      requires Linked()
      ensures Ordered() <==>
        forall i, j :: 0 <= i < j < |Keys()| ==>
          if ascending then Keys()[i].second <= Keys()[j].second else Keys()[i].second >= Keys()[j].second
    {
      SortedScores(ascending, Keys());
    }

    /** The second half of `insert`, once the place is known and enough levels are in use. */
    method Place(key: Key, height: nat, update: seq<Node>, rankStep: seq<nat>, ghost r: nat) returns (it: Node)
      requires Linked() && 1 <= height <= level && InFront(spine, update, rankStep, level, r)
      modifies `length, `spine, `links, spine
      ensures Linked() && fresh(it) && it.key == key && it.height == height
      ensures |rankStep| > 0 && r == rankStep[0] + 1 && 1 <= r <= |old(spine)| && spine == InsertAt(old(spine), r, it)
    {
      hide Framed, Levels, Linking, InFront;
      InFrontAt(spine, update, rankStep, level, r, 0);
      it := new Node(height, key);
      LinkingStart(spine, links, level, r, it, it.level);
      LinkUp(it, update, rankStep, r);
      Widen(it, update, rankStep, r, height);
      LinkingBound(spine, links, level, r, it, it.level, level);
      LinkingDone(spine, links, level, r, it, it.level);
      EnterSpine(r, it);
      length := length + 1;
    }

    ghost method EnterSpine(r: nat, node: Node)
      requires Framed() && 1 <= r <= |spine| && node !in spine
      requires 1 <= node.height == |node.level| <= MAX_SKIPLIST_LEVEL
      modifies `spine, `links
      ensures Framed()
      ensures spine == InsertAt(old(spine), r, node) && links == InsertAt(old(links), r, node.level)
    {
      InsertShape(spine, links, r, node, node.level);
      spine, links := InsertAt(spine, r, node), InsertAt(links, r, node.level);
    }

    /** The assignments of one turn of the unlinking loop of `erase`. */
    method LinkOut(ghost r: nat, ghost a: nat, ghost w: nat, node: Node, i: nat)
      requires Framed() && r < |spine| && node == spine[r] && i < node.height
      requires a < |spine| && a != r && links[r][i].backward == spine[a] && spine[a].height > i
      requires w < |spine| && w != r && links[r][i].forward == spine[w] && spine[w].height > i
      requires links[a][i].span > 0
      modifies `links, spine
      ensures Framed() && links == Unsplice(old(links), r, a, w, i)
    {
      var prev: Node := node.level[i].backward;
      var next: Node := node.level[i].forward;
      SetLink(a, prev, i, prev.level[i].(forward := node.level[i].forward));
      SetLink(w, next, i, next.level[i].(backward := node.level[i].backward));
      var backwardSpan: nat := prev.level[i].span - 1;
      var selfSpan := node.level[i].span;
      SetLink(a, prev, i, prev.level[i].(span := backwardSpan + selfSpan));
    }

    /** The unlinking loop of `erase`. */
    method Unlink(ghost sp: seq<Node>, ghost r: nat, node: Node)
      requires Framed() && r <= |sp| && spine == InsertAt(sp, r, node)
      requires Leaving(sp, links, level, r, node, 0)
      modifies `links, spine
      ensures Framed() && Leaving(sp, links, level, r, node, node.height)
    {
      hide Framed, Leaving, Last, Next, Unsplice, InsertAt;
      LeavingBounds(sp, links, level, r, node, 0);
      var i := 0;
      while i < node.height
        invariant 0 <= i <= node.height && Framed()
        invariant Leaving(sp, links, level, r, node, i)
      {
        LeavingOld(sp, links, level, r, node, i);
        ghost var a := Last(sp, r, i);
        ghost var w := Shift(r, Wrap(sp, Next(sp, a, i)));
        LinksRow(r);
        LinksRow(a);
        LinksRow(w);
        LeavingUnsplice(sp, links, level, r, node, i, a, w);
        LinkOut(r, a, w, node, i);
        i := i + 1;
      }
    }

    lemma LinksRow(p: nat)
      requires Framed() && p < |spine|
      ensures |links| == |spine| && |links[p]| == spine[p].height && spine[p].level == links[p]
    {
    }

    /** The climb of `erase`: backwards and up, shortening the links that passed over the removed node. */
    method Climb(ghost sp: seq<Node>, ghost r: nat, ghost node: Node, start: Node, levelNum: nat)
      requires Framed() && 1 <= r <= |sp| && spine == InsertAt(sp, r, node)
      requires Leaving(sp, links, level, r, node, levelNum) && 1 <= levelNum == node.height <= sp[0].height
      requires start == sp[Last(sp, r, levelNum - 1)]
      modifies `links, spine
      ensures Framed() && Leaving(sp, links, level, r, node, level)
    {
      hide Framed, Leaving, Last, InsertAt, Put, ClimbAt;
      var i := levelNum;
      var cur := start;
      ghost var p: nat := Last(sp, r, levelNum - 1);
      ClimbStart(sp, r, levelNum);
      LeavingBounds(sp, links, level, r, node, i);
      while i < level
        invariant node.height <= i <= level <= MAX_SKIPLIST_LEVEL && Framed()
        invariant Leaving(sp, links, level, r, node, i)
        invariant p < r <= |sp| && cur == sp[p] && ClimbAt(sp, r, p, i)
        decreases level - i, p
      {
        InsertedAt(sp, r, node, p);
        LinksRow(p);
        if cur.height > i {
          ClimbFound(sp, r, p, i);
          LeavingNarrow(sp, links, level, r, node, i, p);
          SetLink(p, cur, i, cur.level[i].(span := cur.level[i].span - 1));
          i := i + 1;
        } else {
          ClimbBack(sp, links, level, r, node, p, i);
          p := Last(sp, p, i - 1);
          cur := cur.level[cur.height - 1].backward;
        }
      }
    }

    /** `erase`: the node at rank `r` leaves the list and its successor is returned; the end stays where it is. */
    method Erase(it: Node, ghost r: nat) returns (next: Node)
      requires Linked() && r < |spine| && it == spine[r]
      modifies this, spine
      ensures Linked() && ascending == old(ascending)
      ensures it == header ==> spine == old(spine) && level == old(level) && next == header
      ensures it != header ==> r > 0 && spine == RemoveAt(old(spine), r)
      ensures it != header ==> next == if r < |spine| then spine[r] else header
      ensures it != header ==> Keys() == RemoveAt(old(Keys()), r - 1)
      ensures old(Ordered()) ==> Ordered()
      ensures it != header ==>
        level == if it.height == old(level) && Bare(spine, old(level) - 1) then old(level) - 1 else old(level)
    {
      FramedHeader();
      if it == header {
        HeaderOnce(r);
        next := header;
      } else {
        next := EraseNode(it, r);
        RemoveMeans(ascending, old(spine), r);
      }
    }

    method EraseNode(it: Node, ghost r: nat) returns (next: Node)
      requires Linked() && 1 <= r < |spine| && it == spine[r]
      modifies this, spine
      ensures Linked() && ascending == old(ascending) && spine == RemoveAt(old(spine), r)
      ensures next == if r < |spine| then spine[r] else header
      ensures it.height > 0
      ensures level == if it.height == old(level) && Bare(spine, old(level) - 1) then old(level) - 1 else old(level)
    {
      hide Framed, Levels, Leaving, Bare, InsertAt, RemoveAt;
      ghost var sp := RemoveAt(spine, r);
      SuccessorOf(r);
      RemovedAt(spine, r);
      next := it.level[0].forward;
      LeavingStart(spine, links, level, r);
      RemoveInsert(spine, r);
      LeavingBounds(sp, links, level, r, it, 0);
      Unlink(sp, r, it);
      Settle(sp, r, it);
      LeaveSpine(r);
      length := length - 1;
    }

    /**
     After the unlinking loop of `erase`: a top level left empty goes out of use, otherwise the climb
     repairs the rest.
     */
    method Settle(ghost sp: seq<Node>, ghost r: nat, it: Node)
      requires Framed() && 1 <= r < |spine| && spine[r] == it && sp == RemoveAt(spine, r)
      requires Leaving(sp, links, level, r, it, it.height)
      modifies `level, `links, spine
      ensures Framed() && Levels(sp, RemoveAt(links, r), level)
      ensures level == if it.height == old(level) && Bare(sp, old(level) - 1) then old(level) - 1 else old(level)
    {
      hide Framed, Levels, Leaving, Last, Next, InsertAt, OwnLink, Bare;
      LeavingBounds(sp, links, level, r, it, it.height);
      LeavingOwn(sp, links, level, r, it, it.height, it.height - 1);
      OwnNeighbours(sp, r, it.height - 1);
      LinksRow(r);
      RemoveInsert(spine, r);
      var link := it.level[it.height - 1];
      if it.height == level && link.backward == header && link.forward == header {
        LeavingDone(sp, links, level, r, it);
        LowerLevel(sp, RemoveAt(links, r), level);
        level := level - 1;
      } else {
        Climb(sp, r, it, link.backward, it.height);
        LeavingDone(sp, links, level, r, it);
      }
    }

    lemma HeaderOnce(r: nat)
      requires Framed() && r < |spine| && spine[r] == header
      ensures r == 0
    {
    }

    lemma OnlyHeader(r: nat)
      requires Linked() && 1 <= r < |spine|
      ensures spine[r] != header
    {
    }

    /** The level-0 link of a node leads to the node of the next rank, or to the header. */
    lemma SuccessorOf(r: nat)
      requires Linked() && r < |spine| && (level > 0 || r > 0)
      ensures |spine[r].level| > 0
      ensures spine[r].level[0].forward == if r + 1 < |spine| then spine[r + 1] else header
    {
      LinkOf(r, 0);
      NextIs(spine, r, r + 1, 0);
    }

    /** What the last test of `erase` reads off the removed node's top link. */
    lemma OwnNeighbours(sp: seq<Node>, r: nat, i: nat)
      requires Framed() && 1 <= r < |spine| && sp == RemoveAt(spine, r) && sp[0].height > i
      ensures var own := OwnLink(sp, r, i);
        && own.backward == sp[Last(sp, r, i)] && own.forward != null
        && (own.backward == header && own.forward == header <==> Bare(sp, i))
    {
      AloneOnLevel(sp, r, i);
    }

    ghost method LeaveSpine(r: nat)
      requires Framed() && 1 <= r < |spine|
      modifies `spine, `links
      ensures Framed() && spine == RemoveAt(old(spine), r) && links == RemoveAt(old(links), r)
    {
      spine, links := RemoveAt(spine, r), RemoveAt(links, r);
    }

    // ---------- queries ----------

    /** The inner loop of `FindFirst`: forward on level `i` while the next key comes before `key`. */
    method WalkBefore(key: Key, i: nat, start: Node, ghost from: nat) returns (node: Node, steps: nat, ghost pos: nat)
      requires Linked() && i < level
      requires from < |spine| && start == spine[from] && start.height > i
      requires from == 0 || Before(ascending, spine[from].key, key)
      ensures from <= pos < |spine| && node == spine[pos] && node.height > i && steps == pos - from
      ensures pos == 0 || Before(ascending, spine[pos].key, key)
      ensures var q := Next(spine, pos, i);
        if node.level[i].forward == header then q == |spine|
        else q < |spine| && node.level[i].forward == spine[q] && !Before(ascending, spine[q].key, key) &&
             node.level[i].span == q - pos
    {
      hide Framed, Levels, Next, LinkAt;
      node, steps, pos := start, 0, from;
      LinkOf(pos, i);
      while header != node.level[i].forward && Before(ascending, node.level[i].forward.key, key)
        invariant from <= pos < |spine| && node == spine[pos] && node.height > i && steps == pos - from
        invariant pos == 0 || Before(ascending, spine[pos].key, key)
        invariant |node.level| == node.height && node.level[i].forward != null
        decreases |spine| - pos
      {
        LinkOf(pos, i);
        steps := steps + node.level[i].span;
        node, pos := node.level[i].forward, Next(spine, pos, i);
        LinkOf(pos, i);
      }
      LinkOf(pos, i);
    }

    /** `FindFirst`: the leftmost element scoring like `key` and its rank, or 0 and the end. */
    method FindFirst(key: Key) returns (rank: nat, it: Node)
      requires Linked()
      ensures Ordered() ==>
        var l := LowerBound(ascending, Keys(), key);
        if l < |Keys()| && Keys()[l].second == key.second then rank == l + 1 && it == spine[l + 1]
        else rank == 0 && it == header
      ensures Ordered() ==>
        if rank == 0 then it == header && forall k :: 0 <= k < |Keys()| ==> Keys()[k].second != key.second
        else rank <= |Keys()| && it == spine[rank] && Keys()[rank - 1].second == key.second &&
             forall k :: 0 <= k < rank - 1 ==> Keys()[k].second != key.second
    {
      hide Framed, Levels, Next, Last, LinkAt, Sorted, KeysOf;
      Bounds();
      var node := header;
      it := header;
      rank := 0;
      var uiRank: nat := 0;
      ghost var pos: nat := 0;
      var i := level - 1;
      if level == 0 { LevelZero(); }
      while i >= 0
        invariant -1 <= i < level
        invariant pos < |spine| && node == spine[pos] && node.height > i && uiRank == pos
        invariant pos == 0 || Before(ascending, spine[pos].key, key)
        invariant i == -1 ==> pos + 1 == |spine| || !Before(ascending, spine[pos + 1].key, key)
        invariant if rank == 0 then it == header
                  else rank < |spine| && it == spine[rank] && spine[rank].key.second == key.second
        invariant i == -1 && pos + 1 < |spine| && spine[pos + 1].key.second == key.second ==> rank == pos + 1
      {
        var steps;
        node, steps, pos := WalkBefore(key, i, node, pos);
        uiRank := uiRank + steps;
        LinkOf(pos, i);
        if header != node.level[i].forward && !Before(ascending, key, node.level[i].forward.key) {
          rank := uiRank + node.level[i].span;
          it := node.level[i].forward;
        }
        if i == 0 { ZeroNext(pos); }
        i := i - 1;
      }
      if Ordered() {
        NearestIs(key, pos, rank);
        LowerBoundFirst(ascending, Keys(), key);
      }
    }

    lemma NearestIs(key: Key, pos: nat, rank: nat)
      requires Linked() && Ordered() && pos < |spine|
      requires pos == 0 || Before(ascending, spine[pos].key, key)
      requires pos + 1 == |spine| || !Before(ascending, spine[pos + 1].key, key)
      requires rank < |spine| && (rank > 0 ==> spine[rank].key.second == key.second)
      requires pos + 1 < |spine| && spine[pos + 1].key.second == key.second ==> rank == pos + 1
      ensures LowerBound(ascending, Keys(), key) == pos
      ensures rank == if pos < |Keys()| && Keys()[pos].second == key.second then pos + 1 else 0
    {
      LowerBoundIs(ascending, Keys(), key, pos);
      if rank > 0 {
        assert Keys()[rank - 1].second == key.second;
        assert pos < rank - 1 ==> !Before(ascending, Keys()[rank - 1], Keys()[pos]);
      }
    }

    lemma LevelZero()
      requires Linked() && level == 0
      ensures |spine| == 1
    {
      assert spine[|spine| - 1].height >= 1;
    }

    lemma ZeroNext(p: nat)
      requires Linked() && level > 0 && p < |spine|
      ensures Next(spine, p, 0) == p + 1
    {
      NextIs(spine, p, p + 1, 0);
    }

    /** `FindLast`: the rightmost element scoring like `key` and its rank, or 0 and the end. */
    method FindLast(key: Key) returns (rank: nat, it: Node)
      requires Linked()
      ensures Ordered() ==>
        var u := UpperBound(ascending, Keys(), key);
        if u > 0 && Keys()[u - 1].second == key.second then rank == u && it == spine[u]
        else rank == 0 && it == header
      ensures Ordered() ==>
        if rank == 0 then it == header && forall k :: 0 <= k < |Keys()| ==> Keys()[k].second != key.second
        else rank <= |Keys()| && it == spine[rank] && Keys()[rank - 1].second == key.second &&
             forall k :: rank <= k < |Keys()| ==> Keys()[k].second != key.second
    {
      hide Framed, Levels, Next, Last, LinkAt, Sorted, KeysOf, Farthest;
      Bounds();
      var node := header;
      it := header;
      rank := 0;
      var uiRank: nat := 0;
      var i := level - 1;
      FarthestMoves(key, 0, 0, rank, it);
      if level == 0 { LevelZero(); }
      while i >= 0
        invariant -1 <= i < level
        invariant uiRank < |spine| && node == spine[uiRank] && node.height > i
        invariant uiRank == 0 || !Before(ascending, key, node.key)
        invariant i == -1 ==> uiRank + 1 == |spine| || Before(ascending, key, spine[uiRank + 1].key)
        invariant Ordered() ==> Farthest(key, uiRank, rank, it)
      {
        node, uiRank, rank, it := WalkLast(key, i, node, uiRank, rank, it);
        if i == 0 { ZeroNext(uiRank); }
        i := i - 1;
      }
      if Ordered() {
        FarthestIs(key, uiRank, rank, it);
        UpperBoundLast(ascending, Keys(), key);
      }
    }

    /** The inner loop of `FindLast` on level `i`, which remembers the last equal node it meets. */
    method WalkLast(key: Key, i: nat, start: Node, from: nat, rank0: nat, it0: Node)
      returns (node: Node, uiRank: nat, rank: nat, it: Node)
      requires Linked() && i < level && from < |spine| && start == spine[from] && start.height > i
      requires from == 0 || !Before(ascending, key, start.key)
      requires Ordered() ==> Farthest(key, from, rank0, it0)
      ensures uiRank < |spine| && node == spine[uiRank] && node.height > i
      ensures uiRank == 0 || !Before(ascending, key, node.key)
      ensures var q := Next(spine, uiRank, i); q == |spine| || Before(ascending, key, spine[q].key)
      ensures Ordered() ==> Farthest(key, uiRank, rank, it)
    {
      hide Framed, Levels, Next, Last, LinkAt, Sorted, KeysOf, Farthest, Ordered;
      node, uiRank, rank, it := start, from, rank0, it0;
      LinkOf(uiRank, i);
      while header != node.level[i].forward && !Before(ascending, key, node.level[i].forward.key)
        invariant uiRank < |spine| && node == spine[uiRank] && node.height > i
        invariant |node.level| == node.height && node.level[i].forward != null
        invariant uiRank == 0 || !Before(ascending, key, node.key)
        invariant Ordered() ==> Farthest(key, uiRank, rank, it)
        decreases |spine| - uiRank
      {
        LinkOf(uiRank, i);
        FarthestMoves(key, uiRank, Next(spine, uiRank, i), rank, it);
        uiRank := uiRank + node.level[i].span;
        node := node.level[i].forward;
        if !Before(ascending, node.key, key) {
          rank := uiRank;
          it := node;
        }
        LinkOf(uiRank, i);
      }
      LinkOf(uiRank, i);
    }

    lemma FarthestMoves(key: Key, pos: nat, q: nat, rank: nat, it: Node)
      requires Linked() && pos <= q < |spine|
      requires q > 0 ==> !Before(ascending, key, spine[q].key)
      requires q == 0 ==> rank == 0 && it == header
      requires q > 0 ==> (Ordered() ==> Farthest(key, pos, rank, it))
      ensures q == 0 ==> Farthest(key, 0, rank, it)
      ensures Ordered() && q > 0 ==>
        if Before(ascending, spine[q].key, key) then Farthest(key, q, rank, it) else Farthest(key, q, q, spine[q])
    {
      if Ordered() && 0 < pos < q {
        assert !Before(ascending, Keys()[q - 1], Keys()[pos - 1]);
      }
    }

    lemma FarthestIs(key: Key, pos: nat, rank: nat, it: Node)
      requires Linked() && Ordered() && pos < |spine| && Farthest(key, pos, rank, it)
      requires pos == 0 || !Before(ascending, key, spine[pos].key)
      requires pos + 1 == |spine| || Before(ascending, key, spine[pos + 1].key)
      ensures var u := UpperBound(ascending, Keys(), key);
        if u > 0 && Keys()[u - 1].second == key.second then rank == u && it == spine[u]
        else rank == 0 && it == header
    {
      UpperBoundIs(ascending, Keys(), key, pos);
    }

    /** The last equal element that `FindLast` has met when it stands at position `pos`. */
    ghost predicate Farthest(key: Key, pos: nat, rank: nat, it: Node)
      requires pos < |spine|
      reads this
    {
      if pos > 0 && spine[pos].key.second == key.second then rank == pos && it == spine[pos]
      else rank == 0 && it == header
    }

    /** `GetRank`: the spans on the way back to the header add up to the rank; the end has rank 0. */
    method GetRank(it: Node, ghost r: nat) returns (rank: nat)
      requires Linked() && r < |spine| && it == spine[r]
      ensures rank == r
    {
      hide Framed, Levels, Next, Last;
      rank := 0;
      var node := it;
      ghost var pos: nat := r;
      Bounds();
      while header != node
        invariant pos < |spine| && node == spine[pos] && rank + pos == r
        decreases pos
      {
        BackOf(pos);
        var top: nat := node.height - 1;
        var prev: Node := node.level[top].backward;
        rank := rank + prev.level[top].span;
        node := prev;
        pos := Last(spine, pos, top);
      }
      HeaderOnce(pos);
    }

    /** No span in use exceeds the length, so the source's 32-bit spans do not wrap before the length does. */
    lemma SpansFit(p: nat, i: nat)
      requires Linked() && p < |spine| && i < spine[p].height && i < level
      ensures i < |spine[p].level| && p + spine[p].level[i].span <= length
    {
      LinkOf(p, i);
    }

    /** The topmost backward link of a node, and the span of the link that comes back from there. */
    lemma BackOf(p: nat)
      requires Linked() && p < |spine| && spine[p] != header
      ensures p > 0 && header == spine[0] && 1 <= spine[p].height == |spine[p].level| <= header.height
      ensures var top := spine[p].height - 1;
        var b := Last(spine, p, top);
        && b < p && spine[p].level[top].backward == spine[b]
        && top < |spine[b].level| && spine[b].level[top].span == p - b
    {
      var top := spine[p].height - 1;
      var b := Last(spine, p, top);
      LinkOf(p, top);
      LinkOf(b, top);
      LastGap(spine, p, top);
      NextIs(spine, b, p, top);
    }

    /**
     `FindByRank`.  It finds every rank but the last; the last node it finds only when that node's
     tower reaches the top level in use, and otherwise it returns the end.
     */
    method FindByRank(uiRank: nat) returns (it: Node)
      requires Linked()
      ensures uiRank == 0 || uiRank > length ==> it == header
      ensures 0 < uiRank < length ==> it == spine[uiRank]
      ensures 0 < uiRank == length ==> it == if spine[uiRank].height == level then spine[uiRank] else header
    {
      hide Framed, Levels, Next, Last;
      if length == 0 || uiRank == 0 || uiRank > length {
        return header;
      }
      Bounds();
      if level == 0 { LevelZero(); }
      HeightBound(uiRank);
      var left := uiRank;
      it := header;
      ghost var pos: nat := 0;
      var i := level - 1;
      while i >= 0
        invariant -1 <= i < level
        invariant 0 < left && pos + left == uiRank <= length && it == spine[pos] && it.height > i
        invariant i + 1 == level || uiRank < length
        invariant i == -1 ==> left < Span(spine, pos, 0)
      {
        it, left, pos := WalkRank(uiRank, i, it, left, pos);
        if left == 0 {
          break;
        }
        i := i - 1;
      }
      if left != 0 {
        ZeroNext(pos);
      }
    }

    /** The inner loop of `FindByRank` on level `i`. */
    method WalkRank(uiRank: nat, i: nat, start: Node, left0: nat, ghost from: nat)
      returns (node: Node, left: nat, ghost pos: nat)
      requires Linked() && i < level && uiRank <= length
      requires 0 < left0 && from + left0 == uiRank && start == spine[from] && start.height > i
      requires i == level - 1 || uiRank < length
      ensures left == 0 ==>
        node == if uiRank == length && spine[uiRank].height <= i then header else spine[uiRank]
      ensures left > 0 ==>
        && pos + left == uiRank < length && node == spine[pos] && node.height > i
        && left < Span(spine, pos, i)
    {
      hide Framed, Levels, Next, Last;
      node, left, pos := start, left0, from;
      LinkOf(pos, i);
      SpanPositive(pos, i);
      while left >= node.level[i].span
        invariant 0 < left && pos + left == uiRank && node == spine[pos] && node.height > i
        invariant spine[0].height > i && |node.level| == node.height && node.level[i] == LinkAt(spine, pos, i)
        invariant node.level[i].span > 0 && node.level[i].forward != null
        decreases left
      {
        LinkOf(pos, i);
        WrapSpan(pos, i);
        left := left - node.level[i].span;
        node := node.level[i].forward;
        if left == 0 {
          NextGap(spine, pos, i);
          break;
        }
        pos := Next(spine, pos, i);
        LinkOf(pos, i);
        SpanPositive(pos, i);
      }
      if left > 0 {
        WrapSpan(pos, i);
      }
    }

    lemma HeightBound(p: nat)
      requires Linked() && 1 <= p < |spine|
      ensures 1 <= spine[p].height <= level
    {
    }

    lemma SpanPositive(p: nat, i: nat)
      requires Linked() && i < level && p < length && spine[p].height > i
      ensures Span(spine, p, i) > 0
    {
    }

    /** A link's span ends at the rank of the next node, or at the length when the header comes next. */
    lemma WrapSpan(p: nat, i: nat)
      requires Linked() && i < level && p < |spine| && spine[p].height > i
      ensures var q := Next(spine, p, i);
        && (q == |spine| ==> p + Span(spine, p, i) == length && Forward(spine, p, i) == header)
        && (q < |spine| ==> p + Span(spine, p, i) == q && Forward(spine, p, i) == spine[q])
    {
    }

    /** `SetCmp` changes the order that later searches go by, not the list. */
    method SetCmp(less: bool)
      requires Linked()
      modifies `ascending
      ensures Linked() && ascending == less && Keys() == old(Keys())
    {
      ascending := less;
    }

    /** `begin` and `operator++`: walking level 0 from the first node to the end meets the keys in rank order. */
    method Iterate() returns (ks: seq<Key>)
      requires Linked()
      ensures ks == Keys()
    {
      hide Framed, Levels;
      Bounds();
      if level == 0 {
        LevelZero();
        return [];
      }
      ks := [];
      ghost var pos: nat := 1;
      SuccessorOf(0);
      var it: Node := header.level[0].forward;
      while it != header
        invariant 1 <= pos <= |spine| && it == (if pos == |spine| then header else spine[pos])
        invariant ks == Keys()[..pos - 1]
        decreases |spine| - pos
      {
        SuccessorOf(pos);
        ks := ks + [it.key];
        it := it.level[0].forward;
        pos := pos + 1;
      }
      if pos < |spine| { HeaderOnce(pos); }
    }

    /** The iterator reached from `begin` by `rank - 1` increments. */
    method AtRank(rank: nat) returns (it: Node)
      requires Linked() && 1 <= rank <= length
      ensures it == spine[rank]
    {
      hide Framed, Levels;
      Bounds();
      if level == 0 { LevelZero(); }
      SuccessorOf(0);
      it := header.level[0].forward;
      var pos := 1;
      while pos < rank
        invariant 1 <= pos <= rank && it == spine[pos]
      {
        SuccessorOf(pos);
        it := it.level[0].forward;
        pos := pos + 1;
      }
    }
  }

  lemma InsertMeans(ascending: bool, sp: seq<Node>, r: nat, x: Node)
    requires 1 <= r <= |sp|
    requires r == 1 || !Before(ascending, x.key, sp[r - 1].key)
    requires r == |sp| || Before(ascending, x.key, sp[r].key)
    ensures KeysOf(InsertAt(sp, r, x)) == InsertAt(KeysOf(sp), r - 1, x.key)
    ensures Sorted(ascending, KeysOf(sp)) ==>
      && Sorted(ascending, KeysOf(InsertAt(sp, r, x)))
      && r == 1 + UpperBound(ascending, KeysOf(sp), x.key)
  {
    InsertKeys(sp, r, x);
    if Sorted(ascending, KeysOf(sp)) {
      UpperBoundIs(ascending, KeysOf(sp), x.key, r - 1);
      InsertKeepsSorted(ascending, KeysOf(sp), x.key);
    }
  }

  lemma RemoveMeans(ascending: bool, sp: seq<Node>, r: nat)
    requires 1 <= r < |sp|
    ensures KeysOf(RemoveAt(sp, r)) == RemoveAt(KeysOf(sp), r - 1)
    ensures Sorted(ascending, KeysOf(sp)) ==> Sorted(ascending, KeysOf(RemoveAt(sp, r)))
  {
    if Sorted(ascending, KeysOf(sp)) {
      RemoveKeepsSorted(ascending, KeysOf(sp), r - 1);
    }
  }
}