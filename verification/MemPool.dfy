/**
 `MemPoolT` of tinyxml2: items of equal size, allocated a block at a time and chained, while they
 are not in use, through their first word.
 */
module MemPools {
  import opened Division

  /** An item: free, it holds the link to the next free item; in use, its bytes belong to the client. */
  class Item {
    var next: Item?

    constructor ()
      ensures next == null
    {
      next := null;
    }
  }

  ghost predicate Distinct(s: seq<Item>) {
    forall j, k :: 0 <= j < k < |s| ==> s[j] != s[k]
  }

  ghost function ItemsOf(s: seq<Item>): set<Item> {
    set x | x in s
  }

  /** The items of all blocks. */
  ghost function AllItems(blocks: seq<seq<Item>>): set<Item> {
    if blocks == [] then {} else AllItems(blocks[..|blocks| - 1]) + ItemsOf(blocks[|blocks| - 1])
  }

  /** `s` is linked from item to item, and its last link is null. */
  ghost predicate Linked(s: seq<Item>)
    reads s
  {
    && (forall k :: 0 <= k < |s| - 1 ==> s[k].next == s[k + 1])
    && (s != [] ==> s[|s| - 1].next == null)
  }

  function Times(blocks: nat, per: nat): nat {
    blocks * per
  }

  /** The smallest number of blocks of `per` items that holds `n` items. */
  function BlocksFor(n: nat, per: nat): nat
    requires per > 0
  {
    (n + per - 1) / per
  }

  lemma BlocksForIs(n: nat, per: nat, blocks: nat)
    requires per > 0
    requires n <= blocks * per && (blocks > 0 ==> n > (blocks - 1) * per)
    ensures BlocksFor(n, per) == blocks
  {
    if blocks == 0 {
      assert n == 0;
      assert (per - 1) / per == 0;
    } else {
      var rest := n + per - 1 - blocks * per;
      assert (blocks - 1) * per == blocks * per - per;
      assert 0 <= rest < per;
      assert n + per - 1 == blocks * per + rest;
      Quotient(n + per - 1, per, blocks, rest);
    }
  }

  lemma TimesMore(blocks: nat, per: nat)
    ensures Times(blocks + 1, per) == Times(blocks, per) + per
  {
  }

  lemma TimesZero(per: nat)
    ensures Times(0, per) == 0
  {
  }

  lemma Nothing()
    ensures AllItems([]) == {} && ItemsOf([]) == {} && Distinct([]) && Linked([])
  {
  }

  lemma AddBlock(blocks: seq<seq<Item>>, block: seq<Item>, live: set<Item>, per: nat)
    requires live + ItemsOf([]) == AllItems(blocks)
    ensures AllItems(blocks + [block]) == live + ItemsOf(block)
    ensures Times(|blocks + [block]|, per) == Times(|blocks|, per) + per
  {
    TimesMore(|blocks|, per);
    hide Times;
    assert (blocks + [block])[..|blocks|] == blocks;
    assert ItemsOf([]) == {};
  }

  lemma FreshItems(live: set<Item>, block: seq<Item>)
    requires forall k :: 0 <= k < |block| ==> block[k] !in live
    ensures live !! ItemsOf(block)
  {
  }

  class MemPool {
    const itemsPerBlock: nat

    var blockPtrs: seq<seq<Item>>
    var root: Item?
    var currentAllocs: int
    var nAllocs: int
    var maxAllocs: int
    var nUntracked: int

    /** The free list from `root`, and the items handed out and not yet given back. */
    ghost var chain: seq<Item>
    ghost var live: set<Item>

    ghost predicate Counts()
      reads `currentAllocs, `maxAllocs, `blockPtrs, `live, `chain
    {
      && itemsPerBlock > 0
      && currentAllocs == |live|
      && |live| + |chain| == Times(|blockPtrs|, itemsPerBlock)
      && currentAllocs <= maxAllocs <= Times(|blockPtrs|, itemsPerBlock)
      && (|blockPtrs| > 0 ==> maxAllocs > Times(|blockPtrs| - 1, itemsPerBlock))
    }

    ghost predicate FullBlocks()
      reads `blockPtrs
    {
      forall b :: 0 <= b < |blockPtrs| ==> |blockPtrs[b]| == itemsPerBlock
    }

    ghost predicate Valid()
      reads this, chain
    {
      Counts() && Parted()
    }

    /** The items in use and the free list part all items between them. */
    ghost predicate Parted()
      reads `blockPtrs, `root, `live, `chain, chain
    {
      && FullBlocks()
      && Distinct(chain) && Linked(chain)
      && root == (if chain == [] then null else chain[0])
      && live !! ItemsOf(chain) && live + ItemsOf(chain) == AllItems(blockPtrs)
    }

    /** The number of blocks is the least that the largest number of items ever in use at once needs. */
    lemma BlocksNeeded()
      requires Valid()
      ensures maxAllocs >= 0 && |blockPtrs| == BlocksFor(maxAllocs, itemsPerBlock)
      ensures maxAllocs <= |blockPtrs| * itemsPerBlock
      ensures |blockPtrs| > 0 ==> maxAllocs > (|blockPtrs| - 1) * itemsPerBlock
    {
      BlocksForIs(maxAllocs, itemsPerBlock, |blockPtrs|);
    }

    /** `ITEMS_PER_BLOCK` is what 4 kB hold. */
    constructor (itemSize: nat)
      requires 0 < itemSize <= 4 * 1024
      ensures Valid() && live == {} && chain == [] && blockPtrs == []
      ensures currentAllocs == nAllocs == maxAllocs == nUntracked == 0
      ensures itemsPerBlock == 4096 / itemSize
    {
      itemsPerBlock := 4 * 1024 / itemSize;
      blockPtrs := [];
      root := null;
      currentAllocs, nAllocs, maxAllocs, nUntracked := 0, 0, 0, 0;
      chain := [];
      live := {};
    }

    /** `Clear` deletes all blocks, whatever is still in use. */
    method Clear()
      requires Valid()
      modifies this
      ensures Valid() && live == {} && chain == [] && blockPtrs == []
      ensures currentAllocs == nAllocs == maxAllocs == nUntracked == 0
    {
      hide AllItems, ItemsOf, Distinct, Linked, Times;
      assert itemsPerBlock > 0;
      hide Valid;
      while blockPtrs != []
        modifies `blockPtrs
        decreases |blockPtrs|
      {
        blockPtrs := blockPtrs[..|blockPtrs| - 1];
      }
      root := null;
      currentAllocs, nAllocs, maxAllocs, nUntracked := 0, 0, 0, 0;
      chain := [];
      live := {};
      IsEmpty();
    }

    lemma IsEmpty()
      requires itemsPerBlock > 0 && blockPtrs == [] && chain == [] && live == {} && root == null
      requires currentAllocs == maxAllocs == 0
      ensures Valid()
    {
      hide AllItems, ItemsOf, Distinct, Linked, Times;
      Nothing();
      TimesZero(itemsPerBlock);
    }

    /** A new block, its items chained in order. */
    method NewBlock() returns (items: seq<Item>)
      requires itemsPerBlock > 0
      ensures |items| == itemsPerBlock && Distinct(items) && Linked(items)
      ensures forall k :: 0 <= k < |items| ==> fresh(items[k])
    {
      items := [];
      while |items| < itemsPerBlock
        invariant |items| <= itemsPerBlock && Distinct(items)
        invariant forall k :: 0 <= k < |items| ==> fresh(items[k])
      {
        var item := new Item();
        items := items + [item];
      }
      var i := 0;
      while i < itemsPerBlock - 1
        invariant 0 <= i <= itemsPerBlock - 1
        invariant forall k :: 0 <= k < i ==> items[k].next == items[k + 1]
        modifies items
      {
        items[i].next := items[i + 1];
        i := i + 1;
      }
      items[itemsPerBlock - 1].next := null;
    }

    /** The first part of `Alloc`: when the free list is empty, a new block becomes the free list. */
    method Grow()
      requires Valid() && root == null
      modifies `blockPtrs, `root, `chain
      ensures AllInUse() && chain != [] && Parted()
      ensures |blockPtrs| == |old(blockPtrs)| + 1
      ensures forall k :: 0 <= k < |chain| ==> fresh(chain[k])
    {
      hide AllItems, ItemsOf, Distinct, Linked, Times;
      var block := NewBlock();
      AddBlock(blockPtrs, block, live, itemsPerBlock);
      FreshItems(live, block);
      blockPtrs := blockPtrs + [block];
      root := block[0];
      chain := block;
    }

    /** The counters after a block has been added: all older items are in use. */
    ghost predicate AllInUse()
      reads this
    {
      && itemsPerBlock > 0 && currentAllocs == |live| == maxAllocs
      && |blockPtrs| > 0 && |live| == Times(|blockPtrs| - 1, itemsPerBlock)
      && |live| + |chain| == Times(|blockPtrs|, itemsPerBlock)
    }

    /** `Alloc`: the item at the front of the free list, never one that is in use. */
    method Alloc() returns (it: Item)
      requires Valid()
      modifies this
      ensures Valid() && it !in old(live) && live == old(live) + {it}
      ensures currentAllocs == old(currentAllocs) + 1 && nAllocs == old(nAllocs) + 1
      ensures nUntracked == old(nUntracked) + 1
      ensures maxAllocs == if currentAllocs > old(maxAllocs) then currentAllocs else old(maxAllocs)
      ensures |blockPtrs| == |old(blockPtrs)| + if old(chain) == [] then 1 else 0
      ensures old(chain) == [] || (it == old(chain)[0] && chain == old(chain)[1..])
    {
      hide Parted, ItemsOf, Times;
      MakeFree();
      it := TakeFirst();
      CountAlloc();
    }

    /** The counters when an item is about to be handed out. */
    ghost predicate Ready()
      reads this
    {
      && itemsPerBlock > 0 && |blockPtrs| > 0 && currentAllocs == |live|
      && |live| + |chain| == Times(|blockPtrs|, itemsPerBlock)
      && currentAllocs < Times(|blockPtrs|, itemsPerBlock) && currentAllocs <= maxAllocs
      && maxAllocs <= Times(|blockPtrs|, itemsPerBlock)
      && var full := Times(|blockPtrs| - 1, itemsPerBlock);
         maxAllocs > full || currentAllocs == maxAllocs == full
    }

    /** After the first part of `Alloc` the free list is not empty. */
    method MakeFree()
      requires Valid()
      modifies `blockPtrs, `root, `chain
      ensures Ready() && Parted() && chain != []
      ensures |blockPtrs| == |old(blockPtrs)| + if old(chain) == [] then 1 else 0
      ensures old(chain) == [] || chain == old(chain)
      ensures old(chain) == [] ==> forall k :: 0 <= k < |chain| ==> fresh(chain[k])
    {
      hide AllItems, ItemsOf, Distinct, Linked, Times, FullBlocks;
      TimesZero(itemsPerBlock);
      if root == null {
        Grow();
        TimesMore(|blockPtrs| - 1, itemsPerBlock);
      }
    }

    /** The counters after an item has been handed out. */
    method CountAlloc()
      requires itemsPerBlock > 0 && |blockPtrs| > 0 && currentAllocs == |live| - 1
      requires |live| + |chain| == Times(|blockPtrs|, itemsPerBlock)
      requires currentAllocs <= maxAllocs <= Times(|blockPtrs|, itemsPerBlock)
      requires var full := Times(|blockPtrs| - 1, itemsPerBlock);
        maxAllocs > full || currentAllocs == maxAllocs == full
      modifies `currentAllocs, `nAllocs, `maxAllocs, `nUntracked
      ensures Counts()
      ensures currentAllocs == old(currentAllocs) + 1 && nAllocs == old(nAllocs) + 1
      ensures nUntracked == old(nUntracked) + 1
      ensures maxAllocs == if currentAllocs > old(maxAllocs) then currentAllocs else old(maxAllocs)
    {
      hide Times;
      currentAllocs := currentAllocs + 1;
      if currentAllocs > maxAllocs {
        maxAllocs := currentAllocs;
      }
      nAllocs := nAllocs + 1;
      nUntracked := nUntracked + 1;
    }

    /** The item at the front of the free list leaves it. */
    method TakeFirst() returns (it: Item)
      requires Parted() && chain != []
      modifies `root, `chain, `live
      ensures it == old(chain)[0] && chain == old(chain)[1..]
      ensures live == old(live) + {it} && |live| == |old(live)| + 1 && it !in old(live)
      ensures Parted()
    {
      hide AllItems, ItemsOf, Distinct, Linked, Times;
      LinkedTail(chain);
      ItemsOfFirst(chain);
      MoveOver(live, ItemsOf(chain), ItemsOf(chain[1..]), chain[0]);
      it := root;
      root := root.next;
      live := live + {it};
      chain := chain[1..];
    }

    /** `Free`: an item in use becomes the front of the free list. */
    method Free(mem: Item?)
      requires Valid() && (mem != null ==> mem in live)
      modifies `root, `currentAllocs, `chain, `live
      modifies if mem == null then {} else {mem}
      ensures Valid()
      ensures mem == null ==> chain == old(chain) && live == old(live)
      ensures mem != null ==> chain == [mem] + old(chain) && live == old(live) - {mem}
    {
      hide AllItems, ItemsOf, Distinct, Linked, Times, FullBlocks;
      if mem == null {
        return;
      }
      NotInChain(live, chain, mem);
      PutBack(mem);
      currentAllocs := currentAllocs - 1;
    }

    method PutBack(mem: Item)
      requires Parted() && mem in live
      modifies `root, `chain, `live, mem
      ensures Parted() && chain == [mem] + old(chain) && live == old(live) - {mem}
    {
      hide AllItems, ItemsOf, Distinct, Linked, FullBlocks;
      NotInChain(live, chain, mem);
      mem.next := root;
      root := mem;
      LinkedFront(chain, mem);
      live := live - {mem};
      chain := [mem] + chain;
    }
  }

  /** An item moves from one of two disjoint sets to the other. */
  lemma MoveOver(live: set<Item>, free: set<Item>, free': set<Item>, x: Item)
    requires live !! free && free == {x} + free' && x !in free'
    ensures live + {x} !! free' && live + {x} + free' == live + free && |live + {x}| == |live| + 1
  {
  }

  lemma LinkedTail(s: seq<Item>)
    requires Linked(s) && s != []
    ensures Linked(s[1..]) && s[0].next == if s[1..] == [] then null else s[1..][0]
  {
    var t := s[1..];
    forall k | 0 <= k < |t| - 1 ensures t[k].next == t[k + 1] {
      assert s[k + 1].next == s[k + 2];
    }
  }

  lemma LinkedFront(s: seq<Item>, x: Item)
    requires Linked(s) && x.next == if s == [] then null else s[0]
    ensures Linked([x] + s)
  {
    var t := [x] + s;
    forall k | 0 <= k < |t| - 1 ensures t[k].next == t[k + 1] {
      if k > 0 {
        assert s[k - 1].next == s[k];
      }
    }
  }

  /** Giving an item back: what the item and the free list were, and what they become. */
  lemma NotInChain(live: set<Item>, chain: seq<Item>, x: Item)
    requires live !! ItemsOf(chain) && x in live && Distinct(chain)
    ensures forall k :: 0 <= k < |chain| ==> chain[k] != x
    ensures Distinct([x] + chain) && live - {x} !! ItemsOf([x] + chain)
    ensures live - {x} + ItemsOf([x] + chain) == live + ItemsOf(chain)
    ensures |live - {x}| == |live| - 1
  {
    forall k | 0 <= k < |chain| ensures chain[k] != x {
      assert chain[k] in ItemsOf(chain);
    }
    assert ItemsOf([x] + chain) == {x} + ItemsOf(chain) by {
      assert forall y :: y in [x] + chain <==> y == x || y in chain;
    }
  }

  lemma ItemsOfFirst(s: seq<Item>)
    requires s != []
    ensures ItemsOf(s) == {s[0]} + ItemsOf(s[1..])
    ensures Distinct(s) ==> s[0] !in ItemsOf(s[1..]) && Distinct(s[1..])
  {
    assert s == [s[0]] + s[1..];
  }
}
