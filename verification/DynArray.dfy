/** `DynArray` of tinyxml2: an array that grows to twice the capacity asked for. */
module DynArrays {
  const INT_MAX: nat := 0x7fff_ffff

  class DynArray<T(0)> {
    const initialSize: nat
    const pool: array<T>
    var mem: array<T>
    var capacity: nat
    var size: nat

    /** How many elements have ever been pushed, and how many have been copied in growing. */
    ghost var pushed: nat
    ghost var copied: nat

    ghost predicate Valid()
      reads this
    {
      && 0 < initialSize == pool.Length
      && capacity == mem.Length && initialSize <= capacity
      && size <= capacity && size <= pushed
      && copied <= capacity
      && (copied == 0 || capacity <= 2 * pushed)
    }

    ghost function Contents(): seq<T>
      requires size <= mem.Length
      reads `mem, `size, mem
    {
      mem[..size]
    }

    constructor (initialSize: nat)
      requires initialSize > 0
      ensures Valid() && Contents() == [] && pushed == 0 && copied == 0
      ensures fresh(mem) && fresh(pool)
    {
      this.initialSize := initialSize;
      var a := new T[initialSize];
      pool := a;
      mem := a;
      capacity := initialSize;
      size, pushed, copied := 0, 0, 0;
    }

    method Clear()
      requires Valid()
      modifies `size
      ensures Valid() && Contents() == []
    {
      size := 0;
    }

    /** Growing over any run copies fewer elements than twice the number pushed. */
    lemma AmortizedCopying()
      requires Valid()
      ensures copied <= 2 * pushed
    {
    }

    /** `EnsureCapacity`; `cap` counts elements about to be pushed. */
    method EnsureCapacity(cap: nat)
      requires Valid() && 0 < cap && size <= cap
      requires cap <= capacity || cap <= INT_MAX / 2
      modifies `mem, `capacity, `copied, `pushed
      ensures mem == old(mem) || fresh(mem)
      ensures pushed == old(pushed) + (cap - size) && Valid() && cap <= capacity
      ensures Contents() == old(Contents())
      ensures copied == if cap > old(capacity) then old(copied) + size else old(copied)
      ensures capacity == if cap > old(capacity) then 2 * cap else old(capacity)
    {
      pushed := pushed + (cap - size);
      if cap > capacity {
        var newAllocated := cap * 2;
        var newMem := new T[newAllocated];
        var k := 0;
        while k < size
          invariant 0 <= k <= size && newMem.Length == newAllocated
          invariant newMem[..k] == mem[..k]
          modifies newMem
        {
          newMem[k] := mem[k];
          k := k + 1;
        }
        copied := copied + size;
        mem := newMem;
        capacity := newAllocated;
      }
    }

    method Push(t: T)
      requires Valid() && (size + 1 <= capacity || size + 1 <= INT_MAX / 2)
      modifies this, mem
      ensures Valid() && Contents() == old(Contents()) + [t] && pushed == old(pushed) + 1
      ensures mem == old(mem) || fresh(mem)
    {
      EnsureCapacity(size + 1);
      mem[size] := t;
      size := size + 1;
    }

    /** `PushArr` makes room for `count` elements, whose values are up to the caller. */
    method PushArr(count: nat) returns (at: nat)
      requires Valid() && size + count > 0 && (size + count <= capacity || size + count <= INT_MAX / 2)
      modifies this, mem
      ensures Valid() && at == old(size) && size == old(size) + count && pushed == old(pushed) + count
      ensures Contents()[..at] == old(Contents())
      ensures mem == old(mem) || fresh(mem)
    {
      EnsureCapacity(size + count);
      at := size;
      size := size + count;
    }

    method Pop() returns (t: T)
      requires Valid() && size > 0
      modifies `size
      ensures Valid() && old(Contents()) == Contents() + [t]
    {
      size := size - 1;
      t := mem[size];
    }

    method PopArr(count: nat)
      requires Valid() && count <= size
      modifies `size
      ensures Valid() && Contents() == old(Contents())[..old(size) - count]
    {
      size := size - count;
    }

    /** `SwapRemove`: the last element takes the place of the one removed, so exactly that one is gone. */
    method SwapRemove(i: nat)
      requires Valid() && i < size
      modifies `size, mem
      ensures Valid() && Contents() == SwappedOut(old(Contents()), i)
      ensures size == old(size) - 1
      ensures forall k :: 0 <= k < size ==> mem[k] == if k == i then old(mem[size - 1]) else old(mem[k])
      ensures multiset(old(Contents())) == multiset(Contents()) + multiset{old(Contents())[i]}
    {
      hide SwappedOut;
      SwappedOutLosesOne(Contents(), i);
      Overwrite(i);
    }

    method Overwrite(i: nat)
      requires Valid() && i < size
      modifies `size, mem
      ensures Valid() && Contents() == SwappedOut(old(Contents()), i) && size == old(size) - 1
      ensures forall k :: 0 <= k < size ==> mem[k] == if k == i then old(mem[size - 1]) else old(mem[k])
    {
      ghost var before := Contents();
      mem[i] := mem[size - 1];
      assert mem[..size] == before[i := before[size - 1]];
      size := size - 1;
      assert Contents() == before[i := before[size]][..size];
    }
  }

  /** The last element in place of the one at `i`. */
  function SwappedOut<T>(s: seq<T>, i: nat): seq<T>
    requires i < |s|
  {
    s[i := s[|s| - 1]][..|s| - 1]
  }

  lemma SwappedOutLosesOne<T>(s: seq<T>, i: nat)
    requires i < |s|
    ensures multiset(s) == multiset(SwappedOut(s, i)) + multiset{s[i]}
  {
    var n := |s| - 1;
    if i < n {
      var a, b := s[..i], s[i + 1..n];
      assert s == a + [s[i]] + b + [s[n]];
      assert s[i := s[n]][..n] == a + [s[n]] + b;
      Exchanged(a, s[i], b, s[n]);
    } else {
      assert s == s[..n] + [s[n]];
      assert s[i := s[n]][..n] == s[..n];
    }
  }

  lemma Exchanged<T>(a: seq<T>, x: T, b: seq<T>, y: T)
    ensures multiset(a + [x] + b + [y]) == multiset(a + [y] + b) + multiset{x}
  {
  }
}
