/** The fixed-size block pool. A pointer to an object in the pool is modelled by the index of
    its block, so two pointers alias exactly when they are equal, and reading or writing
    through a pointer requires the block to be in use. */
module Pools {

  /** The null pointer. */
  const NULL: int := -1

  datatype MemoryBlock<T> = MemoryBlock(storage: T, isFree: bool)

  /** Index of the block k places after start, wrapping around at n. */
  function Wrap(start: int, k: int, n: int): int {
    if start + k < n then start + k else start + k - n
  }

  lemma WrapCovers(start: nat, n: nat, i: nat)
    requires start < n && i < n
    ensures exists k :: 0 <= k < n && Wrap(start, k, n) == i
  {
    var k := if start <= i then i - start else i + n - start;
    assert Wrap(start, k, n) == i;
  }

  lemma WrapNext(i: nat, n: nat)
    requires i < n
    ensures (i + 1) % n == (if i + 1 < n then i + 1 else 0)
  {
  }

  /** Distinct numbers below n: there are at most n of them, and if fewer, one is missing. */
  lemma {:induction false} Pigeonhole(s: set<int>, n: nat)
    requires forall i :: i in s ==> 0 <= i < n
    ensures |s| <= n
    ensures |s| < n ==> exists i :: 0 <= i < n && i !in s
  {
    if n == 0 {
      assert forall i :: i in s ==> 0 <= i < 0;
      assert s == {};
    } else {
      var s' := s - {n - 1};
      Pigeonhole(s', n - 1);
      if n - 1 in s {
        assert s == s' + {n - 1};
        if |s| < n {
          var i :| 0 <= i < n - 1 && i !in s';
          assert i !in s;
        }
      } else {
        assert s == s';
      }
    }
  }

  class MemoryPool<T(0)> {
    const memoryBlocks: array<MemoryBlock<T>>
    var nextFreeIndex: nat
    var freeBlocksCount: nat
    var lastFreedIndex: nat

    // The pool as its users see it: what each block stores, and which blocks are in use.
    ghost var cells: seq<T>
    ghost var used: set<int>

    ghost predicate Valid()
      reads this, memoryBlocks
    {
      && |cells| == memoryBlocks.Length
      && (forall i :: 0 <= i < memoryBlocks.Length ==> memoryBlocks[i].storage == cells[i])
      && (forall i :: 0 <= i < memoryBlocks.Length ==> (i in used <==> !memoryBlocks[i].isFree))
      && (forall i :: i in used ==> 0 <= i < memoryBlocks.Length)
      && freeBlocksCount + |used| == memoryBlocks.Length
      && nextFreeIndex < memoryBlocks.Length
      && lastFreedIndex < memoryBlocks.Length
      && (freeBlocksCount > 0 ==> nextFreeIndex !in used)
    }

    constructor (size: nat, fill: T)
      requires size > 0
      ensures Valid() && fresh(memoryBlocks)
      ensures |cells| == size && used == {} && freeBlocksCount == size
    {
      memoryBlocks := new MemoryBlock<T>[size](_ => MemoryBlock(fill, true));
      nextFreeIndex, freeBlocksCount, lastFreedIndex := 0, size, 0;
      cells := seq(size, _ => fill);
      used := {};
    }

    /** Moves to the first free block at or after the current one, going round at the end.
        The scan always finds one, so the source's final assertion is never reached. */
    method UpdateNextFreeIndex()
      requires |cells| == memoryBlocks.Length
      requires nextFreeIndex < memoryBlocks.Length
      requires forall i :: 0 <= i < memoryBlocks.Length ==> (i in used <==> !memoryBlocks[i].isFree)
      requires forall i :: i in used ==> 0 <= i < memoryBlocks.Length
      requires |used| < memoryBlocks.Length
      modifies this`nextFreeIndex
      ensures nextFreeIndex < memoryBlocks.Length && nextFreeIndex !in used
      ensures exists k :: 0 <= k < memoryBlocks.Length && nextFreeIndex == Wrap(old(nextFreeIndex), k, memoryBlocks.Length)
                          && forall j :: 0 <= j < k ==> Wrap(old(nextFreeIndex), j, memoryBlocks.Length) in used
    {
      var n := memoryBlocks.Length;
      if memoryBlocks[nextFreeIndex].isFree {
        assert nextFreeIndex == Wrap(old(nextFreeIndex), 0, n);
        return;
      }
      Pigeonhole(used, n);
      var startIndex := nextFreeIndex;
      ghost var k := 0;
      while true
        invariant 0 <= k < n && nextFreeIndex == Wrap(startIndex, k, n) < n
        invariant forall j :: 0 <= j <= k ==> Wrap(startIndex, j, n) in used
        decreases n - k
      {
        WrapNext(nextFreeIndex, n);
        nextFreeIndex := (nextFreeIndex + 1) % n;
        k := k + 1;
        assert nextFreeIndex == Wrap(startIndex, k, n);
        if memoryBlocks[nextFreeIndex].isFree {
          assert k < n;
          return;
        }
        if nextFreeIndex == startIndex {
          assert k == n;
          break;
        }
      }
      assert forall j :: 0 <= j < n ==> Wrap(startIndex, j, n) in used;
      forall i | 0 <= i < n
        ensures i in used
      {
        WrapCovers(startIndex, n, i);
      }
      assert false;
    }

    /** The block handed out was free; it is the one the pool pointed at. Null when all are in use. */
    method Allocate(value: T) returns (p: int)
      requires Valid()
      modifies this, memoryBlocks
      ensures Valid()
      ensures p == NULL <==> old(freeBlocksCount) == 0
      ensures p == NULL ==> used == old(used) && cells == old(cells) && freeBlocksCount == 0
      ensures p != NULL ==>
                && p == old(nextFreeIndex) < |cells|
                && p !in old(used) && used == old(used) + {p}
                && cells == old(cells)[p := value]
                && freeBlocksCount == old(freeBlocksCount) - 1
    {
      if freeBlocksCount == 0 {
        return NULL;
      }
      p := nextFreeIndex;
      assert memoryBlocks[p].isFree;
      memoryBlocks[p] := MemoryBlock(value, false);
      cells, used := cells[p := value], used + {p};
      freeBlocksCount := freeBlocksCount - 1;
      if freeBlocksCount > 0 {
        UpdateNextFreeIndex();
      }
    }

    /** The freed block is the next one handed out. */
    method Deallocate(p: int)
      requires Valid()
      requires p in used
      modifies this, memoryBlocks
      ensures Valid()
      ensures used == old(used) - {p} && cells == old(cells)
      ensures freeBlocksCount == old(freeBlocksCount) + 1 && nextFreeIndex == p
    {
      memoryBlocks[p] := memoryBlocks[p].(isFree := true);
      used := used - {p};
      freeBlocksCount := freeBlocksCount + 1;
      lastFreedIndex := p;
      nextFreeIndex := lastFreedIndex;
    }

    /** Reading through a pointer. */
    function Load(p: int): (value: T)
      requires Valid() && p in used
      reads this, memoryBlocks
      ensures value == cells[p]
    {
      memoryBlocks[p].storage
    }

    /** Writing through a pointer. */
    method Store(p: int, value: T)
      requires Valid()
      requires p in used
      modifies this, memoryBlocks
      ensures Valid()
      ensures cells == old(cells)[p := value] && used == old(used) && freeBlocksCount == old(freeBlocksCount)
      ensures nextFreeIndex == old(nextFreeIndex)
    {
      memoryBlocks[p] := memoryBlocks[p].(storage := value);
      cells := cells[p := value];
    }

    function GetFreeBlocksCount(): (count: nat)
      requires Valid()
      reads this, memoryBlocks
      ensures count + |used| == |cells|
    {
      freeBlocksCount
    }
  }

  /** Freeing a block and allocating again gives the same block back. */
  method Reuse<T(0)>(pool: MemoryPool<T>, p: int, value: T) returns (q: int)
    requires pool.Valid() && p in pool.used
    modifies pool, pool.memoryBlocks
    ensures pool.Valid() && q == p
    ensures pool.used == old(pool.used) && pool.cells == old(pool.cells)[p := value]
  {
    pool.Deallocate(p);
    q := pool.Allocate(value);
  }
}
