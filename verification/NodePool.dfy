module NodePool {
  type uint32 = x: int | 0 <= x < 0x1_0000_0000

  const MAX_NEW_BINARY_TREE: nat := 1000

  class Node {
    var p: Node?
    var a: Node?
    var e: Node?
    var l: Node?
    var count: int
    var hash: uint32
    var obj: nat   // address of the record, 0 for NULL
    ghost var lo: int
    ghost var hi: int
    ghost var rank: int
    ghost var home: int

    ghost predicate Zeroed()
      reads this
    {
      p == null && a == null && l == null && count == 0 && hash == 0 && obj == 0 && home == -1
    }

    constructor ()
      ensures Zeroed() && e == null
    {
      p, a, e, l := null, null, null, null;
      count, hash, obj, home := 0, 0, 0, -1;
    }
  }

  // The free list, linked through e.  The ghost rank of a free node is its height in the stack.
  class Pool {
    var pfree: Node?
    var count: int
    ghost var free: set<Node>
    ghost var at: map<int, Node>

    ghost predicate Valid()
      reads this, free
      ensures Valid() ==> forall n | n in free :: n.home == -1
    {
      && (pfree == null ==> free == {})
      && (pfree != null ==> pfree in free)
      && (forall n | n in free :: n.Zeroed() && 0 <= n.rank <= pfree.rank)
      && (forall n | n in free :: if n.e == null then n.rank == 0 else n.e in free && n.e.rank == n.rank - 1)
      && (forall n | n in free :: n.rank in at && at[n.rank] == n)
    }

    // A pool starts with a first batch.
    constructor ()
      ensures Valid() && |free| == count == MAX_NEW_BINARY_TREE && forall n | n in free :: fresh(n)
    {
      pfree, count, free, at := null, 0, {}, map[];
      new;
      Add();
    }

    method Push(n: Node)
      requires Valid() && n !in free && n.Zeroed()
      modifies this, n
      ensures Valid() && free == old(free) + {n} && count == old(count)
    {
      n.rank := if pfree == null then 0 else pfree.rank + 1;
      n.e := pfree;
      pfree := n;
      free := free + {n};
      at := at[n.rank := n];
    }

    method Add()
      requires Valid()
      modifies this
      ensures Valid()
      ensures old(free) != {} ==> free == old(free) && count == old(count)
      ensures old(free) == {} ==> |free| == MAX_NEW_BINARY_TREE && count == old(count) + MAX_NEW_BINARY_TREE
      ensures old(free) == {} ==> forall n | n in free :: fresh(n)
    {
      if pfree != null { return; }
      var i := 0;
      while i < MAX_NEW_BINARY_TREE
        invariant 0 <= i <= MAX_NEW_BINARY_TREE && |free| == i
        invariant Valid() && count == old(count)
        invariant forall n | n in free :: fresh(n)
      {
        var n := new Node();
        Push(n);
        i := i + 1;
      }
      count := count + MAX_NEW_BINARY_TREE;
    }

    method Get() returns (n: Node)
      requires Valid()
      modifies this, free
      ensures Valid() && n.Zeroed() && n.e == null
      ensures n !in free && (n in old(free) || fresh(n))
      ensures forall m | m in free :: m in old(free) || fresh(m)
      ensures old(free) != {} ==> old(free) == free + {n} && count == old(count)
    {
      if pfree == null { Add(); }
      n := pfree;
      pfree := n.e;
      free := free - {n};
      n.e := null;
    }

    method Free(n: Node)
      requires Valid() && n !in free
      modifies this, n
      ensures Valid() && free == old(free) + {n} && count == old(count)
    {
      hide Valid;
      n.p, n.a, n.l, n.count, n.hash, n.obj, n.home := null, null, null, 0, 0, 0, -1;
      Push(n);
    }
  }
}
