// The blocks filed by their longest run of free cells, and the requests served from them.
module FreeBuffers {
  import opened BitMask
  import opened Blocks

  const MAX_NEW_FREE_BUFFER: nat := 1000
  const MAX_BYTES_MALLOC: nat := 50000000
  const NEW_BYTES: nat := MAX_NEW_FREE_BUFFER * 4108  // two 32-bit pointers, the mask and the cells

  function Just(b: Block?): set<Block>
  {
    if b == null then {} else {b}
  }

  ghost predicate Distinct(arr: seq<Block>) {
    forall i, j | 0 <= i < j < |arr| :: arr[i] != arr[j]
  }

  function After(arr: seq<Block>, k: nat): (b: Block?)
    ensures k + 1 >= |arr| ==> b == null
  {
    if k + 1 < |arr| then arr[k + 1] else null
  }

  function Before(arr: seq<Block>, k: nat): (b: Block?)
    ensures k == 0 ==> b == null
  {
    if 0 < k <= |arr| then arr[k - 1] else null
  }

  // Fresh blocks linked to each other in order.
  ghost predicate InARow(arr: seq<Block>)
    reads arr
  {
    && |arr| == MAX_NEW_FREE_BUFFER && Distinct(arr)
    && (forall k | 0 <= k < |arr| :: arr[k].next == After(arr, k) && arr[k].prev == Before(arr, k))
    && (forall k | 0 <= k < |arr| :: arr[k].bucket == COUNT_ITEM - 1 && arr[k].rank == |arr| - 1 - k)
  }

  ghost predicate Empty(b: Block)
    reads b`mask, b`heads, b`buf, b`chunks, b`owner
    ensures Empty(b) ==> |b.mask| == SIZE_MASK && b.chunks == map[]
  {
    && b.Sound() && b.chunks == map[]
    && forall k: nat | k < COUNT_ITEM :: !Used(b.mask, k)
  }

  lemma EmptyIsFree(b: Block)
    requires Empty(b)
    ensures Longest(b.mask, COUNT_ITEM) && b.Sound()
  {
    Untaken(b.mask);
  }

  // One allocation of zeroed memory.
  method NewBlocks() returns (arr: seq<Block>)
    ensures |arr| == MAX_NEW_FREE_BUFFER && fresh(arr) && Distinct(arr)
    ensures forall b | b in arr :: b.next == null && b.prev == null && Empty(b)
  {
    hide Cells, Used;
    arr := [];
    while |arr| < MAX_NEW_FREE_BUFFER
      invariant |arr| <= MAX_NEW_FREE_BUFFER && fresh(arr)
      invariant Distinct(arr)
      invariant forall b | b in arr :: b.next == null && b.prev == null && Empty(b)
    {
      var b := new Block();
      arr := arr + [b];
    }
  }

  method LinkBlocks(arr: seq<Block>)
    requires |arr| == MAX_NEW_FREE_BUFFER && Distinct(arr)
    requires forall b | b in arr :: b.next == null && b.prev == null
    modifies arr`next, arr`prev, arr`bucket, arr`rank
    ensures InARow(arr)
  {
    hide Distinct, After, Before;
    for i := 0 to MAX_NEW_FREE_BUFFER - 1
      invariant forall k | 0 <= k < |arr| :: arr[k].next == if k < i then After(arr, k) else null
      invariant forall k | 0 <= k < |arr| :: arr[k].prev == if k <= i then Before(arr, k) else null
    {
      LinkTwo(arr, i);
    }
    MarkBlocks(arr);
  }

  ghost method MarkBlocks(arr: seq<Block>)
    requires Distinct(arr)
    modifies arr`bucket, arr`rank
    ensures forall k | 0 <= k < |arr| :: arr[k].bucket == COUNT_ITEM - 1 && arr[k].rank == |arr| - 1 - k
  {
    forall k | 0 <= k < |arr| { arr[k].bucket := COUNT_ITEM - 1; }
    forall k | 0 <= k < |arr| { arr[k].rank := |arr| - 1 - k; }
  }

  method LinkTwo(arr: seq<Block>, i: nat)
    requires Distinct(arr) && i + 1 < |arr|
    modifies Just(arr[i])`next, Just(arr[i + 1])`prev
    ensures forall k | 0 <= k < |arr| :: arr[k].next == if k == i then After(arr, k) else old(arr[k].next)
    ensures forall k | 0 <= k < |arr| :: arr[k].prev == if k == i + 1 then Before(arr, k) else old(arr[k].prev)
  {
    arr[i].next := arr[i + 1];
    arr[i + 1].prev := arr[i];
  }

  lemma {:induction false} DistinctSize(arr: seq<Block>)
    requires Distinct(arr)
    ensures |set b | b in arr| == |arr|
  {
    if arr != [] {
      var k := |arr| - 1;
      DistinctSize(arr[..k]);
      assert (set b | b in arr) == (set b | b in arr[..k]) + {arr[k]};
    }
  }

  method NewRow() returns (arr: seq<Block>)
    ensures fresh(arr) && InARow(arr)
    ensures forall b | b in arr :: b.Sound() && b.chunks == map[] && Longest(b.mask, COUNT_ITEM)
  {
    hide Block.Sound, Longest, Distinct, Empty, After, Before;
    arr := NewBlocks();
    LinkBlocks(arr);
    forall b | b in arr { EmptyIsFree(b); }
  }

  function Follower(items: seq<Ptr>, i: nat): Ptr
  {
    if i + 1 < |items| then items[i + 1] else Null
  }

  // A chunk on which nothing hangs and of which nothing has been used.
  ghost predicate IsFresh(item: Ptr)
    reads if item.Item? then {item.block} else {}
  {
    && item.Item? && item.cell < |item.block.heads|
    && item.block.heads[item.cell].next == Null && item.block.heads[item.cell].tek == 0
  }

  // The bucket heads and their lengths.
  class FreeBuffers {
    var pfree: seq<Block?>
    var count: seq<int>
    var bytes_malloc: nat
    ghost var blocks: set<Block>

    constructor (mallocOk: bool)
      ensures Valid() && Live() == {} && fresh(blocks)
    {
      pfree := seq(COUNT_ITEM, _ => null);
      count := seq(COUNT_ITEM, _ => 0);
      bytes_malloc, blocks := 0, {};
      new;
      assert forall i | 0 <= i < COUNT_ITEM :: Members(i) == {};
      Add(mallocOk);
    }

    ghost predicate Linked(b: Block)
      reads `pfree, `blocks, blocks`next, blocks`prev, blocks`bucket, blocks`rank, b`next, b`prev, b`bucket, b`rank
      requires |pfree| == COUNT_ITEM
    {
      && -1 <= b.bucket < COUNT_ITEM
      && (b.bucket == -1 ==> b.next == null && b.prev == null)
      && (b.next != null ==> b.next in blocks && b.next.prev == b && b.next.bucket == b.bucket && b.next.rank < b.rank)
      && (b.prev != null ==> b.prev in blocks && b.prev.next == b)
      && (b.bucket >= 0 && b.prev == null ==> pfree[b.bucket] == b)
    }

    ghost function Members(i: int): set<Block>
      reads `blocks, blocks`bucket
    {
      set b | b in blocks && b.bucket == i
    }

    ghost predicate Links()
      reads `pfree, `blocks, blocks`next, blocks`prev, blocks`bucket, blocks`rank
      ensures Links() ==> |pfree| == COUNT_ITEM && forall b | b in blocks :: -1 <= b.bucket < COUNT_ITEM
    {
      && |pfree| == COUNT_ITEM
      && (forall b | b in blocks :: Linked(b))
      && (forall i | 0 <= i < COUNT_ITEM && pfree[i] != null ::
            pfree[i] in blocks && pfree[i].bucket == i && pfree[i].prev == null)
    }

    ghost predicate Sized()
      reads `count, `blocks, blocks`bucket
    {
      |count| == COUNT_ITEM && forall i | 0 <= i < COUNT_ITEM :: count[i] == |Members(i)|
    }

    ghost predicate Listed()
      reads `pfree, `count, `blocks, blocks`next, blocks`prev, blocks`bucket, blocks`rank
    {
      Links() && Sized()
    }

    // File a block that is in no list at the head of list i.
    method PushFront(b: Block, i: nat)
      requires Listed() && b in blocks && b.bucket == -1 && i < COUNT_ITEM
      modifies `pfree, `count, b`next, b`bucket, b`rank, Just(pfree[i])`prev
      ensures Listed() && b.bucket == i
    {
      ghost var f := Filing(this, b, i, pfree[i]);
      assert f.Ready() by { assert Linked(b); }
      LinkFront(b, i);
      f.KeepsLinks();
      f.KeepsSized();
    }

    method LinkFront(b: Block, i: nat)
      requires |pfree| == |count| == COUNT_ITEM && i < COUNT_ITEM && pfree[i] != b
      modifies `pfree, `count, b`next, b`bucket, b`rank, Just(pfree[i])`prev
      ensures pfree == old(pfree)[i := b] && count == old(count)[i := old(count)[i] + 1]
      ensures b.next == old(pfree)[i] && b.bucket == i && (old(pfree)[i] != null ==> old(pfree)[i].prev == b)
      ensures old(pfree)[i] != null ==> old(pfree)[i].rank < b.rank
    {
      b.next := pfree[i];
      if pfree[i] != null { pfree[i].prev := b; }
      b.rank := if pfree[i] == null then 0 else pfree[i].rank + 1;
      pfree := pfree[i := b];
      count := count[i := count[i] + 1];
      b.bucket := i;
    }
  
    // Take a block out of the middle or the head of its list.
    method Unlink(b: Block, i: nat)
      requires Listed() && b in blocks && b.bucket == i && i < COUNT_ITEM
      modifies `pfree, `count, b`next, b`prev, b`bucket, blocks`next, blocks`prev
      ensures Listed() && b.bucket == -1
    {
      hide Linked;
      ghost var f := Leaving(this, b, i, b.next, b.prev);
      f.Prepare();
      CutOut(b, i);
      f.KeepsLinks();
      f.KeepsSized();
    }

    method CutOut(b: Block, i: nat)
      requires |pfree| == |count| == COUNT_ITEM && i < COUNT_ITEM && b.next != b && b.prev != b
      requires (b.prev == null <==> pfree[i] == b) && (b.next != null ==> b.next != b.prev)
      modifies `pfree, `count, b`next, b`prev, b`bucket, Just(b.next)`prev, Just(b.prev)`next
      ensures pfree == old(pfree)[i := if old(b.prev) == null then old(b.next) else old(pfree)[i]]
      ensures count == old(count)[i := old(count)[i] - 1]
      ensures old(b.prev) != null ==> old(b.prev).next == old(b.next)
      ensures old(b.next) != null ==> old(b.next).prev == old(b.prev)
      ensures b.next == null && b.prev == null && b.bucket == -1
    {
      if b.next != null { b.next.prev := b.prev; }
      if b.prev != null { b.prev.next := b.next; }
      if b == pfree[i] { pfree := pfree[i := b.next]; }
      count := count[i := count[i] - 1];
      b.next, b.prev, b.bucket := null, null, -1;
    }

    // Take the head of a list.
    method PopFront(i: nat) returns (b: Block)
      requires Listed() && i < COUNT_ITEM && pfree[i] != null
      modifies `pfree, `count, Just(pfree[i])`next, Just(pfree[i])`bucket, blocks`prev
      ensures Listed() && b == old(pfree[i]) && b.bucket == -1
    {
      b := pfree[i];
      ghost var f := Leaving(this, b, i, b.next, b.prev);
      assert f.Ready() by { f.Prepare(); }
      pfree := pfree[i := pfree[i].next];
      if pfree[i] != null { pfree[i].prev := null; }
      count := count[i := count[i] - 1];
      b.next, b.bucket := null, -1;
      f.KeepsLinks();
      f.KeepsSized();
    }
  
    // The lists are well formed, and each block but x is in the list of its longest run, or in none when it is full.
    ghost predicate ValidBut(x: Block?)
      reads this, blocks
    {
      && Listed() && bytes_malloc < MAX_BYTES_MALLOC + NEW_BYTES
      && forall b | b in blocks :: b.Sound() && (b != x ==> Longest(b.mask, b.bucket + 1))
    }

    ghost predicate Valid()
      reads this, blocks
    {
      ValidBut(null)
    }

    // The allocations that have been handed out and not been given back.
    ghost function Live(): (live: set<Ptr>)
      reads `blocks, blocks`chunks
      ensures forall q | q in live :: q.Item? && q.block in blocks && q.cell in q.block.chunks
    {
      set b, p | b in blocks && p in b.chunks :: Item(b, p)
    }

    // Every allocation outside gone still has its cells, its header and its bytes.
    twostate predicate Kept(gone: set<Ptr>)
      reads `blocks, blocks
    {
      && old(blocks) <= blocks
      && forall q | q in old(Live()) && q !in gone :: q in Live() && q.block.SameChunk(q.cell)
    }

    twostate lemma Unmoved(gone: set<Ptr>)
      requires blocks == old(blocks)
      requires forall b | b in blocks :: b.chunks == old(b.chunks) && b.heads == old(b.heads) && b.buf == old(b.buf)
      ensures Kept(gone)
    {
      hide Block.Image;
    }

    ghost function Above(b: Block): set<Block>
      reads `blocks, blocks`rank, b`rank
    {
      set m | m in blocks && m.rank > b.rank
    }

    // A list without a head is empty.
    lemma {:induction false} HeadOfList(b: Block)
      requires Links() && b in blocks && b.bucket >= 0
      ensures pfree[b.bucket] != null
      decreases Above(b)
    {
      assert Linked(b);
      if b.prev != null {
        assert Linked(b.prev);
        assert b.prev in Above(b) && b.prev !in Above(b.prev);
        HeadOfList(b.prev);
      }
    }

    // Walking next from the head of its list one comes to every filed block.
    lemma {:induction false} InItsList(b: Block) returns (path: seq<Block>)
      requires Links() && b in blocks && b.bucket >= 0
      ensures path != [] && path[0] == pfree[b.bucket] && path[|path| - 1] == b
      ensures forall i | 0 <= i < |path| - 1 :: path[i].next == path[i + 1]
      decreases Above(b)
    {
      assert Linked(b);
      if b.prev == null {
        path := [b];
      } else {
        assert Linked(b.prev);
        assert b.prev in Above(b) && b.prev !in Above(b.prev);
        path := InItsList(b.prev);
        path := path + [b];
      }
    }

    lemma EmptyList(i: int)
      requires Links() && 0 <= i < COUNT_ITEM && pfree[i] == null
      ensures forall b | b in blocks :: b.bucket != i
    {
      forall b | b in blocks && b.bucket >= 0 { HeadOfList(b); }
    }

    // The first non-empty list from size on gives its head.
    method PopFit(size: nat) returns (b: Block?, ghost longest: nat)
      requires Valid() && size < COUNT_ITEM
      modifies `pfree, `count, blocks`next, blocks`prev, blocks`bucket
      ensures b == null ==> Valid() && forall x | x in blocks :: x.bucket < size && x.bucket == old(x.bucket)
      ensures b != null ==> b in blocks && ValidBut(b) && b.bucket == -1 && size < longest && Longest(b.mask, longest)
      ensures b != null ==> old(b.bucket) + 1 == longest
      ensures b != null ==> forall x | x in blocks && old(x.bucket) >= size :: old(x.bucket) + 1 >= longest
    {
      hide Linked, Sized, Longest, Block.Sound;
      for i := size to COUNT_ITEM
        invariant Valid() && forall x | x in blocks :: x.bucket == old(x.bucket)
        invariant forall x | x in blocks && x.bucket >= size :: x.bucket >= i
      {
        if pfree[i] != null {
          longest := i + 1;
          b := PopFront(i);
          return;
        }
        EmptyList(i);
      }
      b := null;
      longest := 0;
    }

    // A fresh batch of empty blocks, all filed in the last list.
    method Add(mallocOk: bool)
      requires Valid()
      modifies `pfree, `count, `bytes_malloc, `blocks
      ensures Valid() && old(blocks) <= blocks && fresh(blocks - old(blocks))
      ensures forall b | b in blocks - old(blocks) :: b.bucket == COUNT_ITEM - 1 && b.chunks == map[]
      ensures blocks == old(blocks) <==> (old(pfree[COUNT_ITEM - 1]) != null || old(bytes_malloc) >= MAX_BYTES_MALLOC || !mallocOk)
    {
      hide Linked, Sized, Block.Sound, Longest, Distinct, Empty, After, Before;
      if pfree[COUNT_ITEM - 1] != null { return; }
      if bytes_malloc >= MAX_BYTES_MALLOC { return; }
      if !mallocOk { return; }
      EmptyList(COUNT_ITEM - 1);
      var arr := NewRow();
      FileBlocks(arr);
      bytes_malloc := bytes_malloc + NEW_BYTES;
      assert arr[0] in arr;
    }

    method FileBlocks(arr: seq<Block>)
      requires Listed() && (forall b | b in blocks :: b.bucket != COUNT_ITEM - 1)
      requires InARow(arr) && forall b | b in arr :: b !in blocks
      modifies `pfree, `count, `blocks
      ensures Listed() && blocks == old(blocks) + (set b | b in arr)
    {
      hide Linked, Distinct, After, Before;
      ghost var f := Growth(this, arr);
      pfree := pfree[COUNT_ITEM - 1 := arr[0]];
      count := count[COUNT_ITEM - 1 := MAX_NEW_FREE_BUFFER];
      blocks := blocks + (set b | b in arr);
      f.KeepsLinks();
      f.KeepsSized();
    }

    // Find a block for size + 1 cells, with one try to get more memory.
    method Find(size: nat, mallocOk: bool) returns (pibtm: Block?, ghost longest: nat)
      requires Valid() && size < COUNT_ITEM
      modifies this, blocks`next, blocks`prev, blocks`bucket
      ensures old(blocks) <= blocks && fresh(blocks - old(blocks)) && forall b | b in blocks - old(blocks) :: b.chunks == map[]
      ensures pibtm == null <==>
                (forall x | x in old(blocks) :: old(x.bucket) < size) && (old(bytes_malloc) >= MAX_BYTES_MALLOC || !mallocOk)
      ensures (exists x :: x in old(blocks) && old(x.bucket) >= size) ==> blocks == old(blocks)
      ensures pibtm == null ==> Valid()
      ensures pibtm != null ==>
                pibtm in blocks && ValidBut(pibtm) && pibtm.bucket == -1 && size < longest && Longest(pibtm.mask, longest)
      ensures pibtm != null ==> forall x | x in old(blocks) && old(x.bucket) >= size :: old(x.bucket) + 1 >= longest
    {
      hide Linked, Sized, Longest, Block.Sound;
      pibtm, longest := null, 0;
      var isNext := 0;
      while pibtm == null
        invariant 0 <= isNext <= 1 && (isNext == 0 ==> pibtm == null)
        invariant pibtm == null ==> Valid() && forall x | x in old(blocks) :: x.bucket == old(x.bucket)
        invariant isNext == 1 && pibtm != null ==> blocks == old(blocks)
        invariant isNext == 0 ==> blocks == old(blocks) && bytes_malloc == old(bytes_malloc)
        invariant old(blocks) <= blocks && fresh(blocks - old(blocks))
        invariant forall b | b in blocks - old(blocks) :: b.chunks == map[] && (pibtm == null ==> b.bucket == COUNT_ITEM - 1)
        invariant isNext == 1 && pibtm == null ==> forall x | x in old(blocks) :: old(x.bucket) < size
        invariant isNext == 1 && pibtm == null ==>
                    (blocks == old(blocks) <==> (old(bytes_malloc) >= MAX_BYTES_MALLOC || !mallocOk))
        invariant pibtm != null ==>
                    && pibtm in blocks && ValidBut(pibtm) && pibtm.bucket == -1 && size < longest && Longest(pibtm.mask, longest)
                    && (forall x | x in old(blocks) && old(x.bucket) >= size :: old(x.bucket) + 1 >= longest)
                    && ((pibtm in old(blocks) && old(pibtm.bucket) >= size) || (old(bytes_malloc) < MAX_BYTES_MALLOC && mallocOk))
        decreases pibtm == null, 1 - isNext
      {
        pibtm, longest := PopFit(size);
        if isNext != 0 { break; }
        if pibtm == null { Add(mallocOk); }
        isNext := isNext + 1;
      }
    }

    // Cut the best run of a block for n cells and write the header.
    method TakeCells(b: Block, n: nat, ghost longest: nat) returns (pos: nat, ghost run: nat)
      requires b.Sound() && 0 < n <= longest && Longest(b.mask, longest)
      modifies b`mask, b`heads, b`chunks, b`owner
      ensures b.Sound() && BestFit(old(b.mask), n, pos, run) && pos < COUNT_ITEM
      ensures pos !in old(b.chunks) && b.chunks == old(b.chunks)[pos := n]
      ensures b.heads == old(b.heads)[pos := b.NewHead(pos, n)]
    {
      LongestRun(b.mask, longest);
      var found;
      found, pos, run := FindBits(b.mask, n);
      assert found;
      b.TakeRun(pos, n);
    }

    // File a block by the longest run it has now.
    method Refile(b: Block)
      requires ValidBut(b) && b in blocks && b.bucket == -1
      modifies `pfree, `count, blocks`next, blocks`prev, blocks`bucket, blocks`rank
      ensures Valid()
    {
      hide Block.Sound, Linked, Sized, Longest;
      assert b.Sound();
      var pos, size := CheckBits(b.mask);
      if size > 0 {
        SizeBound(b.mask, size);
        PushFront(b, size - 1);
      }
    }

    lemma SizeBound(m: seq<bv8>, size: nat)
      requires |m| == SIZE_MASK && Longest(m, size)
      ensures size <= COUNT_ITEM
    {
    }

    // Cut an allocation from a block that is in no list.
    method Cut(b: Block, n: nat, ghost longest: nat) returns (pibt: Ptr, ghost run: nat)
      requires ValidBut(b) && b in blocks && b.bucket == -1 && 0 < n <= longest && Longest(b.mask, longest)
      modifies b`mask, b`heads, b`chunks, b`owner
      ensures ValidBut(b) && Kept({})
      ensures pibt != Null && pibt.block == b && Live() == old(Live()) + {pibt} && pibt !in old(Live())
      ensures b.IsNew(pibt.cell, n) && BestFit(old(b.mask), n, pibt.cell, run)
    {
      hide Block.Sound, Linked, Sized, Longest, BestFit;
      var pos;
      pos, run := TakeCells(b, n, longest);
      pibt := Item(b, pos);
    }

    method Serve(b: Block, n: nat, ghost longest: nat) returns (pibt: Ptr, ghost run: nat)
      requires ValidBut(b) && b in blocks && b.bucket == -1 && 0 < n <= longest && Longest(b.mask, longest)
      modifies `pfree, `count, blocks`next, blocks`prev, blocks`bucket, blocks`rank, blocks`mask, blocks`heads, blocks`chunks, blocks`owner
      ensures Valid() && Kept({})
      ensures pibt != Null && pibt.block == b && Live() == old(Live()) + {pibt} && pibt !in old(Live())
      ensures b.IsNew(pibt.cell, n) && BestFit(old(b.mask), n, pibt.cell, run)
    {
      hide ValidBut, Longest, BestFit, Live, Block.Image;
      pibt, run := Cut(b, n, longest);
      Refile(b);
    }

    // The request is too large for a block, or no block has room for it and there is no more memory.
    ghost predicate Exhausted(lendata: nat, mallocOk: bool)
      requires Valid()
      reads this, blocks
    {
      || Need(lendata) > COUNT_ITEM
      || ((forall b | b in blocks :: b.Sound() && !Room(b.mask, Need(lendata))) && (bytes_malloc >= MAX_BYTES_MALLOC || !mallocOk))
    }

    // A chunk for lendata bytes: the best run of a block whose longest run is the shortest that will do.
    method Get(lendata: nat, mallocOk: bool) returns (pibt: Ptr, ghost run: nat)
      requires Valid()
      modifies this, blocks`next, blocks`prev, blocks`bucket, blocks`rank, blocks`mask, blocks`heads, blocks`chunks, blocks`owner
      ensures Valid() && Kept({}) && fresh(blocks - old(blocks))
      ensures pibt == Null <==> old(Exhausted(lendata, mallocOk))
      ensures pibt == Null ==> Live() == old(Live())
      ensures pibt != Null ==> Live() == old(Live()) + {pibt} && pibt !in old(Live())
      ensures pibt != Null ==> pibt.block.IsNew(pibt.cell, Need(lendata))
      ensures pibt != Null && pibt.block in old(blocks) ==> BestFit(old(pibt.block.mask), Need(lendata), pibt.cell, run)
      ensures pibt != Null ==> forall b | b in old(blocks) && old(Room(b.mask, Need(lendata))) ::
                pibt.block in old(blocks) && forall k | old(Room(pibt.block.mask, k)) :: old(Room(b.mask, k))
    {
      hide Block.Image, Block.Sound, Linked, Sized, Longest, BestFit, Room;
      var need := lendata + HEADER_SIZE + 4;
      var size := need / MIN_SIZE_ITEM;
      if size >= COUNT_ITEM { return Null, 0; }
      forall b | b in blocks { RoomUpToLongest(b.mask, b.bucket + 1, size + 1); }
      var pibtm, longest := Find(size, mallocOk);
      if pibtm == null { return Null, 0; }
      forall b | b in old(blocks) && old(b.bucket) >= size { RoomOrder(pibtm.mask, longest, b.mask, old(b.bucket) + 1); }
      pibt, run := Serve(pibtm, size + 1, longest);
    }

    // Give one chunk back: out of its list, cells zeroed and unmarked, and filed again.
    method FreeChunk(pibt: Ptr)
      requires Valid() && pibt in Live()
      modifies `pfree, `count, blocks
      ensures Valid() && Kept({pibt}) && Live() == old(Live()) - {pibt}
    {
      hide Live, Block.Image, ValidBut;
      var b := Detach(pibt);
      Clear(pibt);
      Refile(b);
    }

    method Clear(pibt: Ptr)
      requires pibt in Live() && ValidBut(pibt.block)
      modifies pibt.block`mask, pibt.block`heads, pibt.block`buf, pibt.block`chunks, pibt.block`owner
      ensures ValidBut(pibt.block) && Kept({pibt}) && Live() == old(Live()) - {pibt}
    {
      hide Block.Sound, Linked, Sized, Longest;
      pibt.block.HeadAt(pibt.cell);
      var h := pibt.block.heads[pibt.cell];
      h.proot.ReleaseRun(h.index, (h.size + HEADER_SIZE) / MIN_SIZE_ITEM);
    }

    method Detach(pibt: Ptr) returns (b: Block)
      requires Valid() && pibt in Live()
      modifies `pfree, `count, blocks`next, blocks`prev, blocks`bucket
      ensures b == pibt.block && ValidBut(b) && b.bucket == -1
    {
      hide Linked, Sized, Longest;
      b := pibt.block.heads[pibt.cell].proot;
      hide Block.Sound;
      var pos, size := CheckBits(b.mask);
      LongestUnique(b.mask, size, b.bucket + 1);
      if size > 0 { Unlink(b, size - 1); }
    }

    // Give a whole chain of chunks back, the last one first.
    method Free(pibt: Ptr, ghost items: seq<Ptr>)
      requires Valid() && Chain(pibt, items)
      modifies `pfree, `count, blocks
      ensures Valid() && Kept(set p | p in items) && Live() == old(Live()) - (set p | p in items)
      decreases |items|
    {
      hide Live, Block.Image, Block.Sound, Linked, Sized, Longest;
      if pibt == Null { return; }
      var next := pibt.block.heads[pibt.cell].next;
      ChainTail(pibt, items);
      hide Chain;
      if next != Null { Free(next, items[1..]); }
      FreeChunk(pibt);
    }

    lemma ChainTail(pibt: Ptr, items: seq<Ptr>)
      requires Chain(pibt, items) && pibt != Null
      ensures pibt == items[0] && pibt in Live() && pibt !in items[1..]
      ensures pibt.cell < |pibt.block.heads| && Chain(pibt.block.heads[pibt.cell].next, items[1..])
      ensures (set p | p in items) == {pibt} + set p | p in items[1..]
    {
      hide Live;
      var rest := items[1..];
      forall i | 0 <= i < |rest|
        ensures rest[i] in Live() && rest[i].cell < |rest[i].block.heads|
        ensures rest[i].block.heads[rest[i].cell].next == Follower(rest, i)
      {
        assert rest[i] == items[i + 1] && Follower(rest, i) == Follower(items, i + 1);
      }
    }

    method SetHead(pibt: Ptr, next: Ptr, tek: int)
      requires Valid() && pibt in Live() && pibt.cell < |pibt.block.heads| && 0 <= tek <= pibt.block.heads[pibt.cell].size
      modifies pibt.block`heads
      ensures Valid() && Kept({pibt})
      ensures pibt.block.heads == old(pibt.block.heads)[pibt.cell := old(pibt.block.heads[pibt.cell]).(next := next, tek := tek)]
    {
      hide Block.Sound, Linked, Sized, Longest;
      pibt.block.SetHead(pibt.cell, next, tek);
    }

    // memcpy into a live chunk.
    method Store(pibt: Ptr, from: nat, bytes: seq<bv8>)
      requires Valid() && pibt in Live() && pibt.block.InPayload(pibt.cell, from, |bytes|)
      modifies pibt.block`heads, pibt.block`buf
      ensures Valid() && Kept({pibt})
      ensures |pibt.block.heads| == |old(pibt.block.heads)|
      ensures forall p | p in pibt.block.chunks :: p < |pibt.block.heads| && pibt.block.heads[p] == old(pibt.block.heads)[p]
      ensures pibt.block.Wrote(from, bytes)
    {
      hide Block.Sound, Linked, Sized, Longest, Block.Image;
      pibt.block.HeadAt(pibt.cell);
      pibt.block.Store(pibt.cell, from, bytes);
    }

    lemma NoChunk()
      ensures Chain(Null, [])
    {
    }

    lemma OneChunk(pibt: Ptr)
      requires pibt in Live() && IsFresh(pibt)
      ensures Chain(pibt, [pibt])
    {
    }

    // Hang a new chunk on the last one of a chain.
    method LinkAfter(last: Ptr, tmp: Ptr, ghost items: seq<Ptr>)
      requires Valid() && items != [] && Chain(items[0], items) && last == items[|items| - 1]
      requires tmp in Live() && tmp !in items && IsFresh(tmp)
      modifies last.block`heads
      ensures Valid() && Chain(items[0], items + [tmp]) && Kept({last})
      ensures last.block.OnlyNext(last.cell, tmp)
    {
      hide Live, Block.Image, ValidBut, Kept;
      TekInside(last);
      SetHead(last, tmp, last.block.heads[last.cell].tek);
      ghost var all := items + [tmp];
      forall i | 0 <= i < |all|
        ensures all[i] in Live() && all[i].cell < |all[i].block.heads|
        ensures all[i].block.heads[all[i].cell].next == Follower(all, i)
      {
        assert i < |items| ==> all[i] == items[i] && old(items[i].block.heads[items[i].cell]).next == Follower(items, i);
      }
    }

    lemma GoodHeader(pibt: Ptr)
      requires Valid() && pibt in Live()
      ensures pibt.cell < |pibt.block.heads| && GoodHead(pibt.block.heads[pibt.cell], pibt.block, pibt.cell, pibt.block.chunks[pibt.cell])
    {
      hide Linked, Sized, Longest;
      assert pibt.block.Sound();
      hide Block.Sound;
    }

    twostate lemma HeadKept(p: Ptr)
      requires old(Valid()) && Valid() && p in old(Live()) && p in Live() && p.block.SameChunk(p.cell)
      ensures p.cell < |p.block.heads| && p.cell < |old(p.block.heads)| && p.block.heads[p.cell] == old(p.block.heads[p.cell])
    {
      hide Linked, Sized, Longest, Block.Sound, Block.Image;
      p.block.HeadOf(p.cell);
    }

    lemma ChainAt(pibt: Ptr, items: seq<Ptr>, i: nat)
      requires Chain(pibt, items) && i < |items|
      ensures items[i] in Live() && items[i].cell < |items[i].block.heads|
      ensures items[i].block.heads[items[i].cell].next == if i + 1 < |items| then items[i + 1] else Null
    {
    }

    lemma ChunksApart(p: Ptr, q: Ptr)
      requires Valid() && p in Live() && q in Live() && p.block == q.block && p.cell != q.cell
      ensures p.cell + p.block.chunks[p.cell] <= q.cell || q.cell + q.block.chunks[q.cell] <= p.cell
    {
      hide Linked, Sized, Longest, Block.Sound;
      p.block.Others(q.cell);
    }

    lemma TekInside(pibt: Ptr)
      requires Valid() && pibt in Live()
      ensures pibt.cell < |pibt.block.heads| && 0 <= pibt.block.heads[pibt.cell].tek <= pibt.block.heads[pibt.cell].size
    {
      hide Linked, Sized, Longest;
      assert pibt.block.Sound();
    }

    // items are different live chunks, each of which points to the next one and the last to none.
    ghost predicate Chain(pibt: Ptr, items: seq<Ptr>)
      reads `blocks, blocks`chunks, blocks`heads
      ensures Chain(pibt, items) ==> (items == [] <==> pibt == Null) && (items != [] ==> items[0] == pibt) && forall p | p in items :: p in Live()
    {
      && (items == [] <==> pibt == Null) && (items != [] ==> items[0] == pibt)
      && (forall i, j | 0 <= i < j < |items| :: items[i] != items[j])
      && forall i | 0 <= i < |items| ::
           && items[i] in Live() && items[i].cell < |items[i].block.heads|
           && items[i].block.heads[items[i].cell].next == Follower(items, i)
    }
  }

  // A block b enters list i in front of the old head h.
  datatype Filing = Filing(s: FreeBuffers, b: Block, i: nat, h: Block?)
  {
    ghost predicate Ready()
      reads s, s.blocks`next, s.blocks`prev, s.blocks`bucket, s.blocks`rank
    {
      && s.Listed() && b in s.blocks && b.bucket == -1 && b.next == null && b.prev == null
      && i < COUNT_ITEM && s.pfree[i] == h && h != b
    }

    twostate predicate Done()
      reads s, s.blocks`next, s.blocks`prev, s.blocks`bucket, s.blocks`rank
    {
      && s.blocks == old(s.blocks) && b in s.blocks && |old(s.pfree)| == |old(s.count)| == COUNT_ITEM && i < COUNT_ITEM
      && s.pfree == old(s.pfree)[i := b] && s.count == old(s.count)[i := old(s.count)[i] + 1]
      && (forall n | n in s.blocks && n != b :: n.next == old(n.next) && n.bucket == old(n.bucket) && n.rank == old(n.rank))
      && (forall n | n in s.blocks && n != h :: n.prev == old(n.prev))
      && b.next == h && b.bucket == i && (h != null && h in s.blocks ==> h.prev == b && h.rank < b.rank)
    }

    twostate lemma At(n: Block)
      requires old(Ready()) && Done() && n in s.blocks
      ensures s.Linked(n)
    {
      assert old(s.Linked(n) && s.Linked(b) && (h != null ==> s.Linked(h)));
    }

    twostate lemma KeepsLinks()
      requires old(Ready()) && Done()
      ensures s.Links()
    {
      forall n | n in s.blocks { At(n); }
    }

    twostate lemma KeepsSized()
      requires old(Ready()) && Done()
      ensures s.Sized()
    {
      hide FreeBuffers.Linked, FreeBuffers.Links;
      forall j | 0 <= j < COUNT_ITEM
        ensures s.count[j] == |s.Members(j)|
      {
        if j == i {
          assert s.Members(i) == old(s.Members(i)) + {b};
        } else {
          assert s.Members(j) == old(s.Members(j));
        }
      }
    }
  }

  // A block b leaves list i, where it stood between pv and nx.
  datatype Leaving = Leaving(s: FreeBuffers, b: Block, i: nat, nx: Block?, pv: Block?)
  {
    ghost predicate Ready()
      reads s, s.blocks`next, s.blocks`prev, s.blocks`bucket, s.blocks`rank
    {
      && s.Listed() && b in s.blocks && b.bucket == i && i < COUNT_ITEM && b.next == nx && b.prev == pv
      && (nx != null ==> nx in s.blocks && nx != b) && (pv != null ==> pv in s.blocks && pv != b)
      && (nx != null ==> nx != pv) && (pv == null <==> s.pfree[i] == b)
    }

    lemma Prepare()
      requires s.Listed() && b in s.blocks && b.bucket == i && i < COUNT_ITEM && b.next == nx && b.prev == pv
      ensures Ready()
    {
      assert s.Linked(b);
      if nx != null { assert s.Linked(nx); }
      if pv != null { assert s.Linked(pv); }
    }

    twostate predicate Done()
      reads s, s.blocks`next, s.blocks`prev, s.blocks`bucket, s.blocks`rank
    {
      && s.blocks == old(s.blocks) && b in s.blocks && |old(s.pfree)| == |old(s.count)| == COUNT_ITEM && i < COUNT_ITEM
      && s.pfree == old(s.pfree)[i := if pv == null then nx else old(s.pfree)[i]]
      && s.count == old(s.count)[i := old(s.count)[i] - 1]
      && (forall n | n in s.blocks :: n.rank == old(n.rank) && (n != b ==> n.bucket == old(n.bucket)))
      && (forall n | n in s.blocks && n != b :: n.next == (if n == pv then nx else old(n.next)))
      && (forall n | n in s.blocks && n != b :: n.prev == (if n == nx then pv else old(n.prev)))
      && b.next == null && b.prev == null && b.bucket == -1
    }

    twostate lemma At(n: Block)
      requires old(Ready()) && Done() && n in s.blocks
      ensures s.Linked(n)
    {
      assert old(s.Linked(n) && s.Linked(b) && (nx != null ==> s.Linked(nx)) && (pv != null ==> s.Linked(pv)));
    }

    twostate lemma KeepsLinks()
      requires old(Ready()) && Done()
      ensures s.Links()
    {
      forall n | n in s.blocks { At(n); }
      assert old(s.Linked(b) && (nx != null ==> s.Linked(nx)));
    }

    twostate lemma KeepsSized()
      requires old(Ready()) && Done()
      ensures s.Sized()
    {
      hide FreeBuffers.Linked, FreeBuffers.Links;
      forall j | 0 <= j < COUNT_ITEM
        ensures s.count[j] == |s.Members(j)|
      {
        if j == i {
          assert old(s.Members(i)) == s.Members(i) + {b};
        } else {
          assert s.Members(j) == old(s.Members(j));
        }
      }
    }
  }

  // A row of new blocks becomes the last list, which was empty.
  datatype Growth = Growth(s: FreeBuffers, arr: seq<Block>)
  {
    twostate predicate Done()
      reads s, s.blocks, arr
    {
      && old(s.Listed()) && InARow(arr) && (forall b | b in s.blocks && b in old(s.blocks) :: b.bucket != COUNT_ITEM - 1 && b !in arr)
      && s.blocks == old(s.blocks) + (set b | b in arr)
      && (forall b | b in s.blocks && b !in arr ::
            b.next == old(b.next) && b.prev == old(b.prev) && b.bucket == old(b.bucket) && b.rank == old(b.rank))
      && s.pfree == old(s.pfree)[COUNT_ITEM - 1 := arr[0]]
      && s.count == old(s.count)[COUNT_ITEM - 1 := MAX_NEW_FREE_BUFFER]
    }

    twostate lemma At(new n: Block)
      requires Done() && n in s.blocks
      ensures s.Linked(n)
    {
      if n in old(s.blocks) {
        assert old(s.Linked(n));
      } else {
        var k :| 0 <= k < |arr| && arr[k] == n;
        assert n.next == After(arr, k) && n.prev == Before(arr, k);
      }
    }

    twostate lemma Heads()
      requires Done()
      ensures |s.pfree| == COUNT_ITEM
      ensures forall i | 0 <= i < COUNT_ITEM && s.pfree[i] != null ::
                s.pfree[i] in s.blocks && s.pfree[i].bucket == i && s.pfree[i].prev == null
    {
      hide FreeBuffers.Linked;
      assert arr[0].prev == Before(arr, 0) && arr[0].bucket == COUNT_ITEM - 1;
    }

    twostate lemma KeepsLinks()
      requires Done()
      ensures s.Links()
    {
      hide FreeBuffers.Linked, Done;
      Heads();
      forall n | n in s.blocks { At(n); }
    }

    twostate lemma KeepsSized()
      requires Done()
      ensures s.Sized()
    {
      hide FreeBuffers.Linked, FreeBuffers.Links, After, Before, Distinct;
      forall j | 0 <= j < COUNT_ITEM
        ensures s.count[j] == |s.Members(j)|
      {
        if j == COUNT_ITEM - 1 {
          DistinctSize(arr);
          assert s.Members(j) == set b | b in arr;
        } else {
          assert s.Members(j) == old(s.Members(j));
        }
      }
    }
  }
}
