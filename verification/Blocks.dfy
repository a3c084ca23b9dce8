// One block of 32 cells: its header table, its mask and the allocations cut from it.
module Blocks {
  import opened BitMask

  // item_buffer_t*: a header lives at the start of a cell of some block.
  datatype Ptr = Null | Item(block: Block, cell: nat)

  datatype Header = Header(next: Ptr, proot: Block?, size: int, tek: int, index: int, pbuf: int)

  const ZERO := Header(Null, null, 0, 0, 0, 0)

  const MAX_SIZE_FREE_BUFFER: nat := 4096
  const MIN_SIZE_ITEM: nat := 128
  const HEADER_SIZE: nat := 24  // six 32-bit fields

  // item_buffer_max_t: 32 cells of 128 bytes.  heads is the typed view of the first bytes of each cell.
  class Block {
    const address: int               // where buf lies in memory
    var next: Block?
    var prev: Block?
    var mask: seq<bv8>
    var heads: seq<Header>
    var buf: seq<bv8>
    ghost var bucket: int            // the list the block is filed in, -1 for none
    ghost var rank: int              // falls along next
    ghost var chunks: map<nat, nat>  // the live allocations: first cell and number of cells
    ghost var owner: seq<nat>        // for each cell the first cell of its allocation, COUNT_ITEM when free

    constructor ()
      ensures next == null && prev == null && bucket == -1 && chunks == map[]
      ensures Sound() && forall k: nat | k < COUNT_ITEM :: !Used(mask, k)
    {
      var a: int := *;
      address := a;
      next, prev, bucket, rank, chunks := null, null, -1, 0, map[];
      mask := [0, 0, 0, 0];
      heads := seq(COUNT_ITEM, _ => ZERO);
      buf := seq(MAX_SIZE_FREE_BUFFER, _ => 0);
      owner := seq(COUNT_ITEM, _ => COUNT_ITEM);
    }

    ghost predicate Sound()
      reads `mask, `heads, `buf, `chunks, `owner
      ensures Sound() ==> |mask| == SIZE_MASK && |heads| == |owner| == COUNT_ITEM && |buf| == MAX_SIZE_FREE_BUFFER
      ensures Sound() ==> forall p | p in chunks :: p < COUNT_ITEM
    {
      Cells(this, mask, heads, buf, chunks, owner)
    }

    // The allocation at cell p: its cells, its header and its bytes.
    ghost function Image(p: nat): (nat, Header, seq<bv8>)
      reads `chunks, `heads, `buf
    {
      if p in chunks && p < |heads| && (p + chunks[p]) * MIN_SIZE_ITEM <= |buf|
      then (chunks[p], heads[p], buf[p * MIN_SIZE_ITEM..(p + chunks[p]) * MIN_SIZE_ITEM])
      else (0, ZERO, [])
    }

    twostate predicate SameChunk(p: nat)
      reads `chunks, `heads, `buf
    {
      p in chunks && Image(p) == old(Image(p))
    }

    // The bytes have been written at from, and nothing else.
    twostate predicate Wrote(from: nat, bytes: seq<bv8>)
      reads `buf
    {
      && |buf| == |old(buf)| == MAX_SIZE_FREE_BUFFER && from + |bytes| <= MAX_SIZE_FREE_BUFFER
      && buf == old(buf)[..from] + bytes + old(buf)[from + |bytes|..]
    }

    // The len bytes at from are what they were.
    twostate predicate SameBytes(from: nat, len: nat)
      reads `buf
    {
      |buf| == |old(buf)| && forall j | from <= j < from + len && j < |buf| :: buf[j] == old(buf)[j]
    }

    // The only change among the headers is the link at cell p.
    twostate predicate OnlyNext(p: nat, next: Ptr)
      reads `heads
    {
      p < |old(heads)| && heads == old(heads)[p := old(heads)[p].(next := next)]
    }

    function NewHead(pos: nat, n: nat): Header
    {
      Header(Null, this, n * MIN_SIZE_ITEM - HEADER_SIZE, 0, pos, pos * MIN_SIZE_ITEM + HEADER_SIZE)
    }

    // An allocation of n cells of which nothing has been used yet.
    ghost predicate IsNew(pos: nat, n: nat)
      reads this
    {
      pos in chunks && chunks[pos] == n && pos < |heads| && heads[pos] == NewHead(pos, n)
    }

    method TakeRun(pos: nat, n: nat)
      requires Sound() && n > 0 && Free(mask, pos, n)
      modifies `mask, `heads, `chunks, `owner
      ensures Sound()
      ensures pos !in old(chunks) && chunks == old(chunks)[pos := n]
      ensures heads == old(heads)[pos := NewHead(pos, n)]
    {
      hide Cells, Used;
      var m := SetBits(mask, pos, n);
      // tek and next are not written
      var hs := heads[pos := heads[pos].(proot := this, size := n * MIN_SIZE_ITEM - HEADER_SIZE, index := pos,
                                         pbuf := pos * MIN_SIZE_ITEM + HEADER_SIZE)];
      ghost var was := owner;
      ghost var ow: seq<nat> := seq(COUNT_ITEM, k requires 0 <= k < COUNT_ITEM => if pos <= k < pos + n then pos else was[k]);
      Carve(this, mask, heads, buf, chunks, owner, pos, n, m, hs, ow);
      mask, heads, owner, chunks := m, hs, ow, chunks[pos := n];
    }

    method ReleaseRun(pos: nat, n: nat)
      requires Sound() && pos in chunks && chunks[pos] == n
      modifies `mask, `heads, `buf, `chunks, `owner
      ensures Sound() && chunks == old(chunks) - {pos}
      ensures forall p | p in chunks :: SameChunk(p)
    {
      hide Cells, Used;
      HeadAt(pos);
      Others(pos);
      var m := ClearBits(mask, pos, n);
      var hs, bs := heads, buf;
      hs := seq(COUNT_ITEM, k requires 0 <= k < COUNT_ITEM => if pos <= k < pos + n then ZERO else hs[k]);
      bs := seq(MAX_SIZE_FREE_BUFFER, j requires 0 <= j < MAX_SIZE_FREE_BUFFER =>
                  if pos * MIN_SIZE_ITEM <= j < (pos + n) * MIN_SIZE_ITEM then 0 else bs[j]);
      ghost var was := owner;
      ghost var ow: seq<nat> := seq(COUNT_ITEM, k requires 0 <= k < COUNT_ITEM => if pos <= k < pos + n then COUNT_ITEM else was[k]);
      Release(this, mask, heads, buf, chunks, owner, pos, n, m, hs, bs, ow);
      mask, heads, buf, owner, chunks := m, hs, bs, ow, chunks - {pos};
      forall p | p in chunks
        ensures SameChunk(p)
      {
        HeadAt(p);
        assert heads[p] == old(heads)[p];
        assert buf[p * MIN_SIZE_ITEM..(p + chunks[p]) * MIN_SIZE_ITEM] == old(buf)[p * MIN_SIZE_ITEM..(p + chunks[p]) * MIN_SIZE_ITEM];
      }
    }

    twostate lemma HeadOf(p: nat)
      requires old(Sound()) && Sound() && p in old(chunks) && SameChunk(p)
      ensures chunks[p] == old(chunks)[p] && heads[p] == old(heads)[p]
    {
      HeadAt(p);
      assert old(chunks[p] > 0 && p + chunks[p] <= COUNT_ITEM) by { assert old(GoodHead(heads[p], this, p, chunks[p])); }
      hide Cells;
    }

    // Change the cursor or the link of an allocation.
    method SetHead(pos: nat, next: Ptr, tek: int)
      requires Sound() && pos in chunks && 0 <= tek <= heads[pos].size
      modifies `heads
      ensures Sound() && heads == old(heads)[pos := old(heads)[pos].(next := next, tek := tek)]
    {
      hide Used, Marked, ZeroCell;
      heads := heads[pos := heads[pos].(next := next, tek := tek)];
    }

    // memcpy into the payload of an allocation.  What the headers of its inner cells read like is lost.
    method Store(pos: nat, from: nat, bytes: seq<bv8>)
      requires Sound() && pos in chunks && InPayload(pos, from, |bytes|)
      modifies `buf, `heads
      ensures Sound() && forall p | p in chunks :: heads[p] == old(heads)[p]
      ensures Wrote(from, bytes)
      ensures forall p | p in chunks && p != pos :: SameChunk(p)
    {
      hide Cells;
      HeadAt(pos);
      Others(pos);
      var hs, n := heads, (heads[pos].size + HEADER_SIZE) / MIN_SIZE_ITEM;
      for k := pos + 1 to pos + n
        invariant |hs| == COUNT_ITEM && forall j | 0 <= j < COUNT_ITEM && !(pos < j < k) :: hs[j] == heads[j]
      {
        if k * MIN_SIZE_ITEM < from + |bytes| && from < k * MIN_SIZE_ITEM + HEADER_SIZE {
          var h: Header := *;
          hs := hs[k := h];
        }
      }
      var bs := buf[..from] + bytes + buf[from + |bytes|..];
      Overwritten(pos, hs, bs);
      heads, buf := hs, bs;
      forall p | p in chunks && p != pos
        ensures SameChunk(p)
      {
        HeadAt(p);
        assert heads[p] == old(heads)[p];
        assert buf[p * MIN_SIZE_ITEM..(p + chunks[p]) * MIN_SIZE_ITEM] == old(buf)[p * MIN_SIZE_ITEM..(p + chunks[p]) * MIN_SIZE_ITEM];
      }
    }

    ghost predicate InPayload(pos: nat, from: nat, len: nat)
      requires pos in chunks
      reads `chunks
    {
      pos * MIN_SIZE_ITEM + HEADER_SIZE <= from && from + len <= (pos + chunks[pos]) * MIN_SIZE_ITEM
    }

    lemma Overwritten(pos: nat, hs: seq<Header>, bs: seq<bv8>)
      requires Sound() && pos in chunks && |hs| == COUNT_ITEM && |bs| == MAX_SIZE_FREE_BUFFER
      requires forall j | 0 <= j < COUNT_ITEM && !(pos < j < pos + chunks[pos]) :: hs[j] == heads[j]
      requires forall j | 0 <= j < MAX_SIZE_FREE_BUFFER && !(pos * MIN_SIZE_ITEM <= j < (pos + chunks[pos]) * MIN_SIZE_ITEM) :: bs[j] == buf[j]
      ensures Cells(this, mask, hs, bs, chunks, owner)
    {
      hide Used;
      Others(pos);
      forall k: nat | k < COUNT_ITEM && owner[k] >= COUNT_ITEM
        ensures hs[k] == ZERO && ZeroCell(bs, k)
      {
        assert ZeroCell(buf, k) && !(pos <= k < pos + chunks[pos]);
      }
    }

    lemma HeadAt(pos: nat)
      requires Sound() && pos in chunks
      ensures GoodHead(heads[pos], this, pos, chunks[pos]) && chunks[pos] > 0 && pos + chunks[pos] <= COUNT_ITEM
    {
    }

    lemma Others(pos: nat)
      requires Sound() && pos in chunks
      ensures forall p | p in chunks && p != pos :: p + chunks[p] <= pos || pos + chunks[pos] <= p
    {
      hide Cells;
      forall p | p in chunks && p != pos
        ensures p + chunks[p] <= pos || pos + chunks[pos] <= p
      {
        ChunksDisjoint(this, mask, heads, buf, chunks, owner, if p < pos then p else pos, if p < pos then pos else p);
      }
    }
  }

  // The cells of a request: the data, the header and up to three bytes of alignment.
  function Need(lendata: nat): (n: nat)
    ensures lendata + HEADER_SIZE + 4 < n * MIN_SIZE_ITEM <= lendata + HEADER_SIZE + 4 + MIN_SIZE_ITEM
  {
    (lendata + HEADER_SIZE + 4) / MIN_SIZE_ITEM + 1
  }

  ghost predicate GoodHead(h: Header, self: Block, pos: nat, n: nat)
  {
    && h.proot == self && h.index == pos && h.size == n * MIN_SIZE_ITEM - HEADER_SIZE
    && h.pbuf == pos * MIN_SIZE_ITEM + HEADER_SIZE && 0 <= h.tek <= h.size
  }

  // The mask marks exactly the cells that have an owner.
  ghost predicate Marked(mask: seq<bv8>, owner: seq<nat>)
  {
    |mask| == SIZE_MASK && |owner| == COUNT_ITEM && forall k: nat | k < COUNT_ITEM :: Used(mask, k) <==> owner[k] < COUNT_ITEM
  }

  // The owned cells are the cells of the live allocations, which so cannot overlap.
  ghost predicate Tiled(chunks: map<nat, nat>, owner: seq<nat>)
    requires |owner| == COUNT_ITEM
  {
    && (forall k: nat | k < COUNT_ITEM && owner[k] < COUNT_ITEM ::
          owner[k] in chunks && owner[k] <= k < owner[k] + chunks[owner[k]])
    && (forall p | p in chunks :: 0 < chunks[p] && p + chunks[p] <= COUNT_ITEM)
    && (forall p, k: nat | p in chunks && p <= k < p + chunks[p] :: k < COUNT_ITEM && owner[k] == p)
  }

  // Everything in a free cell is zero.
  ghost predicate Blank(heads: seq<Header>, buf: seq<bv8>, owner: seq<nat>)
    requires |heads| == |owner| == COUNT_ITEM && |buf| == MAX_SIZE_FREE_BUFFER
  {
    forall k: nat | k < COUNT_ITEM && owner[k] >= COUNT_ITEM :: heads[k] == ZERO && ZeroCell(buf, k)
  }

  ghost predicate Cells(self: Block, mask: seq<bv8>, heads: seq<Header>, buf: seq<bv8>, chunks: map<nat, nat>, owner: seq<nat>)
    ensures Cells(self, mask, heads, buf, chunks, owner) ==>
              |mask| == SIZE_MASK && |heads| == |owner| == COUNT_ITEM && |buf| == MAX_SIZE_FREE_BUFFER
  {
    && |heads| == |owner| == COUNT_ITEM && |buf| == MAX_SIZE_FREE_BUFFER
    && Marked(mask, owner) && Tiled(chunks, owner) && Blank(heads, buf, owner)
    && (forall p | p in chunks :: p < COUNT_ITEM && GoodHead(heads[p], self, p, chunks[p]))
  }

  ghost predicate ZeroCell(buf: seq<bv8>, k: nat)
    requires |buf| == MAX_SIZE_FREE_BUFFER && k < COUNT_ITEM
  {
    forall j: nat | k * MIN_SIZE_ITEM <= j < (k + 1) * MIN_SIZE_ITEM :: buf[j] == 0
  }

  lemma ChunksDisjoint(self: Block, mask: seq<bv8>, heads: seq<Header>, buf: seq<bv8>, chunks: map<nat, nat>, owner: seq<nat>,
                       p: nat, q: nat)
    requires Cells(self, mask, heads, buf, chunks, owner) && p in chunks && q in chunks && p < q
    ensures p + chunks[p] <= q
    ensures forall k: nat | p <= k < p + chunks[p] :: k < COUNT_ITEM && Used(mask, k)
  {
    hide Used;
    assert owner[q] == q;
  }

  // Free cells become an allocation: the two header fields that are never written are found zero.
  lemma Carve(self: Block, mask: seq<bv8>, heads: seq<Header>, buf: seq<bv8>, chunks: map<nat, nat>, owner: seq<nat>,
              pos: nat, n: nat, mask': seq<bv8>, heads': seq<Header>, owner': seq<nat>)
    requires Cells(self, mask, heads, buf, chunks, owner) && n > 0 && Free(mask, pos, n)
    requires |mask'| == SIZE_MASK
    requires forall k: nat | k < COUNT_ITEM :: Used(mask', k) == (pos <= k < pos + n || Used(mask, k))
    requires heads' == heads[pos := heads[pos].(proot := self, size := n * MIN_SIZE_ITEM - HEADER_SIZE, index := pos,
                                                pbuf := pos * MIN_SIZE_ITEM + HEADER_SIZE)]
    requires owner' == seq(COUNT_ITEM, k requires 0 <= k < COUNT_ITEM => if pos <= k < pos + n then pos else owner[k])
    ensures Cells(self, mask', heads', buf, chunks[pos := n], owner')
    ensures pos !in chunks && heads'[pos].next == Null && heads'[pos].tek == 0
    ensures forall k: nat | pos <= k < pos + n :: owner[k] >= COUNT_ITEM
  {
    hide Used, ZeroCell;
    assert forall k: nat | pos <= k < pos + n :: !Used(mask, k);
    assert owner[pos] >= COUNT_ITEM;
    CarveTiles(chunks, owner, pos, n, owner');
    hide Tiled, Free;
  }

  lemma CarveTiles(chunks: map<nat, nat>, owner: seq<nat>, pos: nat, n: nat, owner': seq<nat>)
    requires |owner| == COUNT_ITEM && Tiled(chunks, owner) && n > 0 && pos + n <= COUNT_ITEM
    requires forall k: nat | pos <= k < pos + n :: owner[k] >= COUNT_ITEM
    requires owner' == seq(COUNT_ITEM, k requires 0 <= k < COUNT_ITEM => if pos <= k < pos + n then pos else owner[k])
    ensures pos !in chunks && Tiled(chunks[pos := n], owner')
  {
    forall p | p in chunks
      ensures p + chunks[p] <= pos || pos + n <= p
    {
      var k := if p < pos then pos else p;
      assert owner[k] == p ==> k < pos || pos + n <= k;
    }
  }

  // An allocation becomes free cells again, all zero.
  lemma Release(self: Block, mask: seq<bv8>, heads: seq<Header>, buf: seq<bv8>, chunks: map<nat, nat>, owner: seq<nat>,
                pos: nat, n: nat, mask': seq<bv8>, heads': seq<Header>, buf': seq<bv8>, owner': seq<nat>)
    requires Cells(self, mask, heads, buf, chunks, owner) && pos in chunks && n == chunks[pos]
    requires |mask'| == SIZE_MASK
    requires forall k: nat | k < COUNT_ITEM :: Used(mask', k) == (!(pos <= k < pos + n) && Used(mask, k))
    requires heads' == seq(COUNT_ITEM, k requires 0 <= k < COUNT_ITEM => if pos <= k < pos + n then ZERO else heads[k])
    requires buf' == seq(MAX_SIZE_FREE_BUFFER, j requires 0 <= j < MAX_SIZE_FREE_BUFFER =>
                           if pos * MIN_SIZE_ITEM <= j < (pos + n) * MIN_SIZE_ITEM then 0 else buf[j])
    requires owner' == seq(COUNT_ITEM, k requires 0 <= k < COUNT_ITEM => if pos <= k < pos + n then COUNT_ITEM else owner[k])
    ensures Cells(self, mask', heads', buf', chunks - {pos}, owner')
  {
    hide Used;
    forall k: nat | k < COUNT_ITEM && owner'[k] >= COUNT_ITEM
      ensures ZeroCell(buf', k)
    {
      if !(pos <= k < pos + n) { assert ZeroCell(buf, k); }
    }
  }
}
