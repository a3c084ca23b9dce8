// Bump allocation of strings and records in a chain of chunks that is given back as a whole.
module Arenas {
  import opened Basics
  import opened BitMask
  import opened Blocks
  import opened FreeBuffers

  datatype Status = Ok | ER_MAX_BUFFER | ER_SMALL_BUFFER

  // A stretch of len bytes that has been handed out, in the payload of the chunk at item.
  datatype Piece = Piece(item: Ptr, from: nat, len: nat)

  const LIMIT: nat := MAX_SIZE_FREE_BUFFER + HEADER_SIZE

  // The piece lies in a live chunk and its bytes are these.
  ghost predicate Holds(p: Piece, bytes: seq<bv8>)
    reads if p.item.Item? then {p.item.block} else {}
  {
    && p.item.Item? && p.len == |bytes| && p.item.cell in p.item.block.chunks
    && p.item.block.InPayload(p.item.cell, p.from, p.len) && p.from + p.len <= |p.item.block.buf|
    && p.item.block.buf[p.from..p.from + p.len] == bytes
  }

  ghost predicate Disjoint(p: Piece, q: Piece)
  {
    p.item.Item? && q.item.Item? && (p.item.block != q.item.block || p.from + p.len <= q.from || q.from + q.len <= p.from)
  }

  // The piece lies in the part of the payload that has been used.
  ghost predicate Given(p: Piece)
    reads if p.item.Item? then {p.item.block} else {}
  {
    && p.item.Item? && p.item.cell < |p.item.block.heads|
    && var h := p.item.block.heads[p.item.cell];
       h.pbuf <= p.from && p.from + p.len <= h.pbuf + h.tek
  }

  // What a request for len bytes asks of the chunk it is served from.
  predicate Fits(item: Ptr, len: nat)
    reads if item.Item? then {item.block} else {}
  {
    && item.Item? && item.cell < |item.block.heads|
    && var h := item.block.heads[item.cell];
       len < h.size - h.tek
  }

  // A caller's item_buffer_t*, with the chunks that hang on it and the pieces that lie in them.
  class Arena {
    var root: Ptr
    ghost var items: seq<Ptr>
    ghost var pieces: seq<Piece>

    // The invariant, with r in the place of the root.
    ghost predicate ValidAt(fb: FreeBuffers, r: Ptr)
      reads `items, `pieces, fb, fb.blocks
      ensures ValidAt(fb, r) ==> (items == [] <==> r == Null) && forall p | p in items :: p in fb.Live()
      ensures ValidAt(fb, r) ==> forall p | p in pieces :: p.item in items
    {
      && fb.Chain(r, items)
      && (forall p | p in pieces :: p.item in items && p.item in fb.Live() && Given(p))
      && forall i, j | 0 <= i < j < |pieces| :: Disjoint(pieces[i], pieces[j])
    }

    ghost predicate Valid(fb: FreeBuffers)
      reads this, fb, fb.blocks
    {
      ValidAt(fb, root)
    }

    constructor (fb: FreeBuffers)
      ensures Valid(fb) && root == Null && pieces == []
    {
      root, items, pieces := Null, [], [];
    }

    // The first chunk of the chain with more than len bytes left, or else the last chunk.
    method Scan(fb: FreeBuffers, len: nat) returns (tmp: Ptr, last: Ptr, ghost i: nat)
      requires fb.Chain(root, items)
      ensures i <= |items| && forall k | 0 <= k < i :: !Fits(items[k], len)
      ensures tmp != Null ==> i < |items| && items[i] == tmp && Fits(tmp, len)
      ensures tmp == Null ==> i == |items| && last == if i == 0 then Null else items[i - 1]
    {
      hide FreeBuffers.Chain;
      last, tmp, i := root, root, 0;
      while tmp != Null
        invariant i <= |items| && forall k | 0 <= k < i :: !Fits(items[k], len)
        invariant tmp != Null ==> i < |items| && tmp == items[i] && last == tmp
        invariant tmp == Null ==> i == |items| && last == if i == 0 then Null else items[i - 1]
        decreases |items| - i
      {
        fb.ChainAt(root, items, i);
        var h := tmp.block.heads[tmp.cell];
        if len < h.size - h.tek { return; }
        tmp := last.block.heads[last.cell].next;
        if last.block.heads[last.cell].next != Null { last := last.block.heads[last.cell].next; }
        i := i + 1;
      }
    }

    // Hang a new chunk on the last one.
    method Extend(fb: FreeBuffers, last: Ptr, tmp: Ptr)
      requires fb.Valid() && Valid(fb) && tmp in fb.Live() && tmp !in items && IsFresh(tmp)
      requires last == if items == [] then Null else items[|items| - 1]
      modifies `items, (if last.Item? then {last.block} else {})`heads
      ensures fb.Valid() && ValidAt(fb, if root == Null then tmp else root) && items == old(items) + [tmp]
      ensures tmp.cell < |tmp.block.heads| && tmp.block.heads[tmp.cell] == old(tmp.block.heads[tmp.cell]) && fb.Kept(set p | p in old(items))
    {
      hide FreeBuffers.Live, FreeBuffers.Valid, FreeBuffers.Exhausted, FreeBuffers.Chain;
      assert items != [] ==> items[|items| - 1] in items;
      assert pieces != [] ==> pieces[0] in pieces;
      if last != Null {
        fb.LinkAfter(last, tmp, items);
        items := items + [tmp];
      } else {
        fb.OneChunk(tmp);
        items := [tmp];
      }
    }

    // The chunk for a request of len bytes.
    method Find(fb: FreeBuffers, len: nat, mallocOk: bool) returns (pibt: Ptr, ghost i: nat)
      requires fb.Valid() && Valid(fb)
      modifies `items, fb, fb.blocks`next, fb.blocks`prev, fb.blocks`bucket, fb.blocks`rank, fb.blocks`mask, fb.blocks`heads, fb.blocks`chunks, fb.blocks`owner
      ensures fb.Valid() && ValidAt(fb, if root == Null then pibt else root) && fb.Kept(set p | p in old(items))
      ensures fresh(fb.blocks - old(fb.blocks))
      ensures old(items) <= items && i <= |old(items)| && forall k | 0 <= k < i :: !old(Fits(items[k], len))
      ensures pibt != Null ==> i < |items| && items[i] == pibt && pibt in fb.Live() && Fits(pibt, len)
      ensures pibt == Null ==> items == old(items)
      ensures forall p | p in items && p in old(fb.Live()) :: p in old(items)
      ensures pibt == Null <==> old(fb.Exhausted(len, mallocOk)) && forall k | 0 <= k < |old(items)| :: !old(Fits(items[k], len))
    {
      hide FreeBuffers.Live, Block.Image, FreeBuffers.Valid, FreeBuffers.Exhausted, FreeBuffers.Chain, Disjoint, Given;
      var tmp, last;
      tmp, last, i := Scan(fb, len);
      fb.Unmoved(set p | p in items);
      if tmp != Null { return tmp, i; }
      pibt := Grow(fb, last, len, mallocOk);
    }

    // A new chunk for len bytes, hung on the last one.
    method Grow(fb: FreeBuffers, last: Ptr, len: nat, mallocOk: bool) returns (pibt: Ptr)
      requires fb.Valid() && Valid(fb) && last == if items == [] then Null else items[|items| - 1]
      modifies `items, fb, fb.blocks`next, fb.blocks`prev, fb.blocks`bucket, fb.blocks`rank, fb.blocks`mask, fb.blocks`heads, fb.blocks`chunks, fb.blocks`owner
      ensures fb.Valid() && ValidAt(fb, if root == Null then pibt else root) && fb.Kept(set p | p in old(items))
      ensures fresh(fb.blocks - old(fb.blocks))
      ensures items == if pibt == Null then old(items) else old(items) + [pibt]
      ensures pibt != Null ==> pibt in fb.Live() && Fits(pibt, len)
      ensures pibt !in old(fb.Live())
      ensures pibt == Null <==> old(fb.Exhausted(len, mallocOk))
    {
      hide FreeBuffers.Live, Block.Image, FreeBuffers.Valid, FreeBuffers.Exhausted, FreeBuffers.Chain, Disjoint, Given, ValidAt;
      pibt := Obtain(fb, len, mallocOk);
      assert items != [] ==> items[|items| - 1] in items;
      if pibt != Null {
        Extend(fb, last, pibt);
      }
    }

    method Obtain(fb: FreeBuffers, len: nat, mallocOk: bool) returns (pibt: Ptr)
      requires fb.Valid() && Valid(fb)
      modifies fb, fb.blocks`next, fb.blocks`prev, fb.blocks`bucket, fb.blocks`rank, fb.blocks`mask, fb.blocks`heads, fb.blocks`chunks, fb.blocks`owner
      ensures fb.Valid() && Valid(fb) && fb.Kept({}) && fresh(fb.blocks - old(fb.blocks))
      ensures pibt != Null ==> pibt in fb.Live() && pibt !in items && IsFresh(pibt) && Fits(pibt, len)
      ensures pibt !in old(fb.Live())
      ensures pibt == Null <==> old(fb.Exhausted(len, mallocOk))
    {
      hide Block.Image, FreeBuffers.Valid, FreeBuffers.Exhausted, FreeBuffers.Chain, Need, Disjoint, Given;
      ghost var run;
      pibt, run := fb.Get(len, mallocOk);
      ghost var s := Survival(this, fb);
      s.Keeps({});
    }

    // Hand out the next len bytes of a chunk after skipping some.
    method Give(fb: FreeBuffers, pibt: Ptr, skip: nat, len: nat) returns (tmp: Piece)
      requires fb.Valid() && Valid(fb) && pibt in items && pibt in fb.Live() && Fits(pibt, skip + len)
      modifies `pieces, pibt.block`heads
      ensures fb.Valid() && Valid(fb) && pieces == old(pieces) + [tmp] && fb.Kept({pibt})
      ensures tmp == Piece(pibt, old(pibt.block.heads[pibt.cell].pbuf + pibt.block.heads[pibt.cell].tek) + skip, len)
      ensures pibt.block.InPayload(pibt.cell, tmp.from, len)
      ensures pibt.block.heads == old(pibt.block.heads)[pibt.cell :=
                                    old(pibt.block.heads[pibt.cell]).(tek := old(pibt.block.heads[pibt.cell].tek) + skip + len)]
    {
      hide FreeBuffers.Live, FreeBuffers.Valid, FreeBuffers.Chain, Disjoint;
      var h := pibt.block.heads[pibt.cell];
      fb.GoodHeader(pibt);
      tmp := Piece(pibt, h.pbuf + h.tek + skip, len);
      forall i | 0 <= i < |pieces|
        ensures Disjoint(pieces[i], tmp)
      {
        ClearOf(fb, pieces[i], pibt, skip, len);
      }
      fb.SetHead(pibt, h.next, h.tek + skip + len);
      ghost var s := Survival(this, fb);
      s.CursorKeepsChain(pibt);
      pieces := pieces + [tmp];
    }

    // Write a string into the piece that has just been handed out.
    method Fill(fb: FreeBuffers, tmp: Piece, bytes: seq<bv8>)
      requires fb.Valid() && Valid(fb) && tmp.item in items && tmp.item in fb.Live()
      requires tmp.item.block.InPayload(tmp.item.cell, tmp.from, tmp.len) && tmp.len == |bytes|
      modifies tmp.item.block`heads, tmp.item.block`buf
      ensures fb.Valid() && Valid(fb) && fb.Kept(set p | p in items)
      ensures tmp.item.block.Wrote(tmp.from, bytes)
    {
      hide FreeBuffers.Live, FreeBuffers.Valid, FreeBuffers.Chain, Disjoint;
      fb.Store(tmp.item, tmp.from, bytes);
      ghost var s := Survival(this, fb);
      s.HeadsKeep();
    }

    // The next bytes of a chunk become a piece that holds a string.
    method Put(fb: FreeBuffers, pibt: Ptr, bytes: seq<bv8>) returns (tmp: Piece)
      requires fb.Valid() && Valid(fb) && pibt in items && pibt in fb.Live() && Fits(pibt, |bytes|)
      modifies `pieces, pibt.block`heads, pibt.block`buf
      ensures fb.Valid() && Valid(fb) && fb.Kept(set p | p in items)
      ensures pieces == old(pieces) + [tmp] && tmp.item == pibt && tmp.len == |bytes|
      ensures Holds(tmp, bytes)
      ensures forall p | p in old(pieces) :: p.item.Item? && p.item.block.SameBytes(p.from, p.len)
    {
      hide FreeBuffers.Live, FreeBuffers.Valid, FreeBuffers.Chain, Block.Image;
      tmp := Give(fb, pibt, 0, |bytes|);
      Fill(fb, tmp, bytes);
      forall i | 0 <= i < |old(pieces)|
        ensures old(pieces)[i].item.Item? && old(pieces)[i].item.block.SameBytes(old(pieces)[i].from, old(pieces)[i].len)
      {
        assert pieces[i] == old(pieces)[i] && pieces[|pieces| - 1] == tmp;
        assert Disjoint(pieces[i], tmp);
      }
    }

    // The answer to a request: limit is checked first, then room for need bytes is looked for.
    ghost function Answer(fb: FreeBuffers, limit: nat, need: nat, mallocOk: bool): Status
      requires fb.Valid() && Valid(fb)
      reads this, fb, fb.blocks
    {
      if limit >= LIMIT then ER_MAX_BUFFER
      else if fb.Exhausted(need, mallocOk) && forall k | 0 <= k < |items| :: !Fits(items[k], need) then ER_SMALL_BUFFER
      else Ok
    }

    // Find the chunk for a request and remember the first one of all.
    method Reserve(fb: FreeBuffers, need: nat, mallocOk: bool) returns (pibt: Ptr)
      requires fb.Valid() && Valid(fb)
      modifies `items, `root, fb, fb.blocks`next, fb.blocks`prev, fb.blocks`bucket, fb.blocks`rank, fb.blocks`mask, fb.blocks`heads, fb.blocks`chunks, fb.blocks`owner
      ensures fb.Valid() && Valid(fb) && fb.Kept(set p | p in old(items)) && fresh(fb.blocks - old(fb.blocks))
      ensures pibt != Null ==> pibt in items && pibt in fb.Live() && Fits(pibt, need)
      ensures forall p | p in items && p in old(fb.Live()) :: p in old(items)
      ensures pibt == Null <==> old(fb.Exhausted(need, mallocOk)) && forall k | 0 <= k < |old(items)| :: !old(Fits(items[k], need))
    {
      hide FreeBuffers.Valid, FreeBuffers.Live, FreeBuffers.Exhausted, Block.Image, ValidAt, Fits;
      ghost var i;
      pibt, i := Find(fb, need, mallocOk);
      if root == Null { root := pibt; }
    }

    // A copy of a string with its terminator.
    method MallocChar(fb: FreeBuffers, pobj: seq<bv8>, mallocOk: bool) returns (tmp: Option<Piece>, status: Status)
      requires fb.Valid() && Valid(fb)
      modifies this, fb, fb.blocks
      ensures fb.Valid() && Valid(fb) && fb.Kept(set p | p in old(items))
      ensures status == old(Answer(fb, |pobj| + 1, |pobj| + 1, mallocOk)) && (tmp.Some? <==> status.Ok?)
      ensures tmp.None? ==> pieces == old(pieces)
      ensures tmp.Some? ==> pieces == old(pieces) + [tmp.value] && Holds(tmp.value, pobj + [0])
      ensures forall p | p in old(pieces) :: p.item.Item? && p.item.block.SameBytes(p.from, p.len)
    {
      hide FreeBuffers.Valid, FreeBuffers.Live, FreeBuffers.Exhausted, Block.Image, ValidAt, Disjoint, Given, Fits, Block.InPayload;
      var len := |pobj| + 1;
      fb.Unmoved(set p | p in items);
      if len >= LIMIT { return None, ER_MAX_BUFFER; }
      var pibt := Reserve(fb, len, mallocOk);
      if pibt == Null { return None, ER_SMALL_BUFFER; }
      var piece := Put(fb, pibt, pobj + [0]);
      return Some(piece), Ok;
    }

    // The same with room for a longer string, up to maxLen bytes, when this is the first piece of the arena.
    method MallocCharExp(fb: FreeBuffers, pobj: seq<bv8>, maxLen: int, mallocOk: bool) returns (tmp: Option<Piece>, status: Status)
      requires fb.Valid() && Valid(fb)
      modifies this, fb, fb.blocks
      ensures fb.Valid() && Valid(fb) && fb.Kept(set p | p in old(items))
      ensures var most := if maxLen < |pobj| + 1 then |pobj| + 1 else maxLen;
              status == old(Answer(fb, most, if root == Null then most else |pobj| + 1, mallocOk))
      ensures tmp.Some? <==> status.Ok?
      ensures tmp.None? ==> pieces == old(pieces)
      ensures tmp.Some? ==> pieces == old(pieces) + [tmp.value] && Holds(tmp.value, pobj + [0])
      ensures forall p | p in old(pieces) :: p.item.Item? && p.item.block.SameBytes(p.from, p.len)
    {
      hide FreeBuffers.Valid, FreeBuffers.Live, FreeBuffers.Exhausted, Block.Image, ValidAt, Disjoint, Given, Block.InPayload;
      var len, most := |pobj| + 1, maxLen;
      fb.Unmoved(set p | p in items);
      if most < len { most := len; }
      if most >= LIMIT { return None, ER_MAX_BUFFER; }
      var pibt;
      if root == Null {
        pibt := Reserve(fb, most, mallocOk);
      } else {
        pibt := Reserve(fb, len, mallocOk);
      }
      if pibt == Null { return None, ER_SMALL_BUFFER; }
      var piece := Put(fb, pibt, pobj + [0]);
      return Some(piece), Ok;
    }

    // len bytes at an address that is a multiple of four.
    method MallocVoid(fb: FreeBuffers, len: nat, mallocOk: bool) returns (tmp: Option<Piece>, status: Status)
      requires fb.Valid() && Valid(fb)
      modifies this, fb, fb.blocks
      ensures fb.Valid() && Valid(fb) && fb.Kept(set p | p in old(items))
      ensures status == old(Answer(fb, len, len + 4, mallocOk)) && (tmp.Some? <==> status.Ok?)
      ensures tmp.None? ==> pieces == old(pieces)
      ensures tmp.Some? ==>
                && pieces == old(pieces) + [tmp.value] && tmp.value.len == len && tmp.value.item in fb.Live()
                && tmp.value.item.block.InPayload(tmp.value.item.cell, tmp.value.from, len)
                && (tmp.value.item.block.address + tmp.value.from) % 4 == 0
      ensures forall p | p in old(pieces) :: p.item.Item? && p.item.block.SameBytes(p.from, p.len)
    {
      hide FreeBuffers.Valid, FreeBuffers.Live, FreeBuffers.Exhausted, Block.Image, ValidAt, Disjoint, Given, Block.InPayload;
      fb.Unmoved(set p | p in items);
      if len >= LIMIT { return None, ER_MAX_BUFFER; }
      var pibt := Reserve(fb, len + 4, mallocOk);
      if pibt == Null { return None, ER_SMALL_BUFFER; }
      var skip := Align(pibt);
      var piece := Give(fb, pibt, skip, len);
      return Some(piece), Ok;
    }

    // How far the cursor of a chunk is from the next multiple of four.
    method Align(pibt: Ptr) returns (skip: nat)
      requires pibt.Item? && pibt.cell < |pibt.block.heads|
      ensures skip < 4
      ensures var h := pibt.block.heads[pibt.cell]; (pibt.block.address + h.pbuf + h.tek + skip) % 4 == 0
    {
      var h := pibt.block.heads[pibt.cell];
      ghost var start := (pibt.block.address + h.pbuf + h.tek) % 4;
      skip := 0;
      while (pibt.block.address + h.pbuf + h.tek + skip) % 4 != 0
        invariant skip <= if start == 0 then 0 else 4 - start
        invariant (pibt.block.address + h.pbuf + h.tek + skip) % 4 == (start + skip) % 4
        decreases 4 - skip
      {
        skip := skip + 1;
      }
    }

    // Give every chunk of the arena back.
    method Release(fb: FreeBuffers)
      requires fb.Valid() && Valid(fb)
      modifies this, fb`pfree, fb`count, fb.blocks
      ensures fb.Valid() && Valid(fb) && items == [] && pieces == []
      ensures fb.Kept(set p | p in old(items)) && fb.Live() == old(fb.Live()) - (set p | p in old(items))
    {
      hide FreeBuffers.Valid, FreeBuffers.Live, FreeBuffers.Kept, FreeBuffers.Chain, Disjoint, Given;
      fb.Free(root, items);
      fb.NoChunk();
      root, items, pieces := Null, [], [];
    }

    lemma ClearOf(fb: FreeBuffers, p: Piece, pibt: Ptr, skip: nat, len: nat)
      requires fb.Valid() && p.item in fb.Live() && Given(p) && pibt in fb.Live() && Fits(pibt, skip + len)
      ensures Disjoint(p, Piece(pibt, pibt.block.heads[pibt.cell].pbuf + pibt.block.heads[pibt.cell].tek + skip, len))
    {
      hide FreeBuffers.Valid;
      fb.GoodHeader(pibt);
      fb.GoodHeader(p.item);
      if p.item.block == pibt.block && p.item.cell != pibt.cell { fb.ChunksApart(p.item, pibt); }
    }
  }

  datatype Survival = Survival(a: Arena, fb: FreeBuffers)
  {
    // A cursor that moves does not disturb the chain.
    twostate lemma CursorKeepsChain(pibt: Ptr)
      requires old(fb.Chain(a.root, a.items)) && a.root == old(a.root) && a.items == old(a.items) && fb.blocks == old(fb.blocks)
      requires pibt in fb.Live() && pibt.cell < |old(pibt.block.heads)|
      requires forall b | b in fb.blocks :: b.chunks == old(b.chunks) && (b != pibt.block ==> b.heads == old(b.heads))
      requires exists h :: pibt.block.heads == old(pibt.block.heads)[pibt.cell := h] && h.next == old(pibt.block.heads[pibt.cell]).next
      ensures fb.Chain(a.root, a.items)
    {
    }

    twostate lemma HeadsKeep()
      requires old(a.Valid(fb)) && a.root == old(a.root) && a.items == old(a.items) && a.pieces == old(a.pieces)
      requires fb.blocks == old(fb.blocks) && forall b | b in fb.blocks :: b.chunks == old(b.chunks) && |b.heads| == |old(b.heads)|
      requires forall b, p | b in fb.blocks && p in b.chunks && p < |b.heads| :: b.heads[p] == old(b.heads)[p]
      ensures a.Valid(fb)
    {
      hide Disjoint;
      forall p | p in a.pieces
        ensures Given(p)
      {
        assert old(Given(p));
      }
    }

    // Whatever happens to chunks outside of an arena leaves it in order.
    twostate lemma Keeps(gone: set<Ptr>)
      requires old(fb.Valid()) && fb.Valid() && old(a.Valid(fb)) && fb.Kept(gone)
      requires a.root == old(a.root) && a.items == old(a.items) && a.pieces == old(a.pieces)
      requires forall p | p in a.items :: p !in gone
      ensures a.Valid(fb)
    {
      hide FreeBuffers.Live, FreeBuffers.Valid, Disjoint, Block.SameChunk, Follower;
      forall i | 0 <= i < |a.items|
        ensures a.items[i] in fb.Live() && a.items[i].cell < |a.items[i].block.heads|
        ensures a.items[i].block.heads[a.items[i].cell].next == Follower(a.items, i)
      {
        fb.HeadKept(a.items[i]);
        assert old(a.items[i].block.heads[a.items[i].cell].next == Follower(a.items, i));
      }
      forall p | p in a.pieces
        ensures p.item in fb.Live() && Given(p)
      {
        fb.HeadKept(p.item);
        assert old(Given(p));
      }
    }
  }
}
