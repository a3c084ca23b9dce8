// The 32-cell occupancy mask of a block: four bytes of eight bits.
module BitMask {
  const SIZE_MASK: nat := 4
  const COUNT_ITEM: nat := 32

  function SetBit(b: bv8, i: nat): bv8
    requires i < 8
  {
    b | (1 << i)
  }

  function ClearBit(b: bv8, i: nat): bv8
    requires i < 8
  {
    b & !(1 << i)
  }

  predicate TestBit(b: bv8, i: nat)
    requires i < 8
  {
    b & (1 << i) != 0
  }

  lemma OneBit(i: nat)
    requires i < 8
    ensures (1 as bv8 << i) == [1, 2, 4, 8, 16, 32, 64, 128][i]
  {
  }

  lemma SetThenTest(b: bv8, i: nat, j: nat)
    requires i < 8 && j < 8
    ensures TestBit(SetBit(b, i), j) == (i == j || TestBit(b, j))
  {
    OneBit(i);
    OneBit(j);
  }

  lemma ClearThenTest(b: bv8, i: nat, j: nat)
    requires i < 8 && j < 8
    ensures TestBit(ClearBit(b, i), j) == (i != j && TestBit(b, j))
  {
    OneBit(i);
    OneBit(j);
  }

  // Whether cell k is taken.
  predicate Used(m: seq<bv8>, k: nat)
    requires |m| == SIZE_MASK && k < COUNT_ITEM
  {
    TestBit(m[k / 8], k % 8)
  }

  // Cells pos to pos + size are all free.
  ghost predicate Free(m: seq<bv8>, pos: nat, size: nat)
    requires |m| == SIZE_MASK
  {
    pos + size <= COUNT_ITEM && forall k | pos <= k < pos + size :: !Used(m, k)
  }

  // A stretch of free cells that cannot be extended on either side.
  ghost predicate Run(m: seq<bv8>, pos: nat, size: nat)
    requires |m| == SIZE_MASK
  {
    && size > 0 && Free(m, pos, size)
    && (pos > 0 ==> Used(m, pos - 1))
    && (pos + size < COUNT_ITEM ==> Used(m, pos + size))
  }

  // The length of the longest free stretch, 0 when all cells are taken.
  ghost predicate Longest(m: seq<bv8>, size: nat)
    requires |m| == SIZE_MASK
  {
    && (forall p: nat, n: nat | Free(m, p, n) :: n <= size)
    && exists p: nat :: Free(m, p, size)
  }

  method SetBits(pmask: seq<bv8>, from: nat, count: nat) returns (m: seq<bv8>)
    requires |pmask| == SIZE_MASK && from + count <= COUNT_ITEM
    ensures |m| == SIZE_MASK
    ensures forall k: nat | k < COUNT_ITEM :: Used(m, k) == (from <= k < from + count || Used(pmask, k))
  {
    hide SetBit, ClearBit, TestBit;
    m := pmask;
    var index := from / 8;
    var pos := from - index * 8;
    var size := count;
    while size > 0
      invariant |m| == SIZE_MASK
      invariant 0 <= size <= count && 0 <= pos < 8 && 0 <= index && index * 8 + pos == from + count - size
      invariant forall k: nat | k < COUNT_ITEM :: Used(m, k) == (from <= k < from + count - size || Used(pmask, k))
    {
      forall j: nat | j < 8 { SetThenTest(m[index], pos, j); }
      ghost var was := m;
      m := m[index := SetBit(m[index], pos)];
      assert forall k: nat | k < COUNT_ITEM :: Used(m, k) == (k == index * 8 + pos || Used(was, k));
      pos := pos + 1;
      if pos == 8 { pos := 0; index := index + 1; }
      size := size - 1;
    }
  }

  method ClearBits(pmask: seq<bv8>, from: nat, count: nat) returns (m: seq<bv8>)
    requires |pmask| == SIZE_MASK && from + count <= COUNT_ITEM
    ensures |m| == SIZE_MASK
    ensures forall k: nat | k < COUNT_ITEM :: Used(m, k) == (!(from <= k < from + count) && Used(pmask, k))
  {
    hide SetBit, ClearBit, TestBit;
    m := pmask;
    var index := from / 8;
    var pos := from - index * 8;
    var size := count;
    while size > 0
      invariant |m| == SIZE_MASK
      invariant 0 <= size <= count && 0 <= pos < 8 && 0 <= index && index * 8 + pos == from + count - size
      invariant forall k: nat | k < COUNT_ITEM :: Used(m, k) == (!(from <= k < from + count - size) && Used(pmask, k))
    {
      forall j: nat | j < 8 { ClearThenTest(m[index], pos, j); }
      ghost var was := m;
      m := m[index := ClearBit(m[index], pos)];
      assert forall k: nat | k < COUNT_ITEM :: Used(m, k) == (k != index * 8 + pos && Used(was, k));
      pos := pos + 1;
      if pos == 8 { pos := 0; index := index + 1; }
      size := size - 1;
    }
  }

  // [pos, pos + size) is the free stretch that ends just before cell k.
  ghost predicate Trailing(m: seq<bv8>, pos: nat, size: nat, k: nat)
    requires |m| == SIZE_MASK
  {
    && size <= k <= COUNT_ITEM && (size > 0 ==> pos == k - size)
    && (forall j | k - size <= j < k :: !Used(m, j))
    && (k - size > 0 ==> Used(m, k - size - 1))
  }

  // No free stretch that ends by cell k is longer than n.
  ghost predicate NoneLonger(m: seq<bv8>, n: nat, k: nat)
    requires |m| == SIZE_MASK
  {
    forall p: nat, q: nat | p + q <= k && Free(m, p, q) :: q <= n
  }

  function Max(a: nat, b: nat): nat {
    if a < b then b else a
  }

  lemma FreeCell(m: seq<bv8>, pos: nat, size: nat, best: nat, k: nat)
    requires |m| == SIZE_MASK && k < COUNT_ITEM && !Used(m, k)
    requires Trailing(m, pos, size, k) && NoneLonger(m, Max(best, size), k)
    ensures Trailing(m, if size == 0 then k else pos, size + 1, k + 1)
    ensures NoneLonger(m, Max(best, size + 1), k + 1)
  {
    forall p: nat, q: nat | p + q <= k + 1 && Free(m, p, q)
      ensures q <= Max(best, size + 1)
    {
      if p + q == k + 1 && k - size > 0 { assert Used(m, k - size - 1); }
    }
  }

  lemma UsedCell(m: seq<bv8>, pos: nat, size: nat, best: nat, k: nat)
    requires |m| == SIZE_MASK && k < COUNT_ITEM && Used(m, k)
    requires Trailing(m, pos, size, k) && NoneLonger(m, Max(best, size), k)
    ensures Trailing(m, pos, 0, k + 1) && NoneLonger(m, Max(best, size), k + 1)
    ensures size > 0 ==> Run(m, pos, size)
  {
  }

  lemma LastCell(m: seq<bv8>, pos: nat, size: nat)
    requires |m| == SIZE_MASK && Trailing(m, pos, size, COUNT_ITEM)
    ensures size > 0 ==> Run(m, pos, size)
  {
  }

  // Whether cell k of the mask is taken, read from its byte.
  lemma ByteOf(m: seq<bv8>, index: nat, i: nat)
    requires |m| == SIZE_MASK && index < SIZE_MASK && i < 8
    ensures Used(m, index * 8 + i) == TestBit(m[index], i)
  {
  }

  // The longest free stretch, and of several the first.
  method CheckBits(pmask: seq<bv8>) returns (ppos: nat, psize: nat)
    requires |pmask| == SIZE_MASK
    ensures Longest(pmask, psize) && Free(pmask, ppos, psize)
    ensures psize > 0 ==> Run(pmask, ppos, psize)
  {
    ppos, psize := Scan(pmask);
    assert Free(pmask, ppos, psize);
  }

  method Scan(pmask: seq<bv8>) returns (ppos: nat, psize: nat)
    requires |pmask| == SIZE_MASK
    ensures NoneLonger(pmask, psize, COUNT_ITEM)
    ensures if psize > 0 then Run(pmask, ppos, psize) else ppos == 0
  {
    hide Trailing, NoneLonger, Run, Used;
    ghost var m := pmask;
    var pos: nat, size: nat := 0, 0;
    ppos, psize := 0, 0;
    assert Trailing(m, 0, 0, 0) && NoneLonger(m, 0, 0) by { StartOfScan(m); }
    for index := 0 to SIZE_MASK
      invariant Trailing(m, pos, size, index * 8)
      invariant NoneLonger(m, Max(psize, size), index * 8)
      invariant if psize > 0 then Run(m, ppos, psize) else ppos == 0
    {
      for i := 0 to 8
        invariant Trailing(m, pos, size, index * 8 + i)
        invariant NoneLonger(m, Max(psize, size), index * 8 + i)
        invariant if psize > 0 then Run(m, ppos, psize) else ppos == 0
      {
        ByteOf(m, index, i);
        if !TestBit(pmask[index], i) {
          FreeCell(m, pos, size, psize, index * 8 + i);
          if size == 0 { pos := index * 8 + i; }
          size := size + 1;
        } else {
          UsedCell(m, pos, size, psize, index * 8 + i);
          if psize < size && size != 0 {
            ppos := pos;
            psize := size;
          }
          size := 0;
        }
      }
    }
    LastCell(m, pos, size);
    if psize < size && size != 0 {
      ppos := pos;
      psize := size;
      size := 0;
    }
  }

  lemma StartOfScan(m: seq<bv8>)
    requires |m| == SIZE_MASK
    ensures Trailing(m, 0, 0, 0) && NoneLonger(m, 0, 0)
  {
  }

  // The first of the smallest runs that still hold size cells.
  ghost predicate BestFit(m: seq<bv8>, size: nat, pos: nat, n: nat)
    requires |m| == SIZE_MASK
  {
    Run(m, pos, n) && size <= n && forall p: nat, q: nat | Run(m, p, q) && size <= q :: n <= q && (n == q ==> pos <= p)
  }

  // The same for the runs that end before cell k; best is 0 while there is none, and never size itself.
  ghost predicate BestSoFar(m: seq<bv8>, size: nat, pos: nat, best: nat, k: nat)
    requires |m| == SIZE_MASK
  {
    && (best > 0 ==> Run(m, pos, best) && size < best && pos + best < k)
    && forall p: nat, q: nat | Run(m, p, q) && p + q < k && size <= q :: 0 < best <= q && (best == q ==> pos <= p)
  }

  lemma BestAtStart(m: seq<bv8>, size: nat)
    requires |m| == SIZE_MASK
    ensures Trailing(m, 0, 0, 0) && BestSoFar(m, size, 0, 0, 0)
  {
  }

  lemma BestPastFree(m: seq<bv8>, size: nat, pos1: nat, size1: nat, pos: nat, best: nat, k: nat)
    requires |m| == SIZE_MASK && k < COUNT_ITEM && !Used(m, k)
    requires Trailing(m, pos1, size1, k) && BestSoFar(m, size, pos, best, k)
    ensures Trailing(m, if size1 == 0 then k else pos1, size1 + 1, k + 1)
    ensures BestSoFar(m, size, pos, best, k + 1)
  {
  }

  // A run ends at cell k, which is taken or the end of the mask.
  lemma BestPastUsed(m: seq<bv8>, size: nat, pos1: nat, size1: nat, pos: nat, best: nat, k: nat)
    requires |m| == SIZE_MASK && k <= COUNT_ITEM && (k < COUNT_ITEM ==> Used(m, k)) && size > 0
    requires Trailing(m, pos1, size1, k) && BestSoFar(m, size, pos, best, k)
    ensures k < COUNT_ITEM ==> Trailing(m, pos1, 0, k + 1)
    ensures size1 == size ==> BestFit(m, size, pos1, size)
    ensures size1 < size ==> BestSoFar(m, size, pos, best, k + 1)
    ensures size1 > size ==>
              BestSoFar(m, size, if best == 0 || best > size1 then pos1 else pos, if best == 0 || best > size1 then size1 else best, k + 1)
  {
    hide Run, Used;
    RunEndingAt(m, pos1, size1, k);
    hide Trailing;
    if k < COUNT_ITEM { PastUsed(m, pos1, size1, k); }
  }

  lemma RunEndingAt(m: seq<bv8>, pos: nat, size: nat, k: nat)
    requires |m| == SIZE_MASK && k <= COUNT_ITEM && (k < COUNT_ITEM ==> Used(m, k)) && Trailing(m, pos, size, k)
    ensures forall p: nat, q: nat | Run(m, p, q) && p + q == k :: q == size
    ensures size > 0 ==> Run(m, pos, size) && pos + size == k
  {
    hide Used;
    forall p: nat, q: nat | Run(m, p, q) && p + q == k
      ensures q == size
    {
    }
  }

  lemma PastUsed(m: seq<bv8>, pos: nat, size: nat, k: nat)
    requires |m| == SIZE_MASK && k < COUNT_ITEM && Used(m, k) && Trailing(m, pos, size, k)
    ensures Trailing(m, pos, 0, k + 1)
  {
  }

  lemma BestAtEnd(m: seq<bv8>, size: nat, pos: nat, best: nat)
    requires |m| == SIZE_MASK && BestSoFar(m, size, pos, best, COUNT_ITEM + 1)
    ensures best > 0 ==> BestFit(m, size, pos, best)
    ensures best == 0 ==> forall p: nat, q: nat | Run(m, p, q) :: q < size
  {
  }

  // Best fit: an exact run at once, else the first of the smallest runs that are long enough.
  method FindBits(pmask: seq<bv8>, size: nat) returns (found: bool, ppos: nat, ghost n: nat)
    requires |pmask| == SIZE_MASK && size > 0
    ensures found ==> BestFit(pmask, size, ppos, n)
    ensures !found ==> forall p: nat, q: nat | Run(pmask, p, q) :: q < size
  {
    hide Trailing, BestSoFar, BestFit, Run, Used;
    ghost var m := pmask;
    var pos1: nat, size1: nat, size2: nat := 0, 0, 0;
    ppos := 0;
    BestAtStart(m, size);
    for index := 0 to SIZE_MASK
      invariant Trailing(m, pos1, size1, index * 8)
      invariant BestSoFar(m, size, ppos, size2, index * 8)
    {
      for i := 0 to 8
        invariant Trailing(m, pos1, size1, index * 8 + i)
        invariant BestSoFar(m, size, ppos, size2, index * 8 + i)
      {
        ByteOf(m, index, i);
        if !TestBit(pmask[index], i) {
          BestPastFree(m, size, pos1, size1, ppos, size2, index * 8 + i);
          if size1 == 0 { pos1 := index * 8 + i; }
          size1 := size1 + 1;
        } else {
          BestPastUsed(m, size, pos1, size1, ppos, size2, index * 8 + i);
          if size1 == size { return true, pos1, size; }
          if size1 > size {
            if size2 == 0 {
              ppos := pos1;
              size2 := size1;
            } else if size2 > size1 {
              ppos := pos1;
              size2 := size1;
            }
          }
          size1 := 0;
        }
      }
    }
    BestPastUsed(m, size, pos1, size1, ppos, size2, COUNT_ITEM);
    if size1 == size { return true, pos1, size; }
    if size1 > size {
      if size2 == 0 {
        ppos := pos1;
        size2 := size1;
      } else if size2 > size1 {
        ppos := pos1;
        size2 := size1;
      }
    }
    BestAtEnd(m, size, ppos, size2);
    if size2 == 0 { return false, ppos, 0; }
    return true, ppos, size2;
  }

  // The longest free stretch is a run, so a search for no more than its length succeeds.
  lemma LongestRun(m: seq<bv8>, size: nat)
    requires |m| == SIZE_MASK && Longest(m, size) && size > 0
    ensures exists p: nat :: Run(m, p, size)
  {
    var p: nat :| Free(m, p, size);
    hide Used;
    assert p > 0 ==> (Free(m, p - 1, size + 1) <==> !Used(m, p - 1));
    assert p + size < COUNT_ITEM ==> (Free(m, p, size + 1) <==> !Used(m, p + size));
    assert Run(m, p, size);
  }

  lemma LongestUnique(m: seq<bv8>, a: nat, b: nat)
    requires |m| == SIZE_MASK && Longest(m, a) && Longest(m, b)
    ensures a == b
  {
  }

  lemma Untaken(m: seq<bv8>)
    requires |m| == SIZE_MASK && forall k: nat | k < COUNT_ITEM :: !Used(m, k)
    ensures Longest(m, COUNT_ITEM)
  {
    assert Free(m, 0, COUNT_ITEM);
  }

  // Somewhere n cells in a row are free.
  ghost predicate Room(m: seq<bv8>, n: nat)
    requires |m| == SIZE_MASK
  {
    exists p: nat :: Free(m, p, n)
  }

  lemma RoomUpToLongest(m: seq<bv8>, longest: nat, n: nat)
    requires |m| == SIZE_MASK && Longest(m, longest)
    ensures Room(m, n) <==> n <= longest
  {
    var p: nat :| Free(m, p, longest);
    assert n <= longest ==> Free(m, p, n);
  }

  lemma RoomOrder(m: seq<bv8>, a: nat, m': seq<bv8>, b: nat)
    requires |m| == |m'| == SIZE_MASK && Longest(m, a) && Longest(m', b) && a <= b
    ensures forall n | Room(m, n) :: Room(m', n)
  {
    forall n | Room(m, n)
      ensures Room(m', n)
    {
      RoomUpToLongest(m, a, n);
      RoomUpToLongest(m', b, n);
    }
  }
}
