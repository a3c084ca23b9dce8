// A ring of bytes that keeps the newest when it is full.
module CircularBuffer {
  type byte = bv8

  const IRD_DEFAULTSIZE: nat := 8192

  // The last n elements of a sequence, or all of them.
  function Last(s: seq<byte>, n: nat): seq<byte> {
    if |s| <= n then s else s[|s| - n..]
  }

  // Keeping the newest n after each of two additions keeps the newest n of all.
  lemma LastOfLast(a: seq<byte>, b: seq<byte>, n: nat)
    ensures Last(Last(a, n) + b, n) == Last(a + b, n)
  {
    if |a| > n {
      var c := Last(a, n) + b;
      assert c == (a + b)[|a| - n..];
    }
  }

  // What any run of additions to an empty ring leaves in it.
  function AddAll(chunks: seq<seq<byte>>, n: nat): seq<byte> {
    if chunks == [] then [] else Last(AddAll(chunks[..|chunks| - 1], n) + chunks[|chunks| - 1], n)
  }

  function Concat(chunks: seq<seq<byte>>): seq<byte> {
    if chunks == [] then [] else Concat(chunks[..|chunks| - 1]) + chunks[|chunks| - 1]
  }

  lemma {:induction false} RunOfAdditions(chunks: seq<seq<byte>>, n: nat)
    ensures AddAll(chunks, n) == Last(Concat(chunks), n)
  {
    if chunks != [] {
      var k := |chunks| - 1;
      RunOfAdditions(chunks[..k], n);
      LastOfLast(Concat(chunks[..k]), chunks[k], n);
    }
  }

  function Min(a: nat, b: nat): nat {
    if a < b then a else b
  }

  // count bytes of a ring, from get on.
  function View(d: seq<byte>, get: nat, count: nat): (s: seq<byte>)
    requires count <= |d| && get <= |d|
    ensures |s| == count
  {
    if get + count <= |d| then d[get..get + count] else d[get..] + d[..get + count - |d|]
  }

  // Where the next byte goes.
  function After(size: nat, get: nat, count: nat): (put: nat)
    ensures get <= size && count <= size ==> put <= size && (size > 0 ==> put < size)
  {
    if get + count < size then get + count else if get + count >= size + size then 0 else get + count - size
  }

  // Where byte i of a ring lies.
  function Cell(size: nat, get: nat, i: nat): nat {
    if get + i < size then get + i else if get + i < size + size then get + i - size else 0
  }

  lemma ViewAt(d: seq<byte>, get: nat, count: nat, i: nat)
    requires get <= |d| && i < count <= |d|
    ensures View(d, get, count)[i] == d[Cell(|d|, get, i)]
  {
  }

  lemma ViewExtended(d: seq<byte>, d': seq<byte>, get: nat, count: nat, bytes: seq<byte>)
    requires get <= |d| && (|d| > 0 ==> get < |d|) && count + |bytes| <= |d|
    requires var put := After(|d|, get, count); put + |bytes| <= |d| && d' == d[..put] + bytes + d[put + |bytes|..]
    ensures View(d', get, count + |bytes|) == View(d, get, count) + bytes
  {
    hide View;
    var put := After(|d|, get, count);
    forall i | 0 <= i < count + |bytes|
      ensures View(d', get, count + |bytes|)[i] == (View(d, get, count) + bytes)[i]
    {
      ViewAt(d', get, count + |bytes|, i);
      if i < count {
        ViewAt(d, get, count, i);
      } else {
        assert Cell(|d|, get, i) == put + (i - count);
      }
    }
  }

  // The first k bytes of a ring lie in one piece or in two.
  lemma ViewPieces(d: seq<byte>, get: nat, count: nat, k: nat)
    requires get <= |d| && k <= count <= |d|
    ensures View(d, get, count)[..k] == if get + k <= |d| then d[get..get + k] else d[get..] + d[..get + k - |d|]
    ensures get < |d| || |d| == 0 ==> After(|d|, get, k) == if get + k < |d| then get + k else get + k - |d|
  {
  }

  lemma ViewShortened(d: seq<byte>, get: nat, count: nat, n: nat)
    requires get <= |d| && (|d| > 0 ==> get < |d|) && n <= count <= |d|
    ensures View(d, After(|d|, get, n), count - n) == View(d, get, count)[n..]
    ensures After(|d|, After(|d|, get, n), count - n) == After(|d|, get, count)
  {
  }

  lemma Stepped(size: nat, get: nat, count: nat, n: nat)
    requires get <= size && (size > 0 ==> get < size) && count + n <= size && After(size, get, count) + n <= size
    ensures After(size, get, count + n) == if After(size, get, count) + n >= size then 0 else After(size, get, count) + n
  {
  }

  method CopyMemory(dst: array<byte>, at: nat, bytes: seq<byte>)
    requires at + |bytes| <= dst.Length
    modifies dst
    ensures dst[..] == old(dst[..at]) + bytes + old(dst[at + |bytes|..])
    ensures dst[..at] == old(dst[..at]) && dst[..at + |bytes|] == old(dst[..at]) + bytes && dst[at + |bytes|..] == old(dst[at + |bytes|..])
  {
    ghost var d := dst[..];
    var i := 0;
    while i < |bytes|
      invariant i <= |bytes|
      invariant forall j | 0 <= j < dst.Length :: dst[j] == if at <= j < at + i then bytes[j - at] else d[j]
    {
      dst[at + i] := bytes[i];
      i := i + 1;
    }
  }

  class CircularBuffer {
    var data: array<byte>
    var size: nat
    var count: nat
    var getPtr: nat
    var putPtr: nat

    ghost predicate Valid()
      reads this
    {
      && data.Length == size && count <= size && getPtr <= size && (size > 0 ==> getPtr < size)
      && putPtr == After(size, getPtr, count)
    }

    // The bytes in the order in which they came.
    ghost function Contents(): (s: seq<byte>)
      requires Valid()
      reads this, data
      ensures |s| == count
    {
      View(data[..], getPtr, count)
    }

    constructor (size: nat)
      ensures Valid() && fresh(data) && this.size == size && Contents() == []
    {
      this.size := size;
      count, getPtr, putPtr := 0, 0, 0;
      data := new byte[size];
    }

    // Copy bytes to where the put pointer is; they do not reach beyond the end of the array.
    method CopyIn(bytes: seq<byte>)
      requires Valid() && putPtr + |bytes| <= size && count + |bytes| <= size
      modifies `count, `putPtr, data
      ensures Valid() && Contents() == old(Contents()) + bytes
      ensures putPtr == if old(putPtr) + |bytes| >= size then 0 else old(putPtr) + |bytes|
    {
      hide View, After;
      ghost var d := data[..];
      CopyMemory(data, putPtr, bytes);
      ViewExtended(d, data[..], getPtr, count, bytes);
      Stepped(size, getPtr, count, |bytes|);
      putPtr := putPtr + |bytes|;
      count := count + |bytes|;
      if putPtr >= size { putPtr := 0; }
    }

    // Add bytes, and if there is no room for all give up the oldest.
    method AddData(bytes: seq<byte>)
      requires Valid()
      modifies `count, `getPtr, `putPtr, data
      ensures Valid() && Contents() == Last(old(Contents()) + bytes, size)
    {
      hide View, After;
      if |bytes| == 0 { return; }
      var pData := MakeRoom(bytes);
      ghost var c := Contents();
      var spaceToEnd := size - putPtr;
      if spaceToEnd < |pData| {
        CopyIn(pData[..spaceToEnd]);
        assert c + pData == (c + pData[..spaceToEnd]) + pData[spaceToEnd..];
        pData := pData[spaceToEnd..];
      }
      CopyIn(pData);
    }

    // Give up as much as stands in the way of new bytes, or everything and the first of them too.
    method MakeRoom(bytes: seq<byte>) returns (pData: seq<byte>)
      requires Valid() && |bytes| > 0
      modifies `count, `getPtr, `putPtr
      ensures Valid() && count + |pData| <= size && Contents() + pData == Last(old(Contents()) + bytes, size)
    {
      hide View;
      pData := bytes;
      var oversize := |pData| + count - size;
      ghost var c := Contents();
      assert c + bytes == (c + bytes)[..];
      if oversize > 0 {
        assert |bytes| <= size ==> Last(c + bytes, size) == c[oversize..] + bytes;
        assert |bytes| > size ==> Last(c + bytes, size) == [] + bytes[|bytes| - size..];
        // the overrun handlers that are installed do nothing
        if |pData| <= size {
          var n := GetData(null, oversize, false);
        } else {
          pData := pData[|pData| - size..];
          getPtr, putPtr, count := 0, 0, 0;
        }
      }
    }

    // Take bytes out, or with peek only look at them; without a destination they are dropped.  For 0 bytes it says how many
    // there are.
    method GetData(put: array?<byte>, max: nat, peek: bool) returns (n: nat)
      requires Valid() && put != data && (put != null ==> Min(max, count) <= put.Length)
      modifies `count, `getPtr, if put == null then {} else {put}
      ensures Valid() && n == if max == 0 then old(count) else if put == null then 0 else Min(max, old(count))
      ensures Contents() == if peek then old(Contents()) else old(Contents())[Min(max, old(count))..]
      ensures put != null ==>
                var k := Min(max, old(count));
                put[..k] == old(Contents())[..k] && put[k..] == old(put[k..])
    {
      hide View, After;
      n := 0;
      if max == 0 { return count; }
      var temp := getPtr;
      var length := count;
      if length > max { length := max; }
      ghost var d, k := data[..], length;
      ViewPieces(d, getPtr, count, k);
      ViewShortened(d, getPtr, count, k);
      n := CopyFront(put, length);
      var dataToEnd := size - temp;
      if dataToEnd < length {
        length := length - dataToEnd;
        temp := 0;
        if !peek { count := count - dataToEnd; }
      }
      temp := temp + length;
      if temp >= size { temp := 0; }
      if !peek {
        getPtr := temp;
        count := count - length;
      }
    }

    // Copy the first bytes out, in one piece or in two.
    method CopyFront(put: array?<byte>, length: nat) returns (n: nat)
      requires Valid() && put != data && length <= count && (put != null ==> length <= put.Length)
      modifies if put == null then {} else {put}
      ensures n == if put == null then 0 else length
      ensures put != null ==> put[..length] == Contents()[..length] && put[length..] == old(put[length..])
    {
      hide View, After;
      ViewPieces(data[..], getPtr, count, length);
      if put == null { return 0; }
      ghost var front := Contents()[..length];
      var dataToEnd := size - getPtr;
      if dataToEnd < length {
        CopyMemory(put, 0, data[getPtr..]);
        CopyMemory(put, dataToEnd, data[..length - dataToEnd]);
      } else {
        CopyMemory(put, 0, data[getPtr..getPtr + length]);
      }
      n := length;
    }

    // Replace the array of an empty ring.
    method SetBufferLength(newLength: nat)
      requires Valid() && count == 0
      modifies this
      ensures Valid() && fresh(data) && size == newLength && Contents() == []
    {
      var oldLength := count;
      var newData := new byte[newLength];
      var n := GetData(newData, oldLength, false);
      data := newData;
      putPtr := 0;
      getPtr := oldLength;
      count := oldLength;
      size := newLength;
    }
  }
}
