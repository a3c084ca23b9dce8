// CRC-32 by table, and bit by bit.
module Crc32 {
  type word = bv32
  type byte = bv8

  const POLYNOMIAL: word := 0xedb88320

  function Xor(x: word, y: word): word {
    x ^ y
  }

  function Half(x: word): word {
    x >> 1
  }

  predicate Odd(x: word) {
    x & 1 != 0
  }

  // One step of the reflected division.
  function Step(c: word): word {
    if Odd(c) then Xor(POLYNOMIAL, Half(c)) else Half(c)
  }

  function Steps(c: word, n: nat): word
    decreases n
  {
    if n == 0 then c else Steps(Step(c), n - 1)
  }

  // Dividing one bit after the other, the lowest of n first.
  function DivideBits(c: word, bits: word, n: nat): word
    decreases n
  {
    if n == 0 then c else DivideBits(Step(Xor(c, if Odd(bits) then 1 else 0)), Half(bits), n - 1)
  }

  // Dividing a buffer bit by bit.
  function Divide(c: word, buf: seq<byte>): word {
    if buf == [] then c else DivideBits(Divide(c, buf[..|buf| - 1]), buf[|buf| - 1] as word, 8)
  }

  // No more than n bits.
  predicate Fits(bits: word, n: nat)
    decreases n
  {
    if n == 0 then bits == 0 else Fits(Half(bits), n - 1)
  }

  lemma OddXor(x: word, y: word)
    ensures Odd(Xor(x, y)) <==> Odd(x) != Odd(y)
  {
  }

  lemma HalfXor(x: word, y: word)
    ensures Half(Xor(x, y)) == Xor(Half(x), Half(y))
  {
  }

  lemma XorAssociative(x: word, y: word, z: word)
    ensures Xor(Xor(x, y), z) == Xor(x, Xor(y, z))
  {
  }

  lemma XorCommutes(x: word, y: word)
    ensures Xor(x, y) == Xor(y, x)
  {
  }

  lemma XorSelf(x: word, y: word)
    ensures Xor(x, Xor(x, y)) == y && Xor(x, 0) == x
  {
  }

  // The division is linear.
  lemma StepLinear(x: word, y: word)
    ensures Step(Xor(x, y)) == Xor(Step(x), Step(y))
  {
    hide Xor, Half, Odd;
    var p, h, k := POLYNOMIAL, Half(x), Half(y);
    OddXor(x, y);
    HalfXor(x, y);
    XorAssociative(p, h, k);
    XorAssociative(p, h, Xor(p, k));
    XorCommutes(h, Xor(p, k));
    XorAssociative(p, k, h);
    XorCommutes(k, h);
    XorSelf(p, Xor(h, k));
  }

  lemma {:induction false} StepsLinear(x: word, y: word, n: nat)
    ensures Steps(Xor(x, y), n) == Xor(Steps(x, n), Steps(y, n))
    decreases n
  {
    hide Step, Xor;
    if n > 0 {
      StepLinear(x, y);
      StepsLinear(Step(x), Step(y), n - 1);
    }
  }

  // Only the lowest bit decides; the others move down.
  lemma StepOfXor(c: word, b: word)
    ensures Step(Xor(c, b)) == Xor(Step(Xor(c, if Odd(b) then 1 else 0)), Half(b))
  {
    hide Xor, Half, Odd;
    var one: word := if Odd(b) then 1 else 0;
    OneOrZero();
    OddXor(c, b);
    OddXor(c, one);
    HalfXor(c, b);
    HalfXor(c, one);
    XorSelf(Half(c), 0);
    XorAssociative(POLYNOMIAL, Half(c), Half(b));
  }

  lemma OneOrZero()
    ensures Odd(1) && !Odd(0) && Half(1) == 0 && Half(0) == 0
  {
  }

  // It makes no difference whether the bits come in one by one or all at once.
  lemma {:induction false} BitsAtOnce(c: word, bits: word, n: nat)
    requires Fits(bits, n)
    ensures DivideBits(c, bits, n) == Steps(Xor(c, bits), n)
    decreases n
  {
    hide Step, Xor, Half, Odd;
    if n == 0 {
      XorSelf(c, 0);
    } else {
      StepOfXor(c, bits);
      BitsAtOnce(Step(Xor(c, if Odd(bits) then 1 else 0)), Half(bits), n - 1);
    }
  }

  lemma ByteFits(b: byte)
    ensures Fits(b as word, 8)
  {
    var x := b as word;
    assert ((((((((x >> 1) >> 1) >> 1) >> 1) >> 1) >> 1) >> 1) >> 1) == 0;
    assert Fits((((((((x >> 1) >> 1) >> 1) >> 1) >> 1) >> 1) >> 1) >> 1, 0);
    assert Fits(((((((x >> 1) >> 1) >> 1) >> 1) >> 1) >> 1) >> 1, 1);
    assert Fits((((((x >> 1) >> 1) >> 1) >> 1) >> 1) >> 1, 2);
    assert Fits(((((x >> 1) >> 1) >> 1) >> 1) >> 1, 3);
    assert Fits((((x >> 1) >> 1) >> 1) >> 1, 4);
    assert Fits(((x >> 1) >> 1) >> 1, 5);
    assert Fits((x >> 1) >> 1, 6);
    assert Fits(x >> 1, 7);
  }

  // --- The table ---

  // What the table gives for the low byte, and the other bytes moved down.
  function ByTable(c: word, b: byte): word {
    Xor(Steps(Xor(c, b as word) & 0xff, 8), c >> 8)
  }

  // n halvings lead from x to y, and all are even.
  predicate Halved(x: word, n: nat, y: word)
    decreases n
  {
    if n == 0 then x == y else !Odd(x) && Halved(Half(x), n - 1, y)
  }

  lemma {:induction false} ShiftedOut(x: word, y: word, n: nat)
    requires Halved(x, n, y)
    ensures Steps(x, n) == y
    decreases n
  {
    hide Xor, Half, Odd;
    if n > 0 { ShiftedOut(Half(x), y, n - 1); }
  }

  lemma HighBytes(y: word, x: word, top: word)
    requires y == x & 0xffff_ff00 && top == x >> 8
    ensures Halved(y, 8, top)
  {
    hide Half, Odd;
    LowZeros(y, x, top);
    var h4 := Half(Half(Half(Half(y))));
    assert Halved(Half(Half(h4)), 2, top);
    assert Halved(h4, 4, top);
    assert Halved(Half(Half(y)), 6, top);
  }

  lemma LowZeros(y: word, x: word, top: word)
    requires y == x & 0xffff_ff00 && top == x >> 8
    ensures !Odd(y) && !Odd(Half(y)) && !Odd(Half(Half(y))) && !Odd(Half(Half(Half(y))))
    ensures var z := Half(Half(Half(Half(y))));
            !Odd(z) && !Odd(Half(z)) && !Odd(Half(Half(z))) && !Odd(Half(Half(Half(z)))) && Half(Half(Half(Half(z)))) == top
  {
    hide Half, Odd;
    Masked(y, x, y >> 4, top);
    Four(y, y >> 4);
    Four(y >> 4, top);
  }

  lemma Masked(y: word, x: word, z: word, top: word)
    requires y == x & 0xffff_ff00 && z == y >> 4 && top == x >> 8
    ensures y & 15 == 0 && z & 15 == 0 && top == z >> 4
  {
  }

  lemma Four(y: word, z: word)
    requires y & 15 == 0 && z == y >> 4
    ensures Half(Half(Half(Half(y)))) == z
    ensures !Odd(y) && !Odd(Half(y)) && !Odd(Half(Half(y))) && !Odd(Half(Half(Half(y))))
  {
  }

  // Eight steps at once are one look into the table.
  lemma TableStep(c: word, b: byte)
    ensures ByTable(c, b) == DivideBits(c, b as word, 8)
  {
    hide Steps, Fits, DivideBits, Xor;
    var x := Xor(c, b as word);
    ByteFits(b);
    BitsAtOnce(c, b as word, 8);
    HighBytes(x & 0xffff_ff00, x, x >> 8);
    ShiftedOut(x & 0xffff_ff00, x >> 8, 8);
    Split(x);
    StepsLinear(x & 0xff, x & 0xffff_ff00, 8);
    SameHighBytes(c, b);
  }

  lemma Split(x: word)
    ensures x == Xor(x & 0xff, x & 0xffff_ff00)
  {
  }

  lemma SameHighBytes(c: word, b: byte)
    ensures Xor(c, b as word) >> 8 == c >> 8
  {
  }

  // Dividing two buffers one after the other is dividing both together.
  lemma {:induction false} DivideConcat(c: word, a: seq<byte>, b: seq<byte>)
    ensures Divide(c, a + b) == Divide(Divide(c, a), b)
    decreases |b|
  {
    hide DivideBits;
    if b == [] {
      assert a + b == a;
    } else {
      var k := |b| - 1;
      assert (a + b)[..|a + b| - 1] == a + b[..k];
      DivideConcat(c, a, b[..k]);
    }
  }

  // --- What a check sum is for ---

  // A step loses nothing, because the highest coefficient of the polynomial is 1.
  lemma StepOfNonZero(z: word)
    ensures Step(z) == 0 ==> z == 0
  {
  }

  lemma {:induction false} StepsInjective(x: word, y: word, n: nat)
    requires Steps(x, n) == Steps(y, n)
    ensures x == y
    decreases n
  {
    hide Step, Xor;
    if n > 0 {
      StepsInjective(Step(x), Step(y), n - 1);
      StepLinear(x, y);
      XorZero(Step(x), Step(y));
      StepOfNonZero(Xor(x, y));
      XorZero(x, y);
    }
  }

  lemma XorZero(x: word, y: word)
    ensures Xor(x, y) == 0 <==> x == y
  {
  }

  lemma ByteDivided(c: word, b: byte)
    ensures DivideBits(c, b as word, 8) == Steps(Xor(c, b as word), 8)
  {
    hide Steps, Fits, DivideBits, Xor;
    ByteFits(b);
    BitsAtOnce(c, b as word, 8);
  }

  // The same bytes keep different remainders different.
  lemma {:induction false} DivideInjective(c: word, d: word, buf: seq<byte>)
    requires Divide(c, buf) == Divide(d, buf)
    ensures c == d
    decreases |buf|
  {
    hide Steps, DivideBits, Xor;
    if buf != [] {
      var k := |buf| - 1;
      var x, y, b := Divide(c, buf[..k]), Divide(d, buf[..k]), buf[k];
      ByteDivided(x, b);
      ByteDivided(y, b);
      StepsInjective(Xor(x, b as word), Xor(y, b as word), 8);
      XorSame(x, y, b as word);
      DivideInjective(c, d, buf[..k]);
    }
  }

  lemma XorSame(x: word, y: word, b: word)
    ensures Xor(x, b) == Xor(y, b) ==> x == y
  {
  }

  // Only what is shifted out whole leaves something short behind.
  lemma ShortRemainder(z: word, b: word)
    requires Steps(z, 8) == b && b & 0xff00_0000 == 0
    ensures z == b << 8
  {
    hide Steps, Halved, Xor;
    var y := b << 8;
    ShiftedUp(b, y);
    HighBytes(y, y, b);
    ShiftedOut(y, b, 8);
    StepsInjective(z, y, 8);
  }

  lemma ShiftedUp(b: word, y: word)
    requires b & 0xff00_0000 == 0 && y == b << 8
    ensures y == y & 0xffff_ff00 && b == y >> 8
  {
  }

  // The difference of two remainders after one more byte.
  lemma Difference(c: word, d: word, p: byte, q: byte)
    ensures Xor(DivideBits(c, p as word, 8), DivideBits(d, q as word, 8)) == Steps(Xor(Xor(c, d), Xor(p as word, q as word)), 8)
  {
    hide Steps, DivideBits, Xor;
    ByteDivided(c, p);
    ByteDivided(d, q);
    StepsLinear(Xor(c, p as word), Xor(d, q as word), 8);
    XorPairs(c, p as word, d, q as word);
  }

  lemma XorPairs(a: word, b: word, c: word, d: word)
    ensures Xor(Xor(a, b), Xor(c, d)) == Xor(Xor(a, c), Xor(b, d))
  {
    hide Xor;
    XorAssociative(a, b, Xor(c, d));
    XorAssociative(b, c, d);
    XorCommutes(b, c);
    XorAssociative(c, b, d);
    XorAssociative(a, c, Xor(b, d));
  }

  // The difference that becomes e with two more bytes, when nothing is shifted out of e.
  function Earlier(e: word, p: byte, q: byte): word {
    (e << 8) ^ (p as word ^ q as word)
  }

  predicate IsByte(e: word) {
    e & 0xffff_ff00 == 0
  }

  // What the difference must have been one byte before.
  lemma DifferenceBefore(c: word, d: word, p: byte, q: byte, e: word, before: word)
    requires e == Xor(DivideBits(c, p as word, 8), DivideBits(d, q as word, 8)) && e & 0xff00_0000 == 0
    requires before == Xor(c, d)
    ensures before == Earlier(e, p, q)
  {
    hide Steps, DivideBits;
    Difference(c, d, p, q);
    ShortRemainder(Xor(before, Xor(p as word, q as word)), e);
  }

  // Four bytes leave the same remainder only if they are the same.
  lemma FourBytes(c: word, x: seq<byte>, y: seq<byte>)
    requires |x| == |y| == 4 && Divide(c, x) == Divide(c, y)
    ensures x == y
  {
    hide DivideBits, Divide, Xor, Earlier, IsByte;
    var x1, x2, x3 := Fourfold(c, x);
    var y1, y2, y3 := Fourfold(c, y);
    var e3, e2 := LastTwo(x2, x3, x[2], x[3], y2, y3, y[2], y[3]);
    AllFour(c, x1, x2, x[0], x[1], x[2], x[3], y1, y2, y[0], y[1], y[2], y[3], e3, e2);
    Elementwise(x, y);
  }

  lemma Elementwise(x: seq<byte>, y: seq<byte>)
    requires |x| == |y| == 4 && x[0] == y[0] && x[1] == y[1] && x[2] == y[2] && x[3] == y[3]
    ensures x == y
  {
  }

  lemma AllFour(c: word, x1: word, x2: word, p0: byte, p1: byte, p2: byte, p3: byte,
                y1: word, y2: word, q0: byte, q1: byte, q2: byte, q3: byte, e3: word, e2: word)
    requires x1 == DivideBits(c, p0 as word, 8) && y1 == DivideBits(c, q0 as word, 8)
    requires x2 == DivideBits(x1, p1 as word, 8) && y2 == DivideBits(y1, q1 as word, 8)
    requires e2 == Xor(x2, y2) && e3 == Earlier(0, p3, q3)
    requires IsByte(e3) && e2 == Earlier(e3, p2, q2)
    ensures p0 == q0 && p1 == q1 && p2 == q2 && p3 == q3
  {
    hide DivideBits, Xor;
    Short2(p2, q2, e3, e2);
    FirstTwo(c, x1, x2, p0, p1, y1, y2, q0, q1, e2);
    Short3(p3, q3, e3);
  }

  lemma Fourfold(c: word, x: seq<byte>) returns (x1: word, x2: word, x3: word)
    requires |x| == 4
    ensures x1 == DivideBits(c, x[0] as word, 8) && x2 == DivideBits(x1, x[1] as word, 8)
    ensures x3 == DivideBits(x2, x[2] as word, 8) && Divide(c, x) == DivideBits(x3, x[3] as word, 8)
  {
    hide DivideBits, Divide;
    x1, x2, x3 := Divide(c, x[..1]), Divide(c, x[..2]), Divide(c, x[..3]);
    NothingDivided(c);
    DividedOnce(c, x, 0);
    DividedOnce(c, x, 1);
    DividedOnce(c, x, 2);
    DividedOnce(c, x, 3);
    assert x[..0] == [] && x[..4] == x;
  }

  lemma NothingDivided(c: word)
    ensures Divide(c, []) == c
  {
  }

  lemma DividedOnce(c: word, x: seq<byte>, n: nat)
    requires n < |x|
    ensures Divide(c, x[..n + 1]) == DivideBits(Divide(c, x[..n]), x[n] as word, 8)
  {
    hide DivideBits;
    assert x[..n + 1][..n] == x[..n];
  }

  lemma LastTwo(x2: word, x3: word, p2: byte, p3: byte, y2: word, y3: word, q2: byte, q3: byte) returns (e3: word, e2: word)
    requires x3 == DivideBits(x2, p2 as word, 8) && y3 == DivideBits(y2, q2 as word, 8)
    requires DivideBits(x3, p3 as word, 8) == DivideBits(y3, q3 as word, 8)
    ensures e2 == Xor(x2, y2) && e3 == Earlier(0, p3, q3)
    ensures IsByte(e3) && e2 == Earlier(e3, p2, q2)
  {
    hide DivideBits, Xor;
    e3, e2 := Xor(x3, y3), Xor(x2, y2);
    XorZero(DivideBits(x3, p3 as word, 8), DivideBits(y3, q3 as word, 8));
    NoBits();
    DifferenceBefore(x3, y3, p3, q3, 0, e3);
    Short3(p3, q3, e3);
    DifferenceBefore(x2, y2, p2, q2, e3, e2);
  }

  lemma FirstTwo(c: word, x1: word, x2: word, p0: byte, p1: byte, y1: word, y2: word, q0: byte, q1: byte, e2: word)
    requires x1 == DivideBits(c, p0 as word, 8) && y1 == DivideBits(c, q0 as word, 8)
    requires x2 == DivideBits(x1, p1 as word, 8) && y2 == DivideBits(y1, q1 as word, 8)
    requires e2 == Xor(x2, y2) && e2 & 0xffff_0000 == 0 && e2 & 0xff00_0000 == 0
    ensures p0 == q0 && p1 == q1 && e2 == 0
  {
    hide DivideBits, Xor;
    var e1 := Xor(x1, y1);
    DifferenceBefore(x1, y1, p1, q1, e2, e1);
    Short1(p1, q1, e2, e1);
    XorZero(c, c);
    DifferenceBefore(c, c, p0, q0, e1, 0);
    Short0(p0, q0, e1);
  }

  lemma Short3(p: byte, q: byte, e: word)
    requires e == Earlier(0, p, q)
    ensures e & 0xff00_0000 == 0 && IsByte(e) && (e == 0 ==> p == q)
  {
  }

  lemma Short2(p: byte, q: byte, e: word, before: word)
    requires before == Earlier(e, p, q) && IsByte(e)
    ensures before & 0xff00_0000 == 0 && before & 0xffff_0000 == 0 && (before == 0 ==> p == q && e == 0)
  {
  }

  lemma Short1(p: byte, q: byte, e: word, before: word)
    requires before == Earlier(e, p, q) && e & 0xffff_0000 == 0
    ensures before & 0xff00_0000 == 0 && (before == 0 ==> p == q && e == 0)
  {
  }

  lemma Short0(p: byte, q: byte, e: word)
    requires 0 == Earlier(e, p, q) && e & 0xff00_0000 == 0
    ensures p == q && e == 0
  {
  }

  lemma NoBits()
    ensures 0 as word & 0xff00_0000 == 0
  {
  }

  // Any damage that stays within four bytes is found.
  lemma DamageFound(c: word, a: seq<byte>, x: seq<byte>, y: seq<byte>, b: seq<byte>)
    requires |x| == |y| == 4 && x != y
    ensures Divide(c, a + x + b) != Divide(c, a + y + b)
  {
    hide Divide;
    DivideConcat(c, a + x, b);
    DivideConcat(c, a + y, b);
    DivideConcat(c, a, x);
    DivideConcat(c, a, y);
    if Divide(c, a + x + b) == Divide(c, a + y + b) {
      DivideInjective(Divide(c, a + x), Divide(c, a + y), b);
      FourBytes(Divide(c, a), x, y);
    }
  }

  class Crc {
    const crcTable: array<word>
    var computed: bool

    ghost predicate Valid()
      reads this, crcTable
    {
      crcTable.Length == 256 && (computed ==> forall n: nat | n < 256 :: crcTable[n] == Entry(n as byte))
    }

    constructor ()
      ensures Valid() && fresh(crcTable) && !computed
    {
      crcTable := new word[256];
      computed := false;
    }

    method MakeCrcTable()
      requires Valid()
      modifies `computed, crcTable
      ensures Valid() && computed
    {
      hide Step, Xor, Half, Odd;
      for n := 0 to 256
        invariant forall m: nat | m < n :: crcTable[m] == Entry(m as byte)
      {
        crcTable[n] := MakeEntry(n as byte);
      }
      computed := true;
    }

    static method MakeEntry(n: byte) returns (c: word)
      ensures c == Entry(n)
    {
      hide Step;
      c := n as word;
      for k := 0 to 8
        invariant Steps(c, 8 - k) == Entry(n)
      {
        c := StepOnce(c);
      }
    }

    static method StepOnce(c: word) returns (r: word)
      ensures r == Step(c)
    {
      if c & 1 != 0 { r := 0xedb88320 ^ (c >> 1); } else { r := c >> 1; }
    }

    // The table is made at the first use.
    method UpdateCrc(crc: word, buf: seq<byte>) returns (c: word)
      requires Valid()
      modifies `computed, crcTable
      ensures Valid() && computed && c == Divide(crc, buf)
    {
      hide Steps, DivideBits, ByTable;
      c := crc;
      if !computed { MakeCrcTable(); }
      for n := 0 to |buf|
        invariant Valid() && computed && c == Divide(crc, buf[..n])
      {
        ghost var was := c;
        c := LookUp(c, buf[n]);
        TableStep(was, buf[n]);
        assert buf[..n + 1][..n] == buf[..n];
      }
      assert buf[..|buf|] == buf;
    }

    method LookUp(c: word, b: byte) returns (r: word)
      requires Valid() && computed
      ensures r == ByTable(c, b)
    {
      hide Xor, Steps;
      var i := (Xor(c, b as word) & 0xff) as byte;
      LowByte(Xor(c, b as word));
      SameIndex(i);
      r := Xor(crcTable[i as nat], c >> 8);
    }

    method CRC(buf: seq<byte>) returns (c: word)
      requires Valid()
      modifies `computed, crcTable
      ensures Valid() && computed && c == Divide(0xffff_ffff, buf) ^ 0xffff_ffff
    {
      c := UpdateCrc(0xffff_ffff, buf);
      c := c ^ 0xffff_ffff;
    }
  }

  // Entry n of the table.
  function Entry(n: byte): word {
    Steps(n as word, 8)
  }

  lemma SameIndex(n: byte)
    ensures (n as nat) as byte == n
  {
  }

  lemma LowByte(x: word)
    ensures ((x & 0xff) as byte) as word == x & 0xff
  {
  }

  // --- The check value ---

  lemma NextByte(buf: seq<byte>, b: byte, c: word, d: word)
    requires Divide(0xffff_ffff, buf) == c && DivideBits(c, b as word, 8) == d
    ensures Divide(0xffff_ffff, buf + [b]) == d
  {
    hide DivideBits;
    assert (buf + [b])[..|buf|] == buf;
  }

  // The remainders that the digits 1 to 9 lead through.
  lemma DigitSteps()
    ensures DivideBits(0xffff_ffff, 0x31, 8) == 0x7c23_1048
    ensures DivideBits(0x7c23_1048, 0x32, 8) == 0xb0ac_bb32
    ensures DivideBits(0xb0ac_bb32, 0x33, 8) == 0x77b7_9c2d
    ensures DivideBits(0x77b7_9c2d, 0x34, 8) == 0x641c_1f5c
    ensures DivideBits(0x641c_1f5c, 0x35, 8) == 0x340a_c5e3
    ensures DivideBits(0x340a_c5e3, 0x36, 8) == 0xf68d_2c9e
    ensures DivideBits(0xf68d_2c9e, 0x37, 8) == 0xaffc_9660
    ensures DivideBits(0xaffc_9660, 0x38, 8) == 0x651f_2550
    ensures DivideBits(0x651f_2550, 0x39, 8) == 0x340b_c6d9
  {
  }

  // The check sum of "123456789" is the one that identifies CRC-32.
  lemma CheckValue()
    ensures Divide(0xffff_ffff, [0x31, 0x32, 0x33, 0x34, 0x35, 0x36, 0x37, 0x38, 0x39]) ^ 0xffff_ffff == 0xcbf4_3926
  {
    hide Divide, DivideBits;
    DigitSteps();
    NoBytes();
    var b0: seq<byte> := [];
    var b1 := b0 + [0x31];
    NextByte(b0, 0x31, 0xffff_ffff, 0x7c23_1048);
    var b2 := b1 + [0x32];
    NextByte(b1, 0x32, 0x7c23_1048, 0xb0ac_bb32);
    var b3 := b2 + [0x33];
    NextByte(b2, 0x33, 0xb0ac_bb32, 0x77b7_9c2d);
    var b4 := b3 + [0x34];
    NextByte(b3, 0x34, 0x77b7_9c2d, 0x641c_1f5c);
    var b5 := b4 + [0x35];
    NextByte(b4, 0x35, 0x641c_1f5c, 0x340a_c5e3);
    var b6 := b5 + [0x36];
    NextByte(b5, 0x36, 0x340a_c5e3, 0xf68d_2c9e);
    var b7 := b6 + [0x37];
    NextByte(b6, 0x37, 0xf68d_2c9e, 0xaffc_9660);
    var b8 := b7 + [0x38];
    NextByte(b7, 0x38, 0xaffc_9660, 0x651f_2550);
    var b9 := b8 + [0x39];
    NextByte(b8, 0x39, 0x651f_2550, 0x340b_c6d9);
    assert b9 == [0x31, 0x32, 0x33, 0x34, 0x35, 0x36, 0x37, 0x38, 0x39];
  }

  lemma NoBytes()
    ensures Divide(0xffff_ffff, []) == 0xffff_ffff
  {
  }
}
