module TreeShape {
  import opened NodePool

  ghost function Just(n: Node?): set<Node>
  {
    if n == null then {} else {n}
  }

  ghost function Cnt(n: Node?): int
    reads Just(n)`count
  {
    if n == null then 0 else n.count
  }

  // Local well-formedness of one node: its neighbours are in the tree and point back, smaller hashes hang
  // on l, greater ones on a, and the = chain on e carries the same hash and no branches of its own.
  ghost predicate Linked(n: Node, S: set<Node>)
    requires n in S
    reads S`p, S`a, S`e, S`l, S`hash, S`lo, S`hi
  {
    && n.lo < n.hash < n.hi
    && (n.l != null ==> n.l in S && n.l.p == n && n.lo <= n.l.lo && n.l.hi <= n.hash)
    && (n.e != null ==> n.e in S && n.e.p == n && n.e.hash == n.hash && n.e.l == null && n.e.a == null)
    && (n.a != null ==> n.a in S && n.a.p == n && n.hash <= n.a.lo && n.a.hi <= n.hi)
    && (n.p != null ==> n.p in S && (n.p.l == n || n.p.e == n || n.p.a == n))
  }

  ghost predicate Closed(S: set<Node>)
    reads S`l, S`e, S`a
  {
    forall n | n in S :: (n.l != null ==> n.l in S) && (n.e != null ==> n.e in S) && (n.a != null ==> n.a in S)
  }

  ghost predicate Shape(S: set<Node>, top: Node?)
    reads S`p, S`a, S`e, S`l, S`hash, S`lo, S`hi
    ensures Shape(S, top) ==> Closed(S) && (S != {} ==> top != null)
  {
    && (top == null ==> S == {})
    && (top != null ==> top in S && top.p == null)
    && (forall n | n in S :: Linked(n, S))
    && (forall n | n in S && n.p == null :: n == top)
  }

  // Every count is one plus the counts below, except that the count of "off" is one more than that.
  ghost predicate Counted(S: set<Node>, off: Node?)
    requires Closed(S)
    reads S`l, S`e, S`a, S`count
  {
    && (forall n | n in S :: n.count >= 1)
    && (forall n | n in S :: n.count == 1 + Below(n) + (if n == off then 1 else 0))
  }

  ghost function Below(n: Node): int
    reads n`l, n`e, n`a, Just(n.l)`count, Just(n.e)`count, Just(n.a)`count
  {
    Cnt(n.l) + Cnt(n.e) + Cnt(n.a)
  }

  ghost predicate Main(n: Node)
    reads n`p, Just(n.p)`e
  {
    n.p != null ==> n.p.e != n
  }

  twostate predicate SameData(S: set<Node>)
    reads S`hash, S`obj
  {
    forall n | n in S :: n.hash == old(n.hash) && n.obj == old(n.obj)
  }

  // One rotation: y, the child of x on the chosen side, takes the place of x.
  datatype Turn = Turn(left: bool, x: Node, y: Node, S: set<Node>, top: Node)
  {
    ghost predicate Ready()
      reads S, x, y, x.p
    {
      && x in S && y in S && Shape(S, top) && Main(x)
      && y == (if left then x.l else x.a)
      && x != y && x != x.p && y != x.p
    }

    ghost predicate Clear(c: Node?) {
      c != x && c != y && (c != null ==> c in S)
    }

    // The nodes whose fields a rotation writes are all different.
    ghost predicate Apart()
      reads S, x, y
    {
      var m := if left then y.a else y.l;
      && x in S && y in S && y == (if left then x.l else x.a)
      && x != y && x != x.p && y != x.p
      && (m != null ==> m in S && m != x && m != y && m != x.p)
      && (x.p != null ==> x.p in S)
      && Clear(x.e) && Clear(if left then x.a else x.l) && Clear(y.e) && Clear(if left then y.l else y.a)
    }

    // The new value of every field, in terms of the old ones.
    twostate predicate Done()
      reads S, x, y
    {
      var q := old(x.p);
      && SameData(S)
      && (forall n | n in S :: n.e == old(n.e))
      && (forall n | n in S && n != x && n != y :: n.lo == old(n.lo) && n.hi == old(n.hi) && n.count == old(n.count))
      && (forall n | n in S && n != x && n != y && n != q :: n.l == old(n.l) && n.a == old(n.a))
      && (q != null && q in S ==>
            q.l == (if old(q.l) == x then y else old(q.l)) && q.a == (if old(q.a) == x then y else old(q.a)))
      && (if left then
            x.l == old(y.a) && y.a == x && x.a == old(x.a) && y.l == old(y.l) && x.lo == y.hash && x.hi == old(x.hi)
          else
            x.a == old(y.l) && y.l == x && x.l == old(x.l) && y.a == old(y.a) && x.hi == y.hash && x.lo == old(x.lo))
      && x.p == y && y.p == q && y.lo == old(x.lo) && y.hi == old(x.hi)
      && (forall n | n in S && n != x && n != y :: n.p == (if n == old(if left then y.a else y.l) then x else old(n.p)))
    }

    lemma PrepareTurn(off: Node?)
      requires Shape(S, top) && Counted(S, off) && x in S && Main(x)
      requires y == (if left then x.l else x.a)
      ensures Ready() && Apart()
    {
      assert Linked(x, S);
      CountsGrow(S, top, off, x);
      CountsGrow(S, top, off, y);
      assert Linked(y, S);
      var m := if left then y.a else y.l;
      if m != null {
        assert Linked(m, S);
        CountsGrow(S, top, off, m);
      }
    }

    twostate lemma AtX()
      requires old(Ready()) && Done()
      ensures Linked(x, S)
    {
      assert old(Linked(x, S) && Linked(y, S));
    }

    twostate lemma AtY()
      requires old(Ready()) && Done()
      ensures Linked(y, S)
    {
      assert old(Linked(x, S) && Linked(y, S));
    }

    twostate lemma AtParent()
      requires old(Ready()) && Done()
      ensures old(x.p) != null ==> Linked(old(x.p), S)
    {
      assert old(Linked(x, S) && Linked(y, S) && (x.p != null ==> Linked(x.p, S)));
    }

    twostate lemma Elsewhere(n: Node)
      requires old(Ready()) && Done()
      requires n in S && n != x && n != y && n != old(x.p)
      ensures Linked(n, S)
    {
      assert old(Linked(x, S) && Linked(y, S) && Linked(n, S));
      if left { } else { }
    }

    // After the surgery, the slots of x hold neither node and those of y hold no y.
    ghost predicate Cleared()
      reads x, y
    {
      && x in S && y in S && Clear(x.l) && Clear(x.e) && Clear(x.a)
      && y.l != y && y.e != y && y.a != y
    }

    twostate predicate Recounted()
      reads S, x, y, x.l, x.e, x.a, y.l, y.e, y.a
    {
      && x.count == 1 + Cnt(x.l) + Cnt(x.e) + Cnt(x.a)
      && y.count == 1 + Cnt(y.l) + Cnt(y.e) + Cnt(y.a)
    }

    twostate lemma CountsHere(off: Node?)
      requires old(Shape(S, top) && Apart()) && Done() && Recounted() && off != x && off != y
      requires old(Counted(S, off))
      ensures y.count == old(x.count) && 1 <= x.count < old(x.count)
    {
      hide Shape, Linked;
    }

    twostate lemma CountsElsewhere(tn: (Node, Node?))
      requires old(Ready()) && Done() && old(Counted(S, tn.1)) && tn.0 in S && tn.0 != x && tn.0 != y
      requires y.count == old(x.count)
      ensures Cnt(tn.0.l) == old(Cnt(tn.0.l)) && Cnt(tn.0.e) == old(Cnt(tn.0.e)) && Cnt(tn.0.a) == old(Cnt(tn.0.a))
    {
      assert old(Linked(x, S) && Linked(y, S) && Linked(tn.0, S));
    }

    twostate lemma KeepsCounts(off: Node?)
      requires old(Ready() && Apart()) && Done() && Recounted() && off != x && off != y
      requires old(Counted(S, off)) && Shape(S, if x == top then y else top)
      ensures y.count == old(x.count) && x.count < old(x.count)
      ensures Counted(S, off)
    {
      CountsHere(off);
      forall n | n in S
        ensures n.count >= 1 && n.count == 1 + Below(n) + (if n == off then 1 else 0)
      {
        hide Shape, Linked;
        if n != x && n != y { CountsElsewhere((n, off)); }
      }
    }

    twostate lemma KeepsShape()
      requires old(Ready()) && Done()
      ensures Shape(S, if x == top then y else top) && Main(y)
    {
      assert old(Linked(x, S) && Linked(y, S));
      forall n | n in S
        ensures Linked(n, S)
      {
        if n == x {
          AtX();
        } else if n == y {
          AtY();
        } else if n == old(x.p) {
          AtParent();
        } else {
          Elsewhere(n);
        }
      }
    }
  }

  // Counts grow strictly towards the root, so no node is its own grandparent.
  lemma CountsGrow(S: set<Node>, top: Node?, off: Node?, n: Node)
    requires Shape(S, top) && Counted(S, off) && n in S
    ensures n.p != null ==> n.p in S && n.count < n.p.count
  {
    assert Linked(n, S);
    if n.p != null {
      assert Linked(n.p, S);
      assert n.p.count >= 1 + Cnt(n.p.l) + Cnt(n.p.e) + Cnt(n.p.a);
    }
  }

  // The nodes with a greater count than n: what a climb from n has still ahead of it.
  ghost function Above(n: Node, S: set<Node>): set<Node>
    reads S`count, n`count
  {
    set m | m in S && m.count > n.count
  }

  lemma {:induction false} TopCount(n: Node, S: set<Node>, top: Node, off: Node?)
    requires Shape(S, top) && Counted(S, off) && n in S
    ensures n == top || n.count < top.count
    decreases Above(n, S)
  {
    CountsGrow(S, top, off, n);
    if n.p != null {
      assert n.p in Above(n, S);
      TopCount(n.p, S, top, off);
    }
  }

  // The pointer surgery of a rotation: the branch m between the two nodes changes hands.
  method Relink(proot: Node, balance: int, ghost y: Node?, ghost m: Node?)
    returns (pbbt: Node)
    requires y != null && y == (if balance < 0 then proot.l else proot.a) && m == (if balance < 0 then y.a else y.l)
    requires y != proot && proot.p != proot && proot.p != y && m != proot && m != y && (m != null ==> m != proot.p)
    modifies proot`p, proot`l, proot`a, proot`lo, proot`hi
    modifies Just(y)`p, Just(y)`l, Just(y)`a, Just(y)`lo, Just(y)`hi, Just(m)`p, Just(proot.p)`l, Just(proot.p)`a
    ensures pbbt == y && proot.p == y && y.p == old(proot.p)
    ensures y.lo == old(proot.lo) && y.hi == old(proot.hi)
    ensures if balance < 0 then
              proot.l == m && y.a == proot && proot.a == old(proot.a) && y.l == old(y.l) && proot.lo == y.hash && proot.hi == old(proot.hi)
            else
              proot.a == m && y.l == proot && proot.l == old(proot.l) && y.a == old(y.a) && proot.hi == y.hash && proot.lo == old(proot.lo)
    ensures m != null ==> m.p == proot
    ensures y.p != null ==>
              && y.p.l == (if old(proot.p.l) == proot then y else old(proot.p.l))
              && y.p.a == (if old(proot.p.a) == proot then y else old(proot.p.a))
  {
    if balance < 0 {
      pbbt := proot.l;
      proot.l := pbbt.a;
      if proot.l != null { proot.l.p := proot; }
      pbbt.p := proot.p;
      proot.p := pbbt;
      pbbt.a := proot;
      pbbt.lo, pbbt.hi, proot.lo := proot.lo, proot.hi, pbbt.hash;
    } else {
      pbbt := proot.a;
      proot.a := pbbt.l;
      if proot.a != null { proot.a.p := proot; }
      pbbt.p := proot.p;
      proot.p := pbbt;
      pbbt.l := proot;
      pbbt.lo, pbbt.hi, proot.hi := proot.lo, proot.hi, pbbt.hash;
    }
    if pbbt.p != null {
      if pbbt.p.a == proot { pbbt.p.a := pbbt; }
      if pbbt.p.l == proot { pbbt.p.l := pbbt; }
    }
  }

  method Recount(n: Node)
    modifies n`count
    ensures n.count == 1 + old(Cnt(n.l) + Cnt(n.e) + Cnt(n.a))
  {
    var c := 1;
    if n.e != null { c := c + n.e.count; }
    if n.a != null { c := c + n.a.count; }
    if n.l != null { c := c + n.l.count; }
    n.count := c;
  }

  method TurnLinks(proot: Node, balance: int, ghost t: Turn)
    returns (pbbt: Node)
    requires t.Apart() && t.x == proot && t.left == (balance < 0)
    modifies t.S`p, t.S`a, t.S`l, t.S`lo, t.S`hi
    ensures pbbt == t.y && t.Done() && t.Cleared()
  {
    pbbt := Relink(proot, balance, t.y, if t.left then t.y.a else t.y.l);
  }

  method Turning(proot: Node, balance: int, ghost t: Turn)
    returns (pbbt: Node)
    requires t.Apart() && t.x == proot && t.left == (balance < 0)
    modifies t.S`p, t.S`a, t.S`l, t.S`lo, t.S`hi, t.S`count
    ensures pbbt == t.y && t.Done() && t.Recounted()
  {
    pbbt := TurnLinks(proot, balance, t);
    Recount(proot);
    Recount(pbbt);
  }

  method Rotation(proot: Node, balance: int, ghost S: set<Node>, ghost top: Node, ghost off: Node?)
    returns (pbbt: Node)
    requires Shape(S, top) && Counted(S, off)
    requires proot in S && Main(proot)
    requires if balance < 0 then proot.l != null else proot.a != null
    requires off != proot && off != (if balance < 0 then proot.l else proot.a)
    modifies S`p, S`a, S`l, S`lo, S`hi, S`count
    ensures pbbt == old(if balance < 0 then proot.l else proot.a) && pbbt in S
    ensures Turn(balance < 0, proot, pbbt, S, top).Done()
    ensures Shape(S, if proot == top then pbbt else top) && Counted(S, off) && Main(pbbt)
    ensures pbbt.count == old(proot.count) && proot.count < old(proot.count)
  {
    ghost var t := Turn(balance < 0, proot, if balance < 0 then proot.l else proot.a, S, top);
    t.PrepareTurn(off);
    pbbt := Turning(proot, balance, t);
    t.KeepsShape();
    t.KeepsCounts(off);
  }

  method CheckBalance(proot: Node, ghost S: set<Node>, ghost top: Node, ghost off: Node?) returns (r: Node)
    requires Shape(S, top) && Counted(S, off) && proot in S && Main(proot) && off == proot.p
    modifies S`p, S`a, S`l, S`lo, S`hi, S`count
    ensures r in S && Main(r) && r.p == old(proot.p) && r.lo == old(proot.lo) && r.hi == old(proot.hi)
    ensures r.count == old(proot.count)
    ensures r == old(var d := Cnt(proot.a) - Cnt(proot.l);
                     if -1 <= d <= 1 then proot else if d < 0 then proot.l else proot.a)
    ensures Shape(S, if proot == top then r else top) && Counted(S, off)
  {
    var balance := 0;
    if proot.a != null { balance := proot.a.count; }
    if proot.l != null { balance := balance - proot.l.count; }
    assert Linked(proot, S);
    if balance == 0 || balance == -1 || balance == 1 { return proot; }
    CountsGrow(S, top, off, proot);
    CountsGrow(S, top, off, if balance < 0 then proot.l else proot.a);
    r := Rotation(proot, balance, S, top, off);
  }

  // How many of the three slots of m hold n.
  ghost function Slots(m: Node, n: Node): int
    reads m`l, m`e, m`a
  {
    (if m.l == n then 1 else 0) + (if m.e == n then 1 else 0) + (if m.a == n then 1 else 0)
  }

  ghost predicate InPlace(n: Node, S: set<Node>)
    reads n`p, S`l, S`e, S`a
  {
    forall m | m in S :: Slots(m, n) == if m == n.p then 1 else 0
  }

  lemma OneSlot(n: Node, S: set<Node>, top: Node?)
    requires Shape(S, top) && n in S
    ensures InPlace(n, S)
  {
    forall m | m in S
      ensures Slots(m, n) == if m == n.p then 1 else 0
    {
      assert Linked(n, S) && Linked(m, S);
    }
  }

  // One count moves by one: the excess moves to the node itself, or on to its parent.
  datatype Shift = Shift(n: Node, up: bool)
  {
    twostate predicate Done(m: Node)
      reads n, m, m.l, m.e, m.a
    {
      && m.l == old(m.l) && m.e == old(m.e) && m.a == old(m.a)
      && n.count == old(n.count) + (if up then 1 else -1)
      && (m.l != null && m.l != n ==> m.l.count == old(m.l.count))
      && (m.e != null && m.e != n ==> m.e.count == old(m.e.count))
      && (m.a != null && m.a != n ==> m.a.count == old(m.a.count))
    }

    twostate lemma At(m: Node)
      requires Done(m)
      ensures Below(m) == old(Below(m)) + (if up then Slots(m, n) else -Slots(m, n))
    {
    }
  }

  method Bump(n: Node, ghost S: set<Node>)
    requires Closed(S) && InPlace(n, S) && Counted(S, n.p) && n in S
    modifies n`count
    ensures Counted(S, n) && n.count == old(n.count) + 1
  {
    n.count := n.count + 1;
    forall m | m in S { Shift(n, true).At(m); }
  }

  method Drop(n: Node, ghost S: set<Node>)
    requires Closed(S) && InPlace(n, S) && Counted(S, n) && n in S
    modifies n`count
    ensures Counted(S, n.p) && n.count == old(n.count) - 1
  {
    n.count := n.count - 1;
    forall m | m in S { Shift(n, false).At(m); }
  }

  // A new node z is hung under cur: at the head of its = chain, or on an empty side.
  datatype Graft = Graft(cur: Node, z: Node, side: int, S: set<Node>, top: Node)
  {
    ghost predicate Ready()
      reads S, cur, z, cur.e, cur.p
    {
      && Shape(S, top) && cur in S && z !in S && Main(cur)
      && z.lo < z.hash < z.hi && z.l == null && z.a == null && z.e == null
      && (side == 0 ==> z.hash == cur.hash)
      && (side < 0 ==> cur.l == null && cur.lo <= z.lo && z.hi <= cur.hash)
      && (side > 0 ==> cur.a == null && cur.hash <= z.lo && z.hi <= cur.hi)
    }

    twostate predicate Done()
      reads S, cur, z
    {
      var c := old(cur.e);
      && SameData(S + {z})
      && (forall n | n in S + {z} :: n.lo == old(n.lo) && n.hi == old(n.hi))
      && (forall n | n in S && n != cur :: n.l == old(n.l) && n.a == old(n.a) && n.e == old(n.e))
      && (forall n | n in S :: n.p == (if side == 0 && n == c then z else old(n.p)))
      && (forall n | n in S :: n.count == old(n.count))
      && z.p == cur && z.l == null && z.a == null
      && z.e == (if side == 0 then c else null)
      && cur.e == (if side == 0 then z else c)
      && cur.l == (if side < 0 then z else old(cur.l))
      && cur.a == (if side > 0 then z else old(cur.a))
    }

    twostate lemma AtNew()
      requires old(Ready()) && Done()
      ensures Linked(z, S + {z}) && Linked(cur, S + {z})
    {
      assert old(Linked(cur, S));
    }

    twostate lemma Elsewhere(n: Node)
      requires old(Ready()) && Done() && n in S && n != cur
      ensures Linked(n, S + {z})
    {
      assert old(Linked(cur, S) && Linked(n, S));
    }

    twostate lemma KeepsShape()
      requires old(Ready()) && Done()
      ensures Shape(S + {z}, top)
    {
      AtNew();
      forall n | n in S && n != cur
        ensures Linked(n, S + {z})
      {
        Elsewhere(n);
      }
    }

    twostate lemma SameBelow(n: Node)
      requires old(Ready()) && Done() && n in S && n != cur
      ensures Below(n) == old(Below(n))
    {
      assert old(Linked(n, S));
    }

    twostate lemma BelowHere()
      requires old(Ready()) && Done() && z.count == 1 + old(if side == 0 then Cnt(cur.e) else 0)
      ensures Below(cur) == old(Below(cur)) + 1 && z.count == 1 + Below(z)
    {
      assert old(Linked(cur, S));
    }

    twostate lemma KeepsCounts()
      requires old(Ready()) && Done() && old(Counted(S, cur)) && Shape(S + {z}, top)
      requires z.count == 1 + old(if side == 0 then Cnt(cur.e) else 0)
      ensures Counted(S + {z}, null)
    {
      BelowHere();
      forall n | n in S + {z}
        ensures n.count >= 1 && n.count == 1 + Below(n) + 0
      {
        hide Shape, Linked, Below;
        if n != cur && n != z { SameBelow(n); }
      }
    }
  }

  // The interval of one node grows, within what its place in the tree allows.
  datatype Widening = Widening(c: Node, S: set<Node>, top: Node)
  {
    twostate predicate Done()
      requires c in S
      reads S
    {
      && SameData(S)
      && (forall n | n in S :: n.p == old(n.p) && n.a == old(n.a) && n.e == old(n.e) && n.l == old(n.l))
      && (forall n | n in S && n != c :: n.lo == old(n.lo) && n.hi == old(n.hi))
      && c.lo <= old(c.lo) && old(c.hi) <= c.hi
      && (c.p != null && c.p in S && c == c.p.l ==> c.p.lo <= c.lo && c.hi <= c.p.hash)
      && (c.p != null && c.p in S && c == c.p.a ==> c.p.hash <= c.lo && c.hi <= c.p.hi)
    }

    twostate lemma At(n: Node)
      requires c in S && old(Shape(S, top)) && Done() && n in S
      ensures Linked(n, S)
    {
      assert old(Linked(n, S) && Linked(c, S));
    }

    twostate lemma KeepsShape()
      requires c in S && old(Shape(S, top)) && Done()
      ensures Shape(S, top)
    {
      forall n | n in S { At(n); }
    }
  }

  ghost method Stretch(c: Node, lo: int, hi: int, S: set<Node>, top: Node)
    requires Shape(S, top) && c in S && lo <= c.lo && c.hi <= hi
    requires c.p != null && c == c.p.l ==> c.p.lo <= lo && hi <= c.p.hash
    requires c.p != null && c == c.p.a ==> c.p.hash <= lo && hi <= c.p.hi
    modifies c`lo, c`hi
    ensures Shape(S, top) && c.lo == lo && c.hi == hi
  {
    c.lo, c.hi := lo, hi;
    Widening(c, S, top).KeepsShape();
  }

  method CountIn(n: Node, ghost S: set<Node>, ghost top: Node)
    requires Shape(S, top) && Counted(S, n.p) && n in S
    modifies n`count
    ensures Shape(S, top) && Counted(S, n) && n.count == old(n.count) + 1
  {
    hide Shape, Counted, Linked;
    OneSlot(n, S, top);
    Bump(n, S);
  }

  method CheckBalanceAndCount(proot: Node, ghost S: set<Node>, ghost top: Node)
    returns (r: Node, ghost top': Node)
    requires Shape(S, top) && Counted(S, proot.p) && proot in S && Main(proot)
    modifies S`p, S`a, S`l, S`lo, S`hi, S`count
    ensures r in S && Main(r) && r.p == old(proot.p) && r.lo == old(proot.lo) && r.hi == old(proot.hi)
    ensures r.count == old(proot.count) + 1
    ensures top' == (if proot == top then r else top) && (r.p == null <==> r == top')
    ensures Shape(S, top') && Counted(S, r)
  {
    r := CheckBalance(proot, S, top, proot.p);
    top' := if proot == top then r else top;
    CountIn(r, S, top');
  }

  // The linking code of an insertion.  On the l and a side the place is empty, so the code there that would
  // pass on an old branch never runs.
  method Link(cur: Node, z: Node, balance: int)
    requires z != cur && z.count == 0 && z.e == null && z != cur.e
    requires balance < 0 ==> cur.l == null
    requires balance > 0 ==> cur.a == null
    modifies z`p, z`e, z`count, cur`e, cur`l, cur`a, Just(cur.e)`p
    ensures z.p == cur && z.e == (if balance == 0 then old(cur.e) else null)
    ensures z.count == 1 + (if balance == 0 then old(Cnt(cur.e)) else 0)
    ensures cur.e == (if balance == 0 then z else old(cur.e))
    ensures cur.l == (if balance < 0 then z else old(cur.l))
    ensures cur.a == (if balance > 0 then z else old(cur.a))
    ensures old(cur.e) != null ==> old(cur.e).p == (if balance == 0 then z else old(cur.e.p))
  {
    z.p := cur;
    if balance == 0 {
      z.e := cur.e;
      cur.e := z;
      if z.e != null {
        z.e.p := z;
        z.count := z.e.count;
      }
    } else if balance < 0 {
      cur.l := z;
    } else {
      cur.a := z;
    }
    z.count := z.count + 1;
  }

  method Linking(cur: Node, z: Node, balance: int, ghost g: Graft)
    requires g == Graft(cur, z, balance, g.S, g.top) && g.Ready() && z.p == null && z.count == 0
    modifies z`p, z`e, z`count, g.S`e, g.S`l, g.S`a, g.S`p
    ensures g.Done() && z.count == 1 + old(if balance == 0 then Cnt(cur.e) else 0)
  {
    assert Linked(cur, g.S);
    Link(cur, z, balance);
  }

  method Hang(cur: Node, z: Node, balance: int, ghost S: set<Node>, ghost top: Node)
    requires Graft(cur, z, balance, S, top).Ready() && Counted(S, cur) && z.p == null && z.count == 0
    modifies z`p, z`e, z`count, S`e, S`l, S`a, S`p
    ensures Shape(S + {z}, top) && Counted(S + {z}, null)
  {
    hide Shape, Counted, Graft.Ready;
    ghost var g := Graft(cur, z, balance, S, top);
    Linking(cur, z, balance, g);
    g.KeepsShape();
    g.KeepsCounts();
  }

  // The next node y of the = chain takes over the place of x.
  datatype Promotion = Promotion(x: Node, y: Node, S: set<Node>, top: Node)
  {
    ghost predicate Ready()
      reads S, x
    {
      Shape(S, top) && x in S && InPlace(x, S) && y in S && x.e == y && x != y && x.p != x && x.p != y
    }

    twostate predicate Done()
      reads S, x, y
    {
      var q := old(x.p);
      && SameData(S)
      && (forall n | n in S && n != y :: n.lo == old(n.lo) && n.hi == old(n.hi) && n.count == old(n.count))
      && (forall n | n in S && n != y && n != q :: n.l == old(n.l) && n.a == old(n.a) && n.e == old(n.e))
      && (q != null && q in S ==>
            && q.l == (if old(q.l) == x then y else old(q.l))
            && q.e == (if old(q.e) == x then y else old(q.e))
            && q.a == (if old(q.a) == x then y else old(q.a)))
      && y.l == old(x.l) && y.a == old(x.a) && y.e == old(y.e) && y.p == q && y.lo == old(x.lo) && y.hi == old(x.hi)
      && y.count == old(x.count) - 1
      && (forall n | n in S && n != y :: n.p == (if n == old(x.l) || n == old(x.a) then y else old(n.p)))
    }

    // The nodes whose fields change are all different.
    ghost predicate Apart()
      reads S, x, x.p
    {
      && x in S && y in S && x.e == y && x != y && y.e != x && x.p != x && x.p != y
      && x.l != x && x.l != y && (x.l != null ==> x.l in S && x.l != x.p)
      && x.a != x && x.a != y && (x.a != null ==> x.a in S && x.a != x.p)
      && (x.p != null ==> x.p in S && Slots(x.p, x) == 1)
    }

    lemma Prepare()
      requires Shape(S, top) && Counted(S, null) && x in S && x.e == y
      ensures Ready() && Apart()
    {
      assert Linked(x, S) && Linked(y, S);
      OneSlot(x, S, top);
      CountsGrow(S, top, null, x);
      CountsGrow(S, top, null, y);
      if x.l != null { CountsGrow(S, top, null, x.l); }
      if x.a != null { CountsGrow(S, top, null, x.a); }
    }

    twostate lemma AtY()
      requires old(Ready()) && Done()
      ensures Linked(y, S - {x})
    {
      assert old(Linked(x, S) && Linked(y, S));
    }

    twostate lemma AtParent()
      requires old(Ready()) && Done()
      ensures old(x.p) != null ==> old(x.p) in S && Linked(old(x.p), S - {x})
    {
      assert old(Linked(x, S) && Linked(y, S) && (x.p != null ==> Linked(x.p, S)));
    }

    twostate lemma Elsewhere(n: Node)
      requires old(Ready()) && Done() && n in S && n != x && n != y && n != old(x.p)
      ensures Linked(n, S - {x})
    {
      assert old(Linked(x, S) && Linked(y, S) && Linked(n, S));
    }

    twostate lemma KeepsShape()
      requires old(Ready()) && Done()
      ensures Shape(S - {x}, if x == top then y else top)
    {
      AtY();
      AtParent();
      forall n | n in S - {x} && n != y && n != old(x.p) { Elsewhere(n); }
      assert old(Linked(x, S));
    }

    twostate lemma BelowY()
      requires old(Ready()) && old(Counted(S, null)) && Done()
      ensures y.count >= 1 && y.count == 1 + Below(y)
    {
      assert old(Linked(x, S) && Linked(y, S));
    }

    twostate lemma BelowParent()
      requires old(Ready()) && Done() && old(x.p) != null
      ensures old(x.p) in S && Below(old(x.p)) == old(Below(x.p)) - 1
    {
      assert old(Linked(x, S) && Linked(x.p, S) && Slots(x.p, x) == 1);
    }

    twostate lemma BelowElsewhere(n: Node)
      requires old(Ready()) && Done() && n in S && n != x && n != y && n != old(x.p)
      ensures Below(n) == old(Below(n))
    {
      assert old(Linked(x, S) && Linked(y, S) && Linked(n, S));
    }

    twostate lemma KeepsCounts()
      requires old(Ready()) && old(Counted(S, null)) && Done() && Shape(S - {x}, if x == top then y else top)
      ensures Counted(S - {x}, old(x.p))
    {
      var q := old(x.p);
      BelowY();
      if q != null { BelowParent(); }
      forall n | n in S - {x}
        ensures n.count >= 1 && n.count == 1 + Below(n) + (if n == q then 1 else 0)
      {
        hide Shape, Linked, Below, InPlace;
        if n != y && n != q { BelowElsewhere(n); }
      }
    }
  }

  method Succeed(x: Node, ghost t: Promotion) returns (y: Node)
    requires t.Apart() && t.x == x
    modifies x.e`l, x.e`a, x.e`p, x.e`count, x.e`lo, x.e`hi, Just(x.l)`p, Just(x.a)`p, Just(x.p)`l, Just(x.p)`e, Just(x.p)`a
    ensures y == x.e == old(x.e) && y.l == x.l == old(x.l) && y.a == x.a == old(x.a) && y.p == x.p == old(x.p)
    ensures y.lo == x.lo && y.hi == x.hi && y.count == x.count - 1
    ensures x.l != null ==> x.l.p == y
    ensures x.a != null ==> x.a.p == y
    ensures x.p != null ==>
              && x.p.l == (if old(x.p.l) == x then y else old(x.p.l))
              && x.p.e == (if old(x.p.e) == x then y else old(x.p.e))
              && x.p.a == (if old(x.p.a) == x then y else old(x.p.a))
  {
    y := x.e;
    y.l := x.l;
    if x.l != null { x.l.p := y; }
    y.a := x.a;
    if x.a != null { x.a.p := y; }
    y.p := x.p;
    y.count := x.count - 1;
    y.lo, y.hi := x.lo, x.hi;
    var pparent := x.p;
    if pparent != null {
      if pparent.l == x {
        pparent.l := y;
      } else if pparent.e == x {
        pparent.e := y;
      } else {
        assert pparent.a == x;
        pparent.a := y;
      }
    }
  }

  method Succeeding(x: Node, ghost t: Promotion) returns (y: Node)
    requires t.Apart() && t.x == x
    modifies t.S`p, t.S`l, t.S`a, t.S`e, t.S`lo, t.S`hi, t.S`count
    ensures y == t.y && t.Done() && x.p == old(x.p)
  {
    y := Succeed(x, t);
  }

  // Take x out in favour of its successor on the = chain.
  method Promote(x: Node, ghost S: set<Node>, ghost top: Node) returns (y: Node)
    requires Shape(S, top) && Counted(S, null) && x in S && x.e != null
    modifies S`p, S`l, S`a, S`e, S`lo, S`hi, S`count
    ensures y == old(x.e) && y in S && y != x && x.p == old(x.p) && y.p == x.p
    ensures Shape(S - {x}, if x == top then y else top) && Counted(S - {x}, x.p)
    ensures (x.p != null ==> x.p in S - {x}) && (x.p == null <==> x == top)
  {
    ghost var t := Promotion(x, x.e, S, top);
    t.Prepare();
    y := Succeeding(x, t);
    t.KeepsShape();
    t.KeepsCounts();
    hide Shape, Counted, Linked, InPlace;
  }

  // A node x without = chain and with at most one branch c gives its place to c.  The last node of a chain is
  // the case without a branch.
  datatype Splice = Splice(x: Node, c: Node?, S: set<Node>, top: Node)
  {
    ghost predicate Ready()
      reads S, x
    {
      Shape(S, top) && x in S && InPlace(x, S) && Fits()
    }

    ghost predicate Fits()
      reads x, x.p
    {
      && x.e == null && ((x.l == c && x.a == null) || (x.l == null && x.a == c))
      && x.p != x && c != x && (c != null ==> c in S && c != x.p)
      && (x.p != null && x.p.e == x ==> c == null)
      && (x == top && c == null ==> S == {x})
    }

    twostate predicate Done()
      reads S, x
    {
      var q := old(x.p);
      && SameData(S)
      && (forall n | n in S :: n.lo == old(n.lo) && n.hi == old(n.hi) && n.count == old(n.count))
      && (forall n | n in S && n != q && n != x :: n.l == old(n.l) && n.a == old(n.a) && n.e == old(n.e))
      && (q != null && q in S ==>
            && q.l == (if old(q.l) == x then c else old(q.l))
            && q.e == (if old(q.e) == x then c else old(q.e))
            && q.a == (if old(q.a) == x then c else old(q.a)))
      && (forall n | n in S :: n.p == (if n == c then q else old(n.p)))
    }

    lemma Prepare()
      requires Shape(S, top) && Counted(S, null) && x in S && x.e == null
      requires (x.l == c && x.a == null) || (x.l == null && x.a == c)
      ensures Ready()
      ensures x.p != null ==> x.p in S - {x} && Slots(x.p, x) == 1
      ensures x.p == null <==> x == top
    {
      assert Linked(x, S);
      OneSlot(x, S, top);
      CountsGrow(S, top, null, x);
      if c != null { CountsGrow(S, top, null, c); }
      if x.p != null { assert Linked(x.p, S); }
      if x == top && c == null {
        forall n | n in S
          ensures n == x
        {
          TopCount(n, S, top, null);
        }
      }
    }

    twostate lemma AtParent()
      requires old(Ready()) && Done()
      ensures old(x.p) != null ==> old(x.p) in S && Linked(old(x.p), S - {x})
    {
      assert old(Linked(x, S) && (x.p != null ==> Linked(x.p, S)) && (c != null ==> Linked(c, S)));
    }

    twostate lemma Elsewhere(n: Node)
      requires old(Ready()) && Done() && n in S && n != x && n != old(x.p)
      ensures Linked(n, S - {x})
    {
      assert old(Linked(x, S) && Linked(n, S) && (c != null ==> Linked(c, S)) && Slots(n, x) == 0);
    }

    twostate lemma KeepsShape()
      requires old(Ready()) && Done()
      ensures x != top ==> Shape(S - {x}, top)
      ensures x == top ==> (c == null ==> S - {x} == {}) && Shape(S - {x}, c)
      ensures Closed(S - {x})
    {
      AtParent();
      forall n | n in S - {x} && n != old(x.p) { Elsewhere(n); }
      assert old(Linked(x, S));
    }

    twostate lemma BelowParent()
      requires old(Ready()) && Done() && old(x.p) != null
      ensures old(x.p) in S && Below(old(x.p)) == old(Below(x.p)) - old(x.count) + old(Cnt(c))
    {
      assert old(Linked(x, S) && Linked(x.p, S) && Slots(x.p, x) == 1);
    }

    twostate lemma BelowElsewhere(n: Node)
      requires old(Ready()) && Done() && n in S && n != x && n != old(x.p)
      ensures Below(n) == old(Below(n))
    {
      assert old(Linked(n, S));
    }

    lemma CountOfX()
      requires Ready() && Counted(S, null)
      ensures x.count == 1 + Cnt(c)
    {
      assert Linked(x, S);
    }

    twostate lemma KeepsCounts()
      requires old(Ready()) && old(Counted(S, null)) && Done() && Closed(S - {x})
      requires old(x.count) == 1 + old(Cnt(c))
      ensures Counted(S - {x}, old(x.p))
    {
      var q := old(x.p);
      if q != null { BelowParent(); }
      forall n | n in S - {x}
        ensures n.count >= 1 && n.count == 1 + Below(n) + (if n == q then 1 else 0)
      {
        hide Shape, Linked, Below, InPlace;
        if n != q { BelowElsewhere(n); }
      }
    }
  }

  // The last node of an = chain leaves its parent's e empty.
  method Unchain(x: Node, ghost S: set<Node>, ghost top: Node)
    requires Shape(S, top) && Counted(S, null) && x in S && x.e == null && !Main(x)
    modifies S`e
    ensures x != top && x.p in S - {x}
    ensures Shape(S - {x}, top) && Counted(S - {x}, x.p)
  {
    ghost var t := Splice(x, null, S, top);
    assert Linked(x, S) && Linked(x.p, S);
    t.Prepare();
    t.CountOfX();
    x.p.e := null;
    assert t.Done();
    t.KeepsShape();
    t.KeepsCounts();
    hide Shape, Counted, Linked, InPlace;
  }

  // The branch c of x moves up into the place of x.
  method MoveUp(x: Node, c: Node?, ghost t: Splice)
    requires t.Fits() && t.x == x && t.c == c && Main(x)
    requires x.p != null ==> Slots(x.p, x) == 1
    modifies Just(c)`p, Just(x.p)`a, Just(x.p)`l
    ensures x.p == old(x.p) && (c != null ==> c.p == x.p)
    ensures x.p != null ==>
              && x.p.l == (if old(x.p.l) == x then c else old(x.p.l))
              && x.p.a == (if old(x.p.a) == x then c else old(x.p.a))
  {
    if c != null { c.p := x.p; }
    if x.p != null {
      if x.p.a == x {
        x.p.a := c;
      } else {
        assert x.p.l == x;
        x.p.l := c;
      }
    }
  }

  method MovingUp(x: Node, c: Node?, ghost t: Splice)
    requires t.Fits() && t.x == x && t.c == c && Main(x)
    requires x.p != null ==> x.p in t.S && Slots(x.p, x) == 1
    modifies t.S`p, t.S`l, t.S`a
    ensures t.Done() && x.p == old(x.p)
  {
    MoveUp(x, c, t);
  }

  method SpliceOut(x: Node, c: Node?, ghost S: set<Node>, ghost top: Node)
    requires Shape(S, top) && Counted(S, null) && x in S && x.e == null && Main(x)
    requires (x.l == c && x.a == null) || (x.l == null && x.a == c)
    modifies S`p, S`l, S`a
    ensures Shape(S - {x}, if x == top then c else top) && Counted(S - {x}, x.p)
    ensures x.p == old(x.p) && (x.p != null ==> x.p in S - {x}) && (x.p == null <==> x == top)
  {
    hide Shape, Counted, Linked;
    ghost var t := Splice(x, c, S, top);
    t.Prepare();
    t.CountOfX();
    MovingUp(x, c, t);
    t.KeepsShape();
    t.KeepsCounts();
  }

  // The whole of Drop, with the shape kept in view.
  method CountOut(n: Node, ghost S: set<Node>, ghost top: Node)
    requires Shape(S, top) && Counted(S, n) && n in S
    modifies n`count
    ensures Shape(S, top) && Counted(S, n.p) && n.count == old(n.count) - 1
    ensures if n.p == null then n == top else n.p in S && Above(n.p, S) < old(Above(n, S))
  {
    assert Linked(n, S);
    CountsGrow(S, top, n, n);
    OneSlot(n, S, top);
    ghost var was := Above(n, S);
    Drop(n, S);
    hide Shape, Counted, Linked, InPlace;
    if n.p != null {
      assert n.p in was;
      assert forall m | m in Above(n.p, S) :: m in was;
      assert n.p !in Above(n.p, S);
    }
  }
}
