module BinaryTree {
  import opened NodePool
  import opened TreeShape
  import opened TreeMeaning

  // A root pointer together with the (ghost) set of nodes that hang from it.
  class Tree {
    var root: Node?
    ghost var nodes: set<Node>

    ghost predicate Valid()
      reads this, nodes`p, nodes`a, nodes`e, nodes`l, nodes`hash, nodes`lo, nodes`hi, nodes`count
    {
      Shape(nodes, root) && Counted(nodes, null)
    }

    constructor ()
      ensures Valid() && nodes == {}
    {
      root, nodes := null, {};
    }

    ghost predicate Apart(pool: Pool)
      reads this, pool
    {
      forall n | n in pool.free :: n !in nodes
    }

    // One node of the descent: rebalance it and count the newcomer in.
    method Visit(c: Node) returns (r: Node)
      requires root != null && Shape(nodes, root) && Counted(nodes, c.p) && c in nodes && Main(c)
      modifies this`root, nodes`p, nodes`a, nodes`l, nodes`lo, nodes`hi, nodes`count
      ensures root != null && Shape(nodes, root) && Counted(nodes, r) && r in nodes && Main(r)
      ensures r.lo == old(c.lo) && r.hi == old(c.hi) && r.count == old(c.count) + 1
    {
      hide Shape, Counted;
      ghost var top := root;
      r, top := CheckBalanceAndCount(c, nodes, top);
      if r.p == null { root := r; }
    }

    // Give the child on the chosen side the whole interval that its place allows.
    ghost method Widen(r: Node, c: Node)
      requires root != null && Shape(nodes, root) && Counted(nodes, r) && r in nodes && Main(r)
      requires c == r.l || c == r.a
      modifies nodes`lo, nodes`hi
      ensures Shape(nodes, root) && Counted(nodes, c.p)
      ensures c in nodes && Main(c) && c.p == r && c.count < r.count
      ensures c == old(r.l) ==> c.lo == old(r.lo) && c.hi == r.hash
      ensures c == old(r.a) ==> c.lo == r.hash && c.hi == old(r.hi)
    {
      assert Linked(r, nodes);
      if c == r.l {
        Stretch(c, r.lo, r.hash, nodes, root);
      } else {
        Stretch(c, r.hash, r.hi, nodes, root);
      }
    }

    ghost method WidenRoot(hash: uint32)
      requires root != null && Shape(nodes, root)
      modifies nodes`lo, nodes`hi
      ensures Shape(nodes, root) && root.lo < hash < root.hi
    {
      assert Linked(root, nodes);
      Stretch(root, if root.lo < hash then root.lo else hash - 1, if hash < root.hi then root.hi else hash + 1, nodes, root);
    }

    // Descend to the place of a hash, rotating and counting the newcomer in on the way.
    method CheckFindAdd(hash: uint32) returns (r: Node, balance: int)
      requires Valid() && root != null
      modifies this`root, nodes`p, nodes`a, nodes`l, nodes`lo, nodes`hi, nodes`count
      ensures root != null && Shape(nodes, root) && Counted(nodes, r) && r in nodes && Main(r)
      ensures balance == 0 ==> hash == r.hash
      ensures balance < 0 ==> r.l == null && r.lo < hash < r.hash
      ensures balance > 0 ==> r.a == null && r.hash < hash < r.hi
    {
      WidenRoot(hash);
      r := root;
      balance := 0;
      while true
        invariant root != null && r in nodes && Main(r)
        invariant Shape(nodes, root) && Counted(nodes, r.p)
        invariant r.lo < hash < r.hi
        decreases r.count
      {
        r := Visit(r);
        if hash == r.hash { balance := 0; break; }
        if hash > r.hash { balance := 1; } else { balance := -1; }
        if balance < 0 {
          if r.l == null { break; }
          Widen(r, r.l);
          r := r.l;
        } else {
          if r.a == null { break; }
          Widen(r, r.a);
          r := r.a;
        }
      }
    }
  
    // The interval of the new node z under cur.
    ghost method Fit(cur: Node, balance: int, z: Node)
      requires root != null && Shape(nodes, root) && cur in nodes && Main(cur)
      requires balance == 0 ==> z.hash == cur.hash
      requires balance < 0 ==> cur.l == null && cur.lo < z.hash < cur.hash
      requires balance > 0 ==> cur.a == null && cur.hash < z.hash < cur.hi
      requires z !in nodes && z.a == null && z.l == null && z.e == null
      modifies z`lo, z`hi
      ensures Graft(cur, z, balance, nodes, root).Ready()
    {
      z.lo := if balance > 0 then cur.hash else if balance < 0 then cur.lo else z.hash - 1;
      z.hi := if balance < 0 then cur.hash else if balance > 0 then cur.hi else z.hash + 1;
    }

    // Hang the new node z where the descent has ended.
    method Attach(cur: Node, balance: int, z: Node)
      requires root != null && Graft(cur, z, balance, nodes, root).Ready() && Counted(nodes, cur)
      requires z.p == null && z.count == 0
      modifies `nodes, nodes`p, nodes`a, nodes`e, nodes`l, z`p, z`e, z`count
      ensures Valid() && nodes == old(nodes) + {z}
    {
      Hang(cur, z, balance, nodes, root);
      nodes := nodes + {z};
    }

    method AttachFirst(z: Node)
      requires Valid() && root == null
      requires z.p == null && z.a == null && z.l == null && z.e == null
      modifies this, z`count, z`lo, z`hi
      ensures Valid() && nodes == {z}
    {
      root := z;
      z.count := 1;
      z.lo, z.hi := z.hash - 1, z.hash + 1;
      nodes := {z};
    }

    // Take a node from the pool for a hash.
    method Take(hash: uint32, pool: Pool) returns (z: Node)
      requires pool.Valid() && Apart(pool)
      modifies pool, pool.free
      ensures pool.Valid() && Apart(pool) && z !in pool.free && z !in nodes && (z in old(pool.free) || fresh(z))
      ensures z.hash == hash && z.obj == 0 && z.home == -1
      ensures z.p == null && z.a == null && z.l == null && z.e == null && z.count == 0
      ensures forall n | n in pool.free :: n in old(pool.free) || fresh(n)
    {
      z := pool.Get();
      z.hash := hash;
    }

    // A node has been taken from the pool for the place found.
    method TakeAndAttach(cur: Node, balance: int, hash: uint32, pool: Pool) returns (z: Node)
      requires root != null && Shape(nodes, root) && Counted(nodes, cur) && cur in nodes && Main(cur)
      requires balance == 0 ==> hash == cur.hash
      requires balance < 0 ==> cur.l == null && cur.lo < hash < cur.hash
      requires balance > 0 ==> cur.a == null && cur.hash < hash < cur.hi
      requires cur.p == null || cur.p in nodes
      requires pool.Valid() && Apart(pool)
      modifies this, nodes`p, nodes`a, nodes`e, nodes`l, nodes`lo, nodes`hi, nodes`count, pool, pool.free
      ensures Valid() && nodes == old(nodes) + {z} && z !in old(nodes) && (z in old(pool.free) || fresh(z))
      ensures z.hash == hash && z.obj == 0 && z.home == -1
      ensures pool.Valid() && Apart(pool)
      ensures forall n | n in pool.free :: n in old(pool.free) || fresh(n)
    {
      hide Shape, Counted, Pool.Valid, Graft.Ready;
      z := Take(hash, pool);
      Fit(cur, balance, z);
      Attach(cur, balance, z);
    }

    method Insert(hash: uint32, pool: Pool) returns (z: Node)
      requires Valid() && pool.Valid() && Apart(pool)
      modifies this, nodes`p, nodes`a, nodes`e, nodes`l, nodes`lo, nodes`hi, nodes`count, pool, pool.free
      ensures Valid() && nodes == old(nodes) + {z} && z !in old(nodes) && (z in old(pool.free) || fresh(z))
      ensures z.hash == hash && z.obj == 0 && z.home == -1
      ensures pool.Valid() && Apart(pool)
      ensures forall n | n in pool.free :: n in old(pool.free) || fresh(n)
    {
      if root == null {
        z := Take(hash, pool);
        AttachFirst(z);
      } else {
        var cur, balance := CheckFindAdd(hash);
        assert Linked(cur, nodes);
        z := TakeAndAttach(cur, balance, hash, pool);
      }
    }
  
    // Count one node out of everything from pparent up.
    method Climb(pparent: Node?, fixRoot: bool, ghost top: Node?)
      requires Shape(nodes, top) && Counted(nodes, pparent) && (pparent != null ==> pparent in nodes)
      requires !fixRoot || pparent == null ==> root == top
      modifies this`root, nodes`count
      ensures Shape(nodes, top) && Counted(nodes, null) && root == top
    {
      hide Shape, Counted;
      var pp := pparent;
      while pp != null
        invariant Shape(nodes, top) && Counted(nodes, pp) && (pp != null ==> pp in nodes)
        invariant !fixRoot || pp == null ==> root == top
        decreases pp != null, if pp == null then {} else Above(pp, nodes)
      {
        CountOut(pp, nodes, top);
        if fixRoot && pp.p == null { root := pp; }
        pp := pp.p;
      }
    }
  
    lemma HasRoot()
      requires Valid() && nodes != {}
      ensures root != null
    {
    }

    method DropHead(x: Node)
      requires Valid() && root != null && x in nodes && x.e != null
      modifies this, nodes`p, nodes`a, nodes`e, nodes`l, nodes`lo, nodes`hi, nodes`count
      ensures Valid() && nodes == old(nodes) - {x}
    {
      hide Shape, Counted;
      var pparent := x.p;
      var y := Promote(x, nodes, root);
      nodes := nodes - {x};
      if pparent == null { root := y; }
      Climb(pparent, false, root);
    }

    method DropLast(x: Node)
      requires Valid() && root != null && x in nodes && x.e == null && !Main(x)
      modifies this, nodes`e, nodes`count
      ensures Valid() && nodes == old(nodes) - {x}
    {
      hide Shape, Counted;
      Unchain(x, nodes, root);
      nodes := nodes - {x};
      Climb(x.p, false, root);
    }

    // Rotate x down until it has at most one branch.  The root pointer is left behind for a moment.
    method RotateDown(x: Node) returns (ghost top: Node)
      requires Valid() && root != null && x in nodes && x.e == null && Main(x)
      modifies nodes`p, nodes`a, nodes`l, nodes`lo, nodes`hi, nodes`count
      ensures Shape(nodes, top) && Counted(nodes, null) && Main(x)
      ensures x.l == null || x.a == null
      ensures x == top ==> root == top
    {
      top := root;
      while true
        invariant Shape(nodes, top) && Counted(nodes, null) && Main(x)
        invariant x == top ==> root == top
        decreases x.count
      {
        if x.l == null || x.a == null { break; }
        var balance := if x.l.count > x.a.count then -1 else 1;
        var y := Rotation(x, balance, nodes, top, null);
        if x == top { top := y; }
      }
    }

    method DropMain(x: Node, ghost top: Node)
      requires Shape(nodes, top) && Counted(nodes, null) && x in nodes && x.e == null && Main(x)
      requires x.l == null || x.a == null
      requires x == top ==> root == top
      modifies this, nodes`p, nodes`a, nodes`l, nodes`count
      ensures Valid() && nodes == old(nodes) - {x}
    {
      hide Shape, Counted;
      var c := if x.a != null then x.a else x.l;
      SpliceOut(x, c, nodes, top);
      nodes := nodes - {x};
      if x.p == null { root := c; }
      Climb(x.p, true, if x == top then c else top);
    }

    method Delete(x: Node?, pool: Pool)
      requires Valid() && pool.Valid() && Apart(pool)
      requires x != null ==> x in nodes
      modifies this, nodes`p, nodes`a, nodes`e, nodes`l, nodes`lo, nodes`hi, nodes`count, pool, x
      ensures Valid() && pool.Valid() && Apart(pool)
      ensures x == null ==> nodes == old(nodes) && pool.free == old(pool.free)
      ensures x != null ==> nodes == old(nodes) - {x} && pool.free == old(pool.free) + {x}
    {
      hide Shape, Counted, Pool.Valid;
      if x == null { return; }
      HasRoot();
      if x.e != null {
        DropHead(x);
      } else if x.p != null && x.p.e == x {
        DropLast(x);
      } else {
        ghost var top := RotateDown(x);
        DropMain(x, top);
      }
      pool.Free(x);
    }
  
    // All nodes with the wanted hash are at r or below.
    ghost predicate Cornered(r: Node, hash: uint32)
      requires root != null && Shape(nodes, root) && Counted(nodes, null)
      reads this, nodes
    {
      forall n | n in nodes && n.hash == hash :: Under(r, n, nodes, root)
    }

    lemma FromRoot(hash: uint32)
      requires Valid() && root != null
      ensures root in nodes && Main(root) && Cornered(root, hash)
    {
      forall n | n in nodes { AllUnderRoot(n, nodes, root); }
    }

    lemma OneDown(r: Node, hash: uint32)
      requires Valid() && root != null && r in nodes && Main(r) && Cornered(r, hash)
      ensures r.count >= 1
      ensures hash < r.hash && r.l == null ==> forall n | n in nodes :: n.hash != hash
      ensures hash > r.hash && r.a == null ==> forall n | n in nodes :: n.hash != hash
      ensures hash < r.hash && r.l != null ==> r.l in nodes && r.l.count < r.count && Main(r.l) && Cornered(r.l, hash)
      ensures hash > r.hash && r.a != null ==> r.a in nodes && r.a.count < r.count && Main(r.a) && Cornered(r.a, hash)
      ensures hash == r.hash ==> forall n :: n in Chain(r, nodes, root) <==> n in nodes && n.hash == hash
    {
      assert Linked(r, nodes);
      forall n | n in nodes && n.hash == hash { Descend(r, n, nodes, root); }
      if r.l != null { CountsGrow(nodes, root, null, r.l); }
      if r.a != null { CountsGrow(nodes, root, null, r.a); }
      forall n { ChainHasHash(r, n, nodes, root); }
    }

    // The search succeeds iff the hash is present, and what it returns is the head of the chain of all its bearers.
    method Search(hash: uint32) returns (r: Node?)
      requires Valid()
      ensures r == null ==> forall n | n in nodes :: n.hash != hash
      ensures r != null ==> root != null && r in nodes && r.hash == hash
      ensures r != null ==> forall n :: n in Chain(r, nodes, root) <==> n in nodes && n.hash == hash
    {
      hide Shape, Counted, Under, Chain, Cornered;
      if root == null { return null; }
      FromRoot(hash);
      r := root;
      while true
        invariant r in nodes && Main(r) && Cornered(r, hash)
        decreases r.count
      {
        OneDown(r, hash);
        if hash == r.hash { break; }
        if hash < r.hash {
          if r.l == null { return null; }
          r := r.l;
        } else {
          if r.a == null { return null; }
          r := r.a;
        }
      }
    }
  }
}
