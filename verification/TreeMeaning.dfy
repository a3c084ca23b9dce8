// What the local conditions of a tree mean as a whole: every node hangs from the root, each node's subtree
// holds exactly the hashes its place promises, and each count is the size of a subtree.
module TreeMeaning {
  import opened NodePool
  import opened TreeShape

  // n is t, or lies somewhere below it.
  ghost predicate Under(t: Node, n: Node, S: set<Node>, top: Node)
    requires Shape(S, top) && Counted(S, null) && n in S
    reads S
    decreases Above(n, S)
  {
    n == t || (n.p != null && (CountsGrow(S, top, null, n); assert n.p in Above(n, S); Under(t, n.p, S, top)))
  }

  lemma {:induction false} AllUnderRoot(n: Node, S: set<Node>, top: Node)
    requires Shape(S, top) && Counted(S, null) && n in S
    ensures Under(top, n, S, top)
    decreases Above(n, S)
  {
    CountsGrow(S, top, null, n);
    if n.p != null {
      assert n.p in Above(n, S);
      AllUnderRoot(n.p, S, top);
    }
  }

  lemma {:induction false} UnderSlot(t: Node, n: Node, S: set<Node>, top: Node)
    requires Shape(S, top) && Counted(S, null) && t in S && n in S && n != t && Under(t, n, S, top)
    ensures (t.l != null && Under(t.l, n, S, top)) || (t.e != null && Under(t.e, n, S, top)) || (t.a != null && Under(t.a, n, S, top))
    decreases Above(n, S)
  {
    CountsGrow(S, top, null, n);
    assert Linked(n, S) && n.p in Above(n, S);
    if n.p != t {
      UnderSlot(t, n.p, S, top);
    }
  }

  // Everything below a node lies in its interval; everything below a chain node carries its hash.
  lemma {:induction false} UnderRange(t: Node, n: Node, S: set<Node>, top: Node)
    requires Shape(S, top) && Counted(S, null) && t in S && n in S && Under(t, n, S, top)
    ensures Main(t) ==> t.lo < n.hash < t.hi && (Main(n) ==> t.lo <= n.lo && n.hi <= t.hi)
    ensures !Main(t) ==> n.hash == t.hash && !Main(n)
    decreases Above(n, S)
  {
    CountsGrow(S, top, null, n);
    assert Linked(n, S);
    if n != t {
      assert Linked(n.p, S) && n.p in Above(n, S);
      UnderRange(t, n.p, S, top);
      if n.p.p != null { assert Linked(n.p.p, S); }
    }
  }

  // The descent of a search never leaves a wanted hash behind.
  lemma Descend(t: Node, n: Node, S: set<Node>, top: Node)
    requires Shape(S, top) && Counted(S, null) && t in S && n in S && Under(t, n, S, top)
    ensures n.hash < t.hash ==> t.l != null && t.l in S && Main(t.l) && Under(t.l, n, S, top)
    ensures n.hash > t.hash ==> t.a != null && t.a in S && Main(t.a) && Under(t.a, n, S, top)
    ensures n.hash == t.hash && n != t ==> t.e != null && t.e in S && Under(t.e, n, S, top)
  {
    assert Linked(t, S);
    if n != t {
      UnderSlot(t, n, S, top);
      if t.l != null && Under(t.l, n, S, top) { UnderRange(t.l, n, S, top); }
      if t.e != null && Under(t.e, n, S, top) { UnderRange(t.e, n, S, top); }
      if t.a != null && Under(t.a, n, S, top) { UnderRange(t.a, n, S, top); }
    }
  }

  ghost function Subtree(t: Node, S: set<Node>, top: Node): set<Node>
    requires Shape(S, top) && Counted(S, null)
    reads S
  {
    set n | n in S && Under(t, n, S, top)
  }

  lemma {:induction false} UnderCount(t: Node, n: Node, S: set<Node>, top: Node)
    requires Shape(S, top) && Counted(S, null) && t in S && n in S && Under(t, n, S, top)
    ensures n == t || n.count < t.count
    decreases Above(n, S)
  {
    CountsGrow(S, top, null, n);
    if n != t {
      assert n.p in Above(n, S);
      UnderCount(t, n.p, S, top);
    }
  }

  lemma {:induction false} UnderParent(c: Node, n: Node, S: set<Node>, top: Node)
    requires Shape(S, top) && Counted(S, null) && c in S && n in S && Under(c, n, S, top) && c.p != null
    ensures c.p in S && Under(c.p, n, S, top)
    decreases Above(n, S)
  {
    CountsGrow(S, top, null, n);
    CountsGrow(S, top, null, c);
    if n == c {
      assert Under(c.p, c.p, S, top);
    } else {
      assert n.p in Above(n, S);
      UnderParent(c, n.p, S, top);
    }
  }

  ghost function SlotTree(c: Node?, S: set<Node>, top: Node): set<Node>
    requires Shape(S, top) && Counted(S, null)
    reads S
  {
    if c == null then {} else Subtree(c, S, top)
  }

  lemma SubtreeParts(t: Node, S: set<Node>, top: Node)
    requires Shape(S, top) && Counted(S, null) && t in S
    ensures Subtree(t, S, top) == {t} + SlotTree(t.l, S, top) + SlotTree(t.e, S, top) + SlotTree(t.a, S, top)
    ensures t !in SlotTree(t.l, S, top) && t !in SlotTree(t.e, S, top) && t !in SlotTree(t.a, S, top)
    ensures SlotTree(t.l, S, top) !! SlotTree(t.e, S, top)
    ensures SlotTree(t.l, S, top) + SlotTree(t.e, S, top) !! SlotTree(t.a, S, top)
  {
    assert Linked(t, S);
    forall n | n in S
      ensures n in SlotTree(t.l, S, top) ==> n.hash < t.hash && n in Subtree(t, S, top)
      ensures n in SlotTree(t.a, S, top) ==> n.hash > t.hash && n in Subtree(t, S, top)
      ensures n in SlotTree(t.e, S, top) ==> n.hash == t.hash && n != t && n in Subtree(t, S, top)
      ensures n in Subtree(t, S, top) ==> n == t || n in SlotTree(t.l, S, top) + SlotTree(t.e, S, top) + SlotTree(t.a, S, top)
    {
      PartOf(t, n, S, top);
    }
  }

  lemma PartOf(t: Node, n: Node, S: set<Node>, top: Node)
    requires Shape(S, top) && Counted(S, null) && t in S && n in S
    ensures n in SlotTree(t.l, S, top) ==> n.hash < t.hash && n in Subtree(t, S, top)
    ensures n in SlotTree(t.a, S, top) ==> n.hash > t.hash && n in Subtree(t, S, top)
    ensures n in SlotTree(t.e, S, top) ==> n.hash == t.hash && n != t && n in Subtree(t, S, top)
    ensures n in Subtree(t, S, top) ==> n == t || n in SlotTree(t.l, S, top) + SlotTree(t.e, S, top) + SlotTree(t.a, S, top)
  {
    assert Linked(t, S);
    if n in SlotTree(t.l, S, top) { UnderRange(t.l, n, S, top); UnderParent(t.l, n, S, top); }
    if n in SlotTree(t.a, S, top) { UnderRange(t.a, n, S, top); UnderParent(t.a, n, S, top); }
    if n in SlotTree(t.e, S, top) {
      UnderRange(t.e, n, S, top);
      UnderParent(t.e, n, S, top);
      UnderCount(t.e, n, S, top);
      CountsGrow(S, top, null, t.e);
    }
    if n in Subtree(t, S, top) && n != t { UnderSlot(t, n, S, top); }
  }

  lemma FourParts(t: Node, l: set<Node>, e: set<Node>, a: set<Node>)
    requires t !in l && t !in e && t !in a && l !! e && l + e !! a
    ensures |{t} + l + e + a| == 1 + |l| + |e| + |a|
  {
    assert |{t} + l + e + a| == |{t} + l + e| + |a|;
    assert |{t} + l + e| == |{t} + l| + |e|;
  }

  // Every count is the number of nodes in the subtree.
  lemma {:induction false} CountIsSize(t: Node, S: set<Node>, top: Node)
    requires Shape(S, top) && Counted(S, null) && t in S
    ensures t.count == |Subtree(t, S, top)|
    decreases t.count
  {
    hide Under, Subtree;
    assert Linked(t, S);
    SubtreeParts(t, S, top);
    FourParts(t, SlotTree(t.l, S, top), SlotTree(t.e, S, top), SlotTree(t.a, S, top));
    if t.l != null { CountsGrow(S, top, null, t.l); CountIsSize(t.l, S, top); }
    if t.e != null { CountsGrow(S, top, null, t.e); CountIsSize(t.e, S, top); }
    if t.a != null { CountsGrow(S, top, null, t.a); CountIsSize(t.a, S, top); }
  }

  // The root's count is the number of nodes of the tree.
  lemma RootCount(S: set<Node>, top: Node)
    requires Shape(S, top) && Counted(S, null)
    ensures top.count == |S|
  {
    forall n | n in S { AllUnderRoot(n, S, top); }
    assert Subtree(top, S, top) == S;
    CountIsSize(top, S, top);
  }

  // The = chain from t on, in the order in which a walk along e meets it.
  ghost function Chain(t: Node, S: set<Node>, top: Node): (c: seq<Node>)
    requires Shape(S, top) && Counted(S, null) && t in S
    reads S
    decreases t.count
  {
    assert Linked(t, S);
    if t.e == null then [t] else (CountsGrow(S, top, null, t.e); [t] + Chain(t.e, S, top))
  }

  lemma {:induction false} ChainHasHash(t: Node, n: Node, S: set<Node>, top: Node)
    requires Shape(S, top) && Counted(S, null) && t in S
    ensures n in Chain(t, S, top) ==> n in S && n.hash == t.hash
    ensures n in S && Under(t, n, S, top) && n.hash == t.hash ==> n in Chain(t, S, top)
    decreases t.count
  {
    assert Linked(t, S);
    if t.e != null {
      CountsGrow(S, top, null, t.e);
      ChainHasHash(t.e, n, S, top);
    }
    if n in S && Under(t, n, S, top) && n.hash == t.hash {
      Descend(t, n, S, top);
    }
  }
}
