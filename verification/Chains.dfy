// The chains of equals in a hash table: for each hash the records that have it, in the order in which a walk meets them.
module Chains {
  import opened Basics

  type Chains = map<int, seq<nat>>

  function Of(c: Chains, h: int): seq<nat> {
    if h in c then c[h] else []
  }

  // The chains hold exactly the records of a table, each under its hash and once.
  ghost predicate Chained(c: Chains, hashes: map<nat, int>) {
    && (forall h: int :: Distinct(Of(c, h)))
    && forall h: int, r: nat :: r in Of(c, h) <==> r in hashes && hashes[r] == h
  }

  // A record comes to stand right behind the head.
  function Behind(s: seq<nat>, r: nat): seq<nat> {
    if s == [] then [r] else [s[0], r] + s[1..]
  }

  function File(c: Chains, h: int, r: nat): Chains {
    c[h := Behind(Of(c, h), r)]
  }

  function Drop(c: Chains, h: int, r: nat): Chains {
    c[h := RemoveFirst(Of(c, h), r)]
  }

  lemma BehindHead(s: seq<nat>, r: nat)
    requires Distinct(s) && r !in s
    ensures Distinct(Behind(s, r)) && forall x :: x in Behind(s, r) <==> x in s || x == r
  {
    if s != [] { assert s == [s[0]] + s[1..]; }
  }

  lemma Filed(c: Chains, hashes: map<nat, int>, h: int, r: nat)
    requires Chained(c, hashes) && r !in hashes
    ensures Chained(File(c, h, r), hashes[r := h])
  {
    hide Behind, Distinct;
    BehindHead(Of(c, h), r);
    var c', hashes' := File(c, h, r), hashes[r := h];
    forall j: int ensures Distinct(Of(c', j)) { assert Distinct(Of(c, j)); }
    forall j: int, x: nat
      ensures x in Of(c', j) <==> x in hashes' && hashes'[x] == j
    {
      assert x in Of(c, j) <==> x in hashes && hashes[x] == j;
    }
  }

  lemma Dropped(c: Chains, hashes: map<nat, int>, h: int, r: nat)
    requires Chained(c, hashes) && r in hashes && hashes[r] == h
    ensures Chained(Drop(c, h, r), hashes - {r})
  {
    hide RemoveFirst, Distinct;
    Removed(Of(c, h), r);
    var c', hashes' := Drop(c, h, r), hashes - {r};
    forall j: int ensures Distinct(Of(c', j)) { assert Distinct(Of(c, j)); }
    forall j: int, x: nat
      ensures x in Of(c', j) <==> x in hashes' && hashes'[x] == j
    {
      assert x in Of(c, j) <==> x in hashes && hashes[x] == j;
    }
  }
}
