module HashTable {
  import opened NodePool
  import opened BinaryTree
  import TreeMeaning
  import TreeShape

  // A C string without its terminator.
  type Byte = x: int | 0 < x < 0x100 witness 1
  type Key = seq<Byte>

  // The hash of the tables: each byte is added to 65599 times the hash so far, modulo 2^32.
  function SDBM(k: Key): uint32
  {
    if k == [] then 0 else (k[|k| - 1] + SDBM(k[..|k| - 1]) * 65599) % 0x1_0000_0000
  }

  method SDBMHash(str: Key) returns (hash: uint32)
    ensures hash == SDBM(str)
  {
    hash := 0;
    for i := 0 to |str|
      invariant hash == SDBM(str[..i])
    {
      assert str[..i + 1][..i] == str[..i];
      // (hash << 6) + (hash << 16) - hash, in 32 bits
      hash := (str[i] + hash * 0x40 + hash * 0x1_0000 - hash) % 0x1_0000_0000;
    }
    assert str[..|str|] == str;
  }

  // What the tables keep of the static array of session records: the key of each record in use and its
  // reference count, by address.
  class Records {
    var key: map<nat, Key>
    var col_session: map<nat, int>

    constructor ()
    {
      key, col_session := map[], map[];
    }
  }

  // memcmp over the length of the wanted key: the stored key may go on after it.
  predicate Matches(stored: Key, wanted: Key)
  {
    wanted <= stored
  }

  // A chain as the search callback sees it: addresses and stored keys, in the order of the walk.
  type Entries = seq<(nat, Key)>

  function FirstMatch(c: Entries, wanted: Key): (addr: nat)
  {
    if c == [] then 0 else if Matches(c[0].1, wanted) then c[0].0 else FirstMatch(c[1..], wanted)
  }

  function Lookup(c: Entries, wanted: Key): (addr: nat)
  {
    if c == [] then 0 else if c[0].1 == wanted then c[0].0 else Lookup(c[1..], wanted)
  }

  // An entry whose key is a proper extension of the wanted one comes before the wanted one's own entry.
  ghost predicate Shadowed(c: Entries, wanted: Key)
  {
    exists i | 0 <= i < |c| ::
      Matches(c[i].1, wanted) && c[i].1 != wanted && forall j | 0 <= j < i :: c[j].1 != wanted
  }

  // No null addresses, and one key per address.
  ghost predicate Coherent(c: Entries)
  {
    && (forall x | x in c :: x.0 != 0)
    && (forall x, y | x in c && y in c && x.0 == y.0 :: x == y)
  }

  lemma ShadowedTail(c: Entries, wanted: Key)
    requires c != [] && !Matches(c[0].1, wanted)
    ensures Shadowed(c, wanted) <==> Shadowed(c[1..], wanted)
  {
    assert forall i | 0 < i < |c| :: c[i] == c[1..][i - 1];
    if Shadowed(c, wanted) {
      var i :| 0 <= i < |c| && Matches(c[i].1, wanted) && c[i].1 != wanted && forall j | 0 <= j < i :: c[j].1 != wanted;
      assert forall j | 0 <= j < i - 1 :: c[1..][j].1 == c[j + 1].1;
      assert Matches(c[1..][i - 1].1, wanted);
    }
  }

  // Prefix matching finds the record of the wanted key, or its absence, unless a longer key is in the way.
  lemma {:induction false} PrefixMatchExact(c: Entries, wanted: Key)
    requires Coherent(c)
    ensures FirstMatch(c, wanted) == Lookup(c, wanted) <==> !Shadowed(c, wanted)
  {
    if c == [] {
    } else if c[0].1 == wanted {
    } else if Matches(c[0].1, wanted) {
      LookupIn(c, wanted);
      assert c[0] in c;
    } else {
      ShadowedTail(c, wanted);
      assert forall x | x in c[1..] :: x in c;
      PrefixMatchExact(c[1..], wanted);
    }
  }

  lemma {:induction false} LookupIn(c: Entries, wanted: Key)
    ensures Lookup(c, wanted) == 0 || (Lookup(c, wanted), wanted) in c
    ensures (forall x | x in c :: x.0 != 0) ==> (Lookup(c, wanted) == 0 <==> forall x | x in c :: x.1 != wanted)
  {
    if c != [] && c[0].1 != wanted {
      LookupIn(c[1..], wanted);
    }
  }

  // The record that a deletion is after: the one at the given address, or without an address the first whose
  // whole key is the beginning of the given one.
  predicate Meant(x: (nat, Key), key: Key, addr: nat)
  {
    if addr != 0 then x.0 == addr else x.1 <= key
  }

  function FirstMeant(c: Entries, key: Key, addr: nat): (a: nat)
  {
    if c == [] then 0 else if Meant(c[0], key, addr) then c[0].0 else FirstMeant(c[1..], key, addr)
  }

  lemma {:induction false} FirstMeantIn(c: Entries, key: Key, addr: nat)
    ensures FirstMeant(c, key, addr) == 0 || exists x | x in c :: x.0 == FirstMeant(c, key, addr) && Meant(x, key, addr)
    ensures (forall x | x in c :: x.0 != 0) ==> (FirstMeant(c, key, addr) == 0 <==> forall x | x in c :: !Meant(x, key, addr))
  {
    if c != [] && !Meant(c[0], key, addr) {
      FirstMeantIn(c[1..], key, addr);
    }
  }

  // c lists, in some order, exactly the stored keys that share the hash of the wanted key.
  ghost predicate Bucket(contents: map<Key, nat>, c: Entries, wanted: Key)
  {
    forall x :: x in c <==> x.1 in contents && contents[x.1] == x.0 && x.0 != 0 && SDBM(x.1) == SDBM(wanted)
  }

  // A finite map from keys to the addresses of records, one key for each record.
  ghost predicate OneToOne(contents: map<Key, nat>)
  {
    forall k, k' | k in contents && k' in contents && contents[k] == contents[k'] :: k == k'
  }

  function Get(contents: map<Key, nat>, k: Key): nat
  {
    if k in contents then contents[k] else 0
  }

  // A stored key with the same hash that properly extends k.
  ghost predicate Extended(contents: map<Key, nat>, k: Key)
  {
    exists k' | k' in contents :: k < k' && SDBM(k') == SDBM(k)
  }

  // When the search of the table is the lookup of the map: exactly when no longer key is met first in the
  // chain; so always when no stored key of the same hash extends the wanted one, and for an absent key only then.
  lemma SearchIsLookup(contents: map<Key, nat>, c: Entries, k: Key)
    requires OneToOne(contents) && Bucket(contents, c, k) && forall k | k in contents :: contents[k] != 0
    ensures FirstMatch(c, k) == Get(contents, k) <==> !Shadowed(c, k)
    ensures !Extended(contents, k) ==> FirstMatch(c, k) == Get(contents, k)
    ensures k !in contents ==> (FirstMatch(c, k) == 0 <==> !Extended(contents, k))
    ensures FirstMatch(c, k) == 0 ==> k !in contents
  {
    LookupIn(c, k);
    PrefixMatchExact(c, k);
    if k in contents { assert (contents[k], k) in c; }
    if Shadowed(c, k) {
      var i :| 0 <= i < |c| && Matches(c[i].1, k) && c[i].1 != k && forall j | 0 <= j < i :: c[j].1 != k;
      assert c[i] in c;
      assert k < c[i].1;
    }
    if Extended(contents, k) {
      var k' :| k' in contents && k < k' && SDBM(k') == SDBM(k);
      var x := (contents[k'], k');
      assert x in c;
      FirstMatchNonzero(c, k, x);
    }
    if k in contents { FirstMatchNonzero(c, k, (contents[k], k)); }
  }

  // With an address, a deletion is exact under any collisions: it takes out the record at that address if that
  // is filed under the hash of the given key, and otherwise nothing.
  lemma DeleteByAddress(contents: map<Key, nat>, c: Entries, k: Key, addr: nat)
    requires Bucket(contents, c, k) && addr != 0
    ensures FirstMeant(c, k, addr) in {0, addr}
    ensures FirstMeant(c, k, addr) == addr <==>
              exists k' | k' in contents :: contents[k'] == addr && SDBM(k') == SDBM(k)
  {
    FirstMeantIn(c, k, addr);
    if k' :| k' in contents && contents[k'] == addr && SDBM(k') == SDBM(k) {
      assert (addr, k') in c;
    }
  }

  lemma {:induction false} FirstMatchNonzero(c: Entries, wanted: Key, x: (nat, Key))
    requires x in c && Matches(x.1, wanted) && forall y | y in c :: y.0 != 0
    ensures FirstMatch(c, wanted) != 0
  {
    if !Matches(c[0].1, wanted) {
      assert x in c[1..];
      FirstMatchNonzero(c[1..], wanted, x);
    }
  }

  // The bytes of "d98" and of "d98wi8".
  const D98: Key := [100, 57, 56]
  const D98WI8: Key := [100, 57, 56, 119, 105, 56]

  lemma SDBMSnoc(k: Key, b: Byte)
    ensures SDBM(k + [b]) == (b + SDBM(k) * 65599) % 0x1_0000_0000
  {
    assert (k + [b])[..|k|] == k;
  }

  lemma SDBMStep(k: Key, b: Byte, h: uint32, h': uint32)
    requires SDBM(k) == h && h' == (b + h * 65599) % 0x1_0000_0000
    ensures SDBM(k + [b]) == h'
  {
    SDBMSnoc(k, b);
  }

  lemma SameHash()
    ensures SDBM(D98) == SDBM(D98WI8) == 829889699
  {
    hide SDBM;
    assert SDBM([]) == 0 by { EmptyHash(); }
    SDBMStep([], 100, 0, 100);
    assert [] + [100] == [100];
    SDBMStep([100], 57, 100, 6559957);
    assert [100] + [57] == [100, 57];
    SDBMStep([100, 57], 56, 6559957, 829889699);
    assert [100, 57] + [56] == [100, 57, 56];
    SDBMStep([100, 57, 56], 119, 829889699, 1223888020);
    assert [100, 57, 56] + [119] == [100, 57, 56, 119];
    SDBMStep([100, 57, 56, 119], 105, 1223888020, 6559957);
    assert [100, 57, 56, 119] + [105] == [100, 57, 56, 119, 105];
    SDBMStep([100, 57, 56, 119, 105], 56, 6559957, 829889699);
    assert [100, 57, 56, 119, 105] + [56] == [100, 57, 56, 119, 105, 56];
  }

  lemma EmptyHash()
    ensures SDBM([]) == 0
  {
  }

  // The map claim fails outright: with only "d98wi8" stored, a search for "d98" returns its record.
  lemma SearchMayMissTheMap()
    ensures var contents := map[D98WI8 := 1];
            OneToOne(contents) && Bucket(contents, [(1, D98WI8)], D98)
            && Get(contents, D98) == 0 && FirstMatch([(1, D98WI8)], D98) == 1
  {
    SameHash();
    assert D98 <= D98WI8;
  }

  class Table {
    const pproots: seq<Tree>
    const pool: Pool
    const records: Records
    ghost var cells: set<Node>
    ghost var place: map<Key, Node>
    ghost var contents: map<Key, nat>   // the table as a finite map from keys to records

    function Index(hash: uint32): (i: nat)
      requires |pproots| > 0
      ensures i < |pproots|
    {
      hash % |pproots|
    }

    // The trees of the table are well formed and share no nodes with each other or with the pool.
    ghost predicate Trees()
      reads `cells, pproots, pool, pool.free
      reads cells`p, cells`a, cells`e, cells`l, cells`hash, cells`lo, cells`hi, cells`count, cells`home
    {
      && |pproots| > 0 && pool.Valid()
      && (forall i, j | 0 <= i < j < |pproots| :: pproots[i] != pproots[j])
      && (forall i | 0 <= i < |pproots| :: pproots[i].nodes <= cells && pproots[i].Valid())
      && (forall i, n | 0 <= i < |pproots| && n in pproots[i].nodes :: n.home == i)
      && (forall n | n in cells :: 0 <= n.home < |pproots| && n in pproots[n.home].nodes)
    }

    // Every node carries the address of a record, and each stored key has its own node under its hash.
    ghost predicate Filed()
      reads `cells, `place, `contents, cells`hash, cells`home, cells`obj, records`key
    {
      FiledBut(null)
    }

    // The same, with one node still waiting for its record.
    ghost predicate FiledBut(m: Node?)
      reads `cells, `place, `contents, cells`hash, cells`home, cells`obj, records`key
    {
      && |pproots| > 0 && place.Keys == contents.Keys
      && (forall k | k in place ::
            && place[k] in cells && place[k] != m && place[k].hash == SDBM(k) && place[k].home == Index(SDBM(k))
            && place[k].obj == contents[k] && contents[k] in records.key && records.key[contents[k]] == k)
      && (forall n | n in cells && n != m ::
            && n.obj != 0 && n.obj in records.key
            && records.key[n.obj] in place && place[records.key[n.obj]] == n)
    }

    ghost predicate Valid()
      reads this, pproots, cells, pool, pool.free, records
    {
      Trees() && Filed()
    }

    constructor (size: nat, pool: Pool, records: Records)
      requires size > 0 && pool.Valid()
      ensures Valid() && |pproots| == size && contents == map[]
      ensures this.pool == pool && this.records == records
    {
      var roots: seq<Tree> := [];
      var i := 0;
      while i < size
        invariant 0 <= i <= size && |roots| == i
        invariant forall j | 0 <= j < i :: fresh(roots[j]) && roots[j].Valid() && roots[j].nodes == {}
        invariant forall j, k | 0 <= j < k < i :: roots[j] != roots[k]
      {
        var t := new Tree();
        roots := roots + [t];
        i := i + 1;
      }
      this.pproots := roots;
      this.pool := pool;
      this.records := records;
      this.cells := {};
      this.place, this.contents := map[], map[];
    }
  
    method AddNode(hash: uint32) returns (z: Node)
      requires Trees()
      modifies `cells, pproots, pool, pool.free
      modifies cells`p, cells`a, cells`e, cells`l, cells`lo, cells`hi, cells`count
      ensures Trees() && cells == old(cells) + {z} && z !in old(cells) && (z in old(pool.free) || fresh(z))
      ensures z.hash == hash && z.obj == 0 && z.home == Index(hash) && z !in pool.free
      ensures forall n | n in old(cells) :: n.hash == old(n.hash) && n.obj == old(n.obj) && n.home == old(n.home)
    {
      hide Tree.Valid, Pool.Valid;
      var t := pproots[Index(hash)];
      assert t.nodes <= cells;
      assert t.Apart(pool);
      z := t.Insert(hash, pool);
      Enrol(Index(hash), z);
    }

    // The trees when node z has come into the i-th and is still to be entered.
    ghost predicate TreesBut(i: nat, z: Node)
      reads `cells, pproots, pool, pool.free, z
      reads cells`p, cells`a, cells`e, cells`l, cells`hash, cells`lo, cells`hi, cells`count, cells`home
    {
      && i < |pproots| && pool.Valid() && z !in cells && z !in pool.free
      && (forall i, j | 0 <= i < j < |pproots| :: pproots[i] != pproots[j])
      && (forall j | 0 <= j < |pproots| :: pproots[j].nodes <= (if j == i then cells + {z} else cells) && pproots[j].Valid())
      && (forall j, n | 0 <= j < |pproots| && n in pproots[j].nodes && n != z :: n.home == j)
      && z in pproots[i].nodes && forall n | n in cells :: 0 <= n.home < |pproots| && n in pproots[n.home].nodes
    }

    method Enrol(i: nat, z: Node)
      requires TreesBut(i, z)
      modifies `cells, z`home
      ensures Trees() && cells == old(cells) + {z} && z.home == i
    {
      hide Tree.Valid, Pool.Valid;
      z.home := i;
      cells := cells + {z};
    }

    method RemoveNode(index: nat, n: Node)
      requires Trees() && n in cells && index == n.home
      modifies `cells, pproots, pool, n
      modifies cells`p, cells`a, cells`e, cells`l, cells`lo, cells`hi, cells`count
      ensures Trees() && cells == old(cells) - {n} && pool.free == old(pool.free) + {n}
    {
      hide Tree.Valid, Pool.Valid;
      var t := pproots[index];
      assert t.nodes <= cells;
      assert t.Apart(pool);
      t.Delete(n, pool);
      cells := cells - {n};
    }
  
    // Insertion with the outcome of the callback as a parameter: it has filed the key in the record at addr, or
    // it has failed (0) and the new node is taken out again.
    method Insert(key: Key, addr: nat) returns (z: Node?)
      requires Valid() && key !in contents && (addr != 0 ==> addr !in records.key)
      modifies this, pproots, pool, pool.free, records`key
      modifies cells`p, cells`a, cells`e, cells`l, cells`lo, cells`hi, cells`count
      ensures Valid() && (z == null <==> addr == 0)
      ensures addr == 0 ==> contents == old(contents) && cells == old(cells) && records.key == old(records.key)
      ensures addr != 0 ==> contents == old(contents)[key := addr] && records.key == old(records.key)[addr := key]
    {
      hide Trees, FiledBut;
      var hash := SDBMHash(key);
      var n := NewNode(hash);
      if addr == 0 {
        RollBack(Index(hash), n);
        return null;
      }
      File(n, key, addr);
      z := n;
    }

    method NewNode(hash: uint32) returns (z: Node)
      requires Valid()
      modifies `cells, pproots, pool, pool.free
      modifies cells`p, cells`a, cells`e, cells`l, cells`lo, cells`hi, cells`count
      ensures Trees() && FiledBut(z) && cells == old(cells) + {z} && z !in old(cells) && (z in old(pool.free) || fresh(z))
      ensures z.hash == hash && z.obj == 0 && z.home == Index(hash) && z !in pool.free
    {
      hide Trees;
      z := AddNode(hash);
    }

    method RollBack(index: nat, n: Node)
      requires Trees() && FiledBut(n) && n in cells && index == n.home
      modifies `cells, pproots, pool, n
      modifies cells`p, cells`a, cells`e, cells`l, cells`lo, cells`hi, cells`count
      ensures Valid() && cells == old(cells) - {n}
    {
      hide Trees;
      RemoveNode(index, n);
    }

    // What a successful insert callback leaves behind.
    method File(n: Node, key: Key, addr: nat)
      requires FiledBut(n) && n in cells && n.hash == SDBM(key) && n.home == Index(SDBM(key))
      requires key !in contents && addr != 0 && addr !in records.key
      modifies `place, `contents, n`obj, records`key
      ensures Filed() && contents == old(contents)[key := addr]
      ensures records.key == old(records.key)[addr := key]
    {
      n.obj := addr;
      records.key := records.key[addr := key];
      place := place[key := n];
      contents := contents[key := addr];
    }
  
    // What a walk along e from n on comes across.
    ghost function Walk(n: Node?, t: Tree): (c: Entries)
      requires Filed() && t in pproots && t.Valid() && t.nodes <= cells && (n != null ==> n in t.nodes)
      reads `cells, `place, `contents, cells, records`key, t
      decreases TreeShape.Cnt(n)
    {
      if n == null then [] else (
        assert TreeShape.Linked(n, t.nodes);
        if n.e != null then TreeShape.CountsGrow(t.nodes, t.root, null, n.e);
          [(n.obj, records.key[n.obj])] + Walk(n.e, t)
        else [(n.obj, records.key[n.obj])])
    }

    lemma WalkNull(t: Tree)
      requires Filed() && t in pproots && t.Valid() && t.nodes <= cells
      ensures Walk(null, t) == []
    {
    }

    lemma WalkStep(n: Node, t: Tree)
      requires Filed() && t in pproots && t.Valid() && t.nodes <= cells && n in t.nodes
      ensures n.obj in records.key && n.obj != 0 && n.count > TreeShape.Cnt(n.e) >= 0
      ensures (n.e != null ==> n.e in t.nodes) && Walk(n, t) == [(n.obj, records.key[n.obj])] + Walk(n.e, t)
      ensures Walk(n, t)[1..] == Walk(n.e, t)
    {
      assert TreeShape.Linked(n, t.nodes);
      if n.e != null { TreeShape.CountsGrow(t.nodes, t.root, null, n.e); }
    }

    lemma {:induction false} WalkIsChain(n: Node, t: Tree, m: Node)
      requires Filed() && t in pproots && t.Valid() && t.nodes <= cells && n in t.nodes && m in cells
      ensures (m.obj, records.key[m.obj]) in Walk(n, t) <==> m in TreeMeaning.Chain(n, t.nodes, t.root)
      ensures forall x | x in Walk(n, t) ::
                x.0 != 0 && x.1 in contents && contents[x.1] == x.0 && place[x.1] in TreeMeaning.Chain(n, t.nodes, t.root)
      decreases n.count
    {
      assert TreeShape.Linked(n, t.nodes);
      if n.e != null {
        TreeShape.CountsGrow(t.nodes, t.root, null, n.e);
        WalkIsChain(n.e, t, m);
      }
    }
  
    lemma WalkIsBucket(r: Node?, wanted: Key)
      requires Valid()
      requires r == null ==> forall n | n in pproots[Index(SDBM(wanted))].nodes :: n.hash != SDBM(wanted)
      requires var t := pproots[Index(SDBM(wanted))];
               r != null ==> (
                 t.root != null && r in t.nodes && r.hash == SDBM(wanted)
                 && forall n :: n in TreeMeaning.Chain(r, t.nodes, t.root) <==> n in t.nodes && n.hash == SDBM(wanted))
      ensures Bucket(contents, Walk(r, pproots[Index(SDBM(wanted))]), wanted)
    {
      var t := pproots[Index(SDBM(wanted))];
      var c := Walk(r, t);
      forall k | k in contents && SDBM(k) == SDBM(wanted)
        ensures (contents[k], k) in c
      {
        assert place[k] in t.nodes;
        WalkIsChain(r, t, place[k]);
      }
      forall x | x in c
        ensures x.1 in contents && contents[x.1] == x.0 && x.0 != 0 && SDBM(x.1) == SDBM(wanted)
      {
        WalkIsChain(r, t, r);
      }
    }

    // The walk of the search callback along the chain.
    method FindInChain(r: Node?, t: Tree, key: Key) returns (addr: nat)
      requires Filed() && t in pproots && t.Valid() && t.nodes <= cells && (r != null ==> r in t.nodes)
      ensures addr == FirstMatch(Walk(r, t), key)
    {
      hide Tree.Valid, FiledBut, Walk;
      assert Walk(null, t) == [] by { WalkNull(t); }
      var n := r;
      while n != null
        invariant n != null ==> n in t.nodes
        invariant FirstMatch(Walk(r, t), key) == FirstMatch(Walk(n, t), key)
        decreases TreeShape.Cnt(n)
      {
        WalkStep(n, t);
        if Matches(records.key[n.obj], key) { return n.obj; }
        n := n.e;
      }
      addr := 0;
    }

    // A list is what is met from the head of the chain of a hash on, and the head is null when no node has the hash.
    ghost predicate WalkedFrom(head: Node?, key: Key, c: Entries)
      requires Valid()
      reads this, pproots, cells, pool, pool.free, records
    {
      var t := pproots[Index(SDBM(key))];
      && (head != null ==> head in t.nodes && head.hash == SDBM(key))
      && (head == null ==> forall n | n in t.nodes :: n.hash != SDBM(key))
      && (head != null ==> forall n | n in t.nodes :: n in TreeMeaning.Chain(head, t.nodes, t.root) <==> n.hash == SDBM(key))
      && c == Walk(head, t)
    }

    // The lookup of a session: the first record of the chain whose key begins with the wanted one.
    // The list is what is met on the way from the head of the chain of the hash, if there is one.
    method Search(key: Key) returns (addr: nat, ghost c: Entries, ghost head: Node?)
      requires Valid()
      ensures Bucket(contents, c, key) && addr == FirstMatch(c, key) && WalkedFrom(head, key, c)
    {
      hide Tree.Valid, FiledBut, Walk, Bucket;
      var hash := SDBMHash(key);
      var t := pproots[Index(hash)];
      var n := t.Search(hash);
      WalkIsBucket(n, key);
      if n == null { WalkNull(t); }
      c, head := Walk(n, t), n;
      addr := FindInChain(n, t, key);
    }
  
    lemma ContentsOneToOne()
      requires Filed()
      ensures OneToOne(contents) && forall k | k in contents :: contents[k] != 0
    {
    }

    // Look a key up as the delete callback does.
    method FindMeant(r: Node?, t: Tree, key: Key, addr: nat) returns (n: Node?)
      requires Filed() && t in pproots && t.Valid() && t.nodes <= cells && (r != null ==> r in t.nodes)
      ensures n != null ==> n in t.nodes && n.obj == FirstMeant(Walk(r, t), key, addr)
      ensures n != null ==> n.obj != 0 && n.obj in records.key
      ensures n == null ==> FirstMeant(Walk(r, t), key, addr) == 0
    {
      hide Tree.Valid, FiledBut, Walk;
      assert Walk(null, t) == [] by { WalkNull(t); }
      n := r;
      while n != null
        invariant n != null ==> n in t.nodes
        invariant FirstMeant(Walk(r, t), key, addr) == FirstMeant(Walk(n, t), key, addr)
        decreases TreeShape.Cnt(n)
      {
        WalkStep(n, t);
        if if addr != 0 then n.obj == addr else records.key[n.obj] <= key { return; }
        n := n.e;
      }
    }

    // Take the node n of a record out of the table and give the record back.
    method Unfile(index: nat, n: Node)
      requires Valid() && n in cells && index == n.home && n.obj in records.key
      modifies this, pproots, pool, n, records`key
      modifies cells`p, cells`a, cells`e, cells`l, cells`lo, cells`hi, cells`count
      ensures Valid() && contents == old(contents - {records.key[n.obj]}) && records.key == old(records.key - {n.obj})
    {
      hide Trees, FiledBut;
      ghost var k := records.key[n.obj];
      var addr := n.obj;
      Unplace(n, k);
      RollBack(index, n);
      ForgetRecord(addr);
    }

    method ForgetRecord(addr: nat)
      requires Valid() && forall k | k in contents :: contents[k] != addr
      modifies records`key
      ensures Valid() && records.key == old(records.key) - {addr}
    {
      hide Trees;
      records.key := records.key - {addr};
    }

    ghost method Unplace(n: Node, k: Key)
      requires Filed() && n in cells && n.obj in records.key && k == records.key[n.obj]
      modifies `place, `contents
      ensures FiledBut(n) && contents == old(contents) - {k} && k in old(contents) && old(contents)[k] == n.obj
      ensures forall k | k in contents :: contents[k] != n.obj
    {
      assert place[k] == n;
      place := place - {k};
      contents := contents - {k};
    }

    method FindForDelete(key: Key, addr: nat) returns (index: nat, n: Node?, ghost c: Entries)
      requires Valid()
      ensures Bucket(contents, c, key) && (n == null <==> FirstMeant(c, key, addr) == 0)
      ensures n != null ==>
                n in cells && index == n.home && n.obj == FirstMeant(c, key, addr) && n.obj in records.key
    {
      hide Tree.Valid, Walk, Bucket, FiledBut;
      var hash := SDBMHash(key);
      index := Index(hash);
      var t := pproots[index];
      var r := t.Search(hash);
      WalkIsBucket(r, key);
      c := Walk(r, t);
      n := FindMeant(r, t, key, addr);
    }

    method Delete(key: Key, addr: nat) returns (ghost target: nat, ghost c: Entries)
      requires Valid()
      modifies this, pproots, pool, cells, records`key
      ensures Valid() && Bucket(old(contents), c, key) && target == FirstMeant(c, key, addr)
      ensures target != 0 ==> target in old(records.key)
      ensures target == 0 || target in InUse() ==> contents == old(contents) && records.key == old(records.key)
      ensures target != 0 && target !in InUse() ==>
                contents == old(contents) - {old(records.key)[target]} && records.key == old(records.key) - {target}
    {
      hide Trees, FiledBut, Bucket;
      var index, n;
      index, n, c := FindForDelete(key, addr);
      target := FirstMeant(c, key, addr);
      if n == null { return; }
      if n.obj in records.col_session && records.col_session[n.obj] > 0 { return; }
      Unfile(index, n);
    }

    // What an INVITE does with its call-id: a record found is used again, and only after a failed search is a
    // new one filed.  So no key is ever filed twice.
    method FindOrInsert(key: Key, spare: nat) returns (addr: nat, ghost c: Entries)
      requires Valid() && (spare != 0 ==> spare !in records.key)
      modifies this, pproots, pool, pool.free, records`key
      modifies cells`p, cells`a, cells`e, cells`l, cells`lo, cells`hi, cells`count
      ensures Valid() && Bucket(old(contents), c, key)
      ensures FirstMatch(c, key) != 0 ==> addr == FirstMatch(c, key) && contents == old(contents)
      ensures FirstMatch(c, key) == 0 ==>
                addr == spare && key !in old(contents)
                && contents == if spare == 0 then old(contents) else old(contents)[key := spare]
    {
      hide FiledBut, Trees, Bucket, Walk, Tree.Valid;
      ghost var head;
      addr, c, head := Search(key);
      if addr == 0 {
        ContentsOneToOne();
        SearchIsLookup(contents, c, key);
        var z := Insert(key, spare);
        addr := spare;
      }
    }

    // The records that something still holds on to.
    ghost function InUse(): set<nat>
      reads records`col_session
    {
      set a | a in records.col_session && records.col_session[a] > 0
    }
  }
}
