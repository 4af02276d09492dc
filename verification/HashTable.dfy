/**
 The store's hash table: two bucket arrays, between which a resize moves the
 entries a few buckets at a time while the table stays in use.
 */
module HashTable {
  import opened Prelude
  import opened Buckets

  const INITIAL_BUCKETS := 16

  ghost predicate BucketCount(n: nat) {
    n == INITIAL_BUCKETS || (n > INITIAL_BUCKETS && n % 2 == 0 && BucketCount(n / 2))
  }

  /** More than three entries for four buckets. */
  predicate Crowded(entries: nat, buckets: nat) {
    4 * entries > 3 * buckets
  }

  /** Fewer than one entry for ten buckets, in a table that can be halved. */
  predicate Sparse(entries: nat, buckets: nat) {
    buckets > INITIAL_BUCKETS && 10 * entries < buckets
  }

  /** How far a table at rest would still have to go before its load is in range; zero when it is. */
  function Unrest(entries: nat, buckets: nat): (r: nat) {
    if Crowded(entries, buckets) then 4 * entries - 3 * buckets else if Sparse(entries, buckets) then buckets else 0
  }

  /** The bucket count a resize starts for. */
  predicate Next(entries: nat, buckets: nat, size: nat) {
    if Crowded(entries, buckets) then size == 2 * buckets else Sparse(entries, buckets) && 2 * size == buckets
  }

  lemma UnrestFalls(entries: nat, buckets: nat, size: nat)
    requires buckets > 0 && Next(entries, buckets, size)
    ensures Unrest(entries, size) < Unrest(entries, buckets)
  {
  }

  function Index(h: nat, size: nat): (i: nat)
    requires size > 0
    ensures i < size
  {
    h % size
  }

  ghost predicate Names<V>(nodes: map<Key, Node<V>>, all: set<Node<V>>) {
    && (forall n :: n in all ==> n.key in nodes && nodes[n.key] == n)
    && (forall k :: k in nodes ==> nodes[k].key == k && nodes[k] in all)
  }

  lemma AddName<V>(nodes: map<Key, Node<V>>, all: set<Node<V>>, n: Node<V>)
    requires Names(nodes, all) && n.key !in nodes
    ensures Names(nodes[n.key := n], all + {n}) && |nodes[n.key := n]| == |nodes| + 1
  {
  }

  lemma NamedOnce<V>(nodes: map<Key, Node<V>>, all: set<Node<V>>, visited: seq<Node<V>>)
    requires Names(nodes, all) && Distinct(visited) && forall n :: n in visited <==> n in all
    ensures forall k :: k in nodes ==> nodes[k] in visited
    ensures forall a :: 0 <= a < |visited| ==> visited[a].key in nodes && nodes[visited[a].key] == visited[a]
    ensures forall a, b :: 0 <= a < b < |visited| ==> visited[a].key != visited[b].key
  {
    forall a | 0 <= a < |visited|
      ensures visited[a].key in nodes && nodes[visited[a].key] == visited[a]
    {
      assert visited[a] in visited;
    }
  }

  lemma DropName<V>(nodes: map<Key, Node<V>>, all: set<Node<V>>, n: Node<V>)
    requires Names(nodes, all) && n in all
    ensures n.key in nodes && Names(nodes - {n.key}, all - {n}) && |nodes - {n.key}| == |nodes| - 1
  {
  }

  ghost predicate Below<V>(hash: Key -> nat, ns: set<Node<V>>, size: nat, hi: nat)
    requires size > 0
  {
    forall n :: n in ns ==> Index(hash(n.key), size) < hi
  }

  lemma BelowMore<V>(hash: Key -> nat, ns: set<Node<V>>, size: nat, hi: nat)
    requires size > 0 && Below(hash, ns, size, hi)
    ensures Below(hash, ns, size, hi + 1)
  {
  }

  lemma BelowFewer<V>(hash: Key -> nat, ns: set<Node<V>>, fewer: set<Node<V>>, size: nat, hi: nat)
    requires size > 0 && Below(hash, ns, size, hi) && fewer <= ns
    ensures Below(hash, fewer, size, hi)
  {
  }

  lemma BelowWithOne<V>(hash: Key -> nat, ns: set<Node<V>>, n: Node<V>, size: nat, hi: nat)
    requires size > 0 && Below(hash, ns, size, hi) && Index(hash(n.key), size) < hi
    ensures Below(hash, ns + {n}, size, hi)
  {
  }

  lemma BucketCounts(n: nat)
    requires BucketCount(n)
    ensures BucketCount(2 * n) && n >= INITIAL_BUCKETS
    ensures n > INITIAL_BUCKETS ==> BucketCount(n / 2) && 2 * (n / 2) == n
  {
    assert 2 * n / 2 == n;
  }

  ghost predicate Cleared<V>(chains: seq<seq<Node<V>>>, lo: nat) {
    forall i :: 0 <= i < lo && i < |chains| ==> chains[i] == []
  }

  lemma ClearedOneMore<V>(chains: seq<seq<Node<V>>>, i: nat)
    requires Cleared(chains, i) && i < |chains|
    ensures Cleared(chains[i := []], i + 1) && (chains[i] == [] ==> Cleared(chains, i + 1))
  {
  }

  lemma ClearedStill<V>(before: seq<seq<Node<V>>>, after: seq<seq<Node<V>>>, lo: nat)
    requires Cleared(before, lo) && |after| == |before|
    requires forall k :: 0 <= k < lo && k < |before| ==> after[k] == before[k]
    ensures Cleared(after, lo)
  {
  }

  ghost predicate Separate<V>(a: Table<V>, b: Table<V>)
    reads a, b
  {
    a != b && a.heads != b.heads && a.repr !! b.repr
  }

  /** Every node is in the bucket of its key. */
  ghost predicate Hashed<V>(hash: Key -> nat, t: Table<V>)
    requires t.heads.Length > 0
    reads t`repr, t.repr`slot
  {
    forall n :: n in t.repr ==> n.slot == Index(hash(n.key), t.heads.Length)
  }

  lemma NoneHashed<V>(hash: Key -> nat, t: Table<V>)
    requires t.heads.Length > 0 && t.repr == {}
    ensures Hashed(hash, t)
  {
  }

  /** Two well-formed arrays that share nothing, with every node in the bucket of its key. */
  ghost predicate Pair<V>(hash: Key -> nat, from: Table<V>, to: Table<V>)
    reads from, from.heads, to, to.heads
    reads from.repr`next, from.repr`slot, from.repr`rank, to.repr`next, to.repr`slot, to.repr`rank
  {
    && from.Valid() && to.Valid() && Separate(from, to)
    && from.heads.Length > 0 && to.heads.Length > 0 && Hashed(hash, from) && Hashed(hash, to)
  }

  /** Relinks the first node of an old bucket onto the head of its bucket in the new array. */
  method RelinkOne<V>(hash: Key -> nat, from: Table<V>, to: Table<V>, i: nat) returns (n: Node<V>)
    requires Pair(hash, from, to) && i < |from.chains| && from.chains[i] != []
    modifies from, from.heads, to, to.heads, from.repr`next, from.repr`slot, from.repr`rank
    ensures Pair(hash, from, to) && from.chains == old(from.chains)[i := old(from.chains)[i][1..]]
    ensures n in old(from.repr) && Index(hash(n.key), from.heads.Length) == i
    ensures from.repr == old(from.repr) - {n} && to.repr == old(to.repr) + {n}
    ensures from.repr + to.repr == old(from.repr + to.repr)
  {
    hide Table.Valid, Index;
    to.OneChainEach();
    n := from.PopFront(i);
    assert Hashed(hash, from);
    to.PushFront(Index(hash(n.key), to.heads.Length), n);
    assert Hashed(hash, from) && Hashed(hash, to);
  }

  /** Links a new node in at the head of its key's bucket. */
  method PutNew<V>(hash: Key -> nat, t: Table<V>, key: Key, value: V) returns (n: Node<V>)
    requires t.Valid() && t.heads.Length > 0 && Hashed(hash, t)
    modifies t, t.heads
    ensures t.Valid() && Hashed(hash, t) && fresh(n) && n.key == key && n.value == value
    ensures t.repr == old(t.repr) + {n}
    ensures var i := Index(hash(key), t.heads.Length); i < |old(t.chains)| && t.chains == old(t.chains)[i := [n] + old(t.chains)[i]]
  {
    hide Table.Valid, Index;
    t.OneChainEach();
    n := new Node(key, value);
    t.PushFront(Index(hash(key), t.heads.Length), n);
  }

  /** Unlinks the node with this key, if its bucket has one. */
  method TakeOut<V>(hash: Key -> nat, t: Table<V>, key: Key) returns (n: Node?<V>)
    requires t.Valid() && t.heads.Length > 0 && Hashed(hash, t)
    modifies t, t.heads, t.repr`next
    ensures t.Valid() && Hashed(hash, t) && |t.chains| == |old(t.chains)| == t.heads.Length
    ensures n == null ==> t.repr == old(t.repr) && t.chains == old(t.chains)
    ensures n == null ==> forall m :: m in t.chains[Index(hash(key), t.heads.Length)] ==> m.key != key
    ensures n != null ==> n in old(t.repr) && n.key == key && t.repr == old(t.repr) - {n}
    ensures forall k :: 0 <= k < |t.chains| && k != Index(hash(key), t.heads.Length) ==> t.chains[k] == old(t.chains)[k]
  {
    hide Table.Valid, Index;
    t.OneChainEach();
    n := t.Unlink(Index(hash(key), t.heads.Length), key);
  }

  /** Relinks every node of one old bucket. */
  method Relink<V>(hash: Key -> nat, from: Table<V>, to: Table<V>, i: nat)
    requires Pair(hash, from, to) && i < |from.chains| == from.heads.Length
    requires Below(hash, to.repr, from.heads.Length, i)
    modifies from, from.heads, to, to.heads, from.repr`next, from.repr`slot, from.repr`rank
    ensures Pair(hash, from, to) && from.chains == old(from.chains)[i := []]
    ensures from.repr <= old(from.repr) && from.repr + to.repr == old(from.repr + to.repr)
    ensures Below(hash, to.repr, from.heads.Length, i + 1)
  {
    hide Pair, Index, Below;
    BelowMore(hash, to.repr, from.heads.Length, i);
    HeadIs(hash, from, to, i);
    ghost var mine := from.repr;
    while from.heads[i] != null
      invariant Pair(hash, from, to) && |from.chains| == |old(from.chains)|
      invariant from.heads[i] == null <==> from.chains[i] == []
      invariant from.chains == old(from.chains)[i := from.chains[i]]
      invariant from.repr <= old(from.repr) && from.repr + to.repr == old(from.repr + to.repr)
      invariant Below(hash, to.repr, from.heads.Length, i + 1)
      decreases |from.chains[i]|
      modifies from, from.heads, to, to.heads, mine`next, mine`slot, mine`rank
    {
      ghost var before := to.repr;
      var n := RelinkOne(hash, from, to, i);
      BelowWithOne(hash, before, n, from.heads.Length, i + 1);
      HeadIs(hash, from, to, i);
    }
  }

  lemma HeadIs<V>(hash: Key -> nat, from: Table<V>, to: Table<V>, i: nat)
    requires Pair(hash, from, to) && i < from.heads.Length
    ensures |from.chains| == from.heads.Length && (from.heads[i] == null <==> from.chains[i] == [])
  {
    from.HeadsAndChains(i);
  }

  class HashTable<V> {
    const hash: Key -> nat

    var from: Table<V>        // the entries; while resizing, those not moved yet
    var to: Table?<V>         // while resizing, the new array
    var rehashIdx: nat        // the old buckets below this one have been moved
    var numEntries: nat

    ghost var nodes: map<Key, Node<V>>
    ghost var began: nat      // entries when the call that began the resize returned
    ghost var calls: nat      // Set and Del calls since

    ghost function All(): (r: set<Node<V>>)
      reads this`from, this`to, from, to
    {
      from.repr + if to == null then {} else to.repr
    }

    ghost function Model(): (m: map<Key, V>)
      reads this`nodes, nodes.Values`value
    {
      map k | k in nodes :: nodes[k].value
    }

    /**
     Every node is in its key's bucket of its array. While resizing, the old
     buckets below `i` are empty, and only the keys of those have moved.
     */
    ghost predicate Laid(i: nat)
      reads this`from, this`to, from, from.heads, to, if to == null then {} else {to.heads}
      reads All()`next, All()`slot, All()`rank
    {
      && BucketCount(from.heads.Length)
      && if to == null then
           from.Valid() && from.heads.Length > 0 && Hashed(hash, from)
         else
           && Pair(hash, from, to) && Cleared(from.chains, i) && Below(hash, to.repr, from.heads.Length, i)
           && BucketCount(to.heads.Length)
           && (to.heads.Length == 2 * from.heads.Length || 2 * to.heads.Length == from.heads.Length)
    }

    /** Exactly one node for each key. */
    ghost predicate Indexed()
      reads this`from, this`to, this`nodes, from, to
    {
      Names(nodes, All())
    }

    /**
     Few enough entries to have begun with. A grow from B buckets or a shrink to them leaves
     fewer than 22 entries for ten buckets, and the call that began the next one can only add one.
     */
    ghost predicate Bounded(entries: nat)
      reads this`from, this`to
    {
      10 * entries < (if to != null && to.heads.Length < from.heads.Length then from.heads.Length else 22 * from.heads.Length) + 10
    }

    ghost predicate Paced()
      reads this`from, this`to, this`rehashIdx, this`numEntries, this`began, this`calls
    {
      if to == null then
        rehashIdx == 0 && !Crowded(numEntries, from.heads.Length) && !Sparse(numEntries, from.heads.Length)
      else
        && rehashIdx < from.heads.Length && calls <= rehashIdx
        && began - calls <= numEntries <= began + calls && Bounded(began)
    }

    /** An old bucket that holds something. */
    ghost predicate Occupied(i: nat)
      reads this`from, from`chains
    {
      i < |from.chains| && from.chains[i] != []
    }

    ghost predicate Valid()
      reads this, from, from.heads, to, if to == null then {} else {to.heads}
      reads All()`next, All()`slot, All()`rank
    {
      Laid(rehashIdx) && Indexed() && numEntries == |nodes| && Paced()
    }

    constructor (hash: Key -> nat)
      ensures Valid() && Model() == map[] && this.hash == hash
      ensures nodes == map[] && to == null && from.heads.Length == INITIAL_BUCKETS && fresh(from) && fresh(from.heads) && All() == {}
    {
      this.hash := hash;
      from := new Table(INITIAL_BUCKETS);
      to, rehashIdx, numEntries := null, 0, 0;
      nodes, began, calls := map[], 0, 0;
    }

    /** The one bucket a key can be in. */
    function BucketFor(key: Key): (b: (Table<V>, nat))
      requires from.heads.Length > 0 && (to != null ==> to.heads.Length > 0)
      reads this`from, this`to, this`rehashIdx
      ensures b.1 < b.0.heads.Length
    {
      var i := Index(hash(key), from.heads.Length);
      if to != null && i < rehashIdx then (to, Index(hash(key), to.heads.Length)) else (from, i)
    }

    lemma BucketsReady()
      requires Laid(rehashIdx)
      ensures from.Valid() && from.heads.Length == |from.chains| > 0
      ensures to != null ==> to.Valid() && to.heads.Length == |to.chains| > 0
    {
    }

    lemma OnlyThere(key: Key)
      requires Laid(rehashIdx) && Indexed() && from.heads.Length > 0 && (to != null ==> to.heads.Length > 0)
      ensures var (t, i) := BucketFor(key); i < |t.chains| && t.Valid()
      ensures var (t, i) := BucketFor(key); key in nodes ==> nodes[key].key == key && nodes[key] in t.chains[i]
      ensures var (t, i) := BucketFor(key); forall n :: n in t.chains[i] ==> n in All() && n.key in nodes && nodes[n.key] == n
    {
      BucketsReady();
      if key in nodes {
        var n := nodes[key];
        assert n in from.repr ==> n in from.chains[n.slot];
      }
    }

    /** Looks in one bucket only. */
    method Find(key: Key) returns (n: Node?<V>)
      requires Laid(rehashIdx) && Indexed()
      ensures n == (if key in nodes then nodes[key] else null) && (n != null ==> n.key == key && n in All())
    {
      hide Laid, Indexed, Table.Valid;
      BucketsReady();
      OnlyThere(key);
      var (t, i) := BucketFor(key);
      var link;
      ghost var j;
      link, n, j := t.Find(i, key);
    }

    /** Moves the next old bucket. */
    method MoveBucket()
      requires Laid(rehashIdx) && Indexed() && to != null && rehashIdx < from.heads.Length
      modifies from, from.heads, to, to.heads, from.repr`next, from.repr`slot, from.repr`rank
      ensures Laid(rehashIdx + 1) && Indexed()
      ensures All() == old(All()) && from.repr <= old(from.repr)
    {
      hide Pair, BucketCount, Index, Names, Below, Cleared;
      HeadIs(hash, from, to, rehashIdx);
      ClearedOneMore(from.chains, rehashIdx);
      Relink(hash, from, to, rehashIdx);
    }

    method StartResize(size: nat)
      requires Laid(0) && Indexed() && to == null && rehashIdx == 0
      requires BucketCount(size) && (size == 2 * from.heads.Length || 2 * size == from.heads.Length)
      requires 10 * numEntries < (if size > from.heads.Length then 22 * from.heads.Length else from.heads.Length) + 10
      modifies this`to, this`began, this`calls
      ensures Laid(0) && Indexed() && Paced() && All() == old(All())
      ensures to != null && fresh(to) && fresh(to.heads) && to.heads.Length == size && began == numEntries && calls == 0
    {
      hide Table.Valid, Index, Names, Hashed;
      BucketCounts(size);
      var t := new Table<V>(size);
      NoneHashed(hash, t);
      to := t;
      began, calls := numEntries, 0;
      assert Separate(from, to);
    }

    /** Starts a resize if the load has left its range, unless one is going on. */
    method MaybeResize()
      requires Laid(rehashIdx) && Indexed() && numEntries == |nodes|
      requires if to == null then rehashIdx == 0 && Bounded(numEntries) else Paced()
      modifies this`to, this`began, this`calls
      ensures Valid() && All() == old(All())
      ensures old(to) != null ==> to == old(to) && began == old(began) && calls == old(calls)
      ensures to != null && old(to) == null ==> fresh(to) && fresh(to.heads) && began == numEntries && calls == 0
      ensures to != null && old(to) == null ==> Next(numEntries, from.heads.Length, to.heads.Length)
    {
      hide Indexed, BucketCount, Pair, Table.Valid;
      BucketCounts(from.heads.Length);
      hide Laid;
      if to == null {
        var buckets := from.heads.Length;
        if Crowded(numEntries, buckets) {
          StartResize(2 * buckets);
        } else if Sparse(numEntries, buckets) {
          StartResize(buckets / 2);
        }
      }
    }

    /**
     Moves up to `n` old buckets, passing over at most ten empty ones for each.
     When none is left the new array takes over.
     */
    method RehashStep(n: nat) returns (more: bool, ghost full: nat, ghost empty: nat)
      requires Valid()
      modifies this, from, from.heads, to, if to == null then {} else {to.heads}, from.repr`next, from.repr`slot, from.repr`rank
      ensures Valid() && All() == old(All()) && nodes == old(nodes) && numEntries == old(numEntries)
      ensures Model() == old(Model())
      ensures more == (to != null) && full <= n && empty <= 10 * n
      ensures old(to) == null ==> to == null && from == old(from)
      ensures to == old(to) != null ==> from == old(from) && rehashIdx == old(rehashIdx) + full + empty && began == old(began) && calls == old(calls)
      ensures to == old(to) != null && n > 0 ==> rehashIdx > old(rehashIdx)
      ensures old(to) != null && to != old(to) ==>
        from == old(to) && old(rehashIdx) + full + empty == old(from.heads.Length)
      ensures to != null && to != old(to) ==> fresh(to) && fresh(to.heads) && rehashIdx == 0 && calls == 0 && began == numEntries
      ensures to != null && to != old(to) ==> Next(numEntries, from.heads.Length, to.heads.Length)
      ensures old(to) != null && to != old(to) ==> 10 * numEntries < 22 * from.heads.Length
      ensures old(to) != null && n >= old(from.heads.Length) - old(rehashIdx) ==> to != old(to)
      ensures old(to) != null && n == 1 && old(Occupied(rehashIdx)) ==> full == 1 && empty == 0
    {
      hide Laid, Indexed, Model, Occupied;
      full, empty := 0, 0;
      if to == null {
        return false, 0, 0;
      }
      Sizes();
      full, empty := Advance(n);
      assert Model() == old(Model());
      if rehashIdx == from.heads.Length {
        TakeOver();
      }
      more := to != null;
    }

    method Advance(n: nat) returns (ghost full: nat, ghost empty: nat)
      requires Laid(rehashIdx) && Indexed() && to != null && rehashIdx < from.heads.Length
      modifies this`rehashIdx, from, from.heads, to, to.heads, from.repr`next, from.repr`slot, from.repr`rank
      ensures Laid(rehashIdx) && Indexed() && All() == old(All()) && full <= n && empty <= 10 * n
      ensures rehashIdx == old(rehashIdx) + full + empty <= from.heads.Length
      ensures n > 0 ==> rehashIdx > old(rehashIdx)
      ensures n >= from.heads.Length - old(rehashIdx) ==> rehashIdx == from.heads.Length
      ensures n == 1 && old(Occupied(rehashIdx)) ==> full == 1 && empty == 0
    {
      hide Laid, Indexed;
      full, empty := 0, 0;
      BucketHead(rehashIdx);
      var left: nat, emptyVisits: nat := n, 10 * n;
      ghost var mine := from.repr;
      while left > 0 && rehashIdx < from.heads.Length
        invariant Laid(rehashIdx) && Indexed() && All() == old(All()) && from.repr <= mine
        invariant left + full == n && emptyVisits + empty == 10 * n && (left > 0 ==> emptyVisits > 0)
        invariant rehashIdx == old(rehashIdx) + full + empty <= from.heads.Length
        invariant full + empty == 0 ==> from.heads[rehashIdx] == old(from.heads[rehashIdx])
        invariant n == 1 && old(Occupied(rehashIdx)) ==> empty == 0
        decreases from.heads.Length - rehashIdx
        modifies this`rehashIdx, from, from.heads, to, to.heads, mine`next, mine`slot, mine`rank
      {
        if from.heads[rehashIdx] == null {
          PassEmpty();
          emptyVisits, empty := emptyVisits - 1, empty + 1;
          if emptyVisits == 0 {
            rehashIdx := rehashIdx + 1;
            break;
          }
        } else {
          MoveBucket();
          left, full := left - 1, full + 1;
        }
        rehashIdx := rehashIdx + 1;
      }
    }

    lemma Sizes()
      requires Laid(rehashIdx)
      ensures from.heads.Length > 0
      ensures to != null ==> to.heads.Length == 2 * from.heads.Length || 2 * to.heads.Length == from.heads.Length
    {
    }

    lemma BucketHead(i: nat)
      requires Laid(rehashIdx) && to != null && i < from.heads.Length
      ensures Occupied(i) <==> from.heads[i] != null
    {
      HeadIs(hash, from, to, i);
    }

    lemma PassEmpty()
      requires Laid(rehashIdx) && to != null && rehashIdx < from.heads.Length && from.heads[rehashIdx] == null
      ensures Laid(rehashIdx + 1)
    {
      HeadIs(hash, from, to, rehashIdx);
      BelowMore(hash, to.repr, from.heads.Length, rehashIdx);
      ClearedOneMore(from.chains, rehashIdx);
    }

    /** The old array is empty: the new one becomes the table. */
    method TakeOver()
      requires Laid(rehashIdx) && Indexed() && to != null && rehashIdx == from.heads.Length && numEntries == |nodes|
      requires 10 * numEntries < 22 * to.heads.Length
      modifies this
      ensures Valid() && All() == old(All()) && from == old(to) && nodes == old(nodes) && numEntries == old(numEntries)
      ensures to != null ==> fresh(to) && fresh(to.heads) && rehashIdx == 0 && calls == 0 && began == numEntries
      ensures to != null ==> Next(numEntries, from.heads.Length, to.heads.Length)
    {
      hide Laid, Indexed, Paced, Valid, Table.Valid, Pair, Names;
      SwapIn();
      MaybeResize();
    }

    method SwapIn()
      requires Laid(rehashIdx) && Indexed() && to != null && rehashIdx == from.heads.Length
      modifies this`from, this`to, this`rehashIdx
      ensures Laid(0) && Indexed() && rehashIdx == 0 && to == null && from == old(to) && All() == old(All())
    {
      hide Laid, Table.Valid, Index, Names, Hashed, BucketCount;
      NoneLeft();
      NewReady();
      ghost var all := to.repr;
      assert All() == all;
      from, to, rehashIdx := to, null, 0;
      LaidAlone();
      assert All() == all;
    }

    lemma NewReady()
      requires Laid(rehashIdx) && to != null
      ensures to.Valid() && to.heads.Length > 0 && Hashed(hash, to) && BucketCount(to.heads.Length)
    {
      hide Table.Valid, Index, Hashed, BucketCount, Below, Cleared;
    }

    lemma LaidAlone()
      requires to == null && from.Valid() && from.heads.Length > 0 && Hashed(hash, from) && BucketCount(from.heads.Length)
      ensures Laid(0)
    {
    }

    lemma NoneLeft()
      requires Laid(rehashIdx) && to != null && rehashIdx == from.heads.Length
      ensures from.repr == {}
    {
      assert forall n :: n in from.repr ==> n in from.chains[n.slot];
    }

    method Insert(key: Key, value: V)
      requires Laid(rehashIdx) && Indexed() && key !in nodes && numEntries == |nodes|
      modifies this`nodes, this`numEntries, from, from.heads, to, if to == null then {} else {to.heads}
      ensures Laid(rehashIdx) && Indexed() && numEntries == |nodes| == old(numEntries) + 1
      ensures Model() == old(Model())[key := value]
      ensures key in nodes && nodes == old(nodes)[key := nodes[key]] && fresh(nodes[key]) && nodes[key].value == value
      ensures All() == old(All()) + {nodes[key]}
    {
      hide Laid, Table.Valid, Index, Names, Model;
      BucketsReady();
      ghost var all := All();
      var n;
      if to != null && Index(hash(key), from.heads.Length) < rehashIdx {
        n := LinkNew(key, value);
      } else {
        n := LinkOld(key, value);
      }
      assert Model() == old(Model()) && Names(nodes, all);
      Record(all, n);
    }

    method Record(ghost all: set<Node<V>>, ghost n: Node<V>)
      requires Laid(rehashIdx) && Names(nodes, all) && All() == all + {n} && n.key !in nodes && numEntries == |nodes|
      modifies this`nodes, this`numEntries
      ensures Laid(rehashIdx) && Indexed() && nodes == old(nodes)[n.key := n]
      ensures numEntries == |nodes| == old(numEntries) + 1
      ensures Model() == old(Model())[n.key := n.value]
    {
      hide Laid, Names;
      AddName(nodes, all, n);
      nodes := nodes[n.key := n];
      numEntries := numEntries + 1;
    }

    method LinkNew(key: Key, value: V) returns (n: Node<V>)
      requires Laid(rehashIdx) && to != null && from.heads.Length > 0 && Index(hash(key), from.heads.Length) < rehashIdx
      modifies to, to.heads
      ensures Laid(rehashIdx) && fresh(n) && n.key == key && n.value == value && All() == old(All()) + {n}
    {
      hide Table.Valid, Index, Hashed, BucketCount, Below;
      ghost var moved := to.repr;
      n := PutNew(hash, to, key, value);
      BelowWithOne(hash, moved, n, from.heads.Length, rehashIdx);
    }

    method LinkOld(key: Key, value: V) returns (n: Node<V>)
      requires Laid(rehashIdx) && from.heads.Length > 0
      requires to == null || Index(hash(key), from.heads.Length) >= rehashIdx
      modifies from, from.heads
      ensures Laid(rehashIdx) && fresh(n) && n.key == key && n.value == value && All() == old(All()) + {n}
    {
      hide Table.Valid, Index, Hashed, BucketCount, Below, Cleared;
      ghost var chains := from.chains;
      n := PutNew(hash, from, key, value);
      if to != null {
        assert Pair(hash, from, to);
        ClearedStill(chains, from.chains, rehashIdx);
      }
    }

    /** Unlinks the key's node, if there is one. */
    method Remove(key: Key) returns (found: bool)
      requires Laid(rehashIdx) && Indexed() && numEntries == |nodes|
      modifies this`nodes, this`numEntries, from, from.heads, to, if to == null then {} else {to.heads}, All()`next
      ensures Laid(rehashIdx) && Indexed() && numEntries == |nodes|
      ensures found == (key in old(nodes)) && nodes == old(nodes) - {key}
      ensures numEntries == old(numEntries) - (if found then 1 else 0) && Model() == old(Model()) - {key}
      ensures unchanged(`from, `to, `rehashIdx, `began, `calls) && All() <= old(All())
    {
      hide Laid, Table.Valid, Index, Names, Model;
      ghost var all := All();
      var n := Unlink(key);
      if n == null {
        Absent(key);
        return false;
      }
      Forget(all, n);
      return true;
    }

    lemma Absent(key: Key)
      requires key !in nodes
      ensures Model() - {key} == Model() && nodes - {key} == nodes
    {
    }

    lemma ModelMeans()
      ensures Model().Keys == nodes.Keys && forall k :: k in nodes ==> Model()[k] == nodes[k].value
    {
    }

    lemma ModelWithout(m: map<Key, V>, key: Key)
      requires nodes.Keys == m.Keys - {key} && forall k :: k in nodes ==> nodes[k].value == m[k]
      ensures Model() == m - {key}
    {
    }

    method Forget(ghost all: set<Node<V>>, ghost n: Node<V>)
      requires Laid(rehashIdx) && Names(nodes, all) && n in all && All() == all - {n} && numEntries == |nodes|
      modifies this`nodes, this`numEntries
      ensures Laid(rehashIdx) && Indexed() && n.key in old(nodes) && nodes == old(nodes) - {n.key}
      ensures Model() == old(Model()) - {n.key}
      ensures numEntries == |nodes| == old(numEntries) - 1
    {
      hide Laid, Names, Model, All;
      DropName(nodes, all, n);
      ghost var m := Model();
      ModelMeans();
      nodes := nodes - {n.key};
      numEntries := numEntries - 1;
      ModelWithout(m, n.key);
    }

    method Unlink(key: Key) returns (n: Node?<V>)
      requires Laid(rehashIdx) && Indexed()
      modifies from, from.heads, to, if to == null then {} else {to.heads}, All()`next
      ensures Laid(rehashIdx) && (if n == null then All() == old(All()) else n in old(All()) && n.key == key && All() == old(All()) - {n})
      ensures (n == null ==> key !in nodes) && Model() == old(Model())
    {
      hide Laid, Table.Valid, Index, Names, Model;
      BucketsReady();
      OnlyThere(key);
      hide Indexed;
      if to != null && Index(hash(key), from.heads.Length) < rehashIdx {
        n := UnlinkNew(key);
      } else {
        n := UnlinkOld(key);
      }
    }

    method UnlinkNew(key: Key) returns (n: Node?<V>)
      requires Laid(rehashIdx) && to != null && from.heads.Length > 0 && Index(hash(key), from.heads.Length) < rehashIdx
      modifies to, to.heads, to.repr`next
      ensures Laid(rehashIdx) && (if n == null then All() == old(All()) else n in old(All()) && n.key == key && All() == old(All()) - {n})
      ensures n == null ==> forall m :: m in old(to.chains)[Index(hash(key), to.heads.Length)] ==> m.key != key
    {
      hide Table.Valid, Index, Hashed, BucketCount, Below;
      ghost var moved := to.repr;
      n := TakeOut(hash, to, key);
      BelowFewer(hash, moved, to.repr, from.heads.Length, rehashIdx);
    }

    method UnlinkOld(key: Key) returns (n: Node?<V>)
      requires Laid(rehashIdx) && from.heads.Length > 0
      requires to == null || Index(hash(key), from.heads.Length) >= rehashIdx
      modifies from, from.heads, from.repr`next
      ensures Laid(rehashIdx) && (if n == null then All() == old(All()) else n in old(All()) && n.key == key && All() == old(All()) - {n})
      ensures n == null ==> forall m :: m in old(from.chains)[Index(hash(key), from.heads.Length)] ==> m.key != key
    {
      hide Table.Valid, Index, Hashed, BucketCount, Below, Cleared;
      ghost var chains := from.chains;
      n := TakeOut(hash, from, key);
      if to != null {
        assert Pair(hash, from, to);
        ClearedStill(chains, from.chains, rehashIdx);
      }
    }

    /** Overwrites the key's node where it is, or links a new one in. */
    method Put(key: Key, value: V) returns (inserted: bool)
      requires Laid(rehashIdx) && Indexed() && numEntries == |nodes|
      modifies this`nodes, this`numEntries, from, from.heads, to, if to == null then {} else {to.heads}, All()`value
      ensures Laid(rehashIdx) && Indexed() && numEntries == |nodes|
      ensures inserted == (key !in old(nodes)) && numEntries == old(numEntries) + (if inserted then 1 else 0)
      ensures key in nodes && nodes == old(nodes)[key := nodes[key]] && Model() == old(Model())[key := value]
      ensures All() == old(All()) + {nodes[key]} && if inserted then fresh(nodes[key]) else nodes == old(nodes)
      ensures unchanged(`from, `to, `rehashIdx, `began, `calls)
    {
      hide Laid, Table.Valid, Names, Model;
      var n := Find(key);
      inserted := n == null;
      if n != null {
        Overwrite(n, value);
      } else {
        Insert(key, value);
      }
    }

    method Overwrite(n: Node<V>, value: V)
      requires n.key in nodes && nodes[n.key] == n && Indexed()
      modifies n`value
      ensures Model() == old(Model())[n.key := value]
    {
      ghost var m := Model();
      n.value := value;
      Updated(m, n.key, value);
    }

    lemma Updated(m: map<Key, V>, key: Key, value: V)
      requires key in nodes && nodes[key].value == value && nodes.Keys == m.Keys + {key}
      requires forall k :: k in m && k != key ==> k in nodes && nodes[k].value == m[k]
      ensures Model() == m[key := value]
    {
    }

    /** The resize `going` has been stepped, or is over; the count, `entries`, may yet change by one. */
    ghost predicate Slack(going: Table?<V>, entries: nat)
      reads this`from, this`to, this`rehashIdx, this`began, this`calls
    {
      if to == null then rehashIdx == 0 && Bounded(entries + 1)
      else if to == going then
        rehashIdx < from.heads.Length && calls <= rehashIdx && began - calls < entries < began + calls && Bounded(began)
      else rehashIdx == calls == 0 < from.heads.Length && Bounded(entries + 1)
    }

    /** One step of a resize that is going on, counted as one of its calls. */
    method StepOnce()
      requires Valid()
      modifies this, from, from.heads, to, if to == null then {} else {to.heads}, from.repr`next, from.repr`slot, from.repr`rank
      ensures Laid(rehashIdx) && Indexed() && numEntries == |nodes| && Paced()
      ensures All() == old(All()) && nodes == old(nodes) && numEntries == old(numEntries)
      ensures Model() == old(Model()) && (from == old(from) || from == old(to)) && Slack(old(to), numEntries)
      ensures to == old(to) != null ==> calls == old(calls) + 1 && began == old(began)
      ensures to != null && to != old(to) ==> fresh(to) && fresh(to.heads)
      ensures old(to) == null ==> to == null && from == old(from)
      ensures old(to) != null && old(Occupied(rehashIdx)) ==>
        if old(rehashIdx) + 1 < old(from.heads.Length)
        then to == old(to) && from == old(from) && rehashIdx == old(rehashIdx) + 1
        else from == old(to)
    {
      hide Laid, Indexed, Occupied;
      ghost var going := to;
      var more, full, empty := RehashStep(1);
      Sizes();
      if to != null && to == going {
        calls := calls + 1;
      }
    }

    /** After the count has changed by at most one, the resize is still on pace, or a new one starts. */
    method Adjust(ghost going: Table?<V>, ghost entries: nat, changed: bool)
      requires Laid(rehashIdx) && Indexed() && numEntries == |nodes|
      requires Slack(going, entries) && entries - 1 <= numEntries <= entries + 1
      requires !changed ==> to == null ==> Paced()
      modifies this`to, this`began, this`calls
      ensures Valid() && All() == old(All()) && Model() == old(Model())
      ensures to != old(to) ==> old(to) == null && fresh(to) && fresh(to.heads)
      ensures to != null && old(to) == null ==> rehashIdx == 0 && Next(numEntries, from.heads.Length, to.heads.Length)
      ensures to == going != null ==> calls == old(calls) && began == old(began)
      ensures to != null && to != going ==> calls == 0 && began == numEntries
    {
      hide Laid, Indexed;
      if to != null && to != going {
        began := numEntries;
      }
      if changed {
        MaybeResize();
      }
    }

    /** Inserts or overwrites; an entry that was there keeps its node. */
    method Set(key: Key, value: V) returns (inserted: bool)
      requires Valid()
      modifies this, from, from.heads, to, if to == null then {} else {to.heads}, All()
      ensures Valid() && Model() == old(Model())[key := value] && inserted == (key !in old(nodes))
      ensures key in nodes && nodes == old(nodes)[key := nodes[key]] && All() == old(All()) + {nodes[key]}
      ensures if inserted then fresh(nodes[key]) else nodes == old(nodes)
      ensures numEntries == old(numEntries) + if inserted then 1 else 0
      ensures to == old(to) != null ==> calls == old(calls) + 1 && began == old(began)
      ensures to != null && to != old(to) ==> fresh(to) && fresh(to.heads) && calls == 0 && began == numEntries
      ensures from == old(from) || from == old(to)
      ensures old(to) == null ==> from == old(from) && (to != null ==> rehashIdx == 0 && Next(numEntries, from.heads.Length, to.heads.Length))
      ensures old(to) != null && old(Occupied(rehashIdx)) ==>
        if old(rehashIdx) + 1 < old(from.heads.Length)
        then to == old(to) && from == old(from) && rehashIdx == old(rehashIdx) + 1
        else from == old(to)
    {
      hide Laid, Indexed, Model, Occupied, Slack, Paced, Next, Valid;
      ghost var going := to;
      StepOnce();
      inserted := Store(going, key, value);
    }

    method Store(ghost going: Table?<V>, key: Key, value: V) returns (inserted: bool)
      requires Laid(rehashIdx) && Indexed() && numEntries == |nodes| && Paced() && Slack(going, numEntries)
      modifies this`nodes, this`numEntries, this`to, this`began, this`calls
      modifies from, from.heads, to, if to == null then {} else {to.heads}, All()`value
      ensures Valid() && Model() == old(Model())[key := value] && inserted == (key !in old(nodes))
      ensures key in nodes && nodes == old(nodes)[key := nodes[key]] && numEntries == old(numEntries) + if inserted then 1 else 0
      ensures All() == old(All()) + {nodes[key]} && if inserted then fresh(nodes[key]) else nodes == old(nodes)
      ensures to != old(to) ==> old(to) == null && fresh(to) && fresh(to.heads)
      ensures to != null && old(to) == null ==> rehashIdx == 0 && Next(numEntries, from.heads.Length, to.heads.Length)
      ensures to == going != null ==> calls == old(calls) && began == old(began)
      ensures to != null && to != going ==> calls == 0 && began == numEntries
    {
      hide Laid, Indexed, Model, Slack, Paced, Next, Valid;
      ghost var n := numEntries;
      inserted := Put(key, value);
      Adjust(going, n, inserted);
    }

    /** Removes the key's entry; the other entries keep their nodes. */
    method Del(key: Key) returns (found: bool)
      requires Valid()
      modifies this, from, from.heads, to, if to == null then {} else {to.heads}, All()
      ensures Valid() && found == (key in old(nodes)) && nodes == old(nodes) - {key} && Model() == old(Model()) - {key}
      ensures numEntries == old(numEntries) - (if found then 1 else 0)
      ensures All() <= old(All())
      ensures to == old(to) != null ==> calls == old(calls) + 1 && began == old(began)
      ensures to != null && to != old(to) ==> fresh(to) && fresh(to.heads) && calls == 0 && began == numEntries
      ensures from == old(from) || from == old(to)
      ensures old(to) == null ==> from == old(from) && (to != null ==> rehashIdx == 0 && Next(numEntries, from.heads.Length, to.heads.Length))
    {
      hide Laid, Indexed, Model, Occupied, Slack, Paced, Next, Valid;
      ghost var going := to;
      StepOnce();
      found := Drop(going, key);
    }

    method Drop(ghost going: Table?<V>, key: Key) returns (found: bool)
      requires Laid(rehashIdx) && Indexed() && numEntries == |nodes| && Paced() && Slack(going, numEntries)
      modifies this`nodes, this`numEntries, this`to, this`began, this`calls
      modifies from, from.heads, to, if to == null then {} else {to.heads}, All()`next
      ensures Valid() && found == (key in old(nodes)) && nodes == old(nodes) - {key} && Model() == old(Model()) - {key}
      ensures numEntries == old(numEntries) - (if found then 1 else 0) && All() <= old(All())
      ensures to != old(to) ==> old(to) == null && fresh(to) && fresh(to.heads)
      ensures to != null && old(to) == null ==> rehashIdx == 0 && Next(numEntries, from.heads.Length, to.heads.Length)
      ensures to == going != null ==> calls == old(calls) && began == old(began)
      ensures to != null && to != going ==> calls == 0 && began == numEntries
    {
      hide Laid, Indexed, Model, Slack, Paced, Next, Valid;
      ghost var n := numEntries;
      found := Remove(key);
      Adjust(going, n, found);
    }

    /** Stepping with no writes in between comes to rest with the load in its range. */
    method Settle(n: nat)
      requires Valid() && n > 0
      modifies this, from, from.heads, to, if to == null then {} else {to.heads}, All()
      ensures Valid() && to == null && nodes == old(nodes) && Model() == old(Model())
      ensures !Crowded(numEntries, from.heads.Length) && !Sparse(numEntries, from.heads.Length)
      decreases if to == null then 0 else Unrest(numEntries, to.heads.Length) + 1, from.heads.Length - rehashIdx
    {
      hide Laid, Indexed, Model;
      if to != null {
        ghost var going := to;
        var more, full, empty := RehashStep(n);
        if to != null && to != going {
          BucketsReady();
          UnrestFalls(numEntries, from.heads.Length, to.heads.Length);
        }
        Settle(n);
      }
    }

    /** Each entry once, in bucket order, the old array first. */
    method ForEach() returns (visited: seq<Node<V>>)
      requires Valid()
      ensures forall k :: k in nodes ==> nodes[k] in visited
      ensures forall a :: 0 <= a < |visited| ==> visited[a].key in nodes && nodes[visited[a].key] == visited[a]
      ensures forall a, b :: 0 <= a < b < |visited| ==> visited[a].key != visited[b].key
    {
      hide Table.Valid, Names, Distinct;
      assert Laid(rehashIdx) && (to != null ==> Separate(from, to));
      visited := from.Visit();
      if to != null {
        var moved := to.Visit();
        DistinctJoin(visited, moved);
        visited := visited + moved;
      }
      NamedOnce(nodes, All(), visited);
    }

    /** A resize is over within as many calls to Set and Del as the old array has buckets. */
    lemma ResizeInTime()
      requires Valid() && to != null
      ensures calls < from.heads.Length
      ensures began - from.heads.Length < numEntries < began + from.heads.Length
    {
    }

    /** How full a grow from B to 2B buckets can get: what it began with, and one entry less than B. */
    lemma GrowStaysBelow()
      requires Valid() && to != null && to.heads.Length == 2 * from.heads.Length
      ensures numEntries <= began + from.heads.Length - 1
      ensures 10 * began < 8 * from.heads.Length + 10 ==> 10 * numEntries < 9 * to.heads.Length
      ensures 4 * began == 3 * from.heads.Length + 4 ==> 4 * numEntries <= 7 * from.heads.Length
    {
      ResizeInTime();
    }

    /** What any resize can have begun with, also right after another one: a load of 2.2 for a grow, of 0.1 for a shrink. */
    lemma BeganBounded()
      requires Valid() && to != null
      ensures if to.heads.Length == 2 * from.heads.Length
        then 10 * began < 22 * from.heads.Length + 10
        else 10 * began < from.heads.Length + 10
    {
      assert Laid(rehashIdx);
    }
  }

  /** A table at rest that starts to grow has exactly one entry more than three quarters of its buckets. */
  lemma GrowFromRest(entries: nat, buckets: nat)
    requires BucketCount(buckets) && !Crowded(entries, buckets) && Crowded(entries + 1, buckets)
    ensures 4 * (entries + 1) == 3 * buckets + 4
  {
    var q := Quarter(buckets);
    assert entries == 3 * q;
  }

  ghost function Quarter(n: nat): (q: nat)
    requires BucketCount(n)
    ensures 4 * q == n
  {
    if n == INITIAL_BUCKETS then 4 else 2 * Quarter(n / 2)
  }

  /** The pace of a grow keeps every number of entries it allows below nine tenths of 2B if and only if it began below `8B + 10` tenths. */
  lemma NineTenthsIff(began: nat, buckets: nat)
    requires buckets > 0
    ensures (forall entries: nat :: entries <= began + buckets - 1 ==> 10 * entries < 9 * (2 * buckets)) <==> 10 * began < 8 * buckets + 10
  {
    if 10 * began >= 8 * buckets + 10 {
      var entries: nat := began + buckets - 1;
      assert 10 * entries >= 9 * (2 * buckets);
    }
  }
}
