/** One bucket array of the hash table: singly linked chains of nodes, relinked in place. */
module Buckets {
  import opened Prelude

  type Key = Bytes

  class Node<V> {
    const key: Key
    var value: V
    var next: Node?<V>

    // Where the node is linked: its bucket, and a rank that falls along the chain.
    ghost var slot: nat
    ghost var rank: nat

    constructor (key: Key, value: V)
      ensures this.key == key && this.value == value
    {
      this.key, this.value, this.next := key, value, null;
      slot, rank := 0, 0;
    }
  }

  function At<V>(c: seq<Node<V>>, j: nat): (n: Node?<V>) {
    if j < |c| then c[j] else null
  }

  /** Starting at `head`, the next pointers lead through exactly the nodes of `c`, all of bucket `i`. */
  ghost predicate Chain<V>(head: Node?<V>, c: seq<Node<V>>, i: nat)
    reads c`next, c`slot, c`rank
  {
    && head == At(c, 0)
    && (forall j :: 0 <= j < |c| ==> c[j].slot == i && c[j].next == At(c, j + 1))
    && Falling(c)
  }

  ghost predicate Falling<V>(c: seq<Node<V>>)
    reads c`rank
  {
    forall j, k :: 0 <= j < k < |c| ==> c[j].rank > c[k].rank
  }

  class Table<V> {
    const heads: array<Node?<V>>

    ghost var chains: seq<seq<Node<V>>>   // what each head leads to
    ghost var repr: set<Node<V>>          // every linked node

    ghost predicate Valid()
      reads this, heads, repr`next, repr`slot, repr`rank
    {
      && |chains| == heads.Length
      && (forall i, n :: 0 <= i < |chains| && n in chains[i] ==> n in repr)
      && (forall n :: n in repr ==> n.slot < |chains| && n in chains[n.slot])
      && forall i :: 0 <= i < |chains| ==> Chain(heads[i], chains[i], i)
    }

    constructor (size: nat)
      ensures Valid() && fresh(heads) && heads.Length == size
      ensures chains == seq(size, _ => []) && repr == {}
    {
      heads := new Node?<V>[size](_ => null);
      chains := seq(size, _ => []);
      repr := {};
    }

    lemma OneChainEach()
      requires Valid()
      ensures |chains| == heads.Length
    {
    }

    lemma HeadsAndChains(i: nat)
      requires Valid() && i < |chains|
      ensures |chains| == heads.Length && (heads[i] == null <==> chains[i] == [])
      ensures forall n :: n in chains[i] ==> n in repr && n.slot == i
    {
    }

    /** The node with this key in one bucket, if any, and the one before it. No other bucket is looked at. */
    method Find(i: nat, key: Key) returns (link: Node?<V>, n: Node?<V>, ghost j: nat)
      requires Valid() && i < |chains|
      ensures n == null ==> forall m :: m in chains[i] ==> m.key != key
      ensures n != null ==> j < |chains[i]| && n == chains[i][j] && n in repr && n.key == key
      ensures n != null ==> link == if j == 0 then null else chains[i][j - 1]
    {
      hide Chain, Falling;
      link, n, j := Walk(heads[i], chains[i], i, key);
    }

    /** Links a node in at the head of a bucket. */
    method PushFront(i: nat, n: Node<V>)
      requires Valid() && i < |chains| && n !in repr
      modifies this`chains, this`repr, heads, n`next, n`slot, n`rank
      ensures Valid()
      ensures chains == old(chains)[i := [n] + old(chains)[i]] && repr == old(repr) + {n} && n.slot == i
    {
      hide Chain, Falling;
      ghost var c := chains[i];
      assert n !in c;
      n.next := heads[i];
      n.slot, n.rank := i, if c == [] then 0 else c[0].rank + 1;
      assert Chain(n.next, c, i);
      FrontChain(c, n, i);
      heads[i] := n;
      chains := chains[i := [n] + c];
      repr := repr + {n};
      assert Chain(heads[i], chains[i], i);
      forall k | 0 <= k < |chains| && k != i
        ensures Chain(heads[k], chains[k], k)
      {
        assert old(Chain(heads[k], chains[k], k)) && n !in chains[k];
      }
    }

    /** Takes the first node of a bucket out. */
    method PopFront(i: nat) returns (n: Node<V>)
      requires Valid() && i < |chains| && chains[i] != []
      modifies this`chains, this`repr, heads
      ensures Valid() && n == old(chains)[i][0] && n in old(repr) && n.slot == i
      ensures chains == old(chains)[i := old(chains)[i][1..]] && repr == old(repr) - {n}
    {
      hide Chain, Falling;
      ghost var c := chains[i];
      FirstOfChain(heads[i], c, i);
      n := heads[i];
      assert n in repr && n.slot == i;
      heads[i] := n.next;
      chains := chains[i := c[1..]];
      repr := repr - {n};
      assert Chain(heads[i], chains[i], i);
      forall k | 0 <= k < |chains| && k != i
        ensures Chain(heads[k], chains[k], k) && n !in chains[k]
      {
        assert old(Chain(heads[k], chains[k], k));
        SlotsOfChain(heads[k], chains[k], k);
      }
    }

    /**
     Unlinks the node with this key from one bucket: the pointer that led to it is
     made to lead to its successor instead.
     */
    method Unlink(i: nat, key: Key) returns (n: Node?<V>)
      requires Valid() && i < |chains|
      modifies this`chains, this`repr, heads, repr`next
      ensures Valid()
      ensures n == null ==> chains == old(chains) && repr == old(repr) && forall m :: m in chains[i] ==> m.key != key
      ensures n != null ==> n in old(chains)[i] && n in old(repr) && n.key == key && repr == old(repr) - {n}
      ensures n != null ==> chains == old(chains)[i := chains[i]] && forall m :: m in chains[i] <==> m in old(chains)[i] && m != n
    {
      var link;
      ghost var j;
      link, n, j := Find(i, key);
      if n != null {
        Bridge(i, j, link, n);
      }
    }

    method Bridge(i: nat, ghost j: nat, link: Node?<V>, n: Node<V>)
      requires Valid() && i < |chains| && j < |chains[i]| && n == chains[i][j]
      requires link == if j == 0 then null else chains[i][j - 1]
      modifies this`chains, this`repr, heads, repr`next
      ensures Valid() && repr == old(repr) - {n}
      ensures chains == old(chains)[i := chains[i]] && forall m :: m in chains[i] <==> m in old(chains)[i] && m != n
    {
      hide Chain, Falling, Without;
      ghost var c := chains[i];
      ghost var d := Without(c, j);
      Parts(heads[i], c, i, j);
      Apart(i, n);
      if link == null {
        FirstOfChain(heads[i], c, i);
        heads[i] := n.next;
      } else {
        Apart(i, link);
        PointPast(heads[i], c, i, j, link, n);
      }
      chains := chains[i := d];
      repr := repr - {n};
      assert Chain(heads[i], d, i);
      forall k | 0 <= k < |chains| && k != i
        ensures Chain(heads[k], chains[k], k) && n !in chains[k]
      {
        assert old(Chain(heads[k], chains[k], k));
      }
      assert forall m :: m in d <==> m in c && m != n;
      assert forall m :: m in repr ==> m.slot < |chains| && m in chains[m.slot];
      assert forall k, m :: 0 <= k < |chains| && m in chains[k] ==> m in repr;
    }

    /** Every linked node, bucket by bucket and each once. */
    method Visit() returns (out: seq<Node<V>>)
      requires Valid()
      ensures (forall n :: n in out <==> n in repr) && Distinct(out)
    {
      hide Chain, Falling;
      out := [];
      var i := 0;
      while i < heads.Length
        invariant i <= heads.Length && out == Flat(chains, i)
      {
        var chain := Follow(heads[i], chains[i], i);
        out := out + chain;
        i := i + 1;
      }
      FlatHolds(chains, i);
      FlatOnce(i);
    }

    lemma {:induction false} FlatOnce(i: nat)
      requires Valid() && i <= |chains|
      ensures Distinct(Flat(chains, i))
    {
      hide Valid, Chain, Falling, Distinct;
      if i > 0 {
        FlatOnce(i - 1);
        ChainIsNew(i - 1);
        DistinctJoin(Flat(chains, i - 1), chains[i - 1]);
      } else {
        assert Distinct<Node<V>>([]) by { NoneDistinct<Node<V>>(); }
      }
    }

    lemma ChainIsNew(i: nat)
      requires Valid() && i < |chains|
      ensures Distinct(chains[i]) && forall n :: n in chains[i] ==> n !in Flat(chains, i)
    {
      FlatHolds(chains, i);
      ChainParts(heads[i], chains[i], i);
      assert forall k, n :: 0 <= k < |chains| && n in chains[k] ==> n.slot == k;
    }

    /** No node is in two buckets. */
    lemma Apart(i: nat, n: Node?<V>)
      requires Valid() && i < |chains| && n in chains[i]
      ensures forall k :: 0 <= k < |chains| && k != i ==> n !in chains[k]
    {
    }
  }

  /** Follows the next pointers from a head until a node has the key, or none is left. */
  method Walk<V>(head: Node?<V>, ghost c: seq<Node<V>>, ghost i: nat, key: Key) returns (link: Node?<V>, n: Node?<V>, ghost j: nat)
    requires Chain(head, c, i)
    ensures n == null ==> forall m :: m in c ==> m.key != key
    ensures n != null ==> j < |c| && n == c[j] && n.key == key && link == if j == 0 then null else c[j - 1]
  {
    ChainParts(head, c, i);
    hide Chain, Falling;
    n, link, j := head, null, 0;
    while n != null
      invariant j <= |c| && n == At(c, j) && link == (if j == 0 then null else c[j - 1])
      invariant forall k :: 0 <= k < j ==> c[k].key != key
      decreases |c| - j
    {
      if n.key == key {
        return;
      }
      link, n, j := n, n.next, j + 1;
    }
  }

  lemma NoneDistinct<T>()
    ensures Distinct<T>([])
  {
  }

  lemma DistinctJoin<T>(s: seq<T>, t: seq<T>)
    requires Distinct(s) && Distinct(t) && forall x :: x in t ==> x !in s
    ensures Distinct(s + t)
  {
    var u := s + t;
    forall a, b | 0 <= a < b < |u|
      ensures u[a] != u[b]
    {
      if a < |s| <= b {
        assert u[a] == s[a] && u[b] == t[b - |s|] && t[b - |s|] in t;
      }
    }
  }

  /** Follows the next pointers to the end. */
  method Follow<V>(head: Node?<V>, ghost c: seq<Node<V>>, ghost i: nat) returns (out: seq<Node<V>>)
    requires Chain(head, c, i)
    ensures out == c
  {
    ChainParts(head, c, i);
    hide Chain, Falling;
    out := [];
    var n := head;
    while n != null
      invariant |out| <= |c| && out == c[..|out|] && n == At(c, |out|)
      decreases |c| - |out|
    {
      out := out + [n];
      n := n.next;
    }
  }

  ghost function Flat<V>(chains: seq<seq<Node<V>>>, i: nat): (f: seq<Node<V>>)
    requires i <= |chains|
  {
    if i == 0 then [] else Flat(chains, i - 1) + chains[i - 1]
  }

  lemma {:induction false} FlatHolds<V>(chains: seq<seq<Node<V>>>, i: nat)
    requires i <= |chains|
    ensures forall n :: n in Flat(chains, i) <==> exists k :: 0 <= k < i && n in chains[k]
  {
    if i > 0 {
      FlatHolds(chains, i - 1);
    }
  }

  /** Makes the node before the j-th one point past it. */
  method PointPast<V>(ghost head: Node?<V>, ghost c: seq<Node<V>>, ghost i: nat, ghost j: nat, link: Node<V>, n: Node<V>)
    requires Chain(head, c, i) && 0 < j < |c| && link == c[j - 1] && n == c[j]
    modifies link`next
    ensures Chain(head, Without(c, j), i)
  {
    ChainParts(head, c, i);
    hide Chain, Falling;
    link.next := n.next;
    Skipped(c, i, j);
  }

  ghost function Without<V>(c: seq<Node<V>>, j: nat): (d: seq<Node<V>>)
    requires j < |c|
    ensures j == 0 ==> d == c[1..]
  {
    c[..j] + c[j + 1..]
  }

  lemma FirstOfChain<V>(head: Node?<V>, c: seq<Node<V>>, i: nat)
    requires Chain(head, c, i) && c != []
    ensures head == c[0] && head != null && head.slot == i && Chain(head.next, c[1..], i) && head !in c[1..]
  {
  }

  lemma ChainParts<V>(head: Node?<V>, c: seq<Node<V>>, i: nat)
    requires Chain(head, c, i)
    ensures Falling(c) && head == At(c, 0)
    ensures forall j :: 0 <= j < |c| ==> c[j].slot == i && c[j].next == At(c, j + 1)
    ensures forall j, k :: 0 <= j < k < |c| ==> c[j] != c[k]
  {
  }

  lemma SlotsOfChain<V>(head: Node?<V>, c: seq<Node<V>>, i: nat)
    requires Chain(head, c, i)
    ensures forall n :: n in c ==> n.slot == i
  {
  }

  lemma FrontChain<V>(c: seq<Node<V>>, n: Node<V>, i: nat)
    requires Chain(n.next, c, i) && n !in c && n.slot == i && (c != [] ==> n.rank > c[0].rank)
    ensures Chain(n, [n] + c, i)
  {
    var d := [n] + c;
    forall j, k | 0 <= j < k < |d|
      ensures d[j].rank > d[k].rank
    {
      assert d[k] == c[k - 1] && (j > 0 ==> d[j] == c[j - 1]);
    }
    assert forall j :: 0 < j < |d| ==> d[j] == c[j - 1];
  }

  /** The nodes of a chain are distinct, so leaving one out removes exactly that one. */
  lemma Parts<V>(head: Node?<V>, c: seq<Node<V>>, i: nat, j: nat)
    requires Chain(head, c, i) && j < |c|
    ensures var d := Without(c, j); forall k :: 0 <= k < |d| ==> d[k] in c && d[k] != c[j]
    ensures forall k :: 0 <= k < |c| && c[k] != c[j] ==> c[k] in Without(c, j)
  {
    var d := Without(c, j);
    ChainParts(head, c, i);
    hide Chain, Falling;
    forall k | 0 <= k < |d|
      ensures d[k] in c && d[k] != c[j]
    {
      assert d[k] == c[if k < j then k else k + 1];
    }
    forall k | 0 <= k < |c| && c[k] != c[j]
      ensures c[k] in d
    {
      assert c[k] == d[if k < j then k else k - 1];
    }
  }

  /** Once the node before the left-out one points past it, the chain is the rest in the same order. */
  lemma Skipped<V>(c: seq<Node<V>>, i: nat, j: nat)
    requires 0 < j < |c| && Falling(c)
    requires forall k :: 0 <= k < |c| ==> c[k].slot == i && (k != j - 1 ==> c[k].next == At(c, k + 1))
    requires c[j - 1].next == At(c, j + 1)
    ensures Chain(c[0], Without(c, j), i)
  {
    var d := Without(c, j);
    assert |d| == |c| - 1 && d[0] == c[0];
    forall k | 0 <= k < |d|
      ensures d[k].slot == i && d[k].next == At(d, k + 1)
    {
      hide Falling;
      var e := if k < j then k else k + 1;
      assert d[k] == c[e] && At(d, k + 1) == At(c, if k + 1 < j then k + 1 else k + 2);
    }
    FallingWithout(c, j);
  }

  lemma FallingWithout<V>(c: seq<Node<V>>, j: nat)
    requires j < |c| && Falling(c)
    ensures Falling(c[..j] + c[j + 1..])
  {
    var d := c[..j] + c[j + 1..];
    forall k, l | 0 <= k < l < |d|
      ensures d[k].rank > d[l].rank
    {
      assert d[k] == c[if k < j then k else k + 1] && d[l] == c[if l < j then l else l + 1];
    }
  }
}
