/**
 A run of the hash table that ends in a grow beginning at more than twice the load a
 table at rest would grow at: many keys are inserted while the table is being halved,
 each into the bucket that is moved next.
 */
module LoadAfterShrink {
  import opened Prelude
  import opened Buckets
  import H = HashTable

  /** Keys of zero bytes, hashed to their length. */
  function KeyOf(n: nat): (k: Key)
    ensures |k| == n
  {
    seq(n, _ => 0)
  }

  const Length: Key -> nat := (k: Key) => |k|

  function KeysBelow(n: nat): (ks: set<Key>) {
    set i | 0 <= i < n :: KeyOf(i)
  }

  lemma OneMoreKey(n: nat)
    ensures KeysBelow(n + 1) == KeysBelow(n) + {KeyOf(n)} && KeyOf(n) !in KeysBelow(n)
    ensures KeysBelow(n) == KeysBelow(n + 1) - {KeyOf(n)}
  {
    assert forall i: nat :: i < n ==> |KeyOf(i)| < n;
  }

  lemma RestOrNot<V>(t: H.HashTable<V>)
    requires t.Valid()
    ensures if t.to == null then !H.Crowded(t.numEntries, t.from.heads.Length) && !H.Sparse(t.numEntries, t.from.heads.Length)
      else t.rehashIdx < t.from.heads.Length
  {
  }

  method Empty<V>() returns (t: H.HashTable<V>)
    ensures fresh(t) && fresh(t.from) && fresh(t.from.heads) && fresh(t.All())
    ensures t.Valid() && t.hash == Length && t.to == null && t.from.heads.Length == 16
    ensures t.numEntries == 0 && t.nodes.Keys == KeysBelow(0)
  {
    hide H.HashTable.Valid, KeysBelow, H.HashTable.Model;
    t := new H.HashTable<V>(Length);
    NoKeys(t);
  }

  /** Twelve keys are as many as sixteen buckets hold at rest. */
  method Filled<V>(x: V) returns (t: H.HashTable<V>)
    ensures fresh(t) && fresh(t.from) && fresh(t.from.heads) && fresh(t.All())
    ensures t.Valid() && t.hash == Length && t.to == null && t.from.heads.Length == 16
    ensures t.numEntries == 12 && t.nodes.Keys == KeysBelow(12)
  {
    hide H.HashTable.Valid, KeysBelow, H.HashTable.Occupied, H.HashTable.Model, H.HashTable.All;
    t := Empty<V>();
    for i := 0 to 12
      invariant fresh(t) && fresh(t.from) && fresh(t.from.heads) && fresh(t.All())
      invariant t.Valid() && t.hash == Length && t.to == null && t.from.heads.Length == 16
      invariant t.numEntries == i && t.nodes.Keys == KeysBelow(i)
    {
      OneMoreKey(i);
      var added := t.Set(KeyOf(i), x);
    }
  }

  /** A thirteenth makes the table grow, to thirty-two. */
  method Grown<V>(x: V) returns (t: H.HashTable<V>)
    ensures fresh(t) && fresh(t.from) && fresh(t.from.heads) && fresh(t.All())
    ensures t.Valid() && t.hash == Length && t.to == null && t.from.heads.Length == 32
    ensures t.numEntries == 13 && t.nodes.Keys == KeysBelow(13)
  {
    hide H.HashTable.Valid, KeysBelow, H.HashTable.Occupied, H.HashTable.Model;
    t := Filled(x);
    OneMoreKey(12);
    var added := t.Set(KeyOf(12), x);
    RestOrNot(t);
    var more, full, empty := t.RehashStep(16);
  }

  lemma NoKeys<V>(t: H.HashTable<V>)
    requires t.Valid() && t.nodes == map[]
    ensures t.nodes.Keys == KeysBelow(0) && t.numEntries == 0
  {
  }

  /** Ten deletions make it shrink again, to sixteen, with three keys left. */
  method Shrinking<V>(x: V) returns (t: H.HashTable<V>)
    ensures fresh(t) && fresh(t.from) && fresh(t.from.heads) && fresh(t.All())
    ensures t.Valid() && t.hash == Length && t.to != null && fresh(t.to) && fresh(t.to.heads)
    ensures t.from.heads.Length == 32 && t.to.heads.Length == 16 && t.rehashIdx == 0
    ensures t.numEntries == 3 && t.nodes.Keys == KeysBelow(3)
  {
    hide H.HashTable.Valid, KeysBelow, H.HashTable.Occupied, H.HashTable.Model;
    t := Grown(x);
    for j := 13 downto 4
      invariant fresh(t) && fresh(t.from) && fresh(t.from.heads) && fresh(t.All())
      invariant t.Valid() && t.hash == Length && t.to == null && t.from.heads.Length == 32
      invariant t.numEntries == j && t.nodes.Keys == KeysBelow(j)
    {
      OneMoreKey(j);
      var found := t.Del(KeyOf(j));
    }
    OneMoreKey(3);
    var found := t.Del(KeyOf(3));
    RestOrNot(t);
  }

  lemma NextBucket<V>(t: H.HashTable<V>, k: Key)
    requires t.Valid() && t.to != null && t.from.heads.Length > 0 && k in t.nodes
    requires t.hash == Length && H.Index(|k|, t.from.heads.Length) == t.rehashIdx
    ensures t.Occupied(t.rehashIdx)
  {
    t.BucketsReady();
    t.OnlyThere(k);
  }

  /** Every insertion moves just the one bucket that the one before has filled: 31 of 32 are moved, and 34 keys are in. */
  method Crowding<V>(x: V) returns (t: H.HashTable<V>, ghost last: Key)
    ensures fresh(t) && fresh(t.from) && fresh(t.from.heads) && fresh(t.All())
    ensures t.Valid() && t.hash == Length && t.to != null && fresh(t.to) && fresh(t.to.heads)
    ensures t.from.heads.Length == 32 && t.to.heads.Length == 16 && t.rehashIdx == 31
    ensures t.numEntries == 34 && last in t.nodes && |last| == 63
  {
    hide H.HashTable.Valid, H.HashTable.Occupied, H.HashTable.Model, H.HashTable.All;
    t := Shrinking(x);
    assert KeyOf(0) in KeysBelow(3);
    last := KeyOf(0);
    for j := 1 to 32
      invariant fresh(t) && fresh(t.from) && fresh(t.from.heads) && fresh(t.All())
      invariant t.Valid() && t.hash == Length && t.to != null && fresh(t.to) && fresh(t.to.heads)
      invariant t.from.heads.Length == 32 && t.to.heads.Length == 16 && t.rehashIdx == j - 1
      invariant t.numEntries == 2 + j && last in t.nodes && |last| == if j == 1 then 0 else 31 + j
      invariant forall k :: k in t.nodes ==> |k| < 32 + j
    {
      NextBucket(t, last);
      last := KeyOf(32 + j);
      var added := t.Set(KeyOf(32 + j), x);
    }
  }

  /**
   A grow from 16 to 32 buckets that begins with 34 entries: it is above nine tenths of
   the 32 buckets before its first call.
   */
  method GrowAfterShrink<V>(x: V) returns (t: H.HashTable<V>)
    ensures fresh(t) && t.Valid() && t.to != null && t.from.heads.Length == 16 && t.to.heads.Length == 32
    ensures t.began == t.numEntries == 34 && t.calls == 0
    ensures 10 * t.began >= 8 * t.from.heads.Length + 10 && 10 * t.numEntries > 9 * t.to.heads.Length
  {
    hide H.HashTable.Valid, H.HashTable.Occupied, H.HashTable.Model;
    ghost var last;
    t, last := Crowding(x);
    NextBucket(t, last);
    RestOrNot(t);
    var more, full, empty := t.RehashStep(1);
    RestOrNot(t);
  }
}
