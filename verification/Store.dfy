/**
 The store: a dictionary, the deadlines, the use order and the per-slot key
 lists, kept in agreement with each other and with the memory counter.
 */
module Store {
  import opened Prelude
  import opened Keyspace
  import opened UseOrder

  const SLOTS := 16384
  const ENTRY_OVERHEAD := 128
  const EXPIRE_OVERHEAD := 64
  const SAMPLES_PER_LOOP := 20

  type SlotId = s: nat | s < SLOTS

  datatype Policy = NoEviction | AllKeysLru

  // Lists of keys.

  lemma DropTouched(s: seq<Key>, k: Key)
    ensures Drop(Touched(s, k), k) == Drop(s, k)
  {
    assert Touched(s, k)[1..] == Drop(s, k);
  }

  /** Holds exactly these keys, each once. */
  ghost predicate Lists(s: seq<Key>, keys: set<Key>) {
    Distinct(s) && forall k :: k in s <==> k in keys
  }

  lemma {:induction false} DropLists(s: seq<Key>, keys: set<Key>, k: Key)
    requires Lists(s, keys)
    ensures Lists(Drop(s, k), keys - {k})
  {
    if s != [] {
      assert s == [s[0]] + s[1..];
      assert forall x :: x in s[1..] <==> x in keys - {s[0]};
      DropLists(s[1..], keys - {s[0]}, k);
      if s[0] != k {
        FrontLists(Drop(s[1..], k), keys - {s[0]} - {k}, s[0]);
        assert keys - {s[0]} - {k} + {s[0]} == keys - {k};
      }
    }
  }

  lemma FrontLists(s: seq<Key>, keys: set<Key>, k: Key)
    requires Lists(s, keys) && k !in keys
    ensures Lists([k] + s, keys + {k})
  {
    assert forall i :: 0 < i < |[k] + s| ==> ([k] + s)[i] == s[i - 1];
  }

  lemma TouchedLists(s: seq<Key>, keys: set<Key>, k: Key)
    requires Lists(s, keys)
    ensures Lists(Touched(s, k), keys + {k})
  {
    DropLists(s, keys, k);
    FrontLists(Drop(s, k), keys - {k}, k);
    assert keys - {k} + {k} == keys + {k};
  }

  // Memory.

  function EntryCost(k: Key, value: Bytes): (r: nat) {
    ENTRY_OVERHEAD + 2 * |k| + |value|
  }

  function ExpireCost(k: Key): (r: nat) {
    EXPIRE_OVERHEAD + |k|
  }

  /** What one key of a keyspace is charged. */
  function Cost(ks: Keyspace, k: Key): (r: nat) {
    (if k in ks.vals then EntryCost(k, ks.vals[k]) else 0) + (if k in ks.exps then ExpireCost(k) else 0)
  }

  function Total(s: seq<Key>, ks: Keyspace): (r: nat) {
    if s == [] then 0 else Cost(ks, s[0]) + Total(s[1..], ks)
  }

  lemma {:induction false} TotalDrop(s: seq<Key>, ks: Keyspace, k: Key)
    requires k in s
    ensures Total(s, ks) == Cost(ks, k) + Total(Drop(s, k), ks)
  {
    if s[0] != k {
      TotalDrop(s[1..], ks, k);
      assert Drop(s, k)[1..] == Drop(s[1..], k);
    }
  }

  /** Keys whose charge did not change contribute the same total. */
  lemma {:induction false} TotalSame(s: seq<Key>, ks: Keyspace, other: Keyspace)
    requires forall k :: k in s ==> Cost(ks, k) == Cost(other, k)
    ensures Total(s, ks) == Total(s, other)
  {
    if s != [] {
      TotalSame(s[1..], ks, other);
    }
  }

  lemma {:induction false} TotalPrefix(s: seq<Key>, ks: Keyspace, n: nat)
    requires n < |s|
    ensures Total(s[..n + 1], ks) == Total(s[..n], ks) + Cost(ks, s[n])
  {
    if n > 0 {
      TotalPrefix(s[1..], ks, n - 1);
      assert s[..n + 1][1..] == s[1..][..n] && s[..n][1..] == s[1..][..n - 1];
    }
  }

  // The indexes agree.

  ghost predicate BySlot(vals: map<Key, Bytes>, slots: seq<seq<Key>>, slotOf: Key -> SlotId) {
    && |slots| == SLOTS
    && (forall s :: 0 <= s < SLOTS ==> Distinct(slots[s]))
    && (forall s, k :: 0 <= s < SLOTS ==> (k in slots[s] <==> k in vals && slotOf(k) == s))
  }

  ghost predicate Consistent(ks: Keyspace, lru: seq<Key>, slots: seq<seq<Key>>, slotOf: Key -> SlotId, used: int) {
    && Sound(ks)
    && Lists(lru, ks.vals.Keys)
    && BySlot(ks.vals, slots, slotOf)
    && used == Total(lru, ks)
  }

  function SlotKeys(vals: map<Key, Bytes>, slotOf: Key -> SlotId, s: SlotId): (r: set<Key>) {
    set k | k in vals && slotOf(k) == s
  }

  lemma SlotListed(vals: map<Key, Bytes>, slots: seq<seq<Key>>, slotOf: Key -> SlotId, s: SlotId)
    requires BySlot(vals, slots, slotOf)
    ensures Lists(slots[s], SlotKeys(vals, slotOf, s))
  {
  }

  /** One slot's list changed, and with it exactly that slot's keys. */
  lemma SlotReplaced(vals: map<Key, Bytes>, after: map<Key, Bytes>, slots: seq<seq<Key>>, slotOf: Key -> SlotId, s: SlotId, list: seq<Key>)
    requires BySlot(vals, slots, slotOf)
    requires Lists(list, SlotKeys(after, slotOf, s))
    requires forall k :: slotOf(k) != s ==> (k in vals <==> k in after)
    ensures BySlot(after, slots[s := list], slotOf)
  {
  }

  lemma RemoveBySlot(vals: map<Key, Bytes>, slots: seq<seq<Key>>, slotOf: Key -> SlotId, k: Key)
    requires BySlot(vals, slots, slotOf)
    ensures var s := slotOf(k); BySlot(vals - {k}, slots[s := Drop(slots[s], k)], slotOf)
  {
    var s := slotOf(k);
    SlotListed(vals, slots, slotOf, s);
    DropLists(slots[s], SlotKeys(vals, slotOf, s), k);
    assert SlotKeys(vals, slotOf, s) - {k} == SlotKeys(vals - {k}, slotOf, s);
    SlotReplaced(vals, vals - {k}, slots, slotOf, s, Drop(slots[s], k));
  }

  lemma InsertBySlot(vals: map<Key, Bytes>, slots: seq<seq<Key>>, slotOf: Key -> SlotId, k: Key, v: Bytes)
    requires BySlot(vals, slots, slotOf) && k !in vals
    ensures var s := slotOf(k); BySlot(vals[k := v], slots[s := [k] + slots[s]], slotOf)
  {
    var s := slotOf(k);
    SlotListed(vals, slots, slotOf, s);
    FrontLists(slots[s], SlotKeys(vals, slotOf, s), k);
    assert SlotKeys(vals, slotOf, s) + {k} == SlotKeys(vals[k := v], slotOf, s);
    SlotReplaced(vals, vals[k := v], slots, slotOf, s, [k] + slots[s]);
  }

  lemma RemoveKeeps(ks: Keyspace, lru: seq<Key>, slots: seq<seq<Key>>, slotOf: Key -> SlotId, used: int, k: Key)
    requires Consistent(ks, lru, slots, slotOf, used) && k in ks.vals
    ensures var s := slotOf(k);
      Consistent(Without(ks, k), Drop(lru, k), slots[s := Drop(slots[s], k)], slotOf, used - Cost(ks, k))
  {
    hide BySlot, Distinct, Drop;
    RemoveBySlot(ks.vals, slots, slotOf, k);
    DropLists(lru, ks.vals.Keys, k);
    assert ks.vals.Keys - {k} == (ks.vals - {k}).Keys;
    TotalDrop(lru, ks, k);
    TotalSame(Drop(lru, k), ks, Without(ks, k));
  }

  lemma InsertKeeps(ks: Keyspace, lru: seq<Key>, slots: seq<seq<Key>>, slotOf: Key -> SlotId, used: int, k: Key, v: Bytes)
    requires Consistent(ks, lru, slots, slotOf, used) && k !in ks.vals
    ensures var s := slotOf(k);
      Consistent(Keyspace(ks.vals[k := v], ks.exps), [k] + lru, slots[s := [k] + slots[s]], slotOf, used + EntryCost(k, v))
  {
    hide BySlot, Distinct;
    InsertBySlot(ks.vals, slots, slotOf, k, v);
    FrontLists(lru, ks.vals.Keys, k);
    assert ks.vals.Keys + {k} == ks.vals[k := v].Keys;
    TotalSame(lru, ks, Keyspace(ks.vals[k := v], ks.exps));
    assert ([k] + lru)[1..] == lru;
  }

  lemma TouchKeeps(ks: Keyspace, lru: seq<Key>, slots: seq<seq<Key>>, slotOf: Key -> SlotId, used: int, k: Key)
    requires Consistent(ks, lru, slots, slotOf, used) && k in ks.vals
    ensures Consistent(ks, Touched(lru, k), slots, slotOf, used)
  {
    hide BySlot, Distinct;
    TouchedLists(lru, ks.vals.Keys, k);
    assert ks.vals.Keys + {k} == ks.vals.Keys;
    TotalDrop(lru, ks, k);
    assert Touched(lru, k)[1..] == Drop(lru, k);
  }

  /** A stored key got another value or another deadline. */
  lemma ChangeKeeps(ks: Keyspace, after: Keyspace, lru: seq<Key>, slots: seq<seq<Key>>, slotOf: Key -> SlotId, used: int, k: Key)
    requires Consistent(ks, lru, slots, slotOf, used) && k in ks.vals && Sound(after)
    requires after.vals.Keys == ks.vals.Keys && forall x :: x in ks.vals && x != k ==> Cost(after, x) == Cost(ks, x)
    ensures Consistent(after, lru, slots, slotOf, used + Cost(after, k) - Cost(ks, k))
  {
    DropLists(lru, ks.vals.Keys, k);
    TotalDrop(lru, ks, k);
    TotalDrop(lru, after, k);
    TotalSame(Drop(lru, k), ks, after);
    assert BySlot(after.vals, slots, slotOf) by { SameBySlot(ks.vals, after.vals, slots, slotOf); }
  }

  lemma SameBySlot(vals: map<Key, Bytes>, after: map<Key, Bytes>, slots: seq<seq<Key>>, slotOf: Key -> SlotId)
    requires BySlot(vals, slots, slotOf) && after.Keys == vals.Keys
    ensures BySlot(after, slots, slotOf)
  {
    assert forall k :: k in vals <==> k in after.Keys;
  }

  /** The deadline had passed at one of the first n readings. */
  ghost predicate ExpiredBy(ks: Keyspace, k: Key, clock: nat -> int, n: nat) {
    exists i: nat :: i < n && Expired(ks, k, clock(i))
  }

  lemma OneMoreReading(ks: Keyspace, gone: seq<Key>, found: seq<Key>, clock: nat -> int, n: nat)
    requires forall k :: k in gone ==> ExpiredBy(ks, k, clock, n)
    requires forall k :: k in found ==> Expired(ks, k, clock(n))
    ensures forall k :: k in gone + found ==> ExpiredBy(ks, k, clock, n + 1)
  {
  }

  class Store {
    const maxmemory: nat
    const policy: Policy
    const slotOf: Key -> SlotId

    var dict: map<Key, Bytes>
    var expires: map<Key, int>
    var lru: seq<Key>
    var slots: seq<seq<Key>>
    var usedMemory: int
    var passive: bool
    var notified: seq<Key>     // the keys the deletion listener was told about, in order
    var expiredKeys: nat
    var evictedKeys: nat

    ghost var past: seq<Deed>     // everything done to this store since it was empty

    ghost function Ks(): (r: Keyspace)
      reads this
    {
      Keyspace(dict, expires)
    }

    ghost predicate Valid()
      reads this
    {
      Consistent(Ks(), lru, slots, slotOf, usedMemory)
    }

    /** The contents and the use order are what the store's past has left. */
    ghost predicate Replayed()
      reads this
    {
      RunOf(past) == Held(Ks(), lru)
    }

    constructor (maxmemory: nat, policy: Policy, slotOf: Key -> SlotId)
      ensures Valid() && Ks() == Keyspace(map[], map[]) && notified == [] && !passive && past == [] && Replayed()
    {
      this.maxmemory, this.policy, this.slotOf := maxmemory, policy, slotOf;
      dict, expires, lru, slots, usedMemory := map[], map[], [], seq(SLOTS, _ => []), 0;
      passive, notified, expiredKeys, evictedKeys := false, [], 0, 0;
      past := [];
    }

    method ClearExpire(key: Key) returns (had: bool)
      requires Valid() && key in dict
      modifies this`expires, this`usedMemory
      ensures Valid() && had == (key in old(expires)) && expires == old(expires) - {key}
    {
      hide Consistent;
      assert Sound(Ks()) by { Agree(); }
      ChangeKeeps(Ks(), Keyspace(dict, expires - {key}), lru, slots, slotOf, usedMemory, key);
      had := key in expires;
      if had {
        expires := expires - {key};
        usedMemory := usedMemory - ExpireCost(key);
      } else {
        assert expires - {key} == expires;
      }
    }

    lemma Agree()
      requires Valid()
      ensures Sound(Ks()) && Lists(lru, dict.Keys) && BySlot(dict, slots, slotOf) && usedMemory == Total(lru, Ks())
    {
    }

    lemma Absent(key: Key)
      requires Valid() && key !in dict
      ensures key !in lru && Drop(lru, key) == lru && Without(Ks(), key) == Ks()
    {
      Agree();
      hide Consistent, BySlot, Total, Distinct, Drop;
      assert key !in lru && key !in expires;
      assert dict - {key} == dict && expires - {key} == expires;
    }

    /** Takes the key out of every structure. */
    method Remove(key: Key) returns (had: bool)
      requires Valid()
      modifies this`dict, this`expires, this`lru, this`slots, this`usedMemory
      ensures Valid() && had == (key in old(dict)) && Ks() == Without(old(Ks()), key) && lru == Drop(old(lru), key)
      ensures |old(slots)| == SLOTS && slots == old(slots)[slotOf(key) := Drop(old(slots)[slotOf(key)], key)]
    {
      hide Consistent, Drop, BySlot, Lists;
      Agree();
      BySlotSized(dict, slots, slotOf);
      had := key in dict;
      if had {
        RemoveKeeps(Ks(), lru, slots, slotOf, usedMemory, key);
        usedMemory := usedMemory - EntryCost(key, dict[key]);
        var s := slotOf(key);
        slots := slots[s := Drop(slots[s], key)];
        lru := Drop(lru, key);
        dict := dict - {key};
        if key in expires {
          expires := expires - {key};
          usedMemory := usedMemory - ExpireCost(key);
        } else {
          assert expires - {key} == expires;
        }
      } else {
        NotListed(lru, slots, dict, slotOf, key);
        assert slots[slotOf(key) := slots[slotOf(key)]] == slots;
        assert dict - {key} == dict && expires - {key} == expires;
      }
    }

    /** True if the key has expired; it is then deleted, unless expiry is passive. */
    method ExpireIfNeeded(key: Key, now: int) returns (expired: bool)
      requires Valid()
      modifies this`dict, this`expires, this`lru, this`slots, this`usedMemory, this`notified, this`expiredKeys
      ensures Valid() && expired == Expired(old(Ks()), key, now)
      ensures Ks() == Accessed(old(Ks()), key, now, passive)
      ensures lru == if expired && !passive then Drop(old(lru), key) else old(lru)
      ensures notified == old(notified) + if expired && !passive then [key] else []
    {
      hide Consistent, Drop;
      if key !in expires || expires[key] > now {
        return false;
      }
      if passive {
        return true;
      }
      var _ := Remove(key);
      expiredKeys := expiredKeys + 1;
      notified := notified + [key];
      return true;
    }

    method Lookup(key: Key, touch: bool, now: int) returns (live: bool)
      requires Valid()
      modifies this`dict, this`expires, this`lru, this`slots, this`usedMemory, this`notified, this`expiredKeys
      ensures Valid() && live == Live(old(Ks()), key, now)
      ensures Ks() == Accessed(old(Ks()), key, now, passive)
      ensures lru == if live then (if touch then Touched(old(lru), key) else old(lru)) else
        if Expired(old(Ks()), key, now) && !passive then Drop(old(lru), key) else old(lru)
      ensures notified == old(notified) + if Expired(old(Ks()), key, now) && !passive then [key] else []
    {
      hide Consistent, Drop;
      var expired := ExpireIfNeeded(key, now);
      if expired {
        return false;
      }
      live := key in dict;
      if live && touch {
        TouchKeeps(Ks(), lru, slots, slotOf, usedMemory, key);
        lru := Touched(lru, key);
      }
    }

    /** The store is as the operation leaves it, starting from these contents. */
    ghost predicate Did(ks: Keyspace, order: seq<Key>, told: seq<Key>, op: Op, now: int)
      reads this
    {
      && Valid()
      && Ks() == After(ks, op, now, passive)
      && lru == OrderAfter(order, ks, op, now, passive)
      && notified == told + Reclaimed(ks, op, now, passive)
    }

    method Get(key: Key, now: int) returns (r: Option<Bytes>)
      requires Valid()
      modifies this`dict, this`expires, this`lru, this`slots, this`usedMemory, this`notified, this`expiredKeys, this`past
      ensures Did(old(Ks()), old(lru), old(notified), Op.Get(key), now) && Value(r) == Answer(old(Ks()), Op.Get(key), now)
      ensures past == old(past) + [Ran(Op.Get(key), now, passive)] && (old(Replayed()) ==> Replayed())
    {
      hide Consistent, Drop, RunOf;
      RunGrows(past, Ran(Op.Get(key), now, passive));
      past := past + [Ran(Op.Get(key), now, passive)];
      var live := Lookup(key, true, now);
      r := if live then Some(dict[key]) else None;
    }

    method Exists(key: Key, now: int) returns (r: bool)
      requires Valid()
      modifies this`dict, this`expires, this`lru, this`slots, this`usedMemory, this`notified, this`expiredKeys, this`past
      ensures Did(old(Ks()), old(lru), old(notified), Op.Exists(key), now) && Flag(r) == Answer(old(Ks()), Op.Exists(key), now)
      ensures past == old(past) + [Ran(Op.Exists(key), now, passive)] && (old(Replayed()) ==> Replayed())
    {
      hide Consistent, Drop, RunOf;
      RunGrows(past, Ran(Op.Exists(key), now, passive));
      past := past + [Ran(Op.Exists(key), now, passive)];
      r := Lookup(key, true, now);
    }

    method Set(key: Key, value: Bytes, keepTtl: bool, now: int)
      requires Valid()
      modifies this`dict, this`expires, this`lru, this`slots, this`usedMemory, this`notified, this`expiredKeys, this`past
      ensures Did(old(Ks()), old(lru), old(notified), Put(key, value, keepTtl), now)
      ensures past == old(past) + [Ran(Put(key, value, keepTtl), now, passive)] && (old(Replayed()) ==> Replayed())
    {
      hide Consistent, Drop, RunOf, After, OrderAfter;
      RunGrows(past, Ran(Put(key, value, keepTtl), now, passive));
      past := past + [Ran(Put(key, value, keepTtl), now, passive)];
      Write(key, value, keepTtl, now);
    }

    method Write(key: Key, value: Bytes, keepTtl: bool, now: int)
      requires Valid()
      modifies this`dict, this`expires, this`lru, this`slots, this`usedMemory, this`notified, this`expiredKeys
      ensures Did(old(Ks()), old(lru), old(notified), Put(key, value, keepTtl), now)
    {
      hide Consistent, Drop;
      var live := Lookup(key, true, now);
      if live {
        Overwrite(key, value);
        if !keepTtl {
          var _ := ClearExpire(key);
        }
        return;
      }
      if key !in dict {
        Absent(key);
      }
      if passive {
        var _ := Remove(key);
      }
      Insert(key, value);
    }

    method Overwrite(key: Key, value: Bytes)
      requires Valid() && key in dict
      modifies this`dict, this`usedMemory
      ensures Valid() && dict == old(dict)[key := value]
    {
      hide Consistent;
      Agree();
      assert dict[key := value].Keys == dict.Keys;
      ChangeKeeps(Ks(), Keyspace(dict[key := value], expires), lru, slots, slotOf, usedMemory, key);
      usedMemory := usedMemory - |dict[key]| + |value|;
      dict := dict[key := value];
    }

    method Insert(key: Key, value: Bytes)
      requires Valid() && key !in dict
      modifies this`dict, this`lru, this`slots, this`usedMemory
      ensures Valid() && dict == old(dict)[key := value] && lru == [key] + old(lru)
    {
      hide Consistent;
      Agree();
      InsertKeeps(Ks(), lru, slots, slotOf, usedMemory, key, value);
      usedMemory := usedMemory + EntryCost(key, value);
      lru := [key] + lru;
      var s := slotOf(key);
      slots := slots[s := [key] + slots[s]];
      dict := dict[key := value];
    }

    method Del(key: Key, now: int) returns (live: bool)
      requires Valid()
      modifies this`dict, this`expires, this`lru, this`slots, this`usedMemory, this`notified, this`expiredKeys, this`past
      ensures Did(old(Ks()), old(lru), old(notified), Op.Del(key), now) && Flag(live) == Answer(old(Ks()), Op.Del(key), now)
      ensures past == old(past) + [Ran(Op.Del(key), now, passive)] && (old(Replayed()) ==> Replayed())
    {
      hide Consistent, Drop, RunOf;
      RunGrows(past, Ran(Op.Del(key), now, passive));
      past := past + [Ran(Op.Del(key), now, passive)];
      live := Lookup(key, false, now);
      if key !in dict {
        Absent(key);
      }
      var _ := Remove(key);
    }

    method SetExpire(key: Key, when: int, now: int) returns (live: bool)
      requires Valid()
      modifies this`dict, this`expires, this`lru, this`slots, this`usedMemory, this`notified, this`expiredKeys, this`past
      ensures Did(old(Ks()), old(lru), old(notified), Op.SetExpire(key, when), now)
      ensures Flag(live) == Answer(old(Ks()), Op.SetExpire(key, when), now)
      ensures past == old(past) + [Ran(Op.SetExpire(key, when), now, passive)] && (old(Replayed()) ==> Replayed())
    {
      hide Consistent, Drop, RunOf;
      RunGrows(past, Ran(Op.SetExpire(key, when), now, passive));
      past := past + [Ran(Op.SetExpire(key, when), now, passive)];
      live := Lookup(key, true, now);
      if !live {
        return;
      }
      if when <= now && !passive {
        var _ := Remove(key);
        DropTouched(old(lru), key);
        return;
      }
      Deadline(key, when);
    }

    method Deadline(key: Key, when: int)
      requires Valid() && key in dict
      modifies this`expires, this`usedMemory
      ensures Valid() && expires == old(expires)[key := when]
    {
      hide Consistent;
      Agree();
      ChangeKeeps(Ks(), Keyspace(dict, expires[key := when]), lru, slots, slotOf, usedMemory, key);
      if key !in expires {
        usedMemory := usedMemory + ExpireCost(key);
      }
      expires := expires[key := when];
    }

    method Persist(key: Key, now: int) returns (r: bool)
      requires Valid()
      modifies this`dict, this`expires, this`lru, this`slots, this`usedMemory, this`notified, this`expiredKeys, this`past
      ensures Did(old(Ks()), old(lru), old(notified), Op.Persist(key), now) && Flag(r) == Answer(old(Ks()), Op.Persist(key), now)
      ensures past == old(past) + [Ran(Op.Persist(key), now, passive)] && (old(Replayed()) ==> Replayed())
    {
      hide Consistent, Drop, RunOf;
      RunGrows(past, Ran(Op.Persist(key), now, passive));
      past := past + [Ran(Op.Persist(key), now, passive)];
      r := Lookup(key, true, now);
      if r {
        r := ClearExpire(key);
      }
    }

    method Pttl(key: Key, now: int) returns (r: int)
      requires Valid()
      modifies this`dict, this`expires, this`lru, this`slots, this`usedMemory, this`notified, this`expiredKeys, this`past
      ensures Did(old(Ks()), old(lru), old(notified), Op.Pttl(key), now) && Number(r) == Answer(old(Ks()), Op.Pttl(key), now)
      ensures past == old(past) + [Ran(Op.Pttl(key), now, passive)] && (old(Replayed()) ==> Replayed())
    {
      hide Consistent, Drop, RunOf;
      RunGrows(past, Ran(Op.Pttl(key), now, passive));
      past := past + [Ran(Op.Pttl(key), now, passive)];
      var live := Lookup(key, false, now);
      if !live {
        return -2;
      }
      if key !in expires {
        return -1;
      }
      return expires[key] - now;
    }

    /**
     Evicts the least recently used keys until memory is within its limit. What
     stays is the longest prefix of the use order that fits.
     */
    method EvictIfNeeded() returns (fits: bool, ghost n: nat)
      requires Valid()
      modifies this`dict, this`expires, this`lru, this`slots, this`usedMemory, this`notified, this`evictedKeys, this`past
      ensures Valid() && fits == (maxmemory == 0 || usedMemory <= maxmemory)
      ensures n <= |old(lru)| && lru == old(lru)[..n] && Ks() == WithoutAll(old(Ks()), KeySet(old(lru)[n..]))
      ensures past == old(past) + Goners(Reversed(old(lru)[n..])) && (old(Replayed()) ==> Replayed())
      ensures old(Replayed()) ==> forall victim, kept :: victim in old(lru)[n..] && kept in lru ==>
        LastUse(old(past), victim) < LastUse(old(past), kept)
      ensures notified == old(notified) + Reversed(old(lru)[n..]) && evictedKeys == old(evictedKeys) + |old(lru)| - n
      ensures maxmemory == 0 || policy == NoEviction ==> n == |old(lru)|
      ensures maxmemory > 0 && policy == AllKeysLru ==> fits
      ensures maxmemory > 0 ==> forall m :: n < m <= |old(lru)| ==> Total(old(lru)[..m], old(Ks())) > maxmemory
    {
      hide Consistent, Drop, Total, WithoutAll, KeySet, Reversed, Lists, BySlot, RunOf, LastUse;
      ghost var order, ks := lru, Ks();
      if Replayed() {
        OlderGoFirst(past, lru);
      }
      n := |order|;
      assert order[..n] == order && order[n..] == [];
      NoneGone(ks);
      assert past + [] == past;
      if maxmemory == 0 {
        return true, n;
      }
      Agree();
      while usedMemory > maxmemory
        invariant Valid() && n <= |order| && lru == order[..n] && Ks() == WithoutAll(ks, KeySet(order[n..]))
        invariant notified == old(notified) + Reversed(order[n..]) && evictedKeys == old(evictedKeys) + |order| - n
        invariant past == old(past) + Goners(Reversed(order[n..])) && (old(Replayed()) ==> Replayed())
        invariant usedMemory == Total(order[..n], ks) && (policy == NoEviction ==> n == |order|)
        invariant forall m :: n < m <= |order| ==> Total(order[..m], ks) > maxmemory
        decreases n
      {
        if policy == NoEviction || lru == [] {
          EmptyFree(lru, ks);
          return false, n;
        }
        EvictLast(order, ks, n);
        n := n - 1;
        ReversedMore(order, n);
        GonersMore(Reversed(order[n + 1..]), order[n]);
      }
      fits := true;
    }

    method EvictLast(ghost order: seq<Key>, ghost ks: Keyspace, ghost n: nat)
      requires Valid() && 0 < n <= |order| && lru == order[..n] && Ks() == WithoutAll(ks, KeySet(order[n..]))
      requires Lists(order, ks.vals.Keys) && usedMemory == Total(order[..n], ks)
      modifies this`dict, this`expires, this`lru, this`slots, this`usedMemory, this`notified, this`evictedKeys, this`past
      ensures past == old(past) + [Gone(order[n - 1])] && (old(Replayed()) ==> Replayed())
      ensures Valid() && lru == order[..n - 1] && Ks() == WithoutAll(ks, KeySet(order[n - 1..]))
      ensures usedMemory == Total(order[..n - 1], ks)
      ensures notified == old(notified) + [order[n - 1]] && evictedKeys == old(evictedKeys) + 1
    {
      hide Consistent, Drop, Distinct, Total, BySlot, WithoutAll, Without, KeySet, RunOf;
      var victim := lru[|lru| - 1];
      RunGrows(past, Gone(victim));
      past := past + [Gone(victim)];
      OneMoreGone(ks, order[n..], victim, order[n - 1..]);
      var _ := Remove(victim);
      PrefixDistinct(order, n);
      DropLast(old(lru));
      assert order[..n][..n - 1] == order[..n - 1];
      Agree();
      PrefixCosts(order, ks, n - 1);
      evictedKeys := evictedKeys + 1;
      notified := notified + [victim];
    }

    /** Removes one key and tells the listener. */
    method Reclaim(ghost ks: Keyspace, ghost gone: seq<Key>, key: Key)
      requires Valid() && Ks() == WithoutAll(ks, KeySet(gone))
      modifies this`dict, this`expires, this`lru, this`slots, this`usedMemory, this`notified, this`past
      ensures Valid() && Ks() == WithoutAll(ks, KeySet(gone + [key])) && lru == Drop(old(lru), key)
      ensures past == old(past) + [Gone(key)] && (old(Replayed()) ==> Replayed())
      ensures notified == old(notified) + [key] && Ks() == Without(old(Ks()), key)
      ensures |old(slots)| == SLOTS && slots == old(slots)[slotOf(key) := Drop(old(slots)[slotOf(key)], key)]
    {
      hide Consistent, Drop, WithoutAll, Without, KeySet, RunOf;
      OneMoreGone(ks, gone, key, gone + [key]);
      RunGrows(past, Gone(key));
      past := past + [Gone(key)];
      var _ := Remove(key);
      notified := notified + [key];
    }

    /**
     Samples keys that have a deadline and deletes the expired ones, round after
     round while more than a quarter of the sample had expired and time is left. Round `i`
     goes by the reading `clock(i)`.
     */
    method ActiveExpireCycle(clock: nat -> int) returns (total: nat, rounds: nat, cutShort: bool, ghost gone: seq<Key>)
      requires Valid()
      modifies this`dict, this`expires, this`lru, this`slots, this`usedMemory, this`notified, this`expiredKeys, this`past
      ensures Valid() && Ks() == WithoutAll(old(Ks()), KeySet(gone))
      ensures past == old(past) + Goners(gone) && (old(Replayed()) ==> Replayed())
      ensures forall k :: k in gone ==> ExpiredBy(old(Ks()), k, clock, rounds)
      ensures notified == old(notified) + gone && total == |gone| && expiredKeys == old(expiredKeys) + total
      ensures passive ==> gone == []
      ensures !passive && !cutShort && AlwaysPast(old(expires), clock) ==> expires == map[]
    {
      hide Consistent, Drop, WithoutAll, KeySet, Expired, ExpiredBy, RunOf, Goners, AllPast, AlwaysPast;
      total, rounds, cutShort, gone := 0, 0, false, [];
      NoneGone(Ks());
      assert past + [] == past;
      if passive {
        return;
      }
      while |expires| > 0
        invariant Valid() && Ks() == WithoutAll(old(Ks()), KeySet(gone))
        invariant notified == old(notified) + gone && total == |gone| && expiredKeys == old(expiredKeys)
        invariant past == old(past) + Goners(gone) && (old(Replayed()) ==> Replayed())
        invariant forall k :: k in gone ==> ExpiredBy(old(Ks()), k, clock, rounds)
        invariant !cutShort
        decreases |expires|
      {
        var expired, sampled;
        expired, sampled, gone := Sweep(clock, rounds, old(Ks()), old(notified), old(past), gone);
        PastNow(old(expires), clock, rounds);
        rounds := rounds + 1;
        total := total + expired;
        cutShort := *;
        if expired * 4 <= sampled || cutShort {
          break;
        }
      }
      expiredKeys := expiredKeys + total;
    }

    /** One round: a sample at the next reading of the clock. */
    method Sweep(clock: nat -> int, rounds: nat, ghost ks: Keyspace, ghost told: seq<Key>, ghost deeds: seq<Deed>, ghost gone: seq<Key>)
      returns (expired: nat, sampled: nat, ghost more: seq<Key>)
      requires Valid() && Ks() == WithoutAll(ks, KeySet(gone)) && |expires| > 0
      requires notified == told + gone && past == deeds + Goners(gone)
      requires forall k :: k in gone ==> ExpiredBy(ks, k, clock, rounds)
      modifies this`dict, this`expires, this`lru, this`slots, this`usedMemory, this`notified, this`past
      ensures Valid() && Ks() == WithoutAll(ks, KeySet(more)) && |more| == |gone| + expired
      ensures notified == told + more && past == deeds + Goners(more) && (old(Replayed()) ==> Replayed())
      ensures forall k :: k in more ==> ExpiredBy(ks, k, clock, rounds + 1)
      ensures expired <= sampled == Min(SAMPLES_PER_LOOP, |old(expires)|) && |expires| + expired == |old(expires)|
      ensures AllPast(ks.exps, clock(rounds)) ==> expired == sampled
    {
      hide Consistent, Drop, WithoutAll, KeySet, Expired, ExpiredBy, RunOf, Goners, AllPast;
      ghost var found;
      expired, sampled, found := Round(clock(rounds), ks, gone);
      more := gone + found;
      OneMoreReading(ks, gone, found, clock, rounds);
      assert told + gone + found == told + more;
      GonersJoin(deeds, gone, found);
    }

    /** One sample; the draws may repeat keys. */
    method Round(now: int, ghost ks: Keyspace, ghost gone: seq<Key>) returns (expired: nat, sampled: nat, ghost found: seq<Key>)
      requires Valid() && Ks() == WithoutAll(ks, KeySet(gone)) && |expires| > 0
      modifies this`dict, this`expires, this`lru, this`slots, this`usedMemory, this`notified, this`past
      ensures Valid() && Ks() == WithoutAll(ks, KeySet(gone + found)) && notified == old(notified) + found
      ensures past == old(past) + Goners(found) && (old(Replayed()) ==> Replayed())
      ensures forall k :: k in found ==> Expired(ks, k, now)
      ensures |found| == expired <= sampled == Min(SAMPLES_PER_LOOP, |old(expires)|) && |expires| + expired == |old(expires)|
      ensures AllPast(ks.exps, now) ==> expired == sampled
    {
      hide Consistent, Drop, WithoutAll, KeySet, Expired, RunOf, Goners, AllPast;
      NoneGone(Ks());
      sampled := if SAMPLES_PER_LOOP < |expires| then SAMPLES_PER_LOOP else |expires|;
      expired, found := 0, [];
      assert gone + found == gone && past + [] == past;
      var i := 0;
      while i < sampled && |expires| > 0
        invariant i <= sampled && Valid() && Ks() == WithoutAll(ks, KeySet(gone + found))
        invariant notified == old(notified) + found && expired == |found| <= i
        invariant past == old(past) + Goners(found) && (old(Replayed()) ==> Replayed())
        invariant forall k :: k in found ==> Expired(ks, k, now)
        invariant |expires| + expired == |old(expires)|
        invariant AllPast(ks.exps, now) ==> expired == i
      {
        if AllPast(ks.exps, now) {
          FewerPast(ks, gone + found, now);
        }
        var hit, key := Draw(now, ks, gone + found);
        if hit {
          assert gone + found + [key] == gone + (found + [key]);
          GonersMore(found, key);
          found := found + [key];
          expired := expired + 1;
        }
        i := i + 1;
      }
    }

    method Draw(now: int, ghost ks: Keyspace, ghost gone: seq<Key>) returns (hit: bool, key: Key)
      requires Valid() && Ks() == WithoutAll(ks, KeySet(gone)) && |expires| > 0
      modifies this`dict, this`expires, this`lru, this`slots, this`usedMemory, this`notified, this`past
      ensures Valid() && (!hit ==> Ks() == old(Ks()) && notified == old(notified))
      ensures past == old(past) + (if hit then [Gone(key)] else []) && (old(Replayed()) ==> Replayed())
      ensures hit ==> Expired(ks, key, now) && Ks() == WithoutAll(ks, KeySet(gone + [key]))
      ensures hit ==> notified == old(notified) + [key] && |expires| + 1 == |old(expires)|
      ensures key in old(expires) && (hit <==> old(expires)[key] <= now)
    {
      hide Consistent, Drop, KeySet, RunOf;
      assert expires.Keys != {};
      key :| key in expires;
      hit := expires[key] <= now;
      assert hit ==> Expired(ks, key, now);
      hide WithoutAll, Expired;
      if hit {
        OneFewer(expires, key);
        Reclaim(ks, gone, key);
      }
    }

    /** Deletes every key of a slot, in the order of its list. */
    method DeleteSlot(slot: SlotId) returns (deleted: nat)
      requires Valid()
      modifies this`dict, this`expires, this`lru, this`slots, this`usedMemory, this`notified, this`past
      ensures |old(slots)| == SLOTS && past == old(past) + Goners(old(slots)[slot]) && (old(Replayed()) ==> Replayed())
      ensures Valid() && Ks() == WithoutAll(old(Ks()), SlotKeys(old(dict), slotOf, slot))
      ensures |old(slots)| == SLOTS && notified == old(notified) + old(slots)[slot] && deleted == |old(slots)[slot]|
    {
      hide Consistent, Drop, RunOf, Goners;
      Agree();
      NoneGone(Ks());
      ghost var list, ks := slots[slot], Ks();
      deleted := 0;
      assert past + [] == past && list[..0] == [];
      assert WithoutAll(ks, KeySet(list[..0])) == ks && list[0..] == list;
      while slots[slot] != []
        invariant Valid() && |slots| == SLOTS && deleted <= |list| && slots[slot] == list[deleted..]
        invariant Ks() == WithoutAll(ks, KeySet(list[..deleted])) && notified == old(notified) + list[..deleted]
        invariant past == old(past) + Goners(list[..deleted]) && (old(Replayed()) ==> Replayed())
        decreases |slots[slot]|
      {
        var victim := slots[slot][0];
        assert victim == list[deleted] && list[..deleted] + [victim] == list[..deleted + 1];
        assert slotOf(victim) == slot by { InSlot(slot, victim); }
        DropFirst(slots[slot]);
        Reclaim(ks, list[..deleted], victim);
        GonersMore(list[..deleted], victim);
        deleted := deleted + 1;
      }
      assert list[..deleted] == list;
      assert KeySet(list) == SlotKeys(ks.vals, slotOf, slot);
    }

    lemma InSlot(s: SlotId, k: Key)
      requires Valid() && k in slots[s]
      ensures slotOf(k) == s
    {
    }
  }

  /** Every deadline has passed. */
  predicate AllPast(exps: map<Key, int>, now: int) {
    forall k :: k in exps ==> exps[k] <= now
  }

  /** Every deadline has passed at every reading of the clock. */
  ghost predicate AlwaysPast(exps: map<Key, int>, clock: nat -> int) {
    forall r: nat :: AllPast(exps, clock(r))
  }

  lemma PastNow(exps: map<Key, int>, clock: nat -> int, r: nat)
    ensures AlwaysPast(exps, clock) ==> AllPast(exps, clock(r))
  {
  }

  lemma FewerPast(ks: Keyspace, gone: seq<Key>, now: int)
    requires AllPast(ks.exps, now)
    ensures var left := WithoutAll(ks, KeySet(gone)).exps; forall k :: k in left ==> left[k] <= now
  {
  }

  /** Keys that go one after the other. */
  function Goners(keys: seq<Key>): (deeds: seq<Deed>) {
    seq(|keys|, i requires 0 <= i < |keys| => Gone(keys[i]))
  }

  lemma GonersMore(keys: seq<Key>, k: Key)
    ensures Goners(keys + [k]) == Goners(keys) + [Gone(k)]
  {
  }

  lemma GonersJoin(past: seq<Deed>, a: seq<Key>, b: seq<Key>)
    ensures past + Goners(a) + Goners(b) == past + Goners(a + b)
  {
    assert Goners(a) + Goners(b) == Goners(a + b);
  }

  /** What is cut off the end of the use order was last used before everything that stays. */
  lemma OlderGoFirst(past: seq<Deed>, lru: seq<Key>)
    requires RunOf(past).lru == lru
    ensures forall n: nat, victim, kept :: n <= |lru| && victim in lru[n..] && kept in lru[..n] ==>
      LastUse(past, victim) < LastUse(past, kept)
  {
    forall n: nat, victim, kept | n <= |lru| && victim in lru[n..] && kept in lru[..n]
      ensures LastUse(past, victim) < LastUse(past, kept)
    {
      TailIsOlder(past, n, kept, victim);
    }
  }

  lemma NoneGone(ks: Keyspace)
    ensures WithoutAll(ks, KeySet([])) == ks && Reversed([]) == [] && Goners([]) == []
  {
  }

  lemma PrefixDistinct(s: seq<Key>, n: nat)
    requires Distinct(s) && n <= |s|
    ensures Distinct(s[..n])
  {
  }

  lemma OneMoreGone(ks: Keyspace, gone: seq<Key>, k: Key, all: seq<Key>)
    requires all == gone + [k] || all == [k] + gone
    ensures Without(WithoutAll(ks, KeySet(gone)), k) == WithoutAll(ks, KeySet(all))
  {
    assert KeySet(all) == KeySet(gone) + {k};
  }

  lemma OneFewer(m: map<Key, int>, k: Key)
    requires k in m
    ensures |m - {k}| + 1 == |m|
  {
    assert (m - {k}).Keys == m.Keys - {k};
    assert |m.Keys - {k}| + 1 == |m.Keys|;
  }

  lemma DropFirst(s: seq<Key>)
    requires s != []
    ensures Drop(s, s[0]) == s[1..]
  {
  }

  function KeySet(s: seq<Key>): (r: set<Key>) {
    set k | k in s
  }

  function Reversed(s: seq<Key>): (r: seq<Key>) {
    if s == [] then [] else Reversed(s[1..]) + [s[0]]
  }

  lemma ReversedMore(s: seq<Key>, n: nat)
    requires n < |s|
    ensures Reversed(s[n..]) == Reversed(s[n + 1..]) + [s[n]]
  {
    assert s[n..][1..] == s[n + 1..];
  }

  lemma EmptyFree(s: seq<Key>, ks: Keyspace)
    ensures s == [] ==> Total(s, ks) == 0
  {
  }

  lemma {:induction false} DropLast(s: seq<Key>)
    requires s != [] && Distinct(s)
    ensures Drop(s, s[|s| - 1]) == s[..|s| - 1]
  {
    if |s| > 1 {
      assert s[1..][|s| - 2] == s[|s| - 1];
      DropLast(s[1..]);
      assert s[..|s| - 1] == [s[0]] + s[1..][..|s| - 2];
    }
  }

  /** Removing the tail of the use order does not change what the rest is charged. */
  lemma PrefixCosts(order: seq<Key>, ks: Keyspace, n: nat)
    requires n <= |order| && Distinct(order)
    ensures Total(order[..n], WithoutAll(ks, KeySet(order[n..]))) == Total(order[..n], ks)
  {
    forall k | k in order[..n]
      ensures k !in KeySet(order[n..])
    {
      assert forall j :: n <= j < |order| ==> order[j] == order[n..][j - n];
    }
    TotalSame(order[..n], WithoutAll(ks, KeySet(order[n..])), ks);
  }

  lemma NotListed(lru: seq<Key>, slots: seq<seq<Key>>, dict: map<Key, Bytes>, slotOf: Key -> SlotId, k: Key)
    requires Lists(lru, dict.Keys) && BySlot(dict, slots, slotOf) && k !in dict
    ensures k !in lru && k !in slots[slotOf(k)]
  {
  }

  lemma BySlotSized(vals: map<Key, Bytes>, slots: seq<seq<Key>>, slotOf: Key -> SlotId)
    requires BySlot(vals, slots, slotOf)
    ensures |slots| == SLOTS
  {
  }
}
