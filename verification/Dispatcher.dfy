/** The write command handlers, working on a master's store and handing each change to the log. */
module Dispatcher {
  import opened Prelude
  import opened Keyspace
  import opened Propagation
  import Commands
  import Stores = Store

  datatype Outcome = Ok | Null | NoKey | Refused | Count(n: int)

  /** An effect whose log comes after what had been logged before. */
  ghost function Onto(pre: seq<Logged>, e: Effect): (r: Effect) {
    Effect(e.ks, pre + e.log)
  }

  predicate IsError(reply: Bytes) {
    reply != [] && reply[0] == 45   // '-'
  }

  /** Which keys a target's replies confirm. */
  function Accepts(replies: seq<Bytes>): (accepted: seq<bool>) {
    seq(|replies|, i requires 0 <= i < |replies| => !IsError(replies[i]))
  }

  /** The keys whose RESTORE was not answered with an error: the i-th reply is about the i-th key. */
  function Confirmed(live: seq<Key>, replies: seq<Bytes>): (ks: set<Key>) {
    set i | 0 <= i < |live| && i < |replies| && (replies[i] == [] || replies[i][0] != 45) :: live[i]
  }

  /** None of the first n replies is an error with a text. */
  predicate AllAccepted(replies: seq<Bytes>, n: nat)
    requires n <= |replies|
  {
    forall i :: 0 <= i < n ==> !(IsError(replies[i]) && |replies[i]| > 1)
  }

  lemma {:induction false} SameKeys(s: seq<Key>)
    ensures Stores.KeySet(s) == KeysOf(Stores.Reversed(s))
  {
    if s != [] {
      SameKeys(s[1..]);
      assert s == [s[0]] + s[1..];
      assert Stores.KeySet(s) == Stores.KeySet(s[1..]) + {s[0]};
      assert KeysOf(Stores.Reversed(s[1..]) + [s[0]]) == KeysOf(Stores.Reversed(s[1..])) + {s[0]};
    }
  }

  class Dispatcher {
    const store: Stores.Store

    var log: seq<Logged>      // what the AOF and the replicas are given, in order
    var heard: nat            // how many of the store's own deletions have been logged

    ghost predicate Valid()
      reads this, store
    {
      store.Valid() && !store.passive && heard == |store.notified|
    }

    ghost function State(): (r: Effect)
      reads this, store
    {
      Effect(store.Ks(), log)
    }

    constructor (store: Stores.Store)
      requires store.Valid() && !store.passive
      ensures Valid() && this.store == store && log == []
    {
      this.store, log, heard := store, [], |store.notified|;
    }

    /** The deletion listener: each key the store dropped is logged as a DEL of its own. */
    method Listen(ghost pre: seq<Logged>, ghost e: Effect, ghost op: Op, now: int)
      requires store.Valid() && !store.passive && heard <= |store.notified|
      requires store.Ks() == After(e.ks, op, now, false) && log == pre + e.log
      requires store.notified[heard..] == Reclaimed(e.ks, op, now, false)
      modifies this`log, this`heard
      ensures Valid() && State() == Onto(pre, Then(e, op, now))
    {
      ghost var gone := store.notified[heard..];
      ListenAll(log, gone);
      assert pre + e.log + Dels(gone) == pre + (e.log + Dels(gone));
    }

    method Get(ghost pre: seq<Logged>, ghost e: Effect, key: Key, now: int) returns (r: Option<Bytes>)
      requires Valid() && State() == Onto(pre, e)
      modifies this, store
      ensures Valid() && State() == Onto(pre, Then(e, Op.Get(key), now)) && Value(r) == Answer(e.ks, Op.Get(key), now)
    {
      hide Stores.Store.Valid;
      r := store.Get(key, now);
      Listen(pre, e, Op.Get(key), now);
    }

    method Exists(ghost pre: seq<Logged>, ghost e: Effect, key: Key, now: int) returns (r: bool)
      requires Valid() && State() == Onto(pre, e)
      modifies this, store
      ensures Valid() && State() == Onto(pre, Then(e, Op.Exists(key), now)) && r == Live(e.ks, key, now)
    {
      hide Stores.Store.Valid;
      r := store.Exists(key, now);
      Listen(pre, e, Op.Exists(key), now);
    }

    method Write(ghost pre: seq<Logged>, ghost e: Effect, key: Key, value: Bytes, keepTtl: bool, now: int)
      requires Valid() && State() == Onto(pre, e)
      modifies this, store
      ensures Valid() && State() == Onto(pre, Then(e, Op.Put(key, value, keepTtl), now))
    {
      hide Stores.Store.Valid;
      store.Set(key, value, keepTtl, now);
      Listen(pre, e, Op.Put(key, value, keepTtl), now);
    }

    method Delete(ghost pre: seq<Logged>, ghost e: Effect, key: Key, now: int) returns (r: bool)
      requires Valid() && State() == Onto(pre, e)
      modifies this, store
      ensures Valid() && State() == Onto(pre, Then(e, Op.Del(key), now)) && r == Live(e.ks, key, now)
    {
      hide Stores.Store.Valid;
      r := store.Del(key, now);
      Listen(pre, e, Op.Del(key), now);
    }

    method Deadline(ghost pre: seq<Logged>, ghost e: Effect, key: Key, when: int, now: int) returns (r: bool)
      requires Valid() && State() == Onto(pre, e)
      modifies this, store
      ensures Valid() && State() == Onto(pre, Then(e, Op.SetExpire(key, when), now)) && r == Live(e.ks, key, now)
    {
      hide Stores.Store.Valid;
      r := store.SetExpire(key, when, now);
      Listen(pre, e, Op.SetExpire(key, when), now);
    }

    method Unexpire(ghost pre: seq<Logged>, ghost e: Effect, key: Key, now: int) returns (r: bool)
      requires Valid() && State() == Onto(pre, e)
      modifies this, store
      ensures Valid() && State() == Onto(pre, Then(e, Op.Persist(key), now)) && r == (Live(e.ks, key, now) && key in e.ks.exps)
    {
      hide Stores.Store.Valid;
      r := store.Persist(key, now);
      Listen(pre, e, Op.Persist(key), now);
    }

    method Remaining(ghost pre: seq<Logged>, ghost e: Effect, key: Key, now: int) returns (r: int)
      requires Valid() && State() == Onto(pre, e)
      modifies this, store
      ensures Valid() && State() == Onto(pre, Then(e, Op.Pttl(key), now)) && Number(r) == Answer(e.ks, Op.Pttl(key), now)
    {
      hide Stores.Store.Valid;
      r := store.Pttl(key, now);
      Listen(pre, e, Op.Pttl(key), now);
    }

    method Propagate(ghost pre: seq<Logged>, ghost e: Effect, l: Logged)
      requires Valid() && State() == Onto(pre, e)
      modifies this`log
      ensures Valid() && State() == Onto(pre, Say(e, l))
    {
      hide Stores.Store.Valid;
      assert pre + e.log + [l] == pre + (e.log + [l]);
      log := log + [l];
    }

    /** The rest of SET and RESTORE: store, set the deadline, log the absolute form. */
    method StoreAndLog(ghost pre: seq<Logged>, ghost e: Effect, key: Key, value: Bytes, at: Option<int>, keep: bool, now: int)
      requires Valid() && State() == Onto(pre, e)
      modifies this, store
      ensures Valid() && State() == Onto(pre, Stored(e, key, value, at, keep, now))
    {
      hide Valid, Then;
      Write(pre, e, key, value, keep, now);
      ghost var f := Then(e, Put(key, value, keep), now);
      if at.Some? {
        var _ := Deadline(pre, f, key, at.value, now);
        f := Then(f, SetExpire(key, at.value), now);
      }
      Propagate(pre, f, LSet(key, value, at, keep && at.None?));
    }

    /** SET key value, its options already read. */
    method CmdSet(key: Key, value: Bytes, cond: Condition, ttl: Ttl, now: int) returns (r: Outcome)
      requires Valid()
      modifies this, store
      ensures Valid() && State() == Onto(old(log), Exec(old(store.Ks()), Set(key, value, cond, ttl), now))
      ensures r == Refused <==> SetDeadline(ttl, now).None?
      ensures SetDeadline(ttl, now).Some? ==>
        (r == Null <==> cond != Always && (cond == IfAbsent) == Live(old(store.Ks()), key, now))
    {
      hide Valid, Then, Stored, Live;
      ghost var pre := log;
      ghost var e := Effect(store.Ks(), []);
      assert pre + [] == pre;
      var d := SetDeadline(ttl, now);
      if d.None? {
        return Refused;
      }
      if cond != Always {
        var there := Exists(pre, e, key, now);
        e := Then(e, Op.Exists(key), now);
        if (cond == IfAbsent && there) || (cond == IfPresent && !there) {
          return Null;
        }
      }
      StoreAndLog(pre, e, key, value, d.value, ttl == Keep, now);
      return Ok;
    }

    /** DEL: every key, then the whole command if any of them was there. */
    method CmdDel(keys: seq<Key>, now: int) returns (r: Outcome)
      requires Valid()
      modifies this, store
      ensures Valid() && State() == Onto(old(log), Exec(old(store.Ks()), DelKeys(keys), now))
      ensures r == Count(|LiveFirst(Effect(old(store.Ks()), []), keys, |keys|, now)|)
    {
      hide Valid, Then, Live;
      ghost var pre := log;
      ghost var e := Effect(store.Ks(), []);
      assert pre + [] == pre;
      var removed, i := 0, 0;
      while i < |keys|
        invariant i <= |keys| && Valid() && State() == Onto(pre, DelFirst(e, keys, i, now))
        invariant removed == |LiveFirst(e, keys, i, now)|
      {
        var live := Delete(pre, DelFirst(e, keys, i, now), keys[i], now);
        if live {
          removed := removed + 1;
        }
        i := i + 1;
      }
      if removed > 0 {
        Propagate(pre, DelFirst(e, keys, i, now), LDel(keys));
      }
      return Count(removed);
    }

    /** INCR, DECR, INCRBY and DECRBY, the sign already in the amount. */
    method CmdIncrBy(key: Key, delta: int, now: int) returns (r: Outcome)
      requires Valid()
      modifies this, store
      ensures Valid() && State() == Onto(old(log), Exec(old(store.Ks()), IncrBy(key, delta), now))
      ensures var was := if Live(old(store.Ks()), key, now) then ParseCanonical(old(store.Ks()).vals[key]) else Some(0);
        r == if was.Some? && Int64(was.value + delta) then Count(was.value + delta) else Refused
    {
      hide Valid, Then, ParseCanonical, Text;
      ghost var pre := log;
      ghost var e := Effect(store.Ks(), []);
      assert pre + [] == pre;
      var current := Get(pre, e, key, now);
      e := Then(e, Op.Get(key), now);
      var value := if current.Some? then ParseCanonical(current.value) else Some(0);
      if value.None? || !Int64(value.value + delta) {
        return Refused;
      }
      var text := Text(value.value + delta);
      Write(pre, e, key, text, true, now);
      Propagate(pre, Then(e, Put(key, text, true), now), LSet(key, text, None, true));
      return Count(value.value + delta);
    }

    /** EXPIRE, PEXPIRE, EXPIREAT and PEXPIREAT. */
    method CmdExpire(key: Key, amount: int, unit: int, relative: bool, now: int) returns (r: Outcome)
      requires Valid()
      modifies this, store
      ensures Valid() && State() == Onto(old(log), Exec(old(store.Ks()), Expire(key, amount, unit, relative), now))
      ensures r ==
        if DeadlineFrom(if relative then now else 0, amount, unit).None? then Refused
        else Count(if Live(old(store.Ks()), key, now) then 1 else 0)
    {
      hide Valid, Then, Live, DeadlineFrom;
      ghost var pre := log;
      ghost var e := Effect(store.Ks(), []);
      assert pre + [] == pre;
      var when := DeadlineFrom(if relative then now else 0, amount, unit);
      if when.None? {
        return Refused;
      }
      var live := Deadline(pre, e, key, when.value, now);
      if !live {
        return Count(0);
      }
      Propagate(pre, Then(e, SetExpire(key, when.value), now),
        if when.value <= now then LDel([key]) else LExpireAt(key, when.value));
      return Count(1);
    }

    method CmdPersist(key: Key, now: int) returns (r: Outcome)
      requires Valid()
      modifies this, store
      ensures Valid() && State() == Onto(old(log), Exec(old(store.Ks()), PersistKey(key), now))
      ensures r == Count(if Live(old(store.Ks()), key, now) && key in old(store.Ks()).exps then 1 else 0)
    {
      hide Valid, Then, Live;
      ghost var pre := log;
      ghost var e := Effect(store.Ks(), []);
      assert pre + [] == pre;
      var had := Unexpire(pre, e, key, now);
      if !had {
        return Count(0);
      }
      Propagate(pre, Then(e, Op.Persist(key), now), LPersist(key));
      return Count(1);
    }

    /** RESTORE, its payload already decoded (None when the decoding failed). */
    method CmdRestore(key: Key, ttlMs: int, payload: Option<Bytes>, replace: bool, absttl: bool, now: int) returns (r: Outcome)
      requires Valid()
      modifies this, store
      ensures Valid() && State() == Onto(old(log), Exec(old(store.Ks()), Restore(key, ttlMs, payload, replace, absttl), now))
      ensures r == Refused <==> ttlMs < 0 || payload.None? || (!replace && Live(old(store.Ks()), key, now))
    {
      hide Valid, Then, Live, Stored;
      ghost var pre := log;
      ghost var e := Effect(store.Ks(), []);
      assert pre + [] == pre;
      if ttlMs < 0 {
        return Refused;
      }
      if !replace {
        var there := Exists(pre, e, key, now);
        e := Then(e, Op.Exists(key), now);
        if there {
          return Refused;
        }
      }
      if payload.None? {
        return Refused;
      }
      var at := RestoreDeadline(ttlMs, absttl, now);
      if at.Some? && at.value <= now {
        var live := Delete(pre, e, key, now);
        if live {
          Propagate(pre, Then(e, Op.Del(key), now), LDel([key]));
        }
        return Ok;
      }
      StoreAndLog(pre, e, key, payload.value, at, false, now);
      return Ok;
    }

    /**
     MIGRATE: looks the keys up, sends those that are there, and deletes the ones the
     target accepted. `replies` are the target's, in order; there may be fewer than keys
     sent. `ioOk` is whether the exchange went through.
     */
    method CmdMigrate(keys: seq<Key>, replies: seq<Bytes>, ioOk: bool, copy: bool, now: int) returns (r: Outcome)
      requires Valid()
      modifies this, store
      ensures Valid() && State() == Onto(old(log), Exec(old(store.Ks()), Migrate(keys, Accepts(replies), copy), now))
      ensures var v := ViewAt(old(store.Ks()), now);
        ViewAt(store.Ks(), now) == if copy then v else v - Confirmed(Commands.Present(v, keys), replies)
      ensures r == NoKey <==> forall k :: k in keys ==> !Live(old(store.Ks()), k, now)
      ensures r != NoKey ==>
        var sent := SentFirst(Effect(old(store.Ks()), []), keys, |keys|, now);
        r == if ioOk && AllAccepted(replies, Min(|sent|, |replies|)) then Ok else Refused
    {
      hide Valid, Then, Live;
      ghost var pre := log;
      ghost var e := Effect(store.Ks(), []);
      assert pre + [] == pre;
      KeepsConfirmed(keys, replies, copy, now);
      var sent := Send(pre, e, keys, now);
      SentNone(e, keys, now);
      ghost var f := ReadFirst(e, keys, |keys|, now);
      if sent == [] {
        assert Chosen(sent, Accepts(replies), copy) == [];
        return NoKey;
      }
      var deleted := [];
      if !copy {
        deleted := DeleteTaken(pre, f, sent, Accepts(replies), now);
      }
      ghost var victims := Chosen(sent, Accepts(replies), copy);
      if deleted != [] {
        Propagate(pre, DelFirst(f, victims, |victims|, now), LDel(deleted));
      }
      var error := TargetError(replies, Min(|sent|, |replies|));
      return if ioOk && error == [] then Ok else Refused;
    }

    lemma KeepsConfirmed(keys: seq<Key>, replies: seq<Bytes>, copy: bool, now: int)
      requires Valid()
      ensures var v := ViewAt(store.Ks(), now);
        ViewAt(Exec(store.Ks(), Migrate(keys, Accepts(replies), copy), now).ks, now)
        == if copy then v else v - Confirmed(Commands.Present(v, keys), replies)
    {
      hide ViewAt, Exec;
      StoreSound();
      Commands.MigrateLeaves(store.Ks(), keys, Accepts(replies), copy, now);
      assert Commands.Taken(Commands.Present(ViewAt(store.Ks(), now), keys), Accepts(replies))
          == Confirmed(Commands.Present(ViewAt(store.Ks(), now), keys), replies);
    }

    lemma StoreSound()
      requires Valid()
      ensures Sound(store.Ks())
    {
    }

    lemma SentNone(e: Effect, keys: seq<Key>, now: int)
      ensures SentFirst(e, keys, |keys|, now) == [] <==> forall k :: k in keys ==> !Live(e.ks, k, now)
    {
      hide Live;
      var sent := SentFirst(e, keys, |keys|, now);
      assert keys[..|keys|] == keys;
      forall k
        ensures k in sent <==> k in keys && Live(e.ks, k, now)
      {
        SentAreLive(e, keys, |keys|, now, k);
      }
      assert sent != [] ==> sent[0] in sent;
    }

    /** The text of the first error reply that has one. */
    method TargetError(replies: seq<Bytes>, n: nat) returns (error: Bytes)
      requires n <= |replies|
      ensures error == [] <==> AllAccepted(replies, n)
    {
      error := [];
      for i := 0 to n
        invariant error == [] <==> AllAccepted(replies, i)
      {
        if IsError(replies[i]) && error == [] {
          error := replies[i][1..];
        }
      }
    }

    method DeleteTaken(ghost pre: seq<Logged>, ghost f: Effect, sent: seq<Key>, accepted: seq<bool>, now: int)
      returns (deleted: seq<Key>)
      requires Valid() && State() == Onto(pre, f)
      modifies this, store
      ensures var v := Chosen(sent, accepted, false);
        Valid() && State() == Onto(pre, DelFirst(f, v, |v|, now)) && deleted == LiveFirst(f, v, |v|, now)
      ensures KeysOf(Chosen(sent, accepted, false)) == Commands.Taken(sent, accepted)
    {
      hide Valid, Then, Live;
      Commands.TakenOnly(sent, accepted);
      deleted := [];
      var i, n := 0, Min(|sent|, |accepted|);
      ghost var v: seq<Key> := [];
      while i < n
        invariant i <= n && Valid() && v == ChosenFirst(sent, accepted, i)
        invariant State() == Onto(pre, DelFirst(f, v, |v|, now)) && deleted == LiveFirst(f, v, |v|, now)
      {
        if accepted[i] {
          var live := Delete(pre, DelFirst(f, v, |v|, now), sent[i], now);
          DelFirstOf(f, v, [sent[i]], |v|, now);
          if live {
            deleted := deleted + [sent[i]];
          }
          v := v + [sent[i]];
        } else {
          assert v + [] == v;
        }
        i := i + 1;
      }
    }

    method Send(ghost pre: seq<Logged>, ghost e: Effect, keys: seq<Key>, now: int) returns (sent: seq<Key>)
      requires Valid() && State() == Onto(pre, e)
      modifies this, store
      ensures Valid() && State() == Onto(pre, ReadFirst(e, keys, |keys|, now)) && sent == SentFirst(e, keys, |keys|, now)
    {
      hide Valid, Then;
      sent := [];
      var i := 0;
      while i < |keys|
        invariant i <= |keys| && Valid() && State() == Onto(pre, ReadFirst(e, keys, i, now))
        invariant sent == SentFirst(e, keys, i, now)
      {
        ghost var f := ReadFirst(e, keys, i, now);
        var value := Get(pre, f, keys[i], now);
        if value.Some? {
          var _ := Remaining(pre, Then(f, Op.Get(keys[i]), now), keys[i], now);
          sent := sent + [keys[i]];
        }
        i := i + 1;
      }
    }

    /** Before a write that may use memory: evicts if the policy allows it, and logs the victims. */
    method Evict(now: int) returns (fits: bool, ghost victims: seq<Key>)
      requires Valid()
      modifies this, store
      ensures Valid() && State() == Onto(old(log), Exec(old(store.Ks()), Lose(victims), now))
    {
      hide Stores.Store.Valid, Stores.KeySet, Stores.Reversed;
      ghost var n;
      ghost var order := store.lru;
      fits, n := store.EvictIfNeeded();
      victims := Stores.Reversed(order[n..]);
      SameKeys(order[n..]);
      ListenAll(log, victims);
    }

    method ListenAll(ghost pre: seq<Logged>, ghost gone: seq<Key>)
      requires store.Valid() && !store.passive && heard <= |store.notified| && log == pre && store.notified[heard..] == gone
      modifies this`log, this`heard
      ensures Valid() && log == pre + Dels(gone)
    {
      hide Stores.Store.Valid;
      ghost var from := heard;
      assert Dels([]) == [] && pre + [] == pre;
      while heard < |store.notified|
        invariant from <= heard <= |store.notified| && log == pre + Dels(gone[..heard - from])
      {
        assert gone[..heard + 1 - from] == gone[..heard - from] + [store.notified[heard]];
        log := log + [LDel([store.notified[heard]])];
        heard := heard + 1;
      }
      assert gone[..heard - from] == gone;
    }
  }
}
