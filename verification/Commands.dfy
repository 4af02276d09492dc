/** What each write command leaves for clients to see, in terms of what they saw before it. */
module Commands {
  import opened Prelude
  import opened Keyspace
  import opened Propagation

  lemma ThenView(e: Effect, op: Op, now: int)
    requires Sound(e.ks)
    ensures Sound(Then(e, op, now).ks) && ViewAt(Then(e, op, now).ks, now) == PlainAfter(ViewAt(e.ks, now), op, now)
  {
    RefinesPlain(e.ks, op, now, false);
  }

  /** A time given as an amount of some unit after a base, which must fit 64 bits on the way. */
  predicate Fits(base: int, amount: int, unit: int) {
    Int64(amount * unit) && Int64(base + amount * unit)
  }

  /** The view with the key set to expire at a time, which may have passed. */
  function Timed(v: View, k: Key, x: Bytes, at: int, now: int): (w: View) {
    if at <= now then v - {k} else v[k := Entry(x, Some(at))]
  }

  lemma StoredLeaves(e: Effect, k: Key, x: Bytes, at: Option<int>, keep: bool, now: int)
    requires Sound(e.ks)
    ensures var v, w := ViewAt(e.ks, now), ViewAt(Stored(e, k, x, at, keep, now).ks, now);
      w == if at.Some? then Timed(v, k, x, at.value, now) else v[k := Entry(x, if keep && k in v then v[k].deadline else None)]
  {
    hide ViewAt, Then, Sound;
    ThenView(e, Put(k, x, keep), now);
    var put := Then(e, Put(k, x, keep), now);
    if at.Some? {
      ThenView(put, SetExpire(k, at.value), now);
      var v := ViewAt(e.ks, now);
      assert PlainAfter(v, Put(k, x, keep), now) - {k} == v - {k};
    }
  }

  /**
   SET stores its value unless its condition fails or its time does not fit. The deadline is
   the one asked for: none, the old one, or the given time from now or from the epoch.
   */
  lemma SetLeaves(ks: Keyspace, k: Key, x: Bytes, cond: Condition, ttl: Ttl, now: int)
    requires Sound(ks)
    ensures var v, w := ViewAt(ks, now), ViewAt(Exec(ks, Set(k, x, cond, ttl), now).ks, now);
      if (cond == IfAbsent && k in v) || (cond == IfPresent && k !in v) then w == v
      else match ttl
        case Clear => w == v[k := Entry(x, None)]
        case Keep => w == v[k := Entry(x, if k in v then v[k].deadline else None)]
        case Within(a, u) => w == if a > 0 && Fits(now, a, u) then Timed(v, k, x, now + a * u, now) else v
        case Until(a, u) => w == if a > 0 && Fits(0, a, u) then Timed(v, k, x, a * u, now) else v
  {
    hide ViewAt, Stored, Then, Sound, Live, Int64, Timed;
    var e := if cond == Always then Effect(ks, []) else Then(Effect(ks, []), Exists(k), now);
    ThenView(Effect(ks, []), Exists(k), now);
    LiveIsSeen(ks, k, now);
    var d := SetDeadline(ttl, now);
    if d.Some? {
      StoredLeaves(e, k, x, d.value, ttl == Keep, now);
    }
  }

  lemma DelLeaves(ks: Keyspace, keys: seq<Key>, now: int)
    requires Sound(ks)
    ensures ViewAt(Exec(ks, DelKeys(keys), now).ks, now) == ViewAt(ks, now) - set k | k in keys
  {
    hide Silent, ViewAt, DelFirst, LiveFirst;
    StartSilent(ks, now);
    DelFirstSilent(ViewAt(ks, now), Effect(ks, []), keys, |keys|, now);
    assert keys[..|keys|] == keys;
  }

  /** EXPIRE and its kin set exactly the given time on a key that is there, and delete one whose time has come. */
  lemma ExpireLeaves(ks: Keyspace, k: Key, amount: int, unit: int, relative: bool, now: int)
    requires Sound(ks)
    ensures var v, w := ViewAt(ks, now), ViewAt(Exec(ks, Expire(k, amount, unit, relative), now).ks, now);
      var base := if relative then now else 0;
      w == if k in v && Fits(base, amount, unit) then Timed(v, k, v[k].value, base + amount * unit, now) else v
  {
    hide ViewAt, Then, Sound, Live, Int64;
    LiveIsSeen(ks, k, now);
    var d := DeadlineFrom(if relative then now else 0, amount, unit);
    if d.Some? {
      ThenView(Effect(ks, []), SetExpire(k, d.value), now);
    }
  }

  lemma PersistLeaves(ks: Keyspace, k: Key, now: int)
    requires Sound(ks)
    ensures var v, w := ViewAt(ks, now), ViewAt(Exec(ks, PersistKey(k), now).ks, now);
      w == if k in v then v[k := Entry(v[k].value, None)] else v
  {
    hide ViewAt, Then, Sound, Live;
    ThenView(Effect(ks, []), Op.Persist(k), now);
  }

  lemma ValueSeen(ks: Keyspace, k: Key, now: int)
    ensures k in ViewAt(ks, now) <==> Live(ks, k, now)
    ensures k in ViewAt(ks, now) ==> k in ks.vals && ViewAt(ks, now)[k].value == ks.vals[k]
  {
  }

  /** INCR and its kin store the sum under the key's old deadline; a key that is not there counts as zero. */
  lemma IncrLeaves(ks: Keyspace, k: Key, delta: int, now: int)
    requires Sound(ks)
    ensures var v, w := ViewAt(ks, now), ViewAt(Exec(ks, IncrBy(k, delta), now).ks, now);
      var was := if k in v then ParseCanonical(v[k].value) else Some(0);
      if was.Some? && Int64(was.value + delta)
      then
        && k in w && ParseCanonical(w[k].value) == Some(was.value + delta)
        && w[k].deadline == (if k in v then v[k].deadline else None) && w == v[k := w[k]]
      else w == v
  {
    hide ViewAt, Then, Sound, Live, Int64, Text, ParseCanonical;
    var v := ViewAt(ks, now);
    ValueSeen(ks, k, now);
    ThenView(Effect(ks, []), Op.Get(k), now);
    var was := if k in v then ParseCanonical(v[k].value) else Some(0);
    if was.Some? && Int64(was.value + delta) {
      var text := Text(was.value + delta);
      ThenView(Then(Effect(ks, []), Op.Get(k), now), Put(k, text, true), now);
      TextParses(was.value + delta);
    }
  }

  /** RESTORE stores the value with the time it came with; one that has run out removes the key. */
  lemma RestoreLeaves(ks: Keyspace, k: Key, ttlMs: int, payload: Option<Bytes>, replace: bool, absttl: bool, now: int)
    requires Sound(ks)
    ensures var v, w := ViewAt(ks, now), ViewAt(Exec(ks, Restore(k, ttlMs, payload, replace, absttl), now).ks, now);
      if ttlMs < 0 || payload.None? || (!replace && k in v) then w == v
      else if ttlMs == 0 then w == v[k := Entry(payload.value, None)]
      else
        var at := if absttl then ttlMs else if Fits(now, ttlMs, 1) then now + ttlMs else INT64_MAX;
        w == Timed(v, k, payload.value, at, now)
  {
    hide ViewAt, Then, Sound, Live, Int64, Stored;
    LiveIsSeen(ks, k, now);
    if ttlMs >= 0 && payload.Some? && (replace || !Live(ks, k, now)) {
      var e := if replace then Effect(ks, []) else Then(Effect(ks, []), Exists(k), now);
      ThenView(Effect(ks, []), Exists(k), now);
      var at := RestoreDeadline(ttlMs, absttl, now);
      StoredLeaves(e, k, payload.value, at, false, now);
      ThenView(e, Op.Del(k), now);
    } else if ttlMs >= 0 {
      ThenView(Effect(ks, []), Exists(k), now);
    }
  }

  // --- nothing leaves the store unsaid ------------------------------------------------

  /** The log says that the key goes: in a DEL, or in a SET whose time has passed. */
  ghost predicate Mourned(log: seq<Logged>, k: Key, now: int) {
    exists i :: 0 <= i < |log| && Mourns(log[i], k, now)
  }

  predicate Mourns(l: Logged, k: Key, now: int) {
    (l.LDel? && k in l.keys) || (l.LSet? && l.key == k && l.at.Some? && l.at.value <= now)
  }

  /** Every key of `vals` is still stored, or the log says that it has gone. */
  ghost predicate AllTold(vals: map<Key, Bytes>, e: Effect, now: int) {
    forall k :: k in vals ==> k in e.ks.vals || Mourned(e.log, k, now)
  }

  lemma MournedStill(log: seq<Logged>, more: seq<Logged>, k: Key, now: int)
    ensures Mourned(log, k, now) ==> Mourned(log + more, k, now)
    ensures Mourned(more, k, now) ==> Mourned(log + more, k, now)
  {
    if Mourned(log, k, now) {
      var i :| 0 <= i < |log| && Mourns(log[i], k, now);
      assert (log + more)[i] == log[i];
    }
    if Mourned(more, k, now) {
      var i :| 0 <= i < |more| && Mourns(more[i], k, now);
      assert (log + more)[|log| + i] == more[i];
    }
  }

  lemma SayKeeps(vals: map<Key, Bytes>, e: Effect, l: Logged, now: int)
    requires forall k :: k in vals ==> k in e.ks.vals || Mourned(e.log, k, now) || Mourns(l, k, now)
    ensures AllTold(vals, Say(e, l), now)
  {
    forall k | k in vals && k !in e.ks.vals
      ensures Mourned(e.log + [l], k, now)
    {
      MournedStill(e.log, [l], k, now);
      if Mourns(l, k, now) {
        assert [l][0] == l && Mourned([l], k, now);
      }
    }
  }

  /** An operation takes out its own key only, and an expired one with a DEL. */
  lemma ThenTells(vals: map<Key, Bytes>, e: Effect, op: Op, now: int)
    requires AllTold(vals, e, now)
    ensures forall k :: k in vals && k != op.key ==> k in Then(e, op, now).ks.vals || Mourned(Then(e, op, now).log, k, now)
    ensures op.Get? || op.Exists? || op.Pttl? || op.Put? || op.Persist? ==> AllTold(vals, Then(e, op, now), now)
    ensures op.SetExpire? && (op.when > now || !Live(e.ks, op.key, now)) ==> AllTold(vals, Then(e, op, now), now)
    ensures op.Del? && !Live(e.ks, op.key, now) ==> AllTold(vals, Then(e, op, now), now)
  {
    hide Mourned;
    var gone := Dels(Reclaimed(e.ks, op, now, false));
    forall k
      ensures Mourned(e.log, k, now) ==> Mourned(e.log + gone, k, now)
      ensures Mourned(gone, k, now) ==> Mourned(e.log + gone, k, now)
    {
      MournedStill(e.log, gone, k, now);
    }
    if Expired(e.ks, op.key, now) {
      ReclaimedIsMourned(op.key, now);
    }
  }

  lemma ReclaimedIsMourned(k: Key, now: int)
    ensures Mourned(Dels([k]), k, now)
  {
    assert Dels([k])[0] == LDel([k]);
  }

  lemma StoredTells(vals: map<Key, Bytes>, e: Effect, k: Key, x: Bytes, at: Option<int>, keep: bool, now: int)
    requires AllTold(vals, e, now)
    ensures AllTold(vals, Stored(e, k, x, at, keep, now), now)
  {
    hide Then, AllTold, Mourned;
    ThenTells(vals, e, Put(k, x, keep), now);
    var put := Then(e, Put(k, x, keep), now);
    var timed := if at.Some? then Then(put, SetExpire(k, at.value), now) else put;
    ToldMeans(vals, put, now);
    if at.Some? {
      ThenTells(vals, put, SetExpire(k, at.value), now);
      if at.value > now {
        ToldMeans(vals, timed, now);
      }
    }
    SayKeeps(vals, timed, LSet(k, x, at, keep && at.None?), now);
  }

  lemma ToldMeans(vals: map<Key, Bytes>, e: Effect, now: int)
    requires AllTold(vals, e, now)
    ensures forall k :: k in vals ==> k in e.ks.vals || Mourned(e.log, k, now)
  {
  }

  lemma {:induction false} DelsTell(vals: map<Key, Bytes>, e: Effect, keys: seq<Key>, n: nat, now: int)
    requires AllTold(vals, e, now) && n <= |keys|
    ensures forall k :: k in vals ==>
      k in DelFirst(e, keys, n, now).ks.vals || Mourned(DelFirst(e, keys, n, now).log, k, now) || k in LiveFirst(e, keys, n, now)
  {
    hide Mourned, Then, Live;
    if n > 0 {
      DelsTell(vals, e, keys, n - 1, now);
      var f, k := DelFirst(e, keys, n - 1, now), keys[n - 1];
      var left := map x | x in vals && x !in LiveFirst(e, keys, n - 1, now) :: vals[x];
      ThenTells(left, f, Op.Del(k), now);
    }
  }

  lemma {:induction false} ReadsTell(vals: map<Key, Bytes>, e: Effect, keys: seq<Key>, n: nat, now: int)
    requires AllTold(vals, e, now) && n <= |keys|
    ensures AllTold(vals, ReadFirst(e, keys, n, now), now)
  {
    hide AllTold, Then, Live;
    if n > 0 {
      ReadsTell(vals, e, keys, n - 1, now);
      var f := ReadFirst(e, keys, n - 1, now);
      ThenTells(vals, f, Op.Get(keys[n - 1]), now);
      ThenTells(vals, Then(f, Op.Get(keys[n - 1]), now), Op.Pttl(keys[n - 1]), now);
    }
  }

  lemma StartTold(ks: Keyspace, now: int)
    ensures AllTold(ks.vals, Effect(ks, []), now)
  {
  }

  /**
   Whatever a command, an expiry or an eviction takes out of a master's store, the log says so:
   each key is named in a DEL, or in the SET whose time had passed already.
   */
  lemma NothingVanishesUnsaid(ks: Keyspace, cmd: Command, now: int)
    ensures AllTold(ks.vals, Exec(ks, cmd, now), now)
  {
    hide AllTold, Then, Stored, Live, Mourned, DelFirst, LiveFirst, ReadFirst;
    var start, vals := Effect(ks, []), ks.vals;
    StartTold(ks, now);
    match cmd {
      case Set(k, x, cond, ttl) =>
        ThenTells(vals, start, Exists(k), now);
        var d := SetDeadline(ttl, now);
        if d.Some? {
          StoredTells(vals, if cond == Always then start else Then(start, Exists(k), now), k, x, d.value, ttl == Keep, now);
        }
      case DelKeys(keys) =>
        LiveAreListed(start, keys, |keys|, now);
        DelTells(vals, start, keys, LDel(keys), now);
      case IncrBy(k, delta) => IncrTells(ks, k, delta, now);
      case Expire(k, amount, unit, relative) => ExpireTells(ks, k, amount, unit, relative, now);
      case PersistKey(k) =>
        ThenTells(vals, start, Op.Persist(k), now);
        var e := Then(start, Op.Persist(k), now);
        ToldMeans(vals, e, now);
        SayKeeps(vals, e, LPersist(k), now);
      case Restore(k, ttlMs, payload, replace, absttl) => RestoreTells(ks, k, ttlMs, payload, replace, absttl, now);
      case Migrate(keys, accepted, copy) =>
        ReadsTell(vals, start, keys, |keys|, now);
        var e := ReadFirst(start, keys, |keys|, now);
        var victims := Chosen(SentFirst(start, keys, |keys|, now), accepted, copy);
        DelTells(vals, e, victims, LDel(LiveFirst(e, victims, |victims|, now)), now);
      case Read(op) => ThenTells(vals, start, op, now);
      case Lose(victims) => LoseTells(ks, victims, now);
    }
  }

  lemma {:induction false} LiveAreListed(e: Effect, keys: seq<Key>, n: nat, now: int)
    requires n <= |keys|
    ensures forall k :: k in LiveFirst(e, keys, n, now) ==> k in keys
  {
    hide DelFirst, Live;
    if n > 0 {
      LiveAreListed(e, keys, n - 1, now);
    }
  }

  lemma DelTells(vals: map<Key, Bytes>, e: Effect, keys: seq<Key>, l: Logged, now: int)
    requires AllTold(vals, e, now) && l.LDel? && forall k :: k in LiveFirst(e, keys, |keys|, now) ==> k in l.keys
    ensures var gone := DelFirst(e, keys, |keys|, now);
      AllTold(vals, if LiveFirst(e, keys, |keys|, now) == [] then gone else Say(gone, l), now)
  {
    hide Mourned, Then, Live, DelFirst, LiveFirst;
    DelsTell(vals, e, keys, |keys|, now);
    SayKeeps(vals, DelFirst(e, keys, |keys|, now), l, now);
  }

  lemma IncrTells(ks: Keyspace, k: Key, delta: int, now: int)
    ensures AllTold(ks.vals, ExecIncr(ks, k, delta, now), now)
  {
    hide AllTold, Then, Live, Mourned, Text, ParseCanonical;
    StartTold(ks, now);
    ThenTells(ks.vals, Effect(ks, []), Op.Get(k), now);
    var e := Then(Effect(ks, []), Op.Get(k), now);
    var current := if Live(ks, k, now) && k in ks.vals then ParseCanonical(ks.vals[k]) else Some(0);
    if current.Some? && Int64(current.value + delta) {
      var text := Text(current.value + delta);
      ThenTells(ks.vals, e, Put(k, text, true), now);
      ToldMeans(ks.vals, Then(e, Put(k, text, true), now), now);
      SayKeeps(ks.vals, Then(e, Put(k, text, true), now), LSet(k, text, None, true), now);
    }
    LiveStored(ks, k, now);
  }

  lemma LiveStored(ks: Keyspace, k: Key, now: int)
    ensures Live(ks, k, now) ==> k in ks.vals
  {
  }

  lemma ExpireTells(ks: Keyspace, k: Key, amount: int, unit: int, relative: bool, now: int)
    ensures AllTold(ks.vals, ExecExpire(ks, k, amount, unit, relative, now), now)
  {
    hide AllTold, Then, Live, Mourned;
    StartTold(ks, now);
    var d := DeadlineFrom(if relative then now else 0, amount, unit);
    if d.Some? {
      ThenTells(ks.vals, Effect(ks, []), SetExpire(k, d.value), now);
      var e := Then(Effect(ks, []), SetExpire(k, d.value), now);
      if Live(ks, k, now) {
        if d.value > now {
          ToldMeans(ks.vals, e, now);
        }
        SayKeeps(ks.vals, e, if d.value <= now then LDel([k]) else LExpireAt(k, d.value), now);
      }
    }
  }

  lemma RestoreTells(ks: Keyspace, k: Key, ttlMs: int, payload: Option<Bytes>, replace: bool, absttl: bool, now: int)
    ensures AllTold(ks.vals, ExecRestore(ks, k, ttlMs, payload, replace, absttl, now), now)
  {
    hide AllTold, Then, Live, Mourned, Stored;
    StartTold(ks, now);
    ThenTells(ks.vals, Effect(ks, []), Exists(k), now);
    var e := if replace then Effect(ks, []) else Then(Effect(ks, []), Exists(k), now);
    if ttlMs >= 0 && payload.Some? {
      var at := RestoreDeadline(ttlMs, absttl, now);
      StoredTells(ks.vals, e, k, payload.value, at, false, now);
      ThenTells(ks.vals, e, Op.Del(k), now);
      SayKeeps(ks.vals, Then(e, Op.Del(k), now), LDel([k]), now);
    }
  }

  lemma LoseTells(ks: Keyspace, victims: seq<Key>, now: int)
    ensures AllTold(ks.vals, Effect(WithoutAll(ks, KeysOf(victims)), Dels(victims)), now)
  {
    forall k | k in ks.vals && k in victims
      ensures Mourned(Dels(victims), k, now)
    {
      var i :| 0 <= i < |victims| && victims[i] == k;
      assert Mourns(Dels(victims)[i], k, now);
    }
  }

  // --- what reads say afterwards ---------------------------------------------------

  /** A SET without a deadline is read back at any time, and a key that was deleted is not there. */
  lemma ReadsBack(ks: Keyspace, k: Key, x: Bytes, keys: seq<Key>, now: int, later: int)
    requires Sound(ks)
    ensures var stored := Exec(ks, Set(k, x, Always, Clear), now).ks;
      && Answer(stored, Op.Get(k), later) == Value(Some(x)) && Answer(stored, Exists(k), later) == Flag(true)
      && Answer(stored, Pttl(k), later) == Number(-1)
    ensures k in keys && now <= later ==>
      var gone := Exec(ks, DelKeys(keys), now).ks;
      Answer(gone, Op.Get(k), later) == Value(None) && Answer(gone, Exists(k), later) == Flag(false)
      && Answer(gone, Pttl(k), later) == Number(-2)
  {
    SetRaw(ks, k, x, now);
    if k in keys && now <= later {
      DelRaw(ks, keys, |keys|, now, k);
    }
  }

  lemma SetRaw(ks: Keyspace, k: Key, x: Bytes, now: int)
    ensures var r := Exec(ks, Set(k, x, Always, Clear), now).ks; k in r.vals && r.vals[k] == x && k !in r.exps
  {
  }

  lemma {:induction false} DelRaw(ks: Keyspace, keys: seq<Key>, n: nat, now: int, k: Key)
    requires n <= |keys|
    ensures k in keys[..n] || k !in ks.vals ==> k !in DelFirst(Effect(ks, []), keys, n, now).ks.vals
  {
    if n > 0 {
      DelRaw(ks, keys, n - 1, now, k);
      assert keys[..n] == keys[..n - 1] + [keys[n - 1]];
    }
    assert keys[..|keys|] == keys;
  }

  /** After EXPIRE the remaining time counts down to the deadline, and then the key is gone. */
  lemma CountsDown(ks: Keyspace, k: Key, amount: int, unit: int, now: int, later: int)
    requires Sound(ks) && k in ViewAt(ks, now) && Fits(now, amount, unit) && amount * unit > 0
    ensures var r, d := Exec(ks, Expire(k, amount, unit, true), now).ks, now + amount * unit;
      && Answer(r, Pttl(k), later) == Number(if later < d then d - later else -2)
      && Answer(r, Op.Get(k), later) == Value(if later < d then Some(ViewAt(ks, now)[k].value) else None)
  {
    ValueSeen(ks, k, now);
  }

  // --- MIGRATE ------------------------------------------------------------------

  /** Those of the keys a client can see, in the order given. */
  function Present(v: View, keys: seq<Key>): (live: seq<Key>) {
    if keys == [] then []
    else Present(v, keys[..|keys| - 1]) + if keys[|keys| - 1] in v then [keys[|keys| - 1]] else []
  }

  /** The keys at positions with a favourable reply. */
  function Taken(live: seq<Key>, accepted: seq<bool>): (ks: set<Key>) {
    set i | 0 <= i < |live| && i < |accepted| && accepted[i] :: live[i]
  }

  lemma {:induction false} SentArePresent(ks: Keyspace, keys: seq<Key>, n: nat, now: int)
    requires n <= |keys|
    ensures SentFirst(Effect(ks, []), keys, n, now) == Present(ViewAt(ks, now), keys[..n])
  {
    if n > 0 {
      hide Live, Then, ViewAt;
      SentArePresent(ks, keys, n - 1, now);
      assert keys[..n][..n - 1] == keys[..n - 1];
      SentAreLive(Effect(ks, []), keys, n - 1, now, keys[n - 1]);
      LiveIsSeen(ks, keys[n - 1], now);
    }
  }

  lemma {:induction false} ChosenAreTaken(sent: seq<Key>, accepted: seq<bool>, n: nat)
    requires n <= |sent| && n <= |accepted|
    ensures KeysOf(ChosenFirst(sent, accepted, n)) == Taken(sent[..n], accepted)
  {
    if n > 0 {
      ChosenAreTaken(sent, accepted, n - 1);
      var a, b := Taken(sent[..n - 1], accepted), Taken(sent[..n], accepted);
      assert forall i :: 0 <= i < n - 1 ==> sent[..n - 1][i] == sent[..n][i];
      assert b == a + if accepted[n - 1] then {sent[n - 1]} else {};
    }
  }

  lemma TakenOnly(sent: seq<Key>, accepted: seq<bool>)
    ensures KeysOf(ChosenFirst(sent, accepted, Min(|sent|, |accepted|))) == Taken(sent, accepted)
  {
    var n := Min(|sent|, |accepted|);
    ChosenAreTaken(sent, accepted, n);
    assert Taken(sent[..n], accepted) == Taken(sent, accepted);
  }

  /**
   MIGRATE without COPY removes exactly the keys whose RESTORE was answered favourably: the
   i-th reply is about the i-th of the given keys that is there. With COPY nothing goes.
   */
  lemma MigrateLeaves(ks: Keyspace, keys: seq<Key>, accepted: seq<bool>, copy: bool, now: int)
    requires Sound(ks)
    ensures var v := ViewAt(ks, now);
      ViewAt(Exec(ks, Migrate(keys, accepted, copy), now).ks, now) == if copy then v else v - Taken(Present(v, keys), accepted)
  {
    hide Silent, ViewAt, DelFirst, LiveFirst, ReadFirst, SentFirst, ChosenFirst, Taken, Present;
    var v, start := ViewAt(ks, now), Effect(ks, []);
    StartSilent(ks, now);
    ReadFirstSilent(v, start, keys, |keys|, now);
    assert keys[..|keys|] == keys;
    SentArePresent(ks, keys, |keys|, now);
    var sent := SentFirst(start, keys, |keys|, now);
    TakenOnly(sent, accepted);
    var e, victims := ReadFirst(start, keys, |keys|, now), Chosen(sent, accepted, copy);
    DelFirstSilent(v, e, victims, |victims|, now);
    assert victims[..|victims|] == victims;
    assert KeysOf([]) == {} && v - {} == v;
  }
}
