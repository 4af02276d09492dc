/**
 Write commands on a master, the deterministic commands they are logged and
 replicated as, and why applying those leaves a replica with the same live data.
 */
module Propagation {
  import opened Prelude
  import opened Keyspace
  import Resp

  // --- 64-bit integers and their text ----------------------------------------------

  const INT64_MAX: int := 0x7FFF_FFFF_FFFF_FFFF
  const Minus: byte := 45

  predicate Int64(n: int) {
    -INT64_MAX - 1 <= n <= INT64_MAX
  }

  function Text(n: int): (r: Bytes) {
    if n < 0 then [Minus] + Resp.Digits(-n) else Resp.Digits(n)
  }

  /** A whole base-10 number that fits 64 bits: an optional minus sign, then digits only. */
  function ParseInt(s: Bytes): (n: Option<int>)
    ensures n.Some? ==> Int64(n.value)
  {
    if s != [] && s[0] == Minus then
      if |s| > 1 && Resp.AllDigits(s[1..]) && Int64(0 - Resp.Value(s[1..])) then Some(0 - Resp.Value(s[1..])) else None
    else
      if s != [] && Resp.AllDigits(s) && Int64(Resp.Value(s)) then Some(Resp.Value(s)) else None
  }

  /** Only the spelling that printing the number gives. */
  function ParseCanonical(s: Bytes): (r: Option<int>) {
    var n := ParseInt(s);
    if n.Some? && Text(n.value) == s then n else None
  }

  lemma TextParses(n: int)
    requires Int64(n)
    ensures ParseCanonical(Text(n)) == Some(n)
  {
    Resp.DigitsRoundTrip(if n < 0 then -n else n);
    if n < 0 {
      assert Text(n)[1..] == Resp.Digits(-n);
    } else {
      assert Resp.Digits(n)[0] != Minus;
    }
  }

  function DeadlineFrom(now: int, amount: int, unit: int): (d: Option<int>)
    ensures d.Some? ==> Int64(d.value)
  {
    var delta := amount * unit;
    if Int64(delta) && Int64(now + delta) then Some(now + delta) else None
  }

  // --- what is logged ---------------------------------------------------------------

  datatype Logged =
    | LSet(key: Key, value: Bytes, at: Option<int>, keepTtl: bool)
    | LDel(keys: seq<Key>)
    | LExpireAt(key: Key, when: int)
    | LPersist(key: Key)

  function KeysOf(keys: seq<Key>): (r: set<Key>) {
    set k | k in keys
  }

  /** A logged command on the plain map of live data. */
  function PlainApply(v: View, l: Logged, now: int): (r: View) {
    match l
    case LSet(k, x, None, keep) => PlainAfter(v, Put(k, x, keep), now)
    case LSet(k, x, Some(d), _) => PlainAfter(PlainAfter(v, Put(k, x, false), now), SetExpire(k, d), now)
    case LDel(keys) => v - KeysOf(keys)
    case LExpireAt(k, d) => PlainAfter(v, SetExpire(k, d), now)
    case LPersist(k) => PlainAfter(v, Op.Persist(k), now)
  }

  function Replay(v: View, log: seq<Logged>, now: int): (r: View) {
    if log == [] then v else PlainApply(Replay(v, log[..|log| - 1], now), log[|log| - 1], now)
  }

  lemma {:induction false} ReplayJoins(v: View, a: seq<Logged>, b: seq<Logged>, now: int)
    ensures Replay(v, a + b, now) == Replay(Replay(v, a, now), b, now)
  {
    if b == [] {
      assert a + b == a;
    } else {
      var c := b[..|b| - 1];
      ReplayJoins(v, a, c, now);
      assert (a + b)[..|a + b| - 1] == a + c;
    }
  }

  // --- the replica ------------------------------------------------------------------

  /** The key has a deadline that lies between the two readings of the clock. */
  predicate Crossed(ks: Keyspace, k: Key, t: int, tau: int) {
    k in ks.exps && (ks.exps[k] <= t) != (ks.exps[k] <= tau)
  }

  /**
   Whether a replayed command finds its key as the master did. Only SET ... KEEPTTL, PEXPIREAT
   and PERSIST look at the clock, each at its own key's deadline. PEXPIREAT does no harm
   across a deadline that it sets again, or when its own time has passed as well.
   */
  predicate InStep(ks: Keyspace, l: Logged, t: int, tau: int) {
    match l
    case LSet(k, _, None, keep) => keep ==> !Crossed(ks, k, t, tau)
    case LSet(_, _, Some(_), _) => true
    case LDel(_) => true
    case LExpireAt(k, d) => Crossed(ks, k, t, tau) ==> if ks.exps[k] <= t then d <= t else d == ks.exps[k]
    case LPersist(k) => !Crossed(ks, k, t, tau)
  }

  /** A replica's store after a logged command; expiry is passive there. */
  function Apply(ks: Keyspace, l: Logged, tau: int): (r: Keyspace) {
    match l
    case LSet(k, x, None, keep) => After(ks, Put(k, x, keep), tau, true)
    case LSet(k, x, Some(d), _) =>
      if d <= 0 || !Int64(d) then ks  // refused as an invalid expire time
      else After(After(ks, Put(k, x, false), tau, true), SetExpire(k, d), tau, true)
    case LDel(keys) => DelEach(ks, keys, tau)
    case LExpireAt(k, d) => if !Int64(d) then ks else After(ks, SetExpire(k, d), tau, true)
    case LPersist(k) => After(ks, Op.Persist(k), tau, true)
  }

  function DelEach(ks: Keyspace, keys: seq<Key>, tau: int): (r: Keyspace) {
    if keys == [] then ks else After(DelEach(ks, keys[..|keys| - 1], tau), Op.Del(keys[|keys| - 1]), tau, true)
  }

  /** A deadline a replica will accept. */
  predicate Acceptable(l: Logged) {
    match l
    case LSet(_, _, Some(d), _) => 0 < d && Int64(d)
    case LExpireAt(_, d) => Int64(d)
    case _ => true
  }

  lemma {:induction false} DelEachIs(ks: Keyspace, keys: seq<Key>, tau: int)
    ensures DelEach(ks, keys, tau) == WithoutAll(ks, KeysOf(keys))
  {
    if keys == [] {
      assert WithoutAll(ks, {}) == ks;
    } else {
      var n := |keys| - 1;
      DelEachIs(ks, keys[..n], tau);
      assert keys == keys[..n] + [keys[n]];
      assert KeysOf(keys) == KeysOf(keys[..n]) + {keys[n]};
    }
  }

  /** Operations on a passive store at one reading, looked at with another: only the operation's own key can tell. */
  lemma ElsewhereSame(ks: Keyspace, op: Op, t: int, tau: int, k: Key)
    requires k != op.key
    ensures Look(ViewAt(After(ks, op, tau, true), t), k) == Look(PlainAfter(ViewAt(ks, t), op, t), k)
  {
  }

  lemma PutInStepIff(ks: Keyspace, k: Key, x: Bytes, keep: bool, t: int, tau: int)
    requires Sound(ks)
    ensures var op := Put(k, x, keep);
      ViewAt(After(ks, op, tau, true), t) == PlainAfter(ViewAt(ks, t), op, t) <==> (keep ==> !Crossed(ks, k, t, tau))
  {
    var op := Put(k, x, keep);
    OnlyOwnKey(ks, op, t, tau);
    assert Look(ViewAt(After(ks, op, tau, true), t), k) == Look(PlainAfter(ViewAt(ks, t), op, t), k)
      <==> (keep ==> !Crossed(ks, k, t, tau));
  }

  lemma ExpireInStepIff(ks: Keyspace, k: Key, d: int, t: int, tau: int)
    requires Sound(ks)
    ensures var op := SetExpire(k, d);
      ViewAt(After(ks, op, tau, true), t) == PlainAfter(ViewAt(ks, t), op, t) <==>
      (Crossed(ks, k, t, tau) ==> if ks.exps[k] <= t then d <= t else d == ks.exps[k])
  {
    var op := SetExpire(k, d);
    OnlyOwnKey(ks, op, t, tau);
    assert Look(ViewAt(After(ks, op, tau, true), t), k) == Look(PlainAfter(ViewAt(ks, t), op, t), k)
      <==> (Crossed(ks, k, t, tau) ==> if ks.exps[k] <= t then d <= t else d == ks.exps[k]);
  }

  lemma PersistInStepIff(ks: Keyspace, k: Key, t: int, tau: int)
    requires Sound(ks)
    ensures var op := Op.Persist(k);
      ViewAt(After(ks, op, tau, true), t) == PlainAfter(ViewAt(ks, t), op, t) <==> !Crossed(ks, k, t, tau)
  {
    var op := Op.Persist(k);
    OnlyOwnKey(ks, op, t, tau);
    assert Look(ViewAt(After(ks, op, tau, true), t), k) == Look(PlainAfter(ViewAt(ks, t), op, t), k)
      <==> !Crossed(ks, k, t, tau);
  }

  lemma OnlyOwnKey(ks: Keyspace, op: Op, t: int, tau: int)
    ensures var after, plain := ViewAt(After(ks, op, tau, true), t), PlainAfter(ViewAt(ks, t), op, t);
      after == plain <==> Look(after, op.key) == Look(plain, op.key)
  {
    hide ViewAt, After, PlainAfter, Look;
    var after, plain := ViewAt(After(ks, op, tau, true), t), PlainAfter(ViewAt(ks, t), op, t);
    if Look(after, op.key) == Look(plain, op.key) {
      forall k
        ensures Look(after, k) == Look(plain, k)
      {
        if k != op.key {
          ElsewhereSame(ks, op, t, tau, k);
        }
      }
      SameView(after, plain);
    }
  }

  /** A replayed command does to the replica's live data what it did to the master's if and only if it is in step. */
  lemma ApplyRefinesIff(ks: Keyspace, l: Logged, t: int, tau: int)
    requires Sound(ks) && Acceptable(l)
    ensures Sound(Apply(ks, l, tau))
    ensures ViewAt(Apply(ks, l, tau), t) == PlainApply(ViewAt(ks, t), l, t) <==> InStep(ks, l, t, tau)
  {
    ApplyStaysSound(ks, l, tau);
    hide ViewAt, PlainAfter, Sound;
    match l {
      case LSet(k, x, None, keep) => PutInStepIff(ks, k, x, keep, t, tau);
      case LSet(k, x, Some(d), _) => TimedSetInStep(ks, k, x, d, t, tau);
      case LDel(keys) =>
        DelEachIs(ks, keys, tau);
        WithoutAllView(ks, KeysOf(keys), t);
      case LExpireAt(k, d) => ExpireInStepIff(ks, k, d, t, tau);
      case LPersist(k) => PersistInStepIff(ks, k, t, tau);
    }
  }

  lemma ApplyStaysSound(ks: Keyspace, l: Logged, tau: int)
    requires Sound(ks)
    ensures Sound(Apply(ks, l, tau))
  {
    if l.LDel? {
      DelEachIs(ks, l.keys, tau);
    }
  }

  /** A SET with a deadline of its own does not look at the clock. */
  lemma TimedSetInStep(ks: Keyspace, k: Key, x: Bytes, d: int, t: int, tau: int)
    requires Sound(ks)
    ensures var put := After(ks, Put(k, x, false), tau, true);
      ViewAt(After(put, SetExpire(k, d), tau, true), t)
      == PlainAfter(PlainAfter(ViewAt(ks, t), Put(k, x, false), t), SetExpire(k, d), t)
  {
    var put := After(ks, Put(k, x, false), tau, true);
    assert Sound(put) && k !in put.exps;
    hide ViewAt, PlainAfter, Sound, After;
    PutInStepIff(ks, k, x, false, t, tau);
    ExpireInStepIff(put, k, d, t, tau);
  }

  lemma WithoutAllView(ks: Keyspace, gone: set<Key>, now: int)
    ensures ViewAt(WithoutAll(ks, gone), now) == ViewAt(ks, now) - gone
    ensures Sound(ks) ==> Sound(WithoutAll(ks, gone))
  {
  }

  // --- the master -------------------------------------------------------------------

  datatype Condition = Always | IfAbsent | IfPresent

  datatype Ttl = Clear | Keep | Within(amount: int, unit: int) | Until(amount: int, unit: int)

  datatype Command =
    | Set(key: Key, value: Bytes, cond: Condition, ttl: Ttl)
    | DelKeys(keys: seq<Key>)
    | IncrBy(key: Key, delta: int)
    | Expire(key: Key, amount: int, unit: int, relative: bool)
    | PersistKey(key: Key)
    | Restore(key: Key, ttlMs: int, payload: Option<Bytes>, replace: bool, absttl: bool)
    | Migrate(keys: seq<Key>, accepted: seq<bool>, copy: bool)
    | Read(op: Op)
    | Lose(victims: seq<Key>)   // eviction, active expiry, or a slot given up

  /** The store and what has been logged so far. */
  datatype Effect = Effect(ks: Keyspace, log: seq<Logged>)

  function Dels(keys: seq<Key>): (r: seq<Logged>) {
    seq(|keys|, i requires 0 <= i < |keys| => LDel([keys[i]]))
  }

  /** One store operation; the keys the store deletes on its own account are logged first. */
  function Then(e: Effect, op: Op, now: int): (r: Effect) {
    Effect(After(e.ks, op, now, false), e.log + Dels(Reclaimed(e.ks, op, now, false)))
  }

  function Say(e: Effect, l: Logged): (r: Effect) {
    e.(log := e.log + [l])
  }

  /** The deadline a SET asks for; None when the command is refused. */
  function SetDeadline(ttl: Ttl, now: int): (d: Option<Option<int>>)
    ensures d.Some? && d.value.Some? ==> Int64(d.value.value)
    ensures d.Some? && d.value.Some? && now >= 0 && Units(ttl) ==> d.value.value > 0
  {
    match ttl
    case Clear => Some(None)
    case Keep => Some(None)
    case Within(amount, unit) =>
      if amount <= 0 then None else (var d := DeadlineFrom(now, amount, unit); if d.Some? then Some(d) else None)
    case Until(amount, unit) =>
      if amount <= 0 then None else (var d := DeadlineFrom(0, amount, unit); if d.Some? then Some(d) else None)
  }

  predicate Units(ttl: Ttl) {
    match ttl
    case Within(_, u) => u == 1 || u == 1000
    case Until(_, u) => u == 1 || u == 1000
    case _ => true
  }

  function ExecSet(ks: Keyspace, k: Key, x: Bytes, cond: Condition, ttl: Ttl, now: int): (r: Effect) {
    var d := SetDeadline(ttl, now);
    if d.None? then Effect(ks, [])
    else
      var e := if cond == Always then Effect(ks, []) else Then(Effect(ks, []), Exists(k), now);
      var there := Live(ks, k, now);
      if (cond == IfAbsent && there) || (cond == IfPresent && !there) then e
      else Stored(e, k, x, d.value, ttl == Keep, now)
  }

  function Stored(e: Effect, k: Key, x: Bytes, at: Option<int>, keep: bool, now: int): (r: Effect) {
    var put := Then(e, Put(k, x, keep), now);
    var timed := if at.Some? then Then(put, SetExpire(k, at.value), now) else put;
    Say(timed, LSet(k, x, at, keep && at.None?))
  }

  /** The first n deletions of a list. */
  function DelFirst(e: Effect, keys: seq<Key>, n: nat, now: int): (r: Effect)
    requires n <= |keys|
  {
    if n == 0 then e else Then(DelFirst(e, keys, n - 1, now), Op.Del(keys[n - 1]), now)
  }

  /** Those of the first n keys that were live when their turn came. */
  function LiveFirst(e: Effect, keys: seq<Key>, n: nat, now: int): (r: seq<Key>)
    requires n <= |keys|
  {
    if n == 0 then []
    else
      LiveFirst(e, keys, n - 1, now)
      + if Live(DelFirst(e, keys, n - 1, now).ks, keys[n - 1], now) then [keys[n - 1]] else []
  }

  function ExecDel(ks: Keyspace, keys: seq<Key>, now: int): (r: Effect) {
    var e := DelFirst(Effect(ks, []), keys, |keys|, now);
    if LiveFirst(Effect(ks, []), keys, |keys|, now) == [] then e else Say(e, LDel(keys))
  }

  function ExecIncr(ks: Keyspace, k: Key, delta: int, now: int): (r: Effect) {
    var e := Then(Effect(ks, []), Op.Get(k), now);
    var current := if Live(ks, k, now) then ParseCanonical(ks.vals[k]) else Some(0);
    if current.None? || !Int64(current.value + delta) then e
    else
      var text := Text(current.value + delta);
      Say(Then(e, Put(k, text, true), now), LSet(k, text, None, true))
  }

  function ExecExpire(ks: Keyspace, k: Key, amount: int, unit: int, relative: bool, now: int): (r: Effect) {
    var d := DeadlineFrom(if relative then now else 0, amount, unit);
    if d.None? then Effect(ks, [])
    else
      var e := Then(Effect(ks, []), SetExpire(k, d.value), now);
      if !Live(ks, k, now) then e
      else Say(e, if d.value <= now then LDel([k]) else LExpireAt(k, d.value))
  }

  function ExecPersist(ks: Keyspace, k: Key, now: int): (r: Effect) {
    var e := Then(Effect(ks, []), Op.Persist(k), now);
    if Live(ks, k, now) && k in ks.exps then Say(e, LPersist(k)) else e
  }

  function RestoreDeadline(ttlMs: int, absttl: bool, now: int): (r: Option<int>) {
    if ttlMs == 0 then None
    else if absttl then Some(ttlMs)
    else
      var d := DeadlineFrom(now, ttlMs, 1);
      if d.Some? then d else Some(INT64_MAX)
  }

  function ExecRestore(ks: Keyspace, k: Key, ttlMs: int, payload: Option<Bytes>, replace: bool, absttl: bool, now: int): (r: Effect) {
    if ttlMs < 0 then Effect(ks, [])
    else
      var e := if replace then Effect(ks, []) else Then(Effect(ks, []), Exists(k), now);
      if (!replace && Live(ks, k, now)) || payload.None? then e
      else
        var at := RestoreDeadline(ttlMs, absttl, now);
        if at.Some? && at.value <= now then
          var gone := Then(e, Op.Del(k), now);
          if Live(e.ks, k, now) then Say(gone, LDel([k])) else gone
        else Stored(e, k, payload.value, at, false, now)
  }

  /** The first n keys looked up for a transfer. */
  function ReadFirst(e: Effect, keys: seq<Key>, n: nat, now: int): (r: Effect)
    requires n <= |keys|
  {
    if n == 0 then e
    else
      var before := ReadFirst(e, keys, n - 1, now);
      var got := Then(before, Op.Get(keys[n - 1]), now);
      if Live(before.ks, keys[n - 1], now) then Then(got, Op.Pttl(keys[n - 1]), now) else got
  }

  /** Those of the first n keys that were there to send. */
  function SentFirst(e: Effect, keys: seq<Key>, n: nat, now: int): (r: seq<Key>)
    requires n <= |keys|
  {
    if n == 0 then []
    else
      SentFirst(e, keys, n - 1, now)
      + if Live(ReadFirst(e, keys, n - 1, now).ks, keys[n - 1], now) then [keys[n - 1]] else []
  }

  lemma LookingKeepsLive(e: Effect, key: Key, now: int, k: Key)
    ensures Live(Then(e, Op.Get(key), now).ks, k, now) <==> Live(e.ks, k, now)
    ensures Live(Then(e, Op.Pttl(key), now).ks, k, now) <==> Live(e.ks, k, now)
  {
  }

  /** Looking keys up does not change which are there, so those sent are the live ones. */
  lemma {:induction false} SentAreLive(e: Effect, keys: seq<Key>, n: nat, now: int, k: Key)
    requires n <= |keys|
    ensures k in SentFirst(e, keys, n, now) <==> k in keys[..n] && Live(e.ks, k, now)
    ensures Live(ReadFirst(e, keys, n, now).ks, k, now) <==> Live(e.ks, k, now)
  {
    hide Live, Then;
    if n > 0 {
      SentAreLive(e, keys, n - 1, now, k);
      assert keys[..n] == keys[..n - 1] + [keys[n - 1]];
      var f := ReadFirst(e, keys, n - 1, now);
      LookingKeepsLive(f, keys[n - 1], now, k);
      LookingKeepsLive(Then(f, Op.Get(keys[n - 1]), now), keys[n - 1], now, k);
    }
  }

  /** Those of the first n sent keys whose reply was not an error. */
  function ChosenFirst(sent: seq<Key>, accepted: seq<bool>, n: nat): (r: seq<Key>)
    requires n <= |sent| && n <= |accepted|
  {
    if n == 0 then [] else ChosenFirst(sent, accepted, n - 1) + if accepted[n - 1] then [sent[n - 1]] else []
  }

  /** The keys a transfer deletes here: the ones the target took, unless it was a copy. */
  function Chosen(sent: seq<Key>, accepted: seq<bool>, copy: bool): (r: seq<Key>) {
    if copy then [] else ChosenFirst(sent, accepted, Min(|sent|, |accepted|))
  }

  function ExecMigrate(ks: Keyspace, keys: seq<Key>, accepted: seq<bool>, copy: bool, now: int): (r: Effect) {
    var e := ReadFirst(Effect(ks, []), keys, |keys|, now);
    var sent := SentFirst(Effect(ks, []), keys, |keys|, now);
    var victims := Chosen(sent, accepted, copy);
    var deleted := LiveFirst(e, victims, |victims|, now);
    var gone := DelFirst(e, victims, |victims|, now);
    if deleted == [] then gone else Say(gone, LDel(deleted))
  }

  function Exec(ks: Keyspace, cmd: Command, now: int): (r: Effect) {
    match cmd
    case Set(k, x, cond, ttl) => ExecSet(ks, k, x, cond, ttl, now)
    case DelKeys(keys) => ExecDel(ks, keys, now)
    case IncrBy(k, delta) => ExecIncr(ks, k, delta, now)
    case Expire(k, amount, unit, relative) => ExecExpire(ks, k, amount, unit, relative, now)
    case PersistKey(k) => ExecPersist(ks, k, now)
    case Restore(k, ttlMs, payload, replace, absttl) => ExecRestore(ks, k, ttlMs, payload, replace, absttl, now)
    case Migrate(keys, accepted, copy) => ExecMigrate(ks, keys, accepted, copy, now)
    case Read(op) => if op.Get? || op.Exists? || op.Pttl? then Then(Effect(ks, []), op, now) else Effect(ks, [])
    case Lose(victims) => Effect(WithoutAll(ks, KeysOf(victims)), Dels(victims))
  }

  // --- the log reproduces the master's live data -------------------------------------

  /** The log so far turns `v` into what the store shows. */
  ghost predicate Told(v: View, e: Effect, now: int) {
    Sound(e.ks) && Replay(v, e.log, now) == ViewAt(e.ks, now)
  }

  /** The log so far leaves `v` unchanged: it only deletes what nobody could see. */
  ghost predicate Silent(v: View, e: Effect, now: int) {
    && Sound(e.ks) && Replay(v, e.log, now) == v
    && forall k :: Expired(e.ks, k, now) ==> k !in v
  }

  lemma StartSilent(ks: Keyspace, now: int)
    requires Sound(ks)
    ensures Silent(ViewAt(ks, now), Effect(ks, []), now)
  {
  }

  lemma SilentTold(v: View, e: Effect, now: int)
    requires Silent(v, e, now) && ViewAt(e.ks, now) == v
    ensures Told(v, e, now)
  {
  }

  lemma SayTold(v: View, e: Effect, l: Logged, now: int)
    requires Silent(v, e, now) && PlainApply(v, l, now) == ViewAt(e.ks, now)
    ensures Told(v, Say(e, l), now)
  {
    assert (e.log + [l])[..|e.log|] == e.log;
  }

  /** A store operation's own deletions are of expired keys, so they change nothing in the log's account. */
  lemma ThenSilent(v: View, e: Effect, op: Op, now: int)
    requires Silent(v, e, now)
    ensures Silent(v, Then(e, op, now), now)
    ensures ViewAt(Then(e, op, now).ks, now) == PlainAfter(ViewAt(e.ks, now), op, now)
  {
    RefinesPlain(e.ks, op, now, false);
    StillUnseen(v, e.ks, op, now);
    var gone := Reclaimed(e.ks, op, now, false);
    hide After, ViewAt, PlainAfter, Sound;
    if gone == [] {
      assert e.log + Dels(gone) == e.log;
    } else {
      var l := LDel([op.key]);
      assert Dels(gone) == [l] && (e.log + [l])[..|e.log|] == e.log;
      assert v - {op.key} == v && KeysOf([op.key]) == {op.key};
    }
  }

  lemma StillUnseen(v: View, ks: Keyspace, op: Op, now: int)
    requires forall k :: Expired(ks, k, now) ==> k !in v
    ensures forall k :: Expired(After(ks, op, now, false), k, now) ==> k !in v
  {
  }

  lemma StoredTold(v: View, e: Effect, k: Key, x: Bytes, at: Option<int>, keep: bool, now: int)
    requires Silent(v, e, now) && ViewAt(e.ks, now) == v && !(keep && at.Some?)
    ensures Told(v, Stored(e, k, x, at, keep, now), now)
  {
    hide Silent, Told, Replay, ViewAt, After, PlainAfter;
    ThenSilent(v, e, Put(k, x, keep), now);
    var put := Then(e, Put(k, x, keep), now);
    if at.Some? {
      ThenSilent(v, put, SetExpire(k, at.value), now);
      SayTold(v, Then(put, SetExpire(k, at.value), now), LSet(k, x, at, false), now);
    } else {
      SayTold(v, put, LSet(k, x, at, keep), now);
    }
  }

  lemma SetTold(ks: Keyspace, k: Key, x: Bytes, cond: Condition, ttl: Ttl, now: int)
    requires Sound(ks)
    ensures Told(ViewAt(ks, now), ExecSet(ks, k, x, cond, ttl, now), now)
  {
    hide Silent, Told, Replay, ViewAt, After, Live, Expired, Then, Stored;
    var v := ViewAt(ks, now);
    var e := Effect(ks, []);
    StartSilent(ks, now);
    ThenSilent(v, e, Exists(k), now);
    SilentTold(v, e, now);
    SilentTold(v, Then(e, Exists(k), now), now);
    var d := SetDeadline(ttl, now);
    if d.Some? {
      StoredTold(v, e, k, x, d.value, ttl == Keep, now);
      StoredTold(v, Then(e, Exists(k), now), k, x, d.value, ttl == Keep, now);
    }
  }

  lemma {:induction false} DelFirstOf(e: Effect, keys: seq<Key>, more: seq<Key>, n: nat, now: int)
    requires n <= |keys|
    ensures DelFirst(e, keys + more, n, now) == DelFirst(e, keys, n, now)
    ensures LiveFirst(e, keys + more, n, now) == LiveFirst(e, keys, n, now)
  {
    if n > 0 {
      DelFirstOf(e, keys, more, n - 1, now);
    }
  }

  /** What a run of deletions leaves, and which of them found something. */
  lemma {:induction false} DelFirstSilent(v: View, e: Effect, keys: seq<Key>, n: nat, now: int)
    requires Silent(v, e, now) && n <= |keys|
    ensures Silent(v, DelFirst(e, keys, n, now), now)
    ensures ViewAt(DelFirst(e, keys, n, now).ks, now) == ViewAt(e.ks, now) - KeysOf(keys[..n])
    ensures forall k :: k in LiveFirst(e, keys, n, now) <==> k in keys[..n] && k in ViewAt(e.ks, now)
  {
    hide Silent, Replay, After, Then, ViewAt, Live, KeysOf;
    FirstKeys(keys, n);
    if n > 0 {
      DelFirstSilent(v, e, keys, n - 1, now);
      var f := DelFirst(e, keys, n - 1, now);
      ThenSilent(v, f, Op.Del(keys[n - 1]), now);
      LiveIsSeen(f.ks, keys[n - 1], now);
      FirstKeys(keys, n - 1);
    }
  }

  lemma FirstKeys(keys: seq<Key>, n: nat)
    requires n <= |keys|
    ensures KeysOf(keys[..n]) == if n == 0 then {} else KeysOf(keys[..n - 1]) + {keys[n - 1]}
    ensures forall k :: k in KeysOf(keys[..n]) <==> k in keys[..n]
  {
    if n > 0 {
      assert keys[..n] == keys[..n - 1] + [keys[n - 1]];
    }
  }

  lemma LiveIsSeen(ks: Keyspace, k: Key, now: int)
    ensures Live(ks, k, now) <==> k in ViewAt(ks, now)
  {
  }

  lemma DelTold(ks: Keyspace, keys: seq<Key>, now: int)
    requires Sound(ks)
    ensures Told(ViewAt(ks, now), ExecDel(ks, keys, now), now)
  {
    hide Silent, Told, Replay, ViewAt, DelFirst, LiveFirst;
    var v, e, n := ViewAt(ks, now), Effect(ks, []), |keys|;
    StartSilent(ks, now);
    DelFirstSilent(v, e, keys, n, now);
    assert keys[..n] == keys;
    if LiveFirst(e, keys, n, now) == [] {
      assert v - KeysOf(keys) == v;
      SilentTold(v, DelFirst(e, keys, n, now), now);
    } else {
      SayTold(v, DelFirst(e, keys, n, now), LDel(keys), now);
    }
  }

  lemma IncrTold(ks: Keyspace, k: Key, delta: int, now: int)
    requires Sound(ks)
    ensures Told(ViewAt(ks, now), ExecIncr(ks, k, delta, now), now)
  {
    hide Silent, Told, Replay, ViewAt, After, Then, ParseCanonical, Text;
    var v, e := ViewAt(ks, now), Effect(ks, []);
    StartSilent(ks, now);
    ThenSilent(v, e, Op.Get(k), now);
    var got := Then(e, Op.Get(k), now);
    SilentTold(v, got, now);
    var current := if Live(ks, k, now) then ParseCanonical(ks.vals[k]) else Some(0);
    if current.Some? && Int64(current.value + delta) {
      var text := Text(current.value + delta);
      ThenSilent(v, got, Put(k, text, true), now);
      SayTold(v, Then(got, Put(k, text, true), now), LSet(k, text, None, true), now);
    }
  }

  lemma ExpireTold(ks: Keyspace, k: Key, amount: int, unit: int, relative: bool, now: int)
    requires Sound(ks)
    ensures Told(ViewAt(ks, now), ExecExpire(ks, k, amount, unit, relative, now), now)
  {
    hide Silent, Told, Replay, ViewAt, After, Then, Live;
    var v, e := ViewAt(ks, now), Effect(ks, []);
    StartSilent(ks, now);
    SilentTold(v, e, now);
    LiveIsSeen(ks, k, now);
    var d := DeadlineFrom(if relative then now else 0, amount, unit);
    if d.Some? {
      ThenSilent(v, e, SetExpire(k, d.value), now);
      var f := Then(e, SetExpire(k, d.value), now);
      if k !in v {
        SilentTold(v, f, now);
      } else if d.value <= now {
        assert KeysOf([k]) == {k};
        SayTold(v, f, LDel([k]), now);
      } else {
        SayTold(v, f, LExpireAt(k, d.value), now);
      }
    }
  }

  lemma PersistTold(ks: Keyspace, k: Key, now: int)
    requires Sound(ks)
    ensures Told(ViewAt(ks, now), ExecPersist(ks, k, now), now)
  {
    hide Silent, Told, Replay, After, Then;
    var v, e := ViewAt(ks, now), Effect(ks, []);
    StartSilent(ks, now);
    ThenSilent(v, e, Op.Persist(k), now);
    var f := Then(e, Op.Persist(k), now);
    if Live(ks, k, now) && k in ks.exps {
      SayTold(v, f, LPersist(k), now);
    } else {
      assert PlainAfter(v, Op.Persist(k), now) == v;
      SilentTold(v, f, now);
    }
  }

  lemma RestoreTold(ks: Keyspace, k: Key, ttlMs: int, payload: Option<Bytes>, replace: bool, absttl: bool, now: int)
    requires Sound(ks)
    ensures Told(ViewAt(ks, now), ExecRestore(ks, k, ttlMs, payload, replace, absttl, now), now)
  {
    hide Silent, Told, Replay, ViewAt, After, Then, Stored, Live;
    var v, start := ViewAt(ks, now), Effect(ks, []);
    StartSilent(ks, now);
    ThenSilent(v, start, Exists(k), now);
    var e := if replace then start else Then(start, Exists(k), now);
    SilentTold(v, start, now);
    SilentTold(v, e, now);
    var at := RestoreDeadline(ttlMs, absttl, now);
    if payload.Some? {
      StoredTold(v, e, k, payload.value, at, false, now);
    }
    ThenSilent(v, e, Op.Del(k), now);
    LiveIsSeen(e.ks, k, now);
    var gone := Then(e, Op.Del(k), now);
    if k in v {
      assert KeysOf([k]) == {k};
      SayTold(v, gone, LDel([k]), now);
    } else {
      assert v - {k} == v;
      SilentTold(v, gone, now);
    }
  }

  lemma {:induction false} ReadFirstSilent(v: View, e: Effect, keys: seq<Key>, n: nat, now: int)
    requires Silent(v, e, now) && ViewAt(e.ks, now) == v && n <= |keys|
    ensures Silent(v, ReadFirst(e, keys, n, now), now) && ViewAt(ReadFirst(e, keys, n, now).ks, now) == v
  {
    hide Silent, Replay, After, Then, ViewAt, Live;
    if n > 0 {
      ReadFirstSilent(v, e, keys, n - 1, now);
      var f := ReadFirst(e, keys, n - 1, now);
      ThenSilent(v, f, Op.Get(keys[n - 1]), now);
      ThenSilent(v, Then(f, Op.Get(keys[n - 1]), now), Op.Pttl(keys[n - 1]), now);
    }
  }

  lemma MigrateTold(ks: Keyspace, keys: seq<Key>, accepted: seq<bool>, copy: bool, now: int)
    requires Sound(ks)
    ensures Told(ViewAt(ks, now), ExecMigrate(ks, keys, accepted, copy, now), now)
  {
    hide Silent, Told, Replay, ViewAt, DelFirst, LiveFirst, ReadFirst, SentFirst, Chosen;
    var v, start := ViewAt(ks, now), Effect(ks, []);
    StartSilent(ks, now);
    ReadFirstSilent(v, start, keys, |keys|, now);
    var e := ReadFirst(start, keys, |keys|, now);
    var victims := Chosen(SentFirst(start, keys, |keys|, now), accepted, copy);
    var n := |victims|;
    DelFirstSilent(v, e, victims, n, now);
    assert victims[..n] == victims;
    var deleted := LiveFirst(e, victims, n, now);
    assert v - KeysOf(victims) == v - KeysOf(deleted);
    if deleted == [] {
      assert v - KeysOf(deleted) == v;
      SilentTold(v, DelFirst(e, victims, n, now), now);
    } else {
      SayTold(v, DelFirst(e, victims, n, now), LDel(deleted), now);
    }
  }

  lemma {:induction false} DelsReplay(v: View, keys: seq<Key>, now: int)
    ensures Replay(v, Dels(keys), now) == v - KeysOf(keys)
  {
    if keys == [] {
      assert v - KeysOf(keys) == v;
    } else {
      var n := |keys| - 1;
      DelsReplay(v, keys[..n], now);
      assert Dels(keys)[..n] == Dels(keys[..n]);
      assert KeysOf([keys[n]]) == {keys[n]} && KeysOf(keys) == KeysOf(keys[..n]) + {keys[n]};
    }
  }

  /** Every command, and everything the store drops on its own account, logs exactly its effect on the live data. */
  lemma LogTells(ks: Keyspace, cmd: Command, now: int)
    requires Sound(ks)
    ensures Sound(Exec(ks, cmd, now).ks)
    ensures Replay(ViewAt(ks, now), Exec(ks, cmd, now).log, now) == ViewAt(Exec(ks, cmd, now).ks, now)
  {
    assert Told(ViewAt(ks, now), Exec(ks, cmd, now), now) by {
      hide Told, Silent, ViewAt, Replay, Then;
      hide ExecSet, ExecDel, ExecIncr, ExecExpire, ExecPersist, ExecRestore, ExecMigrate;
      match cmd {
        case Set(k, x, cond, ttl) => SetTold(ks, k, x, cond, ttl, now);
        case DelKeys(keys) => DelTold(ks, keys, now);
        case IncrBy(k, delta) => IncrTold(ks, k, delta, now);
        case Expire(k, amount, unit, relative) => ExpireTold(ks, k, amount, unit, relative, now);
        case PersistKey(k) => PersistTold(ks, k, now);
        case Restore(k, ttlMs, payload, replace, absttl) => RestoreTold(ks, k, ttlMs, payload, replace, absttl, now);
        case Migrate(keys, accepted, copy) => MigrateTold(ks, keys, accepted, copy, now);
        case Read(op) => ReadTold(ks, op, now);
        case Lose(victims) => LoseTold(ks, victims, now);
      }
    }
  }

  lemma ReadTold(ks: Keyspace, op: Op, now: int)
    requires Sound(ks)
    ensures Told(ViewAt(ks, now), Exec(ks, Read(op), now), now)
  {
    var v, e := ViewAt(ks, now), Effect(ks, []);
    StartSilent(ks, now);
    ThenSilent(v, e, op, now);
  }

  lemma LoseTold(ks: Keyspace, victims: seq<Key>, now: int)
    requires Sound(ks)
    ensures Told(ViewAt(ks, now), Exec(ks, Lose(victims), now), now)
  {
    DelsReplay(ViewAt(ks, now), victims, now);
    WithoutAllView(ks, KeysOf(victims), now);
  }

  // --- whole runs of a master and its replica -------------------------------------------

  /** What parsing a command guarantees about its numbers. */
  predicate Parsed(cmd: Command) {
    match cmd
    case Set(_, _, _, ttl) => Units(ttl)
    case Restore(_, ttlMs, _, _, _) => Int64(ttlMs)
    case _ => true
  }

  ghost predicate AllAcceptable(log: seq<Logged>) {
    forall l :: l in log ==> Acceptable(l)
  }

  lemma ThenAcceptable(e: Effect, op: Op, now: int)
    requires AllAcceptable(e.log)
    ensures AllAcceptable(Then(e, op, now).log)
  {
  }

  lemma StoredAcceptable(e: Effect, k: Key, x: Bytes, at: Option<int>, keep: bool, now: int)
    requires AllAcceptable(e.log) && (at.Some? ==> 0 < at.value && Int64(at.value))
    ensures AllAcceptable(Stored(e, k, x, at, keep, now).log)
  {
    ThenAcceptable(e, Put(k, x, keep), now);
    if at.Some? {
      ThenAcceptable(Then(e, Put(k, x, keep), now), SetExpire(k, at.value), now);
    }
  }

  lemma {:induction false} DelFirstAcceptable(e: Effect, keys: seq<Key>, n: nat, now: int)
    requires AllAcceptable(e.log) && n <= |keys|
    ensures AllAcceptable(DelFirst(e, keys, n, now).log)
  {
    if n > 0 {
      DelFirstAcceptable(e, keys, n - 1, now);
      ThenAcceptable(DelFirst(e, keys, n - 1, now), Op.Del(keys[n - 1]), now);
    }
  }

  lemma {:induction false} ReadFirstAcceptable(e: Effect, keys: seq<Key>, n: nat, now: int)
    requires AllAcceptable(e.log) && n <= |keys|
    ensures AllAcceptable(ReadFirst(e, keys, n, now).log)
  {
    if n > 0 {
      ReadFirstAcceptable(e, keys, n - 1, now);
      var f := ReadFirst(e, keys, n - 1, now);
      ThenAcceptable(f, Op.Get(keys[n - 1]), now);
      ThenAcceptable(Then(f, Op.Get(keys[n - 1]), now), Op.Pttl(keys[n - 1]), now);
    }
  }

  lemma MigrateAcceptable(ks: Keyspace, keys: seq<Key>, accepted: seq<bool>, copy: bool, now: int)
    ensures AllAcceptable(ExecMigrate(ks, keys, accepted, copy, now).log)
  {
    hide ReadFirst, DelFirst, SentFirst, LiveFirst, Chosen;
    ReadFirstAcceptable(Effect(ks, []), keys, |keys|, now);
    var e := ReadFirst(Effect(ks, []), keys, |keys|, now);
    var victims := Chosen(SentFirst(Effect(ks, []), keys, |keys|, now), accepted, copy);
    DelFirstAcceptable(e, victims, |victims|, now);
  }

  /** A replica never refuses what its master logs. */
  lemma LogIsAcceptable(ks: Keyspace, cmd: Command, now: int)
    requires Parsed(cmd) && now >= 0
    ensures AllAcceptable(Exec(ks, cmd, now).log)
  {
    hide Then, Stored, DelFirst, LiveFirst, ExecMigrate, After, Live, ParseCanonical, Text;
    var e := Effect(ks, []);
    match cmd {
      case Set(k, x, cond, ttl) =>
        ThenAcceptable(e, Exists(k), now);
        var d := SetDeadline(ttl, now);
        if d.Some? {
          StoredAcceptable(e, k, x, d.value, ttl == Keep, now);
          StoredAcceptable(Then(e, Exists(k), now), k, x, d.value, ttl == Keep, now);
        }
      case DelKeys(keys) =>
        DelFirstAcceptable(e, keys, |keys|, now);
      case IncrBy(k, delta) =>
        IncrAcceptable(ks, k, delta, now);
      case Expire(k, amount, unit, relative) =>
        var d := DeadlineFrom(if relative then now else 0, amount, unit);
        if d.Some? {
          ThenAcceptable(e, SetExpire(k, d.value), now);
        }
      case PersistKey(k) =>
        ThenAcceptable(e, Op.Persist(k), now);
      case Restore(k, ttlMs, payload, replace, absttl) =>
        RestoreAcceptable(ks, k, ttlMs, payload, replace, absttl, now);
      case Migrate(keys, accepted, copy) =>
        MigrateAcceptable(ks, keys, accepted, copy, now);
      case Read(op) =>
        ThenAcceptable(e, op, now);
      case Lose(victims) =>
    }
  }

  lemma IncrAcceptable(ks: Keyspace, k: Key, delta: int, now: int)
    ensures AllAcceptable(ExecIncr(ks, k, delta, now).log)
  {
    hide Then, After, ParseCanonical, Text;
    var e := Then(Effect(ks, []), Op.Get(k), now);
    ThenAcceptable(Effect(ks, []), Op.Get(k), now);
    var current := if Live(ks, k, now) then ParseCanonical(ks.vals[k]) else Some(0);
    if current.Some? {
      ThenAcceptable(e, Put(k, Text(current.value + delta), true), now);
    }
  }

  lemma RestoreAcceptable(ks: Keyspace, k: Key, ttlMs: int, payload: Option<Bytes>, replace: bool, absttl: bool, now: int)
    requires Int64(ttlMs) && now >= 0
    ensures AllAcceptable(ExecRestore(ks, k, ttlMs, payload, replace, absttl, now).log)
  {
    hide Then, Stored, Live;
    var start := Effect(ks, []);
    ThenAcceptable(start, Exists(k), now);
    var e := if replace then start else Then(start, Exists(k), now);
    ThenAcceptable(e, Op.Del(k), now);
    var at := RestoreDeadline(ttlMs, absttl, now);
    if payload.Some? && ttlMs >= 0 && (at.Some? ==> at.value > now) {
      StoredAcceptable(e, k, payload.value, at, false, now);
    }
  }

  /** The replica applies each logged command at its own reading of the clock. */
  function ApplyAll(ks: Keyspace, log: seq<Logged>, taus: seq<int>): (r: Keyspace)
    requires |taus| == |log|
  {
    if log == [] then ks
    else
      var n := |log| - 1;
      Apply(ApplyAll(ks, log[..n], taus[..n]), log[n], taus[n])
  }

  /** Each command finds the replica in step. */
  predicate Clean(ks: Keyspace, log: seq<Logged>, t: int, taus: seq<int>)
    requires |taus| == |log|
  {
    log == [] ||
    var n := |log| - 1;
    Clean(ks, log[..n], t, taus[..n]) && InStep(ApplyAll(ks, log[..n], taus[..n]), log[n], t, taus[n])
  }

  lemma {:induction false} ApplyAllReplays(ks: Keyspace, log: seq<Logged>, t: int, taus: seq<int>)
    requires Sound(ks) && |taus| == |log| && AllAcceptable(log) && Clean(ks, log, t, taus)
    ensures Sound(ApplyAll(ks, log, taus)) && ViewAt(ApplyAll(ks, log, taus), t) == Replay(ViewAt(ks, t), log, t)
  {
    hide ViewAt, Sound, Apply, PlainApply, Acceptable, InStep;
    if log != [] {
      var n := |log| - 1;
      ApplyAllReplays(ks, log[..n], t, taus[..n]);
      ApplyRefinesIff(ApplyAll(ks, log[..n], taus[..n]), log[n], t, taus[n]);
    }
  }

  /** Once a replica has kept up, the next command keeps it so if and only if it is in step. */
  lemma NextReplaysIff(ks: Keyspace, log: seq<Logged>, t: int, taus: seq<int>)
    requires Sound(ks) && |taus| == |log| > 0 && AllAcceptable(log) && Clean(ks, log[..|log| - 1], t, taus[..|log| - 1])
    ensures ViewAt(ApplyAll(ks, log, taus), t) == Replay(ViewAt(ks, t), log, t) <==> Clean(ks, log, t, taus)
  {
    hide ViewAt, Sound, Apply, PlainApply, Acceptable, InStep;
    var n := |log| - 1;
    ApplyAllReplays(ks, log[..n], t, taus[..n]);
    ApplyRefinesIff(ApplyAll(ks, log[..n], taus[..n]), log[n], t, taus[n]);
  }

  datatype Step = Step(cmd: Command, at: int, applied: seq<int>)

  function MasterAfter(m: Keyspace, run: seq<Step>): (r: Keyspace)
    decreases |run|
  {
    if run == [] then m else MasterAfter(Exec(m, run[0].cmd, run[0].at).ks, run[1..])
  }

  /** The replica after it has applied everything the master logged. */
  function ReplicaAfter(m: Keyspace, r: Keyspace, run: seq<Step>): (r': Keyspace)
    decreases |run|
  {
    if run == [] || |run[0].applied| != |Exec(m, run[0].cmd, run[0].at).log| then r
    else
      var e := Exec(m, run[0].cmd, run[0].at);
      ReplicaAfter(e.ks, ApplyAll(r, e.log, run[0].applied), run[1..])
  }

  function End(now: int, run: seq<Step>): (r: int) {
    if run == [] then now else run[|run| - 1].at
  }

  /** A non-decreasing clock on the master, and a replica that each command finds in step. */
  ghost predicate Faithful(m: Keyspace, r: Keyspace, now: int, run: seq<Step>)
    decreases |run|
  {
    run == [] ||
    var e := Exec(m, run[0].cmd, run[0].at);
    && 0 <= now <= run[0].at && Parsed(run[0].cmd)
    && |run[0].applied| == |e.log|
    && Clean(r, e.log, run[0].at, run[0].applied)
    && Faithful(e.ks, ApplyAll(r, e.log, run[0].applied), run[0].at, run[1..])
  }

  lemma StepAgrees(m: Keyspace, r: Keyspace, cmd: Command, now: int, taus: seq<int>)
    requires Sound(m) && Sound(r) && ViewAt(m, now) == ViewAt(r, now) && Parsed(cmd) && now >= 0
    requires |taus| == |Exec(m, cmd, now).log| && Clean(r, Exec(m, cmd, now).log, now, taus)
    ensures var e := Exec(m, cmd, now); Sound(e.ks) && Sound(ApplyAll(r, e.log, taus))
    ensures var e := Exec(m, cmd, now); ViewAt(e.ks, now) == ViewAt(ApplyAll(r, e.log, taus), now)
  {
    hide ViewAt, Sound, Exec, Clean, ApplyAll, Replay;
    LogTells(m, cmd, now);
    LogIsAcceptable(m, cmd, now);
    ApplyAllReplays(r, Exec(m, cmd, now).log, now, taus);
  }

  /** One command of the master: if the replica was in step up to the last thing it logs, the live data agree exactly when it still is. */
  lemma StepAgreesIff(m: Keyspace, r: Keyspace, cmd: Command, now: int, taus: seq<int>)
    requires Sound(m) && Sound(r) && ViewAt(m, now) == ViewAt(r, now) && Parsed(cmd) && now >= 0
    requires |taus| == |Exec(m, cmd, now).log| > 0
    requires var log := Exec(m, cmd, now).log; Clean(r, log[..|log| - 1], now, taus[..|log| - 1])
    ensures var e := Exec(m, cmd, now);
      ViewAt(e.ks, now) == ViewAt(ApplyAll(r, e.log, taus), now) <==> Clean(r, e.log, now, taus)
  {
    hide ViewAt, Sound, Exec, Clean, ApplyAll, Replay;
    LogTells(m, cmd, now);
    LogIsAcceptable(m, cmd, now);
    NextReplaysIff(r, Exec(m, cmd, now).log, now, taus);
  }

  /**
   Whatever the master runs, expires, evicts or gives up, a replica that started
   with the same live data and applied the log has the same live data at the end.
   */
  lemma {:induction false} ReplicaAgrees(m: Keyspace, r: Keyspace, now: int, run: seq<Step>)
    requires Sound(m) && Sound(r) && ViewAt(m, now) == ViewAt(r, now) && Faithful(m, r, now, run)
    ensures ViewAt(MasterAfter(m, run), End(now, run)) == ViewAt(ReplicaAfter(m, r, run), End(now, run))
    decreases |run|
  {
    hide ViewAt, Sound, Exec, Clean, ApplyAll;
    if run != [] {
      var t := run[0].at;
      LaterView(m, now, t);
      LaterView(r, now, t);
      var e := Exec(m, run[0].cmd, t);
      StepAgrees(m, r, run[0].cmd, t, run[0].applied);
      ReplicaAgrees(e.ks, ApplyAll(r, e.log, run[0].applied), t, run[1..]);
    }
  }

  /** INCR adds: what it stores reads back as the sum, so the next one starts from there. */
  lemma IncrAdds(ks: Keyspace, k: Key, delta: int, now: int)
    requires Live(ks, k, now) && ParseCanonical(ks.vals[k]).Some? && Int64(ParseCanonical(ks.vals[k]).value + delta)
    ensures var after := ExecIncr(ks, k, delta, now).ks;
      && Live(after, k, now) && ParseCanonical(after.vals[k]) == Some(ParseCanonical(ks.vals[k]).value + delta)
      && after.exps == ks.exps
  {
    TextParses(ParseCanonical(ks.vals[k]).value + delta);
  }

  /**
   Replaying across a deadline is not harmless: a replica that applies INCR's
   logged SET ... KEEPTTL after the key's deadline brings the key back for good.
   */
  lemma CrossingADeadlineDiverges(k: Key)
    ensures var m := Keyspace(map[k := Text(1)], map[k := 10]);
      var e := Exec(m, IncrBy(k, 1), 5);
      && |e.log| == 1
      && k !in ViewAt(e.ks, 20) && k in ViewAt(Apply(m, e.log[0], 20), 20)
  {
    TextParses(1);
    var m := Keyspace(map[k := Text(1)], map[k := 10]);
    assert Live(m, k, 5);
  }
}
