/**
 What the store's operations do to its keys, values and deadlines, whether
 expired keys are deleted on access (active expiry, on masters) or only read as
 missing (passive expiry, on replicas).
 */
module Keyspace {
  import opened Prelude

  type Key = Bytes

  datatype Keyspace = Keyspace(vals: map<Key, Bytes>, exps: map<Key, int>)

  datatype Entry = Entry(value: Bytes, deadline: Option<int>)

  type View = map<Key, Entry>

  predicate Expired(ks: Keyspace, k: Key, now: int) {
    k in ks.exps && ks.exps[k] <= now
  }

  predicate Live(ks: Keyspace, k: Key, now: int) {
    k in ks.vals && !Expired(ks, k, now)
  }

  /** Every deadline belongs to a stored key. */
  predicate Sound(ks: Keyspace) {
    ks.exps.Keys <= ks.vals.Keys
  }

  function EntryOf(ks: Keyspace, k: Key): (r: Entry)
    requires k in ks.vals
  {
    Entry(ks.vals[k], if k in ks.exps then Some(ks.exps[k]) else None)
  }

  /** What a client can see at a given time. */
  function ViewAt(ks: Keyspace, now: int): (r: View) {
    map k | k in ks.vals && Live(ks, k, now) :: EntryOf(ks, k)
  }

  function Without(ks: Keyspace, k: Key): (r: Keyspace) {
    Keyspace(ks.vals - {k}, ks.exps - {k})
  }

  function WithoutAll(ks: Keyspace, gone: set<Key>): (r: Keyspace) {
    Keyspace(ks.vals - gone, ks.exps - gone)
  }

  datatype Op =
    | Get(key: Key)
    | Exists(key: Key)
    | Put(key: Key, value: Bytes, keepTtl: bool)
    | Del(key: Key)
    | SetExpire(key: Key, when: int)
    | Persist(key: Key)
    | Pttl(key: Key)

  datatype Reply = Value(value: Option<Bytes>) | Flag(yes: bool) | Number(n: int) | Done

  /** The key after an access that deletes it if it has expired, unless expiry is passive. */
  function Accessed(ks: Keyspace, k: Key, now: int, passive: bool): (r: Keyspace) {
    if Expired(ks, k, now) && !passive then Without(ks, k) else ks
  }

  /** The keys an operation deletes on its own account. */
  function Reclaimed(ks: Keyspace, op: Op, now: int, passive: bool): (r: seq<Key>) {
    if Expired(ks, op.key, now) && !passive then [op.key] else []
  }

  function Answer(ks: Keyspace, op: Op, now: int): (r: Reply) {
    var live := Live(ks, op.key, now);
    match op
    case Get(k) => Value(if live then Some(ks.vals[k]) else None)
    case Exists(_) | Del(_) | SetExpire(_, _) => Flag(live)
    case Put(_, _, _) => Done
    case Persist(k) => Flag(live && k in ks.exps)
    case Pttl(k) => Number(if !live then -2 else if k !in ks.exps then -1 else ks.exps[k] - now)
  }

  function After(ks: Keyspace, op: Op, now: int, passive: bool): (r: Keyspace) {
    var live := Live(ks, op.key, now);
    var at := Accessed(ks, op.key, now, passive);
    match op
    case Get(_) | Exists(_) | Pttl(_) => at
    case Put(k, v, keepTtl) =>
      Keyspace(at.vals[k := v], if live && keepTtl then at.exps else at.exps - {k})
    case Del(k) => Without(ks, k)
    case SetExpire(k, when) =>
      if !live then at
      else if when <= now && !passive then Without(at, k)
      else Keyspace(at.vals, at.exps[k := when])
    case Persist(k) => if live then Keyspace(at.vals, at.exps - {k}) else at
  }

  // The reference: a plain map from keys to values with deadlines, in which an entry vanishes at its deadline.

  function Unexpired(v: View, now: int): (r: View) {
    map k | k in v && (v[k].deadline.Some? ==> v[k].deadline.value > now) :: v[k]
  }

  function PlainAnswer(v: View, op: Op, now: int): (r: Reply) {
    match op
    case Get(k) => Value(if k in v then Some(v[k].value) else None)
    case Exists(k) => Flag(k in v)
    case Del(k) => Flag(k in v)
    case SetExpire(k, _) => Flag(k in v)
    case Put(_, _, _) => Done
    case Persist(k) => Flag(k in v && v[k].deadline.Some?)
    case Pttl(k) => Number(if k !in v then -2 else if v[k].deadline.None? then -1 else v[k].deadline.value - now)
  }

  function PlainAfter(v: View, op: Op, now: int): (r: View) {
    match op
    case Get(_) | Exists(_) | Pttl(_) => v
    case Put(k, x, keepTtl) => v[k := Entry(x, if k in v && keepTtl then v[k].deadline else None)]
    case Del(k) => v - {k}
    case SetExpire(k, when) =>
      if k !in v then v else if when <= now then v - {k} else v[k := v[k].(deadline := Some(when))]
    case Persist(k) => if k in v then v[k := v[k].(deadline := None)] else v
  }

  function Look(v: View, k: Key): (r: Option<Entry>) {
    if k in v then Some(v[k]) else None
  }

  lemma SameView(v: View, w: View)
    requires forall k :: Look(v, k) == Look(w, k)
    ensures v == w
  {
    forall k
      ensures k in v <==> k in w
      ensures k in v ==> v[k] == w[k]
    {
      assert Look(v, k) == Look(w, k);
    }
  }

  lemma OtherKey(ks: Keyspace, op: Op, now: int, passive: bool, k: Key)
    requires k != op.key
    ensures Look(ViewAt(After(ks, op, now, passive), now), k) == Look(ViewAt(ks, now), k)
    ensures Look(PlainAfter(ViewAt(ks, now), op, now), k) == Look(ViewAt(ks, now), k)
  {
  }

  lemma OwnKey(ks: Keyspace, op: Op, now: int, passive: bool)
    requires Sound(ks)
    ensures Look(ViewAt(After(ks, op, now, passive), now), op.key) == Look(PlainAfter(ViewAt(ks, now), op, now), op.key)
  {
  }

  /** Each operation, active or passive, does to the view what it does to the plain map. */
  lemma RefinesPlain(ks: Keyspace, op: Op, now: int, passive: bool)
    requires Sound(ks)
    ensures Sound(After(ks, op, now, passive))
    ensures Answer(ks, op, now) == PlainAnswer(ViewAt(ks, now), op, now)
    ensures ViewAt(After(ks, op, now, passive), now) == PlainAfter(ViewAt(ks, now), op, now)
  {
    StaysSound(ks, op, now, passive);
    SameAnswer(ks, op, now);
    hide After, PlainAfter, ViewAt, Look, Answer, PlainAnswer, Sound;
    forall k
      ensures Look(ViewAt(After(ks, op, now, passive), now), k) == Look(PlainAfter(ViewAt(ks, now), op, now), k)
    {
      if k == op.key {
        OwnKey(ks, op, now, passive);
      } else {
        OtherKey(ks, op, now, passive, k);
      }
    }
    SameView(ViewAt(After(ks, op, now, passive), now), PlainAfter(ViewAt(ks, now), op, now));
  }

  lemma StaysSound(ks: Keyspace, op: Op, now: int, passive: bool)
    requires Sound(ks)
    ensures Sound(After(ks, op, now, passive))
  {
  }

  lemma SameAnswer(ks: Keyspace, op: Op, now: int)
    ensures Answer(ks, op, now) == PlainAnswer(ViewAt(ks, now), op, now)
  {
  }

  /** Time alone only takes entries away, and the same ones from equal views. */
  lemma LaterView(ks: Keyspace, now: int, later: int)
    requires now <= later
    ensures ViewAt(ks, later) == Unexpired(ViewAt(ks, now), later)
  {
  }

  /** Deleting keys that have expired cannot be seen. */
  lemma ReclaimUnseen(ks: Keyspace, gone: set<Key>, now: int)
    requires Sound(ks) && forall k :: k in gone ==> k in ks.vals ==> Expired(ks, k, now)
    ensures Sound(WithoutAll(ks, gone)) && ViewAt(WithoutAll(ks, gone), now) == ViewAt(ks, now)
  {
  }

  // Whole runs: operations at given times, with expiry cycles anywhere, which do nothing on a passive store.

  datatype Event = Do(op: Op) | Cycle(victims: set<Key>)

  datatype Timed = Timed(at: int, event: Event)

  function ExpiredAmong(ks: Keyspace, victims: set<Key>, now: int): (r: set<Key>) {
    set k | k in victims && Expired(ks, k, now)
  }

  function Next(ks: Keyspace, e: Timed, passive: bool): (r: Keyspace) {
    match e.event
    case Do(op) => After(ks, op, e.at, passive)
    case Cycle(victims) => if passive then ks else WithoutAll(ks, ExpiredAmong(ks, victims, e.at))
  }

  function Replies(ks: Keyspace, run: seq<Timed>, passive: bool): (r: seq<Reply>)
    decreases |run|
  {
    if run == [] then []
    else
      (match run[0].event
       case Do(op) => [Answer(ks, op, run[0].at)]
       case Cycle(_) => [])
      + Replies(Next(ks, run[0], passive), run[1..], passive)
  }

  predicate Monotone(start: int, run: seq<Timed>)
    decreases |run|
  {
    run == [] || (start <= run[0].at && Monotone(run[0].at, run[1..]))
  }

  /** The replies of a run on the plain map. */
  function PlainReplies(v: View, run: seq<Timed>): (r: seq<Reply>)
    decreases |run|
  {
    if run == [] then []
    else
      var seen := Unexpired(v, run[0].at);
      match run[0].event
      case Do(op) => [PlainAnswer(seen, op, run[0].at)] + PlainReplies(PlainAfter(seen, op, run[0].at), run[1..])
      case Cycle(_) => PlainReplies(seen, run[1..])
  }

  lemma {:induction false} RunRefinesPlain(ks: Keyspace, now: int, run: seq<Timed>, passive: bool)
    requires Sound(ks) && Monotone(now, run)
    ensures Replies(ks, run, passive) == PlainReplies(ViewAt(ks, now), run)
    decreases |run|
  {
    hide After, PlainAfter, ViewAt, Answer, PlainAnswer, Sound, Expired;
    if run != [] {
      var e := run[0];
      LaterView(ks, now, e.at);
      match e.event {
        case Do(op) =>
          RefinesPlain(ks, op, e.at, passive);
        case Cycle(victims) =>
          ReclaimUnseen(ks, ExpiredAmong(ks, victims, e.at), e.at);
      }
      RunRefinesPlain(Next(ks, e, passive), e.at, run[1..], passive);
    }
  }

  /**
   Passive and active expiry cannot be told apart: two stores with the same view
   give the same replies, however often and however thoroughly the active one
   collects expired keys.
   */
  lemma ActiveAndPassiveAgree(active: Keyspace, passive: Keyspace, now: int, run: seq<Timed>)
    requires Sound(active) && Sound(passive) && ViewAt(active, now) == ViewAt(passive, now) && Monotone(now, run)
    ensures Replies(active, run, false) == Replies(passive, run, true)
  {
    RunRefinesPlain(active, now, run, false);
    RunRefinesPlain(passive, now, run, true);
  }
}
