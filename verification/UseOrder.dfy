/** The order in which a store's keys were last used, over whole runs of a store that starts empty. */
module UseOrder {
  import opened Prelude
  import opened Keyspace

  /** The list without a key; the place of the others does not change. */
  function Drop(s: seq<Key>, k: Key): (r: seq<Key>)
    ensures k !in s ==> r == s
    ensures forall x :: x in r ==> x in s
  {
    if s == [] then [] else if s[0] == k then s[1..] else [s[0]] + Drop(s[1..], k)
  }

  function Touched(s: seq<Key>, k: Key): (r: seq<Key>) {
    [k] + Drop(s, k)
  }

  /** The use order after an operation, most recently used first. */
  function OrderAfter(lru: seq<Key>, ks: Keyspace, op: Op, now: int, passive: bool): (r: seq<Key>) {
    var live := Live(ks, op.key, now);
    var at := if Expired(ks, op.key, now) && !passive then Drop(lru, op.key) else lru;
    match op
    case Get(k) => if live then Touched(lru, k) else at
    case Exists(k) => if live then Touched(lru, k) else at
    case Persist(k) => if live then Touched(lru, k) else at
    case Pttl(_) => at
    case Put(k, _, _) => Touched(lru, k)
    case Del(k) => Drop(lru, k)
    case SetExpire(k, when) =>
      if !live then at else if when <= now && !passive then Drop(lru, k) else Touched(lru, k)
  }

  // --- runs -----------------------------------------------------------------------

  datatype Deed =
    | Ran(op: Op, now: int, passive: bool)
    | Gone(key: Key)     // evicted, expired in the background, or given up with its slot

  datatype Held = Held(ks: Keyspace, lru: seq<Key>)

  function Step(h: Held, e: Deed): (r: Held) {
    match e
    case Ran(op, now, passive) => Held(After(h.ks, op, now, passive), OrderAfter(h.lru, h.ks, op, now, passive))
    case Gone(k) => Held(Without(h.ks, k), Drop(h.lru, k))
  }

  /** What an empty store holds after these events. */
  function RunOf(events: seq<Deed>): (h: Held) {
    if events == [] then Held(Keyspace(map[], map[]), [])
    else Step(RunOf(events[..|events| - 1]), events[|events| - 1])
  }

  lemma RunGrows(events: seq<Deed>, e: Deed)
    ensures RunOf(events + [e]) == Step(RunOf(events), e)
  {
    assert (events + [e])[..|events|] == events;
  }

  /** A key is used by storing it, and by reading it or changing its deadline while it is there; not by PTTL or DEL. */
  predicate Uses(ks: Keyspace, e: Deed, k: Key) {
    e.Ran? && e.op.key == k
    && (e.op.Put? || (Live(ks, k, e.now) && (e.op.Get? || e.op.Exists? || e.op.Persist? || e.op.SetExpire?)))
  }

  /** The number of the last event that used the key, or -1. */
  function LastUse(events: seq<Deed>, k: Key): (i: int)
    ensures -1 <= i < |events|
  {
    if events == [] then -1
    else
      var n := |events| - 1;
      if Uses(RunOf(events[..n]).ks, events[n], k) then n else LastUse(events[..n], k)
  }

  // --- order and recency --------------------------------------------------------------

  predicate Recent(lru: seq<Key>, events: seq<Deed>) {
    forall a, b :: 0 <= a < b < |lru| ==> LastUse(events, lru[b]) < LastUse(events, lru[a])
  }

  lemma {:induction false} DropSplits(s: seq<Key>, k: Key) returns (p: nat)
    requires k in s
    ensures p < |s| && s[p] == k && Drop(s, k) == Cut(s, p)
  {
    if s[0] == k {
      p := 0;
    } else {
      var q := DropSplits(s[1..], k);
      p := q + 1;
      assert s[..p] == [s[0]] + s[1..][..q] && s[p + 1..] == s[1..][q + 1..];
    }
  }

  lemma DropRecent(lru: seq<Key>, k: Key, events: seq<Deed>, events': seq<Deed>)
    requires Recent(lru, events) && Distinct(lru) && forall x :: x != k ==> LastUse(events', x) == LastUse(events, x)
    ensures Recent(Drop(lru, k), events') && Distinct(Drop(lru, k)) && k !in Drop(lru, k)
    ensures forall x :: x in Drop(lru, k) <==> x in lru && x != k
  {
    hide LastUse, Drop, Recent, Distinct;
    if k in lru {
      var p := DropSplits(lru, k);
      CutDistinct(lru, p);
      CutRecent(lru, p, events, events');
    } else {
      SameRecent(lru, events, events');
    }
  }

  function Cut(s: seq<Key>, p: nat): (r: seq<Key>)
    requires p < |s|
  {
    s[..p] + s[p + 1..]
  }

  lemma CutAt(s: seq<Key>, p: nat, a: nat)
    requires p < |s| && a < |s| - 1
    ensures |Cut(s, p)| == |s| - 1 && Cut(s, p)[a] == s[if a < p then a else a + 1]
  {
  }

  lemma CutDistinct(s: seq<Key>, p: nat)
    requires p < |s| && Distinct(s)
    ensures Distinct(Cut(s, p)) && forall x :: x in Cut(s, p) <==> x in s && x != s[p]
  {
    forall x | x in s && x != s[p]
      ensures x in Cut(s, p)
    {
      var i :| 0 <= i < |s| && s[i] == x;
      CutAt(s, p, if i < p then i else i - 1);
    }
    hide Cut;
    forall a, b | 0 <= a < b < |s| - 1
      ensures Cut(s, p)[a] != Cut(s, p)[b]
    {
      CutAt(s, p, a);
      CutAt(s, p, b);
    }
    forall x | x in Cut(s, p)
      ensures x in s && x != s[p]
    {
      var a :| 0 <= a < |Cut(s, p)| && Cut(s, p)[a] == x;
      CutSize(s, p);
      CutAt(s, p, a);
    }
  }

  lemma CutRecent(lru: seq<Key>, p: nat, events: seq<Deed>, events': seq<Deed>)
    requires p < |lru| && Recent(lru, events) && Distinct(lru)
    requires forall x :: x != lru[p] ==> LastUse(events', x) == LastUse(events, x)
    ensures Recent(Cut(lru, p), events')
  {
    hide LastUse, Cut;
    var r := Cut(lru, p);
    forall a, b | 0 <= a < b < |r|
      ensures LastUse(events', r[b]) < LastUse(events', r[a])
    {
      CutSize(lru, p);
      CutAt(lru, p, a);
      CutAt(lru, p, b);
      var i, j := if a < p then a else a + 1, if b < p then b else b + 1;
      assert lru[i] != lru[p] && lru[j] != lru[p];
    }
  }

  lemma CutSize(s: seq<Key>, p: nat)
    requires p < |s|
    ensures |Cut(s, p)| == |s| - 1
  {
  }

  lemma TouchRecent(lru: seq<Key>, k: Key, events: seq<Deed>, events': seq<Deed>)
    requires Recent(lru, events) && Distinct(lru) && forall x :: x != k ==> LastUse(events', x) == LastUse(events, x)
    requires |events'| == |events| + 1 && LastUse(events', k) == |events|
    ensures Recent(Touched(lru, k), events') && Distinct(Touched(lru, k))
    ensures forall x :: x in Touched(lru, k) <==> x in lru || x == k
  {
    hide Drop, Recent, Distinct;
    DropRecent(lru, k, events, events');
    forall x | x in Drop(lru, k)
      ensures LastUse(events', x) < LastUse(events', k)
    {
      assert LastUse(events', x) == LastUse(events, x);
    }
    FrontRecent(Drop(lru, k), k, events');
  }

  lemma FrontRecent(d: seq<Key>, k: Key, events: seq<Deed>)
    requires Recent(d, events) && Distinct(d) && k !in d && forall x :: x in d ==> LastUse(events, x) < LastUse(events, k)
    ensures Recent([k] + d, events) && Distinct([k] + d)
  {
    hide LastUse;
    var r := [k] + d;
    forall a, b | 0 <= a < b < |r|
      ensures LastUse(events, r[b]) < LastUse(events, r[a]) && r[a] != r[b]
    {
      assert r[b] == d[b - 1] && r[b] in d;
      if a > 0 {
        assert r[a] == d[a - 1];
      }
    }
  }

  lemma SameRecent(lru: seq<Key>, events: seq<Deed>, events': seq<Deed>)
    requires Recent(lru, events) && forall x :: x in lru ==> LastUse(events', x) == LastUse(events, x)
    ensures Recent(lru, events')
  {
    hide LastUse;
  }

  /** The list holds exactly the stored keys, each once, the more recently used first. */
  ghost predicate InOrder(events: seq<Deed>) {
    var h := RunOf(events);
    Distinct(h.lru) && Recent(h.lru, events) && forall k :: k in h.lru <==> k in h.ks.vals
  }

  lemma {:induction false} OrderIsRecency(events: seq<Deed>)
    ensures InOrder(events)
  {
    if events != [] {
      var n := |events| - 1;
      OrderIsRecency(events[..n]);
      assert events == events[..n] + [events[n]];
      OneMoreDeed(events[..n], events[n]);
    }
  }

  lemma LastUseGrows(events: seq<Deed>, e: Deed, k: Key)
    ensures LastUse(events + [e], k) == if Uses(RunOf(events).ks, e, k) then |events| else LastUse(events, k)
  {
    assert (events + [e])[..|events|] == events;
  }

  function About(e: Deed): (k: Key) {
    if e.Ran? then e.op.key else e.key
  }

  /** An event moves its key to the front, takes it out, or leaves everything where it is. */
  lemma StepShape(h: Held, e: Deed)
    requires forall k :: k in h.lru <==> k in h.ks.vals
    ensures var r, k := Step(h, e), About(e);
      || (r.lru == Touched(h.lru, k) && Uses(h.ks, e, k) && r.ks.vals.Keys == h.ks.vals.Keys + {k})
      || (r.lru == Drop(h.lru, k) && r.ks.vals.Keys == h.ks.vals.Keys - {k})
      || (r.lru == h.lru && r.ks.vals.Keys == h.ks.vals.Keys && !Uses(h.ks, e, k))
  {
    hide Drop;
  }

  lemma OneMoreDeed(events: seq<Deed>, e: Deed)
    requires InOrder(events)
    ensures InOrder(events + [e])
  {
    hide Drop, Touched, LastUse, Recent, Step, Uses, Distinct;
    var h, k, all := RunOf(events), About(e), events + [e];
    RunGrows(events, e);
    forall x
      ensures x != k ==> LastUse(all, x) == LastUse(events, x)
      ensures LastUse(all, k) == if Uses(h.ks, e, k) then |events| else LastUse(events, k)
    {
      OthersUnused(h.ks, e, x);
      LastUseGrows(events, e, x);
      LastUseGrows(events, e, k);
    }
    StepShape(h, e);
    var r := Step(h, e);
    if r.lru == Drop(h.lru, k) && r.ks.vals.Keys == h.ks.vals.Keys - {k} {
      DropRecent(h.lru, k, events, all);
    } else if Uses(h.ks, e, k) {
      TouchRecent(h.lru, k, events, all);
    } else {
      SameRecent(h.lru, events, all);
    }
    assert forall x :: x in r.lru <==> x in r.ks.vals.Keys;
  }

  lemma OthersUnused(ks: Keyspace, e: Deed, x: Key)
    ensures x != About(e) ==> !Uses(ks, e, x)
  {
  }

  predicate Before(s: seq<Key>, x: Key, y: Key) {
    exists a, b :: 0 <= a < b < |s| && s[a] == x && s[b] == y
  }

  /** Of two stored keys, the one that stands before the other is the one that was used later. */
  lemma BeforeIffUsedLater(events: seq<Deed>, x: Key, y: Key)
    requires x != y && x in RunOf(events).ks.vals && y in RunOf(events).ks.vals
    ensures Before(RunOf(events).lru, x, y) <==> LastUse(events, y) < LastUse(events, x)
  {
    OrderIsRecency(events);
    hide LastUse, RunOf;
    var lru := RunOf(events).lru;
    var a :| 0 <= a < |lru| && lru[a] == x;
    var b :| 0 <= b < |lru| && lru[b] == y;
    if a < b {
      assert Before(lru, x, y);
    }
  }

  /** Cutting the order anywhere separates later uses from earlier ones. */
  lemma TailIsOlder(events: seq<Deed>, n: nat, kept: Key, victim: Key)
    requires n <= |RunOf(events).lru| && kept in RunOf(events).lru[..n] && victim in RunOf(events).lru[n..]
    ensures LastUse(events, victim) < LastUse(events, kept)
  {
    OrderIsRecency(events);
    hide LastUse, RunOf;
    var lru := RunOf(events).lru;
    var a :| 0 <= a < n && lru[..n][a] == kept;
    var b :| 0 <= b < |lru| - n && lru[n..][b] == victim;
    assert lru[a] == kept && lru[n + b] == victim;
  }
}
