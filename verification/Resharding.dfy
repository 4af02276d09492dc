/**
 Moving one hash slot between two masters while clients keep using it.

 The source and the target each see the slot their own way; clients follow the
 redirects they are given. The claim is that nobody can tell: every command that
 is served acts on one map, the source's entry if there is one, else the target's.
 */
module Resharding {
  import opened Prelude

  type Key = Bytes
  type Val = Bytes
  type Data = map<Key, Val>

  // --- commands -----------------------------------------------------------------

  /** Any command: what it does to the values of its keys, and what it answers. */
  datatype Cmd = Cmd(keys: seq<Key>, run: Data -> (Data, Bytes))

  function KeysOf(c: Cmd): (ks: set<Key>) {
    set k | k in c.keys
  }

  function Restrict(d: Data, ks: set<Key>): (r: Data) {
    map k | k in d && k in ks :: d[k]
  }

  /** The effect on a whole dataset: only the command's own keys are read or written. */
  function Exec(c: Cmd, d: Data): (r: (Data, Bytes)) {
    var out := c.run(Restrict(d, KeysOf(c)));
    ((d - KeysOf(c)) + Restrict(out.0, KeysOf(c)), out.1)
  }

  // --- one node's view of the slot -----------------------------------------------------

  datatype Side = Source | Target

  datatype Slot = Slot(owner: Side, migrating: bool, importing: bool, data: Data)

  datatype Decision = Serve | Ask | TryAgain | Moved

  function Missing(keys: seq<Key>, d: Data): (n: nat)
    ensures n <= |keys|
  {
    if keys == [] then 0 else (if keys[0] in d then 0 else 1) + Missing(keys[1..], d)
  }

  /** route(), for keys of this slot on a node whose cluster state is ok. */
  function Route(slot: Slot, me: Side, keys: seq<Key>, asking: bool): (r: Decision) {
    var missing := Missing(keys, slot.data);
    if slot.owner == me && slot.migrating && missing > 0 then
      if missing < |keys| then TryAgain else Ask
    else if slot.importing && asking then
      if |keys| > 1 && missing > 0 then TryAgain else Serve
    else if slot.owner != me then Moved
    else Serve
  }

  /** What the count of missing keys says about the keys themselves. */
  lemma {:induction false} MissingMeans(keys: seq<Key>, d: Data)
    ensures Missing(keys, d) == 0 <==> forall k :: k in keys ==> k in d
    ensures Missing(keys, d) == |keys| <==> forall k :: k in keys ==> k !in d
  {
    if keys != [] {
      MissingMeans(keys[1..], d);
      assert forall k :: k in keys <==> k == keys[0] || k in keys[1..];
    }
  }

  // --- the two nodes and the clients -----------------------------------------------------

  /** A MIGRATE in progress: what was sent, and how the target dealt with the first requests. */
  datatype Batch = Batch(sent: seq<Key>, replies: seq<bool>)

  datatype System = System(
    src: Slot,
    dst: Slot,
    asked: set<seq<Key>>,      // keys some client was just redirected with -ASK for
    batch: Option<Batch>)

  datatype Step =
    | Importing                     // SETSLOT IMPORTING on the target
    | Migrating                     // SETSLOT MIGRATING on the source
    | AtSource(c: Cmd)
    | AtTarget(c: Cmd, asking: bool)
    | SourceDrops(k: Key)           // expiry or eviction
    | TargetDrops(k: Key)
    | SendBatch(keys: seq<Key>)     // MIGRATE: the source blocks until EndBatch
    | Restore(ok: bool)             // the target takes the next RESTORE-ASKING
    | EndBatch(answered: nat)       // replies that made it back in time
    | TargetOwns                    // SETSLOT NODE on the target
    | SourceYields                  // SETSLOT NODE on the source, or the target's claim by gossip

  /** No RESTORE whose reply never arrived has left its copy at the target. */
  predicate NothingUnanswered(b: Batch, answered: nat, target: Data)
    requires |b.replies| <= |b.sent|
  {
    forall i :: answered <= i < |b.replies| && b.replies[i] ==> b.sent[i] !in target
  }

  /** The migration tool's order of steps, and clients that only ASK when told to. */
  ghost predicate Enabled(s: System, step: Step) {
    match step
    case Importing => s.dst.owner.Source?
    case Migrating => s.dst.importing && s.src.owner.Source?
    case AtSource(c) => s.batch.None? && c.keys != []
    case AtTarget(c, asking) => c.keys != [] && (asking ==> c.keys in s.asked)
    case SourceDrops(k) => s.batch.None?
    case TargetDrops(k) => true
    case SendBatch(keys) =>
      s.batch.None? && s.src.owner.Source? && s.src.migrating && Distinct(keys) && forall k :: k in keys ==> k in s.src.data
    case Restore(ok) =>
      s.batch.Some? && |s.batch.value.replies| < |s.batch.value.sent| && s.batch.value.sent[|s.batch.value.replies|] in s.src.data
    case EndBatch(answered) =>
      && s.batch.Some? && answered <= |s.batch.value.replies| <= |s.batch.value.sent|
      && NothingUnanswered(s.batch.value, answered, s.dst.data)
    case TargetOwns => s.batch.None? && s.dst.importing && s.src.migrating && s.src.data == map[]
    case SourceYields => s.batch.None? && s.dst.owner.Target?
  }

  /** The keys whose RESTORE the target confirmed. */
  function Confirmed(b: Batch, answered: nat): (ks: set<Key>)
    requires answered <= |b.replies| <= |b.sent|
  {
    set i | 0 <= i < answered && b.replies[i] :: b.sent[i]
  }

  /** The source deletes what was confirmed, and MIGRATE is over. */
  function Released(s: System, answered: nat): (s': System)
    requires s.batch.Some? && answered <= |s.batch.value.replies| <= |s.batch.value.sent|
  {
    s.(batch := None, src := s.src.(data := s.src.data - Confirmed(s.batch.value, answered)))
  }

  function ServeAt(slot: Slot, c: Cmd): (r: Slot) {
    slot.(data := Exec(c, slot.data).0)
  }

  ghost function Next(s: System, step: Step): (s': System)
    requires Enabled(s, step)
  {
    match step
    case Importing => s.(dst := s.dst.(importing := true))
    case Migrating => s.(src := s.src.(migrating := true))
    case AtSource(c) =>
      (match Route(s.src, Source, c.keys, false)
       case Serve => s.(src := ServeAt(s.src, c))
       case Ask => s.(asked := s.asked + {c.keys})
       case TryAgain => s
       case Moved => s)
    case AtTarget(c, asking) =>
      var t := if asking then s.(asked := s.asked - {c.keys}) else s;
      if Route(s.dst, Target, c.keys, asking).Serve? then t.(dst := ServeAt(s.dst, c)) else t
    case SourceDrops(k) => s.(src := s.src.(data := s.src.data - {k}))
    case TargetDrops(k) => s.(dst := s.dst.(data := s.dst.data - {k}))
    case SendBatch(keys) => if keys == [] then s else s.(batch := Some(Batch(keys, [])))
    case Restore(ok) =>
      var b := s.batch.value;
      var k := b.sent[|b.replies|];
      var t := s.(batch := Some(b.(replies := b.replies + [ok])));
      if ok then t.(dst := s.dst.(data := s.dst.data[k := s.src.data[k]])) else t
    case EndBatch(answered) => Released(s, answered)
    case TargetOwns => s.(dst := s.dst.(owner := Target, importing := false))
    case SourceYields => s.(src := Slot(Target, false, s.src.importing, if s.src.owner.Source? then map[] else s.src.data))
  }

  // --- the one map everybody sees ------------------------------------------------------------

  /** The source's entry if there is one, else the target's. */
  function Seen(s: System): (d: Data) {
    s.dst.data + s.src.data
  }

  /** What a step does to the map the clients see. */
  datatype Event = Silent | Served(c: Cmd, reply: Bytes) | Dropped(keys: set<Key>)

  ghost function EventOf(s: System, step: Step): (e: Event)
    requires Enabled(s, step)
  {
    match step
    case AtSource(c) =>
      if Route(s.src, Source, c.keys, false).Serve? then Served(c, Exec(c, s.src.data).1) else Silent
    case AtTarget(c, asking) =>
      if Route(s.dst, Target, c.keys, asking).Serve? then Served(c, Exec(c, s.dst.data).1) else Silent
    case SourceDrops(k) => if k in s.src.data then Dropped({k}) else Silent
    case TargetDrops(k) => if k in s.src.data then Silent else Dropped({k})
    // A moved key the target has since expired or evicted is gone once the source lets go of it.
    case EndBatch(answered) => Dropped(Confirmed(s.batch.value, answered) - s.dst.data.Keys)
    case _ => Silent
  }

  ghost predicate Explains(d: Data, e: Event, d': Data) {
    match e
    case Silent => d' == d
    case Served(c, reply) => d' == Exec(c, d).0 && reply == Exec(c, d).1
    case Dropped(keys) => d' == d - keys
  }

  // --- what holds throughout -------------------------------------------------------------------

  /** The target's copies of keys the source still has: only those of the batch under way, and exact. */
  predicate CopiesOk(s: System) {
    match s.batch
    case None => s.src.data.Keys !! s.dst.data.Keys
    case Some(b) =>
      && |b.replies| <= |b.sent| && Distinct(b.sent) && (forall k :: k in b.sent ==> k in s.src.data)
      && forall k :: k in s.src.data && k in s.dst.data ==>
           s.dst.data[k] == s.src.data[k] && exists i :: 0 <= i < |b.replies| && b.replies[i] && b.sent[i] == k
  }

  predicate FlagsOk(s: System) {
    && !s.src.importing && !s.dst.migrating
    && (s.src.migrating ==> s.dst.importing || s.dst.owner.Target?)
    && (s.dst.owner.Source? ==> s.src.owner.Source?)
    && (s.dst.owner.Target? ==> !s.dst.importing && s.src.data == map[] && s.batch.None?)
    && (!s.src.migrating && s.dst.owner.Source? ==> s.dst.data == map[] && s.asked == {} && s.batch.None?)
    && (s.src.owner.Source? && s.dst.owner.Target? ==> s.src.migrating)
  }

  predicate AskedOk(s: System) {
    forall ks, k :: ks in s.asked && k in ks ==> k !in s.src.data
  }

  predicate Inv(s: System) {
    FlagsOk(s) && CopiesOk(s) && AskedOk(s)
  }

  /** Before the move: the source serves the slot, the target knows nothing of it. */
  predicate Init(s: System) {
    s == System(Slot(Source, false, false, s.src.data), Slot(Source, false, false, map[]), {}, None)
  }

  // --- why a served command cannot tell -------------------------------------------------------

  /** Running on one part of a split dataset that holds all the command's keys, and the other none. */
  lemma ExecOnPart(c: Cmd, part: Data, rest: Data)
    requires forall k :: k in c.keys ==> k !in rest
    ensures Exec(c, part).0 + rest == Exec(c, part + rest).0 && Exec(c, part).1 == Exec(c, part + rest).1
    ensures rest + Exec(c, part).0 == Exec(c, rest + part).0 && Exec(c, part).1 == Exec(c, rest + part).1
  {
    var ks := KeysOf(c);
    assert Restrict(part + rest, ks) == Restrict(part, ks);
    assert Restrict(rest + part, ks) == Restrict(part, ks);
    UpdateOnPart(part, rest, ks, Restrict(c.run(Restrict(part, ks)).0, ks));
  }

  lemma UpdateOnPart(part: Data, rest: Data, ks: set<Key>, upd: Data)
    requires ks !! rest.Keys && upd.Keys <= ks
    ensures ((part - ks) + upd) + rest == ((part + rest) - ks) + upd
    ensures rest + ((part - ks) + upd) == ((rest + part) - ks) + upd
  {
  }

  /** A command adds no key but its own. */
  lemma ExecKeys(c: Cmd, d: Data, k: Key)
    requires k !in c.keys
    ensures k in Exec(c, d).0 <==> k in d
    ensures k in d ==> Exec(c, d).0[k] == d[k]
  {
  }

  lemma ServedAtSource(s: System, c: Cmd)
    requires Inv(s) && s.batch.None? && c.keys != [] && Route(s.src, Source, c.keys, false).Serve?
    ensures forall k :: k in c.keys ==> k !in s.dst.data
    ensures s.src.migrating ==> forall k :: k in c.keys ==> k in s.src.data
    ensures s.src.owner.Source?
  {
    MissingMeans(c.keys, s.src.data);
  }

  lemma ServedAtTarget(s: System, c: Cmd, asking: bool)
    requires Inv(s) && c.keys != [] && (asking ==> c.keys in s.asked) && Route(s.dst, Target, c.keys, asking).Serve?
    ensures forall k :: k in c.keys ==> k !in s.src.data
    ensures s.dst.owner.Target? || s.src.migrating
  {
  }

  lemma CommandExplained(s: System, step: Step)
    requires Inv(s) && Enabled(s, step) && (step.AtSource? || step.AtTarget?)
    ensures Explains(Seen(s), EventOf(s, step), Seen(Next(s, step)))
  {
    hide Exec, Inv;
    var c := step.c;
    if step.AtSource? {
      if Route(s.src, Source, c.keys, false).Serve? {
        ServedAtSource(s, c);
        ExecOnPart(c, s.src.data, s.dst.data);
      }
    } else if Route(s.dst, Target, c.keys, step.asking).Serve? {
      ServedAtTarget(s, c, step.asking);
      ExecOnPart(c, s.dst.data, s.src.data);
    }
  }

  lemma DropExplained(s: System, step: Step)
    requires Enabled(s, step) && (step.SourceDrops? || step.TargetDrops?) && (s.batch.None? ==> s.src.data.Keys !! s.dst.data.Keys)
    ensures Explains(Seen(s), EventOf(s, step), Seen(Next(s, step)))
  {
    var k := step.k;
    if k in s.src.data && step.SourceDrops? {
      assert Seen(Next(s, step)) == Seen(s) - {k};
    } else if k !in s.src.data && step.TargetDrops? {
      assert Seen(Next(s, step)) == Seen(s) - {k};
    } else {
      assert Seen(Next(s, step)) == Seen(s);
    }
  }

  lemma RestoreExplained(s: System, ok: bool)
    requires Enabled(s, Restore(ok))
    ensures Seen(Next(s, Restore(ok))) == Seen(s)
  {
  }

  lemma YieldExplained(s: System)
    requires Inv(s) && Enabled(s, SourceYields)
    ensures Seen(Next(s, SourceYields)) == Seen(s)
  {
  }

  lemma StepExplained(s: System, step: Step)
    requires Inv(s) && Enabled(s, step)
    ensures Explains(Seen(s), EventOf(s, step), Seen(Next(s, step)))
  {
    match step
    case AtSource(c) => CommandExplained(s, step);
    case AtTarget(c, asking) => CommandExplained(s, step);
    case Restore(ok) => RestoreExplained(s, ok);
    case EndBatch(answered) => EndExplained(s, answered);
    case SourceDrops(k) => DropExplained(s, step);
    case TargetDrops(k) => DropExplained(s, step);
    case SourceYields => YieldExplained(s);
    case _ =>
  }

  /** Confirmed keys are deleted at the source and found, unchanged, at the target. */
  lemma EndExplained(s: System, answered: nat)
    requires Inv(s) && s.batch.Some? && answered <= |s.batch.value.replies| <= |s.batch.value.sent|
    ensures Seen(Released(s, answered)) == Seen(s) - (Confirmed(s.batch.value, answered) - s.dst.data.Keys)
  {
    var b := s.batch.value;
    var gone := Confirmed(b, answered);
    forall k | k in gone
      ensures k in s.src.data
    {
      assert k in b.sent;
    }
    assert s.dst.data + (s.src.data - gone) == (s.dst.data + s.src.data) - (gone - s.dst.data.Keys);
  }

  // --- every step keeps the invariant -----------------------------------------------------------

  lemma CommandKeeps(s: System, step: Step)
    requires Inv(s) && Enabled(s, step) && (step.AtSource? || step.AtTarget?)
    ensures Inv(Next(s, step))
  {
    var s', c := Next(s, step), step.c;
    MissingMeans(c.keys, s.src.data);
    if step.AtSource? && Route(s.src, Source, c.keys, false).Serve? {
      ServedAtSource(s, c);
      forall k | k in s'.src.data
        ensures k in s.src.data || k in c.keys
      {
        if k !in c.keys {
          ExecKeys(c, s.src.data, k);
        }
      }
    } else if step.AtTarget? && Route(s.dst, Target, c.keys, step.asking).Serve? {
      ServedAtTarget(s, c, step.asking);
      forall k | k in s.src.data
        ensures k in s'.dst.data <==> k in s.dst.data
        ensures k in s.dst.data ==> s'.dst.data[k] == s.dst.data[k]
      {
        ExecKeys(c, s.dst.data, k);
      }
      hide Exec;
    }
  }

  lemma RestoreKeeps(s: System, ok: bool)
    requires Inv(s) && Enabled(s, Restore(ok))
    ensures Inv(Next(s, Restore(ok)))
  {
    var s', b := Next(s, Restore(ok)), s.batch.value;
    var b' := s'.batch.value;
    forall k | k in s'.src.data && k in s'.dst.data
      ensures s'.dst.data[k] == s'.src.data[k]
      ensures exists i :: 0 <= i < |b'.replies| && b'.replies[i] && b'.sent[i] == k
    {
      if k in s.dst.data && !(ok && k == b.sent[|b.replies|]) {
        var i :| 0 <= i < |b.replies| && b.replies[i] && b.sent[i] == k;
        assert b'.replies[i] && b'.sent[i] == k;
      } else {
        assert b'.replies[|b.replies|] && b'.sent[|b.replies|] == k;
      }
    }
  }

  lemma EndKeeps(s: System, answered: nat)
    requires Inv(s) && Enabled(s, EndBatch(answered))
    ensures Inv(Next(s, EndBatch(answered)))
  {
    EndLeavesNoCopyIff(s, answered);
  }

  /**
   After a MIGRATE every key is on one node only, exactly when no RESTORE whose
   reply went missing has left its copy at the target.
   */
  lemma EndLeavesNoCopyIff(s: System, answered: nat)
    requires Inv(s) && s.batch.Some? && answered <= |s.batch.value.replies| <= |s.batch.value.sent|
    ensures Released(s, answered).src.data.Keys !! s.dst.data.Keys <==> NothingUnanswered(s.batch.value, answered, s.dst.data)
  {
    var b := s.batch.value;
    var left := s.src.data - Confirmed(b, answered);
    forall i | answered <= i < |b.replies|
      ensures b.sent[i] in left
    {
      assert b.sent[i] in b.sent;
    }
    forall i | 0 <= i < answered && b.replies[i]
      ensures b.sent[i] !in left
    {
      assert b.sent[i] in Confirmed(b, answered);
    }
  }

  lemma StepKeeps(s: System, step: Step)
    requires Inv(s) && Enabled(s, step)
    ensures Inv(Next(s, step))
  {
    match step
    case AtSource(c) => CommandKeeps(s, step);
    case AtTarget(c, asking) => CommandKeeps(s, step);
    case Restore(ok) => RestoreKeeps(s, ok);
    case EndBatch(answered) => EndKeeps(s, answered);
    case SendBatch(keys) =>
      assert keys != [] ==> keys[0] in keys;
    case _ =>
  }

  // --- every run ------------------------------------------------------------------------------

  ghost predicate IsRun(states: seq<System>, steps: seq<Step>) {
    && |states| == |steps| + 1
    && Init(states[0])
    && forall i :: 0 <= i < |steps| ==> Enabled(states[i], steps[i]) && states[i + 1] == Next(states[i], steps[i])
  }

  lemma {:induction false} RunHolds(states: seq<System>, steps: seq<Step>, i: nat)
    requires IsRun(states, steps) && i < |states|
    ensures Inv(states[i])
  {
    if i > 0 {
      hide Inv, Enabled, Next;
      RunHolds(states, steps, i - 1);
      StepKeeps(states[i - 1], steps[i - 1]);
    }
  }

  /**
   Live resharding is invisible: at every point of every run, a served command does
   to the one map, and answers, exactly what it would have done and answered on it;
   apart from expiry and eviction nothing else ever changes that map.
   */
  lemma ReshardingIsInvisible(states: seq<System>, steps: seq<Step>, i: nat)
    requires IsRun(states, steps) && i < |steps|
    ensures Explains(Seen(states[i]), EventOf(states[i], steps[i]), Seen(states[i + 1]))
  {
    RunHolds(states, steps, i);
    StepExplained(states[i], steps[i]);
  }

  /** While it is migrating, the source gains no key. */
  lemma SourceGainsNoKey(states: seq<System>, steps: seq<Step>, i: nat)
    requires IsRun(states, steps) && i < |steps| && states[i].src.migrating
    ensures states[i + 1].src.data.Keys <= states[i].src.data.Keys
  {
    RunHolds(states, steps, i);
    var s, step := states[i], steps[i];
    if step.AtSource? && Route(s.src, Source, step.c.keys, false).Serve? {
      ServedAtSource(s, step.c);
      forall k | k in states[i + 1].src.data
        ensures k in s.src.data
      {
        if k !in step.c.keys {
          ExecKeys(step.c, s.src.data, k);
        }
      }
    }
  }

  /**
   However many replies to a MIGRATE arrive and whatever they say, every key the target
   has not itself dropped is still there with its value when the source lets go.
   */
  lemma NoReplyPatternLosesAKey(states: seq<System>, steps: seq<Step>, i: nat, answered: nat, k: Key)
    requires IsRun(states, steps) && i < |states| && k in Seen(states[i])
    requires states[i].batch.Some? && answered <= |states[i].batch.value.replies| <= |states[i].batch.value.sent|
    requires k in states[i].dst.data || k !in Confirmed(states[i].batch.value, answered)
    ensures var after := Released(states[i], answered); k in Seen(after) && Seen(after)[k] == Seen(states[i])[k]
  {
    RunHolds(states, steps, i);
    EndExplained(states[i], answered);
  }

  /** Once the target owns the slot, it alone holds everything the clients see. */
  lemma TargetHoldsAll(states: seq<System>, steps: seq<Step>, i: nat)
    requires IsRun(states, steps) && i < |states| && states[i].dst.owner.Target?
    ensures Seen(states[i]) == states[i].dst.data && states[i].src.data == map[]
  {
    RunHolds(states, steps, i);
  }

  // --- why an unanswered RESTORE must not take effect -----------------------------------------------

  const Del: Data -> (Data, Bytes) := (d: Data) => (map[], [])

  function DelCmd(k: Key): (c: Cmd) {
    Cmd([k], Del)
  }

  /** The source has sent the key, and the target has restored it. */
  function Copied(k: Key, v: Val): (s: System) {
    System(Slot(Source, true, false, map[k := v]), Slot(Source, false, true, map[k := v]), {}, Some(Batch([k], [true])))
  }

  lemma CopyOne(k: Key, v: Val) returns (states: seq<System>)
    ensures |states| == 5 && Init(states[0]) && k in Seen(states[0]) && states[4] == Copied(k, v)
    ensures Enabled(states[0], Importing) && states[1] == Next(states[0], Importing)
    ensures Enabled(states[1], Migrating) && states[2] == Next(states[1], Migrating)
    ensures Enabled(states[2], SendBatch([k])) && states[3] == Next(states[2], SendBatch([k]))
    ensures Enabled(states[3], Restore(true)) && states[4] == Next(states[3], Restore(true))
  {
    var s0 := System(Slot(Source, false, false, map[k := v]), Slot(Source, false, false, map[]), {}, None);
    var s1 := Next(s0, Importing);
    var s2 := Next(s1, Migrating);
    assert [k][0] == k;
    var s3 := Next(s2, SendBatch([k]));
    var s4 := Next(s3, Restore(true));
    assert s3.dst.data[k := v] == map[k := v] && s3.batch.value.replies + [true] == [true];
    states := [s0, s1, s2, s3, s4];
  }

  lemma DeletesOne(k: Key, v: Val)
    ensures var s := Copied(k, v).(batch := None);
      && Enabled(s, AtSource(DelCmd(k))) && EventOf(s, AtSource(DelCmd(k))).Served?
      && k !in Exec(DelCmd(k), Seen(s)).0 && k in Seen(Next(s, AtSource(DelCmd(k))))
  {
    var s := Copied(k, v).(batch := None);
    MissingMeans([k], s.src.data);
    assert k in KeysOf(DelCmd(k));
  }

  /**
   If a RESTORE takes effect but its reply is lost, a later DEL served by the source
   brings the target's copy to light: the deleted key is seen again.
   */
  lemma LostReplyResurrects(k: Key, v: Val) returns (states: seq<System>)
    ensures |states| == 7 && Init(states[0]) && k in Seen(states[0])
    ensures Enabled(states[0], Importing) && states[1] == Next(states[0], Importing)
    ensures Enabled(states[1], Migrating) && states[2] == Next(states[1], Migrating)
    ensures Enabled(states[2], SendBatch([k])) && states[3] == Next(states[2], SendBatch([k]))
    ensures Enabled(states[3], Restore(true)) && states[4] == Next(states[3], Restore(true))
    ensures states[4].batch == Some(Batch([k], [true])) && states[5] == Released(states[4], 0)
    ensures var del := AtSource(DelCmd(k));
      && Enabled(states[5], del) && states[6] == Next(states[5], del) && EventOf(states[5], del).Served?
      && k !in Exec(DelCmd(k), Seen(states[5])).0 && k in Seen(states[6])
  {
    hide Init, Enabled, Next, EventOf, Exec, Seen;
    var before := CopyOne(k, v);
    DeletesOne(k, v);
    var s5 := Released(before[4], 0);
    assert s5 == Copied(k, v).(batch := None);
    states := before + [s5, Next(s5, AtSource(DelCmd(k)))];
  }
}
