/** The admin tool's slot migration, as a run of the steps of module Resharding. */
module MigrateSlot {
  import opened Prelude
  import opened Resharding

  /** Consecutive states, each reached by an allowed step. */
  ghost predicate Path(states: seq<System>, steps: seq<Step>) {
    && |states| == |steps| + 1
    && forall i :: 0 <= i < |steps| ==> Enabled(states[i], steps[i]) && states[i + 1] == Next(states[i], steps[i])
  }

  lemma PathOf(states: seq<System>, steps: seq<Step>)
    requires |states| == 2 && |steps| == 1 && Enabled(states[0], steps[0]) && states[1] == Next(states[0], steps[0])
    ensures Path(states, steps)
  {
    hide Enabled, Next;
  }

  lemma PathRuns(states: seq<System>, steps: seq<Step>)
    requires Path(states, steps) && Init(states[0])
    ensures IsRun(states, steps)
  {
    hide Enabled, Next, Init;
  }

  lemma PathGrows(states: seq<System>, steps: seq<Step>, step: Step)
    requires Path(states, steps) && Enabled(states[|steps|], step)
    ensures Path(states + [Next(states[|steps|], step)], steps + [step])
  {
    hide Enabled, Next;
  }

  lemma PathJoins(a: seq<System>, p: seq<Step>, b: seq<System>, q: seq<Step>)
    requires Path(a, p) && Path(b, q) && a[|p|] == b[0]
    ensures Path(a + b[1..], p + q) && (a + b[1..])[|p + q|] == b[|q|]
  {
    hide Enabled, Next;
    var states, steps := a + b[1..], p + q;
    forall i | 0 <= i < |steps|
      ensures Enabled(states[i], steps[i]) && states[i + 1] == Next(states[i], steps[i])
    {
      if i >= |p| {
        assert states[i] == b[i - |p|] && states[i + 1] == b[i - |p| + 1] && steps[i] == q[i - |p|];
      }
    }
  }

  /** CLUSTER GETKEYSINSLOT: up to `max` of the slot's keys. */
  method KeysInSlot(d: Data, max: nat) returns (keys: seq<Key>)
    ensures Distinct(keys) && |keys| == Min(max, |d|)
    ensures forall k :: k in keys ==> k in d
  {
    keys := [];
    var left := d.Keys;
    while |keys| < max && left != {}
      invariant left <= d.Keys && Distinct(keys) && |keys| <= max && |keys| + |left| == |d.Keys|
      invariant forall k :: k in keys ==> k in d && k !in left
      decreases |left|
    {
      var k :| k in left;
      keys := keys + [k];
      left := left - {k};
    }
    assert |d| == |d.Keys|;
  }

  function Restored(t: System, k: Key): (r: System)
    requires t.batch.Some? && k in t.src.data
  {
    var b := t.batch.value;
    t.(batch := Some(b.(replies := b.replies + [true])), dst := t.dst.(data := t.dst.data[k := t.src.data[k]]))
  }

  lemma RestoreStep(t: System)
    requires Inv(t) && t.batch.Some? && |t.batch.value.replies| < |t.batch.value.sent|
    ensures var k := t.batch.value.sent[|t.batch.value.replies|];
      && k in t.src.data && Enabled(t, Restore(true)) && Next(t, Restore(true)) == Restored(t, k)
      && Inv(Restored(t, k)) && Seen(Restored(t, k)) == Seen(t)
  {
    assert t.batch.value.sent[|t.batch.value.replies|] in t.batch.value.sent;
    StepKeeps(t, Restore(true));
    StepExplained(t, Restore(true));
  }

  lemma EndStep(t: System, keys: seq<Key>)
    requires Inv(t) && t.batch.Some? && t.batch.value.sent == keys && |t.batch.value.replies| == |keys|
    requires forall j :: 0 <= j < |keys| ==> t.batch.value.replies[j] && keys[j] in t.dst.data
    ensures var r := t.(batch := None, src := t.src.(data := t.src.data - (set k | k in keys)));
      && Enabled(t, EndBatch(|keys|)) && Next(t, EndBatch(|keys|)) == r && Inv(r) && Seen(r) == Seen(t)
  {
    AllConfirmed(t.batch.value, keys);
    StepKeeps(t, EndBatch(|keys|));
    EndExplained(t, |keys|);
    assert (set k | k in keys) - t.dst.data.Keys == {};
    assert Seen(t) - {} == Seen(t);
  }

  lemma SendStep(s: System, keys: seq<Key>)
    requires Inv(s) && s.batch.None? && s.src.owner.Source? && s.src.migrating
    requires keys != [] && Distinct(keys) && forall k :: k in keys ==> k in s.src.data
    ensures var t := s.(batch := Some(Batch(keys, [])));
      && Enabled(s, SendBatch(keys)) && Next(s, SendBatch(keys)) == t && Inv(t) && Seen(t) == Seen(s)
  {
    StepKeeps(s, SendBatch(keys));
  }

  /** One MIGRATE whose every RESTORE succeeds and is answered in time. */
  method MoveBatch(s: System, keys: seq<Key>) returns (t: System, ghost states: seq<System>, ghost steps: seq<Step>)
    requires Inv(s) && s.batch.None? && s.src.owner.Source? && s.src.migrating
    requires keys != [] && Distinct(keys) && forall k :: k in keys ==> k in s.src.data
    ensures |states| == |steps| + 1 && Path(states, steps) && states[0] == s && states[|steps|] == t && Inv(t)
    ensures t.src == s.src.(data := s.src.data - (set k | k in keys)) && t.batch.None? && t.asked == s.asked
    ensures t.dst == s.dst.(data := t.dst.data) && Seen(t) == Seen(s)
  {
    hide Inv, Enabled, Next, Seen, Path;
    SendStep(s, keys);
    t := s.(batch := Some(Batch(keys, [])));
    states, steps := [s, t], [SendBatch(keys)];
    PathOf(states, steps);
    var i := 0;
    while i < |keys|
      invariant 0 <= i <= |keys| && |states| == |steps| + 1 && Path(states, steps) && states[0] == s && states[|steps|] == t && Inv(t)
      invariant t.batch.Some? && t.batch.value.sent == keys && |t.batch.value.replies| == i
      invariant forall j :: 0 <= j < i ==> t.batch.value.replies[j] && keys[j] in t.dst.data
      invariant t.src == s.src && t.asked == s.asked && t.dst == s.dst.(data := t.dst.data) && Seen(t) == Seen(s)
    {
      RestoreStep(t);
      PathGrows(states, steps, Restore(true));
      t := Restored(t, keys[i]);
      states, steps := states + [t], steps + [Restore(true)];
      i := i + 1;
    }
    EndStep(t, keys);
    PathGrows(states, steps, EndBatch(i));
    t := t.(batch := None, src := t.src.(data := t.src.data - (set k | k in keys)));
    states, steps := states + [t], steps + [EndBatch(i)];
  }

  lemma AllConfirmed(b: Batch, keys: seq<Key>)
    requires b.sent == keys && |b.replies| == |keys| && forall j :: 0 <= j < |keys| ==> b.replies[j]
    ensures Confirmed(b, |keys|) == set k | k in keys
  {
    forall k | k in keys
      ensures k in Confirmed(b, |keys|)
    {
      var j :| 0 <= j < |keys| && keys[j] == k;
      assert b.replies[j] && b.sent[j] == k;
    }
  }

  lemma SeqSetSize(keys: seq<Key>)
    requires Distinct(keys)
    ensures |set k | k in keys| == |keys|
  {
    if keys != [] {
      var rest := keys[1..];
      SeqSetSize(rest);
      assert (set k | k in keys) == {keys[0]} + (set k | k in rest);
      assert keys[0] !in rest;
    }
  }

  function Opened(start: System): (s: System) {
    start.(dst := start.dst.(importing := true), src := start.src.(migrating := true))
  }

  lemma OpenSteps(start: System) returns (states: seq<System>, steps: seq<Step>)
    requires Init(start)
    ensures |states| == 3 && steps == [Importing, Migrating] && Path(states, steps)
    ensures states[0] == start && states[2] == Opened(start) && Inv(Opened(start))
    ensures Opened(start).src == Slot(Source, true, false, start.src.data) && Opened(start).batch.None?
    ensures Opened(start).dst == Slot(Source, false, true, map[]) && Seen(start) == Seen(Opened(start)) == start.src.data
  {
    var s := start.(dst := start.dst.(importing := true));
    states, steps := [start, s, Opened(start)], [Importing, Migrating];
  }

  lemma CloseSteps(s: System) returns (states: seq<System>, steps: seq<Step>)
    requires s.batch.None? && s.src == Slot(Source, true, false, map[]) && s.dst == Slot(Source, false, true, s.dst.data)
    ensures |states| == 3 && steps == [TargetOwns, SourceYields] && Path(states, steps) && states[0] == s
    ensures states[2].src == Slot(Target, false, false, map[]) && states[2].dst == Slot(Target, false, false, s.dst.data)
    ensures states[2].batch.None? && states[2].asked == s.asked && Seen(s) == s.dst.data
  {
    var t := s.(dst := s.dst.(owner := Target, importing := false));
    states, steps := [s, t, t.(src := Slot(Target, false, false, map[]))], [TargetOwns, SourceYields];
  }

  /**
   migrate_slot(): with nobody else interfering, it terminates, its steps are a run,
   every key ends up on the target and `moved` counts them all.
   */
  method MigrateSlot(start: System, batch: nat) returns (moved: nat, end: System, ghost states: seq<System>, ghost steps: seq<Step>)
    requires Init(start) && batch > 0
    ensures IsRun(states, steps) && states[0] == start && states[|steps|] == end
    ensures end.src.owner.Target? && end.dst.owner.Target? && end.src.data == map[]
    ensures end.dst.data == start.src.data && moved == |start.src.data|
  {
    hide Inv, Enabled, Next, Seen, Path, Init;
    states, steps := OpenSteps(start);
    var s := Opened(start);
    moved := 0;
    while s.src.data != map[]
      invariant |states| == |steps| + 1 && Path(states, steps) && states[0] == start && states[|steps|] == s && Inv(s)
      invariant s.batch.None? && s.src == Slot(Source, true, false, s.src.data) && s.dst == Slot(Source, false, true, s.dst.data)
      invariant Seen(s) == Seen(start) && moved + |s.src.data| == |start.src.data|
      decreases |s.src.data|
    {
      var keys := KeysInSlot(s.src.data, batch);
      var t, more, taken := MoveBatch(s, keys);
      SeqSetSize(keys);
      ShrinksBy(s.src.data, set k | k in keys);
      PathJoins(states, steps, more, taken);
      moved := moved + |keys|;
      s, states, steps := t, states + more[1..], steps + taken;
    }
    ghost var more, taken := CloseSteps(s);
    PathJoins(states, steps, more, taken);
    end := System(Slot(Target, false, false, map[]), Slot(Target, false, false, s.dst.data), s.asked, None);
    assert end == more[2];
    states, steps := states + more[1..], steps + taken;
    PathRuns(states, steps);
  }

  lemma ShrinksBy(d: Data, ks: set<Key>)
    requires ks <= d.Keys
    ensures |d - ks| == |d| - |ks|
  {
    assert (d - ks).Keys == d.Keys - ks;
    assert |d.Keys - ks| == |d.Keys| - |ks|;
  }
}
