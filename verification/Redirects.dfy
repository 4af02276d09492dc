/**
 What a client of a slot under migration is told, and that following what it is told gets
 its command served.
 */
module Redirects {
  import opened Prelude
  import opened Resharding

  predicate HasAll(keys: seq<Key>, d: Data) {
    forall k :: k in keys ==> k in d
  }

  predicate HasNone(keys: seq<Key>, d: Data) {
    forall k :: k in keys ==> k !in d
  }

  /**
   The source, when it can take commands: it serves what it owns and has, sends a client on
   for keys it has none of, and puts one off whose keys are split over both nodes.
   */
  lemma SourceAnswers(states: seq<System>, steps: seq<Step>, i: nat, c: Cmd)
    requires IsRun(states, steps) && i < |states| && states[i].batch.None? && c.keys != []
    ensures var s := states[i];
      && Enabled(s, AtSource(c))
      && Route(s.src, Source, c.keys, false) ==
         (if s.src.owner.Target? then Moved
          else if !s.src.migrating || HasAll(c.keys, s.src.data) then Serve
          else if HasNone(c.keys, s.src.data) then Ask
          else TryAgain)
      && (EventOf(s, AtSource(c)).Served? <==> s.src.owner.Source? && (!s.src.migrating || HasAll(c.keys, s.src.data)))
      && Next(s, AtSource(c)).asked ==
         (if s.src.owner.Source? && s.src.migrating && HasNone(c.keys, s.src.data) then s.asked + {c.keys} else s.asked)
      && (!EventOf(s, AtSource(c)).Served? ==> Next(s, AtSource(c)).src == s.src && Next(s, AtSource(c)).dst == s.dst)
  {
    RunHolds(states, steps, i);
    MissingMeans(c.keys, states[i].src.data);
    assert c.keys[0] in c.keys;
  }

  /** The target: once it owns the slot it serves everything; before, only a client that was sent to it. */
  lemma TargetAnswers(states: seq<System>, steps: seq<Step>, i: nat, c: Cmd, asking: bool)
    requires IsRun(states, steps) && i < |states| && c.keys != []
    ensures var s := states[i];
      && Route(s.dst, Target, c.keys, asking) ==
         (if s.dst.owner.Target? then Serve
          else if !(s.dst.importing && asking) then Moved
          else if |c.keys| == 1 || HasAll(c.keys, s.dst.data) then Serve
          else TryAgain)
      && (Enabled(s, AtTarget(c, asking)) ==>
          (EventOf(s, AtTarget(c, asking)).Served? <==>
           s.dst.owner.Target? || (s.dst.importing && asking && (|c.keys| == 1 || HasAll(c.keys, s.dst.data)))))
  {
    RunHolds(states, steps, i);
    MissingMeans(c.keys, states[i].dst.data);
  }

  /** Whoever holds an -ASK for one key is served by the target, whatever has happened meanwhile. */
  lemma AskedIsServed(states: seq<System>, steps: seq<Step>, i: nat, c: Cmd)
    requires IsRun(states, steps) && i < |states| && |c.keys| == 1 && c.keys in states[i].asked
    ensures Enabled(states[i], AtTarget(c, true)) && EventOf(states[i], AtTarget(c, true)).Served?
  {
    RunHolds(states, steps, i);
    TargetAnswers(states, steps, i, c, true);
  }

  /** A slot that the target owns stays its own. */
  lemma {:induction false} TargetStays(states: seq<System>, steps: seq<Step>, i: nat, j: nat)
    requires IsRun(states, steps) && i <= j < |states| && states[i].dst.owner.Target?
    ensures states[j].dst.owner.Target?
  {
    hide Enabled, Next;
    if i < j {
      TargetStays(states, steps, i, j - 1);
      assert Enabled(states[j - 1], steps[j - 1]) && states[j] == Next(states[j - 1], steps[j - 1]);
      TargetKeeps(states[j - 1], steps[j - 1]);
    }
  }

  lemma TargetKeeps(s: System, step: Step)
    requires Enabled(s, step) && s.dst.owner.Target?
    ensures Next(s, step).dst.owner.Target?
  {
  }

  /** Whoever the source has told -MOVED is served by the target from then on. */
  lemma MovedIsServed(states: seq<System>, steps: seq<Step>, i: nat, j: nat, c: Cmd)
    requires IsRun(states, steps) && i <= j < |states| && c.keys != [] && Route(states[i].src, Source, c.keys, false).Moved?
    ensures Enabled(states[j], AtTarget(c, false)) && EventOf(states[j], AtTarget(c, false)).Served?
  {
    RunHolds(states, steps, i);
    MissingMeans(c.keys, states[i].src.data);
    TargetStays(states, steps, i, j);
    TargetAnswers(states, steps, j, c, false);
  }

  /**
   A command with one key that the source can take is served there, or else by the target
   after the one redirect the source gives.
   */
  lemma OneRedirect(states: seq<System>, steps: seq<Step>, i: nat, c: Cmd)
    requires IsRun(states, steps) && i < |states| && states[i].batch.None? && |c.keys| == 1
    ensures var s := states[i];
      && Enabled(s, AtSource(c))
      && var t, asking := Next(s, AtSource(c)), s.src.owner.Source?;
      || EventOf(s, AtSource(c)).Served?
      || (Enabled(t, AtTarget(c, asking)) && EventOf(t, AtTarget(c, asking)).Served?)
  {
    SourceAnswers(states, steps, i, c);
    var s := states[i];
    if !EventOf(s, AtSource(c)).Served? {
      var more, taken := states[..i + 1] + [Next(s, AtSource(c))], steps[..i] + [AtSource(c)];
      Extends(states, steps, i, AtSource(c));
      if s.src.owner.Source? {
        assert HasAll(c.keys, s.src.data) || HasNone(c.keys, s.src.data);
        AskedIsServed(more, taken, i + 1, c);
      } else {
        MovedIsServed(more, taken, i, i + 1, c);
      }
    }
  }

  lemma Extends(states: seq<System>, steps: seq<Step>, i: nat, step: Step)
    requires IsRun(states, steps) && i < |states| && Enabled(states[i], step)
    ensures IsRun(states[..i + 1] + [Next(states[i], step)], steps[..i] + [step])
  {
    hide Enabled, Next;
  }

  /** A client that comes to the target first is served there, or sent to the source: then at most one redirect is left. */
  lemma TargetFirst(states: seq<System>, steps: seq<Step>, i: nat, c: Cmd)
    requires IsRun(states, steps) && i < |states| && c.keys != []
    ensures Enabled(states[i], AtTarget(c, false))
    ensures EventOf(states[i], AtTarget(c, false)).Served? || states[i].src.owner.Source?
  {
    RunHolds(states, steps, i);
    TargetAnswers(states, steps, i, c, false);
  }
}
