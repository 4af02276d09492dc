/** What becomes of each client write during a planned handover, and that a handover can always be brought to its end in time. */
module Handover {
  import opened Prelude
  import opened ManualFailover

  /** The master is pausing: the request has come, and since then neither the end of the pause nor a claim. */
  ghost predicate Pausing(steps: seq<Step>, i: nat)
    requires i <= |steps|
  {
    i > 0 && (steps[i - 1].GetsMfStart? || (!steps[i - 1].MasterTimesOut? && !steps[i - 1].GetsClaim? && Pausing(steps, i - 1)))
  }

  ghost predicate Demoted(steps: seq<Step>, i: nat)
    requires i <= |steps|
  {
    exists j :: 0 <= j < i && steps[j].GetsClaim?
  }

  lemma {:induction false} RoleByRun(states: seq<State>, steps: seq<Step>, i: nat)
    requires IsRun(states, steps) && i < |states|
    ensures states[i].m.paused == Pausing(steps, i) && states[i].m.demoted == Demoted(steps, i)
  {
    if i > 0 {
      RoleByRun(states, steps, i - 1);
      assert Enabled(states[i - 1], steps[i - 1]) && states[i] == Next(states[i - 1], steps[i - 1]);
      if steps[i - 1].GetsClaim? {
        assert Demoted(steps, i);
      }
    }
  }

  /** The replica has asked, and since then neither given up nor taken over. */
  ghost predicate Attempting(steps: seq<Step>, i: nat)
    requires i <= |steps|
  {
    i > 0 && (steps[i - 1].Asks? || (!steps[i - 1].ReplicaTimesOut? && !steps[i - 1].Promotes? && Attempting(steps, i - 1)))
  }

  /** An attempt lasts until the replica gives up or takes over, and leaves nothing behind that a late report could revive. */
  lemma {:induction false} AttemptByRun(states: seq<State>, steps: seq<Step>, i: nat)
    requires IsRun(states, steps) && i < |states|
    ensures states[i].r.mf == Attempting(steps, i)
    ensures !Attempting(steps, i) ==> states[i].r.mfOffset.None? && !states[i].r.canStart
    ensures states[i].r.promoted <==> exists j :: 0 <= j < i && steps[j].Promotes?
  {
    hide Enabled, Next;
    if i > 0 {
      AttemptByRun(states, steps, i - 1);
      assert Enabled(states[i - 1], steps[i - 1]) && states[i] == Next(states[i - 1], steps[i - 1]);
      AttemptStep(states[i - 1], steps[i - 1]);
    }
  }

  lemma AttemptStep(s: State, step: Step)
    requires Enabled(s, step)
    ensures var r := Next(s, step).r;
      && r.mf == (step.Asks? || (s.r.mf && !step.ReplicaTimesOut? && !step.Promotes?))
      && (r.mfOffset.Some? || r.canStart ==> r.mf || s.r.mfOffset.Some? || s.r.canStart)
      && (step.ReplicaTimesOut? || step.Promotes? ==> r.mfOffset.None? && !r.canStart)
      && r.promoted == (s.r.promoted || step.Promotes?)
  {
  }

  /** A client's write runs at once exactly if the master is neither pausing nor demoted; else it is held, or sent to the new master. */
  lemma WriteFate(states: seq<State>, steps: seq<Step>, i: nat, w: Write)
    requires IsRun(states, steps) && i < |steps| && steps[i] == ClientWrites(w)
    ensures var m, r := states[i].m, states[i + 1].m;
      && r.stream == (if !Pausing(steps, i) && !Demoted(steps, i) then m.stream + [w] else m.stream)
      && r.held == (if Pausing(steps, i) then m.held + [w] else m.held)
      && r.redirected == (if !Pausing(steps, i) && Demoted(steps, i) then m.redirected + [w] else m.redirected)
  {
    RoleByRun(states, steps, i);
    assert Enabled(states[i], steps[i]) && states[i + 1] == Next(states[i], steps[i]);
  }

  // --- bringing it to an end -------------------------------------------------------------

  lemma OneStep(s: State, step: Step) returns (states: seq<State>, steps: seq<Step>)
    requires Enabled(s, step)
    ensures |states| == |steps| + 1 && Path(states, steps) && states == [s, Next(s, step)] && steps == [step]
  {
    states, steps := [s, Next(s, step)], [step];
  }

  lemma NoStep(s: State) returns (states: seq<State>, steps: seq<Step>)
    ensures |states| == |steps| + 1 && Path(states, steps) && states == [s] && steps == []
  {
    states, steps := [s], [];
  }

  lemma Joined(a: seq<State>, p: seq<Step>, b: seq<State>, q: seq<Step>) returns (states: seq<State>, steps: seq<Step>)
    requires Path(a, p) && Path(b, q) && a[|p|] == b[0]
    ensures |states| == |steps| + 1 && Path(states, steps) && states[0] == a[0] && states[|steps|] == b[|q|] && steps == p + q
  {
    hide Enabled, Next;
    PathsJoin(a, p, b, q);
    states, steps := a + b[1..], p + q;
  }

  /** The replica applies the rest of the stream. */
  lemma {:induction false} CatchesUp(s: State) returns (states: seq<State>, steps: seq<Step>)
    requires !s.r.promoted && s.r.applied <= s.m.stream
    ensures |states| == |steps| + 1 && Path(states, steps) && states[0] == s && (forall x :: x in steps ==> x == Replicates)
    ensures states[|steps|] == s.(r := s.r.(applied := s.m.stream))
    decreases |s.m.stream| - |s.r.applied|
  {
    if |s.r.applied| == |s.m.stream| {
      states, steps := NoStep(s);
    } else {
      var a, p := OneStep(s, Replicates);
      var t := a[1];
      assert t.r.applied == s.m.stream[..|s.r.applied| + 1];
      var b, q := CatchesUp(t);
      states, steps := Joined(a, p, b, q);
    }
  }

  lemma ToldRight(s: State)
    requires Inv(s) && s.m.paused
    ensures !s.m.demoted && (s.r.mfOffset.Some? ==> s.r.mfOffset.value == |s.m.stream|)
  {
  }

  /** The paused master reports its offset. */
  lemma LearnsOffset(s: State) returns (states: seq<State>, steps: seq<Step>)
    requires s.m.paused && !s.m.demoted && s.r.mf && s.r.mfOffset.None?
    ensures |states| == 3 && steps == [Pings, GetsPing(true, |s.m.stream|)] && Path(states, steps) && states[0] == s
    ensures states[2] == s.(r := s.r.(mfOffset := Some(|s.m.stream|)), net := s.net + {Ping(true, |s.m.stream|)})
  {
    var t := Next(s, Pings);
    states, steps := [s, t, Next(t, GetsPing(true, |s.m.stream|))], [Pings, GetsPing(true, |s.m.stream|)];
  }

  /** The replica learns the final offset and sees that it has applied it. */
  lemma GetsReady(s: State) returns (states: seq<State>, steps: seq<Step>)
    requires Inv(s) && s.m.paused && s.r.mf && !s.r.promoted && s.r.applied == s.m.stream
    ensures |states| == |steps| + 1 && Path(states, steps) && states[0] == s && NoTimePasses(steps)
    ensures var t := states[|steps|];
      t.m == s.m && t.r.mf && t.r.canStart && !t.r.promoted && t.r.applied == s.r.applied && t.now == s.now
  {
    hide Path, Inv;
    ToldRight(s);
    if s.r.mfOffset.None? {
      states, steps := LearnsOffset(s);
    } else {
      states, steps := NoStep(s);
    }
    var t := states[|steps|];
    if !t.r.canStart {
      var a, p := OneStep(t, ChecksOffset);
      states, steps := Joined(states, steps, a, p);
    }
  }

  ghost predicate NoTimePasses(steps: seq<Step>) {
    forall x :: x in steps ==> !x.Tick? && !x.ClientWrites? && !x.Heartbeats?
  }

  /** Once demoted, the old master sends every held write on, in order. */
  lemma {:induction false} SendsOn(s: State) returns (states: seq<State>, steps: seq<Step>)
    requires s.m.demoted && !s.m.paused
    ensures |states| == |steps| + 1 && Path(states, steps) && states[0] == s && (forall x :: x in steps ==> x == Resumes)
    ensures states[|steps|] == s.(m := s.m.(held := [], redirected := s.m.redirected + s.m.held))
    decreases |s.m.held|
  {
    if s.m.held == [] {
      assert s.m.redirected + [] == s.m.redirected;
      states, steps := NoStep(s);
    } else {
      var a, p := OneStep(s, Resumes);
      var b, q := SendsOn(a[1]);
      assert s.m.redirected + [s.m.held[0]] + s.m.held[1..] == s.m.redirected + s.m.held;
      states, steps := Joined(a, p, b, q);
    }
  }

  /** A replica that is ready is promoted, and its claim demotes the old master. */
  lemma TakesOver(s: State) returns (states: seq<State>, steps: seq<Step>)
    requires s.m.paused && s.r.mf && s.r.canStart && !s.r.promoted && s.now <= s.m.mfEnd
    ensures |states| == |steps| + 1 && Path(states, steps) && states[0] == s && NoTimePasses(steps)
    ensures var t := states[|steps|];
      && t.r.promoted && t.r.inTime && t.r.applied == s.r.applied && t.m.demoted && !t.m.paused && t.m.stream == s.m.stream
      && t.m.held == [] && t.m.redirected == s.m.redirected + s.m.held
  {
    hide Path;
    var a, p := OneStep(s, Promotes);
    var b, q := OneStep(a[1], GetsClaim);
    states, steps := Joined(a, p, b, q);
    b, q := SendsOn(b[1]);
    states, steps := Joined(states, steps, b, q);
  }

  /**
   From every reachable state in which the master is paused and the replica is waiting, with
   time left, the handover can be finished without any more time passing: the replica is
   promoted in time with the whole stream, and every held write is sent on to it.
   */
  lemma HandoverCanFinish(states: seq<State>, steps: seq<Step>, i: nat) returns (more: seq<State>, taken: seq<Step>)
    requires IsRun(states, steps) && i < |states|
    requires var s := states[i]; s.m.paused && s.r.mf && !s.r.promoted && s.now <= s.m.mfEnd
    ensures |more| == |taken| + 1 && Path(more, taken) && more[0] == states[i] && NoTimePasses(taken)
    ensures var s, t := states[i], more[|taken|];
      && t.r.promoted && t.r.inTime && t.m.demoted && t.r.applied == t.m.stream == s.m.stream
      && t.m.held == [] && t.m.redirected == s.m.redirected + s.m.held
  {
    hide Path, Inv, Enabled, Next;
    RunHolds(states, steps, i);
    var s := states[i];
    CatchingUpKeeps(s);
    more, taken := CatchesUp(s);
    var a, p := GetsReady(more[|taken|]);
    more, taken := Joined(more, taken, a, p);
    a, p := TakesOver(more[|taken|]);
    more, taken := Joined(more, taken, a, p);
  }

  lemma CatchingUpKeeps(s: State)
    requires Inv(s) && s.m.paused && !s.r.promoted
    ensures s.r.applied <= s.m.stream && Inv(s.(r := s.r.(applied := s.m.stream)))
  {
  }
}
