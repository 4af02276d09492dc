/** Rewriting the log in the background: when a rewrite is under way, and what it leaves behind. */
module Rewrite {
  import opened Prelude
  import opened Resp
  import opened Aof

  /** What ends a rewrite: its child failed, its base was committed, or the server crashed. */
  predicate Ends(step: Step) {
    step.ChildGone? || step.CommitBase? || step.CrashAndLoad?
  }

  /** A child has been forked, and nothing has ended its rewrite since. */
  predicate Rewriting(steps: seq<Step>, i: nat)
    requires i <= |steps|
  {
    i > 0 && (steps[i - 1] == CommitIncr(true) || (!Ends(steps[i - 1]) && Rewriting(steps, i - 1)))
  }

  /** The step that forked the child. */
  function ForkedAt(steps: seq<Step>, i: nat): (j: nat)
    requires i <= |steps| && Rewriting(steps, i)
    ensures j < i && steps[j] == CommitIncr(true) && forall k :: j < k < i ==> !Ends(steps[k])
  {
    if steps[i - 1] == CommitIncr(true) then i - 1 else ForkedAt(steps, i - 1)
  }

  /** The commands fed by the steps from one to another. */
  function Fed(steps: seq<Step>, first: nat, end: nat): (cmds: seq<Argv>)
    requires first <= end <= |steps|
    decreases end
  {
    if first == end then [] else Fed(steps, first, end - 1) + if steps[end - 1].Feed? then [steps[end - 1].argv] else []
  }

  lemma ChildStep(s: State, step: Step)
    requires Inv(s) && Enabled(s, step)
    ensures Next(s, step).child == if step == CommitIncr(true) then Some(Served(s)) else if Ends(step) then None else s.child
  {
    hide Inv, Served, Drain, DrainParts, NextSeq, AfterCrash;
  }

  lemma LogStep(s: State, step: Step)
    requires Inv(s) && Enabled(s, step) && !step.CrashAndLoad? && !step.CommitReset?
    ensures s.parts != [] && Next(s, step).parts != []
    ensures End(Next(s, step).parts) ==
      match step
      case Feed(argv) => End(s.parts) + [argv]
      case CommitIncr(_) => []
      case _ => End(s.parts)
  {
    hide Inv, Served;
  }

  /**
   A child is at work exactly while a rewrite is under way. Its dataset is the one served
   when it was forked, and the last log holds exactly what was fed since.
   */
  lemma {:induction false} ChildByRun(states: seq<State>, steps: seq<Step>, i: nat)
    requires IsRun(states, steps) && i < |states|
    ensures states[i].child.Some? <==> Rewriting(steps, i)
    ensures Rewriting(steps, i) ==>
      var j := ForkedAt(steps, i);
      && states[i].child == Some(Served(states[j]))
      && states[i].parts != [] && End(states[i].parts) == Fed(steps, j + 1, i)
  {
    hide Enabled, Next, Inv, Served, Ends;
    if i > 0 {
      var s, step := states[i - 1], steps[i - 1];
      RunStep(states, steps, i - 1);
      RunHolds(states, steps, i - 1);
      ChildByRun(states, steps, i - 1);
      ChildStep(s, step);
      if Rewriting(steps, i) {
        NoResetBeside(s, step);
        LogStep(s, step);
      }
    }
  }

  lemma NoResetBeside(s: State, step: Step)
    requires Enabled(s, step)
    ensures s.child.Some? ==> !step.CommitReset? && !step.CommitIncr?
    ensures step.CrashAndLoad? ==> Ends(step)
  {
  }

  /**
   A finished rewrite leaves one base and one log: the base is the dataset served at the
   fork, the log what was fed since, and together they are what is served.
   */
  lemma RewriteCompacts(states: seq<State>, steps: seq<Step>, i: nat)
    requires IsRun(states, steps) && i < |steps| && steps[i] == CommitBase
    ensures Rewriting(steps, i)
    ensures var j, t := ForkedAt(steps, i), states[i + 1];
      && t.disk.manifest == t.manifest && |t.manifest.incrs| == 1 && t.child.None?
      && BaseImage(t.disk, t.manifest) == Served(states[j]) && t.parts == [Fed(steps, j + 1, i)]
      && Served(t) == Served(states[i]) == Served(states[j]) + Fed(steps, j + 1, i)
  {
    hide Enabled, Next, Inv, Served, BaseImage, Rewriting, Ends;
    RunStep(states, steps, i);
    RunHolds(states, steps, i);
    BaseStep(states[i]);
    ChildByRun(states, steps, i);
    CommitBaseKeeps(states[i]);
    OneLog(states[i + 1]);
  }

  lemma BaseStep(s: State)
    requires Inv(s) && Enabled(s, CommitBase)
    ensures var t := Next(s, CommitBase);
      && s.child.Some? && s.parts != [] && t.disk.manifest == t.manifest && |t.manifest.incrs| == 1 && t.child.None?
      && BaseImage(t.disk, t.manifest) == s.child.value && t.parts == [End(s.parts)]
  {
    hide Inv, Served;
  }

  lemma OneLog(t: State)
    requires |t.parts| == 1
    ensures Served(t) == BaseImage(t.disk, t.manifest) + t.parts[0]
  {
    hide BaseImage;
    assert Flatten(t.parts) == t.parts[0] + Flatten(t.parts[1..]);
  }
}
