/**
 What a packet teaches its receiver about epochs, and when a master's claim arrives under
 the epoch that the receiver has on record for it.
 */
module Records {
  import opened Prelude
  import opened ClusterBus

  /** The sender's entry after a packet from it, whatever the packet is for. */
  function Heard(n: Node, m: Msg): (config: map<NodeId, nat>) {
    n.config[m.src := if m.config > Epoch(n, m.src) then m.config else Epoch(n, m.src)]
  }

  /**
   A packet from a known node raises that node's recorded epoch and the current epoch to
   what it carries. Nothing else changes but what its kind is for: news of a third node, a
   colliding master moving on, a vote counted, a vote given. A stranger's packet changes nothing.
   */
  lemma PacketTeaches(voters: set<NodeId>, n: Node, m: Msg, verdict: Verdict)
    requires m.src != m.dst
    ensures var r := Receive(voters, n, m, verdict);
      var config, current := Heard(n, m), if m.current > n.current then m.current else n.current;
      if m.src !in n.config then r == n
      else match m.kind
        case Notice => r == n.(current := current, config := config)
        case Update(about, epoch) =>
          r == n.(current := current, config := if about in config && config[about] < epoch then config[about := epoch] else config)
        case Ping =>
          if n.master == m.dst && !m.replica && config[m.src] == Epoch(n, m.dst) && m.dst < m.src
          then r == n.(current := current + 1, config := config[m.dst := current + 1])
          else r == n.(current := current, config := config)
        case AuthAck =>
          var counts := m.src in voters && n.auth.sent && m.current >= n.auth.epoch;
          r == n.(current := current, config := config, auth := n.auth.(count := n.auth.count + if counts then 1 else 0))
        case AuthRequest =>
          var may := m.dst in voters && m.current >= n.current && n.lastVote != current;
          if !may || verdict.Refused? then r == n.(current := current, config := config)
          else if verdict.SaveFailed? then r == n.(current := current, config := config, lastVote := 0)
          else r == n.(current := current, config := config, lastVote := current, saved := Saved(current, current, config))
  {
  }

  /** A vote is sent exactly by a slot-serving master that knows the candidate, is not ahead of it and has not voted in its epoch. */
  lemma VoteSentIff(voters: set<NodeId>, n: Node, m: Msg, verdict: Verdict)
    ensures SendsVote(voters, n, m, verdict) <==>
      && m.kind.AuthRequest? && m.src in n.config && verdict.Granted? && m.dst in voters
      && m.current >= n.current && n.lastVote != m.current
  {
  }

  /** A vote that arrives is counted exactly if a voter gave it, for the election under way. */
  lemma VoteCountedIff(voters: set<NodeId>, n: Node, m: Msg)
    ensures HearsVote(voters, n, m) <==>
      m.kind.AuthAck? && m.src in n.config && m.src in voters && n.auth.sent && m.current >= n.auth.epoch
  {
  }

  // --- over runs ----------------------------------------------------------------------

  /** The epoch a master claims its slots under. */
  function Own(s: System, k: NodeId): (e: nat)
    requires k in s.nodes
  {
    Epoch(s.nodes[k], k)
  }

  /** Nobody knows, has saved or is being told of a later epoch of `k` than `e`. */
  predicate NoneAbove(s: System, k: NodeId, e: nat) {
    && (forall n :: n in s.nodes ==> KnowsUpTo(s.nodes[n], k, e))
    && (forall m :: m in s.net ==> TellsUpTo(m, k, e))
  }

  predicate KnowsUpTo(n: Node, k: NodeId, e: nat) {
    Epoch(n, k) <= e && (k in n.saved.config ==> n.saved.config[k] <= e)
  }

  predicate TellsUpTo(m: Msg, k: NodeId, e: nat) {
    (m.src == k ==> m.config <= e) && (m.kind.Update? && m.kind.about == k ==> m.kind.epoch <= e)
  }

  /** From the start on `k` is a master whose epoch never falls, and nobody starts with a later one on record. */
  ghost predicate Steady(voters: set<NodeId>, states: seq<System>, steps: seq<Step>, k: NodeId) {
    && IsRun(voters, states, steps)
    && (forall i :: 0 <= i < |states| ==> k in states[i].nodes && states[i].nodes[k].master == k)
    && (forall i :: 0 <= i < |steps| ==> Own(states[i], k) <= Own(states[i + 1], k))
    && NoneAbove(states[0], k, Own(states[0], k))
  }

  lemma ReceiveUpTo(voters: set<NodeId>, n: Node, m: Msg, verdict: Verdict, k: NodeId, e: nat)
    requires KnowsUpTo(n, k, e) && TellsUpTo(m, k, e) && m.dst != k
    ensures KnowsUpTo(Receive(voters, n, m, verdict), k, e)
  {
  }

  lemma ReceiveSaved(voters: set<NodeId>, n: Node, m: Msg, verdict: Verdict, k: NodeId)
    ensures var r := Receive(voters, n, m, verdict); r.saved == n.saved || r.saved.config == r.config
  {
  }

  lemma HigherBound(s: System, k: NodeId, e: nat, e': nat)
    requires NoneAbove(s, k, e) && e <= e'
    ensures NoneAbove(s, k, e')
  {
  }

  /** Whatever happens to the node itself stays within its own epoch. */
  lemma SelfUpTo(voters: set<NodeId>, s: System, step: Step, k: NodeId, e: nat)
    requires Enabled(voters, s, step) && k in s.nodes && NoneAbove(s, k, e) && e <= Own(Next(voters, s, step), k)
    ensures KnowsUpTo(Next(voters, s, step).nodes[k], k, Own(Next(voters, s, step), k))
  {
    hide Receive, SendsVote, HearsVote, Header, IsMaxEpoch;
    if step.Deliver? {
      ReceiveSaved(voters, s.nodes[step.m.dst], step.m, step.verdict, k);
    }
  }

  lemma OtherUpTo(voters: set<NodeId>, s: System, step: Step, k: NodeId, e: nat, n: NodeId)
    requires Enabled(voters, s, step) && n in s.nodes && n != k && NoneAbove(s, k, e)
    ensures KnowsUpTo(Next(voters, s, step).nodes[n], k, e)
  {
    hide Receive, SendsVote, HearsVote, Header, IsMaxEpoch;
    assert KnowsUpTo(s.nodes[n], k, e);
    if step.Deliver? && step.m.dst == n {
      assert TellsUpTo(step.m, k, e);
      ReceiveUpTo(voters, s.nodes[n], step.m, step.verdict, k, e);
    }
  }

  lemma HeaderUpTo(n: Node, me: NodeId, dst: NodeId, kind: Kind, k: NodeId, e: nat)
    requires (me == k ==> n.master == me) && KnowsUpTo(n, k, e)
    requires kind.Update? ==> kind.about in n.config && kind.epoch == n.config[kind.about]
    ensures TellsUpTo(Header(n, me, dst, kind), k, e)
  {
  }

  lemma NetUpTo(voters: set<NodeId>, s: System, step: Step, k: NodeId, e: nat)
    requires Enabled(voters, s, step) && k in s.nodes && NoneAbove(s, k, e)
    requires s.nodes[k].master == k && Next(voters, s, step).nodes[k].master == k
    requires forall n :: n in s.nodes ==> KnowsUpTo(Next(voters, s, step).nodes[n], k, e)
    ensures forall m :: m in Next(voters, s, step).net ==> TellsUpTo(m, k, e)
  {
    hide Receive, SendsVote, HearsVote, Header, IsMaxEpoch, KnowsUpTo, TellsUpTo;
    var s' := Next(voters, s, step);
    match step
    case Send(n, dst, kind) => HeaderUpTo(s.nodes[n], n, dst, kind, k, e);
    case Deliver(m, verdict) => HeaderUpTo(s'.nodes[m.dst], m.dst, m.src, AuthAck, k, e);
    case Elect(n, asked) =>
      forall d | d in asked
        ensures TellsUpTo(Header(s'.nodes[n], n, d, AuthRequest), k, e)
      {
        HeaderUpTo(s'.nodes[n], n, d, AuthRequest, k, e);
      }
    case _ =>
  }

  /** A steady master's epoch is the highest anybody has on record for it, or is being told of. */
  lemma {:induction false} RecordsNeverAbove(voters: set<NodeId>, states: seq<System>, steps: seq<Step>, k: NodeId, i: nat)
    requires Steady(voters, states, steps, k) && i < |states|
    ensures NoneAbove(states[i], k, Own(states[i], k))
  {
    hide Enabled, Next, NoneAbove, Own;
    if i > 0 {
      var j := i - 1;
      RecordsNeverAbove(voters, states, steps, k, j);
      assert Enabled(voters, states[j], steps[j]) && states[j + 1] == Next(voters, states[j], steps[j]);
      assert k in states[j + 1].nodes && states[j + 1].nodes[k].master == k && Own(states[j], k) <= Own(states[j + 1], k);
      OneStepUpTo(voters, states[j], steps[j], k, Own(states[j], k));
    }
  }

  lemma OneStepUpTo(voters: set<NodeId>, s: System, step: Step, k: NodeId, e: nat)
    requires Enabled(voters, s, step) && k in s.nodes && NoneAbove(s, k, e)
    requires s.nodes[k].master == k && Next(voters, s, step).nodes[k].master == k && e <= Own(Next(voters, s, step), k)
    ensures NoneAbove(Next(voters, s, step), k, Own(Next(voters, s, step), k))
  {
    hide Enabled, Next, KnowsUpTo, TellsUpTo;
    var s' := Next(voters, s, step);
    var e' := Own(s', k);
    SelfUpTo(voters, s, step, k, e);
    HigherBound(s, k, e, e');
    forall n | n in s.nodes
      ensures KnowsUpTo(s'.nodes[n], k, e')
    {
      if n != k {
        OtherUpTo(voters, s, step, k, e', n);
      }
    }
    NetUpTo(voters, s, step, k, e');
  }

  /**
   A packet of a steady master leaves its receiver with exactly the packet's epoch on record if
   and only if the receiver had no later one, as it never has when the packet carries the
   epoch the master is still under.
   */
  lemma ClaimIsRecordedIff(voters: set<NodeId>, states: seq<System>, steps: seq<Step>, k: NodeId, i: nat)
    requires Steady(voters, states, steps, k) && i < |steps| && steps[i].Deliver? && steps[i].m.src == k
    requires steps[i].m.dst != k && !steps[i].m.kind.Update? && k in states[i].nodes[steps[i].m.dst].config
    ensures var m := steps[i].m;
      && m.dst in states[i + 1].nodes
      && (Epoch(states[i + 1].nodes[m.dst], k) == m.config <==> Epoch(states[i].nodes[m.dst], k) <= m.config)
      && (m.config == Own(states[i], k) ==> Epoch(states[i + 1].nodes[m.dst], k) == m.config)
  {
    var s, m := states[i], steps[i].m;
    assert Enabled(voters, s, steps[i]) && states[i + 1] == Next(voters, s, steps[i]);
    RecordsNeverAbove(voters, states, steps, k, i);
    assert KnowsUpTo(s.nodes[m.dst], k, Own(s, k));
    PacketTeaches(voters, s.nodes[m.dst], m, steps[i].verdict);
  }

  /** Every packet of a master carries the epoch it is under, and its current epoch. */
  lemma SentUnderOwnEpoch(voters: set<NodeId>, s: System, k: NodeId, dst: NodeId, kind: Kind)
    requires Enabled(voters, s, Send(k, dst, kind)) && s.nodes[k].master == k
    ensures Msg(k, dst, kind, false, s.nodes[k].current, Own(s, k)) in Next(voters, s, Send(k, dst, kind)).net
  {
  }

  /** A ping of a steady master that arrives while the master is still under that epoch puts exactly this epoch on record. */
  lemma PingRecords(voters: set<NodeId>, states: seq<System>, steps: seq<Step>, k: NodeId, i: nat, j: nat)
    requires Steady(voters, states, steps, k) && i < j < |steps| && steps[i].Send? && steps[i].n == k && steps[i].kind.Ping?
    requires steps[j].Deliver? && steps[j].m == Header(states[i].nodes[k], k, steps[i].dst, Ping)
    requires Own(states[j], k) == Own(states[i], k) && steps[j].m.dst != k && k in states[j].nodes[steps[j].m.dst].config
    ensures steps[j].m.dst in states[j + 1].nodes && Epoch(states[j + 1].nodes[steps[j].m.dst], k) == Own(states[i], k)
  {
    ClaimIsRecordedIff(voters, states, steps, k, j);
  }

  /** A node that bumps its epoch is ahead of every epoch it knows, its own and the current one included. */
  lemma BumpOutranks(voters: set<NodeId>, s: System, n: NodeId, max: nat)
    requires Enabled(voters, s, Bump(n, max))
    ensures var was, node := s.nodes[n], Next(voters, s, Bump(n, max)).nodes[n];
      && Epoch(node, n) == node.current > was.current
      && forall k :: k in was.config ==> was.config[k] < Epoch(node, n) && k in node.config && (k != n ==> node.config[k] == was.config[k])
  {
  }

  /** A node that knows nobody yet takes the epoch it is given, and its current epoch is never below that. */
  lemma EpochAsGiven(voters: set<NodeId>, s: System, n: NodeId, epoch: nat)
    requires Enabled(voters, s, SetEpoch(n, epoch))
    ensures var was, node := s.nodes[n], Next(voters, s, SetEpoch(n, epoch)).nodes[n];
      Epoch(node, n) == epoch <= node.current && was.current <= node.current && (epoch <= was.current ==> node.current == was.current)
  {
  }

  // --- what a crash leaves -----------------------------------------------------------------

  /** The step has this node's epochs written to disk: a save, or a vote it gave, sent or not. */
  predicate Saves(voters: set<NodeId>, s: System, step: Step, n: NodeId)
    requires n in s.nodes
  {
    || step == Save(n)
    || (step.Deliver? && step.m.dst == n && step.m.kind.AuthRequest? && step.m.src in s.nodes[n].config
        && (step.verdict.Unsent? || step.verdict.Granted?)
        && n in voters && step.m.current >= s.nodes[n].current && s.nodes[n].lastVote != step.m.current)
  }

  /** The node's epochs when they were last written. */
  ghost function LastSaved(voters: set<NodeId>, states: seq<System>, steps: seq<Step>, i: nat, n: NodeId): (r: Saved)
    requires IsRun(voters, states, steps) && i < |states| && n in states[i].nodes
  {
    if i == 0 then states[0].nodes[n].saved
    else
      assert states[i] == Next(voters, states[i - 1], steps[i - 1]);
      if Saves(voters, states[i - 1], steps[i - 1], n) then
        Saved(states[i].nodes[n].current, states[i].nodes[n].lastVote, states[i].nodes[n].config)
      else LastSaved(voters, states, steps, i - 1, n)
  }

  lemma SavedStep(voters: set<NodeId>, s: System, step: Step, n: NodeId)
    requires Enabled(voters, s, step) && n in s.nodes
    ensures var r := Next(voters, s, step).nodes[n];
      r.saved == if Saves(voters, s, step, n) then Saved(r.current, r.lastVote, r.config) else s.nodes[n].saved
  {
  }

  lemma {:induction false} SavedByRun(voters: set<NodeId>, states: seq<System>, steps: seq<Step>, i: nat, n: NodeId)
    requires IsRun(voters, states, steps) && i < |states| && n in states[i].nodes
    ensures states[i].nodes[n].saved == LastSaved(voters, states, steps, i, n)
  {
    hide Enabled, Next, Saves, Init;
    if i > 0 {
      SavedByRun(voters, states, steps, i - 1, n);
      SavedStep(voters, states[i - 1], steps[i - 1], n);
    }
  }

  /** A node that crashes comes back with the epochs it had when it last saved or voted, and no election under way. */
  lemma ComesBackAsSaved(voters: set<NodeId>, states: seq<System>, steps: seq<Step>, i: nat, n: NodeId)
    requires IsRun(voters, states, steps) && i < |steps| && steps[i] == Crash(n)
    ensures n in states[i].nodes && n in states[i + 1].nodes
    ensures var node, saved := states[i + 1].nodes[n], LastSaved(voters, states, steps, i, n);
      node.current == saved.current && node.lastVote == saved.lastVote && node.config == saved.config && !node.auth.sent
  {
    SavedByRun(voters, states, steps, i, n);
    assert Enabled(voters, states[i], steps[i]) && states[i + 1] == Next(voters, states[i], steps[i]);
  }
}
