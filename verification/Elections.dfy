/** An election that a majority of ready masters can hear of is won: the other half of election safety. */
module Elections {
  import opened Prelude
  import opened ClusterBus

  /** Consecutive states, each reached by an allowed step. */
  ghost predicate Path(voters: set<NodeId>, states: seq<System>, steps: seq<Step>) {
    && |states| == |steps| + 1
    && forall i :: 0 <= i < |steps| ==>
         Enabled(voters, states[i], steps[i]) && states[i + 1] == Next(voters, states[i], steps[i])
  }

  lemma Joined(voters: set<NodeId>, a: seq<System>, p: seq<Step>, b: seq<System>, q: seq<Step>)
    returns (states: seq<System>, steps: seq<Step>)
    requires |a| == |p| + 1 && |b| == |q| + 1 && Path(voters, a, p) && Path(voters, b, q) && a[|p|] == b[0]
    ensures |states| == |steps| + 1 && Path(voters, states, steps) && states[0] == a[0] && states[|steps|] == b[|q|]
  {
    hide Enabled, Next;
    states, steps := a + b[1..], p + q;
    forall i | 0 <= i < |steps|
      ensures Enabled(voters, states[i], steps[i]) && states[i + 1] == Next(voters, states[i], steps[i])
    {
      if i >= |p| {
        assert states[i] == b[i - |p|] && states[i + 1] == b[i - |p| + 1] && steps[i] == q[i - |p|];
      }
    }
  }

  /** The master knows the candidate, and has neither seen nor voted in an epoch as late as `e`. */
  predicate ReadyToVote(n: Node, c: NodeId, e: nat) {
    c in n.config && n.current < e && n.lastVote < e
  }

  /** The candidate has called an election in epoch `e`, has `k` votes, and can hear these masters. */
  predicate Campaigning(n: Node, c: NodeId, e: nat, k: nat, heard: set<NodeId>) {
    n.auth == Auth(true, e, k) && n.current == e && n.master != c && heard <= n.config.Keys
  }

  function Request(c: NodeId, v: NodeId, e: nat, config: nat): (m: Msg) {
    Msg(c, v, AuthRequest, true, e, config)
  }

  /** The masters of `rest` still have to vote, and the requests are on their way to them. */
  predicate Awaits(voters: set<NodeId>, s: System, c: NodeId, e: nat, config: nat, k: nat, rest: set<NodeId>) {
    && c in s.nodes && c !in voters && rest <= voters && Campaigning(s.nodes[c], c, e, k, rest)
    && forall v :: v in rest ==> v in s.nodes && ReadyToVote(s.nodes[v], c, e) && Request(c, v, e, config) in s.net
  }

  lemma Votes(voters: set<NodeId>, n: Node, c: NodeId, v: NodeId, e: nat, config: nat)
    requires ReadyToVote(n, c, e) && v in voters && c != v
    ensures var m := Request(c, v, e, config);
      && SendsVote(voters, n, m, Granted) && !HearsVote(voters, n, m)
      && var r := Receive(voters, n, m, Granted); r.current == e
  {
  }

  lemma HearsOne(voters: set<NodeId>, n: Node, c: NodeId, e: nat, k: nat, heard: set<NodeId>, m: Msg)
    requires Campaigning(n, c, e, k, heard) && m.kind.AuthAck? && m.src in heard && m.src in voters && m.dst == c && m.current == e
    ensures HearsVote(voters, n, m) && !SendsVote(voters, n, m, Refused)
    ensures Campaigning(Receive(voters, n, m, Refused), c, e, k + 1, heard)
  {
  }

  /** One master gives its vote, and the vote is counted. */
  lemma OneVote(voters: set<NodeId>, s: System, c: NodeId, e: nat, config: nat, k: nat, rest: set<NodeId>, v: NodeId)
    returns (states: seq<System>, steps: seq<Step>)
    requires Awaits(voters, s, c, e, config, k, rest) && v in rest
    ensures |states| == |steps| + 1 && Path(voters, states, steps) && states[0] == s
    ensures Awaits(voters, states[|steps|], c, e, config, k + 1, rest - {v})
  {
    hide Receive, SendsVote, HearsVote, ReadyToVote, Campaigning;
    var m := Request(c, v, e, config);
    Votes(voters, s.nodes[v], c, v, e, config);
    var t := Next(voters, s, Deliver(m, Granted));
    var ack := Header(t.nodes[v], v, c, AuthAck);
    HearsOne(voters, t.nodes[c], c, e, k, rest, ack);
    var u := Next(voters, t, Deliver(ack, Refused));
    states, steps := [s, t, u], [Deliver(m, Granted), Deliver(ack, Refused)];
    FewerHeard(u.nodes[c], c, e, k + 1, rest, v);
  }

  lemma FewerHeard(n: Node, c: NodeId, e: nat, k: nat, heard: set<NodeId>, v: NodeId)
    requires Campaigning(n, c, e, k, heard)
    ensures Campaigning(n, c, e, k, heard - {v})
  {
  }

  lemma {:induction false} AllVotes(voters: set<NodeId>, s: System, c: NodeId, e: nat, config: nat, k: nat, rest: set<NodeId>)
    returns (states: seq<System>, steps: seq<Step>)
    requires Awaits(voters, s, c, e, config, k, rest)
    ensures |states| == |steps| + 1 && Path(voters, states, steps) && states[0] == s
    ensures Awaits(voters, states[|steps|], c, e, config, k + |rest|, {})
    decreases rest
  {
    hide Path, Awaits;
    if rest == {} {
      states, steps := [s], [];
      assert Path(voters, states, steps) by { OneState(voters, s); }
    } else {
      var v :| v in rest;
      var a, p := OneVote(voters, s, c, e, config, k, rest, v);
      var b, q := AllVotes(voters, a[|p|], c, e, config, k + 1, rest - {v});
      states, steps := Joined(voters, a, p, b, q);
    }
  }

  lemma OneState(voters: set<NodeId>, s: System)
    ensures Path(voters, [s], [])
  {
  }

  lemma OneStep(voters: set<NodeId>, s: System, step: Step)
    requires Enabled(voters, s, step)
    ensures Path(voters, [s, Next(voters, s, step)], [step])
  {
  }

  /** Calling the election puts the requests on their way. */
  lemma Calls(voters: set<NodeId>, s: System, c: NodeId, asked: set<NodeId>)
    requires IsReplica(voters, s, c) && !s.nodes[c].auth.sent && s.nodes[c].auth.count == 0
    requires asked <= voters && asked <= s.nodes[c].config.Keys
    requires forall v :: v in asked ==> v in s.nodes && ReadyToVote(s.nodes[v], c, s.nodes[c].current + 1)
    ensures Enabled(voters, s, Elect(c, asked))
    ensures Awaits(voters, Next(voters, s, Elect(c, asked)), c, s.nodes[c].current + 1, Epoch(s.nodes[c], s.nodes[c].master), 0, asked)
  {
    hide ReadyToVote;
    var t := Next(voters, s, Elect(c, asked));
    forall v | v in asked
      ensures Request(c, v, s.nodes[c].current + 1, Epoch(s.nodes[c], s.nodes[c].master)) in t.net
    {
      assert Header(t.nodes[c], c, v, AuthRequest) in Ballots(t.nodes[c], c, asked);
    }
  }

  /**
   From every reachable state a replica that is not campaigning can win an election, if a
   majority of the masters know it, are known to it, and are not ahead of it in epochs or votes.
   */
  lemma ElectionCanBeWon(voters: set<NodeId>, states: seq<System>, steps: seq<Step>, i: nat, c: NodeId, asked: set<NodeId>)
    returns (more: seq<System>, taken: seq<Step>)
    requires IsRun(voters, states, steps) && i < |states| && IsReplica(voters, states[i], c) && !states[i].nodes[c].auth.sent
    requires asked <= voters && |asked| >= Quorum(voters) && asked <= states[i].nodes[c].config.Keys
    requires forall v :: v in asked ==> v in states[i].nodes && ReadyToVote(states[i].nodes[v], c, states[i].nodes[c].current + 1)
    ensures |more| == |taken| + 1 && Path(voters, more, taken) && more[0] == states[i]
    ensures (c, states[i].nodes[c].current + 1) in more[|taken|].wins
    ensures c in more[|taken|].nodes && more[|taken|].nodes[c].master == c
    ensures Epoch(more[|taken|].nodes[c], c) >= states[i].nodes[c].current + 1
  {
    var s := states[i];
    NoCount(voters, states, steps, i, c);
    hide Path, Awaits, ReadyToVote, IsRun;
    var e, config := s.nodes[c].current + 1, Epoch(s.nodes[c], s.nodes[c].master);
    Calls(voters, s, c, asked);
    OneStep(voters, s, Elect(c, asked));
    var t := Next(voters, s, Elect(c, asked));
    var b, q := AllVotes(voters, t, c, e, config, 0, asked);
    more, taken := Joined(voters, [s, t], [Elect(c, asked)], b, q);
    var u := more[|taken|];
    MayWin(voters, u, c, e, config, |asked|);
    OneStep(voters, u, Win(c));
    more, taken := Joined(voters, more, taken, [u, Next(voters, u, Win(c))], [Win(c)]);
  }

  lemma NoCount(voters: set<NodeId>, states: seq<System>, steps: seq<Step>, i: nat, c: NodeId)
    requires IsRun(voters, states, steps) && i < |states| && c in states[i].nodes && !states[i].nodes[c].auth.sent
    ensures states[i].nodes[c].auth.count == 0
  {
    RunHolds(voters, states, steps, i);
    assert CandidateOk(voters, states[i].votes, c, states[i].nodes[c], HeardBy(states[i], c));
  }

  lemma MayWin(voters: set<NodeId>, s: System, c: NodeId, e: nat, config: nat, k: nat)
    requires Awaits(voters, s, c, e, config, k, {}) && k >= Quorum(voters)
    ensures Enabled(voters, s, Win(c)) && s.nodes[c].auth.epoch == e
  {
  }
}
