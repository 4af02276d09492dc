/**
 When a replica is continued, told from the run alone: which names a node has gone by, how
 far back its backlog reaches, and whether anybody else knows its name.
 */
module Continuation {
  import opened Prelude
  import opened Replication

  /**
   A node's past: the name it had before its last renaming and its offset then, if its
   history went on under the new name; the offset its backlog was last emptied at; and
   whether its name has been shared since it took it.
   */
  datatype Past = Past(former: Option<(ReplId, nat)>, since: nat, shown: bool)

  /** What one step adds to a node's past. */
  function PastNext(p: Past, s: System, step: Step, s': System, m: NodeId): (r: Past)
    requires Enabled(s, step) && m in s.nodes && s'.nodes.Keys == s.nodes.Keys
  {
    var node := s.nodes[m];
    match step
    case NoOne(n, _) => if n == m then Past(Some((node.replid, node.offset)), p.since, false) else p
    case Restart(n, _, _) => if n == m then Past(None, 0, false) else p
    case ReadReply(n) =>
      if n != m then p
      else if node.link.Snapshot? then Past(None, node.link.at, true)
      else if node.link.id != node.replid then Past(Some((node.replid, node.offset)), p.since, true)
      else p.(shown := true)
    case Answer(a, n) => if a == m && s'.nodes[n].link.Continued? then p.(shown := true) else p
    case Fork(a) => if a == m then p.(shown := true) else p
    case _ => p
  }

  ghost function PastOf(states: seq<System>, steps: seq<Step>, i: nat, m: NodeId): (p: Past)
    requires IsRun(states, steps) && i < |states| && m in states[i].nodes
  {
    if i == 0 then Past(None, 0, false)
    else
      SameNodes(states, steps, i - 1);
      PastNext(PastOf(states, steps, i - 1, m), states[i - 1], steps[i - 1], states[i], m)
  }

  lemma SameNodes(states: seq<System>, steps: seq<Step>, i: nat)
    requires IsRun(states, steps) && i < |steps|
    ensures Enabled(states[i], steps[i]) && states[i + 1] == Next(states[i], steps[i])
    ensures states[i + 1].nodes.Keys == states[i].nodes.Keys
  {
  }

  /** How many stream bytes the backlog of a node with this past retains. */
  function Retained(n: Node, p: Past): (k: int) {
    Min(n.offset - p.since, n.capacity)
  }

  /** The node's fields are what its past says. */
  predicate Remembers(n: Node, p: Past) {
    && (n.second.Some? <==> p.former.Some?)
    && (p.former.Some? ==> n.replid2 == p.former.value.0 && n.second == Some(p.former.value.1))
    && p.since <= n.offset && |n.window| == Retained(n, p) && n.shared == p.shown
  }

  /** What a step does to the fields that `Remembers` looks at. */
  predicate SameFields(n: Node, r: Node) {
    r.replid2 == n.replid2 && r.second == n.second && r.offset == n.offset && r.window == n.window
    && r.capacity == n.capacity && r.shared == n.shared
  }

  lemma FeedRemembers(n: Node, p: Past, d: Bytes, r: Node)
    requires Remembers(n, p) && SameFields(Feed(n, d), r)
    ensures Remembers(r, p)
  {
  }

  lemma StreamRemembers(s: System, step: Step, m: NodeId, p: Past)
    requires Enabled(s, step) && m in s.nodes && Remembers(s.nodes[m], p) && (step.Write? || step.ApplyBytes?)
    ensures Remembers(Next(s, step).nodes[m], p)
  {
    hide Remembers, Feed;
    var n, r := s.nodes[m], Next(s, step).nodes[m];
    if step.Write? && step.m == m && n.started {
      FeedRemembers(n, p, step.d, r);
    } else if step.ApplyBytes? && step.n == m {
      FeedRemembers(n, p, n.link.chan[..step.k], r);
    } else {
      SameRemembers(n, p, r);
    }
  }

  lemma SameRemembers(n: Node, p: Past, r: Node)
    requires Remembers(n, p) && SameFields(n, r)
    ensures Remembers(r, p)
  {
  }

  lemma CutSame(n: Node, c: NodeId)
    ensures SameFields(n, CutFrom(n, c))
  {
  }

  lemma QuietRemembers(s: System, step: Step, m: NodeId, p: Past)
    requires Enabled(s, step) && m in s.nodes && Remembers(s.nodes[m], p)
    requires step.ReplicaOf? || step.Connect? || step.LinkLost? || step.PeerCloses?
      || (step.NoOne? && step.n != m) || (step.Restart? && step.n != m) || (step.ReadReply? && step.n != m)
    ensures Remembers(Next(s, step).nodes[m], p)
  {
    hide Remembers, CutFrom, ShiftReplid, Adopted, Nobody;
    CutSame(s.nodes[m], step.n);
    SameRemembers(s.nodes[m], p, Next(s, step).nodes[m]);
  }

  lemma OwnRemembers(s: System, step: Step, m: NodeId, p: Past)
    requires Enabled(s, step) && m in s.nodes && Remembers(s.nodes[m], p)
    requires (step.NoOne? && step.n == m) || (step.Restart? && step.n == m) || (step.ReadReply? && step.n == m)
    ensures Remembers(Next(s, step).nodes[m], PastNext(p, s, step, Next(s, step), m))
  {
    hide CutFrom, Nobody;
  }

  lemma ForkSame(n: Node, m: NodeId, master: Node)
    ensures SameFields(n, ForkFor(n, m, master))
  {
  }

  lemma ForkRemembers(s: System, step: Step, m: NodeId, p: Past)
    requires Enabled(s, step) && m in s.nodes && Remembers(s.nodes[m], p) && step.Fork?
    ensures Remembers(Next(s, step).nodes[m], PastNext(p, s, step, Next(s, step), m))
  {
    hide ForkFor, Nobody;
    ForkSame(s.nodes[m], step.m, s.nodes[step.m]);
  }

  lemma AnswerRemembers(s: System, step: Step, m: NodeId, p: Past)
    requires Enabled(s, step) && m in s.nodes && Remembers(s.nodes[m], p) && step.Answer? && step.m != step.n
    ensures Remembers(Next(s, step).nodes[m], PastNext(p, s, step, Next(s, step), m))
  {
    hide CanContinue, Missing, Nobody, Remembers;
    var node, r := s.nodes[m], Next(s, step).nodes[m];
    SharedRemembers(node, p, r);
    if m == step.n {
      SameRemembers(node, p, r);
    }
  }

  lemma SharedRemembers(n: Node, p: Past, r: Node)
    requires Remembers(n, p)
    ensures SameFields(n.(shared := true), r) ==> Remembers(r, p.(shown := true))
    ensures SameFields(n, r) ==> Remembers(r, p)
  {
  }

  /** A node whose own link is only just being answered cannot be the one that answers. */
  lemma NoSelfAnswer(s: System, m: NodeId, n: NodeId)
    requires Inv(s) && Enabled(s, Answer(m, n))
    ensures m != n
  {
    assert NodeOk(s.hist, s.nodes[n]);
  }

  lemma {:induction false} PastHolds(states: seq<System>, steps: seq<Step>, i: nat, m: NodeId)
    requires IsRun(states, steps) && i < |states| && m in states[i].nodes
    ensures Remembers(states[i].nodes[m], PastOf(states, steps, i, m))
  {
    hide Inv, Enabled, Next;
    if i == 0 {
      assert Remembers(states[0].nodes[m], Past(None, 0, false));
    } else {
      SameNodes(states, steps, i - 1);
      PastHolds(states, steps, i - 1, m);
      RunHolds(states, steps, i - 1);
      StepRemembers(states[i - 1], steps[i - 1], m, PastOf(states, steps, i - 1, m));
    }
  }

  lemma StepRemembers(s: System, step: Step, m: NodeId, p: Past)
    requires Inv(s) && Enabled(s, step) && m in s.nodes && Remembers(s.nodes[m], p)
    ensures Remembers(Next(s, step).nodes[m], PastNext(p, s, step, Next(s, step), m))
  {
    hide Inv, Enabled, Next, Remembers;
    if step.Write? || step.ApplyBytes? {
      StreamRemembers(s, step, m, p);
    } else if step.Answer? {
      NoSelfAnswer(s, step.m, step.n);
      AnswerRemembers(s, step, m, p);
    } else if step.Fork? {
      ForkRemembers(s, step, m, p);
    } else if (step.NoOne? || step.Restart? || step.ReadReply?) && step.n == m {
      OwnRemembers(s, step, m, p);
    } else {
      QuietRemembers(s, step, m, p);
    }
  }

  /**
   A request to continue is granted if and only if it is for the node's name, or for the name
   before its last renaming up to its offset then, and the backlog still retains everything
   from there on. Otherwise the replica waits for a snapshot.
   */
  lemma ContinuedIff(states: seq<System>, steps: seq<Step>, i: nat, m: NodeId, n: NodeId)
    requires IsRun(states, steps) && i < |steps| && steps[i] == Answer(m, n)
    ensures m in states[i].nodes && n in states[i].nodes && n in states[i + 1].nodes && states[i].nodes[n].link.Asked?
    ensures var node, l, p := states[i].nodes[m], states[i].nodes[n].link, PastOf(states, steps, i, m);
      && (states[i + 1].nodes[n].link.Continued? <==>
          && l.name.Some?
          && (l.name.value == node.replid
              || (p.former.Some? && l.name.value == p.former.value.0 && l.from <= p.former.value.1))
          && l.from <= node.offset && node.offset - l.from <= Retained(node, p))
      && (states[i + 1].nodes[n].link.Continued? ==> states[i + 1].nodes[n].link.id == node.replid)
      && (states[i + 1].nodes[n].link.Continued? || states[i + 1].nodes[n].link == Waiting(m))
  {
    SameNodes(states, steps, i);
    RunHolds(states, steps, i);
    PastHolds(states, steps, i, m);
    NoSelfAnswer(states[i], m, n);
  }

  /** Right after a promotion the old name is continued, from any retained offset up to the promotion's. */
  lemma PromotionContinues(states: seq<System>, steps: seq<Step>, i: nat, m: NodeId, id: ReplId, n: NodeId)
    requires IsRun(states, steps) && i + 1 < |steps| && steps[i] == NoOne(m, id) && steps[i + 1] == Answer(m, n)
    requires m in states[i].nodes && n in states[i].nodes
    requires var l, node := states[i].nodes[n].link, states[i].nodes[m];
      && l.Asked? && l.name == Some(node.replid) && l.from <= node.offset
      && node.offset - l.from <= Retained(node, PastOf(states, steps, i, m))
    ensures n in states[i + 2].nodes && states[i + 2].nodes[n].link.Continued? && states[i + 2].nodes[n].link.id == id
  {
    hide Inv, Next, Retained;
    SameNodes(states, steps, i);
    SameNodes(states, steps, i + 1);
    RunHolds(states, steps, i + 1);
    NoSelfAnswer(states[i + 1], m, n);
    PromotedNext(states[i], m, id, n, PastOf(states, steps, i, m));
    ContinuedIff(states, steps, i + 1, m, n);
  }

  lemma PromotedNext(s: System, m: NodeId, id: ReplId, n: NodeId, p: Past)
    requires Enabled(s, NoOne(m, id)) && n in s.nodes && n != m && s.nodes[n].link.Asked?
    ensures var s', node := Next(s, NoOne(m, id)), s.nodes[m];
      var q := PastNext(p, s, NoOne(m, id), s', m);
      && s'.nodes[n].link == s.nodes[n].link && s'.nodes[m].replid == id && s'.nodes[m].offset == node.offset
      && q.former == Some((node.replid, node.offset)) && Retained(s'.nodes[m], q) == Retained(node, p)
  {
    hide Nobody;
  }

  /** A replica asks for its own name from its own offset exactly if that name has been shared. */
  lemma ConnectAsks(states: seq<System>, steps: seq<Step>, i: nat, n: NodeId)
    requires IsRun(states, steps) && i < |steps| && steps[i] == Connect(n)
    ensures n in states[i].nodes && n in states[i + 1].nodes && states[i].nodes[n].master.Some?
    ensures var node := states[i].nodes[n];
      states[i + 1].nodes[n].link ==
      if PastOf(states, steps, i, n).shown then Asked(node.master.value, Some(node.replid), node.offset)
      else Asked(node.master.value, None, 0)
  {
    SameNodes(states, steps, i);
    PastHolds(states, steps, i, n);
  }

  /** A replica that comes back under its master's name, and has not missed more than the backlog retains, goes on. */
  lemma ReconnectContinues(states: seq<System>, steps: seq<Step>, i: nat, m: NodeId, n: NodeId)
    requires IsRun(states, steps) && i + 1 < |steps| && steps[i] == Connect(n) && steps[i + 1] == Answer(m, n)
    requires m in states[i].nodes && n in states[i].nodes && PastOf(states, steps, i, n).shown
    requires var a, b := states[i].nodes[m], states[i].nodes[n];
      a.replid == b.replid && b.offset <= a.offset && a.offset - b.offset <= Retained(a, PastOf(states, steps, i, m))
    ensures n in states[i + 2].nodes && states[i + 2].nodes[n].link.Continued?
  {
    SameNodes(states, steps, i);
    SameNodes(states, steps, i + 1);
    ConnectAsks(states, steps, i, n);
    RunHolds(states, steps, i + 1);
    NoSelfAnswer(states[i + 1], m, n);
    ContinuedIff(states, steps, i + 1, m, n);
  }

  /** One fork serves every replica that waits: each gets the name, the offset and the dataset of that moment. */
  lemma ForkServesAll(states: seq<System>, steps: seq<Step>, i: nat, m: NodeId, n: NodeId)
    requires IsRun(states, steps) && i < |steps| && steps[i] == Fork(m) && n in states[i].nodes
    requires states[i].nodes[n].link == Waiting(m)
    ensures m in states[i].nodes && n in states[i + 1].nodes
    ensures var node := states[i].nodes[m];
      states[i + 1].nodes[n].link == Snapshot(m, node.replid, node.offset, node.data, [], true)
  {
    SameNodes(states, steps, i);
    RunHolds(states, steps, i);
    assert FollowsPeer(states[i].nodes, n);
  }

  /** What a started master writes reaches every replica on its stream, behind what that replica was still to read. */
  lemma WriteReachesAll(states: seq<System>, steps: seq<Step>, i: nat, d: Bytes, m: NodeId, n: NodeId)
    requires IsRun(states, steps) && i < |steps| && steps[i] == Write(m, d) && n in states[i].nodes
    requires Attached(states[i].nodes[n].link, m)
    ensures m in states[i].nodes && n in states[i + 1].nodes
    ensures states[i].nodes[m].started ==>
      states[i + 1].nodes[n].link == states[i].nodes[n].link.(chan := states[i].nodes[n].link.chan + d)
  {
    SameNodes(states, steps, i);
    RunHolds(states, steps, i);
    assert FollowsPeer(states[i].nodes, n);
  }

  /** A replica that continues under the name it has keeps all its own replicas; under a new name it drops them. */
  lemma RenamedDropsReplicas(states: seq<System>, steps: seq<Step>, i: nat, n: NodeId, r: NodeId)
    requires IsRun(states, steps) && i < |steps| && steps[i] == ReadReply(n)
    requires r in states[i].nodes && r != n && HasPeer(states[i].nodes[r].link) && states[i].nodes[r].link.peer == n
    ensures n in states[i].nodes && r in states[i + 1].nodes
    ensures var l := states[i].nodes[n].link;
      HasPeer(states[i + 1].nodes[r].link) <==> l.Continued? && l.id == states[i].nodes[n].replid
  {
    hide Adopted, Init, Enabled;
    SameNodes(states, steps, i);
    assert states[i + 1] == Next(states[i], ReadReply(n));
  }
}
