/**
 The cluster bus: epochs, elections and votes over an unreliable network.

 Nodes exchange headers carrying their epochs. Any message may be delayed or
 lost, and any node may crash at any point and come back with the state it last
 saved. `voters` is the set of masters serving slots, which all nodes agree on.
 */
module ClusterBus {
  import opened Prelude

  type NodeId = nat   // ordered as the node names are

  datatype Kind =
    | Ping                                    // PING, PONG or MEET
    | Update(about: NodeId, epoch: nat)
    | AuthRequest
    | AuthAck
    | Notice                                  // FAIL or MFSTART: only the header matters here

  datatype Msg = Msg(src: NodeId, dst: NodeId, kind: Kind, replica: bool, current: nat, config: nat)

  /** What nodes.conf keeps of a node's epochs. */
  datatype Saved = Saved(current: nat, lastVote: nat, config: map<NodeId, nat>)

  datatype Auth = Auth(sent: bool, epoch: nat, count: nat)   // failover_auth_*

  datatype Node = Node(
    current: nat,                // current_epoch_
    lastVote: nat,               // last_vote_epoch_
    config: map<NodeId, nat>,    // config epoch of every known node
    master: NodeId,              // whom it follows; itself when a master
    auth: Auth,
    saved: Saved)

  datatype Vote = Vote(voter: NodeId, epoch: nat, candidate: NodeId)

  datatype System = System(
    nodes: map<NodeId, Node>,
    net: set<Msg>,
    votes: set<Vote>,                       // every vote ever sent
    heard: map<NodeId, set<NodeId>>,        // whose votes a candidate has counted
    wins: set<(NodeId, nat)>)               // every promotion by election, with its epoch

  function Quorum(voters: set<NodeId>): (q: nat) {
    |voters| / 2 + 1
  }

  // --- one node ---------------------------------------------------------------

  function Epoch(n: Node, id: NodeId): (e: nat) {
    if id in n.config then n.config[id] else 0
  }

  /** header(): a replica advertises its master's config epoch. */
  function Header(n: Node, me: NodeId, dst: NodeId, kind: Kind): (m: Msg) {
    Msg(me, dst, kind, n.master != me, n.current, Epoch(n, n.master))
  }

  /** What every message from a known sender teaches, before its kind is looked at. */
  function Absorb(n: Node, m: Msg): (r: Node) {
    n.(current := Max(n.current, m.current), config := n.config[m.src := Max(Epoch(n, m.src), m.config)])
  }

  predicate Collides(n: Node, me: NodeId, m: Msg) {
    n.master == me && !m.replica && Epoch(n, m.src) == Epoch(n, me)
  }

  /** handle_epoch_collision(): of the two, only the smaller name moves. */
  function ResolveCollision(n: Node, me: NodeId, m: Msg): (r: Node) {
    if Collides(n, me, m) && me < m.src
    then n.(current := n.current + 1, config := n.config[me := n.current + 1])
    else n
  }

  function LearnEpoch(n: Node, about: NodeId, epoch: nat): (r: Node) {
    if about in n.config && n.config[about] < epoch then n.(config := n.config[about := epoch]) else n
  }

  predicate CountsAck(voters: set<NodeId>, n: Node, m: Msg) {
    m.src in voters && n.auth.sent && m.current >= n.auth.epoch
  }

  /** The epoch tests of send_failover_auth_if_needed(), once the request was absorbed. */
  predicate MayVote(voters: set<NodeId>, n: Node, me: NodeId, m: Msg) {
    me in voters && m.current >= n.current && n.lastVote != n.current
  }

  /** The largest epoch a node knows of: max_epoch(). */
  ghost predicate IsMaxEpoch(n: Node, e: nat) {
    && n.current <= e && (forall k :: k in n.config ==> n.config[k] <= e)
    && (e == n.current || exists k :: k in n.config && n.config[k] == e)
  }

  function Remember(n: Node): (r: Node) {
    n.(saved := Saved(n.current, n.lastVote, n.config))
  }

  function Reboot(n: Node): (r: Node) {
    n.(current := n.saved.current, lastVote := n.saved.lastVote, config := n.saved.config, auth := Auth(false, 0, 0))
  }

  // --- steps ------------------------------------------------------------------

  /** How a vote request that passes the epoch tests ends. */
  datatype Verdict = Refused | SaveFailed | Unsent | Granted

  datatype Step =
    | Send(n: NodeId, dst: NodeId, kind: Kind)
    | Deliver(m: Msg, verdict: Verdict)
    | Lose(m: Msg)
    | Meet(n: NodeId, id: NodeId)
    | Forget(n: NodeId, id: NodeId)
    | Follow(n: NodeId, master: NodeId)
    | SetEpoch(n: NodeId, epoch: nat)
    | Bump(n: NodeId, max: nat)
    | Schedule(n: NodeId)
    | Elect(n: NodeId, asked: set<NodeId>)
    | Win(n: NodeId)
    | Save(n: NodeId)
    | Crash(n: NodeId)

  predicate IsReplica(voters: set<NodeId>, s: System, n: NodeId) {
    n in s.nodes && n !in voters && s.nodes[n].master != n
  }

  ghost predicate Enabled(voters: set<NodeId>, s: System, step: Step) {
    match step
    case Send(n, dst, kind) =>
      && n in s.nodes && (kind.Ping? || kind.Update? || kind.Notice?)
      && (kind.Update? ==> kind.about in s.nodes[n].config && kind.epoch == s.nodes[n].config[kind.about])
    case Deliver(m, verdict) => m in s.net && m.dst in s.nodes
    case Lose(m) => m in s.net
    case Meet(n, id) => n in s.nodes && id !in s.nodes[n].config
    case Forget(n, id) => n in s.nodes && id != n
    case Follow(n, master) => n in s.nodes && n !in voters
    case SetEpoch(n, epoch) =>
      n in s.nodes && s.nodes[n].config.Keys <= {n} && Epoch(s.nodes[n], n) == 0
    case Bump(n, max) =>
      && n in s.nodes && IsMaxEpoch(s.nodes[n], max)
      && !(Epoch(s.nodes[n], n) != 0 && Epoch(s.nodes[n], n) == max)
    case Schedule(n) => IsReplica(voters, s, n)
    case Elect(n, asked) => IsReplica(voters, s, n) && !s.nodes[n].auth.sent
    case Win(n) => IsReplica(voters, s, n) && s.nodes[n].auth.sent && s.nodes[n].auth.count >= Quorum(voters)
    case Save(n) => n in s.nodes
    case Crash(n) => n in s.nodes
  }

  function Ballots(n: Node, me: NodeId, asked: set<NodeId>): (ms: set<Msg>) {
    set d | d in asked :: Header(n, me, d, AuthRequest)
  }

  /** The effect of one received message on the receiver. */
  function Receive(voters: set<NodeId>, n: Node, m: Msg, verdict: Verdict): (r: Node) {
    if m.src !in n.config then n else
    var a := Absorb(n, m);
    match m.kind
    case Ping => ResolveCollision(a, m.dst, m)
    case Notice => a
    case Update(about, epoch) => LearnEpoch(a, about, epoch)
    case AuthAck => if CountsAck(voters, a, m) then a.(auth := a.auth.(count := a.auth.count + 1)) else a
    case AuthRequest =>
      if !MayVote(voters, a, m.dst, m) || verdict.Refused? then a
      else if verdict.SaveFailed? then a.(lastVote := 0)
      else Remember(a.(lastVote := a.current))
  }

  /** Whether receiving `m` makes the receiver send its vote. */
  predicate SendsVote(voters: set<NodeId>, n: Node, m: Msg, verdict: Verdict) {
    m.kind.AuthRequest? && m.src in n.config && verdict.Granted? && MayVote(voters, Absorb(n, m), m.dst, m)
  }

  predicate HearsVote(voters: set<NodeId>, n: Node, m: Msg) {
    m.kind.AuthAck? && m.src in n.config && CountsAck(voters, Absorb(n, m), m)
  }

  function HeardBy(s: System, n: NodeId): (h: set<NodeId>) {
    if n in s.heard then s.heard[n] else {}
  }

  function OnDeliver(voters: set<NodeId>, s: System, m: Msg, verdict: Verdict): (s': System)
    requires m.dst in s.nodes
  {
    var n := s.nodes[m.dst];
    var r := Receive(voters, n, m, verdict);
    var sent := SendsVote(voters, n, m, verdict);
    s.(nodes := s.nodes[m.dst := r],
       net := s.net - {m} + (if sent then {Header(r, m.dst, m.src, AuthAck)} else {}),
       votes := s.votes + (if sent then {Vote(m.dst, r.current, m.src)} else {}),
       heard := if HearsVote(voters, n, m) then s.heard[m.dst := HeardBy(s, m.dst) + {m.src}] else s.heard)
  }

  /** Requests from and votes for a node, of an election in an epoch it has not saved: all that a crash takes off the wire. */
  predicate Unsaved(n: NodeId, saved: Saved, m: Msg) {
    m.current > saved.current && ((m.kind.AuthRequest? && m.src == n) || (m.kind.AuthAck? && m.dst == n))
  }

  function AfterCrash(net: set<Msg>, n: NodeId, saved: Saved): (r: set<Msg>) {
    set m | m in net && !Unsaved(n, saved, m)
  }

  /** The node itself after it scheduled or called an election, or came back from a crash. */
  function Campaigned(n: Node, step: Step): (r: Node)
    requires step.Schedule? || step.Elect? || step.Crash?
  {
    match step
    case Schedule(_) => n.(auth := Auth(false, n.auth.epoch, 0))
    case Elect(_, _) => n.(current := n.current + 1, auth := Auth(true, n.current + 1, n.auth.count))
    case Crash(_) => Reboot(n)
  }

  ghost function Next(voters: set<NodeId>, s: System, step: Step): (s': System)
    requires Enabled(voters, s, step)
    ensures s'.nodes.Keys == s.nodes.Keys
  {
    match step
    case Send(n, dst, kind) => s.(net := s.net + {Header(s.nodes[n], n, dst, kind)})
    case Deliver(m, verdict) => OnDeliver(voters, s, m, verdict)
    case Lose(m) => s.(net := s.net - {m})
    case Meet(n, id) => s.(nodes := s.nodes[n := s.nodes[n].(config := s.nodes[n].config[id := 0])])
    case Forget(n, id) => s.(nodes := s.nodes[n := s.nodes[n].(config := s.nodes[n].config - {id})])
    case Follow(n, master) => s.(nodes := s.nodes[n := s.nodes[n].(master := master)])
    case SetEpoch(n, epoch) =>
      var node := s.nodes[n];
      s.(nodes := s.nodes[n := node.(config := node.config[n := epoch], current := Max(node.current, epoch))])
    case Bump(n, max) =>
      var node := s.nodes[n];
      s.(nodes := s.nodes[n := node.(config := node.config[n := max + 1], current := max + 1)])
    case Schedule(n) => s.(nodes := s.nodes[n := Campaigned(s.nodes[n], step)])
    case Elect(n, asked) =>
      var node := Campaigned(s.nodes[n], step);
      s.(nodes := s.nodes[n := node], net := s.net + Ballots(node, n, asked), heard := s.heard[n := {}])
    case Win(n) =>
      var node := s.nodes[n];
      var own := Max(Epoch(node, n), node.auth.epoch);
      s.(nodes := s.nodes[n := node.(config := node.config[n := own], master := n)],
         wins := s.wins + {(n, node.auth.epoch)})
    case Save(n) => s.(nodes := s.nodes[n := Remember(s.nodes[n])])
    case Crash(n) => s.(nodes := s.nodes[n := Campaigned(s.nodes[n], step)], net := AfterCrash(s.net, n, s.nodes[n].saved))
  }

  // --- epochs ------------------------------------------------------------------

  predicate Bounded(config: map<NodeId, nat>, current: nat) {
    forall k :: k in config ==> config[k] <= current
  }

  predicate NodeEpochsOk(n: Node) {
    && Bounded(n.config, n.current) && Bounded(n.saved.config, n.saved.current)
    && n.auth.epoch <= n.current && n.saved.current <= n.current
  }

  predicate MsgEpochsOk(m: Msg) {
    m.config <= m.current && (m.kind.Update? ==> m.kind.epoch <= m.current)
  }

  /** No node knows, and no message carries, a config epoch above its own current epoch. */
  predicate EpochInv(s: System) {
    && (forall n :: n in s.nodes ==> NodeEpochsOk(s.nodes[n]))
    && (forall m :: m in s.net ==> MsgEpochsOk(m))
  }

  lemma HeaderOk(n: Node, me: NodeId, dst: NodeId, kind: Kind)
    requires NodeEpochsOk(n) && (kind.Update? ==> kind.about in n.config && kind.epoch == n.config[kind.about])
    ensures MsgEpochsOk(Header(n, me, dst, kind))
  {
  }

  lemma ReceiveOk(voters: set<NodeId>, n: Node, m: Msg, verdict: Verdict)
    requires NodeEpochsOk(n) && MsgEpochsOk(m)
    ensures NodeEpochsOk(Receive(voters, n, m, verdict))
    ensures Receive(voters, n, m, verdict).current >= n.current
  {
    hide Absorb;
    AbsorbOk(n, m);
  }

  lemma AbsorbOk(n: Node, m: Msg)
    requires NodeEpochsOk(n) && MsgEpochsOk(m)
    ensures var a := Absorb(n, m); NodeEpochsOk(a) && a.current >= n.current && a.current >= m.current
  {
  }

  lemma CampaignOk(n: Node, step: Step)
    requires NodeEpochsOk(n) && (step.Schedule? || step.Elect? || step.Crash?)
    ensures NodeEpochsOk(Campaigned(n, step))
  {
  }

  predicate Local(step: Step) {
    step.Meet? || step.Forget? || step.Follow? || step.SetEpoch? || step.Bump? || step.Win? || step.Save?
  }

  lemma LocalOk(voters: set<NodeId>, s: System, step: Step)
    requires Enabled(voters, s, step) && Local(step) && NodeEpochsOk(s.nodes[step.n])
    ensures NodeEpochsOk(Next(voters, s, step).nodes[step.n])
  {
  }

  lemma NodesStayOk(voters: set<NodeId>, s: System, step: Step)
    requires EpochInv(s) && Enabled(voters, s, step)
    ensures forall n :: n in Next(voters, s, step).nodes ==> NodeEpochsOk(Next(voters, s, step).nodes[n])
  {
    hide Receive, Header, SendsVote, HearsVote, MsgEpochsOk, Campaigned, NodeEpochsOk, Remember, Epoch, IsMaxEpoch;
    if step.Deliver? {
      ReceiveOk(voters, s.nodes[step.m.dst], step.m, step.verdict);
    } else if step.Schedule? || step.Elect? || step.Crash? {
      CampaignOk(s.nodes[step.n], step);
    } else if Local(step) {
      LocalOk(voters, s, step);
    }
  }

  lemma NetStaysOk(voters: set<NodeId>, s: System, step: Step)
    requires EpochInv(s) && Enabled(voters, s, step)
    requires forall n :: n in Next(voters, s, step).nodes ==> NodeEpochsOk(Next(voters, s, step).nodes[n])
    ensures forall m :: m in Next(voters, s, step).net ==> MsgEpochsOk(m)
  {
    hide Receive, Header, SendsVote, HearsVote, NodeEpochsOk, MsgEpochsOk;
    var s' := Next(voters, s, step);
    match step
    case Send(n, dst, kind) => HeaderOk(s.nodes[n], n, dst, kind);
    case Deliver(m, verdict) => HeaderOk(s'.nodes[m.dst], m.dst, m.src, AuthAck);
    case Elect(n, asked) =>
      forall d | d in asked
        ensures MsgEpochsOk(Header(s'.nodes[n], n, d, AuthRequest))
      {
        HeaderOk(s'.nodes[n], n, d, AuthRequest);
      }
    case _ =>
  }

  lemma StepEpochs(voters: set<NodeId>, s: System, step: Step)
    requires EpochInv(s) && Enabled(voters, s, step)
    ensures EpochInv(Next(voters, s, step))
  {
    hide Next, Enabled, NodeEpochsOk, MsgEpochsOk;
    NodesStayOk(voters, s, step);
    NetStaysOk(voters, s, step);
  }

  // --- elections ----------------------------------------------------------------

  predicate VoterOk(votes: set<Vote>, v: NodeId, n: Node) {
    forall x :: x in votes && x.voter == v ==>
      && x.epoch <= n.current && (x.epoch == n.current ==> n.lastVote == x.epoch)
      && x.epoch <= n.saved.current && (x.epoch == n.saved.current ==> n.saved.lastVote == x.epoch)
  }

  /** The plain counter equals the number of distinct voters heard for this election. */
  predicate CandidateOk(voters: set<NodeId>, votes: set<Vote>, c: NodeId, n: Node, heard: set<NodeId>) {
    && (!n.auth.sent ==> n.auth.count == 0)
    && (n.auth.sent ==>
          && n.auth.count == |heard| && heard <= voters
          && forall v :: v in heard ==> Vote(v, n.auth.epoch, c) in votes)
  }

  /** The node may have called an election in epoch `e`, and will not call another one in it. */
  predicate Past(n: Node, e: nat) {
    && e <= n.current && (e <= n.saved.current || e <= n.auth.epoch)
    && (n.auth.sent ==> e <= n.auth.epoch)
  }

  predicate RequestOk(s: System, m: Msg) {
    m.kind.AuthRequest? && m.src in s.nodes ==> Past(s.nodes[m.src], m.current)
  }

  predicate AckOk(voters: set<NodeId>, s: System, m: Msg) {
    m.kind.AuthAck? ==>
      && m.src in voters && Vote(m.src, m.current, m.dst) in s.votes
      && (m.dst in s.nodes ==>
            var a := s.nodes[m.dst].auth;
            Past(s.nodes[m.dst], m.current) && (a.sent && m.current == a.epoch ==> m.src !in HeardBy(s, m.dst)))
  }

  predicate OnePerEpoch(votes: set<Vote>) {
    forall x, y :: x in votes && y in votes && x.voter == y.voter && x.epoch == y.epoch ==> x == y
  }

  predicate OneAck(net: set<Msg>) {
    forall x, y :: x in net && y in net && x.kind.AuthAck? && y.kind.AuthAck? && x.src == y.src && x.current == y.current
      ==> x == y
  }

  function Supporters(voters: set<NodeId>, votes: set<Vote>, c: NodeId, e: nat): (q: set<NodeId>) {
    set v | v in voters && Vote(v, e, c) in votes
  }

  predicate WinsOk(voters: set<NodeId>, s: System) {
    forall w :: w in s.wins ==> |Supporters(voters, s.votes, w.0, w.1)| >= Quorum(voters)
  }

  predicate VotersOk(s: System) {
    forall n :: n in s.nodes ==> VoterOk(s.votes, n, s.nodes[n])
  }

  predicate CandidatesOk(voters: set<NodeId>, s: System) {
    forall n :: n in s.nodes ==> CandidateOk(voters, s.votes, n, s.nodes[n], HeardBy(s, n))
  }

  predicate NetOk(voters: set<NodeId>, s: System) {
    forall m :: m in s.net ==> RequestOk(s, m) && AckOk(voters, s, m)
  }

  predicate ElectionInv(voters: set<NodeId>, s: System) {
    && EpochInv(s) && VotersOk(s) && CandidatesOk(voters, s) && NetOk(voters, s)
    && OnePerEpoch(s.votes) && OneAck(s.net) && WinsOk(voters, s)
  }

  // Delivering one message, piece by piece.

  /** A vote is new: the voter had not voted in this epoch, ever. */
  lemma VoteIsNew(voters: set<NodeId>, votes: set<Vote>, n: Node, m: Msg, verdict: Verdict)
    requires VoterOk(votes, m.dst, n) && SendsVote(voters, n, m, verdict)
    ensures var r := Receive(voters, n, m, verdict);
      && r.current == m.current && r.lastVote == r.current && m.dst in voters
      && forall x :: x in votes && x.voter == m.dst ==> x.epoch < r.current
  {
  }

  lemma ReceiverVotes(voters: set<NodeId>, votes: set<Vote>, n: Node, m: Msg, verdict: Verdict)
    requires VoterOk(votes, m.dst, n)
    ensures VoterOk(votes, m.dst, Receive(voters, n, m, verdict))
    ensures SendsVote(voters, n, m, verdict) ==>
      VoterOk(votes + {Vote(m.dst, Receive(voters, n, m, verdict).current, m.src)}, m.dst, Receive(voters, n, m, verdict))
  {
  }

  lemma ReceiverAuth(voters: set<NodeId>, n: Node, m: Msg, verdict: Verdict)
    ensures var r := Receive(voters, n, m, verdict);
      r.auth == if HearsVote(voters, n, m) then n.auth.(count := n.auth.count + 1) else n.auth
    ensures HearsVote(voters, n, m) ==> n.auth.sent && m.current >= n.auth.epoch && m.src in voters && m.kind.AuthAck?
    ensures SendsVote(voters, n, m, verdict) ==> m.kind.AuthRequest?
  {
  }

  lemma ReceiverPast(voters: set<NodeId>, n: Node, m: Msg, verdict: Verdict, e: nat)
    requires Past(n, e)
    ensures Past(Receive(voters, n, m, verdict), e)
  {
  }

  lemma DeliverVoters(voters: set<NodeId>, s: System, m: Msg, verdict: Verdict)
    requires ElectionInv(voters, s) && m in s.net && m.dst in s.nodes
    ensures VotersOk(OnDeliver(voters, s, m, verdict))
    ensures OnePerEpoch(OnDeliver(voters, s, m, verdict).votes)
  {
    hide Receive, SendsVote, HearsVote, EpochInv, NetOk, CandidatesOk, WinsOk, OneAck;
    var n, s' := s.nodes[m.dst], OnDeliver(voters, s, m, verdict);
    assert VoterOk(s.votes, m.dst, n);
    ReceiverVotes(voters, s.votes, n, m, verdict);
    if SendsVote(voters, n, m, verdict) {
      VoteIsNew(voters, s.votes, n, m, verdict);
    }
    forall k | k in s'.nodes
      ensures VoterOk(s'.votes, k, s'.nodes[k])
    {
      assert VoterOk(s.votes, k, s.nodes[k]);
    }
  }

  lemma CandidateStays(voters: set<NodeId>, votes: set<Vote>, votes': set<Vote>, c: NodeId, n: Node, n': Node, heard: set<NodeId>)
    requires CandidateOk(voters, votes, c, n, heard) && votes <= votes' && n'.auth == n.auth
    ensures CandidateOk(voters, votes', c, n', heard)
  {
  }

  lemma CandidateHears(voters: set<NodeId>, votes: set<Vote>, c: NodeId, n: Node, n': Node, heard: set<NodeId>, v: NodeId)
    requires CandidateOk(voters, votes, c, n, heard) && n.auth.sent && n'.auth == n.auth.(count := n.auth.count + 1)
    requires v in voters && v !in heard && Vote(v, n.auth.epoch, c) in votes
    ensures CandidateOk(voters, votes, c, n', heard + {v})
  {
  }

  lemma MsgOk(voters: set<NodeId>, s: System, m: Msg)
    requires NetOk(voters, s) && m in s.net
    ensures RequestOk(s, m) && AckOk(voters, s, m)
  {
  }

  lemma DeliverCandidate(voters: set<NodeId>, s: System, m: Msg, verdict: Verdict, k: NodeId)
    requires m.dst in s.nodes && k in s.nodes && AckOk(voters, s, m)
    requires CandidateOk(voters, s.votes, k, s.nodes[k], HeardBy(s, k))
    ensures var s' := OnDeliver(voters, s, m, verdict); CandidateOk(voters, s'.votes, k, s'.nodes[k], HeardBy(s', k))
  {
    hide Receive, SendsVote, HearsVote, CandidateOk, Past;
    var n, s' := s.nodes[m.dst], OnDeliver(voters, s, m, verdict);
    ReceiverAuth(voters, n, m, verdict);
    if k == m.dst && HearsVote(voters, n, m) {
      CountedIsCurrent(n, m.current);
      CandidateHears(voters, s.votes, k, n, s'.nodes[k], HeardBy(s, k), m.src);
    } else {
      CandidateStays(voters, s.votes, s'.votes, k, s.nodes[k], s'.nodes[k], HeardBy(s, k));
    }
  }

  lemma DeliverCandidates(voters: set<NodeId>, s: System, m: Msg, verdict: Verdict)
    requires ElectionInv(voters, s) && m in s.net && m.dst in s.nodes
    ensures CandidatesOk(voters, OnDeliver(voters, s, m, verdict))
  {
    hide Receive, SendsVote, HearsVote, EpochInv, VotersOk, WinsOk, OneAck, OnePerEpoch, CandidateOk, NetOk, AckOk, HeardBy;
    var s' := OnDeliver(voters, s, m, verdict);
    MsgOk(voters, s, m);
    forall k | k in s'.nodes
      ensures CandidateOk(voters, s'.votes, k, s'.nodes[k], HeardBy(s', k))
    {
      DeliverCandidate(voters, s, m, verdict, k);
    }
  }

  lemma CountedIsCurrent(n: Node, e: nat)
    requires Past(n, e) && n.auth.sent && e >= n.auth.epoch
    ensures e == n.auth.epoch
  {
  }

  lemma OldMsgStays(voters: set<NodeId>, s: System, m: Msg, verdict: Verdict, x: Msg)
    requires NetOk(voters, s) && OneAck(s.net) && m in s.net && m.dst in s.nodes && x in s.net && x != m
    ensures RequestOk(OnDeliver(voters, s, m, verdict), x) && AckOk(voters, OnDeliver(voters, s, m, verdict), x)
  {
    hide Receive, SendsVote, HearsVote, Past;
    var n := s.nodes[m.dst];
    ReceiverAuth(voters, n, m, verdict);
    assert RequestOk(s, x) && AckOk(voters, s, x) && AckOk(voters, s, m);
    if Past(n, x.current) {
      ReceiverPast(voters, n, m, verdict, x.current);
    }
    assert HearsVote(voters, n, m) ==> m.current == n.auth.epoch by {
      if HearsVote(voters, n, m) {
        CountedIsCurrent(n, m.current);
      }
    }
  }

  lemma DeliverNet(voters: set<NodeId>, s: System, m: Msg, verdict: Verdict)
    requires ElectionInv(voters, s) && m in s.net && m.dst in s.nodes
    ensures NetOk(voters, OnDeliver(voters, s, m, verdict))
  {
    hide Receive, SendsVote, HearsVote, EpochInv, WinsOk, OnePerEpoch, AckOk, VotersOk, CandidatesOk;
    var s' := OnDeliver(voters, s, m, verdict);
    forall x | x in s'.net
      ensures RequestOk(s', x) && AckOk(voters, s', x)
    {
      if x in s.net && x != m {
        OldMsgStays(voters, s, m, verdict, x);
      } else {
        FreshAck(voters, s, m, verdict);
      }
    }
  }

  lemma DeliverOneAck(voters: set<NodeId>, s: System, m: Msg, verdict: Verdict)
    requires ElectionInv(voters, s) && m in s.net && m.dst in s.nodes
    ensures OneAck(OnDeliver(voters, s, m, verdict).net)
  {
    hide Receive, SendsVote, HearsVote, EpochInv, WinsOk, OnePerEpoch, CandidatesOk;
    var n, s' := s.nodes[m.dst], OnDeliver(voters, s, m, verdict);
    if SendsVote(voters, n, m, verdict) {
      assert VoterOk(s.votes, m.dst, n);
      VoteIsNew(voters, s.votes, n, m, verdict);
      forall x | x in s.net && x.kind.AuthAck? && x.src == m.dst
        ensures x.current < s'.nodes[m.dst].current
      {
        assert AckOk(voters, s, x);
      }
    }
  }

  lemma DeliverWins(voters: set<NodeId>, s: System, m: Msg, verdict: Verdict)
    requires WinsOk(voters, s) && m.dst in s.nodes
    ensures WinsOk(voters, OnDeliver(voters, s, m, verdict))
  {
    hide Receive, SendsVote, HearsVote;
    MoreVotesMoreSupport(voters, s, OnDeliver(voters, s, m, verdict));
  }

  lemma MoreVotesMoreSupport(voters: set<NodeId>, s: System, s': System)
    requires WinsOk(voters, s) && s.votes <= s'.votes && s'.wins == s.wins
    ensures WinsOk(voters, s')
  {
    forall w | w in s'.wins
      ensures |Supporters(voters, s'.votes, w.0, w.1)| >= Quorum(voters)
    {
      SubsetSize(Supporters(voters, s.votes, w.0, w.1), Supporters(voters, s'.votes, w.0, w.1));
    }
  }

  lemma {:induction false} SubsetSize<T>(a: set<T>, b: set<T>)
    requires a <= b
    ensures |a| <= |b|
  {
    if a != {} {
      var x :| x in a;
      SubsetSize(a - {x}, b - {x});
    }
  }

  /** A vote just sent was not counted before, nor can it be counted for an older election. */
  lemma FreshAck(voters: set<NodeId>, s: System, m: Msg, verdict: Verdict)
    requires ElectionInv(voters, s) && m in s.net && m.dst in s.nodes
    requires SendsVote(voters, s.nodes[m.dst], m, verdict)
    ensures AckOk(voters, OnDeliver(voters, s, m, verdict),
                  Header(Receive(voters, s.nodes[m.dst], m, verdict), m.dst, m.src, AuthAck))
  {
    hide Receive, SendsVote, HearsVote, EpochInv, WinsOk, OnePerEpoch, OneAck, Past;
    var n := s.nodes[m.dst];
    ReceiverAuth(voters, n, m, verdict);
    if Past(n, m.current) {
      ReceiverPast(voters, n, m, verdict, m.current);
    }
    assert RequestOk(s, m) && VoterOk(s.votes, m.dst, n);
    VoteIsNew(voters, s.votes, n, m, verdict);
    if m.src in s.nodes {
      assert CandidateOk(voters, s.votes, m.src, s.nodes[m.src], HeardBy(s, m.src));
    }
  }

  // The other steps.

  /** The node neither votes nor campaigns: at most its epoch rises, or it saves what it has. */
  predicate Calm(n: Node, r: Node) {
    && r.auth == n.auth && r.lastVote == n.lastVote && n.current <= r.current
    && (r.saved == n.saved || r.saved == Saved(n.current, n.lastVote, n.config))
  }

  lemma CalmVoter(votes: set<Vote>, v: NodeId, n: Node, r: Node)
    requires VoterOk(votes, v, n) && Calm(n, r)
    ensures VoterOk(votes, v, r)
  {
  }

  lemma CalmKeeps(voters: set<NodeId>, s: System, s': System)
    requires ElectionInv(voters, s) && EpochInv(s')
    requires s'.votes == s.votes && s'.wins == s.wins && s'.heard == s.heard && s'.nodes.Keys == s.nodes.Keys
    requires forall n :: n in s.nodes ==> Calm(s.nodes[n], s'.nodes[n])
    requires forall m :: m in s'.net ==> m in s.net || !(m.kind.AuthRequest? || m.kind.AuthAck?)
    ensures ElectionInv(voters, s')
  {
    hide EpochInv, WinsOk, VoterOk, CandidateOk, OnePerEpoch;
    MoreVotesMoreSupport(voters, s, s');
    forall n | n in s'.nodes
      ensures VoterOk(s'.votes, n, s'.nodes[n]) && CandidateOk(voters, s'.votes, n, s'.nodes[n], HeardBy(s', n))
    {
      CalmVoter(s.votes, n, s.nodes[n], s'.nodes[n]);
      CandidateStays(voters, s.votes, s.votes, n, s.nodes[n], s'.nodes[n], HeardBy(s, n));
    }
    forall m | m in s'.net
      ensures RequestOk(s', m) && AckOk(voters, s', m)
    {
      if m in s.net {
        assert RequestOk(s, m) && AckOk(voters, s, m);
      }
    }
  }

  lemma QuietStep(voters: set<NodeId>, s: System, step: Step)
    requires ElectionInv(voters, s) && Enabled(voters, s, step)
    requires step.Send? || step.Lose? || step.Meet? || step.Forget? || step.Follow? || step.SetEpoch? || step.Bump? || step.Save?
    ensures ElectionInv(voters, Next(voters, s, step))
  {
    hide ElectionInv, EpochInv;
    EpochPart(voters, s);
    StepEpochs(voters, s, step);
    var s' := Next(voters, s, step);
    CalmKeeps(voters, s, s');
  }

  lemma DeliverKeeps(voters: set<NodeId>, s: System, m: Msg, verdict: Verdict)
    requires ElectionInv(voters, s) && m in s.net && m.dst in s.nodes
    ensures ElectionInv(voters, OnDeliver(voters, s, m, verdict))
  {
    StepEpochs(voters, s, Deliver(m, verdict));
    DeliverVoters(voters, s, m, verdict);
    DeliverCandidates(voters, s, m, verdict);
    DeliverNet(voters, s, m, verdict);
    DeliverOneAck(voters, s, m, verdict);
    DeliverWins(voters, s, m, verdict);
    hide EpochInv, VotersOk, CandidatesOk, NetOk, OnePerEpoch, OneAck, WinsOk, Receive, SendsVote;
  }

  /** Scheduling and holding an election, and coming back from a crash, void older votes. */
  lemma CampaignKeeps(voters: set<NodeId>, s: System, step: Step)
    requires ElectionInv(voters, s) && Enabled(voters, s, step)
    requires step.Schedule? || step.Elect? || step.Crash?
    ensures ElectionInv(voters, Next(voters, s, step))
  {
    hide EpochInv, WinsOk, VotersOk, CandidatesOk, NetOk, OnePerEpoch, OneAck;
    StepEpochs(voters, s, step);
    CampaignNodes(voters, s, step);
    CampaignNet(voters, s, step);
    MoreVotesMoreSupport(voters, s, Next(voters, s, step));
  }

  lemma CampaignVoter(votes: set<Vote>, v: NodeId, n: Node, step: Step)
    requires VoterOk(votes, v, n) && (step.Schedule? || step.Elect? || step.Crash?)
    ensures VoterOk(votes, v, Campaigned(n, step))
  {
  }

  lemma CampaignCandidate(voters: set<NodeId>, votes: set<Vote>, c: NodeId, n: Node, step: Step, heard: set<NodeId>, after: set<NodeId>)
    requires CandidateOk(voters, votes, c, n, heard) && (step.Schedule? || step.Elect? || step.Crash?)
    requires step.Elect? ==> !n.auth.sent && after == {}
    ensures CandidateOk(voters, votes, c, Campaigned(n, step), after)
  {
  }

  lemma CampaignPast(n: Node, step: Step, e: nat)
    requires NodeEpochsOk(n) && Past(n, e) && (step.Schedule? || step.Elect? || (step.Crash? && e <= n.saved.current))
    ensures Past(Campaigned(n, step), e) && (step.Elect? ==> e < Campaigned(n, step).auth.epoch)
  {
  }

  lemma CampaignNodes(voters: set<NodeId>, s: System, step: Step)
    requires ElectionInv(voters, s) && Enabled(voters, s, step)
    requires step.Schedule? || step.Elect? || step.Crash?
    ensures VotersOk(Next(voters, s, step)) && CandidatesOk(voters, Next(voters, s, step))
  {
    hide EpochInv, WinsOk, NetOk, OnePerEpoch, OneAck, VoterOk, CandidateOk, Campaigned;
    var s', me := Next(voters, s, step), step.n;
    CampaignVoter(s.votes, me, s.nodes[me], step);
    CampaignCandidate(voters, s.votes, me, s.nodes[me], step, HeardBy(s, me), HeardBy(s', me));
    forall n | n in s'.nodes
      ensures VoterOk(s'.votes, n, s'.nodes[n]) && CandidateOk(voters, s'.votes, n, s'.nodes[n], HeardBy(s', n))
    {
      assert VoterOk(s.votes, n, s.nodes[n]) && CandidateOk(voters, s.votes, n, s.nodes[n], HeardBy(s, n));
    }
  }

  lemma CampaignNet(voters: set<NodeId>, s: System, step: Step)
    requires ElectionInv(voters, s) && Enabled(voters, s, step)
    requires step.Schedule? || step.Elect? || step.Crash?
    ensures NetOk(voters, Next(voters, s, step)) && OneAck(Next(voters, s, step).net)
  {
    hide WinsOk, VotersOk, CandidatesOk, OnePerEpoch, RequestOk, AckOk, NodeEpochsOk, Campaigned;
    var s', me := Next(voters, s, step), step.n;
    assert NodeEpochsOk(s.nodes[me]);
    forall m | m in s'.net
      ensures RequestOk(s', m) && AckOk(voters, s', m)
    {
      if m in s.net {
        MsgOk(voters, s, m);
        CampaignOldMsg(voters, s, step, m);
      } else {
        BallotOk(voters, s, step, m);
      }
    }
  }

  lemma BallotOk(voters: set<NodeId>, s: System, step: Step, m: Msg)
    requires Enabled(voters, s, step) && step.Elect? && NodeEpochsOk(s.nodes[step.n])
    requires m in Ballots(Campaigned(s.nodes[step.n], step), step.n, step.asked)
    ensures RequestOk(Next(voters, s, step), m) && AckOk(voters, Next(voters, s, step), m)
  {
  }

  lemma CampaignOldMsg(voters: set<NodeId>, s: System, step: Step, m: Msg)
    requires Enabled(voters, s, step) && (step.Schedule? || step.Elect? || step.Crash?) && NodeEpochsOk(s.nodes[step.n])
    requires m in Next(voters, s, step).net && m in s.net && RequestOk(s, m) && AckOk(voters, s, m)
    ensures RequestOk(Next(voters, s, step), m) && AckOk(voters, Next(voters, s, step), m)
  {
    hide Past, NodeEpochsOk, Campaigned, Ballots;
    var n := s.nodes[step.n];
    if Past(n, m.current) && (step.Crash? ==> m.current <= n.saved.current) {
      CampaignPast(n, step, m.current);
    }
    CampaignAuth(n, step);
  }

  lemma CampaignAuth(n: Node, step: Step)
    requires step.Schedule? || step.Elect? || step.Crash?
    ensures var a := Campaigned(n, step).auth; if step.Elect? then a.sent && a.epoch == n.current + 1 else !a.sent
  {
  }

  lemma WinKeeps(voters: set<NodeId>, s: System, c: NodeId)
    requires ElectionInv(voters, s) && Enabled(voters, s, Win(c))
    ensures ElectionInv(voters, Next(voters, s, Win(c)))
  {
    hide EpochInv, Supporters, VoterOk, OnePerEpoch, OneAck;
    StepEpochs(voters, s, Win(c));
    var n, s' := s.nodes[c], Next(voters, s, Win(c));
    var t := s'.(wins := s.wins);
    assert EpochInv(t) by {
      SameNodesSameEpochs(s', t);
    }
    CalmKeeps(voters, s, t);
    assert CandidateOk(voters, s.votes, c, n, HeardBy(s, c));
    WinnerSupport(voters, s.votes, c, n.auth.epoch, HeardBy(s, c));
  }

  lemma SameNodesSameEpochs(s: System, t: System)
    requires EpochInv(s) && t.nodes == s.nodes && t.net == s.net
    ensures EpochInv(t)
  {
  }

  lemma WinnerSupport(voters: set<NodeId>, votes: set<Vote>, c: NodeId, e: nat, heard: set<NodeId>)
    requires heard <= voters && forall v :: v in heard ==> Vote(v, e, c) in votes
    ensures |Supporters(voters, votes, c, e)| >= |heard|
  {
    SubsetSize(heard, Supporters(voters, votes, c, e));
  }

  lemma StepKeeps(voters: set<NodeId>, s: System, step: Step)
    requires ElectionInv(voters, s) && Enabled(voters, s, step)
    ensures ElectionInv(voters, Next(voters, s, step))
  {
    hide ElectionInv;
    match step
    case Deliver(m, verdict) => DeliverKeeps(voters, s, m, verdict);
    case Schedule(n) => CampaignKeeps(voters, s, step);
    case Elect(n, asked) => CampaignKeeps(voters, s, step);
    case Crash(n) => CampaignKeeps(voters, s, step);
    case Win(n) => WinKeeps(voters, s, n);
    case _ => QuietStep(voters, s, step);
  }

  // --- every run --------------------------------------------------------------------

  predicate Init(s: System) {
    && s.net == {} && s.votes == {} && s.wins == {} && s.heard == map[]
    && forall n :: n in s.nodes ==> NodeEpochsOk(s.nodes[n]) && s.nodes[n].auth == Auth(false, 0, 0)
  }

  ghost predicate IsRun(voters: set<NodeId>, states: seq<System>, steps: seq<Step>) {
    && |states| == |steps| + 1
    && Init(states[0])
    && forall i :: 0 <= i < |steps| ==>
         Enabled(voters, states[i], steps[i]) && states[i + 1] == Next(voters, states[i], steps[i])
  }

  lemma {:induction false} RunHolds(voters: set<NodeId>, states: seq<System>, steps: seq<Step>, i: nat)
    requires IsRun(voters, states, steps) && i < |states|
    ensures ElectionInv(voters, states[i])
  {
    if i > 0 {
      hide ElectionInv, Enabled, Next;
      RunHolds(voters, states, steps, i - 1);
      StepKeeps(voters, states[i - 1], steps[i - 1]);
    }
  }

  /** Two majorities of the same voters share a voter. */
  lemma QuorumsMeet(voters: set<NodeId>, a: set<NodeId>, b: set<NodeId>)
    requires a <= voters && b <= voters && |a| >= Quorum(voters) && |b| >= Quorum(voters)
    ensures exists v :: v in a && v in b
  {
    assert |a + b| == |a| + |b| - |a * b|;
    SubsetSize(a + b, voters);
    assert a * b != {};
    var v :| v in a * b;
    assert v in a && v in b;
  }

  /** The plain vote counter of an election is the number of different voters, each of which did vote for it in its epoch. */
  lemma CounterCountsVoters(voters: set<NodeId>, states: seq<System>, steps: seq<Step>, i: nat, c: NodeId)
    requires IsRun(voters, states, steps) && i < |states| && c in states[i].nodes && states[i].nodes[c].auth.sent
    ensures var auth, heard := states[i].nodes[c].auth, HeardBy(states[i], c);
      && auth.count == |heard| && heard <= voters
      && forall v :: v in heard ==> Vote(v, auth.epoch, c) in states[i].votes
  {
    RunHolds(voters, states, steps, i);
    assert CandidateOk(voters, states[i].votes, c, states[i].nodes[c], HeardBy(states[i], c));
  }

  /** Election safety: over a whole run, at most one replica is promoted under an epoch. */
  lemma OneWinnerPerEpoch(voters: set<NodeId>, states: seq<System>, steps: seq<Step>, i: nat, a: NodeId, b: NodeId, e: nat)
    requires IsRun(voters, states, steps) && i < |states|
    requires (a, e) in states[i].wins && (b, e) in states[i].wins
    ensures a == b
  {
    RunHolds(voters, states, steps, i);
    var votes := states[i].votes;
    var qa, qb := Supporters(voters, votes, a, e), Supporters(voters, votes, b, e);
    assert |qa| >= Quorum(voters) && |qb| >= Quorum(voters);
    QuorumsMeet(voters, qa, qb);
    var v :| v in qa && v in qb;
    assert Vote(v, e, a) in votes && Vote(v, e, b) in votes;
  }

  /** A new election's epoch is above every config epoch its candidate knows. */
  lemma ElectionEpochIsAboveAll(voters: set<NodeId>, states: seq<System>, steps: seq<Step>, i: nat, k: NodeId)
    requires IsRun(voters, states, steps) && i < |steps| && steps[i].Elect?
    ensures var n, r := states[i].nodes[steps[i].n], states[i + 1].nodes[steps[i].n];
      && r.auth.sent && r.auth.epoch == r.current > n.current
      && (k in n.config ==> n.config[k] < r.auth.epoch)
      && (forall m :: m in states[i].net && m.src == steps[i].n && m.kind.AuthRequest? ==> m.current < r.auth.epoch)
  {
    RunHolds(voters, states, steps, i);
    var s, c := states[i], steps[i].n;
    assert NodeEpochsOk(s.nodes[c]);
    forall m | m in s.net && m.src == c && m.kind.AuthRequest?
      ensures m.current <= s.nodes[c].current
    {
      assert RequestOk(s, m);
    }
  }

  /** A crash takes nothing off the wire when the node's last election epoch was saved: then it is a plain restart. */
  lemma SavedCrashLosesNothing(voters: set<NodeId>, states: seq<System>, steps: seq<Step>, i: nat)
    requires IsRun(voters, states, steps) && i < |steps| && steps[i].Crash?
    requires states[i].nodes[steps[i].n].saved.current >= states[i].nodes[steps[i].n].auth.epoch
    ensures states[i + 1].net == states[i].net
  {
    RunHolds(voters, states, steps, i);
    var s, c := states[i], steps[i].n;
    forall m | m in s.net
      ensures !Unsaved(c, s.nodes[c].saved, m)
    {
      assert RequestOk(s, m) && AckOk(voters, s, m);
    }
  }

  /** In every reachable state, on every node and on the wire, config epochs stay bounded. */
  lemma EpochsStayBounded(voters: set<NodeId>, states: seq<System>, steps: seq<Step>, i: nat, n: NodeId, k: NodeId, m: Msg)
    requires IsRun(voters, states, steps) && i < |states|
    ensures n in states[i].nodes && k in states[i].nodes[n].config ==>
      states[i].nodes[n].config[k] <= states[i].nodes[n].current
    ensures m in states[i].net ==> m.config <= m.current && (m.kind.Update? ==> m.kind.epoch <= m.current)
  {
    RunHolds(voters, states, steps, i);
    hide ElectionInv;
    assert EpochInv(states[i]) by {
      EpochPart(voters, states[i]);
    }
    if n in states[i].nodes {
      assert NodeEpochsOk(states[i].nodes[n]);
    }
    if m in states[i].net {
      assert MsgEpochsOk(m);
    }
  }

  lemma EpochPart(voters: set<NodeId>, s: System)
    requires ElectionInv(voters, s)
    ensures EpochInv(s)
  {
  }

  /**
   Two masters that meet under one config epoch: whichever of them hears the other
   first, only the one with the smaller name moves, to an epoch above both.
   */
  lemma CollisionMovesTheSmallerName(voters: set<NodeId>, n: Node, m: Msg, verdict: Verdict)
    requires NodeEpochsOk(n) && MsgEpochsOk(m) && m.kind.Ping? && m.src in n.config && m.src != m.dst
    requires Collides(Absorb(n, m), m.dst, m)
    ensures var r := Receive(voters, n, m, verdict);
      if m.dst < m.src
      then Epoch(r, m.dst) > Epoch(n, m.dst) && Epoch(r, m.dst) > Epoch(r, m.src) && Epoch(r, m.dst) == r.current
      else Epoch(r, m.dst) == Epoch(n, m.dst)
  {
    var a := Absorb(n, m);
    assert Epoch(a, m.src) <= a.current;
  }
}
