/**
 Why the votes of an election that its candidate had not saved must not outlive its
 crash: such a vote can be counted for an older election.
 */
module StaleVotes {
  import opened Prelude
  import opened ClusterBus

  const V: set<NodeId> := {0, 1, 2}

  /** A crash that takes nothing off the wire. */
  function CrashLeavingMail(s: System, n: NodeId): (s': System)
    requires n in s.nodes
  {
    s.(nodes := s.nodes[n := Reboot(s.nodes[n])])
  }

  /** A step of the cluster, or a crash between the broadcast of a vote request and the save of its epoch. */
  ghost predicate FaultyStep(s: System, s': System) {
    || (exists step :: Enabled(V, s, step) && s' == Next(V, s, step))
    || (exists n :: n in s.nodes && s.nodes[n].saved.current < s.nodes[n].auth.epoch && s' == CrashLeavingMail(s, n))
  }

  const Zeros: map<NodeId, nat> := map[0 := 0, 1 := 0, 2 := 0, 10 := 0, 11 := 0]

  const Fresh: Saved := Saved(0, 0, Zeros)

  function Voter(epoch: nat, me: NodeId): (n: Node) {
    Node(epoch, epoch, Zeros, me, Auth(false, 0, 0), Saved(epoch, epoch, Zeros))
  }

  function Candidate(epoch: nat, auth: Auth): (n: Node) {
    Node(epoch, 0, Zeros, 2, auth, Fresh)
  }

  function Request(c: NodeId, v: NodeId, e: nat): (m: Msg) {
    Msg(c, v, AuthRequest, true, e, 0)
  }

  function Ack(v: NodeId, c: NodeId, e: nat): (m: Msg) {
    Msg(v, c, AuthAck, false, e, 0)
  }

  lemma Elects(s: System, c: NodeId, asked: set<NodeId>, e: nat, past: Auth) returns (t: System)
    requires c in s.nodes && c !in V && c != 2 && s.nodes[c] == Candidate(e, past) && !past.sent
    ensures FaultyStep(s, t)
    ensures t == s.(nodes := s.nodes[c := Candidate(e + 1, Auth(true, e + 1, past.count))],
                    net := s.net + (set v | v in asked :: Request(c, v, e + 1)), heard := s.heard[c := {}])
  {
    hide Ballots;
    assert Enabled(V, s, Elect(c, asked));
    t := Next(V, s, Elect(c, asked));
    Requests(c, asked, e + 1, Auth(true, e + 1, past.count));
  }

  lemma Requests(c: NodeId, asked: set<NodeId>, e: nat, auth: Auth)
    requires c != 2
    ensures Ballots(Candidate(e, auth), c, asked) == set v | v in asked :: Request(c, v, e)
  {
    forall v | v in asked
      ensures Header(Candidate(e, auth), c, v, AuthRequest) == Request(c, v, e)
    {
    }
  }

  lemma Grants(s: System, c: NodeId, v: NodeId, e: nat, was: nat) returns (t: System)
    requires v in s.nodes && v in V && c in Zeros && s.nodes[v] == Voter(was, v) && was < e && Request(c, v, e) in s.net
    ensures FaultyStep(s, t)
    ensures t == s.(nodes := s.nodes[v := Voter(e, v)], net := s.net - {Request(c, v, e)} + {Ack(v, c, e)},
                    votes := s.votes + {Vote(v, e, c)})
  {
    hide Receive, HearsVote, SendsVote;
    var m := Request(c, v, e);
    assert Enabled(V, s, Deliver(m, Granted));
    t := Next(V, s, Deliver(m, Granted));
    GrantsOne(c, v, e, was);
  }

  lemma GrantsOne(c: NodeId, v: NodeId, e: nat, was: nat)
    requires v in V && c in Zeros && was < e
    ensures var n, m := Voter(was, v), Request(c, v, e);
      && Receive(V, n, m, Granted) == Voter(e, v) && SendsVote(V, n, m, Granted) && !HearsVote(V, n, m)
      && Header(Voter(e, v), v, c, AuthAck) == Ack(v, c, e)
  {
    assert Absorb(Voter(was, v), Request(c, v, e)).config == Zeros;
  }

  lemma Counts(s: System, c: NodeId, v: NodeId, e: nat, auth: Auth, heard: set<NodeId>) returns (t: System)
    requires c in s.nodes && v in V && auth.sent && auth.epoch <= e && Ack(v, c, e) in s.net
    requires s.nodes[c] == Candidate(auth.epoch, auth) && c in s.heard && s.heard[c] == heard
    ensures FaultyStep(s, t)
    ensures t == s.(nodes := s.nodes[c := Candidate(e, auth.(count := auth.count + 1))], net := s.net - {Ack(v, c, e)},
                    heard := s.heard[c := heard + {v}])
  {
    hide Receive, HearsVote, SendsVote;
    var m := Ack(v, c, e);
    assert Enabled(V, s, Deliver(m, Refused));
    t := Next(V, s, Deliver(m, Refused));
    CountsOne(c, v, e, auth);
  }

  lemma CountsOne(c: NodeId, v: NodeId, e: nat, auth: Auth)
    requires v in V && auth.sent && auth.epoch <= e
    ensures var n, m := Candidate(auth.epoch, auth), Ack(v, c, e);
      && Receive(V, n, m, Refused) == Candidate(e, auth.(count := auth.count + 1))
      && HearsVote(V, n, m) && !SendsVote(V, n, m, Refused)
  {
    assert Absorb(Candidate(auth.epoch, auth), Ack(v, c, e)).config == Zeros;
  }

  lemma Wins(s: System, c: NodeId, e: nat, auth: Auth) returns (t: System)
    requires c in s.nodes && c !in V && c != 2 && s.nodes[c] == Candidate(e, auth) && auth.sent && auth.count == 2
    ensures FaultyStep(s, t)
    ensures t.wins == s.wins + {(c, auth.epoch)} && t.net == s.net && t.votes == s.votes && t.heard == s.heard
    ensures forall n :: n in s.nodes && n != c ==> n in t.nodes && t.nodes[n] == s.nodes[n]
  {
    assert |V| == 3;
    assert Enabled(V, s, Win(c));
    t := Next(V, s, Win(c));
  }

  const Start: System :=
    System(map[0 := Voter(0, 0), 1 := Voter(0, 1), 2 := Voter(0, 2),
               10 := Candidate(0, Auth(false, 0, 0)), 11 := Candidate(0, Auth(false, 0, 0))], {}, {}, map[], {})

  /** Consecutive states of a faulty run. */
  ghost predicate Path(states: seq<System>) {
    states != [] && forall i :: 0 <= i < |states| - 1 ==> FaultyStep(states[i], states[i + 1])
  }

  /** Candidate 11 gets the votes of 0 and 2 in epoch 1. */
  lemma ElevenAsks() returns (states: seq<System>)
    ensures |states| == 4 && Path(states) && states[0] == Start
    ensures states[3] ==
      System(map[0 := Voter(1, 0), 1 := Voter(0, 1), 2 := Voter(1, 2),
                 10 := Candidate(0, Auth(false, 0, 0)), 11 := Candidate(1, Auth(true, 1, 0))],
             {Ack(0, 11, 1), Ack(2, 11, 1)}, {Vote(0, 1, 11), Vote(2, 1, 11)}, map[11 := {}], {})
  {
    hide FaultyStep;
    var a := Elects(Start, 11, {0, 2}, 0, Auth(false, 0, 0));
    assert a.net == {Request(11, 0, 1), Request(11, 2, 1)};
    var b := Grants(a, 11, 0, 1, 0);
    var c := Grants(b, 11, 2, 1, 0);
    assert c.net == {Ack(0, 11, 1), Ack(2, 11, 1)};
    states := [Start, a, b, c];
  }

  /** It counts them and wins. */
  lemma ElevenCounts(s: System) returns (states: seq<System>)
    requires 11 in s.nodes && s.nodes[11] == Candidate(1, Auth(true, 1, 0)) && 11 in s.heard && s.heard[11] == {}
    requires s.net == {Ack(0, 11, 1), Ack(2, 11, 1)} && s.wins == {}
    ensures |states| == 4 && Path(states) && states[0] == s
    ensures var t := states[3];
      t.wins == {(11, 1)} && t.net == {} && forall n :: n in s.nodes && n != 11 ==> n in t.nodes && t.nodes[n] == s.nodes[n]
  {
    hide FaultyStep, Candidate, Voter;
    var d := Counts(s, 11, 0, 1, Auth(true, 1, 0), {});
    var e := Counts(d, 11, 2, 1, Auth(true, 1, 1), {0});
    var f := Wins(e, 11, 1, Auth(true, 1, 2));
    states := [s, d, e, f];
    assert e.net == {};
  }

  /** Candidate 11 wins epoch 1 with the votes of 0 and 2. */
  lemma ElevenWins() returns (states: seq<System>)
    ensures Path(states) && states[0] == Start
    ensures var s := states[|states| - 1];
      && s.wins == {(11, 1)} && s.net == {} && 0 in s.nodes && 1 in s.nodes && 10 in s.nodes
      && s.nodes[0] == Voter(1, 0) && s.nodes[1] == Voter(0, 1) && s.nodes[10] == Candidate(0, Auth(false, 0, 0))
  {
    hide FaultyStep, Path, Voter, Candidate;
    var p := ElevenAsks();
    var q := ElevenCounts(p[3]);
    Joins(p, q);
    states := p + q[1..];
  }

  lemma Reschedules(s: System, c: NodeId, e: nat) returns (t: System)
    requires c in s.nodes && c !in V && c != 2 && s.nodes[c] == Candidate(e, Auth(true, e, 0))
    ensures FaultyStep(s, t)
    ensures t == s.(nodes := s.nodes[c := Candidate(e, Auth(false, e, 0))])
  {
    assert Enabled(V, s, Schedule(c));
    t := Next(V, s, Schedule(c));
  }

  /** Candidate 10 asks voter 0 in epoch 2 and crashes before saving; the vote stays in flight. */
  lemma TenCrashes(s: System) returns (states: seq<System>)
    requires s.net == {} && 0 in s.nodes && 1 in s.nodes && 10 in s.nodes
    requires s.nodes[0] == Voter(1, 0) && s.nodes[1] == Voter(0, 1) && s.nodes[10] == Candidate(0, Auth(false, 0, 0))
    ensures Path(states) && states[0] == s
    ensures var t := states[|states| - 1];
      && t.wins == s.wins && t.net == {Ack(0, 10, 2)} && 1 in t.nodes && 10 in t.nodes
      && t.nodes[1] == Voter(0, 1) && t.nodes[10] == Candidate(0, Auth(false, 0, 0))
  {
    hide FaultyStep;
    var a := Elects(s, 10, {}, 0, Auth(false, 0, 0));
    var b := Reschedules(a, 10, 1);
    var c := Elects(b, 10, {0}, 1, Auth(false, 1, 0));
    assert c.net == {Request(10, 0, 2)};
    var d := Grants(c, 10, 0, 2, 1);
    var e := CrashLeavingMail(d, 10);
    assert FaultyStep(d, e) by {
      CrashIsFaulty(d, 10);
    }
    states := [s, a, b, c, d, e];
    assert e.net == {Ack(0, 10, 2)};
  }

  lemma CrashIsFaulty(s: System, n: NodeId)
    requires n in s.nodes && s.nodes[n].saved.current < s.nodes[n].auth.epoch
    ensures FaultyStep(s, CrashLeavingMail(s, n))
  {
  }

  /** Restarted, it wins epoch 1 with one vote of that epoch and the stale one of epoch 2. */
  lemma TenWins(s: System) returns (states: seq<System>)
    requires s.net == {Ack(0, 10, 2)} && 1 in s.nodes && 10 in s.nodes
    requires s.nodes[1] == Voter(0, 1) && s.nodes[10] == Candidate(0, Auth(false, 0, 0))
    ensures Path(states) && states[0] == s && states[|states| - 1].wins == s.wins + {(10, 1)}
  {
    hide FaultyStep;
    var a := Elects(s, 10, {1}, 0, Auth(false, 0, 0));
    assert a.net == {Ack(0, 10, 2), Request(10, 1, 1)};
    var b := Grants(a, 10, 1, 1, 0);
    var c := Counts(b, 10, 1, 1, Auth(true, 1, 0), {});
    var d := Counts(c, 10, 0, 2, Auth(true, 1, 1), {1});
    var e := Wins(d, 10, 2, Auth(true, 1, 2));
    states := [s, a, b, c, d, e];
  }

  lemma Joins(p: seq<System>, q: seq<System>)
    requires Path(p) && Path(q) && p[|p| - 1] == q[0]
    ensures Path(p + q[1..])
  {
    hide FaultyStep;
    var r := p + q[1..];
    forall i | 0 <= i < |r| - 1
      ensures FaultyStep(r[i], r[i + 1])
    {
      if i >= |p| - 1 {
        assert r[i] == q[i - (|p| - 1)] && r[i + 1] == q[i - (|p| - 1) + 1];
      }
    }
  }

  /**
   If a candidate crashes before it saved its election's epoch and the votes for it
   still arrive, two replicas can both be promoted under the same epoch, although no
   voter ever votes twice in it.
   */
  lemma SurvivingVoteElectsTwo() returns (states: seq<System>)
    ensures Path(states) && Init(states[0])
    ensures (10, 1) in states[|states| - 1].wins && (11, 1) in states[|states| - 1].wins
  {
    hide FaultyStep;
    var p := ElevenWins();
    var q := TenCrashes(p[|p| - 1]);
    var r := TenWins(q[|q| - 1]);
    Joins(p, q);
    var pq := p + q[1..];
    assert pq[|pq| - 1] == q[|q| - 1];
    Joins(pq, r);
    states := pq + r[1..];
    assert states[|states| - 1] == r[|r| - 1];
  }
}
