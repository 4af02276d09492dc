/**
 A planned handover: a replica asks its master to pause, waits until it has applied the
 offset the paused master reports, is elected, and claims the master's slots. One
 attempt, from the request on, with any interleaving of clients, messages and timeouts.
 */
module ManualFailover {
  import opened Prelude

  const TIMEOUT := 5000   // milliseconds a pause lasts

  type Write = nat

  type Log = seq<Write>

  datatype Master = Master(
    stream: Log,        // every write it ran and acknowledged, in order, with its own heartbeats
    held: Log,          // writes that arrived during the pause
    redirected: Log,    // writes refused because the slots are no longer here
    begun: bool,        // the request has arrived
    paused: bool,
    mfEnd: int,         // when the pause ends by itself
    timedOut: bool,     // it did
    demoted: bool)      // the claim has arrived

  datatype Replica = Replica(
    applied: Log,
    asked: bool,
    mf: bool,                  // an attempt is going on
    mfEnd: int,
    mfOffset: Option<nat>,     // what the paused master reported
    canStart: bool,            // and it has all been applied
    promoted: bool,
    inTime: bool)              // before the end of the master's pause

  /** Reports and claims in flight may arrive late, more than once or never; the request arrives at most once. */
  datatype Msg = MfStart | Ping(paused: bool, offset: nat) | Claims

  datatype State = State(now: int, m: Master, r: Replica, net: set<Msg>, offered: multiset<Write>)

  datatype Step =
    | Tick(to: int)
    | ClientWrites(w: Write)
    | Heartbeats(w: Write)
    | Resumes
    | Replicates
    | Asks
    | GetsMfStart
    | Pings
    | GetsPing(paused: bool, offset: nat)
    | ChecksOffset
    | ReplicaTimesOut
    | Promotes
    | MasterTimesOut
    | GetsClaim
    | Drops(msg: Msg)

  predicate Enabled(s: State, step: Step) {
    match step
    case Tick(to) => to >= s.now
    case ClientWrites(_) => true
    case Heartbeats(_) => !s.m.paused && !s.m.demoted
    case Resumes => !s.m.paused && s.m.held != []
    case Replicates => !s.r.promoted && |s.r.applied| < |s.m.stream|
    case Asks => !s.r.asked && !s.r.promoted
    case GetsMfStart => MfStart in s.net && !s.m.demoted
    case Pings => !s.m.demoted
    case GetsPing(p, o) => Ping(p, o) in s.net
    case ChecksOffset => s.r.mf && !s.r.canStart && s.r.mfOffset == Some(|s.r.applied|) && !s.r.promoted
    case ReplicaTimesOut => s.r.mf && s.now > s.r.mfEnd
    case Promotes => s.r.mf && s.r.canStart && !s.r.promoted
    case MasterTimesOut => s.m.paused && s.now > s.m.mfEnd
    case GetsClaim => Claims in s.net
    case Drops(msg) => msg in s.net
  }

  function Runs(m: Master, w: Write): (r: Master) {
    m.(stream := m.stream + [w])
  }

  function MasterNext(s: State, step: Step): (r: Master)
    requires Enabled(s, step)
  {
    match step
    case ClientWrites(w) =>
      if s.m.paused then s.m.(held := s.m.held + [w])
      else if s.m.demoted then s.m.(redirected := s.m.redirected + [w])
      else Runs(s.m, w)
    case Heartbeats(w) => Runs(s.m, w)
    case Resumes =>
      var rest := s.m.(held := s.m.held[1..]);
      if s.m.demoted then rest.(redirected := s.m.redirected + [s.m.held[0]]) else Runs(rest, s.m.held[0])
    case GetsMfStart => s.m.(begun := true, paused := true, mfEnd := s.now + TIMEOUT)
    case MasterTimesOut => s.m.(paused := false, timedOut := true)
    case GetsClaim => s.m.(paused := false, demoted := true)
    case _ => s.m
  }

  function ReplicaNext(s: State, step: Step): (r: Replica)
    requires Enabled(s, step)
  {
    match step
    case Replicates => s.r.(applied := s.r.applied + [s.m.stream[|s.r.applied|]])
    case Asks => s.r.(asked := true, mf := true, mfEnd := s.now + TIMEOUT, mfOffset := None, canStart := false)
    case GetsPing(p, o) => if p && s.r.mf && s.r.mfOffset.None? then s.r.(mfOffset := Some(o)) else s.r
    case ChecksOffset => s.r.(canStart := true)
    case ReplicaTimesOut => s.r.(mf := false, mfOffset := None, canStart := false)
    case Promotes => s.r.(promoted := true, inTime := s.now <= s.m.mfEnd, mf := false, mfOffset := None, canStart := false)
    case _ => s.r
  }

  function NetNext(s: State, step: Step): (r: set<Msg>)
    requires Enabled(s, step)
  {
    match step
    case Asks => s.net + {MfStart}
    case GetsMfStart => s.net - {MfStart} + {Ping(true, |s.m.stream|)}
    case Pings => s.net + {Ping(s.m.paused, |s.m.stream|)}
    case Promotes => s.net + {Claims}
    case Drops(msg) => s.net - {msg}
    case _ => s.net
  }

  function Next(s: State, step: Step): (r: State)
    requires Enabled(s, step)
  {
    State(
      if step.Tick? then step.to else s.now,
      MasterNext(s, step), ReplicaNext(s, step), NetNext(s, step),
      if step.ClientWrites? || step.Heartbeats? then s.offered + multiset{step.w} else s.offered)
  }

  predicate Init(s: State) {
    && !s.m.begun && !s.m.paused && !s.m.timedOut && !s.m.demoted && s.m.held == [] && s.m.redirected == []
    && !s.r.asked && !s.r.mf && s.r.mfOffset.None? && !s.r.canStart && !s.r.promoted && !s.r.inTime
    && s.r.applied <= s.m.stream && s.net == {} && s.offered == multiset(s.m.stream)
  }

  // --- what every step keeps ------------------------------------------------------------

  /** The request is made and arrives at most once; only a begun pause can be reported. */
  predicate OneAttempt(s: State) {
    && (s.m.begun || MfStart in s.net ==> s.r.asked)
    && (s.m.begun ==> MfStart !in s.net)
    && (s.m.paused || s.m.timedOut || s.r.mfOffset.Some? ==> s.m.begun)
    && (s.m.begun && !s.m.paused ==> s.m.timedOut || s.m.demoted)
    && (s.m.demoted || Claims in s.net ==> s.r.promoted)
    && (s.m.demoted ==> !s.m.paused)
    && (s.r.canStart ==> s.r.mfOffset.Some?)
    && (s.m.timedOut ==> s.now > s.m.mfEnd)
  }

  /** Every report of a pause in flight is of a pause that began, and of the offset the master has while it lasts. */
  ghost predicate Reports(m: Master, net: set<Msg>) {
    forall msg :: msg in net && msg.Ping? && msg.paused ==> m.begun && (m.paused ==> msg.offset == |m.stream|)
  }

  /** While the pause lasts, what the replica was told is still true. */
  predicate Frozen(m: Master, r: Replica) {
    m.paused ==>
      && (r.mfOffset.Some? ==> r.mfOffset.value == |m.stream|)
      && (r.canStart && !r.promoted ==> |r.applied| == |m.stream|)
  }

  /** A replica promoted in time has the master's whole stream, as long as the pause did not run out. */
  predicate Following(m: Master, r: Replica) {
    && (!r.promoted ==> r.applied <= m.stream)
    && (r.inTime ==> r.promoted && (m.paused || m.demoted || m.timedOut))
    && (r.inTime && !m.timedOut ==> m.stream == r.applied)
  }

  /** No write disappears: each one ran, waits, or was sent elsewhere. */
  predicate Ledger(ran: Log, held: Log, redirected: Log, offered: multiset<Write>) {
    multiset(ran) + multiset(held) + multiset(redirected) == offered
  }

  ghost predicate Inv(s: State) {
    OneAttempt(s) && Reports(s.m, s.net) && Frozen(s.m, s.r) && Following(s.m, s.r)
    && Ledger(s.m.stream, s.m.held, s.m.redirected, s.offered)
  }

  lemma OneAttemptKept(s: State, step: Step)
    requires Enabled(s, step) && OneAttempt(s) && Reports(s.m, s.net)
    ensures OneAttempt(Next(s, step))
  {
  }

  lemma ReportsKept(s: State, step: Step)
    requires Enabled(s, step) && OneAttempt(s) && Reports(s.m, s.net)
    ensures Reports(MasterNext(s, step), NetNext(s, step))
  {
    forall msg | msg in NetNext(s, step) && msg.Ping? && msg.paused
      ensures MasterNext(s, step).begun && (MasterNext(s, step).paused ==> msg.offset == |MasterNext(s, step).stream|)
    {
      assert msg in s.net || msg.offset == |s.m.stream|;
    }
  }

  lemma FrozenKept(s: State, step: Step)
    requires Enabled(s, step) && OneAttempt(s) && Reports(s.m, s.net) && Frozen(s.m, s.r) && Following(s.m, s.r)
    ensures Frozen(MasterNext(s, step), ReplicaNext(s, step))
  {
  }

  lemma FollowingKept(s: State, step: Step)
    requires Enabled(s, step) && OneAttempt(s) && Frozen(s.m, s.r) && Following(s.m, s.r)
    ensures Following(MasterNext(s, step), ReplicaNext(s, step))
  {
  }

  lemma LedgerKept(s: State, step: Step)
    requires Enabled(s, step) && Ledger(s.m.stream, s.m.held, s.m.redirected, s.offered)
    ensures var t := Next(s, step); Ledger(t.m.stream, t.m.held, t.m.redirected, t.offered)
  {
    hide Ledger;
    match step {
      case ClientWrites(w) => Entered(s.m.stream, s.m.held, s.m.redirected, s.offered, w);
      case Heartbeats(w) => Entered(s.m.stream, s.m.held, s.m.redirected, s.offered, w);
      case Resumes => Released(s.m.stream, s.m.held, s.m.redirected, s.offered);
      case _ =>
    }
  }

  lemma Entered(ran: Log, held: Log, redirected: Log, offered: multiset<Write>, w: Write)
    requires Ledger(ran, held, redirected, offered)
    ensures Ledger(ran + [w], held, redirected, offered + multiset{w})
    ensures Ledger(ran, held + [w], redirected, offered + multiset{w})
    ensures Ledger(ran, held, redirected + [w], offered + multiset{w})
  {
  }

  lemma Released(ran: Log, held: Log, redirected: Log, offered: multiset<Write>)
    requires Ledger(ran, held, redirected, offered) && held != []
    ensures Ledger(ran + [held[0]], held[1..], redirected, offered)
    ensures Ledger(ran, held[1..], redirected + [held[0]], offered)
  {
    assert held == [held[0]] + held[1..];
  }

  lemma StepKeeps(s: State, step: Step)
    requires Inv(s) && Enabled(s, step)
    ensures Inv(Next(s, step))
  {
    hide OneAttempt, Reports, Frozen, Following, Ledger, Enabled, MasterNext, ReplicaNext, NetNext;
    OneAttemptKept(s, step);
    ReportsKept(s, step);
    FrozenKept(s, step);
    FollowingKept(s, step);
    LedgerKept(s, step);
  }

  // --- whole runs -------------------------------------------------------------------------

  ghost predicate IsRun(states: seq<State>, steps: seq<Step>) {
    && |states| == |steps| + 1 && Init(states[0])
    && forall i :: 0 <= i < |steps| ==> Enabled(states[i], steps[i]) && states[i + 1] == Next(states[i], steps[i])
  }

  lemma {:induction false} RunHolds(states: seq<State>, steps: seq<Step>, i: nat)
    requires IsRun(states, steps) && i < |states|
    ensures Inv(states[i])
  {
    hide Next, Enabled, Inv;
    if i == 0 {
      InitHolds(states[0]);
    } else {
      RunHolds(states, steps, i - 1);
      StepKeeps(states[i - 1], steps[i - 1]);
    }
  }

  lemma InitHolds(s: State)
    requires Init(s)
    ensures Inv(s)
  {
  }

  /**
   A promotion that comes before the end of the master's pause finds the replica with
   every write the master ever acknowledged, and the master still paused.
   */
  lemma PromotionLosesNothing(states: seq<State>, steps: seq<Step>, i: nat)
    requires IsRun(states, steps) && i < |steps| && steps[i] == Promotes && states[i].now <= states[i].m.mfEnd
    ensures states[i].r.applied == states[i].m.stream && states[i].m.paused
    ensures states[i + 1].r.inTime
  {
    RunHolds(states, steps, i);
    var s := states[i];
    assert Enabled(s, steps[i]);
    assert s.m.paused;
    assert s.r.applied <= s.m.stream && |s.r.applied| == |s.m.stream|;
  }

  /** Being promoted in time, the pause having run out and the demotion are for good. */
  lemma {:induction false} LaterOn(states: seq<State>, steps: seq<Step>, i: nat, j: nat)
    requires IsRun(states, steps) && i <= j < |states|
    ensures states[i].r.promoted ==> states[j].r.promoted && states[j].r.inTime == states[i].r.inTime
    ensures states[i].r.promoted ==> states[j].r.applied == states[i].r.applied
    ensures states[i].m.demoted ==> states[j].m.demoted && states[j].m.timedOut == states[i].m.timedOut
    ensures states[i].m.timedOut ==> states[j].m.timedOut
  {
    if i < j {
      LaterOn(states, steps, i, j - 1);
      RunHolds(states, steps, j - 1);
      OneLater(states[j - 1], steps[j - 1]);
    }
  }

  lemma OneLater(s: State, step: Step)
    requires Inv(s) && Enabled(s, step)
    ensures s.r.promoted ==> Next(s, step).r.promoted && Next(s, step).r.inTime == s.r.inTime
    ensures s.r.promoted ==> Next(s, step).r.applied == s.r.applied
    ensures s.m.demoted ==> Next(s, step).m.demoted && Next(s, step).m.timedOut == s.m.timedOut
    ensures s.m.timedOut ==> Next(s, step).m.timedOut
  {
    hide Ledger, Reports;
  }

  /**
   If moreover the claim reaches the old master by the end of its pause, that master never
   runs another write: whatever it held or still receives is held back or redirected, and
   its stream stays what the promoted replica has.
   */
  lemma NothingRunsOnTheOldMaster(states: seq<State>, steps: seq<Step>, i: nat, c: nat, j: nat)
    requires IsRun(states, steps) && i < c < |steps| && i < j < |states|
    requires steps[i] == Promotes && states[i].now <= states[i].m.mfEnd
    requires steps[c] == GetsClaim && !states[c].m.demoted && states[c].now <= states[c].m.mfEnd
    ensures states[j].m.stream == states[j].r.applied == states[i].r.applied
    ensures j > c ==> states[j].m.demoted && !states[j].m.paused
  {
    PromotionLosesNothing(states, steps, i);
    LaterOn(states, steps, i + 1, j);
    RunHolds(states, steps, j);
    RunHolds(states, steps, c);
    NotYet(states, steps, j, c);
  }

  lemma NotYet(states: seq<State>, steps: seq<Step>, j: nat, c: nat)
    requires IsRun(states, steps) && c < |steps| && j < |states|
    requires steps[c] == GetsClaim && states[c].now <= states[c].m.mfEnd
    ensures !states[j].m.timedOut && (j > c ==> states[j].m.demoted && !states[j].m.paused)
  {
    RunHolds(states, steps, c);
    RunHolds(states, steps, j);
    assert states[c + 1] == Next(states[c], steps[c]);
    if j <= c {
      LaterOn(states, steps, j, c);
    } else {
      LaterOn(states, steps, c + 1, j);
    }
  }

  /** All writes clients ever sent are accounted for, in every state of every run. */
  lemma NoWriteDisappears(states: seq<State>, steps: seq<Step>, i: nat)
    requires IsRun(states, steps) && i < |states|
    ensures var m := states[i].m;
      multiset(m.stream) + multiset(m.held) + multiset(m.redirected) == states[i].offered
  {
    RunHolds(states, steps, i);
  }

  // --- and when the claim comes too late ------------------------------------------------------

  /** After a promotion in time the old master runs something only once its pause has run out before the claim came. */
  lemma OnlyAnEndedPauseRuns(states: seq<State>, steps: seq<Step>, j: nat)
    requires IsRun(states, steps) && j < |states| && states[j].r.inTime && states[j].m.stream != states[j].r.applied
    ensures states[j].m.timedOut && states[j].now > states[j].m.mfEnd
  {
    RunHolds(states, steps, j);
  }

  /**
   Exactly then: when a pause is over after a promotion in time, the first held write runs on
   the old master if and only if the claim has not arrived, which is to say the pause ran out first.
   */
  lemma HeldWriteRunsIff(states: seq<State>, steps: seq<Step>, j: nat)
    requires IsRun(states, steps) && j < |states| && states[j].r.inTime && !states[j].m.paused && states[j].m.held != []
    ensures Enabled(states[j], Resumes)
    ensures Next(states[j], Resumes).m.stream == states[j].m.stream + [states[j].m.held[0]] <==> !states[j].m.demoted
    ensures Next(states[j], Resumes).m.redirected == states[j].m.redirected + [states[j].m.held[0]] <==> states[j].m.demoted
    ensures !states[j].m.demoted ==> states[j].m.timedOut && states[j].now > states[j].m.mfEnd
  {
    RunHolds(states, steps, j);
  }

  // A run in nine steps, told by the states after its third, its fifth and its last.

  const START: State := State(
    0, Master([], [], [], false, false, 0, false, false), Replica([], false, false, 0, None, false, false, false), {}, multiset{})

  const REPORTED: State := State(
    0, Master([], [], [], true, true, TIMEOUT, false, false), Replica([], true, true, TIMEOUT, Some(0), false, false, false),
    {Ping(true, 0)}, multiset{})

  const READY: State := State(
    0, Master([], [7], [], true, true, TIMEOUT, false, false), Replica([], true, true, TIMEOUT, Some(0), true, false, false),
    {Ping(true, 0)}, multiset{7})

  const LATE: State := State(
    TIMEOUT + 1, Master([7], [], [], true, false, TIMEOUT, true, false),
    Replica([], true, false, TIMEOUT, None, false, true, true), {Ping(true, 0), Claims}, multiset{7})

  ghost predicate Path(states: seq<State>, steps: seq<Step>) {
    && |states| == |steps| + 1
    && forall i :: 0 <= i < |steps| ==> Enabled(states[i], steps[i]) && states[i + 1] == Next(states[i], steps[i])
  }

  lemma Reporting() returns (states: seq<State>)
    ensures Path(states, [Asks, GetsMfStart, GetsPing(true, 0)]) && states[0] == START && states[3] == REPORTED
  {
    var s1 := Next(START, Asks);
    var s2 := Next(s1, GetsMfStart);
    assert s2.net == {Ping(true, 0)};
    states := [START, s1, s2, Next(s2, GetsPing(true, 0))];
  }

  lemma Readying() returns (states: seq<State>)
    ensures Path(states, [ChecksOffset, ClientWrites(7)]) && states[0] == REPORTED && states[2] == READY
  {
    var s1 := Next(REPORTED, ChecksOffset);
    states := [REPORTED, s1, Next(s1, ClientWrites(7))];
  }

  lemma RunningLate() returns (states: seq<State>)
    ensures Path(states, [Promotes, Tick(TIMEOUT + 1), MasterTimesOut, Resumes]) && states[0] == READY && states[4] == LATE
  {
    var s1 := Next(READY, Promotes);
    var s2 := Next(s1, Tick(TIMEOUT + 1));
    var s3 := Next(s2, MasterTimesOut);
    states := [READY, s1, s2, s3, Next(s3, Resumes)];
  }

  lemma PathsJoin(a: seq<State>, p: seq<Step>, b: seq<State>, q: seq<Step>)
    requires Path(a, p) && Path(b, q) && a[|p|] == b[0]
    ensures Path(a + b[1..], p + q)
  {
    hide Enabled, Next;
    var c, r := a + b[1..], p + q;
    forall i | 0 <= i < |r|
      ensures Enabled(c[i], r[i]) && c[i + 1] == Next(c[i], r[i])
    {
      if i >= |p| {
        assert c[i] == b[i - |p|] && c[i + 1] == b[i + 1 - |p|];
      }
    }
  }

  /**
   A claim that is still on its way when the pause runs out does not help: a write held
   during the pause then runs on the old master and is acknowledged, though the replica
   that was promoted in time does not have it.
   */
  lemma LateClaimRunsHeldWrites() returns (states: seq<State>, steps: seq<Step>)
    ensures IsRun(states, steps) && |steps| == 9
    ensures steps[5] == Promotes && states[5].now <= states[5].m.mfEnd
    ensures Claims in states[9].net && states[9].m.stream == [7] && states[9].r.applied == []
  {
    hide Enabled, Next;
    var a := Reporting();
    var b := Readying();
    var c := RunningLate();
    PathsJoin(a, [Asks, GetsMfStart, GetsPing(true, 0)], b, [ChecksOffset, ClientWrites(7)]);
    var ab := [Asks, GetsMfStart, GetsPing(true, 0)] + [ChecksOffset, ClientWrites(7)];
    PathsJoin(a + b[1..], ab, c, [Promotes, Tick(TIMEOUT + 1), MasterTimesOut, Resumes]);
    states := a + b[1..] + c[1..];
    steps := ab + [Promotes, Tick(TIMEOUT + 1), MasterTimesOut, Resumes];
  }
}
