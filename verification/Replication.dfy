/**
 PSYNC2 replication between any number of nodes.

 A replid names a history: the dataset a master held when its stream began and
 the stream bytes that follow. A dataset is kept as the log of everything that
 produced it, so equal logs mean equal datasets for every way of applying them.
 Each step below is one event-loop action of one node, or a failure of one link.
 */
module Replication {
  import opened Prelude

  type NodeId = nat
  type ReplId = Bytes   // a 40-character random name; fresh ones are never seen before
  type Log = Bytes

  datatype History = History(base: Log, bytes: Bytes) {
    /** The dataset after the first `k` stream bytes. */
    function Upto(k: nat): (d: Log)
      requires k <= |bytes|
    {
      base + bytes[..k]
    }
  }

  /** A replica's connection to its master, with the bytes still on the wire. */
  datatype Link =
    | Idle
    | Asked(peer: NodeId, name: Option<ReplId>, from: nat)   // PSYNC sent, not answered
    | Waiting(peer: NodeId)                                  // queued for the next snapshot
    | Continued(peer: NodeId, id: ReplId, chan: Bytes, open: bool)
    | Snapshot(peer: NodeId, id: ReplId, at: nat, image: Log, chan: Bytes, open: bool)
    | Connected(peer: NodeId, chan: Bytes, open: bool)

  datatype Node = Node(
    replid: ReplId,
    replid2: ReplId,
    second: Option<nat>,      // how far replid2 may be continued
    window: Bytes,            // what the backlog retains
    capacity: nat,
    offset: nat,
    master: Option<NodeId>,
    link: Link,
    started: bool,            // stream_started_
    shared: bool,             // replid_shared_
    data: Log)

  datatype System = System(hist: map<ReplId, History>, nodes: map<NodeId, Node>)

  // --- one node -------------------------------------------------------------

  /** The second name of a node that has none: forty zeros. */
  function Nobody(): (id: ReplId)
    ensures |id| == 40
  {
    seq(40, _ => 48)
  }

  function NewNode(id: ReplId, capacity: nat, data: Log): (n: Node) {
    Node(id, Nobody(), None, [], capacity, 0, None, Idle, false, false, data)
  }

  /** Stream bytes this node just applied, or produced. */
  function Feed(n: Node, d: Bytes): (r: Node) {
    n.(window := Last(n.window + d, n.capacity), offset := n.offset + |d|, data := n.data + d)
  }

  function ShiftReplid(n: Node, id: ReplId): (r: Node) {
    n.(replid2 := n.replid, second := Some(n.offset), replid := id, shared := false)
  }

  /** try_partial_resync's verdict. */
  predicate CanContinue(m: Node, name: ReplId, from: nat) {
    && (name == m.replid || (name == m.replid2 && m.second.Some? && from <= m.second.value))
    && m.offset - |m.window| <= from <= m.offset
  }

  /** The stream bytes a granted replica still lacks. */
  function Missing(m: Node, from: nat): (d: Bytes)
    requires |m.window| <= m.offset
    requires m.offset - |m.window| <= from <= m.offset
  {
    m.window[from - (m.offset - |m.window|)..]
  }

  /** The asking replica once +CONTINUE and the missing bytes are on the wire. */
  function Granted(a: Node, b: Node, m: NodeId): (r: Node)
    requires b.link.Asked? && |a.window| <= a.offset && b.link.name.Some?
    requires CanContinue(a, b.link.name.value, b.link.from)
  {
    b.(link := Continued(m, a.replid, Missing(a, b.link.from), true))
  }

  function AcceptContinue(n: Node, id: ReplId): (r: Node) {
    if id == n.replid then n else n.(replid2 := n.replid, second := Some(n.offset), replid := id)
  }

  function InstallSnapshot(n: Node, id: ReplId, at: nat, image: Log): (r: Node) {
    n.(replid := id, replid2 := Nobody(), second := None, window := [], offset := at, data := image)
  }

  /** What a node becomes once it has read its master's answer. */
  function Adopted(n: Node): (r: Node)
    requires n.link.Continued? || n.link.Snapshot?
  {
    (if n.link.Continued? then AcceptContinue(n, n.link.id)
     else InstallSnapshot(n, n.link.id, n.link.at, n.link.image))
    .(link := Connected(n.link.peer, n.link.chan, n.link.open), shared := true)
  }

  /** The node after applying the first `k` bytes its link has delivered. */
  function Applied(n: Node, k: nat): (r: Node)
    requires n.link.Connected? && k <= |n.link.chan|
  {
    Feed(n, n.link.chan[..k]).(link := n.link.(chan := n.link.chan[k..]))
  }

  /** Whether psync is answered at all: a replica without its own link refuses. */
  predicate Ready(m: Node) {
    m.master.None? || m.link.Connected?
  }

  // --- links ----------------------------------------------------------------

  predicate Streaming(l: Link) {
    l.Continued? || l.Snapshot? || l.Connected?
  }

  predicate Attached(l: Link, m: NodeId) {
    Streaming(l) && l.open && l.peer == m
  }

  function PushTo(n: Node, m: NodeId, d: Bytes): (r: Node) {
    if Attached(n.link, m) then n.(link := n.link.(chan := n.link.chan + d)) else n
  }

  function CutFrom(n: Node, m: NodeId): (r: Node) {
    if Attached(n.link, m) then n.(link := n.link.(open := false))
    else if n.link == Waiting(m) then n.(link := Idle)
    else n
  }

  function ForkFor(n: Node, m: NodeId, master: Node): (r: Node) {
    if n.link == Waiting(m)
    then n.(link := Snapshot(m, master.replid, master.offset, master.data, [], true))
    else n
  }

  /** feed(): the bytes go to every replica attached to `m`. */
  function Push(nodes: map<NodeId, Node>, m: NodeId, d: Bytes): (r: map<NodeId, Node>)
    ensures r.Keys == nodes.Keys
  {
    map n | n in nodes :: PushTo(nodes[n], m, d)
  }

  /** disconnect_replicas(). */
  function Cut(nodes: map<NodeId, Node>, m: NodeId): (r: map<NodeId, Node>)
    ensures r.Keys == nodes.Keys
  {
    map n | n in nodes :: CutFrom(nodes[n], m)
  }

  // --- steps ----------------------------------------------------------------

  datatype Step =
    | Write(m: NodeId, d: Bytes)
    | ReplicaOf(n: NodeId, m: NodeId)
    | NoOne(n: NodeId, id: ReplId)
    | Connect(n: NodeId)
    | LinkLost(n: NodeId)
    | PeerCloses(n: NodeId)
    | Answer(m: NodeId, n: NodeId)
    | Fork(m: NodeId)
    | ReadReply(n: NodeId)
    | ApplyBytes(n: NodeId, k: nat)
    | Restart(n: NodeId, id: ReplId, disk: Log)

  predicate Enabled(s: System, step: Step) {
    match step
    case Write(m, d) => m in s.nodes && s.nodes[m].master.None? && s.nodes[m].replid in s.hist
    case ReplicaOf(n, m) => n in s.nodes && s.nodes[n].master != Some(m)
    case NoOne(n, id) =>
      && n in s.nodes && s.nodes[n].master.Some? && id !in s.hist
      && s.nodes[n].replid in s.hist && s.nodes[n].offset <= |s.hist[s.nodes[n].replid].bytes|
    case Connect(n) => n in s.nodes && s.nodes[n].master.Some? && s.nodes[n].link.Idle?
    case LinkLost(n) => n in s.nodes
    case PeerCloses(n) => n in s.nodes && Streaming(s.nodes[n].link)
    case Answer(m, n) =>
      && m in s.nodes && n in s.nodes && Ready(s.nodes[m])
      && s.nodes[n].link.Asked? && s.nodes[n].link.peer == m
      && |s.nodes[m].window| <= s.nodes[m].offset
    case Fork(m) => m in s.nodes
    case ReadReply(n) => n in s.nodes && (s.nodes[n].link.Continued? || s.nodes[n].link.Snapshot?)
    case ApplyBytes(n, k) => n in s.nodes && s.nodes[n].link.Connected? && k <= |s.nodes[n].link.chan|
    case Restart(n, id, disk) => n in s.nodes && id !in s.hist
  }

  function Next(s: System, step: Step): (s': System)
    requires Enabled(s, step)
    ensures s'.nodes.Keys == s.nodes.Keys
  {
    match step
    case Write(m, d) =>
      var node := s.nodes[m];
      var h := s.hist[node.replid];
      if node.started then
        System(s.hist[node.replid := h.(bytes := h.bytes + d)],
               Push(s.nodes, m, d)[m := Feed(node, d)])
      else
        System(s.hist[node.replid := h.(base := h.base + d)], s.nodes[m := node.(data := node.data + d)])
    case ReplicaOf(n, m) =>
      s.(nodes := Cut(s.nodes, n)[n := s.nodes[n].(link := Idle, master := Some(m), started := true)])
    case NoOne(n, id) =>
      var node := s.nodes[n];
      var h := s.hist[node.replid];
      System(s.hist[id := History(h.base, h.bytes[..node.offset])],
             Cut(s.nodes, n)[n := ShiftReplid(node.(link := Idle, master := None), id)])
    case Connect(n) =>
      var node := s.nodes[n];
      s.(nodes := s.nodes[n := node.(link :=
        if node.shared then Asked(node.master.value, Some(node.replid), node.offset)
        else Asked(node.master.value, None, 0))])
    case LinkLost(n) =>
      s.(nodes := s.nodes[n := s.nodes[n].(link := Idle)])
    case PeerCloses(n) =>
      s.(nodes := s.nodes[n := s.nodes[n].(link := s.nodes[n].link.(open := false))])
    case Answer(m, n) =>
      var node, link := s.nodes[m], s.nodes[n].link;
      if link.name.Some? && CanContinue(node, link.name.value, link.from) then
        s.(nodes := s.nodes[n := Granted(node, s.nodes[n], m)][m := node.(started := true, shared := true)])
      else
        s.(nodes := s.nodes[n := s.nodes[n].(link := Waiting(m))][m := node.(started := true)])
    case Fork(m) =>
      var node := s.nodes[m];
      s.(nodes := (map n | n in s.nodes :: ForkFor(s.nodes[n], m, node))[m := node.(shared := true)])
    case ReadReply(n) =>
      var node := s.nodes[n];
      var sameName := node.link.Continued? && node.link.id == node.replid;
      s.(nodes := (if sameName then s.nodes else Cut(s.nodes, n))[n := Adopted(node)])
    case ApplyBytes(n, k) =>
      s.(nodes := Push(s.nodes, n, s.nodes[n].link.chan[..k])[n := Applied(s.nodes[n], k)])
    case Restart(n, id, disk) =>
      System(s.hist[id := History(disk, [])], Cut(s.nodes, n)[n := NewNode(id, s.nodes[n].capacity, disk)])
  }

  // --- what holds in every reachable state ------------------------------------

  predicate Slice(h: History, at: nat, d: Bytes) {
    at + |d| <= |h.bytes| && h.bytes[at..at + |d|] == d
  }

  /** Two histories are the same dataset and stream up to offset `k`. */
  predicate Agree(a: History, b: History, k: nat) {
    k <= |a.bytes| && k <= |b.bytes| && a.base == b.base && a.bytes[..k] == b.bytes[..k]
  }

  /** The node's dataset, backlog and second history are what its names say. */
  predicate Holds(hist: map<ReplId, History>, n: Node) {
    && n.replid in hist && n.offset <= |hist[n.replid].bytes|
    && n.data == hist[n.replid].Upto(n.offset)
    && |n.window| <= n.offset && Slice(hist[n.replid], n.offset - |n.window|, n.window)
    && (n.second.Some? ==>
          n.replid2 in hist && n.second.value <= n.offset
          && Agree(hist[n.replid], hist[n.replid2], n.second.value))
  }

  predicate LinkHolds(hist: map<ReplId, History>, n: Node)
    requires Holds(hist, n)
  {
    match n.link
    case Idle => true
    case Waiting(_) => true
    case Asked(_, name, from) => name.Some? ==> name == Some(n.replid) && from == n.offset
    case Continued(_, id, chan, _) =>
      id in hist && Agree(hist[id], hist[n.replid], n.offset) && Slice(hist[id], n.offset, chan)
    case Snapshot(_, id, at, image, chan, _) =>
      id in hist && Slice(hist[id], at, chan) && image == hist[id].Upto(at)
    case Connected(_, chan, _) => Slice(hist[n.replid], n.offset, chan)
  }

  predicate RoleHolds(hist: map<ReplId, History>, n: Node)
    requires Holds(hist, n)
  {
    && (n.master.None? ==> n.link.Idle? && n.offset == |hist[n.replid].bytes|)
    && (!n.started ==> n.master.None? && n.second.None? && n.offset == 0)
  }

  predicate NodeOk(hist: map<ReplId, History>, n: Node) {
    Holds(hist, n) && LinkHolds(hist, n) && RoleHolds(hist, n)
  }

  function LinkId(n: Node): (id: ReplId)
    requires Streaming(n.link)
  {
    if n.link.Connected? then n.replid else n.link.id
  }

  function LinkEnd(n: Node): (k: nat)
    requires Streaming(n.link)
  {
    (if n.link.Snapshot? then n.link.at else n.offset) + |n.link.chan|
  }

  /** An open link ends exactly where its master's stream ends. */
  predicate Tracks(n: Node, master: Node) {
    && (Streaming(n.link) && n.link.open ==> LinkId(n) == master.replid && LinkEnd(n) == master.offset)
    && (n.link.Waiting? ==> master.started)
  }

  predicate HasPeer(l: Link) {
    (Streaming(l) && l.open) || l.Waiting?
  }

  predicate FollowsPeer(nodes: map<NodeId, Node>, n: NodeId)
    requires n in nodes
  {
    var l := nodes[n].link;
    HasPeer(l) ==> l.peer in nodes && l.peer != n && Tracks(nodes[n], nodes[l.peer])
  }

  /** Every history a node or its link mentions. */
  predicate Mentions(n: Node, id: ReplId) {
    || n.replid == id
    || (n.second.Some? && n.replid2 == id)
    || ((n.link.Continued? || n.link.Snapshot?) && n.link.id == id)
  }

  /**
   No two masters write the same history, and a history nobody has been shown
   yet is known to its writer alone.
   */
  predicate Apart(a: Node, b: Node) {
    && (a.master.None? && b.master.None? ==> a.replid != b.replid)
    && (!a.started ==> !Mentions(b, a.replid))
    && (!b.started ==> !Mentions(a, b.replid))
  }

  predicate AllOk(s: System) {
    forall n :: n in s.nodes ==> NodeOk(s.hist, s.nodes[n])
  }

  predicate AllFollow(s: System) {
    forall n :: n in s.nodes ==> FollowsPeer(s.nodes, n)
  }

  predicate AllApart(s: System) {
    forall a, b :: a in s.nodes && b in s.nodes && a != b ==> Apart(s.nodes[a], s.nodes[b])
  }

  predicate Inv(s: System) {
    AllOk(s) && AllFollow(s) && AllApart(s)
  }

  predicate Init(s: System) {
    && (forall n :: n in s.nodes ==>
          s.nodes[n] == NewNode(s.nodes[n].replid, s.nodes[n].capacity, s.nodes[n].data)
          && s.nodes[n].replid in s.hist && s.hist[s.nodes[n].replid] == History(s.nodes[n].data, []))
    && (forall a, b :: a in s.nodes && b in s.nodes && a != b ==> s.nodes[a].replid != s.nodes[b].replid)
  }

  // --- histories only grow -----------------------------------------------------

  predicate GrowsAt(h: map<ReplId, History>, h': map<ReplId, History>, id: ReplId) {
    id in h ==> id in h' && h'[id].base == h[id].base && h[id].bytes <= h'[id].bytes
  }

  lemma NodeStable(h: map<ReplId, History>, h': map<ReplId, History>, n: Node)
    requires Holds(h, n) && LinkHolds(h, n)
    requires forall id :: Mentions(n, id) ==> GrowsAt(h, h', id)
    ensures Holds(h', n) && LinkHolds(h', n)
  {
    assert Mentions(n, n.replid);
    if n.second.Some? {
      assert Mentions(n, n.replid2);
    }
    if n.link.Continued? || n.link.Snapshot? {
      assert Mentions(n, n.link.id);
    }
  }

  /** Stream bytes reach an attached replica exactly where its link left off. */
  lemma PushKeeps(h: map<ReplId, History>, n: Node, m: NodeId, d: Bytes, id: ReplId, at: nat)
    requires Holds(h, n) && LinkHolds(h, n)
    requires id in h && Slice(h[id], at, d)
    requires Attached(n.link, m) ==> LinkId(n) == id && LinkEnd(n) == at
    ensures Holds(h, PushTo(n, m, d)) && LinkHolds(h, PushTo(n, m, d))
    ensures Attached(n.link, m) ==> LinkId(PushTo(n, m, d)) == id && LinkEnd(PushTo(n, m, d)) == at + |d|
  {
    hide Slice, Agree;
    if Attached(n.link, m) {
      SliceJoins(h[id], at - |n.link.chan|, n.link.chan, d);
    }
  }

  lemma SliceJoins(h: History, at: nat, c: Bytes, d: Bytes)
    requires Slice(h, at, c) && Slice(h, at + |c|, d)
    ensures Slice(h, at, c + d)
  {
    assert h.bytes[at..at + |c| + |d|] == c + d;
  }

  lemma SliceSplits(h: History, at: nat, d: Bytes, k: nat)
    requires Slice(h, at, d) && k <= |d|
    ensures Slice(h, at, d[..k]) && Slice(h, at + k, d[k..])
  {
    assert h.bytes[at..at + k] == d[..k];
    assert h.bytes[at + k..at + |d|] == d[k..];
  }

  lemma FeedKeeps(h: map<ReplId, History>, n: Node, d: Bytes)
    requires Holds(h, n) && Slice(h[n.replid], n.offset, d)
    ensures Holds(h, Feed(n, d))
  {
    hide Last;
    var bytes := h[n.replid].bytes;
    assert bytes[..n.offset] + d == bytes[..n.offset + |d|];
    WindowSlides(bytes, n.offset, n.window, d, n.capacity);
  }

  /** The newest bytes of a stretch of the stream are again a stretch that ends where it does. */
  lemma WindowSlides(bytes: Bytes, offset: nat, window: Bytes, d: Bytes, capacity: nat)
    requires |window| <= offset && offset + |d| <= |bytes|
    requires bytes[offset - |window|..offset] == window && bytes[offset..offset + |d|] == d
    ensures var w, end := Last(window + d, capacity), offset + |d|;
      |w| <= end && bytes[end - |w|..end] == w
  {
    var all, end := window + d, offset + |d|;
    assert bytes[end - |all|..end] == all;
    var w := Last(all, capacity);
    assert bytes[end - |all|..end][|all| - |w|..] == bytes[end - |w|..end];
  }

  /** Taking up the granted history leaves the node holding a prefix of it. */
  lemma AdopterHolds(h: map<ReplId, History>, n: Node)
    requires Holds(h, n) && LinkHolds(h, n)
    ensures n.link.Continued? ==> Holds(h, AcceptContinue(n, n.link.id))
    ensures n.link.Snapshot? ==> Holds(h, InstallSnapshot(n, n.link.id, n.link.at, n.link.image))
  {
    if n.link.Continued? {
      var g, o := h[n.link.id], h[n.replid];
      var at := n.offset - |n.window|;
      assert g.bytes[..n.offset][at..] == o.bytes[..n.offset][at..];
      assert g.bytes[at..n.offset] == n.window;
    }
  }

  lemma AgreeOnLess(a: History, b: History, k: nat, j: nat)
    requires Agree(a, b, k) && j <= k
    ensures Agree(a, b, j)
  {
    assert a.bytes[..j] == a.bytes[..k][..j];
    assert b.bytes[..j] == b.bytes[..k][..j];
  }

  /** A slice of the stream, cut anywhere, completes the prefix before the cut. */
  lemma SliceCompletes(h: History, at: nat, w: Bytes, from: nat)
    requires Slice(h, at, w) && at <= from <= at + |w|
    ensures Slice(h, from, w[from - at..])
    ensures h.Upto(from) + w[from - at..] == h.Upto(at + |w|)
  {
    assert h.bytes[from..at + |w|] == w[from - at..];
    assert h.bytes[..from] + w[from - at..] == h.bytes[..at + |w|];
  }

  /** A continuable request comes from a prefix of the granter, which holds the rest. */
  lemma GrantIsPrefix(h: map<ReplId, History>, a: Node, b: Node)
    requires Holds(h, a) && Holds(h, b) && CanContinue(a, b.replid, b.offset)
    ensures b.data + Missing(a, b.offset) == a.data
    ensures |Missing(a, b.offset)| == a.offset - b.offset
    ensures Agree(h[a.replid], h[b.replid], b.offset)
    ensures Slice(h[a.replid], b.offset, Missing(a, b.offset))
  {
    if a.replid != b.replid {
      AgreeOnLess(h[a.replid], h[b.replid], a.second.value, b.offset);
    }
    SliceCompletes(h[a.replid], a.offset - |a.window|, a.window, b.offset);
  }

  // --- every step keeps the invariant, node by node ------------------------------

  lemma WriterOk(h: map<ReplId, History>, node: Node, d: Bytes)
    requires NodeOk(h, node) && node.master.None?
    ensures var g := h[node.replid];
      if node.started
      then NodeOk(h[node.replid := g.(bytes := g.bytes + d)], Feed(node, d))
      else NodeOk(h[node.replid := g.(base := g.base + d)], node.(data := node.data + d))
  {
    var g := h[node.replid];
    if node.started {
      var h' := h[node.replid := g.(bytes := g.bytes + d)];
      NodeStable(h, h', node);
      FeedKeeps(h', node, d);
    }
  }

  lemma WriteOtherOk(h: map<ReplId, History>, node: Node, m: NodeId, d: Bytes, n: Node)
    requires NodeOk(h, node) && NodeOk(h, n) && node.master.None? && Apart(n, node)
    requires Attached(n.link, m) ==> Tracks(n, node)
    ensures var g := h[node.replid];
      if node.started
      then NodeOk(h[node.replid := g.(bytes := g.bytes + d)], PushTo(n, m, d))
      else NodeOk(h[node.replid := g.(base := g.base + d)], n)
    ensures node.started && Attached(n.link, m) ==> Tracks(PushTo(n, m, d), Feed(node, d))
  {
    var g := h[node.replid];
    if node.started {
      var h' := h[node.replid := g.(bytes := g.bytes + d)];
      NodeStable(h, h', n);
      PushKeeps(h', n, m, d, node.replid, node.offset);
    } else {
      NodeStable(h, h[node.replid := g.(base := g.base + d)], n);
    }
  }

  lemma DemotedOk(h: map<ReplId, History>, n: Node, m: NodeId)
    requires NodeOk(h, n)
    ensures NodeOk(h, n.(link := Idle, master := Some(m), started := true))
  {
    hide Slice, Agree;
  }

  lemma PromotedOk(h: map<ReplId, History>, n: Node, id: ReplId)
    requires NodeOk(h, n) && id !in h && n.master.Some?
    ensures NodeOk(h[id := History(h[n.replid].base, h[n.replid].bytes[..n.offset])],
                   ShiftReplid(n.(link := Idle, master := None), id))
  {
    var g := History(h[n.replid].base, h[n.replid].bytes[..n.offset]);
    assert Agree(g, h[n.replid], n.offset);
    var at := n.offset - |n.window|;
    assert g.bytes[at..n.offset] == h[n.replid].bytes[at..n.offset];
  }

  lemma RestartedOk(h: map<ReplId, History>, id: ReplId, capacity: nat, disk: Log)
    ensures NodeOk(h[id := History(disk, [])], NewNode(id, capacity, disk))
  {
  }

  lemma NewNameOk(h: map<ReplId, History>, n: Node, id: ReplId, g: History)
    requires NodeOk(h, n) && id !in h
    ensures NodeOk(h[id := g], n)
  {
    NodeStable(h, h[id := g], n);
  }

  lemma CutOk(h: map<ReplId, History>, n: Node, m: NodeId)
    requires NodeOk(h, n)
    ensures NodeOk(h, CutFrom(n, m))
    ensures HasPeer(CutFrom(n, m).link) ==> CutFrom(n, m) == n && n.link.peer != m
  {
  }

  lemma LinkOk(h: map<ReplId, History>, n: Node)
    requires NodeOk(h, n)
    ensures NodeOk(h, n.(link := Idle))
    ensures Streaming(n.link) ==> NodeOk(h, n.(link := n.link.(open := false)))
    ensures n.master.Some? ==>
      && NodeOk(h, n.(link := Asked(n.master.value, Some(n.replid), n.offset)))
      && NodeOk(h, n.(link := Asked(n.master.value, None, 0)))
  {
  }

  lemma StartOk(h: map<ReplId, History>, n: Node)
    requires NodeOk(h, n)
    ensures NodeOk(h, n.(started := true)) && NodeOk(h, n.(started := true, shared := true))
    ensures NodeOk(h, n.(shared := true))
  {
  }

  lemma GrantOk(h: map<ReplId, History>, a: Node, b: Node, m: NodeId)
    requires NodeOk(h, a) && NodeOk(h, b) && b.link.Asked?
    requires b.link.name.Some? && CanContinue(a, b.link.name.value, b.link.from)
    ensures NodeOk(h, Granted(a, b, m)) && Tracks(Granted(a, b, m), a)
  {
    hide Slice, Agree, Missing, CanContinue;
    GrantIsPrefix(h, a, b);
  }

  lemma WaitOk(h: map<ReplId, History>, b: Node, m: NodeId)
    requires NodeOk(h, b) && b.link.Asked?
    ensures NodeOk(h, b.(link := Waiting(m)))
  {
  }

  lemma ForkOk(h: map<ReplId, History>, a: Node, n: Node, m: NodeId)
    requires NodeOk(h, a) && NodeOk(h, n)
    ensures NodeOk(h, ForkFor(n, m, a))
    ensures n.link == Waiting(m) ==> Tracks(ForkFor(n, m, a), a)
  {
  }

  lemma AdoptOk(h: map<ReplId, History>, n: Node)
    requires NodeOk(h, n) && (n.link.Continued? || n.link.Snapshot?)
    ensures NodeOk(h, Adopted(n))
    ensures n.link.open ==> forall peer :: Tracks(n, peer) ==> Tracks(Adopted(n), peer)
    ensures n.link.Continued? && n.link.id == n.replid ==> Adopted(n).offset == n.offset && Adopted(n).replid == n.replid
  {
    AdopterHolds(h, n);
  }

  lemma AppliedOk(h: map<ReplId, History>, n: Node, k: nat)
    requires NodeOk(h, n) && n.link.Connected? && k <= |n.link.chan|
    ensures NodeOk(h, Applied(n, k))
    ensures forall peer :: Tracks(n, peer) ==> Tracks(Applied(n, k), peer)
  {
    SliceSplits(h[n.replid], n.offset, n.link.chan, k);
    FeedKeeps(h, n, n.link.chan[..k]);
  }

  lemma ForwardOk(h: map<ReplId, History>, c: Node, k: nat, n: Node, m: NodeId)
    requires NodeOk(h, c) && NodeOk(h, n) && c.link.Connected? && k <= |c.link.chan|
    requires Attached(n.link, m) ==> Tracks(n, c)
    ensures NodeOk(h, PushTo(n, m, c.link.chan[..k]))
    ensures Attached(n.link, m) ==> Tracks(PushTo(n, m, c.link.chan[..k]), Applied(c, k))
  {
    SliceSplits(h[c.replid], c.offset, c.link.chan, k);
    PushKeeps(h, n, m, c.link.chan[..k], c.replid, c.offset);
  }

  // --- ... and so for the whole system ---------------------------------------------

  lemma StreamNodeOk(s: System, step: Step, n: NodeId)
    requires AllOk(s) && AllFollow(s) && AllApart(s) && Enabled(s, step) && n in s.nodes && (step.Write? || step.ApplyBytes?)
    ensures NodeOk(Next(s, step).hist, Next(s, step).nodes[n])
  {
    hide NodeOk, Apart, Tracks, Feed, PushTo, Applied;
    var node := s.nodes[n];
    assert NodeOk(s.hist, node) && FollowsPeer(s.nodes, n);
    match step
    case Write(m, d) =>
      if n == m {
        WriterOk(s.hist, node, d);
      } else {
        WriteOtherOk(s.hist, s.nodes[m], m, d, node);
      }
    case ApplyBytes(c, k) =>
      if n == c {
        AppliedOk(s.hist, node, k);
      } else {
        ForwardOk(s.hist, s.nodes[c], k, node, c);
      }
  }

  lemma RoleNodeOk(s: System, step: Step, n: NodeId)
    requires AllOk(s) && Enabled(s, step) && n in s.nodes && (step.ReplicaOf? || step.NoOne? || step.Restart?)
    ensures NodeOk(Next(s, step).hist, Next(s, step).nodes[n])
  {
    hide NodeOk, CutFrom, ShiftReplid;
    var node := s.nodes[n];
    assert NodeOk(s.hist, node);
    CutOk(s.hist, node, step.n);
    match step
    case ReplicaOf(c, m) => DemotedOk(s.hist, node, m);
    case NoOne(c, id) =>
      if n == c {
        PromotedOk(s.hist, node, id);
      }
      NewNameOk(s.hist, CutFrom(node, c), id, Next(s, step).hist[id]);
    case Restart(c, id, disk) =>
      RestartedOk(s.hist, id, node.capacity, disk);
      NewNameOk(s.hist, CutFrom(node, c), id, Next(s, step).hist[id]);
  }

  lemma StepNodeOk(s: System, step: Step, n: NodeId)
    requires AllOk(s) && AllFollow(s) && AllApart(s) && Enabled(s, step) && n in s.nodes
    ensures NodeOk(Next(s, step).hist, Next(s, step).nodes[n])
  {
    if step.Write? || step.ApplyBytes? {
      StreamNodeOk(s, step, n);
    } else if step.ReplicaOf? || step.NoOne? || step.Restart? {
      RoleNodeOk(s, step, n);
    } else {
      LinkNodeOk(s, step, n);
    }
  }

  lemma LinkNodeOk(s: System, step: Step, n: NodeId)
    requires AllOk(s) && Enabled(s, step) && n in s.nodes
    requires step.Connect? || step.LinkLost? || step.PeerCloses? || step.Answer? || step.Fork? || step.ReadReply?
    ensures NodeOk(Next(s, step).hist, Next(s, step).nodes[n])
  {
    hide NodeOk, CutFrom, ForkFor, Adopted, CanContinue, Granted;
    var node := s.nodes[n];
    assert NodeOk(s.hist, node);
    match step
    case Answer(m, c) =>
      var link := s.nodes[c].link;
      if link.name.Some? && CanContinue(s.nodes[m], link.name.value, link.from) {
        GrantOk(s.hist, s.nodes[m], s.nodes[c], m);
      }
      WaitOk(s.hist, s.nodes[c], m);
      StartOk(s.hist, s.nodes[m]);
    case Fork(m) =>
      ForkOk(s.hist, s.nodes[m], node, m);
      StartOk(s.hist, s.nodes[m]);
    case ReadReply(c) =>
      AdoptOk(s.hist, s.nodes[c]);
      CutOk(s.hist, node, c);
    case _ => LinkOk(s.hist, node);
  }

  /** Tracking depends only on the master's name, offset and having started. */
  lemma TracksOn(n: Node, m: Node, r: Node)
    requires Tracks(n, m) && r.replid == m.replid && (m.started ==> r.started)
    requires r.offset == m.offset || n.link.Waiting?
    ensures Tracks(n, r)
  {
  }

  lemma At(s: System, n: NodeId)
    requires AllOk(s) && AllFollow(s) && n in s.nodes
    ensures NodeOk(s.hist, s.nodes[n]) && FollowsPeer(s.nodes, n)
  {
  }

  lemma WriteFollows(s: System, m: NodeId, d: Bytes, n: NodeId)
    requires AllOk(s) && AllFollow(s) && AllApart(s) && Enabled(s, Write(m, d)) && n in s.nodes
    ensures FollowsPeer(Next(s, Write(m, d)).nodes, n)
  {
    hide AllOk, AllFollow, NodeOk, Apart, Tracks;
    var node, s' := s.nodes[n], Next(s, Write(m, d));
    At(s, n);
    At(s, m);
    IdleMaster(s.hist, node);
    if HasPeer(node.link) {
      var p := node.link.peer;
      if p == m && Streaming(node.link) {
        WriteOtherOk(s.hist, s.nodes[m], m, d, node);
        TracksOn(node, s.nodes[m], s.nodes[m].(data := s.nodes[m].data + d));
      } else {
        TracksOn(node, s.nodes[p], s'.nodes[p]);
      }
    }
  }

  lemma ApplyFollows(s: System, c: NodeId, k: nat, n: NodeId)
    requires AllOk(s) && AllFollow(s) && Enabled(s, ApplyBytes(c, k)) && n in s.nodes
    ensures FollowsPeer(Next(s, ApplyBytes(c, k)).nodes, n)
  {
    hide AllOk, AllFollow, NodeOk, Tracks;
    var node, s' := s.nodes[n], Next(s, ApplyBytes(c, k));
    At(s, n);
    At(s, c);
    if HasPeer(node.link) {
      var p := node.link.peer;
      if p == c && Streaming(node.link) {
        ForwardOk(s.hist, s.nodes[c], k, node, c);
      } else {
        TracksOn(node, s.nodes[p], s'.nodes[p]);
        if n == c {
          AppliedOk(s.hist, node, k);
        }
      }
    }
  }

  /** Where a node disconnects its replicas, the links between the others stay as they are. */
  lemma CutFollows(nodes: map<NodeId, Node>, nodes': map<NodeId, Node>, n: NodeId, c: NodeId)
    requires n in nodes && n != c && FollowsPeer(nodes, n) && nodes'.Keys == nodes.Keys
    requires forall k :: k in nodes && k != c ==> nodes'[k] == CutFrom(nodes[k], c)
    ensures FollowsPeer(nodes', n)
  {
    hide Tracks;
    if HasPeer(nodes'[n].link) {
      var p := nodes[n].link.peer;
      TracksOn(nodes[n], nodes[p], nodes'[p]);
    }
  }

  lemma RoleFollows(s: System, step: Step, n: NodeId)
    requires AllOk(s) && AllFollow(s) && Enabled(s, step) && n in s.nodes
    requires step.ReplicaOf? || step.NoOne? || step.Restart?
    ensures FollowsPeer(Next(s, step).nodes, n)
  {
    hide AllOk, CutFrom, Tracks, Nobody;
    if n != step.n {
      CutFollows(s.nodes, Next(s, step).nodes, n, step.n);
    }
  }

  lemma ReplyFollows(s: System, step: Step, n: NodeId)
    requires AllOk(s) && AllFollow(s) && Enabled(s, step) && n in s.nodes && step.ReadReply?
    ensures FollowsPeer(Next(s, step).nodes, n)
  {
    hide AllOk, AllFollow, NodeOk, Tracks, Nobody, CutFrom;
    var c, s' := step.n, Next(s, step);
    var l := s.nodes[c].link;
    At(s, n);
    if n == c {
      AdopterFollows(s, c);
    } else if !(l.Continued? && l.id == s.nodes[c].replid) {
      CutFollows(s.nodes, s'.nodes, n, c);
    } else if HasPeer(s.nodes[n].link) {
      TracksOn(s.nodes[n], s.nodes[s.nodes[n].link.peer], s'.nodes[s.nodes[n].link.peer]);
    }
  }

  lemma AdopterFollows(s: System, c: NodeId)
    requires AllOk(s) && AllFollow(s) && Enabled(s, ReadReply(c))
    ensures FollowsPeer(Next(s, ReadReply(c)).nodes, c)
  {
    hide AllOk, AllFollow, NodeOk, Tracks, Nobody;
    var node, s' := s.nodes[c], Next(s, ReadReply(c));
    At(s, c);
    AdoptOk(s.hist, node);
    if HasPeer(node.link) {
      TracksOn(node, s.nodes[node.link.peer], s'.nodes[node.link.peer]);
    }
  }

  lemma LinkFollows(s: System, step: Step, n: NodeId)
    requires AllOk(s) && AllFollow(s) && Enabled(s, step) && n in s.nodes
    requires step.Connect? || step.LinkLost? || step.PeerCloses? || step.Fork?
    ensures FollowsPeer(Next(s, step).nodes, n)
  {
    hide AllOk, AllFollow, NodeOk, CanContinue, Missing, Tracks, Nobody;
    var node, s' := s.nodes[n], Next(s, step);
    At(s, n);
    if HasPeer(node.link) {
      TracksOn(node, s.nodes[node.link.peer], s'.nodes[node.link.peer]);
      SameTracker(node, s'.nodes[n], s'.nodes[node.link.peer]);
    }
    if step.Fork? && node.link == Waiting(step.m) {
      At(s, step.m);
      ForkOk(s.hist, s.nodes[step.m], node, step.m);
      TracksOn(s'.nodes[n], s.nodes[step.m], s'.nodes[step.m]);
    }
  }

  lemma AnswerFollows(s: System, step: Step, n: NodeId)
    requires AllOk(s) && AllFollow(s) && Enabled(s, step) && n in s.nodes && step.Answer?
    ensures FollowsPeer(Next(s, step).nodes, n)
  {
    hide AllOk, AllFollow, NodeOk, CanContinue, Missing, Tracks, Nobody;
    var node, s' := s.nodes[n], Next(s, step);
    At(s, n);
    if HasPeer(node.link) {
      TracksOn(node, s.nodes[node.link.peer], s'.nodes[node.link.peer]);
      SameTracker(node, s'.nodes[n], s'.nodes[node.link.peer]);
    }
    var m := s.nodes[step.m];
    At(s, step.m);
    At(s, step.n);
    IdleMaster(s.hist, s.nodes[step.n]);
    if n == step.n && s'.nodes[n].link.Continued? {
      GrantOk(s.hist, m, node, step.m);
      TracksOn(s'.nodes[n], m, s'.nodes[step.m]);
    } else if n == step.n {
      WaitingTracks(s'.nodes[n], s'.nodes[step.m]);
    }
  }

  lemma SameTracker(n: Node, n': Node, m: Node)
    requires Tracks(n, m)
    ensures n'.replid == n.replid && n'.offset == n.offset && n'.link == n.link ==> Tracks(n', m)
  {
  }

  lemma WaitingTracks(n: Node, m: Node)
    requires n.link.Waiting? && m.started
    ensures Tracks(n, m)
  {
  }

  lemma StepFollows(s: System, step: Step, n: NodeId)
    requires AllOk(s) && AllFollow(s) && AllApart(s) && Enabled(s, step) && n in s.nodes
    ensures FollowsPeer(Next(s, step).nodes, n)
  {
    hide AllOk, AllFollow, AllApart, Enabled, Next, FollowsPeer;
    if step.Write? {
      WriteFollows(s, step.m, step.d, n);
    } else if step.ApplyBytes? {
      ApplyFollows(s, step.n, step.k, n);
    } else if step.ReplicaOf? || step.NoOne? || step.Restart? {
      RoleFollows(s, step, n);
    } else if step.ReadReply? {
      ReplyFollows(s, step, n);
    } else if step.Answer? {
      AnswerFollows(s, step, n);
    } else {
      LinkFollows(s, step, n);
    }
  }

  lemma IdleMaster(h: map<ReplId, History>, n: Node)
    requires NodeOk(h, n)
    ensures !n.link.Idle? ==> n.master.Some? && n.started
    ensures forall id :: Mentions(n, id) ==> id in h
  {
  }

  /** `r` mentions nothing new and has taken on no new duty under its name. */
  ghost predicate Quieter(n: Node, r: Node) {
    && (forall id :: Mentions(r, id) ==> Mentions(n, id))
    && (r.master.None? ==> n.master.None? && r.replid == n.replid)
    && (!r.started ==> !n.started && r.replid == n.replid)
  }

  lemma ApartStays(a: Node, b: Node, a': Node, b': Node)
    requires Apart(a, b) && Quieter(a, a') && Quieter(b, b')
    ensures Apart(a', b')
  {
  }

  lemma QuietChanges(n: Node, m: NodeId, d: Bytes)
    ensures Quieter(n, n) && Quieter(n, PushTo(n, m, d)) && Quieter(n, CutFrom(n, m))
    ensures Quieter(n, Feed(n, d)) && Quieter(n, n.(data := n.data + d))
    ensures Quieter(n, n.(link := Idle)) && Quieter(n, n.(link := Idle, master := Some(m), started := true))
    ensures Streaming(n.link) ==> Quieter(n, n.(link := n.link.(open := false)))
    ensures forall name, from :: Quieter(n, n.(link := Asked(m, name, from)))
  {
  }

  lemma QuietReplica(n: Node, k: nat)
    requires n.master.Some? && n.started
    ensures n.link.Connected? && k <= |n.link.chan| ==> Quieter(n, Applied(n, k))
    ensures n.link.Continued? || n.link.Snapshot? ==> Quieter(n, Adopted(n))
  {
  }

  lemma StepQuiet(s: System, step: Step, n: NodeId)
    requires AllOk(s) && Enabled(s, step) && n in s.nodes
    requires step.NoOne? || step.Restart? ==> n != step.n
    requires !step.Answer? && !step.Fork?
    ensures Quieter(s.nodes[n], Next(s, step).nodes[n])
  {
    hide NodeOk, Quieter, Feed, PushTo, CutFrom, Applied, Adopted;
    var node := s.nodes[n];
    IdleMaster(s.hist, node);
    match step
    case Write(m, d) => QuietChanges(node, m, d);
    case ReplicaOf(c, m) => QuietChanges(node, m, []); QuietChanges(node, c, []);
    case NoOne(c, id) => QuietChanges(node, c, []);
    case Restart(c, id, disk) => QuietChanges(node, c, []);
    case Connect(c) => QuietChanges(node, if node.master.Some? then node.master.value else 0, []);
    case LinkLost(c) => QuietChanges(node, 0, []);
    case PeerCloses(c) => QuietChanges(node, 0, []);
    case ReadReply(c) =>
      QuietChanges(node, c, []);
      if n == c {
        QuietReplica(node, 0);
      }
    case ApplyBytes(c, k) =>
      QuietChanges(node, c, s.nodes[c].link.chan[..k]);
      if n == c {
        QuietReplica(node, k);
      }
  }

  lemma RenamedApart(h: map<ReplId, History>, c: Node, c': Node, b: Node, b': Node, id: ReplId)
    requires Apart(c, b) && Quieter(b, b') && id !in h && NodeOk(h, b)
    requires c'.replid == id && (forall i :: Mentions(c', i) ==> i == id || Mentions(c, i))
    ensures Apart(c', b')
  {
    IdleMaster(h, b);
    assert Mentions(b, b.replid);
    assert Mentions(b', b'.replid);
  }

  /** `r` is `n`, except that it may now mention history `id` too. */
  ghost predicate Learns(n: Node, r: Node, id: ReplId) {
    && (forall i :: Mentions(r, i) ==> Mentions(n, i) || i == id)
    && r.replid == n.replid && r.master == n.master && (n.started ==> r.started)
  }

  lemma LearnedApart(a: Node, b: Node, a': Node, b': Node, id: ReplId)
    requires Apart(a, b) && Learns(a, a', id) && Learns(b, b', id)
    requires (a'.started || a.replid != id) && (b'.started || b.replid != id)
    ensures Apart(a', b')
  {
  }

  lemma AnswerLearns(s: System, step: Step, n: NodeId)
    requires Enabled(s, step) && n in s.nodes && (step.Answer? || step.Fork?)
    requires FollowsPeer(s.nodes, n)
    ensures var r, m := Next(s, step).nodes[n], s.nodes[step.m];
      if Next(s, step).nodes[step.m].started then Learns(s.nodes[n], r, m.replid) else Quieter(s.nodes[n], r)
  {
    hide CanContinue, Missing;
  }

  lemma AnswerApart(s: System, step: Step, a: NodeId, b: NodeId)
    requires AllOk(s) && AllFollow(s) && AllApart(s) && Enabled(s, step) && (step.Answer? || step.Fork?)
    requires a in s.nodes && b in s.nodes && a != b
    ensures Apart(Next(s, step).nodes[a], Next(s, step).nodes[b])
  {
    hide NodeOk, FollowsPeer, Next, Mentions, Quieter;
    AnswerLearns(s, step, a);
    AnswerLearns(s, step, b);
    var m := s.nodes[step.m];
    var a', b' := Next(s, step).nodes[a], Next(s, step).nodes[b];
    assert Apart(s.nodes[a], s.nodes[b]);
    SelfMention(m);
    if a != step.m {
      assert Apart(s.nodes[a], m);
    }
    if b != step.m {
      assert Apart(s.nodes[b], m);
    }
    if Next(s, step).nodes[step.m].started {
      LearnedApart(s.nodes[a], s.nodes[b], a', b', m.replid);
    } else {
      ApartStays(s.nodes[a], s.nodes[b], a', b');
    }
  }

  lemma SelfMention(n: Node)
    ensures Mentions(n, n.replid)
  {
  }

  lemma StepApart(s: System, step: Step, a: NodeId, b: NodeId)
    requires AllOk(s) && AllFollow(s) && AllApart(s) && Enabled(s, step)
    requires a in s.nodes && b in s.nodes && a != b
    ensures Apart(Next(s, step).nodes[a], Next(s, step).nodes[b])
  {
    hide NodeOk, FollowsPeer, Next, Mentions, Apart, Quieter;
    var x, y := s.nodes[a], s.nodes[b];
    var x', y' := Next(s, step).nodes[a], Next(s, step).nodes[b];
    assert Apart(x, y) && NodeOk(s.hist, x) && NodeOk(s.hist, y);
    if step.Answer? || step.Fork? {
      AnswerApart(s, step, a, b);
    } else if (step.NoOne? || step.Restart?) && a == step.n {
      StepQuiet(s, step, b);
      StepRenames(s, step);
      RenamedApart(s.hist, x, x', y, y', step.id);
    } else if (step.NoOne? || step.Restart?) && b == step.n {
      StepQuiet(s, step, a);
      StepRenames(s, step);
      ApartFlips(x, y);
      RenamedApart(s.hist, y, y', x, x', step.id);
      ApartFlips(y', x');
    } else {
      StepQuiet(s, step, a);
      StepQuiet(s, step, b);
      ApartStays(x, y, x', y');
    }
  }

  lemma ApartFlips(a: Node, b: Node)
    ensures Apart(a, b) ==> Apart(b, a)
  {
  }

  lemma StepRenames(s: System, step: Step)
    requires Enabled(s, step) && (step.NoOne? || step.Restart?)
    ensures var c, c' := s.nodes[step.n], Next(s, step).nodes[step.n];
      c'.replid == step.id && forall i :: Mentions(c', i) ==> i == step.id || Mentions(c, i)
  {
  }

  lemma StepKeeps(s: System, step: Step)
    requires Inv(s) && Enabled(s, step)
    ensures Inv(Next(s, step))
  {
    hide NodeOk, FollowsPeer, Apart;
    var s' := Next(s, step);
    assert s'.nodes.Keys == s.nodes.Keys;
    forall n | n in s'.nodes
      ensures NodeOk(s'.hist, s'.nodes[n]) && FollowsPeer(s'.nodes, n)
    {
      StepNodeOk(s, step, n);
      StepFollows(s, step, n);
    }
    forall a, b | a in s'.nodes && b in s'.nodes && a != b
      ensures Apart(s'.nodes[a], s'.nodes[b])
    {
      StepApart(s, step, a, b);
    }
  }

  // --- every run ------------------------------------------------------------------

  /** A run: the states reached by taking each step in turn. */
  predicate IsRun(states: seq<System>, steps: seq<Step>) {
    && |states| == |steps| + 1
    && Init(states[0])
    && forall i :: 0 <= i < |steps| ==> Enabled(states[i], steps[i]) && states[i + 1] == Next(states[i], steps[i])
  }

  lemma InitHolds(s: System)
    requires Init(s)
    ensures Inv(s)
  {
    hide NodeOk;
    forall n | n in s.nodes
      ensures NodeOk(s.hist, s.nodes[n])
    {
      RestartedOk(s.hist, s.nodes[n].replid, s.nodes[n].capacity, s.nodes[n].data);
      assert s.hist[s.nodes[n].replid := History(s.nodes[n].data, [])] == s.hist;
    }
  }

  lemma {:induction false} RunHolds(states: seq<System>, steps: seq<Step>, i: nat)
    requires IsRun(states, steps) && i < |states|
    ensures Inv(states[i])
  {
    hide Inv, Init, Next, Enabled;
    if i == 0 {
      InitHolds(states[0]);
    } else {
      RunHolds(states, steps, i - 1);
      StepKeeps(states[i - 1], steps[i - 1]);
    }
  }

  /** In every reachable state each dataset is a prefix of the history its name stands for. */
  lemma EachNodeHoldsItsHistory(states: seq<System>, steps: seq<Step>, i: nat, n: NodeId)
    requires IsRun(states, steps) && i < |states| && n in states[i].nodes
    ensures var s, node := states[i], states[i].nodes[n];
      && node.replid in s.hist && node.offset <= |s.hist[node.replid].bytes|
      && node.data == s.hist[node.replid].Upto(node.offset)
      && (node.master.None? ==> node.data == s.hist[node.replid].Upto(|s.hist[node.replid].bytes|))
  {
    RunHolds(states, steps, i);
    assert NodeOk(states[i].hist, states[i].nodes[n]);
  }

  /** Nodes under one name never diverge: the one behind holds a prefix of the other. */
  lemma SameNameNeverDiverges(states: seq<System>, steps: seq<Step>, i: nat, a: NodeId, b: NodeId)
    requires IsRun(states, steps) && i < |states| && a in states[i].nodes && b in states[i].nodes
    requires states[i].nodes[a].replid == states[i].nodes[b].replid
    requires states[i].nodes[a].offset <= states[i].nodes[b].offset
    ensures states[i].nodes[a].data <= states[i].nodes[b].data
    ensures states[i].nodes[a].offset == states[i].nodes[b].offset ==> states[i].nodes[a].data == states[i].nodes[b].data
  {
    var s := states[i];
    EachNodeHoldsItsHistory(states, steps, i, a);
    EachNodeHoldsItsHistory(states, steps, i, b);
    var h := s.hist[s.nodes[a].replid];
    assert h.bytes[..s.nodes[b].offset][..s.nodes[a].offset] == h.bytes[..s.nodes[a].offset];
  }

  /**
   +CONTINUE only ever goes to a replica whose dataset is a prefix of the granter's,
   and the bytes sent with it are exactly what the replica lacks.
   */
  lemma ContinueIsSafe(states: seq<System>, steps: seq<Step>, i: nat, m: NodeId, n: NodeId)
    requires IsRun(states, steps) && i < |states| && Enabled(states[i], Answer(m, n))
    requires Next(states[i], Answer(m, n)).nodes[n].link.Continued?
    ensures states[i].nodes[n].data <= states[i].nodes[m].data
    ensures states[i].nodes[n].data + Next(states[i], Answer(m, n)).nodes[n].link.chan == states[i].nodes[m].data
  {
    RunHolds(states, steps, i);
    var s := states[i];
    assert NodeOk(s.hist, s.nodes[m]) && NodeOk(s.hist, s.nodes[n]);
    GrantIsPrefix(s.hist, s.nodes[m], s.nodes[n]);
  }

  /** A replica that has drained an open link holds its master's dataset, byte for byte. */
  lemma DrainedReplicaEqualsMaster(states: seq<System>, steps: seq<Step>, i: nat, n: NodeId)
    requires IsRun(states, steps) && i < |states| && n in states[i].nodes
    requires states[i].nodes[n].link.Connected? && states[i].nodes[n].link.open && states[i].nodes[n].link.chan == []
    ensures var l := states[i].nodes[n].link;
      l.peer in states[i].nodes && states[i].nodes[n].data == states[i].nodes[l.peer].data
  {
    RunHolds(states, steps, i);
    var s := states[i];
    assert FollowsPeer(s.nodes, n);
    assert NodeOk(s.hist, s.nodes[n]) && NodeOk(s.hist, s.nodes[s.nodes[n].link.peer]);
  }

  /** A history others may hold is append-only: its past never changes. */
  lemma HistoriesOnlyGrow(s: System, step: Step, n: NodeId)
    requires Inv(s) && Enabled(s, step) && n in s.nodes && s.nodes[n].started
    ensures GrowsAt(s.hist, Next(s, step).hist, s.nodes[n].replid)
  {
    hide NodeOk, FollowsPeer, Push, Cut, Adopted, Applied, Feed, ForkFor;
    if step.Write? && step.m != n {
      assert Apart(s.nodes[n], s.nodes[step.m]);
    }
  }
}
