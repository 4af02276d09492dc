/**
 The master's side of a resync: what is written on each replica's connection while
 writes, the snapshot's making, its transfer and its completion interleave.
 */
module FullResync {
  import opened Prelude
  import Resp
  import ReplBacklog

  const MAX_REPLICA_BUFFER := 256 * 1024 * 1024
  const REPLID_LENGTH := 40
  const LF: byte := 10
  const Space: byte := 32
  const FULLRESYNC: Bytes := [43, 70, 85, 76, 76, 82, 69, 83, 89, 78, 67, 32]  // "+FULLRESYNC "
  const CONTINUE: Bytes := [43, 67, 79, 78, 84, 73, 78, 85, 69, 32]            // "+CONTINUE "

  datatype ReplState = WaitBgsaveStart | WaitBgsaveEnd | SendBulk | Online

  /** A replica's connection; the last five fields only record how it came to be. */
  datatype Conn = Conn(
    state: ReplState,
    out: Bytes,          // queued, not written yet
    sent: Bytes,         // written to the socket since the PSYNC was accepted
    held: Bytes,         // stream bytes that must go after the snapshot
    file: Bytes,         // the part of the snapshot file not read yet
    closing: bool,
    partial: bool,
    name: Bytes,         // the history named in the reply
    from: nat,           // the offset named in the reply, or asked for
    before: nat,         // keepalives before the reply
    after: nat)          // and between the reply and the snapshot

  function Newlines(n: nat): (r: Bytes) {
    if n == 0 then [] else Newlines(n - 1) + [LF]
  }

  function FullLine(name: Bytes, from: nat): (r: Bytes) {
    FULLRESYNC + name + [Space] + Resp.Digits(from) + Resp.Crlf
  }

  function ContinueLine(name: Bytes): (r: Bytes) {
    CONTINUE + name + Resp.Crlf
  }

  function Announced(c: Conn): (r: Bytes) {
    Newlines(c.before) + FullLine(c.name, c.from) + Newlines(c.after)
  }

  function Shipped(c: Conn, snapshot: Bytes): (r: Bytes) {
    Announced(c) + Resp.Line(Resp.Dollar, |snapshot|) + snapshot
  }

  /** The stream from the connection's offset to now. */
  function Tail(c: Conn, origin: nat, since: Bytes): (r: Bytes)
    requires origin <= c.from <= origin + |since|
  {
    since[c.from - origin..]
  }

  /** Everything put on the wire and everything still to be put there is accounted for. */
  predicate Exact(c: Conn, origin: nat, since: Bytes, image: nat -> Bytes, child: Option<nat>) {
    if c.state == WaitBgsaveStart then
      c.sent + c.out == Newlines(c.before) && c.held == [] && c.after == 0
    else
      && origin <= c.from <= origin + |since|
      && if c.state == WaitBgsaveEnd then
           c.sent + c.out == Announced(c) && c.held == Tail(c, origin, since) && child == Some(c.from) && !c.partial
         else if c.state == SendBulk then
           c.sent + c.out + c.file == Shipped(c, image(c.from)) && c.held == Tail(c, origin, since) && !c.partial
         else
           && c.held == []
           && c.sent + c.out ==
              (if c.partial then ContinueLine(c.name) else Shipped(c, image(c.from))) + Tail(c, origin, since)
  }

  // --- one connection ----------------------------------------------------------------------

  function Fed(c: Conn, data: Bytes): (r: Conn) {
    if c.closing || c.state == WaitBgsaveStart then c
    else
      var d := if c.state == Online then c.(out := c.out + data) else c.(held := c.held + data);
      if |d.out| + |d.held| > MAX_REPLICA_BUFFER then d.(closing := true) else d
  }

  /** A connection is closed by a write exactly if that leaves more queued and held than the limit allows. */
  lemma FedClosesIff(c: Conn, data: Bytes)
    ensures Fed(c, data).closing <==>
      c.closing || (c.state != WaitBgsaveStart && |c.out| + |c.held| + |data| > MAX_REPLICA_BUFFER)
    ensures !c.closing && c.state != WaitBgsaveStart ==>
      Fed(c, data).out + Fed(c, data).held == if c.state == Online then c.out + data + c.held else c.out + (c.held + data)
  {
  }

  /** What was put before the stream depends only on how the connection came to be. */
  lemma SameHead(c: Conn, d: Conn, snapshot: Bytes)
    requires c.name == d.name && c.from == d.from && c.before == d.before && c.after == d.after
    ensures Announced(c) == Announced(d) && Shipped(c, snapshot) == Shipped(d, snapshot)
  {
  }

  lemma JoinTail(sent: Bytes, out: Bytes, data: Bytes, head: Bytes, tail: Bytes)
    requires sent + out == head + tail
    ensures sent + (out + data) == head + (tail + data)
  {
    assert sent + (out + data) == sent + out + data;
    assert head + (tail + data) == head + tail + data;
  }

  lemma TailGrows(since: Bytes, data: Bytes, i: nat)
    requires i <= |since|
    ensures (since + data)[i..] == since[i..] + data
  {
  }

  lemma FedExact(c: Conn, data: Bytes, origin: nat, since: Bytes, image: nat -> Bytes, child: Option<nat>)
    requires Exact(c, origin, since, image, child) && !c.closing
    ensures Exact(Fed(c, data), origin, since + data, image, child)
  {
    hide Announced, Shipped, ContinueLine, Newlines;
    if c.state != WaitBgsaveStart {
      var d, i := Fed(c, data), c.from - origin;
      SameHead(c, d, image(c.from));
      TailGrows(since, data, i);
      if c.state == Online {
        JoinTail(c.sent, c.out, data, if c.partial then ContinueLine(c.name) else Shipped(c, image(c.from)), since[i..]);
      }
    }
  }

  /** The fork froze the dataset at this offset; the replica is told so. */
  function Forked(c: Conn, name: Bytes, offset: nat): (r: Conn) {
    if c.state != WaitBgsaveStart then c
    else c.(state := WaitBgsaveEnd, name := name, from := offset, partial := false, out := c.out + FullLine(name, offset))
  }

  lemma ForkedExact(c: Conn, name: Bytes, origin: nat, since: Bytes, image: nat -> Bytes)
    requires Exact(c, origin, since, image, None)
    ensures Exact(Forked(c, name, origin + |since|), origin, since, image, Some(origin + |since|))
  {
    if c.state == WaitBgsaveStart {
      var d := Forked(c, name, origin + |since|);
      assert d.sent + d.out == c.sent + c.out + FullLine(name, origin + |since|);
      assert Newlines(c.before) + FullLine(name, origin + |since|) + [] == Newlines(c.before) + FullLine(name, origin + |since|);
      assert since[|since|..] == [];
    }
  }

  function Opened(c: Conn, snapshot: Bytes): (r: Conn) {
    c.(state := SendBulk, out := c.out + Resp.Line(Resp.Dollar, |snapshot|), file := snapshot)
  }

  lemma OpenedExact(c: Conn, origin: nat, since: Bytes, image: nat -> Bytes, child: nat)
    requires Exact(c, origin, since, image, Some(child)) && c.state == WaitBgsaveEnd
    ensures Exact(Opened(c, image(child)), origin, since, image, None)
  {
    var snapshot := image(child);
    var d, line := Opened(c, snapshot), Resp.Line(Resp.Dollar, |snapshot|);
    assert d.sent + d.out + d.file == c.sent + c.out + line + snapshot;
  }

  /** The next bytes of the file are queued. */
  function Refilled(c: Conn, n: nat): (r: Conn)
    requires n <= |c.file|
  {
    c.(out := c.out + c.file[..n], file := c.file[n..])
  }

  lemma RefilledExact(c: Conn, n: nat, origin: nat, since: Bytes, image: nat -> Bytes, child: Option<nat>)
    requires Exact(c, origin, since, image, child) && c.state == SendBulk && n <= |c.file|
    ensures Exact(Refilled(c, n), origin, since, image, child)
  {
    hide Resp.Line, FullLine, ContinueLine, Newlines;
    assert c.file == c.file[..n] + c.file[n..];
    assert c.sent + (c.out + c.file[..n]) + c.file[n..] == c.sent + c.out + c.file;
  }

  /** The file is at its end: what was held goes out, and the stream follows directly. */
  function Completed(c: Conn): (r: Conn) {
    c.(state := Online, out := c.out + c.held, held := [])
  }

  lemma CompletedExact(c: Conn, origin: nat, since: Bytes, image: nat -> Bytes, child: Option<nat>)
    requires Exact(c, origin, since, image, child) && c.state == SendBulk && c.file == []
    ensures Exact(Completed(c), origin, since, image, child)
  {
    hide Resp.Line, FullLine, Newlines;
    assert c.sent + c.out + [] == c.sent + c.out;
    assert c.sent + (c.out + c.held) == c.sent + c.out + c.held;
  }

  /** The socket took some bytes. */
  function Written(c: Conn, n: nat): (r: Conn)
    requires n <= |c.out|
  {
    c.(sent := c.sent + c.out[..n], out := c.out[n..])
  }

  lemma WrittenExact(c: Conn, n: nat, origin: nat, since: Bytes, image: nat -> Bytes, child: Option<nat>)
    requires Exact(c, origin, since, image, child) && n <= |c.out|
    ensures Exact(Written(c, n), origin, since, image, child)
  {
    hide Announced, Shipped, ContinueLine, Newlines;
    SameHead(c, Written(c, n), image(c.from));
    Passed(c.sent, c.out, n);
  }

  lemma Passed(sent: Bytes, out: Bytes, n: nat)
    requires n <= |out|
    ensures sent + out[..n] + out[n..] == sent + out
  {
    assert out == out[..n] + out[n..];
  }

  function KeptAlive(c: Conn): (r: Conn) {
    if c.closing then c
    else match c.state
      case WaitBgsaveStart => c.(out := c.out + [LF], before := c.before + 1)
      case WaitBgsaveEnd => c.(out := c.out + [LF], after := c.after + 1)
      case _ => c
  }

  lemma KeptAliveExact(c: Conn, origin: nat, since: Bytes, image: nat -> Bytes, child: Option<nat>)
    requires Exact(c, origin, since, image, child)
    ensures Exact(KeptAlive(c), origin, since, image, child)
  {
    assert c.sent + (c.out + [LF]) == c.sent + c.out + [LF];
    var head := Newlines(c.before) + FullLine(c.name, c.from);
    assert head + Newlines(c.after) + [LF] == head + (Newlines(c.after) + [LF]);
  }

  // --- the master ---------------------------------------------------------------------------

  class Feeder {
    const image: nat -> Bytes           // the snapshot of the dataset at a stream offset
    const backlog: ReplBacklog.Backlog

    var replid: Bytes
    var replid2: Bytes
    var secondOffset: Option<nat>
    var replicas: seq<Conn>
    var child: Option<nat>              // a snapshot is being made, of the dataset at this offset

    ghost predicate Valid()
      reads this, backlog, backlog.buf
    {
      backlog.Valid() && AllExact(replicas, backlog.origin, backlog.since, image, child)
    }

    constructor (image: nat -> Bytes, replid: Bytes, capacity: nat)
      ensures Valid() && replicas == [] && child == None && fresh(backlog) && fresh(backlog.buf)
    {
      this.image, this.replid, replid2, secondOffset := image, replid, [], None;
      backlog := new ReplBacklog.Backlog(capacity);
      replicas, child := [], None;
    }

    /** Each write goes to the backlog, and to every replica that needs it. */
    method Feed(data: Bytes)
      requires Valid()
      modifies this`replicas, backlog, backlog.buf
      ensures Valid() && backlog.since == old(backlog.since) + data && backlog.origin == old(backlog.origin)
      ensures |replicas| == |old(replicas)| && forall i :: 0 <= i < |replicas| ==> replicas[i] == Fed(old(replicas)[i], data)
      ensures forall i :: 0 <= i < |replicas| && !old(replicas)[i].closing ==>
        (replicas[i].closing <==>
         old(replicas)[i].state != WaitBgsaveStart && |old(replicas)[i].out| + |old(replicas)[i].held| + |data| > MAX_REPLICA_BUFFER)
    {
      hide Exact, ReplBacklog.Backlog.Valid;
      backlog.Append(data);
      ghost var before := replicas;
      var i := 0;
      while i < |replicas|
        invariant i <= |replicas| == |before|
        invariant forall k :: 0 <= k < |before| ==> replicas[k] == if k < i then Fed(before[k], data) else before[k]
        modifies this`replicas
      {
        replicas := replicas[i := Fed(replicas[i], data)];
        i := i + 1;
      }
      forall k | 0 <= k < |replicas| && !replicas[k].closing
        ensures Exact(replicas[k], backlog.origin, backlog.since, image, child)
      {
        assert Exact(before[k], backlog.origin, old(backlog.since), image, child);
        FedExact(before[k], data, backlog.origin, old(backlog.since), image, child);
      }
    }

    /** A replica asks to continue at an offset, if it can be shown to hold this history up to there. */
    method TryPartialResync(asked: Bytes, offset: int) returns (ok: bool)
      requires Valid()
      modifies this`replicas
      ensures Valid()
      ensures ok ==> |replicas| == |old(replicas)| + 1 && replicas[..|old(replicas)|] == old(replicas)
      ensures ok ==> var c := replicas[|old(replicas)|]; c.state == Online && c.from == offset && c.partial && !c.closing
      ensures ok == (
        && offset >= 0
        && (asked == replid || (asked == replid2 && secondOffset.Some? && offset <= secondOffset.value))
        && backlog.origin <= offset <= backlog.offset && backlog.offset - offset <= backlog.buf.Length)
      ensures !ok ==> replicas == old(replicas)
    {
      if offset < 0 {
        return false;
      }
      var same := asked == replid || (asked == replid2 && secondOffset.Some? && offset <= secondOffset.value);
      var have := backlog.Contains(offset);
      if !same || !have {
        return false;
      }
      var bytes := backlog.CopyFrom(offset);
      hide Exact, ReplBacklog.Backlog.Valid;
      var c := Conn(Online, ContinueLine(replid) + bytes, [], [], [], false, true, replid, offset, 0, 0);
      ContinuedExact(c, backlog.origin, backlog.since, image, child);
      replicas := replicas + [c];
      return true;
    }

    /** A replica that cannot continue waits for a snapshot. */
    method Attach(canFork: bool)
      requires Valid()
      modifies this`replicas, this`child
      ensures Valid() && |replicas| == |old(replicas)| + 1
      ensures old(child).Some? ==> child == old(child) && replicas[..|old(replicas)|] == old(replicas)
      ensures old(child).None? && canFork ==>
        child == Some(backlog.offset) && replicas[|old(replicas)|].state == WaitBgsaveEnd && replicas[|old(replicas)|].from == backlog.offset
      ensures old(child).None? && !canFork ==> child == None && replicas[|old(replicas)|].closing
    {
      var c := Conn(WaitBgsaveStart, [], [], [], [], false, false, [], 0, 0, 0);
      assert Exact(c, backlog.origin, backlog.since, image, child);
      OffsetIs();
      hide Exact, ReplBacklog.Backlog.Valid;
      replicas := replicas + [c];
      assert replicas[|old(replicas)|].state == WaitBgsaveStart;
      StartSnapshotForReplicas(canFork);
    }

    /** Forks for all the waiting replicas at once, unless a child is running or nobody waits. */
    method StartSnapshotForReplicas(canFork: bool)
      requires Valid()
      modifies this`replicas, this`child
      ensures Valid() && |replicas| == |old(replicas)|
      ensures old(child).Some? || !old(Waits(replicas)) ==> child == old(child) && replicas == old(replicas)
      ensures old(child).None? && old(Waits(replicas)) ==> child.Some? == canFork
      ensures old(child).None? && old(Waits(replicas)) && !canFork ==>
        forall i :: 0 <= i < |replicas| ==> replicas[i] == Dropped(old(replicas)[i])
      ensures child.Some? && old(child).None? ==> child.value == backlog.origin + |backlog.since|
      ensures child.Some? && old(child).None? ==>
        forall i :: 0 <= i < |replicas| ==> replicas[i] == Forked(old(replicas)[i], replid, child.value)
      ensures child.Some? && old(child).None? ==> !Waits(replicas)
      ensures child.Some? && old(child).None? ==> forall i :: 0 <= i < |replicas| && old(replicas)[i].state == WaitBgsaveStart ==>
        replicas[i].state == WaitBgsaveEnd && replicas[i].from == child.value && replicas[i].closing == old(replicas)[i].closing
    {
      hide Exact, ReplBacklog.Backlog.Valid;
      var waiting := AnyWaiting();
      if !waiting || child.Some? {
        return;
      }
      if !canFork {
        CloseWaiting();
        return;
      }
      OffsetIs();
      var offset := backlog.offset;
      ghost var before := replicas;
      var i := 0;
      while i < |replicas|
        invariant i <= |replicas| == |before|
        invariant forall k :: 0 <= k < |before| ==> replicas[k] == if k < i then Forked(before[k], replid, offset) else before[k]
        modifies this`replicas
      {
        replicas := replicas[i := Forked(replicas[i], replid, offset)];
        i := i + 1;
      }
      child := Some(offset);
      forall k | 0 <= k < |replicas| && !replicas[k].closing
        ensures Exact(replicas[k], backlog.origin, backlog.since, image, child)
      {
        ForkedExact(before[k], replid, backlog.origin, backlog.since, image);
      }
    }

    lemma OffsetIs()
      requires backlog.Valid()
      ensures backlog.offset == backlog.origin + |backlog.since|
    {
    }

    method AnyWaiting() returns (waiting: bool)
      ensures waiting == Waits(replicas)
    {
      var i := 0;
      while i < |replicas|
        invariant i <= |replicas| && forall k :: 0 <= k < i ==> replicas[k].state != WaitBgsaveStart
      {
        if replicas[i].state == WaitBgsaveStart {
          return true;
        }
        i := i + 1;
      }
      return false;
    }

    method CloseWaiting()
      requires Valid()
      modifies this`replicas
      ensures Valid() && |replicas| == |old(replicas)|
      ensures forall i :: 0 <= i < |replicas| ==> replicas[i] == Dropped(old(replicas)[i])
    {
      hide Exact, ReplBacklog.Backlog.Valid;
      ghost var before := replicas;
      var i := 0;
      while i < |replicas|
        invariant i <= |replicas| == |before|
        invariant forall k :: 0 <= k < |before| ==> replicas[k] == if k < i then Dropped(before[k]) else before[k]
        modifies this`replicas
      {
        replicas := replicas[i := Dropped(replicas[i])];
        i := i + 1;
      }
    }

    /**
     The child is done. Each replica waiting for it gets the snapshot's length and an open
     file of its own; if the snapshot failed, or its file cannot be opened, it is dropped.
     */
    method SnapshotFinished(ok: bool, opens: seq<bool>)
      requires Valid() && child.Some? && |opens| == |replicas|
      modifies this`replicas, this`child
      ensures Valid() && child == None && |replicas| == |old(replicas)|
      ensures forall i :: 0 <= i < |replicas| && old(replicas)[i].state == WaitBgsaveEnd && !old(replicas)[i].closing ==>
        replicas[i] == if ok && opens[i] then Opened(old(replicas)[i], image(old(child).value)) else old(replicas)[i].(closing := true)
      ensures forall i :: 0 <= i < |replicas| && old(replicas)[i].state == WaitBgsaveEnd && !old(replicas)[i].closing ==>
        if ok && opens[i] then replicas[i].state == SendBulk && !replicas[i].closing else replicas[i].closing
      ensures forall i :: 0 <= i < |replicas| && (old(replicas)[i].state != WaitBgsaveEnd || old(replicas)[i].closing) ==>
        replicas[i] == old(replicas)[i]
    {
      hide Exact, ReplBacklog.Backlog.Valid;
      ghost var before, made := replicas, child.value;
      var i := 0;
      while i < |replicas|
        invariant i <= |replicas| == |before|
        invariant forall k :: 0 <= k < |before| ==>
          replicas[k] == if k >= i || before[k].state != WaitBgsaveEnd || before[k].closing then before[k]
            else if ok && opens[k] then Opened(before[k], image(made)) else before[k].(closing := true)
        modifies this`replicas
      {
        var r := replicas[i];
        if r.state == WaitBgsaveEnd && !r.closing {
          replicas := replicas[i := if ok && opens[i] then Opened(r, image(child.value)) else r.(closing := true)];
        }
        i := i + 1;
      }
      child := None;
      forall k | 0 <= k < |replicas| && !replicas[k].closing
        ensures Exact(replicas[k], backlog.origin, backlog.since, image, None)
      {
        if before[k].state == WaitBgsaveEnd {
          OpenedExact(before[k], backlog.origin, backlog.since, image, made);
        } else {
          OtherChild(before[k], backlog.origin, backlog.since, image, Some(made), None);
        }
      }
    }

    /** A snapshot made for another reason: it counts as a running child all the same. */
    method Bgsave()
      requires Valid() && child.None?
      modifies this`child
      ensures Valid() && child == Some(backlog.offset)
    {
      hide Exact, ReplBacklog.Backlog.Valid;
      child := Some(backlog.offset);
      forall k | 0 <= k < |replicas| && !replicas[k].closing
        ensures Exact(replicas[k], backlog.origin, backlog.since, image, child)
      {
        NoChildNoWait(replicas[k], backlog.origin, backlog.since, image);
        OtherChild(replicas[k], backlog.origin, backlog.since, image, None, child);
      }
    }

    /** Reads the next piece of a replica's snapshot file into its output; at its end the replica is online. */
    method RefillSnapshot(i: nat, n: nat)
      requires Valid() && i < |replicas| && replicas[i].state == SendBulk && !replicas[i].closing
      requires if replicas[i].file == [] then n == 0 else 0 < n <= |replicas[i].file|
      modifies this`replicas
      ensures Valid()
      ensures replicas == old(replicas)[i := if n == 0 then Completed(old(replicas)[i]) else Refilled(old(replicas)[i], n)]
      ensures !replicas[i].closing && if n == 0 then replicas[i].state == Online else |replicas[i].file| == |old(replicas)[i].file| - n
    {
      hide Exact, ReplBacklog.Backlog.Valid;
      var c := replicas[i];
      if n == 0 {
        CompletedExact(c, backlog.origin, backlog.since, image, child);
        replicas := replicas[i := Completed(c)];
      } else {
        RefilledExact(c, n, backlog.origin, backlog.since, image, child);
        replicas := replicas[i := Refilled(c, n)];
      }
    }

    /** The socket takes n bytes of a replica's output. */
    method Flush(i: nat, n: nat)
      requires Valid() && i < |replicas| && n <= |replicas[i].out|
      modifies this`replicas
      ensures Valid() && replicas == old(replicas)[i := Written(old(replicas)[i], n)]
    {
      hide Exact, ReplBacklog.Backlog.Valid;
      if !replicas[i].closing {
        WrittenExact(replicas[i], n, backlog.origin, backlog.since, image, child);
      }
      replicas := replicas[i := Written(replicas[i], n)];
    }

    /** Once a second: a newline to every replica still waiting. */
    method Keepalive()
      requires Valid()
      modifies this`replicas
      ensures Valid() && |replicas| == |old(replicas)|
      ensures forall i :: 0 <= i < |replicas| ==> replicas[i] == KeptAlive(old(replicas)[i])
    {
      hide Exact, ReplBacklog.Backlog.Valid;
      ghost var before := replicas;
      var i := 0;
      while i < |replicas|
        invariant i <= |replicas| == |before|
        invariant forall k :: 0 <= k < |before| ==> replicas[k] == if k < i then KeptAlive(before[k]) else before[k]
        modifies this`replicas
      {
        replicas := replicas[i := KeptAlive(replicas[i])];
        i := i + 1;
      }
      forall k | 0 <= k < |replicas| && !replicas[k].closing
        ensures Exact(replicas[k], backlog.origin, backlog.since, image, child)
      {
        KeptAliveExact(before[k], backlog.origin, backlog.since, image, child);
      }
    }

    /** A connection is gone, for whatever reason. */
    method Detach(i: nat)
      requires Valid() && i < |replicas|
      modifies this`replicas
      ensures Valid() && replicas == old(replicas)[..i] + old(replicas)[i + 1..]
    {
      hide Exact, ReplBacklog.Backlog.Valid;
      replicas := replicas[..i] + replicas[i + 1..];
    }
  }

  ghost predicate Waits(cs: seq<Conn>) {
    exists i :: 0 <= i < |cs| && cs[i].state == WaitBgsaveStart
  }

  /** A replica whose snapshot could not even be started reconnects and tries again. */
  function Dropped(c: Conn): (r: Conn) {
    if c.state == WaitBgsaveStart then c.(closing := true) else c
  }

  ghost predicate AllExact(cs: seq<Conn>, origin: nat, since: Bytes, image: nat -> Bytes, child: Option<nat>) {
    forall i :: 0 <= i < |cs| && !cs[i].closing ==> Exact(cs[i], origin, since, image, child)
  }

  lemma ContinuedExact(c: Conn, origin: nat, since: Bytes, image: nat -> Bytes, child: Option<nat>)
    requires c.state == Online && c.partial && c.held == [] && c.sent == [] && origin <= c.from <= origin + |since|
    requires c.out == ContinueLine(c.name) + since[c.from - origin..]
    ensures Exact(c, origin, since, image, child)
  {
    assert c.sent + c.out == c.out;
  }

  lemma NoChildNoWait(c: Conn, origin: nat, since: Bytes, image: nat -> Bytes)
    requires Exact(c, origin, since, image, None)
    ensures c.state != WaitBgsaveEnd
  {
  }

  lemma OtherChild(c: Conn, origin: nat, since: Bytes, image: nat -> Bytes, child: Option<nat>, other: Option<nat>)
    requires Exact(c, origin, since, image, child) && c.state != WaitBgsaveEnd
    ensures Exact(c, origin, since, image, other)
  {
  }

  /** What the connection has carried and will carry, from the snapshot's last byte on, is the stream from the announced offset. */
  lemma ByteExact(c: Conn, origin: nat, since: Bytes, image: nat -> Bytes, child: Option<nat>)
    requires Exact(c, origin, since, image, child) && (c.state == SendBulk || c.state == Online) && !c.partial
    ensures origin <= c.from <= origin + |since|
    ensures c.sent + c.out + c.file[..if c.state == SendBulk then |c.file| else 0] + c.held
      == Shipped(c, image(c.from)) + since[c.from - origin..]
  {
    assert c.file[..|c.file|] == c.file;
    if c.state == Online {
      assert c.sent + c.out + [] + [] == c.sent + c.out;
    }
  }

  // --- the replica reads it back -----------------------------------------------------------------

  function SkipNewlines(s: Bytes): (r: Bytes) {
    if s != [] && s[0] == LF then SkipNewlines(s[1..]) else s
  }

  /** The next line, without the keepalives before it. */
  function TakeLine(s: Bytes): (r: Option<(Bytes, Bytes)>) {
    var t := SkipNewlines(s);
    var e := Resp.FindCrlf(t, 0);
    if e.None? then None else Some((t[..e.value], t[e.value + 2..]))
  }

  function ParseReply(line: Bytes): (r: Option<(Bytes, nat)>) {
    var n := |FULLRESYNC|;
    if |line| <= n + REPLID_LENGTH || line[..n] != FULLRESYNC || line[n + REPLID_LENGTH] != Space then None
    else
      var off := Resp.ParsedLength(line[n + REPLID_LENGTH + 1..]);
      if off.None? then None else Some((line[n..n + REPLID_LENGTH], off.value))
  }

  datatype Resync = Resync(name: Bytes, from: nat, snapshot: Bytes, stream: Bytes)

  /** Everything a replica takes from the bytes after its PSYNC. */
  function Decode(s: Bytes): (r: Option<Resync>) {
    var first := TakeLine(s);
    if first.None? then None
    else
      var reply := ParseReply(first.value.0);
      var second := TakeLine(first.value.1);
      if reply.None? || second.None? || second.value.0 == [] || second.value.0[0] != Resp.Dollar then None
      else
        var len := Resp.ParsedLength(second.value.0[1..]);
        if len.None? || len.value > |second.value.1| then None
        else Some(Resync(reply.value.0, reply.value.1, second.value.1[..len.value], second.value.1[len.value..]))
  }

  predicate Plain(s: Bytes) {
    forall i :: 0 <= i < |s| ==> s[i] != Resp.CR
  }

  lemma {:induction false} NewlinesSkipped(n: nat, s: Bytes)
    requires s != [] && s[0] != LF
    ensures SkipNewlines(Newlines(n) + s) == s
  {
    if n == 0 {
      assert [] + s == s;
    } else {
      NewlinesFront(n);
      var t := Newlines(n) + s;
      assert t[0] == LF && t[1..] == Newlines(n - 1) + s;
      NewlinesSkipped(n - 1, s);
    }
  }

  lemma {:induction false} NewlinesFront(n: nat)
    requires n > 0
    ensures Newlines(n) == [LF] + Newlines(n - 1)
  {
    if n > 1 {
      NewlinesFront(n - 1);
      assert [LF] + Newlines(n - 2) + [LF] == [LF] + (Newlines(n - 2) + [LF]);
    }
  }

  lemma {:induction false} LineEnds(s: Bytes, from: nat, e: nat)
    requires from <= e && e + 2 <= |s| && s[e] == Resp.CR && s[e + 1] == Resp.LF
    requires forall i :: from <= i < e ==> s[i] != Resp.CR
    ensures Resp.FindCrlf(s, from) == Some(e)
    decreases e - from
  {
    if from < e {
      LineEnds(s, from + 1, e);
    }
  }

  lemma LineTaken(n: nat, line: Bytes, rest: Bytes)
    requires line != [] && line[0] != LF && Plain(line)
    ensures TakeLine(Newlines(n) + (line + Resp.Crlf + rest)) == Some((line, rest))
  {
    var s := line + Resp.Crlf + rest;
    NewlinesSkipped(n, s);
    LineEnds(s, 0, |line|);
    assert s[..|line|] == line && s[|line| + 2..] == rest;
  }

  lemma ReplyParses(name: Bytes, from: nat)
    requires |name| == REPLID_LENGTH && from <= Resp.SizeMax
    ensures ParseReply(FULLRESYNC + name + [Space] + Resp.Digits(from)) == Some((name, from))
  {
    var line, n := FULLRESYNC + name + [Space] + Resp.Digits(from), |FULLRESYNC|;
    assert line[..n] == FULLRESYNC && line[n..n + REPLID_LENGTH] == name;
    assert line[n + REPLID_LENGTH + 1..] == Resp.Digits(from);
    Resp.DigitsRoundTrip(from);
  }

  lemma DigitsPlain(n: nat)
    ensures Plain(Resp.Digits(n))
  {
  }

  /**
   The replica gets back exactly what the master put in: the history's name, the offset,
   the snapshot of the dataset there, and the stream from there on.
   */
  lemma DecodeInvertsShipping(c: Conn, snapshot: Bytes, stream: Bytes)
    requires |c.name| == REPLID_LENGTH && Plain(c.name) && c.from <= Resp.SizeMax && |snapshot| <= Resp.SizeMax
    ensures Decode(Shipped(c, snapshot) + stream) == Some(Resync(c.name, c.from, snapshot, stream))
  {
    var digits, len := Resp.Digits(c.from), Resp.Digits(|snapshot|);
    var line, head := FULLRESYNC + c.name + [Space] + digits, [Resp.Dollar] + len;
    var body := snapshot + stream;
    var after := Newlines(c.after) + (head + Resp.Crlf + body);
    DigitsPlain(c.from);
    DigitsPlain(|snapshot|);
    assert Shipped(c, snapshot) + stream == Newlines(c.before) + (line + Resp.Crlf + after) by {
      Regroup(Newlines(c.before), line, Newlines(c.after), head, snapshot, stream);
    }
    LineTaken(c.before, line, after);
    LineTaken(c.after, head, body);
    ReplyParses(c.name, c.from);
    Resp.DigitsRoundTrip(|snapshot|);
    assert head[1..] == len;
    assert body[..|snapshot|] == snapshot && body[|snapshot|..] == stream;
  }

  lemma Regroup(a: Bytes, line: Bytes, b: Bytes, head: Bytes, snapshot: Bytes, stream: Bytes)
    ensures a + (line + Resp.Crlf) + b + (head + Resp.Crlf) + snapshot + stream
      == a + (line + Resp.Crlf + (b + (head + Resp.Crlf + (snapshot + stream))))
  {
  }

  /** So a replica that is online, and has read all that was sent and queued, holds the stream up to now. */
  lemma OnlineReplicaReadsAll(c: Conn, origin: nat, since: Bytes, image: nat -> Bytes, child: Option<nat>)
    requires Exact(c, origin, since, image, child) && c.state == Online && !c.partial
    requires |c.name| == REPLID_LENGTH && Plain(c.name) && c.from <= Resp.SizeMax && |image(c.from)| <= Resp.SizeMax
    ensures origin <= c.from <= origin + |since|
    ensures Decode(c.sent + c.out) == Some(Resync(c.name, c.from, image(c.from), since[c.from - origin..]))
  {
    DecodeInvertsShipping(c, image(c.from), since[c.from - origin..]);
  }
}
