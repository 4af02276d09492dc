/** One node's replication state, updated in place, against the steps of the protocol. */
module ReplNode {
  import opened Prelude
  import opened Replication
  import ReplBacklog

  class ReplNode {
    const backlog: ReplBacklog.Backlog

    var replid: ReplId
    var replid2: ReplId
    var second: Option<nat>
    var master: Option<NodeId>
    var started: bool
    var shared: bool
    var replicas: set<NodeId>   // the replicas connected to this node

    ghost var link: Link
    ghost var data: Log     // everything that produced the dataset

    ghost predicate Valid()
      reads this, backlog, backlog.buf
    {
      backlog.Valid()
    }

    /** The node as the protocol sees it. */
    ghost function View(): (r: Node)
      requires Valid()
      reads this, backlog, backlog.buf
    {
      Node(replid, replid2, second, backlog.Window(), backlog.buf.Length, backlog.offset, master, link, started, shared, data)
    }

    constructor (id: ReplId, capacity: nat, ghost disk: Log)
      ensures Valid() && View() == NewNode(id, Max(capacity, 1), disk) && replicas == {} && fresh(backlog) && fresh(backlog.buf)
    {
      backlog := new ReplBacklog.Backlog(capacity);
      replid, replid2, second, master, started, shared := id, Nobody(), None, None, false, false;
      link, data, replicas := Idle, disk, {};
    }

    method Feed(d: Bytes)
      requires Valid()
      modifies this`data, backlog, backlog.buf
      ensures Valid() && View() == Replication.Feed(old(View()), d)
    {
      hide ReplBacklog.Backlog.Newest, Last, Nobody;
      ReplBacklog.LastOfConcat(backlog.since, d, backlog.buf.Length);
      backlog.Append(d);
      data := data + d;
    }

    method ReplicaOf(m: NodeId)
      requires Valid()
      modifies this`master, this`started, this`link, this`replicas
      ensures Valid() && replicas == if old(master) == Some(m) then old(replicas) else {}
      ensures View() == if old(master) == Some(m) then old(View()) else old(View()).(link := Idle, master := Some(m), started := true)
    {
      if master == Some(m) {
        return;
      }
      link, started, master := Idle, true, Some(m);
      DisconnectReplicas();
    }

    /** A replica becomes a master: its history goes on under a fresh name. */
    method ReplicaOfNoOne(id: ReplId)
      requires Valid()
      modifies this`master, this`link, this`replid, this`replid2, this`second, this`shared, this`replicas
      ensures Valid() && replicas == if old(master).None? then old(replicas) else {}
      ensures View() == if old(master).None? then old(View()) else ShiftReplid(old(View()).(link := Idle, master := None), id)
      ensures old(master).Some? ==>
        replid == id && replid2 == old(replid) && second == Some(old(backlog.offset)) && !shared && master.None?
    {
      if master.None? {
        return;
      }
      link, master := Idle, None;
      replid2, second, replid, shared := replid, Some(backlog.offset), id, false;
      DisconnectReplicas();
    }

    /** Closes the connection of every replica; they come back and ask again. */
    method DisconnectReplicas()
      modifies this`replicas
      ensures replicas == {}
    {
      while replicas != {}
        decreases replicas
      {
        var r :| r in replicas;
        replicas := replicas - {r};
      }
    }

    /** A replica asks to continue: if it may, it is connected from then on. */
    method Continue(r: NodeId, name: ReplId, offset: int) returns (missing: Option<Bytes>)
      requires Valid()
      modifies this`replicas, this`shared
      ensures Valid() && (missing.Some? <==> offset >= 0 && old(CanContinue(View(), name, offset)))
      ensures if missing.Some?
        then missing.value == old(Missing(View(), offset)) && replicas == old(replicas) + {r} && View() == old(View()).(shared := true)
        else replicas == old(replicas) && View() == old(View())
    {
      missing := TryPartialResync(name, offset);
      if missing.Some? {
        replicas, shared := replicas + {r}, true;
      }
    }

    /** The bytes a replica at this offset still lacks, if it can be shown to hold this history up to there. */
    method TryPartialResync(name: ReplId, offset: int) returns (missing: Option<Bytes>)
      requires Valid()
      ensures missing.Some? <==> offset >= 0 && CanContinue(View(), name, offset)
      ensures missing.Some? <==>
        && (name == replid || (name == replid2 && second.Some? && offset <= second.value))
        && 0 <= offset <= backlog.offset && backlog.offset - offset <= backlog.histlen
      ensures missing.Some? ==> missing.value == Missing(View(), offset)
    {
      if offset < 0 {
        return None;
      }
      var same := name == replid || (name == replid2 && second.Some? && offset <= second.value);
      var have := backlog.Contains(offset);
      if !same || !have {
        return None;
      }
      var bytes := backlog.CopyFrom(offset);
      assert bytes == Missing(View(), offset);
      return Some(bytes);
    }

    /** +CONTINUE: the master may have renamed the history since. */
    method HandleContinue(id: ReplId)
      requires Valid() && link.Continued? && link.id == id
      modifies this`replid, this`replid2, this`second, this`shared, this`link, this`replicas
      ensures Valid() && View() == Adopted(old(View())) && replicas == if id == old(replid) then old(replicas) else {}
      ensures replid == id && shared
      ensures if id == old(replid) then replid2 == old(replid2) && second == old(second)
        else replid2 == old(replid) && second == Some(backlog.offset)
    {
      hide ReplBacklog.Backlog.Newest, ReplBacklog.Backlog.Valid, ReplBacklog.Backlog.Window, Nobody;
      if id != replid {
        DisconnectReplicas();
        replid2, second, replid := replid, Some(backlog.offset), id;
      }
      shared, link := true, Connected(link.peer, link.chan, link.open);
    }

    /** The snapshot has been received and loaded: the old history is forgotten. */
    method FinishTransfer(id: ReplId, at: nat, ghost image: Log)
      requires Valid() && link.Snapshot? && link.id == id && link.at == at && link.image == image
      modifies this`replid, this`replid2, this`second, this`shared, this`link, this`data, this`replicas, backlog
      ensures Valid() && View() == Adopted(old(View())) && replicas == {}
      ensures replid == id && second.None? && shared && backlog.offset == at && backlog.histlen == 0
    {
      hide ReplBacklog.Backlog.Newest, Nobody;
      DisconnectReplicas();
      data := image;
      replid, replid2, second := id, Nobody(), None;
      backlog.Reset(at);
      shared, link := true, Connected(link.peer, link.chan, link.open);
    }
  }
}
