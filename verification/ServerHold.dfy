/** How the server holds client writes back during a pause, without reordering or forgetting any. */
module ServerHold {
  import opened Prelude

  type Fd = nat

  datatype Command = Command(id: nat, write: bool)

  /** A client; `ran` and `received` record what was dispatched and what ever arrived. */
  datatype Client = Client(
    queue: seq<Command>,        // whole commands in the input buffer
    held: Option<Command>,
    blocked: bool,              // parked by WAIT
    closing: bool,
    ran: seq<Command>,
    received: seq<Command>)

  function Waiting(c: Client): (r: seq<Command>) {
    (if c.held.Some? then [c.held.value] else []) + c.queue
  }

  /** Commands are dispatched in the order they arrived, and only a write is ever held. */
  predicate InOrder(c: Client) {
    c.ran + Waiting(c) == c.received && (c.held.Some? ==> c.held.value.write && !c.blocked)
  }

  datatype Event = Event(fd: Fd, cmd: Command, paused: bool)

  class Server {
    var clients: map<Fd, Client>
    var paused: bool
    var heldClients: seq<Fd>
    var resumeHeld: bool
    var trace: seq<Event>       // every dispatch of a client's command

    /** Nothing is reordered or lost, and no write has run during a pause. */
    ghost predicate Orderly()
      reads this
    {
      && (forall fd :: fd in clients ==> InOrder(clients[fd]))
      && (forall i :: 0 <= i < |trace| ==> !(trace[i].paused && trace[i].cmd.write))
    }

    /** And every held client is on the list of those to resume. */
    ghost predicate Valid()
      reads this
    {
      && Orderly()
      && (forall fd :: fd in clients && clients[fd].held.Some? && !clients[fd].closing ==> fd in heldClients)
      && (!paused && heldClients != [] ==> resumeHeld)
    }

    constructor ()
      ensures Valid() && clients == map[] && !paused && trace == []
    {
      clients, paused, heldClients, resumeHeld, trace := map[], false, [], false, [];
    }

    method Accept(fd: Fd)
      requires Valid() && fd !in clients
      modifies this`clients
      ensures Valid() && clients == old(clients)[fd := Client([], None, false, false, [], [])]
    {
      clients := clients[fd := Client([], None, false, false, [], [])];
    }

    /** More commands arrive on a connection. */
    method Receive(fd: Fd, cmds: seq<Command>)
      requires Valid() && fd in clients
      modifies this`clients
      ensures Valid()
      ensures clients == old(clients)[fd := old(clients)[fd].(queue := old(clients)[fd].queue + cmds, received := old(clients)[fd].received + cmds)]
    {
      var c := clients[fd];
      var d := c.(queue := c.queue + cmds, received := c.received + cmds);
      assert InOrder(d) by {
        assert Waiting(d) == Waiting(c) + cmds;
        assert c.ran + (Waiting(c) + cmds) == c.ran + Waiting(c) + cmds;
      }
      clients := clients[fd := d];
    }

    method SetWritesPaused(p: bool)
      requires Valid()
      modifies this`paused, this`resumeHeld
      ensures Valid() && paused == p && (p != old(paused) ==> resumeHeld == !p)
    {
      if p == paused {
        return;
      }
      paused := p;
      resumeHeld := !p;
    }

    /** Lets a client go on; it joins the held clients if a write of its meets the pause. */
    method ProcessInput(fd: Fd)
      requires Orderly() && fd in clients
      modifies this`clients, this`heldClients, this`trace
      ensures Orderly() && Others(old(clients), clients, fd) && (old(Valid()) ==> Valid())
      ensures clients[fd].received == old(clients)[fd].received && clients[fd].closing == old(clients)[fd].closing
      ensures !paused ==> heldClients == old(heldClients) && (!clients[fd].closing ==> clients[fd].held.None?)
      ensures paused && clients[fd].held.Some? && old(clients)[fd].held.None? ==> heldClients == old(heldClients) + [fd]
      ensures paused && (clients[fd].held.None? || old(clients)[fd].held.Some?) ==> heldClients == old(heldClients)
      ensures paused && old(clients)[fd].held.Some? ==> clients == old(clients)
    {
      hide InOrder;
      var c, holds, events := Work(fd, clients[fd], paused);
      assert paused && clients[fd].held.Some? ==> clients[fd := c] == clients;
      clients := clients[fd := c];
      if holds {
        heldClients := heldClients + [fd];
      }
      trace := trace + events;
    }

    /** After the pause: every held client goes on, in the order it was held. */
    method ResumeHeldClients()
      requires Valid() && !paused
      modifies this`clients, this`heldClients, this`trace, this`resumeHeld
      ensures Valid() && heldClients == [] && !resumeHeld && clients.Keys == old(clients).Keys
      ensures forall fd :: fd in clients && !clients[fd].closing ==> clients[fd].held.None?
      ensures forall fd :: fd in clients ==> clients[fd].received == old(clients)[fd].received
    {
      hide InOrder;
      resumeHeld := false;
      var list := heldClients;
      heldClients := [];
      var i := 0;
      while i < |list|
        invariant i <= |list| && Orderly() && heldClients == [] && !resumeHeld && clients.Keys == old(clients).Keys
        invariant forall fd :: fd in clients && clients[fd].held.Some? && !clients[fd].closing ==> fd in list[i..]
        invariant forall fd :: fd in clients ==> clients[fd].received == old(clients)[fd].received
      {
        var fd := list[i];
        assert list[i..] == [fd] + list[i + 1..];
        if fd in clients && clients[fd].held.Some? && !clients[fd].closing {
          ProcessInput(fd);
        }
        i := i + 1;
      }
    }
  }

  /**
   Dispatches a client's commands one by one, until there are none left, it is parked, or
   a write meets the pause; such a write is held, and nothing behind it overtakes it.
   */
  method Work(fd: Fd, client: Client, paused: bool) returns (c: Client, holds: bool, events: seq<Event>)
    requires InOrder(client)
    ensures InOrder(c) && c.received == client.received && c.closing == client.closing
    ensures client.ran <= c.ran && |events| == |c.ran| - |client.ran|
    ensures forall i :: 0 <= i < |events| ==> events[i] == Event(fd, c.ran[|client.ran| + i], paused) && !(paused && events[i].cmd.write)
    ensures holds == (c.held.Some? && client.held.None?) && (holds ==> paused)
    ensures paused && client.held.Some? ==> c == client && events == []
    ensures !paused && !c.closing ==> c.held.None?
    ensures !c.closing && !c.blocked && c.held.None? ==> c.queue == []
  {
    c, holds, events := client, false, [];
    while !c.blocked && !c.closing
      invariant InOrder(c) && c.received == client.received && c.closing == client.closing
      invariant client.ran <= c.ran && |events| == |c.ran| - |client.ran|
      invariant forall i :: 0 <= i < |events| ==> events[i] == Event(fd, c.ran[|client.ran| + i], paused) && !(paused && events[i].cmd.write)
      invariant paused && client.held.Some? ==> c == client && events == []
      invariant c.held.Some? ==> client.held.Some?
      decreases |Waiting(c)|
    {
      if c.held.Some? && paused {
        break;
      }
      if c.held.None? && c.queue == [] {
        break;
      }
      var cmd := Waiting(c)[0];
      var rest := if c.held.Some? then c.(held := None) else c.(queue := c.queue[1..]);
      assert Waiting(c) == [cmd] + Waiting(rest);
      if paused && cmd.write {
        c := rest.(held := Some(cmd));
        holds := true;
        return;
      }
      var parks: bool := *;
      Dispatched(rest, cmd, parks);
      c := rest.(ran := rest.ran + [cmd], blocked := parks);
      events := events + [Event(fd, cmd, paused)];
    }
  }

  lemma Dispatched(rest: Client, cmd: Command, parks: bool)
    requires rest.ran + ([cmd] + Waiting(rest)) == rest.received && rest.held.None?
    ensures InOrder(rest.(ran := rest.ran + [cmd], blocked := parks))
  {
    assert rest.ran + ([cmd] + Waiting(rest)) == rest.ran + [cmd] + Waiting(rest);
  }

  ghost predicate Others(before: map<Fd, Client>, after: map<Fd, Client>, fd: Fd) {
    fd in before && after.Keys == before.Keys && forall k :: k in before && k != fd ==> after[k] == before[k]
  }
}
