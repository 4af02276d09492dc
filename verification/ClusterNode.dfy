/** One cluster node's tables, updated in place: slots, epochs, its role and its votes. */
module ClusterNode {
  import opened Prelude
  import opened SlotClaims
  import Bus = ClusterBus

  /** A slot changed hands: nothing but the slot sets changes. */
  ghost function Moved(nodes: Nodes, s: nat, o: Option<Id>): (r: Nodes) {
    map n | n in nodes :: nodes[n].(slots := nodes[n].slots - {s} + if o == Some(n) then {s} else {})
  }

  /** The same nodes in the same roles under the same epochs; only slot sets may differ. */
  ghost predicate SameRoles(a: Nodes, b: Nodes) {
    a.Keys == b.Keys && forall n :: n in a ==> a[n].(slots := {}) == b[n].(slots := {})
  }

  lemma MovedMirrors(owner: Owners, nodes: Nodes, s: nat, o: Option<Id>)
    requires Mirrored(owner, nodes) && s < |owner| && (o.Some? ==> o.value in nodes)
    ensures Mirrored(owner[s := o], Moved(nodes, s, o)) && SameRoles(nodes, Moved(nodes, s, o))
  {
    var to, moved := owner[s := o], Moved(nodes, s, o);
    assert moved.Keys == nodes.Keys;
    forall n, t: nat | n in moved
      ensures t in moved[n].slots <==> t < |to| && to[t] == Some(n)
    {
      MirrorsAt(owner, nodes, n, t);
    }
    forall t | 0 <= t < |to| && to[t].Some?
      ensures to[t].value in moved
    {
      OwnerKnown(owner, nodes, t);
    }
    assert Mirrored(to, moved);
    assert SameRoles(nodes, moved);
  }

  lemma MirrorsAt(owner: Owners, nodes: Nodes, n: Id, s: nat)
    requires Mirrored(owner, nodes) && n in nodes
    ensures s in nodes[n].slots <==> s < |owner| && owner[s] == Some(n)
  {
  }

  /** Changing the old owner's set and the new owner's set is all it takes. */
  lemma MovedByTwo(owner: Owners, nodes: Nodes, s: nat, o: Option<Id>)
    requires Mirrored(owner, nodes) && s < |owner| && (o.Some? ==> o.value in nodes)
    ensures Moved(nodes, s, o) == Filled(Emptied(nodes, owner[s], s), o, s)
  {
    var moved, two := Moved(nodes, s, o), Filled(Emptied(nodes, owner[s], s), o, s);
    forall n | n in nodes
      ensures moved[n] == two[n]
    {
      MirrorsAt(owner, nodes, n, s);
      assert owner[s] != Some(n) ==> nodes[n].slots - {s} == nodes[n].slots;
    }
  }

  function Emptied(nodes: Nodes, was: Option<Id>, s: nat): (r: Nodes) {
    if was.Some? && was.value in nodes then nodes[was.value := nodes[was.value].(slots := nodes[was.value].slots - {s})]
    else nodes
  }

  function Filled(nodes: Nodes, o: Option<Id>, s: nat): (r: Nodes) {
    if o.Some? && o.value in nodes then nodes[o.value := nodes[o.value].(slots := nodes[o.value].slots + {s})] else nodes
  }

  lemma RolesChain(a: Nodes, b: Nodes, c: Nodes)
    requires SameRoles(a, b) && SameRoles(b, c)
    ensures SameRoles(a, c)
  {
  }

  lemma RolesEpoch(a: Nodes, b: Nodes, o: Option<Id>)
    requires SameRoles(a, b)
    ensures EpochOf(a, o) == EpochOf(b, o)
  {
  }

  class Cluster {
    const me: Id
    const owner: array<Option<Id>>
    const migratingTo: array<Option<Id>>
    const importingFrom: array<Option<Id>>
    const keys: array<nat>            // how many keys the store holds in each slot

    var nodes: Nodes
    var currentEpoch: nat
    var lastVote: nat
    var authSent: bool                // failover_auth_*: the election this node runs
    var authEpoch: nat
    var authCount: nat
    var saved: Bus.Saved              // what nodes.conf says

    ghost predicate Valid()
      reads this, owner, migratingTo, importingFrom, keys
    {
      && owner.Length == migratingTo.Length == importingFrom.Length == keys.Length == SLOTS
      && owner != migratingTo && owner != importingFrom && migratingTo != importingFrom
      && me in nodes && Mirrored(owner[..], nodes)
      && (!nodes[me].master ==> nodes[me].masterId.Some? && nodes[me].masterId.value != me)
      && (!nodes[me].master ==> forall s :: 0 <= s < SLOTS ==> owner[s] != Some(me))
      && authEpoch <= currentEpoch
      && forall n :: n in nodes ==> nodes[n].epoch <= currentEpoch
    }

    /** A node on its own: a master without slots that knows nobody else. */
    constructor (me: Id)
      ensures Valid() && this.me == me && nodes.Keys == {me} && nodes[me].master
      ensures forall s :: 0 <= s < SLOTS ==> owner[s] == None && importingFrom[s] == None
    {
      this.me := me;
      owner := new Option<Id>[SLOTS](_ => None);
      migratingTo := new Option<Id>[SLOTS](_ => None);
      importingFrom := new Option<Id>[SLOTS](_ => None);
      keys := new nat[SLOTS](_ => 0);
      nodes := map[me := Info(true, None, 0, {}, false, None)];
      currentEpoch, lastVote := 0, 0;
      authSent, authEpoch, authCount := false, 0, 0;
      saved := Bus.Saved(0, 0, map[]);
    }

    /** The node as the protocol of epochs and votes sees it. */
    ghost function View(): (r: Bus.Node)
      requires me in nodes
      reads this
    {
      Bus.Node(currentEpoch, lastVote, Epochs(nodes), if nodes[me].master || nodes[me].masterId.None? then me else nodes[me].masterId.value,
        Bus.Auth(authSent, authEpoch, authCount), saved)
    }

    /** This node takes the same masters for slot-serving as everybody does. */
    ghost predicate Agreed(voters: set<Id>)
      reads this
    {
      forall n :: n in nodes ==> (n in voters <==> nodes[n].master && nodes[n].slots != {})
    }

    /** set_slot: the owner table and both slot sets. */
    method SetSlot(slot: nat, o: Option<Id>)
      requires slot < owner.Length && Mirrored(owner[..], nodes) && (o.Some? ==> o.value in nodes)
      modifies this`nodes, owner
      ensures owner[..] == old(owner[..])[slot := o] && Mirrored(owner[..], nodes) && SameRoles(old(nodes), nodes)
    {
      hide Mirrored, SameRoles;
      MovedMirrors(owner[..], nodes, slot, o);
      MovedByTwo(owner[..], nodes, slot, o);
      nodes := Emptied(nodes, owner[slot], slot);
      owner[slot] := o;
      nodes := Filled(nodes, o, slot);
    }

    /** The slots a claim takes while the table still says otherwise. */
    ghost function Importing(): (r: set<nat>)
      reads importingFrom
    {
      set s: nat | s < importingFrom.Length && importingFrom[s].Some?
    }

    function MasterOf(n: Id): (r: Option<Id>)
      reads this
    {
      if n !in nodes then None
      else if nodes[n].master then Some(n)
      else if nodes[n].masterId.Some? && nodes[n].masterId.value in nodes then nodes[n].masterId
      else None
    }

    /**
     Goes through the slots of a claim and takes those it wins. Reports which of them
     were this node's own and held keys, and whether any was this shard's.
     */
    method TakeSlots(c: Claim, ours: Option<Id>) returns (dirty: seq<nat>, took: bool)
      requires Valid() && c.sender in nodes && c.sender != me
      modifies this`nodes, owner, migratingTo
      ensures Valid() && SameRoles(old(nodes), nodes)
      ensures owner[..] == Claimed(old(owner[..]), old(nodes), Importing(), c)
      ensures forall s :: 0 <= s < SLOTS ==>
        migratingTo[s] == if old(owner[s]) == Some(me) && owner[s] != Some(me) then None else old(migratingTo[s])
      ensures forall s :: s in dirty <==> 0 <= s < SLOTS && old(owner[s]) == Some(me) && owner[s] != Some(me) && keys[s] > 0
      ensures took <==> ours.Some? && exists s :: 0 <= s < SLOTS && old(owner[s]) == ours && owner[s] != ours
    {
      hide Mirrored, SameRoles, Takes;
      ghost var known := nodes;
      dirty, took := TakeEach(c, ours);
      RolesKnown(known, nodes);
    }

    method TakeEach(c: Claim, ours: Option<Id>) returns (dirty: seq<nat>, took: bool)
      requires owner.Length == migratingTo.Length == importingFrom.Length == keys.Length == SLOTS
      requires owner != migratingTo && owner != importingFrom && migratingTo != importingFrom
      requires Mirrored(owner[..], nodes) && c.sender in nodes
      modifies this`nodes, owner, migratingTo
      ensures Mirrored(owner[..], nodes) && SameRoles(old(nodes), nodes)
      ensures forall s :: 0 <= s < SLOTS ==>
        owner[s] == if Takes(old(owner[..]), old(nodes), Importing(), c, s) then Some(c.sender) else old(owner[s])
      ensures forall s :: 0 <= s < SLOTS ==>
        migratingTo[s] == if old(owner[s]) == Some(me) && owner[s] != Some(me) then None else old(migratingTo[s])
      ensures forall s :: s in dirty <==> 0 <= s < SLOTS && old(owner[s]) == Some(me) && owner[s] != Some(me) && keys[s] > 0
      ensures took <==> ours.Some? && exists s :: 0 <= s < SLOTS && old(owner[s]) == ours && owner[s] != ours
    {
      hide Mirrored, SameRoles, Takes;
      dirty, took := [], false;
      ghost var was := owner[..];
      SameRolesRefl(nodes);
      for slot := 0 to SLOTS
        invariant Mirrored(owner[..], nodes) && SameRoles(old(nodes), nodes)
        invariant forall s :: 0 <= s < SLOTS ==>
          owner[s] == if s < slot && Takes(was, old(nodes), Importing(), c, s) then Some(c.sender) else was[s]
        invariant forall s :: 0 <= s < SLOTS ==>
          migratingTo[s] == if s < slot && was[s] == Some(me) && owner[s] != Some(me) then None else old(migratingTo[s])
        invariant forall s :: s in dirty <==> 0 <= s < slot && was[s] == Some(me) && owner[s] != Some(me) && keys[s] > 0
        invariant took <==> ours.Some? && exists s :: 0 <= s < slot && was[s] == ours && owner[s] != ours
      {
        RolesKnown(old(nodes), nodes);
        var lost, shard := TakeSlot(c, ours, slot, was, old(nodes));
        if lost && keys[slot] > 0 {
          dirty := dirty + [slot];
        }
        took := took || shard;
      }
    }

    method TakeSlot(c: Claim, ours: Option<Id>, slot: nat, ghost was: Owners, ghost known: Nodes) returns (lost: bool, shard: bool)
      requires owner.Length == migratingTo.Length == importingFrom.Length == SLOTS && slot < SLOTS
      requires owner != migratingTo && owner != importingFrom && migratingTo != importingFrom
      requires Mirrored(owner[..], nodes) && SameRoles(known, nodes) && c.sender in nodes
      requires |was| == SLOTS && owner[slot] == was[slot]
      modifies this`nodes, owner, migratingTo
      ensures Mirrored(owner[..], nodes) && SameRoles(known, nodes)
      ensures owner[slot] == if Takes(was, known, Importing(), c, slot) then Some(c.sender) else was[slot]
      ensures migratingTo[slot] == if lost then None else old(migratingTo[slot])
      ensures lost == (was[slot] == Some(me) && owner[slot] != Some(me))
      ensures shard == (ours.Some? && was[slot] == ours && owner[slot] != ours)
      ensures forall s :: 0 <= s < SLOTS && s != slot ==> owner[s] == old(owner[s]) && migratingTo[s] == old(migratingTo[s])
    {
      hide Mirrored, SameRoles;
      lost, shard := false, false;
      RolesEpoch(known, nodes, owner[slot]);
      OwnerKnown(owner[..], nodes, slot);
      if slot !in c.slots || owner[slot] == Some(c.sender) || importingFrom[slot].Some? {
        return;
      }
      if owner[slot].None? || nodes[owner[slot].value].epoch < c.epoch {
        lost := owner[slot] == Some(me);
        shard := ours.Some? && owner[slot] == ours;
        if lost {
          migratingTo[slot] := None;
        }
        ghost var before := nodes;
        SetSlot(slot, Some(c.sender));
        RolesChain(known, before, nodes);
      }
    }

    /** Gives up every slot and every migration, and follows another master. */
    method SetAsReplicaOf(master: Id)
      requires Valid() && master != me
      modifies this`nodes, owner, migratingTo, importingFrom
      ensures Valid() && nodes[me].slots == {} && !nodes[me].master && nodes[me].masterId == Some(master)
      ensures nodes[me].epoch == old(nodes)[me].epoch
      ensures owner[..] == Vacated(old(owner[..]), me) && nodes.Keys == old(nodes).Keys
      ensures forall s :: 0 <= s < SLOTS ==> migratingTo[s] == None && importingFrom[s] == None
      ensures forall n :: n in nodes && n != me ==> nodes[n].(slots := {}) == old(nodes)[n].(slots := {})
    {
      hide Mirrored, SameRoles;
      ghost var was := owner[..];
      SameRolesRefl(nodes);
      var slot := 0;
      while slot < SLOTS
        invariant slot <= SLOTS && Mirrored(owner[..], nodes) && SameRoles(old(nodes), nodes)
        invariant forall s :: 0 <= s < SLOTS ==> owner[s] == if s < slot && was[s] == Some(me) then None else was[s]
        invariant forall s :: 0 <= s < slot ==> migratingTo[s] == None && importingFrom[s] == None
      {
        if owner[slot] == Some(me) {
          ghost var before := nodes;
          SetSlot(slot, None);
          RolesChain(old(nodes), before, nodes);
        }
        migratingTo[slot] := None;
        importingFrom[slot] := None;
        slot := slot + 1;
      }
      assert owner[..] == Vacated(was, me);
      Demote(master, old(nodes));
    }

    method Demote(master: Id, ghost known: Nodes)
      requires SameRoles(known, nodes) && me in known && Mirrored(owner[..], nodes)
      requires forall s :: 0 <= s < owner.Length ==> owner[s] != Some(me)
      requires forall n :: n in known ==> known[n].epoch <= currentEpoch
      modifies this`nodes
      ensures me in nodes && nodes.Keys == known.Keys && Mirrored(owner[..], nodes)
      ensures nodes[me].slots == {} && !nodes[me].master && nodes[me].masterId == Some(master) && nodes[me].epoch == known[me].epoch
      ensures forall n :: n in nodes ==> nodes[n].epoch <= currentEpoch
      ensures forall n :: n in nodes && n != me ==> nodes[n].(slots := {}) == known[n].(slots := {})
    {
      hide Mirrored;
      RolesKnown(known, nodes);
      NoSlots(owner[..], nodes, me);
      RoleMirrors(owner[..], nodes, me, nodes[me].(master := false, masterId := Some(master)));
      nodes := nodes[me := nodes[me].(master := false, masterId := Some(master))];
    }

    /**
     A master's claim arrives. Every slot it wins changes hands; if that was the last
     slot of this node's shard, this node follows the claimant instead, and otherwise a
     master deletes the keys of the slots it lost.
     */
    method UpdateSlotsConfigWith(c: Claim)
      requires Valid() && c.sender in nodes
      modifies this`nodes, owner, migratingTo, importingFrom, keys
      ensures Valid() && nodes.Keys == old(nodes).Keys
      ensures forall n :: n in nodes ==> nodes[n].epoch == old(nodes)[n].epoch
      ensures Importing() <= old(Importing())
      ensures forall n :: n in nodes && n != me ==> nodes[n].master == old(nodes)[n].master
      ensures c.sender == me ==> owner[..] == old(owner[..]) && nodes == old(nodes) && keys[..] == old(keys[..])
      ensures c.sender != me ==> owner[..] == Claimed(old(owner[..]), old(nodes), old(Importing()), c)
      ensures c.sender != me && old(nodes)[me].master ==>
        if LastSlotLost(old(owner[..]), owner[..], me)
        then !nodes[me].master && nodes[me].masterId == Some(c.sender) && keys[..] == old(keys[..])
        else nodes[me].master && forall s :: 0 <= s < SLOTS ==>
          keys[s] == if old(owner[s]) == Some(me) && owner[s] != Some(me) then 0 else old(keys[s])
      ensures c.sender != me && !old(nodes)[me].master ==> keys[..] == old(keys[..]) && !nodes[me].master
      ensures c.sender != me && !old(nodes)[me].master && old(MasterOf(me)).Some? ==>
        nodes[me].masterId == if LastSlotLost(old(owner[..]), owner[..], old(MasterOf(me)).value)
          then Some(c.sender) else old(nodes)[me].masterId
    {
      hide Mirrored, SameRoles, Claimed, Vacated;
      if c.sender == me {
        return;
      }
      var ours := MasterOf(me);
      ghost var was, known := owner[..], nodes;
      var dirty, took := TakeSlots(c, ours);
      RolesKnown(known, nodes);
      if ours.Some? {
        NoSlots(owner[..], nodes, ours.value);
      }
      if took && ours.Some? && nodes[ours.value].slots == {} {
        assert LastSlotLost(was, owner[..], ours.value);
        if nodes[me].master || nodes[me].masterId != Some(c.sender) {
          NothingVacated(owner[..], me);
          SetAsReplicaOf(c.sender);
        }
        return;
      }
      assert ours.Some? ==> !LastSlotLost(was, owner[..], ours.value);
      if nodes[me].master {
        DeleteKeys(dirty);
      }
    }

    /**
     Claims arrive one after the other. The owner table they leave is the one the claims
     define together, whatever their order and repetition when no two masters share an epoch.
     */
    method ReceiveClaims(claims: seq<Claim>)
      requires Valid() && Importing() == {} && Recorded(nodes, claims)
      modifies this`nodes, owner, migratingTo, importingFrom, keys
      ensures Valid() && owner[..] == Delivered(old(owner[..]), old(nodes), me, claims)
      ensures FromMasters(old(nodes), claims) && MastersDiffer(old(nodes)) ==>
        forall others :: SameClaims(claims, others) ==> owner[..] == Delivered(old(owner[..]), old(nodes), me, others)
    {
      hide Mirrored, Claimed, FromMasters, MastersDiffer;
      ghost var was, known := owner[..], nodes;
      assert Mirrored(was, known);
      var i := 0;
      while i < |claims|
        invariant i <= |claims| && Valid() && Importing() == {}
        invariant nodes.Keys == known.Keys && forall n :: n in nodes ==> nodes[n].epoch == known[n].epoch
        invariant owner[..] == Delivered(was, known, me, claims[..i])
      {
        assert claims[i] in claims;
        assert claims[..i + 1][..i] == claims[..i] && claims[..i + 1][i] == claims[i];
        SameEpochsClaim(owner[..], known, nodes, {}, claims[i]);
        UpdateSlotsConfigWith(claims[i]);
        i := i + 1;
      }
      assert claims[..i] == claims;
      if FromMasters(known, claims) && MastersDiffer(known) {
        forall others | SameClaims(claims, others)
          ensures owner[..] == Delivered(was, known, me, others)
        {
          ClaimsAreConfluent(was, known, me, claims, others);
        }
      }
    }

    /** Deletes the keys of the slots listed. */
    method DeleteKeys(dirty: seq<nat>)
      requires forall s :: s in dirty ==> s < keys.Length
      modifies keys
      ensures forall s :: 0 <= s < keys.Length ==> keys[s] == if s in dirty then 0 else old(keys[s])
    {
      var i := 0;
      while i < |dirty|
        invariant i <= |dirty|
        invariant forall s :: 0 <= s < keys.Length ==> keys[s] == if s in dirty[..i] then 0 else old(keys[s])
      {
        assert dirty[i] in dirty;
        keys[dirty[i]] := 0;
        assert dirty[..i + 1] == dirty[..i] + [dirty[i]];
        i := i + 1;
      }
      assert dirty[..i] == dirty;
    }

    /** An elected replica takes all of its master's slots. */
    method FailoverReplaceMaster()
      requires Valid() && !nodes[me].master && MasterOf(me).Some?
      modifies this`nodes, owner
      ensures Valid() && nodes[me].master && nodes[me].masterId == None && nodes[me].epoch == old(nodes)[me].epoch
      ensures owner[..] == Inherited(old(owner[..]), old(nodes)[me].masterId.value, me) && nodes.Keys == old(nodes).Keys
      ensures nodes[old(nodes)[me].masterId.value].slots == {}
      ensures forall n :: n in nodes ==> nodes[n].epoch == old(nodes)[n].epoch
    {
      hide Mirrored, SameRoles;
      var master := nodes[me].masterId.value;
      RoleMirrors(owner[..], nodes, me, nodes[me].(master := true, masterId := None));
      nodes := nodes[me := nodes[me].(master := true, masterId := None)];
      ghost var was, known := owner[..], nodes;
      SameRolesRefl(nodes);
      var slot := 0;
      while slot < SLOTS
        invariant slot <= SLOTS && Mirrored(owner[..], nodes) && SameRoles(known, nodes)
        invariant forall s :: 0 <= s < SLOTS ==> owner[s] == if s < slot && was[s] == Some(master) then Some(me) else was[s]
      {
        RolesKnown(known, nodes);
        if owner[slot] == Some(master) {
          ghost var before := nodes;
          SetSlot(slot, Some(me));
          RolesChain(known, before, nodes);
        }
        slot := slot + 1;
      }
      RolesKnown(known, nodes);
      assert owner[..] == Inherited(was, master, me);
      NoSlots(owner[..], nodes, master);
    }

    /** The highest epoch this node knows of. */
    method MaxEpoch() returns (max: nat)
      ensures max >= currentEpoch && (forall n :: n in nodes ==> nodes[n].epoch <= max)
      ensures max == currentEpoch || exists n :: n in nodes && nodes[n].epoch == max
    {
      max := currentEpoch;
      var rest := nodes.Keys;
      while rest != {}
        invariant rest <= nodes.Keys && max >= currentEpoch
        invariant forall n :: n in nodes && n !in rest ==> nodes[n].epoch <= max
        invariant max == currentEpoch || exists n :: n in nodes && nodes[n].epoch == max
        decreases rest
      {
        var n :| n in rest;
        if nodes[n].epoch > max {
          max := nodes[n].epoch;
        }
        rest := rest - {n};
      }
    }

    /** Takes an epoch above every known one, unless this node's already is the highest. */
    method BumpEpochWithoutConsensus() returns (bumped: bool)
      requires Valid()
      modifies this`nodes, this`currentEpoch
      ensures Valid() && nodes.Keys == old(nodes).Keys
      ensures bumped == (old(nodes)[me].epoch == 0 || old(nodes)[me].epoch < old(currentEpoch))
      ensures bumped ==> forall n :: n in nodes && n != me ==> nodes[n] == old(nodes)[n] && nodes[n].epoch < nodes[me].epoch
      ensures !bumped ==> nodes == old(nodes) && currentEpoch == old(currentEpoch)
    {
      hide Mirrored;
      var max := MaxEpoch();
      if nodes[me].epoch != 0 && nodes[me].epoch == max {
        return false;
      }
      RoleMirrors(owner[..], nodes, me, nodes[me].(epoch := max + 1));
      currentEpoch := max + 1;
      nodes := nodes[me := nodes[me].(epoch := currentEpoch)];
      return true;
    }

    /** Two masters with the same epoch: the one with the smaller name moves, above everything known. */
    method HandleEpochCollision(sender: Id)
      requires Valid() && sender in nodes
      modifies this`nodes, this`currentEpoch
      ensures Valid() && nodes.Keys == old(nodes).Keys
      ensures var was := old(nodes);
        if was[sender].master && was[me].master && was[sender].epoch == was[me].epoch && sender > me
        then nodes == was[me := was[me].(epoch := currentEpoch)] && currentEpoch == old(currentEpoch) + 1
          && forall n :: n in was ==> was[n].epoch < nodes[me].epoch
        else nodes == was && currentEpoch == old(currentEpoch)
    {
      hide Mirrored;
      if !nodes[sender].master || !nodes[me].master || nodes[sender].epoch != nodes[me].epoch || sender <= me {
        return;
      }
      RoleMirrors(owner[..], nodes, me, nodes[me].(epoch := currentEpoch + 1));
      currentEpoch := currentEpoch + 1;
      nodes := nodes[me := nodes[me].(epoch := currentEpoch)];
    }

    /** Whether this node may vote for a replica that asks. */
    ghost predicate MayVote(requester: Id, current: nat, config: nat, slots: set<nat>, force: bool, now: int, timeout: nat)
      requires me in nodes && requester in nodes
      reads this, owner
    {
      && nodes[me].master && nodes[me].slots != {}
      && current >= currentEpoch && lastVote != currentEpoch
      && !nodes[requester].master && nodes[requester].masterId.Some? && nodes[requester].masterId.value in nodes
      && var m := nodes[nodes[requester].masterId.value];
      && (m.fail || force)
      && (m.votedAt.Some? ==> now - m.votedAt.value >= 2 * timeout)
      && NoNewerOwner(owner[..], nodes, slots, config)
    }

    /**
     A vote: at most one in an epoch, made durable before it is sent. `saves` is whether
     the configuration reached the disk.
     */
    method SendFailoverAuthIfNeeded(requester: Id, current: nat, config: nat, slots: set<nat>, force: bool, now: int, timeout: nat, saves: bool)
      returns (granted: bool)
      requires Valid() && requester in nodes
      modifies this`nodes, this`lastVote
      ensures Valid() && nodes.Keys == old(nodes).Keys && SameRoles(Unvoted(old(nodes)), Unvoted(nodes))
      ensures granted == (saves && old(MayVote(requester, current, config, slots, force, now, timeout)))
      ensures granted <==>
        var was := old(nodes);
        && saves && was[me].master && was[me].slots != {} && current >= currentEpoch && old(lastVote) != currentEpoch
        && !was[requester].master && was[requester].masterId.Some? && was[requester].masterId.value in was
        && var failed := was[was[requester].masterId.value];
        && (failed.fail || force) && (failed.votedAt.Some? ==> now - failed.votedAt.value >= 2 * timeout)
        && forall s :: 0 <= s < SLOTS && s in slots && owner[s].Some? ==> was[owner[s].value].epoch <= config
      ensures granted ==> nodes[old(nodes)[requester].masterId.value].votedAt == Some(now)
      ensures lastVote == if granted then currentEpoch else
        if old(MayVote(requester, current, config, slots, force, now, timeout)) then 0 else old(lastVote)
    {
      hide Mirrored, SameRoles, Unvoted, NoNewerOwner;
      SameRolesRefl(Unvoted(nodes));
      NewerMeans(owner[..], nodes, slots, config);
      if !nodes[me].master || nodes[me].slots == {} {
        return false;
      }
      if current < currentEpoch || lastVote == currentEpoch {
        return false;
      }
      var master := if nodes[requester].master then None else nodes[requester].masterId;
      if master.None? || master.value !in nodes {
        return false;
      }
      if !nodes[master.value].fail && !force {
        return false;
      }
      if nodes[master.value].votedAt.Some? && now - nodes[master.value].votedAt.value < 2 * timeout {
        return false;
      }
      var newer := FindNewerOwner(slots, config);
      if newer {
        return false;
      }
      lastVote := currentEpoch;
      RoleMirrors(owner[..], nodes, master.value, nodes[master.value].(votedAt := Some(now)));
      VotedAt(nodes, master.value, now);
      nodes := nodes[master.value := nodes[master.value].(votedAt := Some(now))];
      if !saves {
        lastVote := 0;
        return false;
      }
      return true;
    }

    method FindNewerOwner(slots: set<nat>, config: nat) returns (newer: bool)
      requires Valid()
      ensures newer == !NoNewerOwner(owner[..], nodes, slots, config)
    {
      var slot := 0;
      while slot < SLOTS
        invariant slot <= SLOTS
        invariant forall s :: 0 <= s < slot && s in slots ==> EpochOf(nodes, owner[s]) <= config
      {
        if slot in slots && owner[slot].Some? && nodes[owner[slot].value].epoch > config {
          return true;
        }
        slot := slot + 1;
      }
      return false;
    }

    /** Every packet from a known node first raises the epochs it knows better. */
    method AbsorbEpochs(m: Bus.Msg)
      requires Valid() && m.src in nodes && m.src != me && Bus.MsgEpochsOk(m)
      modifies this`nodes, this`currentEpoch
      ensures Valid() && nodes.Keys == old(nodes).Keys && View() == Bus.Absorb(old(View()), m)
      ensures nodes == old(nodes)[m.src := old(nodes)[m.src].(epoch := Max(old(nodes)[m.src].epoch, m.config))]
      ensures currentEpoch == Max(old(currentEpoch), m.current)
    {
      hide Mirrored, Epochs;
      KnownEpochs(nodes);
      if m.current > currentEpoch {
        currentEpoch := m.current;
      }
      ghost var was := nodes;
      var info := nodes[m.src].(epoch := Max(nodes[m.src].epoch, m.config));
      RoleMirrors(owner[..], nodes, m.src, info);
      EpochsWith(nodes, m.src, info);
      nodes := nodes[m.src := info];
    }

    /** The sender's role as it reports it: a master turned replica gives up its slots. */
    method LearnRole(n: Id, replica: bool, master: Option<Id>)
      requires Valid() && n in nodes && n != me
      modifies this`nodes, owner
      ensures Valid() && nodes.Keys == old(nodes).Keys && nodes[me].(slots := {}) == old(nodes)[me].(slots := {})
      ensures nodes[n].master == !replica
      ensures nodes[n].masterId == if replica then master else if old(nodes)[n].master then old(nodes)[n].masterId else None
      ensures forall k :: k in nodes ==> nodes[k].epoch == old(nodes)[k].epoch
      ensures forall k :: k in nodes && k != n ==> nodes[k].master == old(nodes)[k].master
      ensures owner[..] == if replica && old(nodes)[n].master then Vacated(old(owner[..]), n) else old(owner[..])
    {
      hide Mirrored, SameRoles, Vacated;
      if replica && nodes[n].master {
        Vacate(n);
      }
      var info := nodes[n];
      if replica {
        info := info.(master := false, masterId := master);
      } else if !info.master {
        info := info.(master := true, masterId := None);
      }
      RoleMirrors(owner[..], nodes, n, info);
      nodes := nodes[n := info];
    }

    /** Leaves every slot of a node without an owner. */
    method Vacate(n: Id)
      requires Valid() && n in nodes
      modifies this`nodes, owner
      ensures Valid() && nodes.Keys == old(nodes).Keys && owner[..] == Vacated(old(owner[..]), n)
      ensures forall k :: k in nodes ==> nodes[k].(slots := {}) == old(nodes)[k].(slots := {})
    {
      hide Mirrored, SameRoles;
      ghost var was := owner[..];
      SameRolesRefl(nodes);
      var slot := 0;
      while slot < SLOTS
        invariant slot <= SLOTS && Mirrored(owner[..], nodes) && SameRoles(old(nodes), nodes)
        invariant forall s :: 0 <= s < SLOTS ==> owner[s] == if s < slot && was[s] == Some(n) then None else was[s]
      {
        if owner[slot] == Some(n) {
          ghost var before := nodes;
          SetSlot(slot, None);
          RolesChain(old(nodes), before, nodes);
        }
        slot := slot + 1;
      }
      RolesKnown(old(nodes), nodes);
      RolesSame(old(nodes), nodes);
    }

    /**
     A PING or PONG from another node: its epochs, its role, a master's claim to its slots,
     and then the collision rule, for the role the claim has left this node in.
     */
    method ReceivePing(m: Bus.Msg, master: Option<Id>, slots: set<nat>)
      requires Valid() && m.src in nodes && m.src != me && m.dst == me && m.kind.Ping? && Bus.MsgEpochsOk(m)
      modifies this`nodes, this`currentEpoch, owner, migratingTo, importingFrom, keys
      ensures Valid() && View() == Bus.Receive({}, old(View()).(master := View().master), m, Bus.Refused)
      ensures View().master == me <==> old(nodes)[me].master && !LastSlotLost(old(owner[..]), owner[..], me)
      ensures nodes.Keys == old(nodes).Keys && nodes[m.src].epoch == Max(old(nodes)[m.src].epoch, m.config)
      ensures forall n :: n in nodes && n != m.src && n != me ==> nodes[n].epoch == old(nodes)[n].epoch
      ensures forall n :: n in nodes && n != me ==> nodes[n].master == if n == m.src then !m.replica else old(nodes)[n].master
      ensures !(old(nodes)[me].master && !m.replica && nodes[m.src].epoch == old(nodes)[me].epoch) ==>
        nodes[me].epoch == old(nodes)[me].epoch
      ensures Recorded(nodes, [Claim(m.src, m.config, slots)]) <==> old(nodes)[m.src].epoch <= m.config
      ensures Importing() <= old(Importing())
      ensures owner[..] ==
        if !m.replica then Claimed(old(owner[..]), old(nodes), old(Importing()), Claim(m.src, m.config, slots))
        else if old(nodes)[m.src].master then Vacated(old(owner[..]), m.src)
        else old(owner[..])
    {
      hide Mirrored, Epochs, Claimed, Vacated, LastSlotLost, Bus.Absorb, Recorded;
      KnownEpochs(nodes);
      ghost var known := nodes;
      AbsorbEpochs(m);
      SameEpochsClaim(owner[..], known, nodes, Importing(), Claim(m.src, m.config, slots));
      ghost var a := View();
      LearnClaim(m.src, m.config, m.replica, master, slots);
      ghost var b := View();
      assert b == a.(master := b.master);
      AbsorbsInRole(old(View()), m, b.master);
      SettleCollision(m);
      RecordedOne(nodes, Claim(m.src, m.config, slots));
    }

    /**
     Pings of masters whose epochs are on record arrive one after the other. When no two
     masters share an epoch, the owner table they leave is the same in any order and repetition.
     */
    method ReceivePings(pings: seq<Bus.Msg>, slots: seq<set<nat>>)
      requires Valid() && Importing() == {} && MastersDiffer(nodes) && |slots| == |pings|
      requires forall i :: 0 <= i < |pings| ==> OnRecord(nodes, me, pings[i])
      modifies this`nodes, this`currentEpoch, owner, migratingTo, importingFrom, keys
      ensures Valid() && owner[..] == Delivered(old(owner[..]), old(nodes), me, ClaimsOf(pings, slots))
      ensures forall others :: SameClaims(ClaimsOf(pings, slots), others) ==>
        owner[..] == Delivered(old(owner[..]), old(nodes), me, others)
    {
      hide Mirrored, Claimed, Vacated, Bus.Receive, LastSlotLost, MastersDiffer, SameClaims, Recorded, FromMasters;
      ghost var was, known, claims := owner[..], nodes, ClaimsOf(pings, slots);
      ClaimsRecorded(known, me, pings, slots);
      var i := 0;
      while i < |pings|
        invariant i <= |pings| && Valid() && Importing() == {} && nodes.Keys == known.Keys
        invariant forall n :: n in nodes ==> nodes[n].epoch == known[n].epoch
        invariant forall n :: n in nodes ==> (nodes[n].master ==> known[n].master) && (n != me ==> nodes[n].master == known[n].master)
        invariant owner[..] == Delivered(was, known, me, claims[..i])
      {
        assert claims[..i + 1][..i] == claims[..i] && claims[..i + 1][i] == claims[i];
        SameEpochsClaim(owner[..], known, nodes, {}, claims[i]);
        NoCollision(known, me, pings[i].src);
        ReceivePing(pings[i], None, slots[i]);
        i := i + 1;
      }
      assert claims[..i] == claims;
      forall others | SameClaims(claims, others)
        ensures owner[..] == Delivered(was, known, me, others)
      {
        ClaimsAreConfluent(was, known, me, claims, others);
      }
    }

    /** The collision rule, for a sender whose role is known. */
    method SettleCollision(m: Bus.Msg)
      requires Valid() && m.src in nodes && m.src != me && nodes[m.src].master == !m.replica
      modifies this`nodes, this`currentEpoch
      ensures Valid() && nodes[me].master == old(nodes)[me].master && View() == Bus.ResolveCollision(old(View()), me, m)
      ensures nodes.Keys == old(nodes).Keys && forall k :: k in nodes && k != me ==> nodes[k] == old(nodes)[k]
      ensures !(nodes[me].master && !m.replica && nodes[m.src].epoch == old(nodes)[me].epoch) ==> nodes == old(nodes)
    {
      hide Mirrored, Epochs;
      ghost var was := nodes;
      KnownEpochs(nodes);
      HandleEpochCollision(m.src);
      EpochsWith(was, me, was[me].(epoch := currentEpoch));
    }

    /** What a PING says of its sender's role and slots. */
    method LearnClaim(n: Id, epoch: nat, replica: bool, master: Option<Id>, slots: set<nat>)
      requires Valid() && n in nodes && n != me
      modifies this`nodes, owner, migratingTo, importingFrom, keys
      ensures Valid() && nodes.Keys == old(nodes).Keys && Epochs(nodes) == Epochs(old(nodes)) && nodes[n].master == !replica
      ensures nodes[me].master == (old(nodes)[me].master && !LastSlotLost(old(owner[..]), owner[..], me))
      ensures forall k :: k in nodes ==> nodes[k].epoch == old(nodes)[k].epoch
      ensures forall k :: k in nodes && k != n && k != me ==> nodes[k].master == old(nodes)[k].master
      ensures Importing() <= old(Importing())
      ensures owner[..] ==
        if !replica then Claimed(old(owner[..]), old(nodes), old(Importing()), Claim(n, epoch, slots))
        else if old(nodes)[n].master then Vacated(old(owner[..]), n)
        else old(owner[..])
    {
      hide Mirrored, Epochs, Claimed, Vacated, LastSlotLost;
      ghost var known, was := nodes, owner[..];
      LearnRole(n, replica, master);
      SameEpochs(known, nodes);
      if replica {
        OthersKeepSlots(was, n, me);
        return;
      }
      NoLossUnchanged(was, me);
      ghost var c := Claim(n, epoch, slots);
      SameEpochsClaim(was, known, nodes, Importing(), c);
      if nodes[n].slots == slots {
        NothingNew(was, nodes, Importing(), c);
        return;
      }
      UpdateSlotsConfigWith(Claim(n, epoch, slots));
      SameEpochs(known, nodes);
    }

    /** A vote arrives. It counts if its sender serves slots and it is not for an older election. */
    method ReceiveAck(ghost voters: set<Id>, m: Bus.Msg)
      requires Valid() && m.src in nodes && m.src != me && m.kind.AuthAck? && Bus.MsgEpochsOk(m) && Agreed(voters)
      modifies this`nodes, this`currentEpoch, this`authCount
      ensures Valid() && View() == Bus.Receive(voters, old(View()), m, Bus.Refused)
    {
      hide Mirrored, Epochs;
      KnownEpochs(nodes);
      AbsorbEpochs(m);
      if nodes[m.src].master && nodes[m.src].slots != {} && m.current >= authEpoch && authSent {
        authCount := authCount + 1;
      }
    }

    /** A replica asks for this node's vote. */
    method ReceiveAuthRequest(ghost voters: set<Id>, m: Bus.Msg, slots: set<nat>, force: bool, now: int, timeout: nat, saves: bool, linked: bool)
      returns (sends: bool, ghost verdict: Bus.Verdict)
      requires Valid() && m.src in nodes && m.src != me && m.dst == me && m.kind.AuthRequest? && Bus.MsgEpochsOk(m) && Agreed(voters)
      modifies this`nodes, this`currentEpoch, this`lastVote, this`saved
      ensures Valid() && View() == Bus.Receive(voters, old(View()), m, verdict)
      ensures sends == Bus.SendsVote(voters, old(View()), m, verdict)
    {
      hide Mirrored, Epochs, NoNewerOwner, MayVote, Bus.Absorb;
      KnownEpochs(nodes);
      AbsorbEpochs(m);
      assert Agreed(voters);
      MayVoteOnBus(voters, m, slots, force, now, timeout);
      sends, verdict := DecideVote(m, slots, force, now, timeout, saves, linked);
    }

    lemma MayVoteOnBus(voters: set<Id>, m: Bus.Msg, slots: set<nat>, force: bool, now: int, timeout: nat)
      requires me in nodes && m.src in nodes && Agreed(voters)
      ensures MayVote(m.src, m.current, m.config, slots, force, now, timeout) ==> Bus.MayVote(voters, View(), me, m)
    {
    }

    /** The vote itself, once the request's epochs are known. `linked` is whether it can be sent. */
    method DecideVote(m: Bus.Msg, slots: set<nat>, force: bool, now: int, timeout: nat, saves: bool, linked: bool)
      returns (sends: bool, ghost verdict: Bus.Verdict)
      requires Valid() && m.src in nodes
      modifies this`nodes, this`lastVote, this`saved
      ensures Valid() && View() == Voted(old(View()), verdict) && sends == verdict.Granted?
      ensures verdict.Refused? <==> !old(MayVote(m.src, m.current, m.config, slots, force, now, timeout))
    {
      hide Mirrored, Epochs, NoNewerOwner, MayVote;
      ghost var was, may := nodes, MayVote(m.src, m.current, m.config, slots, force, now, timeout);
      var granted := SendFailoverAuthIfNeeded(m.src, m.current, m.config, slots, force, now, timeout, saves);
      UnvotedEpochs(was, nodes);
      assert View() == old(View()).(lastVote := lastVote);
      if granted {
        saved := Snapshot();
      }
      sends := granted && linked;
      verdict := if !may then Bus.Refused else if !saves then Bus.SaveFailed else if linked then Bus.Granted else Bus.Unsent;
    }

    /** What saving the configuration now would write. */
    function Snapshot(): (r: Bus.Saved)
      reads this
    {
      Bus.Saved(currentEpoch, lastVote, Epochs(nodes))
    }

    /** An election starts under an epoch of its own. */
    method StartElection()
      requires Valid() && !authSent
      modifies this`currentEpoch, this`authEpoch, this`authSent
      ensures Valid() && View() == old(View()).(current := old(currentEpoch) + 1, auth := Bus.Auth(true, old(currentEpoch) + 1, old(authCount)))
      ensures forall n :: n in nodes ==> nodes[n].epoch < authEpoch
    {
      currentEpoch := currentEpoch + 1;
      authEpoch, authSent := currentEpoch, true;
    }

    /** An election is won: the master's slots are taken under the election's epoch. */
    method WinElection()
      requires Valid() && !nodes[me].master && MasterOf(me).Some? && authSent
      modifies this`nodes, owner
      ensures Valid() && View() == old(View()).(config := old(View()).config[me := Max(old(nodes)[me].epoch, authEpoch)], master := me)
      ensures owner[..] == Inherited(old(owner[..]), old(nodes)[me].masterId.value, me)
    {
      hide Mirrored, Epochs, Inherited;
      if nodes[me].epoch < authEpoch {
        var info := nodes[me].(epoch := authEpoch);
        RoleMirrors(owner[..], nodes, me, info);
        EpochsWith(nodes, me, info);
        nodes := nodes[me := info];
      } else {
        KnownEpochs(nodes);
        assert Epochs(nodes)[me := nodes[me].epoch] == Epochs(nodes);
      }
      ghost var was := nodes;
      FailoverReplaceMaster();
      SameEpochs(was, nodes);
    }

    /** News about another node's claim, from a third one: only a later epoch is taken up. */
    method ReceiveUpdate(about: Id, epoch: nat, slots: set<nat>)
      requires Valid() && epoch <= currentEpoch
      modifies this`nodes, owner, migratingTo, importingFrom, keys
      ensures Valid() && Epochs(nodes) == Bus.LearnEpoch(old(View()), about, epoch).config
      ensures about !in old(nodes) || old(nodes)[about].epoch >= epoch ==> nodes == old(nodes)
      ensures owner[..] ==
        if about in old(nodes) && old(nodes)[about].epoch < epoch && about != me
        then Claimed(old(owner[..]), old(nodes), old(Importing()), Claim(about, epoch, slots))
        else old(owner[..])
    {
      hide Mirrored, Epochs, Claimed;
      KnownEpochs(nodes);
      if about !in nodes || nodes[about].epoch >= epoch {
        return;
      }
      var info := nodes[about].(epoch := epoch);
      if !info.master {
        info := info.(master := true, masterId := None);
      }
      RoleMirrors(owner[..], nodes, about, info);
      EpochsWith(nodes, about, info);
      ghost var known := nodes;
      nodes := nodes[about := info];
      ghost var was := nodes;
      SameEpochsClaim(owner[..], known, nodes, Importing(), Claim(about, epoch, slots));
      UpdateSlotsConfigWith(Claim(about, epoch, slots));
      SameEpochs(was, nodes);
    }
  }

  lemma RecordedOne(nodes: Nodes, c: Claim)
    ensures Recorded(nodes, [c]) <==> c.sender in nodes && c.epoch == nodes[c.sender].epoch
  {
    assert c in [c];
  }

  /** A ping of another master, under the epoch that is on record for it. */
  predicate OnRecord(nodes: Nodes, me: Id, m: Bus.Msg) {
    && IsMaster(nodes, m.src) && m.src != me && m.dst == me && m.kind.Ping? && Bus.MsgEpochsOk(m)
    && !m.replica && m.config == nodes[m.src].epoch
  }

  lemma NoCollision(nodes: Nodes, me: Id, n: Id)
    requires MastersDiffer(nodes) && IsMaster(nodes, n) && n != me
    ensures IsMaster(nodes, me) ==> nodes[n].epoch != nodes[me].epoch
  {
  }

  lemma ClaimsRecorded(nodes: Nodes, me: Id, pings: seq<Bus.Msg>, slots: seq<set<nat>>)
    requires |slots| == |pings| && forall i :: 0 <= i < |pings| ==> OnRecord(nodes, me, pings[i])
    ensures Recorded(nodes, ClaimsOf(pings, slots)) && FromMasters(nodes, ClaimsOf(pings, slots))
  {
  }

  function ClaimsOf(pings: seq<Bus.Msg>, slots: seq<set<nat>>): (claims: seq<Claim>)
    requires |slots| == |pings|
  {
    seq(|pings|, i requires 0 <= i < |pings| => Claim(pings[i].src, pings[i].config, slots[i]))
  }

  /** What a message teaches does not depend on the role. */
  lemma AbsorbsInRole(n: Bus.Node, m: Bus.Msg, master: Id)
    ensures Bus.Absorb(n.(master := master), m) == Bus.Absorb(n, m).(master := master)
  {
  }

  /** A claim looks at the epochs of the other owners only. */
  lemma SameEpochsClaim(owner: Owners, a: Nodes, b: Nodes, importing: set<nat>, c: Claim)
    requires a.Keys == b.Keys && forall n :: n in a && n != c.sender ==> a[n].epoch == b[n].epoch
    ensures Claimed(owner, a, importing, c) == Claimed(owner, b, importing, c)
  {
    forall s | 0 <= s < |owner|
      ensures Claimed(owner, a, importing, c)[s] == Claimed(owner, b, importing, c)[s]
    {
      assert owner[s] != Some(c.sender) ==> EpochOf(a, owner[s]) == EpochOf(b, owner[s]);
    }
  }

  lemma OthersKeepSlots(owner: Owners, n: Id, me: Id)
    requires n != me
    ensures !LastSlotLost(owner, Vacated(owner, n), me)
    ensures !LastSlotLost(owner, owner, me)
  {
    if s :| 0 <= s < |owner| && owner[s] == Some(me) {
      assert Vacated(owner, n)[s] == Some(me);
    }
  }

  lemma NoLossUnchanged(owner: Owners, me: Id)
    ensures !LastSlotLost(owner, owner, me)
  {
  }

  lemma RolesSame(a: Nodes, b: Nodes)
    requires SameRoles(a, b)
    ensures forall n :: n in a ==> n in b && a[n].(slots := {}) == b[n].(slots := {})
  {
  }

  lemma SameEpochs(a: Nodes, b: Nodes)
    requires a.Keys == b.Keys && forall n :: n in a ==> a[n].epoch == b[n].epoch
    ensures Epochs(a) == Epochs(b)
  {
  }

  lemma KnownEpochs(nodes: Nodes)
    ensures Epochs(nodes).Keys == nodes.Keys && forall n :: n in nodes ==> Epochs(nodes)[n] == nodes[n].epoch
  {
  }

  /** A voter after its verdict: a vote is made durable, and a vote that cannot be is taken back. */
  function Voted(n: Bus.Node, verdict: Bus.Verdict): (r: Bus.Node) {
    match verdict
    case Refused => n
    case SaveFailed => n.(lastVote := 0)
    case _ => Bus.Remember(n.(lastVote := n.current))
  }

  lemma VotedAt(nodes: Nodes, n: Id, now: int)
    requires n in nodes
    ensures SameRoles(Unvoted(nodes), Unvoted(nodes[n := nodes[n].(votedAt := Some(now))]))
  {
  }

  lemma UnvotedEpochs(a: Nodes, b: Nodes)
    requires SameRoles(Unvoted(a), Unvoted(b))
    ensures Epochs(a) == Epochs(b)
    ensures a.Keys == b.Keys && forall n :: n in a ==> a[n].master == b[n].master && a[n].masterId == b[n].masterId
  {
    assert Unvoted(a).Keys == a.Keys && Unvoted(b).Keys == b.Keys;
    forall n | n in a
      ensures a[n].epoch == b[n].epoch && a[n].master == b[n].master && a[n].masterId == b[n].masterId
    {
      assert Unvoted(a)[n].(slots := {}) == Unvoted(b)[n].(slots := {});
    }
  }

  /** None of the slots is known to have an owner under a later epoch. */
  ghost predicate NoNewerOwner(owner: Owners, nodes: Nodes, slots: set<nat>, config: nat) {
    forall s :: 0 <= s < |owner| && s in slots ==> EpochOf(nodes, owner[s]) <= config
  }

  lemma NewerMeans(owner: Owners, nodes: Nodes, slots: set<nat>, config: nat)
    requires Mirrored(owner, nodes)
    ensures forall s :: 0 <= s < |owner| && owner[s].Some? ==> owner[s].value in nodes
    ensures NoNewerOwner(owner, nodes, slots, config) <==>
      forall s :: 0 <= s < |owner| && s in slots && owner[s].Some? ==> nodes[owner[s].value].epoch <= config
  {
    forall s | 0 <= s < |owner| && owner[s].Some?
      ensures owner[s].value in nodes && EpochOf(nodes, owner[s]) == nodes[owner[s].value].epoch
    {
      OwnerKnown(owner, nodes, s);
    }
  }

  ghost function Unvoted(nodes: Nodes): (r: Nodes) {
    map n | n in nodes :: nodes[n].(votedAt := None)
  }

  ghost function Inherited(owner: Owners, from: Id, to: Id): (r: Owners) {
    seq(|owner|, s requires 0 <= s < |owner| => if owner[s] == Some(from) then Some(to) else owner[s])
  }

  /** The table with every slot of one node left without an owner. */
  ghost function Vacated(owner: Owners, n: Id): (r: Owners) {
    seq(|owner|, s requires 0 <= s < |owner| => if owner[s] == Some(n) then None else owner[s])
  }

  /** A node that had slots before has none after. */
  ghost predicate LastSlotLost(before: Owners, after: Owners, n: Id) {
    (exists s :: 0 <= s < |before| && before[s] == Some(n)) && forall s :: 0 <= s < |after| ==> after[s] != Some(n)
  }

  function Epochs(nodes: Nodes): (r: map<Id, nat>) {
    map n | n in nodes :: nodes[n].epoch
  }

  lemma EpochsWith(nodes: Nodes, n: Id, info: Info)
    requires n in nodes
    ensures Epochs(nodes[n := info]) == Epochs(nodes)[n := info.epoch]
    ensures info.epoch == nodes[n].epoch ==> Epochs(nodes[n := info]) == Epochs(nodes)
  {
  }

  lemma NothingVacated(owner: Owners, n: Id)
    requires forall s :: 0 <= s < |owner| ==> owner[s] != Some(n)
    ensures Vacated(owner, n) == owner
  {
  }

  lemma NoSlots(owner: Owners, nodes: Nodes, n: Id)
    requires Mirrored(owner, nodes) && n in nodes
    ensures nodes[n].slots == {} <==> forall s :: 0 <= s < |owner| ==> owner[s] != Some(n)
  {
    var mine := nodes[n].slots;
    assert forall s: nat :: s in mine <==> s < |owner| && owner[s] == Some(n);
    if mine != {} {
      var s: nat :| s in mine;
    }
  }

  lemma RoleMirrors(owner: Owners, nodes: Nodes, n: Id, info: Info)
    requires Mirrored(owner, nodes) && n in nodes && info.slots == nodes[n].slots
    ensures Mirrored(owner, nodes[n := info])
  {
    var after := nodes[n := info];
    forall m, s: nat | m in after
      ensures s in after[m].slots <==> s < |owner| && owner[s] == Some(m)
    {
      MirrorsAt(owner, nodes, m, s);
    }
    forall s | 0 <= s < |owner| && owner[s].Some?
      ensures owner[s].value in after
    {
      OwnerKnown(owner, nodes, s);
    }
    assert Mirrored(owner, after);
  }

  lemma RolesKnown(a: Nodes, b: Nodes)
    requires SameRoles(a, b)
    ensures a.Keys == b.Keys
    ensures forall n :: n in a ==> a[n].epoch == b[n].epoch && a[n].master == b[n].master && a[n].masterId == b[n].masterId
  {
    forall n | n in a
      ensures a[n].epoch == b[n].epoch && a[n].master == b[n].master && a[n].masterId == b[n].masterId
    {
      assert a[n].(slots := {}) == b[n].(slots := {});
    }
  }

  lemma SameRolesRefl(a: Nodes)
    ensures SameRoles(a, a)
  {
  }

  lemma OwnerKnown(owner: Owners, nodes: Nodes, s: nat)
    requires Mirrored(owner, nodes) && s < |owner|
    ensures owner[s].Some? ==> owner[s].value in nodes
  {
  }
}
