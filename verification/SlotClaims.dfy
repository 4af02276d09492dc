/**
 Who owns which slot, as one node sees it: claims ordered by epoch, the owner table
 and the per-node slot sets that mirror each other, and what losing slots leads to.
 */
module SlotClaims {
  import opened Prelude

  const SLOTS := 16384

  type Id = nat

  type Owners = seq<Option<Id>>

  datatype Info = Info(master: bool, masterId: Option<Id>, epoch: nat, slots: set<nat>, fail: bool, votedAt: Option<int>)

  type Nodes = map<Id, Info>

  /** The owner table and the slot sets say the same. */
  ghost predicate Mirrored(owner: Owners, nodes: Nodes) {
    && (forall s :: 0 <= s < |owner| && owner[s].Some? ==> owner[s].value in nodes)
    && (forall n, s: nat :: n in nodes ==> (s in nodes[n].slots <==> s < |owner| && owner[s] == Some(n)))
  }

  // --- one claim ------------------------------------------------------------------------

  datatype Claim = Claim(sender: Id, epoch: nat, slots: set<nat>)

  /** The recorded epoch of an owner; nobody is below everyone. */
  function EpochOf(nodes: Nodes, o: Option<Id>): (r: int) {
    if o.Some? && o.value in nodes then nodes[o.value].epoch else -1
  }

  /** The claim takes this slot. */
  predicate Takes(owner: Owners, nodes: Nodes, importing: set<nat>, c: Claim, s: nat)
    requires s < |owner|
  {
    s in c.slots && owner[s] != Some(c.sender) && s !in importing
    && (owner[s].None? || EpochOf(nodes, owner[s]) < c.epoch)
  }

  function Claimed(owner: Owners, nodes: Nodes, importing: set<nat>, c: Claim): (after: Owners)
    ensures |after| == |owner|
  {
    seq(|owner|, s requires 0 <= s < |owner| => if Takes(owner, nodes, importing, c, s) then Some(c.sender) else owner[s])
  }

  /**
   A slot changes hands exactly if it is claimed, is not being imported, and has no owner or
   another one under an earlier epoch. No other slot does.
   */
  lemma ClaimTakes(owner: Owners, nodes: Nodes, importing: set<nat>, c: Claim, s: nat)
    requires s < |owner| && (owner[s].Some? ==> owner[s].value in nodes)
    ensures Claimed(owner, nodes, importing, c)[s] ==
      if s in c.slots && s !in importing && (owner[s].None? || nodes[owner[s].value].epoch < c.epoch) then Some(c.sender)
      else owner[s]
  {
  }

  /** When the sender's known slots are what it claims, the claim changes nothing. */
  lemma NothingNew(owner: Owners, nodes: Nodes, importing: set<nat>, c: Claim)
    requires Mirrored(owner, nodes) && c.sender in nodes && nodes[c.sender].slots == c.slots
    ensures Claimed(owner, nodes, importing, c) == owner
  {
    forall s | 0 <= s < |owner|
      ensures Claimed(owner, nodes, importing, c)[s] == owner[s]
    {
      assert s in nodes[c.sender].slots <==> owner[s] == Some(c.sender);
    }
  }

  // --- any number of claims, in any order ---------------------------------------------------

  /** Claims from known nodes, under the epochs recorded for them. */
  ghost predicate Recorded(nodes: Nodes, claims: seq<Claim>) {
    forall c :: c in claims ==> c.sender in nodes && c.epoch == nodes[c.sender].epoch
  }

  /** Only masters claim slots. */
  ghost predicate FromMasters(nodes: Nodes, claims: seq<Claim>) {
    forall c :: c in claims ==> IsMaster(nodes, c.sender)
  }

  predicate IsMaster(nodes: Nodes, n: Id) {
    n in nodes && nodes[n].master
  }

  /** No two masters have the same epoch; a replica repeats its master's. */
  ghost predicate MastersDiffer(nodes: Nodes) {
    forall a, b :: IsMaster(nodes, a) && IsMaster(nodes, b) && nodes[a].epoch == nodes[b].epoch ==> a == b
  }

  /** The claims are delivered one after the other; a node's own name in a claim changes nothing. */
  function Delivered(owner: Owners, nodes: Nodes, me: Id, claims: seq<Claim>): (after: Owners)
    ensures |after| == |owner|
  {
    if claims == [] then owner
    else
      var before := Delivered(owner, nodes, me, claims[..|claims| - 1]);
      var c := claims[|claims| - 1];
      if c.sender == me then before else Claimed(before, nodes, {}, c)
  }

  predicate Contends(me: Id, c: Claim, s: nat) {
    c.sender != me && s in c.slots
  }

  /**
   `o` is what the slot should end up with: the highest epoch among the first owner and
   the claimants, where a claimant has to be above the first owner.
   */
  ghost predicate Highest(first: Option<Id>, nodes: Nodes, me: Id, claims: seq<Claim>, s: nat, o: Option<Id>) {
    && (o == first || (exists c :: c in claims && Contends(me, c, s) && o == Some(c.sender)))
    && (o == first || EpochOf(nodes, first) < EpochOf(nodes, o))
    && forall c :: c in claims && Contends(me, c, s) ==> o.Some? && c.epoch <= EpochOf(nodes, o)
  }

  lemma {:induction false} DeliveredIsHighest(owner: Owners, nodes: Nodes, me: Id, claims: seq<Claim>, s: nat)
    requires s < |owner| && Recorded(nodes, claims) && (owner[s].Some? ==> owner[s].value in nodes)
    ensures Highest(owner[s], nodes, me, claims, s, Delivered(owner, nodes, me, claims)[s])
  {
    if claims != [] {
      var n := |claims| - 1;
      DeliveredIsHighest(owner, nodes, me, claims[..n], s);
      assert claims == claims[..n] + [claims[n]];
      OneMore(owner[s], Delivered(owner, nodes, me, claims[..n]), nodes, me, claims[..n], claims[n], s);
    }
  }

  lemma OneMore(first: Option<Id>, before: Owners, nodes: Nodes, me: Id, claims: seq<Claim>, c: Claim, s: nat)
    requires s < |before| && Recorded(nodes, claims + [c]) && (first.Some? ==> first.value in nodes)
    requires Highest(first, nodes, me, claims, s, before[s])
    ensures Highest(first, nodes, me, claims + [c], s, if c.sender == me then before[s] else Claimed(before, nodes, {}, c)[s])
  {
    assert c in claims + [c];
    assert forall d :: d in claims + [c] <==> d in claims || d == c;
  }

  /** Claim `c` is above the slot's first owner, and no claim is above it. */
  ghost predicate Leads(first: Option<Id>, nodes: Nodes, me: Id, claims: seq<Claim>, s: nat, c: Claim) {
    && c in claims && Contends(me, c, s) && EpochOf(nodes, first) < c.epoch
    && forall d :: d in claims && Contends(me, d, s) ==> d.epoch <= c.epoch
  }

  /** Two nodes claim the slot under the same leading epoch. */
  ghost predicate Tied(first: Option<Id>, nodes: Nodes, me: Id, claims: seq<Claim>, s: nat) {
    exists a, b :: Leads(first, nodes, me, claims, s, a) && Leads(first, nodes, me, claims, s, b) && a.sender != b.sender
  }

  /** Without a tie there is only one such owner. */
  lemma HighestIsUnique(first: Option<Id>, nodes: Nodes, me: Id, claims: seq<Claim>, s: nat, a: Option<Id>, b: Option<Id>)
    requires Recorded(nodes, claims) && !Tied(first, nodes, me, claims, s)
    requires Highest(first, nodes, me, claims, s, a) && Highest(first, nodes, me, claims, s, b)
    ensures a == b
  {
    if a != b {
      assert a != first && b != first;
      var c :| c in claims && Contends(me, c, s) && a == Some(c.sender);
      var d :| d in claims && Contends(me, d, s) && b == Some(d.sender);
      assert Leads(first, nodes, me, claims, s, c) && Leads(first, nodes, me, claims, s, d);
    }
  }

  /** The same claims, in any order and any number of times. */
  ghost predicate SameClaims(claims: seq<Claim>, others: seq<Claim>) {
    forall c :: c in claims <==> c in others
  }

  ghost predicate OrderDoesNotMatter(owner: Owners, nodes: Nodes, me: Id, claims: seq<Claim>, s: nat)
    requires s < |owner|
  {
    forall others :: SameClaims(claims, others) ==> Delivered(owner, nodes, me, others)[s] == Delivered(owner, nodes, me, claims)[s]
  }

  /** The order and the repetition of claims do not matter to a slot if and only if no two claimants are tied for it. */
  lemma ConfluentIff(owner: Owners, nodes: Nodes, me: Id, claims: seq<Claim>, s: nat)
    requires s < |owner| && Recorded(nodes, claims) && (owner[s].Some? ==> owner[s].value in nodes)
    ensures OrderDoesNotMatter(owner, nodes, me, claims, s) <==> !Tied(owner[s], nodes, me, claims, s)
  {
    if !Tied(owner[s], nodes, me, claims, s) {
      forall others | SameClaims(claims, others)
        ensures Delivered(owner, nodes, me, others)[s] == Delivered(owner, nodes, me, claims)[s]
      {
        DeliveredIsHighest(owner, nodes, me, claims, s);
        DeliveredIsHighest(owner, nodes, me, others, s);
        SameContest(owner[s], nodes, me, claims, others, s, Delivered(owner, nodes, me, others)[s]);
        HighestIsUnique(owner[s], nodes, me, claims, s,
          Delivered(owner, nodes, me, claims)[s], Delivered(owner, nodes, me, others)[s]);
      }
    } else {
      var a, b :| Leads(owner[s], nodes, me, claims, s, a) && Leads(owner[s], nodes, me, claims, s, b) && a.sender != b.sender;
      FirstLeaderStays(owner, nodes, me, a, claims, claims, s);
      FirstLeaderStays(owner, nodes, me, b, claims, claims, s);
      assert SameClaims(claims, [a] + claims) && SameClaims(claims, [b] + claims);
    }
  }

  /** A leading claim that arrives first keeps the slot. */
  lemma {:induction false} FirstLeaderStays(owner: Owners, nodes: Nodes, me: Id, c: Claim, rest: seq<Claim>, claims: seq<Claim>, s: nat)
    requires s < |owner| && Recorded(nodes, claims) && (owner[s].Some? ==> owner[s].value in nodes)
    requires Leads(owner[s], nodes, me, claims, s, c) && forall d :: d in rest ==> d in claims
    ensures Delivered(owner, nodes, me, [c] + rest)[s] == Some(c.sender)
  {
    if rest == [] {
      assert [c] + rest == [c] && [c][..0] == [];
      assert Delivered(owner, nodes, me, []) == owner;
    } else {
      var n := |rest| - 1;
      assert ([c] + rest)[..n + 1] == [c] + rest[..n] && ([c] + rest)[n + 1] == rest[n];
      FirstLeaderStays(owner, nodes, me, c, rest[..n], claims, s);
      assert rest[n] in claims;
    }
  }

  /** When no two masters share an epoch, any order and any repetition of their claims gives one owner table. */
  lemma ClaimsAreConfluent(owner: Owners, nodes: Nodes, me: Id, claims: seq<Claim>, others: seq<Claim>)
    requires Recorded(nodes, claims) && FromMasters(nodes, claims) && MastersDiffer(nodes) && Mirrored(owner, nodes)
    requires SameClaims(claims, others)
    ensures Delivered(owner, nodes, me, claims) == Delivered(owner, nodes, me, others)
  {
    var a, b := Delivered(owner, nodes, me, claims), Delivered(owner, nodes, me, others);
    forall s | 0 <= s < |owner|
      ensures a[s] == b[s]
    {
      ConfluentIff(owner, nodes, me, claims, s);
    }
  }

  lemma SameContest(first: Option<Id>, nodes: Nodes, me: Id, claims: seq<Claim>, others: seq<Claim>, s: nat, o: Option<Id>)
    requires SameClaims(claims, others) && Highest(first, nodes, me, others, s, o)
    ensures Highest(first, nodes, me, claims, s, o)
  {
  }

  /** Every slot somebody else claims ends up with a claimant, and never with a lower epoch than it had. */
  lemma ClaimedSlotsAreServed(owner: Owners, nodes: Nodes, me: Id, claims: seq<Claim>, c: Claim, s: nat)
    requires s < |owner| && Recorded(nodes, claims) && Mirrored(owner, nodes) && c in claims && Contends(me, c, s)
    ensures Delivered(owner, nodes, me, claims)[s].Some?
    ensures EpochOf(nodes, Delivered(owner, nodes, me, claims)[s]) >= c.epoch
    ensures EpochOf(nodes, Delivered(owner, nodes, me, claims)[s]) >= EpochOf(nodes, owner[s])
  {
    DeliveredIsHighest(owner, nodes, me, claims, s);
  }
}
