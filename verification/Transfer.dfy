/** The MIGRATE handler is the source's side of a batch of module Resharding. */
module Transfer {
  import opened Prelude
  import opened Keyspace
  import opened Propagation
  import opened Commands
  import R = Resharding

  /** The values of one slot's keys, as clients see them. */
  function Part(v: View, slot: Key -> bool): (d: R.Data) {
    map k | k in v && slot(k) :: v[k].value
  }

  /**
   If the keys of one slot are migrated and the first `answered` replies come back, the slot's
   data afterwards is what the protocol's release of the batch leaves at the source.
   */
  lemma HandlerReleases(ks: Keyspace, keys: seq<Key>, slot: Key -> bool, s: R.System, answered: nat, now: int)
    requires Sound(ks) && s.src.data == Part(ViewAt(ks, now), slot)
    requires s.batch.Some? && s.batch.value.sent == Present(ViewAt(ks, now), keys)
    requires answered <= |s.batch.value.replies| <= |s.batch.value.sent|
    ensures R.Released(s, answered).src.data
         == Part(ViewAt(Exec(ks, Migrate(keys, s.batch.value.replies[..answered], false), now).ks, now), slot)
  {
    hide ViewAt, Exec, Present;
    var v, b := ViewAt(ks, now), s.batch.value;
    MigrateLeaves(ks, keys, b.replies[..answered], false, now);
    ConfirmedAreTaken(b, answered);
    assert Part(v - Taken(b.sent, b.replies[..answered]), slot) == Part(v, slot) - R.Confirmed(b, answered);
  }

  lemma ConfirmedAreTaken(b: R.Batch, answered: nat)
    requires answered <= |b.replies| <= |b.sent|
    ensures R.Confirmed(b, answered) == Taken(b.sent, b.replies[..answered])
  {
    forall k | k in R.Confirmed(b, answered)
      ensures k in Taken(b.sent, b.replies[..answered])
    {
      var i :| 0 <= i < answered && b.replies[i] && b.sent[i] == k;
      assert b.replies[..answered][i];
    }
    forall k | k in Taken(b.sent, b.replies[..answered])
      ensures k in R.Confirmed(b, answered)
    {
      var i :| 0 <= i < |b.sent| && i < answered && b.replies[..answered][i] && b.sent[i] == k;
      assert b.replies[i];
    }
  }
}
