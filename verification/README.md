# EpochKV in Dafny

A model of EpochKV, a Redis-style key-value server, and proofs about it. Each module takes
one mechanism of the server from its code and states what it promises.

| module | what it models |
|---|---|
| `Replication`, `Continuation`, `ReplNode` | PSYNC2 between any number of nodes: history names, second names with a cut-off, backlogs, partial and full resyncs, chains, promotions, restarts; exactly when a resync is partial |
| `ReplBacklog`, `FullResync` | the circular backlog; the master's side of a resync, byte by byte, and the replica's reading of it |
| `ClusterBus`, `Records`, `Elections`, `StaleVotes` | epochs, votes and elections as steps over messages, with crashes; what each packet records, and that elections can be won |
| `SlotClaims`, `ClusterNode` | epoch-ordered slot claims, the owner table and the per-node slot sets, roles, votes, epoch changes |
| `Resharding`, `Redirects`, `Transfer`, `MigrateSlot` | MIGRATING and IMPORTING slots, routing, who is served where, MIGRATE batches and the handler behind them, and the tool that drives a move |
| `ManualFailover`, `Handover`, `ServerHold` | the planned handover, that it can be finished, and how client writes are held back meanwhile |
| `Buckets`, `HashTable`, `LoadAfterShrink` | the incrementally rehashed table with chains relinked in place, and how full it gets |
| `Keyspace`, `UseOrder`, `Store` | keys, values and deadlines under active and passive expiry; the order of use; the store with its four indexes, memory counter and eviction |
| `Propagation`, `Commands`, `Dispatcher` | write commands, what each leaves to be seen, the deterministic commands they are logged as, and a passive replica that applies those |
| `Resp`, `Grammar`, `RespParser` | the wire format: printer, incremental parser and the grammar it accepts, torn logs |
| `Aof`, `Rewrite`, `AofFile` | the append-only file split into base and increments, through every crash; background rewrites |
| `Snapshot`, `SnapshotFile` | the snapshot file and the DUMP payload |

State machines (`Replication`, `ClusterBus`, `Resharding`, `ManualFailover`, `Aof`) have a
step type with `Enabled` and `Next`, an invariant kept by every step, and theorems over
whole runs. Objects the server updates in place are classes whose methods are proved
against functions on values; the properties are then proved of those functions.

What a node's dataset is does not matter to replication, so a dataset is the log of
everything that produced it: equal logs mean equal datasets for every way of applying
commands. Clocks, randomness, which messages arrive, what the disk and the sockets take,
and what a child process reports are parameters or free choices of a step.

Some promises hold only under a condition; for each there is a run or a state that shows why:

- an election has one winner per epoch unless a vote outlives a crash of its candidate that came
  between the broadcast of the request and the save of its epoch (`src/cluster.cpp:1358-1364`),
  that is, with `saved.current < auth.epoch`. Any other crash loses nothing
  (`ClusterBus.SavedCrashLosesNothing`); `StaleVotes` is the failing run;
- the order of slot claims does not matter to a slot if and only if no two claimants are tied for
  it (`SlotClaims.ConfluentIff`);
- a MIGRATE leaves every key on one node if and only if no unanswered RESTORE has left its copy at
  the target (`Resharding.EndLeavesNoCopyIff`); else a deleted key can come back
  (`Resharding.LostReplyResurrects`). No key is lost either way;
- a held write never runs on the old master if the claim arrives before its pause ends
  (`ManualFailover.HeldWriteRunsIff`, `ManualFailover.LateClaimRunsHeldWrites`);
- a replayed command leaves a replica's live data as its master's if and only if it is in step:
  SET with KEEPTTL, PEXPIREAT and PERSIST must find their own key's deadline on the same side of
  the clock as the master did (`Propagation.ApplyRefinesIff`,
  `Propagation.CrossingADeadlineDiverges`).

A comment in `include/hash_table.hpp` says that a grow started at load 0.75 ends below load
0.9. The pace of a grow from B buckets guarantees that if and only if it began below 0.8B+1
entries (`HashTable.NineTenthsIff`), as every grow from rest does (`HashTable.GrowFromRest`).
Right after a shrink a grow begins with fewer than 2.2B+1 entries
(`HashTable.HashTable.BeganBounded`), and `LoadAfterShrink.GrowAfterShrink` reaches 34 entries
for 16 buckets.

`dafny verify dfyconfig.toml` checks everything.

## Model

| member | source | states |
|---|---|---|
| `Replication.StepKeeps` | src/replication.cpp:96-271 | Every write, attach, link loss, partial and full resync, promotion, byte applied and restart keeps the invariant: each node holds a prefix of the history its replid names, its backlog and second name are what they claim, each stream on the wire continues its reader, and two writers never share a name |
| `Replication.RunHolds` | src/replication.cpp:96-271 | The invariant holds in every state of every run of any number of nodes |
| `Replication.EachNodeHoldsItsHistory` | src/replication.cpp:162-190 | In every reachable state a node's applied stream is a prefix of the one history its replid names |
| `Replication.SameNameNeverDiverges` | src/replication.cpp:144-149 | Two nodes with the same replid agree on every stream byte up to the smaller of their offsets |
| `Replication.ContinueIsSafe` | src/replication.cpp:224-243 | +CONTINUE is only ever granted to a replica whose stream is a prefix of the granter's, and the bytes sent with it are exactly the missing ones |
| `Replication.GrantIsPrefix` | src/replication.cpp:224-243 | The verdict of try_partial_resync (name or second name with its cut-off, and offset inside the backlog) implies the prefix relation, also when the asker holds the renamed history |
| `Replication.DrainedReplicaEqualsMaster` | src/replication.cpp:162-190 | A connected replica that has read everything on its link has the dataset of its master |
| `Continuation.ContinuedIff` | src/replication.cpp:196-243 | In every run a request to continue is granted if and only if it is for the node's name, or for the name before its last renaming up to its offset then, and the backlog retains everything from there on; otherwise the replica waits for a snapshot. The past is told from the run, not from the node's fields |
| `Continuation.PastHolds` | src/replication.cpp:124-194 | A node's fields say what its run says: the former name and offset, whether the name was shared, and how much of the stream its backlog retains |
| `Continuation.PromotionContinues` | src/replication.cpp:124-149 | Right after a promotion a sibling that asks for the old name, from any retained offset up to the promotion's, continues under the new name |
| `Continuation.ConnectAsks` | src/replication.cpp:436-447 | A replica asks for its own name from its own offset exactly if that name has been shared, and for a full resync otherwise |
| `Continuation.ReconnectContinues` | src/replication.cpp:196-243 | A replica that comes back under its master's name, and has not missed more than the backlog retains, continues |
| `Continuation.ForkServesAll` | src/replication.cpp:245-271 | One fork serves every replica that waits, each with the name, offset and dataset of that moment |
| `Continuation.WriteReachesAll` | src/replication.cpp:168-194 | What a started master writes reaches every replica on its stream, behind what that replica was still to read, and no link closes over it |
| `Continuation.RenamedDropsReplicas` | src/replication.cpp:572-613 | A replica that has read its master's answer keeps its own replicas if and only if it continues under the name it had |
| `Replication.HistoriesOnlyGrow` | src/replication.cpp:162-190 | The history a streaming node names keeps its starting dataset and its stream is only appended to |
| `Replication.PromotedOk` | src/replication.cpp:124-149 | After a promotion the node still satisfies its invariant under the new name; that the old name stays continuable up to the promotion is `Continuation.PromotionContinues` |
| `Replication.AdopterHolds` | src/replication.cpp:548-613 | After +CONTINUE or a loaded snapshot the node holds a prefix of the history it now names |
| `Replication.FeedKeeps` | src/replication.cpp:162-171 | Fed bytes extend the applied prefix and slide the backlog window over the same history |
| `ReplNode.ReplNode.constructor` | src/replication.cpp:70-80 | A new node names a history of its own, has no second name, an empty backlog and no replicas |
| `ReplNode.ReplNode.Feed` | src/replication.cpp:162-171 | The object's feed is the protocol's: ring buffer, offset and dataset advance by the same bytes |
| `ReplNode.ReplNode.ReplicaOf` | src/replication.cpp:96-122 | Following another master drops the link and disconnects every replica, and keeps name, offset and backlog; following the same one again changes nothing |
| `ReplNode.ReplNode.ReplicaOfNoOne` | src/replication.cpp:124-149 | Promotion of a replica takes the new name, keeps the old one as second name with the present offset as its cut-off, leaves offset and backlog alone and disconnects every replica; on a master it changes nothing |
| `ReplNode.ReplNode.TryPartialResync` | src/replication.cpp:224-243 | Grants exactly for the name, or the second name up to its cut-off, from an offset the ring retains, and then copies exactly the missing bytes out of the ring |
| `ReplNode.ReplNode.Continue` | src/replication.cpp:224-243 | A replica that may continue gets exactly the missing bytes, is connected from then on, and the name counts as shared; one that may not changes nothing |
| `ReplNode.ReplNode.DisconnectReplicas` | src/replication.cpp:378-382 | The loop over the replicas leaves none connected |
| `ReplNode.ReplNode.HandleContinue` | src/replication.cpp:572-585 | Accepting +CONTINUE under the same name changes nothing but the link; under a new one the old name becomes the second with the present offset as cut-off, and every replica is disconnected |
| `ReplNode.ReplNode.FinishTransfer` | src/replication.cpp:589-613 | Installing a received snapshot takes its name and offset, leaves no second name and an empty backlog, and disconnects every replica |
| `ReplBacklog.Backlog.constructor` | src/repl_backlog.cpp:5-5 | An empty ring of at least one byte |
| `ReplBacklog.Backlog.Append` | src/repl_backlog.cpp:7-20 | After any append, longer than the ring or not, the ring holds the newest bytes of the unbounded stream |
| `ReplBacklog.Backlog.PutChunk` | src/repl_backlog.cpp:14-18 | One stretch that does not wrap: the retained window moves on by exactly the chunk |
| `ReplBacklog.Backlog.PutAll` | src/repl_backlog.cpp:7-20 | The loop of stretches: the ring holds the bytes put and as many before them as fit |
| `ReplBacklog.Backlog.Reset` | src/repl_backlog.cpp:22-26 | The stream restarts, empty, at the given offset |
| `ReplBacklog.Backlog.Contains` | include/repl_backlog.hpp:28-37 | Holds exactly for the offsets whose remaining stream is still retained |
| `ReplBacklog.Backlog.CopyFrom` | src/repl_backlog.cpp:28-38 | Yields exactly the stream from the offset to the end |
| `FullResync.Feeder.constructor` | src/replication.cpp:70-80 | A feeder with no replicas and no snapshot in the making |
| `FullResync.Feeder.Feed` | src/replication.cpp:168-194 | Every byte goes to the backlog, to the output of online replicas and to the held bytes of those in transfer; every connection stays byte-exact, and is closed exactly if that leaves more than the limit queued |
| `FullResync.FedClosesIff` | src/replication.cpp:168-194 | A write closes a connection exactly if it leaves more queued and held than the limit; otherwise the bytes go to the end of the output, or of what is held |
| `FullResync.Feeder.TryPartialResync` | src/replication.cpp:224-243 | Succeeds exactly under the stated condition and queues the reply line and the missing bytes |
| `FullResync.Feeder.Attach` | src/replication.cpp:196-222 | A replica that cannot continue waits, and a fork for it is announced with the offset of this moment |
| `FullResync.Feeder.StartSnapshotForReplicas` | src/replication.cpp:245-271 | One fork serves all waiting replicas and announces the current offset to each; with a child running nothing happens; if the fork fails they are dropped |
| `FullResync.Feeder.AnyWaiting` | src/replication.cpp:246-247 | Whether some replica waits for a snapshot to start |
| `FullResync.Feeder.CloseWaiting` | src/replication.cpp:252-259 | Exactly the waiting replicas are dropped |
| `FullResync.Feeder.SnapshotFinished` | src/replication.cpp:273-301 | Each replica of this child gets the length line and its own open file of the snapshot made at its announced offset, or is dropped |
| `FullResync.Feeder.Bgsave` | src/replication.cpp:245-250 | A child running for another reason is compatible with every connection |
| `FullResync.Feeder.RefillSnapshot` | src/server.cpp:530-550 | Reading the file into the output, and releasing the held bytes at its end, keep the connection byte-exact |
| `FullResync.Feeder.Flush` | src/server.cpp:481-520 | Partial socket writes keep the connection byte-exact |
| `FullResync.Feeder.Keepalive` | src/replication.cpp:746-754 | Newlines to waiting replicas keep the connection byte-exact |
| `FullResync.Feeder.Detach` | src/replication.cpp:666-682 | Dropping one connection leaves the others as they are |
| `FullResync.FedExact` | src/replication.cpp:168-194 | For one connection in any state: what was sent, queued, still in the file and held is the announced reply, the snapshot and the stream from the announced offset, after one more write |
| `FullResync.ForkedExact` | src/replication.cpp:260-270 | The same at the fork, for the offset announced at that moment |
| `FullResync.OpenedExact` | src/replication.cpp:273-301 | The same when the snapshot is done |
| `FullResync.CompletedExact` | src/replication.cpp:303-311 | The same when the last snapshot byte is queued and the held bytes follow it |
| `FullResync.ByteExact` | src/replication.cpp:168-311 | Bytes after the snapshot, plus pending output, plus held bytes are the stream from the announced offset to now, nothing twice and nothing missing |
| `FullResync.DecodeInvertsShipping` | src/replication.cpp:478-564 | The replica's line-and-length parsing of those bytes gives back the name, the offset, the snapshot and the stream, whatever keepalives lie between |
| `FullResync.OnlineReplicaReadsAll` | src/replication.cpp:478-564 | A replica that has read all that was sent and queued to it while online holds the stream up to now |
| `FullResync.LineTaken` | src/replication.cpp:528-546 | Taking a line skips the keepalives and stops at the first line end |
| `ClusterBus.StepKeeps` | src/cluster.cpp:831-1482 | Every delivery, loss, election step, epoch change, save and crash keeps the election invariant |
| `ClusterBus.RunHolds` | src/cluster.cpp:831-1482 | The election invariant holds in every state of every run |
| `ClusterBus.OneWinnerPerEpoch` | src/cluster.cpp:1355-1378 | With an agreed set of slot-serving masters, any of which may crash at any point, at most one replica is promoted by election under an epoch; a candidate's crash takes nothing off the wire but requests and votes of an election in an epoch it had not saved |
| `Elections.ElectionCanBeWon` | src/cluster.cpp:1318-1378 | From every reachable state a replica that is not campaigning can win an election in its next epoch, if a majority of the masters know it, are known to it, and are not ahead of it in epochs or votes |
| `ClusterBus.SavedCrashLosesNothing` | src/cluster.cpp:1355-1366 | A crash of a node whose last election's epoch was saved takes nothing off the wire: the condition on crashes is the guard saved.current < auth.epoch, which is open between the broadcast and the save |
| `ClusterBus.CounterCountsVoters` | src/cluster.cpp:927-939 | In every reachable state an election's plain counter is the number of different voters, each of which voted for it in its epoch |
| `ClusterBus.QuorumsMeet` | src/cluster.cpp:1368-1378 | Two majorities of the same voters share a voter |
| `ClusterBus.VoteIsNew` | src/cluster.cpp:1438-1482 | A granted vote is the voter's first in that epoch, ever, because the last one is durable before it is sent |
| `ClusterBus.DeliverKeeps` | src/cluster.cpp:927-939 | Counting an acknowledgement keeps the plain vote counter equal to the number of distinct voters heard |
| `ClusterBus.CampaignKeeps` | src/cluster.cpp:1318-1366 | Scheduling and starting an election, and restarting after a crash, leave every message still in flight harmless |
| `ClusterBus.WinKeeps` | src/cluster.cpp:1368-1378 | A promotion is backed by a majority of votes for its epoch |
| `ClusterBus.StepEpochs` | src/cluster.cpp:831-905 | On every node every known config epoch stays at most its current epoch, and so does every message in flight |
| `ClusterBus.EpochsStayBounded` | src/cluster.cpp:755-773 | The epoch bound in every state of every run, for nodes and messages |
| `ClusterBus.ElectionEpochIsAboveAll` | src/cluster.cpp:1355-1366 | A new election's epoch is strictly above every config epoch its candidate knows and above all its earlier requests |
| `ClusterBus.CollisionMovesTheSmallerName` | src/cluster.cpp:361-374 | Of two masters under one epoch only the one with the smaller name moves, to a value above both |
| `ClusterBus.ReceiveOk` | src/cluster.cpp:836-844 | Taking in a packet keeps every recorded epoch within the current one; what it records is `Records.PacketTeaches` |
| `Records.PacketTeaches` | src/cluster.cpp:831-1037 | What each kind of packet does to its receiver: the sender's record and the current epoch rise to what it carries, then news of a third node, a collision, a vote counted or a vote given; a stranger's packet does nothing |
| `Records.VoteSentIff` | src/cluster.cpp:1425-1482 | A vote is sent if and only if a slot-serving master that knows the candidate is not ahead of it and has not voted in its epoch |
| `Records.VoteCountedIff` | src/cluster.cpp:927-939 | A vote that arrives is counted if and only if a voter gave it for the election under way |
| `Records.RecordsNeverAbove` | src/cluster.cpp:831-963 | In every run no node has on record, has saved or is being told a later epoch of a steady master than its own |
| `Records.ClaimIsRecordedIff` | src/cluster.cpp:836-844 | A steady master's packet is under the epoch its receiver then has on record for it if and only if no later one was on record before, so always when the packet carries the master's present epoch |
| `Records.SentUnderOwnEpoch` | src/cluster.cpp:755-773 | Every packet of a master carries the epoch it is under |
| `Records.PingRecords` | src/cluster.cpp:836-844 | A ping of a steady master that arrives while it is still under that epoch puts exactly this epoch on record |
| `Records.BumpOutranks` | src/cluster.cpp:280-291 | A node that bumps its epoch is ahead of every epoch it knows, and nobody else's record changes |
| `Records.EpochAsGiven` | src/cluster.cpp:1871-1884 | SET-CONFIG-EPOCH on a node that knows nobody takes the given epoch, and the current epoch is never below it |
| `Records.ComesBackAsSaved` | src/cluster.cpp:1616-1659 | In every run a node that crashes comes back with the epochs it had when it last saved or voted, and no election under way |
| `StaleVotes.SurvivingVoteElectsTwo` | src/cluster.cpp:1355-1378 | A run with one crash between a broadcast and its save, after which the vote still arrives: two replicas win the same epoch, so the condition on crashes is needed |
| `SlotClaims.ClaimsAreConfluent` | src/cluster.cpp:296-326 | When no two masters share an epoch, whatever epochs replicas repeat, any order and repetition of masters' claims ends with the same owner of every slot not being imported |
| `SlotClaims.ConfluentIff` | src/cluster.cpp:296-326 | For claims under the recorded epochs, the order and repetition in which they arrive do not matter to a slot if and only if no two nodes claim it under the same leading epoch above its first owner's |
| `SlotClaims.DeliveredIsHighest` | src/cluster.cpp:296-326 | After any claims a slot belongs to the highest epoch among its first owner and its claimants, and to its first owner unless a claimant is above it |
| `SlotClaims.HighestIsUnique` | src/cluster.cpp:293-295 | Without a tie there is only one such owner |
| `SlotClaims.FirstLeaderStays` | src/cluster.cpp:313-326 | Of claimants tied for a slot the first to arrive keeps it |
| `SlotClaims.ClaimedSlotsAreServed` | src/cluster.cpp:313-326 | A claimed slot has an owner afterwards, never under a lower epoch than before |
| `SlotClaims.NothingNew` | src/cluster.cpp:1023-1026 | Skipping claims that equal the known slot set changes nothing |
| `SlotClaims.ClaimTakes` | src/cluster.cpp:304-326 | A slot changes hands exactly if it is claimed, is not being imported, and has no owner or one under an earlier epoch |
| `ClusterNode.Cluster.constructor` | src/cluster.cpp:232-241 | A node that knows only itself, with mirrored empty tables |
| `ClusterNode.Cluster.SetSlot` | src/cluster.cpp:232-241 | The owner table and the slot sets of all nodes stay exact inverses |
| `ClusterNode.Cluster.TakeSlot` | src/cluster.cpp:304-326 | One slot of a claim: taken exactly when the epoch rule says so, with what was lost reported |
| `ClusterNode.Cluster.TakeSlots` | src/cluster.cpp:304-326 | The loop over the slots computes the claim function, lists exactly the lost slots that hold keys, and clears their migrations |
| `ClusterNode.Cluster.TakeEach` | src/cluster.cpp:304-326 | The loop itself, slot by slot |
| `ClusterNode.Cluster.SetAsReplicaOf` | src/cluster.cpp:243-260 | Every own slot and every migration is given up and the role changes |
| `ClusterNode.Cluster.UpdateSlotsConfigWith` | src/cluster.cpp:296-356 | A claim as a whole: owners by the epoch rule; the shard's last slot lost means following the claimant with the keys kept; otherwise a master deletes exactly the keys of the slots it lost |
| `ClusterNode.Cluster.ReceiveClaims` | src/cluster.cpp:296-356 | Claims that arrive one after the other leave the owner table they define together, and the same one in any order and repetition when no two masters share an epoch |
| `ClusterNode.Cluster.DeleteKeys` | src/cluster.cpp:349-355 | Exactly the listed slots are emptied |
| `ClusterNode.Cluster.FailoverReplaceMaster` | src/cluster.cpp:1394-1407 | All of the master's slots and no others pass to the new master, under mirrored tables |
| `ClusterNode.Cluster.MaxEpoch` | src/cluster.cpp:267-273 | An upper bound of every known epoch that some node attains |
| `ClusterNode.Cluster.BumpEpochWithoutConsensus` | src/cluster.cpp:280-291 | Leaves a non-zero epoch that is already the highest alone, and otherwise takes one above everyone else's |
| `ClusterNode.Cluster.HandleEpochCollision` | src/cluster.cpp:361-374 | Only the smaller name moves, to an epoch above every known one; in every other case nothing changes |
| `ClusterNode.Cluster.SendFailoverAuthIfNeeded` | src/cluster.cpp:1425-1482 | A vote is granted if and only if every listed rule holds and it was saved; it marks the epoch as voted and the failed master's voting time, and a failed save leaves no vote recorded |
| `ClusterNode.Cluster.AbsorbEpochs` | src/cluster.cpp:836-844 | The current epoch and the sender's recorded epoch become the larger of what was known and what the packet carries; nobody else's record changes |
| `ClusterNode.Cluster.ReceivePing` | src/cluster.cpp:831-1037 | A ping raises the sender's recorded epoch to the one it carries, settles the sender's role, applies a master's claim to its slots or frees a demoted sender's, and applies the collision rule in the role this has left the node in; the claim is under the recorded epoch exactly if no later one was on record |
| `ClusterNode.Cluster.ReceivePings` | src/cluster.cpp:1005-1037 | Pings of masters that arrive one after the other, none under an epoch below the recorded one, leave the owner table their claims define together, in any order |
| `ClusterNode.Cluster.LearnClaim` | src/cluster.cpp:1005-1026 | What a ping says of its sender: the owner table after it, and the only way it can change this node's role |
| `ClusterNode.Cluster.LearnRole` | src/cluster.cpp:1005-1021 | A master turned replica gives up exactly its slots; a replica turned master is one |
| `ClusterNode.Cluster.Vacate` | src/cluster.cpp:1009-1013 | Exactly one node's slots are left without an owner |
| `ClusterNode.Cluster.SettleCollision` | src/cluster.cpp:1036-1036 | The collision rule is the protocol's |
| `ClusterNode.Cluster.ReceiveAck` | src/cluster.cpp:927-939 | Counting a vote is the protocol's step, decided by the sender serving slots |
| `ClusterNode.Cluster.ReceiveAuthRequest` | src/cluster.cpp:1425-1482 | Answering a vote request is the protocol's step: refused, not saved, saved but unsent, or sent |
| `ClusterNode.Cluster.DecideVote` | src/cluster.cpp:1425-1482 | The vote after the request's epochs are known: refused exactly when the rules say no, and otherwise durable before it is sent |
| `ClusterNode.Cluster.ReceiveUpdate` | src/cluster.cpp:890-905 | Only a later epoch is taken up, and then the owner table is the one its claim leaves, slots not won included |
| `ClusterNode.Cluster.StartElection` | src/cluster.cpp:1355-1366 | The election's epoch is the protocol's and is above every known one |
| `ClusterNode.Cluster.WinElection` | src/cluster.cpp:1368-1378 | Winning is the protocol's step, and the master's slots are inherited |
| `ClusterNode.Cluster.FindNewerOwner` | src/cluster.cpp:1459-1465 | Finds whether some claimed slot has an owner under a later epoch |
| `ClusterNode.MovedMirrors` | src/cluster.cpp:232-241 | Moving one slot between two slot sets mirrors the changed owner table |
| `Resharding.ReshardingIsInvisible` | src/cluster.cpp:451-513 | Over every run of a migration with clients following ASK and MOVED, each served command acts on one map: the source's entry if present, else the target's. Which commands are served is stated by `Redirects` |
| `Redirects.SourceAnswers` | src/cluster.cpp:451-513 | In every reachable state the source serves exactly what it has or still owns outright, sends on with -ASK exactly what has all moved, and gives -TRYAGAIN for a mixture and -MOVED once it has yielded |
| `Redirects.TargetAnswers` | src/cluster.cpp:451-513 | The target serves everything once it owns the slot; before that, exactly the clients that were sent to it with one key or with keys it has all of |
| `Redirects.AskedIsServed` | src/cluster.cpp:478-497 | Whoever holds an -ASK for one key is served by the target, whatever has happened meanwhile |
| `Redirects.MovedIsServed` | src/cluster.cpp:498-513 | Whoever the source has told -MOVED is served by the target from then on |
| `Redirects.OneRedirect` | src/cluster.cpp:451-513 | A command with one key that reaches the source is served there, or by the target after the one redirect it is given |
| `Redirects.TargetFirst` | src/cluster.cpp:498-513 | A client that comes to the target first is served, or sent to the source, which then owns the slot |
| `Transfer.HandlerReleases` | src/command_dispatcher.cpp:795-821 | What the MIGRATE handler leaves of a slot's live data is exactly what the protocol's release of the batch leaves at the source |
| `Resharding.StepExplained` | src/cluster.cpp:451-513 | Each single step changes that map exactly as its served command says, or not at all |
| `Resharding.StepKeeps` | src/cluster.cpp:1976-2006 | Every routing, MIGRATE and SETSLOT step keeps the invariant: only keys of the batch under way exist twice, with equal values |
| `Resharding.RunHolds` | src/cluster.cpp:1976-2006 | The invariant holds in every state of every run |
| `Resharding.SourceGainsNoKey` | src/cluster.cpp:470-500 | While migrating, the source never gets a key it did not have |
| `Resharding.NoReplyPatternLosesAKey` | src/command_dispatcher.cpp:795-821 | However many replies come back, lost ones included, and whatever they say, every key the target has not itself dropped is still there with its value after the source deletes what was confirmed |
| `Resharding.EndLeavesNoCopyIff` | src/command_dispatcher.cpp:795-821 | After a batch no key is on both nodes if and only if no unanswered RESTORE has left its copy at the target |
| `Resharding.LostReplyResurrects` | src/command_dispatcher.cpp:795-821 | An applied RESTORE whose reply is lost lets a deleted key come back: the exception is real |
| `Resharding.TargetHoldsAll` | tools/kv_cluster.py:134-152 | Once the target owns the slot the source has nothing left in it |
| `Resharding.ExecOnPart` | src/cluster.cpp:451-513 | A command gives the same reply and effect on a part of the map that decides all its keys |
| `Resharding.MissingMeans` | src/cluster.cpp:470-500 | The count of absent keys that decides between serving, ASK and TRYAGAIN |
| `MigrateSlot.MigrateSlot` | tools/kv_cluster.py:134-152 | The tool's loop ends, is a run of the protocol, moves every key and hands the slot over |
| `MigrateSlot.MoveBatch` | tools/kv_cluster.py:143-149 | One answered batch moves exactly its keys |
| `MigrateSlot.KeysInSlot` | src/store.cpp:216-225 | At most the asked number of keys, all different, and none only if there are none |
| `ManualFailover.StepKeeps` | src/cluster.cpp:1489-1528 | Every client write, report, timeout, promotion and claim keeps the handover invariant |
| `ManualFailover.RunHolds` | src/cluster.cpp:1489-1528 | The invariant holds in every state of every run of one attempt |
| `ManualFailover.PromotionLosesNothing` | src/cluster.cpp:857-863 | A promotion before the end of the master's pause finds the replica with every write the master ever acknowledged, and the master still paused |
| `ManualFailover.NothingRunsOnTheOldMaster` | src/cluster.cpp:941-956 | If the claim reaches the old master by the end of its pause, that master never runs another write |
| `ManualFailover.OnlyAnEndedPauseRuns` | src/cluster.cpp:1501-1516 | After a promotion in time the old master runs something only once its pause has run out first |
| `ManualFailover.HeldWriteRunsIff` | src/cluster.cpp:1501-1528 | When the pause is over after a promotion in time, a held write runs on the old master if and only if the claim has not arrived, and otherwise it is redirected |
| `ManualFailover.LateClaimRunsHeldWrites` | src/cluster.cpp:1501-1528 | A run in which the claim comes after the pause ran out: a held write is acknowledged by the old master and is not on the promoted replica |
| `ManualFailover.NoWriteDisappears` | src/server.cpp:363-439 | Every write clients sent has run, is held or was redirected |
| `Handover.RoleByRun` | src/cluster.cpp:941-956 | The master is paused exactly from the request to the end of the pause or the claim, and demoted exactly after a claim |
| `Handover.AttemptByRun` | src/cluster.cpp:1501-1516 | The replica's attempt lasts exactly until it gives up or takes over, and nothing of it is left that a late report could revive |
| `Handover.WriteFate` | src/server.cpp:363-439 | A client's write runs at once exactly if the master is neither pausing nor demoted; in a pause it is held, afterwards sent to the new master |
| `Handover.HandoverCanFinish` | src/cluster.cpp:1489-1528 | From every reachable state with the master paused, the replica waiting and time left, the handover can be finished with no more time passing: the replica has the whole stream and every held write is sent on, in order |
| `ManualFailover.FrozenKept` | src/replication.cpp:695-746 | While the pause lasts the master's offset, and with it every report of it, stays true |
| `ServerHold.Server.constructor` | src/server.cpp:363-372 | No clients, no pause |
| `ServerHold.Server.Accept` | src/server.cpp:298-303 | A new client with nothing received |
| `ServerHold.Server.Receive` | src/server.cpp:338-361 | Received commands queue up behind what is there |
| `ServerHold.Server.SetWritesPaused` | src/server.cpp:363-372 | Ending a pause schedules the resumption of the held clients |
| `ServerHold.Work` | src/server.cpp:392-448 | A client's commands are dispatched in arrival order; no write runs during a pause; the first write to meet one is held and nothing overtakes it; otherwise the queue is emptied |
| `ServerHold.Server.ProcessInput` | src/server.cpp:392-456 | Only this client changes, its order is kept, and if it got held it is on the list to resume |
| `ServerHold.Server.ResumeHeldClients` | src/server.cpp:374-384 | After a pause every held client goes on and none is forgotten |
| `Buckets.Table.constructor` | include/hash_table.hpp:258-268 | An array of empty chains |
| `Buckets.Walk` | include/hash_table.hpp:98-105 | Following the next pointers finds the key's node and the one before it, or shows there is none |
| `Buckets.Table.Find` | include/hash_table.hpp:98-105 | The same for one bucket of an array |
| `Buckets.Table.PushFront` | include/hash_table.hpp:205-213 | A node is linked in at the head of one chain; all chains stay well formed and disjoint |
| `Buckets.Table.PopFront` | include/hash_table.hpp:205-213 | The first node of a chain is taken out |
| `Buckets.PointPast` | include/hash_table.hpp:117-135 | Redirecting one pointer leaves the chain without exactly that node, in the same order |
| `Buckets.Table.Bridge` | include/hash_table.hpp:117-135 | Unlinking a node, at the head or further on |
| `Buckets.Table.Unlink` | include/hash_table.hpp:117-135 | The key's node leaves its chain; every other node and chain stays |
| `Buckets.Table.Visit` | include/hash_table.hpp:175-183 | Every linked node exactly once |
| `Buckets.Follow` | include/hash_table.hpp:178-181 | Following a chain to its end gives exactly its nodes in order |
| `HashTable.HashTable.constructor` | include/hash_table.hpp:240-246 | An empty table of sixteen buckets |
| `HashTable.HashTable.Find` | include/hash_table.hpp:98-111 | Mid-resize or not, probing one bucket finds exactly the map's entry |
| `HashTable.HashTable.Set` | include/hash_table.hpp:79-94 | The map gets the entry; an existing entry keeps its node; a resize in progress advances; at rest one starts exactly when the load leaves its range |
| `HashTable.HashTable.Del` | include/hash_table.hpp:117-135 | The map loses exactly this entry; all other nodes keep their identity |
| `HashTable.HashTable.ForEach` | include/hash_table.hpp:172-184 | Every entry is visited exactly once, also while two arrays are in use |
| `HashTable.HashTable.RehashStep` | include/hash_table.hpp:190-227 | The map and all nodes stay; at most n full and 10n empty buckets are visited, and the position advances by exactly those; one step over an occupied bucket moves just that one; at the end the new array takes over |
| `HashTable.HashTable.Advance` | include/hash_table.hpp:195-219 | The loop over old buckets, with its two budgets |
| `HashTable.Relink` | include/hash_table.hpp:205-215 | All nodes of one old bucket end up in their new buckets, none lost or copied |
| `HashTable.RelinkOne` | include/hash_table.hpp:208-213 | One node changes arrays and keeps its identity |
| `HashTable.HashTable.TakeOver` | include/hash_table.hpp:220-225 | The empty old array is replaced and the next resize starts if the load calls for it |
| `HashTable.HashTable.MaybeResize` | include/hash_table.hpp:303-323 | A resize starts exactly when the load is outside its range and none is going on, to double or half the size |
| `HashTable.HashTable.Put` | include/hash_table.hpp:81-91 | Overwrites the node in place or links a new one in |
| `HashTable.HashTable.Remove` | include/hash_table.hpp:117-135 | Unlinks the node and counts it off, or reports its absence |
| `HashTable.HashTable.Settle` | include/hash_table.hpp:190-227 | Stepping without writes terminates, with the load in [0.1, 0.75], or at most 0.75 with sixteen buckets |
| `HashTable.HashTable.ResizeInTime` | include/hash_table.hpp:303-312 | A resize ends within as many calls of set and del as the old array has buckets |
| `HashTable.HashTable.GrowStaysBelow` | include/hash_table.hpp:303-312 | A grow from B buckets never holds more than B-1 entries over what it began with, so one begun below 0.8B+1 stays below 0.9 of its 2B buckets, and one begun at 0.75B+1 at most at 1.75B entries |
| `HashTable.HashTable.BeganBounded` | include/hash_table.hpp:303-323 | In every reachable state, also right after another resize, a grow from B buckets began with fewer than 2.2B+1 entries and a shrink with fewer than 0.1B+1 |
| `HashTable.NineTenthsIff` | include/hash_table.hpp:303-312 | The pace of a grow guarantees the 0.9 bound if and only if it began below 0.8B+1 entries |
| `HashTable.GrowFromRest` | include/hash_table.hpp:303-323 | A table at rest starts to grow at exactly 0.75B+1 entries |
| `LoadAfterShrink.GrowAfterShrink` | include/hash_table.hpp:303-312 | A run of sets and deletes after which a grow from 16 to 32 buckets begins with 34 entries, above 0.9 of the 32: the bound in the comment does not hold after a shrink |
| `LoadAfterShrink.Crowding` | include/hash_table.hpp:190-227 | The inserts during the shrink, each into the bucket moved next, so that a call moves one bucket only |
| `HashTable.HashTable.OnlyThere` | include/hash_table.hpp:294-301 | A key's node can only be in the one bucket chosen for it |
| `HashTable.UnrestFalls` | include/hash_table.hpp:303-323 | Each resize that stepping causes is one nearer to the range, so they cannot alternate for ever |
| `Keyspace.ActiveAndPassiveAgree` | src/store.cpp:41-141 | Active and passive expiry give the same replies to any sequence of operations under a non-decreasing clock, with expiry cycles anywhere on the active side |
| `Keyspace.RunRefinesPlain` | src/store.cpp:41-141 | Either store answers like a plain map whose entries vanish at their deadlines |
| `Keyspace.RefinesPlain` | src/store.cpp:41-141 | Each operation, active or passive, does to the visible entries what it does to the plain map, and answers the same |
| `Keyspace.LaterView` | src/store.cpp:41-47 | Time alone only takes away entries whose deadline has passed |
| `Keyspace.ReclaimUnseen` | src/store.cpp:159-192 | Deleting expired keys cannot be seen |
| `Store.Store.constructor` | src/store.cpp:36-39 | An empty store with agreeing indexes |
| `Store.Store.Remove` | src/store.cpp:238-249 | The key leaves the dictionary, the deadlines, the use order and its slot list, and the memory counter drops by its exact cost |
| `Store.Store.ClearExpire` | src/store.cpp:257-263 | The deadline goes and the counter drops by its cost |
| `Store.Store.ExpireIfNeeded` | src/store.cpp:41-57 | Detects expiry; deletes and reports the key only under active expiry |
| `Store.Store.Lookup` | src/store.cpp:59-70 | Finds live keys only and moves them to the front when touched |
| `Store.Store.Get` | src/store.cpp:72-75 | Contents, notifications and reply are those of the operation, a key that is there becomes the most recently used, and the history of uses grows by this one; all indexes and the memory counter stay exact |
| `Store.Store.Exists` | src/store.cpp:77-79 | The same for exists |
| `Store.Store.Set` | src/store.cpp:81-100 | The same for set: an expired key is replaced as a new one, so KEEPTTL cannot revive its deadline |
| `Store.Store.Write` | src/store.cpp:81-100 | The body of set: overwriting a live key, or inserting in place of an expired one, with all indexes exact |
| `Store.Store.Insert` | src/store.cpp:95-99 | A new key enters every index and is charged its exact cost |
| `Store.Store.Overwrite` | src/store.cpp:84-86 | A new value changes the counter by the difference in length |
| `Store.Store.Del` | src/store.cpp:104-108 | The same for del: the key goes even if it had expired |
| `Store.Store.SetExpire` | src/store.cpp:110-125 | The same for set_expire: a past time deletes under active expiry only |
| `Store.Store.Deadline` | src/store.cpp:118-123 | A deadline is charged only when it is new |
| `Store.Store.Persist` | src/store.cpp:127-129 | The same for persist |
| `Store.Store.Pttl` | src/store.cpp:131-141 | The same for pttl, without touching |
| `Store.Store.EvictIfNeeded` | src/store.cpp:143-157 | What stays is the longest prefix of the use order that fits: the shortest sufficient suffix goes, in order, each victim last used before every key that stays, and under LRU memory always ends within its limit |
| `UseOrder.OrderIsRecency` | src/store.cpp:59-141 | After any history the use order lists exactly the stored keys, once each, the later used before the earlier used |
| `UseOrder.BeforeIffUsedLater` | src/store.cpp:59-141 | Of two stored keys one stands before the other if and only if it was read, written or given a deadline later |
| `UseOrder.TailIsOlder` | src/store.cpp:143-157 | Cutting the order anywhere separates later uses from earlier ones |
| `Store.OlderGoFirst` | src/store.cpp:143-157 | Whatever eviction cuts off the end was last used before everything that stays |
| `Store.Store.EvictLast` | src/store.cpp:148-155 | One eviction removes the least recently used key and its exact cost |
| `Store.Store.ActiveExpireCycle` | src/store.cpp:159-192 | Removes only keys whose deadline had passed at one of the readings, one reading per round, reports each, does nothing under passive expiry, and unless it is cut short leaves no deadline behind when all had passed |
| `Store.Store.Round` | src/store.cpp:167-181 | One sample of at most twenty draws |
| `Store.Store.DeleteSlot` | src/store.cpp:227-236 | Exactly the slot's keys go, in list order, each reported |
| `Store.RemoveKeeps` | src/store.cpp:238-249 | Removing a key from all indexes keeps them in agreement |
| `Store.InsertKeeps` | src/store.cpp:95-99 | Inserting a key into all indexes keeps them in agreement |
| `Store.TouchKeeps` | src/store.cpp:64-68 | Moving a key to the front permutes the use order and changes nothing else |
| `Store.ChangeKeeps` | src/store.cpp:84-90 | Another value or deadline changes the counter by exactly the difference in cost |
| `Store.TotalDrop` | src/store.cpp:18-24 | The sum of costs without one key |
| `Propagation.ReplicaAgrees` | src/kv_server.cpp:364-381 | A replica that started with the master's live data and applied its log, each command in step, has the master's live data after any run of commands, expiries and evictions |
| `Propagation.StepAgrees` | src/kv_server.cpp:364-381 | The same for one command |
| `Propagation.StepAgreesIff` | src/kv_server.cpp:364-381 | For one command of the master: if the replica was in step up to the last thing logged, the live data agree exactly when it still is |
| `Propagation.LogTells` | src/command_dispatcher.cpp:248-458 | What a command logs turns the live data before it into the live data after it |
| `Propagation.SetTold` | src/command_dispatcher.cpp:248-306 | SET in every form is logged as SET with the absolute deadline or KEEPTTL |
| `Propagation.DelTold` | src/command_dispatcher.cpp:318-329 | DEL is logged whole, and only if something was deleted |
| `Propagation.IncrTold` | src/command_dispatcher.cpp:347-363 | INCR and its kin are logged as SET of the result with KEEPTTL |
| `Propagation.ExpireTold` | src/command_dispatcher.cpp:400-421 | EXPIRE and its kin are logged as an absolute deadline, or as DEL |
| `Propagation.PersistTold` | src/command_dispatcher.cpp:451-458 | PERSIST is logged exactly when it removed a deadline |
| `Propagation.RestoreTold` | src/command_dispatcher.cpp:669-724 | RESTORE is logged as SET, as DEL, or not at all |
| `Propagation.MigrateTold` | src/command_dispatcher.cpp:773-821 | MIGRATE logs a DEL of exactly the keys it deleted here; that those are the keys the target took is `Commands.MigrateLeaves` |
| `Commands.SetLeaves` | src/command_dispatcher.cpp:248-306 | What clients see after SET, from what they saw before: the value under no deadline, the old one, or the one asked for; nothing changes when NX or XX fails or the time does not fit; a time that has passed removes the key |
| `Commands.DelLeaves` | src/command_dispatcher.cpp:318-329 | DEL removes exactly the named keys from what clients see |
| `Commands.IncrLeaves` | src/command_dispatcher.cpp:347-363 | INCR and its kin store the sum, under the key's old deadline; a missing key counts as zero, and nothing changes when the value is no number or the sum does not fit |
| `Commands.ExpireLeaves` | src/command_dispatcher.cpp:400-421 | EXPIRE and its kin set exactly the given time on a key that is there, and remove one whose time has come |
| `Commands.PersistLeaves` | src/command_dispatcher.cpp:451-458 | PERSIST takes the deadline away and leaves the value |
| `Commands.RestoreLeaves` | src/command_dispatcher.cpp:669-724 | RESTORE stores the value with the time it came with, removes the key if that has run out, and changes nothing when it is refused |
| `Commands.MigrateLeaves` | src/command_dispatcher.cpp:773-821 | MIGRATE removes exactly the keys that were there, were sent and were taken, in the order of the replies; with COPY nothing |
| `Commands.ReadsBack` | src/store.cpp:72-108 | A stored value is read back, exists and has no deadline at any later time; a deleted key is gone for every read |
| `Commands.CountsDown` | src/store.cpp:110-141 | After EXPIRE the time to live counts down to the deadline, the value is read until then, and both are gone from then on |
| `Commands.NothingVanishesUnsaid` | src/kv_server.cpp:364-381 | Every key that leaves a master's store, by command, expiry or eviction, is named in a logged DEL, or in a logged SET whose time had passed already |
| `Propagation.SentAreLive` | src/command_dispatcher.cpp:773-787 | The keys MIGRATE sends are exactly the live ones |
| `Propagation.LoseTold` | src/kv_server.cpp:378-381 | Keys the store drops on its own are logged one DEL each |
| `Propagation.ApplyRefinesIff` | src/command_dispatcher.cpp:248-458 | A logged command does to a passive store's live data what it did to the master's if and only if it is in step: SET with KEEPTTL, PEXPIREAT and PERSIST need their own key's deadline on the same side of both readings, where PEXPIREAT may also set the same deadline again; nothing else looks at the clock |
| `Propagation.ApplyAllReplays` | src/kv_server.cpp:364-381 | A log whose every command is in step does to the replica what it did to the master |
| `Propagation.NextReplaysIff` | src/kv_server.cpp:364-381 | A replica that has kept up stays so through the next logged command if and only if that is in step |
| `Propagation.LogIsAcceptable` | src/command_dispatcher.cpp:262-275 | A replica never refuses a deadline its master logged |
| `Propagation.CrossingADeadlineDiverges` | src/command_dispatcher.cpp:347-363 | Applying a logged SET with KEEPTTL after the deadline brings the key back: the condition on the clock is needed |
| `Propagation.IncrAdds` | src/command_dispatcher.cpp:347-363 | What INCR stores reads back as the sum and the deadline stays |
| `Propagation.TextParses` | src/command_dispatcher.cpp:50-61 | Printing a 64-bit integer and parsing it strictly gives it back |
| `Dispatcher.Dispatcher.constructor` | src/kv_server.cpp:364-381 | A dispatcher with an empty log over a master's store |
| `Dispatcher.Dispatcher.ListenAll` | src/kv_server.cpp:378-381 | Each key the store dropped is logged as a DEL of its own, in order |
| `Dispatcher.Dispatcher.StoreAndLog` | src/command_dispatcher.cpp:288-304 | Store, set the deadline, log the absolute form |
| `Dispatcher.Dispatcher.CmdSet` | src/command_dispatcher.cpp:248-306 | The handler's effect on store and log, refusals and the null reply included |
| `Dispatcher.Dispatcher.CmdDel` | src/command_dispatcher.cpp:318-329 | The loop over the keys, the log and the count replied |
| `Dispatcher.Dispatcher.CmdIncrBy` | src/command_dispatcher.cpp:347-363 | The handler's effect, with the sum as reply or a refusal for a non-number or an overflow |
| `Dispatcher.Dispatcher.CmdExpire` | src/command_dispatcher.cpp:400-421 | The handler's effect and reply, with a refusal exactly for a deadline that does not fit |
| `Dispatcher.Dispatcher.CmdPersist` | src/command_dispatcher.cpp:451-458 | The handler's effect and reply |
| `Dispatcher.Dispatcher.CmdRestore` | src/command_dispatcher.cpp:669-724 | The handler's effect, and exactly when it refuses |
| `Dispatcher.Dispatcher.CmdMigrate` | src/command_dispatcher.cpp:773-821 | The live keys sent whose reply was no error leave the view, and nothing else does, or nothing at all under COPY; NOKEY exactly when no key is live, OK when the exchange went through without an error text, an error otherwise |
| `Dispatcher.Dispatcher.Send` | src/command_dispatcher.cpp:773-787 | Exactly the live keys are sent |
| `Dispatcher.Dispatcher.DeleteTaken` | src/command_dispatcher.cpp:800-811 | The loop over the replies deletes exactly the keys whose reply was no error |
| `Dispatcher.Dispatcher.TargetError` | src/command_dispatcher.cpp:800-807 | There is an error text exactly when some reply is an error with one |
| `Dispatcher.Dispatcher.Evict` | src/command_dispatcher.cpp:219-227 | Evicted keys are logged as DELs in the order they went |
| `Resp.ParseLength` | src/resp_parser.cpp:13-33 | A strict unsigned length: digits only, no overflow |
| `Resp.VerdictIsStable` | src/resp_parser.cpp:39-98 | A verdict other than Incomplete does not change as more bytes arrive |
| `Grammar.AcceptsIff` | src/resp_parser.cpp:39-98 | The parser takes a command off the front if and only if the bytes it takes spell that command, digit by digit |
| `Grammar.RefusedForGood` | src/resp_parser.cpp:39-98 | What is refused can never become a command, whatever follows |
| `Grammar.MalformedIsRefused` | src/resp_parser.cpp:39-98 | After any number of arguments in order, a wrong mark, a length that is no number or a missing line end is refused at once |
| `Grammar.BadHeaderIsRefused` | src/resp_parser.cpp:39-98 | A first byte other than the array mark, or a count that is no number, is refused at once |
| `Resp.ParseInvertsEncode` | src/resp_parser.cpp:39-98 | Parsing a printed command gives it back with the exact number of bytes used |
| `Resp.ProperPrefixIsIncomplete` | src/resp_parser.cpp:39-98 | A proper prefix of a printed command is always Incomplete |
| `Resp.SplitIndependent` | src/resp_parser.cpp:35-98 | Every way of cutting the bytes into chunks gives the same commands and leaves the same rest |
| `Resp.DrainSplits` | src/resp_parser.cpp:35-98 | Feeding two pieces one after the other is feeding them at once |
| `Resp.TornLogReplaysLongestPrefix` | src/aof.cpp:321-373 | A log cut anywhere replays exactly its longest prefix of whole commands |
| `Resp.WholeCommandsIsLongest` | src/aof.cpp:352-373 | The number of whole commands in a prefix, and that one more would not fit |
| `Resp.BulkReadsBack` | src/reply.cpp:23-29 | One printed bulk string reads back |
| `Resp.DigitsRoundTrip` | src/reply.cpp:23-29 | A printed length reads back |
| `RespParser.Parser.constructor` | src/resp_parser.cpp:35-37 | An empty buffer |
| `RespParser.Parser.Feed` | src/resp_parser.cpp:35-37 | Bytes are appended |
| `RespParser.Parser.TryParseCommand` | src/resp_parser.cpp:39-98 | Takes exactly one command off the front, or leaves the buffer as it was |
| `RespParser.TakeBulks` | src/resp_parser.cpp:57-92 | The loop over the arguments |
| `RespParser.TakeBulk` | src/resp_parser.cpp:60-90 | One argument, with every way it can be incomplete or wrong |
| `RespParser.PrintCommand` | src/reply.cpp:41-48 | The printer's loop produces the encoding |
| `RespParser.TakeAll` | src/aof.cpp:336-350 | All complete commands in the buffer, in order |
| `RespParser.ReplayIncr` | src/aof.cpp:312-375 | Replaying a log file chunk by chunk gives the drained commands and the exact number of valid bytes |
| `Aof.CrashRecoversPrefix` | src/aof.cpp:277-375 | In a state that satisfies the invariant, a crash that loses any unsynced suffix of the current log loads a prefix of what was served that contains everything synced |
| `Aof.EveryCrashRecovers` | src/aof.cpp:218-510 | The same in every state of every run of feeds, partial writes, rewrites and resets |
| `Aof.SyncedSurvives` | src/aof.cpp:382-436 | Whatever was synced at some point is served, in the same order, for the rest of the run up to a reset, through any crashes |
| `Aof.SyncedStays` | src/aof.cpp:382-510 | No step but a reset lowers the number of commands known to be synced |
| `Aof.SyncedStillServed` | src/aof.cpp:277-510 | The same over one step, a crash and reload included |
| `Aof.FlushAndSyncCoversAll` | src/aof.cpp:423-436 | A completed flush-and-sync covers every command fed |
| `Aof.ResetIsAtomic` | src/aof.cpp:249-275 | Around a reset a crash finds the old log or exactly the new dataset |
| `Aof.StepKeeps` | src/aof.cpp:189-510 | Every file operation keeps the invariant: sealed logs complete and synced, the current log spread over file and buffer, the manifest naming only good files |
| `Aof.RunHolds` | src/aof.cpp:189-510 | The invariant holds in every state of every run |
| `Aof.StepServes` | src/aof.cpp:377-510 | What a recovery without loss would serve changes only by feeding a command or by a reset |
| `Aof.CommitIncrKeeps` | src/aof.cpp:438-466 | Switching to a new log keeps the invariant |
| `Aof.CommitBaseKeeps` | src/aof.cpp:468-510 | Installing the child's snapshot as base keeps the served commands and the synced ones |
| `Rewrite.ChildByRun` | src/aof.cpp:438-480 | In every run a rewrite child is at work exactly from its fork until its base is committed, it fails or the server crashes; it saves the dataset served at the fork, and the last log holds exactly what was fed since |
| `Rewrite.RewriteCompacts` | src/aof.cpp:468-510 | A finished rewrite leaves one base and one log: the base is the dataset served at the fork, the log what was fed since, and together they are what is served |
| `Aof.RecoverIff` | src/aof.cpp:277-375 | A start-up fails if and only if there is no log, the base is missing, or some log is missing, broken, or torn without being the last; otherwise it serves the base and every log's whole commands in order |
| `Aof.BackgroundSyncCovers` | src/aof.cpp:382-421 | A background fsync that ends well covers everything written when it began, whatever was fed meanwhile |
| `Aof.CommitResetKeeps` | src/aof.cpp:249-275 | The reset's manifest switch serves exactly the new dataset |
| `Aof.LoadKeeps` | src/aof.cpp:277-375 | Loading after a crash, torn tail cut off, restores the invariant |
| `Aof.LoadServes` | src/aof.cpp:277-375 | and serves exactly what it loaded |
| `AofFile.AppendOnlyFile.constructor` | src/aof.cpp:218-247 | A new log with its base and first increment named by the manifest |
| `AofFile.AppendOnlyFile.FeedCommand` | src/aof.cpp:377-380 | A command is buffered and served |
| `AofFile.AppendOnlyFile.Flush` | src/aof.cpp:382-421 | Complete, partial and failed writes, with or without a successful truncation |
| `AofFile.AppendOnlyFile.FlushAndSync` | src/aof.cpp:423-436 | Success means everything fed is synced |
| `AofFile.AppendOnlyFile.Touch` | src/aof.cpp:218-247 | Files the manifest does not name can come and go |
| `AofFile.AppendOnlyFile.Unlink` | src/aof.cpp:206-216 | Exactly the files no longer named are removed |
| `AofFile.AppendOnlyFile.SwitchLog` | src/aof.cpp:455-466 | The rename that makes the new log current |
| `AofFile.AppendOnlyFile.SwitchBase` | src/aof.cpp:490-510 | The rename that makes the snapshot the base |
| `AofFile.AppendOnlyFile.SwitchDataset` | src/aof.cpp:262-275 | The rename that replaces everything |
| `AofFile.AppendOnlyFile.BeginRewrite` | src/aof.cpp:438-466 | Nothing served is lost whichever step fails, and success means all of it is synced |
| `AofFile.AppendOnlyFile.FinishRewrite` | src/aof.cpp:468-510 | Nothing served or synced is lost whichever step fails |
| `AofFile.AppendOnlyFile.Reset` | src/aof.cpp:249-275 | The old data or exactly the new one |
| `AofFile.Load` | src/aof.cpp:277-375 | The loader's loop over the manifest computes the recovery |
| `Snapshot.SnapshotRoundTrip` | src/snapshot.cpp:216-323 | Loading a written snapshot at a later time gives exactly the keys still live then, with values and deadlines, in whatever order they were written |
| `Snapshot.ParseInvertsImage` | src/snapshot.cpp:216-323 | Reading a written file gives back its records, whatever the checksum function |
| `Snapshot.UndumpInvertsDump` | src/snapshot.cpp:336-388 | RESTORE gives back what DUMP was given, for every byte string |
| `Snapshot.VarintReadsBack` | src/snapshot.cpp:68-76 | Unsigned LEB128 reads back for every 64-bit value |
| `Snapshot.FewBytes` | src/snapshot.cpp:22-22 | and never needs an eleventh byte |
| `Snapshot.FixedReadsBack` | src/snapshot.cpp:78-84 | Fixed-width little-endian integers read back |
| `Snapshot.StrReadsBack` | src/snapshot.cpp:86-89 | Length-prefixed strings read back |
| `Snapshot.MarkedReadsBack` | src/snapshot.cpp:298-309 | One record, with or without a deadline, reads back |
| `Snapshot.BodyReadsBack` | src/snapshot.cpp:235-269 | All records up to the end marker read back |
| `Snapshot.LoadKeeps` | src/snapshot.cpp:235-269 | Loading the written records gives the live part of the store |
| `Snapshot.CrcJoins` | src/snapshot.cpp:30-48 | The checksum can be computed while streaming |
| `Snapshot.UndumpIff` | src/snapshot.cpp:354-388 | A DUMP payload is accepted if and only if it is the string marker, a length, exactly that many bytes and the version, followed by the checksum of all that; those bytes are the value |
| `Snapshot.ParseAcceptsOnly` | src/snapshot.cpp:216-284 | A snapshot file is accepted only with the right header, an end marker before its last four bytes, and there the checksum of all before them |
| `SnapshotFile.Writer.constructor` | src/snapshot.cpp:52-55 | Nothing written |
| `SnapshotFile.Writer.Put` | src/snapshot.cpp:57-63 | The bytes are counted into the checksum and reach the file or the buffer |
| `SnapshotFile.Writer.PutVarint` | src/snapshot.cpp:68-76 | The loop produces the LEB128 form |
| `SnapshotFile.Writer.PutFixed` | src/snapshot.cpp:78-84 | The loop produces the little-endian form |
| `SnapshotFile.Writer.PutString` | src/snapshot.cpp:86-89 | Length and bytes |
| `SnapshotFile.Writer.PutRecord` | src/snapshot.cpp:298-309 | One record as the format has it |
| `SnapshotFile.Writer.Flush` | src/snapshot.cpp:91-97 | Without a failed write the file is everything put so far |
| `SnapshotFile.WriteFile` | src/snapshot.cpp:288-323 | A successful write leaves exactly the image of the store's live records |
| `SnapshotFile.Reader.constructor` | src/snapshot.cpp:112-114 | The whole file is left to read |
| `SnapshotFile.Reader.Fill` | src/snapshot.cpp:192-206 | However much the system returns, nothing of the file is lost |
| `SnapshotFile.Reader.Get` | src/snapshot.cpp:117-130 | Exactly the next bytes, or the end of the file |
| `SnapshotFile.Reader.GetVarint` | src/snapshot.cpp:141-155 | The loop computes the varint function, a tenth unterminated byte included |
| `SnapshotFile.Reader.GetFixed` | src/snapshot.cpp:157-167 | The little-endian value of the next bytes |
| `SnapshotFile.Reader.GetString` | src/snapshot.cpp:169-185 | The string of the declared length, read piece by piece, or truncation |
| `SnapshotFile.Reader.AtEof` | src/snapshot.cpp:187-187 | Whether anything is left |
| `SnapshotFile.NextItem` | src/snapshot.cpp:237-262 | The next record, the end marker, or corruption in each of its forms |
| `SnapshotFile.LoadRecord` | src/snapshot.cpp:263-268 | A record enters the store unless its deadline has passed |
| `SnapshotFile.LoadFrom` | src/snapshot.cpp:216-284 | Says yes exactly for a sound file, and the store then holds its records |
| `SnapshotFile.CheckEnd` | src/snapshot.cpp:271-283 | The checksum of everything before, and nothing after |
| `SnapshotFile.DumpValue` | src/snapshot.cpp:336-352 | The payload as the format has it |
| `SnapshotFile.RestoreValue` | src/snapshot.cpp:354-388 | Decodes exactly the well-formed payloads |

## Left out

- Sockets, epoll, signals, fork, fsync threads and timers: only their effects appear, as steps or parameters.
- Handshake, MEET, FORGET, the blacklist, PFAIL timing and gossip selection: a master being FAIL is an input to an election.
- CLUSTER FAILOVER FORCE and TAKEOVER: they bypass the catch-up or the vote by design.
- A failed dataset replacement on a replica: it stops the model's run there.
- FNV-1a, CRC-16 and CRC-32 are arbitrary fixed functions; the bucket index is hash modulo size, which for power-of-two sizes is what `hash & (size - 1)` gives.
- Offsets, epochs and sequence numbers are unbounded; their 64-bit wrap-around is not modelled. Deadlines, INCR values, lengths and varints do respect their widths.
- Command option parsing, error texts, INFO and the text forms of CLUSTER commands.
- CROSSSLOT and CLUSTERDOWN replies, and read-only replica routing, in the routing decision.
- WAIT, and the counting of acknowledgements for it.
- The AOF's fsync thread is a start and an end step; renames are atomic and their result is reported truthfully; a truncation lasts.
- Resharding.ReshardingIsInvisible: treats expiry and eviction as dropped keys and does not carry deadlines to the target.
- MigrateSlot.MigrateSlot: runs the tool alone, with every RESTORE answered; clients and lost replies in between are the steps of `Resharding`.
- ServerHold.Work: takes parsed commands; a protocol error, after which the client is closed once its output is flushed, is not modelled.
- AofFile.AppendOnlyFile.Flush: leaves the choice between the three fsync policies to the caller; a background fsync is a start and an end step of `Aof`.
- ClusterNode.Cluster.ReceivePing: the gossip section, the handshake and the UPDATE sent back to a stale claimant are left out.
- Manual failover is one attempt by one replica; overlapping attempts, in which an old report could be taken for a new one, are not covered.
- Store keeps its dictionary and deadlines as maps (`HashTable` proves that the table behaves as one), and its lists as sequences without the iterators stored in entries.
- HashTable unlinks each node from the old head before relinking it; the code clears the head once at the end. The random entry used for sampling is a free choice in the store.
- ReplNode and ClusterNode do not model timers, sockets or the saving of configuration beyond whether it succeeded; a replica that reconnects after being disconnected is a step of `Replication`.
- Propagation takes one reading of the clock per command and per replayed command; loading the AOF through the dispatcher is covered by `Aof` on commands, not on deadlines.
- FullResync.DecodeInvertsShipping: reads the reply line by fixed positions; the code's stream extraction also accepts other white space.
