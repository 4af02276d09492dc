/**
 The append-only file: a base snapshot and incremental logs named by a manifest.

 Every step is one action on memory or disk after which the machine may lose
 power. A dataset is the log of the commands that produced it, so recovering the
 log recovers the dataset for every way of executing commands.
 */
module Aof {
  import opened Prelude
  import opened Resp

  type Dataset = seq<Argv>

  /** appendonly.aof.<n>.base.snap, appendonly.aof.<n>.incr.aof, and a child's temporary file. */
  datatype Name = BaseName(n: nat) | IncrName(n: nat) | TempName

  /** Of an incremental log, the first `synced` bytes survive a crash for certain. */
  datatype File = Base(image: Dataset) | Incr(bytes: Bytes, synced: nat)

  datatype Manifest = Manifest(base: Option<Name>, incrs: seq<Name>)

  datatype Disk = Disk(files: map<Name, File>, manifest: Manifest)

  datatype State = State(
    disk: Disk,
    manifest: Manifest,          // base_ and incrs_
    nextSeq: nat,
    buf: Bytes,                  // fed, not yet written
    incrBytes: nat,              // length of the current log, as far as we know
    pending: nat,                // bytes an interrupted write left behind it
    fsyncing: Option<nat>,       // how much the background fsync in flight covers
    child: Option<Dataset>,      // the dataset a rewrite child is saving
    parts: seq<seq<Argv>>)       // the commands fed to each log in turn

  // --- what a start-up makes of a disk ----------------------------------------------

  function Replay(files: map<Name, File>, incrs: seq<Name>, data: Dataset): (r: Option<Dataset>)
    decreases |incrs|
  {
    if incrs == [] then Some(data)
    else if incrs[0] !in files || !files[incrs[0]].Incr? then None
    else
      var d := Drain(files[incrs[0]].bytes);
      if d.broken || (d.rest != [] && |incrs| > 1) then None
      else Replay(files, incrs[1..], data + d.cmds)
  }

  /** load(): the base, then each log; only the last one may end in half a command. */
  function Recover(disk: Disk): (r: Option<Dataset>) {
    var m := disk.manifest;
    if m.incrs == [] then None
    else if m.base.None? then Replay(disk.files, m.incrs, [])
    else if m.base.value !in disk.files || !disk.files[m.base.value].Base? then None
    else Replay(disk.files, m.incrs, disk.files[m.base.value].image)
  }

  /** The disk after losing power: each log keeps its synced part and any amount of the rest. */
  predicate CutOk(disk: Disk, cut: map<Name, nat>) {
    forall f :: f in disk.files && disk.files[f].Incr? ==>
      f in cut && disk.files[f].synced <= cut[f] <= |disk.files[f].bytes|
  }

  function CutFile(f: File, k: nat): (r: File)
    requires f.Incr? ==> k <= |f.bytes|
  {
    if f.Incr? then Incr(f.bytes[..k], k) else f
  }

  function AfterCrash(disk: Disk, cut: map<Name, nat>): (d: Disk)
    requires CutOk(disk, cut)
  {
    disk.(files := map f | f in disk.files :: CutFile(disk.files[f], if f in cut then cut[f] else 0))
  }

  // --- the state, read as a log --------------------------------------------------------

  function Flatten(parts: seq<seq<Argv>>): (cmds: seq<Argv>) {
    if parts == [] then [] else parts[0] + Flatten(parts[1..])
  }

  function BaseImage(disk: Disk, m: Manifest): (d: Dataset) {
    if m.base.Some? && m.base.value in disk.files && disk.files[m.base.value].Base?
    then disk.files[m.base.value].image else []
  }

  /** The dataset the server is serving: everything fed to this log so far. */
  function Served(s: State): (d: Dataset) {
    BaseImage(s.disk, s.manifest) + Flatten(s.parts)
  }

  function Front<T>(s: seq<T>): (r: seq<T>)
    requires s != []
  {
    s[..|s| - 1]
  }

  function End<T>(s: seq<T>): (x: T)
    requires s != []
  {
    s[|s| - 1]
  }

  predicate Sealed(files: map<Name, File>, name: Name, part: seq<Argv>) {
    name in files && files[name] == Incr(EncodeAll(part), |EncodeAll(part)|)
  }

  /** How `log` is spread over the file and the buffer: a clean prefix on disk, the rest in memory. */
  predicate Spread(log: Bytes, f: File, buf: Bytes, incrBytes: nat, pending: nat, fsyncing: Option<nat>) {
    && f.Incr? && pending <= |buf| && |f.bytes| == incrBytes + pending
    && f.bytes + buf[pending..] == log && f.bytes[incrBytes..] == buf[..pending]
    && f.synced <= incrBytes
    && (fsyncing.Some? ==> fsyncing.value <= incrBytes)
  }

  predicate Appending(s: State)
    requires s.manifest.incrs != [] && s.parts != []
  {
    var last := End(s.manifest.incrs);
    && last in s.disk.files
    && Spread(EncodeAll(End(s.parts)), s.disk.files[last], s.buf, s.incrBytes, s.pending, s.fsyncing)
  }

  function Seq(n: Name): (k: nat) {
    if n.TempName? then 0 else n.n
  }

  predicate NamesOk(m: Manifest, nextSeq: nat) {
    && (m.base.Some? ==> m.base.value.BaseName? && m.base.value.n < nextSeq)
    && (forall i :: 0 <= i < |m.incrs| ==> m.incrs[i].IncrName? && m.incrs[i].n < nextSeq)
    && (forall i, j :: 0 <= i < j < |m.incrs| ==> m.incrs[i] != m.incrs[j])
  }

  /** Everything but the log being appended to. */
  predicate Settled(s: State) {
    && s.manifest == s.disk.manifest && s.manifest.incrs != [] && |s.parts| == |s.manifest.incrs|
    && NamesOk(s.manifest, s.nextSeq)
    && (s.manifest.base.Some? ==> s.manifest.base.value in s.disk.files && s.disk.files[s.manifest.base.value].Base?)
    && (forall i :: 0 <= i < |s.parts| - 1 ==> Sealed(s.disk.files, s.manifest.incrs[i], s.parts[i]))
    && (forall i :: 0 <= i < |s.parts| ==> AllPrintable(s.parts[i]))
    && (s.child.Some? ==> s.child.value == BaseImage(s.disk, s.manifest) + Flatten(Front(s.parts)))
  }

  predicate Inv(s: State) {
    Settled(s) && Appending(s)
  }

  function SyncedBytes(s: State): (n: nat) {
    if s.manifest.incrs == [] then 0
    else
      var last := End(s.manifest.incrs);
      if last in s.disk.files && s.disk.files[last].Incr? then s.disk.files[last].synced else 0
  }

  /** How many of the served commands a completed fsync covers. */
  function SyncedCount(s: State): (n: nat) {
    if s.parts == [] then 0
    else |BaseImage(s.disk, s.manifest)| + |Flatten(Front(s.parts))| + WholeCommands(End(s.parts), SyncedBytes(s))
  }

  // --- steps --------------------------------------------------------------------------

  datatype Step =
    | Feed(argv: Argv)
    | Write(k: nat)                          // write_all() got this far
    | WriteDone                              // ... which was everything
    | Truncate(ok: bool)                     // ... which was not: cut it back off
    | SyncStart
    | SyncEnd(ok: bool)
    | SyncNow
    | Scratch(name: Name, file: Option<File>)   // create, overwrite or remove a file nobody refers to
    | CommitIncr(forked: bool)               // begin_rewrite(): the manifest names the new log
    | ChildGone                              // the rewrite failed
    | CommitBase                             // finish_rewrite(): the manifest names the new base
    | CommitReset(data: Dataset)             // reset(): a fresh log of another dataset
    | CrashAndLoad(cut: map<Name, nat>)

  predicate Referenced(m: Manifest, name: Name) {
    (m.base == Some(name)) || name in m.incrs
  }

  predicate Enabled(s: State, step: Step) {
    s.manifest.incrs != [] && End(s.manifest.incrs) in s.disk.files && s.disk.files[End(s.manifest.incrs)].Incr?
    && s.parts != []
    && var f := s.disk.files[End(s.manifest.incrs)];
    match step
    case Feed(argv) => s.pending == 0 && Printable(argv)
    case Write(k) => s.pending == 0 && 0 < k <= |s.buf|
    case WriteDone => s.pending > 0 && s.pending == |s.buf|
    case Truncate(ok) => 0 < s.pending < |s.buf| && s.incrBytes <= |f.bytes|
    case SyncStart => s.pending == 0 && s.fsyncing.None?
    case SyncEnd(ok) => s.fsyncing.Some?
    case SyncNow => s.pending == 0 && s.fsyncing.None?
    case Scratch(name, file) => !Referenced(s.disk.manifest, name)
    case CommitIncr(forked) =>
      && s.pending == 0 && s.buf == [] && s.fsyncing.None? && s.child.None? && f.synced == |f.bytes|
      && IncrName(s.nextSeq) in s.disk.files && s.disk.files[IncrName(s.nextSeq)] == Incr([], 0)
    case ChildGone => true
    case CommitBase =>
      && s.child.Some? && s.pending == 0
      && BaseName(s.nextSeq) in s.disk.files && s.disk.files[BaseName(s.nextSeq)] == Base(s.child.value)
    case CommitReset(data) =>
      && s.pending == 0 && s.fsyncing.None? && s.child.None?
      && BaseName(s.nextSeq) in s.disk.files && s.disk.files[BaseName(s.nextSeq)] == Base(data)
      && IncrName(s.nextSeq + 1) in s.disk.files && s.disk.files[IncrName(s.nextSeq + 1)] == Incr([], 0)
    case CrashAndLoad(cut) => s.disk.manifest == s.manifest && CutOk(s.disk, cut)
  }

  function SetFile(s: State, name: Name, f: File): (r: State) {
    s.(disk := s.disk.(files := s.disk.files[name := f]))
  }

  function Commit(s: State, m: Manifest): (r: State) {
    s.(disk := s.disk.(manifest := m), manifest := m)
  }

  /** The highest sequence number a manifest mentions, plus one. */
  function NextSeq(m: Manifest): (n: nat)
    ensures n >= 1
    ensures m.base.Some? ==> Seq(m.base.value) < n
    ensures forall i :: 0 <= i < |m.incrs| ==> Seq(m.incrs[i]) < n
    decreases |m.incrs|
  {
    if m.incrs == [] then Max(1, if m.base.Some? then Seq(m.base.value) + 1 else 1)
    else Max(NextSeq(m.(incrs := Front(m.incrs))), Seq(End(m.incrs)) + 1)
  }

  /** The commands each log yields. */
  function DrainParts(files: map<Name, File>, incrs: seq<Name>): (parts: seq<seq<Argv>>)
    ensures |parts| == |incrs|
  {
    seq(|incrs|, i requires 0 <= i < |incrs| =>
      if incrs[i] in files && files[incrs[i]].Incr? then Drain(files[incrs[i]].bytes).cmds else [])
  }

  /** The server after load(): the torn tail is cut off and the last log is open again. */
  function Loaded(disk: Disk): (s: State)
    requires disk.manifest.incrs != [] && End(disk.manifest.incrs) in disk.files
    requires disk.files[End(disk.manifest.incrs)].Incr?
  {
    var last := End(disk.manifest.incrs);
    var bytes := disk.files[last].bytes;
    var valid := |bytes| - |Drain(bytes).rest|;
    State(disk.(files := disk.files[last := Incr(bytes[..valid], valid)]), disk.manifest, NextSeq(disk.manifest),
          [], valid, 0, None, None, DrainParts(disk.files, disk.manifest.incrs))
  }

  function Next(s: State, step: Step): (s': State)
    requires Enabled(s, step)
  {
    var last := End(s.manifest.incrs);
    var f := s.disk.files[last];
    match step
    case Feed(argv) => s.(buf := s.buf + Encode(argv), parts := Front(s.parts) + [End(s.parts) + [argv]])
    case Write(k) => SetFile(s, last, Incr(f.bytes + s.buf[..k], f.synced)).(pending := k)
    case WriteDone => s.(incrBytes := s.incrBytes + s.pending, buf := [], pending := 0)
    case Truncate(ok) =>
      if ok then SetFile(s, last, Incr(f.bytes[..s.incrBytes], f.synced)).(pending := 0)
      else s.(incrBytes := s.incrBytes + s.pending, buf := s.buf[s.pending..], pending := 0)
    case SyncStart => s.(fsyncing := Some(s.incrBytes))
    case SyncEnd(ok) =>
      if ok then SetFile(s, last, f.(synced := Max(f.synced, s.fsyncing.value))).(fsyncing := None)
      else s.(fsyncing := None)
    case SyncNow => SetFile(s, last, f.(synced := |f.bytes|))
    case Scratch(name, file) =>
      if file.Some? then SetFile(s, name, file.value)
      else s.(disk := s.disk.(files := s.disk.files - {name}))
    case CommitIncr(forked) =>
      Commit(s, s.manifest.(incrs := s.manifest.incrs + [IncrName(s.nextSeq)]))
      .(nextSeq := s.nextSeq + 1, incrBytes := 0, parts := s.parts + [[]],
        child := if forked then Some(Served(s)) else None)
    case ChildGone => s.(child := None)
    case CommitBase =>
      Commit(s, Manifest(Some(BaseName(s.nextSeq)), [last]))
      .(nextSeq := s.nextSeq + 1, parts := [End(s.parts)], child := None)
    case CommitReset(data) =>
      Commit(s, Manifest(Some(BaseName(s.nextSeq)), [IncrName(s.nextSeq + 1)]))
      .(nextSeq := s.nextSeq + 2, buf := [], incrBytes := 0, parts := [[]])
    case CrashAndLoad(cut) =>
      Loaded(AfterCrash(s.disk, cut))
  }

  // --- recovery -----------------------------------------------------------------------

  lemma {:induction false} FlattenJoins(a: seq<seq<Argv>>, b: seq<seq<Argv>>)
    ensures Flatten(a + b) == Flatten(a) + Flatten(b)
    decreases |a|
  {
    if a == [] {
      assert a + b == b;
    } else {
      assert (a + b)[1..] == a[1..] + b;
      FlattenJoins(a[1..], b);
    }
  }

  lemma FlattenEnd(parts: seq<seq<Argv>>)
    requires parts != []
    ensures Flatten(parts) == Flatten(Front(parts)) + End(parts)
  {
    assert parts == Front(parts) + [End(parts)];
    FlattenJoins(Front(parts), [End(parts)]);
    assert Flatten([End(parts)]) == End(parts) + Flatten([]);
  }

  /** A log that stops a start-up: missing, broken in the middle, or torn without being the last. */
  predicate Unusable(files: map<Name, File>, name: Name, last: bool) {
    || name !in files || !files[name].Incr?
    || Drain(files[name].bytes).broken || (Drain(files[name].bytes).rest != [] && !last)
  }

  lemma {:induction false} ReplayIff(files: map<Name, File>, incrs: seq<Name>, data: Dataset)
    ensures var r := Replay(files, incrs, data);
      && (r.None? <==> exists i :: 0 <= i < |incrs| && Unusable(files, incrs[i], i == |incrs| - 1))
      && (r.Some? ==> r.value == data + Flatten(DrainParts(files, incrs)))
    decreases |incrs|
  {
    hide Drain;
    if incrs == [] {
      assert data + [] == data;
    } else {
      var name, rest := incrs[0], incrs[1..];
      if !Unusable(files, name, |incrs| == 1) {
        var cmds := Drain(files[name].bytes).cmds;
        ReplayIff(files, rest, data + cmds);
        forall i | 0 <= i < |rest|
          ensures Unusable(files, rest[i], i == |rest| - 1) == Unusable(files, incrs[i + 1], i + 1 == |incrs| - 1)
        {
        }
        assert DrainParts(files, incrs)[1..] == DrainParts(files, rest) && DrainParts(files, incrs)[0] == cmds;
        assert data + cmds + Flatten(DrainParts(files, rest)) == data + (cmds + Flatten(DrainParts(files, rest)));
      }
    }
  }

  /**
   A start-up fails if and only if there is no log, the base is missing, or some log is unusable;
   otherwise it serves the base and then every log's whole commands in order.
   */
  lemma RecoverIff(disk: Disk)
    ensures var m, r := disk.manifest, Recover(disk);
      && (r.None? <==>
          || m.incrs == [] || (m.base.Some? && (m.base.value !in disk.files || !disk.files[m.base.value].Base?))
          || exists i :: 0 <= i < |m.incrs| && Unusable(disk.files, m.incrs[i], i == |m.incrs| - 1))
      && (r.Some? ==> r.value == BaseImage(disk, m) + Flatten(DrainParts(disk.files, m.incrs)))
  {
    hide Unusable, DrainParts, Flatten;
    ReplayIff(disk.files, disk.manifest.incrs, BaseImage(disk, disk.manifest));
  }

  lemma SealedReplays(part: seq<Argv>)
    requires AllPrintable(part)
    ensures Drain(EncodeAll(part)) == Drained(part, [], false)
  {
    var log := EncodeAll(part);
    TornLogReplaysLongestPrefix(part, |log|);
    WholeCommandsIsLongest(part, |log|);
    assert log[..|log|] == log && part[..|part|] == part;
  }

  /** The disk holds `parts`, all logs sealed but the last, which is cut after `k` bytes. */
  predicate Holds(files: map<Name, File>, incrs: seq<Name>, parts: seq<seq<Argv>>, k: nat) {
    && |incrs| == |parts| > 0
    && (forall i :: 0 <= i < |parts| ==> AllPrintable(parts[i]))
    && (forall i :: 0 <= i < |parts| - 1 ==> Sealed(files, incrs[i], parts[i]))
    && k <= |EncodeAll(End(parts))| && End(incrs) in files && files[End(incrs)].Incr?
    && files[End(incrs)].bytes == EncodeAll(End(parts))[..k]
  }

  /** Sealed logs, then one cut anywhere: what replay makes of them. */
  lemma {:induction false} ReplayOf(files: map<Name, File>, incrs: seq<Name>, parts: seq<seq<Argv>>, k: nat, data: Dataset)
    requires Holds(files, incrs, parts, k)
    ensures Replay(files, incrs, data)
         == Some(data + Flatten(Front(parts)) + End(parts)[..WholeCommands(End(parts), k)])
    decreases |incrs|
  {
    hide Drain, WholeCommands;
    if |incrs| == 1 {
      TornLogReplaysLongestPrefix(parts[0], k);
      assert Flatten(Front(parts)) == [];
      assert incrs[1..] == [];
      assert data + [] == data;
    } else {
      assert Sealed(files, incrs[0], parts[0]);
      SealedReplays(parts[0]);
      assert Front(parts)[0] == parts[0] && Front(parts)[1..] == Front(parts[1..]);
      ReplayOf(files, incrs[1..], parts[1..], k, data + parts[0]);
      assert data + parts[0] + Flatten(Front(parts[1..])) == data + Flatten(Front(parts));
    }
  }

  /** The last log's commands that survive a crash cut at `cut`. */
  function Kept(s: State, cut: map<Name, nat>): (n: nat)
    requires s.manifest.incrs != [] && s.parts != []
  {
    WholeCommands(End(s.parts), if End(s.manifest.incrs) in cut then cut[End(s.manifest.incrs)] else 0)
  }

  lemma CutDisk(s: State, cut: map<Name, nat>)
    requires Inv(s) && CutOk(s.disk, cut)
    ensures var d, last := AfterCrash(s.disk, cut), End(s.manifest.incrs);
      && d.manifest == s.manifest && last in cut && cut[last] <= |EncodeAll(End(s.parts))|
      && last in d.files && d.files[last] == Incr(EncodeAll(End(s.parts))[..cut[last]], cut[last])
      && s.disk.files[last].synced <= cut[last] && Holds(d.files, s.manifest.incrs, s.parts, cut[last])
      && (s.manifest.base.Some? ==> s.manifest.base.value in d.files && d.files[s.manifest.base.value].Base?)
      && BaseImage(d, s.manifest) == BaseImage(s.disk, s.manifest)
  {
    var last := End(s.manifest.incrs);
    var f := s.disk.files[last];
    assert EncodeAll(End(s.parts))[..cut[last]] == f.bytes[..cut[last]];
    forall i | 0 <= i < |s.parts| - 1
      ensures Sealed(AfterCrash(s.disk, cut).files, s.manifest.incrs[i], s.parts[i])
    {
      assert Sealed(s.disk.files, s.manifest.incrs[i], s.parts[i]);
      var name := s.manifest.incrs[i];
      assert s.disk.files[name].bytes[..cut[name]] == s.disk.files[name].bytes;
    }
  }

  lemma {:induction false} WholeCommandsGrows(cmds: seq<Argv>, j: nat, k: nat)
    requires j <= k
    ensures WholeCommands(cmds, j) <= WholeCommands(cmds, k)
    decreases |cmds|
  {
    if cmds != [] && j >= |Encode(cmds[0])| {
      WholeCommandsGrows(cmds[1..], j - |Encode(cmds[0])|, k - |Encode(cmds[0])|);
    }
  }

  lemma CrashReplays(s: State, cut: map<Name, nat>)
    requires Inv(s) && CutOk(s.disk, cut)
    ensures Recover(AfterCrash(s.disk, cut))
         == Some(BaseImage(s.disk, s.manifest) + Flatten(Front(s.parts)) + End(s.parts)[..Kept(s, cut)])
  {
    CutDisk(s, cut);
    var d, last := AfterCrash(s.disk, cut), End(s.manifest.incrs);
    hide Replay, Appending, Sealed, CutOk;
    ReplayOf(d.files, s.manifest.incrs, s.parts, cut[last], BaseImage(s.disk, s.manifest));
  }

  lemma ThreeParts<T>(a: seq<T>, b: seq<T>, c: seq<T>, k: nat)
    requires k <= |c|
    ensures (a + (b + c))[..|a| + |b| + k] == a + b + c[..k]
  {
  }

  /** How many of the served commands are there again after a crash cut at `cut`. */
  function KeptCount(s: State, cut: map<Name, nat>): (n: nat)
    requires s.manifest.incrs != [] && s.parts != []
  {
    |BaseImage(s.disk, s.manifest)| + |Flatten(Front(s.parts))| + Kept(s, cut)
  }

  lemma KeptBounds(s: State, cut: map<Name, nat>)
    requires Inv(s) && CutOk(s.disk, cut)
    ensures SyncedCount(s) <= KeptCount(s, cut) <= |Served(s)|
  {
    CutDisk(s, cut);
    hide Settled, Appending, AfterCrash, CutOk, BaseImage, Flatten, Sealed;
    var last := End(s.manifest.incrs);
    WholeCommandsGrows(End(s.parts), s.disk.files[last].synced, cut[last]);
    FlattenEnd(s.parts);
  }

  /**
   A crash at this point, whatever unsynced bytes it loses, starts up again with a
   prefix of the served commands that contains every synced one.
   */
  lemma CrashRecoversPrefix(s: State, cut: map<Name, nat>)
    requires Inv(s) && CutOk(s.disk, cut)
    ensures SyncedCount(s) <= KeptCount(s, cut) <= |Served(s)|
    ensures Recover(AfterCrash(s.disk, cut)) == Some(Served(s)[..KeptCount(s, cut)])
  {
    KeptBounds(s, cut);
    CrashReplays(s, cut);
    FlattenEnd(s.parts);
    ThreeParts(BaseImage(s.disk, s.manifest), Flatten(Front(s.parts)), End(s.parts), Kept(s, cut));
    hide Settled, Appending, Recover, AfterCrash, CutOk, BaseImage, Flatten, WholeCommands, SyncedCount;
  }

  // --- every step keeps the invariant ------------------------------------------------------

  lemma FeedAppends(s: State, argv: Argv)
    requires Inv(s) && Enabled(s, Feed(argv))
    ensures Appending(Next(s, Feed(argv)))
  {
    hide Settled, Encode;
    var s' := Next(s, Feed(argv));
    EncodeAllJoins(End(s.parts), [argv]);
    assert EncodeAll([argv]) == Encode(argv) + EncodeAll([]);
    assert End(s'.parts) == End(s.parts) + [argv];
    var f := s.disk.files[End(s.manifest.incrs)];
    assert f.bytes + (s.buf + Encode(argv)) == f.bytes + s.buf + Encode(argv);
    assert s.buf[0..] == s.buf && s'.buf[0..] == s'.buf;
  }

  lemma FeedSettled(s: State, argv: Argv)
    requires Inv(s) && Enabled(s, Feed(argv))
    ensures Settled(Next(s, Feed(argv))) && Served(Next(s, Feed(argv))) == Served(s) + [argv]
  {
    hide Appending, Encode;
    var s' := Next(s, Feed(argv));
    assert Front(s'.parts) == Front(s.parts) && End(s'.parts) == End(s.parts) + [argv];
    FlattenEnd(s.parts);
    FlattenEnd(s'.parts);
    hide Flatten;
    assert Served(s') == Served(s) + [argv];
  }

  /** Writing, truncating and syncing change only how the current log is spread over buffer and disk. */
  lemma WriteSpreads(log: Bytes, f: File, buf: Bytes, incrBytes: nat, fsyncing: Option<nat>, k: nat)
    requires Spread(log, f, buf, incrBytes, 0, fsyncing) && k <= |buf|
    ensures Spread(log, Incr(f.bytes + buf[..k], f.synced), buf, incrBytes, k, fsyncing)
  {
    assert buf[0..] == buf[..k] + buf[k..];
    assert f.bytes + buf[..k] + buf[k..] == f.bytes + buf[0..];
  }

  lemma SettleSpreads(log: Bytes, f: File, buf: Bytes, incrBytes: nat, pending: nat, fsyncing: Option<nat>)
    requires Spread(log, f, buf, incrBytes, pending, fsyncing)
    ensures Spread(log, Incr(f.bytes[..incrBytes], f.synced), buf, incrBytes, 0, fsyncing)
    ensures Spread(log, f, buf[pending..], incrBytes + pending, 0, fsyncing)
    ensures pending == |buf| ==> Spread(log, f, [], incrBytes + pending, 0, fsyncing)
  {
    assert buf == buf[..pending] + buf[pending..];
    assert f.bytes == f.bytes[..incrBytes] + buf[..pending];
    assert f.bytes[..incrBytes] + buf == f.bytes + buf[pending..];
    assert buf[0..] == buf && buf[pending..][0..] == buf[pending..];
  }

  lemma LogAppends(s: State, step: Step)
    requires Inv(s) && Enabled(s, step)
    requires IsLog(step)
    ensures Appending(Next(s, step))
  {
    hide Settled, EncodeAll;
    var log, f := EncodeAll(End(s.parts)), s.disk.files[End(s.manifest.incrs)];
    if step.Write? {
      WriteSpreads(log, f, s.buf, s.incrBytes, s.fsyncing, step.k);
    } else if step.WriteDone? || step.Truncate? {
      SettleSpreads(log, f, s.buf, s.incrBytes, s.pending, s.fsyncing);
      hide Spread;
    }
  }

  predicate IsLog(step: Step) {
    step.Write? || step.WriteDone? || step.Truncate? || step.SyncStart? || step.SyncEnd? || step.SyncNow?
  }

  /** Writing and syncing touch the last log only, and never take back what is synced. */
  lemma LogTouches(s: State, step: Step)
    requires Enabled(s, step) && IsLog(step)
    ensures var s', last := Next(s, step), End(s.manifest.incrs);
      && s' == s.(disk := s'.disk, buf := s'.buf, incrBytes := s'.incrBytes, pending := s'.pending, fsyncing := s'.fsyncing)
      && last in s'.disk.files && s'.disk == s.disk.(files := s.disk.files[last := s'.disk.files[last]])
      && s'.disk.files[last].Incr?
      && (s.disk.files[last].synced <= |s.disk.files[last].bytes| ==> s.disk.files[last].synced <= s'.disk.files[last].synced)
  {
    var s', last := Next(s, step), End(s.manifest.incrs);
    assert s'.disk.files == s.disk.files[last := s'.disk.files[last]];
  }

  lemma LogSettled(s: State, step: Step)
    requires Inv(s) && Enabled(s, step) && IsLog(step)
    ensures Settled(Next(s, step)) && Served(Next(s, step)) == Served(s)
  {
    hide EncodeAll, Flatten, AllPrintable, Next, Appending, Sealed;
    LogTouches(s, step);
    var s', last := Next(s, step), End(s.manifest.incrs);
    forall i | 0 <= i < |s.parts| - 1
      ensures Sealed(s'.disk.files, s.manifest.incrs[i], s.parts[i])
    {
      assert Sealed(s.disk.files, s.manifest.incrs[i], s.parts[i]) && s.manifest.incrs[i] != last;
      SealedStill(s.disk.files, s'.disk.files, s.manifest.incrs[i], s.parts[i]);
    }
  }

  lemma SealedStill(files: map<Name, File>, files': map<Name, File>, name: Name, part: seq<Argv>)
    requires Sealed(files, name, part) && (name in files ==> name in files' && files'[name] == files[name])
    ensures Sealed(files', name, part)
  {
  }

  /** Files the manifest does not name can come and go. */
  lemma ScratchKeeps(s: State, name: Name, file: Option<File>)
    requires Inv(s) && Enabled(s, Scratch(name, file))
    ensures Inv(Next(s, Scratch(name, file))) && Served(Next(s, Scratch(name, file))) == Served(s)
    ensures SyncedCount(Next(s, Scratch(name, file))) == SyncedCount(s)
  {
    hide EncodeAll, Flatten, AllPrintable, WholeCommands;
    var s' := Next(s, Scratch(name, file));
    assert End(s.manifest.incrs) in s.manifest.incrs;
    forall i | 0 <= i < |s.parts| - 1
      ensures Sealed(s'.disk.files, s.manifest.incrs[i], s.parts[i])
    {
      assert Sealed(s.disk.files, s.manifest.incrs[i], s.parts[i]);
    }
  }

  /** With the buffer empty and synced, the current log is sealed. */
  lemma SyncedIsSealed(s: State)
    requires Inv(s) && s.buf == [] && SyncedBytes(s) == s.incrBytes
    ensures Sealed(s.disk.files, End(s.manifest.incrs), End(s.parts))
  {
    hide EncodeAll, Sealed, Flatten;
    var f := s.disk.files[End(s.manifest.incrs)];
    assert f.bytes + s.buf[0..] == f.bytes;
    SealedBy(s.disk.files, End(s.manifest.incrs), End(s.parts));
  }

  lemma SealedBy(files: map<Name, File>, name: Name, part: seq<Argv>)
    requires name in files && files[name].Incr? && files[name].bytes == EncodeAll(part)
    requires files[name].synced == |files[name].bytes|
    ensures Sealed(files, name, part)
  {
  }

  lemma CommitIncrKeeps(s: State, forked: bool)
    requires Inv(s) && Enabled(s, CommitIncr(forked))
    ensures Inv(Next(s, CommitIncr(forked)))
  {
    hide Settled, Appending, Next, Enabled;
    CommitIncrSettled(s, forked);
    CommitIncrAppending(s, forked);
  }

  lemma CommitIncrAppending(s: State, forked: bool)
    requires Inv(s) && Enabled(s, CommitIncr(forked))
    ensures Appending(Next(s, CommitIncr(forked)))
  {
    hide Settled, Flatten, AllPrintable, EncodeAll;
    EmptyPrintable();
  }

  lemma CommitIncrSettled(s: State, forked: bool)
    requires Inv(s) && Enabled(s, CommitIncr(forked))
    ensures Settled(Next(s, CommitIncr(forked)))
  {
    hide Flatten, AllPrintable, EncodeAll, Sealed;
    var s' := Next(s, CommitIncr(forked));
    SyncedIsSealed(s);
    assert Front(s'.parts) == s.parts && End(s'.parts) == [];
    EmptyPrintable();
    forall i | 0 <= i < |s'.parts| - 1
      ensures Sealed(s'.disk.files, s'.manifest.incrs[i], s'.parts[i])
    {
      if i < |s.parts| - 1 {
        assert Sealed(s.disk.files, s.manifest.incrs[i], s.parts[i]);
      }
    }
  }

  lemma EmptyPrintable()
    ensures AllPrintable([]) && EncodeAll([]) == []
  {
  }

  lemma CommitIncrServes(s: State, forked: bool)
    requires Inv(s) && Enabled(s, CommitIncr(forked))
    ensures Served(Next(s, CommitIncr(forked))) == Served(s)
    ensures SyncedCount(Next(s, CommitIncr(forked))) == |Served(s)|
  {
    hide Settled, Appending;
    var s' := Next(s, CommitIncr(forked));
    assert Front(s'.parts) == s.parts && End(s'.parts) == [];
    FlattenEnd(s'.parts);
  }

  lemma CommitBaseParts(s: State)
    requires Inv(s) && Enabled(s, CommitBase)
    ensures var s' := Next(s, CommitBase);
      && s'.parts == [End(s.parts)] && SyncedBytes(s') == SyncedBytes(s)
      && BaseImage(s'.disk, s'.manifest) == BaseImage(s.disk, s.manifest) + Flatten(Front(s.parts))
  {
    hide Flatten, AllPrintable, EncodeAll, WholeCommands, Sealed, Spread;
  }

  lemma CommitBaseSettled(s: State)
    requires Inv(s) && Enabled(s, CommitBase)
    ensures Inv(Next(s, CommitBase))
  {
    hide Flatten, AllPrintable, EncodeAll, WholeCommands, Sealed, Spread;
  }

  lemma CommitBaseKeeps(s: State)
    requires Inv(s) && Enabled(s, CommitBase)
    ensures Inv(Next(s, CommitBase)) && Served(Next(s, CommitBase)) == Served(s)
    ensures SyncedCount(Next(s, CommitBase)) == SyncedCount(s)
  {
    hide Flatten, Settled, Appending, Next, WholeCommands, SyncedBytes, BaseImage;
    CommitBaseSettled(s);
    CommitBaseParts(s);
    OneServes(BaseImage(s.disk, s.manifest), s.parts);
  }

  /** A base that has all the parts but the last takes their place. */
  lemma OneServes(image: Dataset, parts: seq<seq<Argv>>)
    requires parts != []
    ensures image + Flatten(parts) == image + Flatten(Front(parts)) + Flatten([End(parts)])
    ensures Front([End(parts)]) == [] && Flatten(Front([End(parts)])) == [] && End([End(parts)]) == End(parts)
  {
    FlattenEnd(parts);
    assert Flatten([End(parts)]) == End(parts) + Flatten([]);
  }

  lemma CommitResetKeeps(s: State, data: Dataset)
    requires Inv(s) && Enabled(s, CommitReset(data))
    ensures Inv(Next(s, CommitReset(data))) && Served(Next(s, CommitReset(data))) == data
    ensures SyncedCount(Next(s, CommitReset(data))) == |data|
  {
    var s' := Next(s, CommitReset(data));
    assert Front(s'.parts) == [] && Flatten(s'.parts) == [] + Flatten([]);
  }

  lemma DrainedParts(files: map<Name, File>, incrs: seq<Name>, parts: seq<seq<Argv>>, k: nat)
    requires Holds(files, incrs, parts, k)
    ensures DrainParts(files, incrs) == Front(parts) + [End(parts)[..WholeCommands(End(parts), k)]]
  {
    hide Drain, EncodeAll, WholeCommands;
    var drained := DrainParts(files, incrs);
    forall i | 0 <= i < |parts| - 1
      ensures drained[i] == parts[i]
    {
      assert Sealed(files, incrs[i], parts[i]);
      SealedReplays(parts[i]);
    }
    TornLogReplaysLongestPrefix(End(parts), k);
    assert drained == Front(parts) + [End(parts)[..WholeCommands(End(parts), k)]];
  }

  /** Cutting off the torn tail leaves exactly the kept commands in the file. */
  lemma TruncatedLog(part: seq<Argv>, k: nat)
    requires AllPrintable(part) && k <= |EncodeAll(part)|
    ensures var n, bytes := WholeCommands(part, k), EncodeAll(part)[..k];
      var log := EncodeAll(part[..n]);
      && |Drain(bytes).rest| <= |bytes| && bytes[..|bytes| - |Drain(bytes).rest|] == log
      && WholeCommands(part[..n], |log|) == n
  {
    hide Drain, EncodeAll, WholeCommands, AllPrintable;
    var n := WholeCommands(part, k);
    TornLogReplaysLongestPrefix(part, k);
    assert part == part[..n] + part[n..];
    EncodeAllJoins(part[..n], part[n..]);
    WholeCommandsIsLongest(part[..n], |EncodeAll(part[..n])|);
    assert EncodeAll(part)[..k][..|EncodeAll(part[..n])|] == EncodeAll(part[..n]);
  }

  lemma NextSeqIsNew(m: Manifest, n: nat)
    requires NamesOk(m, n)
    ensures NamesOk(m, NextSeq(m))
  {
    hide NextSeq;
    forall i | 0 <= i < |m.incrs|
      ensures m.incrs[i].n < NextSeq(m)
    {
      assert Seq(m.incrs[i]) < NextSeq(m);
    }
  }

  /** Starting up from a disk that holds `parts` puts the log back in order. */
  lemma LoadedInv(disk: Disk, parts: seq<seq<Argv>>, k: nat, n: nat)
    requires Holds(disk.files, disk.manifest.incrs, parts, k) && NamesOk(disk.manifest, n)
    requires disk.manifest.base.Some? ==>
      disk.manifest.base.value in disk.files && disk.files[disk.manifest.base.value].Base?
    ensures Inv(Loaded(disk))
    ensures Loaded(disk).parts == Front(parts) + [End(parts)[..WholeCommands(End(parts), k)]]
    ensures SyncedBytes(Loaded(disk)) == |EncodeAll(End(Loaded(disk).parts))|
    ensures BaseImage(Loaded(disk).disk, disk.manifest) == BaseImage(disk, disk.manifest)
  {
    hide Drain, EncodeAll, WholeCommands, DrainParts, NextSeq, Flatten, AllPrintable;
    var s, incrs, last := Loaded(disk), disk.manifest.incrs, End(disk.manifest.incrs);
    DrainedParts(disk.files, incrs, parts, k);
    TruncatedLog(End(parts), k);
    NextSeqIsNew(disk.manifest, n);
    PrefixPrintable(End(parts), WholeCommands(End(parts), k));
    forall i | 0 <= i < |s.parts| - 1
      ensures Sealed(s.disk.files, incrs[i], s.parts[i])
    {
      assert Sealed(disk.files, incrs[i], parts[i]);
      assert incrs[i] != last;
    }
    assert s.disk.files[last].bytes + [] == s.disk.files[last].bytes;
  }

  lemma PrefixPrintable(part: seq<Argv>, n: nat)
    requires AllPrintable(part) && n <= |part|
    ensures AllPrintable(part[..n])
  {
  }

  lemma Shape(s: State)
    requires Inv(s)
    ensures s.manifest == s.disk.manifest && s.manifest.incrs != [] && |s.parts| == |s.manifest.incrs|
    ensures NamesOk(s.manifest, s.nextSeq)
  {
  }

  lemma LoadKeeps(s: State, cut: map<Name, nat>)
    requires Inv(s) && Enabled(s, CrashAndLoad(cut))
    ensures Inv(Next(s, CrashAndLoad(cut)))
    ensures Next(s, CrashAndLoad(cut)).parts == Front(s.parts) + [End(s.parts)[..Kept(s, cut)]]
    ensures SyncedBytes(Next(s, CrashAndLoad(cut))) == |EncodeAll(End(Next(s, CrashAndLoad(cut)).parts))|
    ensures BaseImage(Next(s, CrashAndLoad(cut)).disk, s.manifest) == BaseImage(s.disk, s.manifest)
    ensures Next(s, CrashAndLoad(cut)).manifest == s.manifest
  {
    hide AfterCrash, BaseImage, Holds, EncodeAll, WholeCommands, Settled, Appending, SyncedBytes, CutOk, NamesOk;
    Shape(s);
    CutDisk(s, cut);
    LoadedInv(AfterCrash(s.disk, cut), s.parts, cut[End(s.manifest.incrs)], s.nextSeq);
  }

  lemma PrefixServed(image: Dataset, parts: seq<seq<Argv>>, parts': seq<seq<Argv>>, n: nat)
    requires parts != [] && n <= |End(parts)| && parts' == Front(parts) + [End(parts)[..n]]
    ensures Front(parts') == Front(parts) && End(parts') == End(parts)[..n]
    ensures |image| + |Flatten(Front(parts))| + n <= |image + Flatten(parts)|
    ensures image + Flatten(parts') == (image + Flatten(parts))[..|image| + |Flatten(Front(parts))| + n]
  {
    hide Flatten;
    FlattenEnd(parts);
    FlattenEnd(parts');
    ThreeParts(image, Flatten(Front(parts)), End(parts), n);
  }

  lemma WholeLog(part: seq<Argv>)
    ensures WholeCommands(part, |EncodeAll(part)|) == |part|
  {
    WholeCommandsIsLongest(part, |EncodeAll(part)|);
  }

  lemma LoadServes(s: State, cut: map<Name, nat>)
    requires Inv(s) && Enabled(s, CrashAndLoad(cut))
    ensures KeptCount(s, cut) <= |Served(s)|
    ensures Served(Next(s, CrashAndLoad(cut))) == Served(s)[..KeptCount(s, cut)]
    ensures SyncedCount(Next(s, CrashAndLoad(cut))) == KeptCount(s, cut)
  {
    hide Next, Settled, Appending, BaseImage, EncodeAll, Flatten, SyncedBytes, WholeCommands;
    LoadKeeps(s, cut);
    var s' := Next(s, CrashAndLoad(cut));
    PrefixServed(BaseImage(s.disk, s.manifest), s.parts, s'.parts, Kept(s, cut));
    WholeLog(End(s'.parts));
  }

  // --- every run -----------------------------------------------------------------------------

  lemma StepKeeps(s: State, step: Step)
    requires Inv(s) && Enabled(s, step)
    ensures Inv(Next(s, step))
  {
    hide Settled, Appending, Enabled, Next;
    match step
    case Feed(argv) => FeedAppends(s, argv); FeedSettled(s, argv);
    case Scratch(name, file) => ScratchKeeps(s, name, file);
    case CommitIncr(forked) => CommitIncrKeeps(s, forked);
    case ChildGone => ChildGoneKeeps(s);
    case CommitBase => CommitBaseKeeps(s);
    case CommitReset(data) => CommitResetKeeps(s, data);
    case CrashAndLoad(cut) => LoadKeeps(s, cut);
    case _ => LogAppends(s, step); LogSettled(s, step);
  }

  lemma ChildGoneKeeps(s: State)
    requires Inv(s) && Enabled(s, ChildGone)
    ensures Inv(Next(s, ChildGone)) && Served(Next(s, ChildGone)) == Served(s)
    ensures SyncedCount(Next(s, ChildGone)) == SyncedCount(s)
  {
  }

  /** What each step does to the served dataset. */
  lemma StepServes(s: State, step: Step)
    requires Inv(s) && Enabled(s, step)
    ensures match step
      case Feed(argv) => Served(Next(s, step)) == Served(s) + [argv]
      case CommitReset(data) => Served(Next(s, step)) == data
      case CrashAndLoad(cut) => KeptCount(s, cut) <= |Served(s)| && Served(Next(s, step)) == Served(s)[..KeptCount(s, cut)]
      case _ => Served(Next(s, step)) == Served(s)
  {
    hide Settled, Appending, Enabled, Next, Served;
    match step
    case Feed(argv) => FeedSettled(s, argv);
    case Scratch(name, file) => ScratchKeeps(s, name, file);
    case CommitIncr(forked) => CommitIncrServes(s, forked);
    case ChildGone => ChildGoneKeeps(s);
    case CommitBase => CommitBaseKeeps(s);
    case CommitReset(data) => CommitResetKeeps(s, data);
    case CrashAndLoad(cut) => LoadServes(s, cut);
    case _ => LogSettled(s, step);
  }

  /** What was once synced stays synced, until the dataset is replaced. */
  lemma SyncedStays(s: State, step: Step)
    requires Inv(s) && Enabled(s, step) && !step.CommitReset?
    ensures SyncedCount(s) <= SyncedCount(Next(s, step))
  {
    hide Settled, Appending, Next, Enabled;
    match step
    case Feed(argv) => FeedSyncs(s, argv);
    case Scratch(name, file) => ScratchKeeps(s, name, file);
    case CommitIncr(forked) => CommitIncrServes(s, forked); SyncedIsServed(s);
    case ChildGone => ChildGoneKeeps(s);
    case CommitBase => CommitBaseKeeps(s);
    case CrashAndLoad(cut) => LoadServes(s, cut); CutIsLegal(s, cut); KeptBounds(s, cut);
    case _ => LogSyncs(s, step);
  }

  lemma CutIsLegal(s: State, cut: map<Name, nat>)
    requires Enabled(s, CrashAndLoad(cut))
    ensures CutOk(s.disk, cut)
  {
  }

  lemma SyncedIsServed(s: State)
    requires Inv(s)
    ensures SyncedCount(s) <= |Served(s)|
  {
    FlattenEnd(s.parts);
    hide Appending, BaseImage, SyncedBytes, Flatten, WholeCommands;
  }

  lemma {:induction false} WholeOfMore(a: seq<Argv>, b: seq<Argv>, k: nat)
    ensures WholeCommands(a, k) <= WholeCommands(a + b, k)
    decreases |a|
  {
    if a != [] && k >= |Encode(a[0])| {
      assert (a + b)[1..] == a[1..] + b;
      WholeOfMore(a[1..], b, k - |Encode(a[0])|);
    }
  }

  lemma FeedSyncs(s: State, argv: Argv)
    requires Inv(s) && Enabled(s, Feed(argv))
    ensures SyncedCount(s) <= SyncedCount(Next(s, Feed(argv)))
  {
    hide Settled, Appending, WholeCommands, Flatten;
    var s' := Next(s, Feed(argv));
    assert Front(s'.parts) == Front(s.parts) && End(s'.parts) == End(s.parts) + [argv];
    WholeOfMore(End(s.parts), [argv], SyncedBytes(s));
  }

  lemma LogSyncs(s: State, step: Step)
    requires Inv(s) && Enabled(s, step)
    requires IsLog(step)
    ensures SyncedCount(s) <= SyncedCount(Next(s, step))
  {
    hide WholeCommands, Flatten, Next, Settled, EncodeAll;
    Shape(s);
    LogTouches(s, step);
    SyncedWithin(s);
    LogKeepsBase(s, step);
    WholeCommandsGrows(End(s.parts), SyncedBytes(s), SyncedBytes(Next(s, step)));
  }

  lemma SyncedWithin(s: State)
    requires Inv(s)
    ensures End(s.manifest.incrs) in s.disk.files && s.disk.files[End(s.manifest.incrs)].Incr?
    ensures s.disk.files[End(s.manifest.incrs)].synced <= |s.disk.files[End(s.manifest.incrs)].bytes|
  {
  }

  lemma LogKeepsBase(s: State, step: Step)
    requires Inv(s) && Enabled(s, step) && IsLog(step)
    ensures BaseImage(Next(s, step).disk, s.manifest) == BaseImage(s.disk, s.manifest)
  {
    hide EncodeAll, Flatten, AllPrintable, Next, Appending, Sealed;
    LogTouches(s, step);
  }

  /**
   A background fsync that ends well covers everything that had been written when it began,
   whatever was fed and written meanwhile.
   */
  lemma BackgroundSyncCovers(states: seq<State>, steps: seq<Step>, i: nat, j: nat)
    requires IsRun(states, steps) && i < j < |steps| && steps[i] == SyncStart && steps[j] == SyncEnd(true)
    requires forall k :: i < k < j ==> !steps[k].SyncEnd? && !steps[k].CrashAndLoad?
    ensures SyncedBytes(states[j + 1]) >= states[i].incrBytes
  {
    InFlight(states, steps, i, j);
    assert Enabled(states[j], steps[j]) && states[j + 1] == Next(states[j], steps[j]);
  }

  lemma {:induction false} InFlight(states: seq<State>, steps: seq<Step>, i: nat, j: nat)
    requires IsRun(states, steps) && i < j < |states| && steps[i] == SyncStart
    requires forall k :: i < k < j ==> !steps[k].SyncEnd? && !steps[k].CrashAndLoad?
    ensures states[j].fsyncing == Some(states[i].incrBytes)
    decreases j
  {
    assert Enabled(states[j - 1], steps[j - 1]) && states[j] == Next(states[j - 1], steps[j - 1]);
    if i < j - 1 {
      InFlight(states, steps, i, j - 1);
    }
  }

  /** create(): a fresh log whose base is the current dataset. */
  function Created(data: Dataset): (s: State) {
    var m := Manifest(Some(BaseName(1)), [IncrName(2)]);
    State(Disk(map[BaseName(1) := Base(data), IncrName(2) := Incr([], 0)], m), m, 3, [], 0, 0, None, None, [[]])
  }

  predicate Init(s: State) {
    s == Created(BaseImage(s.disk, s.manifest))
  }

  lemma CreatedInv(data: Dataset)
    ensures Inv(Created(data)) && Served(Created(data)) == data
  {
    assert Flatten([[]]) == [] + Flatten([]);
  }

  predicate IsRun(states: seq<State>, steps: seq<Step>) {
    && |states| == |steps| + 1
    && Init(states[0])
    && forall i :: 0 <= i < |steps| ==> Enabled(states[i], steps[i]) && states[i + 1] == Next(states[i], steps[i])
  }

  lemma {:induction false} RunHolds(states: seq<State>, steps: seq<Step>, i: nat)
    requires IsRun(states, steps) && i < |states|
    ensures Inv(states[i])
  {
    hide Enabled, Next, Settled, Appending;
    if i == 0 {
      CreatedInv(BaseImage(states[0].disk, states[0].manifest));
    } else {
      RunHolds(states, steps, i - 1);
      StepKeeps(states[i - 1], steps[i - 1]);
    }
  }

  /**
   Crash recovery over every run: losing power in any reachable state, start-up
   succeeds and yields a prefix of the served commands that contains everything
   synced by then.
   */
  lemma EveryCrashRecovers(states: seq<State>, steps: seq<Step>, i: nat, cut: map<Name, nat>)
    requires IsRun(states, steps) && i < |states| && CutOk(states[i].disk, cut)
    ensures exists n ::
      && SyncedCount(states[i]) <= n <= |Served(states[i])|
      && Recover(AfterCrash(states[i].disk, cut)) == Some(Served(states[i])[..n])
  {
    RunHolds(states, steps, i);
    CrashRecoversPrefix(states[i], cut);
    hide Recover, AfterCrash, Served, SyncedCount, IsRun, Inv;
  }

  /** What a sync has covered is still served after any step but a reset, a crash included. */
  lemma SyncedStillServed(s: State, step: Step)
    requires Inv(s) && Enabled(s, step) && !step.CommitReset?
    ensures SyncedCount(s) <= |Served(s)| && Served(s)[..SyncedCount(s)] <= Served(Next(s, step))
  {
    SyncedIsServed(s);
    StepServes(s, step);
    if step.CrashAndLoad? {
      assert CutOk(s.disk, step.cut);
      CrashRecoversPrefix(s, step.cut);
    }
    hide Inv, Next, Enabled, Served, SyncedCount, Recover, AfterCrash;
  }

  /** Whatever was synced at some point is served, in the same order, for the rest of the run up to a reset. */
  lemma {:induction false} SyncedSurvives(states: seq<State>, steps: seq<Step>, i: nat, j: nat)
    requires IsRun(states, steps) && i <= j <= |steps| && |states| == |steps| + 1
    requires forall k :: i <= k < j ==> !steps[k].CommitReset?
    ensures Inv(states[j]) && SyncedCount(states[i]) <= SyncedCount(states[j]) <= |Served(states[j])|
    ensures SyncedCount(states[i]) <= |Served(states[i])|
    ensures Served(states[i])[..SyncedCount(states[i])] <= Served(states[j])
    decreases j
  {
    hide IsRun, Enabled, Next, Inv, Served, SyncedCount;
    RunHolds(states, steps, j);
    SyncedIsServed(states[j]);
    if i < j {
      SyncedSurvives(states, steps, i, j - 1);
      RunStep(states, steps, j - 1);
      SyncedStays(states[j - 1], steps[j - 1]);
      SyncedStillServed(states[j - 1], steps[j - 1]);
      var n, m := SyncedCount(states[i]), SyncedCount(states[j - 1]);
      assert Served(states[j - 1])[..m][..n] == Served(states[j - 1])[..n];
    }
  }

  lemma RunStep(states: seq<State>, steps: seq<Step>, i: nat)
    requires IsRun(states, steps) && i < |steps|
    ensures |states| == |steps| + 1 && Enabled(states[i], steps[i]) && states[i + 1] == Next(states[i], steps[i])
  {
  }

  /** flush_and_sync() that succeeds covers every command fed before it. */
  lemma FlushAndSyncCoversAll(s: State)
    requires Inv(s) && Enabled(s, SyncNow) && s.buf == []
    ensures SyncedCount(Next(s, SyncNow)) == |Served(s)|
  {
    hide Flatten, WholeCommands, EncodeAll, Settled;
    var s' := Next(s, SyncNow);
    var f := s.disk.files[End(s.manifest.incrs)];
    assert f.bytes + s.buf[0..] == f.bytes;
    WholeLog(End(s.parts));
    FlattenEnd(s.parts);
  }

  /** Around a reset, a crash finds the old log or exactly the new dataset, never a mixture. */
  lemma ResetIsAtomic(s: State, data: Dataset, cut: map<Name, nat>)
    requires Inv(s) && Enabled(s, CommitReset(data)) && CutOk(Next(s, CommitReset(data)).disk, cut)
    ensures Recover(AfterCrash(Next(s, CommitReset(data)).disk, cut)) == Some(data)
  {
    hide Inv, Enabled, Next, CutOk, Recover, AfterCrash, Served, SyncedCount, KeptCount;
    CommitResetKeeps(s, data);
    CrashRecoversPrefix(Next(s, CommitReset(data)), cut);
    assert data[..|data|] == data;
  }
}
