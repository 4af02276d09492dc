/** The AppendOnlyFile object, method by method, as runs of the steps of module Aof. */
module AofFile {
  import opened Prelude
  import opened Resp
  import opened Aof
  import RespParser

  class AppendOnlyFile {
    var disk: Disk
    var manifest: Manifest       // base_ and incrs_
    var nextSeq: nat
    var buf: Bytes
    var incrBytes: nat
    ghost var child: Option<Dataset>
    ghost var parts: seq<seq<Argv>>

    /** The state between two calls: no write is half done, no fsync in flight. */
    ghost function View(): (s: State)
      reads this
    {
      State(disk, manifest, nextSeq, buf, incrBytes, 0, None, child, parts)
    }

    ghost predicate Valid()
      reads this
    {
      Inv(View())
    }

    constructor (data: Dataset)
      ensures Valid() && View() == Created(data)
    {
      var m := Manifest(Some(BaseName(1)), [IncrName(2)]);
      disk := Disk(map[BaseName(1) := Base(data), IncrName(2) := Incr([], 0)], m);
      manifest, nextSeq, buf, incrBytes := m, 3, [], 0;
      child, parts := None, [[]];
      new;
      CreatedInv(data);
    }

    method FeedCommand(argv: Argv)
      requires Valid() && Printable(argv)
      modifies this
      ensures Valid() && Served(View()) == old(Served(View())) + [argv]
      ensures View() == Next(old(View()), Feed(argv))
    {
      FeedAppends(View(), argv);
      FeedSettled(View(), argv);
      buf := buf + Encode(argv);
      parts := Front(parts) + [End(parts) + [argv]];
    }

    /**
     Writes the buffer to the current log. `written` is how far the write got and
     `truncated` whether a partial one could be cut back off.
     */
    method Flush(written: nat, truncated: bool) returns (ok: bool)
      requires Valid() && written <= |buf|
      modifies this
      ensures Valid() && ok == (written == |old(buf)|)
      ensures Served(View()) == old(Served(View()))
      ensures View() ==
        if written == 0 then old(View())
        else if ok then Next(Next(old(View()), Write(written)), WriteDone)
        else Next(Next(old(View()), Write(written)), Truncate(truncated))
    {
      hide Inv, Served, SyncedCount;
      NewNames();
      ghost var s := View();
      ok := written == |buf|;
      if written == 0 {
        return;
      }
      StepKeeps(s, Write(written));
      LogSettled(s, Write(written));
      ghost var t := Next(s, Write(written));
      ghost var step := if ok then WriteDone else Truncate(truncated);
      assert Enabled(t, step);
      StepKeeps(t, step);
      LogSettled(t, step);
      var last := End(manifest.incrs);
      var file := disk.files[last];
      var longer := Incr(file.bytes + buf[..written], file.synced);
      disk := disk.(files := disk.files[last := longer]);
      if ok {
        incrBytes := incrBytes + written;
        buf := [];
      } else if truncated {
        disk := disk.(files := disk.files[last := Incr(longer.bytes[..incrBytes], file.synced)]);
      } else {
        incrBytes := incrBytes + written;
        buf := buf[written..];
      }
    }

    /** Flushes and syncs whatever the policy; success covers every command fed so far. */
    method FlushAndSync(written: nat, truncated: bool, synced: bool) returns (ok: bool)
      requires Valid() && written <= |buf|
      modifies this
      ensures Valid() && Served(View()) == old(Served(View()))
      ensures ok == (written == |old(buf)| && synced)
      ensures ok ==> buf == [] && SyncedCount(View()) == |Served(View())| && SyncedBytes(View()) == incrBytes
      ensures child == old(child) && manifest == old(manifest) && nextSeq == old(nextSeq) && disk.files.Keys == old(disk.files.Keys)
    {
      hide Inv, Served, SyncedCount;
      NewNames();
      ok := Flush(written, truncated);
      NewNames();
      if !ok || !synced {
        return false;
      }
      ghost var s := View();
      FlushAndSyncCoversAll(s);
      StepKeeps(s, SyncNow);
      LogSettled(s, SyncNow);
      var last := End(manifest.incrs);
      var file := disk.files[last];
      disk := disk.(files := disk.files[last := file.(synced := |file.bytes|)]);
    }

    /** Creates, replaces or removes a file the manifest does not name. */
    method Touch(name: Name, file: Option<File>)
      requires Valid() && !Referenced(manifest, name)
      modifies this`disk
      ensures Valid() && Served(View()) == old(Served(View())) && SyncedCount(View()) == old(SyncedCount(View()))
      ensures SyncedBytes(View()) == old(SyncedBytes(View()))
      ensures disk == old(disk).(files := if file.Some? then old(disk).files[name := file.value] else old(disk).files - {name})
    {
      ScratchKeeps(View(), name, file);
      disk := disk.(files := if file.Some? then disk.files[name := file.value] else disk.files - {name});
    }

    /** unlink()s the files of `prev` that the manifest no longer names. */
    method Unlink(prev: Manifest)
      requires Valid()
      modifies this`disk
      ensures Valid() && Served(View()) == old(Served(View())) && SyncedCount(View()) == old(SyncedCount(View()))
      ensures disk.manifest == old(disk.manifest)
      ensures forall f :: f in disk.files <==> f in old(disk.files) && (Referenced(manifest, f) || !Referenced(prev, f))
    {
      hide Inv, Served, SyncedCount, SyncedBytes, View;
      if prev.base.Some? && !Referenced(manifest, prev.base.value) {
        Touch(prev.base.value, None);
      }
      for i := 0 to |prev.incrs|
        invariant Valid() && Served(View()) == old(Served(View())) && SyncedCount(View()) == old(SyncedCount(View()))
        invariant disk.manifest == old(disk.manifest)
        invariant forall f :: f in disk.files <==>
          f in old(disk.files) && (Referenced(manifest, f) || (prev.base != Some(f) && f !in prev.incrs[..i]))
      {
        if !Referenced(manifest, prev.incrs[i]) {
          Touch(prev.incrs[i], None);
        }
        assert prev.incrs[..i + 1] == prev.incrs[..i] + [prev.incrs[i]];
      }
      assert prev.incrs[..|prev.incrs|] == prev.incrs;
    }

    /** The manifest rename that makes the new log current. */
    method SwitchLog(forked: bool)
      requires Valid() && Enabled(View(), CommitIncr(forked))
      modifies this
      ensures Valid() && View() == Next(old(View()), CommitIncr(forked))
      ensures Served(View()) == old(Served(View())) && SyncedCount(View()) == |Served(View())|
    {
      hide Inv, Served, SyncedCount;
      NewNames();
      ghost var s := View();
      CommitIncrKeeps(s, forked);
      CommitIncrServes(s, forked);
      manifest := manifest.(incrs := manifest.incrs + [IncrName(nextSeq)]);
      disk := disk.(manifest := manifest);
      child := if forked then Some(Served(s)) else None;
      nextSeq, incrBytes, parts := nextSeq + 1, 0, parts + [[]];
    }

    /** The manifest rename that makes the child's snapshot the base. */
    method SwitchBase()
      requires Valid() && Enabled(View(), CommitBase)
      modifies this
      ensures Valid() && View() == Next(old(View()), CommitBase)
      ensures Served(View()) == old(Served(View())) && SyncedCount(View()) == old(SyncedCount(View()))
    {
      hide Inv, Served, SyncedCount;
      NewNames();
      CommitBaseKeeps(View());
      manifest := Manifest(Some(BaseName(nextSeq)), [End(manifest.incrs)]);
      disk := disk.(manifest := manifest);
      child, parts := None, [End(parts)];
      nextSeq := nextSeq + 1;
    }

    /** The manifest rename that replaces everything. */
    method SwitchDataset(ghost data: Dataset)
      requires Valid() && Enabled(View(), CommitReset(data))
      modifies this
      ensures Valid() && View() == Next(old(View()), CommitReset(data))
      ensures Served(View()) == data && SyncedCount(View()) == |data|
    {
      hide Inv, Served, SyncedCount;
      CommitResetKeeps(View(), data);
      manifest := Manifest(Some(BaseName(nextSeq)), [IncrName(nextSeq + 1)]);
      disk := disk.(manifest := manifest);
      nextSeq, buf, incrBytes, parts := nextSeq + 2, [], 0, [[]];
    }

    method DropChild()
      requires Valid() && child.Some?
      modifies this`child
      ensures Valid() && child.None?
      ensures Served(View()) == old(Served(View())) && SyncedCount(View()) == old(SyncedCount(View()))
      ensures SyncedBytes(View()) == old(SyncedBytes(View()))
    {
      ChildGoneKeeps(View());
      child := None;
    }

    /** Names not handed out yet are not in the manifest, and the manifest on disk is ours. */
    lemma NewNames()
      requires Valid()
      ensures disk.manifest == manifest && manifest.incrs != [] && parts != []
      ensures forall n :: n >= nextSeq ==> !Referenced(manifest, BaseName(n)) && !Referenced(manifest, IncrName(n))
      ensures !Referenced(manifest, TempName)
      ensures End(manifest.incrs) in disk.files && disk.files[End(manifest.incrs)].Incr?
      ensures |disk.files[End(manifest.incrs)].bytes| == incrBytes
      ensures Referenced(manifest, End(manifest.incrs))
    {
    }

    /**
     Rewrite, step 1: everything so far is made durable, then new writes go to a
     new log the manifest already names. `created`, `committed` and `forked` say
     whether the new file, the manifest rename and the fork succeeded.
     */
    method BeginRewrite(written: nat, truncated: bool, synced: bool, created: bool, committed: bool, forked: bool)
      returns (ok: bool)
      requires Valid() && child.None? && written <= |buf|
      modifies this
      ensures Valid() && Served(View()) == old(Served(View()))
      ensures ok == (written == |old(buf)| && synced && created && committed)
      ensures ok ==> SyncedCount(View()) == |Served(View())| && buf == []
      ensures child == if ok && forked then Some(Served(View())) else None
      ensures manifest == if ok then old(manifest).(incrs := old(manifest.incrs) + [IncrName(old(nextSeq))]) else old(manifest)
    {
      hide Inv, Served, SyncedCount;
      ok := FlushAndSync(written, truncated, synced);
      if !ok || !created {
        return false;
      }
      NewNames();
      var name := IncrName(nextSeq);
      Touch(name, Some(Incr([], 0)));
      if !committed {
        Touch(name, None);
        return false;
      }
      NewNames();
      SwitchLog(forked);
    }

    /** Rewrite, step 2: install the child's snapshot as the base, or forget about it. */
    method FinishRewrite(childOk: bool, renamed: bool, committed: bool) returns (ok: bool)
      requires Valid() && child.Some?
      requires childOk ==> TempName in disk.files && disk.files[TempName] == Base(child.value)
      modifies this
      ensures Valid() && Served(View()) == old(Served(View())) && SyncedCount(View()) == old(SyncedCount(View()))
      ensures ok == (childOk && renamed && committed) && child.None? && buf == old(buf)
      ensures manifest ==
        if ok then Manifest(Some(BaseName(old(nextSeq))), [End(old(manifest.incrs))]) else old(manifest)
    {
      hide Inv, Served, SyncedCount, SyncedBytes;
      NewNames();
      if !childOk || !renamed {
        DropChild();
        Touch(TempName, None);
        return false;
      }
      var newBase, was := BaseName(nextSeq), manifest;
      Touch(newBase, Some(disk.files[TempName]));
      Touch(TempName, None);
      if !committed {
        DropChild();
        Touch(newBase, None);
        return false;
      }
      NewNames();
      SwitchBase();
      Unlink(was);
      return true;
    }

    /** Replaces the whole log with a fresh one of `data`; until the manifest is in place nothing changes. */
    method Reset(data: Dataset, saved: bool, created: bool, committed: bool) returns (ok: bool)
      requires Valid() && child.None?
      modifies this
      ensures Valid() && ok == (saved && created && committed)
      ensures Served(View()) == if ok then data else old(Served(View()))
      ensures ok ==> buf == [] && SyncedCount(View()) == |data|
      ensures !ok ==> buf == old(buf) && manifest == old(manifest) && SyncedCount(View()) == old(SyncedCount(View()))
    {
      hide Inv, Served, SyncedCount, SyncedBytes;
      NewNames();
      var base, incr, was := BaseName(nextSeq), IncrName(nextSeq + 1), manifest;
      if !saved {
        return false;
      }
      Touch(base, Some(Base(data)));
      if !created {
        return false;
      }
      Touch(incr, Some(Incr([], 0)));
      if !committed {
        return false;
      }
      NewNames();
      SwitchDataset(data);
      Unlink(was);
      return true;
    }
  }

  /** load(): the base, then each log through the network parser, in reads of `chunk` bytes. */
  method Load(disk: Disk, chunk: nat) returns (r: Option<Dataset>)
    requires chunk > 0
    ensures r == Recover(disk)
  {
    hide Drain;
    var m := disk.manifest;
    if m.incrs == [] {
      return None;
    }
    var data: Dataset := [];
    if m.base.Some? {
      if m.base.value !in disk.files || !disk.files[m.base.value].Base? {
        return None;
      }
      data := disk.files[m.base.value].image;
    }
    assert m.incrs[0..] == m.incrs;
    for i := 0 to |m.incrs|
      invariant Recover(disk) == Replay(disk.files, m.incrs[i..], data)
    {
      assert m.incrs[i..][0] == m.incrs[i] && m.incrs[i..][1..] == m.incrs[i + 1..];
      if m.incrs[i] !in disk.files || !disk.files[m.incrs[i]].Incr? {
        return None;
      }
      var bytes := disk.files[m.incrs[i]].bytes;
      var replayed := RespParser.ReplayIncr(bytes, chunk);
      var torn := replayed.Replayed? && replayed.validBytes < |bytes|;
      if replayed.Corrupt? || (torn && i + 1 < |m.incrs|) {
        return None;
      }
      data := data + replayed.cmds;
    }
    r := Some(data);
  }
}
