/** Writing and reading snapshots piece by piece, with the checksum kept along the way. */
module SnapshotFile {
  import opened Prelude
  import opened Keyspace
  import opened Snapshot
  import Stores = Store

  const IO_BUFFER_SIZE := 65536

  class Writer {
    const step: CrcStep

    var buf: Bytes
    var file: Bytes       // what has reached the file
    var crc: Word
    var good: bool        // no write has failed

    ghost var all: Bytes  // everything put so far

    ghost predicate Valid()
      reads this
    {
      crc == Crc(step, 0, all) && (good ==> file + buf == all)
    }

    constructor (step: CrcStep)
      ensures Valid() && all == [] && this.step == step
    {
      this.step := step;
      buf, file, crc, good, all := [], [], Not(Not(0)), true, [];
    }

    /** Writes the buffer out; the device may take less than all of it. */
    method Flush()
      requires Valid()
      modifies this`buf, this`file, this`good
      ensures Valid() && buf == [] && (good ==> file == all)
    {
      if good {
        var n: int := *;
        if 0 <= n < |buf| {
          file, good := file + buf[..n], false;
        } else {
          file := file + buf;
        }
      }
      buf := [];
    }

    method Put(data: Bytes)
      requires Valid()
      modifies this
      ensures Valid() && all == old(all) + data
    {
      CrcJoins(step, 0, all, data);
      assert file + (buf + data) == file + buf + data;
      crc := Crc(step, crc, data);
      buf := buf + data;
      all := all + data;
      if |buf| >= IO_BUFFER_SIZE {
        Flush();
      }
    }

    method PutVarint(value: nat)
      requires Valid() && value < U64
      modifies this
      ensures Valid() && all == old(all) + Varint(value)
    {
      var tmp: Bytes := [];
      var v := value;
      while v >= 128
        invariant Varint(value) == tmp + Varint(v)
      {
        assert tmp + ([v % 128 + 128] + Varint(v / 128)) == tmp + [v % 128 + 128] + Varint(v / 128);
        tmp := tmp + [v % 128 + 128];
        v := v / 128;
      }
      Put(tmp + [v]);
    }

    method PutFixed(value: nat, n: nat)
      requires Valid()
      modifies this
      ensures Valid() && all == old(all) + Fixed(value, n)
    {
      var tmp: Bytes := [];
      var v, i := value, 0;
      while i < n
        invariant i <= n && Fixed(value, n) == tmp + Fixed(v, n - i)
      {
        assert tmp + ([v % 256] + Fixed(v / 256, n - i - 1)) == tmp + [v % 256] + Fixed(v / 256, n - i - 1);
        tmp := tmp + [v % 256];
        v, i := v / 256, i + 1;
      }
      assert tmp + [] == tmp;
      Put(tmp);
    }

    method PutString(s: Bytes)
      requires Valid() && |s| < U64
      modifies this
      ensures Valid() && all == old(all) + Str(s)
    {
      PutVarint(|s|);
      Put(s);
      assert old(all) + Varint(|s|) + s == old(all) + Str(s);
    }

    method PutRecord(r: Record)
      requires Valid() && Fits(r)
      modifies this
      ensures Valid() && all == old(all) + Marked(r)
    {
      hide Str, Fixed, Valid;
      var before := old(all);
      if r.deadline.Some? {
        Put([OP_EXPIRE_MS]);
        PutFixed(r.deadline.value, 8);
      } else {
        assert all + [] == all;
      }
      Put([OP_STRING]);
      PutString(r.key);
      PutString(r.value);
      Layout(old(all), if r.deadline.Some? then [OP_EXPIRE_MS] else [], if r.deadline.Some? then Fixed(r.deadline.value, 8) else [],
        [OP_STRING], Str(r.key), Str(r.value));
    }
  }

  lemma Layout(z: Bytes, a: Bytes, b: Bytes, c: Bytes, d: Bytes, e: Bytes)
    ensures z + a + b + c + d + e == z + (a + b + c + d + e)
  {
  }

  lemma {:induction false} BodyJoins(a: seq<Record>, b: seq<Record>)
    ensures Body(a + b) == Body(a) + Body(b)
  {
    hide Marked;
    if a == [] {
      assert a + b == b;
    } else {
      BodyJoins(a[1..], b);
      assert (a + b)[1..] == a[1..] + b;
      Regroup(Marked(a[0]), Body(a[1..]), Body(b));
    }
  }

  lemma Regroup(a: Bytes, b: Bytes, c: Bytes)
    ensures a + (b + c) == a + b + c
  {
  }

  lemma BodyOne(r: Record)
    ensures Body([r]) == Marked(r)
  {
    hide Marked;
    assert Marked(r) + [] == Marked(r);
  }

  /** Writes a store's live keys, in the order given, and ends the file with its checksum. */
  method WriteFile(step: CrcStep, store: Stores.Store, keys: seq<Key>, now: int) returns (ok: bool, file: Bytes)
    requires forall k :: k in keys ==> k in store.dict
    requires Fitting(store.Ks())
    ensures ok ==> file == Image(step, Records(store.Ks(), keys, now))
  {
    var w := new Writer(step);
    w.Put(MAGIC);
    w.Put([VERSION]);
    ghost var ks, head := store.Ks(), MAGIC + [VERSION];
    assert w.all == head && head + Body([]) == head;
    var i := 0;
    while i < |keys|
      invariant i <= |keys| && w.Valid() && w.step == step && w.all == head + Body(Records(ks, keys[..i], now))
    {
      WriteKey(w, store, keys, i, now, head);
      i := i + 1;
    }
    assert keys[..i] == keys;
    w.Put([OP_EOF]);
    assert w.all == Checked(Records(ks, keys, now));
    w.PutFixed(w.crc, 4);
    w.Flush();
    ok, file := w.good, w.file;
  }

  method WriteKey(w: Writer, store: Stores.Store, keys: seq<Key>, i: nat, now: int, ghost head: Bytes)
    requires w.Valid() && i < |keys| && forall k :: k in keys ==> k in store.dict
    requires Fitting(store.Ks())
    requires w.all == head + Body(Records(store.Ks(), keys[..i], now))
    modifies w
    ensures w.Valid() && w.all == head + Body(Records(store.Ks(), keys[..i + 1], now))
  {
    hide Marked, Body, Records, Writer.Valid;
    ghost var ks := store.Ks();
    ghost var rs := Records(ks, keys[..i], now);
    RecordsGrow(ks, keys, i, now);
    var k := keys[i];
    var d := if k in store.expires && store.expires[k] >= 0 then Some(store.expires[k] as nat) else None;
    if d.Some? && d.value <= now {
      assert rs + [] == rs;
      return;
    }
    var r := Record(k, store.dict[k], d);
    w.PutRecord(r);
    BodyJoins(rs, [r]);
    BodyOne(r);
    assert head + Body(rs) + Marked(r) == head + (Body(rs) + Marked(r));
  }

  lemma RecordsGrow(ks: Keyspace, keys: seq<Key>, i: nat, now: int)
    requires i < |keys| && forall k :: k in keys ==> k in ks.vals
    ensures Records(ks, keys[..i + 1], now) == Records(ks, keys[..i], now) + RecordOf(ks, keys[i], now)
  {
    assert keys[..i + 1][..i] == keys[..i];
  }

  class Reader {
    const step: CrcStep

    var buf: Bytes
    var pos: nat
    var rest: Bytes       // the part of the file not read yet
    var crc: Word
    var failed: bool      // a read failed for another reason than the end of the file

    ghost var got: Bytes  // everything handed out so far

    ghost predicate Valid()
      reads this
    {
      pos <= |buf| && crc == Crc(step, 0, got)
    }

    function Left(): (r: Bytes)
      requires Valid()
      reads this
    {
      buf[pos..] + rest
    }

    /** The file: what was handed out and what is left. */
    ghost function File(): (r: Bytes)
      requires Valid()
      reads this
    {
      got + Left()
    }

    constructor (step: CrcStep, file: Bytes)
      ensures Valid() && got == [] && Left() == file && File() == file && this.step == step && !failed
    {
      this.step := step;
      buf, pos, rest, crc, failed, got := [], 0, file, Not(Not(0)), false, [];
    }

    /** Reads some more of the file; how much is up to the system. */
    method Fill() returns (more: bool)
      requires Valid() && pos == |buf|
      modifies this`buf, this`pos, this`rest, this`failed
      ensures Valid() && Left() == old(Left()) && (more ==> pos < |buf|) && (!more ==> failed || Left() == [])
      ensures File() == old(File()) && (old(failed) ==> failed)
    {
      var n: int := *;
      if n < 0 {
        failed := true;
        return false;
      }
      if rest == [] {
        return false;
      }
      n := if n == 0 || n > |rest| then |rest| else n;
      assert rest == rest[..n] + rest[n..];
      buf, pos, rest := rest[..n], 0, rest[n..];
      return true;
    }

    method Get(len: nat) returns (ok: bool, out: Bytes)
      requires Valid()
      modifies this
      ensures Valid() && File() == old(File()) && (old(failed) ==> failed)
      ensures ok ==> |out| == len && old(Left()) == out + Left()
      ensures !ok ==> failed || |old(Left())| < len
    {
      hide Left, File, Crc;
      out := [];
      var need: nat := len;
      assert old(Left()) == out + Left();
      while need > 0
        invariant Valid() && File() == old(File()) && |out| + need == len && old(Left()) == out + Left()
        invariant old(failed) ==> failed
      {
        if pos == |buf| {
          var more := Fill();
          if !more {
            return false, out;
          }
        }
        var n := Min(need, |buf| - pos);
        var piece := Take(n);
        assert out + (piece + Left()) == out + piece + Left();
        out := out + piece;
        need := need - n;
      }
      return true, out;
    }

    method Take(n: nat) returns (piece: Bytes)
      requires Valid() && n <= |buf| - pos
      modifies this`pos, this`crc, this`got
      ensures Valid() && |piece| == n && old(Left()) == piece + Left() && File() == old(File())
    {
      hide Crc;
      piece := buf[pos..pos + n];
      CrcJoins(step, 0, got, piece);
      assert buf[pos..] == piece + buf[pos + n..];
      crc := Crc(step, crc, piece);
      pos := pos + n;
      got := got + piece;
      assert old(Left()) == piece + Left();
      assert old(got) + (piece + Left()) == old(got) + piece + Left();
    }

    method GetByte() returns (ok: bool, b: byte)
      requires Valid()
      modifies this
      ensures Valid() && File() == old(File()) && (old(failed) ==> failed)
      ensures ok ==> old(Left()) == [b] + Left()
      ensures !ok ==> failed || old(Left()) == []
    {
      var out;
      ok, out := Get(1);
      b := if ok then out[0] else 0;
      assert ok ==> out == [b];
    }

    method GetVarint() returns (ok: bool, v: nat)
      requires Valid()
      modifies this
      ensures Valid() && File() == old(File()) && (old(failed) ==> failed)
      ensures ok ==> ReadVarint(old(Left()), 0) == Some((v, Left()))
      ensures !ok ==> failed || ReadVarint(old(Left()), 0).None?
    {
      hide Crc, File, Left, Bits;
      v := 0;
      var i := 0;
      while i < MAX_VARINT_BYTES
        invariant i <= MAX_VARINT_BYTES && Valid() && File() == old(File()) && (old(failed) ==> failed)
        invariant ReadVarint(old(Left()), 0) == Shifted(v, ReadVarint(Left(), i))
      {
        ghost var s := Left();
        var more, b := GetByte();
        if !more {
          return false, v;
        }
        assert s[0] == b && s[1..] == Left();
        v := v + Bits(b, i);
        if b < 128 {
          return true, v;
        }
        i := i + 1;
      }
      return false, v;
    }

    method GetFixed(n: nat) returns (ok: bool, v: nat)
      requires Valid()
      modifies this
      ensures Valid() && File() == old(File()) && (old(failed) ==> failed)
      ensures ok ==> ReadFixed(old(Left()), n) == Some((v, Left()))
      ensures !ok ==> failed || ReadFixed(old(Left()), n).None?
    {
      var tmp;
      ok, tmp := Get(n);
      v := 0;
      if ok {
        assert old(Left())[..n] == tmp && old(Left())[n..] == Left();
        v := ReadLittle(tmp);
      }
    }

    method GetString() returns (ok: bool, s: Bytes)
      requires Valid()
      modifies this
      ensures Valid() && File() == old(File()) && (old(failed) ==> failed)
      ensures ok ==> ReadStr(old(Left())) == Some((s, Left()))
      ensures !ok ==> failed || ReadStr(old(Left())).None?
    {
      hide Crc, File, Left, ReadVarint;
      var len;
      ok, len := GetVarint();
      s := [];
      if !ok {
        return;
      }
      ghost var body := Left();
      var need: nat := len;
      while need > 0
        invariant Valid() && File() == old(File()) && (old(failed) ==> failed)
        invariant |s| + need == len && body == s + Left()
      {
        var n := Min(need, IO_BUFFER_SIZE);
        var more, piece := Get(n);
        if !more {
          return false, s;
        }
        assert s + (piece + Left()) == s + piece + Left();
        s := s + piece;
        need := need - n;
      }
      assert body[..len] == s && body[len..] == Left();
    }

    method AtEof() returns (end: bool)
      requires Valid()
      modifies this`buf, this`pos, this`rest, this`failed
      ensures Valid() && Left() == old(Left()) && got == old(got) && (old(failed) ==> failed)
      ensures end ==> failed || Left() == []
      ensures !end ==> Left() != []
    {
      if pos < |buf| {
        return false;
      }
      var more := Fill();
      return !more;
    }
  }

  /** The next record or end marker, as the loader reads it. */
  method NextItem(r: Reader) returns (it: Item)
    requires r.Valid()
    modifies r
    ensures r.Valid() && r.File() == old(r.File()) && (old(r.failed) ==> r.failed)
    ensures !it.Corrupt? ==> it.rest == r.Left()
    ensures !it.Corrupt? || !r.failed ==> ReadItem(old(r.Left())) == it
  {
    hide ReadPair;
    ghost var s := r.Left();
    var ok, op := r.GetByte();
    if !ok {
      return Corrupt;
    }
    assert s[0] == op && s[1..] == r.Left();
    var deadline := None;
    if op == OP_EXPIRE_MS {
      var raw;
      ok, raw := r.GetFixed(8);
      if !ok {
        return Corrupt;
      }
      ghost var t := r.Left();
      ok, op := r.GetByte();
      if !ok || raw >= U64 / 2 {
        return Corrupt;
      }
      assert t[0] == op && t[1..] == r.Left();
      deadline := Some(raw);
    }
    if op == OP_EOF && deadline.None? {
      return End(r.Left());
    }
    if op != OP_STRING {
      return Corrupt;
    }
    it := GetPair(r, deadline);
  }

  method GetPair(r: Reader, deadline: Option<nat>) returns (it: Item)
    requires r.Valid()
    modifies r
    ensures r.Valid() && r.File() == old(r.File()) && (old(r.failed) ==> r.failed)
    ensures !it.Corrupt? ==> it.One? && it.rest == r.Left()
    ensures !it.Corrupt? || !r.failed ==> ReadPair(old(r.Left()), deadline) == it
  {
    hide ReadStr;
    var ok, key := r.GetString();
    if !ok {
      return Corrupt;
    }
    var value;
    ok, value := r.GetString();
    if !ok {
      return Corrupt;
    }
    return One(Record(key, value, deadline), r.Left());
  }

  /** Puts one record into a store. */
  method LoadRecord(store: Stores.Store, rec: Record, now: int)
    requires store.Valid()
    modifies store
    ensures store.Valid() && store.passive == old(store.passive)
    ensures store.Ks() == Loaded(old(store.Ks()), rec, now, store.passive)
  {
    hide Stores.Store.Valid, After;
    if rec.deadline.Some? && rec.deadline.value <= now {
      return;
    }
    store.Set(rec.key, rec.value, false, now);
    if rec.deadline.Some? {
      var _ := store.SetExpire(rec.key, rec.deadline.value, now);
    }
  }

  /**
   Loads a file into a store. It says yes exactly when the file is sound, and the
   store then holds the file's records; a failed read decides nothing.
   */
  method LoadFrom(r: Reader, store: Stores.Store, now: int) returns (ok: bool)
    requires r.Valid() && r.got == [] && store.Valid()
    modifies r, store
    ensures r.Valid() && store.Valid() && store.passive == old(store.passive)
    ensures !r.failed ==> ok == Parse(r.step, old(r.Left())).Some?
    ensures !r.failed && ok ==>
      store.Ks() == LoadAll(old(store.Ks()), Parse(r.step, old(r.Left())).value, now, store.passive)
  {
    hide ReadBody, LoadAll, Crc, Stores.Store.Valid, Unfix, Reader.File;
    ghost var file := r.Left();
    ok := ReadHeader(r);
    if !ok {
      return;
    }
    ghost var rs;
    ok, rs := LoadBody(r, store, file[7..], now);
    if ok {
      ok := CheckEnd(r, file);
    }
  }

  method ReadHeader(r: Reader) returns (ok: bool)
    requires r.Valid() && r.got == []
    modifies r
    ensures r.Valid() && r.File() == old(r.Left()) && (old(r.failed) ==> r.failed)
    ensures var file := old(r.Left()); var header := |file| >= 7 && file[..6] == MAGIC && file[6] == VERSION;
      (ok ==> header && r.Left() == file[7..]) && (!ok ==> r.failed || !header)
  {
    ghost var file := r.Left();
    assert r.File() == file;
    hide Crc, Reader.File, Reader.Left;
    var magic, version;
    ok, magic := r.Get(6);
    if !ok || magic != MAGIC {
      return false;
    }
    assert file[..6] == MAGIC && file[6..] == r.Left();
    ok, version := r.GetByte();
    if !ok || version != VERSION {
      return false;
    }
    assert file[7..] == r.Left();
  }

  /** The checksum of everything before, and then the end of the file. */
  method CheckEnd(r: Reader, ghost file: Bytes) returns (ok: bool)
    requires r.Valid() && r.File() == file
    modifies r
    ensures r.Valid() && (old(r.failed) ==> r.failed)
    ensures var tail := old(r.Left()); |tail| <= |file| && (!r.failed ==>
      (ok <==> |tail| == 4 && Unfix(tail) == Crc(r.step, 0, file[..|file| - |tail|])))
  {
    ghost var tail := r.Left();
    assert file == r.got + tail;
    assert file[..|file| - |tail|] == r.got;
    hide Crc, Unfix, Reader.File, Reader.Left;
    var expected := r.crc;
    var stored;
    ok, stored := r.GetFixed(4);
    assert |tail| == 4 ==> tail[..4] == tail;
    if !ok || stored != expected {
      return false;
    }
    ok := r.AtEof();
  }

  method LoadBody(r: Reader, store: Stores.Store, ghost body: Bytes, now: int) returns (ok: bool, ghost rs: seq<Record>)
    requires r.Valid() && store.Valid() && r.Left() == body
    modifies r, store
    ensures r.Valid() && r.File() == old(r.File()) && (old(r.failed) ==> r.failed)
    ensures store.Valid() && store.passive == old(store.passive)
    ensures ok ==> ReadBody(body) == Some((rs, r.Left())) && store.Ks() == LoadAll(old(store.Ks()), rs, now, store.passive)
    ensures !ok ==> r.failed || ReadBody(body).None?
  {
    hide ReadItem, Loaded, Stores.Store.Valid;
    rs := [];
    BehindNone(ReadBody(body));
    while true
      invariant r.Valid() && r.File() == old(r.File()) && (old(r.failed) ==> r.failed)
      invariant store.Valid() && store.passive == old(store.passive)
      invariant store.Ks() == LoadAll(old(store.Ks()), rs, now, store.passive)
      invariant ReadBody(body) == Behind(rs, ReadBody(r.Left()))
      decreases |r.Left()|
    {
      var it := NextItem(r);
      match it {
        case Corrupt =>
          return false, rs;
        case End(_) =>
          assert rs + [] == rs;
          return true, rs;
        case One(rec, _) =>
          LoadRecord(store, rec, now);
          LoadOneMore(old(store.Ks()), rs, rec, now, store.passive);
          BehindOneMore(rs, rec, ReadBody(r.Left()));
          rs := rs + [rec];
      }
    }
  }

  ghost function Behind(rs: seq<Record>, b: Option<(seq<Record>, Bytes)>): (r: Option<(seq<Record>, Bytes)>) {
    if b.None? then None else Some((rs + b.value.0, b.value.1))
  }

  lemma BehindNone(b: Option<(seq<Record>, Bytes)>)
    ensures Behind([], b) == b
  {
    if b.Some? {
      assert [] + b.value.0 == b.value.0;
    }
  }

  lemma BehindOneMore(rs: seq<Record>, rec: Record, b: Option<(seq<Record>, Bytes)>)
    ensures Behind(rs + [rec], b) == Behind(rs, Behind([rec], b))
  {
    if b.Some? {
      assert rs + [rec] + b.value.0 == rs + ([rec] + b.value.0);
    }
  }

  lemma LoadOneMore(ks: Keyspace, rs: seq<Record>, rec: Record, now: int, passive: bool)
    ensures LoadAll(ks, rs + [rec], now, passive) == Loaded(LoadAll(ks, rs, now, passive), rec, now, passive)
  {
    assert (rs + [rec])[..|rs|] == rs;
  }

  ghost function Shifted(v: nat, r: Option<(nat, Bytes)>): (result: Option<(nat, Bytes)>) {
    if r.None? then None else Some((v + r.value.0, r.value.1))
  }

  /** The DUMP payload, built byte by byte. */
  method DumpValue(step: CrcStep, value: Bytes) returns (payload: Bytes)
    requires |value| < U64
    ensures payload == Dump(step, value)
  {
    hide Crc;
    payload := [OP_STRING];
    var len: nat := |value|;
    while len >= 128
      invariant [OP_STRING] + Varint(|value|) == payload + Varint(len)
    {
      assert payload + ([len % 128 + 128] + Varint(len / 128)) == payload + [len % 128 + 128] + Varint(len / 128);
      payload := payload + [len % 128 + 128];
      len := len / 128;
    }
    payload := payload + [len];
    payload := payload + value + [VERSION, 0];
    ghost var body := payload;
    var crc := Crc(step, 0, payload);
    var c: nat, i: nat := crc, 0;
    assert body + [] == body;
    while i < 4
      invariant i <= 4 && body + Fixed(crc, 4) == payload + Fixed(c, 4 - i)
    {
      assert payload + ([c % 256] + Fixed(c / 256, 3 - i)) == payload + [c % 256] + Fixed(c / 256, 3 - i);
      payload := payload + [c % 256];
      c, i := c / 256, i + 1;
    }
    assert payload + [] == payload;
  }

  /** Decodes a payload, or refuses it; nothing is taken from one that is not whole. */
  method RestoreValue(step: CrcStep, payload: Bytes) returns (value: Option<Bytes>)
    ensures value == Undump(step, payload)
  {
    hide Crc, ReadVarint;
    if |payload| < 8 {
      return None;
    }
    var end := |payload| - 4;
    var body := payload[..end];
    var crc := ReadLittle(payload[end..]);
    if crc != Crc(step, 0, body) {
      return None;
    }
    if payload[end - 2] != VERSION || payload[end - 1] != 0 || payload[0] != OP_STRING {
      return None;
    }
    assert body[1..end - 2] == payload[1..end - 2];
    var len, pos := VarintAt(payload, 1, end - 2);
    if len.None? || len.value != end - 2 - pos {
      return None;
    }
    return Some(payload[pos..pos + len.value]);
  }

  /** The varint at `start`, and where it ends. */
  method VarintAt(payload: Bytes, start: nat, end: nat) returns (v: Option<nat>, pos: nat)
    requires start <= end <= |payload|
    ensures start <= pos <= end
    ensures var r := ReadVarint(payload[start..end], 0);
      if v.None? then r.None? else r == Some((v.value, payload[pos..end]))
  {
    hide Bits;
    ghost var text := payload[start..end];
    var len: nat, i: nat := 0, 0;
    pos := start;
    while true
      invariant start <= pos <= end && i <= MAX_VARINT_BYTES
      invariant ReadVarint(text, 0) == Shifted(len, ReadVarint(payload[pos..end], i))
      decreases end - pos
    {
      if i == MAX_VARINT_BYTES || pos == end {
        return None, pos;
      }
      var b := payload[pos];
      assert payload[pos..end][1..] == payload[pos + 1..end];
      len := len + Bits(b, i);
      pos, i := pos + 1, i + 1;
      if b < 128 {
        return Some(len), pos;
      }
    }
  }

  method ReadLittle(tmp: Bytes) returns (v: nat)
    ensures v == Unfix(tmp)
  {
    v := 0;
    var i: nat := |tmp|;
    while i > 0
      invariant i <= |tmp| && v == Unfix(tmp[i..])
    {
      i := i - 1;
      assert tmp[i..][1..] == tmp[i + 1..];
      v := tmp[i] + 256 * v;
    }
    assert tmp[0..] == tmp;
  }
}
