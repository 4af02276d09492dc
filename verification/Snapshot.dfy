/** The snapshot file and the DUMP payload, as byte strings. */
module Snapshot {
  import opened Prelude
  import opened Keyspace

  const U64: nat := 0x1_0000_0000_0000_0000
  const U32: nat := 0x1_0000_0000
  const MAX_VARINT_BYTES := 10

  const MAGIC: Bytes := [75, 86, 83, 78, 65, 80]  // "KVSNAP"
  const VERSION: byte := 1
  const OP_STRING: byte := 0x00
  const OP_EXPIRE_MS: byte := 0xFC
  const OP_EOF: byte := 0xFF

  // --- the checksum: a register stepped once a byte, inverted before and after ---------

  type Word = n: nat | n < U32

  type CrcStep = (Word, byte) -> Word

  function Not(w: Word): (r: Word) {
    U32 - 1 - w
  }

  function Fold(step: CrcStep, r: Word, data: Bytes): (result: Word) {
    if data == [] then r else step(Fold(step, r, data[..|data| - 1]), data[|data| - 1])
  }

  function Crc(step: CrcStep, crc: Word, data: Bytes): (r: Word) {
    Not(Fold(step, Not(crc), data))
  }

  lemma {:induction false} FoldJoins(step: CrcStep, r: Word, a: Bytes, b: Bytes)
    ensures Fold(step, r, a + b) == Fold(step, Fold(step, r, a), b)
  {
    if b == [] {
      assert a + b == a;
    } else {
      FoldJoins(step, r, a, b[..|b| - 1]);
      assert (a + b)[..|a + b| - 1] == a + b[..|b| - 1];
    }
  }

  /** The checksum can be computed while streaming. */
  lemma CrcJoins(step: CrcStep, crc: Word, a: Bytes, b: Bytes)
    ensures Crc(step, Crc(step, crc, a), b) == Crc(step, crc, a + b)
  {
    FoldJoins(step, Not(crc), a, b);
  }

  // --- integers -------------------------------------------------------------------------

  /** Unsigned LEB128: seven bits a byte, low ones first, the top bit set on all but the last. */
  function Varint(v: nat): (s: Bytes)
    ensures s != []
  {
    if v < 128 then [v] else [v % 128 + 128] + Varint(v / 128)
  }

  function Pow128(i: nat): (p: nat)
    ensures p > 0
  {
    if i == 0 then 1 else 128 * Pow128(i - 1)
  }

  /** The seven bits of byte i of a varint, in place. */
  function Bits(b: byte, i: nat): (r: nat) {
    b % 128 * Pow128(i) % U64
  }

  /** The rest of a varint whose first i bytes have been read; bits past the 64th are lost. */
  function ReadVarint(s: Bytes, i: nat): (r: Option<(nat, Bytes)>)
    ensures r.Some? ==> |r.value.1| < |s|
  {
    if i >= MAX_VARINT_BYTES || s == [] then None
    else
      var low := Bits(s[0], i);
      if s[0] < 128 then Some((low, s[1..]))
      else
        var r := ReadVarint(s[1..], i + 1);
        if r.None? then None else Some((low + r.value.0, r.value.1))
  }

  lemma SevenBits(v: nat, p: nat)
    requires p > 0
    ensures v * p == v % 128 * p + v / 128 * (128 * p)
    ensures v % 128 * p <= v * p && v / 128 * (128 * p) <= v * p
  {
    assert v == v % 128 + 128 * (v / 128);
    assert v * p == (v % 128 + 128 * (v / 128)) * p;
    assert 128 * (v / 128) * p == v / 128 * (128 * p);
    assert v % 128 * p >= 0 && v / 128 * (128 * p) >= 0;
  }

  lemma TooLong(i: nat)
    requires i >= MAX_VARINT_BYTES
    ensures Pow128(i) > U64
    decreases i
  {
    if i > MAX_VARINT_BYTES {
      TooLong(i - 1);
    } else {
      assert Pow128(3) == 0x20_0000;
      assert Pow128(6) == 128 * (128 * (128 * Pow128(3)));
      assert Pow128(9) == 128 * (128 * (128 * Pow128(6)));
    }
  }

  lemma {:induction false} VarintReadsBack(v: nat, i: nat, rest: Bytes)
    requires i < MAX_VARINT_BYTES && v * Pow128(i) < U64
    ensures ReadVarint(Varint(v) + rest, i) == Some((v * Pow128(i), rest))
    decreases v
  {
    hide Bits, ReadVarint, Varint;
    var p := Pow128(i);
    SevenBits(v, p);
    InPlace(v % 128, i);
    if v < 128 {
      ReadsLast(v, i, rest);
    } else {
      assert Pow128(i + 1) == 128 * p;
      FewBytes(v / 128, i + 1);
      VarintReadsBack(v / 128, i + 1, rest);
      ReadsMore(v, i, rest);
    }
  }

  lemma ReadsLast(v: nat, i: nat, rest: Bytes)
    requires v < 128 && i < MAX_VARINT_BYTES
    ensures ReadVarint(Varint(v) + rest, i) == Some((Bits(v, i), rest))
  {
    assert (Varint(v) + rest)[1..] == rest;
  }

  lemma ReadsMore(v: nat, i: nat, rest: Bytes)
    requires v >= 128 && i < MAX_VARINT_BYTES && ReadVarint(Varint(v / 128) + rest, i + 1).Some?
    ensures var r := ReadVarint(Varint(v / 128) + rest, i + 1).value;
      ReadVarint(Varint(v) + rest, i) == Some((Bits(v % 128, i) + r.0, r.1))
  {
    hide Bits;
    var s := Varint(v) + rest;
    assert s[0] == v % 128 + 128 && s[1..] == Varint(v / 128) + rest;
    SmallInPlace(s[0], i);
    SevenOfByte(v);
  }

  /** Below 64 bits nothing is lost by putting seven bits in place. */
  lemma InPlace(low: nat, i: nat)
    requires low < 128 && low * Pow128(i) < U64
    ensures Bits(low, i) == low * Pow128(i)
  {
  }

  /** The top bit of a byte is not part of the value. */
  lemma SmallInPlace(b: byte, i: nat)
    ensures Bits(b, i) == Bits(b % 128, i)
  {
  }

  lemma SevenOfByte(v: nat)
    ensures (v % 128 + 128) % 128 == v % 128
  {
  }

  lemma AtLeastOne(a: nat, b: nat)
    requires a >= 1
    ensures a * b >= b
  {
  }

  /** A 64-bit value never needs an eleventh byte. */
  lemma FewBytes(v: nat, i: nat)
    requires v >= 1 && v * Pow128(i) < U64
    ensures i < MAX_VARINT_BYTES
  {
    AtLeastOne(v, Pow128(i));
    if i >= MAX_VARINT_BYTES {
      TooLong(i);
    }
  }

  /** Little-endian, a fixed number of bytes. */
  function Fixed(v: nat, n: nat): (s: Bytes)
    ensures |s| == n
  {
    if n == 0 then [] else [v % 256] + Fixed(v / 256, n - 1)
  }

  function Unfix(s: Bytes): (r: nat) {
    if s == [] then 0 else s[0] + 256 * Unfix(s[1..])
  }

  function Pow256(n: nat): (r: nat) {
    if n == 0 then 1 else 256 * Pow256(n - 1)
  }

  lemma {:induction false} FixedReadsBack(v: nat, n: nat)
    requires v < Pow256(n)
    ensures Unfix(Fixed(v, n)) == v
  {
    if n > 0 {
      FixedReadsBack(v / 256, n - 1);
      assert Fixed(v, n)[1..] == Fixed(v / 256, n - 1);
    }
  }

  lemma FixedSizes()
    ensures Pow256(4) == U32 && Pow256(8) == U64
  {
    assert Pow256(2) == 0x1_0000;
    assert Pow256(4) == 256 * (256 * Pow256(2));
    assert Pow256(6) == 256 * (256 * Pow256(4));
    assert Pow256(8) == 256 * (256 * Pow256(6));
  }

  function ReadFixed(s: Bytes, n: nat): (r: Option<(nat, Bytes)>)
    ensures r.Some? ==> |r.value.1| + n == |s|
  {
    if |s| < n then None else Some((Unfix(s[..n]), s[n..]))
  }

  function Str(s: Bytes): (r: Bytes) {
    Varint(|s|) + s
  }

  function ReadStr(s: Bytes): (r: Option<(Bytes, Bytes)>)
    ensures r.Some? ==> |r.value.1| < |s|
  {
    var len := ReadVarint(s, 0);
    if len.None? || len.value.0 > |len.value.1| then None
    else Some((len.value.1[..len.value.0], len.value.1[len.value.0..]))
  }

  lemma StrReadsBack(s: Bytes, rest: Bytes)
    requires |s| < U64
    ensures ReadStr(Str(s) + rest) == Some((s, rest))
  {
    hide Varint, ReadVarint;
    VarintReadsBack(|s|, 0, s + rest);
    assert Str(s) + rest == Varint(|s|) + (s + rest);
    assert (s + rest)[..|s|] == s && (s + rest)[|s|..] == rest;
  }

  // --- one value, as DUMP and RESTORE carry it ---------------------------------------------

  function DumpBody(value: Bytes): (r: Bytes) {
    [OP_STRING] + Varint(|value|) + value + [VERSION, 0]
  }

  function Dump(step: CrcStep, value: Bytes): (r: Bytes) {
    DumpBody(value) + Fixed(Crc(step, 0, DumpBody(value)), 4)
  }

  function Undump(step: CrcStep, payload: Bytes): (r: Option<Bytes>) {
    if |payload| < 8 then None
    else
      var body := payload[..|payload| - 4];
      if Unfix(payload[|payload| - 4..]) != Crc(step, 0, body) then None
      else if body[|body| - 2] != VERSION || body[|body| - 1] != 0 || body[0] != OP_STRING then None
      else
        var len := ReadVarint(body[1..|body| - 2], 0);
        if len.None? || len.value.0 != |len.value.1| then None else Some(len.value.1)
  }

  /** RESTORE gives back what DUMP was given, for every byte string. */
  lemma UndumpInvertsDump(step: CrcStep, value: Bytes)
    requires |value| < U64
    ensures Undump(step, Dump(step, value)) == Some(value)
  {
    hide Crc, Varint, ReadVarint, Fixed, Unfix;
    var body, crc := DumpBody(value), Crc(step, 0, DumpBody(value));
    var payload := Dump(step, value);
    assert payload[..|payload| - 4] == body && payload[|payload| - 4..] == Fixed(crc, 4);
    FixedSizes();
    FixedReadsBack(crc, 4);
    assert body[1..|body| - 2] == Varint(|value|) + value;
    VarintReadsBack(|value|, 0, value);
  }

  /** `len` is a varint that reads as `n`, to its last byte. */
  predicate Spells(len: Bytes, n: nat) {
    ReadVarint(len, 0) == Some((n, []))
  }

  lemma {:induction false} VarintSplits(s: Bytes, i: nat)
    requires ReadVarint(s, i).Some?
    ensures var (n, rest) := ReadVarint(s, i).value;
      s[|s| - |rest|..] == rest && ReadVarint(s[..|s| - |rest|], i) == Some((n, []))
    decreases |s|
  {
    hide Bits;
    var (n, rest) := ReadVarint(s, i).value;
    var k := |s| - |rest|;
    if s[0] < 128 {
      assert s[..k] == [s[0]];
    } else {
      VarintSplits(s[1..], i + 1);
      assert s[..k][1..] == s[1..][..k - 1] && s[k..] == s[1..][k - 1..];
    }
  }

  lemma {:induction false} VarintThen(len: Bytes, i: nat, rest: Bytes)
    requires ReadVarint(len, i).Some? && ReadVarint(len, i).value.1 == []
    ensures ReadVarint(len + rest, i) == Some((ReadVarint(len, i).value.0, rest))
    decreases |len|
  {
    hide Bits;
    assert (len + rest)[1..] == len[1..] + rest;
    if len[0] >= 128 {
      VarintThen(len[1..], i + 1, rest);
    }
  }

  /**
   A payload is accepted if and only if it is a string's marker, a length, exactly that many
   bytes and the version, followed by the checksum of all that; the bytes are the value.
   */
  lemma UndumpIff(step: CrcStep, payload: Bytes, value: Bytes)
    ensures Undump(step, payload) == Some(value) <==> exists len :: Spells(len, |value|) && IsPayload(step, payload, len, value)
  {
    if Undump(step, payload) == Some(value) {
      var len := UndumpParts(step, payload, value);
      assert Spells(len, |value|) && IsPayload(step, payload, len, value);
    }
    if len :| Spells(len, |value|) && IsPayload(step, payload, len, value) {
      PartsUndump(step, payload, len, value);
    }
  }

  predicate IsPayload(step: CrcStep, payload: Bytes, len: Bytes, value: Bytes) {
    var body := [OP_STRING] + len + value + [VERSION, 0];
    |payload| == |body| + 4 && payload[..|body|] == body && Unfix(payload[|body|..]) == Crc(step, 0, body)
  }

  lemma UndumpParts(step: CrcStep, payload: Bytes, value: Bytes) returns (len: Bytes)
    requires Undump(step, payload) == Some(value)
    ensures Spells(len, |value|) && IsPayload(step, payload, len, value)
  {
    hide Crc, ReadVarint, Unfix;
    var body := payload[..|payload| - 4];
    var inner := body[1..|body| - 2];
    VarintSplits(inner, 0);
    len := inner[..|inner| - |value|];
    assert inner == len + value;
    assert body == [OP_STRING] + inner + [VERSION, 0];
    assert [OP_STRING] + len + value == [OP_STRING] + (len + value);
  }

  lemma PartsUndump(step: CrcStep, payload: Bytes, len: Bytes, value: Bytes)
    requires Spells(len, |value|) && IsPayload(step, payload, len, value)
    ensures Undump(step, payload) == Some(value)
  {
    SpellsSome(len, |value|);
    hide Crc, ReadVarint, Unfix;
    var body := [OP_STRING] + len + value + [VERSION, 0];
    assert payload[..|payload| - 4] == body && payload[|payload| - 4..] == payload[|body|..];
    VarintThen(len, 0, value);
    assert body[1..|body| - 2] == len + value;
  }

  lemma SpellsSome(len: Bytes, n: nat)
    requires Spells(len, n)
    ensures len != []
  {
  }

  // --- the file ----------------------------------------------------------------------------

  datatype Record = Record(key: Key, value: Bytes, deadline: Option<nat>)

  function Marked(r: Record): (result: Bytes) {
    (if r.deadline.Some? then [OP_EXPIRE_MS] + Fixed(r.deadline.value, 8) else [])
    + [OP_STRING] + Str(r.key) + Str(r.value)
  }

  function Body(rs: seq<Record>): (r: Bytes) {
    if rs == [] then [] else Marked(rs[0]) + Body(rs[1..])
  }

  function Checked(rs: seq<Record>): (r: Bytes) {
    MAGIC + [VERSION] + Body(rs) + [OP_EOF]
  }

  function Image(step: CrcStep, rs: seq<Record>): (r: Bytes) {
    Checked(rs) + Fixed(Crc(step, 0, Checked(rs)), 4)
  }

  /** What fits the format: lengths in 64 bits, deadlines in 63. */
  predicate Fits(r: Record) {
    |r.key| < U64 && |r.value| < U64 && (r.deadline.Some? ==> r.deadline.value < U64 / 2)
  }

  predicate AllFit(rs: seq<Record>) {
    forall i :: 0 <= i < |rs| ==> Fits(rs[i])
  }

  datatype Item = End(rest: Bytes) | One(record: Record, rest: Bytes) | Corrupt

  /** The next record, or the end marker. */
  function ReadItem(s: Bytes): (it: Item)
    ensures !it.Corrupt? ==> |it.rest| < |s|
  {
    if s == [] then Corrupt
    else if s[0] == OP_EXPIRE_MS then
      var d := ReadFixed(s[1..], 8);
      if d.None? || d.value.1 == [] then Corrupt
      else if d.value.0 >= U64 / 2 then Corrupt
      else if d.value.1[0] != OP_STRING then Corrupt
      else ReadPair(d.value.1[1..], Some(d.value.0))
    else if s[0] == OP_EOF then End(s[1..])
    else if s[0] != OP_STRING then Corrupt
    else ReadPair(s[1..], None)
  }

  function ReadPair(s: Bytes, deadline: Option<nat>): (it: Item)
    ensures !it.Corrupt? ==> it.One? && |it.rest| < |s|
  {
    var k := ReadStr(s);
    if k.None? then Corrupt
    else
      var v := ReadStr(k.value.1);
      if v.None? then Corrupt else One(Record(k.value.0, v.value.0, deadline), v.value.1)
  }

  /** The records of a body, and what follows its end marker. */
  function ReadBody(s: Bytes): (r: Option<(seq<Record>, Bytes)>)
    decreases |s|
  {
    var it := ReadItem(s);
    match it
    case Corrupt => None
    case End(rest) => Some(([], rest))
    case One(r, rest) =>
      var more := ReadBody(rest);
      if more.None? then None else Some(([r] + more.value.0, more.value.1))
  }

  /** All records of a file, if its header, records and checksum are sound and nothing follows. */
  function Parse(step: CrcStep, file: Bytes): (r: Option<seq<Record>>) {
    if |file| < 7 || file[..6] != MAGIC || file[6] != VERSION then None
    else
      var b := ReadBody(file[7..]);
      if b.None? || |b.value.1| > |file| then None
      else
        var checked := file[..|file| - |b.value.1|];
        if |b.value.1| != 4 || Unfix(b.value.1) != Crc(step, 0, checked) then None else Some(b.value.0)
  }

  lemma MarkedReadsBack(r: Record, rest: Bytes)
    requires Fits(r)
    ensures ReadItem(Marked(r) + rest) == One(r, rest)
  {
    hide ReadPair, Str, Fixed, ReadItem;
    var key, value := Str(r.key), Str(r.value);
    PairReadsBack(r, rest);
    if r.deadline.Some? {
      var d := Fixed(r.deadline.value, 8);
      assert [OP_EXPIRE_MS] + d + [OP_STRING] + key + value + rest == [OP_EXPIRE_MS] + (d + ([OP_STRING] + (key + value + rest)));
      TimedItem(r.deadline.value, key + value + rest);
    } else {
      assert [] + [OP_STRING] + key + value + rest == [OP_STRING] + (key + value + rest);
      PlainItem(key + value + rest);
    }
  }

  lemma PlainItem(pair: Bytes)
    ensures ReadItem([OP_STRING] + pair) == ReadPair(pair, None)
  {
    assert ([OP_STRING] + pair)[1..] == pair;
  }

  lemma TimedItem(deadline: nat, pair: Bytes)
    requires deadline < U64 / 2
    ensures ReadItem([OP_EXPIRE_MS] + (Fixed(deadline, 8) + ([OP_STRING] + pair))) == ReadPair(pair, Some(deadline))
  {
    hide ReadPair, Fixed;
    var d, tail := Fixed(deadline, 8), [OP_STRING] + pair;
    FixedSizes();
    FixedReadsBack(deadline, 8);
    assert ([OP_EXPIRE_MS] + (d + tail))[1..] == d + tail;
    assert (d + tail)[..8] == d && (d + tail)[8..] == tail;
    assert tail[1..] == pair;
  }

  lemma PairReadsBack(r: Record, rest: Bytes)
    requires Fits(r)
    ensures ReadPair(Str(r.key) + Str(r.value) + rest, r.deadline) == One(r, rest)
  {
    assert Str(r.key) + Str(r.value) + rest == Str(r.key) + (Str(r.value) + rest);
    StrReadsBack(r.key, Str(r.value) + rest);
    StrReadsBack(r.value, rest);
  }

  lemma {:induction false} BodyReadsBack(rs: seq<Record>, rest: Bytes)
    requires AllFit(rs)
    ensures ReadBody(Body(rs) + [OP_EOF] + rest) == Some((rs, rest))
  {
    hide ReadItem, Marked;
    if rs == [] {
      EndReadsBack(rest);
      assert Body(rs) + [OP_EOF] + rest == [OP_EOF] + rest;
    } else {
      var more := Body(rs[1..]) + [OP_EOF] + rest;
      BodyReadsBack(rs[1..], rest);
      MarkedReadsBack(rs[0], more);
      assert Body(rs) + [OP_EOF] + rest == Marked(rs[0]) + more;
      assert [rs[0]] + rs[1..] == rs;
    }
  }

  lemma EndReadsBack(rest: Bytes)
    ensures ReadItem([OP_EOF] + rest) == End(rest)
  {
    assert ([OP_EOF] + rest)[1..] == rest;
  }

  /** A file is accepted only with the right header, an end marker before its last four bytes, and there the checksum of all before them. */
  lemma ParseAcceptsOnly(step: CrcStep, file: Bytes)
    requires Parse(step, file).Some?
    ensures |file| >= 12 && file[..6] == MAGIC && file[6] == VERSION && file[|file| - 5] == OP_EOF
    ensures Unfix(file[|file| - 4..]) == Crc(step, 0, file[..|file| - 4])
    ensures ReadBody(file[7..]) == Some((Parse(step, file).value, file[|file| - 4..]))
  {
    hide Crc, Unfix, ReadItem;
    var b := ReadBody(file[7..]).value;
    BodyEnds(file[7..]);
    assert file[|file| - 4..] == file[7..][|file[7..]| - 4..];
  }

  lemma {:induction false} BodyEnds(s: Bytes)
    requires ReadBody(s).Some?
    ensures var rest := ReadBody(s).value.1;
      |rest| < |s| && s[|s| - |rest|..] == rest && s[|s| - |rest| - 1] == OP_EOF
    decreases |s|
  {
    hide ReadPair, ReadFixed;
    var it := ReadItem(s);
    ItemIsSuffix(s);
    if it.One? {
      BodyEnds(it.rest);
    }
  }

  lemma ItemIsSuffix(s: Bytes)
    requires !ReadItem(s).Corrupt?
    ensures var rest := ReadItem(s).rest;
      |rest| < |s| && s[|s| - |rest|..] == rest && (ReadItem(s).End? ==> s[|s| - |rest| - 1] == OP_EOF)
  {
    hide ReadVarint, Unfix;
    if s[0] == OP_EXPIRE_MS {
      var d := ReadFixed(s[1..], 8).value;
      PairIsSuffix(d.1[1..], Some(d.0));
      assert d.1[1..] == s[10..];
    } else if s[0] != OP_EOF {
      PairIsSuffix(s[1..], None);
    }
  }

  lemma PairIsSuffix(s: Bytes, deadline: Option<nat>)
    requires !ReadPair(s, deadline).Corrupt?
    ensures var rest := ReadPair(s, deadline).rest; |rest| <= |s| && s[|s| - |rest|..] == rest
  {
    hide ReadVarint;
    StrIsSuffix(s);
    StrIsSuffix(ReadStr(s).value.1);
  }

  lemma StrIsSuffix(s: Bytes)
    requires ReadStr(s).Some?
    ensures var rest := ReadStr(s).value.1; |rest| <= |s| && s[|s| - |rest|..] == rest
  {
    VarintSplits(s, 0);
  }

  /** Reading a written file gives back its records, whatever the checksum function. */
  lemma ParseInvertsImage(step: CrcStep, rs: seq<Record>)
    requires AllFit(rs)
    ensures Parse(step, Image(step, rs)) == Some(rs)
  {
    hide ReadBody, Body, Crc;
    var crc := Crc(step, 0, Checked(rs));
    var file, tail := Image(step, rs), Fixed(crc, 4);
    BodyReadsBack(rs, tail);
    FixedSizes();
    FixedReadsBack(crc, 4);
    assert file == MAGIC + ([VERSION] + (Body(rs) + [OP_EOF] + tail));
    assert file[..6] == MAGIC && file[7..] == Body(rs) + [OP_EOF] + tail;
    assert file[..|file| - 4] == Checked(rs);
  }

  // --- writing and loading a store ------------------------------------------------------------

  /** The record of a key, unless its deadline has passed. */
  function RecordOf(ks: Keyspace, k: Key, now: int): (rs: seq<Record>)
    requires k in ks.vals
  {
    var d := if k in ks.exps && ks.exps[k] >= 0 then Some(ks.exps[k] as nat) else None;
    if d.Some? && d.value <= now then [] else [Record(k, ks.vals[k], d)]
  }

  /** The records written for a list of keys, in its order. */
  function Records(ks: Keyspace, keys: seq<Key>, now: int): (rs: seq<Record>)
    requires forall k :: k in keys ==> k in ks.vals
  {
    if keys == [] then []
    else Records(ks, keys[..|keys| - 1], now) + RecordOf(ks, keys[|keys| - 1], now)
  }

  /** One record put into a store; one whose deadline has passed is skipped. */
  function Loaded(ks: Keyspace, r: Record, now: int, passive: bool): (result: Keyspace) {
    if r.deadline.Some? && r.deadline.value <= now then ks
    else
      var put := After(ks, Put(r.key, r.value, false), now, passive);
      if r.deadline.Some? then After(put, SetExpire(r.key, r.deadline.value), now, passive) else put
  }

  function LoadAll(ks: Keyspace, rs: seq<Record>, now: int, passive: bool): (r: Keyspace) {
    if rs == [] then ks else Loaded(LoadAll(ks, rs[..|rs| - 1], now, passive), rs[|rs| - 1], now, passive)
  }

  const EMPTY: Keyspace := Keyspace(map[], map[])

  /** The part of a store that is about some of its keys and still live. */
  function Kept(ks: Keyspace, keys: seq<Key>, now: int): (r: Keyspace) {
    Keyspace(map k | k in ks.vals && k in keys && Live(ks, k, now) :: ks.vals[k],
             map k | k in ks.exps && k in keys && Live(ks, k, now) :: ks.exps[k])
  }

  predicate NonNegative(ks: Keyspace) {
    forall k :: k in ks.exps ==> ks.exps[k] >= 0
  }

  /** Every key, value and deadline fits the format. */
  predicate Fitting(ks: Keyspace) {
    && (forall k :: k in ks.vals ==> |k| < U64 && |ks.vals[k]| < U64)
    && (forall k :: k in ks.exps ==> ks.exps[k] < U64 / 2)
  }

  lemma {:induction false} RecordsFit(ks: Keyspace, keys: seq<Key>, now: int)
    requires Fitting(ks) && forall k :: k in keys ==> k in ks.vals
    ensures AllFit(Records(ks, keys, now))
  {
    if keys != [] {
      RecordsFit(ks, keys[..|keys| - 1], now);
    }
  }

  lemma KeptOneMore(ks: Keyspace, keys: seq<Key>, k: Key, now: int)
    requires Sound(ks) && k in ks.vals && k !in keys
    ensures var at := Kept(ks, keys, now); k !in at.vals && k !in at.exps
    ensures var at := Kept(ks, keys, now);
      Kept(ks, keys + [k], now) ==
      if !Live(ks, k, now) then at
      else Keyspace(at.vals[k := ks.vals[k]], if k in ks.exps then at.exps[k := ks.exps[k]] else at.exps)
  {
    var at, with := Kept(ks, keys, now), Kept(ks, keys + [k], now);
    if !Live(ks, k, now) {
      assert with.vals == at.vals && with.exps == at.exps;
    } else {
      assert with.vals == at.vals[k := ks.vals[k]];
      assert with.exps == if k in ks.exps then at.exps[k := ks.exps[k]] else at.exps;
    }
  }

  lemma KeptNone(ks: Keyspace, now: int)
    ensures Kept(ks, [], now) == EMPTY
  {
  }

  lemma LiveMeans(ks: Keyspace, k: Key, now: int)
    requires k in ks.vals
    ensures Live(ks, k, now) <==> (k in ks.exps ==> ks.exps[k] > now)
  {
  }

  lemma SkipsLate(at: Keyspace, r: Record, now: int, passive: bool)
    requires r.deadline.Some? && r.deadline.value <= now
    ensures Loaded(at, r, now, passive) == at
  {
  }

  lemma LoadedOnto(at: Keyspace, r: Record, now: int, passive: bool)
    requires r.key !in at.vals && r.key !in at.exps && (r.deadline.Some? ==> r.deadline.value > now)
    ensures Loaded(at, r, now, passive) ==
      Keyspace(at.vals[r.key := r.value], if r.deadline.Some? then at.exps[r.key := r.deadline.value] else at.exps)
  {
    assert at.exps - {r.key} == at.exps;
  }

  /** Loading what was written for one more key. */
  lemma LoadOne(ks: Keyspace, keys: seq<Key>, k: Key, now: int, later: int, passive: bool)
    requires Sound(ks) && NonNegative(ks) && now <= later && k in ks.vals && k !in keys
    ensures var more, at := RecordOf(ks, k, now), Kept(ks, keys, later);
      |more| <= 1 && Kept(ks, keys + [k], later) == if more == [] then at else Loaded(at, more[0], later, passive)
  {
    hide Kept, Loaded, Live, Sound;
    KeptOneMore(ks, keys, k, later);
    LiveMeans(ks, k, later);
    var more := RecordOf(ks, k, now);
    if more != [] {
      if more[0].deadline.Some? && more[0].deadline.value <= later {
        SkipsLate(Kept(ks, keys, later), more[0], later, passive);
      } else {
        LoadedOnto(Kept(ks, keys, later), more[0], later, passive);
      }
    }
  }

  lemma {:induction false} LoadKeeps(ks: Keyspace, keys: seq<Key>, now: int, later: int, passive: bool)
    requires Sound(ks) && NonNegative(ks) && now <= later && Distinct(keys) && forall k :: k in keys ==> k in ks.vals
    ensures LoadAll(EMPTY, Records(ks, keys, now), later, passive) == Kept(ks, keys, later)
  {
    hide Kept, Loaded, Live, Sound, NonNegative, RecordOf;
    if keys == [] {
      KeptNone(ks, later);
    } else {
      var n := |keys| - 1;
      var init, k := keys[..n], keys[n];
      LoadKeeps(ks, init, now, later, passive);
      assert keys == init + [k] && k !in init;
      LoadOne(ks, init, k, now, later, passive);
      LoadsLast(Records(ks, init, now), RecordOf(ks, k, now), later, passive);
    }
  }

  lemma LoadsLast(rs: seq<Record>, more: seq<Record>, later: int, passive: bool)
    requires |more| <= 1
    ensures var at := LoadAll(EMPTY, rs, later, passive);
      LoadAll(EMPTY, rs + more, later, passive) == if more == [] then at else Loaded(at, more[0], later, passive)
  {
    hide Loaded;
    if more == [] {
      assert rs + more == rs;
    } else {
      assert (rs + more)[..|rs|] == rs;
    }
  }

  /**
   Writing a snapshot and loading it at a later time gives exactly the keys still
   live then, with their values and deadlines, in whatever order the keys were written.
   */
  lemma SnapshotRoundTrip(step: CrcStep, ks: Keyspace, keys: seq<Key>, now: int, later: int, passive: bool)
    requires Sound(ks) && NonNegative(ks) && now <= later
    requires Distinct(keys) && forall k :: k in keys <==> k in ks.vals
    requires Fitting(ks)
    ensures var parsed := Parse(step, Image(step, Records(ks, keys, now)));
      && parsed.Some?
      && var got := LoadAll(EMPTY, parsed.value, later, passive);
      && ViewAt(got, later) == ViewAt(ks, later)
      && got.vals.Keys == ViewAt(ks, later).Keys
  {
    RecordsFit(ks, keys, now);
    ParseInvertsImage(step, Records(ks, keys, now));
    LoadKeeps(ks, keys, now, later, passive);
    hide Parse, Image, LoadAll, Records;
    KeptView(ks, keys, later);
  }

  lemma KeptView(ks: Keyspace, keys: seq<Key>, now: int)
    requires forall k :: k in keys <==> k in ks.vals
    ensures ViewAt(Kept(ks, keys, now), now) == ViewAt(ks, now)
    ensures Kept(ks, keys, now).vals.Keys == ViewAt(ks, now).Keys
  {
  }
}
