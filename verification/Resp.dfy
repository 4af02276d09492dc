/**
 The RESP wire format of commands: an array of bulk strings.
 Printing, incremental parsing, and what ties them together.
 */
module Resp {
  import opened Prelude

  const CR: byte := 13
  const LF: byte := 10
  const Star: byte := 42
  const Dollar: byte := 36
  const Zero: byte := 48

  const Crlf: Bytes := [CR, LF]

  /** The largest value of a 64-bit C++ size_t. */
  const SizeMax: nat := 0xFFFF_FFFF_FFFF_FFFF

  type Argv = seq<Bytes>

  // --- decimal lengths ----------------------------------------------------------

  function Digits(n: nat): (s: Bytes)
    ensures s != [] && AllDigits(s)
  {
    if n < 10 then [Zero + n] else Digits(n / 10) + [Zero + n % 10]
  }

  predicate AllDigits(s: Bytes) {
    forall i :: 0 <= i < |s| ==> Zero <= s[i] <= Zero + 9
  }

  /** The number a run of digits denotes. */
  function Value(s: Bytes): (n: nat)
    requires AllDigits(s)
  {
    if s == [] then 0 else Value(s[..|s| - 1]) * 10 + (s[|s| - 1] - Zero)
  }

  /** An unsigned length that fits size_t: a non-empty run of digits, nothing else. */
  function ParsedLength(s: Bytes): (n: Option<nat>) {
    if s != [] && AllDigits(s) && Value(s) <= SizeMax then Some(Value(s)) else None
  }

  lemma {:induction false} DigitsRoundTrip(n: nat)
    ensures Value(Digits(n)) == n
  {
    if n >= 10 {
      DigitsRoundTrip(n / 10);
      var s := Digits(n);
      assert s[..|s| - 1] == Digits(n / 10);
    }
  }

  lemma {:induction false} ValueGrows(s: Bytes, i: nat)
    requires AllDigits(s) && i <= |s|
    ensures Value(s[..i]) <= Value(s)
  {
    if i < |s| {
      var t := s[..|s| - 1];
      ValueGrows(t, i);
      assert t[..i] == s[..i];
    } else {
      assert s[..i] == s;
    }
  }

  method ParseLength(buf: Bytes, begin: nat, end: nat) returns (out: Option<nat>)
    requires end <= |buf|
    ensures out == if begin < end then ParsedLength(buf[begin..end]) else None
  {
    if begin >= end {
      return None;
    }
    ghost var s := buf[begin..end];
    var value: nat := 0;
    for i := begin to end
      invariant AllDigits(s[..i - begin]) && value == Value(s[..i - begin]) <= SizeMax
    {
      var c := buf[i];
      assert c == s[i - begin];
      if c < Zero || c > Zero + 9 {
        return None;
      }
      var digit := c - Zero;
      ghost var t := s[..i - begin + 1];
      assert t[..|t| - 1] == s[..i - begin];
      if value > (SizeMax - digit) / 10 {
        if AllDigits(s) {
          ValueGrows(s, i - begin + 1);
        }
        return None;
      }
      value := value * 10 + digit;
    }
    assert s[..end - begin] == s;
    out := Some(value);
  }

  // --- lines ------------------------------------------------------------------------

  /** Where the first CRLF at or after `from` starts. */
  function FindCrlf(buf: Bytes, from: nat): (at: Option<nat>)
    ensures at.Some? ==> from <= at.value && at.value + 2 <= |buf|
    decreases |buf| - from
  {
    if from + 1 >= |buf| then None
    else if buf[from] == CR && buf[from + 1] == LF then Some(from)
    else FindCrlf(buf, from + 1)
  }

  lemma {:induction false} FindIsStable(buf: Bytes, more: Bytes, from: nat)
    requires FindCrlf(buf, from).Some?
    ensures FindCrlf(buf + more, from) == FindCrlf(buf, from)
    decreases |buf| - from
  {
    if !(buf[from] == CR && buf[from + 1] == LF) {
      FindIsStable(buf, more, from + 1);
    }
  }

  lemma {:induction false} FindSkipsDigits(buf: Bytes, from: nat, end: nat)
    requires from <= end && end + 2 <= |buf| && AllDigits(buf[from..end])
    requires buf[end] == CR && buf[end + 1] == LF
    ensures FindCrlf(buf, from) == Some(end)
    decreases end - from
  {
    if from < end {
      assert buf[from] == buf[from..end][0];
      assert buf[from + 1..end] == buf[from..end][1..];
      FindSkipsDigits(buf, from + 1, end);
    }
  }

  // --- parsing -----------------------------------------------------------------------

  datatype Parse<+T> = Incomplete | Bad | Done(value: T, next: nat)

  /** One $<len> bulk string starting at `pos`. */
  function ParseBulk(buf: Bytes, pos: nat): (r: Parse<Bytes>)
    ensures r.Done? ==> pos < r.next <= |buf|
  {
    if pos >= |buf| then Incomplete
    else if buf[pos] != Dollar then Bad
    else match FindCrlf(buf, pos + 1)
      case None => Incomplete
      case Some(e) =>
        match ParsedLength(buf[pos + 1..e])
        case None => Bad
        case Some(len) =>
          var p := e + 2;
          if |buf| - p < len + 2 then Incomplete
          else if buf[p + len] != CR || buf[p + len + 1] != LF then Bad
          else Done(buf[p..p + len], p + len + 2)
  }

  function ParseBulks(buf: Bytes, pos: nat, count: nat): (r: Parse<Argv>)
    ensures r.Done? ==> (pos <= |buf| ==> pos <= r.next <= |buf|) && |r.value| == count
    decreases count
  {
    if count == 0 then Done([], pos)
    else match ParseBulk(buf, pos)
      case Incomplete => Incomplete
      case Bad => Bad
      case Done(arg, next) =>
        match ParseBulks(buf, next, count - 1)
        case Incomplete => Incomplete
        case Bad => Bad
        case Done(args, end) => Done([arg] + args, end)
  }

  /** The command at the front of the buffer. */
  function ParseCommand(buf: Bytes): (r: Parse<Argv>)
    ensures r.Done? ==> 0 < r.next <= |buf|
  {
    if buf == [] then Incomplete
    else if buf[0] != Star then Bad
    else match FindCrlf(buf, 1)
      case None => Incomplete
      case Some(e) =>
        match ParsedLength(buf[1..e])
        case None => Bad
        case Some(count) => ParseBulks(buf, e + 2, count)
  }

  /** A verdict other than Incomplete never changes as more bytes arrive. */
  lemma BulkIsStable(buf: Bytes, more: Bytes, pos: nat)
    requires !ParseBulk(buf, pos).Incomplete?
    ensures ParseBulk(buf + more, pos) == ParseBulk(buf, pos)
  {
    if buf[pos] == Dollar {
      FindIsStable(buf, more, pos + 1);
      var e := FindCrlf(buf, pos + 1).value;
      assert (buf + more)[pos + 1..e] == buf[pos + 1..e];
      var n := ParsedLength(buf[pos + 1..e]);
      if n.Some? {
        assert (buf + more)[e + 2..e + 2 + n.value] == buf[e + 2..e + 2 + n.value];
      }
    }
  }

  lemma {:induction false} BulksAreStable(buf: Bytes, more: Bytes, pos: nat, count: nat)
    requires !ParseBulks(buf, pos, count).Incomplete?
    ensures ParseBulks(buf + more, pos, count) == ParseBulks(buf, pos, count)
    decreases count
  {
    if count > 0 {
      BulkIsStable(buf, more, pos);
      var b := ParseBulk(buf, pos);
      if b.Done? {
        BulksAreStable(buf, more, b.next, count - 1);
      }
    }
  }

  lemma VerdictIsStable(buf: Bytes, more: Bytes)
    requires !ParseCommand(buf).Incomplete?
    ensures ParseCommand(buf + more) == ParseCommand(buf)
  {
    if buf[0] == Star {
      FindIsStable(buf, more, 1);
      var e := FindCrlf(buf, 1).value;
      assert (buf + more)[1..e] == buf[1..e];
      var count := ParsedLength(buf[1..e]);
      if count.Some? {
        BulksAreStable(buf, more, e + 2, count.value);
      }
    }
  }

  // --- printing -----------------------------------------------------------------------

  function Line(mark: byte, n: nat): (s: Bytes) {
    [mark] + Digits(n) + Crlf
  }

  function Bulk(s: Bytes): (out: Bytes) {
    Line(Dollar, |s|) + s + Crlf
  }

  function BulkAll(argv: Argv): (out: Bytes) {
    if argv == [] then [] else Bulk(argv[0]) + BulkAll(argv[1..])
  }

  /** How a command is printed, for the wire and for the log alike. */
  function Encode(argv: Argv): (out: Bytes)
    ensures |out| > 0
  {
    Line(Star, |argv|) + BulkAll(argv)
  }

  predicate Printable(argv: Argv) {
    |argv| <= SizeMax && forall i :: 0 <= i < |argv| ==> |argv[i]| <= SizeMax
  }

  /** A printed length line is read back, wherever it stands. */
  lemma LineReadsBack(buf: Bytes, pos: nat, mark: byte, n: nat)
    requires n <= SizeMax && Line(mark, n) <= buf[Min(pos, |buf|)..]
    ensures pos < |buf| && buf[pos] == mark
    ensures var e := pos + 1 + |Digits(n)|;
      FindCrlf(buf, pos + 1) == Some(e) && ParsedLength(buf[pos + 1..e]) == Some(n) && e + 2 == pos + |Line(mark, n)|
  {
    var line, e := Line(mark, n), pos + 1 + |Digits(n)|;
    assert forall i :: 0 <= i < |line| ==> buf[pos + i] == line[i];
    assert buf[pos + 1..e] == Digits(n);
    FindSkipsDigits(buf, pos + 1, e);
    DigitsRoundTrip(n);
  }

  lemma BulkLayout(pre: Bytes, line: Bytes, s: Bytes, rest: Bytes)
    ensures var buf, p := pre + (line + s + Crlf) + rest, |pre| + |line|;
      && line <= buf[|pre|..] && p + |s| + 2 <= |buf| && buf[p..p + |s|] == s
      && buf[p + |s|] == CR && buf[p + |s| + 1] == LF
  {
  }

  lemma BulkReadsBack(pre: Bytes, s: Bytes, rest: Bytes)
    requires |s| <= SizeMax
    ensures ParseBulk(pre + Bulk(s) + rest, |pre|) == Done(s, |pre| + |Bulk(s)|)
  {
    hide FindCrlf, ParsedLength, Line, Digits;
    BulkLayout(pre, Line(Dollar, |s|), s, rest);
    LineReadsBack(pre + Bulk(s) + rest, |pre|, Dollar, |s|);
  }

  lemma {:induction false} BulksReadBack(pre: Bytes, argv: Argv, rest: Bytes)
    requires Printable(argv)
    ensures ParseBulks(pre + BulkAll(argv) + rest, |pre|, |argv|) == Done(argv, |pre| + |BulkAll(argv)|)
    decreases |argv|
  {
    hide ParseBulk, Bulk;
    if argv != [] {
      var first, tail := Bulk(argv[0]), BulkAll(argv[1..]);
      BulkReadsBack(pre, argv[0], tail + rest);
      BulksReadBack(pre + first, argv[1..], rest);
      FourParts(pre, first, tail, rest);
      assert argv == [argv[0]] + argv[1..];
    }
  }

  lemma FourParts(a: Bytes, b: Bytes, c: Bytes, d: Bytes)
    ensures a + b + (c + d) == a + (b + c) + d == (a + b) + c + d
  {
  }

  /** The parser inverts the printer, and consumes exactly what was printed. */
  lemma ParseInvertsEncode(argv: Argv, rest: Bytes)
    requires Printable(argv)
    ensures ParseCommand(Encode(argv) + rest) == Done(argv, |Encode(argv)|)
  {
    hide FindCrlf, ParsedLength, ParseBulks, BulkAll;
    var head := Line(Star, |argv|);
    var buf := Encode(argv) + rest;
    assert buf == head + (BulkAll(argv) + rest);
    assert buf[0..] == buf;
    LineReadsBack(buf, 0, Star, |argv|);
    assert buf == head + BulkAll(argv) + rest;
    BulksReadBack(head, argv, rest);
  }

  /** Cut anywhere short of its end, a printed command is never mistaken for anything else. */
  lemma ProperPrefixIsIncomplete(argv: Argv, k: nat)
    requires Printable(argv) && k < |Encode(argv)|
    ensures ParseCommand(Encode(argv)[..k]).Incomplete?
  {
    hide ParseCommand, Encode;
    var all := Encode(argv);
    ParseInvertsEncode(argv, []);
    assert all + [] == all && all[..k] + all[k..] == all;
    if !ParseCommand(all[..k]).Incomplete? {
      VerdictIsStable(all[..k], all[k..]);
      assert false;
    }
  }

  // --- a stream of commands ---------------------------------------------------------------

  /** The commands a parser takes from its buffer until it needs more, or gives up. */
  datatype Drained = Drained(cmds: seq<Argv>, rest: Bytes, broken: bool)

  function Drain(buf: Bytes): (d: Drained)
    ensures |d.rest| <= |buf|
    decreases |buf|
  {
    match ParseCommand(buf)
    case Incomplete => Drained([], buf, false)
    case Bad => Drained([], buf, true)
    case Done(argv, next) => Behind([argv], Drain(buf[next..]))
  }

  function Behind(cmds: seq<Argv>, d: Drained): (r: Drained) {
    d.(cmds := cmds + d.cmds)
  }

  lemma BehindJoins(a: seq<Argv>, b: seq<Argv>, d: Drained)
    ensures Behind(a, Behind(b, d)) == Behind(a + b, d)
  {
    assert a + (b + d.cmds) == a + b + d.cmds;
  }

  /** The unconsumed bytes are the end of the input, untouched. */
  lemma {:induction false} DrainLeavesTail(buf: Bytes)
    ensures Drain(buf).rest == buf[|buf| - |Drain(buf).rest|..]
    decreases |buf|
  {
    hide ParseCommand;
    var r := ParseCommand(buf);
    if r.Done? {
      DrainLeavesTail(buf[r.next..]);
    }
  }

  /** Bytes arriving later never change what was already taken. */
  lemma {:induction false} DrainSplits(a: Bytes, b: Bytes)
    ensures var d := Drain(a);
      Drain(a + b) == if d.broken then d.(rest := d.rest + b) else Behind(d.cmds, Drain(d.rest + b))
    decreases |a|
  {
    hide ParseCommand;
    var r := ParseCommand(a);
    if r.Incomplete? {
      assert [] + Drain(a + b).cmds == Drain(a + b).cmds;
    } else {
      VerdictIsStable(a, b);
      if r.Done? {
        var tail := a[r.next..];
        assert (a + b)[r.next..] == tail + b;
        DrainSplits(tail, b);
        BehindJoins([r.value], Drain(tail).cmds, Drain(Drain(tail).rest + b));
      }
    }
  }

  function Concat(chunks: seq<Bytes>): (s: Bytes) {
    if chunks == [] then [] else chunks[0] + Concat(chunks[1..])
  }

  /** What a connection has executed after reading the chunks one by one. */
  function DrainChunks(buf: Bytes, chunks: seq<Bytes>): (d: Drained)
    decreases |chunks|
  {
    var d := Drain(buf);
    if chunks == [] || d.broken then d
    else Behind(d.cmds, DrainChunks(d.rest + chunks[0], chunks[1..]))
  }

  /** However the bytes are split, the same commands come out, and the same bytes are left over. */
  lemma {:induction false} SplitIndependent(buf: Bytes, chunks: seq<Bytes>)
    ensures var d, whole := DrainChunks(buf, chunks), Drain(buf + Concat(chunks));
      d.cmds == whole.cmds && d.broken == whole.broken && (!d.broken ==> d.rest == whole.rest)
    decreases |chunks|
  {
    hide Drain;
    var d := Drain(buf);
    DrainSplits(buf, Concat(chunks));
    if chunks == [] {
      assert buf + Concat(chunks) == buf;
    } else if !d.broken {
      assert d.rest + Concat(chunks) == (d.rest + chunks[0]) + Concat(chunks[1..]);
      SplitIndependent(d.rest + chunks[0], chunks[1..]);
    }
  }

  function EncodeAll(cmds: seq<Argv>): (out: Bytes) {
    if cmds == [] then [] else Encode(cmds[0]) + EncodeAll(cmds[1..])
  }

  predicate AllPrintable(cmds: seq<Argv>) {
    forall i :: 0 <= i < |cmds| ==> Printable(cmds[i])
  }

  lemma {:induction false} EncodeAllJoins(a: seq<Argv>, b: seq<Argv>)
    ensures EncodeAll(a + b) == EncodeAll(a) + EncodeAll(b)
    decreases |a|
  {
    if a == [] {
      assert a + b == b;
    } else {
      assert (a + b)[1..] == a[1..] + b;
      EncodeAllJoins(a[1..], b);
    }
  }

  /** How many whole commands fit in the first `k` bytes of their log. */
  function WholeCommands(cmds: seq<Argv>, k: nat): (n: nat)
    ensures n <= |cmds|
    decreases |cmds|
  {
    if cmds == [] || k < |Encode(cmds[0])| then 0 else 1 + WholeCommands(cmds[1..], k - |Encode(cmds[0])|)
  }

  /** WholeCommands is the longest prefix that fits. */
  lemma {:induction false} WholeCommandsIsLongest(cmds: seq<Argv>, k: nat)
    ensures var n := WholeCommands(cmds, k);
      && |EncodeAll(cmds[..n])| <= k && (n < |cmds| ==> |EncodeAll(cmds[..n + 1])| > k)
      && (k == |EncodeAll(cmds)| ==> n == |cmds|)
    decreases |cmds|
  {
    var n := WholeCommands(cmds, k);
    if n == 0 {
      assert cmds[..0] == [];
      if cmds != [] {
        assert cmds[..1] == [cmds[0]];
        assert EncodeAll([cmds[0]]) == Encode(cmds[0]) + EncodeAll([]);
      }
    } else {
      WholeCommandsIsLongest(cmds[1..], k - |Encode(cmds[0])|);
      assert cmds[..n] == [cmds[0]] + cmds[1..][..n - 1];
      assert cmds[..n][1..] == cmds[1..][..n - 1];
      if n < |cmds| {
        assert cmds[..n + 1][1..] == cmds[1..][..n];
      }
    }
  }

  lemma DrainOne(argv: Argv, rest: Bytes)
    requires Printable(argv)
    ensures Drain(Encode(argv) + rest) == Behind([argv], Drain(rest))
  {
    ParseInvertsEncode(argv, rest);
    hide ParseCommand, Encode;
    assert (Encode(argv) + rest)[|Encode(argv)|..] == rest;
  }

  lemma DrainNone(argv: Argv, k: nat)
    requires Printable(argv) && k < |Encode(argv)|
    ensures Drain(Encode(argv)[..k]) == Drained([], Encode(argv)[..k], false)
  {
    ProperPrefixIsIncomplete(argv, k);
    hide ParseCommand, Encode;
  }

  /** A log cut anywhere replays exactly its longest prefix of whole commands. */
  lemma {:induction false} TornLogReplaysLongestPrefix(cmds: seq<Argv>, k: nat)
    requires AllPrintable(cmds) && k <= |EncodeAll(cmds)|
    ensures var d, n := Drain(EncodeAll(cmds)[..k]), WholeCommands(cmds, k);
      d.cmds == cmds[..n] && !d.broken && k - |d.rest| == |EncodeAll(cmds[..n])|
    decreases |cmds|
  {
    hide Drain, Encode;
    var log := EncodeAll(cmds);
    if cmds == [] {
      assert log[..k] == [];
      DrainEmpty();
    } else if k < |Encode(cmds[0])| {
      assert log[..k] == Encode(cmds[0])[..k];
      DrainNone(cmds[0], k);
    } else {
      var first, tail := Encode(cmds[0]), EncodeAll(cmds[1..]);
      var j, n := k - |first|, WholeCommands(cmds, k);
      assert log[..k] == first + tail[..j];
      DrainOne(cmds[0], tail[..j]);
      TornLogReplaysLongestPrefix(cmds[1..], j);
      assert cmds[..n] == [cmds[0]] + cmds[1..][..n - 1];
      assert cmds[..n][1..] == cmds[1..][..n - 1];
    }
  }

  lemma DrainEmpty()
    ensures Drain([]) == Drained([], [], false)
  {
  }
}
