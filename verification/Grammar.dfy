/** The commands the parser accepts, as a grammar, and the malformed ones it refuses. */
module Grammar {
  import opened Prelude
  import opened Resp

  /** Decimal digits that denote `n`, which fits size_t; leading zeros are allowed. */
  predicate Number(d: Bytes, n: nat) {
    d != [] && AllDigits(d) && Value(d) == n && n <= SizeMax
  }

  /** A line with a mark and a number. */
  ghost predicate Numbered(s: Bytes, mark: byte, n: nat) {
    exists d :: Number(d, n) && s == [mark] + d + Crlf
  }

  ghost predicate IsBulk(s: Bytes, arg: Bytes) {
    exists k :: 0 <= k <= |s| && Numbered(s[..k], Dollar, |arg|) && s[k..] == arg + Crlf
  }

  ghost predicate IsBulks(s: Bytes, argv: Argv)
    decreases |argv|
  {
    if argv == [] then s == []
    else exists k :: 0 <= k <= |s| && IsBulk(s[..k], argv[0]) && IsBulks(s[k..], argv[1..])
  }

  ghost predicate IsCommand(s: Bytes, argv: Argv) {
    exists k :: 0 <= k <= |s| && Numbered(s[..k], Star, |argv|) && IsBulks(s[k..], argv)
  }

  // --- lines --------------------------------------------------------------------------

  lemma {:induction false} FoundIsCrlf(buf: Bytes, from: nat)
    requires FindCrlf(buf, from).Some?
    ensures var e := FindCrlf(buf, from).value; buf[e] == CR && buf[e + 1] == LF
    decreases |buf| - from
  {
    if !(buf[from] == CR && buf[from + 1] == LF) {
      FoundIsCrlf(buf, from + 1);
    }
  }

  /** The line at `pos` is a mark and a number, and ends just before `next`. */
  predicate FoundLine(buf: Bytes, pos: nat, mark: byte, n: nat, next: nat) {
    && pos < |buf| && buf[pos] == mark && FindCrlf(buf, pos + 1) == Some(next - 2)
    && pos + 3 <= next && ParsedLength(buf[pos + 1..next - 2]) == Some(n)
  }

  /** A numbered line is found if and only if it is there. */
  lemma LineIff(buf: Bytes, pos: nat, mark: byte, n: nat, next: nat)
    ensures FoundLine(buf, pos, mark, n, next) <==> pos <= next <= |buf| && Numbered(buf[pos..next], mark, n)
  {
    if FoundLine(buf, pos, mark, n, next) {
      LineFound(buf, pos, mark, n, next);
    }
    if pos <= next <= |buf| && Numbered(buf[pos..next], mark, n) {
      var d :| Number(d, n) && buf[pos..next] == [mark] + d + Crlf;
      LineThere(buf, pos, mark, n, next, d);
    }
  }

  lemma LineFound(buf: Bytes, pos: nat, mark: byte, n: nat, next: nat)
    requires FoundLine(buf, pos, mark, n, next)
    ensures pos <= next <= |buf| && Numbered(buf[pos..next], mark, n)
  {
    FoundIsCrlf(buf, pos + 1);
    hide Value, FindCrlf;
    var d := buf[pos + 1..next - 2];
    assert Number(d, n);
    assert buf[pos..next] == [mark] + d + Crlf;
  }

  lemma LineThere(buf: Bytes, pos: nat, mark: byte, n: nat, next: nat, d: Bytes)
    requires pos <= next <= |buf| && Number(d, n) && buf[pos..next] == [mark] + d + Crlf
    ensures FoundLine(buf, pos, mark, n, next)
  {
    hide Value, FindCrlf;
    var line, found := [mark] + d + Crlf, buf[pos..next];
    assert |found| == |d| + 3;
    forall i | 0 <= i < |line|
      ensures buf[pos + i] == line[i]
    {
      assert found[i] == line[i];
    }
    forall i | 0 <= i < |d|
      ensures buf[pos + 1 + i] == d[i]
    {
      assert line[1 + i] == d[i];
    }
    assert buf[pos + 1..next - 2] == d;
    FindSkipsDigits(buf, pos + 1, next - 2);
  }

  // --- bulk strings and commands ----------------------------------------------------------

  lemma BulkIff(buf: Bytes, pos: nat, arg: Bytes, next: nat)
    requires pos <= |buf|
    ensures ParseBulk(buf, pos) == Done(arg, next) <==> pos <= next <= |buf| && IsBulk(buf[pos..next], arg)
  {
    if ParseBulk(buf, pos) == Done(arg, next) {
      DoneIsBulk(buf, pos, arg, next);
    }
    if pos <= next <= |buf| && IsBulk(buf[pos..next], arg) {
      BulkIsDone(buf, pos, arg, next);
    }
  }

  lemma DoneIsBulk(buf: Bytes, pos: nat, arg: Bytes, next: nat)
    requires ParseBulk(buf, pos) == Done(arg, next)
    ensures pos <= next <= |buf| && IsBulk(buf[pos..next], arg)
  {
    hide Numbered, ParsedLength, FindCrlf;
    var p := FindCrlf(buf, pos + 1).value + 2;
    LineIff(buf, pos, Dollar, |arg|, p);
    assert buf[pos..next][..p - pos] == buf[pos..p];
    assert buf[pos..next][p - pos..] == buf[p..next] == arg + Crlf;
  }

  /** Once the length is read, the bytes after the line decide. */
  lemma AfterLine(buf: Bytes, pos: nat, n: nat, p: nat)
    requires FoundLine(buf, pos, Dollar, n, p) && p <= |buf|
    ensures ParseBulk(buf, pos) ==
      if |buf| - p < n + 2 then Incomplete
      else if buf[p + n] != CR || buf[p + n + 1] != LF then Bad
      else Done(buf[p..p + n], p + n + 2)
  {
    hide ParsedLength, FindCrlf;
  }

  lemma BulkIsDone(buf: Bytes, pos: nat, arg: Bytes, next: nat)
    requires pos <= next <= |buf| && IsBulk(buf[pos..next], arg)
    ensures ParseBulk(buf, pos) == Done(arg, next)
  {
    hide IsBulk, Numbered, FoundLine, ParseBulk;
    var p := BulkSplits(buf, pos, next, arg);
    LineIff(buf, pos, Dollar, |arg|, p);
    TailIs(buf, p, next, arg);
    AfterLine(buf, pos, |arg|, p);
  }

  lemma BulkSplits(buf: Bytes, pos: nat, next: nat, arg: Bytes) returns (p: nat)
    requires pos <= next <= |buf| && IsBulk(buf[pos..next], arg)
    ensures pos <= p <= next && Numbered(buf[pos..p], Dollar, |arg|) && buf[p..next] == arg + Crlf
  {
    hide Numbered;
    var s := buf[pos..next];
    var k :| 0 <= k <= |s| && Numbered(s[..k], Dollar, |arg|) && s[k..] == arg + Crlf;
    p := pos + k;
    assert s[..k] == buf[pos..p] && s[k..] == buf[p..next];
  }

  lemma TailIs(buf: Bytes, p: nat, next: nat, arg: Bytes)
    requires p <= next <= |buf| && buf[p..next] == arg + Crlf
    ensures next == p + |arg| + 2 && buf[p..p + |arg|] == arg && buf[p + |arg|] == CR && buf[p + |arg| + 1] == LF
  {
    assert |buf[p..next]| == |arg| + 2;
    assert buf[p..next][..|arg|] == arg && buf[p..next][|arg|] == CR && buf[p..next][|arg| + 1] == LF;
  }

  lemma {:induction false} BulksIff(buf: Bytes, pos: nat, argv: Argv, next: nat)
    requires pos <= |buf|
    ensures ParseBulks(buf, pos, |argv|) == Done(argv, next) <==> pos <= next <= |buf| && IsBulks(buf[pos..next], argv)
    decreases |argv|
  {
    hide ParseBulk, IsBulk, IsBulks, ParseBulks;
    if argv == [] {
      NoBulks(buf, pos, next);
    } else {
      if ParseBulks(buf, pos, |argv|) == Done(argv, next) {
        var mid := FirstDone(buf, pos, argv, next);
        BulkIff(buf, pos, argv[0], mid);
        BulksIff(buf, mid, argv[1..], next);
        FirstJoins(buf, pos, mid, next, argv);
      }
      if pos <= next <= |buf| && IsBulks(buf[pos..next], argv) {
        var mid := FirstSplits(buf, pos, next, argv);
        BulkIff(buf, pos, argv[0], mid);
        BulksIff(buf, mid, argv[1..], next);
        FirstThen(buf, pos, mid, argv, next);
      }
    }
  }

  lemma NoBulks(buf: Bytes, pos: nat, next: nat)
    requires pos <= |buf|
    ensures ParseBulks(buf, pos, 0) == Done([], next) <==> pos <= next <= |buf| && IsBulks(buf[pos..next], [])
  {
  }

  lemma FirstDone(buf: Bytes, pos: nat, argv: Argv, next: nat) returns (mid: nat)
    requires argv != [] && ParseBulks(buf, pos, |argv|) == Done(argv, next)
    ensures mid <= |buf| && ParseBulk(buf, pos) == Done(argv[0], mid) && ParseBulks(buf, mid, |argv| - 1) == Done(argv[1..], next)
  {
    hide ParseBulk;
    mid := ParseBulk(buf, pos).next;
  }

  lemma FirstThen(buf: Bytes, pos: nat, mid: nat, argv: Argv, next: nat)
    requires argv != [] && ParseBulk(buf, pos) == Done(argv[0], mid) && ParseBulks(buf, mid, |argv| - 1) == Done(argv[1..], next)
    ensures ParseBulks(buf, pos, |argv|) == Done(argv, next)
  {
    hide ParseBulk;
    assert [argv[0]] + argv[1..] == argv;
  }

  lemma FirstJoins(buf: Bytes, pos: nat, mid: nat, next: nat, argv: Argv)
    requires argv != [] && pos <= mid <= next <= |buf| && IsBulk(buf[pos..mid], argv[0]) && IsBulks(buf[mid..next], argv[1..])
    ensures IsBulks(buf[pos..next], argv)
  {
    hide IsBulk;
    var s, k := buf[pos..next], mid - pos;
    assert s[..k] == buf[pos..mid] && s[k..] == buf[mid..next];
  }

  lemma FirstSplits(buf: Bytes, pos: nat, next: nat, argv: Argv) returns (mid: nat)
    requires argv != [] && pos <= next <= |buf| && IsBulks(buf[pos..next], argv)
    ensures pos <= mid <= next && IsBulk(buf[pos..mid], argv[0]) && IsBulks(buf[mid..next], argv[1..])
  {
    hide IsBulk;
    var s := buf[pos..next];
    var k :| 0 <= k <= |s| && IsBulk(s[..k], argv[0]) && IsBulks(s[k..], argv[1..]);
    mid := pos + k;
    assert s[..k] == buf[pos..mid] && s[k..] == buf[mid..next];
  }

  /** The parser takes a command off the front if and only if the bytes it takes spell that command. */
  lemma AcceptsIff(buf: Bytes, argv: Argv, next: nat)
    ensures ParseCommand(buf) == Done(argv, next) <==> next <= |buf| && IsCommand(buf[..next], argv)
  {
    hide ParseBulks, IsBulks, Numbered, FindCrlf, ParsedLength;
    if ParseCommand(buf) == Done(argv, next) {
      var p := FindCrlf(buf, 1).value + 2;
      LineIff(buf, 0, Star, |argv|, p);
      BulksIff(buf, p, argv, next);
      assert buf[..next][..p] == buf[0..p] && buf[..next][p..] == buf[p..next];
    }
    if next <= |buf| && IsCommand(buf[..next], argv) {
      var k :| 0 <= k <= next && Numbered(buf[..next][..k], Star, |argv|) && IsBulks(buf[..next][k..], argv);
      assert buf[..next][..k] == buf[0..k] && buf[..next][k..] == buf[k..next];
      assert buf != [] by { NotEmpty(buf[0..k], Star, |argv|); }
      LineIff(buf, 0, Star, |argv|, k);
      BulksIff(buf, k, argv, next);
    }
  }

  lemma NotEmpty(s: Bytes, mark: byte, n: nat)
    requires Numbered(s, mark, n)
    ensures s != []
  {
  }

  /** What is refused can never become a command, whatever follows. */
  lemma RefusedForGood(buf: Bytes, more: Bytes, argv: Argv, next: nat)
    requires ParseCommand(buf).Bad? && next <= |buf + more|
    ensures !IsCommand((buf + more)[..next], argv)
  {
    VerdictIsStable(buf, more);
    AcceptsIff(buf + more, argv, next);
  }

  // --- what is refused ---------------------------------------------------------------------

  /** The next thing is no bulk string: a wrong mark, a length that is no number, or bytes with no line end after them. */
  ghost predicate Malformed(s: Bytes) {
    s != [] &&
    (|| s[0] != Dollar
     || (exists e :: FindCrlf(s, 1) == Some(e) && ParsedLength(s[1..e]).None?)
     || (exists k, n :: 0 <= k <= |s| && Numbered(s[..k], Dollar, n) && k + n + 2 <= |s| && s[k + n..k + n + 2] != Crlf))
  }

  /** After any number of arguments that are in order, a malformed one is refused at once. */
  lemma MalformedIsRefused(argv: Argv, s: Bytes, count: nat)
    requires Printable(argv) && |argv| < count <= SizeMax && Malformed(s)
    ensures ParseCommand(Line(Star, count) + BulkAll(argv) + s).Bad?
  {
    hide ParseBulks, Malformed, BulkAll, FindCrlf, ParsedLength, Digits;
    var head := Line(Star, count);
    var buf := head + BulkAll(argv) + s;
    assert head <= buf[0..];
    LineReadsBack(buf, 0, Star, count);
    BulksThenBad(head, argv, s, count);
  }

  lemma {:induction false} BulksThenBad(pre: Bytes, argv: Argv, s: Bytes, count: nat)
    requires Printable(argv) && |argv| < count && Malformed(s)
    ensures ParseBulks(pre + BulkAll(argv) + s, |pre|, count).Bad?
    decreases |argv|
  {
    hide ParseBulk, Malformed, Bulk;
    if argv == [] {
      assert pre + BulkAll(argv) + s == pre + s;
      MalformedBulk(pre, s);
    } else {
      var first, tail := Bulk(argv[0]), BulkAll(argv[1..]);
      BulkReadsBack(pre, argv[0], tail + s);
      FourParts(pre, first, tail, s);
      BulksThenBad(pre + first, argv[1..], s, count - 1);
    }
  }

  lemma MalformedBulk(pre: Bytes, s: Bytes)
    requires Malformed(s)
    ensures ParseBulk(pre + s, |pre|).Bad?
  {
    hide ParsedLength, Numbered;
    var buf, pos := pre + s, |pre|;
    assert buf[pos] == s[0];
    if s[0] == Dollar {
      if e :| FindCrlf(s, 1) == Some(e) && ParsedLength(s[1..e]).None? {
        FindShifted(pre, s, 1);
        assert buf[pos + 1..pos + e] == s[1..e];
      } else {
        var k, n :| 0 <= k <= |s| && Numbered(s[..k], Dollar, n) && k + n + 2 <= |s| && s[k + n..k + n + 2] != Crlf;
        assert buf[pos..pos + k] == s[..k];
        LineIff(buf, pos, Dollar, n, pos + k);
        AfterLine(buf, pos, n, pos + k);
        assert buf[pos + k + n] == s[k + n] && buf[pos + k + n + 1] == s[k + n + 1];
      }
    }
  }

  lemma {:induction false} FindShifted(pre: Bytes, s: Bytes, from: nat)
    requires FindCrlf(s, from).Some?
    ensures FindCrlf(pre + s, |pre| + from) == Some(|pre| + FindCrlf(s, from).value)
    decreases |s| - from
  {
    if !(s[from] == CR && s[from + 1] == LF) {
      FindShifted(pre, s, from + 1);
    }
  }

  /** A first byte other than '*', or a count that is no number, is refused as well. */
  lemma BadHeaderIsRefused(buf: Bytes)
    requires buf != []
    requires buf[0] != Star || (FindCrlf(buf, 1).Some? && ParsedLength(buf[1..FindCrlf(buf, 1).value]).None?)
    ensures ParseCommand(buf).Bad?
  {
  }
}
