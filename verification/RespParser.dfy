/** The parser object, the printer's loop and the log replay loop, against Resp's functions. */
module RespParser {
  import opened Prelude
  import opened Resp

  datatype Status = Complete(command: Argv) | NeedMore | ProtocolError

  class Parser {
    var buffer: Bytes

    constructor ()
      ensures buffer == []
    {
      buffer := [];
    }

    method Feed(data: Bytes)
      modifies this
      ensures buffer == old(buffer) + data
    {
      buffer := buffer + data;
    }

    /** Takes the command at the front; anything but a complete one leaves the buffer as it was. */
    method TryParseCommand() returns (status: Status, raw: Bytes)
      modifies this
      ensures match ParseCommand(old(buffer))
        case Incomplete => status == NeedMore && buffer == old(buffer) && raw == []
        case Bad => status == ProtocolError && buffer == old(buffer) && raw == []
        case Done(argv, next) =>
          status == Complete(argv) && raw == old(buffer)[..next] && buffer == old(buffer)[next..]
    {
      hide ParseBulks, FindCrlf;
      raw := [];
      if buffer == [] {
        return NeedMore, [];
      }
      if buffer[0] != Star {
        return ProtocolError, [];
      }
      var headerEnd := FindCrlf(buffer, 1);
      if headerEnd.None? {
        return NeedMore, [];
      }
      var count := ParseLength(buffer, 1, headerEnd.value);
      if count.None? {
        return ProtocolError, [];
      }
      var pos: nat := headerEnd.value + 2;
      var args := TakeBulks(buffer, pos, count.value);
      if args.Incomplete? {
        return NeedMore, [];
      }
      if args.Bad? {
        return ProtocolError, [];
      }
      raw := buffer[..args.next];
      buffer := buffer[args.next..];
      status := Complete(args.value);
    }
  }

  /** The parser's loop: the arguments one after the other. */
  method TakeBulks(buffer: Bytes, start: nat, count: nat) returns (r: Parse<Argv>)
    requires start <= |buffer|
    ensures r == ParseBulks(buffer, start, count)
    ensures r.Done? ==> r.next <= |buffer|
  {
    hide ParseBulk;
    var command: Argv, i: nat, pos: nat := [], 0, start;
    AfterNone(ParseBulks(buffer, pos, count));
    while i < count
      invariant i <= count && pos <= |buffer|
      invariant ParseBulks(buffer, start, count) == After(command, ParseBulks(buffer, pos, count - i))
    {
      var one := TakeBulk(buffer, pos);
      if one.Incomplete? {
        return Incomplete;
      }
      if one.Bad? {
        return Bad;
      }
      AfterOne(buffer, pos, count - i, command);
      command := command + [one.value];
      pos := one.next;
      i := i + 1;
    }
    assert command + [] == command;
    r := Done(command, pos);
  }

  /** The body of the parser's loop: one bulk string at `pos`. */
  method TakeBulk(buffer: Bytes, pos: nat) returns (r: Parse<Bytes>)
    ensures r == ParseBulk(buffer, pos)
  {
    if pos >= |buffer| {
      return Incomplete;
    }
    if buffer[pos] != Dollar {
      return Bad;
    }
    var lenEnd := FindCrlf(buffer, pos + 1);
    if lenEnd.None? {
      return Incomplete;
    }
    var strLen := ParseLength(buffer, pos + 1, lenEnd.value);
    if strLen.None? {
      return Bad;
    }
    var start := lenEnd.value + 2;
    var remaining := |buffer| - start;
    if remaining < strLen.value || remaining - strLen.value < 2 {
      return Incomplete;
    }
    if buffer[start + strLen.value] != CR || buffer[start + strLen.value + 1] != LF {
      return Bad;
    }
    r := Done(buffer[start..start + strLen.value], start + strLen.value + 2);
  }

  /** A parse that continues after `done` arguments were already taken. */
  function After(done: Argv, r: Parse<Argv>): (p: Parse<Argv>) {
    match r
    case Incomplete => Incomplete
    case Bad => Bad
    case Done(args, next) => Done(done + args, next)
  }

  lemma AfterNone(r: Parse<Argv>)
    ensures After([], r) == r
  {
    if r.Done? {
      assert [] + r.value == r.value;
    }
  }

  lemma AfterOne(buf: Bytes, pos: nat, count: nat, done: Argv)
    requires count > 0 && ParseBulk(buf, pos).Done?
    ensures var b := ParseBulk(buf, pos);
      After(done, ParseBulks(buf, pos, count)) == After(done + [b.value], ParseBulks(buf, b.next, count - 1))
  {
    var b := ParseBulk(buf, pos);
    var r := ParseBulks(buf, b.next, count - 1);
    if r.Done? {
      assert done + ([b.value] + r.value) == done + [b.value] + r.value;
    }
  }

  /** reply::command: appends the printed command to the caller's buffer. */
  method PrintCommand(out: Bytes, argv: Argv) returns (r: Bytes)
    ensures r == out + Encode(argv)
  {
    var head := Line(Star, |argv|);
    r := out + head;
    var i := 0;
    while i < |argv|
      invariant 0 <= i <= |argv|
      invariant r + BulkAll(argv[i..]) == out + (head + BulkAll(argv))
    {
      assert argv[i..][0] == argv[i] && argv[i..][1..] == argv[i + 1..];
      assert r + Bulk(argv[i]) + BulkAll(argv[i + 1..]) == r + BulkAll(argv[i..]);
      r := r + Bulk(argv[i]);
      i := i + 1;
    }
    assert BulkAll(argv[i..]) == [];
  }

  datatype Replay = Replayed(cmds: seq<Argv>, validBytes: nat) | Corrupt(cmds: seq<Argv>, at: nat)

  /** Replays every complete command the parser holds. */
  method TakeAll(parser: Parser) returns (cmds: seq<Argv>, broken: bool)
    modifies parser
    ensures Drained(cmds, parser.buffer, broken) == Drain(old(parser.buffer))
  {
    cmds := [];
    broken := false;
    while true
      invariant !broken && Drain(old(parser.buffer)) == Behind(cmds, Drain(parser.buffer))
      decreases |parser.buffer|
    {
      ghost var buf := parser.buffer;
      var status, raw := parser.TryParseCommand();
      hide ParseCommand;
      match status
      case NeedMore =>
        return;
      case ProtocolError =>
        return cmds, true;
      case Complete(argv) =>
        BehindJoins(cmds, [argv], Drain(parser.buffer));
        cmds := cmds + [argv];
    }
  }

  /**
   The loading loop of replay_incr(): the file is read in pieces of any size, and
   every command is replayed as soon as it is complete.
   */
  method ReplayIncr(file: Bytes, chunk: nat) returns (r: Replay)
    requires chunk > 0
    ensures var d := Drain(file);
      r == if d.broken then Corrupt(d.cmds, |file| - |d.rest|) else Replayed(d.cmds, |file| - |d.rest|)
  {
    hide Drain;
    var parser := new Parser();
    var fed := 0;
    var cmds: seq<Argv> := [];
    DrainEmpty();
    assert [] + file == file && file[0..] == file;
    while fed < |file|
      invariant 0 <= fed <= |file| && fresh(parser)
      invariant Drain(parser.buffer) == Drained([], parser.buffer, false)
      invariant Drain(file) == Behind(cmds, Drain(parser.buffer + file[fed..]))
      decreases |file| - fed
    {
      var n := Min(chunk, |file| - fed);
      ghost var all := parser.buffer + file[fed..];
      parser.Feed(file[fed..fed + n]);
      fed := fed + n;
      ghost var got := parser.buffer;
      assert all == got + file[fed..];
      var taken, broken := TakeAll(parser);
      DrainSplits(got, file[fed..]);
      DrainAgain(got);
      if broken {
        return Corrupt(cmds + taken, fed - |parser.buffer|);
      }
      BehindJoins(cmds, taken, Drain(parser.buffer + file[fed..]));
      cmds := cmds + taken;
    }
    assert parser.buffer + file[fed..] == parser.buffer;
    r := Replayed(cmds, fed - |parser.buffer|);
  }

  /** What is left after taking every complete command holds no complete command. */
  lemma {:induction false} DrainAgain(buf: Bytes)
    ensures !Drain(buf).broken ==> Drain(Drain(buf).rest) == Drained([], Drain(buf).rest, false)
    decreases |buf|
  {
    hide ParseCommand;
    var r := ParseCommand(buf);
    if r.Done? {
      DrainAgain(buf[r.next..]);
    }
  }
}
