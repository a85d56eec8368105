/** The resumable parser of the XTLS Vision padding protocol: a byte-at-a-time automaton and the
    buffer-at-a-time code that must agree with it. */
module VisionParser {
  import opened Bytes

  const UUID_LENGTH := 16
  const HEADER_LENGTH := 5
  /** UUID plus block header: the most that is ever put in front of a content. */
  const OVERHEAD := 21

  const PADDING_CONTINUE: byte := 0
  const PADDING_END: byte := 1
  const PADDING_DIRECT: byte := 2

  /** The four counters kept in TrafficState between two reads of one direction. */
  datatype Parser = Parser(command: int, content: int, padding: int, current: int) {

    /** "Initial state": nothing is being parsed. */
    predicate Idle() {
      command == -1 && content == -1 && padding == -1
    }

    /** Inside a block: some counter is positive, so every turn of the parse loop consumes a byte. */
    predicate Busy() {
      && 0 <= command <= 5
      && -1 <= content < 65536
      && -1 <= padding < 65536
      && (command <= 3 ==> content >= 0)
      && (command == 3 ==> content % 256 == 0)
      && (command <= 1 ==> padding >= 0)
      && (command == 1 ==> padding % 256 == 0)
      && (command > 0 || content > 0 || padding > 0)
    }

    predicate Valid() {
      0 <= current < 256 && (Idle() || Busy())
    }
  }

  const INITIAL := Parser(-1, -1, -1, 0)

  datatype Fed = Fed(parser: Parser, out: seq<byte>)

  /** What happens once all three counters are used up. */
  function Settle(p: Parser): Parser
  {
    if p.command <= 0 && p.content <= 0 && p.padding <= 0 then
      if p.current == 0 then p.(command := 5) else Parser(-1, -1, -1, p.current)
    else
      p
  }

  /** The header byte that is due. Or-ing a byte into a zero low byte is an addition. */
  function HeaderByte(p: Parser, d: byte): Parser
    requires p.Busy() && p.command > 0
  {
    (match p.command
     case 5 => p.(current := d)
     case 4 => p.(content := d * 256)
     case 3 => p.(content := p.content + d)
     case 2 => p.(padding := d * 256)
     case _ => p.(padding := p.padding + d)).(command := p.command - 1)
  }

  /** One byte inside a block. */
  function Step(p: Parser, d: byte): (f: Fed)
    requires p.Valid() && p.Busy()
    ensures f.parser.Valid()
    ensures |f.out| <= 1
  {
    if p.command > 0 then Fed(Settle(HeaderByte(p, d)), [])
    else if p.content > 0 then Fed(Settle(p.(content := p.content - 1)), [d])
    else Fed(Settle(p.(padding := p.padding - 1)), [])
  }

  /** The automaton: after a terminal block everything left is passed on. */
  function Feed(p: Parser, bs: seq<byte>): (f: Fed)
    requires p.Valid()
    ensures f.parser.Valid()
    ensures |f.out| <= |bs|
    ensures p.Idle() ==> f == Fed(p, bs)
    decreases |bs|
  {
    if p.Idle() || bs == [] then
      Fed(p, bs)
    else
      var one := Step(p, bs[0]);
      var rest := Feed(one.parser, bs[1..]);
      Fed(rest.parser, one.out + rest.out)
  }

  lemma {:induction false} FeedConcat(p: Parser, a: seq<byte>, b: seq<byte>)
    requires p.Valid()
    ensures Feed(p, a + b)
         == Fed(Feed(Feed(p, a).parser, b).parser, Feed(p, a).out + Feed(Feed(p, a).parser, b).out)
    decreases |a|
  {
    if p.Idle() {
    } else if a == [] {
      assert a + b == b;
    } else {
      assert (a + b)[0] == a[0] && (a + b)[1..] == a[1..] + b;
      FeedConcat(Step(p, a[0]).parser, a[1..], b);
    }
  }

  lemma {:induction false} FeedHeaderByte(p: Parser, bs: seq<byte>)
    requires p.Valid() && p.Busy() && p.command > 0 && |bs| == 1
    ensures Feed(p, bs) == Fed(Settle(HeaderByte(p, bs[0])), [])
  {
    assert bs[1..] == [];
  }

  /** A run of content bytes is copied as a whole. */
  lemma {:induction false} FeedContent(p: Parser, bs: seq<byte>)
    requires p.Valid() && p.Busy() && p.command == 0
    requires 0 < |bs| <= p.content
    ensures Feed(p, bs) == Fed(Settle(p.(content := p.content - |bs|)), bs)
    decreases |bs|
  {
    var q := p.(content := p.content - 1);
    if |bs| == 1 {
      assert bs[1..] == [];
      assert bs == [bs[0]];
    } else {
      FeedContent(q, bs[1..]);
      assert [bs[0]] + bs[1..] == bs;
    }
  }

  /** A run of padding bytes is skipped as a whole. */
  lemma {:induction false} FeedPadding(p: Parser, bs: seq<byte>)
    requires p.Valid() && p.Busy() && p.command == 0 && p.content == 0
    requires 0 < |bs| <= p.padding
    ensures Feed(p, bs) == Fed(Settle(p.(padding := p.padding - |bs|)), [])
    decreases |bs|
  {
    if |bs| == 1 {
      assert bs[1..] == [];
    } else {
      FeedPadding(p.(padding := p.padding - 1), bs[1..]);
    }
  }

  /** Could this buffer be taken for the start of a padded stream? */
  predicate Announces(uuid: seq<byte>, chunk: seq<byte>)
  {
    |chunk| >= OVERHEAD && uuid == chunk[..UUID_LENGTH]
  }

  const FIRST_BLOCK := Parser(5, -1, -1, 0)

  /** Specification of one XtlsUnpadding call. */
  function UnpadChunk(uuid: seq<byte>, p: Parser, chunk: seq<byte>): (f: Fed)
    requires p.Valid()
    ensures f.parser.Valid()
    ensures |f.out| <= |chunk|
    ensures p.Idle() && Announces(uuid, chunk) ==> |f.out| <= |chunk| - UUID_LENGTH
  {
    if p.Idle() then
      if Announces(uuid, chunk) then Feed(p.(command := 5), chunk[UUID_LENGTH..]) else Fed(p, chunk)
    else
      Feed(p, chunk)
  }

  /** XtlsUnpadding folded over the buffers of a connection. */
  function UnpadAll(uuid: seq<byte>, p: Parser, chunks: seq<seq<byte>>): (f: Fed)
    requires p.Valid()
    ensures f.parser.Valid()
    ensures |f.out| <= |Flatten(chunks)|
    decreases |chunks|
  {
    if chunks == [] then Fed(p, [])
    else
      var one := UnpadChunk(uuid, p, chunks[0]);
      var rest := UnpadAll(uuid, one.parser, chunks[1..]);
      Fed(rest.parser, one.out + rest.out)
  }

  /** One direction of InboundState / OutboundState. */
  class LinkState {
    var withinPaddingBuffers: bool
    var readerDirectCopy: bool
    var remainingCommand: int
    var remainingContent: int
    var remainingPadding: int
    var currentCommand: int

    constructor ()
      ensures View() == INITIAL && withinPaddingBuffers && !readerDirectCopy
    {
      withinPaddingBuffers, readerDirectCopy := true, false;
      remainingCommand, remainingContent, remainingPadding, currentCommand := -1, -1, -1, 0;
    }

    ghost function View(): Parser
      reads this
    {
      Parser(remainingCommand, remainingContent, remainingPadding, currentCommand)
    }

    /** One turn of the parse loop: a header byte, or as much content or padding as is at hand. */
    method Consume(rest: seq<byte>) returns (n: nat, out: seq<byte>)
      requires View().Valid() && View().Busy() && |rest| > 0
      modifies this`remainingCommand, this`remainingContent, this`remainingPadding, this`currentCommand
      ensures 0 < n <= |rest|
      ensures Feed(old(View()), rest[..n]) == Fed(View(), out)
    {
      ghost var before := View();
      if remainingCommand > 0 {
        n, out := 1, [];
        var data := rest[0];
        match remainingCommand {
          case 5 => currentCommand := data;
          case 4 => remainingContent := data as int * 256;
          case 3 => remainingContent := remainingContent + data;
          case 2 => remainingPadding := data as int * 256;
          case _ => remainingPadding := remainingPadding + data;
        }
        remainingCommand := remainingCommand - 1;
        FeedHeaderByte(before, rest[..1]);
      } else if remainingContent > 0 {
        n := Min(remainingContent, |rest|);
        out := rest[..n];
        remainingContent := remainingContent - n;
        FeedContent(before, rest[..n]);
      } else {
        n, out := Min(remainingPadding, |rest|), [];
        remainingPadding := remainingPadding - n;
        FeedPadding(before, rest[..n]);
      }
      if remainingCommand <= 0 && remainingContent <= 0 && remainingPadding <= 0 {
        if currentCommand == 0 {
          remainingCommand := 5;
        } else {
          remainingCommand, remainingContent, remainingPadding := -1, -1, -1;
        }
      }
    }

    /** The whole parse loop over one buffer. */
    method Parse(b: seq<byte>) returns (newbuffer: seq<byte>)
      requires View().Valid() && View().Busy() && |b| <= SIZE
      modifies this`remainingCommand, this`remainingContent, this`remainingPadding, this`currentCommand
      ensures Feed(old(View()), b) == Fed(View(), newbuffer)
    {
      var rest := b;
      newbuffer := [];
      while |rest| > 0
        invariant View().Valid() && View().Busy()
        invariant |newbuffer| + |rest| <= SIZE
        invariant Feed(old(View()), b) == Fed(Feed(View(), rest).parser, newbuffer + Feed(View(), rest).out)
        decreases |rest|
      {
        ghost var before := View();
        var n, out := Consume(rest);
        assert rest == rest[..n] + rest[n..];
        FeedConcat(before, rest[..n], rest[n..]);
        assert newbuffer + (out + Feed(View(), rest[n..]).out) == newbuffer + out + Feed(View(), rest[n..]).out;
        newbuffer := WriteInto(newbuffer, out);
        rest := rest[n..];
        if remainingCommand == -1 {
          if |rest| > 0 {
            newbuffer := WriteInto(newbuffer, rest);
          }
          break;
        }
      }
    }
  }

  class TrafficState {
    const userUUID: seq<byte>
    const inbound: LinkState
    const outbound: LinkState

    ghost predicate Valid()
      reads inbound, outbound
    {
      inbound != outbound && |userUUID| == UUID_LENGTH && inbound.View().Valid() && outbound.View().Valid()
    }

    constructor (userUUID: seq<byte>)
      requires |userUUID| == UUID_LENGTH
      ensures Valid() && this.userUUID == userUUID && fresh(inbound) && fresh(outbound)
      ensures inbound.View() == outbound.View() == INITIAL
    {
      this.userUUID := userUUID;
      inbound := new LinkState();
      outbound := new LinkState();
    }

    function ReaderLink(isUplink: bool): LinkState
    {
      if isUplink then inbound else outbound
    }
  }

  /** The bulk parser does, buffer by buffer, what the automaton does byte by byte; it loses nothing
      of a standard buffer and leaves the other direction alone. */
  method XtlsUnpadding(b: seq<byte>, s: TrafficState, isUplink: bool) returns (newbuffer: seq<byte>)
    requires s.Valid() && |b| <= SIZE
    modifies s.ReaderLink(isUplink)`remainingCommand, s.ReaderLink(isUplink)`remainingContent,
             s.ReaderLink(isUplink)`remainingPadding, s.ReaderLink(isUplink)`currentCommand
    ensures s.Valid()
    ensures Fed(s.ReaderLink(isUplink).View(), newbuffer)
         == UnpadChunk(s.userUUID, old(s.ReaderLink(isUplink).View()), b)
  {
    var link := s.ReaderLink(isUplink);
    var rest := b;
    if link.remainingCommand == -1 && link.remainingContent == -1 && link.remainingPadding == -1 {
      if |b| >= OVERHEAD && s.userUUID == b[..UUID_LENGTH] {
        rest := rest[UUID_LENGTH..];
        link.remainingCommand := 5;
      } else {
        return b;
      }
    }
    newbuffer := link.Parse(rest);
  }
}
