/** The Vision wire format and the round trip through the parser, for every re-chunking. */
module VisionRoundTrip {
  import opened Bytes
  import opened VisionParser

  datatype Block = Block(command: byte, content: seq<byte>, padding: seq<byte>) {
    /** A block together with the UUID fits a standard buffer. */
    predicate Fits() {
      command <= PADDING_DIRECT && |content| + |padding| <= SIZE - OVERHEAD
    }

    function Header(): seq<byte>
      requires Fits()
      ensures |Header()| == HEADER_LENGTH
    {
      [command] + U16(|content|) + U16(|padding|)
    }

    function Encode(): seq<byte>
      requires Fits()
    {
      Header() + content + padding
    }

    /** The parser once the block has been read. */
    function After(): (p: Parser)
      ensures p.Valid()
    {
      if command == PADDING_CONTINUE then Parser(5, 0, 0, 0) else Parser(-1, -1, -1, command)
    }
  }

  ghost predicate AllFit(bs: seq<Block>)
  {
    forall i :: 0 <= i < |bs| ==> bs[i].Fits()
  }

  function EncodeBlocks(bs: seq<Block>): seq<byte>
    requires AllFit(bs)
  {
    if bs == [] then [] else bs[0].Encode() + EncodeBlocks(bs[1..])
  }

  function Contents(bs: seq<Block>): seq<byte>
  {
    if bs == [] then [] else bs[0].content + Contents(bs[1..])
  }

  /** Continue blocks, ended by one terminal block when the padding phase is over. */
  ghost predicate Grammar(bs: seq<Block>, closed: bool)
  {
    && (forall i :: 0 <= i < |bs| - 1 ==> bs[i].command == PADDING_CONTINUE)
    && (closed ==> bs != [] && bs[|bs| - 1].command != PADDING_CONTINUE)
    && (!closed && bs != [] ==> bs[|bs| - 1].command == PADDING_CONTINUE)
  }

  /** The parser after k header bytes, the last one excluded. */
  function HeaderState(p: Parser, b: Block, k: nat): (q: Parser)
    requires p.Valid() && p.Busy() && p.command == 5 && b.Fits() && k < HEADER_LENGTH
    ensures q.Valid() && q.Busy() && q.command == 5 - k
    ensures k >= 1 ==> q.current == b.command
  {
    if k == 0 then p else HeaderByte(HeaderState(p, b, k - 1), b.Header()[k - 1])
  }

  lemma {:induction false} FeedPartialHeader(p: Parser, b: Block, k: nat)
    requires p.Valid() && p.Busy() && p.command == 5 && b.Fits() && k < HEADER_LENGTH
    ensures Feed(p, b.Header()[..k]) == Fed(HeaderState(p, b, k), [])
  {
    var h := b.Header();
    if k == 0 {
      assert h[..0] == [];
    } else {
      var q := HeaderState(p, b, k - 1);
      FeedPartialHeader(p, b, k - 1);
      FeedHeaderByte(q, [h[k - 1]]);
      FeedConcat(p, h[..k - 1], [h[k - 1]]);
      assert h[..k - 1] + [h[k - 1]] == h[..k];
    }
  }

  /** The two lengths as the parser reads them. */
  lemma {:induction false} HeaderLengths(p: Parser, b: Block)
    requires p.Valid() && p.Busy() && p.command == 5 && b.Fits()
    ensures b.Header()[1] as int * 256 + b.Header()[2] as int == |b.content|
    ensures b.Header()[3] as int * 256 + b.Header()[4] as int == |b.padding|
    ensures HeaderState(p, b, 1) == Parser(4, p.content, p.padding, b.command)
    ensures HeaderState(p, b, 2) == Parser(3, b.Header()[1] as int * 256, p.padding, b.command)
    ensures HeaderState(p, b, 3) == Parser(2, |b.content|, p.padding, b.command)
    ensures HeaderState(p, b, 4) == Parser(1, |b.content|, b.Header()[3] as int * 256, b.command)
  {
    var h, c, d := b.Header(), U16(|b.content|), U16(|b.padding|);
    assert h[0] == b.command && h[1] == c[0] && h[2] == c[1] && h[3] == d[0] && h[4] == d[1];
    var s0 := HeaderState(p, b, 0);
    var s1 := HeaderState(p, b, 1);
    assert s1 == HeaderByte(s0, h[0]);
    var s2 := HeaderState(p, b, 2);
    assert s2 == HeaderByte(s1, h[1]);
    var s3 := HeaderState(p, b, 3);
    assert s3 == HeaderByte(s2, h[2]);
    var s4 := HeaderState(p, b, 4);
    assert s4 == HeaderByte(s3, h[3]);
  }

  lemma {:induction false} FeedHeader(p: Parser, b: Block)
    requires p.Valid() && p.Busy() && p.command == 5 && b.Fits()
    ensures Feed(p, b.Header()) == Fed(Settle(Parser(0, |b.content|, |b.padding|, b.command)), [])
  {
    var h := b.Header();
    FeedPartialHeader(p, b, 4);
    HeaderLengths(p, b);
    FeedHeaderByte(HeaderState(p, b, 4), [h[4]]);
    FeedConcat(p, h[..4], [h[4]]);
    assert h[..4] + [h[4]] == h;
  }

  /** What is left of a block after its header. */
  lemma {:induction false} FeedBody(b: Block, k: nat)
    requires b.Fits() && k <= |b.content| + |b.padding|
    ensures var start := Settle(Parser(0, |b.content|, |b.padding|, b.command));
            && start.Valid()
            && Feed(start, (b.content + b.padding)[..k])
               == Fed(Settle(if k <= |b.content| then Parser(0, |b.content| - k, |b.padding|, b.command)
                             else Parser(0, 0, |b.padding| - (k - |b.content|), b.command)),
                      b.content[..Min(k, |b.content|)])
  {
    var start := Settle(Parser(0, |b.content|, |b.padding|, b.command));
    var body := b.content + b.padding;
    if k == 0 {
      assert body[..0] == [] && b.content[..0] == [];
    } else if k <= |b.content| {
      assert body[..k] == b.content[..k];
      FeedContent(start, b.content[..k]);
    } else {
      FeedIntoPadding(b, b.padding[..k - |b.content|]);
      assert body[..k] == b.content + b.padding[..k - |b.content|];
      assert b.content[..|b.content|] == b.content;
    }
  }

  lemma {:induction false} FeedIntoPadding(b: Block, skipped: seq<byte>)
    requires b.Fits() && 0 < |skipped| <= |b.padding|
    ensures var start := Settle(Parser(0, |b.content|, |b.padding|, b.command));
            && start.Valid()
            && Feed(start, b.content + skipped) == Fed(Settle(Parser(0, 0, |b.padding| - |skipped|, b.command)), b.content)
  {
    var start := Settle(Parser(0, |b.content|, |b.padding|, b.command));
    if b.content == [] {
      assert b.content + skipped == skipped;
      FeedPadding(start, skipped);
    } else {
      FeedContent(start, b.content);
      FeedPadding(Parser(0, 0, |b.padding|, b.command), skipped);
      FeedConcat(start, b.content, skipped);
      assert b.content + [] == b.content;
    }
  }

  lemma {:induction false} BlockPrefix(b: Block, k: nat)
    requires b.Fits() && HEADER_LENGTH <= k <= |b.Encode()|
    ensures b.Encode() == b.Header() + (b.content + b.padding)
    ensures b.Encode()[..k] == b.Header() + (b.content + b.padding)[..k - HEADER_LENGTH]
  {
    var h, body := b.Header(), b.content + b.padding;
    Assoc(h, b.content, b.padding);
    assert (h + body)[..k] == h + body[..k - |h|];
  }

  /** A whole block yields its content. */
  lemma {:induction false} FeedBlock(p: Parser, b: Block)
    requires p.Valid() && p.Busy() && p.command == 5 && b.Fits()
    ensures Feed(p, b.Encode()) == Fed(b.After(), b.content)
  {
    var body := b.content + b.padding;
    FeedHeader(p, b);
    FeedBody(b, |body|);
    FeedConcat(p, b.Header(), body);
    BlockPrefix(b, |b.Encode()|);
    assert body[..|body|] == body;
    assert b.content[..|b.content|] == b.content;
  }

  /** A proper prefix of a block leaves the parser inside the block. */
  lemma {:induction false} FeedPartialBlock(p: Parser, b: Block, k: nat)
    requires p.Valid() && p.Busy() && p.command == 5 && b.Fits()
    requires k < |b.Encode()|
    ensures Feed(p, b.Encode()[..k]).parser.Busy()
  {
    if k < HEADER_LENGTH {
      assert b.Encode()[..k] == b.Header()[..k];
      FeedPartialHeader(p, b, k);
    } else {
      var body := b.content + b.padding;
      FeedHeader(p, b);
      FeedBody(b, k - HEADER_LENGTH);
      FeedConcat(p, b.Header(), body[..k - HEADER_LENGTH]);
      BlockPrefix(b, k);
    }
  }

  /** From parser p, the bytes h end exactly with the terminal block. */
  ghost predicate Closes(p: Parser, h: seq<byte>)
    requires p.Valid()
  {
    && (forall k :: 0 <= k < |h| ==> Feed(p, h[..k]).parser.Busy())
    && Feed(p, h).parser.Idle()
  }

  /** From parser p, the bytes h never leave the padding phase. */
  ghost predicate StaysOpen(p: Parser, h: seq<byte>)
    requires p.Valid()
  {
    forall k :: 0 <= k <= |h| ==> Feed(p, h[..k]).parser.Busy()
  }

  /** n bytes of a block and what follows it. */
  lemma {:induction false} FeedTwo(p: Parser, b: Block, tail: seq<byte>, n: nat)
    requires p.Valid() && p.Busy() && p.command == 5 && b.Fits() && n <= |b.Encode()| + |tail|
    ensures n <= |b.Encode()| ==> (b.Encode() + tail)[..n] == b.Encode()[..n]
    ensures n >= |b.Encode()| ==>
              var f := Feed(b.After(), tail[..n - |b.Encode()|]);
              Feed(p, (b.Encode() + tail)[..n]) == Fed(f.parser, b.content + f.out)
  {
    var head := b.Encode();
    if n >= |head| {
      assert (head + tail)[..n] == head + tail[..n - |head|];
      FeedBlock(p, b);
      FeedConcat(p, head, tail[..n - |head|]);
    }
  }

  /** Blocks yield their contents. */
  lemma {:induction false} FeedBlocks(p: Parser, bs: seq<Block>, closed: bool)
    requires p.Valid() && p.Busy() && p.command == 5
    requires AllFit(bs) && Grammar(bs, closed)
    ensures Feed(p, EncodeBlocks(bs)) == Fed(if bs == [] then p else bs[|bs| - 1].After(), Contents(bs))
    decreases |bs|
  {
    if bs != [] {
      var b, rest := bs[0], bs[1..];
      var all, tail := EncodeBlocks(bs), EncodeBlocks(rest);
      FeedTwo(p, b, tail, |all|);
      assert all[..|all|] == all && tail[..|tail|] == tail;
      if rest != [] {
        FeedBlocks(b.After(), rest, closed);
      }
    }
  }

  /** Within the padding phase the parser is always inside a block. */
  lemma {:induction false} BusyInside(p: Parser, bs: seq<Block>, closed: bool, k: nat)
    requires p.Valid() && p.Busy() && p.command == 5
    requires AllFit(bs) && Grammar(bs, closed)
    requires k <= |EncodeBlocks(bs)| && (k == |EncodeBlocks(bs)| ==> !closed)
    ensures Feed(p, EncodeBlocks(bs)[..k]).parser.Busy()
    decreases |bs|
  {
    if bs != [] {
      var b, rest := bs[0], bs[1..];
      FeedTwo(p, b, EncodeBlocks(rest), k);
      if k < |b.Encode()| {
        FeedPartialBlock(p, b, k);
      } else if rest != [] {
        BusyInside(b.After(), rest, closed, k - |b.Encode()|);
      }
    }
  }

  lemma {:induction false} BlocksClose(p: Parser, bs: seq<Block>, closed: bool)
    requires p.Valid() && p.Busy() && p.command == 5
    requires AllFit(bs) && Grammar(bs, closed)
    ensures closed ==> Closes(p, EncodeBlocks(bs))
    ensures !closed ==> StaysOpen(p, EncodeBlocks(bs))
  {
    FeedBlocks(p, bs, closed);
    forall k | 0 <= k <= |EncodeBlocks(bs)| && (k == |EncodeBlocks(bs)| ==> !closed)
      ensures Feed(p, EncodeBlocks(bs)[..k]).parser.Busy()
    {
      BusyInside(p, bs, closed, k);
    }
  }

  /** Closes and StaysOpen move along with the parser. */
  lemma {:induction false} ClosesSuffix(p: Parser, h: seq<byte>, n: nat)
    requires p.Valid() && n <= |h|
    ensures Closes(p, h) ==> Closes(Feed(p, h[..n]).parser, h[n..])
    ensures StaysOpen(p, h) ==> StaysOpen(Feed(p, h[..n]).parser, h[n..])
    ensures Feed(p, h).out == Feed(p, h[..n]).out + Feed(Feed(p, h[..n]).parser, h[n..]).out
  {
    var q := Feed(p, h[..n]).parser;
    assert h == h[..n] + h[n..];
    FeedConcat(p, h[..n], h[n..]);
    forall k | 0 <= k <= |h| - n
      ensures Feed(q, h[n..][..k]).parser == Feed(p, h[..n + k]).parser
    {
      assert h[..n + k] == h[..n] + h[n..][..k];
      FeedConcat(p, h[..n], h[n..][..k]);
    }
    assert h[n..][..|h| - n] == h[n..];
  }

  /** No chunk that starts after the first `head` bytes could be taken for a new padded stream. */
  predicate NoLookalike(uuid: seq<byte>, chunks: seq<seq<byte>>, head: int)
  {
    chunks != [] ==>
      && (head <= 0 ==> !Announces(uuid, chunks[0]))
      && NoLookalike(uuid, chunks[1..], head - |chunks[0]|)
  }

  lemma {:induction false} NoLookalikeAtZero(uuid: seq<byte>, chunks: seq<seq<byte>>, head: int)
    requires head <= 0
    ensures NoLookalike(uuid, chunks, head) <==> NoLookalike(uuid, chunks, 0)
    decreases |chunks|
  {
    if chunks != [] {
      NoLookalikeAtZero(uuid, chunks[1..], head - |chunks[0]|);
      NoLookalikeAtZero(uuid, chunks[1..], 0 - |chunks[0]|);
    }
  }

  /** A chunk in front of the end of the padding phase, or reaching over it: where that leaves the parser. */
  lemma {:induction false} ClosesAfter(p: Parser, h: seq<byte>, c: seq<byte>)
    requires p.Valid() && Closes(p, h) && (c <= h || h <= c)
    ensures Closes(Feed(p, c).parser, if |c| <= |h| then h[|c|..] else [])
  {
    if |c| <= |h| {
      assert c == h[..|c|];
      ClosesSuffix(p, h, |c|);
    } else {
      assert c == h + c[|h|..];
      FeedConcat(p, h, c[|h|..]);
    }
  }

  /** Between padded streams the chunks pass unchanged, unless one of them is a lookalike; then bytes are missing. */
  lemma {:induction false} UnpadRaw(uuid: seq<byte>, p: Parser, chunks: seq<seq<byte>>)
    requires p.Valid() && p.Idle()
    ensures NoLookalike(uuid, chunks, 0) ==> UnpadAll(uuid, p, chunks) == Fed(p, Flatten(chunks))
    ensures !NoLookalike(uuid, chunks, 0) ==> |UnpadAll(uuid, p, chunks).out| < |Flatten(chunks)|
    decreases |chunks|
  {
    if chunks != [] {
      NoLookalikeAtZero(uuid, chunks[1..], 0 - |chunks[0]|);
      if !Announces(uuid, chunks[0]) {
        UnpadRaw(uuid, p, chunks[1..]);
      }
    }
  }

  /** Unpadding chunk by chunk is feeding the bytes to the automaton, however far the chunks reach, as long as no chunk
      behind the padding phase is a lookalike; otherwise bytes are missing. */
  lemma {:induction false} UnpadPrefix(uuid: seq<byte>, p: Parser, h: seq<byte>, chunks: seq<seq<byte>>)
    requires p.Valid() && Closes(p, h) && (Flatten(chunks) <= h || h <= Flatten(chunks))
    ensures NoLookalike(uuid, chunks, |h|) ==> UnpadAll(uuid, p, chunks) == Feed(p, Flatten(chunks))
    ensures !NoLookalike(uuid, chunks, |h|) ==> |UnpadAll(uuid, p, chunks).out| < |Feed(p, Flatten(chunks)).out|
    decreases |chunks|
  {
    if h == [] {
      UnpadRaw(uuid, p, chunks);
    } else if chunks != [] {
      var c, rest := chunks[0], chunks[1..];
      BusyAtFirst(p, h);
      CutAfter(h, c, Flatten(rest));
      ClosesAfter(p, h, c);
      UnpadPrefix(uuid, Feed(p, c).parser, if |c| <= |h| then h[|c|..] else [], rest);
      FeedConcat(p, c, Flatten(rest));
      if |c| > |h| {
        NoLookalikeAtZero(uuid, rest, |h| - |c|);
      }
    }
  }

  lemma {:induction false} BusyAtFirst(p: Parser, h: seq<byte>)
    requires p.Valid() && Closes(p, h) && h != []
    ensures p.Busy()
  {
    assert h[..0] == [];
    assert Feed(p, h[..0]).parser.Busy();
  }

  lemma {:induction false} CutAfter(h: seq<byte>, c: seq<byte>, rest: seq<byte>)
    requires c + rest <= h || h <= c + rest
    ensures c <= h || h <= c
    ensures |c| <= |h| ==> rest <= h[|c|..] || h[|c|..] <= rest
  {
    if |c| <= |h| {
      if c + rest <= h {
        assert h[..|c|] == (c + rest)[..|c|] == c;
        assert h[|c|..][..|rest|] == h[|c|..|c| + |rest|] == (c + rest)[|c|..] == rest;
      } else {
        assert h == (c + rest)[..|h|];
        assert h[..|c|] == c;
        assert h[|c|..] == rest[..|h| - |c|];
      }
    } else {
      assert h == (c + rest)[..|h|] == c[..|h|];
    }
  }

  lemma {:induction false} UnpadClosing(uuid: seq<byte>, p: Parser, h: seq<byte>, raw: seq<byte>, chunks: seq<seq<byte>>)
    requires p.Valid() && Closes(p, h)
    requires Flatten(chunks) == h + raw
    ensures UnpadAll(uuid, p, chunks).out == Feed(p, h).out + raw <==> NoLookalike(uuid, chunks, |h|)
  {
    UnpadPrefix(uuid, p, h, chunks);
    FeedConcat(p, h, raw);
  }

  lemma {:induction false} UnpadOpen(uuid: seq<byte>, p: Parser, h: seq<byte>, chunks: seq<seq<byte>>)
    requires p.Valid() && StaysOpen(p, h)
    requires Flatten(chunks) == h
    ensures UnpadAll(uuid, p, chunks) == Feed(p, h)
    decreases |chunks|
  {
    assert h[..0] == [];
    assert Feed(p, h[..0]).parser.Busy();
    if chunks != [] {
      var c, rest := chunks[0], chunks[1..];
      assert h == c + Flatten(rest);
      assert h[..|c|] == c && h[|c|..] == Flatten(rest);
      ClosesSuffix(p, h, |c|);
      FeedConcat(p, c, Flatten(rest));
      UnpadOpen(uuid, Feed(p, c).parser, h[|c|..], rest);
    }
  }

  /** What a padded stream looks like on the wire. */
  function Wire(uuid: seq<byte>, blocks: seq<Block>, raw: seq<byte>): seq<byte>
    requires AllFit(blocks)
  {
    uuid + EncodeBlocks(blocks) + raw
  }

  /** The first buffer carries at least the UUID and a header: strip the UUID and go on. */
  lemma {:induction false} FirstChunk(uuid: seq<byte>, payload: seq<byte>, chunks: seq<seq<byte>>)
    requires |uuid| == UUID_LENGTH
    requires chunks != [] && |chunks[0]| >= OVERHEAD && Flatten(chunks) == uuid + payload
    ensures var stripped := [chunks[0][UUID_LENGTH..]] + chunks[1..];
            && Flatten(stripped) == payload
            && UnpadAll(uuid, INITIAL, chunks) == UnpadAll(uuid, FIRST_BLOCK, stripped)
            && forall head: int :: head > 0 ==>
                 (NoLookalike(uuid, chunks, head + UUID_LENGTH) <==> NoLookalike(uuid, stripped, head))
  {
    var c, rest := chunks[0], chunks[1..];
    var stripped := [c[UUID_LENGTH..]] + rest;
    assert stripped[0] == c[UUID_LENGTH..] && stripped[1..] == rest;
    assert c[..UUID_LENGTH] == (c + Flatten(rest))[..UUID_LENGTH] == (uuid + payload)[..UUID_LENGTH] == uuid;
    assert payload == (uuid + payload)[UUID_LENGTH..] == (c + Flatten(rest))[UUID_LENGTH..];
    assert (c + Flatten(rest))[UUID_LENGTH..] == c[UUID_LENGTH..] + Flatten(rest);
  }

  lemma {:induction false} NonEmptyBlocks(bs: seq<Block>)
    requires AllFit(bs) && bs != []
    ensures |EncodeBlocks(bs)| >= HEADER_LENGTH
  {
  }

  /** The Vision round trip, for a finished padding phase: every re-chunking that delivers the first 21
      bytes together is undone exactly, if and only if no raw chunk behind the terminal block is long
      enough and starts with the UUID. */
  lemma {:induction false} RoundTripClosed(uuid: seq<byte>, blocks: seq<Block>, raw: seq<byte>, chunks: seq<seq<byte>>)
    requires |uuid| == UUID_LENGTH && AllFit(blocks) && Grammar(blocks, true)
    requires Flatten(chunks) == Wire(uuid, blocks, raw)
    requires chunks != [] && |chunks[0]| >= OVERHEAD
    ensures UnpadAll(uuid, INITIAL, chunks).out == Contents(blocks) + raw
       <==> NoLookalike(uuid, chunks, UUID_LENGTH + |EncodeBlocks(blocks)|)
  {
    var h := EncodeBlocks(blocks);
    assert Wire(uuid, blocks, raw) == uuid + (h + raw);
    NonEmptyBlocks(blocks);
    FirstChunk(uuid, h + raw, chunks);
    FeedBlocks(FIRST_BLOCK, blocks, true);
    BlocksClose(FIRST_BLOCK, blocks, true);
    UnpadClosing(uuid, FIRST_BLOCK, h, raw, [chunks[0][UUID_LENGTH..]] + chunks[1..]);
  }

  /** The round trip while the padding phase lasts: unconditional. */
  lemma {:induction false} RoundTripOpen(uuid: seq<byte>, blocks: seq<Block>, chunks: seq<seq<byte>>)
    requires |uuid| == UUID_LENGTH && AllFit(blocks) && Grammar(blocks, false)
    requires Flatten(chunks) == Wire(uuid, blocks, [])
    requires chunks != [] && |chunks[0]| >= OVERHEAD
    ensures UnpadAll(uuid, INITIAL, chunks).out == Contents(blocks)
    ensures UnpadAll(uuid, INITIAL, chunks).parser.Busy()
  {
    var h := EncodeBlocks(blocks);
    assert Wire(uuid, blocks, []) == uuid + h;
    FirstChunk(uuid, h, chunks);
    FeedBlocks(FIRST_BLOCK, blocks, false);
    BlocksClose(FIRST_BLOCK, blocks, false);
    UnpadOpen(uuid, FIRST_BLOCK, h, [chunks[0][UUID_LENGTH..]] + chunks[1..]);
    assert h[..|h|] == h;
  }

  /** Why the first chunk must hold 21 bytes: if it does not, and no chunk starts a stream by accident, the wire itself
      comes out, UUID and headers and padding included, so the round trip fails. */
  lemma {:induction false} ShortFirstChunk(uuid: seq<byte>, blocks: seq<Block>, raw: seq<byte>, chunks: seq<seq<byte>>)
    requires |uuid| == UUID_LENGTH && AllFit(blocks)
    requires Flatten(chunks) == Wire(uuid, blocks, raw)
    requires chunks != [] && |chunks[0]| < OVERHEAD && NoLookalike(uuid, chunks[1..], 0)
    ensures UnpadAll(uuid, INITIAL, chunks) == Fed(INITIAL, Wire(uuid, blocks, raw))
    ensures UnpadAll(uuid, INITIAL, chunks).out != Contents(blocks) + raw
  {
    NoLookalikeAtZero(uuid, chunks[1..], 0 - |chunks[0]|);
    UnpadRaw(uuid, INITIAL, chunks);
    ContentsShorter(blocks);
  }

  lemma {:induction false} ContentsShorter(bs: seq<Block>)
    requires AllFit(bs)
    ensures |Contents(bs)| + HEADER_LENGTH * |bs| <= |EncodeBlocks(bs)|
    decreases |bs|
  {
    if bs != [] {
      ContentsShorter(bs[1..]);
    }
  }
}
