/** The reading side of Vision: when the reader leaves padding mode, and what it returns over every run. */
module VisionReader {
  import opened Bytes
  import opened VisionParser
  import opened VisionRoundTrip
  import opened VisionWriter

  datatype Reading = Reading(parser: Parser, within: bool, directCopy: bool)

  const FRESH_READING := Reading(INITIAL, true, false)

  /** The test of the reader after a read; the header counter is not consulted. */
  predicate Leaves(p: Parser)
  {
    !(p.content > 0 || p.padding > 0 || p.current == 0)
  }

  function Switch(r: Reading): Reading
  {
    if !Leaves(r.parser) then r.(within := true)
    else if r.parser.current == PADDING_END then r.(within := false)
    else if r.parser.current == PADDING_DIRECT then r.(within := false, directCopy := true)
    else r
  }

  datatype Read = Read(reading: Reading, out: seq<byte>)

  /** Specification of one ReadMultiBuffer call on a non-empty read. */
  function ReadStep(uuid: seq<byte>, r: Reading, mb: seq<seq<byte>>, filtering: bool): (s: Read)
    requires r.parser.Valid()
    ensures s.reading.parser.Valid()
  {
    if Flatten(mb) == [] then Read(r, [])
    else if r.within || filtering then
      var f := UnpadAll(uuid, r.parser, mb);
      Read(Switch(r.(parser := f.parser)), f.out)
    else
      Read(r, Flatten(mb))
  }

  /** The reader object of one direction; packetsToFilter is the oracle's. */
  class VisionReader {
    const trafficState: TrafficState
    const isUplink: bool

    constructor (state: TrafficState, isUplink: bool)
      ensures trafficState == state && this.isUplink == isUplink
    {
      trafficState := state;
      this.isUplink := isUplink;
    }

    ghost function View(): Reading
      reads trafficState.inbound, trafficState.outbound
    {
      var link := trafficState.ReaderLink(isUplink);
      Reading(link.View(), link.withinPaddingBuffers, link.readerDirectCopy)
    }

    method ReadMultiBuffer(buffer: seq<seq<byte>>, filtering: bool) returns (mb2: seq<seq<byte>>)
      requires trafficState.Valid()
      requires forall i :: 0 <= i < |buffer| ==> |buffer[i]| <= SIZE
      modifies trafficState.ReaderLink(isUplink)
      ensures trafficState.Valid()
      ensures Read(View(), Flatten(mb2)) == ReadStep(trafficState.userUUID, old(View()), buffer, filtering)
    {
      var link := trafficState.ReaderLink(isUplink);
      var empty := IsEmpty(buffer);
      if empty {
        return buffer;
      }
      if !(link.withinPaddingBuffers || filtering) {
        return buffer;
      }
      mb2 := Unpad(buffer);
      if link.remainingContent > 0 || link.remainingPadding > 0 || link.currentCommand == 0 {
        link.withinPaddingBuffers := true;
      } else if link.currentCommand == 1 {
        link.withinPaddingBuffers := false;
      } else if link.currentCommand == 2 {
        link.withinPaddingBuffers := false;
        link.readerDirectCopy := true;
      }
    }

    /** XtlsUnpadding over the buffers of one read. */
    method Unpad(buffer: seq<seq<byte>>) returns (mb2: seq<seq<byte>>)
      requires trafficState.Valid()
      requires forall i :: 0 <= i < |buffer| ==> |buffer[i]| <= SIZE
      modifies trafficState.ReaderLink(isUplink)
      ensures trafficState.Valid()
      ensures View() == old(View()).(parser := UnpadAll(trafficState.userUUID, old(View()).parser, buffer).parser)
      ensures Flatten(mb2) == UnpadAll(trafficState.userUUID, old(View()).parser, buffer).out
    {
      var link := trafficState.ReaderLink(isUplink);
      ghost var start := link.View();
      mb2 := [];
      assert buffer[..0] == [];
      for i := 0 to |buffer|
        invariant trafficState.Valid()
        invariant View() == old(View()).(parser := UnpadAll(trafficState.userUUID, start, buffer[..i]).parser)
        invariant Flatten(mb2) == UnpadAll(trafficState.userUUID, start, buffer[..i]).out
      {
        UnpadAllConcat(trafficState.userUUID, start, buffer[..i], [buffer[i]]);
        UnpadOne(trafficState.userUUID, link.View(), buffer[i]);
        assert buffer[..i] + [buffer[i]] == buffer[..i + 1];
        var newbuffer := XtlsUnpadding(buffer[i], trafficState, isUplink);
        FlattenSnoc(mb2, newbuffer);
        assert Flatten(mb2) + [] == Flatten(mb2);
        if |newbuffer| > 0 {
          mb2 := mb2 + [newbuffer];
        }
      }
      assert buffer[..|buffer|] == buffer;
    }
  }

  method IsEmpty(buffer: seq<seq<byte>>) returns (r: bool)
    ensures r <==> Flatten(buffer) == []
  {
    for i := 0 to |buffer|
      invariant Flatten(buffer[i..]) == Flatten(buffer)
    {
      assert buffer[i..][0] == buffer[i] && buffer[i..][1..] == buffer[i + 1..];
      if |buffer[i]| != 0 {
        return false;
      }
    }
    return true;
  }

  lemma {:induction false} UnpadOne(uuid: seq<byte>, p: Parser, chunk: seq<byte>)
    requires p.Valid()
    ensures UnpadAll(uuid, p, [chunk]) == UnpadChunk(uuid, p, chunk)
  {
    var f := UnpadChunk(uuid, p, chunk);
    assert [chunk][1..] == [];
    assert f.out + [] == f.out;
  }

  lemma {:induction false} UnpadAllConcat(uuid: seq<byte>, p: Parser, a: seq<seq<byte>>, b: seq<seq<byte>>)
    requires p.Valid()
    ensures var f := UnpadAll(uuid, p, a);
            var g := UnpadAll(uuid, f.parser, b);
            UnpadAll(uuid, p, a + b) == Fed(g.parser, f.out + g.out)
    decreases |a|
  {
    if a == [] {
      assert a + b == b;
    } else {
      assert (a + b)[0] == a[0] && (a + b)[1..] == a[1..] + b;
      var one := UnpadChunk(uuid, p, a[0]);
      UnpadAllConcat(uuid, one.parser, a[1..], b);
      var f := UnpadAll(uuid, one.parser, a[1..]);
      var g := UnpadAll(uuid, f.parser, b);
      assert UnpadAll(uuid, p, a) == Fed(f.parser, one.out + f.out);
      Assoc(one.out, f.out, g.out);
    }
  }

  // ---- When padding mode is left ----

  /** The parser stands in front of a block of the padding phase. */
  predicate AtBlock(p: Parser)
  {
    p.Valid() && p.Busy() && p.command == 5 && p.content <= 0 && p.padding <= 0 && p.current == 0
  }

  /** A read that ends k bytes into this terminal block is taken for the end of the padding phase. */
  predicate Misleads(b: Block, k: int)
  {
    || k == 1
    || (k == 2 && |b.content| < 256)
    || (k == 3 && |b.content| == 0)
    || (k == 4 && |b.content| == 0 && |b.padding| < 256)
  }

  /** The parser inside a header. */
  lemma {:induction false} PartialHeader(p: Parser, b: Block, k: nat)
    requires p.Valid() && p.Busy() && p.command == 5 && p.content <= 0 && p.padding <= 0 && b.Fits()
    requires 1 <= k < HEADER_LENGTH
    ensures var q := Feed(p, b.Header()[..k]).parser;
            && q.current == b.command
            && (q.content <= 0 && q.padding <= 0 <==> Misleads(b, k))
  {
    FeedPartialHeader(p, b, k);
    HeaderLengths(p, b);
  }

  /** After k bytes of a block the reader's test is exact, except inside the header of a terminal block. */
  lemma {:induction false} LeavesInBlock(p: Parser, b: Block, k: nat)
    requires AtBlock(p) && b.Fits() && k <= |b.Encode()|
    ensures Leaves(Feed(p, b.Encode()[..k]).parser)
       <==> b.command != PADDING_CONTINUE && (k == |b.Encode()| || Misleads(b, k))
  {
    var e := b.Encode();
    if k == |e| {
      assert e[..k] == e;
      FeedBlock(p, b);
    } else if k == 0 {
      assert e[..k] == [];
    } else if k < HEADER_LENGTH {
      assert e[..k] == b.Header()[..k];
      PartialHeader(p, b, k);
    } else {
      var body := b.content + b.padding;
      FeedHeader(p, b);
      FeedBody(b, k - HEADER_LENGTH);
      FeedConcat(p, b.Header(), body[..k - HEADER_LENGTH]);
      BlockPrefix(b, k);
    }
  }

  /** Among continue blocks the reader never leaves padding mode. */
  lemma {:induction false} StaysBefore(p: Parser, blocks: seq<Block>, n: nat)
    requires AtBlock(p) && AllFit(blocks) && Grammar(blocks, false) && n <= |EncodeBlocks(blocks)|
    ensures !Leaves(Feed(p, EncodeBlocks(blocks)[..n]).parser)
    decreases |blocks|
  {
    if blocks != [] {
      var b, rest := blocks[0], blocks[1..];
      FeedTwo(p, b, EncodeBlocks(rest), n);
      if n <= |b.Encode()| {
        LeavesInBlock(p, b, n);
      } else {
        StaysBefore(b.After(), rest, n - |b.Encode()|);
      }
    }
  }

  /** Over a whole padding phase, continue blocks and a terminal one: after n bytes the reader leaves padding
      mode exactly when the terminal block is behind it, or when the read ended at one of the misleading
      places of its header. */
  lemma {:induction false} LeavesExactly(blocks: seq<Block>, last: Block, n: nat)
    requires AllFit(blocks) && Grammar(blocks, false) && last.Fits() && last.command != PADDING_CONTINUE
    requires n <= |EncodeBlocks(blocks)| + |last.Encode()|
    ensures Leaves(Feed(FIRST_BLOCK, (EncodeBlocks(blocks) + last.Encode())[..n]).parser)
       <==> n == |EncodeBlocks(blocks)| + |last.Encode()| || Misleads(last, n - |EncodeBlocks(blocks)|)
  {
    var head, tail := EncodeBlocks(blocks), last.Encode();
    if n <= |head| {
      assert (head + tail)[..n] == head[..n];
      StaysBefore(FIRST_BLOCK, blocks, n);
    } else {
      var k := n - |head|;
      FeedBlocks(FIRST_BLOCK, blocks, false);
      assert (head + tail)[..n] == head + tail[..k];
      FeedConcat(FIRST_BLOCK, head, tail[..k]);
      LeavesInBlock(if blocks == [] then FIRST_BLOCK else blocks[|blocks| - 1].After(), last, k);
    }
  }

  // ---- Every run ----

  /** The reads of a connection, each with the filter still running or not. */
  datatype Arrival = Arrival(mb: seq<seq<byte>>, filtering: bool)

  function ReadAll(uuid: seq<byte>, r: Reading, arrivals: seq<Arrival>): (s: Read)
    requires r.parser.Valid()
    ensures s.reading.parser.Valid()
    decreases |arrivals|
  {
    if arrivals == [] then Read(r, [])
    else
      var one := ReadStep(uuid, r, arrivals[0].mb, arrivals[0].filtering);
      var rest := ReadAll(uuid, one.reading, arrivals[1..]);
      Read(rest.reading, one.out + rest.out)
  }

  lemma {:induction false} NothingInvented(uuid: seq<byte>, r: Reading, arrivals: seq<Arrival>)
    requires r.parser.Valid()
    ensures |ReadAll(uuid, r, arrivals).out| <= |Flatten(Chunks(arrivals))|
    decreases |arrivals|
  {
    if arrivals != [] {
      var a := arrivals[0];
      FlattenConcat(a.mb, Chunks(arrivals[1..]));
      NothingInvented(uuid, ReadStep(uuid, r, a.mb, a.filtering).reading, arrivals[1..]);
    }
  }

  function Chunks(arrivals: seq<Arrival>): seq<seq<byte>>
  {
    if arrivals == [] then [] else arrivals[0].mb + Chunks(arrivals[1..])
  }

  /** The filter counts its packets down and is never started again. */
  ghost predicate FilterStops(arrivals: seq<Arrival>)
  {
    forall i, j :: 0 <= i < j < |arrivals| && arrivals[j].filtering ==> arrivals[i].filtering
  }

  /** k bytes of the blocks end at a misleading place of the terminal header. */
  predicate MisleadsAt(blocks: seq<Block>, k: int)
    requires AllFit(blocks) && blocks != []
  {
    var front := blocks[..|blocks| - 1];
    Misleads(blocks[|blocks| - 1], k - |EncodeBlocks(front)|)
  }

  /** A read that starts at a misleading place is still filtered. */
  ghost predicate OnTime(blocks: seq<Block>, a: Arrival, k: int)
    requires AllFit(blocks) && blocks != []
  {
    Flatten(a.mb) != [] && MisleadsAt(blocks, k) ==> a.filtering
  }

  /** A read that starts inside the padding phase or is filtered brings no raw chunk that looks like a new stream. */
  ghost predicate Clean(uuid: seq<byte>, length: nat, a: Arrival, k: int)
  {
    k < length || a.filtering ==> NoLookalike(uuid, a.mb, length - k)
  }

  /** Every read is on time; k is where the first one starts, counted from the first block, so that the UUID lies before 0. */
  ghost predicate Prompt(blocks: seq<Block>, arrivals: seq<Arrival>, k: int)
    requires AllFit(blocks) && blocks != []
    decreases |arrivals|
  {
    arrivals != [] ==>
      && OnTime(blocks, arrivals[0], k)
      && Prompt(blocks, arrivals[1..], k + |Flatten(arrivals[0].mb)|)
  }

  /** Every read is clean. */
  ghost predicate Quiet(uuid: seq<byte>, length: nat, arrivals: seq<Arrival>, k: int)
    decreases |arrivals|
  {
    arrivals != [] ==>
      && Clean(uuid, length, arrivals[0], k)
      && Quiet(uuid, length, arrivals[1..], k + |Flatten(arrivals[0].mb)|)
  }

  /** The parser after k bytes, and whether the reader should then be in padding mode. */
  function ParserAt(bytes: seq<byte>, k: nat): Parser
    requires k <= |bytes|
  {
    Feed(FIRST_BLOCK, bytes[..k]).parser
  }

  predicate WithinAt(blocks: seq<Block>, k: int)
    requires AllFit(blocks) && blocks != []
  {
    k < |EncodeBlocks(blocks)| && !MisleadsAt(blocks, k)
  }

  ghost predicate Tracks(r: Reading, blocks: seq<Block>, bytes: seq<byte>, k: nat)
    requires AllFit(blocks) && blocks != [] && k <= |bytes|
  {
    r.parser == ParserAt(bytes, k) && (r.within <==> WithinAt(blocks, k))
  }

  /** The blocks of a closed padding phase in front of raw bytes. */
  ghost predicate Padded(blocks: seq<Block>, bytes: seq<byte>)
  {
    AllFit(blocks) && Grammar(blocks, true) && EncodeBlocks(blocks) <= bytes
  }

  lemma {:induction false} LastBlock(blocks: seq<Block>)
    requires AllFit(blocks) && Grammar(blocks, true)
    ensures var front, last := blocks[..|blocks| - 1], blocks[|blocks| - 1];
            && Grammar(front, false) && last.command != PADDING_CONTINUE
            && EncodeBlocks(blocks) == EncodeBlocks(front) + last.Encode()
  {
    var front, last := blocks[..|blocks| - 1], blocks[|blocks| - 1];
    assert blocks == front + [last];
    EncodeBlocksConcat(front, [last]);
    assert [last][1..] == [];
    assert last.Encode() + [] == last.Encode();
  }

  /** The reader's test at every position of the stream. */
  lemma {:induction false} LeavesAt(blocks: seq<Block>, bytes: seq<byte>, k: nat)
    requires Padded(blocks, bytes) && k <= |bytes|
    ensures !Leaves(ParserAt(bytes, k)) <==> WithinAt(blocks, k)
    ensures k >= |EncodeBlocks(blocks)| ==> ParserAt(bytes, k) == blocks[|blocks| - 1].After()
    ensures k < |EncodeBlocks(blocks)| ==> ParserAt(bytes, k).Busy()
  {
    var front, last, h := blocks[..|blocks| - 1], blocks[|blocks| - 1], EncodeBlocks(blocks);
    LastBlock(blocks);
    if k < |h| {
      assert bytes[..k] == h[..k];
      LeavesExactly(front, last, k);
      BusyInside(FIRST_BLOCK, blocks, true, k);
    } else {
      assert bytes[..k] == h + bytes[|h|..k];
      FeedBlocks(FIRST_BLOCK, blocks, true);
      FeedConcat(FIRST_BLOCK, h, bytes[|h|..k]);
    }
  }

  lemma {:induction false} ParserMoves(bytes: seq<byte>, k: nat, c: seq<byte>)
    requires k <= |bytes| && c <= bytes[k..]
    ensures Feed(ParserAt(bytes, k), c).parser == ParserAt(bytes, k + |c|)
  {
    assert bytes[..k + |c|] == bytes[..k] + c;
    FeedConcat(FIRST_BLOCK, bytes[..k], c);
  }

  /** Unpadding one read that starts at position k. */
  lemma {:induction false} UnpadRead(uuid: seq<byte>, blocks: seq<Block>, bytes: seq<byte>, k: nat, mb: seq<seq<byte>>)
    requires Padded(blocks, bytes) && k <= |bytes| && Flatten(mb) <= bytes[k..]
    ensures var p, c := ParserAt(bytes, k), Flatten(mb);
            && (NoLookalike(uuid, mb, |EncodeBlocks(blocks)| - k) ==> UnpadAll(uuid, p, mb) == Feed(p, c))
            && (!NoLookalike(uuid, mb, |EncodeBlocks(blocks)| - k) ==> |UnpadAll(uuid, p, mb).out| < |Feed(p, c).out|)
  {
    var p, c, h := ParserAt(bytes, k), Flatten(mb), EncodeBlocks(blocks);
    BlocksClose(FIRST_BLOCK, blocks, true);
    if k <= |h| {
      assert bytes[..k] == h[..k];
      ClosesSuffix(FIRST_BLOCK, h, k);
      assert h[k..] <= bytes[k..];
      UnpadPrefix(uuid, p, h[k..], mb);
    } else {
      LeavesAt(blocks, bytes, k);
      UnpadRaw(uuid, p, mb);
      NoLookalikeAtZero(uuid, mb, |h| - k);
    }
  }

  /** One read that is prompt and quiet: the automaton's bytes come out and the reader is in the mode it should be in. */
  lemma {:induction false} GoodRead(uuid: seq<byte>, blocks: seq<Block>, bytes: seq<byte>, k: nat, r: Reading, a: Arrival)
    requires Padded(blocks, bytes) && k <= |bytes| && Flatten(a.mb) <= bytes[k..] && Tracks(r, blocks, bytes, k)
    requires OnTime(blocks, a, k) && Clean(uuid, |EncodeBlocks(blocks)|, a, k)
    ensures var s, c := ReadStep(uuid, r, a.mb, a.filtering), Flatten(a.mb);
            && s.out == Feed(ParserAt(bytes, k), c).out && Tracks(s.reading, blocks, bytes, k + |c|)
  {
    var c := Flatten(a.mb);
    LeavesAt(blocks, bytes, k);
    LeavesAt(blocks, bytes, k + |c|);
    ParserMoves(bytes, k, c);
    UnpadRead(uuid, blocks, bytes, k, a.mb);
    SwitchFollows(blocks, bytes, k + |c|, r.(parser := ParserAt(bytes, k + |c|)));
  }

  /** The parser at a misleading place is inside the terminal header. */
  lemma {:induction false} HeaderAt(blocks: seq<Block>, bytes: seq<byte>, k: nat)
    requires Padded(blocks, bytes) && k <= |bytes| && MisleadsAt(blocks, k)
    ensures var p := ParserAt(bytes, k);
            k < |EncodeBlocks(blocks)| && p.Busy() && p.command > 0 && p.current == blocks[|blocks| - 1].command
  {
    var front, last, h := blocks[..|blocks| - 1], blocks[|blocks| - 1], EncodeBlocks(blocks);
    LastBlock(blocks);
    var head, n := EncodeBlocks(front), k - |EncodeBlocks(front)|;
    assert h[..k] == head + last.Header()[..n];
    assert bytes[..k] == h[..k];
    FeedBlocks(FIRST_BLOCK, front, false);
    FeedConcat(FIRST_BLOCK, head, last.Header()[..n]);
    FeedPartialHeader(if front == [] then FIRST_BLOCK else front[|front| - 1].After(), last, n);
  }

  /** After unpadding, the switch agrees with the reader's test. */
  lemma {:induction false} SwitchFollows(blocks: seq<Block>, bytes: seq<byte>, k: nat, r: Reading)
    requires Padded(blocks, bytes) && k <= |bytes| && r.parser == ParserAt(bytes, k)
    ensures Switch(r).parser == r.parser && (Switch(r).within <==> WithinAt(blocks, k))
  {
    LeavesAt(blocks, bytes, k);
    if MisleadsAt(blocks, k) {
      HeaderAt(blocks, bytes, k);
    }
  }

  /** The rest of a run, seen from its first read. */
  lemma {:induction false} RestOf(arrivals: seq<Arrival>, bytes: seq<byte>, k: nat)
    requires arrivals != [] && k <= |bytes| && Flatten(Chunks(arrivals)) <= bytes[k..]
    ensures var c, rest := Flatten(arrivals[0].mb), Flatten(Chunks(arrivals[1..]));
            Flatten(Chunks(arrivals)) == c + rest && c <= bytes[k..] && k + |c| <= |bytes| && rest <= bytes[k + |c|..]
  {
    FlattenConcat(arrivals[0].mb, Chunks(arrivals[1..]));
    var c, rest, tail := Flatten(arrivals[0].mb), Flatten(Chunks(arrivals[1..])), bytes[k..];
    assert tail[..|c + rest|] == c + rest;
    assert tail[..|c|] == (c + rest)[..|c|] == c;
    assert tail[|c|..][..|rest|] == (c + rest)[|c|..] == rest;
    assert bytes[k + |c|..] == tail[|c|..];
  }

  /** The bytes of the automaton come out. */
  ghost predicate Follows(uuid: seq<byte>, bytes: seq<byte>, k: nat, r: Reading, arrivals: seq<Arrival>)
    requires r.parser.Valid() && k <= |bytes|
  {
    ReadAll(uuid, r, arrivals).out == Feed(ParserAt(bytes, k), Flatten(Chunks(arrivals))).out
  }

  lemma {:induction false} FollowsOn(uuid: seq<byte>, bytes: seq<byte>, k: nat, r: Reading, arrivals: seq<Arrival>, one: Read, c: seq<byte>)
    requires r.parser.Valid() && one.reading.parser.Valid() && k <= |bytes| && arrivals != [] && Flatten(Chunks(arrivals)) <= bytes[k..]
    requires one == ReadStep(uuid, r, arrivals[0].mb, arrivals[0].filtering) && c == Flatten(arrivals[0].mb) && k + |c| <= |bytes|
    requires one.out == Feed(ParserAt(bytes, k), c).out && Follows(uuid, bytes, k + |c|, one.reading, arrivals[1..])
    ensures Follows(uuid, bytes, k, r, arrivals)
  {
    RestOf(arrivals, bytes, k);
    ParserMoves(bytes, k, c);
    FeedConcat(ParserAt(bytes, k), c, Flatten(Chunks(arrivals[1..])));
  }

  /** The first read of such a run, and what is left for the rest of it. */
  lemma {:induction false} TrackOne(uuid: seq<byte>, blocks: seq<Block>, bytes: seq<byte>, k: nat, r: Reading, arrivals: seq<Arrival>,
    one: Read, c: seq<byte>)
    requires Padded(blocks, bytes) && k <= |bytes| && Tracks(r, blocks, bytes, k)
    requires arrivals != [] && Flatten(Chunks(arrivals)) <= bytes[k..]
    requires one == ReadStep(uuid, r, arrivals[0].mb, arrivals[0].filtering) && c == Flatten(arrivals[0].mb)
    requires OnTime(blocks, arrivals[0], k) && Clean(uuid, |EncodeBlocks(blocks)|, arrivals[0], k)
    ensures k + |c| <= |bytes| && Flatten(Chunks(arrivals[1..])) <= bytes[k + |c|..]
    ensures k + |c| + |Flatten(Chunks(arrivals[1..]))| == k + |Flatten(Chunks(arrivals))|
    ensures one.out == Feed(ParserAt(bytes, k), c).out && Tracks(one.reading, blocks, bytes, k + |c|)
  {
    RestOf(arrivals, bytes, k);
    GoodRead(uuid, blocks, bytes, k, r, arrivals[0]);
  }

  /** Over every run of reads that are on time and clean, starting and ending anywhere: the bytes of the automaton come
      out, and the reader ends in the mode it should be in. */
  lemma {:induction false} ReaderTracks(uuid: seq<byte>, blocks: seq<Block>, bytes: seq<byte>, k: nat, r: Reading, arrivals: seq<Arrival>)
    requires Padded(blocks, bytes) && k <= |bytes| && Tracks(r, blocks, bytes, k)
    requires Flatten(Chunks(arrivals)) <= bytes[k..]
    requires Prompt(blocks, arrivals, k) && Quiet(uuid, |EncodeBlocks(blocks)|, arrivals, k)
    ensures Follows(uuid, bytes, k, r, arrivals)
    ensures Tracks(ReadAll(uuid, r, arrivals).reading, blocks, bytes, k + |Flatten(Chunks(arrivals))|)
    decreases |arrivals|
  {
    if arrivals != [] {
      var a := arrivals[0];
      var c, one := Flatten(a.mb), ReadStep(uuid, r, a.mb, a.filtering);
      TrackOne(uuid, blocks, bytes, k, r, arrivals, one, c);
      ReaderTracks(uuid, blocks, bytes, k + |c|, one.reading, arrivals[1..]);
      FollowsOn(uuid, bytes, k, r, arrivals, one, c);
    }
  }

  lemma {:induction false} PassesThrough(uuid: seq<byte>, r: Reading, arrivals: seq<Arrival>)
    requires r.parser.Valid() && !r.within && forall i :: 0 <= i < |arrivals| ==> !arrivals[i].filtering
    ensures ReadAll(uuid, r, arrivals).out == Flatten(Chunks(arrivals))
    decreases |arrivals|
  {
    if arrivals != [] {
      FlattenConcat(arrivals[0].mb, Chunks(arrivals[1..]));
      PassesThrough(uuid, r, arrivals[1..]);
    }
  }

  /** Not as many bytes come out as should. */
  ghost predicate Fails(uuid: seq<byte>, bytes: seq<byte>, k: nat, r: Reading, arrivals: seq<Arrival>)
    requires r.parser.Valid() && k <= |bytes|
  {
    |ReadAll(uuid, r, arrivals).out| != |Feed(ParserAt(bytes, k), Flatten(Chunks(arrivals))).out|
  }

  lemma {:induction false} FailsOn(uuid: seq<byte>, bytes: seq<byte>, k: nat, r: Reading, arrivals: seq<Arrival>)
    requires r.parser.Valid() && k <= |bytes| && arrivals != [] && Flatten(Chunks(arrivals)) <= bytes[k..]
    ensures var a, rest, c := arrivals[0], arrivals[1..], Flatten(arrivals[0].mb);
            var one := ReadStep(uuid, r, a.mb, a.filtering);
            var due := |Feed(ParserAt(bytes, k), c).out|;
            && c <= bytes[k..] && k + |c| <= |bytes| && Flatten(Chunks(rest)) <= bytes[k + |c|..]
            && (|one.out| == due && Fails(uuid, bytes, k + |c|, one.reading, rest) ==> Fails(uuid, bytes, k, r, arrivals))
            && (|one.out| < due && ParserAt(bytes, k + |c|).Idle() ==> Fails(uuid, bytes, k, r, arrivals))
  {
    var c, rest := Flatten(arrivals[0].mb), Flatten(Chunks(arrivals[1..]));
    NothingInvented(uuid, ReadStep(uuid, r, arrivals[0].mb, arrivals[0].filtering).reading, arrivals[1..]);
    RestOf(arrivals, bytes, k);
    ParserMoves(bytes, k, c);
    FeedConcat(ParserAt(bytes, k), c, rest);
  }

  /** The filter never being started again, a run with a late or an unclean read brings out too many or too few bytes. */
  lemma {:induction false} ReaderFails(uuid: seq<byte>, blocks: seq<Block>, bytes: seq<byte>, k: nat, r: Reading, arrivals: seq<Arrival>)
    requires Padded(blocks, bytes) && k <= |bytes| && Tracks(r, blocks, bytes, k)
    requires Flatten(Chunks(arrivals)) <= bytes[k..] && FilterStops(arrivals)
    requires !(Prompt(blocks, arrivals, k) && Quiet(uuid, |EncodeBlocks(blocks)|, arrivals, k))
    ensures Fails(uuid, bytes, k, r, arrivals)
    decreases |arrivals|
  {
    var a := arrivals[0];
    if !OnTime(blocks, a, k) {
      LateRun(uuid, blocks, bytes, k, r, arrivals);
    } else {
      FailsOn(uuid, bytes, k, r, arrivals);
      if Clean(uuid, |EncodeBlocks(blocks)|, a, k) {
        GoodRead(uuid, blocks, bytes, k, r, a);
        ReaderFails(uuid, blocks, bytes, k + |Flatten(a.mb)|, ReadStep(uuid, r, a.mb, a.filtering).reading, arrivals[1..]);
      } else {
        UncleanRead(uuid, blocks, bytes, k, r, a);
      }
    }
  }

  /** A lookalike costs bytes, and everything behind it should have passed unchanged. */
  lemma {:induction false} UncleanRead(uuid: seq<byte>, blocks: seq<Block>, bytes: seq<byte>, k: nat, r: Reading, a: Arrival)
    requires Padded(blocks, bytes) && k <= |bytes| && Flatten(a.mb) <= bytes[k..] && Tracks(r, blocks, bytes, k)
    requires OnTime(blocks, a, k) && !Clean(uuid, |EncodeBlocks(blocks)|, a, k)
    ensures |ReadStep(uuid, r, a.mb, a.filtering).out| < |Feed(ParserAt(bytes, k), Flatten(a.mb)).out|
    ensures ParserAt(bytes, k + |Flatten(a.mb)|).Idle()
  {
    LookalikeBehind(uuid, a.mb, |EncodeBlocks(blocks)| - k);
    LeavesAt(blocks, bytes, k + |Flatten(a.mb)|);
    UnpadRead(uuid, blocks, bytes, k, a.mb);
  }

  /** A read that starts inside the terminal header and is not unpadded, and all reads after it, bring out every byte of
      the stream, header and padding included. */
  lemma {:induction false} LateRun(uuid: seq<byte>, blocks: seq<Block>, bytes: seq<byte>, k: nat, r: Reading, arrivals: seq<Arrival>)
    requires Padded(blocks, bytes) && k <= |bytes| && Tracks(r, blocks, bytes, k)
    requires arrivals != [] && !OnTime(blocks, arrivals[0], k) && FilterStops(arrivals)
    ensures ReadAll(uuid, r, arrivals).out == Flatten(Chunks(arrivals)) && Fails(uuid, bytes, k, r, arrivals)
  {
    PassesThrough(uuid, r, arrivals);
    HeaderAt(blocks, bytes, k);
    FlattenConcat(arrivals[0].mb, Chunks(arrivals[1..]));
  }

  /** A lookalike lies behind the padding phase. */
  lemma {:induction false} LookalikeBehind(uuid: seq<byte>, mb: seq<seq<byte>>, head: int)
    requires !NoLookalike(uuid, mb, head)
    ensures |Flatten(mb)| >= head && Flatten(mb) != []
    decreases |mb|
  {
    if !(head <= 0 && Announces(uuid, mb[0])) {
      LookalikeBehind(uuid, mb[1..], head - |mb[0]|);
    }
  }

  // ---- From the start of a connection ----

  /** A run without the UUID in front. */
  function Stripped(arrivals: seq<Arrival>): seq<Arrival>
    requires Chunks(arrivals) != [] && |Chunks(arrivals)[0]| >= OVERHEAD
    decreases |arrivals|
  {
    var a := arrivals[0];
    if a.mb == [] then Stripped(arrivals[1..])
    else [Arrival([a.mb[0][UUID_LENGTH..]] + a.mb[1..], a.filtering)] + arrivals[1..]
  }

  lemma {:induction false} StripUUID(uuid: seq<byte>, blocks: seq<Block>, bytes: seq<byte>, arrivals: seq<Arrival>)
    requires |uuid| == UUID_LENGTH && AllFit(blocks) && blocks != []
    requires Chunks(arrivals) != [] && |Chunks(arrivals)[0]| >= OVERHEAD && Flatten(Chunks(arrivals)) <= uuid + bytes
    ensures var rest := Stripped(arrivals);
            && Flatten(Chunks(rest)) <= bytes && |Flatten(Chunks(arrivals))| == |Flatten(Chunks(rest))| + UUID_LENGTH
            && ReadAll(uuid, FRESH_READING, arrivals) == ReadAll(uuid, Reading(FIRST_BLOCK, true, false), rest)
            && (Prompt(blocks, arrivals, -UUID_LENGTH) <==> Prompt(blocks, rest, 0))
            && (Quiet(uuid, |EncodeBlocks(blocks)|, arrivals, -UUID_LENGTH) <==> Quiet(uuid, |EncodeBlocks(blocks)|, rest, 0))
            && (FilterStops(arrivals) ==> FilterStops(rest))
    decreases |arrivals|
  {
    var a := arrivals[0];
    if a.mb == [] {
      SkipEmptyRead(uuid, arrivals);
      SkipEmpty(uuid, blocks, |EncodeBlocks(blocks)|, arrivals, -UUID_LENGTH);
      StripUUID(uuid, blocks, bytes, arrivals[1..]);
    } else {
      StripBytes(uuid, bytes, arrivals);
      StripRead(uuid, bytes, arrivals);
      StripFirst(uuid, blocks, bytes, arrivals);
    }
  }

  /** A read without chunks changes nothing. */
  lemma {:induction false} SkipEmptyRead(uuid: seq<byte>, arrivals: seq<Arrival>)
    requires arrivals != [] && arrivals[0].mb == []
    ensures Chunks(arrivals) == Chunks(arrivals[1..])
    ensures ReadAll(uuid, FRESH_READING, arrivals) == ReadAll(uuid, FRESH_READING, arrivals[1..])
  {
    var rest := ReadAll(uuid, FRESH_READING, arrivals[1..]);
    assert ReadStep(uuid, FRESH_READING, [], arrivals[0].filtering) == Read(FRESH_READING, []);
    assert [] + rest.out == rest.out;
  }

  lemma {:induction false} SkipEmpty(uuid: seq<byte>, blocks: seq<Block>, length: nat, arrivals: seq<Arrival>, k: int)
    requires AllFit(blocks) && blocks != [] && arrivals != [] && arrivals[0].mb == []
    ensures Prompt(blocks, arrivals, k) <==> Prompt(blocks, arrivals[1..], k)
    ensures Quiet(uuid, length, arrivals, k) <==> Quiet(uuid, length, arrivals[1..], k)
  {
    assert Flatten(arrivals[0].mb) == [] && NoLookalike(uuid, arrivals[0].mb, length - k);
  }

  /** The bytes of a run whose first read has at least one chunk. */
  lemma {:induction false} StripBytes(uuid: seq<byte>, bytes: seq<byte>, arrivals: seq<Arrival>)
    requires |uuid| == UUID_LENGTH
    requires arrivals != [] && arrivals[0].mb != [] && |arrivals[0].mb[0]| >= OVERHEAD && Flatten(Chunks(arrivals)) <= uuid + bytes
    ensures var rest := Stripped(arrivals);
            && Flatten(arrivals[0].mb) == uuid + Flatten(rest[0].mb)
            && Flatten(Chunks(arrivals)) == uuid + Flatten(Chunks(rest))
            && Flatten(Chunks(rest)) <= bytes
  {
    var a, tail := arrivals[0].mb, Flatten(Chunks(arrivals[1..]));
    var rest := Stripped(arrivals);
    assert rest[1..] == arrivals[1..];
    FlattenConcat(a, Chunks(arrivals[1..]));
    FlattenConcat(rest[0].mb, Chunks(arrivals[1..]));
    var all := a[0] + (Flatten(a[1..]) + tail);
    Assoc(a[0], Flatten(a[1..]), tail);
    assert a[0][..UUID_LENGTH] == all[..UUID_LENGTH] == (uuid + bytes)[..UUID_LENGTH] == uuid;
    FlattenCons(a[0][UUID_LENGTH..], a[1..]);
    assert a[0] == uuid + a[0][UUID_LENGTH..];
    Assoc(uuid, a[0][UUID_LENGTH..], Flatten(a[1..]));
    Assoc(uuid, Flatten(rest[0].mb), tail);
    SamePrefix(uuid, Flatten(Chunks(rest)), bytes);
  }

  lemma {:induction false} SamePrefix(a: seq<byte>, b: seq<byte>, c: seq<byte>)
    requires a + b <= a + c
    ensures b <= c
  {
    assert (a + c)[|a|..] == c && (a + b)[|a|..] == b;
    assert (a + c)[..|a + b|] == a + b;
  }

  /** Stripping the UUID from the first chunk changes neither what comes out nor what the reads are. */
  lemma {:induction false} StripRead(uuid: seq<byte>, bytes: seq<byte>, arrivals: seq<Arrival>)
    requires |uuid| == UUID_LENGTH
    requires arrivals != [] && arrivals[0].mb != [] && |arrivals[0].mb[0]| >= OVERHEAD && Flatten(Chunks(arrivals)) <= uuid + bytes
    ensures ReadAll(uuid, FRESH_READING, arrivals) == ReadAll(uuid, Reading(FIRST_BLOCK, true, false), Stripped(arrivals))
  {
    var a, b := arrivals[0], Stripped(arrivals)[0];
    StripBytes(uuid, bytes, arrivals);
    FirstChunk(uuid, Flatten(b.mb), a.mb);
    assert Stripped(arrivals)[1..] == arrivals[1..];
    assert ReadStep(uuid, FRESH_READING, a.mb, a.filtering) == ReadStep(uuid, Reading(FIRST_BLOCK, true, false), b.mb, b.filtering);
  }

  lemma {:induction false} StripFirst(uuid: seq<byte>, blocks: seq<Block>, bytes: seq<byte>, arrivals: seq<Arrival>)
    requires |uuid| == UUID_LENGTH && AllFit(blocks) && blocks != []
    requires arrivals != [] && arrivals[0].mb != [] && |arrivals[0].mb[0]| >= OVERHEAD && Flatten(Chunks(arrivals)) <= uuid + bytes
    ensures var rest := Stripped(arrivals);
            && (Prompt(blocks, arrivals, -UUID_LENGTH) <==> Prompt(blocks, rest, 0))
            && (Quiet(uuid, |EncodeBlocks(blocks)|, arrivals, -UUID_LENGTH) <==> Quiet(uuid, |EncodeBlocks(blocks)|, rest, 0))
  {
    var a, b, length := arrivals[0], Stripped(arrivals)[0], |EncodeBlocks(blocks)|;
    StripBytes(uuid, bytes, arrivals);
    FirstChunk(uuid, Flatten(b.mb), a.mb);
    NonEmptyBlocks(blocks);
    assert Stripped(arrivals)[1..] == arrivals[1..];
    assert OnTime(blocks, a, -UUID_LENGTH) && OnTime(blocks, b, 0);
    assert Clean(uuid, length, a, -UUID_LENGTH) <==> Clean(uuid, length, b, 0);
  }

  /** No read ends at a misleading place. */
  ghost predicate EndsWell(blocks: seq<Block>, arrivals: seq<Arrival>, k: int)
    requires AllFit(blocks) && blocks != []
    decreases |arrivals|
  {
    arrivals != [] ==>
      var next := k + |Flatten(arrivals[0].mb)|;
      !MisleadsAt(blocks, next) && EndsWell(blocks, arrivals[1..], next)
  }

  lemma {:induction false} EndsWellPrompt(blocks: seq<Block>, arrivals: seq<Arrival>, k: int)
    requires AllFit(blocks) && blocks != [] && EndsWell(blocks, arrivals, k) && !MisleadsAt(blocks, k)
    ensures Prompt(blocks, arrivals, k) && !MisleadsAt(blocks, k + |Flatten(Chunks(arrivals))|)
    decreases |arrivals|
  {
    if arrivals != [] {
      FlattenConcat(arrivals[0].mb, Chunks(arrivals[1..]));
      EndsWellPrompt(blocks, arrivals[1..], k + |Flatten(arrivals[0].mb)|);
    }
  }

  /** If every read is on time and clean, then after n bytes behind the UUID the reader is in padding mode exactly if the
      terminal block has not been consumed and the last read did not end at a misleading place. */
  lemma {:induction false} ModeAfter(uuid: seq<byte>, blocks: seq<Block>, raw: seq<byte>, arrivals: seq<Arrival>)
    requires |uuid| == UUID_LENGTH && AllFit(blocks) && Grammar(blocks, true)
    requires Flatten(Chunks(arrivals)) <= Wire(uuid, blocks, raw)
    requires Chunks(arrivals) != [] && |Chunks(arrivals)[0]| >= OVERHEAD
    requires Prompt(blocks, arrivals, -UUID_LENGTH) && Quiet(uuid, |EncodeBlocks(blocks)|, arrivals, -UUID_LENGTH)
    ensures ReadAll(uuid, FRESH_READING, arrivals).reading.within
       <==> WithinAt(blocks, |Flatten(Chunks(arrivals))| - UUID_LENGTH)
  {
    var bytes, rest := EncodeBlocks(blocks) + raw, Stripped(arrivals);
    PaddedWire(uuid, blocks, raw);
    StripUUID(uuid, blocks, bytes, arrivals);
    ModeStripped(uuid, blocks, bytes, rest);
  }

  lemma {:induction false} PaddedWire(uuid: seq<byte>, blocks: seq<Block>, raw: seq<byte>)
    requires AllFit(blocks) && Grammar(blocks, true)
    ensures Padded(blocks, EncodeBlocks(blocks) + raw) && Wire(uuid, blocks, raw) == uuid + (EncodeBlocks(blocks) + raw)
  {
  }

  lemma {:induction false} ModeStripped(uuid: seq<byte>, blocks: seq<Block>, bytes: seq<byte>, arrivals: seq<Arrival>)
    requires Padded(blocks, bytes) && Flatten(Chunks(arrivals)) <= bytes
    requires Prompt(blocks, arrivals, 0) && Quiet(uuid, |EncodeBlocks(blocks)|, arrivals, 0)
    ensures ReadAll(uuid, Reading(FIRST_BLOCK, true, false), arrivals).reading.within
       <==> WithinAt(blocks, |Flatten(Chunks(arrivals))|)
  {
    StartTracks(blocks, bytes);
    assert bytes[0..] == bytes;
    ReaderTracks(uuid, blocks, bytes, 0, Reading(FIRST_BLOCK, true, false), arrivals);
  }

  /** If no read ends at a misleading place, and no read that is unpadded brings a lookalike, the reader is in padding mode
      exactly while the terminal block has not been consumed. */
  lemma {:induction false} ModeExactly(uuid: seq<byte>, blocks: seq<Block>, raw: seq<byte>, arrivals: seq<Arrival>)
    requires |uuid| == UUID_LENGTH && AllFit(blocks) && Grammar(blocks, true)
    requires Flatten(Chunks(arrivals)) <= Wire(uuid, blocks, raw)
    requires Chunks(arrivals) != [] && |Chunks(arrivals)[0]| >= OVERHEAD
    requires EndsWell(blocks, arrivals, -UUID_LENGTH) && Quiet(uuid, |EncodeBlocks(blocks)|, arrivals, -UUID_LENGTH)
    ensures ReadAll(uuid, FRESH_READING, arrivals).reading.within
       <==> |Flatten(Chunks(arrivals))| < UUID_LENGTH + |EncodeBlocks(blocks)|
  {
    EndsWellPrompt(blocks, arrivals, -UUID_LENGTH);
    ModeAfter(uuid, blocks, raw, arrivals);
  }

  lemma {:induction false} StartTracks(blocks: seq<Block>, bytes: seq<byte>)
    requires Padded(blocks, bytes)
    ensures Tracks(Reading(FIRST_BLOCK, true, false), blocks, bytes, 0)
  {
    assert bytes[..0] == [];
    NonEmptyBlocks(blocks);
  }

  /** After the padding phase: every byte comes out right if all reads are on time and clean; and, the filter never being
      started again, only then. */
  lemma {:induction false} ReaderRoundTrip(uuid: seq<byte>, blocks: seq<Block>, raw: seq<byte>, arrivals: seq<Arrival>)
    requires |uuid| == UUID_LENGTH && AllFit(blocks) && Grammar(blocks, true)
    requires Flatten(Chunks(arrivals)) == Wire(uuid, blocks, raw)
    requires Chunks(arrivals) != [] && |Chunks(arrivals)[0]| >= OVERHEAD
    ensures var good := Prompt(blocks, arrivals, -UUID_LENGTH) && Quiet(uuid, |EncodeBlocks(blocks)|, arrivals, -UUID_LENGTH);
            && (good ==> ReadAll(uuid, FRESH_READING, arrivals).out == Contents(blocks) + raw)
            && (!good && FilterStops(arrivals) ==> ReadAll(uuid, FRESH_READING, arrivals).out != Contents(blocks) + raw)
  {
    var h := EncodeBlocks(blocks);
    var bytes, rest, start := h + raw, Stripped(arrivals), Reading(FIRST_BLOCK, true, false);
    assert Wire(uuid, blocks, raw) == uuid + bytes;
    StripUUID(uuid, blocks, bytes, arrivals);
    StartTracks(blocks, bytes);
    assert bytes[0..] == bytes && Flatten(Chunks(rest)) == bytes && bytes[..0] == [];
    FeedBlocks(FIRST_BLOCK, blocks, true);
    FeedConcat(FIRST_BLOCK, h, raw);
    if Prompt(blocks, rest, 0) && Quiet(uuid, |h|, rest, 0) {
      ReaderTracks(uuid, blocks, bytes, 0, start, rest);
    } else if FilterStops(rest) {
      ReaderFails(uuid, blocks, bytes, 0, start, rest);
    }
  }

  // ---- The switch to direct copy ----

  /** The padding phase is closed by the command to go on with direct copy. */
  predicate EndsDirect(blocks: seq<Block>)
    requires blocks != []
  {
    blocks[|blocks| - 1].command == PADDING_DIRECT
  }

  /** Some read ends where the reader is not in padding mode. */
  ghost predicate EverLeaves(blocks: seq<Block>, arrivals: seq<Arrival>, k: int)
    requires AllFit(blocks) && blocks != []
    decreases |arrivals|
  {
    arrivals != [] &&
    var next := k + |Flatten(arrivals[0].mb)|;
    (Flatten(arrivals[0].mb) != [] && !WithinAt(blocks, next)) || EverLeaves(blocks, arrivals[1..], next)
  }

  /** The commands at the places where the reader's test says that padding is over. */
  lemma {:induction false} CommandAt(blocks: seq<Block>, bytes: seq<byte>, k: nat)
    requires Padded(blocks, bytes) && k <= |bytes| && !WithinAt(blocks, k)
    ensures ParserAt(bytes, k).current == blocks[|blocks| - 1].command && Leaves(ParserAt(bytes, k))
  {
    LeavesAt(blocks, bytes, k);
    if k < |EncodeBlocks(blocks)| {
      HeaderAt(blocks, bytes, k);
    }
  }

  /** What one read does to the flag. */
  lemma {:induction false} DirectRead(uuid: seq<byte>, blocks: seq<Block>, bytes: seq<byte>, k: nat, r: Reading, a: Arrival)
    requires Padded(blocks, bytes) && k <= |bytes| && Flatten(a.mb) <= bytes[k..] && Tracks(r, blocks, bytes, k)
    requires OnTime(blocks, a, k) && Clean(uuid, |EncodeBlocks(blocks)|, a, k)
    requires k >= |EncodeBlocks(blocks)| && EndsDirect(blocks) ==> r.directCopy
    ensures var s, next := ReadStep(uuid, r, a.mb, a.filtering), k + |Flatten(a.mb)|;
            s.reading.directCopy <==> r.directCopy || (EndsDirect(blocks) && Flatten(a.mb) != [] && !WithinAt(blocks, next))
  {
    var c := Flatten(a.mb);
    ParserMoves(bytes, k, c);
    UnpadRead(uuid, blocks, bytes, k, a.mb);
    LeavesAt(blocks, bytes, k + |c|);
    if !WithinAt(blocks, k + |c|) {
      CommandAt(blocks, bytes, k + |c|);
    }
  }

  lemma {:induction false} DirectOne(uuid: seq<byte>, blocks: seq<Block>, bytes: seq<byte>, k: nat, r: Reading, arrivals: seq<Arrival>,
    one: Read, c: seq<byte>)
    requires Padded(blocks, bytes) && k <= |bytes| && Tracks(r, blocks, bytes, k)
    requires arrivals != [] && Flatten(Chunks(arrivals)) <= bytes[k..]
    requires one == ReadStep(uuid, r, arrivals[0].mb, arrivals[0].filtering) && c == Flatten(arrivals[0].mb)
    requires OnTime(blocks, arrivals[0], k) && Clean(uuid, |EncodeBlocks(blocks)|, arrivals[0], k)
    requires k >= |EncodeBlocks(blocks)| && EndsDirect(blocks) ==> r.directCopy
    ensures k + |c| <= |bytes| && Flatten(Chunks(arrivals[1..])) <= bytes[k + |c|..] && Tracks(one.reading, blocks, bytes, k + |c|)
    ensures one.reading.directCopy <==> r.directCopy || (EndsDirect(blocks) && c != [] && !WithinAt(blocks, k + |c|))
    ensures k + |c| >= |EncodeBlocks(blocks)| && EndsDirect(blocks) ==> one.reading.directCopy
  {
    TrackOne(uuid, blocks, bytes, k, r, arrivals, one, c);
    RestOf(arrivals, bytes, k);
    DirectRead(uuid, blocks, bytes, k, r, arrivals[0]);
  }

  /** Over every run of reads that are on time and clean: the flag is set exactly if the padding phase ends with that
      command and a read has ended outside padding mode. */
  lemma {:induction false} DirectTracks(uuid: seq<byte>, blocks: seq<Block>, bytes: seq<byte>, k: nat, r: Reading, arrivals: seq<Arrival>)
    requires Padded(blocks, bytes) && k <= |bytes| && Tracks(r, blocks, bytes, k)
    requires Flatten(Chunks(arrivals)) <= bytes[k..]
    requires Prompt(blocks, arrivals, k) && Quiet(uuid, |EncodeBlocks(blocks)|, arrivals, k)
    requires k >= |EncodeBlocks(blocks)| && EndsDirect(blocks) ==> r.directCopy
    ensures ReadAll(uuid, r, arrivals).reading.directCopy <==> r.directCopy || (EndsDirect(blocks) && EverLeaves(blocks, arrivals, k))
    decreases |arrivals|
  {
    if arrivals != [] {
      var a := arrivals[0];
      var c, one := Flatten(a.mb), ReadStep(uuid, r, a.mb, a.filtering);
      DirectOne(uuid, blocks, bytes, k, r, arrivals, one, c);
      DirectTracks(uuid, blocks, bytes, k + |c|, one.reading, arrivals[1..]);
    }
  }

  /** A run from inside the padding phase leaves it by getting to its end or by ending a read at a misleading place. */
  lemma {:induction false} EverLeavesIff(blocks: seq<Block>, arrivals: seq<Arrival>, k: int)
    requires AllFit(blocks) && blocks != [] && WithinAt(blocks, k)
    ensures EverLeaves(blocks, arrivals, k)
       <==> k + |Flatten(Chunks(arrivals))| >= |EncodeBlocks(blocks)| || !EndsWell(blocks, arrivals, k)
    decreases |arrivals|
  {
    if arrivals != [] {
      FlattenConcat(arrivals[0].mb, Chunks(arrivals[1..]));
      var next := k + |Flatten(arrivals[0].mb)|;
      if WithinAt(blocks, next) {
        EverLeavesIff(blocks, arrivals[1..], next);
      }
    }
  }

  lemma {:induction false} StripLeaves(uuid: seq<byte>, blocks: seq<Block>, bytes: seq<byte>, arrivals: seq<Arrival>)
    requires |uuid| == UUID_LENGTH && AllFit(blocks) && blocks != []
    requires Chunks(arrivals) != [] && |Chunks(arrivals)[0]| >= OVERHEAD && Flatten(Chunks(arrivals)) <= uuid + bytes
    ensures EverLeaves(blocks, arrivals, -UUID_LENGTH) <==> EverLeaves(blocks, Stripped(arrivals), 0)
    decreases |arrivals|
  {
    if arrivals[0].mb == [] {
      assert Chunks(arrivals) == Chunks(arrivals[1..]);
      StripLeaves(uuid, blocks, bytes, arrivals[1..]);
    } else {
      StripBytes(uuid, bytes, arrivals);
      assert Stripped(arrivals)[1..] == arrivals[1..];
    }
  }

  /** From the start of a connection: the reader has switched to direct copy exactly if the padding phase ends with the command
      for it and its last block has been consumed, or a read has ended at a misleading place of that block's header. */
  lemma {:induction false} DirectExactly(uuid: seq<byte>, blocks: seq<Block>, raw: seq<byte>, arrivals: seq<Arrival>)
    requires |uuid| == UUID_LENGTH && AllFit(blocks) && Grammar(blocks, true)
    requires Flatten(Chunks(arrivals)) <= Wire(uuid, blocks, raw)
    requires Chunks(arrivals) != [] && |Chunks(arrivals)[0]| >= OVERHEAD
    requires Prompt(blocks, arrivals, -UUID_LENGTH) && Quiet(uuid, |EncodeBlocks(blocks)|, arrivals, -UUID_LENGTH)
    ensures ReadAll(uuid, FRESH_READING, arrivals).reading.directCopy
       <==> EndsDirect(blocks) && (|Flatten(Chunks(arrivals))| >= UUID_LENGTH + |EncodeBlocks(blocks)| || !EndsWell(blocks, arrivals, -UUID_LENGTH))
  {
    var bytes, rest := EncodeBlocks(blocks) + raw, Stripped(arrivals);
    PaddedWire(uuid, blocks, raw);
    StripUUID(uuid, blocks, bytes, arrivals);
    StripLeaves(uuid, blocks, bytes, arrivals);
    EverLeavesIff(blocks, arrivals, -UUID_LENGTH);
    DirectStripped(uuid, blocks, bytes, rest);
  }

  lemma {:induction false} DirectStripped(uuid: seq<byte>, blocks: seq<Block>, bytes: seq<byte>, arrivals: seq<Arrival>)
    requires Padded(blocks, bytes) && Flatten(Chunks(arrivals)) <= bytes
    requires Prompt(blocks, arrivals, 0) && Quiet(uuid, |EncodeBlocks(blocks)|, arrivals, 0)
    ensures ReadAll(uuid, Reading(FIRST_BLOCK, true, false), arrivals).reading.directCopy
       <==> EndsDirect(blocks) && EverLeaves(blocks, arrivals, 0)
  {
    StartTracks(blocks, bytes);
    NonEmptyBlocks(blocks);
    assert bytes[0..] == bytes;
    DirectTracks(uuid, blocks, bytes, 0, Reading(FIRST_BLOCK, true, false), arrivals);
  }

  // ---- While padding lasts ----

  lemma {:induction false} ReaderOpen(uuid: seq<byte>, blocks: seq<Block>, h: seq<byte>, k: nat, r: Reading, arrivals: seq<Arrival>)
    requires AllFit(blocks) && Grammar(blocks, false) && h == EncodeBlocks(blocks) && k <= |h|
    requires r.within && r.parser == ParserAt(h, k) && Flatten(Chunks(arrivals)) <= h[k..]
    ensures Follows(uuid, h, k, r, arrivals) && ReadAll(uuid, r, arrivals).reading.within
    ensures ReadAll(uuid, r, arrivals).reading.directCopy == r.directCopy
    decreases |arrivals|
  {
    if arrivals != [] {
      var a := arrivals[0];
      var c, one := Flatten(a.mb), ReadStep(uuid, r, a.mb, a.filtering);
      RestOf(arrivals, h, k);
      OpenRead(uuid, blocks, h, k, r, a);
      ReaderOpen(uuid, blocks, h, k + |c|, one.reading, arrivals[1..]);
      FollowsOn(uuid, h, k, r, arrivals, one, c);
    }
  }

  lemma {:induction false} OpenRead(uuid: seq<byte>, blocks: seq<Block>, h: seq<byte>, k: nat, r: Reading, a: Arrival)
    requires AllFit(blocks) && Grammar(blocks, false) && h == EncodeBlocks(blocks) && k <= |h|
    requires r.within && r.parser == ParserAt(h, k) && Flatten(a.mb) <= h[k..]
    ensures var s, c := ReadStep(uuid, r, a.mb, a.filtering), Flatten(a.mb);
            && s.out == Feed(r.parser, c).out && s.reading.within && s.reading.parser == ParserAt(h, k + |c|)
            && s.reading.directCopy == r.directCopy
  {
    var c := Flatten(a.mb);
    ParserMoves(h, k, c);
    StaysBefore(FIRST_BLOCK, blocks, k + |c|);
    OpenUnpad(uuid, blocks, h, k, a.mb);
  }

  lemma {:induction false} OpenUnpad(uuid: seq<byte>, blocks: seq<Block>, h: seq<byte>, k: nat, mb: seq<seq<byte>>)
    requires AllFit(blocks) && Grammar(blocks, false) && h == EncodeBlocks(blocks) && k <= |h| && Flatten(mb) <= h[k..]
    ensures UnpadAll(uuid, ParserAt(h, k), mb) == Feed(ParserAt(h, k), Flatten(mb))
  {
    var c := Flatten(mb);
    BlocksClose(FIRST_BLOCK, blocks, false);
    ClosesSuffix(FIRST_BLOCK, h, k);
    assert h[k..][..|c|] == c;
    OpenFront(ParserAt(h, k), h[k..], |c|);
    UnpadOpen(uuid, ParserAt(h, k), c, mb);
  }

  lemma {:induction false} OpenFront(p: Parser, h: seq<byte>, n: nat)
    requires p.Valid() && StaysOpen(p, h) && n <= |h|
    ensures StaysOpen(p, h[..n])
  {
    assert forall k :: 0 <= k <= n ==> h[..n][..k] == h[..k];
  }

  // ---- From writer to reader ----

  /** VisionWriter to VisionReader, for every run of the writer and every way of cutting its output into reads. While
      padding lasts everything written is read. Afterwards it is if every read that starts at a misleading place is still
      filtered and no read that is unpadded brings a raw chunk that looks like a new stream; and, the filter never being
      started again, only then. The reader has then switched to direct copy exactly if the writer's terminal block says so. */
  lemma {:induction false} ReaderDelivers(uuid: seq<byte>, calls: seq<Call>, arrivals: seq<Arrival>)
    requires |uuid| == UUID_LENGTH && Run(Writing(uuid, true), calls)
    requires Flatten(Chunks(arrivals)) == AllWire(calls)
    requires Chunks(arrivals) != [] && |Chunks(arrivals)[0]| >= OVERHEAD
    ensures AllFit(AllBlocks(calls)) && AllBlocks(calls) != []
    ensures Final(Writing(uuid, true), calls).isPadding ==>
              ReadAll(uuid, FRESH_READING, arrivals).out == AllData(calls) && !ReadAll(uuid, FRESH_READING, arrivals).reading.directCopy
    ensures var blocks := AllBlocks(calls);
            var good := Prompt(blocks, arrivals, -UUID_LENGTH) && Quiet(uuid, |EncodeBlocks(blocks)|, arrivals, -UUID_LENGTH);
            !Final(Writing(uuid, true), calls).isPadding ==>
              && (good ==> ReadAll(uuid, FRESH_READING, arrivals).out == AllData(calls))
              && (good ==> (ReadAll(uuid, FRESH_READING, arrivals).reading.directCopy <==> EndsDirect(blocks)))
              && (!good && FilterStops(arrivals) ==> ReadAll(uuid, FRESH_READING, arrivals).out != AllData(calls))
  {
    var blocks, raw := AllBlocks(calls), AllRaw(calls);
    RunGrammar(Writing(uuid, true), calls);
    if blocks == [] {
      FirstBytes(arrivals);
      assert false;
    }
    if Final(Writing(uuid, true), calls).isPadding {
      assert AllWire(calls) == Wire(uuid, blocks, []);
      ReaderOpenRun(uuid, blocks, arrivals);
      assert Contents(blocks) + [] == Contents(blocks);
    } else {
      assert AllWire(calls) == Wire(uuid, blocks, raw);
      ReaderRoundTrip(uuid, blocks, raw, arrivals);
      if Prompt(blocks, arrivals, -UUID_LENGTH) && Quiet(uuid, |EncodeBlocks(blocks)|, arrivals, -UUID_LENGTH) {
        DirectExactly(uuid, blocks, raw, arrivals);
      }
    }
  }

  lemma {:induction false} FirstBytes(arrivals: seq<Arrival>)
    requires Chunks(arrivals) != [] && |Chunks(arrivals)[0]| >= OVERHEAD
    ensures Flatten(Chunks(arrivals)) != []
  {
  }

  lemma {:induction false} ReaderOpenRun(uuid: seq<byte>, blocks: seq<Block>, arrivals: seq<Arrival>)
    requires |uuid| == UUID_LENGTH && AllFit(blocks) && Grammar(blocks, false) && blocks != []
    requires Flatten(Chunks(arrivals)) == Wire(uuid, blocks, [])
    requires Chunks(arrivals) != [] && |Chunks(arrivals)[0]| >= OVERHEAD
    ensures ReadAll(uuid, FRESH_READING, arrivals).out == Contents(blocks)
    ensures !ReadAll(uuid, FRESH_READING, arrivals).reading.directCopy
  {
    var h, rest := EncodeBlocks(blocks), Stripped(arrivals);
    assert Wire(uuid, blocks, []) == uuid + h;
    StripUUID(uuid, blocks, h, arrivals);
    assert h[0..] == h && h[..0] == [] && Flatten(Chunks(rest)) == h;
    ReaderOpen(uuid, blocks, h, 0, Reading(FIRST_BLOCK, true, false), rest);
    FeedBlocks(FIRST_BLOCK, blocks, false);
  }

  /** What goes wrong otherwise: a read ends behind the command byte of the terminal block, the filter stops, and the rest
      of the header is delivered as if it were data, although nothing was written. */
  lemma {:induction false} LateReadExample(uuid: seq<byte>)
    requires |uuid| == UUID_LENGTH
    ensures var blocks := [Block(PADDING_CONTINUE, [], []), Block(PADDING_END, [], [])];
            var arrivals := [Arrival([uuid + [0, 0, 0, 0, 0, 1]], true), Arrival([[0, 0, 0, 0]], false)];
            && AllFit(blocks) && Flatten(Chunks(arrivals)) == Wire(uuid, blocks, []) && Contents(blocks) == []
            && ReadAll(uuid, FRESH_READING, arrivals).out == [0, 0, 0, 0]
  {
    var first, last := Block(PADDING_CONTINUE, [], []), Block(PADDING_END, [], []);
    ExampleWire(uuid, first, last);
    ExampleRead(uuid, first, last);
    FlattenOne([0, 0, 0, 0]);
    TwoReads(uuid, FRESH_READING, Arrival([uuid + [0, 0, 0, 0, 0, 1]], true), Arrival([[0, 0, 0, 0]], false));
  }

  lemma {:induction false} TwoReads(uuid: seq<byte>, r: Reading, one: Arrival, two: Arrival)
    requires r.parser.Valid()
    ensures var s := ReadStep(uuid, r, one.mb, one.filtering);
            ReadAll(uuid, r, [one, two]).out == s.out + ReadStep(uuid, s.reading, two.mb, two.filtering).out
  {
    var s := ReadStep(uuid, r, one.mb, one.filtering);
    assert [one, two][1..] == [two] && [two][1..] == [];
    var t := ReadStep(uuid, s.reading, two.mb, two.filtering);
    assert ReadAll(uuid, s.reading, [two]).out == t.out + [] == t.out;
  }

  lemma {:induction false} ExampleRead(uuid: seq<byte>, first: Block, last: Block)
    requires |uuid| == UUID_LENGTH && first == Block(PADDING_CONTINUE, [], []) && last == Block(PADDING_END, [], [])
    ensures ReadStep(uuid, FRESH_READING, [uuid + [0, 0, 0, 0, 0, 1]], true) == Read(Reading(Parser(4, 0, 0, 1), false, false), [])
  {
    var chunk := uuid + [0, 0, 0, 0, 0, 1];
    FlattenOne(chunk);
    UnpadOne(uuid, INITIAL, chunk);
    assert chunk[..UUID_LENGTH] == uuid && chunk[UUID_LENGTH..] == [0, 0, 0, 0, 0, 1];
    ExampleFront(first, last);
  }

  lemma {:induction false} ExampleWire(uuid: seq<byte>, first: Block, last: Block)
    requires first == Block(PADDING_CONTINUE, [], []) && last == Block(PADDING_END, [], [])
    ensures Contents([first, last]) == []
    ensures var arrivals := [Arrival([uuid + [0, 0, 0, 0, 0, 1]], true), Arrival([[0, 0, 0, 0]], false)];
            Flatten(Chunks(arrivals)) == Wire(uuid, [first, last], [])
  {
    var arrivals := [Arrival([uuid + [0, 0, 0, 0, 0, 1]], true), Arrival([[0, 0, 0, 0]], false)];
    assert [first, last][1..] == [last] && [last][1..] == [];
    assert arrivals[1..] == [arrivals[1]] && arrivals[1..][1..] == [];
    ExampleBytes(first, last);
    assert EncodeBlocks([last]) == [1, 0, 0, 0, 0] + [];
    assert EncodeBlocks([first, last]) == [0, 0, 0, 0, 0, 1, 0, 0, 0, 0];
    assert Contents([last]) == last.content + Contents([]) == [];
    assert Chunks(arrivals[1..]) == arrivals[1].mb + Chunks([]) == [[0, 0, 0, 0]];
    assert Chunks(arrivals) == [uuid + [0, 0, 0, 0, 0, 1]] + [[0, 0, 0, 0]];
    FlattenCons(uuid + [0, 0, 0, 0, 0, 1], [[0, 0, 0, 0]]);
    FlattenOne([0, 0, 0, 0]);
  }

  lemma {:induction false} ExampleFront(first: Block, last: Block)
    requires first == Block(PADDING_CONTINUE, [], []) && last == Block(PADDING_END, [], [])
    ensures Feed(FIRST_BLOCK, [0, 0, 0, 0, 0, 1]) == Fed(Parser(4, 0, 0, 1), [])
  {
    var header := last.Header()[..1];
    FeedBlock(FIRST_BLOCK, first);
    FeedPartialHeader(first.After(), last, 1);
    HeaderLengths(first.After(), last);
    FeedConcat(FIRST_BLOCK, first.Encode(), header);
    ExampleBytes(first, last);
  }

  lemma {:induction false} ExampleBytes(first: Block, last: Block)
    requires first == Block(PADDING_CONTINUE, [], []) && last == Block(PADDING_END, [], [])
    ensures first.Encode() == [0, 0, 0, 0, 0] && last.Encode() == [1, 0, 0, 0, 0]
    ensures first.Encode() + last.Header()[..1] == [0, 0, 0, 0, 0, 1]
  {
    U16Unique([0, 0]);
    assert U16(0) == [0, 0];
  }
}
