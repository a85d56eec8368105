/** AuthenticationReader: blocking and soft reads return the same plaintext, for every segmentation. */
module AuthReader {
  import opened Bytes
  import opened Nonces
  import opened Segments
  import opened AuthStream

  datatype Outcome = Got | WaitForMore | EndOfStream

  /** How often the three generators have been called. */
  datatype Counters = Counters(payload: nat, size: nat, padding: nat)

  /** ... before chunk k, or once its size has been read. */
  function CountersAt(s: Suite, k: nat, sized: bool): Counters
  {
    var extra := if sized then 1 else 0;
    Counters(s.CallsBefore(k) + (if s.sizes.SharedSize? then extra else 0), if s.sizes.OwnSize? then k + extra else 0, k + extra)
  }

  /** The payload nonce used once the size has been read is the one chunk k was sealed with. */
  lemma {:induction false} NextCounters(s: Suite, k: nat)
    ensures var c := CountersAt(s, k, true);
            && NonceAt(s.start, c.payload + 1) == s.PayloadNonce(k)
            && c.(payload := c.payload + 1) == CountersAt(s, k + 1, false)
  {
  }

  lemma {:induction false} WireLongEnough(s: Suite, k: nat, chunks: seq<Chunk>)
    requires Readable(s, k, chunks)
    ensures chunks != [] ==> |Wire(s, k, chunks)| >= s.SizeWidth()
  {
  }

  lemma {:induction false} BodyLongEnough(s: Suite, k: nat, chunks: seq<Chunk>)
    requires Readable(s, k, chunks) && chunks != []
    ensures |Rest(s, k, chunks, true)| >= ChunkSize(s, chunks[0])
  {
  }

  /** Taking the body off the wire brings reader and generators before the next chunk. */
  lemma {:induction false} AfterBody(s: Suite, k: nat, chunks: seq<Chunk>, payload: seq<byte>, rest: seq<byte>)
    requires Readable(s, k, chunks) && chunks != []
    requires payload + rest == Rest(s, k, chunks, true) && |payload| == ChunkSize(s, chunks[0])
    ensures var c := CountersAt(s, k, true);
            && s.Open(NonceAt(s.start, c.payload + 1), payload[..|payload| - |chunks[0].pad|]) == Some(chunks[0].plain)
            && c.(payload := c.payload + 1) == CountersAt(s, k + 1, false)
    ensures Readable(s, k + 1, chunks[1..]) && rest == Rest(s, k + 1, chunks[1..], false)
  {
    BodyInFront(s, k, chunks, payload, rest);
    NextCounters(s, k);
  }

  class AuthenticationReader {
    const suite: Suite
    const reader: BufferedReader
    var hasSize: bool
    var size: nat
    var paddingLen: nat
    var done: bool
    var calls: Counters
    /** The chunk the wire stands at, and the chunks from there on. */
    ghost var index: nat
    ghost var pending: seq<Chunk>

    /** The wire and all generators stand before chunk `index`, or between its size and its body. */
    ghost predicate At(sized: bool)
      reads this, reader
    {
      && Readable(suite, index, pending)
      && (sized ==> pending != [])
      && reader.Remaining() == Rest(suite, index, pending, sized)
      && calls == CountersAt(suite, index, sized)
    }

    ghost predicate Valid()
      reads this, reader
    {
      && (!done ==> At(hasSize))
      && (hasSize ==> pending != [] && size == ChunkSize(suite, pending[0]) && paddingLen == |pending[0].pad|)
    }

    constructor (suite: Suite, reader: BufferedReader, ghost chunks: seq<Chunk>)
      requires Readable(suite, 0, chunks) && reader.Remaining() == Wire(suite, 0, chunks)
      ensures Valid() && !done && !hasSize && index == 0 && pending == chunks
      ensures this.suite == suite && this.reader == reader
    {
      this.suite, this.reader := suite, reader;
      hasSize, size, paddingLen, done := false, 0, 0, false;
      calls := Counters(0, 0, 0);
      index, pending := 0, chunks;
    }

    /** NextPaddingLen and ChunkSizeDecoder.Decode, each advancing the generator it uses. */
    method DecodeSize(bytes: seq<byte>) returns (r: Option<nat>, padding: nat)
      requires |bytes| == suite.SizeWidth() && calls == CountersAt(suite, index, false)
      modifies this`calls
      ensures calls == CountersAt(suite, index, true)
      ensures r == suite.DecodeSize(suite.SizeNonce(index), bytes)
      ensures padding == suite.PaddingOf(index)
    {
      padding := suite.PaddingOf(calls.padding);
      calls := calls.(padding := calls.padding + 1);
      var nonce := [];
      match suite.sizes {
        case PlainSize =>
        case SharedSize =>
          calls := calls.(payload := calls.payload + 1);
          nonce := NonceAt(suite.start, calls.payload);
        case OwnSize(_, start) =>
          calls := calls.(size := calls.size + 1);
          nonce := NonceAt(start, calls.size);
      }
      r := suite.DecodeSize(nonce, bytes);
    }

    method ReadSize() returns (ok: bool, sz: nat, padding: nat)
      requires Valid() && !done
      modifies this`hasSize, this`calls, reader
      ensures !hasSize && (ok <==> pending != [])
      ensures ok ==> At(true) && sz == ChunkSize(suite, pending[0]) && padding == |pending[0].pad|
      ensures !ok ==> Valid()
      ensures old(hasSize) || suite.SizeWidth() <= old(reader.BufferedBytes()) ==> reader.source == old(reader.source)
    {
      if hasSize {
        hasSize := false;
        return true, size, paddingLen;
      }
      var sizeBytes;
      ok, sizeBytes := reader.ReadFull(suite.SizeWidth());
      if !ok {
        WireLongEnough(suite, index, pending);
        return false, 0, 0;
      }
      assert pending != [];
      HeaderInFront(suite, index, pending, sizeBytes, reader.Remaining());
      var decoded;
      decoded, padding := DecodeSize(sizeBytes);
      sz := decoded.value;
    }

    /** Take the sealed chunk and its padding off the wire. */
    method FetchBody(sz: nat) returns (payload: seq<byte>)
      requires At(true) && sz == ChunkSize(suite, pending[0])
      modifies reader
      ensures |payload| == sz && payload + reader.Remaining() == Rest(suite, index, pending, true)
      ensures sz <= old(reader.BufferedBytes()) ==> reader.source == old(reader.source)
    {
      BodyLongEnough(suite, index, pending);
      var ok;
      ok, payload := reader.ReadFull(sz);
    }

    /** Take the sealed chunk off the wire and open it. */
    method ReadBody(sz: nat, padding: nat) returns (plain: seq<byte>)
      requires !done && !hasSize && At(true)
      requires sz == ChunkSize(suite, pending[0]) && padding == |pending[0].pad|
      modifies this`calls, this`index, this`pending, reader
      ensures Valid()
      ensures plain == old(pending)[0].plain && pending == old(pending)[1..] && index == old(index) + 1
      ensures sz <= old(reader.BufferedBytes()) ==> reader.source == old(reader.source)
    {
      var payload := FetchBody(sz);
      plain := OpenBody(payload, padding);
    }

    /** Open the sealed part of a body with the next payload nonce. */
    method OpenBody(payload: seq<byte>, padding: nat) returns (plain: seq<byte>)
      requires !done && !hasSize && pending != [] && padding == |pending[0].pad| && calls == CountersAt(suite, index, true)
      requires Readable(suite, index, pending) && |payload| == ChunkSize(suite, pending[0])
      requires payload + reader.Remaining() == Rest(suite, index, pending, true)
      modifies this`calls, this`index, this`pending
      ensures Valid()
      ensures plain == old(pending)[0].plain && pending == old(pending)[1..] && index == old(index) + 1
    {
      ghost var k, chunks := index, pending;
      AfterBody(suite, k, chunks, payload, reader.Remaining());
      var counted := calls.payload + 1;
      var text := suite.Open(NonceAt(suite.start, counted), payload[..|payload| - padding]);
      plain := text.value;
      calls, index, pending := calls.(payload := counted), k + 1, chunks[1..];
    }

    /** One chunk, if there is one; a soft call takes it only from bytes that are already buffered. */
    method ReadChunk(soft: bool) returns (o: Outcome, sz: nat, plain: seq<byte>)
      requires Valid()
      modifies this, reader
      ensures Valid()
      ensures o == Got ==> !old(done) && !done && Advanced(old(pending), old(index), sz, plain)
      ensures o != Got ==> pending == old(pending) && index == old(index)
      ensures o == WaitForMore ==> soft && done == old(done)
      ensures o == EndOfStream ==> old(done) || pending == [] || (pending[0].plain == [] && done)
      ensures old(done) ==> done
      ensures soft ==> reader.source == old(reader.source)
    {
      if soft && reader.BufferedBytes() < suite.SizeWidth() {
        o, sz, plain := WaitForMore, 0, [];
      } else if done {
        o, sz, plain := EndOfStream, 0, [];
      } else {
        o, sz, plain := TakeChunk(soft);
      }
    }

    /** Keep the size for the next call. */
    method Remember(sz: nat, padding: nat)
      requires !done && !hasSize && At(true)
      requires sz == ChunkSize(suite, pending[0]) && padding == |pending[0].pad|
      modifies this`size, this`paddingLen, this`hasSize
      ensures Valid()
    {
      size, paddingLen, hasSize := sz, padding, true;
    }

    /** readSize and what follows from it. */
    method TakeChunk(soft: bool) returns (o: Outcome, sz: nat, plain: seq<byte>)
      requires Valid() && !done && (soft ==> suite.SizeWidth() <= reader.BufferedBytes())
      modifies this, reader
      ensures Valid()
      ensures o == Got ==> !done && Advanced(old(pending), old(index), sz, plain)
      ensures o != Got ==> pending == old(pending) && index == old(index)
      ensures o == WaitForMore ==> soft && !done
      ensures o == EndOfStream ==> pending == [] || (pending[0].plain == [] && done)
      ensures soft ==> reader.source == old(reader.source)
    {
      var ok, padding;
      ok, sz, padding := ReadSize();
      if !ok {
        return EndOfStream, sz, [];
      }
      if sz == suite.aead.overhead + padding {
        done := true;
        return EndOfStream, sz, [];
      }
      if soft && sz > reader.BufferedBytes() {
        Remember(sz, padding);
        return WaitForMore, sz, [];
      }
      plain := ReadBody(sz, padding);
      return Got, sz, plain;
    }

    /** The first of the chunks that were pending has been taken. */
    ghost predicate Advanced(before: seq<Chunk>, beforeIndex: nat, sz: nat, plain: seq<byte>)
      reads this
    {
      && before != [] && plain == before[0].plain != [] && sz == ChunkSize(suite, before[0])
      && pending == before[1..] && index == beforeIndex + 1
    }

    /** A chunk of standard size becomes a buffer of its own. */
    method ReadInternal(soft: bool, mb: Segs) returns (o: Outcome, r: Segs, ghost plain: seq<byte>)
      requires Valid()
      modifies this, reader
      ensures Valid()
      ensures o == Got ==>
                && !old(done) && !done && old(pending) != []
                && Advanced(old(pending), old(index), ChunkSize(suite, old(pending)[0]), plain)
                && Flatten(r) == Flatten(mb) + plain
                && (ChunkSize(suite, old(pending)[0]) <= SIZE ==> r == mb + [plain])
      ensures o != Got ==> r == mb && pending == old(pending)
      ensures o == WaitForMore ==> soft && done == old(done)
      ensures o == EndOfStream ==> old(done) || pending == [] || (pending[0].plain == [] && done)
      ensures old(done) ==> done
      ensures soft ==> reader.source == old(reader.source)
    {
      var sz, text;
      o, sz, text := ReadChunk(soft);
      plain := text;
      if o != Got {
        r := mb;
      } else if sz <= SIZE {
        FlattenSnoc(mb, text);
        r := mb + [text];
      } else {
        r := MergeBytes(mb, text);
      }
    }

    /** The chunks still to come, as far as the end marker: their bytes, and each by itself. */
    ghost function Ahead(): seq<byte>
      reads this
    {
      if done then [] else UpToEnd(pending)
    }

    ghost function AheadList(): Segs
      reads this
    {
      if done then [] else ListToEnd(pending)
    }

    /** One blocking chunk and up to fifteen soft ones: never an empty result, and always the next plaintext; if the chunks
        have standard size, each in a buffer of its own. */
    method ReadMultiBuffer() returns (o: Outcome, mb: Segs)
      requires Valid()
      modifies this, reader
      ensures Valid()
      ensures o == Got || o == EndOfStream
      ensures Flatten(mb) + Ahead() == old(Ahead())
      ensures old(AllSmall(suite, pending)) ==> mb + AheadList() == old(AheadList()) && AllSmall(suite, pending)
      ensures o == Got <==> old(Ahead()) != []
      ensures o == Got ==> Flatten(mb) != [] && |pending| < |old(pending)|
      ensures o == EndOfStream ==> mb == []
    {
      ghost var plain;
      o, mb, plain := ReadInternal(false, []);
      if o != Got {
        assert Ahead() == old(Ahead()) == [] && AheadList() == old(AheadList()) == [];
        return;
      }
      assert old(Ahead()) == plain + Ahead() && Flatten(mb) == plain && old(AheadList()) == [plain] + AheadList();
      mb := ReadMore(mb);
    }

    /** The soft reads. */
    method ReadMore(first: Segs) returns (mb: Segs)
      requires Valid() && !done
      modifies this, reader
      ensures Valid() && |pending| <= |old(pending)|
      ensures Flatten(mb) + Ahead() == Flatten(first) + old(Ahead()) && |Flatten(mb)| >= |Flatten(first)|
      ensures old(AllSmall(suite, pending)) ==> mb + AheadList() == first + old(AheadList()) && AllSmall(suite, pending)
    {
      mb := first;
      ghost var all, list, small := Flatten(mb) + Ahead(), mb + AheadList(), AllSmall(suite, pending);
      var i := 1;
      while i < 16
        invariant Valid() && !done && |pending| <= |old(pending)|
        invariant Flatten(mb) + Ahead() == all && |Flatten(mb)| >= |Flatten(first)|
        invariant small ==> mb + AheadList() == list && AllSmall(suite, pending)
      {
        ghost var plain;
        ghost var head, heads, before := Flatten(mb), mb, pending;
        var soft;
        soft, mb, plain := ReadInternal(true, mb);
        if soft != Got {
          assert Ahead() == UpToEnd(before) && AheadList() == ListToEnd(before);
          return;
        }
        Assoc(head, plain, UpToEnd(pending));
        Assoc(heads, [plain], ListToEnd(pending));
        i := i + 1;
      }
    }
  }

  function UpToEnd(chunks: seq<Chunk>): seq<byte>
  {
    if chunks == [] || chunks[0].plain == [] then [] else chunks[0].plain + UpToEnd(chunks[1..])
  }

  function ListToEnd(chunks: seq<Chunk>): Segs
  {
    if chunks == [] || chunks[0].plain == [] then [] else [chunks[0].plain] + ListToEnd(chunks[1..])
  }

  /** Every chunk fits a standard buffer. */
  ghost predicate AllSmall(s: Suite, chunks: seq<Chunk>)
    decreases |chunks|
  {
    chunks != [] ==> ChunkSize(s, chunks[0]) <= SIZE && AllSmall(s, chunks[1..])
  }

  /** Reading until the end of the stream: all bytes, and the buffers in which they came. */
  method Drain(r: AuthenticationReader) returns (all: seq<byte>, buffers: Segs)
    requires r.Valid()
    modifies r, r.reader
    ensures all == old(r.Ahead())
    ensures old(AllSmall(r.suite, r.pending)) ==> buffers == old(r.AheadList())
    ensures r.Valid() && r.Ahead() == []
  {
    all, buffers := [], [];
    ghost var small, list := AllSmall(r.suite, r.pending), r.AheadList();
    while true
      invariant r.Valid() && all + r.Ahead() == old(r.Ahead())
      invariant small ==> AllSmall(r.suite, r.pending) && buffers + r.AheadList() == list
      decreases |r.pending|
    {
      ghost var rest := r.AheadList();
      var o, mb := r.ReadMultiBuffer();
      Assoc(buffers, mb, r.AheadList());
      if o != Got {
        NothingAhead(r);
        return;
      }
      Assoc(all, Flatten(mb), r.Ahead());
      all, buffers := all + Flatten(mb), buffers + mb;
    }
  }

  lemma {:induction false} NothingAhead(r: AuthenticationReader)
    ensures r.Ahead() == [] <==> r.AheadList() == []
  {
  }
}
