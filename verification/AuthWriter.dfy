/** AuthenticationWriter, and the round trip through AuthenticationReader. */
module AuthWriter {
  import opened Bytes
  import opened Nonces
  import opened Segments
  import opened AuthStream
  import opened AuthReader

  /** The largest plaintext that fits a buffer with any padding (payloadSize of writeStream). */
  function PayloadSize(s: Suite): int
  {
    SIZE - s.aead.overhead - s.SizeWidth() - s.maxPadding
  }

  /** A piece fits a buffer together with its size and the padding of this call. */
  predicate FitsBuffer(s: Suite, b: seq<byte>, call: nat)
  {
    s.SizeWidth() + |b| + s.aead.overhead + s.PaddingOf(call) <= SIZE
  }

  ghost predicate AllData(chunks: seq<Chunk>)
  {
    forall i :: 0 <= i < |chunks| ==> chunks[i].plain != []
  }

  lemma {:induction false} WireConcat(s: Suite, k: nat, a: seq<Chunk>, b: seq<Chunk>)
    ensures Wire(s, k, a + b) == Wire(s, k, a) + Wire(s, k + |a|, b)
    decreases |a|
  {
    if a == [] {
      assert a + b == b;
    } else {
      assert (a + b)[1..] == a[1..] + b && (a + b)[0] == a[0];
      WireConcat(s, k + 1, a[1..], b);
      var header, body := s.EncodeSize(k, ChunkSize(s, a[0])), Body(s, k, a[0]);
      assert Wire(s, k, a + b) == header + (body + Wire(s, k + 1, a[1..] + b));
      Assoc(body, Wire(s, k + 1, a[1..]), Wire(s, k + |a|, b));
      Assoc(header, body + Wire(s, k + 1, a[1..]), Wire(s, k + |a|, b));
    }
  }

  lemma {:induction false} WellFormedConcat(s: Suite, k: nat, a: seq<Chunk>, b: seq<Chunk>)
    ensures WellFormed(s, k, a + b) <==> WellFormed(s, k, a) && WellFormed(s, k + |a|, b)
    decreases |a|
  {
    if a == [] {
      assert a + b == b;
    } else {
      assert (a + b)[1..] == a[1..] + b && (a + b)[0] == a[0];
      WellFormedConcat(s, k + 1, a[1..], b);
    }
  }

  lemma {:induction false} PlainsConcat(a: seq<Chunk>, b: seq<Chunk>)
    ensures Plains(a + b) == Plains(a) + Plains(b)
    decreases |a|
  {
    if a == [] {
      assert a + b == b;
    } else {
      assert (a + b)[1..] == a[1..] + b;
      PlainsConcat(a[1..], b);
      Assoc(a[0].plain, Plains(a[1..]), Plains(b));
    }
  }

  lemma {:induction false} WireOne(s: Suite, k: nat, c: Chunk)
    ensures Wire(s, k, [c]) == s.EncodeSize(k, ChunkSize(s, c)) + Body(s, k, c)
  {
    assert [c][1..] == [] && Body(s, k, c) + [] == Body(s, k, c);
  }

  lemma {:induction false} WireSnoc(s: Suite, k: nat, chunks: seq<Chunk>, c: Chunk)
    ensures var n := k + |chunks|;
            Wire(s, k, chunks + [c]) == Wire(s, k, chunks) + (s.EncodeSize(n, ChunkSize(s, c)) + Body(s, n, c))
  {
    WireConcat(s, k, chunks, [c]);
    WireOne(s, k + |chunks|, c);
  }

  /** One more chunk at the end. */
  lemma {:induction false} OneMore(s: Suite, k: nat, chunks: seq<Chunk>, c: Chunk)
    requires WellFormed(s, k, chunks) && ChunkSize(s, c) < 65536 && |c.pad| == s.PaddingOf(k + |chunks|)
    ensures WellFormed(s, k, chunks + [c])
    ensures Wire(s, k, chunks + [c]) == Wire(s, k, chunks) + (s.EncodeSize(k + |chunks|, ChunkSize(s, c)) + Body(s, k + |chunks|, c))
    ensures Plains(chunks + [c]) == Plains(chunks) + c.plain
  {
    var n := k + |chunks|;
    assert [c][1..] == [];
    WellFormedConcat(s, k, chunks, [c]);
    WireSnoc(s, k, chunks, c);
    PlainsConcat(chunks, [c]);
    assert Plains([c]) == c.plain + [] == c.plain;
  }

  // ---- Packets ----

  /** Which of these packets fit, the first of them with padding number `call`; a packet that does not fit draws its padding
      all the same. */
  function Kept(s: Suite, call: nat, packets: Segs): Segs
    decreases |packets|
  {
    if packets == [] then []
    else (if FitsBuffer(s, packets[0], call) then [packets[0]] else []) + Kept(s, call + 1, packets[1..])
  }

  /** How much padding each of those gets. */
  function KeptPads(s: Suite, call: nat, packets: Segs): seq<nat>
    decreases |packets|
  {
    if packets == [] then []
    else (if FitsBuffer(s, packets[0], call) then [s.PaddingOf(call)] else []) + KeptPads(s, call + 1, packets[1..])
  }

  predicate AllFit(s: Suite, call: nat, packets: Segs)
    decreases |packets|
  {
    packets != [] ==> FitsBuffer(s, packets[0], call) && AllFit(s, call + 1, packets[1..])
  }

  /** The reader draws the same padding, chunk by chunk, from its call k on. */
  predicate DrawsAgree(s: Suite, k: nat, pads: seq<nat>)
    decreases |pads|
  {
    pads != [] ==> pads[0] == s.PaddingOf(k) && DrawsAgree(s, k + 1, pads[1..])
  }

  /** All packets are kept if and only if all of them fit; otherwise there are fewer. */
  lemma {:induction false} KeptAllIff(s: Suite, call: nat, packets: Segs)
    ensures |Kept(s, call, packets)| == |KeptPads(s, call, packets)| <= |packets|
    ensures AllFit(s, call, packets) ==> Kept(s, call, packets) == packets && DrawsAgree(s, call, KeptPads(s, call, packets))
    ensures !AllFit(s, call, packets) ==> |Kept(s, call, packets)| < |packets|
    decreases |packets|
  {
    if packets != [] {
      KeptAllIff(s, call + 1, packets[1..]);
      if FitsBuffer(s, packets[0], call) {
        assert KeptPads(s, call, packets)[1..] == KeptPads(s, call + 1, packets[1..]);
      }
    }
  }

  /** Without a generator, or with one that always says the same, the draws agree whatever is dropped. */
  lemma {:induction false} ConstantAgrees(s: Suite, call: nat, k: nat, packets: Segs)
    requires forall i, j :: s.PaddingOf(i) == s.PaddingOf(j)
    ensures DrawsAgree(s, k, KeptPads(s, call, packets))
    decreases |packets|
  {
    if packets != [] {
      if FitsBuffer(s, packets[0], call) {
        ConstantAgrees(s, call + 1, k + 1, packets[1..]);
        assert KeptPads(s, call, packets)[1..] == KeptPads(s, call + 1, packets[1..]);
      } else {
        ConstantAgrees(s, call + 1, k, packets[1..]);
        assert KeptPads(s, call, packets) == KeptPads(s, call + 1, packets[1..]);
      }
    }
  }

  function PlainList(chunks: seq<Chunk>): Segs
  {
    if chunks == [] then [] else [chunks[0].plain] + PlainList(chunks[1..])
  }

  lemma {:induction false} PlainListLength(chunks: seq<Chunk>)
    ensures |PlainList(chunks)| == |chunks|
    decreases |chunks|
  {
    if chunks != [] {
      PlainListLength(chunks[1..]);
    }
  }

  function PadList(chunks: seq<Chunk>): seq<nat>
  {
    if chunks == [] then [] else [|chunks[0].pad|] + PadList(chunks[1..])
  }

  lemma {:induction false} ListsSnoc(chunks: seq<Chunk>, c: Chunk)
    ensures PlainList(chunks + [c]) == PlainList(chunks) + [c.plain]
    ensures PadList(chunks + [c]) == PadList(chunks) + [|c.pad|]
    decreases |chunks|
  {
    if chunks == [] {
      assert chunks + [c] == [c] && [c][1..] == [];
    } else {
      assert (chunks + [c])[0] == chunks[0] && (chunks + [c])[1..] == chunks[1..] + [c];
      ListsSnoc(chunks[1..], c);
    }
  }

  /** Chunks in standard buffers whose padding the reader draws too can be read back. */
  lemma {:induction false} AgreeingReadable(s: Suite, k: nat, chunks: seq<Chunk>)
    requires s.Lawful() && AllSmall(s, chunks) && DrawsAgree(s, k, PadList(chunks))
    ensures Readable(s, k, chunks)
    decreases |chunks|
  {
    if chunks != [] {
      assert PadList(chunks)[1..] == PadList(chunks[1..]);
      SizeRoundTrip(s, k, ChunkSize(s, chunks[0]));
      BodyRoundTrip(s, k, chunks[0].plain);
      AgreeingReadable(s, k + 1, chunks[1..]);
    }
  }

  lemma {:induction false} SmallSnoc(s: Suite, chunks: seq<Chunk>, c: Chunk)
    requires AllSmall(s, chunks) && ChunkSize(s, c) <= SIZE
    ensures AllSmall(s, chunks + [c])
    decreases |chunks|
  {
    if chunks == [] {
      assert chunks + [c] == [c] && [c][1..] == [];
    } else {
      assert (chunks + [c])[0] == chunks[0] && (chunks + [c])[1..] == chunks[1..] + [c];
      SmallSnoc(s, chunks[1..], c);
    }
  }

  /** What has been written of the packets, after so many draws, and what is still to come. */
  ghost predicate Packing(s: Suite, call: nat, all: Segs, drawn: nat, rest: Segs, written: seq<Chunk>)
  {
    && drawn + |rest| == |all| && AllSmall(s, written)
    && PlainList(written) + Kept(s, call + drawn, rest) == Kept(s, call, all)
    && PadList(written) + KeptPads(s, call + drawn, rest) == KeptPads(s, call, all)
  }

  lemma {:induction false} PackOne(s: Suite, call: nat, all: Segs, drawn: nat, b: seq<byte>, rest: Segs, written: seq<Chunk>, c: Chunk)
    requires Packing(s, call, all, drawn, [b] + rest, written)
    requires FitsBuffer(s, b, call + drawn) ==> c.plain == b && |c.pad| == s.PaddingOf(call + drawn) && ChunkSize(s, c) <= SIZE
    ensures Packing(s, call, all, drawn + 1, rest, if FitsBuffer(s, b, call + drawn) then written + [c] else written)
  {
    assert ([b] + rest)[1..] == rest;
    var kept, pads := Kept(s, call + drawn + 1, rest), KeptPads(s, call + drawn + 1, rest);
    if FitsBuffer(s, b, call + drawn) {
      ListsSnoc(written, c);
      SmallSnoc(s, written, c);
      Assoc(PlainList(written), [b], kept);
      Assoc(PadList(written), [s.PaddingOf(call + drawn)], pads);
    } else {
      assert Kept(s, call + drawn, [b] + rest) == [] + kept == kept && KeptPads(s, call + drawn, [b] + rest) == [] + pads == pads;
    }
  }

  // ---- The writer ----

  /** Being this many calls ahead makes no difference to what the padding generator says. */
  ghost predicate InStep(s: Suite, lag: nat)
  {
    forall k: nat :: SameDraw(s, k, lag)
  }

  ghost predicate SameDraw(s: Suite, k: nat, lag: nat)
  {
    s.PaddingOf(k + lag) == s.PaddingOf(k)
  }

  class AuthenticationWriter {
    const suite: Suite
    var calls: Counters
    /** Everything handed to the underlying writer. */
    var output: seq<byte>
    ghost var chunks: seq<Chunk>
    /** How many pieces have drawn padding and then been dropped. */
    ghost var lag: nat
    /** Every nonce a seal has been called with, under the payload key and under a key of the sizes' own. */
    ghost var used: seq<seq<byte>>
    ghost var usedForSizes: seq<seq<byte>>

    /** What has been written is the wire of the chunks, with the nonces in step. */
    ghost predicate Sealed()
      reads this
    {
      && calls == CountersAt(suite, |chunks|, false).(padding := |chunks| + lag)
      && output == Wire(suite, 0, chunks)
      && used == PayloadKeyNonces(suite, |chunks|) && usedForSizes == SizeKeyNonces(suite, |chunks|)
    }

    /** A reader with the same generators can follow. */
    ghost predicate Valid()
      reads this
    {
      Sealed() && InStep(suite, lag) && WellFormed(suite, 0, chunks)
    }

    constructor (suite: Suite)
      ensures Valid() && Sealed() && this.suite == suite && chunks == [] && lag == 0
    {
      this.suite := suite;
      calls, output, chunks, lag := Counters(0, 0, 0), [], [], 0;
      used, usedForSizes := [], [];
    }

    /** ChunkSizeEncoder.Encode, advancing the nonce it uses. */
    method EncodeSize(size: nat, ghost k: nat, ghost drawn: nat) returns (header: seq<byte>)
      requires size < 65536 && calls == CountersAt(suite, k, false).(padding := drawn)
      modifies this`calls, this`used, this`usedForSizes
      ensures calls == CountersAt(suite, k, true).(padding := drawn)
      ensures used == old(used) + (if suite.sizes.SharedSize? then [suite.SizeNonce(k)] else [])
      ensures usedForSizes == old(usedForSizes) + (if suite.sizes.OwnSize? then [suite.SizeNonce(k)] else [])
      ensures header == suite.EncodeSize(k, size)
    {
      var nonce := [];
      match suite.sizes {
        case PlainSize =>
        case SharedSize =>
          calls := calls.(payload := calls.payload + 1);
          nonce := NonceAt(suite.start, calls.payload);
          used := used + [nonce];
        case OwnSize(_, start) =>
          calls := calls.(size := calls.size + 1);
          nonce := NonceAt(start, calls.size);
          usedForSizes := usedForSizes + [nonce];
      }
      header := suite.SealSize(nonce, size);
    }

    /** Encrypt one piece as chunk k, while the padding generator is `lag` calls ahead; the padding is random bytes in
        clear. A piece that does not fit is refused after the generator has been called. */
    method Seal(b: seq<byte>, ghost k: nat, ghost lag: nat) returns (ok: bool, eb: seq<byte>, ghost c: Chunk)
      requires calls == CountersAt(suite, k, false).(padding := k + lag)
      requires used == PayloadKeyNonces(suite, k) && usedForSizes == SizeKeyNonces(suite, k)
      modifies this`calls, this`used, this`usedForSizes
      ensures var n := if ok then k + 1 else k; used == PayloadKeyNonces(suite, n) && usedForSizes == SizeKeyNonces(suite, n)
      ensures ok <==> FitsBuffer(suite, b, k + lag)
      ensures ok ==> calls == CountersAt(suite, k + 1, false).(padding := k + 1 + lag)
      ensures ok ==> c.plain == b && |c.pad| == suite.PaddingOf(k + lag)
      ensures ok ==> eb == suite.EncodeSize(k, ChunkSize(suite, c)) + Body(suite, k, c)
      ensures !ok ==> calls == CountersAt(suite, k, false).(padding := k + lag + 1)
    {
      var encryptedSize := |b| + suite.aead.overhead;
      var paddingSize := suite.PaddingOf(calls.padding);
      calls := calls.(padding := calls.padding + 1);
      c := Chunk(b, []);
      if suite.SizeWidth() + encryptedSize + paddingSize > SIZE {
        return false, [], c;
      }
      ok := true;
      var header := EncodeSize(encryptedSize + paddingSize, k, calls.padding);
      NextCounters(suite, k);
      calls := calls.(payload := calls.payload + 1);
      var nonce := NonceAt(suite.start, calls.payload);
      used := used + [nonce];
      var text := suite.aead.seal(nonce, b);
      var paddingBytes := RandomBytes(paddingSize);
      c := Chunk(b, paddingBytes);
      eb := header + (text + paddingBytes);
    }

    /** Seal one piece that is known to fit, and hand it on. */
    method Emit(b: seq<byte>)
      requires Valid() && FitsBuffer(suite, b, |chunks|)
      modifies this`calls, this`output, this`chunks, this`used, this`usedForSizes
      ensures Valid() && |chunks| == old(|chunks|) + 1
      ensures chunks[..old(|chunks|)] == old(chunks) && chunks[old(|chunks|)].plain == b
      ensures Plains(chunks) == old(Plains(chunks)) + b
      ensures b != [] && old(AllData(chunks)) ==> AllData(chunks)
    {
      ghost var c;
      var ok, eb;
      assert SameDraw(suite, |chunks|, lag);
      ok, eb, c := Seal(b, |chunks|, lag);
      OneMore(suite, 0, chunks, c);
      output, chunks := output + eb, chunks + [c];
    }

    /** Stream mode: the bytes are cut anew into pieces that leave room for any padding. */
    method WriteStream(mb: Segs)
      requires Valid() && Flatten(mb) != []
      requires PayloadSize(suite) > 0 && forall k :: suite.PaddingOf(k) <= suite.maxPadding
      modifies this`calls, this`output, this`chunks, this`used, this`usedForSizes
      ensures Valid() && Plains(chunks) == old(Plains(chunks)) + Flatten(mb)
      ensures old(AllData(chunks)) ==> AllData(chunks)
    {
      var rest := mb;
      ghost var before := Plains(chunks);
      ghost var allData := AllData(chunks);
      while true
        invariant Valid() && Flatten(rest) != []
        invariant Plains(chunks) + Flatten(rest) == before + Flatten(mb)
        invariant allData ==> AllData(chunks)
        decreases |Flatten(rest)|
      {
        var s := SplitBytes(rest, PayloadSize(suite));
        assert s.out != [];
        Assoc(Plains(chunks), s.out, Flatten(s.rest));
        Emit(s.out);
        rest := s.rest;
        if Flatten(rest) == [] {
          break;
        }
      }
    }

    /** Packet mode: every buffer that is not empty draws padding; it becomes a chunk of its own if it fits with that, and is
        dropped otherwise. */
    method WritePacket(mb: Segs) returns (ghost written: seq<Chunk>)
      requires Sealed()
      modifies this
      ensures Sealed() && chunks == old(chunks) + written && AllSmall(suite, written)
      ensures PlainList(written) == Kept(suite, old(calls.padding), NonEmpty(mb))
      ensures PadList(written) == KeptPads(suite, old(calls.padding), NonEmpty(mb))
      ensures lag == old(lag) + |NonEmpty(mb)| - |written|
    {
      written := [];
      ghost var call, all, drawn := calls.padding, NonEmpty(mb), 0;
      ghost var base, lag0 := chunks, lag;
      assert chunks == chunks + [] && mb[0..] == mb;
      assert Packing(suite, call, all, 0, NonEmpty(mb), []);
      for i := 0 to |mb|
        invariant Sealed() && chunks == base + written && calls.padding == call + drawn && lag + |written| == lag0 + drawn
        invariant Packing(suite, call, all, drawn, NonEmpty(mb[i..]), written)
      {
        assert mb[i..][0] == mb[i] && mb[i..][1..] == mb[i + 1..];
        if mb[i] != [] {
          written := WriteNext(mb[i], call, all, drawn, NonEmpty(mb[i + 1..]), base, written);
          drawn := drawn + 1;
        } else {
          assert NonEmpty(mb[i..]) == NonEmpty(mb[i + 1..]);
        }
      }
      assert PlainList(written) + [] == PlainList(written) && PadList(written) + [] == PadList(written);
    }

    /** One packet of a list. */
    method WriteNext(b: seq<byte>, ghost call: nat, ghost all: Segs, ghost drawn: nat, ghost rest: Segs, ghost base: seq<Chunk>,
      ghost written: seq<Chunk>) returns (ghost more: seq<Chunk>)
      requires Sealed() && chunks == base + written && calls.padding == call + drawn
      requires Packing(suite, call, all, drawn, [b] + rest, written)
      modifies this
      ensures Sealed() && chunks == base + more && calls.padding == call + drawn + 1
      ensures Packing(suite, call, all, drawn + 1, rest, more) && lag + |more| == old(lag) + |written| + 1
    {
      var ok;
      ghost var c;
      ok, c := WriteOne(b);
      PackOne(suite, call, all, drawn, b, rest, written, c);
      more := if ok then written + [c] else written;
      Assoc(base, written, [c]);
    }

    method WriteOne(b: seq<byte>) returns (ok: bool, ghost c: Chunk)
      requires Sealed()
      modifies this
      ensures Sealed() && calls.padding == old(calls.padding) + 1
      ensures ok <==> FitsBuffer(suite, b, old(calls.padding))
      ensures ok ==> chunks == old(chunks) + [c] && lag == old(lag) && ChunkSize(suite, c) <= SIZE
                     && c.plain == b && |c.pad| == suite.PaddingOf(old(calls.padding))
      ensures !ok ==> chunks == old(chunks) && lag == old(lag) + 1
    {
      var eb;
      ok, eb, c := Seal(b, |chunks|, lag);
      if ok {
        WireSnoc(suite, 0, chunks, c);
        output, chunks := output + eb, chunks + [c];
      } else {
        lag := lag + 1;
      }
    }

    /** WriteMultiBuffer in stream mode; an empty MultiBuffer writes the end marker. */
    method WriteMultiBuffer(mb: Segs)
      requires Valid()
      requires PayloadSize(suite) > 0 && forall k :: suite.PaddingOf(k) <= suite.maxPadding
      modifies this`calls, this`output, this`chunks, this`used, this`usedForSizes
      ensures Valid()
      ensures Flatten(mb) != [] ==> Plains(chunks) == old(Plains(chunks)) + Flatten(mb)
      ensures Flatten(mb) != [] && old(AllData(chunks)) ==> AllData(chunks)
      ensures Flatten(mb) == [] ==> |chunks| == old(|chunks|) + 1 && chunks[..old(|chunks|)] == old(chunks)
                                    && chunks[old(|chunks|)].plain == []
    {
      if Flatten(mb) == [] {
        Emit([]);
      } else {
        WriteStream(mb);
      }
    }
  }

  /** rand.Read: any bytes at all. */
  method RandomBytes(n: nat) returns (bytes: seq<byte>)
    ensures |bytes| == n
  {
    bytes := [];
    for i := 0 to n
      invariant |bytes| == i
    {
      var b: byte :| true;
      bytes := bytes + [b];
    }
  }

  // ---- The round trip ----

  lemma {:induction false} UpToEndData(chunks: seq<Chunk>, last: Chunk)
    requires AllData(chunks) && last.plain == []
    ensures UpToEnd(chunks + [last]) == Plains(chunks)
    decreases |chunks|
  {
    if chunks == [] {
      assert chunks + [last] == [last];
    } else {
      UpToEndData(chunks[1..], last);
      assert (chunks + [last])[1..] == chunks[1..] + [last];
    }
  }

  /** Everything written to a stream is read back, whatever the random padding, however the ciphertext is cut
      into buffers, with sizes in clear or sealed, by the payload's own nonce sequence or by another. */
  method SendAndReceive(suite: Suite, writes: seq<Segs>) returns (received: seq<byte>)
    requires suite.Lawful() && PayloadSize(suite) > 0
    requires forall i :: 0 <= i < |writes| ==> Flatten(writes[i]) != []
    ensures received == Upcoming(writes)
  {
    assert forall k :: suite.PaddingOf(k) <= suite.maxPadding;
    var w := new AuthenticationWriter(suite);
    for i := 0 to |writes|
      invariant w.Valid() && w.suite == suite && AllData(w.chunks)
      invariant fresh(w) && Plains(w.chunks) + Upcoming(writes[i..]) == Upcoming(writes)
    {
      assert writes[i..][0] == writes[i] && writes[i..][1..] == writes[i + 1..];
      Assoc(Plains(w.chunks), Flatten(writes[i]), Upcoming(writes[i + 1..]));
      w.WriteMultiBuffer(writes[i]);
    }
    ghost var data := w.chunks;
    w.WriteMultiBuffer([]);
    assert w.chunks == data + [w.chunks[|data|]];
    UpToEndData(data, w.chunks[|data|]);
    LawfulIsReadable(suite, 0, w.chunks);
    var source := AnySegmentation(w.output);
    var reader := new BufferedReader(source);
    var r := new AuthenticationReader(suite, reader, w.chunks);
    var buffers;
    received, buffers := Drain(r);
    assert Upcoming(writes[|writes|..]) == [];
  }

  /** The network: the same bytes, cut into MultiBuffers in any way. */
  method AnySegmentation(wire: seq<byte>) returns (source: seq<Segs>)
    ensures Upcoming(source) == wire
  {
    FlattenOne(wire);
    assert [[wire]][1..] == [];
    assert Upcoming([[wire]]) == Flatten([wire]) + Upcoming([]);
    source :| Upcoming(source) == wire;
  }

  lemma {:induction false} ListOfData(s: Suite, call: nat, packets: Segs, chunks: seq<Chunk>)
    requires PlainList(chunks) == Kept(s, call, packets) && forall i :: 0 <= i < |packets| ==> packets[i] != []
    ensures ListToEnd(chunks) == PlainList(chunks)
    decreases |packets|
  {
    if packets != [] {
      if FitsBuffer(s, packets[0], call) {
        assert PlainList(chunks)[1..] == Kept(s, call + 1, packets[1..]);
        ListOfData(s, call + 1, packets[1..], chunks[1..]);
      } else {
        assert Kept(s, call, packets) == Kept(s, call + 1, packets[1..]);
        ListOfData(s, call + 1, packets[1..], chunks);
      }
    }
  }

  lemma {:induction false} NonEmptyAt(ss: Segs)
    ensures forall i :: 0 <= i < |NonEmpty(ss)| ==> NonEmpty(ss)[i] != []
    decreases |ss|
  {
    if ss != [] {
      NonEmptyAt(ss[1..]);
    }
  }

  /** Packets from writer to reader: if the draws of the reader agree with those of the chunks, it returns exactly the
      packets that were kept, each in a buffer of its own, for every segmentation. That is everything if and only if
      every packet fits. */
  method SendAndReceivePackets(suite: Suite, mb: Segs) returns (received: Segs)
    requires suite.Lawful() && DrawsAgree(suite, 0, KeptPads(suite, 0, NonEmpty(mb)))
    ensures received == Kept(suite, 0, NonEmpty(mb))
    ensures received == NonEmpty(mb) <==> AllFit(suite, 0, NonEmpty(mb))
  {
    var w := new AuthenticationWriter(suite);
    ghost var written := w.WritePacket(mb);
    assert w.chunks == [] + written == written;
    AgreeingReadable(suite, 0, written);
    KeptAllIff(suite, 0, NonEmpty(mb));
    NonEmptyAt(mb);
    ListOfData(suite, 0, NonEmpty(mb), written);
    received := Receive(suite, w.output, written);
  }

  /** The network, and a reader at the other end of it. */
  method Receive(suite: Suite, wire: seq<byte>, ghost chunks: seq<Chunk>) returns (buffers: Segs)
    requires wire == Wire(suite, 0, chunks) && Readable(suite, 0, chunks) && AllSmall(suite, chunks)
    ensures buffers == ListToEnd(chunks)
  {
    var source := AnySegmentation(wire);
    var reader := new BufferedReader(source);
    var r := new AuthenticationReader(suite, reader, chunks);
    var bytes;
    bytes, buffers := Drain(r);
  }

  /** No encryption, sizes in clear, and padding of no byte and one byte in turn. */
  function Alternating(): Suite
  {
    Suite(Aead(0, (n: seq<byte>, p: seq<byte>) => p, (n: seq<byte>, c: seq<byte>) => Some(c)), [0], PlainSize, (k: nat) => k % 2, 1)
  }

  /** A run in which a dropped packet spoils the next one: the first is too long and the second is padded with the second
      draw, so the reader, which makes its first draw for it, takes the padding for data. */
  method DroppedPacketShifts(big: seq<byte>, small: seq<byte>) returns (received: Segs)
    requires |big| > SIZE - 2 && 0 < |small| <= SIZE - 3
    ensures |received| == 1 && |received[0]| == |small| + 1 && small <= received[0]
  {
    var suite := Alternating();
    var w := new AuthenticationWriter(suite);
    ghost var written := w.WritePacket([big, small]);
    ShiftingDraws(big, small);
    assert w.chunks == [] + written == written;
    OneChunk(written, small);
    SameWire(small, written[0].pad);
    received := Receive(suite, w.output, [Chunk(small + written[0].pad, [])]);
  }

  lemma {:induction false} ShiftingDraws(big: seq<byte>, small: seq<byte>)
    requires |big| > SIZE - 2 && 0 < |small| <= SIZE - 3
    ensures NonEmpty([big, small]) == [big, small]
    ensures Kept(Alternating(), 0, [big, small]) == [small] && KeptPads(Alternating(), 0, [big, small]) == [1]
  {
    var s := Alternating();
    assert [big, small][1..] == [small] && [small][1..] == [];
    assert NonEmpty([small]) == [small] + [] == [small];
    assert NonEmpty([big, small]) == [big] + [small];
    assert Kept(s, 1, [small]) == [small] + [] == [small] && KeptPads(s, 1, [small]) == [1] + [] == [1];
    assert Kept(s, 0, [big, small]) == [] + [small] && KeptPads(s, 0, [big, small]) == [] + [1];
  }

  lemma {:induction false} OneChunk(chunks: seq<Chunk>, plain: seq<byte>)
    requires PlainList(chunks) == [plain] && PadList(chunks) == [1]
    ensures |chunks| == 1 && chunks == [Chunk(plain, chunks[0].pad)] && |chunks[0].pad| == 1
  {
    PlainListLength(chunks);
    assert PlainList(chunks)[0] == chunks[0].plain && PadList(chunks)[0] == |chunks[0].pad|;
  }

  /** Without encryption, padding taken for data looks no different on the wire. */
  lemma {:induction false} SameWire(small: seq<byte>, pad: seq<byte>)
    requires |pad| == 1 && |small| <= SIZE - 3
    ensures var s := Alternating();
            var seen := [Chunk(small + pad, [])];
            && Wire(s, 0, [Chunk(small, pad)]) == Wire(s, 0, seen) && Readable(s, 0, seen) && AllSmall(s, seen)
            && ListToEnd(seen) == [small + pad]
  {
    var s, one, two := Alternating(), Chunk(small, pad), Chunk(small + pad, []);
    assert [one][1..] == [] && [two][1..] == [];
    assert Body(s, 0, one) == small + pad && Body(s, 0, two) == small + pad + [] == small + pad;
    assert s.Lawful();
    SizeRoundTrip(s, 0, ChunkSize(s, two));
  }
}
