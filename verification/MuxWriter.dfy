/** mux.Writer: one session's data as frames. */
module MuxWriter {
  import opened Bytes
  import opened Segments
  import opened Address
  import opened MuxFrame
  import opened MuxState

  /** A buffer with the UDP destination attached to it, if any. */
  datatype Buf = Buf(data: seq<byte>, udp: Option<AddrPort>)

  function Datas(mb: seq<Buf>): (r: Segs)
    ensures |r| == |mb|
    ensures forall i :: 0 <= i < |mb| ==> r[i] == mb[i].data
  {
    if mb == [] then [] else [mb[0].data] + Datas(mb[1..])
  }

  /** The payloads of the frames that carry one. */
  function Payloads(fs: seq<Frame>): Segs
  {
    if fs == [] then []
    else (if fs[0].data.Some? then [fs[0].data.value] else []) + Payloads(fs[1..])
  }

  lemma {:induction false} PayloadsSnoc(fs: seq<Frame>, f: Frame)
    ensures Payloads(fs + [f]) == Payloads(fs) + (if f.data.Some? then [f.data.value] else [])
    decreases |fs|
  {
    var last := if f.data.Some? then [f.data.value] else [];
    if fs == [] {
      assert fs + [f] == [f] && [f][1..] == [];
    } else {
      PayloadsSnoc(fs[1..], f);
      assert (fs + [f])[1..] == fs[1..] + [f];
      Assoc(if fs[0].data.Some? then [fs[0].data.value] else [], Payloads(fs[1..]), last);
    }
  }

  /** The payloads of the frames, each with the destination attached to its frame. */
  function Sendings(fs: seq<Frame>): seq<Buf>
  {
    if fs == [] then [] else (if fs[0].data.Some? then [Buf(fs[0].data.value, fs[0].udp)] else []) + Sendings(fs[1..])
  }

  /** The buffers that hold anything. */
  function Filled(bufs: seq<Buf>): seq<Buf>
  {
    if bufs == [] then [] else (if bufs[0].data == [] then [] else [bufs[0]]) + Filled(bufs[1..])
  }

  lemma {:induction false} SendingsSnoc(fs: seq<Frame>, f: Frame)
    ensures Sendings(fs + [f]) == Sendings(fs) + (if f.data.Some? then [Buf(f.data.value, f.udp)] else [])
    decreases |fs|
  {
    var last := if f.data.Some? then [Buf(f.data.value, f.udp)] else [];
    if fs == [] {
      assert fs + [f] == [f] && [f][1..] == [];
    } else {
      SendingsSnoc(fs[1..], f);
      assert (fs + [f])[1..] == fs[1..] + [f];
      Assoc(if fs[0].data.Some? then [Buf(fs[0].data.value, fs[0].udp)] else [], Sendings(fs[1..]), last);
    }
  }

  lemma {:induction false} FilledConcat(a: seq<Buf>, b: seq<Buf>)
    ensures Filled(a + b) == Filled(a) + Filled(b)
    decreases |a|
  {
    if a == [] {
      assert a + b == b;
    } else {
      assert (a + b)[0] == a[0] && (a + b)[1..] == a[1..] + b;
      FilledConcat(a[1..], b);
      Assoc(if a[0].data == [] then [] else [a[0]], Filled(a[1..]), Filled(b));
    }
  }

  lemma {:induction false} FilledDatas(bufs: seq<Buf>)
    ensures Datas(Filled(bufs)) == NonEmpty(Datas(bufs))
    decreases |bufs|
  {
    if bufs != [] {
      FilledDatas(bufs[1..]);
      assert Datas(bufs)[1..] == Datas(bufs[1..]);
      if bufs[0].data != [] {
        assert Filled(bufs)[1..] == Filled(bufs[1..]);
      } else {
        assert Filled(bufs) == Filled(bufs[1..]) && NonEmpty(Datas(bufs)) == NonEmpty(Datas(bufs[1..]));
      }
    }
  }

  /** A packet moved from the list to the frames, with its destination. */
  lemma {:induction false} FilledStep(fs: seq<Frame>, f: Frame, mb: seq<Buf>)
    requires mb != [] && f.data == Some(mb[0].data) && f.udp == mb[0].udp
    ensures Filled(Sendings(fs + [f])) + Filled(mb[1..]) == Filled(Sendings(fs)) + Filled(mb)
  {
    SendingsSnoc(fs, f);
    FilledConcat(Sendings(fs), [mb[0]]);
    assert [mb[0]][1..] == [] && mb == [mb[0]] + mb[1..];
    FilledConcat([mb[0]], mb[1..]);
    Assoc(Filled(Sendings(fs)), Filled([mb[0]]), Filled(mb[1..]));
  }

  lemma {:induction false} NothingFilled(mb: seq<Buf>)
    requires Flatten(Datas(mb)) == []
    ensures Filled(mb) == []
    decreases |mb|
  {
    if mb != [] {
      assert Datas(mb)[1..] == Datas(mb[1..]);
      NothingFilled(mb[1..]);
    }
  }

  lemma {:induction false} NothingSent(mb: seq<Buf>, payloads: Segs, filled: seq<Buf>)
    requires Flatten(Datas(mb)) == []
    ensures Flatten(payloads) + Flatten(Datas(mb)) == Flatten(payloads)
    ensures NonEmpty(payloads) + NonEmpty(Datas(mb)) == NonEmpty(payloads) && filled + Filled(mb) == filled
  {
    NothingFilled(mb);
    FilledDatas(mb);
  }

  lemma {:induction false} FramesSnoc(c: Config, fs: seq<Frame>, f: Frame)
    requires AllDecode(c, fs) && Decodes(c, f)
    ensures AllDecode(c, fs + [f])
    ensures EncodeFrames(c, fs + [f]) == EncodeFrames(c, fs) + EncodeFrame(c, f)
    decreases |fs|
  {
    if fs == [] {
      assert fs + [f] == [f] && [f][1..] == [];
      assert EncodeFrames(c, [f]) == EncodeFrame(c, f) + [];
    } else {
      FramesSnoc(c, fs[1..], f);
      assert (fs + [f])[0] == fs[0] && (fs + [f])[1..] == fs[1..] + [f];
      Assoc(EncodeFrame(c, fs[0]), EncodeFrames(c, fs[1..]), EncodeFrame(c, f));
    }
  }

  /** New first (unless this is a response), Keep afterwards. */
  ghost predicate Ordered(id: nat, dest: Target, response: bool, fs: seq<Frame>)
  {
    forall i :: 0 <= i < |fs| ==>
      && fs[i].meta.session == id
      && (if i == 0 && !response then fs[i].meta.status == STATUS_NEW && fs[i].meta.target == dest
          else fs[i].meta.status == STATUS_KEEP)
  }

  /** A frame of this session decodes on the other side. */
  lemma {:induction false} FrameDecodes(c: Config, f: Frame)
    requires c.Consistent() && Writable(c, f.meta, f.udp) && f.meta.globalID == ZERO_ID
    requires (f.data.Some? <==> f.meta.HasData()) && (f.data.Some? ==> |f.data.value| <= SIZE)
    requires STATUS_NEW <= f.meta.status <= STATUS_KEEP_ALIVE
    ensures Decodes(c, f)
  {
    MetaRoundTrip(c, f.meta, f.udp);
  }

  /** One more frame behind those that were sent. */
  lemma {:induction false} NextFrame(c: Config, fs: seq<Frame>, wire: seq<byte>, f: Frame)
    requires c.Consistent() && Writable(c, f.meta, f.udp) && f.meta.globalID == ZERO_ID
    requires (f.data.Some? <==> f.meta.HasData()) && (f.data.Some? ==> |f.data.value| <= SIZE)
    requires STATUS_NEW <= f.meta.status <= STATUS_KEEP_ALIVE
    requires Carried(c, fs) == Some(wire)
    ensures EncodeMeta(c, f.meta, f.udp).Some? && |EncodeMeta(c, f.meta, f.udp).value| < 65536
    ensures var body := EncodeMeta(c, f.meta, f.udp).value;
            Carried(c, fs + [f]) == Some(wire + (U16(|body|) + (body + EncodeData(f.data))))
    ensures f.data.Some? ==> Payloads(fs + [f]) == Payloads(fs) + [f.data.value]
    ensures f.data.None? ==> Payloads(fs + [f]) == Payloads(fs)
  {
    FrameDecodes(c, f);
    FramesSnoc(c, fs, f);
    PayloadsSnoc(fs, f);
  }

  /** The destinations this model speaks about: TCP or UDP, with an address that survives the wire. */
  ghost predicate GoodTarget(c: Config, t: Target)
  {
    t.Dest? && !t.network.OtherNetwork? && t.port < 65536 && t.addr.Typed() && Faithful(c, t.addr)
  }

  ghost predicate GoodUDP(c: Config, u: Option<AddrPort>)
  {
    u.Some? ==> u.value.port < 65536 && u.value.addr.Typed() && Faithful(c, u.value.addr)
  }

  class Writer {
    const config: Config
    const id: nat
    const dest: Target
    const stream: bool
    ghost const response: bool
    var followup: bool
    var hasError: bool
    /** Everything handed to the link's writer. */
    var wire: seq<byte>
    ghost var frames: seq<Frame>

    ghost predicate Valid()
      reads this
    {
      && id < 65536
      && (if response then dest == NoTarget else GoodTarget(config, dest))
      && (followup <==> response || frames != [])
      && Ordered(id, dest, response, frames)
      && Carried(config, frames) == Some(wire)
    }

    /** NewWriter with an empty GlobalID. */
    constructor (id: nat, dest: Target, config: Config, stream: bool)
      requires id < 65536 && GoodTarget(config, dest)
      ensures Valid() && frames == [] && !response && this.id == id && this.dest == dest && this.stream == stream && this.config == config
      ensures !hasError
    {
      this.id, this.dest, this.config, this.stream, response := id, dest, config, stream, false;
      followup, hasError, wire, frames := false, false, [], [];
    }

    /** NewResponseWriter. */
    constructor Response(id: nat, config: Config, stream: bool)
      requires id < 65536
      ensures Valid() && frames == [] && response && this.id == id && this.stream == stream && this.config == config
      ensures !hasError
    {
      this.id, this.dest, this.config, this.stream, response := id, NoTarget, config, stream, true;
      followup, hasError, wire, frames := true, false, [], [];
    }

    /** getNextFrameMeta and WriteTo: one more frame of this session. */
    method WriteFrame(data: Option<seq<byte>>, udp: Option<AddrPort>)
      requires Valid() && config.Consistent() && GoodUDP(config, udp) && (data.Some? ==> |data.value| <= SIZE)
      modifies this`followup, this`wire, this`frames
      ensures Valid() && |frames| == old(|frames|) + 1 && frames[..old(|frames|)] == old(frames)
      ensures frames[old(|frames|)].data == data && frames[old(|frames|)].udp == udp
      ensures data.Some? ==> Payloads(frames) == old(Payloads(frames)) + [data.value]
      ensures data.None? ==> Payloads(frames) == old(Payloads(frames))
    {
      var status := STATUS_KEEP;
      if !followup {
        followup := true;
        status := STATUS_NEW;
      }
      var option := if data.Some? then OPTION_DATA else 0;
      var meta := Meta(id, status, option, dest, ZERO_ID);
      var f := Frame(meta, udp, data);
      NextFrame(config, frames, wire, f);
      var body := EncodeMeta(config, meta, udp).value;
      wire := wire + (U16(|body|) + (body + EncodeData(data)));
      frames := frames + [f];
    }

    /** One frame's worth of data. */
    method WriteData(mb: seq<Buf>) returns (rest: seq<Buf>)
      requires Valid() && config.Consistent() && GoodBufs(config, mb) && mb != []
      modifies this`followup, this`wire, this`frames
      ensures Valid() && GoodBufs(config, rest) && frames != [] && old(frames) <= frames
      ensures |Flatten(Datas(rest))| + |rest| < |Flatten(Datas(mb))| + |mb|
      ensures TotalBytes(Payloads(frames), rest) == TotalBytes(old(Payloads(frames)), mb)
      ensures !stream ==> TotalPackets(Payloads(frames), rest) == TotalPackets(old(Payloads(frames)), mb)
      ensures !stream ==> Filled(Sendings(frames)) + Filled(rest) == old(Filled(Sendings(frames))) + Filled(mb)
      ensures !stream ==> |frames| == |old(frames)| + 1 && frames[|old(frames)|].data == Some(mb[0].data)
    {
      ghost var sent, before := Payloads(frames), frames;
      if stream {
        var s := SplitChunk(mb, 8 * 1024);
        rest := s.rest;
        StreamStep(sent, mb, s);
        WriteFrame(Some(Flatten(Datas(s.chunk))), if |s.chunk| == 1 then s.chunk[0].udp else None);
      } else {
        rest := mb[1..];
        PacketStep(sent, mb);
        WriteFrame(Some(mb[0].data), mb[0].udp);
        assert frames == before + [frames[|before|]];
        FilledStep(before, frames[|before|], mb);
      }
    }

    /** WriteMultiBuffer: a header alone if there is nothing to send, otherwise frames of at most 8192 bytes for
        a stream, one frame per buffer for packets. */
    method WriteMultiBuffer(mb: seq<Buf>)
      requires Valid() && config.Consistent() && GoodBufs(config, mb)
      modifies this`followup, this`wire, this`frames
      ensures Valid() && old(frames) <= frames && frames != []
      ensures Flatten(Payloads(frames)) == old(Flatten(Payloads(frames))) + Flatten(Datas(mb))
      ensures !stream ==> NonEmpty(Payloads(frames)) == old(NonEmpty(Payloads(frames))) + NonEmpty(Datas(mb))
      ensures !stream ==> Filled(Sendings(frames)) == old(Filled(Sendings(frames))) + Filled(mb)
      ensures !stream && old(frames) == [] ==> frames[0].data == if Flatten(Datas(mb)) == [] then None else Some(mb[0].data)
    {
      if Flatten(Datas(mb)) == [] {
        WriteMetaOnly();
        NothingSent(mb, Payloads(frames), Filled(Sendings(frames)));
      } else {
        WriteLoop(mb);
      }
    }

    /** A header alone. */
    method WriteMetaOnly()
      requires Valid() && config.Consistent()
      modifies this`followup, this`wire, this`frames
      ensures Valid() && old(frames) <= frames && frames != []
      ensures Payloads(frames) == old(Payloads(frames)) && Sendings(frames) == old(Sendings(frames))
      ensures old(frames) == [] ==> frames[0].data == None
    {
      ghost var before := frames;
      WriteFrame(None, None);
      assert frames == before + [frames[|before|]];
      SendingsSnoc(before, frames[|before|]);
    }

    method WriteLoop(mb: seq<Buf>)
      requires Valid() && config.Consistent() && GoodBufs(config, mb) && Flatten(Datas(mb)) != []
      modifies this`followup, this`wire, this`frames
      ensures Valid() && old(frames) <= frames && frames != []
      ensures Flatten(Payloads(frames)) == old(Flatten(Payloads(frames))) + Flatten(Datas(mb))
      ensures !stream ==> NonEmpty(Payloads(frames)) == old(NonEmpty(Payloads(frames))) + NonEmpty(Datas(mb))
      ensures !stream ==> Filled(Sendings(frames)) == old(Filled(Sendings(frames))) + Filled(mb)
      ensures !stream && old(frames) == [] ==> frames[0].data == Some(mb[0].data)
    {
      ghost var bytes, packets := TotalBytes(Payloads(frames), mb), TotalPackets(Payloads(frames), mb);
      ghost var filled, none := Filled(Sendings(frames)) + Filled(mb), frames == [];
      var rest := mb;
      while Flatten(Datas(rest)) != []
        invariant Valid() && GoodBufs(config, rest) && old(frames) <= frames
        invariant frames != [] || rest == mb
        invariant TotalBytes(Payloads(frames), rest) == bytes
        invariant !stream ==> TotalPackets(Payloads(frames), rest) == packets
        invariant !stream ==> Filled(Sendings(frames)) + Filled(rest) == filled
        invariant none ==> if rest == mb then frames == [] || stream || frames[0].data == Some(mb[0].data)
                           else stream || (frames != [] && frames[0].data == Some(mb[0].data))
        decreases |Flatten(Datas(rest))| + |rest|
      {
        rest := WriteData(rest);
      }
      AllEmpty(Datas(rest));
      NothingFilled(rest);
    }

    /** Close: an End frame, with the error bit if something went wrong. */
    method Close() returns (ghost end: Frame)
      requires Valid() && config.Consistent()
      modifies this`wire, this`frames
      ensures frames == old(frames) + [end]
      ensures Carried(config, frames) == Some(wire)
      ensures end.meta.session == id && end.meta.status == STATUS_END && end.data == None
      ensures end.meta.option == if hasError then OPTION_ERROR else 0
    {
      var meta := Meta(id, STATUS_END, if hasError then OPTION_ERROR else 0, NoTarget, ZERO_ID);
      var f := Frame(meta, None, None);
      NextFrame(config, frames, wire, f);
      var body := EncodeMeta(config, meta, None).value;
      wire := wire + (U16(|body|) + (body + EncodeData(None)));
      frames := frames + [f];
      end := f;
    }
  }

  ghost predicate GoodBufs(c: Config, mb: seq<Buf>)
  {
    forall i :: 0 <= i < |mb| ==> |mb[i].data| <= SIZE && GoodUDP(c, mb[i].udp)
  }

  datatype Chunking = Chunking(chunk: seq<Buf>, rest: seq<Buf>)

  function Fitting(mb: seq<Buf>, size: nat): (n: nat)
    ensures n <= |mb|
    ensures |Flatten(Datas(mb[..n]))| <= size
  {
    if mb == [] || |mb[0].data| > size then
      assert Datas(mb[..0]) == [];
      0
    else
      var n := Fitting(mb[1..], size - |mb[0].data|);
      assert mb[..n + 1][1..] == mb[1..][..n];
      assert Datas(mb[..n + 1]) == [mb[0].data] + Datas(mb[1..][..n]);
      FlattenCons(mb[0].data, Datas(mb[1..][..n]));
      n + 1
  }

  lemma {:induction false} DatasConcat(a: seq<Buf>, b: seq<Buf>)
    ensures Datas(a + b) == Datas(a) + Datas(b)
  {
  }

  lemma {:induction false} CutFirst(mb: seq<Buf>, size: nat)
    requires mb != [] && |mb[0].data| > size
    ensures var front, rest := mb[0].data[..size], [Buf(mb[0].data[size..], mb[0].udp)] + mb[1..];
            Flatten(Datas([Buf(front, None)])) == front && front + Flatten(Datas(rest)) == Flatten(Datas(mb))
  {
    var front, back := mb[0].data[..size], mb[0].data[size..];
    var rest := [Buf(back, mb[0].udp)] + mb[1..];
    assert Datas([Buf(front, None)]) == [front] && Datas(rest) == [back] + Datas(mb[1..]);
    FlattenOne(front);
    FlattenCons(back, Datas(mb[1..]));
    Assoc(front, back, Flatten(Datas(mb[1..])));
    assert front + back == mb[0].data;
    assert Datas(mb)[1..] == Datas(mb[1..]);
  }

  /** SplitSize: the cut-off front of a long buffer is a new buffer, without a destination. */
  function SplitChunk(mb: seq<Buf>, size: nat): (s: Chunking)
    requires size > 0
    ensures Flatten(Datas(s.chunk)) + Flatten(Datas(s.rest)) == Flatten(Datas(mb))
    ensures |Flatten(Datas(s.chunk))| <= size
    ensures mb != [] ==> |Flatten(Datas(s.rest))| + |s.rest| < |Flatten(Datas(mb))| + |mb|
    ensures forall c: Config :: GoodBufs(c, mb) ==> GoodBufs(c, s.chunk) && GoodBufs(c, s.rest)
  {
    if mb == [] then Chunking([], [])
    else if |mb[0].data| > size then
      CutFirst(mb, size);
      Chunking([Buf(mb[0].data[..size], None)], [Buf(mb[0].data[size..], mb[0].udp)] + mb[1..])
    else
      var n := Fitting(mb, size);
      assert mb[..n] + mb[n..] == mb;
      DatasConcat(mb[..n], mb[n..]);
      FlattenConcat(Datas(mb[..n]), Datas(mb[n..]));
      Chunking(mb[..n], mb[n..])
  }

  lemma {:induction false} AllEmpty(ss: Segs)
    ensures Flatten(ss) == [] ==> NonEmpty(ss) == []
    decreases |ss|
  {
    if ss != [] {
      AllEmpty(ss[1..]);
    }
  }

  /** What has been sent and what is still to be sent, as a byte stream and as a list of packets. */
  function TotalBytes(sent: Segs, mb: seq<Buf>): seq<byte>
  {
    Flatten(sent) + Flatten(Datas(mb))
  }

  function TotalPackets(sent: Segs, mb: seq<Buf>): Segs
  {
    NonEmpty(sent) + NonEmpty(Datas(mb))
  }

  lemma {:induction false} StreamStep(sent: Segs, mb: seq<Buf>, s: Chunking)
    requires Flatten(Datas(s.chunk)) + Flatten(Datas(s.rest)) == Flatten(Datas(mb))
    ensures TotalBytes(sent + [Flatten(Datas(s.chunk))], s.rest) == TotalBytes(sent, mb)
  {
    FlattenSnoc(sent, Flatten(Datas(s.chunk)));
    Assoc(Flatten(sent), Flatten(Datas(s.chunk)), Flatten(Datas(s.rest)));
  }

  /** A packet moved from the list to the frames. */
  lemma {:induction false} PacketStep(sent: Segs, mb: seq<Buf>)
    requires mb != []
    ensures TotalBytes(sent + [mb[0].data], mb[1..]) == TotalBytes(sent, mb)
    ensures TotalPackets(sent + [mb[0].data], mb[1..]) == TotalPackets(sent, mb)
    ensures |Flatten(Datas(mb[1..]))| <= |Flatten(Datas(mb))|
  {
    var d := mb[0].data;
    NonEmptySnoc(sent, d);
    FlattenSnoc(sent, d);
    assert Datas(mb)[1..] == Datas(mb[1..]);
    Assoc(NonEmpty(sent), if d == [] then [] else [d], NonEmpty(Datas(mb[1..])));
    Assoc(Flatten(sent), d, Flatten(Datas(mb[1..])));
  }
}
