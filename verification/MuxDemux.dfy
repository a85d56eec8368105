/** Demultiplexing: every interleaving of the sessions' frames delivers to each session what was written to it. */
module MuxDemux {
  import opened Bytes
  import opened Segments
  import opened Address
  import opened MuxFrame
  import opened MuxCopy
  import opened MuxState
  import opened MuxServer
  import opened MuxWriter

  const NOTHING := Muxed(map[], map[])

  /** The frames of one session, in order. A list of frames interleaves writers with distinct identifiers exactly
      when its projection to each identifier is that writer's list. */
  function Project(fs: seq<Frame>, id: nat): seq<Frame>
  {
    if fs == [] then [] else (if fs[0].meta.session == id then [fs[0]] else []) + Project(fs[1..], id)
  }

  /** All that the worker knows about one session. */
  datatype Slice = Slice(live: Option<bool>, log: seq<Event>)

  function SliceOf(st: Muxed, id: nat): Slice
  {
    Slice(if id in st.sessions then Some(st.sessions[id]) else None, LogOf(st, id))
  }

  function FramesOf(hs: seq<Handling>): seq<Frame>
  {
    if hs == [] then [] else [hs[0].frame] + FramesOf(hs[1..])
  }

  /** What was handled for one session, in order. */
  function Own(hs: seq<Handling>, id: nat): seq<Handling>
  {
    if hs == [] then [] else (if hs[0].frame.meta.session == id then [hs[0]] else []) + Own(hs[1..], id)
  }

  lemma {:induction false} OwnFrames(hs: seq<Handling>, id: nat)
    ensures FramesOf(Own(hs, id)) == Project(FramesOf(hs), id)
    decreases |hs|
  {
    if hs != [] {
      OwnFrames(hs[1..], id);
      assert FramesOf(hs)[0] == hs[0].frame && FramesOf(hs)[1..] == FramesOf(hs[1..]);
      if hs[0].frame.meta.session == id {
        assert Own(hs, id)[0] == hs[0] && Own(hs, id)[1..] == Own(hs[1..], id);
      } else {
        assert Own(hs, id) == Own(hs[1..], id);
      }
    }
  }

  lemma {:induction false} OtherSessionUntouched(st: Muxed, h: Handling, id: nat)
    requires h.frame.meta.session != id
    ensures SliceOf(StepHandling(st, h), id) == SliceOf(st, id)
  {
  }

  lemma {:induction false} RecordDecides(st: Muxed, other: Muxed, id: nat, e: seq<Event>)
    requires SliceOf(st, id) == SliceOf(other, id)
    ensures SliceOf(Record(st, id, e), id) == SliceOf(Record(other, id, e), id)
    ensures SliceOf(CloseIn(st, id), id) == SliceOf(CloseIn(other, id), id)
  {
  }

  lemma {:induction false} DeliverDecides(st: Muxed, other: Muxed, stream: bool, m: Meta, cut: Segs, fates: seq<Verdict>)
    requires SliceOf(st, m.session) == SliceOf(other, m.session)
    ensures SliceOf(DeliverTo(st, stream, m, cut, fates), m.session) == SliceOf(DeliverTo(other, stream, m, cut, fates), m.session)
  {
    var e := Arrival(stream, m, EndOf(fates, cut).delivered);
    RecordDecides(st, other, m.session, e);
    RecordDecides(Record(st, m.session, e), Record(other, m.session, e), m.session, []);
  }

  lemma {:induction false} OwnSessionDecides(st: Muxed, other: Muxed, h: Handling)
    requires SliceOf(st, h.frame.meta.session) == SliceOf(other, h.frame.meta.session)
    ensures SliceOf(StepHandling(st, h), h.frame.meta.session) == SliceOf(StepHandling(other, h), h.frame.meta.session)
  {
    var m, id := Received(h.frame.meta, h.frame.udp), h.frame.meta.session;
    RecordDecides(st, other, id, [Rejected]);
    if m.status == STATUS_NEW {
      assert SliceOf(OpenIn(st, m), id) == SliceOf(OpenIn(other, m), id);
      DeliverDecides(OpenIn(st, m), OpenIn(other, m), IsStream(m.target), m, h.cut, h.env.fates);
    } else if m.status == STATUS_KEEP && id in st.sessions {
      assert st.sessions[id] == other.sessions[id];
      DeliverDecides(st, other, st.sessions[id], m, h.cut, h.env.fates);
    }
  }

  /** Non-interference: what a session sees depends on its own frames and its own answers only, whatever other sessions
      refuse. */
  lemma {:induction false} NonInterference(st: Muxed, other: Muxed, hs: seq<Handling>, id: nat)
    requires SliceOf(st, id) == SliceOf(other, id)
    ensures SliceOf(StepsWith(st, hs), id) == SliceOf(StepsWith(other, Own(hs, id)), id)
    decreases |hs|
  {
    if hs != [] {
      var h, rest := hs[0], hs[1..];
      if h.frame.meta.session == id {
        OwnSessionDecides(st, other, h);
        NonInterference(StepHandling(st, h), StepHandling(other, h), rest, id);
        assert Own(hs, id)[0] == h && Own(hs, id)[1..] == Own(rest, id);
      } else {
        OtherSessionUntouched(st, h, id);
        NonInterference(StepHandling(st, h), other, rest, id);
        assert Own(hs, id) == Own(rest, id);
      }
    }
  }

  /** Every piece of these payloads is accepted. */
  ghost predicate Accepting(hs: seq<Handling>)
  {
    forall i :: 0 <= i < |hs| ==> WellCut(hs[i]) && AcceptedOf(hs[i].env.fates, |hs[i].cut|) == |hs[i].cut|
  }

  lemma {:induction false} AcceptingRun(st: Muxed, hs: seq<Handling>)
    requires Accepting(hs)
    ensures StepsWith(st, hs) == StepAll(st, FramesOf(hs))
    decreases |hs|
  {
    if hs != [] {
      var h := hs[0];
      AllAccepted(st, Received(h.frame.meta, h.frame.udp), h.frame.data, h.cut, h.env.fates);
      assert FramesOf(hs)[0] == h.frame && FramesOf(hs)[1..] == FramesOf(hs[1..]);
      AcceptingRun(StepHandling(st, h), hs[1..]);
    }
  }

  /** What the frames of a live session deliver. */
  function Arrivals(stream: bool, fs: seq<Frame>): seq<Event>
  {
    if fs == [] then []
    else (if fs[0].data.Some? then Arrival(stream, Received(fs[0].meta, fs[0].udp), fs[0].data.value) else [])
         + Arrivals(stream, fs[1..])
  }

  ghost predicate AllKeep(id: nat, fs: seq<Frame>)
  {
    forall i :: 0 <= i < |fs| ==> fs[i].meta.session == id && fs[i].meta.status == STATUS_KEEP
  }

  lemma {:induction false} KeepDelivers(st: Muxed, f: Frame)
    requires f.meta.status == STATUS_KEEP && f.meta.session in st.sessions
    ensures var id, stream := f.meta.session, st.sessions[f.meta.session];
            SliceOf(StepFrame(st, f), id) == Slice(Some(stream), LogOf(st, id) + Arrivals(stream, [f]))
  {
    assert [f][1..] == [];
  }

  lemma {:induction false} KeepsDeliver(st: Muxed, id: nat, fs: seq<Frame>)
    requires id in st.sessions && AllKeep(id, fs)
    ensures SliceOf(StepAll(st, fs), id) == Slice(Some(st.sessions[id]), LogOf(st, id) + Arrivals(st.sessions[id], fs))
    decreases |fs|
  {
    if fs != [] {
      var f, rest, stream := fs[0], fs[1..], st.sessions[id];
      KeepDelivers(st, f);
      KeepsDeliver(StepFrame(st, f), id, rest);
      ArrivalsCons(stream, fs);
      Assoc(LogOf(st, id), Arrivals(stream, [f]), Arrivals(stream, rest));
    }
  }

  lemma {:induction false} StepAllConcat(st: Muxed, a: seq<Frame>, b: seq<Frame>)
    ensures StepAll(st, a + b) == StepAll(StepAll(st, a), b)
    decreases |a|
  {
    if a == [] {
      assert a + b == b;
    } else {
      assert (a + b)[0] == a[0] && (a + b)[1..] == a[1..] + b;
      StepAllConcat(StepFrame(st, a[0]), a[1..], b);
    }
  }

  ghost predicate IsEnd(id: nat, f: Frame)
  {
    f.meta.session == id && f.meta.status == STATUS_END
  }

  /** A session alone on the link: New, Keep*, End. */
  lemma {:induction false} SessionAlone(id: nat, dest: Target, fs: seq<Frame>, end: Frame)
    requires fs != [] && Ordered(id, dest, false, fs) && IsEnd(id, end)
    ensures SliceOf(StepAll(NOTHING, fs + [end]), id)
         == Slice(None, [Opened(dest)] + Arrivals(IsStream(dest), fs) + [Closed])
  {
    var first, rest, stream := fs[0], fs[1..], IsStream(dest);
    var began := StepFrame(NOTHING, first);
    NewOpens(first);
    KeepsDeliver(began, id, rest);
    ArrivalsCons(stream, fs);
    Assoc([Opened(dest)], Arrivals(stream, [first]), Arrivals(stream, rest));
    StepAllConcat(NOTHING, fs, [end]);
    EndCloses(StepAll(NOTHING, fs), end);
  }

  lemma {:induction false} ArrivalsCons(stream: bool, fs: seq<Frame>)
    requires fs != []
    ensures Arrivals(stream, fs) == Arrivals(stream, [fs[0]]) + Arrivals(stream, fs[1..])
  {
    assert [fs[0]][1..] == [];
  }

  lemma {:induction false} NewOpens(f: Frame)
    requires f.meta.status == STATUS_NEW
    ensures var id, stream := f.meta.session, IsStream(f.meta.target);
            SliceOf(StepFrame(NOTHING, f), id) == Slice(Some(stream), [Opened(f.meta.target)] + Arrivals(stream, [f]))
  {
    assert [f][1..] == [];
  }

  lemma {:induction false} EndCloses(st: Muxed, end: Frame)
    requires IsEnd(end.meta.session, end) && end.meta.session in st.sessions
    ensures SliceOf(StepAll(st, [end]), end.meta.session) == Slice(None, LogOf(st, end.meta.session) + [Closed])
  {
    assert [end][1..] == [];
    assert StepAll(st, [end]) == StepFrame(st, end);
  }

  /** The payloads among some events. */
  function DataOf(events: seq<Event>): Segs
  {
    if events == [] then []
    else (if events[0].Payload? then [events[0].data] else []) + DataOf(events[1..])
  }

  lemma {:induction false} DataOfConcat(a: seq<Event>, b: seq<Event>)
    ensures DataOf(a + b) == DataOf(a) + DataOf(b)
    decreases |a|
  {
    if a == [] {
      assert a + b == b;
    } else {
      DataOfConcat(a[1..], b);
      assert (a + b)[1..] == a[1..] + b;
      Assoc(if a[0].Payload? then [a[0].data] else [], DataOf(a[1..]), DataOf(b));
    }
  }

  lemma {:induction false} ArrivalsAreData(stream: bool, fs: seq<Frame>)
    ensures DataOf(Arrivals(stream, fs)) == NonEmpty(Payloads(fs))
    decreases |fs|
  {
    if fs != [] {
      var f, rest := fs[0], fs[1..];
      ArrivalsAreData(stream, rest);
      var head := if f.data.Some? then Arrival(stream, Received(f.meta, f.udp), f.data.value) else [];
      DataOfConcat(head, Arrivals(stream, rest));
      if f.data.Some? {
        assert Payloads(fs)[1..] == Payloads(rest);
        assert head != [] ==> head[1..] == [];
      } else {
        assert Payloads(fs) == Payloads(rest);
      }
    }
  }

  /** Demultiplexing: in any interleaving, and whatever other sessions answer, a session that is written by a Writer,
      closed by it and accepts what it gets is opened for its destination, receives exactly the payloads written, in order
      and with packet boundaries kept, and is closed. */
  lemma {:induction false} Demultiplexing(hs: seq<Handling>, id: nat, dest: Target, fs: seq<Frame>, end: Frame)
    requires fs != [] && Ordered(id, dest, false, fs) && IsEnd(id, end)
    requires Project(FramesOf(hs), id) == fs + [end] && Accepting(Own(hs, id))
    ensures SliceOf(StepsWith(NOTHING, hs), id) == Slice(None, [Opened(dest)] + Arrivals(IsStream(dest), fs) + [Closed])
    ensures DataOf(LogOf(StepsWith(NOTHING, hs), id)) == NonEmpty(Payloads(fs))
    ensures Flatten(DataOf(LogOf(StepsWith(NOTHING, hs), id))) == Flatten(Payloads(fs))
  {
    NonInterference(NOTHING, NOTHING, hs, id);
    AcceptingRun(NOTHING, Own(hs, id));
    OwnFrames(hs, id);
    SessionAlone(id, dest, fs, end);
    var arrivals := Arrivals(IsStream(dest), fs);
    DataOfConcat([Opened(dest)], arrivals);
    DataOfConcat([Opened(dest)] + arrivals, [Closed]);
    assert [Opened(dest)][1..] == [] && [Closed][1..] == [];
    ArrivalsAreData(IsStream(dest), fs);
    FlattenNonEmpty(Payloads(fs));
  }

  // ---- Packets and their destinations ----

  datatype Packet = Packet(data: seq<byte>, dest: Target)

  /** What a session has received, each piece with the destination it came with. */
  function PacketsIn(events: seq<Event>): seq<Packet>
  {
    if events == [] then []
    else (if events[0].Payload? then [Packet(events[0].data, events[0].dest)] else []) + PacketsIn(events[1..])
  }

  lemma {:induction false} PacketsInConcat(a: seq<Event>, b: seq<Event>)
    ensures PacketsIn(a + b) == PacketsIn(a) + PacketsIn(b)
    decreases |a|
  {
    if a == [] {
      assert a + b == b;
    } else {
      PacketsInConcat(a[1..], b);
      assert (a + b)[0] == a[0] && (a + b)[1..] == a[1..] + b;
      Assoc(if a[0].Payload? then [Packet(a[0].data, a[0].dest)] else [], PacketsIn(a[1..]), PacketsIn(b));
    }
  }

  /** The destination a buffer carries itself. */
  function OwnDest(udp: Option<AddrPort>): Target
  {
    if udp.Some? then Dest(UDP, udp.value.addr, udp.value.port) else NoTarget
  }

  function Labelled(bufs: seq<Buf>): seq<Packet>
  {
    if bufs == [] then [] else [Packet(bufs[0].data, OwnDest(bufs[0].udp))] + Labelled(bufs[1..])
  }

  /** What one frame brings to a packet session. */
  lemma {:induction false} FramePacket(f: Frame)
    requires f.meta.status == STATUS_KEEP || (f.meta.status == STATUS_NEW && !IsStream(f.meta.target))
    ensures var dest := if f.meta.status == STATUS_NEW then f.meta.target else OwnDest(f.udp);
            PacketsIn(Arrivals(false, [f])) == if f.data.Some? && f.data.value != [] then [Packet(f.data.value, dest)] else []
  {
    assert [f][1..] == [];
    var e := if f.data.Some? then Arrival(false, Received(f.meta, f.udp), f.data.value) else [];
    assert Arrivals(false, [f]) == e + [] == e;
    assert e != [] ==> e[1..] == [];
  }

  lemma {:induction false} KeepPackets(fs: seq<Frame>)
    requires forall i :: 0 <= i < |fs| ==> fs[i].meta.status == STATUS_KEEP
    ensures PacketsIn(Arrivals(false, fs)) == Labelled(Filled(Sendings(fs)))
    decreases |fs|
  {
    if fs != [] {
      var f, rest := fs[0], fs[1..];
      KeepPackets(rest);
      FramePacket(f);
      ArrivalsCons(false, fs);
      PacketsInConcat(Arrivals(false, [f]), Arrivals(false, rest));
      SendingsFilled(fs);
    }
  }

  /** The first frame and the others. */
  lemma {:induction false} SendingsFilled(fs: seq<Frame>)
    requires fs != []
    ensures var f, rest := fs[0], Filled(Sendings(fs[1..]));
            Filled(Sendings(fs)) == if f.data.Some? && f.data.value != [] then [Buf(f.data.value, f.udp)] + rest else rest
  {
    var f := fs[0];
    if f.data.Some? {
      assert Sendings(fs)[1..] == Sendings(fs[1..]);
    } else {
      assert Sendings(fs) == Sendings(fs[1..]);
    }
  }

  /** A packet session: what came in the New frame carries the destination of the session, everything else its own. */
  lemma {:induction false} SessionPackets(id: nat, dest: Target, fs: seq<Frame>)
    requires fs != [] && Ordered(id, dest, false, fs) && !IsStream(dest)
    ensures var filled := Filled(Sendings(fs));
            PacketsIn(Arrivals(false, fs)) ==
            if fs[0].data.Some? && fs[0].data.value != [] then [Packet(filled[0].data, dest)] + Labelled(filled[1..]) else Labelled(filled)
  {
    KeepPackets(fs[1..]);
    FramePacket(fs[0]);
    ArrivalsCons(false, fs);
    PacketsInConcat(Arrivals(false, [fs[0]]), Arrivals(false, fs[1..]));
    SendingsFilled(fs);
    if fs[0].data.Some? && fs[0].data.value != [] {
      assert Filled(Sendings(fs))[1..] == Filled(Sendings(fs[1..]));
    }
  }

  /** Nothing that reaches a stream session carries a destination. */
  lemma {:induction false} StreamPackets(fs: seq<Frame>)
    ensures forall i :: 0 <= i < |PacketsIn(Arrivals(true, fs))| ==> PacketsIn(Arrivals(true, fs))[i].dest == NoTarget
    decreases |fs|
  {
    if fs != [] {
      StreamPackets(fs[1..]);
      var e := if fs[0].data.Some? then Arrival(true, Received(fs[0].meta, fs[0].udp), fs[0].data.value) else [];
      assert e != [] ==> e[1..] == [];
      PacketsInConcat(e, Arrivals(true, fs[1..]));
    }
  }

  /** The packets of some writes to a session: the very first buffer, if it holds anything, goes to the destination of the
      session, and the others where they say. */
  function AddressedTo(dest: Target, writes: seq<seq<Buf>>): seq<Packet>
  {
    var filled := Filled(Flatten(writes));
    if FirstFilled(writes) && filled != [] then [Packet(filled[0].data, dest)] + Labelled(filled[1..]) else Labelled(filled)
  }

  predicate FirstFilled(writes: seq<seq<Buf>>)
  {
    writes != [] && writes[0] != [] && writes[0][0].data != []
  }

  // ---- Writing ----

  function Written(writes: seq<seq<Buf>>): seq<byte>
  {
    if writes == [] then [] else Flatten(Datas(writes[0])) + Written(writes[1..])
  }

  function PacketsWritten(writes: seq<seq<Buf>>): Segs
  {
    if writes == [] then [] else NonEmpty(Datas(writes[0])) + PacketsWritten(writes[1..])
  }

  /** Any number of writes to an open session. */
  method WriteAll(w: Writer, writes: seq<seq<Buf>>)
    requires w.Valid() && w.config.Consistent()
    requires forall i :: 0 <= i < |writes| ==> GoodBufs(w.config, writes[i])
    modifies w
    ensures w.Valid() && (writes != [] ==> w.frames != [])
    ensures Flatten(Payloads(w.frames)) == old(Flatten(Payloads(w.frames))) + Written(writes)
    ensures !w.stream ==> NonEmpty(Payloads(w.frames)) == old(NonEmpty(Payloads(w.frames))) + PacketsWritten(writes)
    ensures !w.stream ==> Filled(Sendings(w.frames)) == old(Filled(Sendings(w.frames))) + Filled(Flatten(writes))
    ensures !w.stream && old(w.frames) == [] && writes != [] ==>
              w.frames[0].data == if Flatten(Datas(writes[0])) == [] then None else Some(writes[0][0].data)
    ensures old(w.frames) <= w.frames
    decreases |writes|
  {
    if writes != [] {
      ghost var bytes, packets, filled := Flatten(Payloads(w.frames)), NonEmpty(Payloads(w.frames)), Filled(Sendings(w.frames));
      w.WriteMultiBuffer(writes[0]);
      WriteAll(w, writes[1..]);
      FilledConcat(writes[0], Flatten(writes[1..]));
      Assoc(filled, Filled(writes[0]), Filled(Flatten(writes[1..])));
      Assoc(bytes, Flatten(Datas(writes[0])), Written(writes[1..]));
      Assoc(packets, NonEmpty(Datas(writes[0])), PacketsWritten(writes[1..]));
    }
  }

  /** A session as its writer sees it: the destination, the writes, and the frames and the End they become. */
  datatype Transfer = Transfer(dest: Target, writes: seq<seq<Buf>>, frames: seq<Frame>, end: Frame) {
    ghost predicate Sent(config: Config, id: nat) {
      && AllDecode(config, frames + [end])
      && frames != [] && Ordered(id, dest, false, frames) && IsEnd(id, end)
      && Flatten(Payloads(frames)) == Written(writes)
      && (!IsStream(dest) ==> NonEmpty(Payloads(frames)) == PacketsWritten(writes))
      && (!IsStream(dest) ==> Filled(Sendings(frames)) == Filled(Flatten(writes)))
      && (!IsStream(dest) ==> (frames[0].data.Some? && frames[0].data.value != [] <==> FirstFilled(writes)))
    }
  }

  lemma {:induction false} FirstOf(mb: seq<Buf>)
    requires mb != [] && mb[0].data != []
    ensures Flatten(Datas(mb)) != []
  {
  }

  /** A session from its first write to its Close, on the sending side. */
  method WriteSession(config: Config, id: nat, dest: Target, writes: seq<seq<Buf>>)
    returns (wire: seq<byte>, ghost t: Transfer)
    requires config.Consistent() && id < 65536 && GoodTarget(config, dest)
    requires writes != [] && forall i :: 0 <= i < |writes| ==> GoodBufs(config, writes[i])
    ensures t.dest == dest && t.writes == writes && t.Sent(config, id) && wire == EncodeFrames(config, t.frames + [t.end])
  {
    var w := new Writer(id, dest, config, IsStream(dest));
    assert Flatten(Payloads(w.frames)) == [] && NonEmpty(Payloads(w.frames)) == [];
    WriteAll(w, writes);
    assert [] + Written(writes) == Written(writes) && [] + PacketsWritten(writes) == PacketsWritten(writes);
    assert [] + Filled(Flatten(writes)) == Filled(Flatten(writes));
    if FirstFilled(writes) {
      FirstOf(writes[0]);
    }
    ghost var fs := w.frames;
    ghost var end := w.Close();
    t := Transfer(dest, writes, fs, end);
    wire := w.wire;
  }

  /** The frames on the link are those of these sessions, each session's in its own order. */
  ghost predicate Interleaves(config: Config, all: seq<Frame>, sessions: map<nat, Transfer>)
  {
    && (forall i :: 0 <= i < |all| ==> all[i].meta.session in sessions)
    && forall id :: id in sessions ==>
         sessions[id].Sent(config, id) && Project(all, id) == sessions[id].frames + [sessions[id].end]
  }

  lemma {:induction false} ProjectDecodes(c: Config, fs: seq<Frame>, i: nat)
    requires i < |fs| && AllDecode(c, Project(fs, fs[i].meta.session))
    ensures Decodes(c, fs[i])
    decreases |fs|
  {
    var id := fs[i].meta.session;
    if i == 0 {
      assert Project(fs, id)[0] == fs[0];
    } else {
      if fs[0].meta.session == id {
        assert Project(fs, id)[1..] == Project(fs[1..], id);
      } else {
        assert Project(fs, id) == Project(fs[1..], id);
      }
      ProjectDecodes(c, fs[1..], i - 1);
    }
  }

  /** An interleaving of frames that decode decodes. */
  lemma {:induction false} InterleavingDecodes(config: Config, all: seq<Frame>, sessions: map<nat, Transfer>)
    requires Interleaves(config, all, sessions)
    ensures AllDecode(config, all)
  {
    forall i | 0 <= i < |all|
      ensures Decodes(config, all[i])
    {
      ProjectDecodes(config, all, i);
    }
    EachDecodesIff(config, all);
  }

  /** Every output accepts what it gets while a frame of this session is handled. */
  ghost predicate Willing(all: seq<Frame>, envs: seq<Env>, id: nat)
  {
    forall i :: 0 <= i < |all| && all[i].meta.session == id ==> AllAccept(EnvAt(envs, i).fates)
  }

  ghost predicate AllAccept(fates: seq<Verdict>)
  {
    forall k :: 0 <= k < |fates| ==> fates[k] == Accepted
  }

  /** What a session has seen is what was written to it. */
  ghost predicate Delivered(log: map<nat, seq<Event>>, id: nat, t: Transfer)
  {
    && id in log && |log[id]| >= 2 && log[id][0] == Opened(t.dest) && log[id][|log[id]| - 1] == Closed
    && Flatten(DataOf(log[id])) == Written(t.writes)
    && (!IsStream(t.dest) ==> DataOf(log[id]) == PacketsWritten(t.writes) && PacketsIn(log[id]) == AddressedTo(t.dest, t.writes))
    && (IsStream(t.dest) ==> forall i :: 0 <= i < |PacketsIn(log[id])| ==> PacketsIn(log[id])[i].dest == NoTarget)
  }

  /** Both ends of a link: any sessions with distinct identifiers and any writes to them, their frames interleaved in any
      way and the bytes cut into buffers in any way. As long as the reader keeps its place, a session that accepts what it
      gets is delivered what was written to it, whatever the others answer. */
  method ReceiveSessions(config: Config, source: seq<Segs>, envs: seq<Env>, ghost all: seq<Frame>, ghost sessions: map<nat, Transfer>)
    returns (log: map<nat, seq<Event>>)
    requires Interleaves(config, all, sessions)
    requires AllDecode(config, all) && EachDecodes(config, all) ==>
      Upcoming(source) == EncodeFrames(config, all) && KeepsPlace(config, Place(NOTHING, Link([], source)), all, envs)
    requires forall i :: 0 <= i < |envs| ==> envs[i].admission == Admitted
    ensures forall id :: id in sessions && Willing(all, envs, id) ==> Delivered(log, id, sessions[id])
  {
    InterleavingDecodes(config, all, sessions);
    EachDecodesIff(config, all);
    var reader := new BufferedReader(source);
    var worker := new ServerWorker(config, reader);
    ghost var hs := worker.Run(envs, all);
    log := worker.log;
    forall id | id in sessions && Willing(all, envs, id)
      ensures Delivered(log, id, sessions[id])
    {
      HandledAll(hs, all, envs);
      SessionDelivered(config, hs, all, envs, id, sessions[id], Muxed(worker.sessions, log));
    }
  }

  lemma {:induction false} HandledAll(hs: seq<Handling>, all: seq<Frame>, envs: seq<Env>)
    requires Handles(hs, all, envs) && |hs| == |all|
    ensures FramesOf(hs) == all
    decreases |hs|
  {
    FramesAt(hs);
    assert forall i :: 0 <= i < |all| ==> FramesOf(hs)[i] == all[i];
  }

  lemma {:induction false} FramesAt(hs: seq<Handling>)
    ensures |FramesOf(hs)| == |hs| && forall i :: 0 <= i < |hs| ==> FramesOf(hs)[i] == hs[i].frame
    decreases |hs|
  {
    if hs != [] {
      FramesAt(hs[1..]);
    }
  }

  /** The handlings of a session that accepts what it gets. */
  lemma {:induction false} OwnAccepting(hs: seq<Handling>, id: nat)
    requires forall i :: 0 <= i < |hs| && hs[i].frame.meta.session == id ==> WellCut(hs[i]) && AllAccept(hs[i].env.fates)
    ensures Accepting(Own(hs, id))
    decreases |hs|
  {
    if hs != [] {
      OwnAccepting(hs[1..], id);
      if hs[0].frame.meta.session == id {
        AcceptedUnique(hs[0].env.fates, |hs[0].cut|, |hs[0].cut|);
      }
    }
  }

  lemma {:induction false} SessionDelivered(config: Config, hs: seq<Handling>, all: seq<Frame>, envs: seq<Env>, id: nat, t: Transfer, now: Muxed)
    requires Handles(hs, all, envs) && FramesOf(hs) == all && |hs| == |all| && Willing(all, envs, id)
    requires t.Sent(config, id) && Project(all, id) == t.frames + [t.end]
    requires ShutDown(StepsWith(NOTHING, hs), now)
    ensures Delivered(now.log, id, t)
  {
    OwnAccepting(hs, id);
    Demultiplexing(hs, id, t.dest, t.frames, t.end);
    var st, arrivals := StepsWith(NOTHING, hs), Arrivals(IsStream(t.dest), t.frames);
    EventsAround(t.dest, arrivals);
    if IsStream(t.dest) {
      StreamPackets(t.frames);
    } else {
      SessionPackets(id, t.dest, t.frames);
    }
    assert LogOf(now, id) == LogOf(st, id) + [] == LogOf(st, id);
  }

  /** Opening and closing bring no packets. */
  lemma {:induction false} EventsAround(dest: Target, arrivals: seq<Event>)
    ensures PacketsIn([Opened(dest)] + arrivals + [Closed]) == PacketsIn(arrivals)
  {
    PacketsInConcat([Opened(dest)], arrivals);
    PacketsInConcat([Opened(dest)] + arrivals, [Closed]);
    assert [Opened(dest)][1..] == [] && [Closed][1..] == [];
    assert [] + PacketsIn(arrivals) + [] == PacketsIn(arrivals);
  }
}
