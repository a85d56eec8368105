/** The mux server: frames on one link, routed to sessions. */
module MuxServer {
  import opened Bytes
  import opened Segments
  import opened Address
  import opened MuxFrame
  import opened MuxCopy
  import opened MuxState

  method Drain(r: ChunkStreamReader)
    requires r.Valid()
    modifies r`numChunk, r`leftOverSize, r`left, r.reader
    ensures r.Valid() && r.numChunk > 0 && r.left == []
    ensures r.reader.State() == AfterCuts(old(r.Start()), |old(r.left)|)
  {
    CopyAccepted([], Cuts(r.Start(), |r.left|));
    var result, delivered := Copy(r, []);
  }

  class ServerWorker {
    const config: Config
    const reader: BufferedReader
    var sessions: map<nat, bool>
    var log: map<nat, seq<Event>>

    ghost function View(): Muxed
      reads this
    {
      Muxed(sessions, log)
    }

    constructor (config: Config, reader: BufferedReader)
      ensures View() == Muxed(map[], map[]) && this.config == config && this.reader == reader
    {
      this.config, this.reader := config, reader;
      sessions, log := map[], map[];
    }

    method Note(id: nat, e: seq<Event>)
      modifies this`log
      ensures View() == Record(old(View()), id, e)
    {
      if e != [] {
        log := log[id := (if id in log then log[id] else []) + e];
      }
    }

    /** buf.Copy(NewStreamReader(reader), buf.Discard) */
    method Discard(ghost data: seq<byte>, ghost rest: seq<byte>)
      requires |data| <= SIZE && reader.Remaining() == U16(|data|) + (data + rest)
      modifies reader
      ensures reader.Remaining() == rest && reader.State() == AfterCuts(Skip(old(reader.State()), 2), |data|)
    {
      var rr := new ChunkStreamReader(reader, data, rest);
      CopyAccepted([], Cuts(rr.Start(), |data|));
      var result, delivered := Copy(rr, []);
      assert reader.Remaining() == [] + rest;
    }

    /** The payload of a frame for a live stream session: copy it, and throw away what the session refuses. */
    method DeliverStream(m: Meta, fates: seq<Verdict>, ghost data: seq<byte>, ghost rest: seq<byte>) returns (refused: bool)
      requires |data| <= SIZE && reader.Remaining() == U16(|data|) + (data + rest)
      modifies this`log, reader
      ensures var cut := CutAt(true, old(reader.State()), data);
              var end := EndOf(fates, cut);
              && Flatten(cut) == data
              && refused == (end.result == Stopped)
              && View() == Record(old(View()), m.session, Arrival(true, m, end.delivered))
              && reader.Remaining() == (if end.result == StoppedQuietly then end.unread else []) + rest
              && (end.result != StoppedQuietly || end.unread == [] ==>
                  reader.State() == AfterCuts(Skip(old(reader.State()), 2), |data|))
    {
      var rr := new ChunkStreamReader(reader, data, rest);
      var result, delivered := Copy(rr, fates);
      Note(m.session, Arrival(true, m, delivered));
      refused := result == Stopped;
      if refused {
        Drain(rr);
        assert reader.Remaining() == [] + rest;
      } else if result == Copied {
        assert rr.left == [];
      }
    }

    /** PacketReader: one packet, all of it, tagged with the destination of its frame. */
    method DeliverPacket(m: Meta, fates: seq<Verdict>, ghost data: seq<byte>, ghost rest: seq<byte>) returns (refused: bool)
      requires |data| <= SIZE && reader.Remaining() == U16(|data|) + (data + rest)
      modifies this`log, reader
      ensures var end := EndOf(fates, if data == [] then [] else [data]);
              && end.unread == [] && refused == (end.result == Stopped)
              && View() == Record(old(View()), m.session, Arrival(false, m, end.delivered))
      ensures reader.Remaining() == rest && reader.State() == Skip(Skip(old(reader.State()), 2), |data|)
    {
      PacketEnd(fates, data);
      var ok, bytes := reader.ReadFull(2);
      SameFront(U16(|data|), data + rest, bytes, reader.Remaining());
      var size := FromU16(bytes);
      var packet;
      ok, packet := reader.ReadFull(size);
      SameFront(data, rest, packet, reader.Remaining());
      if packet != [] && fates != [] && fates[0] != Accepted {
        return fates[0] == Refused;
      }
      Note(m.session, Arrival(false, m, packet));
      return false;
    }

    /** The payload of a frame for a live session, and the closing of one that refuses it. */
    method Deliver(stream: bool, m: Meta, fates: seq<Verdict>, ghost data: seq<byte>, ghost rest: seq<byte>)
      requires |data| <= SIZE && reader.Remaining() == U16(|data|) + (data + rest)
      modifies this, reader
      ensures var cut := CutAt(stream, old(reader.State()), data);
              var end := EndOf(fates, cut);
              && Flatten(cut) == data
              && View() == DeliverTo(old(View()), stream, m, cut, fates)
              && reader.Remaining() == (if end.result == StoppedQuietly then end.unread else []) + rest
              && (end.result != StoppedQuietly || end.unread == [] ==>
                  reader.State() == if stream then AfterCuts(Skip(old(reader.State()), 2), |data|) else Skip(Skip(old(reader.State()), 2), |data|))
    {
      var refused;
      if stream {
        refused := DeliverStream(m, fates, data, rest);
      } else {
        FlattenOne(data);
        assert [] + rest == rest;
        refused := DeliverPacket(m, fates, data, rest);
      }
      if refused {
        CloseSession(m.session);
      }
    }

    /** Session.Close, reached from the frame handlers. */
    method CloseSession(id: nat)
      modifies this`sessions, this`log
      ensures View() == CloseIn(old(View()), id)
    {
      sessions := sessions - {id};
      Note(id, [Closed]);
    }

    /** handleStatusKeep: for an unknown session an End is sent back and the payload is thrown away. */
    method HandleKeep(m: Meta, fates: seq<Verdict>, ghost data: Option<seq<byte>>, ghost rest: seq<byte>)
      requires m.status == STATUS_KEEP && (data.Some? <==> m.HasData()) && (data.Some? ==> |data.value| <= SIZE)
      requires reader.Remaining() == EncodeData(data) + rest
      modifies this, reader
      ensures var cut := CutFor(old(View()), m, data, old(reader.State()));
              && (data.Some? && Delivers(old(View()), m) ==> Flatten(cut) == data.value)
              && View() == StepWith(old(View()), m, data, cut, fates)
              && reader.Remaining() == LostOf(old(View()), m, cut, fates) + rest
              && (LostOf(old(View()), m, cut, fates) == [] ==> reader.State() == BehindPayload(old(View()), m, data, old(reader.State())))
      ensures data.Some? && m.session !in old(sessions) ==> sessions == old(sessions) && LogOf(View(), m.session) == LogOf(old(View()), m.session) + [Rejected]
      ensures data.Some? && data.value != [] && m.session in old(sessions) && fates != [] && fates[0] == Refused ==>
                m.session !in sessions && LogOf(View(), m.session) == LogOf(old(View()), m.session) + [Closed]
    {
      assert [] + rest == rest;
      if !m.HasData() {
        NothingCut(fates);
        return;
      }
      Assoc(U16(|data.value|), data.value, rest);
      if m.session !in sessions {
        Note(m.session, [Rejected]);
        Discard(data.value, rest);
        return;
      }
      FirstRefused(fates, CutAt(sessions[m.session], reader.State(), data.value));
      Deliver(sessions[m.session], m, fates, data.value, rest);
    }

    /** handleStatusEnd and handleStatusKeepAlive: any payload is thrown away. */
    method HandleEndOrKeepAlive(m: Meta, ghost data: Option<seq<byte>>, ghost rest: seq<byte>)
      requires m.status == STATUS_END || m.status == STATUS_KEEP_ALIVE
      requires (data.Some? <==> m.HasData()) && (data.Some? ==> |data.value| <= SIZE)
      requires reader.Remaining() == EncodeData(data) + rest
      modifies this, reader
      ensures reader.Remaining() == rest && View() == Step(old(View()), m, data)
      ensures m.status == STATUS_END ==> sessions == old(sessions) - {m.session}
      ensures m.status == STATUS_END && m.session in old(sessions) ==> LogOf(View(), m.session) == LogOf(old(View()), m.session) + [Closed]
      ensures m.status == STATUS_KEEP_ALIVE ==> View() == old(View())
      ensures reader.State() == BehindPayload(old(View()), m, data, old(reader.State()))
    {
      if m.status == STATUS_END && m.session in sessions {
        CloseSession(m.session);
      }
      if m.HasData() {
        Assoc(U16(|data.value|), data.value, rest);
        Discard(data.value, rest);
      } else {
        assert [] + rest == rest;
      }
    }

    /** handleStatusNew for an empty GlobalID. A session on the wrong network is an error at once; one that cannot be
        dispatched is an error after its payload has been thrown away; either ends the connection. */
    method HandleNew(m: Meta, env: Env, ghost data: Option<seq<byte>>, ghost rest: seq<byte>) returns (ok: bool)
      requires m.status == STATUS_NEW && (data.Some? <==> m.HasData()) && (data.Some? ==> |data.value| <= SIZE)
      requires reader.Remaining() == EncodeData(data) + rest
      modifies this, reader
      ensures ok <==> env.admission == Admitted
      ensures var cut := CutFor(old(View()), m, data, old(reader.State()));
              ok ==>
                && (data.Some? ==> Flatten(cut) == data.value)
                && View() == StepWith(old(View()), m, data, cut, env.fates)
                && reader.Remaining() == LostOf(old(View()), m, cut, env.fates) + rest
                && (LostOf(old(View()), m, cut, env.fates) == [] ==>
                    reader.State() == BehindPayload(old(View()), m, data, old(reader.State())))
      ensures !ok ==> View() == old(View())
    {
      assert [] + rest == rest;
      if env.admission == WrongNetwork {
        return false;
      }
      if m.HasData() {
        Assoc(U16(|data.value|), data.value, rest);
      }
      if env.admission == NotDispatched {
        if m.HasData() {
          Discard(data.value, rest);
        }
        return false;
      }
      var stream := true;
      if m.target.Dest? && m.target.network == UDP {
        stream := false;
      }
      sessions := sessions[m.session := stream];
      Note(m.session, [Opened(m.target)]);
      if m.HasData() {
        Deliver(stream, m, env.fates, data.value, rest);
      } else {
        NothingCut(env.fates);
      }
      return true;
    }

    /** FrameMetadata.Unmarshal on a link that carries these frames; false when it has ended. */
    method Unmarshal(ghost fs: seq<Frame>) returns (ok: bool, m: Meta)
      requires AllDecode(config, fs) && reader.Remaining() == EncodeFrames(config, fs)
      modifies reader
      ensures ok <==> fs != []
      ensures ok ==> m == Received(fs[0].meta, fs[0].udp)
      ensures ok ==> reader.Remaining() == EncodeData(fs[0].data) + EncodeFrames(config, fs[1..])
      ensures ok ==> reader.State() == BehindHeader(config, fs[0], old(reader.State()))
      ensures !ok ==> reader.Remaining() == []
    {
      m := Meta(0, 0, 0, NoTarget, ZERO_ID);
      FrameLength(config, fs);
      var bytes;
      ok, bytes := reader.ReadFull(2);
      if !ok {
        return;
      }
      ghost var body := EncodeMeta(config, fs[0].meta, fs[0].udp).value;
      ghost var rest := EncodeFrames(config, fs[1..]);
      ghost var tail := EncodeData(fs[0].data) + rest;
      HeaderFirst(body, EncodeData(fs[0].data), rest);
      SameFront(U16(|body|), body + tail, bytes, reader.Remaining());
      var metaLen := FromU16(bytes);
      var b, full;
      full, b := reader.ReadFull(metaLen);
      SameFront(body, tail, b, reader.Remaining());
      m := ParseMeta(config, b).value;
    }

    /** handleFrame: what one frame does and where the reader then stands, whatever the outside answers. It stands at the
        next frame, unless a session refused a piece of its payload with io.EOF before the last one. */
    method HandleFrame(env: Env, ghost fs: seq<Frame>) returns (outcome: Outcome)
      requires AllDecode(config, fs) && reader.Remaining() == EncodeFrames(config, fs)
      modifies this, reader
      ensures outcome == Ended <==> fs == []
      ensures outcome == Broken <==> fs != [] && Breaks(fs[0], env)
      ensures outcome == Ended ==> reader.Remaining() == []
      ensures outcome != Handled ==> View() == old(View())
      ensures outcome == Handled ==>
                var m, data := Received(fs[0].meta, fs[0].udp), fs[0].data;
                var cut := CutFor(old(View()), m, data, BehindHeader(config, fs[0], old(reader.State())));
                && (data.Some? && Delivers(old(View()), m) ==> Flatten(cut) == data.value)
                && View() == StepWith(old(View()), m, data, cut, env.fates)
                && reader.Remaining() == LostOf(old(View()), m, cut, env.fates) + EncodeFrames(config, fs[1..])
                && (LostOf(old(View()), m, cut, env.fates) == [] ==>
                    reader.State() == LinkAfter(config, old(View()), fs[0], old(reader.State())))
    {
      var ok, m := Unmarshal(fs);
      if !ok {
        return Ended;
      }
      ghost var data, rest := fs[0].data, EncodeFrames(config, fs[1..]);
      if m.status == STATUS_NEW {
        var admitted := HandleNew(m, env, data, rest);
        return if admitted then Handled else Broken;
      } else if m.status == STATUS_KEEP {
        HandleKeep(m, env.fates, data, rest);
      } else {
        NothingCut(env.fates);
        assert [] + rest == rest;
        HandleEndOrKeepAlive(m, data, rest);
      }
      return Handled;
    }

    /** sessionManager.Close at the end of the receive loop. */
    method CloseAll()
      modifies this
      ensures ShutDown(old(View()), View())
    {
      ghost var st := View();
      var ids := sessions.Keys;
      while ids != {}
        invariant PartlyShut(st, View(), ids)
        decreases |ids|
      {
        var id :| id in ids;
        ShutOne(st, View(), ids, id);
        CloseSession(id);
        ids := ids - {id};
      }
      assert sessions == map[];
    }

    ghost function Now(): Place
      reads this, reader
    {
      Place(View(), reader.State())
    }

    /** A frame that does not make the reader lose its place. */
    method HandleSafely(env: Env, ghost fs: seq<Frame>) returns (outcome: Outcome)
      requires AllDecode(config, fs) && reader.Remaining() == EncodeFrames(config, fs)
      requires fs != [] ==> Breaks(fs[0], env) || !LosesAt(config, Now(), fs[0], env.fates)
      modifies this, reader
      ensures outcome == Ended <==> fs == []
      ensures outcome == Broken <==> fs != [] && Breaks(fs[0], env)
      ensures outcome != Handled ==> View() == old(View())
      ensures outcome == Handled ==> Now() == PlaceAfter(config, old(Now()), fs[0], env.fates)
      ensures outcome == Handled ==> reader.Remaining() == EncodeFrames(config, fs[1..])
      ensures outcome == Handled && fs[0].data.Some? && Delivers(old(View()), Received(fs[0].meta, fs[0].udp)) ==>
                Flatten(CutOf(config, old(Now()), fs[0])) == fs[0].data.value
    {
      ghost var st, link := View(), reader.State();
      outcome := HandleFrame(env, fs);
      if outcome == Handled {
        LosesIff(st, Received(fs[0].meta, fs[0].udp), fs[0].data, BehindHeader(config, fs[0], link), env.fates);
        assert [] + EncodeFrames(config, fs[1..]) == EncodeFrames(config, fs[1..]);
      }
    }

    /** One turn of the receive loop. */
    method Turn(envs: seq<Env>, i: nat, ghost start: Place, ghost fs: seq<Frame>, ghost hs: seq<Handling>)
      returns (outcome: Outcome, ghost h: Handling)
      requires EachDecodes(config, fs) && KeepsPlace(config, start, fs, envs) && i == |hs|
      requires Tracking(config, start, fs, envs, hs, Now(), reader.Remaining())
      modifies this, reader
      ensures outcome == Handled ==> |hs| < |fs| && Tracking(config, start, fs, envs, hs + [h], Now(), reader.Remaining())
      ensures outcome != Handled ==> View() == StepsWith(start.st, hs) && (|hs| < |fs| ==> Breaks(fs[|hs|], EnvAt(envs, |hs|)))
    {
      ghost var now, bytes := Now(), reader.Remaining();
      var env := if i < |envs| then envs[i] else WILLING;
      h := Handling(Frame(Meta(0, 0, 0, NoTarget, ZERO_ID), None, None), [], env);
      if |hs| < |fs| {
        h := Handling(fs[|hs|], CutOrWhole(now.st, fs[|hs|], BehindHeader(config, fs[|hs|], now.link)), env);
        if !Breaks(fs[|hs|], env) {
          HandledUnbroken(hs, fs, envs);
        }
      }
      assert |hs| < |fs| ==> fs[|hs|..][0] == fs[|hs|] && fs[|hs|..][1..] == fs[|hs| + 1..];
      outcome := HandleSafely(env, fs[|hs|..]);
      if outcome == Handled {
        TurnKeeps(config, start, now, bytes, fs, envs, hs, h);
      }
    }

    /** The receive loop over a link that carries these frames, while frame i is answered by envs[i] and the reader keeps
        its place. It ends with the link or with the first session that is not let in, and then every session is closed. */
    method Run(envs: seq<Env>, ghost fs: seq<Frame>) returns (ghost hs: seq<Handling>)
      requires AllDecode(config, fs) && reader.Remaining() == EncodeFrames(config, fs)
      requires EachDecodes(config, fs) && KeepsPlace(config, Now(), fs, envs)
      modifies this, reader
      ensures Handles(hs, fs, envs) && (|hs| < |fs| ==> Breaks(fs[|hs|], EnvAt(envs, |hs|)))
      ensures ShutDown(StepsWith(old(View()), hs), View())
    {
      hs := [];
      ghost var start := Now();
      assert fs[0..] == fs;
      var i := 0;
      while true
        invariant i == |hs| && Tracking(config, start, fs, envs, hs, Now(), reader.Remaining())
        decreases |fs| - |hs|
      {
        var outcome;
        ghost var h;
        outcome, h := Turn(envs, i, start, fs, hs);
        if outcome != Handled {
          CloseAll();
          return;
        }
        hs, i := hs + [h], i + 1;
      }
    }
  }
}
