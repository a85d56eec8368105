/** What the frames on a mux link mean: the sessions they open, feed and close, and where they leave the reader. */
module MuxState {
  import opened Bytes
  import opened Segments
  import opened Address
  import opened MuxFrame
  import opened MuxCopy

  /** A whole frame: header, the UDP destination attached to it, payload. */
  datatype Frame = Frame(meta: Meta, udp: Option<AddrPort>, data: Option<seq<byte>>)

  function EncodeData(data: Option<seq<byte>>): seq<byte>
    requires data.Some? ==> |data.value| <= SIZE
  {
    if data.Some? then U16(|data.value|) + data.value else []
  }

  /** A frame that a Writer produces and that decodes to what was written. */
  ghost predicate Decodes(c: Config, f: Frame)
  {
    && Writable(c, f.meta, f.udp)
    && (f.data.Some? <==> f.meta.HasData())
    && (f.data.Some? ==> |f.data.value| <= SIZE)
    && STATUS_NEW <= f.meta.status <= STATUS_KEEP_ALIVE
    && Received(f.meta, f.udp).globalID == ZERO_ID
    && EncodeMeta(c, f.meta, f.udp).Some?
    && 4 <= |EncodeMeta(c, f.meta, f.udp).value| <= 272
    && ParseMeta(c, EncodeMeta(c, f.meta, f.udp).value).Ok?
    && ParseMeta(c, EncodeMeta(c, f.meta, f.udp).value).value == Received(f.meta, f.udp)
  }

  function EncodeFrame(c: Config, f: Frame): seq<byte>
    requires Decodes(c, f)
  {
    var body := EncodeMeta(c, f.meta, f.udp).value;
    U16(|body|) + (body + EncodeData(f.data))
  }

  /** Every frame of a list decodes. */
  ghost predicate AllDecode(c: Config, fs: seq<Frame>)
  {
    fs != [] ==> Decodes(c, fs[0]) && AllDecode(c, fs[1..])
  }

  function EncodeFrames(c: Config, fs: seq<Frame>): seq<byte>
    requires AllDecode(c, fs)
  {
    if fs == [] then [] else EncodeFrame(c, fs[0]) + EncodeFrames(c, fs[1..])
  }

  /** The bytes of these frames, if every one of them decodes. */
  ghost function Carried(c: Config, fs: seq<Frame>): Option<seq<byte>>
  {
    if AllDecode(c, fs) then Some(EncodeFrames(c, fs)) else None
  }

  // ---- What a frame means ----

  /** What a session sees: its opening, payloads, its closing; or the answer that it is not known. */
  datatype Event = Opened(target: Target) | Payload(data: seq<byte>, dest: Target) | Closed | Rejected

  /** Live sessions with their transfer type, and what each session has seen. */
  datatype Muxed = Muxed(sessions: map<nat, bool>, log: map<nat, seq<Event>>)

  function LogOf(st: Muxed, id: nat): seq<Event>
  {
    if id in st.log then st.log[id] else []
  }

  function Record(st: Muxed, id: nat, e: seq<Event>): Muxed
  {
    if e == [] then st else st.(log := st.log[id := LogOf(st, id) + e])
  }

  function CloseIn(st: Muxed, id: nat): Muxed
  {
    Record(st.(sessions := st.sessions - {id}), id, [Closed])
  }

  predicate IsStream(dest: Target)
  {
    !(dest.Dest? && dest.network.UDP?)
  }

  function OpenIn(st: Muxed, m: Meta): Muxed
  {
    Record(st.(sessions := st.sessions[m.session := IsStream(m.target)]), m.session, [Opened(m.target)])
  }

  /** A payload reaches the session unless it is empty; packets carry the destination of their frame. */
  function Arrival(stream: bool, m: Meta, data: seq<byte>): seq<Event>
  {
    if data == [] then [] else [Payload(data, if !stream && !IsStream(m.target) then m.target else NoTarget)]
  }

  /** A payload in pieces for a live session: what it accepts reaches it, and a refusal other than io.EOF closes it. */
  function DeliverTo(st: Muxed, stream: bool, m: Meta, cut: Segs, fates: seq<Verdict>): Muxed
  {
    var end := EndOf(fates, cut);
    var taken := Record(st, m.session, Arrival(stream, m, end.delivered));
    if end.result == Stopped then CloseIn(taken, m.session) else taken
  }

  /** The payload of this frame goes to a session. */
  predicate Delivers(st: Muxed, m: Meta)
  {
    m.status == STATUS_NEW || (m.status == STATUS_KEEP && m.session in st.sessions)
  }

  function StreamOf(st: Muxed, m: Meta): bool
    requires Delivers(st, m)
  {
    if m.status == STATUS_NEW then IsStream(m.target) else st.sessions[m.session]
  }

  /** One frame, its payload in these pieces and the sessions' outputs answering like this. */
  function StepWith(st: Muxed, m: Meta, data: Option<seq<byte>>, cut: Segs, fates: seq<Verdict>): Muxed
  {
    var id := m.session;
    if m.status == STATUS_NEW then
      if data.Some? then DeliverTo(OpenIn(st, m), IsStream(m.target), m, cut, fates) else OpenIn(st, m)
    else if m.status == STATUS_KEEP then
      if data.None? then st
      else if id in st.sessions then DeliverTo(st, st.sessions[id], m, cut, fates)
      else Record(st, id, [Rejected])
    else if m.status == STATUS_END && id in st.sessions then CloseIn(st, id)
    else st
  }

  /** What is left of the payload on the link, in front of the next frame. */
  function LostOf(st: Muxed, m: Meta, cut: Segs, fates: seq<Verdict>): seq<byte>
  {
    if Delivers(st, m) && EndOf(fates, cut).result == StoppedQuietly then EndOf(fates, cut).unread else []
  }

  /** One frame with outputs that accept everything. */
  function Step(st: Muxed, m: Meta, data: Option<seq<byte>>): Muxed
  {
    var id := m.session;
    if m.status == STATUS_NEW then
      if data.Some? then Record(OpenIn(st, m), id, Arrival(IsStream(m.target), m, data.value)) else OpenIn(st, m)
    else if m.status == STATUS_KEEP then
      if data.None? then st
      else Record(st, id, if id in st.sessions then Arrival(st.sessions[id], m, data.value) else [Rejected])
    else if m.status == STATUS_END && id in st.sessions then CloseIn(st, id)
    else st
  }

  function StepFrame(st: Muxed, f: Frame): Muxed
  {
    Step(st, Received(f.meta, f.udp), f.data)
  }

  function StepAll(st: Muxed, fs: seq<Frame>): Muxed
    decreases |fs|
  {
    if fs == [] then st else StepAll(StepFrame(st, fs[0]), fs[1..])
  }

  /** If every piece is accepted, the pieces do not matter. */
  lemma {:induction false} AllAccepted(st: Muxed, m: Meta, data: Option<seq<byte>>, cut: Segs, fates: seq<Verdict>)
    requires AcceptedOf(fates, |cut|) == |cut| && (data.Some? && Delivers(st, m) ==> Flatten(cut) == data.value)
    ensures StepWith(st, m, data, cut, fates) == Step(st, m, data) && LostOf(st, m, cut, fates) == []
  {
  }

  // ---- Where the payload is cut ----

  /** The writes that a payload makes, starting from the reader in front of its size. */
  function CutAt(stream: bool, link: Link, data: seq<byte>): Segs
  {
    if stream then Cuts(Skip(link, 2), |data|) else if data == [] then [] else [data]
  }

  function CutFor(st: Muxed, m: Meta, data: Option<seq<byte>>, link: Link): Segs
  {
    if data.Some? && Delivers(st, m) then CutAt(StreamOf(st, m), link, data.value) else []
  }

  /** The reader behind a payload, if all of it is taken. */
  function BehindPayload(st: Muxed, m: Meta, data: Option<seq<byte>>, link: Link): Link
  {
    if data.None? then link
    else if Delivers(st, m) && !StreamOf(st, m) then Skip(Skip(link, 2), |data.value|)
    else AfterCuts(Skip(link, 2), |data.value|)
  }

  /** The reader behind the header of a frame. */
  ghost function BehindHeader(c: Config, f: Frame, link: Link): Link
    requires Decodes(c, f)
  {
    Skip(Skip(link, 2), |EncodeMeta(c, f.meta, f.udp).value|)
  }

  /** The reader at the next frame. */
  ghost function LinkAfter(c: Config, st: Muxed, f: Frame, link: Link): Link
    requires Decodes(c, f)
  {
    BehindPayload(st, Received(f.meta, f.udp), f.data, BehindHeader(c, f, link))
  }

  // ---- What the outside decides ----

  datatype Admission = Admitted | WrongNetwork | NotDispatched

  /** Whether a new session is let in, and how the outputs answer, while one frame is handled. */
  datatype Env = Env(admission: Admission, fates: seq<Verdict>)

  const WILLING := Env(Admitted, [])

  datatype Outcome = Handled | Ended | Broken

  /** The frame asks for a session that is not let in. */
  predicate Breaks(f: Frame, env: Env)
  {
    Received(f.meta, f.udp).status == STATUS_NEW && env.admission != Admitted
  }

  lemma {:induction false} CopyAccepted(fates: seq<Verdict>, pieces: Segs)
    requires fates == []
    ensures EndOf(fates, pieces) == CopyEnd(Copied, Flatten(pieces), [])
  {
    AcceptedUnique(fates, |pieces|, |pieces|);
  }

  lemma {:induction false} FirstRefused(fates: seq<Verdict>, pieces: Segs)
    ensures fates != [] && fates[0] == Refused && Flatten(pieces) != [] ==>
      EndOf(fates, pieces).result == Stopped && EndOf(fates, pieces).delivered == []
  {
    if fates != [] && fates[0] == Refused && Flatten(pieces) != [] {
      AcceptedUnique(fates, |pieces|, 0);
      assert pieces[..0] == [];
    }
  }

  lemma {:induction false} NothingCut(fates: seq<Verdict>)
    ensures EndOf(fates, []) == CopyEnd(Copied, [], [])
  {
  }

  lemma {:induction false} PacketEnd(fates: seq<Verdict>, data: seq<byte>)
    ensures var end := EndOf(fates, if data == [] then [] else [data]);
            && end.unread == []
            && end.delivered == (if VerdictAt(fates, 0) == Accepted then data else [])
            && (end.result == Stopped <==> data != [] && VerdictAt(fates, 0) == Refused)
  {
    FlattenOne(data);
    assert AcceptedOf(fates, 0) == 0;
    assert [data][..0] == [] && [data][1..] == [];
  }

  lemma {:induction false} HeaderFirst(body: seq<byte>, data: seq<byte>, rest: seq<byte>)
    requires |body| < 65536
    ensures U16(|body|) + (body + data) + rest == U16(|body|) + (body + (data + rest))
  {
    Assoc(U16(|body|), body + data, rest);
    Assoc(body, data, rest);
  }

  lemma {:induction false} FrameLength(c: Config, fs: seq<Frame>)
    requires AllDecode(c, fs)
    ensures fs != [] ==> |EncodeFrames(c, fs)| >= 2
  {
    if fs != [] {
      assert |EncodeFrame(c, fs[0])| >= 2;
    }
  }

  // ---- When the reader loses its place ----

  /** A session refuses a piece of the payload with io.EOF, and it is not the last one. */
  predicate StopsShort(st: Muxed, m: Meta, cut: Segs, fates: seq<Verdict>)
  {
    var k := AcceptedOf(fates, |cut|);
    Delivers(st, m) && k + 1 < |cut| && VerdictAt(fates, k) == RefusedEOF
  }

  lemma {:induction false} FlattenSome(pieces: Segs)
    requires pieces != [] && pieces[0] != []
    ensures Flatten(pieces) != []
  {
  }

  /** Part of a payload is left in front of the next frame if and only if a piece of it before the last one is refused with
      io.EOF. */
  lemma {:induction false} LosesIff(st: Muxed, m: Meta, data: Option<seq<byte>>, link: Link, fates: seq<Verdict>)
    ensures var cut := CutFor(st, m, data, link);
            LostOf(st, m, cut, fates) != [] <==> StopsShort(st, m, cut, fates)
  {
    var cut := CutFor(st, m, data, link);
    var k := AcceptedOf(fates, |cut|);
    if data.Some? && Delivers(st, m) && StreamOf(st, m) {
      CutsNonEmpty(Skip(link, 2), |data.value|);
    }
    if k + 1 < |cut| {
      assert cut[k + 1..][0] == cut[k + 1];
      FlattenSome(cut[k + 1..]);
    } else if k < |cut| {
      assert cut[k + 1..] == [];
    }
  }

  /** For every frame with at least two bytes of payload for a stream there is a segmentation of the link, and one answer of
      the session, after which the rest of the payload stands where the next frame should. */
  lemma {:induction false} QuietRefusalLoses(c: Config, f: Frame, st: Muxed, next: seq<Segs>)
    requires Decodes(c, f) && f.data.Some? && |f.data.value| >= 2
    requires Delivers(st, Received(f.meta, f.udp)) && StreamOf(st, Received(f.meta, f.udp))
    ensures var m, link := Received(f.meta, f.udp), SplitLink(c, f, next);
            var cut := CutFor(st, m, f.data, BehindHeader(c, f, link));
            && LinkBytes(link) == EncodeFrame(c, f) + Upcoming(next)
            && LostOf(st, m, cut, [RefusedEOF]) == f.data.value[1..] != []
  {
    var d, body := f.data.value, EncodeMeta(c, f.meta, f.udp).value;
    var link := SplitLink(c, f, next);
    SplitLinkBytes(c, f, next);
    SkipFront(U16(|body|), body + (U16(|d|) + d[..1]), [[d[1..]]] + next);
    SkipFront(body, U16(|d|) + d[..1], [[d[1..]]] + next);
    SkipFront(U16(|d|), d[..1], [[d[1..]]] + next);
    CutsOfTwo(d, next);
  }

  /** The frame up to the first byte of its payload, then the rest of it, then the following frames. */
  ghost function SplitLink(c: Config, f: Frame, next: seq<Segs>): Link
    requires Decodes(c, f) && f.data.Some? && |f.data.value| >= 2
  {
    var d, body := f.data.value, EncodeMeta(c, f.meta, f.udp).value;
    Link([U16(|body|) + (body + (U16(|d|) + d[..1]))], [[d[1..]]] + next)
  }

  lemma {:induction false} SplitLinkBytes(c: Config, f: Frame, next: seq<Segs>)
    requires Decodes(c, f) && f.data.Some? && |f.data.value| >= 2
    ensures LinkBytes(SplitLink(c, f, next)) == EncodeFrame(c, f) + Upcoming(next)
  {
    var d, body := f.data.value, EncodeMeta(c, f.meta, f.udp).value;
    var front := U16(|body|) + (body + (U16(|d|) + d[..1]));
    FlattenOne(front);
    FlattenOne(d[1..]);
    assert ([[d[1..]]] + next)[1..] == next;
    assert d == d[..1] + d[1..];
    assert front + d[1..] == EncodeFrame(c, f);
    Assoc(front, d[1..], Upcoming(next));
  }

  /** Reading the front of a single buffer. */
  lemma {:induction false} SkipFront(a: seq<byte>, b: seq<byte>, source: seq<Segs>)
    requires b != []
    ensures Skip(Link([a + b], source), |a|) == Link([b], source)
  {
    var l := Link([a + b], source);
    FlattenOne(a + b);
    if a == [] {
      assert a + b == b;
    } else {
      var s := SplitBytes(l.buffer, |a|);
      assert (a + b)[|a|..] == b && (a + b)[..|a|] == a;
      assert [b] + [] == [b] && l.buffer[1..] == [];
      FlattenOne(b);
      FlattenOne(a);
    }
  }

  /** A payload in two buffers is written in two pieces. */
  lemma {:induction false} CutsOfTwo(d: seq<byte>, next: seq<Segs>)
    requires |d| >= 2
    ensures Cuts(Link([d[..1]], [[d[1..]]] + next), |d|) == [d[..1], d[1..]]
    ensures EndOf([RefusedEOF], [d[..1], d[1..]]) == CopyEnd(StoppedQuietly, [], d[1..])
  {
    var one, two := Link([d[..1]], [[d[1..]]] + next), Link([], [[d[1..]]] + next);
    OneCut(d[..1], two.source, |d|);
    assert two.source[0] == [d[1..]] && two.source[1..] == next;
    FlattenOne(d[..1]);
    FlattenOne(d[1..]);
    OneCutFromSource(d[1..], next);
    assert NextRead(one, |d|) == Fetched([d[..1]], two) && Flatten([d[..1]]) == d[..1];
    assert Cuts(one, |d|) == [d[..1]] + Cuts(two, |d| - 1);
    AcceptedUnique([RefusedEOF], 2, 0);
    assert [d[..1], d[1..]][..0] == [] && [d[..1], d[1..]][1..] == [d[1..]];
  }

  /** A single buffer that fits is read whole. */
  lemma {:induction false} OneCut(a: seq<byte>, source: seq<Segs>, n: nat)
    requires a != [] && |a| <= n
    ensures NextRead(Link([a], source), n) == Fetched([a], Link([], source))
  {
    FlattenOne(a);
    assert [a][1..] == [];
    assert TakeWhole([], n - |a|) == SizeSplit([], []);
    assert [a] + [] == [a];
  }

  lemma {:induction false} OneCutFromSource(a: seq<byte>, next: seq<Segs>)
    requires a != []
    ensures Cuts(Link([], [[a]] + next), |a|) == [a]
  {
    var l := Link([], [[a]] + next);
    assert l.source[0] == [a] && l.source[1..] == next;
    OneCut(a, next, |a|);
    FlattenOne(a);
    assert NextRead(l, |a|) == Fetched([a], Link([], next));
    assert Cuts(Link([], next), 0) == [] && [a] + [] == [a];
  }

  // ---- A run ----

  /** A frame with the pieces its payload came in and the answers it got. */
  datatype Handling = Handling(frame: Frame, cut: Segs, env: Env)

  function EnvAt(envs: seq<Env>, i: nat): Env
  {
    if i < |envs| then envs[i] else WILLING
  }

  function StepHandling(st: Muxed, h: Handling): Muxed
  {
    StepWith(st, Received(h.frame.meta, h.frame.udp), h.frame.data, h.cut, h.env.fates)
  }

  function StepsWith(st: Muxed, hs: seq<Handling>): Muxed
    decreases |hs|
  {
    if hs == [] then st else StepsWith(StepHandling(st, hs[0]), hs[1..])
  }

  ghost predicate WellCut(h: Handling)
  {
    h.frame.data.Some? ==> Flatten(h.cut) == h.frame.data.value
  }

  /** These are the first frames, with their answers, none of them ending the run. */
  ghost predicate Handles(hs: seq<Handling>, fs: seq<Frame>, envs: seq<Env>)
  {
    && |hs| <= |fs|
    && forall i :: 0 <= i < |hs| ==> hs[i].frame == fs[i] && hs[i].env == EnvAt(envs, i) && WellCut(hs[i]) && !Breaks(fs[i], hs[i].env)
  }

  lemma {:induction false} HandlesMore(hs: seq<Handling>, fs: seq<Frame>, envs: seq<Env>, h: Handling)
    requires Handles(hs, fs, envs) && |hs| < |fs| && h.frame == fs[|hs|] && h.env == EnvAt(envs, |hs|)
    requires WellCut(h) && !Breaks(h.frame, h.env)
    ensures Handles(hs + [h], fs, envs) && fs[|hs|..][0] == fs[|hs|] && fs[|hs|..][1..] == fs[|hs| + 1..]
  {
  }

  ghost predicate EachDecodes(c: Config, fs: seq<Frame>)
  {
    forall i :: 0 <= i < |fs| ==> Decodes(c, fs[i])
  }

  lemma {:induction false} EachDecodesIff(c: Config, fs: seq<Frame>)
    ensures AllDecode(c, fs) <==> EachDecodes(c, fs)
    decreases |fs|
  {
    if fs != [] {
      EachDecodesIff(c, fs[1..]);
      assert EachDecodes(c, fs[1..]) ==> forall i :: 0 < i < |fs| ==> fs[i] == fs[1..][i - 1] && Decodes(c, fs[1..][i - 1]);
    }
  }

  /** The worker and its reader between two frames. */
  datatype Place = Place(st: Muxed, link: Link)

  /** The pieces of a frame's payload. */
  ghost function CutOf(c: Config, p: Place, f: Frame): Segs
    requires Decodes(c, f)
  {
    CutFor(p.st, Received(f.meta, f.udp), f.data, BehindHeader(c, f, p.link))
  }

  ghost function PlaceAfter(c: Config, p: Place, f: Frame, fates: seq<Verdict>): Place
    requires Decodes(c, f)
  {
    Place(StepWith(p.st, Received(f.meta, f.udp), f.data, CutOf(c, p, f), fates), LinkAfter(c, p.st, f, p.link))
  }

  /** After i frames, each of them taken off the link. */
  ghost function PlaceAt(c: Config, p: Place, fs: seq<Frame>, envs: seq<Env>, i: nat): Place
    requires EachDecodes(c, fs) && i <= |fs|
  {
    if i == 0 then p else PlaceAfter(c, PlaceAt(c, p, fs, envs, i - 1), fs[i - 1], EnvAt(envs, i - 1).fates)
  }

  /** The first n sessions are let in. */
  ghost predicate Unbroken(fs: seq<Frame>, envs: seq<Env>, n: nat)
  {
    forall j :: 0 <= j < n && j < |fs| ==> !Breaks(fs[j], EnvAt(envs, j))
  }

  ghost predicate LosesAt(c: Config, p: Place, f: Frame, fates: seq<Verdict>)
    requires Decodes(c, f)
  {
    StopsShort(p.st, Received(f.meta, f.udp), CutOf(c, p, f), fates)
  }

  /** In a run from here no frame makes the reader lose its place: until a session is not let in, none refuses a piece of its
      payload before the last one with io.EOF. */
  ghost predicate KeepsPlace(c: Config, p: Place, fs: seq<Frame>, envs: seq<Env>)
    requires EachDecodes(c, fs)
  {
    forall i :: 0 <= i < |fs| && Unbroken(fs, envs, i + 1) ==> !LosesAt(c, PlaceAt(c, p, fs, envs, i), fs[i], EnvAt(envs, i).fates)
  }

  /** No output answers with io.EOF. */
  ghost predicate NeverQuiet(envs: seq<Env>)
  {
    forall i :: 0 <= i < |envs| ==> RefusedEOF !in envs[i].fates
  }

  lemma {:induction false} NeverStops(st: Muxed, m: Meta, cut: Segs, fates: seq<Verdict>)
    requires RefusedEOF !in fates
    ensures !StopsShort(st, m, cut, fates)
  {
  }

  /** Then no segmentation can make the reader lose its place. */
  lemma {:induction false} NeverQuietKeepsPlace(c: Config, p: Place, fs: seq<Frame>, envs: seq<Env>)
    requires EachDecodes(c, fs) && NeverQuiet(envs)
    ensures KeepsPlace(c, p, fs, envs)
  {
    forall i | 0 <= i < |fs| && Unbroken(fs, envs, i + 1)
      ensures !LosesAt(c, PlaceAt(c, p, fs, envs, i), fs[i], EnvAt(envs, i).fates)
    {
      var q, f := PlaceAt(c, p, fs, envs, i), fs[i];
      NeverStops(q.st, Received(f.meta, f.udp), CutOf(c, q, f), EnvAt(envs, i).fates);
    }
  }

  /** The pieces of a payload that goes to a session; where it does not, they do not matter. */
  ghost function CutOrWhole(st: Muxed, f: Frame, link: Link): Segs
  {
    if f.data.None? then []
    else if Delivers(st, Received(f.meta, f.udp)) then CutFor(st, Received(f.meta, f.udp), f.data, link)
    else [f.data.value]
  }

  lemma {:induction false} StepsSnoc(st: Muxed, hs: seq<Handling>, h: Handling)
    ensures StepsWith(st, hs + [h]) == StepHandling(StepsWith(st, hs), h)
    decreases |hs|
  {
    if hs == [] {
      assert hs + [h] == [h] && [h][1..] == [];
    } else {
      assert (hs + [h])[0] == hs[0] && (hs + [h])[1..] == hs[1..] + [h];
      StepsSnoc(StepHandling(st, hs[0]), hs[1..], h);
    }
  }

  /** One handled frame, as a step of the run. */
  lemma {:induction false} HandledOne(start: Muxed, st: Muxed, hs: seq<Handling>, h: Handling, link: Link)
    requires st == StepsWith(start, hs) && h.cut == CutOrWhole(st, h.frame, link)
    requires var m := Received(h.frame.meta, h.frame.udp);
             h.frame.data.Some? && Delivers(st, m) ==> Flatten(CutFor(st, m, h.frame.data, link)) == h.frame.data.value
    ensures var m := Received(h.frame.meta, h.frame.udp);
            StepsWith(start, hs + [h]) == StepWith(st, m, h.frame.data, CutFor(st, m, h.frame.data, link), h.env.fates) && WellCut(h)
  {
    StepsSnoc(start, hs, h);
    if h.frame.data.Some? {
      FlattenOne(h.frame.data.value);
    }
  }

  /** After these frames have been handled the rest of them is on the link. */
  ghost predicate Tracking(c: Config, start: Place, fs: seq<Frame>, envs: seq<Env>, hs: seq<Handling>, now: Place, bytes: seq<byte>)
    requires EachDecodes(c, fs)
  {
    && Handles(hs, fs, envs) && now.st == StepsWith(start.st, hs) && now == PlaceAt(c, start, fs, envs, |hs|)
    && AllDecode(c, fs[|hs|..]) && bytes == EncodeFrames(c, fs[|hs|..])
  }

  lemma {:induction false} HandledUnbroken(hs: seq<Handling>, fs: seq<Frame>, envs: seq<Env>)
    requires Handles(hs, fs, envs) && |hs| < |fs| && !Breaks(fs[|hs|], EnvAt(envs, |hs|))
    ensures Unbroken(fs, envs, |hs| + 1)
  {
    assert forall j :: 0 <= j < |hs| ==> hs[j].frame == fs[j] && !Breaks(fs[j], hs[j].env);
  }

  /** One more frame handled. */
  lemma {:induction false} TurnKeeps(c: Config, start: Place, now: Place, bytes: seq<byte>, fs: seq<Frame>, envs: seq<Env>, hs: seq<Handling>, h: Handling)
    requires EachDecodes(c, fs) && Tracking(c, start, fs, envs, hs, now, bytes) && |hs| < |fs|
    requires h.frame == fs[|hs|] && h.env == EnvAt(envs, |hs|) && !Breaks(h.frame, h.env)
    requires h.cut == CutOrWhole(now.st, h.frame, BehindHeader(c, fs[|hs|], now.link))
    requires h.frame.data.Some? && Delivers(now.st, Received(h.frame.meta, h.frame.udp)) ==> Flatten(CutOf(c, now, fs[|hs|])) == h.frame.data.value
    ensures AllDecode(c, fs[|hs| + 1..])
    ensures Tracking(c, start, fs, envs, hs + [h], PlaceAfter(c, now, fs[|hs|], h.env.fates), EncodeFrames(c, fs[|hs| + 1..]))
  {
    HandlesMore(hs, fs, envs, h);
    HandledOne(start.st, now.st, hs, h, BehindHeader(c, fs[|hs|], now.link));
    NextPlace(c, start, fs, envs, |hs|);
    DecodesOn(c, fs, |hs|);
    assert |hs + [h]| == |hs| + 1;
  }

  lemma {:induction false} NextPlace(c: Config, p: Place, fs: seq<Frame>, envs: seq<Env>, i: nat)
    requires EachDecodes(c, fs) && i < |fs|
    ensures PlaceAt(c, p, fs, envs, i + 1) == PlaceAfter(c, PlaceAt(c, p, fs, envs, i), fs[i], EnvAt(envs, i).fates)
  {
  }

  lemma {:induction false} DecodesOn(c: Config, fs: seq<Frame>, i: nat)
    requires i < |fs| && AllDecode(c, fs[i..])
    ensures AllDecode(c, fs[i + 1..])
  {
    assert fs[i..][1..] == fs[i + 1..];
  }

  // ---- The end of a run ----

  /** All but these sessions have been closed. */
  ghost predicate PartlyShut(st: Muxed, now: Muxed, ids: set<nat>)
  {
    && now.sessions.Keys == ids && ids <= st.sessions.Keys
    && forall id :: LogOf(now, id) == LogOf(st, id) + (if id in st.sessions && id !in ids then [Closed] else [])
  }

  /** Every session that was still live has been closed, and nothing else has happened. */
  ghost predicate ShutDown(st: Muxed, now: Muxed)
  {
    now.sessions == map[] && forall id :: LogOf(now, id) == LogOf(st, id) + (if id in st.sessions then [Closed] else [])
  }

  lemma {:induction false} ShutOne(st: Muxed, now: Muxed, ids: set<nat>, id: nat)
    requires PartlyShut(st, now, ids) && id in ids
    ensures PartlyShut(st, CloseIn(now, id), ids - {id})
  {
    assert LogOf(now, id) == LogOf(st, id) + [] == LogOf(st, id);
  }
}
