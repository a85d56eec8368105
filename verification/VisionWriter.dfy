/** The writing side of Vision: reshaping, padding and the order of blocks over every run. */
module VisionWriter {
  import opened Bytes
  import opened VisionParser
  import opened VisionRoundTrip

  const APPLICATION_DATA: seq<byte> := [0x17, 0x03, 0x03]
  const MAX_CONTENT := SIZE - OVERHEAD

  /** A *buf.Buffer, which may be nil. */
  datatype Slot = NilBuffer | Buffer(bytes: seq<byte>) {
    function Data(): seq<byte> {
      if NilBuffer? then [] else bytes
    }
  }

  /** What the TLS filter has set at the moment one buffer is looked at: anything. */
  datatype Flags = Flags(isTLS: bool, enableXtls: bool, isTLS12orAbove: bool, packetsToFilter: int)

  type Pooled = s: seq<byte> | |s| == SIZE witness seq(SIZE, _ => 0)

  /** The environment of one buffer: the filter's flags, a random number, a recycled byte array. */
  datatype Draw = Draw(flags: Flags, roll: nat, pool: Pooled)

  function DataOf(mb: seq<Slot>): seq<byte>
  {
    if mb == [] then [] else mb[0].Data() + DataOf(mb[1..])
  }

  lemma {:induction false} DataOfConcat(a: seq<Slot>, b: seq<Slot>)
    ensures DataOf(a + b) == DataOf(a) + DataOf(b)
  {
    if a == [] {
      assert a + b == b;
    } else {
      DataOfConcat(a[1..], b);
      assert (a + b)[1..] == a[1..] + b;
      Assoc(a[0].Data(), DataOf(a[1..]), DataOf(b));
    }
  }

  ghost predicate AtMost(mb: seq<Slot>, n: int)
  {
    forall i :: 0 <= i < |mb| ==> |mb[i].Data()| <= n
  }

  // ---- Reshaping ----

  predicate Occurs(s: seq<byte>, pattern: seq<byte>, k: int)
  {
    0 <= k && k + |pattern| <= |s| && s[k..k + |pattern|] == pattern
  }

  /** bytes.LastIndex, searching down from position i. */
  function LastIndexFrom(s: seq<byte>, pattern: seq<byte>, i: int): (r: int)
    requires i + |pattern| <= |s|
    ensures -1 <= r
    ensures r >= 0 ==> r <= i && Occurs(s, pattern, r)
    ensures forall k :: r < k <= i ==> !Occurs(s, pattern, k)
    decreases i + 1
  {
    if i < 0 then -1
    else if Occurs(s, pattern, i) then i
    else LastIndexFrom(s, pattern, i - 1)
  }

  /** The last place where a TLS record of application data starts. */
  ghost predicate LastRecord(data: seq<byte>, k: int)
  {
    Occurs(data, APPLICATION_DATA, k) && forall j :: k < j ==> !Occurs(data, APPLICATION_DATA, j)
  }

  /** In front of the last TLS record if that leaves two paddable pieces, in the middle of a buffer otherwise. */
  function SplitPoint(data: seq<byte>): (r: nat)
    requires MAX_CONTENT <= |data| <= SIZE
    ensures OVERHEAD <= r <= MAX_CONTENT && r <= |data|
    ensures forall k :: LastRecord(data, k) && OVERHEAD <= k <= MAX_CONTENT ==> r == k
    ensures !LastRecord(data, r) ==> r == SIZE / 2
  {
    var index := LastIndexFrom(data, APPLICATION_DATA, |data| - |APPLICATION_DATA|);
    if index < OVERHEAD || index > MAX_CONTENT then SIZE / 2 else index
  }

  /** One buffer, cut in two if it is too long to be padded. */
  function Pieces(b: Slot): (r: seq<Slot>)
    requires |b.Data()| <= SIZE
    ensures 1 <= |r| <= 2 && AtMost(r, MAX_CONTENT)
    ensures |r| == 1 ==> r == [b]
    ensures |r| == 2 <==> |b.Data()| >= MAX_CONTENT
    ensures |r| == 2 ==> r[0].Data() + r[1].Data() == b.Data() && |r[0].Data()| == SplitPoint(b.Data())
  {
    var data := b.Data();
    if |data| >= MAX_CONTENT then [Buffer(data[..SplitPoint(data)]), Buffer(data[SplitPoint(data)..])] else [b]
  }

  function Reshaped(mb: seq<Slot>): seq<Slot>
    requires AtMost(mb, SIZE)
  {
    if mb == [] then [] else Pieces(mb[0]) + Reshaped(mb[1..])
  }

  lemma {:induction false} PiecesKeepData(b: Slot)
    requires |b.Data()| <= SIZE
    ensures DataOf(Pieces(b)) == b.Data()
  {
    var r := Pieces(b);
    if |r| == 1 {
      assert r[1..] == [];
    } else {
      assert r[1..] == [r[1]] && [r[1]][1..] == [];
      assert DataOf(r[1..]) == r[1].Data() + DataOf([]);
    }
  }

  /** Nothing is lost or reordered and every piece leaves room for UUID and header. */
  lemma {:induction false} ReshapedKeepsData(mb: seq<Slot>)
    requires AtMost(mb, SIZE)
    ensures DataOf(Reshaped(mb)) == DataOf(mb)
    ensures AtMost(Reshaped(mb), MAX_CONTENT)
    ensures mb != [] <==> Reshaped(mb) != []
    decreases |mb|
  {
    if mb != [] {
      ReshapedKeepsData(mb[1..]);
      PiecesKeepData(mb[0]);
      DataOfConcat(Pieces(mb[0]), Reshaped(mb[1..]));
    }
  }

  lemma {:induction false} ReshapedUnchanged(mb: seq<Slot>)
    requires AtMost(mb, MAX_CONTENT - 1)
    ensures Reshaped(mb) == mb
    decreases |mb|
  {
    if mb != [] {
      ReshapedUnchanged(mb[1..]);
      assert mb == [mb[0]] + mb[1..];
    }
  }

  lemma {:induction false} ReshapedAt(front: seq<Slot>, mb: seq<Slot>, i: nat)
    requires AtMost(mb, SIZE) && i < |mb|
    ensures front + Reshaped(mb[i..]) == front + Pieces(mb[i]) + Reshaped(mb[i + 1..])
  {
    assert mb[i..][0] == mb[i] && mb[i..][1..] == mb[i + 1..];
    Assoc(front, Pieces(mb[i]), Reshaped(mb[i + 1..]));
  }

  method ReshapeMultiBuffer(buffer: seq<Slot>) returns (mb2: seq<Slot>)
    requires AtMost(buffer, SIZE)
    ensures mb2 == Reshaped(buffer)
  {
    var needReshape := 0;
    for i := 0 to |buffer|
      invariant needReshape >= 0
      invariant needReshape == 0 ==> forall k :: 0 <= k < i ==> |buffer[k].Data()| <= MAX_CONTENT - 1
    {
      if |buffer[i].Data()| >= MAX_CONTENT {
        needReshape := needReshape + 1;
      }
    }
    if needReshape == 0 {
      ReshapedUnchanged(buffer);
      return buffer;
    }
    mb2 := [];
    for i := 0 to |buffer|
      invariant mb2 + Reshaped(buffer[i..]) == Reshaped(buffer)
    {
      var pieces := SplitBuffer(buffer[i]);
      ReshapedAt(mb2, buffer, i);
      mb2 := mb2 + pieces;
    }
    assert buffer[|buffer|..] == [];
  }

  method SplitBuffer(buffer1: Slot) returns (pieces: seq<Slot>)
    requires |buffer1.Data()| <= SIZE
    ensures pieces == Pieces(buffer1)
  {
    var data := buffer1.Data();
    if |data| >= MAX_CONTENT {
      var index := SplitPoint(data);
      var buffer2 := WriteInto([], data[index..]);
      assert buffer2 == data[index..];
      pieces := [Buffer(data[..index]), Buffer(buffer2)];
    } else {
      pieces := [buffer1];
    }
  }

  // ---- Padding ----

  /** Never negative, never more than fits; a long padding hides how short the content is. */
  function PaddingLength(contentLength: nat, longPadding: bool, roll: nat): (n: nat)
    requires contentLength <= MAX_CONTENT
    ensures contentLength + n <= MAX_CONTENT
    ensures longPadding ==> contentLength + n >= 900
    ensures n >= 256 ==> longPadding && contentLength + n < 1400
  {
    var wanted := if contentLength < 900 && longPadding then roll % 500 + 900 - contentLength else roll % 256;
    if wanted > SIZE - OVERHEAD - contentLength then SIZE - OVERHEAD - contentLength else wanted
  }

  /** Command and lengths, high bytes first. */
  function HeaderBytes(command: byte, contentLength: nat, paddingLength: nat): (h: seq<byte>)
    requires contentLength < 65536 && paddingLength < 65536
    ensures |h| == HEADER_LENGTH
  {
    [command, contentLength / 256, contentLength % 256, paddingLength / 256, paddingLength % 256]
  }

  lemma {:induction false} HeaderPrinted(b: Block)
    requires b.Fits()
    ensures HeaderBytes(b.command, |b.content|, |b.padding|) == b.Header()
  {
    var c, p := |b.content|, |b.padding|;
    U16Unique([c / 256, c % 256]);
    U16Unique([p / 256, p % 256]);
    assert U16(c) == [c / 256, c % 256] && U16(p) == [p / 256, p % 256];
  }

  /** What is written piece by piece is the UUID and the block. */
  lemma {:induction false} PrintedBlock(userUUID: seq<byte>, b: Block)
    requires b.Fits()
    ensures userUUID + HeaderBytes(b.command, |b.content|, |b.padding|) + b.content + b.padding == userUUID + b.Encode()
  {
    HeaderPrinted(b);
    Assoc(userUUID, b.Header(), b.content);
    Assoc(userUUID, b.Header() + b.content, b.padding);
  }

  lemma {:induction false} WrittenInOrder(a: seq<byte>, b: seq<byte>, c: seq<byte>)
    requires |a| + |b| + |c| <= SIZE
    ensures WriteInto(WriteInto(WriteInto([], a), b), c) == a + b + c
  {
    assert [] + a == a;
  }

  method XtlsPadding(b: Slot, command: byte, userUUID: seq<byte>, longPadding: bool, draw: Draw)
    returns (newbuffer: seq<byte>, ghost block: Block)
    requires |b.Data()| <= MAX_CONTENT && |userUUID| <= UUID_LENGTH && command <= PADDING_DIRECT
    ensures block.Fits() && block.command == command && block.content == b.Data()
    ensures longPadding ==> |block.content| + |block.padding| >= 900
    ensures newbuffer == userUUID + block.Encode() && |newbuffer| <= SIZE
  {
    var contentLength := |b.Data()|;
    var paddingLength := PaddingLength(contentLength, longPadding, draw.roll);
    var header := HeaderBytes(command, contentLength, paddingLength);
    newbuffer := WriteInto([], userUUID);
    newbuffer := WriteInto(newbuffer, header);
    newbuffer := WriteInto(newbuffer, b.Data());
    WrittenInOrder(userUUID, header, b.Data());
    // Extend exposes whatever the recycled array still holds behind the content.
    var extension := draw.pool[|newbuffer|..|newbuffer| + paddingLength];
    block := Block(command, b.Data(), extension);
    PrintedBlock(userUUID, block);
    newbuffer := newbuffer + extension;
  }

  // ---- One call of the writer ----

  predicate IsApplicationData(f: Flags, data: seq<byte>)
  {
    f.isTLS && |data| >= 6 && data[..3] == APPLICATION_DATA
  }

  predicate FinishesEarly(f: Flags)
  {
    !f.isTLS12orAbove && f.packetsToFilter <= 1
  }

  /** Buffer i ends the padding phase. */
  predicate Ends(bufs: seq<Slot>, env: seq<Draw>, i: nat)
    requires i < |bufs| <= |env|
  {
    IsApplicationData(env[i].flags, bufs[i].Data()) || FinishesEarly(env[i].flags)
  }

  /** Buffer i is the last one to be padded at all. */
  predicate Stops(bufs: seq<Slot>, env: seq<Draw>, i: nat)
    requires i < |bufs| <= |env|
  {
    !IsApplicationData(env[i].flags, bufs[i].Data()) && FinishesEarly(env[i].flags)
  }

  /** Which buffers become blocks, with which command, and whether padding goes on afterwards. */
  ghost predicate PaddedAs(bufs: seq<Slot>, env: seq<Draw>, blocks: seq<Block>, stillPadding: bool)
    requires |bufs| <= |env|
  {
    && |blocks| <= |bufs|
    && (forall i :: 0 <= i < |blocks| ==> blocks[i].Fits() && blocks[i].content == bufs[i].Data())
    && (forall i :: 0 <= i < |blocks| - 1 ==> !Stops(bufs, env, i) && blocks[i].command == PADDING_CONTINUE)
    && (|blocks| < |bufs| ==> blocks != [] && Stops(bufs, env, |blocks| - 1))
    && (stillPadding <==> forall i :: 0 <= i < |blocks| ==> !Ends(bufs, env, i))
    && (blocks != [] ==>
          var last := |blocks| - 1;
          blocks[last].command
          == if stillPadding then PADDING_CONTINUE
             else if env[last].flags.enableXtls && !Stops(bufs, env, last) then PADDING_DIRECT
             else PADDING_END)
    && (forall i :: 0 <= i < |blocks| && IsApplicationData(env[i].flags, bufs[i].Data()) ==>
          |blocks[i].content| + |blocks[i].padding| >= 900)
  }

  /** The buffers handed on for these blocks, the UUID in front of the very first one. */
  function EncodeEach(uuid: seq<byte>, blocks: seq<Block>): (r: seq<seq<byte>>)
    requires AllFit(blocks)
    ensures |r| == |blocks|
    decreases |blocks|
  {
    if blocks == [] then []
    else
      var n := |blocks| - 1;
      EncodeEach(uuid, blocks[..n]) + [(if n == 0 then uuid else []) + blocks[n].Encode()]
  }

  lemma {:induction false} EncodeEachFlat(uuid: seq<byte>, blocks: seq<Block>)
    requires AllFit(blocks)
    ensures Flatten(EncodeEach(uuid, blocks)) == (if blocks == [] then [] else uuid) + EncodeBlocks(blocks)
    decreases |blocks|
  {
    if blocks == [] {
    } else if |blocks| == 1 {
      assert blocks == [blocks[0]] && blocks[..0] == [];
      EncodeOne(blocks[0]);
      FlattenOne(uuid + blocks[0].Encode());
      assert EncodeEach(uuid, blocks) == [] + [uuid + blocks[0].Encode()];
    } else {
      var n := |blocks| - 1;
      var e := blocks[n].Encode();
      EncodeEachFlat(uuid, blocks[..n]);
      EncodeSnoc(blocks[..n], blocks[n]);
      assert blocks[..n] + [blocks[n]] == blocks;
      assert [] + e == e;
      FlattenSnoc(EncodeEach(uuid, blocks[..n]), e);
      Assoc(uuid, EncodeBlocks(blocks[..n]), e);
    }
  }

  lemma {:induction false} EncodeSnoc(a: seq<Block>, b: Block)
    requires AllFit(a) && b.Fits()
    ensures AllFit(a + [b]) && EncodeBlocks(a + [b]) == EncodeBlocks(a) + b.Encode()
  {
    EncodeBlocksConcat(a, [b]);
    EncodeOne(b);
  }

  lemma {:induction false} EncodeOne(b: Block)
    requires b.Fits()
    ensures EncodeBlocks([b]) == b.Encode() && Contents([b]) == b.content
  {
    assert [b][1..] == [];
    assert EncodeBlocks([b]) == b.Encode() + EncodeBlocks([]);
    assert Contents([b]) == b.content + Contents([]);
  }

  lemma {:induction false} EncodeBlocksConcat(a: seq<Block>, b: seq<Block>)
    requires AllFit(a) && AllFit(b)
    ensures AllFit(a + b)
    ensures EncodeBlocks(a + b) == EncodeBlocks(a) + EncodeBlocks(b)
    decreases |a|
  {
    if a == [] {
      assert a + b == b;
    } else {
      EncodeBlocksConcat(a[1..], b);
      assert (a + b)[1..] == a[1..] + b && (a + b)[0] == a[0];
      var head := a[0].Encode();
      Assoc(head, EncodeBlocks(a[1..]), EncodeBlocks(b));
    }
  }

  lemma {:induction false} ContentsConcat(a: seq<Block>, b: seq<Block>)
    ensures Contents(a + b) == Contents(a) + Contents(b)
    decreases |a|
  {
    if a == [] {
      assert a + b == b;
    } else {
      ContentsConcat(a[1..], b);
      assert (a + b)[1..] == a[1..] + b;
      Assoc(a[0].content, Contents(a[1..]), Contents(b));
    }
  }

  /** Some padded buffer was application data of a connection that XTLS may splice. */
  predicate SwitchesToDirect(bufs: seq<Slot>, env: seq<Draw>, n: nat)
    requires n <= |bufs| <= |env|
  {
    n > 0 && (SwitchesToDirect(bufs, env, n - 1)
              || (IsApplicationData(env[n - 1].flags, bufs[n - 1].Data()) && env[n - 1].flags.enableXtls))
  }

  /** Buffer k became this block. */
  ghost predicate Piece(bufs: seq<Slot>, env: seq<Draw>, k: nat, block: Block)
    requires k < |bufs| <= |env|
  {
    && block.Fits() && block.content == bufs[k].Data()
    && (IsApplicationData(env[k].flags, bufs[k].Data()) ==> |block.content| + |block.padding| >= 900)
  }

  /** The command chosen for buffer k, padding being over or not by then. */
  function CommandFor(bufs: seq<Slot>, env: seq<Draw>, k: nat, padding: bool): byte
    requires k < |bufs| <= |env|
  {
    if Stops(bufs, env, k) then PADDING_END
    else if k < |bufs| - 1 || padding then PADDING_CONTINUE
    else if env[k].flags.enableXtls then PADDING_DIRECT
    else PADDING_END
  }

  /** None of the first n buffers ended the padding phase. */
  predicate StillPadding(bufs: seq<Slot>, env: seq<Draw>, n: nat)
    requires n <= |bufs| <= |env|
  {
    n == 0 || (StillPadding(bufs, env, n - 1) && !Ends(bufs, env, n - 1))
  }

  /** None of the first n buffers stopped the loop. */
  predicate NoStop(bufs: seq<Slot>, env: seq<Draw>, n: nat)
    requires n <= |bufs| <= |env|
  {
    n == 0 || (NoStop(bufs, env, n - 1) && !Stops(bufs, env, n - 1))
  }

  /** The state of the padding loop after |blocks| buffers. */
  ghost predicate Progress(bufs: seq<Slot>, env: seq<Draw>, blocks: seq<Block>)
    requires |blocks| <= |bufs| <= |env|
    decreases |blocks|
  {
    blocks != [] ==>
      var n := |blocks| - 1;
      && Piece(bufs, env, n, blocks[n])
      && blocks[n].command == CommandFor(bufs, env, n, StillPadding(bufs, env, n + 1))
      && Progress(bufs, env, blocks[..n])
  }

  /** The byte buffers of the tail that is sent as it is. */
  function RawTail(bufs: seq<Slot>, from: nat): (r: seq<seq<byte>>)
    requires from <= |bufs|
    ensures |r| == |bufs| - from
    ensures forall k :: from <= k < |bufs| ==> r[k - from] == bufs[k].Data()
    decreases |bufs| - from
  {
    if from == |bufs| then [] else [bufs[from].Data()] + RawTail(bufs, from + 1)
  }

  lemma {:induction false} StillPaddingMeans(bufs: seq<Slot>, env: seq<Draw>, n: nat)
    requires n <= |bufs| <= |env|
    ensures StillPadding(bufs, env, n) <==> forall i :: 0 <= i < n ==> !Ends(bufs, env, i)
    ensures NoStop(bufs, env, n) <==> forall i :: 0 <= i < n ==> !Stops(bufs, env, i)
  {
    if n > 0 {
      StillPaddingMeans(bufs, env, n - 1);
    }
  }

  lemma {:induction false} Advance(uuid: seq<byte>, bufs: seq<Slot>, env: seq<Draw>, blocks: seq<Block>, block: Block)
    requires |blocks| < |bufs| <= |env| && AllFit(blocks) && Progress(bufs, env, blocks)
    requires Piece(bufs, env, |blocks|, block)
    requires block.command == CommandFor(bufs, env, |blocks|, StillPadding(bufs, env, |blocks| + 1))
    ensures AllFit(blocks + [block]) && Progress(bufs, env, blocks + [block])
    ensures EncodeEach(uuid, blocks + [block])
         == EncodeEach(uuid, blocks) + [(if blocks == [] then uuid else []) + block.Encode()]
  {
    assert (blocks + [block])[..|blocks|] == blocks;
  }

  lemma {:induction false} ProgressMeans(bufs: seq<Slot>, env: seq<Draw>, blocks: seq<Block>)
    requires |blocks| <= |bufs| <= |env|
    requires Progress(bufs, env, blocks)
    ensures forall k :: 0 <= k < |blocks| ==> Piece(bufs, env, k, blocks[k])
    ensures forall k :: 0 <= k < |blocks| ==> blocks[k].command == CommandFor(bufs, env, k, StillPadding(bufs, env, k + 1))
    decreases |blocks|
  {
    if blocks != [] {
      var n := |blocks| - 1;
      ProgressMeans(bufs, env, blocks[..n]);
    }
  }

  /** What the loop has decided, spelled out. */
  lemma {:induction false} LoopPads(bufs: seq<Slot>, env: seq<Draw>, blocks: seq<Block>)
    requires |blocks| <= |bufs| <= |env|
    requires Progress(bufs, env, blocks) && NoStop(bufs, env, Max(0, |blocks| - 1))
    requires |blocks| < |bufs| ==> blocks != [] && Stops(bufs, env, |blocks| - 1)
    ensures PaddedAs(bufs, env, blocks, StillPadding(bufs, env, |blocks|))
  {
    ProgressMeans(bufs, env, blocks);
    StillPaddingMeans(bufs, env, |blocks|);
    StillPaddingMeans(bufs, env, Max(0, |blocks| - 1));
  }

  class VisionWriter {
    var writeOnceUserUUID: seq<byte>
    var isPadding: bool
    var directCopy: bool

    constructor (userUUID: seq<byte>)
      requires |userUUID| == UUID_LENGTH
      ensures writeOnceUserUUID == userUUID && isPadding && !directCopy
    {
      writeOnceUserUUID, isPadding, directCopy := userUUID, true, false;
    }

    /** One turn of the padding loop. */
    method PadOne(bufs: seq<Slot>, env: seq<Draw>, i: nat, longPadding: bool)
      returns (sent: seq<byte>, ghost block: Block, stop: bool, long: bool)
      requires i < |bufs| && |writeOnceUserUUID| <= UUID_LENGTH && AtMost(bufs, MAX_CONTENT) && |bufs| <= |env|
      requires i > 0 ==> writeOnceUserUUID == []
      modifies this
      ensures isPadding == (old(isPadding) && !Ends(bufs, env, i))
      ensures Piece(bufs, env, i, block) && sent == old(writeOnceUserUUID) + block.Encode()
      ensures block.command == CommandFor(bufs, env, i, isPadding)
      ensures stop == Stops(bufs, env, i) && writeOnceUserUUID == []
      ensures directCopy == (old(directCopy) || (IsApplicationData(env[i].flags, bufs[i].Data()) && env[i].flags.enableXtls))
    {
      var b, flags := bufs[i], env[i].flags;
      var command := PADDING_CONTINUE;
      var padLong := longPadding;
      stop, long := false, longPadding;
      if flags.isTLS && |b.Data()| >= 6 && APPLICATION_DATA == b.Data()[..3] {
        if flags.enableXtls {
          directCopy := true;
        }
        if i == |bufs| - 1 {
          command := PADDING_END;
          if flags.enableXtls {
            command := PADDING_DIRECT;
          }
        }
        padLong := true;
        isPadding := false; // padding going to end
        long := false;
      } else if !flags.isTLS12orAbove && flags.packetsToFilter <= 1 {
        isPadding := false;
        command := PADDING_END;
        stop := true;
      } else if i == |bufs| - 1 && !isPadding {
        command := PADDING_END;
        if flags.enableXtls {
          command := PADDING_DIRECT;
        }
      }
      sent, block := XtlsPadding(b, command, writeOnceUserUUID, padLong, env[i]);
      writeOnceUserUUID := [];
    }

    /** The padding loop over the reshaped buffers; n of them become blocks. */
    method PadBuffers(bufs: seq<Slot>, env: seq<Draw>, isTLS: bool)
      returns (n: nat, out: seq<seq<byte>>, ghost blocks: seq<Block>)
      requires isPadding && |writeOnceUserUUID| <= UUID_LENGTH && AtMost(bufs, MAX_CONTENT) && |bufs| <= |env|
      modifies this
      ensures |blocks| == n <= |bufs| && AllFit(blocks)
      ensures out == EncodeEach(old(writeOnceUserUUID), blocks)
      ensures Progress(bufs, env, blocks)
      ensures NoStop(bufs, env, Max(0, n - 1))
      ensures n < |bufs| ==> n > 0 && Stops(bufs, env, n - 1)
      ensures isPadding == StillPadding(bufs, env, n)
      ensures writeOnceUserUUID == if bufs == [] then old(writeOnceUserUUID) else []
      ensures directCopy <==> (old(directCopy) || SwitchesToDirect(bufs, env, n))
    {
      out, blocks, n := [], [], 0;
      var longPadding := isTLS;
      var stop := false;
      while n < |bufs| && !stop
        invariant |blocks| == n <= |bufs| && AllFit(blocks)
        invariant out == EncodeEach(old(writeOnceUserUUID), blocks)
        invariant writeOnceUserUUID == if n == 0 then old(writeOnceUserUUID) else []
        invariant Progress(bufs, env, blocks)
        invariant isPadding == StillPadding(bufs, env, n)
        invariant NoStop(bufs, env, Max(0, n - 1))
        invariant if stop then n > 0 && Stops(bufs, env, n - 1) else NoStop(bufs, env, n)
        invariant directCopy <==> (old(directCopy) || SwitchesToDirect(bufs, env, n))
      {
        ghost var block;
        var sent;
        sent, block, stop, longPadding := PadOne(bufs, env, n, longPadding);
        Advance(old(writeOnceUserUUID), bufs, env, blocks, block);
        out, blocks, n := out + [sent], blocks + [block], n + 1;
      }
    }

    ghost function View(): Writing
      reads this
    {
      Writing(writeOnceUserUUID, isPadding)
    }

    /** The reshaping and padding part of a call. */
    method WritePadded(mb: seq<Slot>, env: seq<Draw>, isTLS: bool)
      returns (out: seq<seq<byte>>, ghost blocks: seq<Block>, ghost raw: seq<byte>)
      requires isPadding && |writeOnceUserUUID| <= UUID_LENGTH && AtMost(mb, SIZE) && |env| >= |Reshaped(mb)|
      modifies this
      ensures Call(old(View()), View(), mb, blocks, raw, Flatten(out)).Lawful()
      ensures PaddedAs(Reshaped(mb), env, blocks, isPadding)
      ensures directCopy <==> old(directCopy) || SwitchesToDirect(Reshaped(mb), env, |blocks|)
    {
      ghost var uuid := writeOnceUserUUID;
      var bufs := ReshapeMultiBuffer(mb);
      ReshapedKeepsData(mb);
      var n;
      n, out, blocks := PadBuffers(bufs, env, isTLS);
      LoopPads(bufs, env, blocks);
      out := out + RawTail(bufs, n);
      raw := DataOf(bufs[n..]);
      PaddedCall(uuid, mb, env, blocks, isPadding);
    }

    /** One call: what goes out is described by a list of blocks and a raw rest. */
    method WriteMultiBuffer(mb: seq<Slot>, env: seq<Draw>, isTLS: bool)
      returns (out: seq<seq<byte>>, ghost blocks: seq<Block>, ghost raw: seq<byte>)
      requires |writeOnceUserUUID| <= UUID_LENGTH && AtMost(mb, SIZE)
      requires |env| >= 1 && |env| >= |Reshaped(mb)|
      modifies this
      ensures Call(old(View()), View(), mb, blocks, raw, Flatten(out)).Lawful()
      ensures old(isPadding) && mb != [NilBuffer] ==> PaddedAs(Reshaped(mb), env, blocks, isPadding)
      ensures old(isPadding) && mb == [NilBuffer] ==> isPadding && |blocks| == 1 && |blocks[0].padding| >= 900
      ensures !old(isPadding) || mb == [NilBuffer] ==> directCopy == old(directCopy)
      ensures old(isPadding) && mb != [NilBuffer] ==>
                (directCopy <==> old(directCopy) || SwitchesToDirect(Reshaped(mb), env, |blocks|))
    {
      if !isPadding {
        out := RawTail(mb, 0);
        blocks, raw := [], DataOf(mb);
        RawCall(writeOnceUserUUID, mb);
      } else if |mb| == 1 && mb[0] == NilBuffer {
        // a long padding to hide the VLESS header
        ghost var block;
        var sent;
        sent, block := XtlsPadding(NilBuffer, PADDING_CONTINUE, writeOnceUserUUID, true, env[0]);
        out, blocks, raw := [sent], [block], [];
        NilCall(writeOnceUserUUID, mb, block);
        FlattenOne(sent);
        writeOnceUserUUID := [];
      } else {
        out, blocks, raw := WritePadded(mb, env, isTLS);
      }
    }
  }

  // ---- The switch to direct copy ----

  lemma {:induction false} SwitchesIff(bufs: seq<Slot>, env: seq<Draw>, n: nat)
    requires n <= |bufs| <= |env|
    ensures SwitchesToDirect(bufs, env, n)
       <==> exists i :: 0 <= i < n && IsApplicationData(env[i].flags, bufs[i].Data()) && env[i].flags.enableXtls
    decreases n
  {
    if n > 0 {
      SwitchesIff(bufs, env, n - 1);
    }
  }

  /** The filter sets its flags between calls, and allows XTLS only after it has seen TLS 1.2 or above: then the writer switches
      to direct copy in exactly the call whose terminal block tells the reader to. */
  lemma {:induction false} SwitchTogether(bufs: seq<Slot>, env: seq<Draw>, blocks: seq<Block>, stillPadding: bool, f: Flags)
    requires |bufs| <= |env| && PaddedAs(bufs, env, blocks, stillPadding)
    requires (forall i :: 0 <= i < |env| ==> env[i].flags == f) && (f.enableXtls ==> f.isTLS12orAbove)
    ensures SwitchesToDirect(bufs, env, |blocks|) <==> blocks != [] && blocks[|blocks| - 1].command == PADDING_DIRECT
  {
    SwitchesIff(bufs, env, |blocks|);
    if f.enableXtls {
      assert forall i :: 0 <= i < |blocks| ==> (Ends(bufs, env, i) <==> IsApplicationData(env[i].flags, bufs[i].Data()));
    }
  }

  // ---- Every run ----

  /** What survives between two calls. */
  datatype Writing = Writing(uuid: seq<byte>, isPadding: bool)

  /** A call of WriteMultiBuffer, with the blocks and the raw bytes it put on the wire. */
  datatype Call = Call(before: Writing, after: Writing, mb: seq<Slot>, blocks: seq<Block>, raw: seq<byte>, wire: seq<byte>) {

    ghost predicate Lawful() {
      && AllFit(blocks)
      && Contents(blocks) + raw == DataOf(mb)
      && wire == (if blocks == [] then [] else before.uuid) + EncodeBlocks(blocks) + raw
      && after.uuid == (if blocks == [] then before.uuid else [])
      && (before.isPadding ==> Grammar(blocks, !after.isPadding) && (after.isPadding ==> raw == []))
      && (!before.isPadding ==> blocks == [] && !after.isPadding)
    }
  }

  lemma {:induction false} RawTailFlat(bufs: seq<Slot>, from: nat)
    requires from <= |bufs|
    ensures Flatten(RawTail(bufs, from)) == DataOf(bufs[from..])
    decreases |bufs| - from
  {
    if from < |bufs| {
      RawTailFlat(bufs, from + 1);
      assert bufs[from..][1..] == bufs[from + 1..];
      assert RawTail(bufs, from)[1..] == RawTail(bufs, from + 1);
    }
  }

  lemma {:induction false} NilCall(uuid: seq<byte>, mb: seq<Slot>, block: Block)
    requires mb == [NilBuffer] && block.Fits() && block.content == [] && block.command == PADDING_CONTINUE
    ensures Call(Writing(uuid, true), Writing([], true), mb, [block], [], uuid + block.Encode()).Lawful()
  {
    EncodeOne(block);
    assert mb[1..] == [];
    assert DataOf(mb) == [] + DataOf([]);
    assert uuid + block.Encode() + [] == uuid + block.Encode();
  }

  lemma {:induction false} BlocksHold(bufs: seq<Slot>, blocks: seq<Block>)
    requires |blocks| <= |bufs| && forall i :: 0 <= i < |blocks| ==> blocks[i].content == bufs[i].Data()
    ensures Contents(blocks) + DataOf(bufs[|blocks|..]) == DataOf(bufs)
    decreases |blocks|
  {
    if blocks == [] {
      assert bufs[0..] == bufs;
    } else {
      BlocksHold(bufs[1..], blocks[1..]);
      assert bufs[1..][|blocks[1..]|..] == bufs[|blocks|..];
    }
  }

  /** The commands chosen for the blocks of a call follow the grammar, and no buffer is left over while padding lasts. */
  lemma {:induction false} PaddingEnds(bufs: seq<Slot>, env: seq<Draw>, blocks: seq<Block>, padding: bool)
    requires |bufs| <= |env| && PaddedAs(bufs, env, blocks, padding)
    ensures AllFit(blocks) && Grammar(blocks, !padding)
    ensures padding ==> |blocks| == |bufs|
    ensures blocks == [] <==> bufs == []
  {
    if |blocks| < |bufs| {
      assert Stops(bufs, env, |blocks| - 1) && Ends(bufs, env, |blocks| - 1);
    }
  }

  lemma {:induction false} PaddedCall(uuid: seq<byte>, mb: seq<Slot>, env: seq<Draw>, blocks: seq<Block>, padding: bool)
    requires AtMost(mb, SIZE) && |Reshaped(mb)| <= |env| && PaddedAs(Reshaped(mb), env, blocks, padding)
    ensures AllFit(blocks) && |blocks| <= |Reshaped(mb)| && (blocks == [] <==> mb == [])
    ensures var bufs := Reshaped(mb);
            Call(Writing(uuid, true), Writing(if blocks == [] then uuid else [], padding), mb, blocks, DataOf(bufs[|blocks|..]),
                 Flatten(EncodeEach(uuid, blocks) + RawTail(bufs, |blocks|))).Lawful()
  {
    ReshapedKeepsData(mb);
    BlocksHold(Reshaped(mb), blocks);
    PaddingEnds(Reshaped(mb), env, blocks, padding);
    CallOf(uuid, mb, Reshaped(mb), blocks, padding);
  }

  lemma {:induction false} CallOf(uuid: seq<byte>, mb: seq<Slot>, bufs: seq<Slot>, blocks: seq<Block>, padding: bool)
    requires AllFit(blocks) && Grammar(blocks, !padding) && |blocks| <= |bufs| && (padding ==> |blocks| == |bufs|)
    requires Contents(blocks) + DataOf(bufs[|blocks|..]) == DataOf(mb)
    ensures Call(Writing(uuid, true), Writing(if blocks == [] then uuid else [], padding), mb, blocks, DataOf(bufs[|blocks|..]),
                 Flatten(EncodeEach(uuid, blocks) + RawTail(bufs, |blocks|))).Lawful()
  {
    EncodeEachFlat(uuid, blocks);
    RawTailFlat(bufs, |blocks|);
    FlattenConcat(EncodeEach(uuid, blocks), RawTail(bufs, |blocks|));
    assert padding ==> bufs[|blocks|..] == [];
  }

  lemma {:induction false} RawCall(uuid: seq<byte>, mb: seq<Slot>)
    ensures Call(Writing(uuid, false), Writing(uuid, false), mb, [], DataOf(mb), Flatten(RawTail(mb, 0))).Lawful()
  {
    RawTailFlat(mb, 0);
    assert mb[0..] == mb;
    assert [] + DataOf(mb) == DataOf(mb);
  }

  /** A run of the writer: each call starts where the one before it ended. */
  ghost predicate Run(w: Writing, calls: seq<Call>)
    decreases |calls|
  {
    calls != [] ==> calls[0].before == w && calls[0].Lawful() && Run(calls[0].after, calls[1..])
  }

  function Final(w: Writing, calls: seq<Call>): Writing
    decreases |calls|
  {
    if calls == [] then w else Final(calls[0].after, calls[1..])
  }

  function AllBlocks(calls: seq<Call>): seq<Block>
  {
    if calls == [] then [] else calls[0].blocks + AllBlocks(calls[1..])
  }

  function AllRaw(calls: seq<Call>): seq<byte>
  {
    if calls == [] then [] else calls[0].raw + AllRaw(calls[1..])
  }

  function AllWire(calls: seq<Call>): seq<byte>
  {
    if calls == [] then [] else calls[0].wire + AllWire(calls[1..])
  }

  function AllData(calls: seq<Call>): seq<byte>
  {
    if calls == [] then [] else DataOf(calls[0].mb) + AllData(calls[1..])
  }

  lemma {:induction false} RunAfterPadding(w: Writing, calls: seq<Call>)
    requires Run(w, calls) && !w.isPadding
    ensures AllBlocks(calls) == [] && AllWire(calls) == AllRaw(calls) == AllData(calls) && !Final(w, calls).isPadding
    decreases |calls|
  {
    if calls != [] {
      var c := calls[0];
      assert Contents(c.blocks) + c.raw == c.raw && c.wire == [] + EncodeBlocks(c.blocks) + c.raw == c.raw;
      RunAfterPadding(c.after, calls[1..]);
    }
  }

  /** The output grammar over every run: one UUID, continue blocks only while padding lasts, one terminal
      block when it ends, raw bytes afterwards; and no byte is lost, added or moved. */
  lemma {:induction false} RunGrammar(w: Writing, calls: seq<Call>)
    requires Run(w, calls) && w.isPadding
    ensures AllFit(AllBlocks(calls)) && Grammar(AllBlocks(calls), !Final(w, calls).isPadding)
    ensures AllWire(calls) == Prefix(w, AllBlocks(calls)) + EncodeBlocks(AllBlocks(calls)) + AllRaw(calls)
    ensures Final(w, calls).isPadding ==> AllRaw(calls) == []
    ensures Contents(AllBlocks(calls)) + AllRaw(calls) == AllData(calls)
    decreases |calls|
  {
    if calls != [] {
      var c, rest := calls[0], calls[1..];
      var bs := AllBlocks(rest);
      if c.after.isPadding {
        RunGrammar(c.after, rest);
        JoinGrammar(c, bs, !Final(c.after, rest).isPadding);
      } else {
        RunAfterPadding(c.after, rest);
        assert c.blocks + bs == c.blocks;
      }
      JoinData(c, bs, AllRaw(rest), AllData(rest));
      JoinWire(w, c, bs, AllRaw(rest), AllWire(rest));
    }
  }

  function Prefix(w: Writing, blocks: seq<Block>): seq<byte>
  {
    if blocks == [] then [] else w.uuid
  }

  lemma {:induction false} Regroup<T>(a: seq<T>, b: seq<T>, c: seq<T>, d: seq<T>)
    requires b == [] || c == []
    ensures (a + b) + (c + d) == (a + c) + (b + d)
  {
  }

  /** The blocks of a call that leaves padding on, followed by those of the rest. */
  lemma {:induction false} JoinGrammar(c: Call, bs: seq<Block>, closed: bool)
    requires c.Lawful() && c.before.isPadding && c.after.isPadding && AllFit(bs) && Grammar(bs, closed)
    ensures AllFit(c.blocks + bs) && Grammar(c.blocks + bs, closed)
  {
  }

  /** The data of a call followed by the data of the rest of the run. */
  lemma {:induction false} JoinData(c: Call, bs: seq<Block>, raw: seq<byte>, data: seq<byte>)
    requires c.Lawful() && (c.raw == [] || bs == [])
    requires Contents(bs) + raw == data
    ensures Contents(c.blocks + bs) + (c.raw + raw) == DataOf(c.mb) + data
  {
    ContentsConcat(c.blocks, bs);
    assert bs == [] ==> Contents(bs) == [];
    Regroup(Contents(c.blocks), c.raw, Contents(bs), raw);
  }

  /** The wire of a call followed by the wire of the rest of the run. */
  lemma {:induction false} JoinWire(w: Writing, c: Call, bs: seq<Block>, raw: seq<byte>, wire: seq<byte>)
    requires c.before == w && c.Lawful() && AllFit(bs)
    requires c.raw == [] || bs == []
    requires wire == Prefix(c.after, bs) + EncodeBlocks(bs) + raw
    ensures AllFit(c.blocks + bs)
    ensures c.wire + wire == Prefix(w, c.blocks + bs) + EncodeBlocks(c.blocks + bs) + (c.raw + raw)
  {
    EncodeBlocksConcat(c.blocks, bs);
    if c.blocks == [] {
      NothingPadded(w, c, bs, raw, wire);
    } else {
      JoinBytes(w.uuid, EncodeBlocks(c.blocks), c.raw, EncodeBlocks(bs), raw);
      assert Prefix(c.after, bs) == [];
      assert wire == EncodeBlocks(bs) + raw;
    }
  }

  lemma {:induction false} NothingPadded(w: Writing, c: Call, bs: seq<Block>, raw: seq<byte>, wire: seq<byte>)
    requires c.before == w && c.Lawful() && AllFit(bs) && c.blocks == []
    requires c.raw == [] || bs == []
    requires wire == Prefix(c.after, bs) + EncodeBlocks(bs) + raw
    ensures c.wire + wire == Prefix(w, c.blocks + bs) + EncodeBlocks(c.blocks + bs) + (c.raw + raw)
  {
    assert c.blocks + bs == bs;
    assert EncodeBlocks(c.blocks) == [];
    assert c.wire == c.raw;
    if bs != [] {
      assert c.raw + raw == raw && c.raw + wire == wire;
    } else {
      assert wire == raw;
      assert EncodeBlocks(bs) == [];
    }
  }

  lemma {:induction false} JoinBytes<T>(u: seq<T>, e1: seq<T>, r1: seq<T>, e2: seq<T>, r2: seq<T>)
    requires r1 == [] || e2 == []
    ensures (u + e1 + r1) + (e2 + r2) == u + (e1 + e2) + (r1 + r2)
  {
    Assoc(u, e1, e2);
    Regroup(u + e1, r1, e2, r2);
  }

  /** Vision end to end: whatever the writer was given comes out of the parser, for every run of the writer,
      every value the TLS filter may set and every re-chunking that keeps the first 21 bytes together. Once
      padding is over this needs, and needs only, that no raw chunk passes for the start of a new stream. */
  lemma {:induction false} VisionDelivers(uuid: seq<byte>, calls: seq<Call>, chunks: seq<seq<byte>>)
    requires |uuid| == UUID_LENGTH && Run(Writing(uuid, true), calls)
    requires Flatten(chunks) == AllWire(calls) && chunks != [] && |chunks[0]| >= OVERHEAD
    ensures Final(Writing(uuid, true), calls).isPadding ==> UnpadAll(uuid, INITIAL, chunks).out == AllData(calls)
    ensures AllFit(AllBlocks(calls))
    ensures !Final(Writing(uuid, true), calls).isPadding ==>
              (UnpadAll(uuid, INITIAL, chunks).out == AllData(calls)
               <==> NoLookalike(uuid, chunks, UUID_LENGTH + |EncodeBlocks(AllBlocks(calls))|))
  {
    var w, bs, raw := Writing(uuid, true), AllBlocks(calls), AllRaw(calls);
    RunGrammar(w, calls);
    assert |Flatten(chunks)| >= |chunks[0]|;
    assert bs != [];
    if Final(w, calls).isPadding {
      RoundTripOpen(uuid, bs, chunks);
    } else {
      RoundTripClosed(uuid, bs, raw, chunks);
    }
  }
}
