# CShroud: a verified model

This project models the behaviour of CShroud's traffic core and key management that is hardest to get right, and proves what it promises. Most of it lives in the Xray tree of the DAW service (`CShroudDAW/Infrastructure/Cores/Xray/Protos`); the key quota is the gateway's own. `dafny verify dfyconfig.toml` checks everything.

| files | what they model |
|---|---|
| `VisionParser`, `VisionRoundTrip`, `VisionWriter`, `VisionReader` | XTLS Vision padding: the writer's block grammar, the resumable parser, the round trip for every re-chunking, the reader's mode switch |
| `Segments`, `Buffers`, `BufferedWriter` | MultiBuffers as byte segments and as mutable windows on arrays; buffered reading and writing |
| `Nonces`, `AuthStream`, `AuthReader`, `AuthWriter` | nonce counters and chunked authenticated streams with opportunistic reads |
| `Address`, `MuxFrame`, `MuxCopy`, `MuxState`, `MuxServer`, `MuxWriter`, `MuxDemux` | address codec, mux frames, routing, resynchronisation, demultiplexing |
| `MuxSession`, `MuxPool`, `MuxDispatch` | session table, worker pool, racing dispatchers as a step-by-step protocol |
| `Lru`, `DnsCache`, `LeastLoad`, `Features` | two-index cache, DNS answer cache, outbound selection, feature resolver |
| `KeyQuota` | the gateway's key statuses, quota and rate changes |

Objects that the source updates in place are classes, and each of their methods is proved against a function or a property of the old state; the theorems about whole runs are lemmas about those functions. Some promises need a condition. Each is kept as the code has it, with the exact condition proved:

- The Vision round trip through the parser holds if and only if no raw chunk behind the terminal block starts with the UUID (`VisionDelivers`).
- Through the reader it holds if and only if every read that starts at a misleading place of the terminal header is still filtered, and no read that is unpadded brings such a raw chunk (`ReaderDelivers`). "Only if" uses that `NumberOfPacketToFilter` never grows (proxy.go:479, 512, 516). `LateReadExample` is a failing run.
- A mux frame leaves the shared reader at the next frame if and only if its session does not refuse a piece with EOF before the last piece (`HandleFrame`, `LosesIff`); `QuietRefusalLoses` gives the segmentation.
- A dispatch over a pool with free workers succeeds if and only if one of the two workers it ever picks is open (`MuxPool.Dispatch`, `SucceedsIff`). A worker between CloseIfNoSession and done.Close (client.go:224-226) is free but not open; `ClosingPoolFails` is a failing pool.
- `Compact` keeps the bytes if and only if what it merges is non-empty and fits (`CompactIff`).
- Packets are all written if and only if all of them fit (`WritePacket`, `KeptAllIff`). What is written is read back as long as the reader draws the same padding for it (`SendAndReceivePackets`), which it does if nothing is dropped or if the padding is absent or constant (`ConstantAgrees`); `DroppedPacketShifts` is a run in which it does not.
- `Put` keeps the two LRU indices in agreement if and only if the pair is cached or both halves are new (`Cache.Put`).
- `Cleanup` of the DNS cache is invisible if and only if a query enables a family (`InvisibleIff`). `QueryIP` never asks with none (nameserver_udp.go:277-279).
- The key quota is kept over a run if and only if every rate that is assigned without being applied covers the enabled keys (`QuotaKeptIff`); the next applied rate restores it (`RateRestoresQuota`).

The comment on `Extend` in buffer.go promises a panic beyond `buf.Size`; the code compares with the length of the array, and the model follows the code.

## Model

| member | source | states |
|---|---|---|
| `VisionParser.Feed` | CShroudDAW/Infrastructure/Cores/Xray/Protos/proxy/proxy.go:414-467 | The four counters as a byte automaton: in every reachable state a counter is positive or all three are at rest, never more bytes out than in, and after a terminal block everything is passed on |
| `VisionParser.FeedConcat` | CShroudDAW/Infrastructure/Cores/Xray/Protos/proxy/proxy.go:414-467 | Parsing is independent of where reads end: feeding a and then b is feeding a + b |
| `VisionParser.UnpadAll` | CShroudDAW/Infrastructure/Cores/Xray/Protos/proxy/proxy.go:390-471 | Unpadding folded over all buffers of a connection keeps the counter invariant and never invents bytes |
| `VisionParser.LinkState.Consume` | CShroudDAW/Infrastructure/Cores/Xray/Protos/proxy/proxy.go:415-466 | One turn of the parse loop consumes bytes exactly as the automaton does, and at least one, so the loop ends |
| `VisionParser.LinkState.Parse` | CShroudDAW/Infrastructure/Cores/Xray/Protos/proxy/proxy.go:414-467 | The whole parse loop over a buffer computes what the byte automaton computes, counters and output |
| `VisionParser.XtlsUnpadding` | CShroudDAW/Infrastructure/Cores/Xray/Protos/proxy/proxy.go:390-471 | The bulk parser refines the automaton on every buffer, with or without the UUID in front, and touches only the link of its own direction |
| `VisionRoundTrip.FeedBlock` | CShroudDAW/Infrastructure/Cores/Xray/Protos/proxy/proxy.go:351-387 | Parsing one printed block returns its content and leaves the parser at the next block, or at rest after a terminal one |
| `VisionRoundTrip.FeedPartialBlock` | CShroudDAW/Infrastructure/Cores/Xray/Protos/proxy/proxy.go:414-467 | Any proper prefix of a block leaves the parser inside it |
| `VisionRoundTrip.FeedBlocks` | CShroudDAW/Infrastructure/Cores/Xray/Protos/proxy/proxy.go:351-471 | Parsing a printed run of blocks returns the concatenated contents |
| `VisionRoundTrip.BusyInside` | CShroudDAW/Infrastructure/Cores/Xray/Protos/proxy/proxy.go:414-467 | After any number of bytes of the padding phase, short of its end, the parser is inside a block |
| `VisionRoundTrip.BlocksClose` | CShroudDAW/Infrastructure/Cores/Xray/Protos/proxy/proxy.go:390-471 | A closed run of blocks ends the padding phase at its last byte and not before; an open run never does |
| `VisionRoundTrip.UnpadPrefix` | CShroudDAW/Infrastructure/Cores/Xray/Protos/proxy/proxy.go:390-471 | Unpadding any chunks, however far they reach, is feeding their bytes to the automaton, unless a chunk behind the padding phase looks like a new stream; then bytes are missing |
| `VisionRoundTrip.UnpadClosing` | CShroudDAW/Infrastructure/Cores/Xray/Protos/proxy/proxy.go:390-471 | For every chunking of a closing prefix and raw bytes, the output is the contents and the raw bytes if and only if no later chunk looks like a new stream |
| `VisionRoundTrip.UnpadOpen` | CShroudDAW/Infrastructure/Cores/Xray/Protos/proxy/proxy.go:390-471 | For every chunking of a prefix that stays open, unpadding the chunks is feeding their concatenation |
| `VisionRoundTrip.RoundTripClosed` | CShroudDAW/Infrastructure/Cores/Xray/Protos/proxy/proxy.go:261-471 | Round trip after the padding phase: for every re-chunking whose first chunk has 21 bytes, exactly the bytes written come out if and only if no raw chunk of 21 bytes or more starts with the UUID |
| `VisionRoundTrip.RoundTripOpen` | CShroudDAW/Infrastructure/Cores/Xray/Protos/proxy/proxy.go:261-471 | Round trip while padding lasts: unconditional for every such re-chunking |
| `VisionRoundTrip.ShortFirstChunk` | CShroudDAW/Infrastructure/Cores/Xray/Protos/proxy/proxy.go:406-413 | If the first chunk has fewer than 21 bytes and no chunk starts a stream by accident, the wire itself comes out, UUID and headers included, so the round trip fails |
| `VisionWriter.SplitPoint` | CShroudDAW/Infrastructure/Cores/Xray/Protos/proxy/proxy.go:330-336 | The cut lies in front of the last TLS record of application data if that starts between 21 and 8171, and at 4096 otherwise |
| `VisionWriter.Pieces` | CShroudDAW/Infrastructure/Cores/Xray/Protos/proxy/proxy.go:328-344 | A buffer is cut exactly when it has 8171 bytes or more, at that place, into two pieces that join to it and are at most 8171 long |
| `VisionWriter.ReshapedKeepsData` | CShroudDAW/Infrastructure/Cores/Xray/Protos/proxy/proxy.go:316-348 | Reshaping loses, adds and reorders nothing, and every piece leaves room for UUID and header |
| `VisionWriter.ReshapedUnchanged` | CShroudDAW/Infrastructure/Cores/Xray/Protos/proxy/proxy.go:316-325 | Buffers that are all short enough are left alone |
| `VisionWriter.ReshapeMultiBuffer` | CShroudDAW/Infrastructure/Cores/Xray/Protos/proxy/proxy.go:316-348 | The counting pass and the copying pass together compute the reshaped list |
| `VisionWriter.PaddingLength` | CShroudDAW/Infrastructure/Cores/Xray/Protos/proxy/proxy.go:352-372 | The padding is never negative, never more than fits, below 256 when short; when long it brings the contents up to between 900 and 1399 bytes |
| `VisionWriter.XtlsPadding` | CShroudDAW/Infrastructure/Cores/Xray/Protos/proxy/proxy.go:351-387 | What goes out is the UUID, if still due, and one block with the given command and content, within 8192 bytes |
| `VisionWriter.LoopPads` | CShroudDAW/Infrastructure/Cores/Xray/Protos/proxy/proxy.go:279-310 | The commands the padding loop chooses: continue while padding lasts, one end or direct at the buffer that ends it |
| `VisionWriter.VisionWriter.PadOne` | CShroudDAW/Infrastructure/Cores/Xray/Protos/proxy/proxy.go:279-310 | One turn of the padding loop: the block it emits, its command, the flags it clears and when it stops |
| `VisionWriter.VisionWriter.PadBuffers` | CShroudDAW/Infrastructure/Cores/Xray/Protos/proxy/proxy.go:279-310 | The padding loop for every value the TLS filter may set: which buffers become blocks, with which commands, the UUID only once |
| `VisionWriter.VisionWriter.WritePadded` | CShroudDAW/Infrastructure/Cores/Xray/Protos/proxy/proxy.go:274-312 | A call in padding mode emits the UUID once, blocks and then raw bytes that together carry exactly the buffers given, and switches to direct copy exactly if a padded buffer starts application data with XTLS enabled |
| `VisionWriter.VisionWriter.WriteMultiBuffer` | CShroudDAW/Infrastructure/Cores/Xray/Protos/proxy/proxy.go:261-313 | Every call, the nil-buffer call included, is lawful: it carries its data, keeps to the block grammar and never returns to padding |
| `VisionWriter.SwitchTogether` | CShroudDAW/Infrastructure/Cores/Xray/Protos/proxy/proxy.go:286-300 | With the flags the filter leaves between calls, the writer switches to direct copy in exactly the call whose terminal block tells the reader to |
| `VisionWriter.RunAfterPadding` | CShroudDAW/Infrastructure/Cores/Xray/Protos/proxy/proxy.go:274-313 | Once padding is over, every further call is raw |
| `VisionWriter.RunGrammar` | CShroudDAW/Infrastructure/Cores/Xray/Protos/proxy/proxy.go:261-313 | Over every run: one UUID, continue blocks while padding lasts, exactly one terminal block when it ends, raw bytes after, and all data in order |
| `VisionWriter.VisionDelivers` | CShroudDAW/Infrastructure/Cores/Xray/Protos/proxy/proxy.go:261-471 | Writer to parser: whatever a run wrote comes out of unpadding, for every oracle value and every re-chunking, under the exact condition of the round trip |
| `VisionReader.VisionReader.Unpad` | CShroudDAW/Infrastructure/Cores/Xray/Protos/proxy/proxy.go:212-220 | The reader unpads every buffer of a read and drops the empty ones |
| `VisionReader.VisionReader.ReadMultiBuffer` | CShroudDAW/Infrastructure/Cores/Xray/Protos/proxy/proxy.go:190-237 | One read: what is returned, the new counters, the mode and the direct-copy switch; DirectExactly says over whole runs when that switch is set |
| `VisionReader.LeavesInBlock` | CShroudDAW/Infrastructure/Cores/Xray/Protos/proxy/proxy.go:221-230 | Inside one block the test for leaving padding mode is exact except at named places in a terminal header |
| `VisionReader.StaysBefore` | CShroudDAW/Infrastructure/Cores/Xray/Protos/proxy/proxy.go:221-230 | Among continue blocks the reader never leaves padding mode |
| `VisionReader.LeavesExactly` | CShroudDAW/Infrastructure/Cores/Xray/Protos/proxy/proxy.go:221-230 | After n bytes of a padding phase the test of the reader says "leave" if and only if the terminal block is consumed or n ends at a misleading place of its 5-byte header |
| `VisionReader.GoodRead` | CShroudDAW/Infrastructure/Cores/Xray/Protos/proxy/proxy.go:190-237 | One read that is on time and clean: the bytes of the automaton come out and the mode is the one its end position calls for |
| `VisionReader.ReaderTracks` | CShroudDAW/Infrastructure/Cores/Xray/Protos/proxy/proxy.go:190-237 | Over every run of such reads, starting and ending anywhere, the bytes of the automaton come out and the mode is right |
| `VisionReader.ReaderFails` | CShroudDAW/Infrastructure/Cores/Xray/Protos/proxy/proxy.go:190-237 | With a filter that is not restarted, a run with a late or an unclean read brings out too many or too few bytes |
| `VisionReader.ModeAfter` | CShroudDAW/Infrastructure/Cores/Xray/Protos/proxy/proxy.go:212-230 | WithinPaddingBuffers after a run of on-time, clean reads: true exactly if the terminal block is not consumed and the last read did not end at a misleading place |
| `VisionReader.ModeExactly` | CShroudDAW/Infrastructure/Cores/Xray/Protos/proxy/proxy.go:212-230 | If no read ends at a misleading place, the reader is in padding mode exactly while the terminal block has not been consumed |
| `VisionReader.DirectTracks` | CShroudDAW/Infrastructure/Cores/Xray/Protos/proxy/proxy.go:221-230 | Over every run of on-time, clean reads, starting anywhere: the direct-copy flag is set if and only if the padding phase ends with the direct command and a read has ended outside padding mode |
| `VisionReader.DirectExactly` | CShroudDAW/Infrastructure/Cores/Xray/Protos/proxy/proxy.go:221-230 | From the start of a connection: direct copy is on if and only if the terminal block is a direct one and has been consumed, or a read has ended at a misleading place of its header |
| `VisionReader.ReaderRoundTrip` | CShroudDAW/Infrastructure/Cores/Xray/Protos/proxy/proxy.go:190-237 | After the padding phase everything comes out right under those two conditions on positions and filter flags; and, the filter never being restarted, only then |
| `VisionReader.ReaderOpenRun` | CShroudDAW/Infrastructure/Cores/Xray/Protos/proxy/proxy.go:190-237 | While padding lasts everything comes out right for every cutting, and the reader does not switch to direct copy |
| `VisionReader.LateReadExample` | CShroudDAW/Infrastructure/Cores/Xray/Protos/proxy/proxy.go:221-236 | A read ends behind a terminal command byte, the filter stops, and four header bytes are delivered as data |
| `VisionReader.ReaderDelivers` | CShroudDAW/Infrastructure/Cores/Xray/Protos/proxy/proxy.go:190-313 | VisionWriter to VisionReader, every run and every way of cutting it into reads: everything written is read while padding lasts; afterwards if every read that starts at a misleading place is still filtered and no unpadded read brings a lookalike, and, the filter never being restarted, only then. The reader has then switched to direct copy if and only if the terminal block written was a direct one |
| `Segments.SplitBytes` | CShroudDAW/Infrastructure/Cores/Xray/Protos/common/buf/multi_buffer.go:98-123 | Bytes out and bytes left are the bytes given, in order, and as many come out as asked for or available |
| `Segments.SplitSize` | CShroudDAW/Infrastructure/Cores/Xray/Protos/common/buf/multi_buffer.go:172-204 | Taken and rest are the bytes given, at most size are taken, and something is always taken or dropped |
| `Segments.MergeBytes` | CShroudDAW/Infrastructure/Cores/Xray/Protos/common/buf/multi_buffer.go:39-54 | Bytes are appended to a list of zero-offset standard buffers, the last one filled up first |
| `Segments.CutsBytes` | CShroudDAW/Infrastructure/Cores/Xray/Protos/common/buf/reader.go:100-115 | The reads of a loop over ReadAtMost make up exactly the next bytes |
| `Segments.BufferedReader.Read` | CShroudDAW/Infrastructure/Cores/Xray/Protos/common/buf/reader.go:61-86 | A read returns the next bytes and touches the source only when nothing is buffered |
| `Segments.BufferedReader.ReadFull` | CShroudDAW/Infrastructure/Cores/Xray/Protos/common/buf/reader.go:61-86 | Exactly the next n bytes however the buffers are cut, without touching the source when n are buffered |
| `Segments.BufferedReader.ReadAtMost` | CShroudDAW/Infrastructure/Cores/Xray/Protos/common/buf/reader.go:100-115 | At most size of the next bytes, nothing lost |
| `Buffers.Buffer.Write` | CShroudDAW/Infrastructure/Cores/Xray/Protos/common/buf/buffer.go:236-240 | As much as fits is appended to the window; nothing else of the array changes meaning |
| `Buffers.Buffer.WriteByte` | CShroudDAW/Infrastructure/Cores/Xray/Protos/common/buf/buffer.go:243-250 | A byte is appended unless the buffer is full |
| `Buffers.Buffer.Read` | CShroudDAW/Infrastructure/Cores/Xray/Protos/common/buf/buffer.go:280-291 | The front of the window comes out, an emptied window starts over, an empty one reports end of file |
| `Buffers.Buffer.ReadFrom` | CShroudDAW/Infrastructure/Cores/Xray/Protos/common/buf/buffer.go:294-298 | Bytes of one buffer move behind the window of another, as many as fit; an empty source is an error |
| `Buffers.Buffer.ReadBytes` | CShroudDAW/Infrastructure/Cores/Xray/Protos/common/buf/buffer.go:269-277 | Exactly the next bytes or nothing |
| `Buffers.Buffer.Extend` | CShroudDAW/Infrastructure/Cores/Xray/Protos/common/buf/buffer.go:124-132 | The window grows over what the array holds, or it panics exactly when the array is too short |
| `Buffers.Buffer.Check` | CShroudDAW/Infrastructure/Cores/Xray/Protos/common/buf/buffer.go:165-175 | Start and end are brought into order |
| `Buffers.Buffer.Advance` | CShroudDAW/Infrastructure/Cores/Xray/Protos/common/buf/buffer.go:194-200 | Negative positions count from the end, too large ones empty the window, ones before the window uncover bytes already read |
| `Buffers.Buffer.Resize` | CShroudDAW/Infrastructure/Cores/Xray/Protos/common/buf/buffer.go:178-191 | It panics exactly when the positions are reversed, and the result is a window of the array if and only if the new end is inside it |
| `Buffers.Compact` | CShroudDAW/Infrastructure/Cores/Xray/Protos/common/buf/multi_buffer.go:137-158 | The loop over buffers that are mutated in place computes the merged windows, or panics, exactly as the window model says |
| `Buffers.CompactIff` | CShroudDAW/Infrastructure/Cores/Xray/Protos/common/buf/multi_buffer.go:137-158 | Compact returns the same bytes without a panic if and only if every merged buffer is non-empty and fits behind the window it is merged into |
| `Buffers.StandardMergeable` | CShroudDAW/Infrastructure/Cores/Xray/Protos/common/buf/multi_buffer.go:145-153 | Zero-offset standard buffers with non-empty later members always meet that condition |
| `Buffers.CompactTight` | CShroudDAW/Infrastructure/Cores/Xray/Protos/common/buf/multi_buffer.go:145-157 | No two neighbours of the result would fit into one buffer |
| `Buffers.MergedBytes` | CShroudDAW/Infrastructure/Cores/Xray/Protos/common/buf/multi_buffer.go:39-54 | Merging appends all the bytes, in order |
| `Buffers.MergedStandard` | CShroudDAW/Infrastructure/Cores/Xray/Protos/common/buf/multi_buffer.go:39-54 | On a standard last buffer the windows do what the list of segments does |
| `Buffers.MergeBytes` | CShroudDAW/Infrastructure/Cores/Xray/Protos/common/buf/multi_buffer.go:39-54 | The last buffer is filled in place and new buffers follow, never sharing an array |
| `Buffers.SplitBytes` | CShroudDAW/Infrastructure/Cores/Xray/Protos/common/buf/multi_buffer.go:100-123 | The loop over mutable buffers refines the split on segments |
| `Buffers.SplitSize` | CShroudDAW/Infrastructure/Cores/Xray/Protos/common/buf/multi_buffer.go:173-204 | Splitting buffers refines the split on segments; it panics exactly when the front of a longer first buffer is asked for beyond one buffer size |
| `Buffers.SplitFirst` | CShroudDAW/Infrastructure/Cores/Xray/Protos/common/buf/multi_buffer.go:161-170 | First buffer and rest make the list; there is none exactly for the empty list |
| `Buffers.SplitMulti` | CShroudDAW/Infrastructure/Cores/Xray/Protos/common/buf/multi_buffer.go:207-217 | The two parts join to the list, cut at the index if that is inside |
| `BufferedWriter.BufferedWriter.FlushInternal` | CShroudDAW/Infrastructure/Cores/Xray/Protos/common/buf/writer.go:175-190 | What is held back is handed on, or lost if the writer fails |
| `BufferedWriter.BufferedWriter.Flush` | CShroudDAW/Infrastructure/Cores/Xray/Protos/common/buf/writer.go:168-173 | After a successful flush everything written has been handed on |
| `BufferedWriter.BufferedWriter.SetBuffered` | CShroudDAW/Infrastructure/Cores/Xray/Protos/common/buf/writer.go:193-202 | Switching buffering off hands everything on first, so order is kept; switching it on changes nothing else |
| `BufferedWriter.BufferedWriter.Write` | CShroudDAW/Infrastructure/Cores/Xray/Protos/common/buf/writer.go:98-132 | Flushed plus buffered grows by exactly the data, and while buffering is on only what lies behind the last full buffer is held back; after a failure it is a front part of everything |
| `BufferedWriter.BufferedWriter.WriteMultiBuffer` | CShroudDAW/Infrastructure/Cores/Xray/Protos/common/buf/writer.go:135-165 | The same for a MultiBuffer, through the buffer or straight on |
| `Nonces.IncrementedValue` | CShroudDAW/Infrastructure/Cores/Xray/Protos/common/crypto/auth.go:30-41 | The carry loop adds one to the little-endian value, modulo 256^n |
| `Nonces.NonceValue` | CShroudDAW/Infrastructure/Cores/Xray/Protos/common/crypto/auth.go:30-41 | The k-th nonce is the start value plus k, modulo 256^n |
| `Nonces.NoncesRepeat` | CShroudDAW/Infrastructure/Cores/Xray/Protos/common/crypto/auth.go:30-41 | Two calls give the same nonce if and only if they are a multiple of 256^n calls apart |
| `Nonces.NoncesDistinct` | CShroudDAW/Infrastructure/Cores/Xray/Protos/common/crypto/auth.go:30-41 | No nonce repeats within 256^n calls, as section 3.1 of RFC 5116 demands |
| `Nonces.Increment` | CShroudDAW/Infrastructure/Cores/Xray/Protos/common/crypto/auth.go:33-38 | The in-place loop with its early exit is the increment |
| `Nonces.NonceGenerator.Next` | CShroudDAW/Infrastructure/Cores/Xray/Protos/common/crypto/auth.go:30-41 | The generator returns nonce number k at call k |
| `AuthStream.SizeRoundTrip` | CShroudDAW/Infrastructure/Cores/Xray/Protos/common/crypto/chunk.go:28-64 | Every chunk size below 65536 decodes to itself, in clear or sealed, with the wrap-around of 16 bits |
| `AuthStream.SizeInHeader` | CShroudDAW/Infrastructure/Cores/Xray/Protos/common/crypto/chunk.go:28-64 | A size header is two bytes, high byte first, in clear or sealed: the length of the body that follows, less the overhead if sealed |
| `AuthStream.PayloadKeyNonceAt` | CShroudDAW/Infrastructure/Cores/Xray/Protos/common/crypto/auth.go:77-88 | Call i under the payload key, sizes and payloads together if they share it, uses the start value plus i, modulo 256^n |
| `AuthStream.SizeKeyNonceAt` | CShroudDAW/Infrastructure/Cores/Xray/Protos/common/crypto/auth.go:77-88 | The same for a key of the size parser |
| `AuthStream.PayloadKeyDistinct` | CShroudDAW/Infrastructure/Cores/Xray/Protos/common/crypto/auth.go:77-88 | Two calls of one stream under the payload key use the same nonce if and only if they are a multiple of 256^n calls apart, for each of the three size parsers |
| `AuthStream.SizeKeyDistinct` | CShroudDAW/Infrastructure/Cores/Xray/Protos/common/crypto/auth.go:77-88 | The same under a key of the size parser |
| `AuthStream.LawfulIsReadable` | CShroudDAW/Infrastructure/Cores/Xray/Protos/common/crypto/auth.go:249-276 | Whatever a lawful suite seals can be read back chunk by chunk |
| `AuthStream.HeaderInFront` | CShroudDAW/Infrastructure/Cores/Xray/Protos/common/crypto/auth.go:119-133 | Taking a size header off the wire yields the size of the next chunk |
| `AuthStream.BodyInFront` | CShroudDAW/Infrastructure/Cores/Xray/Protos/common/crypto/auth.go:137-151 | Taking that many bytes then yields the sealed chunk and its padding, and stands at the next chunk |
| `AuthReader.AuthenticationReader.DecodeSize` | CShroudDAW/Infrastructure/Cores/Xray/Protos/common/crypto/auth.go:119-133 | The header of chunk k is opened with its own nonce, which is the next one of its key, and the padding and size generators advance in step with the writer |
| `AuthReader.AuthenticationReader.ReadSize` | CShroudDAW/Infrastructure/Cores/Xray/Protos/common/crypto/auth.go:119-133 | The next size is read, from the cached one if a soft read left it, or the stream has ended |
| `AuthReader.AuthenticationReader.ReadBody` | CShroudDAW/Infrastructure/Cores/Xray/Protos/common/crypto/auth.go:137-151 | The k-th open uses the nonce of the k-th seal and returns its plaintext |
| `AuthReader.AuthenticationReader.ReadChunk` | CShroudDAW/Infrastructure/Cores/Xray/Protos/common/crypto/auth.go:153-204 | A soft read takes a chunk only from bytes already buffered, a blocking one always |
| `AuthReader.AuthenticationReader.TakeChunk` | CShroudDAW/Infrastructure/Cores/Xray/Protos/common/crypto/auth.go:179-204 | A chunk taken is the next chunk |
| `AuthReader.AuthenticationReader.Remember` | CShroudDAW/Infrastructure/Cores/Xray/Protos/common/crypto/auth.go:172-177 | A soft read that finds too few bytes keeps the size it has read and loses nothing |
| `AuthReader.AuthenticationReader.ReadInternal` | CShroudDAW/Infrastructure/Cores/Xray/Protos/common/crypto/auth.go:153-204 | One internal read appends the next chunk, or leaves the stream where it is |
| `AuthReader.AuthenticationReader.ReadMultiBuffer` | CShroudDAW/Infrastructure/Cores/Xray/Protos/common/crypto/auth.go:206-226 | What is returned and what is still ahead make up what was ahead |
| `AuthReader.AuthenticationReader.ReadMore` | CShroudDAW/Infrastructure/Cores/Xray/Protos/common/crypto/auth.go:214-223 | The soft reads go on with the next chunks, and keep each in a buffer of its own |
| `AuthReader.Drain` | CShroudDAW/Infrastructure/Cores/Xray/Protos/common/crypto/auth.go:206-226 | Reading to the end returns everything that was ahead, chunk by chunk if they have standard size |
| `AuthWriter.OneMore` | CShroudDAW/Infrastructure/Cores/Xray/Protos/common/crypto/auth.go:249-276 | One more sealed chunk extends the wire, the plaintext and well-formedness |
| `AuthWriter.AuthenticationWriter.EncodeSize` | CShroudDAW/Infrastructure/Cores/Xray/Protos/common/crypto/chunk.go:34-56 | The size header is sealed with the next nonce of the key it belongs to, and that nonce is added to the ones used |
| `AuthWriter.AuthenticationWriter.Seal` | CShroudDAW/Infrastructure/Cores/Xray/Protos/common/crypto/auth.go:249-276 | A piece becomes header and body of chunk k exactly when it fits a buffer with the padding drawn for it, each under the next nonce of its key; a refused one has drawn its padding all the same |
| `AuthWriter.AuthenticationWriter.WriteStream` | CShroudDAW/Infrastructure/Cores/Xray/Protos/common/crypto/auth.go:278-310 | Stream mode cuts the bytes anew and seals all of them in order |
| `AuthWriter.AuthenticationWriter.WriteMultiBuffer` | CShroudDAW/Infrastructure/Cores/Xray/Protos/common/crypto/auth.go:338-350 | In stream mode a non-empty write extends the plaintext, an empty one seals the end marker |
| `AuthWriter.AuthenticationWriter.WritePacket` | CShroudDAW/Infrastructure/Cores/Xray/Protos/common/crypto/auth.go:312-335 | What is written in every case: each non-empty buffer draws padding and becomes a chunk, in order and with that padding, exactly if it fits; the nonces stay in step |
| `AuthWriter.KeptAllIff` | CShroudDAW/Infrastructure/Cores/Xray/Protos/common/crypto/auth.go:312-335 | All packets are written if and only if all fit, and then their padding agrees with what the reader draws; otherwise fewer are written |
| `AuthWriter.ConstantAgrees` | CShroudDAW/Infrastructure/Cores/Xray/Protos/common/crypto/auth.go:249-262 | Without a padding generator, or with a constant one, the draws agree whatever is dropped |
| `AuthWriter.AgreeingReadable` | CShroudDAW/Infrastructure/Cores/Xray/Protos/common/crypto/auth.go:119-151 | Chunks whose padding the reader draws too can all be read back |
| `AuthWriter.SendAndReceivePackets` | CShroudDAW/Infrastructure/Cores/Xray/Protos/common/crypto/auth.go:312-335 | If the draws agree, the reader returns exactly the kept packets, each in a buffer of its own, for every segmentation; that is everything if and only if every packet fits |
| `AuthWriter.DroppedPacketShifts` | CShroudDAW/Infrastructure/Cores/Xray/Protos/common/crypto/auth.go:249-276 | A run of writer and reader in which a dropped packet makes the reader return the next one with a byte of padding at its end |
| `AuthWriter.SendAndReceive` | CShroudDAW/Infrastructure/Cores/Xray/Protos/common/crypto/auth.go:153-350 | Everything written is read back: every sequence of writes, every padding, every segmentation of the ciphertext, soft reads included |
| `Address.IPAddress` | CShroudDAW/Infrastructure/Cores/Xray/Protos/common/net/address.go:100-121 | Four bytes are IPv4, sixteen IPv6, IPv4-mapped ones (section 2.5.5.2 of RFC 4291) the IPv4 address in their last four bytes, anything else is no address; the result is never a mapped IPv6 address |
| `Address.DomainRoundTrip` | CShroudDAW/Infrastructure/Cores/Xray/Protos/common/protocol/address.go:204-222 | A domain survives if and only if it has 1 to 255 valid bytes and is not read back as an IP literal |
| `Address.AddressRoundTrip` | CShroudDAW/Infrastructure/Cores/Xray/Protos/common/protocol/address.go:174-259 | Reading what was written returns the address and leaves the following bytes, if and only if it is one of these |
| `Address.AddressPortRoundTrip` | CShroudDAW/Infrastructure/Cores/Xray/Protos/common/protocol/address.go:87-142 | The same with the port, in both port orders |
| `Address.AddressPortLength` | CShroudDAW/Infrastructure/Cores/Xray/Protos/common/protocol/address.go:105-142 | An address with its port takes at most 259 bytes |
| `MuxFrame.DestinationRoundTrip` | CShroudDAW/Infrastructure/Cores/Xray/Protos/common/mux/frame.go:65-97 | A destination in a header decodes to itself and leaves the rest |
| `MuxFrame.ParseDestination` | CShroudDAW/Infrastructure/Cores/Xray/Protos/common/mux/frame.go:120-160 | What the decoder makes of network byte, address and port, and of eight more bytes as a global identifier |
| `MuxFrame.NewRoundTrip` | CShroudDAW/Infrastructure/Cores/Xray/Protos/common/mux/frame.go:65-160 | A New header decodes to itself within 272 bytes |
| `MuxFrame.OtherRoundTrip` | CShroudDAW/Infrastructure/Cores/Xray/Protos/common/mux/frame.go:65-160 | Keep, End and KeepAlive headers decode to themselves, a UDP source on Keep included |
| `MuxFrame.MetaRoundTrip` | CShroudDAW/Infrastructure/Cores/Xray/Protos/common/mux/frame.go:65-160 | Every header a writer can produce decodes to what the receiver should see, within 272 bytes, below the limit of 512 |
| `MuxFrame.NewLayout` | CShroudDAW/Infrastructure/Cores/Xray/Protos/common/mux/frame.go:44-97 | Where the fields of a New header lie, as the frame format says: session, status, option, network, port, address type and address |
| `MuxCopy.ChunkStreamReader.ReadSize` | CShroudDAW/Infrastructure/Cores/Xray/Protos/common/crypto/chunk.go:95-100 | The size prefix announces exactly the payload |
| `MuxCopy.ChunkStreamReader.ReadMultiBuffer` | CShroudDAW/Infrastructure/Cores/Xray/Protos/common/crypto/chunk.go:102-126 | A read returns the next part of the payload and never a byte beyond it |
| `MuxCopy.Copy` | CShroudDAW/Infrastructure/Cores/Xray/Protos/common/buf/copy.go:91-121 | How a copy ends for every answer of the output: the pieces written are those of the segmentation, what is delivered is the pieces before the first refusal, and what is unread is the pieces behind it |
| `MuxServer.ServerWorker.Discard` | CShroudDAW/Infrastructure/Cores/Xray/Protos/common/mux/server.go:113-118 | Discarding a payload stands exactly behind it |
| `MuxServer.ServerWorker.DeliverStream` | CShroudDAW/Infrastructure/Cores/Xray/Protos/common/mux/server.go:257-266 | What reaches a stream session, whether it refused, and what of the payload is left on the link, for every answer |
| `MuxServer.ServerWorker.DeliverPacket` | CShroudDAW/Infrastructure/Cores/Xray/Protos/common/mux/reader.go:30-54 | A packet is taken off the link whole, and reaches its session with the destination of its frame unless the session refuses it |
| `MuxServer.ServerWorker.Deliver` | CShroudDAW/Infrastructure/Cores/Xray/Protos/common/mux/server.go:257-266 | Either kind of session: the new state, with a refusing session closed, and where the reader stands |
| `MuxServer.ServerWorker.HandleKeep` | CShroudDAW/Infrastructure/Cores/Xray/Protos/common/mux/server.go:243-267 | Keep for a live, unknown or refusing session: the whole new state, an End sent back for an unknown one, a refusing one closed, and what is left of the payload |
| `MuxServer.ServerWorker.HandleEndOrKeepAlive` | CShroudDAW/Infrastructure/Cores/Xray/Protos/common/mux/server.go:269-277 | End and KeepAlive consume their payload; End removes its session and no other, KeepAlive changes none |
| `MuxServer.ServerWorker.HandleNew` | CShroudDAW/Infrastructure/Cores/Xray/Protos/common/mux/server.go:120-241 | New opens a session and delivers its payload; a wrong network or a failed dispatch is an error that changes no session |
| `MuxServer.ServerWorker.Unmarshal` | CShroudDAW/Infrastructure/Cores/Xray/Protos/common/mux/frame.go:100-116 | The next header is decoded for every segmentation, and only it is consumed |
| `MuxServer.ServerWorker.HandleFrame` | CShroudDAW/Infrastructure/Cores/Xray/Protos/common/mux/server.go:279-304 | For every frame, segmentation and answer: the whole new state, and the reader at the next frame except for exactly the pieces behind one that was refused with EOF |
| `MuxServer.ServerWorker.Run` | CShroudDAW/Infrastructure/Cores/Xray/Protos/common/mux/server.go:306-327 | Until the link ends or a session is not let in, the loop handles every frame, whatever is refused, as long as no piece before the last one of a payload is refused with EOF; then it closes every session |
| `MuxServer.ServerWorker.CloseAll` | CShroudDAW/Infrastructure/Cores/Xray/Protos/common/mux/server.go:310-310 | Every live session is closed at the end, once |
| `MuxState.AllAccepted` | CShroudDAW/Infrastructure/Cores/Xray/Protos/common/mux/server.go:243-267 | If every piece is accepted, segmentation and answers do not matter and nothing is lost |
| `MuxState.LosesIff` | CShroudDAW/Infrastructure/Cores/Xray/Protos/common/mux/server.go:257-266 | Part of a payload is left in front of the next frame if and only if a piece of it before the last one is refused with EOF |
| `MuxState.NeverQuietKeepsPlace` | CShroudDAW/Infrastructure/Cores/Xray/Protos/common/mux/server.go:306-327 | If no output answers with EOF, no segmentation can make the reader lose its place in a run |
| `MuxState.QuietRefusalLoses` | CShroudDAW/Infrastructure/Cores/Xray/Protos/common/mux/server.go:257-266 | For every stream frame of two bytes or more there is a segmentation and an answer after which the rest of its payload stands where the next frame should |
| `MuxWriter.NextFrame` | CShroudDAW/Infrastructure/Cores/Xray/Protos/common/mux/writer.go:67-83 | One more frame on the wire is one more frame for the receiver |
| `MuxWriter.SplitChunk` | CShroudDAW/Infrastructure/Cores/Xray/Protos/common/mux/writer.go:93-115 | Chunks of at most 8192 bytes, nothing lost, always progress |
| `MuxWriter.Writer.WriteFrame` | CShroudDAW/Infrastructure/Cores/Xray/Protos/common/mux/writer.go:41-83 | The first frame is New with the destination, later ones Keep, each decodable |
| `MuxWriter.Writer.WriteMetaOnly` | CShroudDAW/Infrastructure/Cores/Xray/Protos/common/mux/writer.go:58-65 | An empty write sends one frame without data and nothing else |
| `MuxWriter.Writer.WriteData` | CShroudDAW/Infrastructure/Cores/Xray/Protos/common/mux/writer.go:100-112 | One turn of the loop: bytes sent and bytes left are conserved, packets one by one |
| `MuxWriter.Writer.WriteMultiBuffer` | CShroudDAW/Infrastructure/Cores/Xray/Protos/common/mux/writer.go:93-115 | All bytes go out in order, with packet boundaries kept for packet sessions; an empty write sends a bare header |
| `MuxWriter.Writer.Close` | CShroudDAW/Infrastructure/Cores/Xray/Protos/common/mux/writer.go:118-132 | Exactly one End frame, marked if an error was noted |
| `MuxDemux.NonInterference` | CShroudDAW/Infrastructure/Cores/Xray/Protos/common/mux/server.go:279-304 | What a session sees depends on its own frames and its own answers only, in every interleaving and whatever other sessions refuse |
| `MuxDemux.SessionAlone` | CShroudDAW/Infrastructure/Cores/Xray/Protos/common/mux/server.go:120-304 | A session alone on the link is opened, gets its payloads and is closed |
| `MuxDemux.Demultiplexing` | CShroudDAW/Infrastructure/Cores/Xray/Protos/common/mux/server.go:243-304 | In any interleaving a session that accepts what it gets sees Opened, exactly its payloads in order with packet boundaries, Closed, whatever others answer |
| `MuxDemux.SessionPackets` | CShroudDAW/Infrastructure/Cores/Xray/Protos/common/mux/reader.go:30-54 | The packets that reach a packet session are the non-empty buffers written, in order: one in the New frame with the destination of the session, any other with its own or, if it has none, without |
| `MuxDemux.StreamPackets` | CShroudDAW/Infrastructure/Cores/Xray/Protos/common/mux/server.go:243-267 | What reaches a stream session carries no destination |
| `MuxDemux.InterleavingDecodes` | CShroudDAW/Infrastructure/Cores/Xray/Protos/common/mux/server.go:279-304 | An interleaving of the frames of writers decodes frame by frame |
| `MuxDemux.ReceiveSessions` | CShroudDAW/Infrastructure/Cores/Xray/Protos/common/mux/server.go:243-327 | Both ends of a link: any sessions and writes, their frames interleaved and their bytes cut in any way; as long as the reader keeps its place, every session that accepts is delivered exactly the bytes, and for packets the packets with their destinations, that were written to it |
| `MuxDemux.WriteAll` | CShroudDAW/Infrastructure/Cores/Xray/Protos/common/mux/writer.go:93-115 | Any number of writes: bytes and packets add up |
| `MuxDemux.WriteSession` | CShroudDAW/Infrastructure/Cores/Xray/Protos/common/mux/writer.go:41-132 | A session from first write to Close produces New, Keep*, End carrying exactly its writes |
| `MuxSession.Session.Close` | CShroudDAW/Infrastructure/Cores/Xray/Protos/common/mux/session.go:161-191 | Closing is permanent, releases once and removes the session from an open manager |
| `MuxSession.SessionManager.Allocate` | CShroudDAW/Infrastructure/Cores/Xray/Protos/common/mux/session.go:53-68 | A fresh session under the next 16-bit identifier, or nothing once closed |
| `MuxSession.SessionManager.Add` | CShroudDAW/Infrastructure/Cores/Xray/Protos/common/mux/session.go:70-81 | An open session is entered under its own identifier while the manager is open |
| `MuxSession.SessionManager.Remove` | CShroudDAW/Infrastructure/Cores/Xray/Protos/common/mux/session.go:83-101 | Exactly one entry goes |
| `MuxSession.SessionManager.Get` | CShroudDAW/Infrastructure/Cores/Xray/Protos/common/mux/session.go:103-113 | A found session has the identifier asked for and is not closed |
| `MuxSession.SessionManager.CloseIfNoSession` | CShroudDAW/Infrastructure/Cores/Xray/Protos/common/mux/session.go:115-129 | The manager closes exactly when it is empty, and stays closed |
| `MuxSession.SessionManager.Close` | CShroudDAW/Infrastructure/Cores/Xray/Protos/common/mux/session.go:131-147 | Every session in the table is closed and released once |
| `MuxSession.CloseOne` | CShroudDAW/Infrastructure/Cores/Xray/Protos/common/mux/session.go:161-191 | Closing a session keeps the table invariant and removes at most its own identifier |
| `MuxSession.AllocateMany` | CShroudDAW/Infrastructure/Cores/Xray/Protos/common/mux/session.go:53-68 | Identifiers repeat exactly every 65536 allocations |
| `MuxPool.ClientWorker.Dispatch` | CShroudDAW/Infrastructure/Cores/Xray/Protos/common/mux/client.go:291-305 | A worker accepts exactly when it is neither full nor closed, and stays within its concurrency |
| `MuxPool.IncrementalWorkerPicker.FindAvailable` | CShroudDAW/Infrastructure/Cores/Xray/Protos/common/mux/client.go:77-85 | The first worker that is not full, or none |
| `MuxPool.IncrementalWorkerPicker.Cleanup` | CShroudDAW/Infrastructure/Cores/Xray/Protos/common/mux/client.go:67-75 | The unfinished workers stay, in order |
| `MuxPool.IncrementalWorkerPicker.PickExisting` | CShroudDAW/Infrastructure/Cores/Xray/Protos/common/mux/client.go:91-98 | The swap only permutes, and the pick is the worker that was last |
| `MuxPool.IncrementalWorkerPicker.Create` | CShroudDAW/Infrastructure/Cores/Xray/Protos/common/mux/client.go:100-116 | The unfinished workers stay and a fresh free one goes last, if the factory works |
| `MuxPool.IncrementalWorkerPicker.PickAvailable` | CShroudDAW/Infrastructure/Cores/Xray/Protos/common/mux/client.go:87-125 | Both cases of a pick |
| `MuxPool.Attempt` | CShroudDAW/Infrastructure/Cores/Xray/Protos/common/mux/client.go:29-41 | One attempt: accepted, refused or no worker, and the pool afterwards |
| `MuxPool.Dispatch` | CShroudDAW/Infrastructure/Cores/Xray/Protos/common/mux/client.go:29-41 | With no free worker it succeeds exactly if one can be created; otherwise exactly if one of the two workers ever picked takes the session |
| `MuxPool.SucceedsIff` | CShroudDAW/Infrastructure/Cores/Xray/Protos/common/mux/client.go:29-98 | Any number of attempts from three on succeeds if and only if the last or the first free worker, or with a full last one the first two free ones, include an open one |
| `MuxPool.Outlook` | CShroudDAW/Infrastructure/Cores/Xray/Protos/common/mux/client.go:29-41 | Success comes by the third attempt, by the second if no worker is about to close, and otherwise all sixteen attempts are made |
| `MuxPool.ClosingPoolFails` | CShroudDAW/Infrastructure/Cores/Xray/Protos/common/mux/client.go:212-229 | A pool whose only free worker has closed its table and is not yet marked as done: every attempt fails although a worker could be created |
| `MuxDispatch.StepKeepsBound` | CShroudDAW/Infrastructure/Cores/Xray/Protos/common/mux/client.go:279-305 | Every step of racing dispatchers keeps sessions plus dispatchers past their check within the bound |
| `MuxDispatch.RunKeepsBound` | CShroudDAW/Infrastructure/Cores/Xray/Protos/common/mux/client.go:279-305 | So does every run |
| `MuxDispatch.ConcurrencyBound` | CShroudDAW/Infrastructure/Cores/Xray/Protos/common/mux/client.go:279-305 | k dispatchers never hold more than MaxConcurrency + k - 1 sessions, and so MaxConcurrency when k is 1; likewise for connections |
| `MuxDispatch.BoundIsReached` | CShroudDAW/Infrastructure/Cores/Xray/Protos/common/mux/client.go:279-305 | The bound is tight: some run reaches it, for every k |
| `Lru.Cache.MoveToFront` | CShroudDAW/Infrastructure/Cores/Xray/Protos/common/cache/lru.go:44-45 | Moving to the front puts that pair first, keeps the others in order, and keeps list and indices in agreement |
| `Lru.Cache.Get` | CShroudDAW/Infrastructure/Cores/Xray/Protos/common/cache/lru.go:40-49 | The answer and the new order are those of the recency-ordered list |
| `Lru.Cache.GetKeyFromValue` | CShroudDAW/Infrastructure/Cores/Xray/Protos/common/cache/lru.go:51-60 | The same by value |
| `Lru.Cache.PeekKeyFromValue` | CShroudDAW/Infrastructure/Cores/Xray/Protos/common/cache/lru.go:62-68 | The same answer without touching the order |
| `Lru.Cache.Put` | CShroudDAW/Infrastructure/Cores/Xray/Protos/common/cache/lru.go:70-89 | List and both indices still agree if and only if the pair was cached or its key and value were both absent; then the result is that of the list |
| `Lru.Cache.Replace` | CShroudDAW/Infrastructure/Cores/Xray/Protos/common/cache/lru.go:73-76 | A cached key keeps the agreement exactly when its value does not change; its pair then moves to the front |
| `Lru.Cache.Insert` | CShroudDAW/Infrastructure/Cores/Xray/Protos/common/cache/lru.go:77-87 | A new key keeps the agreement exactly when its value is new too |
| `Lru.LookupsInverse` | CShroudDAW/Infrastructure/Cores/Xray/Protos/common/cache/lru.go:40-68 | Key and value lookups are inverse to each other |
| `Lru.Perform` | CShroudDAW/Infrastructure/Cores/Xray/Protos/common/cache/lru.go:40-89 | Each operation of a proper run answers as the list does |
| `Lru.Serve` | CShroudDAW/Infrastructure/Cores/Xray/Protos/common/cache/lru.go:40-89 | So does every proper run; a new cache then lists exactly the pairs used last, as many as its capacity, by time of last use |
| `Lru.ListsMostRecent` | CShroudDAW/Infrastructure/Cores/Xray/Protos/common/cache/lru.go:40-89 | After every run from empty: the pairs listed are ordered by the time of their last use, at most capacity of them, and a pair that was used and is not listed was used before all of them while the list is full |
| `Lru.MostRecentUnique` | CShroudDAW/Infrastructure/Cores/Xray/Protos/common/cache/lru.go:40-89 | Only one list has this property |
| `Lru.PushedOutIff` | CShroudDAW/Infrastructure/Cores/Xray/Protos/common/cache/lru.go:77-87 | An operation pushes a pair out if and only if it puts an unlisted pair into a full cache and all other pairs were used later |
| `DnsCache.NameServer.UpdateIP` | CShroudDAW/Infrastructure/Cores/Xray/Protos/app/dns/nameserver_udp.go:172-202 | A record slot is replaced only by a later-expiring one |
| `DnsCache.NameServer.Cleanup` | CShroudDAW/Infrastructure/Cores/Xray/Protos/app/dns/nameserver_udp.go:73-113 | Exactly the expired slots, empty records and expired requests go; it reports whether there was anything to do |
| `DnsCache.NameServer.FindIPsForDomain` | CShroudDAW/Infrastructure/Cores/Xray/Protos/app/dns/nameserver_udp.go:233-271 | The answer from the two slots: addresses joined, ttl of the last family asked, errors in order; AnswerMeans says what it is in terms of the responses received |
| `DnsCache.LatestIsLatest` | CShroudDAW/Infrastructure/Cores/Xray/Protos/app/dns/dnscommon.go:52-60 | Keeping the newer record at each step keeps the latest-expiring of all, the first received among equals |
| `DnsCache.LatestUnique` | CShroudDAW/Infrastructure/Cores/Xray/Protos/app/dns/dnscommon.go:52-60 | There is only one such record |
| `DnsCache.Replay` | CShroudDAW/Infrastructure/Cores/Xray/Protos/app/dns/nameserver_udp.go:73-202 | The server carries out any sequence of updates and cleanups as the pure run |
| `DnsCache.SlotsAgree` | CShroudDAW/Infrastructure/Cores/Xray/Protos/app/dns/nameserver_udp.go:73-202 | After any run each slot is what the reference remembers, or both have expired |
| `DnsCache.CleanupInvisible` | CShroudDAW/Infrastructure/Cores/Xray/Protos/app/dns/nameserver_udp.go:73-271 | With a family enabled, a query no earlier than the cleanups gets the answer of a server that keeps every response |
| `DnsCache.InvisibleIff` | CShroudDAW/Infrastructure/Cores/Xray/Protos/app/dns/nameserver_udp.go:233-271 | Cleanup is invisible to all such queries if and only if at least one family is enabled |
| `DnsCache.AnswerMeans` | CShroudDAW/Infrastructure/Cores/Xray/Protos/app/dns/nameserver_udp.go:233-271 | After any run, a query for at least one family gets the addresses of the latest responses that are live and successful, A before AAAA, with the whole seconds left of the last family asked; if there are none, the reason is that of the first enabled family that is absent, expired or failed, and empty only if all are live and successful |
| `DnsCache.AnswerUnique` | CShroudDAW/Infrastructure/Cores/Xray/Protos/app/dns/dnscommon.go:41-50 | There is only one such answer while deadlines fit 32 bits of seconds |
| `LeastLoad.StrictTotalOrder` | CShroudDAW/Infrastructure/Cores/Xray/Protos/app/router/strategy_leastload.go:185-203 | The comparator is a strict total order on nodes with distinct tags |
| `LeastLoad.LessMeans` | CShroudDAW/Infrastructure/Cores/Xray/Protos/app/router/strategy_leastload.go:185-203 | It compares cost, average and failures upwards, number of probes downwards, then the tag, the first difference deciding |
| `LeastLoad.NotAfterTransitive` | CShroudDAW/Infrastructure/Cores/Xray/Protos/app/router/strategy_leastload.go:185-203 | It is a weak order for any tags |
| `LeastLoad.SortingUnique` | CShroudDAW/Infrastructure/Cores/Xray/Protos/app/router/strategy_leastload.go:185-203 | With distinct tags there is one sorted arrangement, whatever the algorithm |
| `LeastLoad.LeastLoadSort` | CShroudDAW/Infrastructure/Cores/Xray/Protos/app/router/strategy_leastload.go:185-203 | A sorted permutation |
| `LeastLoad.Advance` | CShroudDAW/Infrastructure/Cores/Xray/Protos/app/router/strategy_leastload.go:123-128 | The inner loop finds the boundary of a baseline from where the last one stopped |
| `LeastLoad.SelectLeastLoad` | CShroudDAW/Infrastructure/Cores/Xray/Protos/app/router/strategy_leastload.go:101-139 | Always a prefix; on ascending costs its length is the closed form over Expected and the running maximum of Baselines |
| `LeastLoad.SelectsUnique` | CShroudDAW/Infrastructure/Cores/Xray/Protos/app/router/strategy_leastload.go:101-139 | The closed form names one length |
| `LeastLoad.SelectsPermuted` | CShroudDAW/Infrastructure/Cores/Xray/Protos/app/router/strategy_leastload.go:101-139 | It depends on the costs, not on their order |
| `LeastLoad.GetNodes` | CShroudDAW/Infrastructure/Cores/Xray/Protos/app/router/strategy_leastload.go:141-183 | The qualified outbounds, each once, sorted; none without an observation |
| `LeastLoad.QualifiedMeans` | CShroudDAW/Infrastructure/Cores/Xray/Protos/app/router/strategy_leastload.go:141-181 | A node is qualified if and only if it stands for an observed outbound that is alive, a candidate and within maxRTT in whole milliseconds, with its statistics or, if there are none, one failed probe |
| `LeastLoad.PickOutbounds` | CShroudDAW/Infrastructure/Cores/Xray/Protos/app/router/strategy_leastload.go:79-83 | The selection is the best part of the qualified outbounds by cost, average, failures, probes and tag, of the size the closed form gives for them |
| `Features.Instance.FoundAll` | CShroudDAW/Infrastructure/Cores/Xray/Protos/core/xray.go:291-298 | Whether every dependency is registered |
| `Features.Instance.Separate` | CShroudDAW/Infrastructure/Cores/Xray/Protos/core/xray.go:325-341 | What has become available and what still waits, in order |
| `Features.Instance.RequireFeatures` | CShroudDAW/Infrastructure/Cores/Xray/Protos/core/xray.go:274-311 | Called at once if ready, with the error of the callback, otherwise waiting without one; all invariants kept through whatever the callback does, and nothing is required or registered beyond what was asked for |
| `Features.Instance.Release` | CShroudDAW/Infrastructure/Cores/Xray/Protos/core/xray.go:322-361 | The locked part: everything the feature completes leaves the lists, nothing is lost or doubled |
| `Features.Instance.AddFeature` | CShroudDAW/Infrastructure/Cores/Xray/Protos/core/xray.go:314-368 | Registers and calls what is completed, returning the last error; on a running instance only starts the feature; invariants kept through re-entrant calls |
| `Features.Instance.CallAll` | CShroudDAW/Infrastructure/Cores/Xray/Protos/core/xray.go:363-368 | Everything released is called in order, and the error is that of the last |
| `Features.Instance.Callback` | CShroudDAW/Infrastructure/Cores/Xray/Protos/core/xray.go:47-79 | A callback is called with all its features registered, everything it asks for is carried out and nothing else, and its error is passed on |
| `Features.Instance.Execute` | CShroudDAW/Infrastructure/Cores/Xray/Protos/core/xray.go:274-368 | Any program of requires and adds, nested to any depth, ends and keeps the invariants; what is done is what the program and the callbacks it sets off ask for, each as often as asked |
| `Features.CalledExactly` | CShroudDAW/Infrastructure/Cores/Xray/Protos/core/xray.go:274-368 | After any run each callback was called as often as it was required if its features are registered, otherwise never; the others wait |
| `Features.AllResolvedIff` | CShroudDAW/Infrastructure/Cores/Xray/Protos/core/xray.go:230-235 | The start-up check passes if and only if every callback that is not optional has its features |
| `Features.SetUp` | CShroudDAW/Infrastructure/Cores/Xray/Protos/core/xray.go:184-220 | Over every set-up of an instance: a callback is called as often as the program and the called callbacks require it if its features are registered, and never otherwise; the features registered are those that they add |
| `KeyQuota.User.AddKey` | CShroudGateway/Infrastructure/Services/VpnKeyService.cs:40-62 | Added exactly when all keys are below the limit, the key has a server and a mapped protocol and the node accepts; forbidden exactly at the limit |
| `KeyQuota.User.DelKey` | CShroudGateway/Infrastructure/Services/VpnKeyService.cs:64-71 | Exactly that key goes |
| `KeyQuota.User.ForceEnableKey` | CShroudGateway/Infrastructure/Services/VpnKeyService.cs:73-87 | Enabled exactly when server, protocol and node allow it; throws exactly without a server |
| `KeyQuota.User.EnableKey` | CShroudGateway/Infrastructure/Services/VpnKeyService.cs:89-104 | Revoked keys are refused, and disabled ones when the quota of enabled keys is used up |
| `KeyQuota.User.DisableKey` | CShroudGateway/Infrastructure/Services/VpnKeyService.cs:106-122 | Revoked keys are refused, the others end up disabled |
| `KeyQuota.User.ChangeRate` | CShroudGateway/Infrastructure/Services/RateManager.cs:16-37 | Revokes or re-enables exactly the keys the closed forms name |
| `KeyQuota.User.RevokeExcess` | CShroudGateway/Infrastructure/Services/RateManager.cs:21-29 | The loop over the enabled keys after the first MaxKeys revokes exactly those |
| `KeyQuota.User.EnableRevoked` | CShroudGateway/Infrastructure/Services/RateManager.cs:30-34 | The loop over the first revoked keys enables those their nodes accept and stops at one without a server |
| `KeyQuota.RatedWithinQuota` | CShroudGateway/Infrastructure/Services/RateManager.cs:16-37 | A change of rate brings any user within the quota, from any state and whatever the nodes answer |
| `KeyQuota.StepWithinQuota` | CShroudGateway/Infrastructure/Services/VpnKeyService.cs:40-122 | An operation leaves the quota if and only if it is a patch of the rate below the number of enabled keys |
| `KeyQuota.QuotaKept` | CShroudGateway/Infrastructure/Services/VpnKeyService.cs:40-122 | If every change of rate is applied, every state of every run is within the quota |
| `KeyQuota.QuotaKeptIff` | CShroudGateway/Presentation/Api/v1/Controllers/UserController.PatchById.cs:38-42 | Over every run with patches: no state is outside the quota if and only if every patch fits the enabled keys |
| `KeyQuota.ExcessShrinks` | CShroudGateway/Infrastructure/Services/VpnKeyService.cs:40-122 | Nothing but a patch ever adds to the number of enabled keys above the limit |
| `KeyQuota.RateRestoresQuota` | CShroudGateway/Infrastructure/Services/RateManager.cs:16-37 | Whatever happened before, the next rate that is applied brings the user back within the quota |
| `KeyQuota.PatchBreaks` | CShroudGateway/Presentation/Api/v1/Controllers/UserController.PatchById.cs:38-42 | A patch takes a user out of the quota if and only if more keys are enabled than the new rate allows |
| `KeyQuota.RestoredIff` | CShroudGateway/Infrastructure/Services/RateManager.cs:16-37 | With no key revoked at first and every node answering, two rate changes restore every status if and only if the second limit covers the keys enabled at first |
| `KeyQuota.Perform` | CShroudGateway/Infrastructure/Services/VpnKeyService.cs:40-122 | The services carry out the events of the runs |

## Left out

- XtlsFilterTls: an oracle that may set its flags at will; raw connection unwrapping and splice copy are left to the operating system.
- XUDP sessions of mux (non-zero global identifiers, migration between connections): they rest on pipes and goroutine timing.
- The client-side frame handlers of mux: they repeat the server's.
- MuxServer.ServerWorker.Run: for runs in which the reader keeps its place, since afterwards the link no longer carries frames; HandleFrame covers each frame with every answer.
- MuxServer: the goroutine that forwards a session's own output (`handle`, server.go:94-103) can close a session between two frames and is not modelled; the worker's table holds the transfer types only, and the operations of the shared table are those of MuxSession.
- MuxSession.SessionManager.Close: every method of the table is one critical section; memory-model effects below the locks are not modelled.
- AuthWriter.SendAndReceivePackets: if the draws do not agree, what the reader makes of the chunks depends on the cipher.
- AuthWriter.SendAndReceive: every write carries data, since an empty write is the end marker; the AEAD is an abstract pair with open(seal(x)) == x and its additional data is constant.
- Segments.BufferedReader.Read: a source returns data or an error, never both.
- Buffers: pooling, Release and the clearing of list entries have no counterpart, and a buffer keeps its array for life.
- MuxPool.Dispatch: for a pool that nothing else changes meanwhile.
- DnsCache.NameServer.FindIPsForDomain: a query is atomic with respect to updates, and records hold IP addresses only; transports, message packing, pending-request matching and waiting are not modelled.
- LeastLoad.LeastLoadSort: insertion stands for the library sort, and SortingUnique shows that the choice does not matter for distinct tags; the weight table is an abstract function; the random choice among the selected is not modelled.
- Features.Instance.Callback: a feature found by its type can always be passed to the callback; whether starting a late feature fails is only logged by the source.
- Features.SetUp: goes on after an error, where the source gives the instance up; what was done until then is a program too.
- DnsCache.AnswerUnique: the ttl of a deadline further away wraps around, as in the source.
- KeyQuota.User.ChangeRate: each operation is atomic, the user's rate is loaded, and saving is immediate; interleaving at await points is not modelled.
- KeyQuota.RestoredIff: users with keys revoked at first are left to QuotaKept, since an upgrade may then enable other keys than the downgrade revoked.
- Agreement between gateway and node about keys: results of DelKey are ignored by the source, so no invariant is decided there.
- Randomness: padding lengths and contents are arbitrary values in range.
- Generated protobuf code, migrations, controllers, gRPC clients, notifications, planner and quick authentication: data or plumbing.
- Cryptographic primitives, filters and matchers: foreign libraries.
