/** Chunked authenticated streams: the wire format, and what can be read back from it. */
module AuthStream {
  import opened Bytes
  import opened Nonces
  import opened Segments

  // ---- Ciphers, size parsers and the wire format ----

  /** An AEAD keyed by nonce. */
  datatype Aead = Aead(overhead: nat, seal: (seq<byte>, seq<byte>) -> seq<byte>, open: (seq<byte>, seq<byte>) -> Option<seq<byte>>) {
    ghost predicate Lawful() {
      forall n, p :: |seal(n, p)| == |p| + overhead && open(n, seal(n, p)) == Some(p)
    }
  }

  /** Chunk sizes in clear, sealed by the payload authenticator, or sealed by one of their own. */
  datatype SizeParser = PlainSize | SharedSize | OwnSize(auth: Aead, start: seq<byte>)

  datatype Suite = Suite(aead: Aead, start: seq<byte>, sizes: SizeParser, padding: nat -> nat, maxPadding: nat) {

    function SizeAuth(): Aead {
      if sizes.OwnSize? then sizes.auth else aead
    }

    function SizeWidth(): nat {
      if sizes.PlainSize? then 2 else 2 + SizeAuth().overhead
    }

    ghost predicate Lawful() {
      aead.Lawful() && SizeAuth().Lawful() && forall k :: padding(k) <= maxPadding
    }

    /** Calls of the payload nonce generator before chunk k. */
    function CallsBefore(k: nat): nat {
      if sizes.SharedSize? then 2 * k else k
    }

    function SizeNonce(k: nat): seq<byte> {
      if sizes.OwnSize? then NonceAt(sizes.start, k + 1) else NonceAt(start, CallsBefore(k) + 1)
    }

    function PayloadNonce(k: nat): seq<byte> {
      NonceAt(start, CallsBefore(k + 1))
    }

    function PaddingOf(k: nat): nat {
      padding(k)
    }

    function SealSize(nonce: seq<byte>, size: nat): seq<byte>
    {
      if sizes.PlainSize? then U16(size % 65536)
      else SizeAuth().seal(nonce, U16((size - SizeAuth().overhead) % 65536))
    }

    function EncodeSize(k: nat, size: nat): seq<byte>
    {
      SealSize(SizeNonce(k), size)
    }

    function DecodeSize(nonce: seq<byte>, bytes: seq<byte>): Option<nat>
      requires |bytes| == SizeWidth()
    {
      if sizes.PlainSize? then Some(FromU16(bytes))
      else match SizeAuth().open(nonce, bytes)
        case Some(p) => if |p| == 2 then Some((FromU16(p) + SizeAuth().overhead) % 65536) else None
        case None => None
    }

    function Seal(k: nat, plain: seq<byte>): seq<byte> {
      aead.seal(PayloadNonce(k), plain)
    }

    function Open(nonce: seq<byte>, text: seq<byte>): Option<seq<byte>> {
      aead.open(nonce, text)
    }
  }

  /** One chunk: its plaintext and the random bytes appended in clear. An empty plaintext ends the stream. */
  datatype Chunk = Chunk(plain: seq<byte>, pad: seq<byte>)

  function ChunkSize(s: Suite, c: Chunk): nat
  {
    |c.plain| + s.aead.overhead + |c.pad|
  }

  function Body(s: Suite, k: nat, c: Chunk): seq<byte>
  {
    s.Seal(k, c.plain) + c.pad
  }

  ghost predicate WellFormed(s: Suite, k: nat, chunks: seq<Chunk>)
    decreases |chunks|
  {
    chunks != [] ==>
      && ChunkSize(s, chunks[0]) < 65536
      && |chunks[0].pad| == s.PaddingOf(k)
      && WellFormed(s, k + 1, chunks[1..])
  }

  function Wire(s: Suite, k: nat, chunks: seq<Chunk>): seq<byte>
    decreases |chunks|
  {
    if chunks == [] then []
    else s.EncodeSize(k, ChunkSize(s, chunks[0])) + (Body(s, k, chunks[0]) + Wire(s, k + 1, chunks[1..]))
  }

  /** What is left on the wire once the size of the first chunk may have been read. */
  function Rest(s: Suite, k: nat, chunks: seq<Chunk>, sized: bool): seq<byte>
  {
    if sized && chunks != [] then Body(s, k, chunks[0]) + Wire(s, k + 1, chunks[1..]) else Wire(s, k, chunks)
  }

  function Plains(chunks: seq<Chunk>): seq<byte>
  {
    if chunks == [] then [] else chunks[0].plain + Plains(chunks[1..])
  }

  lemma {:induction false} ModShift(size: nat, o: nat)
    requires size < 65536
    ensures ((size - o) % 65536 + o) % 65536 == size
  {
    var a := (size - o) % 65536;
    assert (a + o - size) % 65536 == 0;
  }

  lemma {:induction false} SizeRoundTrip(s: Suite, k: nat, size: nat)
    requires s.Lawful() && size < 65536
    ensures |s.EncodeSize(k, size)| == s.SizeWidth()
    ensures s.DecodeSize(s.SizeNonce(k), s.EncodeSize(k, size)) == Some(size)
  {
    if !s.sizes.PlainSize? {
      var a, n, p := s.SizeAuth(), s.SizeNonce(k), U16((size - s.SizeAuth().overhead) % 65536);
      assert a.Lawful();
      assert a.open(n, a.seal(n, p)) == Some(p);
      ModShift(size, a.overhead);
    }
  }

  /** A header carries two bytes, high byte first, in clear or sealed: the bytes that follow, less one overhead if sealed. */
  lemma {:induction false} SizeInHeader(s: Suite, k: nat, c: Chunk)
    requires s.Lawful() && ChunkSize(s, c) < 65536 && s.SizeAuth().overhead <= |Body(s, k, c)|
    ensures var header, length := s.EncodeSize(k, ChunkSize(s, c)), |Body(s, k, c)|;
            if s.sizes.PlainSize? then |header| == 2 && FromU16(header) == length
            else
              var p := s.SizeAuth().open(s.SizeNonce(k), header);
              p.Some? && |p.value| == 2 && FromU16(p.value) + s.SizeAuth().overhead == length
  {
    assert |s.aead.seal(s.PayloadNonce(k), c.plain)| == |c.plain| + s.aead.overhead;
    if !s.sizes.PlainSize? {
      var a, n, p := s.SizeAuth(), s.SizeNonce(k), U16(ChunkSize(s, c) - s.SizeAuth().overhead);
      assert a.Lawful();
      assert a.open(n, a.seal(n, p)) == Some(p);
    }
  }

  lemma {:induction false} BodyRoundTrip(s: Suite, k: nat, plain: seq<byte>)
    requires s.Lawful()
    ensures |s.Seal(k, plain)| == |plain| + s.aead.overhead
    ensures s.Open(s.PayloadNonce(k), s.Seal(k, plain)) == Some(plain)
  {
    var a, n := s.aead, s.PayloadNonce(k);
    assert a.Lawful();
    assert a.open(n, a.seal(n, plain)) == Some(plain);
  }

  /** These chunks carry the padding that is due, and every size and every body can be read back with the
      nonce it was sealed with. */
  ghost predicate Readable(s: Suite, k: nat, chunks: seq<Chunk>)
    decreases |chunks|
  {
    chunks != [] ==>
      var c := chunks[0];
      var header := s.EncodeSize(k, ChunkSize(s, c));
      && |c.pad| == s.PaddingOf(k)
      && |header| == s.SizeWidth()
      && s.DecodeSize(s.SizeNonce(k), header) == Some(ChunkSize(s, c))
      && |s.Seal(k, c.plain)| == |c.plain| + s.aead.overhead
      && s.Open(s.PayloadNonce(k), s.Seal(k, c.plain)) == Some(c.plain)
      && Readable(s, k + 1, chunks[1..])
  }

  lemma {:induction false} LawfulIsReadable(s: Suite, k: nat, chunks: seq<Chunk>)
    requires s.Lawful() && WellFormed(s, k, chunks)
    ensures Readable(s, k, chunks)
    decreases |chunks|
  {
    if chunks != [] {
      SizeRoundTrip(s, k, ChunkSize(s, chunks[0]));
      BodyRoundTrip(s, k, chunks[0].plain);
      LawfulIsReadable(s, k + 1, chunks[1..]);
    }
  }

  /** Whoever takes the width of a size header off the wire holds the size of the next chunk. */
  lemma {:induction false} HeaderInFront(s: Suite, k: nat, chunks: seq<Chunk>, data: seq<byte>, rest: seq<byte>)
    requires Readable(s, k, chunks) && chunks != []
    requires Wire(s, k, chunks) == data + rest && |data| == s.SizeWidth()
    ensures s.DecodeSize(s.SizeNonce(k), data) == Some(ChunkSize(s, chunks[0]))
    ensures rest == Rest(s, k, chunks, true)
  {
    var header := s.EncodeSize(k, ChunkSize(s, chunks[0]));
    SameFront(header, Rest(s, k, chunks, true), data, rest);
  }

  /** Whoever then takes as many bytes as that size says holds the sealed chunk and its padding. */
  lemma {:induction false} BodyInFront(s: Suite, k: nat, chunks: seq<Chunk>, data: seq<byte>, rest: seq<byte>)
    requires Readable(s, k, chunks) && chunks != []
    requires Rest(s, k, chunks, true) == data + rest && |data| == ChunkSize(s, chunks[0])
    ensures Readable(s, k + 1, chunks[1..])
    ensures s.Open(s.PayloadNonce(k), data[..|data| - |chunks[0].pad|]) == Some(chunks[0].plain)
    ensures rest == Rest(s, k + 1, chunks[1..], false)
  {
    var c := chunks[0];
    SameFront(Body(s, k, c), Wire(s, k + 1, chunks[1..]), data, rest);
    assert data[..|data| - |c.pad|] == s.Seal(k, c.plain);
  }

  // ---- The nonces of a stream ----

  /** The nonces under the payload key of a stream of n chunks, in the order of the calls: with shared sizes each chunk uses
      one for its size and then one for its body. */
  function PayloadKeyNonces(s: Suite, n: nat): seq<seq<byte>>
  {
    if n == 0 then []
    else
      PayloadKeyNonces(s, n - 1) + (if s.sizes.SharedSize? then [s.SizeNonce(n - 1)] else []) + [s.PayloadNonce(n - 1)]
  }

  /** Those under a key of the sizes' own. */
  function SizeKeyNonces(s: Suite, n: nat): seq<seq<byte>>
  {
    if n == 0 then [] else SizeKeyNonces(s, n - 1) + (if s.sizes.OwnSize? then [s.SizeNonce(n - 1)] else [])
  }

  /** Call number i under the payload key uses the start value plus i, counting from one. */
  lemma {:induction false} PayloadKeyNonceAt(s: Suite, n: nat, i: nat)
    requires i < |PayloadKeyNonces(s, n)|
    ensures |PayloadKeyNonces(s, n)| == if s.sizes.SharedSize? then 2 * n else n
    ensures PayloadKeyNonces(s, n)[i] == NonceAt(s.start, i + 1)
    ensures Value(PayloadKeyNonces(s, n)[i]) == (Value(s.start) + i + 1) % Pow256(|s.start|)
  {
    PayloadKeyCount(s, n);
    PayloadKeyNumber(s, n, i);
    NonceValue(s.start, i + 1);
  }

  lemma {:induction false} PayloadKeyNumber(s: Suite, n: nat, i: nat)
    requires i < |PayloadKeyNonces(s, n)|
    ensures PayloadKeyNonces(s, n)[i] == NonceAt(s.start, i + 1)
    decreases n
  {
    PayloadKeyCount(s, n - 1);
    if i < |PayloadKeyNonces(s, n - 1)| {
      PayloadKeyNumber(s, n - 1, i);
    }
  }

  lemma {:induction false} PayloadKeyCount(s: Suite, n: nat)
    ensures |PayloadKeyNonces(s, n)| == if s.sizes.SharedSize? then 2 * n else n
    decreases n
  {
    if n > 0 {
      PayloadKeyCount(s, n - 1);
    }
  }

  /** The same for a key of the sizes' own. */
  lemma {:induction false} SizeKeyNonceAt(s: Suite, n: nat, i: nat)
    requires s.sizes.OwnSize? && i < n
    ensures |SizeKeyNonces(s, n)| == n && SizeKeyNonces(s, n)[i] == NonceAt(s.sizes.start, i + 1)
    ensures Value(SizeKeyNonces(s, n)[i]) == (Value(s.sizes.start) + i + 1) % Pow256(|s.sizes.start|)
  {
    SizeKeyCount(s, n);
    SizeKeyNumber(s, n, i);
    NonceValue(s.sizes.start, i + 1);
  }

  lemma {:induction false} SizeKeyNumber(s: Suite, n: nat, i: nat)
    requires i < |SizeKeyNonces(s, n)|
    ensures s.sizes.OwnSize? && SizeKeyNonces(s, n)[i] == NonceAt(s.sizes.start, i + 1)
    decreases n
  {
    SizeKeyCount(s, n - 1);
    if i < |SizeKeyNonces(s, n - 1)| {
      SizeKeyNumber(s, n - 1, i);
    }
  }

  lemma {:induction false} SizeKeyCount(s: Suite, n: nat)
    ensures |SizeKeyNonces(s, n)| == if s.sizes.OwnSize? then n else 0
    decreases n
  {
    if n > 0 {
      SizeKeyCount(s, n - 1);
    }
  }

  /** Under the payload key two calls of a stream use the same nonce only a multiple of 256^n calls apart, whichever way the
      sizes are sealed. */
  lemma {:induction false} PayloadKeyDistinct(s: Suite, n: nat, i: nat, j: nat)
    requires i <= j < |PayloadKeyNonces(s, n)|
    ensures PayloadKeyNonces(s, n)[i] == PayloadKeyNonces(s, n)[j] <==> (j - i) % Pow256(|s.start|) == 0
  {
    PayloadKeyNumber(s, n, i);
    PayloadKeyNumber(s, n, j);
    NoncesRepeat(s.start, i + 1, j + 1);
  }

  /** So do two calls under a key of the sizes' own. */
  lemma {:induction false} SizeKeyDistinct(s: Suite, n: nat, i: nat, j: nat)
    requires i <= j < |SizeKeyNonces(s, n)|
    ensures s.sizes.OwnSize?
    ensures SizeKeyNonces(s, n)[i] == SizeKeyNonces(s, n)[j] <==> (j - i) % Pow256(|s.sizes.start|) == 0
  {
    SizeKeyNumber(s, n, i);
    SizeKeyNumber(s, n, j);
    NoncesRepeat(s.sizes.start, i + 1, j + 1);
  }
}
