/** MultiBuffers seen as lists of byte segments: the splitting functions and the buffered reader above them. */
module Segments {
  import opened Bytes

  type Segs = seq<seq<byte>>

  datatype BytesSplit = BytesSplit(rest: Segs, out: seq<byte>)
  datatype SizeSplit = SizeSplit(rest: Segs, taken: Segs)

  /** Up to n bytes are copied out; emptied segments are dropped. */
  function SplitBytes(mb: Segs, n: nat): (s: BytesSplit)
    ensures s.out + Flatten(s.rest) == Flatten(mb)
    ensures |s.out| == Min(n, |Flatten(mb)|)
    ensures |s.rest| <= |mb|
  {
    if mb == [] then BytesSplit([], [])
    else if |mb[0]| <= n then
      var tail := SplitBytes(mb[1..], n - |mb[0]|);
      Assoc(mb[0], tail.out, Flatten(tail.rest));
      BytesSplit(tail.rest, mb[0] + tail.out)
    else
      FlattenCons(mb[0][n..], mb[1..]);
      Assoc(mb[0][..n], mb[0][n..], Flatten(mb[1..]));
      assert mb[0][..n] + mb[0][n..] == mb[0];
      BytesSplit([mb[0][n..]] + mb[1..], mb[0][..n])
  }

  /** Whole segments, as long as they fit into size bytes. */
  function TakeWhole(mb: Segs, size: nat): (s: SizeSplit)
    ensures |Flatten(s.taken)| <= size
    ensures s.taken + s.rest == mb
  {
    if mb == [] || |mb[0]| > size then SizeSplit(mb, [])
    else
      var tail := TakeWhole(mb[1..], size - |mb[0]|);
      FlattenCons(mb[0], tail.taken);
      Assoc([mb[0]], tail.taken, tail.rest);
      SizeSplit(tail.rest, [mb[0]] + tail.taken)
  }

  /** Whole segments up to size bytes, or the front of the first one if that is longer. */
  function SplitSize(mb: Segs, size: nat): (s: SizeSplit)
    ensures Flatten(s.taken) + Flatten(s.rest) == Flatten(mb)
    ensures |Flatten(s.taken)| <= size
    ensures |s.rest| <= |mb|
    ensures mb != [] && size > 0 ==> |Flatten(s.taken)| > 0 || |s.rest| < |mb|
  {
    if mb == [] then SizeSplit([], [])
    else if |mb[0]| > size then
      FlattenCons(mb[0][size..], mb[1..]);
      FlattenOne(mb[0][..size]);
      Assoc(mb[0][..size], mb[0][size..], Flatten(mb[1..]));
      assert mb[0][..size] + mb[0][size..] == mb[0];
      SizeSplit([mb[0][size..]] + mb[1..], [mb[0][..size]])
    else
      var s := TakeWhole(mb, size);
      FlattenConcat(s.taken, s.rest);
      s
  }

  /** Bytes appended to a MultiBuffer of zero-offset standard buffers: the last one is filled up first. */
  function MergeBytes(dest: Segs, src: seq<byte>): (r: Segs)
    ensures Flatten(r) == Flatten(dest) + src
    decreases |src|, |dest|
  {
    if src == [] then dest
    else if dest != [] && |dest[|dest| - 1]| < SIZE then
      var last := dest[|dest| - 1];
      var n := Min(|src|, SIZE - |last|);
      var grown := dest[..|dest| - 1] + [last + src[..n]];
      FlattenSnoc(dest[..|dest| - 1], last);
      FlattenSnoc(dest[..|dest| - 1], last + src[..n]);
      assert dest[..|dest| - 1] + [last] == dest;
      Assoc(Flatten(dest[..|dest| - 1]), last, src[..n]);
      Assoc(Flatten(dest), src[..n], src[n..]);
      assert src[..n] + src[n..] == src;
      MergeBytes(grown, src[n..])
    else
      var n := Min(|src|, SIZE);
      FlattenSnoc(dest, src[..n]);
      Assoc(Flatten(dest), src[..n], src[n..]);
      assert src[..n] + src[n..] == src;
      MergeBytes(dest + [src[..n]], src[n..])
  }

  /** All bytes of a list of MultiBuffers that the underlying reader is still going to return. */
  function Upcoming(source: seq<Segs>): seq<byte>
  {
    if source == [] then [] else Flatten(source[0]) + Upcoming(source[1..])
  }

  /** A reader's buffer and what its source is still going to return. */
  datatype Link = Link(buffer: Segs, source: seq<Segs>)

  datatype Fetched = Fetched(mb: Segs, link: Link)

  function LinkBytes(l: Link): seq<byte>
  {
    Flatten(l.buffer) + Upcoming(l.source)
  }

  function Leftover(rest: Segs): Segs
  {
    if Flatten(rest) == [] then [] else rest
  }

  /** The reader after that loop. */
  function AfterCuts(l: Link, n: nat): Link
    decreases n, |l.source|, |l.buffer|
  {
    if n == 0 || (Flatten(l.buffer) == [] && l.source == []) then l
    else
      var g := NextRead(l, n);
      if Flatten(g.mb) == [] then AfterCuts(g.link, n) else AfterCuts(g.link, n - |Flatten(g.mb)|)
  }

  lemma {:induction false} NextReadKeeps(l: Link, size: nat)
    ensures Flatten(NextRead(l, size).mb) + LinkBytes(NextRead(l, size).link) == LinkBytes(l)
  {
    if Flatten(l.buffer) != [] || l.source != [] {
      var full := if Flatten(l.buffer) == [] then Link(l.source[0], l.source[1..]) else l;
      var s := SplitSize(full.buffer, size);
      Assoc(Flatten(s.taken), Flatten(s.rest), Upcoming(full.source));
    }
  }

  /** The cuts make up the next n bytes. */
  lemma {:induction false} CutsBytes(l: Link, n: nat)
    requires n <= |LinkBytes(l)|
    ensures Flatten(Cuts(l, n)) == LinkBytes(l)[..n]
    decreases n, |l.source|, |l.buffer|
  {
    if n > 0 && (Flatten(l.buffer) != [] || l.source != []) {
      var g := NextRead(l, n);
      NextReadKeeps(l, n);
      CutsBytes(g.link, n - |Flatten(g.mb)|);
      if Flatten(g.mb) == [] {
        assert [] + LinkBytes(g.link) == LinkBytes(g.link);
      } else {
        FlattenCons(Flatten(g.mb), Cuts(g.link, n - |Flatten(g.mb)|));
        assert LinkBytes(l)[..n] == Flatten(g.mb) + LinkBytes(g.link)[..n - |Flatten(g.mb)|];
      }
    }
  }

  /** No cut is empty. */
  lemma {:induction false} CutsNonEmpty(l: Link, n: nat)
    ensures forall i :: 0 <= i < |Cuts(l, n)| ==> Cuts(l, n)[i] != []
    decreases n, |l.source|, |l.buffer|
  {
    if n > 0 && (Flatten(l.buffer) != [] || l.source != []) {
      var g := NextRead(l, n);
      CutsNonEmpty(g.link, n - |Flatten(g.mb)|);
    }
  }

  /** One Read of up to n bytes. */
  function ReadSome(l: Link, n: nat): (g: Fetched)
    ensures |Flatten(g.mb)| <= n && |g.link.source| <= |l.source|
    ensures n > 0 && (Flatten(l.buffer) != [] || l.source != []) && Flatten(g.mb) == [] ==> |g.link.source| < |l.source|
  {
    if Flatten(l.buffer) != [] then
      var s := SplitBytes(l.buffer, n);
      FlattenOne(s.out);
      Fetched([s.out], Link(Leftover(s.rest), l.source))
    else if l.source == [] then Fetched([], l)
    else
      var s := SplitBytes(l.source[0], n);
      FlattenOne(s.out);
      Fetched([s.out], Link(if Flatten(s.rest) != [] then s.rest else l.buffer, l.source[1..]))
  }

  /** The reader after exactly n bytes have been read, or all there are. */
  function Skip(l: Link, n: nat): Link
    decreases |l.source|, n
  {
    if n == 0 || (Flatten(l.buffer) == [] && l.source == []) then l
    else
      var g := ReadSome(l, n);
      Skip(g.link, n - |Flatten(g.mb)|)
  }

  lemma {:induction false} ReadSomeKeeps(l: Link, n: nat)
    ensures Flatten(ReadSome(l, n).mb) + LinkBytes(ReadSome(l, n).link) == LinkBytes(l)
  {
    if Flatten(l.buffer) != [] {
      var s := SplitBytes(l.buffer, n);
      FlattenOne(s.out);
      Assoc(s.out, Flatten(s.rest), Upcoming(l.source));
    } else if l.source != [] {
      var s := SplitBytes(l.source[0], n);
      FlattenOne(s.out);
      Assoc(s.out, Flatten(s.rest), Upcoming(l.source[1..]));
    }
  }

  lemma {:induction false} SkipBytes(l: Link, n: nat)
    requires n <= |LinkBytes(l)|
    ensures LinkBytes(Skip(l, n)) == LinkBytes(l)[n..]
    decreases |l.source|, n
  {
    if n > 0 && (Flatten(l.buffer) != [] || l.source != []) {
      var g := ReadSome(l, n);
      ReadSomeKeeps(l, n);
      var out := Flatten(g.mb);
      SkipBytes(g.link, n - |out|);
      assert LinkBytes(l)[n..] == LinkBytes(g.link)[n - |out|..];
    }
  }

  /** One ReadAtMost of up to size bytes. */
  function NextRead(l: Link, size: nat): (g: Fetched)
    ensures |Flatten(g.mb)| <= size
    ensures size > 0 && (Flatten(l.buffer) != [] || l.source != []) && Flatten(g.mb) == [] ==>
      |g.link.source| < |l.source| || (g.link.source == l.source && |g.link.buffer| < |l.buffer|)
  {
    if Flatten(l.buffer) == [] && l.source == [] then Fetched([], l)
    else
      var full := if Flatten(l.buffer) == [] then Link(l.source[0], l.source[1..]) else l;
      var s := SplitSize(full.buffer, size);
      Fetched(s.taken, Link(Leftover(s.rest), full.source))
  }

  /** The non-empty reads that a loop of ReadAtMost makes until it has n bytes. */
  function Cuts(l: Link, n: nat): Segs
    decreases n, |l.source|, |l.buffer|
  {
    if n == 0 || (Flatten(l.buffer) == [] && l.source == []) then []
    else
      var g := NextRead(l, n);
      if Flatten(g.mb) == [] then Cuts(g.link, n) else [Flatten(g.mb)] + Cuts(g.link, n - |Flatten(g.mb)|)
  }

  /** buf.BufferedReader over a reader that returns the given MultiBuffers and then io.EOF. */
  class BufferedReader {
    var buffer: Segs
    var source: seq<Segs>

    constructor (source: seq<Segs>)
      ensures Remaining() == Upcoming(source) && this.buffer == [] && this.source == source
    {
      this.buffer, this.source := [], source;
    }

    /** The bytes a caller can still get, in order. */
    ghost function Remaining(): seq<byte>
      reads this
    {
      Flatten(buffer) + Upcoming(source)
    }

    function State(): Link
      reads this
    {
      Link(buffer, source)
    }

    function BufferedBytes(): nat
      reads this
    {
      |Flatten(buffer)|
    }

    /** Read into a slice of n bytes. */
    method Read(n: nat) returns (ok: bool, data: seq<byte>)
      modifies this
      ensures data + Remaining() == old(Remaining())
      ensures |data| <= n
      ensures !ok ==> data == [] && Remaining() == []
      ensures ok && n > 0 && |data| == 0 ==> |source| < |old(source)|
      ensures |source| <= |old(source)|
      ensures old(BufferedBytes()) > 0 ==> source == old(source) && |data| == Min(n, old(BufferedBytes()))
      ensures old(BufferedBytes()) > 0 ==> BufferedBytes() == old(BufferedBytes()) - |data|
      ensures State() == ReadSome(old(State()), n).link && Flatten(ReadSome(old(State()), n).mb) == data
      ensures ok <==> Flatten(old(buffer)) != [] || old(source) != []
    {
      FlattenOne(SplitBytes(buffer, n).out);
      if Flatten(buffer) != [] {
        var s := SplitBytes(buffer, n);
        Assoc(s.out, Flatten(s.rest), Upcoming(source));
        buffer := s.rest;
        if Flatten(buffer) == [] {
          buffer := [];
        }
        return true, s.out;
      }
      if source == [] {
        return false, [];
      }
      var mb := source[0];
      source := source[1..];
      var s := SplitBytes(mb, n);
      FlattenOne(s.out);
      Assoc(s.out, Flatten(s.rest), Upcoming(source));
      if Flatten(s.rest) != [] {
        buffer := s.rest;
      }
      return true, s.out;
    }

    /** io.ReadFull: exactly the next n bytes, however the buffers are cut; and no read of the underlying
        reader when that many bytes are buffered. */
    method ReadFull(n: nat) returns (ok: bool, data: seq<byte>)
      modifies this
      ensures data + Remaining() == old(Remaining())
      ensures ok ==> |data| == n
      ensures !ok ==> |data| < n && Remaining() == []
      ensures n <= old(BufferedBytes()) ==> source == old(source) && BufferedBytes() == old(BufferedBytes()) - n
      ensures State() == Skip(old(State()), n)
    {
      data := [];
      ok := true;
      ghost var all := Remaining();
      ghost var had := BufferedBytes();
      while |data| < n
        invariant |data| <= n
        invariant data + Remaining() == all
        invariant n <= had ==> source == old(source) && BufferedBytes() == had - |data|
        invariant Skip(State(), n - |data|) == Skip(old(State()), n)
        decreases |source|, n - |data|
      {
        var more;
        ok, more := Read(n - |data|);
        Assoc(data, more, Remaining());
        data := data + more;
        if !ok {
          assert data == all;
          return;
        }
      }
    }

    /** At most size bytes, as whole segments where possible. */
    method ReadAtMost(size: nat) returns (ok: bool, mb: Segs)
      requires size > 0
      modifies this
      ensures Flatten(mb) + Remaining() == old(Remaining())
      ensures |Flatten(mb)| <= size
      ensures !ok ==> mb == [] && Remaining() == []
      ensures ok && Flatten(mb) == [] ==> |source| < |old(source)| || (source == old(source) && |buffer| < |old(buffer)|)
      ensures |source| <= |old(source)|
      ensures Fetched(mb, State()) == NextRead(old(State()), size)
    {
      if Flatten(buffer) == [] {
        if source == [] {
          return false, [];
        }
        buffer := source[0];
        source := source[1..];
        assert Remaining() == old(Remaining());
      }
      var s := SplitSize(buffer, size);
      Assoc(Flatten(s.taken), Flatten(s.rest), Upcoming(source));
      buffer := s.rest;
      if Flatten(buffer) == [] {
        buffer := [];
      }
      return true, s.taken;
    }
  }
}
