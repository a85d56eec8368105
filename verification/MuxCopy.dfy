/** Moving the payload of one mux frame from the shared reader to a session, and resynchronising. */
module MuxCopy {
  import opened Bytes
  import opened Segments

  /** What a session's output answers to a write: success, an error, or an error whose cause is io.EOF. */
  datatype Verdict = Accepted | Refused | RefusedEOF

  /** crypto.ChunkStreamReader with plain sizes and a chunk count of one. */
  class ChunkStreamReader {
    const reader: BufferedReader
    var leftOverSize: nat
    var numChunk: nat
    /** The payload still to be read, and what follows it on the link. */
    ghost var left: seq<byte>
    ghost var after: seq<byte>

    ghost predicate Valid()
      reads this, reader
    {
      if numChunk == 0 then
        |left| < 65536 && leftOverSize == 0 && reader.Remaining() == U16(|left|) + (left + after)
      else
        leftOverSize == |left| && reader.Remaining() == left + after
    }

    constructor (reader: BufferedReader, ghost left: seq<byte>, ghost after: seq<byte>)
      requires |left| < 65536 && reader.Remaining() == U16(|left|) + (left + after)
      ensures Valid() && this.reader == reader && this.left == left && this.after == after
    {
      this.reader, leftOverSize, numChunk := reader, 0, 0;
      this.left, this.after := left, after;
    }

    /** The reader where the payload starts, or goes on. */
    ghost function Start(): Link
      reads this, reader
    {
      if numChunk == 0 then Skip(reader.State(), 2) else reader.State()
    }

    /** Take the size header. */
    method ReadSize() returns (size: nat)
      requires Valid() && numChunk == 0
      modifies this`numChunk, this`leftOverSize, reader
      ensures Valid() && numChunk == 1 && size == |left|
      ensures reader.State() == Skip(old(reader.State()), 2)
    {
      var ok, bytes := reader.ReadFull(2);
      SameFront(U16(|left|), left + after, bytes, reader.Remaining());
      size := FromU16(bytes);
      numChunk, leftOverSize := 1, size;
    }

    method ReadMultiBuffer() returns (eof: bool, mb: Segs)
      requires Valid()
      modifies this`numChunk, this`leftOverSize, this`left, reader
      ensures Valid() && numChunk > 0
      ensures eof <==> old(left) == []
      ensures Flatten(mb) + left == old(left)
      ensures eof ==> reader.State() == old(Start())
      ensures !eof ==> Fetched(mb, reader.State()) == NextRead(old(Start()), |old(left)|)
      ensures !eof && Flatten(mb) == [] && old(numChunk) > 0 ==>
                |reader.source| < old(|reader.source|)
                || (reader.source == old(reader.source) && |reader.buffer| < old(|reader.buffer|))
    {
      var size := leftOverSize;
      if size == 0 {
        if numChunk > 0 {
          numChunk := numChunk + 1;
          return true, [];
        }
        size := ReadSize();
        if size == 0 {
          return true, [];
        }
      }
      eof := false;
      ghost var all := left;
      var ok;
      ok, mb := reader.ReadAtMost(size);
      PrefixOf(Flatten(mb), reader.Remaining(), all, after);
      left := all[|Flatten(mb)|..];
      leftOverSize := leftOverSize - |Flatten(mb)|;
    }
  }

  lemma {:induction false} PrefixOf(a: seq<byte>, b: seq<byte>, c: seq<byte>, d: seq<byte>)
    requires a + b == c + d && |a| <= |c|
    ensures a + c[|a|..] == c && b == c[|a|..] + d
  {
    assert a == (a + b)[..|a|] && (c + d)[..|a|] == c[..|a|];
    assert b == (a + b)[|a|..] && (c + d)[|a|..] == c[|a|..] + d;
    assert c[..|a|] + c[|a|..] == c;
  }

  // ---- Copying a payload ----

  /** The answer to write i: what the output decides, or acceptance once it has nothing more to say. */
  function VerdictAt(fates: seq<Verdict>, i: nat): Verdict
  {
    if i < |fates| then fates[i] else Accepted
  }

  /** How many of n writes are accepted before the first that is not. */
  function AcceptedOf(fates: seq<Verdict>, n: nat): (k: nat)
    ensures k <= n
    ensures forall i :: 0 <= i < k ==> VerdictAt(fates, i) == Accepted
    ensures k < n ==> VerdictAt(fates, k) != Accepted
  {
    if n == 0 then 0
    else
      var k := AcceptedOf(fates, n - 1);
      if k == n - 1 && VerdictAt(fates, k) == Accepted then n else k
  }

  lemma {:induction false} AcceptedUnique(fates: seq<Verdict>, n: nat, k: nat)
    requires k <= n && (forall i :: 0 <= i < k ==> VerdictAt(fates, i) == Accepted) && (k < n ==> VerdictAt(fates, k) != Accepted)
    ensures AcceptedOf(fates, n) == k
  {
  }

  datatype CopyResult = Copied | Stopped | StoppedQuietly

  /** How a copy ends, what has been delivered by then, and what has not even been read. */
  datatype CopyEnd = CopyEnd(result: CopyResult, delivered: seq<byte>, unread: seq<byte>)

  function EndOf(fates: seq<Verdict>, pieces: Segs): CopyEnd
  {
    var k := AcceptedOf(fates, |pieces|);
    if k == |pieces| then CopyEnd(Copied, Flatten(pieces), [])
    else CopyEnd(if VerdictAt(fates, k) == Refused then Stopped else StoppedQuietly, Flatten(pieces[..k]), Flatten(pieces[k + 1..]))
  }

  lemma {:induction false} StoppedAt(fates: seq<Verdict>, written: Segs, piece: seq<byte>, rest: Segs)
    requires AcceptedOf(fates, |written|) == |written|
    requires VerdictAt(fates, |written|) != Accepted
    ensures EndOf(fates, written + ([piece] + rest)) ==
            CopyEnd(if VerdictAt(fates, |written|) == Refused then Stopped else StoppedQuietly, Flatten(written), Flatten(rest))
  {
    var pieces, k := written + ([piece] + rest), |written|;
    AcceptedUnique(fates, |pieces|, k);
    assert pieces[..k] == written && pieces[k + 1..] == rest;
  }

  lemma {:induction false} CopiedAll(fates: seq<Verdict>, written: Segs)
    requires AcceptedOf(fates, |written|) == |written|
    ensures EndOf(fates, written) == CopyEnd(Copied, Flatten(written), [])
  {
    AcceptedUnique(fates, |written|, |written|);
  }

  /** Where a copy stands: what has been written and what is still to be cut make up the pieces, and where that will leave
      the reader. */
  ghost predicate Copying(link: Link, left: seq<byte>, written: Segs, pieces: Segs, end: Link)
  {
    left <= LinkBytes(link) && written + Cuts(link, |left|) == pieces && AfterCuts(link, |left|) == end
  }

  lemma {:induction false} NextLeft(left: seq<byte>, piece: seq<byte>, after: seq<byte>)
    requires left <= piece + after && |piece| <= |left|
    ensures piece + left[|piece|..] == left && left[|piece|..] <= after
  {
    var all := piece + after;
    assert all[..|left|] == left;
    assert piece == all[..|piece|] == left[..|piece|];
    assert left[|piece|..] == all[|piece|..|left|] == after[..|left| - |piece|];
  }

  lemma {:induction false} CopyStep(link: Link, left: seq<byte>, written: Segs, pieces: Segs, end: Link, g: Fetched)
    requires Copying(link, left, written, pieces, end) && left != [] && g == NextRead(link, |left|)
    ensures var piece, rest := Flatten(g.mb), left[|Flatten(g.mb)|..];
            && piece + rest == left
            && Copying(g.link, rest, if piece == [] then written else written + [piece], pieces, end)
            && (piece != [] ==> pieces == written + ([piece] + Cuts(g.link, |rest|)) && Flatten(Cuts(g.link, |rest|)) == rest)
  {
    var piece := Flatten(g.mb);
    NextReadKeeps(link, |left|);
    NextLeft(left, piece, LinkBytes(g.link));
    Assoc(written, [piece], Cuts(g.link, |left| - |piece|));
    CutsBytes(g.link, |left| - |piece|);
  }

  /** One read of a copy. */
  method CopyOnce(r: ChunkStreamReader, ghost written: Segs, ghost pieces: Segs, ghost end: Link) returns (eof: bool, piece: seq<byte>)
    requires r.Valid() && Copying(r.Start(), r.left, written, pieces, end)
    modifies r`numChunk, r`leftOverSize, r`left, r.reader
    ensures r.Valid() && r.numChunk > 0
    ensures eof ==> r.left == [] && piece == [] && written == pieces && r.reader.State() == end
    ensures !eof ==> Copying(r.Start(), r.left, if piece == [] then written else written + [piece], pieces, end)
    ensures !eof && piece != [] ==> pieces == written + ([piece] + Cuts(r.Start(), |r.left|)) && Flatten(Cuts(r.Start(), |r.left|)) == r.left
    ensures |piece| + |r.left| == |old(r.left)|
    ensures !eof && piece == [] && old(r.numChunk) > 0 ==>
              |r.reader.source| < old(|r.reader.source|)
              || (r.reader.source == old(r.reader.source) && |r.reader.buffer| < old(|r.reader.buffer|))
  {
    ghost var link, left := r.Start(), r.left;
    var mb;
    eof, mb := r.ReadMultiBuffer();
    piece := Flatten(mb);
    if !eof {
      CopyStep(link, left, written, pieces, end, NextRead(link, |left|));
      assert r.left == left[|piece|..];
    } else {
      assert written + [] == written;
    }
  }

  /** One turn of a copy in which every write so far has been accepted: it ends, or goes on with one more piece written. */
  method CopyTurn(r: ChunkStreamReader, fates: seq<Verdict>, i: nat, ghost written: Segs, ghost pieces: Segs, ghost end: Link)
    returns (over: bool, result: CopyResult, piece: seq<byte>)
    requires r.Valid() && Copying(r.Start(), r.left, written, pieces, end) && i == |written| && AcceptedOf(fates, i) == i
    modifies r`numChunk, r`leftOverSize, r`left, r.reader
    ensures r.Valid() && r.numChunk > 0 && |r.left| <= |old(r.left)|
    ensures over ==> CopyEnd(result, Flatten(written), r.left) == EndOf(fates, pieces) && AfterCuts(r.reader.State(), |r.left|) == end
    ensures !over ==>
              var more := if piece == [] then written else written + [piece];
              Copying(r.Start(), r.left, more, pieces, end) && AcceptedOf(fates, |more|) == |more|
    ensures !over && piece != [] ==> |r.left| < |old(r.left)|
    ensures !over && piece == [] && old(r.numChunk) > 0 ==>
              |r.reader.source| < old(|r.reader.source|)
              || (r.reader.source == old(r.reader.source) && |r.reader.buffer| < old(|r.reader.buffer|))
  {
    result := Copied;
    over, piece := CopyOnce(r, written, pieces, end);
    if over {
      CopiedAll(fates, written);
    } else if piece != [] && i < |fates| && fates[i] != Accepted {
      StoppedAt(fates, written, piece, Cuts(r.Start(), |r.left|));
      over, result := true, if fates[i] == Refused then Stopped else StoppedQuietly;
    }
  }

  /** buf.Copy into an output that answers write i with fates[i], and accepts every write after those. The payload is
      written in the pieces in which it arrives. A write refused with io.EOF makes Copy return nil although the payload
      has not been consumed. */
  method Copy(r: ChunkStreamReader, fates: seq<Verdict>) returns (result: CopyResult, delivered: seq<byte>)
    requires r.Valid()
    modifies r`numChunk, r`leftOverSize, r`left, r.reader
    ensures r.Valid() && r.numChunk > 0
    ensures var pieces := Cuts(old(r.Start()), |old(r.left)|);
            Flatten(pieces) == old(r.left) && CopyEnd(result, delivered, r.left) == EndOf(fates, pieces)
    ensures AfterCuts(r.reader.State(), |r.left|) == AfterCuts(old(r.Start()), |old(r.left)|)
  {
    ghost var end := AfterCuts(r.Start(), |r.left|);
    ghost var pieces, written: Segs := Cuts(r.Start(), |r.left|), [];
    StartFull(r);
    assert written + pieces == pieces;
    delivered := [];
    var i := 0;
    while true
      invariant r.Valid() && i == |written| && delivered == Flatten(written)
      invariant Copying(r.Start(), r.left, written, pieces, end)
      invariant AcceptedOf(fates, i) == i
      decreases |r.left|, r.numChunk == 0, |r.reader.source|, |r.reader.buffer|
    {
      var over, piece;
      over, result, piece := CopyTurn(r, fates, i, written, pieces, end);
      if over {
        return;
      }
      if piece != [] {
        i := i + 1;
        FlattenSnoc(written, piece);
        written := written + [piece];
        delivered := delivered + piece;
      }
    }
  }

  lemma {:induction false} StartFull(r: ChunkStreamReader)
    requires r.Valid()
    ensures r.left <= LinkBytes(r.Start()) && Flatten(Cuts(r.Start(), |r.left|)) == r.left
  {
    if r.numChunk == 0 {
      SkipBytes(r.reader.State(), 2);
      assert (U16(|r.left|) + (r.left + r.after))[2..] == r.left + r.after;
    }
    CutsBytes(r.Start(), |r.left|);
  }
}
