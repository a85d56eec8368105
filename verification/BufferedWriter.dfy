/** The writer that collects bytes in one buffer before it hands them on. */
module BufferedWriter {
  import opened Bytes
  import opened Segments

  /** The writer underneath: what it has received, and how many more bytes it takes before it fails. */
  class Sink {
    var received: seq<byte>
    var credit: nat
    /** Whether it also takes plain byte slices. */
    const plain: bool

    constructor (plain: bool, credit: nat)
      ensures received == [] && this.plain == plain && this.credit == credit
    {
      this.plain, this.credit, received := plain, credit, [];
    }

    /** All of the data, or a front part of it and an error. */
    method Write(data: seq<byte>) returns (ok: bool)
      modifies this
      ensures var n := Min(|data|, old(credit));
              received == old(received) + data[..n] && credit == old(credit) - n && (ok <==> n == |data|)
    {
      var n := Min(|data|, credit);
      credit, received := credit - n, received + data[..n];
      ok := n == |data|;
    }
  }

  class BufferedWriter {
    const writer: Sink
    var buffer: Option<seq<byte>>
    var buffered: bool

    /** Between calls the buffer has room, and it is empty when buffering is off. */
    ghost predicate Valid()
      reads this
    {
      && (buffer.Some? ==> |buffer.value| < SIZE)
      && (!buffered ==> Held() == [])
    }

    ghost function Held(): seq<byte>
      reads this
    {
      if buffer.Some? then buffer.value else []
    }

    /** What is held back of n bytes: those after the last full buffer. */
    ghost predicate Holds(n: nat)
      reads this
    {
      |Held()| == n % SIZE
    }

    /** Everything handed on, followed by everything held back. */
    ghost function Total(): seq<byte>
      reads this, writer
    {
      writer.received + Held()
    }

    constructor (writer: Sink)
      ensures Valid() && this.writer == writer && buffered && Total() == writer.received
    {
      this.writer, buffer, buffered := writer, Some([]), true;
    }

    /** Hands on what is held back; what a failing writer does not take of it is gone. */
    method FlushInternal() returns (ok: bool)
      modifies this`buffer, writer
      ensures Held() == [] && (buffer.Some? ==> buffer.value == [])
      ensures ok <==> |old(Held())| <= old(writer.credit)
      ensures Total() == old(writer.received) + old(Held())[..Min(|old(Held())|, old(writer.credit))]
    {
      if buffer.None? || buffer.value == [] {
        return true;
      }
      var b := buffer.value;
      buffer := None;
      ok := writer.Write(b);
    }

    method Flush() returns (ok: bool)
      requires Valid()
      modifies this`buffer, writer
      ensures Valid() && Held() == []
      ensures ok <==> |old(Held())| <= old(writer.credit)
      ensures writer.received == old(writer.received) + old(Held())[..Min(|old(Held())|, old(writer.credit))]
      ensures ok ==> writer.received == old(Total())
    {
      ok := FlushInternal();
      assert Total() == writer.received + [] == writer.received;
    }

    method SetBuffered(f: bool) returns (ok: bool)
      requires Valid()
      modifies this, writer
      ensures Valid() && buffered == f
      ensures ok ==> Total() == old(Total())
      ensures f ==> ok && Held() == old(Held())
      ensures !ok ==> !f && Total() <= old(Total())
    {
      buffered := f;
      if !f {
        ok := FlushInternal();
        return;
      }
      return true;
    }

    /** Puts as much of the data as fits into the buffer, and hands it on when it is full or buffering is off. */
    method Fill(data: seq<byte>) returns (n: nat, ok: bool)
      requires Valid()
      modifies this`buffer, writer
      ensures Valid() && n == Min(|data|, SIZE - |old(Held())|)
      ensures ok ==> Total() == old(Total()) + data[..n] && (buffered ==> Holds(|old(Held())| + n))
      ensures !ok ==> Total() <= old(Total()) + data[..n]
    {
      if buffer.None? {
        buffer := Some([]);
      }
      n := Min(|data|, SIZE - |buffer.value|);
      Assoc(writer.received, buffer.value, data[..n]);
      buffer := Some(buffer.value + data[..n]);
      if !buffered || |buffer.value| == SIZE {
        Remainder(|buffer.value|);
        ok := FlushInternal();
        return;
      }
      Remainder(|buffer.value|);
      return n, true;
    }

    /** The bytes are taken over in order; after a failure a front part of everything has been handed on. */
    method Write(data: seq<byte>) returns (total: nat, ok: bool)
      requires Valid()
      modifies this`buffer, writer
      ensures Valid()
      ensures ok ==> total == |data| && Total() == old(Total()) + data && (buffered ==> Holds(|old(Held())| + |data|))
      ensures !ok ==> Total() <= old(Total()) + data
    {
      if |data| == 0 {
        Remainder(|Held()|);
        return 0, true;
      }
      if !buffered && writer.plain {
        ok := writer.Write(data);
        return if ok then |data| else 0, ok;
      }
      total, ok := WriteLoop(data);
    }

    method WriteLoop(data: seq<byte>) returns (total: nat, ok: bool)
      requires Valid()
      modifies this`buffer, writer
      ensures Valid()
      ensures ok ==> total == |data| && Total() == old(Total()) + data && (buffered ==> Holds(|old(Held())| + |data|))
      ensures !ok ==> Total() <= old(Total()) + data
    {
      total := 0;
      ghost var before, held := Total(), |Held()|;
      Remainder(held);
      while total < |data|
        invariant Valid() && 0 <= total <= |data| && Total() == before + data[..total]
        invariant buffered ==> Holds(held + total)
      {
        Carried(held + total, Min(|data| - total, SIZE - |Held()|));
        var n;
        n, ok := Fill(data[total..]);
        TakenMore(data, total, n);
        Assoc(before, data[..total], data[total..][..n]);
        if !ok {
          PrefixOf(Total(), before, data, total + n);
          return total + n, false;
        }
        total := total + n;
      }
      ok := true;
      assert data[..total] == data;
    }

    /** A MultiBuffer goes through the buffer, or straight on when buffering is off. */
    method WriteMultiBuffer(mb: Segs) returns (ok: bool)
      requires Valid()
      modifies this`buffer, writer
      ensures Valid()
      ensures ok ==> Total() == old(Total()) + Flatten(mb) && (buffered ==> Holds(|old(Held())| + |Flatten(mb)|))
      ensures !ok ==> Total() <= old(Total()) + Flatten(mb)
    {
      if Flatten(mb) == [] {
        Remainder(|Held()|);
        return true;
      }
      if !buffered {
        ok := writer.Write(Flatten(mb));
        return;
      }
      ok := WriteSegments(mb);
    }

    method WriteSegments(mb: Segs) returns (ok: bool)
      requires Valid() && buffered
      modifies this`buffer, writer
      ensures Valid()
      ensures ok ==> Total() == old(Total()) + Flatten(mb) && (buffered ==> Holds(|old(Held())| + |Flatten(mb)|))
      ensures !ok ==> Total() <= old(Total()) + Flatten(mb)
    {
      ghost var before, all := Total(), Flatten(mb);
      var rest := mb;
      ghost var done, held := 0, |Held()|;
      Remainder(held);
      while Flatten(rest) != []
        invariant Valid() && buffered && 0 <= done <= |all| && Flatten(rest) == all[done..] && Total() == before + all[..done]
        invariant Holds(held + done)
        decreases |all| - done
      {
        var left;
        ghost var out;
        left, ok, out := FillFrom(rest);
        Carried(held + done, |out|);
        Progress(all, done, out, Flatten(left));
        Assoc(before, all[..done], out);
        if !ok {
          PrefixOf(Total(), before, all, done + |out|);
          return;
        }
        done := done + |out|;
        rest := left;
      }
      ok := true;
      assert all[..done] == all;
    }

    /** Puts as much of a MultiBuffer as fits into the buffer. */
    method FillFrom(mb: Segs) returns (left: Segs, ok: bool, ghost out: seq<byte>)
      requires Valid() && Flatten(mb) != []
      modifies this`buffer, writer
      ensures Valid() && out + Flatten(left) == Flatten(mb) && |out| == Min(|Flatten(mb)|, SIZE - |old(Held())|)
      ensures ok ==> Total() == old(Total()) + out && (buffered ==> Holds(|old(Held())| + |out|))
      ensures !ok ==> Total() <= old(Total()) + out
    {
      var room := SIZE - (if buffer.Some? then |buffer.value| else 0);
      var s := SplitBytes(mb, room);
      out, left := s.out, s.rest;
      var n;
      n, ok := Fill(s.out);
      assert s.out[..n] == s.out;
    }
  }

  lemma {:induction false} TakenMore(data: seq<byte>, total: nat, n: nat)
    requires total + n <= |data|
    ensures data[..total + n] == data[..total] + data[total..][..n]
  {
  }

  lemma {:induction false} Remainder(n: nat)
    requires n <= SIZE
    ensures n % SIZE == if n == SIZE then 0 else n
  {
  }

  lemma {:induction false} Carried(n: nat, more: nat)
    ensures (n % SIZE + more) % SIZE == (n + more) % SIZE
  {
    assert n == n / SIZE * SIZE + n % SIZE;
    Multiple(n / SIZE, n % SIZE + more);
  }

  lemma {:induction false} Multiple(k: nat, n: nat)
    ensures (k * SIZE + n) % SIZE == n % SIZE
  {
    if k > 0 {
      Multiple(k - 1, n);
      assert k * SIZE + n == (k - 1) * SIZE + n + SIZE;
    }
  }

  lemma {:induction false} Progress(all: seq<byte>, done: nat, out: seq<byte>, rest: seq<byte>)
    requires done <= |all| && out + rest == all[done..]
    ensures all[..done + |out|] == all[..done] + out && rest == all[done + |out|..]
  {
    assert all == all[..done] + (out + rest);
    assert all == all[..done] + out + rest;
  }

  lemma {:induction false} PrefixOf(sent: seq<byte>, before: seq<byte>, data: seq<byte>, n: nat)
    requires n <= |data| && sent <= before + data[..n]
    ensures sent <= before + data
  {
    assert before + data == before + data[..n] + data[n..];
  }
}
