/** Buffers as windows onto byte arrays, and the MultiBuffer operations that change them in place. */
module Buffers {
  import opened Bytes
  import Segments

  lemma {:induction false} CutWindow(v: array<byte>, a: nat, b: nat, f: nat, t: nat)
    requires a <= b <= v.Length && f <= t <= b - a
    ensures v[a..b][f..t] == v[a + f..a + t]
  {
    var all := v[..];
    assert v[a..b] == all[a..b] && v[a + f..a + t] == all[a + f..a + t];
    assert forall k :: 0 <= k < t - f ==> all[a..b][f..t][k] == all[a + f + k];
  }

  class Buffer {
    const v: array<byte>
    var start: int
    var end: int

    ghost predicate Valid()
      reads this
    {
      0 <= start <= end <= v.Length
    }

    ghost function Content(): seq<byte>
      requires Valid()
      reads this, v
    {
      v[start..end]
    }

    constructor New()
      ensures Valid() && fresh(v) && Content() == [] && start == 0 && v.Length == SIZE
    {
      v := new byte[SIZE];
      start, end := 0, 0;
    }

    function Len(): int
      reads this
    {
      end - start
    }

    function IsFull(): bool
      reads this
    {
      end == v.Length
    }

    method Clear()
      modifies this`start, this`end
      ensures Valid() && Content() == [] && start == 0
    {
      start, end := 0, 0;
    }

    /** Copies as much as fits behind the window. */
    method Write(data: seq<byte>) returns (n: nat)
      requires Valid()
      modifies this`end, v
      ensures Valid() && n == Min(|data|, v.Length - old(end)) && end == old(end) + n
      ensures Content() == old(Content()) + data[..n]
      ensures v[..start] == old(v[..start])
    {
      n := Min(|data|, v.Length - end);
      forall i | 0 <= i < n {
        v[end + i] := data[i];
      }
      end := end + n;
    }

    method WriteByte(b: byte) returns (ok: bool)
      requires Valid()
      modifies this`end, v
      ensures Valid() && (ok <==> old(end) < v.Length)
      ensures Content() == if ok then old(Content()) + [b] else old(Content())
    {
      if IsFull() {
        return false;
      }
      v[end] := b;
      end := end + 1;
      return true;
    }

    /** Takes up to n bytes from the front; a window that has been read completely starts over. */
    method Read(n: nat) returns (ok: bool, data: seq<byte>)
      requires Valid()
      modifies this`start, this`end
      ensures Valid() && data + Content() == old(Content()) && |data| == Min(n, |old(Content())|)
      ensures ok <==> old(Content()) != []
      ensures ok && Content() == [] ==> start == 0
      ensures Content() != [] || !ok ==> end == old(end)
    {
      if Len() == 0 {
        return false, [];
      }
      var count := Min(n, Len());
      data := v[start..start + count];
      if count == Len() {
        Clear();
      } else {
        start := start + count;
      }
      return true, data;
    }

    /** Moves bytes from the front of another buffer to the end of this one; an empty buffer is at end of file. */
    method ReadFrom(other: Buffer) returns (ok: bool)
      requires Valid() && other.Valid() && other != this && other.v != v
      modifies this`end, v, other`start, other`end
      ensures ok <==> old(other.Content()) != []
      ensures Valid() && Content() == old(Content()) + old(other.Content())[..Min(|old(other.Content())|, v.Length - old(end))]
    {
      var data;
      ok, data := other.Read(v.Length - end);
      var _ := Write(data);
    }

    /** Exactly the next bytes, or nothing. */
    method ReadBytes(length: nat) returns (ok: bool, data: seq<byte>)
      requires Valid()
      modifies this`start
      ensures Valid() && data + Content() == old(Content())
      ensures if |old(Content())| < length then !ok && data == [] else ok && |data| == length
    {
      if end - start < length {
        return false, [];
      }
      data := v[start..start + length];
      start := start + length;
      return true, data;
    }

    /** Lengthens the window over whatever the array holds; out of bounds it panics. */
    method Extend(n: nat) returns (ok: bool)
      requires Valid()
      modifies this`end
      ensures Valid() && (ok <==> old(end) + n <= v.Length) && end == old(end) + (if ok then n else 0)
      ensures Content() == old(Content()) + v[old(end)..end]
    {
      var e := end + n;
      if e > v.Length {
        return false;
      }
      end := e;
      return true;
    }

    /** Makes sure that 0 <= start <= end. */
    method Check()
      modifies this`start, this`end
      ensures end == Max(old(end), 0) && start == Min(Max(old(start), 0), end)
    {
      if start < 0 {
        start := 0;
      }
      if end < 0 {
        end := 0;
      }
      if start > end {
        start := end;
      }
    }

    /** Moves the front; a negative position counts from the end, and one that reaches before the window uncovers bytes
        that were read before. */
    method Advance(from: int)
      requires Valid()
      modifies this`start, this`end
      ensures Valid() && end == old(end)
      ensures var f := if from < 0 then from + |old(Content())| else from;
              Content() == if f > |old(Content())| then []
                           else if f >= 0 then old(Content())[f..]
                           else v[Max(old(start) + f, 0)..old(start)] + old(Content())
    {
      var f := if from < 0 then from + Len() else from;
      start := start + f;
      Check();
    }

    /** Cuts the window; positions may be negative. It stays a window of the array if and only if the new end does. */
    method Resize(from: int, to: int) returns (ok: bool)
      requires Valid()
      modifies this`start, this`end
      ensures var n := |old(Content())|;
              var f, t := if from < 0 then from + n else from, if to < 0 then to + n else to;
              && (ok <==> f <= t)
              && (!ok ==> start == old(start) && end == old(end))
              && (ok ==> (Valid() <==> old(start) + t <= v.Length))
              && (ok && 0 <= f && t <= n ==> Valid() && Content() == old(Content())[f..t])
    {
      var f := if from < 0 then from + Len() else from;
      var t := if to < 0 then to + Len() else to;
      if t < f {
        return false;
      }
      ghost var was, base := v[start..end], start;
      end := start + t;
      start := start + f;
      Check();
      if 0 <= f && t <= |was| {
        CutWindow(v, base, base + |was|, f, t);
      }
      return true;
    }
  }

  // ---- Lists of buffers ----

  type MultiBuffer = seq<Buffer>

  /** What a window shows and where it lies in its array. */
  datatype Window = Window(bytes: seq<byte>, start: nat, cap: nat)

  ghost predicate Fits(w: Window)
  {
    w.start + |w.bytes| <= w.cap
  }

  ghost predicate Shows(b: Buffer, w: Window)
    reads b, b.v
  {
    b.Valid() && b.Content() == w.bytes && b.start == w.start && b.v.Length == w.cap
  }

  /** No two buffers share an array. */
  ghost predicate Apart(mb: MultiBuffer)
  {
    forall i, j :: 0 <= i < j < |mb| ==> mb[i] != mb[j] && mb[i].v != mb[j].v
  }

  ghost predicate ShowAll(mb: MultiBuffer, ws: seq<Window>)
    reads mb, set b | b in mb :: b.v
  {
    |mb| == |ws| && forall i :: 0 <= i < |mb| ==> Shows(mb[i], ws[i])
  }

  /** The bytes of every window, in order. */
  function Segs(ws: seq<Window>): seq<seq<byte>>
  {
    if ws == [] then [] else [ws[0].bytes] + Segs(ws[1..])
  }

  function AllBytes(ws: seq<Window>): seq<byte>
  {
    Flatten(Segs(ws))
  }

  // ---- Compact ----

  /** What Compact does with the windows: None is a panic; bytes that do not fit behind the last window are dropped. */
  function CompactFrom(last: Window, rest: seq<Window>): Option<seq<Window>>
    decreases |rest|
  {
    if rest == [] then Some([last])
    else
      var curr := rest[0];
      if |last.bytes| + |curr.bytes| > SIZE then
        var r := CompactFrom(curr, rest[1..]);
        if r.None? then None else Some([last] + r.value)
      else if curr.bytes == [] then None
      else CompactFrom(Appended(last, curr), rest[1..])
  }

  function Appended(last: Window, curr: Window): Window
  {
    var n := Min(|curr.bytes|, Max(last.cap - last.start - |last.bytes|, 0));
    last.(bytes := last.bytes + curr.bytes[..n])
  }

  /** Every window that is merged is non-empty and fits behind the one it is merged into. */
  predicate Mergeable(last: Window, rest: seq<Window>)
    decreases |rest|
  {
    rest != [] ==>
      var curr := rest[0];
      if |last.bytes| + |curr.bytes| > SIZE then Mergeable(curr, rest[1..])
      else
        && curr.bytes != []
        && last.start + |last.bytes| + |curr.bytes| <= last.cap
        && Mergeable(last.(bytes := last.bytes + curr.bytes), rest[1..])
  }

  lemma {:induction false} AllBytesCons(w: Window, ws: seq<Window>)
    ensures AllBytes([w] + ws) == w.bytes + AllBytes(ws)
  {
    assert ([w] + ws)[1..] == ws;
    assert Segs([w] + ws)[1..] == Segs(ws);
  }

  lemma {:induction false} AllBytesHead(ws: seq<Window>)
    requires ws != []
    ensures AllBytes(ws) == ws[0].bytes + AllBytes(ws[1..])
  {
    AllBytesCons(ws[0], ws[1..]);
    assert [ws[0]] + ws[1..] == ws;
  }

  lemma {:induction false} CompactLength(last: Window, rest: seq<Window>)
    requires Fits(last)
    requires forall w :: w in rest ==> Fits(w)
    ensures CompactFrom(last, rest).Some? ==>
      |AllBytes(CompactFrom(last, rest).value)| <= |last.bytes| + |AllBytes(rest)|
    ensures CompactFrom(last, rest).Some? && |AllBytes(CompactFrom(last, rest).value)| == |last.bytes| + |AllBytes(rest)|
      <==> Mergeable(last, rest)
    decreases |rest|
  {
    if rest == [] {
      AllBytesCons(last, []);
      assert [last] + [] == [last];
    } else {
      AllBytesHead(rest);
      var curr := rest[0];
      if |last.bytes| + |curr.bytes| > SIZE {
        CompactLength(curr, rest[1..]);
        if CompactFrom(curr, rest[1..]).Some? {
          AllBytesCons(last, CompactFrom(curr, rest[1..]).value);
        }
      } else if curr.bytes != [] {
        CompactLength(Appended(last, curr), rest[1..]);
        assert last.start + |last.bytes| + |curr.bytes| <= last.cap ==> Appended(last, curr) == last.(bytes := last.bytes + curr.bytes);
      }
    }
  }

  lemma {:induction false} CompactKeeps(last: Window, rest: seq<Window>)
    requires Mergeable(last, rest)
    ensures CompactFrom(last, rest).Some? && AllBytes(CompactFrom(last, rest).value) == last.bytes + AllBytes(rest)
    decreases |rest|
  {
    if rest == [] {
      AllBytesCons(last, []);
      assert [last] + [] == [last] && last.bytes + [] == last.bytes;
    } else {
      AllBytesHead(rest);
      var curr := rest[0];
      if |last.bytes| + |curr.bytes| > SIZE {
        CompactKeeps(curr, rest[1..]);
        AllBytesCons(last, CompactFrom(curr, rest[1..]).value);
      } else {
        assert Appended(last, curr) == last.(bytes := last.bytes + curr.bytes);
        CompactKeeps(last.(bytes := last.bytes + curr.bytes), rest[1..]);
        Assoc(last.bytes, curr.bytes, AllBytes(rest[1..]));
      }
    }
  }

  /** Compact returns the same bytes if and only if every window it merges is non-empty and fits. */
  lemma {:induction false} CompactIff(ws: seq<Window>)
    requires ws != [] && forall w :: w in ws ==> Fits(w)
    ensures (var r := CompactFrom(ws[0], ws[1..]); r.Some? && AllBytes(r.value) == AllBytes(ws)) <==> Mergeable(ws[0], ws[1..])
  {
    AllBytesHead(ws);
    CompactLength(ws[0], ws[1..]);
    if Mergeable(ws[0], ws[1..]) {
      CompactKeeps(ws[0], ws[1..]);
    }
  }

  /** A window at the start of a standard buffer. */
  predicate Standard(w: Window)
  {
    w.start == 0 && w.cap == SIZE && |w.bytes| <= SIZE
  }

  /** Standard buffers with nothing empty after the first always qualify. */
  lemma {:induction false} StandardMergeable(last: Window, rest: seq<Window>)
    requires Standard(last) && forall w :: w in rest ==> Standard(w) && w.bytes != []
    ensures Mergeable(last, rest)
    decreases |rest|
  {
    if rest != [] {
      if |last.bytes| + |rest[0].bytes| > SIZE {
        StandardMergeable(rest[0], rest[1..]);
      } else {
        StandardMergeable(last.(bytes := last.bytes + rest[0].bytes), rest[1..]);
      }
    }
  }

  /** No two neighbours of the result would fit into one buffer. */
  lemma {:induction false} CompactTight(last: Window, rest: seq<Window>)
    requires Mergeable(last, rest)
    ensures CompactFrom(last, rest).Some?
    ensures var r := CompactFrom(last, rest).value;
            && r != [] && |r[0].bytes| >= |last.bytes|
            && forall i :: 0 <= i < |r| - 1 ==> |r[i].bytes| + |r[i + 1].bytes| > SIZE
    decreases |rest|
  {
    if rest != [] {
      var curr := rest[0];
      if |last.bytes| + |curr.bytes| > SIZE {
        CompactTight(curr, rest[1..]);
      } else {
        assert Appended(last, curr) == last.(bytes := last.bytes + curr.bytes);
        CompactTight(last.(bytes := last.bytes + curr.bytes), rest[1..]);
      }
    }
  }

  function Behind(done: seq<Window>, r: Option<seq<Window>>): Option<seq<Window>>
  {
    if r.None? then None else Some(done + r.value)
  }

  lemma {:induction false} CompactStep(done: seq<Window>, last: Window, ws: seq<Window>, i: nat)
    requires i < |ws|
    ensures var r := Behind(done, CompactFrom(last, ws[i..]));
            if |last.bytes| + |ws[i].bytes| > SIZE then r == Behind(done + [last], CompactFrom(ws[i], ws[i + 1..]))
            else if ws[i].bytes == [] then r == None
            else r == Behind(done, CompactFrom(Appended(last, ws[i]), ws[i + 1..]))
  {
    assert ws[i..][0] == ws[i] && ws[i..][1..] == ws[i + 1..];
    var r := CompactFrom(ws[i], ws[i + 1..]);
    if r.Some? {
      Assoc(done, [last], r.value);
    }
  }

  /** The finished buffers and the last one are buffers of the list, in order. */
  ghost predicate Chosen(mb: MultiBuffer, mb2: MultiBuffer, places: seq<nat>, p: nat)
  {
    && |places| == |mb2| && p < |mb|
    && forall q :: 0 <= q < |mb2| ==> places[q] < p && mb2[q] == mb[places[q]]
  }

  /** The buffers from i on show their windows. */
  ghost predicate ShowFrom(mb: MultiBuffer, ws: seq<Window>, i: nat)
    reads mb, set b | b in mb :: b.v
  {
    |mb| == |ws| && forall j :: i <= j < |mb| ==> Shows(mb[j], ws[j])
  }

  /** How far the loop has come: the finished buffers and the last one show the windows they should. */
  ghost predicate Progress(mb: MultiBuffer, i: nat, p: nat, mb2: MultiBuffer, places: seq<nat>,
    ws: seq<Window>, done: seq<Window>, lastW: Window)
    reads mb, set b | b in mb :: b.v
  {
    && p < i <= |mb| && Chosen(mb, mb2, places, p)
    && |mb2| == |done| && (forall q :: 0 <= q < |mb2| ==> mb2[q] in mb && Shows(mb2[q], done[q]))
    && Shows(mb[p], lastW) && ShowFrom(mb, ws, i)
  }

  lemma {:induction false} KeepLast(mb: MultiBuffer, i: nat, p: nat, mb2: MultiBuffer, places: seq<nat>,
    ws: seq<Window>, done: seq<Window>, lastW: Window)
    requires Progress(mb, i, p, mb2, places, ws, done, lastW)
    ensures ShowAll(mb2 + [mb[p]], done + [lastW])
    ensures i < |mb| ==> Progress(mb, i + 1, i, mb2 + [mb[p]], places + [p], ws, done + [lastW], ws[i])
  {
  }

  /** Merges buffer i of the list into an earlier one. */
  method MergeInto(mb: MultiBuffer, i: nat, p: nat, ghost mb2: MultiBuffer, ghost places: seq<nat>,
    ghost ws: seq<Window>, ghost done: seq<Window>, ghost lastW: Window) returns (ok: bool)
    requires Apart(mb) && i < |mb| && Progress(mb, i, p, mb2, places, ws, done, lastW)
    modifies mb, set b | b in mb :: b.v
    ensures ok <==> ws[i].bytes != []
    ensures Progress(mb, i + 1, p, mb2, places, ws, done, Appended(lastW, ws[i]))
  {
    ok := mb[p].ReadFrom(mb[i]);
  }

  lemma {:induction false} StartCompact(mb: MultiBuffer, ws: seq<Window>)
    requires ShowAll(mb, ws) && mb != []
    ensures Progress(mb, 1, 0, [], [], ws, [], ws[0])
    ensures Behind([], CompactFrom(ws[0], ws[1..])) == CompactFrom(ws[0], ws[1..])
  {
    var whole := CompactFrom(ws[0], ws[1..]);
    assert whole.Some? ==> [] + whole.value == whole.value;
  }

  /** One turn of the loop of Compact: buffer i becomes the last one or goes into it. */
  method Absorb(mb: MultiBuffer, i: nat, p: nat, mb2: MultiBuffer, ghost places: seq<nat>,
    ghost ws: seq<Window>, ghost done: seq<Window>, ghost lastW: Window)
    returns (ok: bool, p': nat, mb2': MultiBuffer, ghost places': seq<nat>, ghost done': seq<Window>, ghost lastW': Window)
    requires Apart(mb) && i < |mb| && Progress(mb, i, p, mb2, places, ws, done, lastW)
    modifies mb, set b | b in mb :: b.v
    ensures ok ==> Progress(mb, i + 1, p', mb2', places', ws, done', lastW')
    ensures Behind(done, CompactFrom(lastW, ws[i..])) == if ok then Behind(done', CompactFrom(lastW', ws[i + 1..])) else None
  {
    ok, p', mb2', places', done', lastW' := true, p, mb2, places, done, lastW;
    CompactStep(done, lastW, ws, i);
    if mb[p].Len() + mb[i].Len() > SIZE {
      KeepLast(mb, i, p, mb2, places, ws, done, lastW);
      mb2', places', done' := mb2 + [mb[p]], places + [p], done + [lastW];
      p', lastW' := i, ws[i];
    } else {
      ok := MergeInto(mb, i, p, mb2, places, ws, done, lastW);
      lastW' := Appended(lastW, ws[i]);
    }
  }

  /** ok is false when it panics. */
  method Compact(mb: MultiBuffer, ghost ws: seq<Window>) returns (ok: bool, r: MultiBuffer)
    requires ShowAll(mb, ws) && Apart(mb)
    modifies mb, set b | b in mb :: b.v
    ensures mb == [] ==> ok && r == []
    ensures mb != [] ==> (ok <==> CompactFrom(ws[0], ws[1..]).Some?)
    ensures mb != [] && ok ==> ShowAll(r, CompactFrom(ws[0], ws[1..]).value)
  {
    if |mb| == 0 {
      return true, mb;
    }
    var mb2: MultiBuffer := [];
    var p: nat, i := 0, 1;
    ghost var places: seq<nat>, done: seq<Window>, lastW := [], [], ws[0];
    ghost var whole := CompactFrom(lastW, ws[1..]);
    StartCompact(mb, ws);
    while i < |mb|
      invariant 1 <= i <= |mb| && Progress(mb, i, p, mb2, places, ws, done, lastW)
      invariant whole == Behind(done, CompactFrom(lastW, ws[i..]))
    {
      ok, p, mb2, places, done, lastW := Absorb(mb, i, p, mb2, places, ws, done, lastW);
      if !ok {
        return false, [];
      }
      i := i + 1;
    }
    KeepLast(mb, i, p, mb2, places, ws, done, lastW);
    assert CompactFrom(lastW, ws[i..]) == Some([lastW]);
    return true, mb2 + [mb[p]];
  }

  // ---- Merging bytes ----

  /** The bytes in buffers of their own, each full but the last. */
  function Chunks(src: seq<byte>): seq<Window>
  {
    if src == [] then []
    else
      var n := Min(|src|, SIZE);
      [Window(src[..n], 0, SIZE)] + Chunks(src[n..])
  }

  function Room(last: Window, src: seq<byte>): nat
    requires Fits(last)
  {
    Min(|src|, last.cap - last.start - |last.bytes|)
  }

  /** The last window after what fits has been written behind it. */
  function FilledLast(ws: seq<Window>, src: seq<byte>): seq<Window>
    requires ws != [] && Fits(ws[|ws| - 1])
  {
    var last := ws[|ws| - 1];
    ws[..|ws| - 1] + [last.(bytes := last.bytes + src[..Room(last, src)])]
  }

  /** What goes into the room that is left in the last window, and what needs new ones. */
  function Merged(ws: seq<Window>, src: seq<byte>): seq<Window>
    requires ws != [] ==> Fits(ws[|ws| - 1])
  {
    if ws == [] then Chunks(src) else FilledLast(ws, src) + Chunks(src[Room(ws[|ws| - 1], src)..])
  }

  lemma {:induction false} ChunksBytes(src: seq<byte>)
    ensures AllBytes(Chunks(src)) == src
    decreases |src|
  {
    if src != [] {
      var n := Min(|src|, SIZE);
      ChunksBytes(src[n..]);
      AllBytesCons(Window(src[..n], 0, SIZE), Chunks(src[n..]));
      assert src == src[..n] + src[n..];
    }
  }

  lemma {:induction false} SegsConcat(a: seq<Window>, b: seq<Window>)
    ensures Segs(a + b) == Segs(a) + Segs(b)
    decreases |a|
  {
    if a == [] {
      assert a + b == b;
    } else {
      assert (a + b)[1..] == a[1..] + b;
      SegsConcat(a[1..], b);
      Assoc([a[0].bytes], Segs(a[1..]), Segs(b));
    }
  }

  lemma {:induction false} AllBytesConcat(a: seq<Window>, b: seq<Window>)
    ensures AllBytes(a + b) == AllBytes(a) + AllBytes(b)
  {
    SegsConcat(a, b);
    FlattenConcat(Segs(a), Segs(b));
  }

  lemma {:induction false} AllBytesOne(w: Window)
    ensures AllBytes([w]) == w.bytes
  {
    AllBytesCons(w, []);
    assert [w] + [] == [w];
  }

  lemma {:induction false} FilledBytes(ws: seq<Window>, src: seq<byte>)
    requires ws != [] && Fits(ws[|ws| - 1])
    ensures AllBytes(FilledLast(ws, src)) == AllBytes(ws) + src[..Room(ws[|ws| - 1], src)]
  {
    var front, last := ws[..|ws| - 1], ws[|ws| - 1];
    var data := src[..Room(last, src)];
    var grown := last.(bytes := last.bytes + data);
    AllBytesConcat(front, [grown]);
    AllBytesConcat(front, [last]);
    AllBytesOne(grown);
    AllBytesOne(last);
    assert ws == front + [last];
    Assoc(AllBytes(front), last.bytes, data);
  }

  /** Merging appends the bytes, all of them and in order. */
  lemma {:induction false} MergedBytes(ws: seq<Window>, src: seq<byte>)
    requires ws != [] ==> Fits(ws[|ws| - 1])
    ensures AllBytes(Merged(ws, src)) == AllBytes(ws) + src
  {
    if ws == [] {
      ChunksBytes(src);
    } else {
      var n := Room(ws[|ws| - 1], src);
      FilledBytes(ws, src);
      ChunksBytes(src[n..]);
      AllBytesConcat(FilledLast(ws, src), Chunks(src[n..]));
      Assoc(AllBytes(ws), src[..n], src[n..]);
      assert src == src[..n] + src[n..];
    }
  }

  lemma {:induction false} MergeChunks(dest: seq<seq<byte>>, src: seq<byte>)
    requires dest != [] ==> |dest[|dest| - 1]| >= SIZE
    ensures Segments.MergeBytes(dest, src) == dest + Segs(Chunks(src))
    decreases |src|
  {
    if src != [] {
      var n := Min(|src|, SIZE);
      var one, rest := Window(src[..n], 0, SIZE), Chunks(src[n..]);
      assert ([one] + rest)[1..] == rest;
      Assoc(dest, [src[..n]], Segs(rest));
      if n < |src| {
        MergeChunks(dest + [src[..n]], src[n..]);
      }
    }
  }

  /** On a standard last buffer the windows do what the list of segments does. */
  lemma {:induction false} MergedStandard(ws: seq<Window>, src: seq<byte>)
    requires ws != [] ==> Standard(ws[|ws| - 1])
    ensures Segs(Merged(ws, src)) == Segments.MergeBytes(Segs(ws), src)
  {
    if ws == [] {
      MergeChunks([], src);
    } else {
      var front, last := ws[..|ws| - 1], ws[|ws| - 1];
      var n := Room(last, src);
      var grown := last.(bytes := last.bytes + src[..n]);
      SegsSnoc(front, last);
      SegsSnoc(front, grown);
      assert front + [last] == ws;
      SegsConcat(front + [grown], Chunks(src[n..]));
      MergeLast(Segs(front), last.bytes, src, n);
    }
  }

  lemma {:induction false} SegsSnoc(ws: seq<Window>, w: Window)
    ensures Segs(ws + [w]) == Segs(ws) + [w.bytes]
  {
    SegsConcat(ws, [w]);
    assert [w][1..] == [];
  }

  /** Filling up the last segment first. */
  lemma {:induction false} MergeLast(front: seq<seq<byte>>, last: seq<byte>, src: seq<byte>, n: nat)
    requires |last| <= SIZE && n == Min(|src|, SIZE - |last|)
    ensures Segments.MergeBytes(front + [last], src) == front + [last + src[..n]] + Segs(Chunks(src[n..]))
  {
    var dest := front + [last];
    assert dest[..|dest| - 1] == front && dest[|dest| - 1] == last;
    assert n == 0 ==> last + src[..n] == last && src[n..] == src;
    if n < |src| {
      MergeChunks(front + [last + src[..n]], src[n..]);
    }
  }

  method NewWith(src: seq<byte>) returns (b: Buffer, n: nat)
    ensures fresh(b) && fresh(b.v) && n == Min(|src|, SIZE) && Shows(b, Window(src[..n], 0, SIZE))
  {
    b := new Buffer.New();
    n := b.Write(src);
  }

  lemma {:induction false} ShowSnoc(mb: MultiBuffer, ws: seq<Window>, b: Buffer, w: Window)
    requires ShowAll(mb, ws) && Apart(mb) && Shows(b, w)
    requires forall i :: 0 <= i < |mb| ==> mb[i] != b && mb[i].v != b.v
    ensures ShowAll(mb + [b], ws + [w]) && Apart(mb + [b])
  {
  }

  method AppendChunks(dest: MultiBuffer, data: seq<byte>, ghost ws: seq<Window>) returns (r: MultiBuffer)
    requires ShowAll(dest, ws) && Apart(dest)
    ensures ShowAll(r, ws + Chunks(data)) && Apart(r)
  {
    r := dest;
    var src := data;
    ghost var shown, whole := ws, ws + Chunks(data);
    while |src| > 0
      invariant ShowAll(r, shown) && Apart(r)
      invariant shown + Chunks(src) == whole
      decreases |src|
    {
      var b, n := NewWith(src);
      ShowSnoc(r, shown, b, Window(src[..n], 0, SIZE));
      Assoc(shown, [Window(src[..n], 0, SIZE)], Chunks(src[n..]));
      shown := shown + [Window(src[..n], 0, SIZE)];
      r := r + [b];
      src := src[n..];
    }
  }

  method FillLast(dest: MultiBuffer, src: seq<byte>, ghost ws: seq<Window>) returns (n: nat)
    requires ShowAll(dest, ws) && Apart(dest) && dest != []
    modifies dest[|dest| - 1], dest[|dest| - 1].v
    ensures n == Room(ws[|ws| - 1], src) && ShowAll(dest, FilledLast(ws, src))
  {
    n := dest[|dest| - 1].Write(src);
  }

  lemma {:induction false} FilledIdle(ws: seq<Window>, src: seq<byte>)
    requires ws != [] && Fits(ws[|ws| - 1]) && Room(ws[|ws| - 1], src) == 0
    ensures FilledLast(ws, src) == ws
  {
    var last := ws[|ws| - 1];
    assert last.bytes + src[..0] == last.bytes && ws == ws[..|ws| - 1] + [last];
  }

  method MergeBytes(dest: MultiBuffer, data: seq<byte>, ghost ws: seq<Window>) returns (r: MultiBuffer)
    requires ShowAll(dest, ws) && Apart(dest)
    modifies dest, set b | b in dest :: b.v
    ensures ShowAll(r, Merged(ws, data)) && Apart(r)
  {
    var n := |dest|;
    if n == 0 {
      assert [] + Chunks(data) == Chunks(data);
      r := AppendChunks(dest, data, []);
    } else if !dest[n - 1].IsFull() {
      var count := FillLast(dest, data, ws);
      r := AppendChunks(dest, data[count..], FilledLast(ws, data));
    } else {
      FilledIdle(ws, data);
      assert data[0..] == data;
      r := AppendChunks(dest, data, ws);
    }
  }

  // ---- Splitting ----

  /** The buffers of a list hold the given segments. */
  ghost predicate Hold(mb: MultiBuffer, segs: seq<seq<byte>>)
    reads mb, set b | b in mb :: b.v
  {
    |mb| == |segs| && forall i :: 0 <= i < |mb| ==> mb[i].Valid() && mb[i].Content() == segs[i]
  }

  /** Reads from one buffer of the list; the ones behind it keep their segments. */
  method ReadOne(mb: MultiBuffer, i: nat, n: nat, ghost segs: seq<seq<byte>>) returns (data: seq<byte>, empty: bool)
    requires i < |mb| && HoldFrom(mb, segs, i) && Apart(mb)
    modifies mb
    ensures HoldFrom(mb, segs, i + 1)
    ensures empty <==> |segs[i]| <= n
    ensures empty ==> data == segs[i]
    ensures !empty ==> data == segs[i][..n] && Hold(mb[i..], [segs[i][n..]] + segs[i + 1..])
  {
    var ok;
    ok, data := mb[i].Read(n);
    assert data == segs[i][..|data|] && mb[i].Content() == segs[i][|data|..];
    empty := mb[i].Len() == 0;
    if !empty {
      HoldRest(mb, segs, i, segs[i][n..]);
    }
  }

  /** Copies up to n bytes out; buffers that become empty are dropped. */
  method SplitBytes(mb: MultiBuffer, n: nat, ghost segs: seq<seq<byte>>) returns (rest: MultiBuffer, out: seq<byte>)
    requires Hold(mb, segs) && Apart(mb)
    modifies mb
    ensures Hold(rest, Segments.SplitBytes(segs, n).rest)
    ensures out == Segments.SplitBytes(segs, n).out
  {
    out := [];
    var i := 0;
    while i < |mb|
      invariant 0 <= i <= |mb| && |out| <= n && HoldFrom(mb, segs, i)
      invariant out == Flatten(segs[..i])
    {
      PrefixStep(segs, i);
      var data, empty := ReadOne(mb, i, n - |out|, segs);
      if !empty {
        SplitInside(segs, n, i);
        return mb[i..], out + data;
      }
      out := out + data;
      i := i + 1;
    }
    assert segs[..i] == segs;
    SplitAll(segs, n);
    return [], out;
  }

  ghost predicate HoldFrom(mb: MultiBuffer, segs: seq<seq<byte>>, i: nat)
    reads mb, set b | b in mb :: b.v
  {
    |mb| == |segs| && forall j :: i <= j < |mb| ==> mb[j].Valid() && mb[j].Content() == segs[j]
  }

  lemma {:induction false} PrefixStep(segs: seq<seq<byte>>, i: nat)
    requires i < |segs|
    ensures Flatten(segs[..i + 1]) == Flatten(segs[..i]) + segs[i]
  {
    assert segs[..i + 1] == segs[..i] + [segs[i]];
    FlattenSnoc(segs[..i], segs[i]);
  }

  lemma {:induction false} SplitAll(segs: seq<seq<byte>>, n: nat)
    requires |Flatten(segs)| <= n
    ensures Segments.SplitBytes(segs, n) == Segments.BytesSplit([], Flatten(segs))
    decreases |segs|
  {
    if segs != [] {
      SplitAll(segs[1..], n - |segs[0]|);
    }
  }

  lemma {:induction false} SplitInside(segs: seq<seq<byte>>, n: nat, i: nat)
    requires i < |segs| && |Flatten(segs[..i])| <= n < |Flatten(segs[..i])| + |segs[i]|
    ensures var k := n - |Flatten(segs[..i])|;
            Segments.SplitBytes(segs, n) == Segments.BytesSplit([segs[i][k..]] + segs[i + 1..], Flatten(segs[..i]) + segs[i][..k])
    decreases i
  {
    if i == 0 {
      assert segs[..0] == [] && [] + segs[0][..n] == segs[0][..n];
    } else {
      assert segs[..i][1..] == segs[1..][..i - 1] && segs[1..][i..] == segs[i + 1..];
      SplitInside(segs[1..], n - |segs[0]|, i - 1);
      Assoc(segs[0], Flatten(segs[1..][..i - 1]), segs[i][..n - |Flatten(segs[..i])|]);
    }
  }

  lemma {:induction false} HoldRest(mb: MultiBuffer, segs: seq<seq<byte>>, i: nat, left: seq<byte>)
    requires i < |mb| && HoldFrom(mb, segs, i + 1) && mb[i].Valid() && mb[i].Content() == left
    ensures Hold(mb[i..], [left] + segs[i + 1..])
  {
  }

  /** A new buffer for the front of one that is too long; it panics beyond the size of a buffer. */
  method CutFront(b: Buffer, size: nat) returns (ok: bool, front: Buffer)
    requires b.Valid() && size < |b.Content()|
    modifies b
    ensures ok <==> size <= SIZE
    ensures fresh(front) && fresh(front.v) && front.Valid() && b.Valid()
    ensures ok ==> front.Content() == old(b.Content())[..size] && b.Content() == old(b.Content())[size..]
  {
    front := new Buffer.New();
    if size > SIZE {
      return false, front;
    }
    var data := b.v[b.start..b.start + size];
    CutWindow(b.v, b.start, b.end, 0, size);
    var n := front.Write(data);
    assert data[..n] == data;
    b.Advance(size);
    ok := true;
  }

  lemma {:induction false} HoldParts(mb: MultiBuffer, segs: seq<seq<byte>>, i: nat)
    requires Hold(mb, segs) && i <= |mb|
    ensures Hold(mb[..i], segs[..i]) && Hold(mb[i..], segs[i..])
  {
  }

  lemma {:induction false} TakeAt(segs: seq<seq<byte>>, size: nat, i: nat)
    requires i <= |segs| && |Flatten(segs[..i])| <= size
    requires i < |segs| ==> |Flatten(segs[..i])| + |segs[i]| > size
    ensures Segments.TakeWhole(segs, size) == Segments.SizeSplit(segs[i..], segs[..i])
    decreases i
  {
    if i == 0 {
      assert segs[..0] == [] && segs[0..] == segs;
    } else {
      assert segs[..i][1..] == segs[1..][..i - 1] && segs[1..][i - 1..] == segs[i..] && segs[..i] == [segs[0]] + segs[1..][..i - 1];
      TakeAt(segs[1..], size - |segs[0]|, i - 1);
    }
  }

  /** How many buffers fit into size bytes. */
  method FitCount(mb: MultiBuffer, size: nat, ghost segs: seq<seq<byte>>) returns (i: nat)
    requires Hold(mb, segs)
    ensures i <= |mb| && |Flatten(segs[..i])| <= size && (i < |mb| ==> |Flatten(segs[..i])| + |segs[i]| > size)
  {
    var total := 0;
    i := 0;
    while i < |mb| && total + mb[i].Len() <= size
      invariant 0 <= i <= |mb| && total == |Flatten(segs[..i])| <= size
    {
      PrefixStep(segs, i);
      total := total + mb[i].Len();
      i := i + 1;
    }
  }

  lemma {:induction false} TakeHolds(mb: MultiBuffer, size: nat, segs: seq<seq<byte>>, i: nat)
    requires Hold(mb, segs) && i <= |mb| && |Flatten(segs[..i])| <= size && (i < |mb| ==> |Flatten(segs[..i])| + |segs[i]| > size)
    ensures Hold(mb[i..], Segments.TakeWhole(segs, size).rest) && Hold(mb[..i], Segments.TakeWhole(segs, size).taken)
  {
    TakeAt(segs, size, i);
    HoldParts(mb, segs, i);
  }

  /** The front of a first buffer that is too long. */
  method CutFirst(mb: MultiBuffer, size: nat, ghost segs: seq<seq<byte>>) returns (ok: bool, b: Buffer)
    requires Hold(mb, segs) && Apart(mb) && mb != [] && size < |segs[0]|
    modifies mb[0]
    ensures ok <==> size <= SIZE
    ensures ok ==> b.Valid() && b.Content() == segs[0][..size] && Hold(mb, [segs[0][size..]] + segs[1..])
  {
    ok, b := CutFront(mb[0], size);
    if ok {
      HoldRest(mb, segs, 0, segs[0][size..]);
      assert mb[0..] == mb;
    }
  }

  /** Splits off whole buffers up to size bytes, or the front of a longer first one. */
  method SplitSize(mb: MultiBuffer, size: nat, ghost segs: seq<seq<byte>>) returns (ok: bool, rest: MultiBuffer, taken: MultiBuffer)
    requires Hold(mb, segs) && Apart(mb)
    modifies mb
    ensures ok <==> mb == [] || |segs[0]| <= size || size <= SIZE
    ensures ok ==> Hold(rest, Segments.SplitSize(segs, size).rest) && Hold(taken, Segments.SplitSize(segs, size).taken)
  {
    if |mb| == 0 {
      return true, mb, [];
    }
    if mb[0].Len() > size {
      var b;
      ok, b := CutFirst(mb, size, segs);
      return ok, mb, [b];
    }
    var i := FitCount(mb, size, segs);
    TakeHolds(mb, size, segs, i);
    return true, mb[i..], mb[..i];
  }

  // ---- Moving whole buffers ----

  /** The first buffer and the others. */
  method SplitFirst(mb: MultiBuffer) returns (rest: MultiBuffer, first: Option<Buffer>)
    ensures mb == [] <==> first.None?
    ensures mb == (if first.Some? then [first.value] else []) + rest
  {
    if |mb| == 0 {
      return mb, None;
    }
    return mb[1..], Some(mb[0]);
  }

  /** The buffers before index i and those from it on; an index outside the list splits nothing off. */
  method SplitMulti(mb: MultiBuffer, i: int) returns (first: MultiBuffer, second: MultiBuffer)
    ensures first + second == mb
    ensures |first| == if 0 <= i < |mb| then i else |mb|
  {
    if 0 <= i < |mb| {
      return mb[..i], mb[i..];
    }
    return mb, [];
  }
}
