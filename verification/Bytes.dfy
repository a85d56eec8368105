/** Bytes, big-endian words and sequences of segments, shared by every wire format of the model. */
module Bytes {

  type byte = b: int | 0 <= b < 256

  /** The size of a regular buffer (buf.Size). */
  const SIZE := 8192

  datatype Option<+T> = None | Some(value: T)

  function FromU16(s: seq<byte>): (n: nat)
    requires |s| == 2
  {
    (s[0] as int) * 256 + s[1] as int
  }

  /** A 16-bit word in network byte order: the only two bytes with that value. */
  function U16(n: nat): (r: seq<byte>)
    requires n < 65536
    ensures |r| == 2 && FromU16(r) == n
  {
    assert FromU16([n / 256, n % 256]) == n;
    var r: seq<byte> :| |r| == 2 && FromU16(r) == n;
    r
  }

  lemma {:induction false} U16Unique(s: seq<byte>)
    requires |s| == 2
    ensures FromU16(s) < 65536 && U16(FromU16(s)) == s
  {
  }

  function Flatten<T>(ss: seq<seq<T>>): seq<T>
  {
    if ss == [] then [] else ss[0] + Flatten(ss[1..])
  }

  lemma {:induction false} Assoc<T>(a: seq<T>, b: seq<T>, c: seq<T>)
    ensures a + (b + c) == a + b + c
  {
  }

  lemma {:induction false} FlattenConcat<T>(a: seq<seq<T>>, b: seq<seq<T>>)
    ensures Flatten(a + b) == Flatten(a) + Flatten(b)
  {
    if a == [] {
      assert a + b == b;
    } else {
      FlattenConcat(a[1..], b);
      assert (a + b)[1..] == a[1..] + b;
      Assoc(a[0], Flatten(a[1..]), Flatten(b));
    }
  }

  lemma {:induction false} FlattenCons<T>(a: seq<T>, ss: seq<seq<T>>)
    ensures Flatten([a] + ss) == a + Flatten(ss)
  {
    assert ([a] + ss)[1..] == ss;
  }

  lemma {:induction false} FlattenOne<T>(a: seq<T>)
    ensures Flatten([a]) == a
  {
    assert [a][1..] == [];
    assert Flatten([a]) == a + Flatten<T>([]);
  }

  lemma {:induction false} FlattenSnoc<T>(a: seq<seq<T>>, b: seq<T>)
    ensures Flatten(a + [b]) == Flatten(a) + b
  {
    FlattenConcat(a, [b]);
    FlattenOne(b);
  }

  /** The segments that hold anything. */
  function NonEmpty(ss: seq<seq<byte>>): seq<seq<byte>>
  {
    if ss == [] then [] else (if ss[0] == [] then [] else [ss[0]]) + NonEmpty(ss[1..])
  }

  lemma {:induction false} NonEmptySnoc(ss: seq<seq<byte>>, s: seq<byte>)
    ensures NonEmpty(ss + [s]) == NonEmpty(ss) + (if s == [] then [] else [s])
    decreases |ss|
  {
    if ss == [] {
      assert ss + [s] == [s] && [s][1..] == [];
    } else {
      NonEmptySnoc(ss[1..], s);
      assert (ss + [s])[1..] == ss[1..] + [s];
      Assoc(if ss[0] == [] then [] else [ss[0]], NonEmpty(ss[1..]), if s == [] then [] else [s]);
    }
  }

  lemma {:induction false} FlattenNonEmpty(ss: seq<seq<byte>>)
    ensures Flatten(NonEmpty(ss)) == Flatten(ss)
    decreases |ss|
  {
    if ss != [] {
      FlattenNonEmpty(ss[1..]);
      if ss[0] != [] {
        assert NonEmpty(ss)[1..] == NonEmpty(ss[1..]);
      } else {
        assert NonEmpty(ss) == NonEmpty(ss[1..]);
      }
    }
  }

  /** Two ways to cut the same bytes at the same place, or before the end of them. */
  lemma {:induction false} SameFront<T>(a: seq<T>, b: seq<T>, c: seq<T>, d: seq<T>)
    requires a + b == c + d && (|a| == |c| || (|c| < |a| && d == []))
    ensures a == c && b == d
  {
    assert |a + b| == |a| + |b| && |c + d| == |c| + |d|;
    assert a == (a + b)[..|a|] && c == (c + d)[..|c|];
    assert b == (a + b)[|a|..] && d == (c + d)[|c|..];
  }

  /** copy() into the free tail of a standard buffer: what does not fit is silently dropped. */
  function WriteInto(buffer: seq<byte>, data: seq<byte>): (r: seq<byte>)
    requires |buffer| <= SIZE
    ensures |r| <= SIZE
    ensures |buffer| + |data| <= SIZE ==> r == buffer + data
  {
    if |data| <= SIZE - |buffer| then buffer + data else buffer + data[..SIZE - |buffer|]
  }

  function Min(a: int, b: int): int
  {
    if a <= b then a else b
  }

  function Max(a: int, b: int): int
  {
    if a >= b then a else b
  }
}
