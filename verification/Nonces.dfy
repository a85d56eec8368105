/** The little-endian nonce counter of the AEAD streams. */
module Nonces {
  import opened Bytes

  function Value(c: seq<byte>): nat
  {
    if c == [] then 0 else c[0] as int + 256 * Value(c[1..])
  }

  function Pow256(n: nat): (r: nat)
    ensures r >= 1
  {
    if n == 0 then 1 else 256 * Pow256(n - 1)
  }

  /** Add one with carry; all bytes 0xFF wrap to all zero. */
  function Incremented(c: seq<byte>): (r: seq<byte>)
    ensures |r| == |c|
  {
    if c == [] then []
    else if c[0] == 255 then [0] + Incremented(c[1..])
    else [c[0] + 1] + c[1..]
  }

  /** The nonce handed out by call k (the first call is number 1). */
  function NonceAt(start: seq<byte>, k: nat): (r: seq<byte>)
    ensures |r| == |start|
  {
    if k == 0 then start else Incremented(NonceAt(start, k - 1))
  }

  lemma {:induction false} ValueBound(c: seq<byte>)
    ensures Value(c) < Pow256(|c|)
    decreases |c|
  {
    if c != [] {
      ValueBound(c[1..]);
    }
  }

  lemma {:induction false} ValueInjective(a: seq<byte>, b: seq<byte>)
    requires |a| == |b| && Value(a) == Value(b)
    ensures a == b
    decreases |a|
  {
    if a != [] {
      assert (a[0] as int + 256 * Value(a[1..])) % 256 == a[0] as int;
      assert (b[0] as int + 256 * Value(b[1..])) % 256 == b[0] as int;
      ValueInjective(a[1..], b[1..]);
      assert a == [a[0]] + a[1..] && b == [b[0]] + b[1..];
    }
  }

  lemma {:induction false} IncrementedValue(c: seq<byte>)
    ensures Value(Incremented(c)) == if Value(c) + 1 == Pow256(|c|) then 0 else Value(c) + 1
    decreases |c|
  {
    if c != [] {
      IncrementedValue(c[1..]);
      var r := Incremented(c);
      if c[0] == 255 {
        assert r[1..] == Incremented(c[1..]);
      } else {
        assert r[1..] == c[1..];
        ValueBound(c[1..]);
      }
    }
  }

  lemma {:induction false} NonceValue(start: seq<byte>, k: nat)
    ensures Value(NonceAt(start, k)) == (Value(start) + k) % Pow256(|start|)
    decreases k
  {
    var m := Pow256(|start|);
    if k == 0 {
      ValueBound(start);
      SmallMod(Value(start), m);
    } else {
      NonceValue(start, k - 1);
      IncrementedValue(NonceAt(start, k - 1));
      ModSucc(Value(start) + k - 1, m);
    }
  }

  lemma {:induction false} SmallMod(x: nat, m: nat)
    requires x < m
    ensures x % m == x
  {
  }

  lemma {:induction false} ModSucc(x: nat, m: nat)
    requires m > 0
    ensures (x + 1) % m == if x % m + 1 == m then 0 else x % m + 1
  {
    var q, r := x / m, x % m;
    assert x == q * m + r;
    if r + 1 == m {
      assert x + 1 == (q + 1) * m;
      MulMod(q + 1, 0, m);
    } else {
      MulMod(q, r + 1, m);
    }
  }

  lemma {:induction false} AtLeastOne(a: int, m: nat)
    requires a >= 1
    ensures a * m >= m
  {
    assert a * m == (a - 1) * m + m;
  }

  lemma {:induction false} MulMod(q: nat, r: nat, m: nat)
    requires r < m
    ensures (q * m + r) % m == r
  {
    var x := q * m + r;
    var p, s := x / m, x % m;
    assert x == p * m + s;
    var d := q - p;
    assert d * m == q * m - p * m;
    if d >= 1 {
      AtLeastOne(d, m);
    } else if d <= -1 {
      AtLeastOne(-d, m);
      assert false;
    }
  }

  lemma {:induction false} SameMod(x: nat, d: nat, m: nat)
    requires m > 0
    ensures (x + d) % m == x % m <==> d % m == 0
  {
    var a, b, r, s := x / m, d / m, x % m, d % m;
    assert x == a * m + r && d == b * m + s;
    var t := a + b;
    assert a * m + b * m == t * m;
    if r + s < m {
      MulMod(t, r + s, m);
    } else {
      var u := t + 1;
      assert u * m == t * m + m;
      MulMod(u, r + s - m, m);
    }
  }

  /** Two calls get the same nonce exactly when they are a multiple of 256^n calls apart: within 256^n calls
      no nonce repeats, and call i + 256^n repeats call i. */
  lemma {:induction false} NoncesRepeat(start: seq<byte>, i: nat, j: nat)
    requires i <= j
    ensures NonceAt(start, i) == NonceAt(start, j) <==> (j - i) % Pow256(|start|) == 0
  {
    var m := Pow256(|start|);
    NonceValue(start, i);
    NonceValue(start, j);
    SameMod(Value(start) + i, j - i, m);
    if Value(NonceAt(start, i)) == Value(NonceAt(start, j)) {
      ValueInjective(NonceAt(start, i), NonceAt(start, j));
    }
  }

  lemma {:induction false} NoncesDistinct(start: seq<byte>, i: nat, j: nat)
    requires i < j < i + Pow256(|start|)
    ensures NonceAt(start, i) != NonceAt(start, j)
  {
    NoncesRepeat(start, i, j);
    SmallMod(j - i, Pow256(|start|));
  }

  /** Zeros up to the first byte that can take the carry. */
  lemma {:induction false} Carry(c: seq<byte>, r: seq<byte>, i: nat)
    requires |r| == |c| && i <= |c|
    requires forall k :: 0 <= k < i ==> c[k] == 255 && r[k] == 0
    requires i < |c| ==> c[i] < 255 && r[i] == c[i] + 1
    requires forall k :: i < k < |c| ==> r[k] == c[k]
    ensures r == Incremented(c)
    decreases i
  {
    if i == 0 {
      if c != [] {
        assert r == [c[0] + 1] + c[1..];
      }
    } else {
      Carry(c[1..], r[1..], i - 1);
      assert r == [0] + r[1..];
    }
  }

  /** The increment loop, in place. */
  method Increment(c: array<byte>)
    modifies c
    ensures c[..] == Incremented(old(c[..]))
  {
    var i := 0;
    while i < c.Length
      invariant 0 <= i <= c.Length
      invariant forall k :: 0 <= k < i ==> old(c[k]) == 255 && c[k] == 0
      invariant forall k :: i <= k < c.Length ==> c[k] == old(c[k])
    {
      if c[i] != 255 {
        c[i] := c[i] + 1;
        break;
      }
      c[i] := 0;
      i := i + 1;
    }
    Carry(old(c[..]), c[..], i);
  }

  /** GenerateIncreasingNonce: one counter, handed out after each increment. */
  class NonceGenerator {
    const start: seq<byte>
    const c: array<byte>
    ghost var calls: nat

    ghost predicate Valid()
      reads this, c
    {
      c[..] == NonceAt(start, calls)
    }

    constructor (nonce: seq<byte>)
      ensures Valid() && fresh(c) && start == nonce && calls == 0
    {
      start := nonce;
      c := new byte[|nonce|](i requires 0 <= i < |nonce| => nonce[i]);
      calls := 0;
    }

    method Next() returns (nonce: seq<byte>)
      requires Valid()
      modifies this, c
      ensures Valid() && calls == old(calls) + 1
      ensures nonce == NonceAt(start, calls)
    {
      Increment(c);
      calls := calls + 1;
      nonce := c[..];
    }
  }
}
