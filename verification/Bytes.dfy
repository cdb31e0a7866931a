/** Bytes, buffers and the fixed-width little-endian integers of the wire format. */
module Bytes {

  type Byte = b: int | 0 <= b < 256

  type Buffer = seq<Byte>

  function Concat<T>(parts: seq<seq<T>>): seq<T> {
    if parts == [] then [] else parts[0] + Concat(parts[1..])
  }

  lemma {:induction false} ConcatAppend<T>(a: seq<seq<T>>, b: seq<seq<T>>)
    ensures Concat(a + b) == Concat(a) + Concat(b)
  {
    hide Concat;
    if a == [] {
      ConcatNothing(b);
    } else {
      ConcatAppend(a[1..], b);
      ConcatFirst(a, b);
      Associative(a[0], Concat(a[1..]), Concat(b));
    }
  }

  lemma ConcatNothing<T>(b: seq<seq<T>>)
    ensures Concat<T>([] + b) == Concat<T>([]) + Concat(b)
  {
    assert [] + b == b;
  }

  lemma ConcatFirst<T>(a: seq<seq<T>>, b: seq<seq<T>>)
    requires a != []
    ensures Concat(a) == a[0] + Concat(a[1..]) && Concat(a + b) == a[0] + Concat(a[1..] + b)
  {
    assert (a + b)[0] == a[0] && (a + b)[1..] == a[1..] + b;
  }

  lemma ConcatNone<T>()
    ensures Concat<T>([]) == []
  {
  }

  lemma ConcatOne<T>(a: seq<T>)
    ensures Concat([a]) == a
  {
    assert Concat([a]) == a + Concat<T>([]);
  }

  lemma Associative<T>(a: seq<T>, b: seq<T>, c: seq<T>)
    ensures a + (b + c) == (a + b) + c
  {
  }

  lemma ConcatSnoc<T>(a: seq<seq<T>>, last: seq<T>)
    ensures Concat(a + [last]) == Concat(a) + last
  {
    ConcatAppend(a, [last]);
    assert Concat([last]) == last + Concat<T>([]);
  }

  /** Consuming a chunk piece by piece, after `base`. */
  lemma Advance<T>(base: seq<T>, chunk: seq<T>, i: nat, j: nat)
    requires i <= j <= |chunk|
    ensures (base + chunk[..i]) + chunk[i..j] == base + chunk[..j]
  {
  }

  function Zeros(n: nat): (z: Buffer)
    ensures |z| == n
  {
    seq(n, _ => 0)
  }

  /** `n` as `width` bytes, least significant first. */
  function Le(n: nat, width: nat): (b: Buffer)
    ensures |b| == width
    decreases width
  {
    if width == 0 then [] else [n % 256] + Le(n / 256, width - 1)
  }

  function FromLe(b: Buffer): nat {
    if b == [] then 0 else b[0] + 256 * FromLe(b[1..])
  }

  function Pow256(width: nat): (p: nat)
    ensures p >= 1
  {
    if width == 0 then 1 else 256 * Pow256(width - 1)
  }

  lemma {:induction false} LeRoundTrip(n: nat, width: nat)
    requires n < Pow256(width)
    ensures FromLe(Le(n, width)) == n
    decreases width
  {
    if width > 0 {
      LeRoundTrip(n / 256, width - 1);
    }
  }

  lemma {:induction false} FromLeRoundTrip(b: Buffer)
    ensures FromLe(b) < Pow256(|b|)
    ensures Le(FromLe(b), |b|) == b
  {
    if b != [] {
      FromLeRoundTrip(b[1..]);
      assert FromLe(b) / 256 == FromLe(b[1..]);
    }
  }

  /** The bytes from an offset begin with `part`. */
  predicate Holds(b: Buffer, offset: nat, part: Buffer) {
    offset + |part| <= |b| && b[offset..offset + |part|] == part
  }

  lemma HoldsSplit(b: Buffer, offset: nat, x: Buffer, y: Buffer)
    requires Holds(b, offset, x + y)
    ensures Holds(b, offset, x) && Holds(b, offset + |x|, y)
  {
    assert x == (x + y)[..|x|] && y == (x + y)[|x|..];
  }

  lemma HoldsAt(b: Buffer, offset: nat, part: Buffer, i: nat, j: nat)
    requires Holds(b, offset, part) && i <= j <= |part|
    ensures offset + |part| <= |b| && b[offset + i..offset + j] == part[i..j]
    ensures i < |part| ==> b[offset + i] == part[i]
  {
    var held := b[offset..offset + |part|];
    assert forall k :: i <= k < j ==> b[offset + k] == held[k];
    assert held[i..j] == b[offset + i..offset + j];
    if i < |part| {
      assert b[offset..offset + |part|][i] == b[offset + i];
    }
  }
}
