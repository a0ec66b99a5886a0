/** Bounds-checked reads over untrusted byte buffers (core/src/bytes.rs). */
module Bytes {
  import opened Results

  type Byte = n: int | 0 <= n < 256

  /** The largest value of an unsigned 64-bit field, plus one. */
  const U64: nat := 0x1_0000_0000_0000_0000

  /** Saturating 64-bit arithmetic. */
  function Saturated(x: nat): nat {
    if x < U64 then x else U64 - 1
  }

  function Zeros(n: nat): (b: seq<Byte>)
    ensures |b| == n
  {
    seq(n, (i: nat) => 0 as Byte)
  }

  lemma {:induction false} Regroup<T>(a: seq<T>, b: seq<T>, c: seq<T>)
    ensures (a + b) + c == a + (b + c)
  {
  }

  /** `data.get(start..end)`: the slice, or nothing when it is not wholly inside the buffer. */
  function Slice(data: seq<Byte>, start: nat, end: nat): Option<seq<Byte>> {
    if start <= end <= |data| then Some(data[start..end]) else None
  }

  /** 256 to the power of n. */
  function Pow256(n: nat): (p: nat)
    ensures p > 0
  {
    if n == 0 then 1 else 256 * Pow256(n - 1)
  }

  /** The number a little-endian byte string stands for. */
  function LeVal(b: seq<Byte>): nat {
    if b == [] then 0 else b[0] + 256 * LeVal(b[1..])
  }

  /** The number a big-endian byte string stands for. */
  function BeVal(b: seq<Byte>): nat {
    if b == [] then 0 else BeVal(b[..|b| - 1]) * 256 + b[|b| - 1]
  }

  /** The n-byte little-endian encoding of v. */
  function LeBytes(v: nat, n: nat): (b: seq<Byte>)
    ensures |b| == n
  {
    if n == 0 then [] else [v % 256] + LeBytes(v / 256, n - 1)
  }

  /** A little-endian field of `width` bytes; an out-of-range read yields 0. */
  function LeAt(data: seq<Byte>, off: nat, width: nat): nat {
    if off + width <= |data| then LeVal(data[off..off + width]) else 0
  }

  function LeU16(data: seq<Byte>, off: nat): nat { LeAt(data, off, 2) }
  function LeU32(data: seq<Byte>, off: nat): nat { LeAt(data, off, 4) }
  function LeU64(data: seq<Byte>, off: nat): nat { LeAt(data, off, 8) }

  lemma {:induction false} LeValBound(b: seq<Byte>)
    ensures LeVal(b) < Pow256(|b|)
  {
    if b != [] {
      LeValBound(b[1..]);
    }
  }

  /** Writing a number and reading it back is the identity on numbers that fit. */
  lemma {:induction false} LeRoundTrip(v: nat, n: nat)
    requires v < Pow256(n)
    ensures LeVal(LeBytes(v, n)) == v
  {
    if n > 0 {
      LeRoundTrip(v / 256, n - 1);
      assert LeBytes(v, n)[1..] == LeBytes(v / 256, n - 1);
    }
  }

  /** The n-byte big-endian encoding of v. */
  function BeBytes(v: nat, n: nat): (b: seq<Byte>)
    ensures |b| == n
  {
    if n == 0 then [] else BeBytes(v / 256, n - 1) + [v % 256]
  }

  lemma {:induction false} BeRoundTrip(v: nat, n: nat)
    requires v < Pow256(n)
    ensures BeVal(BeBytes(v, n)) == v
  {
    if n > 0 {
      BeRoundTrip(v / 256, n - 1);
      assert BeBytes(v, n)[..n - 1] == BeBytes(v / 256, n - 1);
    }
  }

  lemma {:induction false} Pow256Values()
    ensures Pow256(1) == 0x100 && Pow256(2) == 0x1_0000 && Pow256(4) == 0x1_0000_0000 && Pow256(8) == U64
  {
    assert Pow256(1) == 256 * Pow256(0);
    assert Pow256(2) == 256 * Pow256(1);
    assert Pow256(3) == 256 * Pow256(2);
    assert Pow256(4) == 256 * Pow256(3);
    assert Pow256(5) == 256 * Pow256(4);
    assert Pow256(6) == 256 * Pow256(5);
    assert Pow256(7) == 256 * Pow256(6);
    assert Pow256(8) == 256 * Pow256(7);
  }

  lemma {:induction false} LeAtBound(data: seq<Byte>, off: nat, width: nat)
    ensures LeAt(data, off, width) < Pow256(width)
  {
    if off + width <= |data| {
      LeValBound(data[off..off + width]);
    }
  }

  // ---------- pieces of a buffer ----------

  lemma {:induction false} SliceOfSlice<T>(data: seq<T>, at: nat, end: nat, lo: nat, hi: nat)
    requires at <= end <= |data| && lo <= hi && at + hi <= end
    ensures data[at..end][lo..hi] == data[at + lo..at + hi]
  {
    var mid := data[at..end];
    forall k | 0 <= k < hi - lo ensures mid[lo..hi][k] == data[at + lo..at + hi][k] {
      assert mid[lo..hi][k] == mid[lo + k] == data[at + (lo + k)];
    }
  }

  /** `piece` sits in `data` at offset `at`. */
  ghost predicate At(data: seq<Byte>, at: nat, piece: seq<Byte>) {
    at + |piece| <= |data| && data[at..at + |piece|] == piece
  }

  /** A piece of a piece. */
  lemma {:induction false} AtSub(data: seq<Byte>, at: nat, piece: seq<Byte>, a: nat, sub: seq<Byte>)
    requires At(data, at, piece) && At(piece, a, sub)
    ensures At(data, at + a, sub)
  {
    forall k | 0 <= k < |sub| ensures data[at + a..at + a + |sub|][k] == sub[k] {
      assert data[at..at + |piece|][a + k] == data[at + a + k];
      assert piece[a..a + |sub|][k] == piece[a + k];
    }
  }

  lemma {:induction false} AtByte(data: seq<Byte>, at: nat, piece: seq<Byte>, k: nat)
    requires At(data, at, piece) && k < |piece|
    ensures data[at + k] == piece[k]
  {
    assert data[at..at + |piece|][k] == piece[k];
  }

  lemma {:induction false} AtLeft(a: seq<Byte>, b: seq<Byte>)
    ensures At(a + b, 0, a)
  {
  }

  lemma {:induction false} AtRight(a: seq<Byte>, b: seq<Byte>)
    ensures At(a + b, |a|, b)
  {
  }

  /** The two halves of a piece. */
  lemma {:induction false} AtSplit(data: seq<Byte>, at: nat, a: seq<Byte>, b: seq<Byte>)
    requires At(data, at, a + b)
    ensures At(data, at, a) && At(data, at + |a|, b)
  {
    AtLeft(a, b);
    AtSub(data, at, a + b, 0, a);
    AtRight(a, b);
    AtSub(data, at, a + b, |a|, b);
  }

  /** A field that is in place reads back as the number written. */
  lemma {:induction false} ReadAt(data: seq<Byte>, at: nat, v: nat, width: nat)
    requires At(data, at, LeBytes(v, width)) && v < Pow256(width)
    ensures LeAt(data, at, width) == v
  {
    LeRoundTrip(v, width);
  }

  /** A field followed by more: it reads back, and the rest comes right after it. */
  lemma {:induction false} FieldThen(data: seq<Byte>, at: nat, v: nat, width: nat, more: seq<Byte>)
    requires At(data, at, LeBytes(v, width) + more) && v < Pow256(width)
    ensures LeAt(data, at, width) == v && At(data, at + width, more)
  {
    AtSplit(data, at, LeBytes(v, width), more);
    ReadAt(data, at, v, width);
  }
}
