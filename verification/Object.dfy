/** The Fletcher-64 object checksum (core/src/object.rs). */
module Object {
  import opened Bytes

  /** The modulus of both running sums: 2^32 - 1. */
  const MOD: nat := 0xffff_ffff

  /** The residue modulo 2^32 - 1. */
  function Residue(x: int): (r: nat)
    ensures r < 0xffff_ffff
  {
    x % 0xffff_ffff
  }

  /** Congruence modulo 2^32 - 1. */
  predicate Congruent(x: int, y: int) {
    Residue(x - y) == 0
  }

  /** `o_cksum`, the first 8 bytes of an object. */
  function Stored(block: seq<Byte>): nat {
    LeU64(block, 0)
  }

  /** The words the checksum runs over: the two `o_cksum` words count as zero, a trailing partial word is ignored. */
  function Words(block: seq<Byte>): (ws: seq<nat>)
    ensures |ws| == |block| / 4
  {
    seq(|block| / 4, i requires 0 <= i < |block| / 4 => if i < 2 then 0 else LeVal(block[4 * i..4 * i + 4]))
  }

  // ---------- closed form ----------

  function Total(ws: seq<nat>): nat {
    if ws == [] then 0 else ws[0] + Total(ws[1..])
  }

  /** Each word weighted by how many positions from the end it sits. */
  function Weighted(ws: seq<nat>): nat {
    if ws == [] then 0 else |ws| * ws[0] + Weighted(ws[1..])
  }

  function PackLo(total: nat, weighted: nat): nat {
    MOD - Residue(total + weighted)
  }

  function PackHi(total: nat, weighted: nat): nat {
    MOD - Residue(total + PackLo(total, weighted))
  }

  function CheckLo(ws: seq<nat>): nat {
    PackLo(Total(ws), Weighted(ws))
  }

  function CheckHi(ws: seq<nat>): nat {
    PackHi(Total(ws), Weighted(ws))
  }

  /** The checksum of a word list in closed form. */
  function Checksum(ws: seq<nat>): nat {
    CheckHi(ws) * 0x1_0000_0000 + CheckLo(ws)
  }

  function Fletcher64(block: seq<Byte>): nat {
    Checksum(Words(block))
  }

  /** A block is trusted only when its stored and computed checksums agree. */
  predicate Verifies(block: seq<Byte>) {
    Stored(block) == Fletcher64(block)
  }

  // ---------- residues ----------

  lemma {:induction false} ResidueAdd(x: int, y: int)
    ensures Residue(Residue(x) + y) == Residue(x + y)
  {
  }

  lemma {:induction false} CongruentMultiple(n: int, d: int)
    requires Residue(d) == 0
    ensures Residue(n * d) == 0
  {
    var q := d / 0xffff_ffff;
    assert n * d == (n * q) * 0xffff_ffff by {
      assert d == q * 0xffff_ffff;
    }
  }

  lemma {:induction false} SameResidue(x: int, y: int)
    ensures Residue(x) == Residue(y) <==> Congruent(x, y)
  {
  }

  lemma {:induction false} CongruentSum(x: int, y: int, x': int, y': int)
    requires Congruent(x, x')
    ensures Congruent(x + y, x' + y') <==> Congruent(y, y')
  {
    assert (x + y) - (x' + y') == (x - x') + (y - y');
    ResidueAdd(x - x', y - y');
  }

  /** The packed words determine both residues and depend on nothing else. */
  lemma {:induction false} PackInjective(t: nat, w: nat, t': nat, w': nat)
    ensures PackLo(t, w) == PackLo(t', w') && PackHi(t, w) == PackHi(t', w') <==> Congruent(t, t') && Congruent(w, w')
  {
    LoDecides(t, w, t', w');
    if PackLo(t, w) == PackLo(t', w') {
      HiDecides(t, t', PackLo(t, w));
    }
    if Congruent(t, t') {
      CongruentSum(t, w, t', w');
    }
  }

  lemma {:induction false} LoDecides(t: nat, w: nat, t': nat, w': nat)
    ensures PackLo(t, w) == PackLo(t', w') <==> Congruent(t + w, t' + w')
  {
    SameResidue(t + w, t' + w');
  }

  lemma {:induction false} HiDecides(t: nat, t': nat, lo: nat)
    ensures MOD - Residue(t + lo) == MOD - Residue(t' + lo) <==> Congruent(t, t')
  {
    SameResidue(t + lo, t' + lo);
    assert (t + lo) - (t' + lo) == t - t';
  }

  // ---------- sums of concatenations ----------

  lemma {:induction false} TotalConcat(a: seq<nat>, b: seq<nat>)
    ensures Total(a + b) == Total(a) + Total(b)
  {
    if a == [] {
      assert a + b == b;
    } else {
      TotalConcat(a[1..], b);
      assert (a + b)[1..] == a[1..] + b;
    }
  }

  lemma {:induction false} WeightedConcat(a: seq<nat>, b: seq<nat>)
    ensures Weighted(a + b) == Weighted(a) + |b| * Total(a) + Weighted(b)
  {
    if a == [] {
      assert a + b == b;
    } else {
      WeightedConcat(a[1..], b);
      assert (a + b)[1..] == a[1..] + b;
      WeightedStep(|a|, |b|, a[0], Total(a[1..]));
      assert |a + b| == |a| + |b| && (a + b)[0] == a[0];
    }
  }

  lemma {:induction false} WeightedStep(la: int, lb: int, x: int, t: int)
    ensures (la + lb) * x + lb * t == la * x + lb * (x + t)
  {
  }

  lemma {:induction false} Append(ws: seq<nat>, w: nat)
    ensures Total(ws + [w]) == Total(ws) + w
    ensures Weighted(ws + [w]) == Weighted(ws) + Total(ws) + w
  {
    TotalConcat(ws, [w]);
    WeightedConcat(ws, [w]);
    assert Weighted([w]) == 1 * w + Weighted([]);
    assert Total([w]) == w + Total([]);
  }

  /** The checksum loop with its two reduced running sums computes the closed form. */
  method Fletcher64Checksum(block: seq<Byte>) returns (c: nat)
    ensures c == Fletcher64(block)
  {
    var sumLo, sumHi := 0, 0;
    ghost var ws := Words(block);
    for i := 0 to |block| / 4
      invariant sumLo == Residue(Total(ws[..i]))
      invariant sumHi == Residue(Weighted(ws[..i]))
    {
      var v := if i < 2 then 0 else LeVal(block[4 * i..4 * i + 4]);
      Append(ws[..i], v);
      assert ws[..i + 1] == ws[..i] + [v];
      ResidueAdd(Total(ws[..i]), v);
      sumLo := Residue(sumLo + v);
      ResidueAdd(Weighted(ws[..i]), sumLo);
      ResidueAdd(Total(ws[..i + 1]), Weighted(ws[..i]));
      sumHi := Residue(sumHi + sumLo);
    }
    assert ws[..|block| / 4] == ws;
    ResidueAdd(Total(ws), sumHi);
    ResidueAdd(Weighted(ws), Total(ws));
    var checkLo := MOD - Residue(sumLo + sumHi);
    ResidueAdd(Total(ws), checkLo);
    var checkHi := MOD - Residue(sumLo + checkLo);
    return checkHi * 0x1_0000_0000 + checkLo;
  }

  // ---------- what the checksum guarantees ----------

  /** Each check word is in 1..2^32-1, so the two pack into a u64 without overlap. */
  lemma {:induction false} CheckWordRange(ws: seq<nat>)
    ensures 1 <= CheckLo(ws) <= MOD && 1 <= CheckHi(ws) <= MOD
    ensures Checksum(ws) < U64
    ensures Checksum(ws) % 0x1_0000_0000 == CheckLo(ws) && Checksum(ws) / 0x1_0000_0000 == CheckHi(ws)
  {
  }

  /** Appending the two check words drives both sums to zero. */
  lemma {:induction false} CheckWordsCancel(ws: seq<nat>)
    ensures var closed := ws + [CheckLo(ws)] + [CheckHi(ws)];
            Residue(Total(closed)) == 0 && Residue(Weighted(closed)) == 0
  {
    Append(ws, CheckLo(ws));
    Append(ws + [CheckLo(ws)], CheckHi(ws));
    PackCancels(Total(ws), Weighted(ws));
  }

  lemma {:induction false} PackCancels(t: nat, w: nat)
    ensures var lo, hi := PackLo(t, w), PackHi(t, w);
            Residue(t + lo + hi) == 0 && Residue(w + t + lo + (t + lo) + hi) == 0
  {
  }

  /** Two word lists have the same checksum exactly when both sums agree modulo 2^32 - 1. */
  lemma {:induction false} SameChecksum(ws: seq<nat>, vs: seq<nat>)
    ensures Checksum(ws) == Checksum(vs) <==>
              Congruent(Total(ws), Total(vs)) && Congruent(Weighted(ws), Weighted(vs))
  {
    CheckWordRange(ws);
    CheckWordRange(vs);
    PackInjective(Total(ws), Weighted(ws), Total(vs), Weighted(vs));
  }

  /** Sums of a list with words x and y around a middle part. */
  lemma {:induction false} PairSums(a: seq<nat>, x: nat, m: seq<nat>, y: nat, b: seq<nat>)
    ensures Total(a + [x] + m + [y] + b) == Total(a) + Total(m) + Total(b) + x + y
    ensures Weighted(a + [x] + m + [y] + b) ==
              (Weighted(a) + |m| * Total(a) + Weighted(m) + Total(a) + (Total(a) + Total(m)) + |b| * (Total(a) + Total(m)) + Weighted(b))
              + (|m| + 2 + |b|) * x + (|b| + 1) * y
  {
    var t0, t1, t2 := a + [x], a + [x] + m, a + [x] + m + [y];
    Append(a, x);
    TotalConcat(t0, m);
    WeightedConcat(t0, m);
    Append(t1, y);
    TotalConcat(t2, b);
    WeightedConcat(t2, b);
    PairAlgebra(Total(a), x, Total(m), y, |m|, |b|);
  }

  lemma {:induction false} PairAlgebra(ta: int, x: int, tm: int, y: int, m: int, b: int)
    ensures m * (ta + x) == m * ta + m * x
    ensures b * (ta + x + tm + y) == b * (ta + tm) + b * x + b * y
    ensures (m + 2 + b) * x == m * x + 2 * x + b * x
    ensures (b + 1) * y == b * y + y
  {
  }

  /**
   A change confined to two words at distance d (a single word, a burst over
   two neighbours, a swap) leaves the checksum alone exactly when the total
   change and d times the change of the first word are both multiples of
   2^32 - 1.
   */
  lemma {:induction false} PairChange(a: seq<nat>, x: nat, y: nat, x': nat, y': nat, m: seq<nat>, b: seq<nat>)
    ensures Checksum(a + [x] + m + [y] + b) == Checksum(a + [x'] + m + [y'] + b) <==>
              Congruent(x + y, x' + y') && Residue((|m| + 1) * (x - x')) == 0
  {
    var ws, vs := a + [x] + m + [y] + b, a + [x'] + m + [y'] + b;
    SameChecksum(ws, vs);
    PairSums(a, x, m, y, b);
    PairSums(a, x', m, y', b);
    var n, d := |b| + 1, |m| + 1;
    var dt, dx := (x + y) - (x' + y'), x - x';
    assert Total(ws) - Total(vs) == dt;
    WeightAlgebra(n, d, x, y, x', y');
    assert Weighted(ws) - Weighted(vs) == n * dt + d * dx;
    if Congruent(x + y, x' + y') {
      CongruentMultiple(n, dt);
      ResidueAdd(n * dt, d * dx);
    }
  }

  lemma {:induction false} WeightAlgebra(n: int, d: int, x: int, y: int, x': int, y': int)
    ensures (d + n) * x + n * y - ((d + n) * x' + n * y') == n * ((x + y) - (x' + y')) + d * (x - x')
  {
  }

  /** Any change of two neighbouring words, hence of any single word, is caught exactly when it changes a residue. */
  lemma {:induction false} BurstDetected(a: seq<nat>, x: nat, y: nat, x': nat, y': nat, b: seq<nat>)
    ensures Checksum(a + [x, y] + b) == Checksum(a + [x', y'] + b) <==> Congruent(x, x') && Congruent(y, y')
  {
    var none: seq<nat> := [];
    PairChange(a, x, y, x', y', none, b);
    assert a + [x] + none + [y] + b == a + [x, y] + b;
    assert a + [x'] + none + [y'] + b == a + [x', y'] + b;
    assert 1 * (x - x') == x - x';
    ResidueAdd(x - x', y - y');
  }

  /** Swapping two words at distance d goes unnoticed exactly when d times their difference is a multiple of 2^32 - 1. */
  lemma {:induction false} SwapDetected(a: seq<nat>, x: nat, m: seq<nat>, y: nat, b: seq<nat>)
    ensures Checksum(a + [x] + m + [y] + b) == Checksum(a + [y] + m + [x] + b) <==>
              Residue((|m| + 1) * (x - y)) == 0
  {
    PairChange(a, x, y, y, x, m, b);
  }

  // ---------- on blocks ----------

  /** Word k of a block, k past the checksum field. */
  function WordAt(block: seq<Byte>, k: nat): (w: nat)
    requires 4 * k + 4 <= |block|
    ensures w <= MOD
  {
    LeValBound(block[4 * k..4 * k + 4]);
    Pow256Values();
    LeVal(block[4 * k..4 * k + 4])
  }

  /** Writing the computed checksum into the first 8 bytes, as the format does. */
  function Stamp(block: seq<Byte>): (stamped: seq<Byte>)
    requires |block| >= 8
    ensures |stamped| == |block|
  {
    LeBytes(Fletcher64(block), 8) + block[8..]
  }

  /** Stamping any block makes it verify, whatever its first 8 bytes were, and changes nothing else. */
  lemma {:induction false} StampVerifies(block: seq<Byte>)
    requires |block| >= 8
    ensures Verifies(Stamp(block)) && Stamp(block)[8..] == block[8..]
  {
    var s, c := Stamp(block), Fletcher64(block);
    assert Words(s) == Words(block) by {
      forall i | 2 <= i < |block| / 4 ensures s[4 * i..4 * i + 4] == block[4 * i..4 * i + 4] {
      }
    }
    CheckWordRange(Words(block));
    Pow256Values();
    LeRoundTrip(c, 8);
    assert s[0..8] == LeBytes(c, 8);
  }

  lemma {:induction false} TwoWords(x: nat, y: nat, block: seq<Byte>)
    requires x <= MOD && y <= MOD && block == Zeros(8) + (LeBytes(x, 4) + LeBytes(y, 4))
    ensures Words(block) == [0, 0, x, y]
  {
    Pow256Values();
    AtRight(Zeros(8), LeBytes(x, 4) + LeBytes(y, 4));
    FieldThen(block, 8, x, 4, LeBytes(y, 4));
    ReadAt(block, 12, y, 4);
  }

  lemma {:induction false} TwoWordSums(x: nat, y: nat, ws: seq<nat>)
    requires ws == [0, 0, x, y]
    ensures Total(ws) == x + y && Weighted(ws) == 2 * x + y
  {
    var w1, w2, w3 := ws[1..], ws[2..], ws[3..];
    assert w1[1..] == w2 && w2[1..] == w3 && w3[1..] == [];
    assert Total(w3) == y && Weighted(w3) == y;
    assert Total(w2) == x + y && Weighted(w2) == 2 * x + y;
    assert Total(w1) == x + y && Weighted(w1) == 2 * x + y;
  }

  /** The checksum of a block of two words behind its field, worked out. */
  lemma {:induction false} TwoWordChecksum(x: nat, y: nat)
    requires x <= MOD && y <= MOD
    ensures var lo := 0xffff_ffff - (3 * x + 2 * y) % 0xffff_ffff;
            var hi := 0xffff_ffff - (x + y + lo) % 0xffff_ffff;
            Fletcher64(Zeros(8) + (LeBytes(x, 4) + LeBytes(y, 4))) == hi * 0x1_0000_0000 + lo
  {
    TwoWords(x, y, Zeros(8) + (LeBytes(x, 4) + LeBytes(y, 4)));
    TwoWordSums(x, y, [0, 0, x, y]);
  }

  /** Two words of a block are congruent modulo 2^32 - 1 only when equal, or when one is all zeros and the other all ones. */
  predicate Indistinct(x: nat, y: nat) {
    x == y || (x == 0 && y == MOD) || (x == MOD && y == 0)
  }

  /**
   A block that verifies still verifies after its words k and k + 1 are
   overwritten if and only if each is overwritten by an indistinct word.
   */
  lemma {:induction false} CorruptionDetected(block: seq<Byte>, bad: seq<Byte>, k: nat)
    requires Verifies(block) && |bad| == |block| && 2 <= k && 4 * k + 8 <= |block|
    requires bad[..4 * k] == block[..4 * k] && bad[4 * k + 8..] == block[4 * k + 8..]
    ensures Verifies(bad) <==>
              Indistinct(WordAt(block, k), WordAt(bad, k)) && Indistinct(WordAt(block, k + 1), WordAt(bad, k + 1))
  {
    SameOutside(block, bad, k);
    WordsAt(block, k);
    WordsAt(bad, k);
    PairDecides(Words(block), Words(bad), k);
    SameStored(block, bad, 4 * k);
  }

  lemma {:induction false} WordsAt(block: seq<Byte>, k: nat)
    requires 2 <= k && 4 * k + 8 <= |block|
    ensures k + 2 <= |Words(block)|
    ensures Words(block)[k] == WordAt(block, k) && Words(block)[k + 1] == WordAt(block, k + 1)
  {
  }

  lemma {:induction false} IndistinctWords(x: nat, y: nat)
    requires x <= MOD && y <= MOD
    ensures Indistinct(x, y) <==> Congruent(x, y)
  {
  }

  lemma {:induction false} PairDecides(ws: seq<nat>, vs: seq<nat>, k: nat)
    requires k + 2 <= |ws| == |vs| && vs[..k] == ws[..k] && vs[k + 2..] == ws[k + 2..]
    requires ws[k] <= MOD && vs[k] <= MOD && ws[k + 1] <= MOD && vs[k + 1] <= MOD
    ensures Checksum(vs) == Checksum(ws) <==> Indistinct(ws[k], vs[k]) && Indistinct(ws[k + 1], vs[k + 1])
  {
    AroundPair(ws, k);
    AroundPair(vs, k);
    BurstDetected(ws[..k], ws[k], ws[k + 1], vs[k], vs[k + 1], ws[k + 2..]);
    IndistinctWords(ws[k], vs[k]);
    IndistinctWords(ws[k + 1], vs[k + 1]);
  }

  lemma {:induction false} SameStored(block: seq<Byte>, bad: seq<Byte>, n: nat)
    requires 8 <= n <= |block| && n <= |bad| && bad[..n] == block[..n]
    ensures Stored(block) == Stored(bad)
  {
    assert block[0..8] == block[..n][0..8] && bad[0..8] == bad[..n][0..8];
  }

  lemma {:induction false} AroundPair(ws: seq<nat>, k: nat)
    requires k + 2 <= |ws|
    ensures ws == ws[..k] + [ws[k], ws[k + 1]] + ws[k + 2..]
  {
  }

  lemma {:induction false} SameOutside(block: seq<Byte>, bad: seq<Byte>, k: nat)
    requires |bad| == |block| && 2 <= k && 4 * k + 8 <= |block|
    requires bad[..4 * k] == block[..4 * k] && bad[4 * k + 8..] == block[4 * k + 8..]
    ensures Words(bad)[..k] == Words(block)[..k] && Words(bad)[k + 2..] == Words(block)[k + 2..]
  {
    var n := 4 * k + 8;
    forall i | 0 <= i < |block| / 4 && i != k && i != k + 1 ensures bad[4 * i..4 * i + 4] == block[4 * i..4 * i + 4] {
      if i < k {
        assert bad[4 * i..4 * i + 4] == bad[..4 * k][4 * i..4 * i + 4];
        assert block[4 * i..4 * i + 4] == block[..4 * k][4 * i..4 * i + 4];
      } else {
        assert bad[4 * i..4 * i + 4] == bad[n..][4 * i - n..4 * i + 4 - n];
        assert block[4 * i..4 * i + 4] == block[n..][4 * i - n..4 * i + 4 - n];
      }
    }
  }
}
