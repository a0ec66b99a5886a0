/** Exactly which damage the object checksum lets through (core/src/object.rs). */
module Damage {
  import opened Bytes
  import opened Object

  // ---------- the two check equations ----------

  /** What the stored check words must satisfy, given the two sums over the rest of the block. */
  predicate Balanced(lo: nat, hi: nat, total: nat, weighted: nat) {
    lo >= 1 && hi >= 1 && Residue(lo + total + weighted) == 0 && Residue(hi + total + lo) == 0
  }

  lemma {:induction false} Complement(c: nat, x: nat)
    requires c <= MOD
    ensures c == MOD - Residue(x) <==> c >= 1 && Residue(c + x) == 0
  {
    ResidueAdd(x, c);
  }

  lemma {:induction false} PackBalances(lo: nat, hi: nat, t: nat, w: nat)
    requires lo <= MOD && hi <= MOD
    ensures lo == PackLo(t, w) && hi == PackHi(t, w) <==> Balanced(lo, hi, t, w)
  {
    Complement(lo, t + w);
    Complement(hi, t + lo);
    assert lo + (t + w) == lo + t + w && hi + (t + lo) == hi + t + lo;
  }

  lemma {:induction false} LeSplit(a: seq<Byte>, b: seq<Byte>)
    ensures LeVal(a + b) == LeVal(a) + Pow256(|a|) * LeVal(b)
  {
    if a == [] {
      assert a + b == b;
    } else {
      LeSplit(a[1..], b);
      assert (a + b)[1..] == a[1..] + b;
      Scale(LeVal(a[1..]), Pow256(|a| - 1), LeVal(b));
    }
  }

  lemma {:induction false} Scale(x: int, p: int, y: int)
    ensures 256 * (x + p * y) == 256 * x + (256 * p) * y
  {
  }

  lemma {:induction false} StoredWords(block: seq<Byte>)
    requires |block| >= 8
    ensures Stored(block) == WordAt(block, 0) + 0x1_0000_0000 * WordAt(block, 1)
  {
    LeSplit(block[0..4], block[4..8]);
    assert block[0..4] + block[4..8] == block[0..8];
    Pow256Values();
  }

  lemma {:induction false} SamePair(lo: nat, hi: nat, lo': nat, hi': nat)
    requires lo < 0x1_0000_0000 && lo' < 0x1_0000_0000
    ensures lo + 0x1_0000_0000 * hi == hi' * 0x1_0000_0000 + lo' <==> lo == lo' && hi == hi'
  {
  }

  /** A block verifies exactly when its stored check words are non-zero and balance both sums. */
  lemma {:induction false} VerifiesIff(block: seq<Byte>)
    requires |block| >= 8
    ensures Verifies(block) <==>
              Balanced(WordAt(block, 0), WordAt(block, 1), Total(Words(block)), Weighted(Words(block)))
  {
    var ws := Words(block);
    StoredWords(block);
    CheckWordRange(ws);
    SamePair(WordAt(block, 0), WordAt(block, 1), CheckLo(ws), CheckHi(ws));
    PackBalances(WordAt(block, 0), WordAt(block, 1), Total(ws), Weighted(ws));
  }

  /** The changes of the check words and of the two sums balance. */
  predicate Cancels(lo: nat, hi: nat, dlo: int, dhi: int, dt: int, dw: int) {
    lo >= 1 && hi >= 1 && Residue(dlo + dt + dw) == 0 && Residue(dhi + dt + dlo) == 0
  }

  lemma {:induction false} ResidueShift(x: int, y: int)
    requires Residue(x) == 0
    ensures Residue(y) == 0 <==> Residue(y - x) == 0
  {
    ResidueAdd(x, y - x);
    assert x + (y - x) == y;
  }

  lemma {:induction false} BalancedShift(lo: nat, hi: nat, t: nat, w: nat, lo': nat, hi': nat, t': nat, w': nat)
    requires Balanced(lo, hi, t, w)
    ensures Balanced(lo', hi', t', w') <==> Cancels(lo', hi', lo' - lo, hi' - hi, t' - t, w' - w)
  {
    ResidueShift(lo + t + w, lo' + t' + w');
    ResidueShift(hi + t + lo, hi' + t' + lo');
    assert (lo' + t' + w') - (lo + t + w) == (lo' - lo) + (t' - t) + (w' - w);
    assert (hi' + t' + lo') - (hi + t + lo) == (hi' - hi) + (t' - t) + (lo' - lo);
  }

  function Change(block: seq<Byte>, bad: seq<Byte>, k: nat): int
    requires |bad| == |block| && 4 * k + 4 <= |block|
  {
    WordAt(bad, k) - WordAt(block, k)
  }

  function TotalChange(block: seq<Byte>, bad: seq<Byte>): int {
    Total(Words(bad)) - Total(Words(block))
  }

  function WeightedChange(block: seq<Byte>, bad: seq<Byte>): int {
    Weighted(Words(bad)) - Weighted(Words(block))
  }

  /** Any damage whatever to a verified block goes unnoticed exactly when its changes balance. */
  lemma {:induction false} DamageExact(block: seq<Byte>, bad: seq<Byte>)
    requires Verifies(block) && |bad| == |block| >= 8
    ensures Verifies(bad) <==>
              Cancels(WordAt(bad, 0), WordAt(bad, 1), Change(block, bad, 0), Change(block, bad, 1),
                      TotalChange(block, bad), WeightedChange(block, bad))
  {
    VerifiesIff(block);
    VerifiesIff(bad);
    BalancedShift(WordAt(block, 0), WordAt(block, 1), Total(Words(block)), Weighted(Words(block)),
                  WordAt(bad, 0), WordAt(bad, 1), Total(Words(bad)), Weighted(Words(bad)));
  }

  // ---------- damage to a few neighbouring words ----------

  /** Only words k..k+j-1 of the block may differ. */
  ghost predicate Within(block: seq<Byte>, bad: seq<Byte>, k: nat, j: nat) {
    && |bad| == |block| && 4 * (k + j) <= |block|
    && bad[..4 * k] == block[..4 * k] && bad[4 * (k + j)..] == block[4 * (k + j)..]
  }

  lemma {:induction false} WordOutside(block: seq<Byte>, bad: seq<Byte>, k: nat, j: nat, i: nat)
    requires Within(block, bad, k, j) && 4 * i + 4 <= |block| && (i < k || i >= k + j)
    ensures WordAt(bad, i) == WordAt(block, i)
  {
    if i < k {
      SameBefore(block, bad, 4 * k, 4 * i, 4 * i + 4);
    } else {
      SameAfter(block, bad, 4 * (k + j), 4 * i, 4 * i + 4);
    }
  }

  lemma {:induction false} SameBefore(a: seq<Byte>, b: seq<Byte>, n: nat, lo: nat, hi: nat)
    requires |a| == |b| && lo <= hi <= n <= |a| && a[..n] == b[..n]
    ensures a[lo..hi] == b[lo..hi]
  {
    assert a[lo..hi] == a[..n][lo..hi] && b[lo..hi] == b[..n][lo..hi];
  }

  lemma {:induction false} SameAfter(a: seq<Byte>, b: seq<Byte>, n: nat, lo: nat, hi: nat)
    requires |a| == |b| && n <= lo <= hi <= |a| && a[n..] == b[n..]
    ensures a[lo..hi] == b[lo..hi]
  {
    forall q | lo <= q < hi ensures a[q] == b[q] {
      assert a[q] == a[n..][q - n] && b[q] == b[n..][q - n];
    }
  }

  lemma {:induction false} WordIs(block: seq<Byte>, i: nat)
    requires 2 <= i && 4 * i + 4 <= |block|
    ensures i < |Words(block)| && Words(block)[i] == WordAt(block, i)
  {
  }

  /** Words of the checksum field count as zero. */
  function Counted(block: seq<Byte>, i: nat): nat
    requires 4 * i + 4 <= |block|
  {
    if i < 2 then 0 else WordAt(block, i)
  }

  function CountedChange(block: seq<Byte>, bad: seq<Byte>, i: nat): int
    requires |bad| == |block| && 4 * i + 4 <= |block|
  {
    Counted(bad, i) - Counted(block, i)
  }

  lemma {:induction false} CountedIs(block: seq<Byte>, i: nat)
    requires 4 * i + 4 <= |block|
    ensures i < |Words(block)| && Words(block)[i] == Counted(block, i)
  {
    if i >= 2 {
      WordIs(block, i);
    }
  }

  lemma {:induction false} SameAround(block: seq<Byte>, bad: seq<Byte>, k: nat, j: nat)
    requires Within(block, bad, k, j)
    ensures k + j <= |Words(block)| == |Words(bad)|
    ensures Words(bad)[..k] == Words(block)[..k] && Words(bad)[k + j..] == Words(block)[k + j..]
  {
    forall i | 0 <= i < |block| / 4 && (i < k || i >= k + j) ensures Words(bad)[i] == Words(block)[i] {
      CountedIs(block, i);
      CountedIs(bad, i);
      WordOutside(block, bad, k, j, i);
    }
  }

  /** Replacing the middle of a word list changes the sums by the middle's own changes. */
  lemma {:induction false} MiddleSums(a: seq<nat>, m: seq<nat>, m': seq<nat>, b: seq<nat>)
    requires |m| == |m'|
    ensures Total(a + (m' + b)) - Total(a + (m + b)) == Total(m') - Total(m)
    ensures Weighted(a + (m' + b)) - Weighted(a + (m + b)) == Weighted(m') - Weighted(m) + |b| * (Total(m') - Total(m))
  {
    TotalConcat(a, m + b);
    TotalConcat(a, m' + b);
    TotalConcat(m, b);
    TotalConcat(m', b);
    WeightedConcat(a, m + b);
    WeightedConcat(a, m' + b);
    WeightedConcat(m, b);
    WeightedConcat(m', b);
    Spread(|b|, Total(m'), Total(m));
  }

  lemma {:induction false} Spread(n: int, x: int, y: int)
    ensures n * (x - y) == n * x - n * y
  {
  }

  /** The sums change by what happens to the words that differ. */
  lemma {:induction false} SumChanges(block: seq<Byte>, bad: seq<Byte>, k: nat, j: nat)
    requires Within(block, bad, k, j)
    ensures k + j <= |Words(block)| == |Words(bad)|
    ensures var m, m', n := Words(block)[k..k + j], Words(bad)[k..k + j], |Words(block)| - (k + j);
            && TotalChange(block, bad) == Total(m') - Total(m)
            && WeightedChange(block, bad) == Weighted(m') - Weighted(m) + n * (Total(m') - Total(m))
  {
    SameAround(block, bad, k, j);
    var ws, vs := Words(block), Words(bad);
    MiddleSums(ws[..k], ws[k..k + j], vs[k..k + j], ws[k + j..]);
    InThree(ws, k, k + j);
    InThree(vs, k, k + j);
  }

  lemma {:induction false} InThree(ws: seq<nat>, i: nat, j: nat)
    requires i <= j <= |ws|
    ensures ws == ws[..i] + (ws[i..j] + ws[j..])
  {
  }

  lemma {:induction false} TwoSums(x: nat, y: nat)
    ensures Total([x, y]) == x + y && Weighted([x, y]) == 2 * x + y
  {
    assert [x, y][1..] == [y] && [y][1..] == [];
    assert Total([y]) == y && Weighted([y]) == y;
  }

  lemma {:induction false} ThreeSums(x: nat, y: nat, z: nat)
    ensures Total([x, y, z]) == x + y + z && Weighted([x, y, z]) == 3 * x + 2 * y + z
  {
    assert [x, y, z][1..] == [y, z];
    TwoSums(y, z);
  }

  /** The sums' changes when words k, k + 1, k + 2 differ; n words follow them. */
  lemma {:induction false} TripleChanges(block: seq<Byte>, bad: seq<Byte>, k: nat, n: int)
    requires Within(block, bad, k, 3) && n == |block| / 4 - (k + 3)
    ensures var d, e, f := CountedChange(block, bad, k), CountedChange(block, bad, k + 1), CountedChange(block, bad, k + 2);
            && TotalChange(block, bad) == d + e + f
            && WeightedChange(block, bad) == 3 * d + 2 * e + f + n * (d + e + f)
  {
    SumChanges(block, bad, k, 3);
    Slice3(block, k);
    Slice3(bad, k);
    ThreeSums(Counted(block, k), Counted(block, k + 1), Counted(block, k + 2));
    ThreeSums(Counted(bad, k), Counted(bad, k + 1), Counted(bad, k + 2));
  }

  lemma {:induction false} Slice3(block: seq<Byte>, k: nat)
    requires 4 * (k + 3) <= |block|
    ensures k + 3 <= |Words(block)|
    ensures Words(block)[k..k + 3] == [Counted(block, k), Counted(block, k + 1), Counted(block, k + 2)]
  {
    CountedIs(block, k);
    CountedIs(block, k + 1);
    CountedIs(block, k + 2);
  }

  // ---------- three neighbouring words ----------

  /**
   The exact condition for damage to words k, k + 1, k + 2 of a block of n
   words; word 0 and word 1 are the check words.
   */
  predicate TripleEscapes(block: seq<Byte>, bad: seq<Byte>, k: nat)
    requires |bad| == |block| && 4 * (k + 3) <= |block|
  {
    var d, e, f := Change(block, bad, k), Change(block, bad, k + 1), Change(block, bad, k + 2);
    var n := |block| / 4;
    if k == 0 then WordAt(bad, 0) >= 1 && WordAt(bad, 1) >= 1 && Residue(d + (n - 1) * f) == 0 && Residue(e + f + d) == 0
    else if k == 1 then WordAt(bad, 1) >= 1 && Residue((n - 1) * e + (n - 2) * f) == 0 && Residue(d + e + f) == 0
    else Residue(2 * d + e) == 0 && Residue(f - d) == 0
  }

  lemma {:induction false} SteepResidues(d: int, e: int, f: int, n: int)
    ensures Residue(d + e + f + (3 * d + 2 * e + f + n * (d + e + f))) == 0 && Residue(d + e + f) == 0 <==>
              Residue(2 * d + e) == 0 && Residue(f - d) == 0
  {
    var s := d + e + f;
    CongruentScaled(s, n + 2);
    if Residue(s) == 0 {
      ResidueShift((n + 2) * s, s + (3 * d + 2 * e + f + n * s));
      Distribute2(n, s);
      assert s + (3 * d + 2 * e + f + n * s) - (n + 2) * s == 2 * d + e;
      if Residue(2 * d + e) == 0 {
        ResidueShift(2 * d + e, s);
      }
    }
    if Residue(2 * d + e) == 0 && Residue(f - d) == 0 {
      ResidueAdd(2 * d + e, f - d);
      assert (2 * d + e) + (f - d) == s;
      ResidueAdd((n + 2) * s, 2 * d + e);
      Distribute2(n, s);
    }
    assert s - (2 * d + e) == f - d;
  }

  lemma {:induction false} Distribute2(n: int, s: int)
    ensures (n + 2) * s == n * s + 2 * s
  {
  }

  lemma {:induction false} CongruentScaled(s: int, n: int)
    ensures Residue(s) == 0 ==> Residue(n * s) == 0
  {
    if Residue(s) == 0 {
      CongruentMultiple(n, s);
    }
  }

  lemma {:induction false} TripleAlgebra(n: int, e: int, f: int)
    ensures f + (f + (n - 3) * f) == (n - 1) * f
    ensures (e + f) + (2 * e + f + (n - 4) * (e + f)) == (n - 1) * e + (n - 2) * f
  {
  }

  /** Damage to both check words and word 2. */
  lemma {:induction false} FieldAndNext(lo: nat, hi: nat, d: int, e: int, f: int, n: int, t: int, w: int)
    requires t == f && w == f + (n - 3) * f
    ensures Cancels(lo, hi, d, e, t, w) <==>
              lo >= 1 && hi >= 1 && Residue(d + (n - 1) * f) == 0 && Residue(e + f + d) == 0
  {
    TripleAlgebra(n, e, f);
  }

  /** Damage to the high check word and words 2 and 3. */
  lemma {:induction false} EdgeAndNext(lo: nat, hi: nat, d: int, e: int, f: int, n: int, t: int, w: int)
    requires lo >= 1 && t == e + f && w == 2 * e + f + (n - 4) * (e + f)
    ensures Cancels(lo, hi, 0, d, t, w) <==>
              hi >= 1 && Residue((n - 1) * e + (n - 2) * f) == 0 && Residue(d + e + f) == 0
  {
    TripleAlgebra(n, e, f);
  }

  /** Damage past the checksum field. */
  lemma {:induction false} PastField(lo: nat, hi: nat, d: int, e: int, f: int, n: int, t: int, w: int)
    requires lo >= 1 && hi >= 1 && t == d + e + f && w == 3 * d + 2 * e + f + n * (d + e + f)
    ensures Cancels(lo, hi, 0, 0, t, w) <==> Residue(2 * d + e) == 0 && Residue(f - d) == 0
  {
    SteepResidues(d, e, f, n);
  }

  lemma {:induction false} TripleAtField(block: seq<Byte>, bad: seq<Byte>)
    requires Verifies(block) && Within(block, bad, 0, 3)
    ensures Verifies(bad) <==> TripleEscapes(block, bad, 0)
  {
    DamageExact(block, bad);
    TripleChanges(block, bad, 0, |block| / 4 - 3);
    FieldAndNext(WordAt(bad, 0), WordAt(bad, 1), Change(block, bad, 0), Change(block, bad, 1),
                 Change(block, bad, 2), |block| / 4, TotalChange(block, bad), WeightedChange(block, bad));
  }

  lemma {:induction false} TripleAtEdge(block: seq<Byte>, bad: seq<Byte>)
    requires Verifies(block) && Within(block, bad, 1, 3)
    ensures Verifies(bad) <==> TripleEscapes(block, bad, 1)
  {
    DamageExact(block, bad);
    TripleChanges(block, bad, 1, |block| / 4 - 4);
    StoredNonZero(block);
    WordOutside(block, bad, 1, 3, 0);
    EdgeAndNext(WordAt(bad, 0), WordAt(bad, 1), Change(block, bad, 1), Change(block, bad, 2),
                Change(block, bad, 3), |block| / 4, TotalChange(block, bad), WeightedChange(block, bad));
  }

  lemma {:induction false} TriplePast(block: seq<Byte>, bad: seq<Byte>, k: nat)
    requires Verifies(block) && Within(block, bad, k, 3) && 2 <= k
    ensures Verifies(bad) <==> TripleEscapes(block, bad, k)
  {
    DamageExact(block, bad);
    TripleChanges(block, bad, k, |block| / 4 - (k + 3));
    StoredNonZero(block);
    WordOutside(block, bad, k, 3, 0);
    WordOutside(block, bad, k, 3, 1);
    PastField(WordAt(bad, 0), WordAt(bad, 1), Change(block, bad, k), Change(block, bad, k + 1),
              Change(block, bad, k + 2), |block| / 4 - (k + 3), TotalChange(block, bad), WeightedChange(block, bad));
  }

  /** Any change of three neighbouring words of a verified block, check words included, escapes exactly then. */
  lemma {:induction false} TripleExact(block: seq<Byte>, bad: seq<Byte>, k: nat)
    requires Verifies(block) && Within(block, bad, k, 3)
    ensures Verifies(bad) <==> TripleEscapes(block, bad, k)
  {
    if k == 0 {
      TripleAtField(block, bad);
    } else if k == 1 {
      TripleAtEdge(block, bad);
    } else {
      TriplePast(block, bad, k);
    }
  }

  lemma {:induction false} StoredNonZero(block: seq<Byte>)
    requires Verifies(block) && |block| >= 8
    ensures WordAt(block, 0) >= 1 && WordAt(block, 1) >= 1
  {
    VerifiesIff(block);
  }

  // ---------- two neighbouring words ----------

  lemma {:induction false} PairChanges(block: seq<Byte>, bad: seq<Byte>, k: nat, n: int)
    requires Within(block, bad, k, 2) && n == |block| / 4 - (k + 2)
    ensures var d, e := CountedChange(block, bad, k), CountedChange(block, bad, k + 1);
            TotalChange(block, bad) == d + e && WeightedChange(block, bad) == 2 * d + e + n * (d + e)
  {
    SumChanges(block, bad, k, 2);
    Slice2(block, k);
    Slice2(bad, k);
    TwoSums(Counted(block, k), Counted(block, k + 1));
    TwoSums(Counted(bad, k), Counted(bad, k + 1));
  }

  lemma {:induction false} Slice2(block: seq<Byte>, k: nat)
    requires 4 * (k + 2) <= |block|
    ensures k + 2 <= |Words(block)| && Words(block)[k..k + 2] == [Counted(block, k), Counted(block, k + 1)]
  {
    CountedIs(block, k);
    CountedIs(block, k + 1);
  }

  lemma {:induction false} LeInjective(a: seq<Byte>, b: seq<Byte>)
    requires |a| == |b| && LeVal(a) == LeVal(b)
    ensures a == b
  {
    if a != [] {
      LeInjective(a[1..], b[1..]);
      assert a == [a[0]] + a[1..] && b == [b[0]] + b[1..];
    }
  }

  /**
   The exact condition for damage to words k and k + 1. Past the checksum field
   each word must be replaced by an indistinct one. In the field nothing may
   change. Across its edge, the high check word and word 2 may change together
   when the change of word 2, times one less than the number of words, vanishes.
   */
  predicate PairEscapes(block: seq<Byte>, bad: seq<Byte>, k: nat)
    requires |bad| == |block| && 4 * (k + 2) <= |block|
  {
    var x, x', y, y' := WordAt(block, k), WordAt(bad, k), WordAt(block, k + 1), WordAt(bad, k + 1);
    if k == 0 then bad[..8] == block[..8]
    else if k == 1 then x' >= 1 && Residue((|block| / 4 - 1) * (y' - y)) == 0 && Congruent(x' - x, y - y')
    else Indistinct(x, x') && Indistinct(y, y')
  }

  /** Any change of two neighbouring words of a verified block, check words included, escapes exactly then. */
  lemma {:induction false} PairExact(block: seq<Byte>, bad: seq<Byte>, k: nat)
    requires Verifies(block) && Within(block, bad, k, 2)
    ensures Verifies(bad) <==> PairEscapes(block, bad, k)
  {
    if k == 0 {
      FieldDamage(block, bad);
    } else if k == 1 {
      EdgeDamage(block, bad);
    } else {
      CorruptionDetected(block, bad, k);
    }
  }

  lemma {:induction false} FieldDamage(block: seq<Byte>, bad: seq<Byte>)
    requires Verifies(block) && Within(block, bad, 0, 2)
    ensures Verifies(bad) <==> bad[..8] == block[..8]
  {
    DamageExact(block, bad);
    PairChanges(block, bad, 0, |block| / 4 - 2);
    StoredNonZero(block);
    SameCheckWords(WordAt(block, 0), WordAt(block, 1), WordAt(bad, 0), WordAt(bad, 1));
    if WordAt(block, 0) == WordAt(bad, 0) && WordAt(block, 1) == WordAt(bad, 1) {
      LeInjective(block[0..4], bad[0..4]);
      LeInjective(block[4..8], bad[4..8]);
      assert block[..8] == block[0..4] + block[4..8] && bad[..8] == bad[0..4] + bad[4..8];
    }
    if bad[..8] == block[..8] {
      SameBefore(block, bad, 8, 0, 4);
      SameBefore(block, bad, 8, 4, 8);
    }
  }

  lemma {:induction false} SameCheckWords(lo: nat, hi: nat, lo': nat, hi': nat)
    requires 1 <= lo <= MOD && 1 <= hi <= MOD && lo' <= MOD && hi' <= MOD
    ensures Cancels(lo', hi', lo' - lo, hi' - hi, 0, 0) <==> lo' == lo && hi' == hi
  {
    IndistinctWords(lo', lo);
    IndistinctWords(hi', hi);
  }

  lemma {:induction false} EdgeCancels(lo: nat, hi: nat, d: int, e: int, n: int, t: int, w: int)
    requires lo >= 1 && t == e && w == e + (n - 3) * e
    ensures Cancels(lo, hi, 0, d, t, w) <==> hi >= 1 && Residue((n - 1) * e) == 0 && Congruent(d, -e)
  {
    TripleAlgebra(n, 0, e);
    assert d - (-e) == d + t;
  }

  lemma {:induction false} EdgeDamage(block: seq<Byte>, bad: seq<Byte>)
    requires Verifies(block) && Within(block, bad, 1, 2)
    ensures Verifies(bad) <==> PairEscapes(block, bad, 1)
  {
    var n := |block| / 4;
    DamageExact(block, bad);
    PairChanges(block, bad, 1, n - 3);
    StoredNonZero(block);
    WordOutside(block, bad, 1, 2, 0);
    EdgeCancels(WordAt(bad, 0), WordAt(bad, 1), Change(block, bad, 1), Change(block, bad, 2),
                n, TotalChange(block, bad), WeightedChange(block, bad));
  }

  // ---------- eight bytes at any offset ----------

  /** 256 to the power of r, for the r bytes of a word that a burst leaves alone. */
  function Low(r: nat): nat {
    if r == 1 then 0x100 else if r == 2 then 0x1_0000 else 0x100_0000
  }

  function High(r: nat): nat {
    if r == 1 then 0x100_0000 else if r == 2 then 0x1_0000 else 0x100
  }

  /**
   The exact condition for a burst of 8 bytes that starts r bytes into a word:
   u is what it overwrites of the first word, y the middle word, v what it
   overwrites of the last. Either nothing visible changes, or u turns from all
   ones to all zeros while v turns from all zeros to all ones, or the reverse,
   with y making up for it.
   */
  predicate BurstEscapes(r: nat, u: nat, u': nat, y: nat, y': nat, v: nat, v': nat) {
    || (u == u' && v == v' && Indistinct(y, y'))
    || (u == High(r) - 1 && u' == 0 && v == 0 && v' == Low(r) - 1 && Congruent(y', y - 2 * (Low(r) - 1)))
    || (u == 0 && u' == High(r) - 1 && v == Low(r) - 1 && v' == 0 && Congruent(y', y + 2 * (Low(r) - 1)))
  }

  lemma {:induction false} SmallResidue(z: int)
    requires -0xffff_ffff <= z <= 0xffff_ffff
    ensures Residue(z) == 0 <==> z == 0 || z == 0xffff_ffff || z == -0xffff_ffff
  {
  }

  lemma {:induction false} Extremes(r: nat, u: nat, u': nat, v: nat, v': nat)
    requires 1 <= r <= 3 && u < High(r) && u' < High(r) && v < Low(r) && v' < Low(r)
    ensures var z := (v' - v) - Low(r) * (u' - u);
            && -0xffff_ffff <= z <= 0xffff_ffff
            && (z == 0 <==> u == u' && v == v')
            && (z == 0xffff_ffff <==> u == High(r) - 1 && u' == 0 && v == 0 && v' == Low(r) - 1)
            && (z == -0xffff_ffff <==> u == 0 && u' == High(r) - 1 && v == Low(r) - 1 && v' == 0)
  {
    if r == 1 {
    } else if r == 2 {
    } else {
    }
  }

  lemma {:induction false} DoubleModulus(z: int)
    ensures Residue(z) == 0 <==> Residue(z - 2 * 0xffff_ffff) == 0 && Residue(z + 2 * 0xffff_ffff) == 0
    ensures Residue(z - 2 * 0xffff_ffff) == Residue(z) == Residue(z + 2 * 0xffff_ffff)
  {
  }

  lemma {:induction false} BurstArithmetic(r: nat, u: nat, u': nat, y: nat, y': nat, v: nat, v': nat)
    requires 1 <= r <= 3 && u < High(r) && u' < High(r) && v < Low(r) && v' < Low(r) && y <= MOD && y' <= MOD
    ensures var d, e, f := Low(r) * (u' - u), y' - y, v' - v;
            Residue(2 * d + e) == 0 && Residue(f - d) == 0 <==> BurstEscapes(r, u, u', y, y', v, v')
  {
    var d, e, f := Low(r) * (u' - u), y' - y, v' - v;
    Extremes(r, u, u', v, v');
    SmallResidue(f - d);
    if f - d == 0 {
      IndistinctWords(y', y);
    } else if f - d == 0xffff_ffff {
      DoubleModulus(2 * d + e);
      assert 2 * d + e + 2 * 0xffff_ffff == y' - (y - 2 * (Low(r) - 1));
    } else if f - d == -0xffff_ffff {
      DoubleModulus(2 * d + e);
      assert 2 * d + e - 2 * 0xffff_ffff == y' - (y + 2 * (Low(r) - 1));
    }
  }

  lemma {:induction false} PartBound(b: seq<Byte>, r: nat)
    requires 1 <= r <= 3
    ensures |b| == r ==> LeVal(b) < Low(r)
    ensures |b| == 4 - r ==> LeVal(b) < High(r)
  {
    LeValBound(b);
    Pow256Values();
    assert Pow256(3) == 256 * Pow256(2);
  }

  /** A word splits at byte r. */
  lemma {:induction false} WordSplit(block: seq<Byte>, k: nat, r: nat)
    requires 1 <= r <= 3 && 4 * k + 4 <= |block|
    ensures WordAt(block, k) == Head(block, k, r) + Low(r) * Tail(block, k, r)
  {
    LeSplit(block[4 * k..4 * k + r], block[4 * k + r..4 * k + 4]);
    assert block[4 * k..4 * k + r] + block[4 * k + r..4 * k + 4] == block[4 * k..4 * k + 4];
    Pow256Values();
    assert Pow256(3) == 256 * Pow256(2);
  }

  lemma {:induction false} BurstWithin(block: seq<Byte>, bad: seq<Byte>, k: nat, r: nat)
    requires |bad| == |block| && 1 <= r <= 3 && 4 * (k + 3) <= |block|
    requires bad[..4 * k + r] == block[..4 * k + r] && bad[4 * k + r + 8..] == block[4 * k + r + 8..]
    ensures Within(block, bad, k, 3) && bad[4 * (k + 2) + r..] == block[4 * (k + 2) + r..]
  {
    SameBefore(block, bad, 4 * k + r, 0, 4 * k);
    SameAfter(block, bad, 4 * k + r + 8, 4 * (k + 3), |block|);
    assert bad[..4 * k] == bad[0..4 * k] && block[..4 * k] == block[0..4 * k];
    assert bad[4 * (k + 3)..] == bad[4 * (k + 3)..|block|] && block[4 * (k + 3)..] == block[4 * (k + 3)..|block|];
    assert 4 * (k + 2) + r == 4 * k + r + 8;
  }

  /** The part of word k from byte r on, and the part before it. */
  function Tail(block: seq<Byte>, k: nat, r: nat): (v: nat)
    requires 1 <= r <= 3 && 4 * k + 4 <= |block|
    ensures v < High(r)
  {
    PartBound(block[4 * k + r..4 * k + 4], r);
    LeVal(block[4 * k + r..4 * k + 4])
  }

  function Head(block: seq<Byte>, k: nat, r: nat): (v: nat)
    requires 1 <= r <= 3 && 4 * k + 4 <= |block|
    ensures v < Low(r)
  {
    PartBound(block[4 * k..4 * k + r], r);
    LeVal(block[4 * k..4 * k + r])
  }

  /** Any 8 bytes past the checksum field, at any offset that is not a word boundary. */
  lemma {:induction false} UnalignedBurst(block: seq<Byte>, bad: seq<Byte>, k: nat, r: nat)
    requires Verifies(block) && |bad| == |block| && 2 <= k && 1 <= r <= 3 && 4 * (k + 3) <= |block|
    requires bad[..4 * k + r] == block[..4 * k + r] && bad[4 * k + r + 8..] == block[4 * k + r + 8..]
    ensures Verifies(bad) <==>
              BurstEscapes(r, Tail(block, k, r), Tail(bad, k, r), WordAt(block, k + 1), WordAt(bad, k + 1),
                           Head(block, k + 2, r), Head(bad, k + 2, r))
  {
    BurstWithin(block, bad, k, r);
    TripleExact(block, bad, k);
    FirstWordChange(block, bad, k, r);
    LastWordChange(block, bad, k + 2, r);
    BurstArithmetic(r, Tail(block, k, r), Tail(bad, k, r), WordAt(block, k + 1), WordAt(bad, k + 1),
                    Head(block, k + 2, r), Head(bad, k + 2, r));
  }

  lemma {:induction false} FirstWordChange(block: seq<Byte>, bad: seq<Byte>, k: nat, r: nat)
    requires |bad| == |block| && 1 <= r <= 3 && 4 * k + 4 <= |block| && bad[..4 * k + r] == block[..4 * k + r]
    ensures Change(block, bad, k) ==
            Low(r) * (Tail(bad, k, r) - Tail(block, k, r))
  {
    WordSplit(block, k, r);
    WordSplit(bad, k, r);
    SameBefore(block, bad, 4 * k + r, 4 * k, 4 * k + r);
  }

  lemma {:induction false} LastWordChange(block: seq<Byte>, bad: seq<Byte>, k: nat, r: nat)
    requires |bad| == |block| && 1 <= r <= 3 && 4 * k + 4 <= |block| && bad[4 * k + r..] == block[4 * k + r..]
    ensures Change(block, bad, k) == Head(bad, k, r) - Head(block, k, r)
  {
    WordSplit(block, k, r);
    WordSplit(bad, k, r);
    SameAfter(block, bad, 4 * k + r, 4 * k + r, 4 * k + 4);
  }

  // ---------- what the checksum misses, on stamped blocks ----------

  /** A word of zeros past the checksum field turned into all ones goes unseen in every verified block. */
  lemma {:induction false} OnesForZero(block: seq<Byte>, bad: seq<Byte>, k: nat)
    requires Verifies(block) && Within(block, bad, k, 1) && 2 <= k
    requires WordAt(block, k) == 0 && WordAt(bad, k) == MOD
    ensures Verifies(bad)
  {
    DamageExact(block, bad);
    SumChanges(block, bad, k, 1);
    CountedIs(block, k);
    CountedIs(bad, k);
    WordOutside(block, bad, k, 1, 0);
    WordOutside(block, bad, k, 1, 1);
    StoredNonZero(block);
    assert Words(block)[k..k + 1] == [0] && Words(bad)[k..k + 1] == [MOD];
    assert [MOD][1..] == [] && [0][1..] == [];
    var n := |block| / 4 - (k + 1);
    CongruentMultiple(n + 2, MOD);
    assert MOD + (MOD + n * MOD) == (n + 2) * MOD;
  }

  /** Two restamped blocks whose word 2 differs by a multiple of a factor of the modulus share the low check word. */
  lemma {:induction false} SharedLowWord(block: seq<Byte>, bad: seq<Byte>)
    requires Verifies(block) && Verifies(bad) && Within(block, bad, 0, 3)
    requires Residue((|block| / 4 - 1) * Change(block, bad, 2)) == 0
    ensures bad[..4] == block[..4]
  {
    TripleAtField(block, bad);
    StoredNonZero(block);
    StoredNonZero(bad);
    ResidueShift((|block| / 4 - 1) * Change(block, bad, 2),
                 Change(block, bad, 0) + (|block| / 4 - 1) * Change(block, bad, 2));
    IndistinctWords(WordAt(bad, 0), WordAt(block, 0));
    LeInjective(bad[0..4], block[0..4]);
    assert bad[..4] == bad[0..4] && block[..4] == block[0..4];
  }

  /** An all-zero block of 4096 bytes but for word 2, stamped. */
  function OneWord(x: nat): (block: seq<Byte>)
    ensures |block| == 4096
  {
    Stamp(Zeros(8) + LeBytes(x, 4) + Zeros(4084))
  }

  lemma {:induction false} OneWordReads(x: nat)
    requires x <= MOD
    ensures Verifies(OneWord(x)) && WordAt(OneWord(x), 2) == x && OneWord(x)[12..] == Zeros(4084)
  {
    var plain, block := Zeros(8) + LeBytes(x, 4) + Zeros(4084), OneWord(x);
    StampVerifies(plain);
    assert plain[8..12] == LeBytes(x, 4) && plain[12..] == Zeros(4084);
    SameAfter(plain, block, 8, 8, 12);
    SameAfter(plain, block, 8, 12, 4096);
    assert block[12..] == block[12..4096] && plain[12..] == plain[12..4096];
    Pow256Values();
    LeRoundTrip(x, 4);
  }

  lemma {:induction false} OneWordPair(x: nat, y: nat)
    requires x <= MOD && y <= MOD && Residue(1023 * (y - x)) == 0
    ensures OneWord(y)[..4] == OneWord(x)[..4] && OneWord(y)[12..] == OneWord(x)[12..]
  {
    var block, bad := OneWord(x), OneWord(y);
    OneWordReads(x);
    OneWordReads(y);
    assert Within(block, bad, 0, 3);
    SharedLowWord(block, bad);
  }

  /** Two different stamped blocks of 4096 bytes that differ in bytes 4 to 11 alone, across the edge of the field. */
  lemma {:induction false} EdgeBurstUnseen()
    ensures var block, bad := OneWord(0), OneWord(0x5555_5555);
            && Verifies(block) && Verifies(bad) && block != bad
            && bad[..4] == block[..4] && bad[12..] == block[12..]
  {
    var x := 0x5555_5555;
    OneWordReads(0);
    OneWordReads(x);
    OneWordPair(0, x);
  }

  /** A stamped block of zeros with word 2 turned into 2^32 - 1. */
  lemma {:induction false} OnesUnseen()
    ensures var block := OneWord(0);
            var bad := block[..8] + LeBytes(0xffff_ffff, 4) + block[12..];
            Verifies(block) && Verifies(bad) && block != bad
  {
    var block := OneWord(0);
    var bad := block[..8] + LeBytes(0xffff_ffff, 4) + block[12..];
    OneWordReads(0);
    Pow256Values();
    LeRoundTrip(0xffff_ffff, 4);
    assert bad[8..12] == LeBytes(0xffff_ffff, 4) && bad[..8] == block[..8] && bad[12..] == block[12..];
    OnesForZero(block, bad, 2);
  }
}
