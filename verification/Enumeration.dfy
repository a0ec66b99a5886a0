/** What the free-run enumerator lists when chunk-info blocks may list more chunks than their share (core/src/spaceman.rs). */
module Enumeration {
  import opened Results
  import opened Bytes
  import opened Runs
  import opened Arith
  import opened Spaceman

  /** Entry w of chunk-info block `cib` describes a chunk on the device that holds block b and shows it free. */
  ghost predicate Lists(s: Space, cib: nat, w: nat, b: nat) {
    && cib < s.cibCount && s.cib(cib).Ok? && w < |s.cib(cib).value|
    && var base := ChunkBase(s, ChunkIndex(s, cib, w));
       && ChunkIndex(s, cib, w) < s.chunkCount && base < s.blockCount
       && base <= b < base + BlocksIn(s, base) && FreeInChunk(s, s.cib(cib).value[w], b - base)
  }

  ghost predicate ListedFrom(s: Space, cib: nat, w: nat, b: nat) {
    exists v: nat :: w <= v && Lists(s, cib, v, b)
  }

  ghost predicate ListedAfter(s: Space, cib: nat, b: nat) {
    exists c: nat :: cib <= c && ListedFrom(s, c, 0, b)
  }

  /** An entry past a chunk-info block's share, numbered like a chunk of the next blocks, shows b free. */
  ghost predicate OverListed(s: Space, b: nat) {
    exists c: nat :: ListedFrom(s, c, s.chunksPerCib, b)
  }

  lemma {:induction false} FromStep(s: Space, cib: nat, w: nat, b: nat)
    ensures ListedFrom(s, cib, w, b) <==> Lists(s, cib, w, b) || ListedFrom(s, cib, w + 1, b)
  {
    if ListedFrom(s, cib, w, b) && !Lists(s, cib, w, b) {
      var v: nat :| w <= v && Lists(s, cib, v, b);
      assert w + 1 <= v;
    }
  }

  lemma {:induction false} AfterStep(s: Space, cib: nat, b: nat)
    ensures ListedAfter(s, cib, b) <==> ListedFrom(s, cib, 0, b) || ListedAfter(s, cib + 1, b)
  {
    if ListedAfter(s, cib, b) && !ListedFrom(s, cib, 0, b) {
      var c: nat :| cib <= c && ListedFrom(s, c, 0, b);
      assert cib + 1 <= c;
    }
  }

  /** The walk over a chunk-info block stops at w: no later entry is on the device. */
  lemma {:induction false} StopsAt(s: Space, cib: nat, w: nat, b: nat)
    requires cib < s.cibCount && s.cib(cib).Ok?
    requires w >= |s.cib(cib).value| || !(ChunkIndex(s, cib, w) < s.chunkCount && ChunkBase(s, ChunkIndex(s, cib, w)) < s.blockCount)
    ensures !ListedFrom(s, cib, w, b)
  {
    forall v: nat | w <= v ensures !Lists(s, cib, v, b) {
      if w < |s.cib(cib).value| {
        OffDeviceStays(s, cib, w, v);
      }
    }
  }

  lemma {:induction false} ChunksList(s: Space, cib: nat, infos: seq<nat>, w: nat, runs: seq<Run>, b: nat)
    requires InRange(s) && cib < s.cibCount && s.cib(cib) == Ok(infos) && w <= |infos|
    requires EndsBy(runs, U64 - 1) && AddChunks(s, cib, infos, w, runs).Ok?
    ensures var more := AddChunks(s, cib, infos, w, runs).value;
            EndsBy(more, U64 - 1) && (InRuns(more, b) <==> InRuns(runs, b) || ListedFrom(s, cib, w, b))
    decreases |infos| - w
  {
    var chunk := ChunkIndex(s, cib, w);
    if w == |infos| || chunk >= s.chunkCount || ChunkBase(s, chunk) >= s.blockCount {
      StopsAt(s, cib, w, b);
    } else {
      var base := ChunkBase(s, chunk);
      AddChunkHas(s, runs, base, infos[w], b);
      ChunksList(s, cib, infos, w + 1, AddChunk(s, runs, base, infos[w]).value, b);
      FromStep(s, cib, w, b);
    }
  }

  lemma {:induction false} CibsList(s: Space, cib: nat, runs: seq<Run>, b: nat)
    requires InRange(s) && cib <= s.cibCount && EndsBy(runs, U64 - 1) && AddCibs(s, cib, runs).Ok?
    ensures InRuns(AddCibs(s, cib, runs).value, b) <==> InRuns(runs, b) || ListedAfter(s, cib, b)
    decreases s.cibCount - cib
  {
    if cib == s.cibCount {
      NothingAfter(s, b);
    } else {
      var more := CibStep(s, cib, runs, b);
      CibsList(s, cib + 1, more, b);
      AfterStep(s, cib, b);
    }
  }

  lemma {:induction false} NothingAfter(s: Space, b: nat)
    ensures !ListedAfter(s, s.cibCount, b)
  {
    forall c: nat, v: nat | s.cibCount <= c ensures !Lists(s, c, v, b) {
    }
  }

  lemma {:induction false} CibStep(s: Space, cib: nat, runs: seq<Run>, b: nat) returns (more: seq<Run>)
    requires InRange(s) && cib < s.cibCount && EndsBy(runs, U64 - 1) && AddCibs(s, cib, runs).Ok?
    ensures AddCibs(s, cib, runs) == AddCibs(s, cib + 1, more) && EndsBy(more, U64 - 1)
    ensures InRuns(more, b) <==> InRuns(runs, b) || ListedFrom(s, cib, 0, b)
  {
    var infos := s.cib(cib).value;
    more := AddChunks(s, cib, infos, 0, runs).value;
    ChunksList(s, cib, infos, 0, runs, b);
  }

  /** A block is in the enumeration exactly when some chunk-info entry shows it free. */
  lemma {:induction false} EnumerationLists(s: Space, b: nat)
    requires InRange(s) && FreeBlockRuns(s).Ok?
    ensures InRuns(FreeBlockRuns(s).value, b) <==> ListedAfter(s, 0, b)
  {
    var runs: seq<Run> := [];
    CibsList(s, 0, runs, b);
  }

  // ---------- a chunk-info block's own share ----------

  /** An entry within the share describes the chunk that the per-block predicate looks up. */
  lemma {:induction false} ShareIsListed(s: Space, cib: nat, w: nat, b: nat)
    requires InRange(s) && Lists(s, cib, w, b) && w < s.chunksPerCib
    ensures IsListedFree(s, b) == Ok(true)
  {
    var k := FirstChunk(s, cib) + w;
    NoSaturation(s, cib, w);
    ChunkPlace(s, cib, w);
    QuotientIs(b, k, s.blocksPerChunk);
    ListedInChunk(s, cib, w, k, b);
  }

  lemma {:induction false} ListsBlock(s: Space, cib: nat, w: nat, k: nat, base: nat, b: nat)
    requires InRange(s) && cib < s.cibCount && s.cib(cib).Ok? && w < |s.cib(cib).value|
    requires ChunkIndex(s, cib, w) == k && base == k * s.blocksPerChunk && base <= b < base + s.blocksPerChunk
    requires b < s.blockCount && k < s.chunkCount && FreeInChunk(s, s.cib(cib).value[w], b - base)
    ensures ListedAfter(s, 0, b)
  {
    assert ChunkBase(s, k) == base;
    assert Lists(s, cib, w, b);
    assert ListedFrom(s, cib, 0, b);
  }

  lemma {:induction false} Place(b: nat, n: nat) returns (k: nat, base: nat, off: nat)
    requires n > 0
    ensures k == b / n && base == k * n && off == b % n && b == base + off && off < n
  {
    k, off := b / n, b % n;
    Quotient(b, n);
    NonNegative(k, n);
    base := k * n;
  }

  lemma {:induction false} ListedIsInShare(s: Space, b: nat)
    requires InRange(s) && IsListedFree(s, b) == Ok(true)
    ensures ListedAfter(s, 0, b)
  {
    var k, base, off := Place(b, s.blocksPerChunk);
    var cib, first, w := Place(k, s.chunksPerCib);
    ListedInChunk(s, cib, w, k, b);
    NoSaturation(s, cib, w);
    ListsBlock(s, cib, w, k, base, b);
  }

  /** The enumeration holds what the per-block reading counts, and what is over-listed; nothing else. */
  lemma {:induction false} EnumerationHolds(s: Space, b: nat)
    requires InRange(s) && FreeBlockRuns(s).Ok?
    ensures InRuns(FreeBlockRuns(s).value, b) <==> IsListedFree(s, b) == Ok(true) || OverListed(s, b)
  {
    EnumerationLists(s, b);
    if ListedAfter(s, 0, b) {
      var c: nat :| ListedFrom(s, c, 0, b);
      var w: nat :| Lists(s, c, w, b);
      if w < s.chunksPerCib {
        ShareIsListed(s, c, w, b);
      } else {
        assert ListedFrom(s, c, s.chunksPerCib, b);
      }
    }
    if IsListedFree(s, b) == Ok(true) {
      ListedIsInShare(s, b);
    }
    if OverListed(s, b) {
      var c: nat :| ListedFrom(s, c, s.chunksPerCib, b);
      assert ListedFrom(s, c, 0, b);
    }
  }

  /**
   On any geometry the two agree on a block if and only if a blind block is
   over-listed and an over-listed one is free by the predicate.
   */
  lemma {:induction false} AgreementExact(s: Space, b: nat)
    requires InRange(s) && FreeBlockRuns(s).Ok?
    ensures (InRuns(FreeBlockRuns(s).value, b) <==> IsBlockFree(s, b) == Ok(true)) <==>
            (Blind(s, b) ==> OverListed(s, b)) && (OverListed(s, b) ==> IsBlockFree(s, b) == Ok(true))
  {
    EnumerationHolds(s, b);
    ReadingsDiffer(s, b);
  }

  /** Nothing is over-listed when every chunk-info block keeps to its share. */
  lemma {:induction false} ShareSuffices(s: Space, b: nat)
    requires WellFormed(s)
    ensures !OverListed(s, b)
  {
    forall c: nat, v: nat | s.chunksPerCib <= v ensures !Lists(s, c, v, b) {
    }
  }
}
