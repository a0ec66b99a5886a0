/** Allocation bitmaps: the per-block predicate and the whole-device run enumerator (core/src/spaceman.rs). */
module Spaceman {
  import opened Results
  import opened Bytes
  import opened Image
  import opened Runs
  import opened Arith

  // ---------- on-disk structures ----------

  /** The main device's geometry and how to reach its chunk-info blocks and bitmaps. */
  datatype Space = Space(
    blocksPerChunk: nat,
    chunksPerCib: nat,
    blockCount: nat,
    chunkCount: nat,
    cibCount: nat,
    cabCount: nat,
    cib: nat -> Result<seq<nat>>,       // bitmap address of every chunk in a chunk-info block; 0 means all free
    bitmap: nat -> Result<seq<Byte>>)   // a raw bitmap block

  function ChunkInfos(cib: seq<Byte>): seq<nat> {
    seq(LeU32(cib, 36), (w: nat) => LeU64(cib, 40 + w * 32 + 24))
  }

  function ReadCib(img: seq<Byte>, bs: nat, sm: seq<Byte>, idx: nat): Result<seq<nat>> {
    var cib :- ReadObject(img, bs, LeU64(sm, LeU32(sm, 80) + idx * 8));
    Ok(ChunkInfos(cib))
  }

  /** The space manager at a block. */
  function SpaceAt(img: seq<Byte>, bs: nat, paddr: nat): Result<Space> {
    var sm :- ReadObject(img, bs, paddr);
    Ok(Space(
         LeU32(sm, 36), LeU32(sm, 40), LeU64(sm, 48), LeU64(sm, 56), LeU32(sm, 64), LeU32(sm, 68),
         (idx: nat) => ReadCib(img, bs, sm, idx),
         (addr: nat) => ReadBlock(img, bs, addr)))
  }

  // ---------- bits ----------

  function Pow2(k: nat): (p: nat)
    ensures p > 0
  {
    if k == 0 then 1 else 2 * Pow2(k - 1)
  }

  /** Bit k of a byte. */
  predicate BitOf(byte: Byte, k: nat) {
    (byte / Pow2(k)) % 2 == 1
  }

  /** Bit i of a bitmap (least significant first) is set; `missing` stands in for a byte past its end. */
  predicate BitSet(bitmap: seq<Byte>, i: nat, missing: Byte) {
    BitOf(if i / 8 < |bitmap| then bitmap[i / 8] else missing, i % 8)
  }

  // ---------- the per-block predicate ----------

  /** The bitmap address of the chunk holding a block: the checks `is_block_free` makes, in its order. */
  function ChunkOf(s: Space, block: nat): Result<nat> {
    if s.blocksPerChunk == 0 || s.chunksPerCib == 0 then Err(FieldOutOfRange(GeometryField, 0, 1))
    else if block >= s.blockCount then Err(FieldOutOfRange(BlockField, block, s.blockCount))
    else if s.cabCount != 0 then Err(UnsupportedSpacemanCab(s.cabCount))
    else
      var chunk := block / s.blocksPerChunk;
      if chunk >= s.chunkCount then Err(FieldOutOfRange(ChunkIndexField, chunk, s.chunkCount))
      else if chunk / s.chunksPerCib >= s.cibCount then Err(FieldOutOfRange(CibIndexField, chunk / s.chunksPerCib, s.cibCount))
      else
        var infos :- s.cib(chunk / s.chunksPerCib);
        if chunk % s.chunksPerCib >= |infos| then Err(FieldOutOfRange(ChunkInfoField, chunk % s.chunksPerCib, |infos|))
        else Ok(infos[chunk % s.chunksPerCib])
  }

  /** Whether a block is free, with a choice for bits the bitmap block is too short to hold. */
  function FreeWith(s: Space, block: nat, missing: Byte): Result<bool> {
    var addr :- ChunkOf(s, block);
    if addr == 0 then Ok(true)
    else
      var bitmap :- s.bitmap(addr);
      if s.blocksPerChunk == 0 then Ok(true) else
      Ok(!BitSet(bitmap, block % s.blocksPerChunk, missing))
  }

  /** `is_block_free`: a bit past the bitmap counts as clear, hence free. */
  function IsBlockFree(s: Space, block: nat): Result<bool> {
    FreeWith(s, block, 0)
  }

  /** The enumerator's reading: a bit past the bitmap counts as set, hence allocated. */
  function IsListedFree(s: Space, block: nat): Result<bool> {
    FreeWith(s, block, 255)
  }

  // ---------- runs within one bitmap ----------

  /** Bit b of the bitmap has the free value; a byte past the end counts as allocated. */
  predicate FreeBit(bitmap: seq<Byte>, freeIsOne: bool, b: nat) {
    BitSet(bitmap, b, if freeIsOne then 0 else 255) == freeIsOne
  }

  function FreeBits(bitmap: seq<Byte>, freeIsOne: bool): nat -> bool {
    (b: nat) => FreeBit(bitmap, freeIsOne, b)
  }

  /** `free_runs`: the maximal runs of the free bit value among the first `blocks` bits. */
  function FreeRuns(bitmap: seq<Byte>, blocks: nat, freeIsOne: bool): seq<Run> {
    Scan(FreeBits(bitmap, freeIsOne), blocks, 0, [], None)
  }

  method ScanFreeRuns(bitmap: seq<Byte>, blocks: nat, freeIsOne: bool) returns (runs: seq<Run>)
    ensures runs == FreeRuns(bitmap, blocks, freeIsOne)
  {
    var fill: Byte := if freeIsOne then 0 else 255;
    runs := [];
    var start: Option<nat> := None;
    for i := 0 to blocks
      invariant start.Some? ==> start.value <= i
      invariant FreeRuns(bitmap, blocks, freeIsOne) == Scan(FreeBits(bitmap, freeIsOne), blocks, i, runs, start)
    {
      var isFree := BitSet(bitmap, i, fill) == freeIsOne;
      if isFree && start.None? {
        start := Some(i);
      } else if !isFree && start.Some? {
        runs := runs + [Run(start.value, i - start.value)];
        start := None;
      }
    }
    if start.Some? {
      runs := runs + [Run(start.value, blocks - start.value)];
    }
  }

  /** The runs are maximal and cover exactly the free bits. */
  lemma {:induction false} FreeRunsExact(bitmap: seq<Byte>, blocks: nat, freeIsOne: bool)
    ensures var runs := FreeRuns(bitmap, blocks, freeIsOne);
            && Maximal(runs) && EndsBy(runs, blocks)
            && forall b :: 0 <= b < blocks ==> (InRuns(runs, b) <==> FreeBit(bitmap, freeIsOne, b))
  {
    ScanExact(FreeBits(bitmap, freeIsOne), blocks, 0, [], None);
  }

  // ---------- the whole device ----------

  function ChunkIndex(s: Space, cib: nat, within: nat): nat {
    Saturated(cib * s.chunksPerCib) + within
  }

  function ChunkBase(s: Space, chunk: nat): nat {
    Saturated(chunk * s.blocksPerChunk)
  }

  function BlocksIn(s: Space, base: nat): nat
    requires base < s.blockCount
  {
    if s.blocksPerChunk < s.blockCount - base then s.blocksPerChunk else s.blockCount - base
  }

  /** The free runs of one chunk, appended. */
  function AddChunk(s: Space, runs: seq<Run>, base: nat, addr: nat): Result<seq<Run>>
    requires base < s.blockCount
  {
    var n := BlocksIn(s, base);
    if addr == 0 then Ok(Push(runs, base, n))
    else
      var bitmap :- s.bitmap(addr);
      Ok(PushAll(runs, base, FreeRuns(bitmap, n, false)))
  }

  /** The chunks of one chunk-info block from position w on; a chunk past the device ends the block. */
  function AddChunks(s: Space, cib: nat, infos: seq<nat>, w: nat, runs: seq<Run>): Result<seq<Run>>
    requires w <= |infos|
    decreases |infos| - w
  {
    if w == |infos| then Ok(runs) else
    var chunk := ChunkIndex(s, cib, w);
    if chunk >= s.chunkCount || ChunkBase(s, chunk) >= s.blockCount then Ok(runs) else
    var more :- AddChunk(s, runs, ChunkBase(s, chunk), infos[w]);
    AddChunks(s, cib, infos, w + 1, more)
  }

  function AddCibs(s: Space, cib: nat, runs: seq<Run>): Result<seq<Run>>
    requires cib <= s.cibCount
    decreases s.cibCount - cib
  {
    if cib == s.cibCount then Ok(runs) else
    var infos :- s.cib(cib);
    var more :- AddChunks(s, cib, infos, 0, runs);
    AddCibs(s, cib + 1, more)
  }

  /** `free_block_runs`. */
  function FreeBlockRuns(s: Space): Result<seq<Run>> {
    if s.blocksPerChunk == 0 || s.chunksPerCib == 0 then Err(FieldOutOfRange(GeometryField, 0, 1))
    else if s.cabCount != 0 then Err(UnsupportedSpacemanCab(s.cabCount))
    else AddCibs(s, 0, [])
  }

  method AppendChunk(s: Space, runs: seq<Run>, base: nat, addr: nat) returns (r: Result<seq<Run>>)
    requires base < s.blockCount
    ensures r == AddChunk(s, runs, base, addr)
  {
    var n := BlocksIn(s, base);
    if addr == 0 {
      return Ok(Push(runs, base, n));
    }
    var bitmap := s.bitmap(addr);
    if bitmap.Err? {
      return Err(bitmap.error);
    }
    var more := ScanFreeRuns(bitmap.value, n, false);
    var out := runs;
    for i := 0 to |more|
      invariant out == PushAll(runs, base, more[..i])
    {
      assert Init(more[..i + 1]) == more[..i];
      out := Push(out, base + more[i].first, more[i].len);
    }
    assert more[..|more|] == more;
    return Ok(out);
  }

  method AppendChunks(s: Space, cib: nat, infos: seq<nat>, before: seq<Run>) returns (r: Result<seq<Run>>)
    ensures r == AddChunks(s, cib, infos, 0, before)
  {
    var runs := before;
    var w := 0;
    while w < |infos|
      invariant 0 <= w <= |infos|
      invariant AddChunks(s, cib, infos, 0, before) == AddChunks(s, cib, infos, w, runs)
    {
      var chunk := ChunkIndex(s, cib, w);
      if chunk >= s.chunkCount {
        break;
      }
      var base := ChunkBase(s, chunk);
      if base >= s.blockCount {
        break;
      }
      var more := AppendChunk(s, runs, base, infos[w]);
      if more.Err? {
        return more;
      }
      runs := more.value;
      w := w + 1;
    }
    return Ok(runs);
  }

  method EnumerateFreeRuns(s: Space) returns (r: Result<seq<Run>>)
    ensures r == FreeBlockRuns(s)
  {
    if s.blocksPerChunk == 0 || s.chunksPerCib == 0 {
      return Err(FieldOutOfRange(GeometryField, 0, 1));
    }
    if s.cabCount != 0 {
      return Err(UnsupportedSpacemanCab(s.cabCount));
    }
    var runs: seq<Run> := [];
    for cib := 0 to s.cibCount
      invariant FreeBlockRuns(s) == AddCibs(s, cib, runs)
    {
      var infos := s.cib(cib);
      if infos.Err? {
        return Err(infos.error);
      }
      var more := AppendChunks(s, cib, infos.value, runs);
      if more.Err? {
        return more;
      }
      runs := more.value;
    }
    return Ok(runs);
  }

  // ---------- enumeration agrees with the predicate ----------

  /** Usable geometry within the field ranges of the on-disk structures. */
  predicate InRange(s: Space) {
    && s.blocksPerChunk > 0 && s.chunksPerCib > 0 && s.cabCount == 0
    && s.chunksPerCib < 0x1_0000_0000 && s.cibCount < 0x1_0000_0000 && s.blockCount < U64
  }

  /** Besides, no chunk-info block lists more chunks than the geometry gives it; the code does not look. */
  ghost predicate WellFormed(s: Space) {
    InRange(s) && forall i :: 0 <= i < s.cibCount && s.cib(i).Ok? ==> |s.cib(i).value| <= s.chunksPerCib
  }

  /** The blocks of the first k chunks (those below `base`) that the enumerator counts as free. */
  ghost predicate FoundBelow(s: Space, k: nat, base: nat, runs: seq<Run>)
    requires s.blocksPerChunk > 0
  {
    && Maximal(runs) && EndsBy(runs, base)
    && forall b: nat :: InRuns(runs, b) <==> b / s.blocksPerChunk < k && IsListedFree(s, b) == Ok(true)
  }

  /** Block j of a chunk with this bitmap address, as the enumerator sees it. */
  predicate FreeInChunk(s: Space, addr: nat, j: nat) {
    addr == 0 || (s.bitmap(addr).Ok? && FreeBit(s.bitmap(addr).value, false, j))
  }

  /** Chunk k, which is number `within` of chunk-info block `cib`, is listed and on the device. */
  ghost predicate OnDevice(s: Space, cib: nat, within: nat, k: nat, base: nat) {
    && cib < s.cibCount && s.cib(cib).Ok? && within < |s.cib(cib).value|
    && k < s.chunkCount && base < s.blockCount
  }

  /** What the enumerator counts, for a block of chunk k. */
  lemma {:induction false} ListedInChunk(s: Space, cib: nat, within: nat, k: nat, b: nat)
    requires s.blocksPerChunk > 0 && s.chunksPerCib > 0 && s.cabCount == 0
    requires b / s.blocksPerChunk == k && k / s.chunksPerCib == cib && k % s.chunksPerCib == within
    ensures IsListedFree(s, b) == Ok(true) <==>
              && b < s.blockCount && k < s.chunkCount && cib < s.cibCount
              && s.cib(cib).Ok? && within < |s.cib(cib).value|
              && FreeInChunk(s, s.cib(cib).value[within], b % s.blocksPerChunk)
  {
  }

  /** One chunk adds exactly its free blocks. */
  lemma {:induction false} AddChunkHas(s: Space, runs: seq<Run>, base: nat, addr: nat, b: nat)
    requires base < s.blockCount < U64 && AddChunk(s, runs, base, addr).Ok? && EndsBy(runs, U64 - 1)
    ensures EndsBy(AddChunk(s, runs, base, addr).value, U64 - 1)
    ensures InRuns(AddChunk(s, runs, base, addr).value, b) <==>
              InRuns(runs, b) || (base <= b < base + BlocksIn(s, base) && FreeInChunk(s, addr, b - base))
  {
    var n := BlocksIn(s, base);
    if addr == 0 {
      PushHas(runs, base, n, b);
      PushEnds(runs, base, n);
    } else {
      var more := FreeRuns(s.bitmap(addr).value, n, false);
      FreeRunsExact(s.bitmap(addr).value, n, false);
      PushAllHas(runs, base, more, n, b);
      if InRuns(more, b - base) {
        InBelow(more, n, b - base);
      }
    }
  }

  lemma {:induction false} AddChunkMaximal(s: Space, runs: seq<Run>, base: nat, addr: nat)
    requires base < s.blockCount < U64 && AddChunk(s, runs, base, addr).Ok? && Maximal(runs) && EndsBy(runs, base)
    ensures Maximal(AddChunk(s, runs, base, addr).value)
    ensures EndsBy(AddChunk(s, runs, base, addr).value, base + s.blocksPerChunk)
  {
    var n := BlocksIn(s, base);
    if addr == 0 {
      PushMaximal(runs, base, n);
    } else {
      FreeRunsExact(s.bitmap(addr).value, n, false);
      PushAllMaximal(runs, base, FreeRuns(s.bitmap(addr).value, n, false), n);
    }
  }

  /** A block after one more chunk: it is in the list exactly when it is counted and below the next chunk. */
  lemma {:induction false} AddChunkBlock(s: Space, cib: nat, within: nat, k: nat, base: nat, runs: seq<Run>, b: nat)
    requires s.blocksPerChunk > 0 && s.chunksPerCib > 0 && s.cabCount == 0 && s.blockCount < U64
    requires OnDevice(s, cib, within, k, base) && FoundBelow(s, k, base, runs)
    requires k / s.chunksPerCib == cib && k % s.chunksPerCib == within
    requires b / s.blocksPerChunk == k <==> base <= b < base + s.blocksPerChunk
    requires b / s.blocksPerChunk == k ==> b % s.blocksPerChunk == b - base
    requires AddChunk(s, runs, base, s.cib(cib).value[within]).Ok?
    ensures InRuns(AddChunk(s, runs, base, s.cib(cib).value[within]).value, b) <==>
              b / s.blocksPerChunk < k + 1 && IsListedFree(s, b) == Ok(true)
  {
    AddChunkHas(s, runs, base, s.cib(cib).value[within], b);
    if b / s.blocksPerChunk == k {
      ListedInChunk(s, cib, within, k, b);
    }
  }

  /** One chunk: what is found below chunk k grows to what is found below chunk k + 1. */
  lemma {:induction false} AddChunkFinds(s: Space, cib: nat, within: nat, k: nat, base: nat, runs: seq<Run>)
    requires WellFormed(s) && OnDevice(s, cib, within, k, base) && FoundBelow(s, k, base, runs)
    requires k / s.chunksPerCib == cib && k % s.chunksPerCib == within && base == k * s.blocksPerChunk
    requires AddChunk(s, runs, base, s.cib(cib).value[within]).Ok?
    ensures FoundBelow(s, k + 1, base + s.blocksPerChunk, AddChunk(s, runs, base, s.cib(cib).value[within]).value)
  {
    AddChunkMaximal(s, runs, base, s.cib(cib).value[within]);
    var more := AddChunk(s, runs, base, s.cib(cib).value[within]).value;
    forall b: nat ensures InRuns(more, b) <==> b / s.blocksPerChunk < k + 1 && IsListedFree(s, b) == Ok(true) {
      QuotientIs(b, k, s.blocksPerChunk);
      AddChunkBlock(s, cib, within, k, base, runs, b);
    }
  }

  /** Nothing is free in chunks k..k2-1, so what is found below k is what is found below k2. */
  lemma {:induction false} SkipChunks(s: Space, k: nat, base: nat, k2: nat, base2: nat, runs: seq<Run>)
    requires s.blocksPerChunk > 0 && FoundBelow(s, k, base, runs) && k <= k2 && base <= base2
    requires forall b: nat :: k <= b / s.blocksPerChunk < k2 ==> IsListedFree(s, b) != Ok(true)
    ensures FoundBelow(s, k2, base2, runs)
  {
  }

  /** The first chunk number past the blocks that `chunks` whole chunk-info blocks describe. */
  function FirstChunk(s: Space, cib: nat): nat {
    cib * s.chunksPerCib
  }

  lemma {:induction false} ChunkPlace(s: Space, cib: nat, w: nat)
    requires s.chunksPerCib > 0 && w < s.chunksPerCib
    ensures var k := FirstChunk(s, cib) + w;
            k / s.chunksPerCib == cib && k % s.chunksPerCib == w
  {
    QuotientIs(FirstChunk(s, cib) + w, cib, s.chunksPerCib);
  }

  /** No product saturates within the field ranges. */
  lemma {:induction false} NoSaturation(s: Space, cib: nat, w: nat)
    requires InRange(s) && cib < s.cibCount
    ensures ChunkIndex(s, cib, w) == FirstChunk(s, cib) + w
  {
    Product32(cib, s.chunksPerCib);
  }

  /** A chunk number of this chunk-info block that it does not list. */
  lemma {:induction false} Unlisted(s: Space, cib: nat, infos: seq<nat>, b: nat)
    requires WellFormed(s) && s.cib(cib) == Ok(infos)
    requires FirstChunk(s, cib) + |infos| <= b / s.blocksPerChunk < FirstChunk(s, cib) + s.chunksPerCib
    ensures IsListedFree(s, b) != Ok(true)
  {
    var k := b / s.blocksPerChunk;
    ChunkPlace(s, cib, k - FirstChunk(s, cib));
    ListedInChunk(s, cib, k - FirstChunk(s, cib), k, b);
  }

  /** A chunk that starts past the device, or past the chunk count. */
  lemma {:induction false} PastDevice(s: Space, k: nat, b: nat)
    requires WellFormed(s) && k <= b / s.blocksPerChunk && (k >= s.chunkCount || ChunkBase(s, k) >= s.blockCount)
    ensures IsListedFree(s, b) != Ok(true)
  {
    QuotientIs(b, k, s.blocksPerChunk);
  }

  lemma {:induction false} ProductGrows(j: nat, k: nat, n: nat)
    requires j <= k
    ensures j * n <= k * n && (j + 1) * n == j * n + n
  {
    if j < k {
      Apart(j, k, n);
    }
    Distribute(j, 1, n);
  }

  /** The walk over a chunk-info block stops here, and the chunks it leaves out hold nothing free. */
  lemma {:induction false} StopFinds(s: Space, cib: nat, infos: seq<nat>, k: nat, next: nat, runs: seq<Run>)
    requires WellFormed(s) && s.cib(cib) == Ok(infos) && next == FirstChunk(s, cib) + s.chunksPerCib && k <= next
    requires k == FirstChunk(s, cib) + |infos| || k >= s.chunkCount || ChunkBase(s, k) >= s.blockCount
    requires FoundBelow(s, k, k * s.blocksPerChunk, runs)
    ensures FoundBelow(s, next, next * s.blocksPerChunk, runs)
  {
    forall b: nat | k <= b / s.blocksPerChunk < next ensures IsListedFree(s, b) != Ok(true) {
      if k == FirstChunk(s, cib) + |infos| {
        Unlisted(s, cib, infos, b);
      } else {
        PastDevice(s, k, b);
      }
    }
    ProductGrows(k, next, s.blocksPerChunk);
    SkipChunks(s, k, k * s.blocksPerChunk, next, next * s.blocksPerChunk, runs);
  }

  lemma {:induction false} AddChunksFind(s: Space, cib: nat, infos: seq<nat>, w: nat, k: nat, next: nat, runs: seq<Run>)
    requires WellFormed(s) && cib < s.cibCount && s.cib(cib) == Ok(infos) && w <= |infos|
    requires k == FirstChunk(s, cib) + w && next == FirstChunk(s, cib) + s.chunksPerCib
    requires FoundBelow(s, k, k * s.blocksPerChunk, runs) && AddChunks(s, cib, infos, w, runs).Ok?
    ensures FoundBelow(s, next, next * s.blocksPerChunk, AddChunks(s, cib, infos, w, runs).value)
    decreases |infos| - w
  {
    assert |infos| <= s.chunksPerCib;
    NoSaturation(s, cib, w);
    if w == |infos| || k >= s.chunkCount || ChunkBase(s, k) >= s.blockCount {
      StopFinds(s, cib, infos, k, next, runs);
    } else {
      var base := ChunkBase(s, k);
      ChunkPlace(s, cib, w);
      AddChunkFinds(s, cib, w, k, base, runs);
      Distribute(k, 1, s.blocksPerChunk);
      AddChunksFind(s, cib, infos, w + 1, k + 1, next, AddChunk(s, runs, base, infos[w]).value);
    }
  }

  lemma {:induction false} AddCibsFind(s: Space, cib: nat, runs: seq<Run>)
    requires WellFormed(s) && cib <= s.cibCount && AddCibs(s, cib, runs).Ok?
    requires FoundBelow(s, FirstChunk(s, cib), FirstChunk(s, cib) * s.blocksPerChunk, runs)
    ensures var end := FirstChunk(s, s.cibCount);
            FoundBelow(s, end, end * s.blocksPerChunk, AddCibs(s, cib, runs).value)
    decreases s.cibCount - cib
  {
    if cib < s.cibCount {
      var infos := s.cib(cib).value;
      AddChunksFind(s, cib, infos, 0, FirstChunk(s, cib), FirstChunk(s, cib) + s.chunksPerCib, runs);
      Distribute(cib, 1, s.chunksPerCib);
      AddCibsFind(s, cib + 1, AddChunks(s, cib, infos, 0, runs).value);
    }
  }

  /**
   Whenever the enumeration succeeds on well-formed geometry its runs are
   ascending, disjoint and maximal across chunk and chunk-info-block
   boundaries, and a block is in a run exactly when the per-block reading
   counts it as free.
   */
  lemma {:induction false} EnumerationExact(s: Space)
    requires WellFormed(s) && FreeBlockRuns(s).Ok?
    ensures Maximal(FreeBlockRuns(s).value) && EndsBy(FreeBlockRuns(s).value, s.blockCount)
    ensures forall b: nat :: InRuns(FreeBlockRuns(s).value, b) <==> IsListedFree(s, b) == Ok(true)
  {
    var runs := FreeBlockRuns(s).value;
    EnumerationFinds(s);
    forall b: nat ensures InRuns(runs, b) <==> IsListedFree(s, b) == Ok(true) {
      PastCibs(s, b);
    }
    if runs != [] {
      assert InRuns(runs, Last(runs).End() - 1);
    }
  }

  lemma {:induction false} EnumerationFinds(s: Space)
    requires WellFormed(s) && FreeBlockRuns(s).Ok?
    ensures var end := FirstChunk(s, s.cibCount);
            FoundBelow(s, end, end * s.blocksPerChunk, FreeBlockRuns(s).value)
  {
    var runs: seq<Run> := [];
    FoundNothing(s, 0, runs);
    AddCibsFind(s, 0, runs);
  }

  lemma {:induction false} FoundNothing(s: Space, cib: nat, runs: seq<Run>)
    requires WellFormed(s) && cib == 0 && runs == []
    ensures FoundBelow(s, FirstChunk(s, cib), FirstChunk(s, cib) * s.blocksPerChunk, runs)
  {
    forall b: nat ensures !(b / s.blocksPerChunk < FirstChunk(s, cib)) {
      QuotientIs(b, 0, s.blocksPerChunk);
    }
    forall b: nat ensures !InRuns(runs, b) {
    }
  }

  /** The chunk is on the device and its listed bitmap address is one the enumeration must read. */
  predicate NeedsBitmap(s: Space, cib: nat, infos: seq<nat>, w: nat)
    requires w < |infos|
  {
    var k := ChunkIndex(s, cib, w);
    k < s.chunkCount && ChunkBase(s, k) < s.blockCount && infos[w] != 0
  }

  /** A chunk-info block can be read, and so can the bitmap of every chunk of it that is on the device. */
  ghost predicate ListReadable(s: Space, cib: nat) {
    s.cib(cib).Ok? && forall w: nat :: w < |s.cib(cib).value| && NeedsBitmap(s, cib, s.cib(cib).value, w) ==>
      s.bitmap(s.cib(cib).value[w]).Ok?
  }

  /** Past the first chunk off the device there is none on it. */
  lemma {:induction false} OffDeviceStays(s: Space, cib: nat, w: nat, v: nat)
    requires w <= v && !(ChunkIndex(s, cib, w) < s.chunkCount && ChunkBase(s, ChunkIndex(s, cib, w)) < s.blockCount)
    ensures !(ChunkIndex(s, cib, v) < s.chunkCount && ChunkBase(s, ChunkIndex(s, cib, v)) < s.blockCount)
  {
    ProductGrows(ChunkIndex(s, cib, w), ChunkIndex(s, cib, v), s.blocksPerChunk);
  }

  lemma {:induction false} ChunksSucceed(s: Space, cib: nat, infos: seq<nat>, w: nat, runs: seq<Run>)
    requires w <= |infos|
    ensures AddChunks(s, cib, infos, w, runs).Ok? <==>
              forall v: nat :: w <= v < |infos| && NeedsBitmap(s, cib, infos, v) ==> s.bitmap(infos[v]).Ok?
    decreases |infos| - w
  {
    if w < |infos| {
      var chunk := ChunkIndex(s, cib, w);
      if chunk < s.chunkCount && ChunkBase(s, chunk) < s.blockCount {
        var more := AddChunk(s, runs, ChunkBase(s, chunk), infos[w]);
        assert NeedsBitmap(s, cib, infos, w) <==> infos[w] != 0;
        if more.Ok? {
          ChunksSucceed(s, cib, infos, w + 1, more.value);
        }
      } else {
        forall v: nat | w <= v < |infos| ensures !NeedsBitmap(s, cib, infos, v) {
          OffDeviceStays(s, cib, w, v);
        }
      }
    }
  }

  lemma {:induction false} CibsSucceed(s: Space, cib: nat, runs: seq<Run>)
    requires cib <= s.cibCount
    ensures AddCibs(s, cib, runs).Ok? <==> forall c: nat :: cib <= c < s.cibCount ==> ListReadable(s, c)
    decreases s.cibCount - cib
  {
    if cib < s.cibCount {
      if s.cib(cib).Ok? {
        ChunksSucceed(s, cib, s.cib(cib).value, 0, runs);
        var more := AddChunks(s, cib, s.cib(cib).value, 0, runs);
        assert more.Ok? <==> ListReadable(s, cib);
        if more.Ok? {
          CibsSucceed(s, cib + 1, more.value);
        }
      } else {
        assert !ListReadable(s, cib);
      }
    }
  }

  /**
   The enumeration succeeds exactly when the geometry is usable and every
   chunk-info block, and every bitmap listed for a chunk on the device, can be
   read.
   */
  lemma {:induction false} EnumerationSucceeds(s: Space)
    ensures FreeBlockRuns(s).Ok? <==>
              && s.blocksPerChunk > 0 && s.chunksPerCib > 0 && s.cabCount == 0
              && forall cib: nat :: cib < s.cibCount ==> ListReadable(s, cib)
  {
    var runs: seq<Run> := [];
    CibsSucceed(s, 0, runs);
  }

  /** Every block counted as free is described by some chunk-info block. */
  lemma {:induction false} PastCibs(s: Space, b: nat)
    requires WellFormed(s)
    ensures IsListedFree(s, b) == Ok(true) ==> b / s.blocksPerChunk < FirstChunk(s, s.cibCount) && b < s.blockCount
  {
    QuotientIs(b / s.blocksPerChunk, s.cibCount, s.chunksPerCib);
  }

  /** The run lengths add up to the number of free blocks. */
  lemma {:induction false} EnumerationCounts(s: Space)
    requires WellFormed(s) && FreeBlockRuns(s).Ok?
    ensures TotalLen(FreeBlockRuns(s).value) == |set b: nat | b < s.blockCount && IsListedFree(s, b) == Ok(true)|
  {
    EnumerationExact(s);
    var runs := FreeBlockRuns(s).value;
    LengthsCount(runs, s.blockCount);
    var free := set b: nat | b < s.blockCount && IsListedFree(s, b) == Ok(true);
    assert Blocks(runs, s.blockCount) == set b: int | b in free;
    SameSize(free, Blocks(runs, s.blockCount));
  }

  lemma {:induction false} SameSize(a: set<nat>, b: set<int>)
    requires b == set x: int | x in a
    ensures |a| == |b|
    decreases a
  {
    if a != {} {
      var x :| x in a;
      var a', b' := a - {x}, b - {x as int};
      assert b' == set y: int | y in a';
      SameSize(a', b');
    }
  }

  // ---------- where the two readings part ----------

  /** The chunk's bitmap block is too short to hold the block's bit. */
  predicate Blind(s: Space, b: nat) {
    && s.blocksPerChunk > 0 && ChunkOf(s, b).Ok? && ChunkOf(s, b).value != 0
    && s.bitmap(ChunkOf(s, b).value).Ok?
    && (b % s.blocksPerChunk) / 8 >= |s.bitmap(ChunkOf(s, b).value).value|
  }

  lemma {:induction false} MissingBytes(k: nat)
    requires k < 8
    ensures !BitOf(0, k) && BitOf(255, k)
  {
    assert Pow2(0) == 1 && Pow2(1) == 2 && Pow2(2) == 4 && Pow2(3) == 8;
    assert Pow2(4) == 2 * Pow2(3) && Pow2(5) == 2 * Pow2(4) && Pow2(6) == 2 * Pow2(5) && Pow2(7) == 2 * Pow2(6);
  }

  /** The predicate and the enumerator disagree on exactly the blind blocks, which only the predicate calls free. */
  lemma {:induction false} ReadingsDiffer(s: Space, b: nat)
    ensures IsListedFree(s, b) == Ok(true) <==> IsBlockFree(s, b) == Ok(true) && !Blind(s, b)
    ensures Blind(s, b) ==> IsBlockFree(s, b) == Ok(true)
  {
    if s.blocksPerChunk > 0 {
      MissingBytes((b % s.blocksPerChunk) % 8);
    }
  }

  /** Enumeration and predicate agree on every block if and only if no block is blind. */
  lemma {:induction false} EnumerationAgrees(s: Space)
    requires WellFormed(s) && FreeBlockRuns(s).Ok?
    ensures (forall b: nat :: InRuns(FreeBlockRuns(s).value, b) <==> IsBlockFree(s, b) == Ok(true)) <==>
            (forall b: nat :: !Blind(s, b))
  {
    EnumerationExact(s);
    forall b: nat
      ensures (InRuns(FreeBlockRuns(s).value, b) <==> IsBlockFree(s, b) == Ok(true)) <==> !Blind(s, b)
    {
      ReadingsDiffer(s, b);
    }
  }

  /** No block is blind when a chunk has at most 8 blocks per bitmap byte, as the format prescribes. */
  lemma {:induction false} StandardBitmapsSuffice(s: Space, bs: nat)
    requires s.blocksPerChunk <= 8 * bs && forall addr :: s.bitmap(addr).Ok? ==> |s.bitmap(addr).value| == bs
    ensures forall b: nat :: !Blind(s, b)
  {
  }

  /** The field widths of an on-disk space manager give the ranges, and a bitmap is one block. */
  lemma {:induction false} ImageRanges(img: seq<Byte>, bs: nat, paddr: nat)
    requires SpaceAt(img, bs, paddr).Ok?
    ensures var s := SpaceAt(img, bs, paddr).value;
            && s.chunksPerCib < 0x1_0000_0000 && s.cibCount < 0x1_0000_0000 && s.blockCount < U64
            && forall addr :: s.bitmap(addr).Ok? ==> |s.bitmap(addr).value| == bs
  {
    var sm := ReadObject(img, bs, paddr).value;
    Pow256Values();
    LeAtBound(sm, 40, 4);
    LeAtBound(sm, 48, 8);
    LeAtBound(sm, 64, 4);
  }

  /** On an image: standard geometry makes the enumeration and the per-block predicate agree, block by block and in number. */
  lemma {:induction false} ImageAgrees(img: seq<Byte>, bs: nat, paddr: nat)
    requires SpaceAt(img, bs, paddr).Ok? && FreeBlockRuns(SpaceAt(img, bs, paddr).value).Ok?
    requires var s := SpaceAt(img, bs, paddr).value;
             s.blocksPerChunk <= 8 * bs &&
             forall i :: 0 <= i < s.cibCount && s.cib(i).Ok? ==> |s.cib(i).value| <= s.chunksPerCib
    ensures var s := SpaceAt(img, bs, paddr).value;
            && Maximal(FreeBlockRuns(s).value)
            && (forall b: nat :: InRuns(FreeBlockRuns(s).value, b) <==> IsBlockFree(s, b) == Ok(true))
            && TotalLen(FreeBlockRuns(s).value) == |set b: nat | b < s.blockCount && IsBlockFree(s, b) == Ok(true)|
  {
    var s := SpaceAt(img, bs, paddr).value;
    ImageRanges(img, bs, paddr);
    EnumerationExact(s);
    StandardBitmapsSuffice(s, bs);
    EnumerationAgrees(s);
    EnumerationCounts(s);
    assert (set b: nat | b < s.blockCount && IsListedFree(s, b) == Ok(true)) ==
           (set b: nat | b < s.blockCount && IsBlockFree(s, b) == Ok(true));
  }
}
