/** Allocation bitmaps written bit by bit, and a device laid out from them (core/src/spaceman.rs). */
module Bitmaps {
  import opened Results
  import opened Bytes
  import opened Arith
  import opened Runs
  import opened Spaceman
  import opened Printers
  import opened Disk

  // ---------- packing ----------

  function Bit(b: bool): nat {
    if b then 1 else 0
  }

  /** Eight blocks in a byte, the first in the lowest bit. */
  function PackByte(b: seq<bool>): Byte
    requires |b| == 8
  {
    Bit(b[0]) + 2 * Bit(b[1]) + 4 * Bit(b[2]) + 8 * Bit(b[3]) + 16 * Bit(b[4]) + 32 * Bit(b[5]) + 64 * Bit(b[6]) + 128 * Bit(b[7])
  }

  /** The bitmap of these blocks; a true bit is an allocated block. */
  function Pack(bits: seq<bool>): (bitmap: seq<Byte>)
    requires |bits| % 8 == 0
    ensures |bitmap| == |bits| / 8
  {
    seq(|bits| / 8, i requires 0 <= i < |bits| / 8 => PackByte(bits[8 * i..8 * i + 8]))
  }

  lemma {:induction false} LowBits(b: seq<bool>)
    requires |b| == 8
    ensures var x := PackByte(b);
            (x / 1) % 2 == Bit(b[0]) && (x / 2) % 2 == Bit(b[1]) && (x / 4) % 2 == Bit(b[2]) && (x / 8) % 2 == Bit(b[3])
  {
    var x := PackByte(b);
    var high := Bit(b[4]) + 2 * Bit(b[5]) + 4 * Bit(b[6]) + 8 * Bit(b[7]);
    DigitAt(x, 8, Bit(b[0]) + 2 * Bit(b[1]) + 4 * Bit(b[2]), Bit(b[3]), high);
    DigitAt(x, 4, Bit(b[0]) + 2 * Bit(b[1]), Bit(b[2]), Bit(b[3]) + 2 * high);
    DigitAt(x, 2, Bit(b[0]), Bit(b[1]), Bit(b[2]) + 2 * (Bit(b[3]) + 2 * high));
    DigitAt(x, 1, 0, Bit(b[0]), Bit(b[1]) + 2 * (Bit(b[2]) + 2 * (Bit(b[3]) + 2 * high)));
  }

  lemma {:induction false} HighBits(b: seq<bool>)
    requires |b| == 8
    ensures var x := PackByte(b);
            (x / 16) % 2 == Bit(b[4]) && (x / 32) % 2 == Bit(b[5]) && (x / 64) % 2 == Bit(b[6]) && (x / 128) % 2 == Bit(b[7])
  {
    var x := PackByte(b);
    var low := Bit(b[0]) + 2 * Bit(b[1]) + 4 * Bit(b[2]) + 8 * Bit(b[3]);
    DigitAt(x, 16, low, Bit(b[4]), Bit(b[5]) + 2 * Bit(b[6]) + 4 * Bit(b[7]));
    DigitAt(x, 32, low + 16 * Bit(b[4]), Bit(b[5]), Bit(b[6]) + 2 * Bit(b[7]));
    DigitAt(x, 64, low + 16 * Bit(b[4]) + 32 * Bit(b[5]), Bit(b[6]), Bit(b[7]));
    DigitAt(x, 128, low + 16 * Bit(b[4]) + 32 * Bit(b[5]) + 64 * Bit(b[6]), Bit(b[7]), 0);
  }

  lemma {:induction false} ByteBit(b: seq<bool>, k: nat)
    requires |b| == 8 && k < 8
    ensures BitOf(PackByte(b), k) == b[k]
  {
    assert Pow2(0) == 1 && Pow2(1) == 2 && Pow2(2) == 4 && Pow2(3) == 8;
    assert Pow2(4) == 2 * Pow2(3) && Pow2(5) == 2 * Pow2(4) && Pow2(6) == 2 * Pow2(5) && Pow2(7) == 2 * Pow2(6);
    LowBits(b);
    HighBits(b);
  }

  lemma {:induction false} PackedBit(bits: seq<bool>, i: nat, missing: Byte)
    requires |bits| % 8 == 0 && i < |bits|
    ensures BitSet(Pack(bits), i, missing) == bits[i]
  {
    var q, k := i / 8, i % 8;
    ByteBit(bits[8 * q..8 * q + 8], k);
    assert bits[8 * q..8 * q + 8][k] == bits[i];
  }

  /** The runs of a packed bitmap are the maximal runs of its blocks with the wanted value. */
  lemma {:induction false} PackedRuns(bits: seq<bool>, blocks: nat, freeIsOne: bool)
    requires |bits| % 8 == 0 && blocks <= |bits|
    ensures var runs := FreeRuns(Pack(bits), blocks, freeIsOne);
            && Maximal(runs) && EndsBy(runs, blocks)
            && forall i :: 0 <= i < blocks ==> (InRuns(runs, i) <==> bits[i] == freeIsOne)
  {
    FreeRunsExact(Pack(bits), blocks, freeIsOne);
    forall i | 0 <= i < blocks ensures InRuns(FreeRuns(Pack(bits), blocks, freeIsOne), i) <==> bits[i] == freeIsOne {
      PackedBit(bits, i, if freeIsOne then 0 else 255);
    }
  }

  /** The per-block predicate answers with the block's own bit, and the enumerator's reading is the same. */
  lemma {:induction false} PackedBlock(s: Space, block: nat, addr: nat, bits: seq<bool>)
    requires s.blocksPerChunk > 0 && ChunkOf(s, block) == Ok(addr) && addr != 0
    requires |bits| % 8 == 0 && block % s.blocksPerChunk < |bits| && s.bitmap(addr) == Ok(Pack(bits))
    ensures IsBlockFree(s, block) == IsListedFree(s, block) == Ok(!bits[block % s.blocksPerChunk])
  {
    PackedBit(bits, block % s.blocksPerChunk, 0);
    PackedBit(bits, block % s.blocksPerChunk, 255);
  }

  // ---------- a whole device ----------

  /** A device of n blocks in standard chunks, whose allocation is given chunk by chunk. */
  predicate Device(bs: nat, n: nat, chunks: seq<seq<bool>>) {
    && 96 <= bs <= 0x1_0000 && 0 < |chunks| && 40 + 32 * |chunks| <= bs && n <= |chunks| * (8 * bs)
    && forall k :: 0 <= k < |chunks| ==> |chunks[k]| == 8 * bs
  }

  function BitmapAddresses(m: nat): (list: seq<nat>)
    ensures |list| == m
  {
    seq(m, (k: nat) => 2 + k)
  }

  /** The space manager, its one chunk-info block, then the bitmaps. */
  function DeviceSpecs(bs: nat, n: nat, chunks: seq<seq<bool>>): (specs: seq<Spec>)
    requires Device(bs, n, chunks)
    ensures |specs| == 2 + |chunks|
  {
    [SpacemanSpec(Geometry(8 * bs, |chunks|, n, |chunks|, 1, 0, 88), [1]), CibSpec(BitmapAddresses(|chunks|))] +
    seq(|chunks|, k requires 0 <= k < |chunks| => RawSpec(Pack(chunks[k])))
  }

  /** Whether block b of the device is allocated. */
  predicate Allocated(bs: nat, n: nat, chunks: seq<seq<bool>>, b: nat)
    requires Device(bs, n, chunks) && b < n
  {
    QuotientIs(b, |chunks|, 8 * bs);
    chunks[b / (8 * bs)][b % (8 * bs)]
  }

  /** The space manager of such a device. */
  ghost predicate HoldsDevice(s: Space, bs: nat, n: nat, chunks: seq<seq<bool>>) {
    && Device(bs, n, chunks)
    && s.blocksPerChunk == 8 * bs && s.chunksPerCib == |chunks| && s.blockCount == n && s.chunkCount == |chunks|
    && s.cibCount == 1 && s.cabCount == 0 && s.cib(0) == Ok(BitmapAddresses(|chunks|))
    && forall k :: 0 <= k < |chunks| ==> s.bitmap(2 + k) == Ok(Pack(chunks[k]))
  }

  lemma {:induction false} DeviceFits(bs: nat, n: nat, chunks: seq<seq<bool>>)
    requires Device(bs, n, chunks)
    ensures AllFit(DeviceSpecs(bs, n, chunks), bs)
  {
    var specs, m := DeviceSpecs(bs, n, chunks), |chunks|;
    FewBlocks(m, bs, n);
    forall i | 0 <= i < |specs| ensures SpecFits(specs[i], bs) {
      if i >= 2 {
        assert specs[i] == RawSpec(Pack(chunks[i - 2]));
      }
    }
  }

  lemma {:induction false} FewBlocks(m: nat, bs: nat, n: nat)
    requires 40 + 32 * m <= bs <= 0x1_0000 && n <= m * (8 * bs)
    ensures n < U64 && (2 + m) * bs < U64
  {
    Product32(m, 8 * bs);
    Product32(2 + m, bs);
  }

  /** A space manager, its one chunk-info block, and raw blocks, in this order. */
  ghost predicate OneList(specs: seq<Spec>, g: Geometry, list: seq<nat>, raws: seq<seq<Byte>>) {
    && |specs| == 2 + |raws| && specs[0] == SpacemanSpec(g, [1]) && specs[1] == CibSpec(list)
    && forall k :: 0 <= k < |raws| ==> specs[2 + k] == RawSpec(raws[k])
  }

  lemma {:induction false} RawAt(specs: seq<Spec>, bs: nat, a: nat, raw: seq<Byte>)
    requires AllFit(specs, bs) && a < |specs| && specs[a] == RawSpec(raw)
    ensures BlockOf(specs[a], bs) == raw
  {
  }

  lemma {:induction false} OneListSpace(specs: seq<Spec>, bs: nat, g: Geometry, list: seq<nat>, raws: seq<seq<Byte>>) returns (s: Space)
    requires AllFit(specs, bs) && |specs| * bs < U64 && OneList(specs, g, list, raws)
    ensures Spaceman.SpaceAt(DiskOf(specs, bs), bs, 0) == Ok(s) && Matches(s, g, [list]) && s.cib(0) == Ok(list)
    ensures forall k: nat :: k < |raws| ==> s.bitmap(2 + k) == Ok(raws[k])
  {
    s := Disk.SpaceAt(specs, bs, 0, [list]);
    assert s.cib(0) == Ok([list][0]);
    forall k: nat | k < |raws| ensures s.bitmap(2 + k) == Ok(raws[k]) {
      RawAt(specs, bs, 2 + k, raws[k]);
    }
  }

  function Packed(bs: nat, n: nat, chunks: seq<seq<bool>>): (raws: seq<seq<Byte>>)
    requires Device(bs, n, chunks)
    ensures |raws| == |chunks| && forall k :: 0 <= k < |chunks| ==> raws[k] == Pack(chunks[k])
  {
    seq(|chunks|, k requires 0 <= k < |chunks| => Pack(chunks[k]))
  }

  lemma {:induction false} DeviceLaid(bs: nat, n: nat, chunks: seq<seq<bool>>)
    requires Device(bs, n, chunks)
    ensures OneList(DeviceSpecs(bs, n, chunks), Geometry(8 * bs, |chunks|, n, |chunks|, 1, 0, 88), BitmapAddresses(|chunks|),
                    Packed(bs, n, chunks))
  {
  }

  lemma {:induction false} DeviceSpace(bs: nat, n: nat, chunks: seq<seq<bool>>, specs: seq<Spec>) returns (s: Space)
    requires Device(bs, n, chunks) && specs == DeviceSpecs(bs, n, chunks)
    ensures AllFit(specs, bs) && Spaceman.SpaceAt(DiskOf(specs, bs), bs, 0) == Ok(s) && HoldsDevice(s, bs, n, chunks)
  {
    var g, list := Geometry(8 * bs, |chunks|, n, |chunks|, 1, 0, 88), BitmapAddresses(|chunks|);
    DeviceFits(bs, n, chunks);
    FewBlocks(|chunks|, bs, n);
    DeviceLaid(bs, n, chunks);
    s := OneListSpace(specs, bs, g, list, Packed(bs, n, chunks));
    DeviceHeld(s, g, list, bs, n, chunks);
  }

  lemma {:induction false} DeviceHeld(s: Space, g: Geometry, list: seq<nat>, bs: nat, n: nat, chunks: seq<seq<bool>>)
    requires Device(bs, n, chunks) && g == Geometry(8 * bs, |chunks|, n, |chunks|, 1, 0, 88) && list == BitmapAddresses(|chunks|)
    requires Matches(s, g, [list]) && s.cib(0) == Ok(list) && forall k: nat :: k < |chunks| ==> s.bitmap(2 + k) == Ok(Pack(chunks[k]))
    ensures HoldsDevice(s, bs, n, chunks)
  {
  }

  lemma {:induction false} ChunkFound(s: Space, b: nat, k: nat, cib: nat, w: nat)
    requires s.blocksPerChunk > 0 && s.chunksPerCib > 0 && s.cabCount == 0 && b < s.blockCount
    requires b / s.blocksPerChunk == k < s.chunkCount && k / s.chunksPerCib == cib < s.cibCount && k % s.chunksPerCib == w
    requires s.cib(cib).Ok? && w < |s.cib(cib).value|
    ensures ChunkOf(s, b) == Ok(s.cib(cib).value[w])
  {
  }

  lemma {:induction false} InFirstList(b: nat, n: nat, m: nat, size: nat)
    requires m > 0 && size > 0 && b < n <= m * size
    ensures b / size < m && (b / size) / m == 0 && (b / size) % m == b / size
  {
    QuotientIs(b, m, size);
    QuotientIs(b / size, 0, m);
  }

  lemma {:induction false} DeviceChunk(s: Space, bs: nat, n: nat, chunks: seq<seq<bool>>, b: nat)
    requires HoldsDevice(s, bs, n, chunks) && b < n
    ensures b / (8 * bs) < |chunks| && ChunkOf(s, b) == Ok(2 + b / (8 * bs))
  {
    var k := b / (8 * bs);
    InFirstList(b, n, |chunks|, 8 * bs);
    ChunkFound(s, b, k, 0, k);
  }

  lemma {:induction false} DeviceBlock(s: Space, bs: nat, n: nat, chunks: seq<seq<bool>>, b: nat)
    requires HoldsDevice(s, bs, n, chunks) && b < n
    ensures IsBlockFree(s, b) == IsListedFree(s, b) == Ok(!Allocated(bs, n, chunks, b))
  {
    DeviceChunk(s, bs, n, chunks, b);
    var k := b / (8 * bs);
    Quotient(b, 8 * bs);
    PackedBlock(s, b, 2 + k, chunks[k]);
  }

  lemma {:induction false} DeviceEnumerates(s: Space, bs: nat, n: nat, chunks: seq<seq<bool>>)
    requires HoldsDevice(s, bs, n, chunks)
    ensures WellFormed(s) && FreeBlockRuns(s).Ok?
  {
    FewBlocks(|chunks|, bs, n);
    forall cib: nat | cib < s.cibCount ensures ListReadable(s, cib) {
      assert cib == 0;
      forall w: nat | w < |chunks| ensures s.bitmap(s.cib(0).value[w]).Ok? {
        assert s.bitmap(2 + w) == Ok(Pack(chunks[w]));
      }
    }
    EnumerationSucceeds(s);
  }

  /**
   Any allocation of any number of blocks, written as the format says on an image
   of any block size: the predicate answers for every block with its own bit, and
   the enumeration is the maximal ascending list of exactly the free blocks.
   */
  lemma {:induction false} DeviceRoundTrip(bs: nat, n: nat, chunks: seq<seq<bool>>)
    requires Device(bs, n, chunks)
    ensures AllFit(DeviceSpecs(bs, n, chunks), bs)
    ensures var space := Spaceman.SpaceAt(DiskOf(DeviceSpecs(bs, n, chunks), bs), bs, 0);
            && space.Ok? && FreeBlockRuns(space.value).Ok? && Maximal(FreeBlockRuns(space.value).value)
            && (forall b: nat :: b < n ==> IsBlockFree(space.value, b) == Ok(!Allocated(bs, n, chunks, b)))
            && (forall b: nat :: InRuns(FreeBlockRuns(space.value).value, b) <==> b < n && !Allocated(bs, n, chunks, b))
  {
    var s := DeviceSpace(bs, n, chunks, DeviceSpecs(bs, n, chunks));
    DeviceEnumerates(s, bs, n, chunks);
    EnumerationExact(s);
    forall b: nat
      ensures b < n ==> IsBlockFree(s, b) == Ok(!Allocated(bs, n, chunks, b))
      ensures InRuns(FreeBlockRuns(s).value, b) <==> b < n && !Allocated(bs, n, chunks, b)
    {
      if b < n {
        DeviceBlock(s, bs, n, chunks, b);
      }
    }
  }
}
