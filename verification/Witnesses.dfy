/** Images that show where the reader parts from what one would expect, and that the run theorems have runs. */
module Witnesses {
  import opened Results
  import opened Bytes
  import opened BTree
  import Node = BTreeNode
  import opened Image
  import opened Printers
  import opened Disk
  import opened Arith
  import Omap
  import FsTree
  import SnapTree
  import Snapshot
  import Runs
  import Spaceman

  lemma {:induction false} OneEntryFits(e: Entry, bs: nat)
    requires 64 + |e.key| + |e.value| <= bs <= 0x1_0000
    ensures Fits([e], bs)
  {
    var es, none: seq<Entry> := [e], [];
    assert es[1..] == none;
    assert Node.KeysLen(es) == |e.key| + Node.KeysLen(none) && Node.ValsLen(es) == |e.value| + Node.ValsLen(none);
  }

  lemma {:induction false} TwoEntriesFit(d: Entry, e: Entry, bs: nat)
    requires 72 + |d.key| + |d.value| + |e.key| + |e.value| <= bs <= 0x1_0000
    ensures Fits([d, e], bs)
  {
    var es, last, none: seq<Entry> := [d, e], [e], [];
    assert es[1..] == last && last[1..] == none;
    assert Node.KeysLen(last) == |e.key| + Node.KeysLen(none) && Node.ValsLen(last) == |e.value| + Node.ValsLen(none);
    assert Node.KeysLen(es) == |d.key| + Node.KeysLen(last) && Node.ValsLen(es) == |d.value| + Node.ValsLen(last);
  }

  // ---------- a separator that is only a lower bound ----------

  /** Two leaves of one object under a root whose second separator is below the second leaf's key. */
  function LowSeparatorNodes(oid: nat, x1: nat, sep: nat, x2: nat, v: seq<Byte>): seq<Spec> {
    [NodeSpec([], 0),
     NodeSpec([Entry(Omap.MapKey(oid, x1), LeBytes(2, 8)), Entry(Omap.MapKey(oid, sep), LeBytes(3, 8))], 1),
     NodeSpec([Entry(Omap.MapKey(oid, x1), v)], 0),
     NodeSpec([Entry(Omap.MapKey(oid, x2), v)], 0)]
  }

  lemma {:induction false} LowSeparatorNodesFit(bs: nat, oid: nat, x1: nat, sep: nat, x2: nat, v: seq<Byte>)
    requires 256 <= bs <= 0x1_0000 && |v| == 16
    ensures AllFit(LowSeparatorNodes(oid, x1, sep, x2, v), bs)
  {
    TwoEntriesFit(Entry(Omap.MapKey(oid, x1), LeBytes(2, 8)), Entry(Omap.MapKey(oid, sep), LeBytes(3, 8)), bs);
    OneEntryFits(Entry(Omap.MapKey(oid, x1), v), bs);
    OneEntryFits(Entry(Omap.MapKey(oid, x2), v), bs);
    assert Node.KeysLen([]) == 0 && Node.ValsLen([]) == 0;
  }

  /** The fetch-level family of lost mappings, on images. */
  lemma {:induction false} LowSeparatorImageLoses(bs: nat, oid: nat, x1: nat, sep: nat, xid: nat, x2: nat, v: seq<Byte>)
    requires 256 <= bs <= 0x1_0000 && |v| == 16 && oid < U64 && x1 < sep <= xid < x2 < U64
    ensures AllFit(LowSeparatorNodes(oid, x1, sep, x2, v), bs)
    ensures var fetch := Physical(DiskOf(LowSeparatorNodes(oid, x1, sep, x2, v), bs), bs, Node.Omap);
            var full := Visit(fetch, ALL, 1, 0, {});
            && Omap.Resolved(fetch, 1, oid, xid) == Err(OmapUnresolved(oid, xid))
            && full.result.Ok? && Omap.Sorted(full.out) && Omap.HasCandidate(full.out, oid, xid)
  {
    var nodes := LowSeparatorNodes(oid, x1, sep, x2, v);
    LowSeparatorNodesFit(bs, oid, x1, sep, x2, v);
    NodeAt(nodes, bs, 1, Node.Omap);
    NodeAt(nodes, bs, 2, Node.Omap);
    NodeAt(nodes, bs, 3, Node.Omap);
    Omap.LowSeparatorLoses(Physical(DiskOf(nodes, bs), bs, Node.Omap), oid, x1, sep, xid, x2, v, v);
  }

  // ---------- chunks longer than their bitmaps ----------

  /** A device of one chunk with 8 blocks more than its bitmap block has bits, all of which are set. */
  function LongChunkSpecs(bs: nat): seq<Spec> {
    [SpacemanSpec(Geometry(8 * bs + 8, 1, 8 * bs + 8, 1, 1, 0, 88), [1]), CibSpec([2]), FillSpec(255)]
  }

  lemma {:induction false} LongChunkSpace(specs: seq<Spec>, bs: nat) returns (s: Spaceman.Space)
    requires 104 <= bs <= 0x1_0000 && specs == LongChunkSpecs(bs)
    ensures AllFit(specs, bs) && Spaceman.SpaceAt(DiskOf(specs, bs), bs, 0) == Ok(s) && LongChunk(s, bs)
  {
    s := SpaceAt(specs, bs, 0, [[2]]);
    assert s.cib(0) == Ok([2]);
    assert s.bitmap(2) == Ok(Filled(255, bs));
  }

  ghost predicate LongChunk(s: Spaceman.Space, bs: nat) {
    && s.blocksPerChunk == 8 * bs + 8 && s.chunksPerCib == 1 && s.blockCount == 8 * bs + 8
    && s.chunkCount == 1 && s.cibCount == 1 && s.cabCount == 0
    && s.cib(0) == Ok([2]) && s.bitmap(2).Ok? && |s.bitmap(2).value| == bs
  }

  /**
   At every block size: an image whose space manager claims 8 more blocks per
   chunk than a bitmap block has bits. There the enumeration succeeds, the
   predicate calls block 8 * bs free, and no run holds it.
   */
  lemma {:induction false} LongChunkDisagrees(bs: nat)
    requires 104 <= bs <= 0x1_0000
    ensures AllFit(LongChunkSpecs(bs), bs)
    ensures var space := Spaceman.SpaceAt(DiskOf(LongChunkSpecs(bs), bs), bs, 0);
            && space.Ok? && Spaceman.WellFormed(space.value) && Spaceman.FreeBlockRuns(space.value).Ok?
            && Spaceman.IsBlockFree(space.value, 8 * bs) == Ok(true)
            && !Runs.InRuns(Spaceman.FreeBlockRuns(space.value).value, 8 * bs)
  {
    var s := LongChunkSpace(LongChunkSpecs(bs), bs);
    LongChunkBlind(s, bs);
    Spaceman.ReadingsDiffer(s, 8 * bs);
    Spaceman.EnumerationExact(s);
  }

  lemma {:induction false} LongChunkBlind(s: Spaceman.Space, bs: nat)
    requires 104 <= bs <= 0x1_0000 && LongChunk(s, bs)
    ensures Spaceman.WellFormed(s) && Spaceman.FreeBlockRuns(s).Ok? && Spaceman.Blind(s, 8 * bs)
  {
    forall cib: nat | cib < s.cibCount ensures Spaceman.ListReadable(s, cib) {
      assert cib == 0;
    }
    Spaceman.EnumerationSucceeds(s);
    PastBitmap(s, 8 * bs, bs);
  }

  lemma {:induction false} PastBitmap(s: Spaceman.Space, b: nat, bs: nat)
    requires LongChunk(s, bs) && b == 8 * bs
    ensures Spaceman.Blind(s, b)
  {
    var n := s.blocksPerChunk;
    QuotientIs(b, 0, n);
    assert b / n == 0 && b % n == b;
    assert b / 8 == bs;
    assert Spaceman.ChunkOf(s, b) == Ok(2);
  }

  // ---------- chunk-info blocks that list more than their share ----------

  /** Two chunks of n blocks, both listed by the one chunk-info block, whose share is one. */
  function OverSpecs(n: nat): seq<Spec> {
    [SpacemanSpec(Geometry(n, 1, 2 * n, 2, 1, 0, 88), [1]), CibSpec([0, 0])]
  }

  /** The same with a second chunk-info block, which lists the second chunk again. */
  function TwiceSpecs(n: nat): seq<Spec> {
    [SpacemanSpec(Geometry(n, 1, 2 * n, 2, 2, 0, 88), [1, 2]), CibSpec([0, 0]), CibSpec([0])]
  }

  /** Two all-free chunks of n blocks, the first chunk-info block listing both. */
  ghost predicate TwoChunks(s: Spaceman.Space, n: nat, cibs: nat) {
    && 0 < n < 0x1_0000_0000
    && s.blocksPerChunk == n && s.chunksPerCib == 1 && s.blockCount == 2 * n && s.chunkCount == 2
    && s.cibCount == cibs && s.cabCount == 0 && s.cib(0) == Ok([0, 0])
  }

  lemma {:induction false} SecondChunk(s: Spaceman.Space, n: nat, cibs: nat)
    requires TwoChunks(s, n, cibs)
    ensures Spaceman.ChunkBase(s, 0) == 0 && Spaceman.ChunkBase(s, 1) == n
    ensures Spaceman.ChunkIndex(s, 0, 0) == 0 && Spaceman.ChunkIndex(s, 0, 1) == 1 && Spaceman.ChunkIndex(s, 1, 0) == 1
  {
    assert 1 * s.blocksPerChunk == n && 0 * s.blocksPerChunk == 0;
  }

  lemma {:induction false} AllFreeChunk(s: Spaceman.Space, cib: nat, infos: seq<nat>, w: nat, base: nat, n: nat, runs: seq<Runs.Run>)
    requires w < |infos| && infos[w] == 0 && Spaceman.ChunkIndex(s, cib, w) < s.chunkCount
    requires base == Spaceman.ChunkBase(s, Spaceman.ChunkIndex(s, cib, w)) && base < s.blockCount && n == Spaceman.BlocksIn(s, base)
    ensures Spaceman.AddChunks(s, cib, infos, w, runs) == Spaceman.AddChunks(s, cib, infos, w + 1, Runs.Push(runs, base, n))
  {
    assert Spaceman.AddChunk(s, runs, base, 0) == Ok(Runs.Push(runs, base, n));
  }

  lemma {:induction false} PushOne(runs: seq<Runs.Run>, r: Runs.Run, first: nat, len: nat)
    requires runs == [r] && r.End() < U64 && len > 0 && r.len + len < U64
    ensures Runs.Push(runs, first, len) == if r.End() == first then [Runs.Run(r.first, r.len + len)] else [r, Runs.Run(first, len)]
  {
    assert Runs.Init(runs) == [] && Runs.Last(runs) == r;
  }

  lemma {:induction false} FirstList(s: Spaceman.Space, n: nat, cibs: nat, infos: seq<nat>, runs: seq<Runs.Run>)
    requires TwoChunks(s, n, cibs) && infos == [0, 0] && runs == []
    ensures Spaceman.AddChunks(s, 0, infos, 0, runs) == Ok([Runs.Run(0, 2 * n)])
  {
    SecondChunk(s, n, cibs);
    var one := [Runs.Run(0, n)];
    PushOne(one, one[0], n, n);
    AllFreeChunk(s, 0, infos, 0, 0, n, runs);
    AllFreeChunk(s, 0, infos, 1, n, n, one);
  }

  lemma {:induction false} SecondList(s: Spaceman.Space, n: nat, cibs: nat, infos: seq<nat>, runs: seq<Runs.Run>)
    requires TwoChunks(s, n, cibs) && infos == [0] && runs == [Runs.Run(0, 2 * n)]
    ensures Spaceman.AddChunks(s, 1, infos, 0, runs) == Ok([Runs.Run(0, 2 * n), Runs.Run(n, n)])
  {
    SecondChunk(s, n, cibs);
    PushOne(runs, runs[0], n, n);
    AllFreeChunk(s, 1, infos, 0, n, n, runs);
  }

  /**
   At every block size: the enumeration lists both chunks as one free run, and
   the predicate fails on every block of the second one.
   */
  lemma {:induction false} OverListingDisagrees(bs: nat, n: nat, b: nat)
    requires 104 <= bs <= 0x1_0000 && 0 < n < 0x1_0000_0000 && n <= b < 2 * n
    ensures AllFit(OverSpecs(n), bs)
    ensures var space := Spaceman.SpaceAt(DiskOf(OverSpecs(n), bs), bs, 0);
            && space.Ok? && Spaceman.InRange(space.value)
            && Spaceman.FreeBlockRuns(space.value) == Ok([Runs.Run(0, 2 * n)])
            && Spaceman.IsBlockFree(space.value, b) == Err(FieldOutOfRange(CibIndexField, 1, 1))
  {
    var specs := OverSpecs(n);
    var s := SpaceAt(specs, bs, 0, [[0, 0]]);
    assert s.cib(0) == Ok([0, 0]);
    OverRuns(s, n, b);
  }

  lemma {:induction false} OverRuns(s: Spaceman.Space, n: nat, b: nat)
    requires TwoChunks(s, n, 1) && n <= b < 2 * n
    ensures Spaceman.FreeBlockRuns(s) == Ok([Runs.Run(0, 2 * n)])
    ensures Spaceman.IsBlockFree(s, b) == Err(FieldOutOfRange(CibIndexField, 1, 1))
  {
    var none, one := [], [Runs.Run(0, 2 * n)];
    FirstList(s, n, 1, [0, 0], none);
    assert Spaceman.AddCibs(s, 1, one) == Ok(one);
    assert Spaceman.AddCibs(s, 0, none) == Ok(one);
    QuotientIs(b, 1, n);
  }

  /** A list of runs that overlap: the second chunk is reported twice, 3n free blocks on a device of 2n. */
  lemma {:induction false} OverListingOverlaps(bs: nat, n: nat)
    requires 104 <= bs <= 0x1_0000 && 0 < n < 0x1_0000_0000
    ensures AllFit(TwiceSpecs(n), bs)
    ensures var space := Spaceman.SpaceAt(DiskOf(TwiceSpecs(n), bs), bs, 0);
            && space.Ok? && Spaceman.InRange(space.value) && space.value.blockCount == 2 * n
            && Spaceman.FreeBlockRuns(space.value) == Ok([Runs.Run(0, 2 * n), Runs.Run(n, n)])
            && !Runs.Maximal(Spaceman.FreeBlockRuns(space.value).value)
            && Runs.TotalLen(Spaceman.FreeBlockRuns(space.value).value) == 3 * n
  {
    var specs := TwiceSpecs(n);
    var s := SpaceAt(specs, bs, 0, [[0, 0], [0]]);
    assert s.cib(0) == Ok([0, 0]) && s.cib(1) == Ok([0]);
    TwiceRuns(s, n);
  }

  lemma {:induction false} TwiceRuns(s: Spaceman.Space, n: nat)
    requires TwoChunks(s, n, 2) && s.cib(1) == Ok([0])
    ensures Spaceman.FreeBlockRuns(s) == Ok([Runs.Run(0, 2 * n), Runs.Run(n, n)])
    ensures !Runs.Maximal([Runs.Run(0, 2 * n), Runs.Run(n, n)])
    ensures Runs.TotalLen([Runs.Run(0, 2 * n), Runs.Run(n, n)]) == 3 * n
  {
    var none, one, two := [], [Runs.Run(0, 2 * n)], [Runs.Run(0, 2 * n), Runs.Run(n, n)];
    FirstList(s, n, 2, [0, 0], none);
    SecondList(s, n, 2, [0], one);
    assert Spaceman.AddCibs(s, 2, two) == Ok(two);
    assert Spaceman.AddCibs(s, 1, one) == Ok(two);
    assert Spaceman.AddCibs(s, 0, none) == Ok(two);
    assert Runs.Init(two) == one && Runs.Last(two) == Runs.Run(n, n);
    assert Runs.Init(one) == none && Runs.TotalLen(one) == 2 * n;
  }

  // ---------- lookups in a one-leaf object map ----------

  lemma {:induction false} SoleMapping(fetch: Fetch, root: nat, e: Entry, oid: nat, xid: nat)
    requires fetch(root) == Ok(Leaf([e])) && Omap.Candidate(e, oid, xid)
    ensures Omap.Resolved(fetch, root, oid, xid) == Ok(Omap.Decode(e))
  {
    var es, none := [e], {};
    assert Land(fetch, Omap.Target(oid, xid), root, MAX_DEPTH, none) == Ok(es);
    assert es[..0] == [];
    assert Omap.Newest(es[..0], oid, xid) == None;
    assert Omap.Newest(es, oid, xid) == Some(Omap.Decode(e));
  }

  lemma {:induction false} SecondMapping(fetch: Fetch, root: nat, a: Entry, b: Entry, oid: nat, xid: nat)
    requires fetch(root) == Ok(Leaf([a, b])) && Omap.Candidate(a, oid, xid) && Omap.Candidate(b, oid, xid)
    requires Omap.KeyXid(a.key) < Omap.KeyXid(b.key)
    ensures Omap.Resolved(fetch, root, oid, xid) == Ok(Omap.Decode(b))
  {
    var es, one, none := [a, b], [a], {};
    assert Land(fetch, Omap.Target(oid, xid), root, MAX_DEPTH, none) == Ok(es);
    assert es[..1] == one && one[..0] == [];
    assert Omap.Newest(one[..0], oid, xid) == None;
    assert Omap.Newest(one, oid, xid) == Some(Omap.Decode(a));
    assert Omap.Newest(es, oid, xid) == Some(Omap.Decode(b));
  }

  lemma {:induction false} LeafWalk(fetch: Fetch, keep: Keep, id: nat, es: seq<Entry>)
    requires fetch(id) == Ok(Leaf(es))
    ensures Visit(fetch, keep, id, 0, {}) == Walk(Ok(()), {id}, es)
  {
    assert {} + {id} == {id};
  }

  // ---------- a snapshot-metadata tree whose child's oid is the root's block number ----------

  /** Object map, its one leaf, one leaf of records with the given oid, and above it the root in block 3. */
  function SnapSpecs(child: nat, leaf: seq<Entry>): seq<Spec> {
    [OmapSpec(1), NodeSpec([Mapped(child, 0, 2)], 0), NodeSpec(leaf, 0), NodeSpec([Entry([], LeBytes(child, 8))], 1)]
  }

  lemma {:induction false} SnapSpecsFit(bs: nat, child: nat, leaf: seq<Entry>)
    requires 128 <= bs && Fits(leaf, bs)
    ensures AllFit(SnapSpecs(child, leaf), bs)
  {
    OneEntryFits(Mapped(child, 0, 2), bs);
    OneEntryFits(Entry([], LeBytes(child, 8)), bs);
  }

  lemma {:induction false} SnapParts(specs: seq<Spec>, bs: nat, child: nat, xid: nat, leaf: seq<Entry>)
    requires AllFit(specs, bs) && specs == SnapSpecs(child, leaf) && child < U64 && bs <= 0x1_0000
    ensures var img := DiskOf(specs, bs);
            && FsTree.OpenOmap(img, bs, 0) == Ok(1) && SnapTree.ReadRoot(img, bs, 3) == Ok(Index([Entry([], LeBytes(child, 8))]))
            && FsTree.Virtual(img, bs, None, 1, xid)(child) == Ok(Leaf(leaf))
  {
    var img := DiskOf(specs, bs);
    OmapAt(specs, bs, 0);
    NodeAt(specs, bs, 1, Node.Omap);
    MappedReads(child, 0, 2);
    SoleMapping(Physical(img, bs, Node.Omap), 1, Mapped(child, 0, 2), child, xid);
    VirtualAt(specs, bs, 1, xid, child, 2);
    NodeAt(specs, bs, 3, Node.FsTree);
    RootIsFetched(img, bs, 3);
  }

  lemma {:induction false} RootIsFetched(img: seq<Byte>, bs: nat, p: nat)
    requires p * bs < U64
    ensures SnapTree.ReadRoot(img, bs, p) == Physical(img, bs, Node.FsTree)(p)
  {
  }

  /**
   The same image but for the oid of the leaf: walked in full, except when that
   oid is 3, the block number of the root above it.
   */
  lemma {:induction false} AliasedImageIsRefused(bs: nat, child: nat, xid: nat, leaf: seq<Entry>)
    requires 128 <= bs && Fits(leaf, bs) && child < U64
    ensures AllFit(SnapSpecs(child, leaf), bs)
    ensures var w := SnapTree.WalkSnapTree(DiskOf(SnapSpecs(child, leaf), bs), bs, 0, xid, 3);
            if child == 3 then w.result == Err(CycleGuard(MAX_DEPTH)) else w.result.Ok? && w.out == leaf
  {
    var specs := SnapSpecs(child, leaf);
    SnapSpecsFit(bs, child, leaf);
    SnapParts(specs, bs, child, xid, leaf);
    OneLeafBelow(FsTree.Virtual(DiskOf(specs, bs), bs, None, 1, xid), child, Entry([], LeBytes(child, 8)), leaf);
  }

  lemma {:induction false} OneLeafBelow(fetch: Fetch, child: nat, e: Entry, leaf: seq<Entry>)
    requires child < U64 && e == Entry([], LeBytes(child, 8)) && fetch(child) == Ok(Leaf(leaf))
    ensures var w := SnapTree.WalkFrom(fetch, 3, Ok(Index([e])));
            if child == 3 then w.result == Err(CycleGuard(MAX_DEPTH)) else w.result.Ok? && w.out == leaf
  {
    var es, kids, none: seq<Tree> := [e], [TLeaf(child, leaf)], [];
    Omap.ChildReads([], child);
    assert kids[1..] == none && Ids(kids[0], ALL) == {child};
    assert UnfoldsAll(fetch, es, none, 1) && UnfoldsAll(fetch, es, kids, 0);
    assert IdsAll(es, none, 1, ALL) == {} && IdsAll(es, kids, 0, ALL) == {child};
    assert RecordsAll(es, none, 1, ALL) == [] && RecordsAll(es, kids, 0, ALL) == leaf;
    assert LevelsAll(none) == 0 && LevelsAll(kids) == 1;
    SnapTree.WalkedUnlessAliased(fetch, 3, es, kids);
  }

  // ---------- one copy-on-write transaction ----------

  /**
   A snapshot of transaction x: superblock, object map, its leaf mapping the
   fs-tree root to block 3, that root, and three free blocks.
   */
  function BeforeSpecs(oid: nat, x: nat, records: seq<Entry>): seq<Spec> {
    [VolumeSpec(x, 0, oid), OmapSpec(2), NodeSpec([Mapped(oid, x, 3)], 0), NodeSpec(records, 0), FillSpec(0), FillSpec(0), FillSpec(0)]
  }

  /** Transaction y: a new object map, its leaf with one more mapping, and a new fs-tree root, in the free blocks. */
  function AfterSpecs(oid: nat, x: nat, y: nat, records: seq<Entry>, newer: seq<Entry>): seq<Spec> {
    BeforeSpecs(oid, x, records)[4 := OmapSpec(5)][5 := NodeSpec([Mapped(oid, x, 3), Mapped(oid, y, 6)], 0)][6 := NodeSpec(newer, 0)]
  }

  /** The sizes and numbers of one transaction. */
  predicate Usable(bs: nat, oid: nat, x: nat, y: nat, records: seq<Entry>, newer: seq<Entry>) {
    bs >= Snapshot.APSB_MIN_LEN && Fits(records, bs) && Fits(newer, bs) && oid < U64 && x < y < U64
  }

  lemma {:induction false} TransactionFits(bs: nat, oid: nat, x: nat, y: nat, records: seq<Entry>, newer: seq<Entry>)
    requires Usable(bs, oid, x, y, records, newer)
    ensures AllFit(BeforeSpecs(oid, x, records), bs) && AllFit(AfterSpecs(oid, x, y, records, newer), bs)
  {
    BeforeFits(bs, oid, x, records);
    TwoEntriesFit(Mapped(oid, x, 3), Mapped(oid, y, 6), bs);
    UpdatesFit(BeforeSpecs(oid, x, records), bs, OmapSpec(5), NodeSpec([Mapped(oid, x, 3), Mapped(oid, y, 6)], 0), NodeSpec(newer, 0));
  }

  lemma {:induction false} BeforeFits(bs: nat, oid: nat, x: nat, records: seq<Entry>)
    requires bs >= Snapshot.APSB_MIN_LEN && Fits(records, bs) && oid < U64 && x < U64
    ensures AllFit(BeforeSpecs(oid, x, records), bs)
  {
    OneEntryFits(Mapped(oid, x, 3), bs);
  }

  lemma {:induction false} UpdatesFit(specs: seq<Spec>, bs: nat, a: Spec, b: Spec, c: Spec)
    requires AllFit(specs, bs) && |specs| == 7 && SpecFits(a, bs) && SpecFits(b, bs) && SpecFits(c, bs)
    ensures AllFit(specs[4 := a][5 := b][6 := c], bs)
  {
  }

  function StateOf(specs: seq<Spec>, bs: nat, omap: nat): Snapshot.State
    requires AllFit(specs, bs)
  {
    Snapshot.State(DiskOf(specs, bs), omap)
  }

  lemma {:induction false} OneWrite(before: seq<Spec>, after: seq<Spec>, bs: nat, p: nat, x: Spec) returns (w: Snapshot.Write)
    requires AllFit(before, bs) && p < |before| && SpecFits(x, bs) && after == before[p := x]
    ensures AllFit(after, bs) && DiskOf(after, bs) == Snapshot.Written(DiskOf(before, bs), bs, w)
    ensures |w.data| == bs && w.paddr == p
  {
    DiskUpdate(before, bs, p, x);
    w := Snapshot.Write(p, BlockOf(x, bs));
  }

  /** Overwriting blocks 4, 5 and 6. */
  lemma {:induction false} ThreeWrites(s0: seq<Spec>, s1: seq<Spec>, s2: seq<Spec>, s3: seq<Spec>, bs: nat, a: Spec, b: Spec, c: Spec)
    returns (ws: seq<Snapshot.Write>)
    requires AllFit(s0, bs) && |s0| == 7 && SpecFits(a, bs) && SpecFits(b, bs) && SpecFits(c, bs)
    requires s1 == s0[4 := a] && s2 == s1[5 := b] && s3 == s2[6 := c]
    ensures AllFit(s3, bs) && DiskOf(s3, bs) == Snapshot.WrittenAll(DiskOf(s0, bs), bs, ws)
    ensures forall w: Snapshot.Write :: w in ws ==> |w.data| == bs && w.paddr in {4, 5, 6}
  {
    var u := OneWrite(s0, s1, bs, 4, a);
    var v := OneWrite(s1, s2, bs, 5, b);
    var w := OneWrite(s2, s3, bs, 6, c);
    InTurn(DiskOf(s0, bs), bs, u, v, w);
    ws := [u, v, w];
  }

  lemma {:induction false} InTurn(img: seq<Byte>, bs: nat, a: Snapshot.Write, b: Snapshot.Write, c: Snapshot.Write)
    ensures Snapshot.WrittenAll(img, bs, [a, b, c]) == Snapshot.Written(Snapshot.Written(Snapshot.Written(img, bs, a), bs, b), bs, c)
  {
    var one := Snapshot.Written(img, bs, a);
    var two := Snapshot.Written(one, bs, b);
    assert [a, b, c][1..] == [b, c] && [b, c][1..] == [c];
    assert Snapshot.WrittenAll(two, bs, [c]) == Snapshot.WrittenAll(Snapshot.Written(two, bs, c), bs, [c][1..]);
    assert Snapshot.WrittenAll(one, bs, [b, c]) == Snapshot.WrittenAll(two, bs, [c]);
  }

  lemma {:induction false} LeafOmap(s: Snapshot.State, bs: nat, root: nat, es: seq<Entry>)
    requires FsTree.OpenOmap(s.img, bs, s.omapOid) == Ok(root) && Physical(s.img, bs, Node.Omap)(root) == Ok(Leaf(es))
    requires Omap.Sorted(es) && Omap.KeysUnique(es)
    ensures Snapshot.OmapIs(s, bs, TLeaf(root, es))
  {
  }

  lemma {:induction false} TwoSorted(a: Entry, b: Entry)
    requires Omap.KeyOid(a.key) == Omap.KeyOid(b.key) && Omap.KeyXid(a.key) < Omap.KeyXid(b.key)
    ensures Omap.Sorted([a, b]) && Omap.KeysUnique([a, b])
  {
  }

  lemma {:induction false} NewerOnly(a: Entry, b: Entry, xid: nat)
    requires Omap.KeyXid(b.key) > xid
    ensures Snapshot.SameUpTo([a], [a, b], xid)
  {
  }

  /** What is on the image before: the frozen superblock, the object map, and the snapshot's one node. */
  ghost predicate Mountable(img: seq<Byte>, bs: nat, oid: nat, x: nat, records: seq<Entry>) {
    && Snapshot.Frozen(img, bs, 0) == Ok(FsTree.Volume(x, 0, oid)) && FsTree.OpenOmap(img, bs, 1) == Ok(2)
    && Omap.Resolved(Physical(img, bs, Node.Omap), 2, oid, x) == Ok(Omap.OmapEntry(oid, x, 3, 0, 0))
    && FsTree.Virtual(img, bs, None, 2, x)(oid) == Ok(Leaf(records))
  }

  lemma {:induction false} BeforeResolves(specs: seq<Spec>, bs: nat, oid: nat, x: nat, records: seq<Entry>)
    requires AllFit(specs, bs) && specs == BeforeSpecs(oid, x, records) && bs <= 0x1_0000 && oid < U64 && x < U64
    ensures Physical(DiskOf(specs, bs), bs, Node.Omap)(2) == Ok(Leaf([Mapped(oid, x, 3)]))
    ensures Omap.Resolved(Physical(DiskOf(specs, bs), bs, Node.Omap), 2, oid, x) == Ok(Omap.OmapEntry(oid, x, 3, 0, 0))
  {
    NodeAt(specs, bs, 2, Node.Omap);
    MappedReads(oid, x, 3);
    SoleMapping(Physical(DiskOf(specs, bs), bs, Node.Omap), 2, Mapped(oid, x, 3), oid, x);
  }

  lemma {:induction false} BeforeIsMountable(specs: seq<Spec>, bs: nat, oid: nat, x: nat, records: seq<Entry>)
    requires AllFit(specs, bs) && specs == BeforeSpecs(oid, x, records) && bs <= 0x1_0000 && oid < U64 && x < U64
    ensures Mountable(DiskOf(specs, bs), bs, oid, x, records)
  {
    BeforeOpens(specs, bs, oid, x);
    BeforeResolves(specs, bs, oid, x, records);
    BeforeFetches(specs, bs, oid, x, records);
  }

  lemma {:induction false} BeforeFetches(specs: seq<Spec>, bs: nat, oid: nat, x: nat, records: seq<Entry>)
    requires AllFit(specs, bs) && specs == BeforeSpecs(oid, x, records) && bs <= 0x1_0000
    requires Omap.Resolved(Physical(DiskOf(specs, bs), bs, Node.Omap), 2, oid, x) == Ok(Omap.OmapEntry(oid, x, 3, 0, 0))
    ensures FsTree.Virtual(DiskOf(specs, bs), bs, None, 2, x)(oid) == Ok(Leaf(records))
  {
    VirtualAt(specs, bs, 2, x, oid, 3);
  }

  lemma {:induction false} BeforeOpens(specs: seq<Spec>, bs: nat, oid: nat, x: nat)
    requires AllFit(specs, bs) && |specs| == 7 && bs <= 0x1_0000 && specs[0] == VolumeSpec(x, 0, oid) && specs[1] == OmapSpec(2)
    ensures Snapshot.Frozen(DiskOf(specs, bs), bs, 0) == Ok(FsTree.Volume(x, 0, oid))
    ensures FsTree.OpenOmap(DiskOf(specs, bs), bs, 1) == Ok(2)
  {
    VolumeAt(specs, bs, 0);
    OmapAt(specs, bs, 1);
  }

  lemma {:induction false} ViewOfMountable(s: Snapshot.State, bs: nat, oid: nat, x: nat, records: seq<Entry>, target: Option<nat>)
    requires s.omapOid == 1 && Mountable(s.img, bs, oid, x, records)
    ensures Snapshot.View(s, bs, 0, None, target) == Walk(Ok(()), {oid}, records)
  {
    LeafWalk(FsTree.Virtual(s.img, bs, None, 2, x), FsTree.Keyed(target), oid, records);
  }

  /** Only the superblock and block 3 are reached. */
  lemma {:induction false} OthersUnpinned(s: Snapshot.State, bs: nat, oid: nat, x: nat, records: seq<Entry>, p: nat)
    requires s.omapOid == 1 && Mountable(s.img, bs, oid, x, records) && p != 0 && p != 3
    ensures !Snapshot.Pinned(s, bs, 0, None, p)
  {
    forall o: nat | Snapshot.Entered(s, bs, 0, None, o) ensures o == oid {
      var target :| o in Snapshot.View(s, bs, 0, None, target).visited;
      ViewOfMountable(s, bs, oid, x, records, target);
    }
  }

  /** The live volume after the transaction. */
  lemma {:induction false} LiveAfter(specs: seq<Spec>, bs: nat, oid: nat, x: nat, y: nat, records: seq<Entry>, newer: seq<Entry>)
    requires AllFit(specs, bs) && specs == AfterSpecs(oid, x, y, records, newer) && bs <= 0x1_0000 && oid < U64 && x < y < U64
    ensures Snapshot.OmapIs(StateOf(specs, bs, 4), bs, TLeaf(5, [Mapped(oid, x, 3), Mapped(oid, y, 6)]))
    ensures FsTree.WalkFsTree(DiskOf(specs, bs), bs, FsTree.Volume(y, 4, oid), None, None) == Walk(Ok(()), {oid}, newer)
  {
    var img, a, b := DiskOf(specs, bs), Mapped(oid, x, 3), Mapped(oid, y, 6);
    OmapAt(specs, bs, 4);
    NodeAt(specs, bs, 5, Node.Omap);
    MappedReads(oid, x, 3);
    MappedReads(oid, y, 6);
    TwoSorted(a, b);
    LeafOmap(StateOf(specs, bs, 4), bs, 5, [a, b]);
    SecondMapping(Physical(img, bs, Node.Omap), 5, a, b, oid, y);
    VirtualAt(specs, bs, 5, y, oid, 6);
    LeafWalk(FsTree.Virtual(img, bs, None, 5, y), ALL, oid, newer);
  }

  lemma {:induction false} StepOf(s: Snapshot.State, s': Snapshot.State, bs: nat, ws: seq<Snapshot.Write>, t: Tree, t': Tree)
    requires s'.img == Snapshot.WrittenAll(s.img, bs, ws)
    requires forall w: Snapshot.Write :: w in ws ==> |w.data| == bs && !Snapshot.Pinned(s, bs, 0, None, w.paddr)
    requires Snapshot.OmapIs(s, bs, t) && Snapshot.OmapIs(s', bs, t') && Snapshot.Frozen(s.img, bs, 0).Ok?
    requires Snapshot.SameUpTo(Records(t, ALL), Records(t', ALL), Snapshot.Frozen(s.img, bs, 0).value.xid)
    ensures Snapshot.Step(s, s', bs, 0, None)
  {
  }

  lemma {:induction false} MountableSteps(s: Snapshot.State, s': Snapshot.State, bs: nat, ws: seq<Snapshot.Write>,
                                          oid: nat, x: nat, records: seq<Entry>, a: Entry, b: Entry)
    requires s.omapOid == 1 && Mountable(s.img, bs, oid, x, records) && Omap.KeyXid(b.key) > x
    requires s'.img == Snapshot.WrittenAll(s.img, bs, ws)
    requires forall w: Snapshot.Write :: w in ws ==> |w.data| == bs && w.paddr in {4, 5, 6}
    requires Snapshot.OmapIs(s, bs, TLeaf(2, [a])) && Snapshot.OmapIs(s', bs, TLeaf(5, [a, b]))
    ensures Snapshot.Step(s, s', bs, 0, None)
  {
    NewerOnly(a, b, x);
    forall w: Snapshot.Write | w in ws ensures !Snapshot.Pinned(s, bs, 0, None, w.paddr) {
      OthersUnpinned(s, bs, oid, x, records, w.paddr);
    }
    StepOf(s, s', bs, ws, TLeaf(2, [a]), TLeaf(5, [a, b]));
  }

  /**
   The hypotheses of snapshot isolation are met: at every usable block size, for
   any fs-tree oid, any two transactions and any two record lists that fit,
   there is a snapshot that shows the first list and a transaction that replaces
   the live tree by the second.
   */
  lemma {:induction false} TransactionExists(bs: nat, oid: nat, x: nat, y: nat, records: seq<Entry>, newer: seq<Entry>)
    requires Usable(bs, oid, x, y, records, newer)
    ensures AllFit(BeforeSpecs(oid, x, records), bs) && AllFit(AfterSpecs(oid, x, y, records, newer), bs)
    ensures var s, s' := StateOf(BeforeSpecs(oid, x, records), bs, 1), StateOf(AfterSpecs(oid, x, y, records, newer), bs, 4);
            && Snapshot.Step(s, s', bs, 0, None)
            && Snapshot.View(s, bs, 0, None, None) == Walk(Ok(()), {oid}, records)
            && FsTree.WalkFsTree(s'.img, bs, FsTree.Volume(y, 4, oid), None, None) == Walk(Ok(()), {oid}, newer)
  {
    TransactionFits(bs, oid, x, y, records, newer);
    TransactionOn(BeforeSpecs(oid, x, records), AfterSpecs(oid, x, y, records, newer), bs, oid, x, y, records, newer);
  }

  lemma {:induction false} AfterIsWritten(before: seq<Spec>, after: seq<Spec>, bs: nat) returns (ws: seq<Snapshot.Write>)
    requires |before| == 7 && AllFit(before, bs) && AllFit(after, bs) && |after| == 7
    requires after == before[4 := after[4]][5 := after[5]][6 := after[6]]
    ensures DiskOf(after, bs) == Snapshot.WrittenAll(DiskOf(before, bs), bs, ws)
    ensures forall w: Snapshot.Write :: w in ws ==> |w.data| == bs && w.paddr in {4, 5, 6}
  {
    var s1 := before[4 := after[4]];
    ws := ThreeWrites(before, s1, s1[5 := after[5]], after, bs, after[4], after[5], after[6]);
  }

  lemma {:induction false} TransactionOn(before: seq<Spec>, after: seq<Spec>, bs: nat,
                                         oid: nat, x: nat, y: nat, records: seq<Entry>, newer: seq<Entry>)
    requires Usable(bs, oid, x, y, records, newer) && AllFit(before, bs) && AllFit(after, bs)
    requires before == BeforeSpecs(oid, x, records) && after == AfterSpecs(oid, x, y, records, newer)
    ensures var s, s' := StateOf(before, bs, 1), StateOf(after, bs, 4);
            && Snapshot.Step(s, s', bs, 0, None)
            && Snapshot.View(s, bs, 0, None, None) == Walk(Ok(()), {oid}, records)
            && FsTree.WalkFsTree(s'.img, bs, FsTree.Volume(y, 4, oid), None, None) == Walk(Ok(()), {oid}, newer)
  {
    var s, s' := StateOf(before, bs, 1), StateOf(after, bs, 4);
    var ws := AfterIsWritten(before, after, bs);
    BeforeIsMountable(before, bs, oid, x, records);
    ViewOfMountable(s, bs, oid, x, records, None);
    LiveAfter(after, bs, oid, x, y, records, newer);
    BeforeOmap(before, bs, oid, x, records);
    MappedReads(oid, y, 6);
    MountableSteps(s, s', bs, ws, oid, x, records, Mapped(oid, x, 3), Mapped(oid, y, 6));
  }

  lemma {:induction false} BeforeOmap(specs: seq<Spec>, bs: nat, oid: nat, x: nat, records: seq<Entry>)
    requires AllFit(specs, bs) && specs == BeforeSpecs(oid, x, records) && bs <= 0x1_0000 && oid < U64 && x < U64
    ensures Snapshot.OmapIs(StateOf(specs, bs, 1), bs, TLeaf(2, [Mapped(oid, x, 3)]))
  {
    OmapAt(specs, bs, 1);
    BeforeResolves(specs, bs, oid, x, records);
    LeafOmap(StateOf(specs, bs, 1), bs, 2, [Mapped(oid, x, 3)]);
  }
}
