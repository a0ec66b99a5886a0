/** Writing images: blocks side by side, checksums stamped, nodes laid out. */
module Disk {
  import opened Results
  import opened Bytes
  import opened Object
  import opened BTree
  import Node = BTreeNode
  import opened Image
  import opened Arith
  import Omap
  import FsTree
  import Snapshot
  import Spaceman
  import opened Printers

  ghost predicate Sized(blocks: seq<seq<Byte>>, bs: nat) {
    forall b: seq<Byte> :: b in blocks ==> |b| == bs
  }

  /** Blocks one after the other. */
  function Joined(blocks: seq<seq<Byte>>): seq<Byte> {
    if blocks == [] then [] else Joined(blocks[..|blocks| - 1]) + blocks[|blocks| - 1]
  }

  lemma {:induction false} JoinedAt(blocks: seq<seq<Byte>>, bs: nat, p: nat, off: nat)
    requires Sized(blocks, bs) && p < |blocks| && off == p * bs
    ensures At(Joined(blocks), off, blocks[p])
  {
    var n := |blocks| - 1;
    var front, last := blocks[..n], blocks[n];
    AtSplit(Joined(blocks), 0, Joined(front), last);
    if p < n {
      JoinedAt(front, bs, p, off);
      AtSub(Joined(blocks), 0, Joined(front), off, blocks[p]);
    } else {
      JoinedLength(front, bs);
    }
  }

  lemma {:induction false} JoinedLength(blocks: seq<seq<Byte>>, bs: nat)
    requires Sized(blocks, bs)
    ensures |Joined(blocks)| == |blocks| * bs
  {
    if blocks != [] {
      var n := |blocks| - 1;
      assert blocks[n] in blocks;
      JoinedLength(blocks[..n], bs);
      Distribute(n, 1, bs);
    }
  }

  lemma {:induction false} ReadPiece(img: seq<Byte>, bs: nat, p: nat, off: nat, block: seq<Byte>)
    requires off == p * bs < U64 && |block| == bs && At(img, off, block)
    ensures ReadBlock(img, bs, p) == Ok(block)
  {
  }

  /** Every block of a joined image reads back. */
  lemma {:induction false} ReadBack(blocks: seq<seq<Byte>>, bs: nat, p: nat)
    requires Sized(blocks, bs) && p < |blocks| && |blocks| * bs < U64
    ensures p * bs < U64 && ReadBlock(Joined(blocks), bs, p) == Ok(blocks[p])
  {
    Apart(p, |blocks|, bs);
    JoinedAt(blocks, bs, p, p * bs);
    assert blocks[p] in blocks;
    ReadPiece(Joined(blocks), bs, p, p * bs, blocks[p]);
  }

  // ---------- nodes ----------

  /** The bytes a variable-size node without padding needs. */
  function Needed(es: seq<Entry>): nat {
    Node.DATA_OFF + 8 * |es| + Node.KeysLen(es) + Node.ValsLen(es)
  }

  predicate Fits(es: seq<Entry>, bs: nat) {
    Needed(es) <= bs <= 0x1_0000
  }

  function FrameOf(header: seq<Byte>, es: seq<Entry>, level: nat, bs: nat): Node.Frame
    requires Fits(es, bs)
  {
    Node.Frame(header, false, false, false, 0, level, Zeros(12), [], [], Zeros(bs - Needed(es)), [])
  }

  /** A node block of bs bytes; level 0 is a leaf. */
  function NodeBlock(es: seq<Entry>, level: nat, bs: nat): seq<Byte>
    requires Fits(es, bs)
  {
    Stamp(FrameOf(Zeros(32), es, level, bs).Block(es))
  }

  function NodeOf(es: seq<Entry>, level: nat): BTree.Node {
    if level == 0 then Leaf(es) else Index(es)
  }

  /** Such a block verifies and parses to its node. */
  lemma {:induction false} NodeReads(es: seq<Entry>, level: nat, bs: nat, subtype: Node.Subtype)
    requires Fits(es, bs) && level < 0x1_0000
    ensures |NodeBlock(es, level, bs)| == bs && Verifies(NodeBlock(es, level, bs))
    ensures Node.ParseNode(NodeBlock(es, level, bs), subtype) == NodeOf(es, level)
  {
    var plain := FrameOf(Zeros(32), es, level, bs).Block(es);
    StampVerifies(plain);
    var header := LeBytes(Fletcher64(plain), 8) + Zeros(24);
    var f := FrameOf(header, es, level, bs);
    SameFrame(es, level, bs, header);
    Node.NodeRoundTrip(f, es, subtype);
  }

  lemma {:induction false} SameFrame(es: seq<Entry>, level: nat, bs: nat, header: seq<Byte>)
    requires Fits(es, bs) && |header| == 32 && header[8..] == Zeros(24)
    ensures var plain := FrameOf(Zeros(32), es, level, bs).Block(es);
            |plain| == bs && FrameOf(header, es, level, bs).Block(es) == header[..8] + plain[8..]
  {
    var f, g := FrameOf(Zeros(32), es, level, bs), FrameOf(header, es, level, bs);
    var rest := AfterHeader(f, es);
    BlockParts(f, es);
    BlockParts(g, es);
    assert header == header[..8] + header[8..];
    ZerosTail(rest);
    Regroup(header[..8], header[8..], rest);
  }

  lemma {:induction false} ZerosTail(rest: seq<Byte>)
    ensures (Zeros(32) + rest)[8..] == Zeros(24) + rest
  {
  }

  function Fields(f: Node.Frame, es: seq<Entry>): seq<Byte> {
    LeBytes(f.FlagWord(), 2) + LeBytes(f.level, 2) + LeBytes(|es|, 4) + LeBytes(|f.pad|, 2) + LeBytes(|f.Toc(es)|, 2) + f.free
  }

  function Areas(f: Node.Frame, es: seq<Entry>): seq<Byte> {
    f.pad + f.Toc(es) + Node.KeyBytes(es) + f.gap + Node.ValBytes(es) + f.footer
  }

  /** Everything after the object header. */
  function AfterHeader(f: Node.Frame, es: seq<Entry>): seq<Byte> {
    Fields(f, es) + Areas(f, es)
  }

  lemma {:induction false} Prepend(h: seq<Byte>, a: seq<Byte>, b: seq<Byte>, c: seq<Byte>, d: seq<Byte>, e: seq<Byte>, f: seq<Byte>)
    ensures h + a + b + c + d + e + f == h + (a + b + c + d + e + f)
  {
  }

  lemma {:induction false} BlockParts(f: Node.Frame, es: seq<Entry>)
    ensures f.Block(es) == f.objHeader + AfterHeader(f, es)
  {
    Prepend(f.objHeader, LeBytes(f.FlagWord(), 2), LeBytes(f.level, 2), LeBytes(|es|, 4), LeBytes(|f.pad|, 2), LeBytes(|f.Toc(es)|, 2), f.free);
    Prepend(f.Header(es), f.pad, f.Toc(es), Node.KeyBytes(es), f.gap, Node.ValBytes(es), f.footer);
    Regroup(f.objHeader, Fields(f, es), Areas(f, es));
  }

  function Filled(fill: Byte, bs: nat): (b: seq<Byte>)
    ensures |b| == bs
  {
    seq(bs, (i: nat) => fill)
  }

  // ---------- images ----------

  /** The header of a physically stored object. */
  const PHYSICAL := Header(1, 2, 0x4000, 0)

  /** What a block holds. */
  datatype Spec =
    | NodeSpec(entries: seq<Entry>, level: nat)
    | OmapSpec(tree: nat)
    | VolumeSpec(xid: nat, omap: nat, root: nat)
    | SpacemanSpec(geometry: Geometry, cibs: seq<nat>)
    | CibSpec(bitmaps: seq<nat>)
    | FillSpec(fill: Byte)
    | RawSpec(raw: seq<Byte>)

  ghost predicate SpecFits(x: Spec, bs: nat) {
    match x
    case NodeSpec(es, level) => Fits(es, bs) && level < 0x1_0000
    case OmapSpec(tree) => tree < U64 && bs >= 56
    case VolumeSpec(xid, omap, root) => xid < U64 && omap < U64 && root < U64 && bs >= Snapshot.APSB_MIN_LEN
    case SpacemanSpec(g, cibs) => GeometryFits(g) && WordsFit(cibs) && g.arrayAt + 8 * |cibs| <= bs
    case CibSpec(bitmaps) => WordsFit(bitmaps) && 40 + 32 * |bitmaps| <= bs <= 0x1_0000
    case FillSpec(_) => true
    case RawSpec(raw) => |raw| == bs
  }

  ghost predicate AllFit(specs: seq<Spec>, bs: nat) {
    forall i :: 0 <= i < |specs| ==> SpecFits(specs[i], bs)
  }

  function BlockOf(x: Spec, bs: nat): seq<Byte>
    requires SpecFits(x, bs)
  {
    match x
    case NodeSpec(es, level) => NodeBlock(es, level, bs)
    case OmapSpec(tree) => PrintOmap(PHYSICAL, tree, bs)
    case VolumeSpec(xid, omap, root) => PrintVolume(Header(1, xid, 0, 0), omap, root, bs)
    case SpacemanSpec(g, cibs) => PrintSpaceman(PHYSICAL, g, cibs, bs)
    case CibSpec(bitmaps) => PrintCib(PHYSICAL, bitmaps, bs)
    case FillSpec(fill) => Filled(fill, bs)
    case RawSpec(raw) => raw
  }

  function Blocks(specs: seq<Spec>, bs: nat): seq<seq<Byte>>
    requires AllFit(specs, bs)
  {
    seq(|specs|, i requires 0 <= i < |specs| => BlockOf(specs[i], bs))
  }

  /** The image holding these in blocks 0, 1, 2, ... */
  function DiskOf(specs: seq<Spec>, bs: nat): seq<Byte>
    requires AllFit(specs, bs)
  {
    Joined(Blocks(specs, bs))
  }

  lemma {:induction false} BlockSize(x: Spec, bs: nat)
    requires SpecFits(x, bs)
    ensures |BlockOf(x, bs)| == bs
  {
    if x.NodeSpec? {
      NodeReads(x.entries, x.level, bs, Node.Omap);
    }
  }

  lemma {:induction false} BlocksSized(specs: seq<Spec>, bs: nat)
    requires AllFit(specs, bs)
    ensures Sized(Blocks(specs, bs), bs)
  {
    forall i | 0 <= i < |specs| ensures |Blocks(specs, bs)[i]| == bs {
      BlockSize(specs[i], bs);
    }
  }

  /** Block p reads back as what it was made to hold. */
  lemma {:induction false} BlockAt(specs: seq<Spec>, bs: nat, p: nat)
    requires AllFit(specs, bs) && p < |specs| && |specs| * bs < U64
    ensures p * bs < U64 && ReadBlock(DiskOf(specs, bs), bs, p) == Ok(BlockOf(specs[p], bs))
  {
    BlocksSized(specs, bs);
    ReadBack(Blocks(specs, bs), bs, p);
  }

  lemma {:induction false} FetchedFrom(img: seq<Byte>, bs: nat, p: nat, subtype: Node.Subtype, block: seq<Byte>, node: BTree.Node)
    requires p * bs < U64 && ReadBlock(img, bs, p) == Ok(block) && Verifies(block) && Node.ParseNode(block, subtype) == node
    ensures Physical(img, bs, subtype)(p) == Ok(node)
  {
  }

  /** Any nodes that fit are realized by an image: block p fetches as node p. */
  lemma {:induction false} NodeAt(specs: seq<Spec>, bs: nat, p: nat, subtype: Node.Subtype)
    requires AllFit(specs, bs) && p < |specs| && |specs| * bs < U64 && specs[p].NodeSpec?
    ensures Physical(DiskOf(specs, bs), bs, subtype)(p) == Ok(NodeOf(specs[p].entries, specs[p].level))
  {
    BlockAt(specs, bs, p);
    var x := specs[p];
    NodeReads(x.entries, x.level, bs, subtype);
    FetchedFrom(DiskOf(specs, bs), bs, p, subtype, NodeBlock(x.entries, x.level, bs), NodeOf(x.entries, x.level));
  }

  lemma {:induction false} OmapAt(specs: seq<Spec>, bs: nat, p: nat)
    requires AllFit(specs, bs) && p < |specs| && |specs| * bs < U64 && specs[p].OmapSpec?
    ensures FsTree.OpenOmap(DiskOf(specs, bs), bs, p) == Ok(specs[p].tree)
  {
    BlockAt(specs, bs, p);
    OmapReads(PHYSICAL, specs[p].tree, bs);
  }

  lemma {:induction false} VolumeAt(specs: seq<Spec>, bs: nat, p: nat)
    requires AllFit(specs, bs) && p < |specs| && |specs| * bs < U64 && specs[p].VolumeSpec?
    ensures Snapshot.Frozen(DiskOf(specs, bs), bs, p) == Ok(FsTree.Volume(specs[p].xid, specs[p].omap, specs[p].root))
  {
    BlockAt(specs, bs, p);
    VolumeReads(Header(1, specs[p].xid, 0, 0), specs[p].omap, specs[p].root, bs);
  }

  lemma {:induction false} SpacemanAt(specs: seq<Spec>, bs: nat, p: nat) returns (sm: seq<Byte>)
    requires AllFit(specs, bs) && p < |specs| && |specs| * bs < U64 && specs[p].SpacemanSpec?
    ensures ReadBlock(DiskOf(specs, bs), bs, p) == Ok(sm) && Describes(sm, specs[p].geometry, specs[p].cibs)
  {
    BlockAt(specs, bs, p);
    sm := BlockOf(specs[p], bs);
    SpacemanReads(PHYSICAL, specs[p].geometry, specs[p].cibs, bs);
  }

  lemma {:induction false} CibAt(specs: seq<Spec>, bs: nat, p: nat)
    requires AllFit(specs, bs) && p < |specs| && |specs| * bs < U64 && specs[p].CibSpec?
    ensures ReadObject(DiskOf(specs, bs), bs, p).Ok?
    ensures Spaceman.ChunkInfos(ReadObject(DiskOf(specs, bs), bs, p).value) == specs[p].bitmaps
  {
    BlockAt(specs, bs, p);
    CibReads(PHYSICAL, specs[p].bitmaps, bs);
  }

  /** Every chunk-info block of the array is on the image, listing these bitmaps. */
  ghost predicate ListsOnDisk(specs: seq<Spec>, cibs: seq<nat>, lists: seq<seq<nat>>) {
    |cibs| == |lists| && forall i :: 0 <= i < |cibs| ==> cibs[i] < |specs| && specs[cibs[i]] == CibSpec(lists[i])
  }

  lemma {:induction false} CibOf(specs: seq<Spec>, bs: nat, sm: seq<Byte>, g: Geometry, cibs: seq<nat>, lists: seq<seq<nat>>, i: nat)
    requires AllFit(specs, bs) && |specs| * bs < U64 && Describes(sm, g, cibs) && ListsOnDisk(specs, cibs, lists) && i < |lists|
    ensures Spaceman.ReadCib(DiskOf(specs, bs), bs, sm, i) == Ok(lists[i])
  {
    CibAt(specs, bs, cibs[i]);
    assert LeU64(sm, g.arrayAt + 8 * i) == cibs[i];
  }

  /** A space manager on an image: its geometry, its chunk-info blocks, and its bitmaps as raw blocks. */
  lemma {:induction false} SpaceAt(specs: seq<Spec>, bs: nat, p: nat, lists: seq<seq<nat>>) returns (s: Spaceman.Space)
    requires AllFit(specs, bs) && p < |specs| && |specs| * bs < U64 && specs[p].SpacemanSpec?
    requires ListsOnDisk(specs, specs[p].cibs, lists)
    ensures Spaceman.SpaceAt(DiskOf(specs, bs), bs, p) == Ok(s) && Matches(s, specs[p].geometry, lists)
    ensures forall a: nat :: a < |specs| ==> s.bitmap(a) == Ok(BlockOf(specs[a], bs))
  {
    var img := DiskOf(specs, bs);
    var sm := SpacemanAt(specs, bs, p);
    s := Spaceman.SpaceAt(img, bs, p).value;
    forall i: nat | i < |lists| ensures s.cib(i) == Ok(lists[i]) {
      CibOf(specs, bs, sm, specs[p].geometry, specs[p].cibs, lists, i);
    }
    forall a: nat | a < |specs| ensures s.bitmap(a) == Ok(BlockOf(specs[a], bs)) {
      BlockAt(specs, bs, a);
    }
  }

  ghost predicate Matches(s: Spaceman.Space, g: Geometry, lists: seq<seq<nat>>) {
    && s.blocksPerChunk == g.perChunk && s.chunksPerCib == g.perCib && s.blockCount == g.blocks && s.chunkCount == g.chunks
    && s.cibCount == g.cibs && s.cabCount == g.cabs && forall i: nat :: i < |lists| ==> s.cib(i) == Ok(lists[i])
  }

  /** The mapping of an oid at a transaction to a block, unencrypted. */
  function Mapped(oid: nat, xid: nat, paddr: nat): Entry {
    Omap.PrintMapping(Omap.OmapEntry(oid, xid, paddr, 0, 0))
  }

  lemma {:induction false} MappedReads(oid: nat, xid: nat, paddr: nat)
    requires oid < U64 && xid < U64 && paddr < U64
    ensures Omap.KeyOid(Mapped(oid, xid, paddr).key) == oid && Omap.KeyXid(Mapped(oid, xid, paddr).key) == xid
    ensures Omap.Decode(Mapped(oid, xid, paddr)) == Omap.OmapEntry(oid, xid, paddr, 0, 0)
  {
    Omap.MappingReads(Omap.OmapEntry(oid, xid, paddr, 0, 0));
  }

  /** A leaf of printed mappings on an image resolves every object to the newest of them at or before the transaction. */
  lemma {:induction false} MappingsAt(specs: seq<Spec>, bs: nat, p: nat, ms: seq<Omap.OmapEntry>, oid: nat, xid: nat)
    requires AllFit(specs, bs) && p < |specs| && |specs| * bs < U64 && specs[p] == NodeSpec(Omap.PrintMappings(ms), 0)
    requires Omap.AllMappingsFit(ms) && Omap.MappingsAscend(ms)
    ensures Omap.NewestOf(ms, oid, xid, Omap.Resolved(Physical(DiskOf(specs, bs), bs, Node.Omap), p, oid, xid))
  {
    NodeAt(specs, bs, p, Node.Omap);
    Omap.PrintedSorted(ms);
    Omap.ResolvesPrinted(Physical(DiskOf(specs, bs), bs, Node.Omap), TLeaf(p, Omap.PrintMappings(ms)), ms, oid, xid);
  }

  lemma {:induction false} VirtualFrom(img: seq<Byte>, bs: nat, tree: nat, xid: nat, oid: nat, p: nat, block: seq<Byte>, node: BTree.Node)
    requires Omap.Resolved(Physical(img, bs, Node.Omap), tree, oid, xid).Ok?
    requires Omap.Resolved(Physical(img, bs, Node.Omap), tree, oid, xid).value.paddr == p
    requires ReadBlock(img, bs, p) == Ok(block) && Verifies(block) && Node.ParseNode(block, Node.FsTree) == node
    ensures FsTree.Virtual(img, bs, None, tree, xid)(oid) == Ok(node)
  {
  }

  /** A virtual node that resolves to block p fetches as node p. */
  lemma {:induction false} VirtualAt(specs: seq<Spec>, bs: nat, tree: nat, xid: nat, oid: nat, p: nat)
    requires AllFit(specs, bs) && p < |specs| && |specs| * bs < U64 && specs[p].NodeSpec?
    requires Omap.Resolved(Physical(DiskOf(specs, bs), bs, Node.Omap), tree, oid, xid).Ok?
    requires Omap.Resolved(Physical(DiskOf(specs, bs), bs, Node.Omap), tree, oid, xid).value.paddr == p
    ensures FsTree.Virtual(DiskOf(specs, bs), bs, None, tree, xid)(oid) == Ok(NodeOf(specs[p].entries, specs[p].level))
  {
    BlockAt(specs, bs, p);
    var x := specs[p];
    NodeReads(x.entries, x.level, bs, Node.FsTree);
    VirtualFrom(DiskOf(specs, bs), bs, tree, xid, oid, p, NodeBlock(x.entries, x.level, bs), NodeOf(x.entries, x.level));
  }

  // ---------- overwriting a block ----------

  lemma {:induction false} UpdateBefore(front: seq<Byte>, last: seq<Byte>, off: nat, b: seq<Byte>)
    requires off + |b| <= |front|
    ensures (front[..off] + b + front[off + |b|..]) + last == (front + last)[..off] + b + (front + last)[off + |b|..]
  {
  }

  lemma {:induction false} JoinedUpdate(blocks: seq<seq<Byte>>, bs: nat, p: nat, off: nat, b: seq<Byte>)
    requires Sized(blocks, bs) && p < |blocks| && off == p * bs && |b| == bs
    ensures off + bs <= |Joined(blocks)|
    ensures Joined(blocks[p := b]) == Joined(blocks)[..off] + b + Joined(blocks)[off + bs..]
  {
    var n := |blocks| - 1;
    var front, last := blocks[..n], blocks[n];
    assert last in blocks;
    if p < n {
      JoinedUpdate(front, bs, p, off, b);
      assert blocks[p := b][..n] == front[p := b];
      UpdateBefore(Joined(front), last, off, b);
    } else {
      JoinedLength(front, bs);
      assert blocks[p := b][..n] == front;
    }
  }

  lemma {:induction false} DiskUpdate(specs: seq<Spec>, bs: nat, p: nat, x: Spec)
    requires AllFit(specs, bs) && p < |specs| && SpecFits(x, bs)
    ensures AllFit(specs[p := x], bs) && |BlockOf(x, bs)| == bs
    ensures Snapshot.Written(DiskOf(specs, bs), bs, Snapshot.Write(p, BlockOf(x, bs))) == DiskOf(specs[p := x], bs)
  {
    BlocksUpdate(specs, bs, p, x);
    WriteBlock(Blocks(specs, bs), Blocks(specs[p := x], bs), bs, p, BlockOf(x, bs));
  }

  lemma {:induction false} BlocksUpdate(specs: seq<Spec>, bs: nat, p: nat, x: Spec)
    requires AllFit(specs, bs) && p < |specs| && SpecFits(x, bs)
    ensures AllFit(specs[p := x], bs) && Blocks(specs[p := x], bs) == Blocks(specs, bs)[p := BlockOf(x, bs)]
    ensures Sized(Blocks(specs, bs), bs) && |BlockOf(x, bs)| == bs
  {
    BlocksSized(specs, bs);
    BlockSize(x, bs);
  }

  lemma {:induction false} WriteBlock(blocks: seq<seq<Byte>>, after: seq<seq<Byte>>, bs: nat, p: nat, b: seq<Byte>)
    requires Sized(blocks, bs) && p < |blocks| && |b| == bs && after == blocks[p := b]
    ensures Snapshot.Written(Joined(blocks), bs, Snapshot.Write(p, b)) == Joined(after)
  {
    WriteJoined(blocks, bs, p, p * bs, b);
  }

  lemma {:induction false} WriteJoined(blocks: seq<seq<Byte>>, bs: nat, p: nat, off: nat, b: seq<Byte>)
    requires Sized(blocks, bs) && p < |blocks| && off == p * bs && |b| == bs
    ensures Snapshot.Written(Joined(blocks), bs, Snapshot.Write(p, b)) == Joined(blocks[p := b])
  {
    JoinedUpdate(blocks, bs, p, off, b);
    WrittenAt(Joined(blocks), bs, p, off, b);
  }

  lemma {:induction false} WrittenAt(img: seq<Byte>, bs: nat, p: nat, off: nat, b: seq<Byte>)
    requires off == p * bs && |b| == bs && off + bs <= |img|
    ensures Snapshot.Written(img, bs, Snapshot.Write(p, b)) == img[..off] + b + img[off + bs..]
  {
  }
}
