/** Encrypted volumes on images: fs-tree nodes and file data that only the key opens. */
module Encrypted {
  import opened Results
  import opened Bytes
  import opened BTree
  import Node = BTreeNode
  import opened Image
  import opened Disk
  import opened VolumeCrypto
  import Object
  import Omap
  import FsTree
  import Dir
  import FsItems
  import opened Witnesses

  /** Object map, its leaf with one mapping of the given size and flags, and the fs-tree root in block 2. */
  function VolumeSpecs(m: Omap.OmapEntry, root: seq<Byte>): seq<Spec> {
    [OmapSpec(1), NodeSpec([Omap.PrintMapping(m)], 0), RawSpec(root)]
  }

  /** The flags word of a mapping: bit 2 marks an encrypted node. */
  function MappingFlags(low: nat, encrypted: bool, high: nat): nat {
    low + (if encrypted then 4 else 0) + 8 * high
  }

  lemma {:induction false} FlagIsBit2(low: nat, encrypted: bool, high: nat)
    requires low < 4
    ensures FsTree.IsEncrypted(MappingFlags(low, encrypted, high)) == encrypted
  {
  }

  /** The node of a resolved mapping, decrypted or not. */
  lemma {:induction false} OpensEnciphered(plain: seq<Byte>, enc: Cipher, c: Cipher, m: Omap.OmapEntry, bs: nat, encrypted: bool)
    requires LengthPreserving(enc) && Undoes(c, enc) && bs >= 512 && m.paddr > 0 && m.paddr * (bs / 512) < U64
    requires Object.Verifies(plain) && FsTree.IsEncrypted(m.flags) == encrypted
    ensures FsTree.OpenNode(if encrypted then Encipher(plain, enc, m.paddr * (bs / 512)) else plain, bs, Some(c), m) ==
            Ok(Node.ParseNode(plain, Node.FsTree))
  {
    BlockDeciphers(plain, enc, c, m.paddr, bs);
  }

  lemma {:induction false} VolumeFits(m: Omap.OmapEntry, root: seq<Byte>, bs: nat)
    requires 512 <= bs <= 0x1_0000 && |root| == bs
    ensures AllFit(VolumeSpecs(m, root), bs)
  {
    OneEntryFits(Omap.PrintMapping(m), bs);
  }

  lemma {:induction false} ResolvesTo(specs: seq<Spec>, bs: nat, m: Omap.OmapEntry, root: seq<Byte>)
    requires AllFit(specs, bs) && specs == VolumeSpecs(m, root) && bs <= 0x1_0000 && Omap.MappingFits(m)
    ensures Omap.Resolved(Physical(DiskOf(specs, bs), bs, Node.Omap), 1, m.oid, m.xid) == Ok(m)
  {
    var ms := [m];
    assert Omap.PrintMappings(ms) == [Omap.PrintMapping(m)];
    MappingsAt(specs, bs, 1, ms, m.oid, m.xid);
  }

  /** The volume of these specs, with its key. */
  function VolumeOf(m: Omap.OmapEntry): FsTree.Volume {
    FsTree.Volume(m.xid, 0, m.oid)
  }

  lemma {:induction false} HoldsRoot(specs: seq<Spec>, bs: nat, m: Omap.OmapEntry, root: seq<Byte>, c: Cipher, records: seq<Entry>)
    requires AllFit(specs, bs) && specs == VolumeSpecs(m, root) && 0 < bs <= 0x1_0000 && Omap.MappingFits(m) && m.paddr == 2
    requires FsTree.OpenNode(root, bs, Some(c), m) == Ok(Leaf(records))
    ensures FsTree.OpenOmap(DiskOf(specs, bs), bs, 0) == Ok(1)
    ensures FsTree.Virtual(DiskOf(specs, bs), bs, Some(c), 1, m.xid)(m.oid) == Ok(Leaf(records))
  {
    ResolvesTo(specs, bs, m, root);
    OmapAt(specs, bs, 0);
    BlockAt(specs, bs, 2);
  }

  lemma {:induction false} LeafHeld(img: seq<Byte>, bs: nat, m: Omap.OmapEntry, c: Cipher, records: seq<Entry>)
    requires FsTree.OpenOmap(img, bs, 0) == Ok(1) && FsTree.Virtual(img, bs, Some(c), 1, m.xid)(m.oid) == Ok(Leaf(records))
    ensures FsTree.HoldsTree(img, bs, VolumeOf(m), Some(c), TLeaf(m.oid, records)) && FsTree.OidBounds(TLeaf(m.oid, records))
  {
  }

  /** The mapping of the root, and the root as it is stored. */
  function RootMapping(oid: nat, xid: nat, size: nat, low: nat, encrypted: bool, high: nat): Omap.OmapEntry {
    Omap.OmapEntry(oid, xid, 2, size, MappingFlags(low, encrypted, high))
  }

  function StoredRoot(records: seq<Entry>, bs: nat, encrypted: bool, enc: Cipher): seq<Byte>
    requires Fits(records, bs) && LengthPreserving(enc)
  {
    var plain := NodeBlock(records, 0, bs);
    if encrypted then Encipher(plain, enc, 2 * (bs / 512)) else plain
  }

  predicate MappingNumbersFit(oid: nat, xid: nat, size: nat, low: nat, high: nat) {
    oid < U64 && xid < U64 && size < 0x1_0000_0000 && low < 4 && high < 0x2000_0000
  }

  /**
   At every block size of at least a sector: an image of a volume whose fs-tree
   root is stored enciphered sector by sector from its own block number on,
   under a mapping with bit 2 of its flags set, or in the clear under one
   without. With any cipher that undoes the encryption, the fs-tree is there.
   */
  lemma {:induction false} EncryptedVolume(bs: nat, oid: nat, xid: nat, size: nat, low: nat, encrypted: bool, high: nat,
                                           enc: Cipher, c: Cipher, records: seq<Entry>)
    requires 512 <= bs && Fits(records, bs) && LengthPreserving(enc) && Undoes(c, enc) && MappingNumbersFit(oid, xid, size, low, high)
    ensures var m, root := RootMapping(oid, xid, size, low, encrypted, high), StoredRoot(records, bs, encrypted, enc);
            && AllFit(VolumeSpecs(m, root), bs)
            && FsTree.HoldsTree(DiskOf(VolumeSpecs(m, root), bs), bs, FsTree.Volume(xid, 0, oid), Some(c), TLeaf(oid, records))
  {
    NodeReads(records, 0, bs, Node.FsTree);
    var m, root := RootMapping(oid, xid, size, low, encrypted, high), StoredRoot(records, bs, encrypted, enc);
    FlagIsBit2(low, encrypted, high);
    VolumeFits(m, root, bs);
    OpensEnciphered(NodeBlock(records, 0, bs), enc, c, m, bs, encrypted);
    HoldsRoot(VolumeSpecs(m, root), bs, m, root, c, records);
    LeafHeld(DiskOf(VolumeSpecs(m, root), bs), bs, m, c, records);
  }

  /** The walk of that volume, full or keyed, shows its records. */
  lemma {:induction false} EncryptedNodeOpens(bs: nat, oid: nat, xid: nat, size: nat, low: nat, encrypted: bool, high: nat,
                                              enc: Cipher, c: Cipher, records: seq<Entry>, target: Option<nat>)
    requires 512 <= bs && Fits(records, bs) && LengthPreserving(enc) && Undoes(c, enc) && MappingNumbersFit(oid, xid, size, low, high)
    ensures var m, root := RootMapping(oid, xid, size, low, encrypted, high), StoredRoot(records, bs, encrypted, enc);
            && AllFit(VolumeSpecs(m, root), bs)
            && FsTree.WalkFsTree(DiskOf(VolumeSpecs(m, root), bs), bs, FsTree.Volume(xid, 0, oid), Some(c), target) ==
               Walk(Ok(()), {oid}, records)
  {
    EncryptedVolume(bs, oid, xid, size, low, encrypted, high, enc, c, records);
    var m, root := RootMapping(oid, xid, size, low, encrypted, high), StoredRoot(records, bs, encrypted, enc);
    HeldLeafWalk(DiskOf(VolumeSpecs(m, root), bs), bs, FsTree.Volume(xid, 0, oid), Some(c), records, target);
  }

  lemma {:induction false} HeldLeafWalk(img: seq<Byte>, bs: nat, vol: FsTree.Volume, vek: Option<Cipher>, records: seq<Entry>, target: Option<nat>)
    requires FsTree.HoldsTree(img, bs, vol, vek, TLeaf(vol.rootTreeOid, records))
    ensures FsTree.WalkFsTree(img, bs, vol, vek, target) == Walk(Ok(()), {vol.rootTreeOid}, records)
  {
    var fetch := FsTree.Virtual(img, bs, vek, FsTree.OpenOmap(img, bs, vol.omapOid).value, vol.xid);
    LeafWalk(fetch, FsTree.Keyed(target), vol.rootTreeOid, records);
  }

  /** And its paths open, its directories list and its extents are as its records were written. */
  lemma {:induction false} EncryptedVolumeShows(bs: nat, oid: nat, xid: nat, size: nat, low: nat, encrypted: bool, high: nat,
                                                enc: Cipher, c: Cipher, items: seq<FsItems.Item>,
                                                words: seq<seq<Byte>>, value: seq<Byte>, parent: nat)
    requires 512 <= bs && Fits(FsItems.PrintItems(items), bs) && FsItems.AllItemsFit(items)
    requires LengthPreserving(enc) && Undoes(c, enc) && MappingNumbersFit(oid, xid, size, low, high)
    requires forall i :: 0 <= i < |words| ==> FsItems.IsWord(words[i])
    ensures var m, root := RootMapping(oid, xid, size, low, encrypted, high), StoredRoot(FsItems.PrintItems(items), bs, encrypted, enc);
            && AllFit(VolumeSpecs(m, root), bs)
            && var img, vol := DiskOf(VolumeSpecs(m, root), bs), FsTree.Volume(xid, 0, oid);
               && (Dir.Opened(Dir.Walked(img, bs, vol, Some(c)), xid, FsItems.PathOf(words)) == Ok(value) <==>
                     exists end: nat :: FsItems.Reaches(items, 2, words, end) && FsItems.InodeIs(items, end, value))
               && Dir.DirOf(Dir.Walked(img, bs, vol, Some(c)), parent) == Ok(FsItems.Links(items, parent))
  {
    var records := FsItems.PrintItems(items);
    EncryptedVolume(bs, oid, xid, size, low, encrypted, high, enc, c, records);
    var m, root := RootMapping(oid, xid, size, low, encrypted, high), StoredRoot(records, bs, encrypted, enc);
    var img, vol := DiskOf(VolumeSpecs(m, root), bs), FsTree.Volume(xid, 0, oid);
    FsItems.ImageShowsItems(img, bs, vol, Some(c), TLeaf(oid, records), items, words, value, parent);
  }
}
