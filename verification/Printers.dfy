/** Objects as the format lays them out, written to be read back: header, fields, stamped checksum. */
module Printers {
  import opened Results
  import opened Bytes
  import opened Object
  import opened Image
  import FsTree
  import Snapshot
  import Spaceman

  // ---------- any object ----------

  /** The object header behind the checksum, except for the type number. */
  datatype Header = Header(oid: nat, xid: nat, storage: nat, subtype: nat)

  predicate HeaderFits(h: Header) {
    h.oid < U64 && h.xid < U64 && h.storage < 0x1_0000 && h.subtype < 0x1_0000_0000
  }

  function HeaderThen(h: Header, kind: nat, body: seq<Byte>): seq<Byte> {
    LeBytes(h.oid, 8) + (LeBytes(h.xid, 8) + (LeBytes(h.storage * 0x1_0000 + kind, 4) + (LeBytes(h.subtype, 4) + body)))
  }

  /** The object of a type whose header is followed by `body`. */
  function PrintObject(h: Header, kind: nat, body: seq<Byte>): (block: seq<Byte>)
    ensures |block| == 32 + |body|
  {
    Stamp(Zeros(8) + HeaderThen(h, kind, body))
  }

  /** Stamping leaves everything past the checksum in place. */
  lemma {:induction false} StampedBody(rest: seq<Byte>)
    ensures At(Stamp(Zeros(8) + rest), 8, rest)
  {
    var block := Zeros(8) + rest;
    assert block[8..] == rest;
    AtRight(LeBytes(Fletcher64(block), 8), rest);
  }

  lemma {:induction false} HeaderFields(block: seq<Byte>, oid: nat, xid: nat, word: nat, subtype: nat, body: seq<Byte>)
    requires oid < U64 && xid < U64 && word < 0x1_0000_0000 && subtype < 0x1_0000_0000
    requires At(block, 8, LeBytes(oid, 8) + (LeBytes(xid, 8) + (LeBytes(word, 4) + (LeBytes(subtype, 4) + body))))
    ensures LeU64(block, 8) == oid && LeU64(block, 16) == xid && LeU32(block, 24) == word && LeU32(block, 28) == subtype
    ensures At(block, 32, body)
  {
    Pow256Values();
    var r28 := LeBytes(subtype, 4) + body;
    var r24 := LeBytes(word, 4) + r28;
    FieldThen(block, 8, oid, 8, LeBytes(xid, 8) + r24);
    FieldThen(block, 16, xid, 8, r24);
    FieldThen(block, 24, word, 4, r28);
    FieldThen(block, 28, subtype, 4, body);
  }

  lemma {:induction false} TypeWord(storage: nat, kind: nat)
    requires storage < 0x1_0000 && kind < 0x1_0000
    ensures storage * 0x1_0000 + kind < 0x1_0000_0000 && (storage * 0x1_0000 + kind) % 0x1_0000 == kind
  {
  }

  /** It verifies, and its header and body are where they belong. */
  lemma {:induction false} ObjectReads(h: Header, kind: nat, body: seq<Byte>)
    requires HeaderFits(h) && kind < 0x1_0000
    ensures var block := PrintObject(h, kind, body);
            && Verifies(block) && LeU64(block, 8) == h.oid && LeU64(block, 16) == h.xid && LeU32(block, 28) == h.subtype
            && LeU32(block, 24) % 0x1_0000 == kind && At(block, 32, body)
  {
    var rest := HeaderThen(h, kind, body);
    StampVerifies(Zeros(8) + rest);
    StampedBody(rest);
    TypeWord(h.storage, kind);
    HeaderFields(PrintObject(h, kind, body), h.oid, h.xid, h.storage * 0x1_0000 + kind, h.subtype, body);
  }

  /** The block is on the image. */
  ghost predicate BlockOn(img: seq<Byte>, bs: nat, paddr: nat, block: seq<Byte>) {
    |block| == bs && paddr * bs < U64 && At(img, paddr * bs, block)
  }

  lemma {:induction false} ObjectOn(img: seq<Byte>, bs: nat, paddr: nat, h: Header, kind: nat, body: seq<Byte>)
    requires BlockOn(img, bs, paddr, PrintObject(h, kind, body)) && HeaderFits(h) && kind < 0x1_0000
    ensures ReadObject(img, bs, paddr) == Ok(PrintObject(h, kind, body))
  {
    ObjectReads(h, kind, body);
  }

  // ---------- object maps and volumes ----------

  /** An object map whose tree is rooted at a block. */
  function OmapBody(tree: nat, bs: nat): (b: seq<Byte>)
    requires bs >= 56
    ensures |b| == bs - 32
  {
    Zeros(16) + (LeBytes(tree, 8) + Zeros(bs - 56))
  }

  function PrintOmap(h: Header, tree: nat, bs: nat): (block: seq<Byte>)
    requires bs >= 56
    ensures |block| == bs
  {
    PrintObject(h, 0xb, OmapBody(tree, bs))
  }

  lemma {:induction false} OmapReads(h: Header, tree: nat, bs: nat)
    requires HeaderFits(h) && bs >= 56 && tree < U64
    ensures FsTree.ParseOmap(PrintOmap(h, tree, bs)) == Ok(tree)
  {
    var block := PrintOmap(h, tree, bs);
    ObjectReads(h, 0xb, OmapBody(tree, bs));
    Pow256Values();
    AtSplit(block, 32, Zeros(16), LeBytes(tree, 8) + Zeros(bs - 56));
    FieldThen(block, 48, tree, 8, Zeros(bs - 56));
  }

  function VolumeBody(omap: nat, root: nat, bs: nat): (b: seq<Byte>)
    requires bs >= 144
    ensures |b| == bs - 32
  {
    LeBytes(0x4253_5041, 4) + (Zeros(92) + (LeBytes(omap, 8) + (LeBytes(root, 8) + Zeros(bs - 144))))
  }

  /** A volume superblock. */
  function PrintVolume(h: Header, omap: nat, root: nat, bs: nat): (block: seq<Byte>)
    requires bs >= 144
    ensures |block| == bs
  {
    PrintObject(h, 0xd, VolumeBody(omap, root, bs))
  }

  lemma {:induction false} VolumeReads(h: Header, omap: nat, root: nat, bs: nat)
    requires HeaderFits(h) && bs >= 144 && omap < U64 && root < U64
    ensures Snapshot.ParseVolume(PrintVolume(h, omap, root, bs)) ==
            if bs >= 960 then Ok(FsTree.Volume(h.xid, omap, root)) else Err(UnexpectedObjectType(0x4253_5041, 0))
  {
    ObjectReads(h, 0xd, VolumeBody(omap, root, bs));
    VolumeFields(PrintVolume(h, omap, root, bs), omap, root, bs);
  }

  lemma {:induction false} VolumeFields(block: seq<Byte>, omap: nat, root: nat, bs: nat)
    requires bs >= 144 && omap < U64 && root < U64 && At(block, 32, VolumeBody(omap, root, bs))
    ensures LeU32(block, 32) == 0x4253_5041 && LeU64(block, 128) == omap && LeU64(block, 136) == root
  {
    Pow256Values();
    var r136 := LeBytes(root, 8) + Zeros(bs - 144);
    var r128 := LeBytes(omap, 8) + r136;
    FieldThen(block, 32, 0x4253_5041, 4, Zeros(92) + r128);
    AtSplit(block, 36, Zeros(92), r128);
    FieldThen(block, 128, omap, 8, r136);
    FieldThen(block, 136, root, 8, Zeros(bs - 144));
  }

  // ---------- space managers ----------

  /** The main device: sizes and counts, and where the array of chunk-info addresses starts. */
  datatype Geometry = Geometry(perChunk: nat, perCib: nat, blocks: nat, chunks: nat, cibs: nat, cabs: nat, arrayAt: nat)

  predicate GeometryFits(g: Geometry) {
    && g.perChunk < 0x1_0000_0000 && g.perCib < 0x1_0000_0000 && g.blocks < U64 && g.chunks < U64
    && g.cibs < 0x1_0000_0000 && g.cabs < 0x1_0000_0000 && 84 <= g.arrayAt < 0x1_0000_0000
  }

  function PrintWords(ws: seq<nat>): (b: seq<Byte>)
    ensures |b| == 8 * |ws|
  {
    if ws == [] then [] else LeBytes(ws[0], 8) + PrintWords(ws[1..])
  }

  ghost predicate WordsFit(ws: seq<nat>) {
    forall w :: w in ws ==> w < U64
  }

  lemma {:induction false} WordReads(data: seq<Byte>, at: nat, ws: seq<nat>, i: nat)
    requires At(data, at, PrintWords(ws)) && WordsFit(ws) && i < |ws|
    ensures LeU64(data, at + 8 * i) == ws[i]
    decreases |ws|
  {
    assert ws[0] in ws;
    Pow256Values();
    FieldThen(data, at, ws[0], 8, PrintWords(ws[1..]));
    if i > 0 {
      assert forall w :: w in ws[1..] ==> w in ws;
      WordReads(data, at + 8, ws[1..], i - 1);
    }
  }

  function SpacemanBody(g: Geometry, cibs: seq<nat>, bs: nat): (b: seq<Byte>)
    requires 84 <= g.arrayAt && g.arrayAt + 8 * |cibs| <= bs
    ensures |b| == bs - 32
  {
    Zeros(4) + (LeBytes(g.perChunk, 4) + (LeBytes(g.perCib, 4) + (Zeros(4) + (LeBytes(g.blocks, 8) + (LeBytes(g.chunks, 8) +
    (LeBytes(g.cibs, 4) + (LeBytes(g.cabs, 4) + (Zeros(8) + (LeBytes(g.arrayAt, 4) + (Zeros(g.arrayAt - 84) +
    (PrintWords(cibs) + Zeros(bs - g.arrayAt - 8 * |cibs|))))))))))))
  }

  /** A space manager whose chunk-info blocks are at these addresses. */
  function PrintSpaceman(h: Header, g: Geometry, cibs: seq<nat>, bs: nat): (block: seq<Byte>)
    requires 84 <= g.arrayAt && g.arrayAt + 8 * |cibs| <= bs
    ensures |block| == bs
  {
    PrintObject(h, 5, SpacemanBody(g, cibs, bs))
  }

  /** The fields of a space manager, as the reader finds them. */
  ghost predicate Describes(sm: seq<Byte>, g: Geometry, cibs: seq<nat>) {
    && Verifies(sm) && LeU32(sm, 36) == g.perChunk && LeU32(sm, 40) == g.perCib && LeU64(sm, 48) == g.blocks && LeU64(sm, 56) == g.chunks
    && LeU32(sm, 64) == g.cibs && LeU32(sm, 68) == g.cabs && LeU32(sm, 80) == g.arrayAt
    && forall i :: 0 <= i < |cibs| ==> LeU64(sm, g.arrayAt + 8 * i) == cibs[i]
  }

  lemma {:induction false} SpacemanReads(h: Header, g: Geometry, cibs: seq<nat>, bs: nat)
    requires HeaderFits(h) && GeometryFits(g) && WordsFit(cibs) && g.arrayAt + 8 * |cibs| <= bs
    ensures Describes(PrintSpaceman(h, g, cibs, bs), g, cibs)
  {
    var sm := PrintSpaceman(h, g, cibs, bs);
    ObjectReads(h, 5, SpacemanBody(g, cibs, bs));
    SpacemanFields(sm, g, PrintWords(cibs), Zeros(bs - g.arrayAt - 8 * |cibs|));
    forall i | 0 <= i < |cibs| ensures LeU64(sm, g.arrayAt + 8 * i) == cibs[i] {
      WordReads(sm, g.arrayAt, cibs, i);
    }
  }

  lemma {:induction false} SpacemanFields(sm: seq<Byte>, g: Geometry, words: seq<Byte>, tail: seq<Byte>)
    requires GeometryFits(g)
    requires At(sm, 32, Zeros(4) + (LeBytes(g.perChunk, 4) + (LeBytes(g.perCib, 4) + (Zeros(4) + (LeBytes(g.blocks, 8) + (LeBytes(g.chunks, 8) +
                        (LeBytes(g.cibs, 4) + (LeBytes(g.cabs, 4) + (Zeros(8) + (LeBytes(g.arrayAt, 4) + (Zeros(g.arrayAt - 84) +
                        (words + tail))))))))))))
    ensures LeU32(sm, 36) == g.perChunk && LeU32(sm, 40) == g.perCib && LeU64(sm, 48) == g.blocks && LeU64(sm, 56) == g.chunks
    ensures LeU32(sm, 64) == g.cibs && LeU32(sm, 68) == g.cabs && LeU32(sm, 80) == g.arrayAt && At(sm, g.arrayAt, words)
  {
    Pow256Values();
    var r84 := Zeros(g.arrayAt - 84) + (words + tail);
    var r80 := LeBytes(g.arrayAt, 4) + r84;
    var r72 := Zeros(8) + r80;
    var r68 := LeBytes(g.cabs, 4) + r72;
    var r64 := LeBytes(g.cibs, 4) + r68;
    var r56 := LeBytes(g.chunks, 8) + r64;
    var r48 := LeBytes(g.blocks, 8) + r56;
    var r44 := Zeros(4) + r48;
    var r40 := LeBytes(g.perCib, 4) + r44;
    var r36 := LeBytes(g.perChunk, 4) + r40;
    AtSplit(sm, 32, Zeros(4), r36);
    FieldThen(sm, 36, g.perChunk, 4, r40);
    FieldThen(sm, 40, g.perCib, 4, r44);
    AtSplit(sm, 44, Zeros(4), r48);
    FieldThen(sm, 48, g.blocks, 8, r56);
    FieldThen(sm, 56, g.chunks, 8, r64);
    FieldThen(sm, 64, g.cibs, 4, r68);
    FieldThen(sm, 68, g.cabs, 4, r72);
    AtSplit(sm, 72, Zeros(8), r80);
    FieldThen(sm, 80, g.arrayAt, 4, r84);
    AtSplit(sm, 84, Zeros(g.arrayAt - 84), words + tail);
    AtSplit(sm, g.arrayAt, words, tail);
  }

  /** Chunk infos: transaction, address and counts are not read, the bitmap address is. */
  function PrintInfos(bitmaps: seq<nat>): (b: seq<Byte>)
    ensures |b| == 32 * |bitmaps|
  {
    if bitmaps == [] then [] else Zeros(24) + (LeBytes(bitmaps[0], 8) + PrintInfos(bitmaps[1..]))
  }

  lemma {:induction false} InfoReads(data: seq<Byte>, at: nat, bitmaps: seq<nat>, i: nat)
    requires At(data, at, PrintInfos(bitmaps)) && WordsFit(bitmaps) && i < |bitmaps|
    ensures LeU64(data, at + 32 * i + 24) == bitmaps[i]
    decreases |bitmaps|
  {
    assert bitmaps[0] in bitmaps;
    Pow256Values();
    AtSplit(data, at, Zeros(24), LeBytes(bitmaps[0], 8) + PrintInfos(bitmaps[1..]));
    FieldThen(data, at + 24, bitmaps[0], 8, PrintInfos(bitmaps[1..]));
    if i > 0 {
      assert forall w :: w in bitmaps[1..] ==> w in bitmaps;
      InfoReads(data, at + 32, bitmaps[1..], i - 1);
    }
  }

  function CibBody(bitmaps: seq<nat>, bs: nat): (b: seq<Byte>)
    requires 40 + 32 * |bitmaps| <= bs
    ensures |b| == bs - 32
  {
    Zeros(4) + (LeBytes(|bitmaps|, 4) + (PrintInfos(bitmaps) + Zeros(bs - 40 - 32 * |bitmaps|)))
  }

  /** A chunk-info block that lists chunks with these bitmap addresses. */
  function PrintCib(h: Header, bitmaps: seq<nat>, bs: nat): (block: seq<Byte>)
    requires 40 + 32 * |bitmaps| <= bs
    ensures |block| == bs
  {
    PrintObject(h, 7, CibBody(bitmaps, bs))
  }

  lemma {:induction false} CibFields(cib: seq<Byte>, bitmaps: seq<nat>, tail: seq<Byte>)
    requires WordsFit(bitmaps) && |bitmaps| < 0x1_0000_0000
    requires At(cib, 32, Zeros(4) + (LeBytes(|bitmaps|, 4) + (PrintInfos(bitmaps) + tail)))
    ensures Spaceman.ChunkInfos(cib) == bitmaps
  {
    var infos := PrintInfos(bitmaps);
    Pow256Values();
    AtSplit(cib, 32, Zeros(4), LeBytes(|bitmaps|, 4) + (infos + tail));
    FieldThen(cib, 36, |bitmaps|, 4, infos + tail);
    AtSplit(cib, 40, infos, tail);
    forall w | 0 <= w < |bitmaps| ensures LeU64(cib, 40 + w * 32 + 24) == bitmaps[w] {
      InfoReads(cib, 40, bitmaps, w);
    }
  }

  lemma {:induction false} CibReads(h: Header, bitmaps: seq<nat>, bs: nat)
    requires HeaderFits(h) && WordsFit(bitmaps) && 40 + 32 * |bitmaps| <= bs && |bitmaps| < 0x1_0000_0000
    ensures Verifies(PrintCib(h, bitmaps, bs)) && Spaceman.ChunkInfos(PrintCib(h, bitmaps, bs)) == bitmaps
  {
    ObjectReads(h, 7, CibBody(bitmaps, bs));
    CibFields(PrintCib(h, bitmaps, bs), bitmaps, Zeros(bs - 40 - 32 * |bitmaps|));
  }
}
