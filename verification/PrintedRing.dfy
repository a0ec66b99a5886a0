/** Checkpoint rings written block by block, and what resolution makes of them (core/src/checkpoint.rs). */
module PrintedRing {
  import opened Results
  import opened Bytes
  import Object
  import opened Printers
  import opened Checkpoint

  /** A mapping and the bytes between its fields, which are not read. */
  datatype Stored = Stored(mapping: Mapping, between: seq<Byte>)

  /** What a slot of the ring is written as. */
  datatype Printed =
    | Super(header: Header, magic: nat, rest: seq<Byte>)
    | Map(header: Header, flags: nat, maps: seq<Stored>, rest: seq<Byte>)
    | Other(header: Header, kind: nat, rest: seq<Byte>)
    | Damaged(block: seq<Byte>)

  function PrintMaps(maps: seq<Stored>): seq<Byte> {
    if maps == [] then [] else Checkpoint.Printed(maps[0].mapping, maps[0].between) + PrintMaps(maps[1..])
  }

  /** The block of a slot; the type numbers are the format's. */
  function PrintSlot(p: Printed): seq<Byte> {
    match p
    case Super(h, magic, rest) => PrintObject(h, 0x1, LeBytes(magic, 4) + rest)
    case Map(h, flags, maps, rest) => PrintObject(h, 0xc, LeBytes(flags, 4) + (LeBytes(|maps|, 4) + (PrintMaps(maps) + rest)))
    case Other(h, kind, rest) => PrintObject(h, kind, rest)
    case Damaged(block) => block
  }

  ghost predicate SlotFits(p: Printed, bs: nat) {
    && |PrintSlot(p)| == bs
    && match p
       case Super(h, magic, _) => HeaderFits(h) && magic < 0x1_0000_0000
       case Map(h, flags, maps, _) => HeaderFits(h) && flags < 0x1_0000_0000 && |maps| <= 4096 && forall x :: x in maps ==> StoredFits(x)
       case Other(h, kind, _) => HeaderFits(h) && kind < 0x1_0000 && kind != 0x1 && kind != 0xc
       case Damaged(block) => |block| >= 32 && !Object.Verifies(block)
  }

  ghost predicate StoredFits(x: Stored) {
    |x.between| == 16 && Fits(x.mapping)
  }

  /** A superblock with the container's magic. */
  predicate Valid(p: Printed) {
    p.Super? && p.magic == 0x4253_584E
  }

  /** The mappings a slot contributes to a transaction. */
  function MapsOf(p: Printed, xid: nat): seq<Mapping> {
    if p.Map? && p.header.xid == xid then seq(|p.maps|, i requires 0 <= i < |p.maps| => p.maps[i].mapping) else []
  }

  function AllMaps(slots: seq<Printed>, xid: nat): seq<Mapping> {
    if slots == [] then [] else AllMaps(slots[..|slots| - 1], xid) + MapsOf(slots[|slots| - 1], xid)
  }

  // ---------- one slot ----------

  lemma {:induction false} SuperReads(p: Printed, bs: nat)
    requires SlotFits(p, bs) && p.Super?
    ensures Typed(Some(PrintSlot(p))) && XidOf(PrintSlot(p)) == p.header.xid && MagicOf(PrintSlot(p)) == p.magic
    ensures Superblock(Some(PrintSlot(p))) == Valid(p)
  {
    var block, body := PrintSlot(p), LeBytes(p.magic, 4) + p.rest;
    ObjectReads(p.header, 0x1, body);
    Pow256Values();
    FieldThen(block, 32, p.magic, 4, p.rest);
  }

  lemma {:induction false} MapsInPlace(block: seq<Byte>, at: nat, maps: seq<Stored>, m: nat)
    requires At(block, at, PrintMaps(maps)) && m < |maps| && forall x :: x in maps ==> StoredFits(x)
    ensures At(block, at + m * 40, Checkpoint.Printed(maps[m].mapping, maps[m].between))
    decreases |maps|
  {
    assert maps[0] in maps;
    AtSplit(block, at, Checkpoint.Printed(maps[0].mapping, maps[0].between), PrintMaps(maps[1..]));
    if m > 0 {
      assert forall x :: x in maps[1..] ==> x in maps;
      MapsInPlace(block, at + 40, maps[1..], m - 1);
    }
  }

  lemma {:induction false} MapFields(block: seq<Byte>, flags: nat, maps: seq<Stored>, rest: seq<Byte>, xs: seq<Mapping>)
    requires flags < 0x1_0000_0000 && |maps| <= 4096 && forall x :: x in maps ==> StoredFits(x)
    requires At(block, 32, LeBytes(flags, 4) + (LeBytes(|maps|, 4) + (PrintMaps(maps) + rest)))
    requires |xs| == |maps| && forall i :: 0 <= i < |xs| ==> xs[i] == maps[i].mapping
    ensures CountOf(block) == |maps| && FirstMappings(block, |maps|) == xs
  {
    Pow256Values();
    FieldThen(block, 32, flags, 4, LeBytes(|maps|, 4) + (PrintMaps(maps) + rest));
    FieldThen(block, 36, |maps|, 4, PrintMaps(maps) + rest);
    AtSplit(block, 40, PrintMaps(maps), rest);
    forall m | 0 <= m < |xs| ensures InPlace(block, m, xs[m]) {
      assert maps[m] in maps;
      MapsInPlace(block, 40, maps, m);
    }
    MapRoundTrip(block, xs);
  }

  /** Every slot is to the reader what it was written as. */
  lemma {:induction false} SlotReads(p: Printed, bs: nat, xid: nat)
    requires SlotFits(p, bs)
    ensures Superblock(Some(PrintSlot(p))) == Valid(p) && (Valid(p) ==> XidOf(PrintSlot(p)) == p.header.xid)
    ensures SlotMappings(Some(PrintSlot(p)), xid) == MapsOf(p, xid)
  {
    match p
    case Super(h, magic, rest) =>
      SuperReads(p, bs);
    case Map(h, flags, maps, rest) =>
      ObjectReads(h, 0xc, LeBytes(flags, 4) + (LeBytes(|maps|, 4) + (PrintMaps(maps) + rest)));
      MapFields(PrintSlot(p), flags, maps, rest, MapsOf(p, h.xid));
    case Other(h, kind, rest) =>
      ObjectReads(h, kind, rest);
    case Damaged(block) =>
  }

  // ---------- the ring ----------

  ghost predicate AllFit(slots: seq<Printed>, bs: nat) {
    forall i :: 0 <= i < |slots| ==> SlotFits(slots[i], bs)
  }

  /** The ring holds these slots. */
  ghost predicate Holds(ring: seq<Slot>, slots: seq<Printed>) {
    |ring| == |slots| && forall i :: 0 <= i < |slots| ==> ring[i] == Some(PrintSlot(slots[i]))
  }

  /** Slot k is the first of the written superblocks with the greatest written transaction. */
  ghost predicate NewestWritten(slots: seq<Printed>, k: nat) {
    && k < |slots| && Valid(slots[k])
    && (forall j :: 0 <= j < |slots| && Valid(slots[j]) ==> slots[j].header.xid <= slots[k].header.xid)
    && (forall j :: 0 <= j < k && Valid(slots[j]) ==> slots[j].header.xid < slots[k].header.xid)
  }

  lemma {:induction false} RingMappings(ring: seq<Slot>, slots: seq<Printed>, bs: nat, xid: nat)
    requires Holds(ring, slots) && AllFit(slots, bs)
    ensures Mappings(ring, xid) == AllMaps(slots, xid)
    decreases |slots|
  {
    if slots != [] {
      var n := |slots| - 1;
      RingMappings(ring[..n], slots[..n], bs, xid);
      SlotReads(slots[n], bs, xid);
      assert ring[n] == Some(PrintSlot(slots[n]));
    }
  }

  lemma {:induction false} RingResolves(ring: seq<Slot>, slots: seq<Printed>, bs: nat)
    requires Holds(ring, slots) && AllFit(slots, bs)
    ensures match Resolve(ring)
            case Ok(live) =>
              && NewestWritten(slots, live.slot) && live.xid == slots[live.slot].header.xid
              && live.mappings == AllMaps(slots, live.xid)
            case Err(e) => e.NoValidSuperblock? && forall j :: 0 <= j < |slots| ==> !Valid(slots[j])
  {
    forall j | 0 <= j < |slots|
      ensures Superblock(ring[j]) == Valid(slots[j]) && (Valid(slots[j]) ==> XidOf(ring[j].value) == slots[j].header.xid)
    {
      SlotReads(slots[j], bs, 0);
    }
    ResolveExact(ring);
    if Resolve(ring).Ok? {
      RingMappings(ring, slots, bs, Resolve(ring).value.xid);
    }
  }

  /** The magic of the last superblock written, valid or not. */
  function LastWritten(slots: seq<Printed>): nat {
    if slots == [] then 0
    else if slots[|slots| - 1].Super? then slots[|slots| - 1].magic
    else LastWritten(slots[..|slots| - 1])
  }

  /** What a failed resolution reports, on a ring without damaged slots. */
  lemma {:induction false} RingReports(ring: seq<Slot>, slots: seq<Printed>, bs: nat)
    requires Holds(ring, slots) && AllFit(slots, bs) && forall i :: 0 <= i < |slots| ==> !slots[i].Damaged?
    ensures Readable(ring) == |slots| && LastMagic(ring) == LastWritten(slots)
    decreases |slots|
  {
    if slots != [] {
      var n := |slots| - 1;
      RingReports(ring[..n], slots[..n], bs);
      assert ring[n] == Some(PrintSlot(slots[n]));
      match slots[n]
      case Super(_, _, _) => SuperReads(slots[n], bs);
      case Map(h, flags, maps, rest) =>
        ObjectReads(h, 0xc, LeBytes(flags, 4) + (LeBytes(|maps|, 4) + (PrintMaps(maps) + rest)));
      case Other(h, kind, rest) => ObjectReads(h, kind, rest);
    }
  }

  /** The slots are on the image, one block each, from the ring's base on. */
  ghost predicate OnImage(img: seq<Byte>, boot: Bootstrap, slots: seq<Printed>) {
    && boot.descBlocks == |slots|
    && forall i :: 0 <= i < |slots| ==> BlockOn(img, boot.blockSize, boot.descBase + i, PrintSlot(slots[i]))
  }

  lemma {:induction false} SlotOnImage(img: seq<Byte>, bs: nat, paddr: nat, block: seq<Byte>)
    requires BlockOn(img, bs, paddr, block)
    ensures ReadSlot(img, bs, paddr) == Some(block)
  {
  }

  lemma {:induction false} RingOnImage(img: seq<Byte>, boot: Bootstrap, slots: seq<Printed>)
    requires OnImage(img, boot, slots)
    ensures Holds(Ring(img, boot.blockSize, boot.descBase, boot.descBlocks), slots)
  {
    var bs, base := boot.blockSize, boot.descBase;
    forall i | 0 <= i < |slots| ensures ReadSlot(img, bs, base + i) == Some(PrintSlot(slots[i])) {
      SlotOnImage(img, bs, base + i, PrintSlot(slots[i]));
    }
  }

  /**
   On every image whose ring was written from such slots, resolution returns the
   first of the superblocks with the greatest transaction, that transaction, and
   the mappings written for it in ring order; it fails exactly when no superblock
   was written.
   */
  lemma {:induction false} ImageResolves(img: seq<Byte>, boot: Bootstrap, slots: seq<Printed>)
    requires !boot.descIsTree && 4096 <= boot.blockSize <= 65536 && OnImage(img, boot, slots) && AllFit(slots, boot.blockSize)
    ensures match ResolveFrom(img, boot)
            case Ok(live) =>
              && NewestWritten(slots, live.slot) && live.xid == slots[live.slot].header.xid
              && live.mappings == AllMaps(slots, live.xid)
            case Err(e) =>
              && e.NoValidSuperblock? && (forall j :: 0 <= j < |slots| ==> !Valid(slots[j]))
              && ((forall j :: 0 <= j < |slots| ==> !slots[j].Damaged?) ==> e == NoValidSuperblock(|slots|, LastWritten(slots)))
  {
    RingOnImage(img, boot, slots);
    var ring := Ring(img, boot.blockSize, boot.descBase, boot.descBlocks);
    RingResolves(ring, slots, boot.blockSize);
    if forall j :: 0 <= j < |slots| ==> !slots[j].Damaged? {
      RingReports(ring, slots, boot.blockSize);
    }
  }
}
