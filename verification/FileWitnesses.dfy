/** Transactions that spare a snapshot's file data, and one that does not. */
module FileWitnesses {
  import opened Results
  import opened Bytes
  import opened BTree
  import opened Image
  import opened Printers
  import opened Disk
  import Damage
  import Object
  import FsTree
  import FsItems
  import Snapshot
  import opened Extent
  import opened FileIsolation
  import opened Witnesses

  // ---------- file isolation has runs ----------

  /** None of these records places file data in blocks 4, 5 and 6. */
  ghost predicate SparesData(records: seq<Entry>, bs: nat)
    requires bs > 0
  {
    forall r :: r in records && FsTree.KeyType(r.key) == FILE_EXTENT ==>
      forall p :: 4 <= p <= 6 ==> !HoldsData(ParseExtent(r), bs, p)
  }

  lemma {:induction false} ExtentHasRecord(rs: seq<Entry>, stream: nat, e: FileExtent)
    requires e in ExtentsOf(rs, stream)
    ensures exists r :: r in rs && IsExtent(r, stream) && ParseExtent(r) == e
    decreases |rs|
  {
    var n := |rs| - 1;
    if e in ExtentsOf(rs[..n], stream) {
      ExtentHasRecord(rs[..n], stream, e);
    } else {
      assert rs[n] in rs;
    }
  }

  lemma {:induction false} ExtentsShown(s: Snapshot.State, bs: nat, oid: nat, x: nat, records: seq<Entry>, stream: nat)
    requires s.omapOid == 1 && Mountable(s.img, bs, oid, x, records)
    ensures ExtentsIn(s, bs, 0, None, stream) == Ok(SortByOffset(ExtentsOf(records, stream)))
  {
    ViewOfMountable(s, bs, oid, x, records, Some(stream));
  }

  lemma {:induction false} DataUnpinned(s: Snapshot.State, bs: nat, oid: nat, x: nat, records: seq<Entry>, p: nat)
    requires bs > 0 && s.omapOid == 1 && Mountable(s.img, bs, oid, x, records) && SparesData(records, bs) && 4 <= p <= 6
    ensures !PinnedData(s, bs, 0, None, p)
  {
    forall stream: nat, e | DataOf(s, bs, 0, None, stream, e) ensures !HoldsData(e, bs, p) {
      ExtentsShown(s, bs, oid, x, records, stream);
      SortSorts(ExtentsOf(records, stream));
      assert e in multiset(SortByOffset(ExtentsOf(records, stream)));
      ExtentHasRecord(records, stream, e);
    }
  }

  /** The transaction of `TransactionExists` spares the snapshot's file data whenever the snapshot keeps none where it writes. */
  lemma {:induction false} FileTransactionExists(bs: nat, oid: nat, x: nat, y: nat, records: seq<Entry>, newer: seq<Entry>)
    requires Usable(bs, oid, x, y, records, newer) && SparesData(records, bs)
    ensures AllFit(BeforeSpecs(oid, x, records), bs) && AllFit(AfterSpecs(oid, x, y, records, newer), bs)
    ensures FileStep(StateOf(BeforeSpecs(oid, x, records), bs, 1), StateOf(AfterSpecs(oid, x, y, records, newer), bs, 4), bs, 0, None)
  {
    TransactionExists(bs, oid, x, y, records, newer);
    WritesSpareData(BeforeSpecs(oid, x, records), AfterSpecs(oid, x, y, records, newer), bs, oid, x, records);
  }

  lemma {:induction false} WritesSpareData(before: seq<Spec>, after: seq<Spec>, bs: nat, oid: nat, x: nat, records: seq<Entry>)
    requires 0 < bs <= 0x1_0000 && oid < U64 && x < U64 && SparesData(records, bs) && AllFit(before, bs) && AllFit(after, bs)
    requires before == BeforeSpecs(oid, x, records) && |after| == 7
    requires after == before[4 := after[4]][5 := after[5]][6 := after[6]]
    requires Snapshot.Step(StateOf(before, bs, 1), StateOf(after, bs, 4), bs, 0, None)
    ensures FileStep(StateOf(before, bs, 1), StateOf(after, bs, 4), bs, 0, None)
  {
    var s := StateOf(before, bs, 1);
    var ws := AfterIsWritten(before, after, bs);
    BeforeIsMountable(before, bs, oid, x, records);
    SparingStep(s, StateOf(after, bs, 4), bs, ws, oid, x, records);
  }

  lemma {:induction false} SparingStep(s: Snapshot.State, s': Snapshot.State, bs: nat, ws: seq<Snapshot.Write>, oid: nat, x: nat, records: seq<Entry>)
    requires bs > 0 && s.omapOid == 1 && Mountable(s.img, bs, oid, x, records) && SparesData(records, bs)
    requires Snapshot.Step(s, s', bs, 0, None) && s'.img == Snapshot.WrittenAll(s.img, bs, ws)
    requires forall w: Snapshot.Write :: w in ws ==> |w.data| == bs && w.paddr in {4, 5, 6}
    ensures FileStep(s, s', bs, 0, None)
  {
    forall w: Snapshot.Write | w in ws ensures !PinnedData(s, bs, 0, None, w.paddr) {
      DataUnpinned(s, bs, oid, x, records, w.paddr);
    }
  }

  // ---------- sparing the data is necessary ----------

  /** One block of file data, at block 4. */
  function DataRecord(stream: nat, bs: nat): Entry {
    FsItems.PrintItem(FsItems.ExtentItem(stream, FileExtent(0, bs, 4, 0), 0))
  }

  lemma {:induction false} DataRecordReads(stream: nat, bs: nat)
    requires stream < FsTree.OID_RANGE && bs <= 0x1_0000
    ensures IsExtent(DataRecord(stream, bs), stream) && ParseExtent(DataRecord(stream, bs)) == FileExtent(0, bs, 4, 0)
  {
    FsItems.ExtentReads(FsItems.ExtentItem(stream, FileExtent(0, bs, 4, 0), 0));
  }

  lemma {:induction false} BlockBytes(img: seq<Byte>, bs: nat, p: nat, off: nat, block: seq<Byte>)
    requires bs > 0 && off == p * bs < U64 && ReadBlock(img, bs, p) == Ok(block)
    ensures ReadBytes(img, off, bs) == Ok(block) && |block| == bs
  {
  }

  lemma {:induction false} OneLaid(img: seq<Byte>, bs: nat, e: FileExtent, es: seq<FileExtent>, block: seq<Byte>)
    requires bs > 0 && es == [e] && e.offset == 0 && e.len == bs && e.phys != 0
    requires e.phys * bs < U64 && ReadBlock(img, bs, e.phys) == Ok(block)
    ensures LayAll(img, bs, None, es, Zeros(bs)) == Ok(block)
  {
    var out := Zeros(bs);
    BlockBytes(img, bs, e.phys, e.phys * bs, block);
    assert es[..0] == [];
    assert LayAll(img, bs, None, es[..0], out) == Ok(out);
    assert Lay(img, bs, None, e, out) == Ok(Place(out, 0, block));
    assert Place(out, 0, block) == block;
  }

  /** A file of one block reads as that block. */
  lemma {:induction false} OneBlockFile(s: Snapshot.State, bs: nat, stream: nat, e: FileExtent, block: seq<Byte>)
    requires 0 < bs <= 0x1_0000 && ExtentsIn(s, bs, 0, None, stream) == Ok([e]) && e == FileExtent(0, bs, 4, 0)
    requires ReadBlock(s.img, bs, 4) == Ok(block)
    ensures ReadIn(s, bs, 0, None, stream, bs) == Ok(block)
  {
    OneLaid(s.img, bs, e, [e], block);
  }

  lemma {:induction false} ZeroValue(b: seq<Byte>)
    requires forall i :: 0 <= i < |b| ==> b[i] == 0
    ensures LeVal(b) == 0
  {
    if b != [] {
      ZeroValue(b[1..]);
    }
  }

  lemma {:induction false} BlankFails(bs: nat)
    requires bs >= 8
    ensures !Object.Verifies(Filled(0, bs))
  {
    var b := Filled(0, bs);
    if Object.Verifies(b) {
      Damage.StoredNonZero(b);
      ZeroValue(b[0..4]);
    }
  }

  lemma {:induction false} OneExtent(rs: seq<Entry>, r: Entry, stream: nat, e: FileExtent)
    requires rs == [r] && IsExtent(r, stream) && ParseExtent(r) == e
    ensures SortByOffset(ExtentsOf(rs, stream)) == [e]
  {
    var es, none := [e], [];
    assert rs[..0] == [] && es[..0] == none;
    assert ExtentsOf(rs, stream) == es;
    assert SortByOffset(none) == [];
  }

  lemma {:induction false} OneRecordShown(s: Snapshot.State, bs: nat, oid: nat, x: nat, stream: nat, r: Entry, e: FileExtent)
    requires s.omapOid == 1 && Mountable(s.img, bs, oid, x, [r]) && IsExtent(r, stream) && ParseExtent(r) == e
    ensures ExtentsIn(s, bs, 0, None, stream) == Ok([e])
  {
    var rs := [r];
    ExtentsShown(s, bs, oid, x, rs, stream);
    OneExtent(rs, r, stream, e);
  }

  /**
   At every usable block size: a transaction that spares the snapshot's
   metadata but reuses a block of its file data changes what reading that file
   through the mounted snapshot gives.
   */
  lemma {:induction false} OverwrittenDataShows(bs: nat, oid: nat, x: nat, y: nat, stream: nat, newer: seq<Entry>)
    requires stream < FsTree.OID_RANGE && Usable(bs, oid, x, y, [DataRecord(stream, bs)], newer)
    ensures var records := [DataRecord(stream, bs)];
            AllFit(BeforeSpecs(oid, x, records), bs) && AllFit(AfterSpecs(oid, x, y, records, newer), bs)
    ensures var records := [DataRecord(stream, bs)];
            var s, s' := StateOf(BeforeSpecs(oid, x, records), bs, 1), StateOf(AfterSpecs(oid, x, y, records, newer), bs, 4);
            && Snapshot.Step(s, s', bs, 0, None)
            && ReadIn(s', bs, 0, None, stream, bs) != ReadIn(s, bs, 0, None, stream, bs)
            && ReadIn(s', bs, 0, None, stream, bs).Ok? && ReadIn(s, bs, 0, None, stream, bs).Ok?
  {
    var records := [DataRecord(stream, bs)];
    TransactionExists(bs, oid, x, y, records, newer);
    var before, after := BeforeSpecs(oid, x, records), AfterSpecs(oid, x, y, records, newer);
    DataChanges(before, after, bs, oid, x, records, stream);
  }

  lemma {:induction false} DataChanges(before: seq<Spec>, after: seq<Spec>, bs: nat, oid: nat, x: nat, records: seq<Entry>, stream: nat)
    requires bs >= Snapshot.APSB_MIN_LEN && bs <= 0x1_0000 && oid < U64 && x < U64 && stream < FsTree.OID_RANGE
    requires AllFit(before, bs) && AllFit(after, bs) && |after| == 7 && records == [DataRecord(stream, bs)]
    requires before == BeforeSpecs(oid, x, records) && after[4] == OmapSpec(5)
    requires Snapshot.Step(StateOf(before, bs, 1), StateOf(after, bs, 4), bs, 0, None)
    ensures var s, s' := StateOf(before, bs, 1), StateOf(after, bs, 4);
            && ReadIn(s', bs, 0, None, stream, bs) != ReadIn(s, bs, 0, None, stream, bs)
            && ReadIn(s', bs, 0, None, stream, bs).Ok? && ReadIn(s, bs, 0, None, stream, bs).Ok?
  {
    var s, s', r := StateOf(before, bs, 1), StateOf(after, bs, 4), DataRecord(stream, bs);
    DataRecordReads(stream, bs);
    BeforeIsMountable(before, bs, oid, x, records);
    ShownInBoth(s, s', bs, oid, x, stream, r, before);
    BlockAt(before, bs, 4);
    BlockAt(after, bs, 4);
    BlocksDiffer(before[4], after[4], bs);
    OneBlockFile(s, bs, stream, ParseExtent(r), BlockOf(before[4], bs));
    OneBlockFile(s', bs, stream, ParseExtent(r), BlockOf(after[4], bs));
  }

  lemma {:induction false} ShownInBoth(s: Snapshot.State, s': Snapshot.State, bs: nat, oid: nat, x: nat, stream: nat, r: Entry, before: seq<Spec>)
    requires 0 < bs <= 0x1_0000 && AllFit(before, bs) && |before| == 7 && s == StateOf(before, bs, 1)
    requires Mountable(s.img, bs, oid, x, [r]) && IsExtent(r, stream) && Snapshot.Step(s, s', bs, 0, None)
    ensures ExtentsIn(s, bs, 0, None, stream) == ExtentsIn(s', bs, 0, None, stream) == Ok([ParseExtent(r)])
  {
    OneRecordShown(s, bs, oid, x, stream, r, ParseExtent(r));
    DiskSize(before, bs);
    StepKeepsNames(s, s', bs, 0, None, [], stream);
  }

  lemma {:induction false} BlocksDiffer(a: Spec, b: Spec, bs: nat)
    requires SpecFits(a, bs) && SpecFits(b, bs) && a == FillSpec(0) && b == OmapSpec(5)
    ensures BlockOf(a, bs) != BlockOf(b, bs)
  {
    OmapReads(PHYSICAL, 5, bs);
    BlankFails(bs);
  }

  lemma {:induction false} DiskSize(specs: seq<Spec>, bs: nat)
    requires AllFit(specs, bs)
    ensures |DiskOf(specs, bs)| == |specs| * bs
  {
    BlocksSized(specs, bs);
    JoinedLength(Blocks(specs, bs), bs);
  }
}
