/** Mounting a snapshot over the live object map, and what copy-on-write keeps of it (core/src/snapshot.rs). */
module Snapshot {
  import opened Results
  import opened Bytes
  import opened Object
  import opened BTree
  import Node = BTreeNode
  import opened Image
  import Omap
  import opened VolumeCrypto
  import opened FsTree
  import opened Arith

  const APFS_MAGIC: nat := 0x4253_5041
  const OBJECT_TYPE_FS: nat := 0xd
  const APSB_MIN_LEN: nat := 960

  /** `ApfsVolume::parse`, reduced to the fields navigation uses. */
  function ParseVolume(block: seq<Byte>): Result<Volume> {
    if |block| < APSB_MIN_LEN then Err(UnexpectedObjectType(APFS_MAGIC, 0))
    else if LeU32(block, 24) % 0x1_0000 != OBJECT_TYPE_FS then Err(UnexpectedObjectType(OBJECT_TYPE_FS, LeU32(block, 24)))
    else if LeU32(block, 32) != APFS_MAGIC then Err(UnexpectedObjectType(APFS_MAGIC, LeU32(block, 32)))
    else if !Verifies(block) then Err(ChecksumMismatch(LeU64(block, 8), Stored(block), Fletcher64(block)))
    else Ok(Volume(LeU64(block, 16), LeU64(block, 128), LeU64(block, 136)))
  }

  /** The superblock frozen at the snapshot. */
  function Frozen(img: seq<Byte>, bs: nat, sblock: nat): Result<Volume> {
    var block :- ReadBlock(img, bs, sblock);
    ParseVolume(block)
  }

  /** `mount_snapshot`: the frozen superblock with the live volume's object map grafted on. */
  function Mount(img: seq<Byte>, bs: nat, liveOmapOid: nat, sblock: nat): Result<Volume> {
    var vol :- Frozen(img, bs, sblock);
    Ok(vol.(omapOid := liveOmapOid))
  }

  // ---------- states of a container under copy-on-write ----------

  /** The image and the block of the live volume's object map. */
  datatype State = State(img: seq<Byte>, omapOid: nat)

  /** What walking the mounted snapshot shows, in full or keyed to one object id. */
  function View(s: State, bs: nat, sblock: nat, vek: Option<Cipher>, target: Option<nat>): Walk {
    match Mount(s.img, bs, s.omapOid, sblock)
    case Err(e) => Walk(Err(e), {}, [])
    case Ok(vol) => WalkFsTree(s.img, bs, vol, vek, target)
  }

  /** t is the live object map: a well-formed tree keyed by (oid, xid) with unique keys. */
  ghost predicate OmapIs(s: State, bs: nat, t: Tree) {
    && OpenOmap(s.img, bs, s.omapOid) == Ok(t.id)
    && Walkable(Physical(s.img, bs, Node.Omap), t, 0, {})
    && Omap.Ordered(t) && Omap.KeysUnique(Records(t, ALL))
  }

  /** Two object maps that hold the same mappings up to a transaction; later ones are free to differ. */
  ghost predicate SameUpTo(a: seq<Entry>, b: seq<Entry>, xid: nat) {
    forall e: Entry :: Omap.KeyXid(e.key) <= xid ==> (e in a <==> e in b)
  }

  /** Some walk of the mounted snapshot, full or keyed, enters the node `oid`. */
  ghost predicate Entered(s: State, bs: nat, sblock: nat, vek: Option<Cipher>, oid: nat) {
    exists target :: oid in View(s, bs, sblock, vek, target).visited
  }

  /** The block the node `oid` lives in at the snapshot's transaction. */
  ghost predicate LivesIn(s: State, bs: nat, omapRoot: nat, xid: nat, oid: nat, paddr: nat) {
    var r := Omap.Resolved(Physical(s.img, bs, Node.Omap), omapRoot, oid, xid);
    r.Ok? && r.value.paddr == paddr
  }

  /** The blocks reachable at the snapshot: its frozen superblock and the nodes its walks read. */
  ghost predicate Pinned(s: State, bs: nat, sblock: nat, vek: Option<Cipher>, paddr: nat) {
    || paddr == sblock
    || (&& Frozen(s.img, bs, sblock).Ok? && OpenOmap(s.img, bs, s.omapOid).Ok?
        && exists oid :: Entered(s, bs, sblock, vek, oid) &&
             LivesIn(s, bs, OpenOmap(s.img, bs, s.omapOid).value, Frozen(s.img, bs, sblock).value.xid, oid, paddr))
  }

  datatype Write = Write(paddr: nat, data: seq<Byte>)

  /** Overwriting one whole block of the image. */
  function Written(img: seq<Byte>, bs: nat, w: Write): seq<Byte> {
    if w.paddr * bs + |w.data| <= |img| then img[..w.paddr * bs] + w.data + img[w.paddr * bs + |w.data|..] else img
  }

  function WrittenAll(img: seq<Byte>, bs: nat, ws: seq<Write>): seq<Byte>
    decreases |ws|
  {
    if ws == [] then img else WrittenAll(Written(img, bs, ws[0]), bs, ws[1..])
  }

  /**
   One transaction: it overwrites only blocks the snapshot does not reach, the
   object map may move and be rebuilt, and the mappings it adds are newer than
   the snapshot.
   */
  ghost predicate Step(s: State, s': State, bs: nat, sblock: nat, vek: Option<Cipher>) {
    && (exists ws :: s'.img == WrittenAll(s.img, bs, ws) &&
          forall w: Write :: w in ws ==> |w.data| == bs && !Pinned(s, bs, sblock, vek, w.paddr))
    && (exists t, t' :: OmapIs(s, bs, t) && OmapIs(s', bs, t') &&
          (Frozen(s.img, bs, sblock).Ok? ==>
             SameUpTo(Records(t, ALL), Records(t', ALL), Frozen(s.img, bs, sblock).value.xid)))
  }

  // ---------- a write leaves every other block alone ----------

  lemma {:induction false} WriteElsewhere(img: seq<Byte>, bs: nat, w: Write, q: nat)
    requires |img| < U64 && bs > 0 && |w.data| == bs && q != w.paddr
    ensures |Written(img, bs, w)| == |img|
    ensures ReadBlock(Written(img, bs, w), bs, q) == ReadBlock(img, bs, q)
  {
    var off, img' := w.paddr * bs, Written(img, bs, w);
    if off + bs <= |img| && q * bs < U64 && q * bs + bs <= |img| {
      if q < w.paddr {
        Apart(q, w.paddr, bs);
      } else {
        Apart(w.paddr, q, bs);
      }
      assert img'[q * bs..q * bs + bs] == img[q * bs..q * bs + bs];
    }
  }

  lemma {:induction false} WritesElsewhere(img: seq<Byte>, bs: nat, ws: seq<Write>, q: nat)
    requires |img| < U64 && bs > 0
    requires forall w :: w in ws ==> |w.data| == bs && w.paddr != q
    ensures |WrittenAll(img, bs, ws)| == |img|
    ensures ReadBlock(WrittenAll(img, bs, ws), bs, q) == ReadBlock(img, bs, q)
    decreases |ws|
  {
    if ws != [] {
      assert ws[0] in ws;
      WriteElsewhere(img, bs, ws[0], q);
      WritesElsewhere(Written(img, bs, ws[0]), bs, ws[1..], q);
    }
  }

  // ---------- newer mappings do not change an older floor ----------

  lemma {:induction false} FloorIgnoresNewer(a: seq<Entry>, b: seq<Entry>, oid: nat, xid: nat, r: Result<Omap.OmapEntry>)
    requires SameUpTo(a, b, xid) && Omap.FloorOf(a, oid, xid, r)
    ensures Omap.FloorOf(b, oid, xid, r)
  {
    forall j | 0 <= j < |b| && Omap.Candidate(b[j], oid, xid)
      ensures exists i :: 0 <= i < |a| && a[i] == b[j]
    {
      assert b[j] in b;
    }
    if r.Ok? {
      var i :| 0 <= i < |a| && Omap.Candidate(a[i], oid, xid) && Omap.Decode(a[i]) == r.value;
      assert a[i] in b;
      var j :| 0 <= j < |b| && b[j] == a[i];
    }
  }

  lemma {:induction false} SameResolution(s: State, s': State, bs: nat, t: Tree, t': Tree, oid: nat, xid: nat)
    requires OmapIs(s, bs, t) && OmapIs(s', bs, t') && SameUpTo(Records(t, ALL), Records(t', ALL), xid)
    ensures Omap.Resolved(Physical(s'.img, bs, Node.Omap), t'.id, oid, xid) ==
              Omap.Resolved(Physical(s.img, bs, Node.Omap), t.id, oid, xid)
  {
    var f, f' := Physical(s.img, bs, Node.Omap), Physical(s'.img, bs, Node.Omap);
    Omap.ResolveIsFloor(f, t, oid, xid);
    Omap.ResolveIsFloor(f', t', oid, xid);
    FloorIgnoresNewer(Records(t, ALL), Records(t', ALL), oid, xid, Omap.Resolved(f, t.id, oid, xid));
    Omap.FloorUnique(Records(t', ALL), oid, xid, Omap.Resolved(f', t'.id, oid, xid), Omap.Resolved(f, t.id, oid, xid));
  }

  // ---------- one step ----------

  lemma {:induction false} PinnedBlocksSurvive(s: State, s': State, bs: nat, sblock: nat, vek: Option<Cipher>, paddr: nat)
    requires Step(s, s', bs, sblock, vek) && |s.img| < U64 && bs > 0 && Pinned(s, bs, sblock, vek, paddr)
    ensures |s'.img| == |s.img| && ReadBlock(s'.img, bs, paddr) == ReadBlock(s.img, bs, paddr)
  {
    var ws :| s'.img == WrittenAll(s.img, bs, ws) &&
      forall w: Write :: w in ws ==> |w.data| == bs && !Pinned(s, bs, sblock, vek, w.paddr);
    WritesElsewhere(s.img, bs, ws, paddr);
  }

  /** A node the snapshot's walks enter reads the same before and after. */
  lemma {:induction false} SameNode(s: State, s': State, bs: nat, sblock: nat, vek: Option<Cipher>, t: Tree, t': Tree, oid: nat)
    requires Step(s, s', bs, sblock, vek) && |s.img| < U64 && bs > 0
    requires Frozen(s.img, bs, sblock).Ok? && OmapIs(s, bs, t) && OmapIs(s', bs, t')
    requires SameUpTo(Records(t, ALL), Records(t', ALL), Frozen(s.img, bs, sblock).value.xid)
    requires Entered(s, bs, sblock, vek, oid)
    ensures var xid := Frozen(s.img, bs, sblock).value.xid;
            ReadVirtual(s'.img, bs, vek, t'.id, xid, oid) == ReadVirtual(s.img, bs, vek, t.id, xid, oid)
  {
    var xid := Frozen(s.img, bs, sblock).value.xid;
    SameResolution(s, s', bs, t, t', oid, xid);
    var r := Omap.Resolved(Physical(s.img, bs, Node.Omap), t.id, oid, xid);
    if r.Ok? {
      assert LivesIn(s, bs, t.id, xid, oid, r.value.paddr);
      PinnedBlocksSurvive(s, s', bs, sblock, vek, r.value.paddr);
    }
  }

  /** No transaction changes what any walk of the mounted snapshot shows. */
  lemma {:induction false} StepKeepsView(s: State, s': State, bs: nat, sblock: nat, vek: Option<Cipher>, target: Option<nat>)
    requires Step(s, s', bs, sblock, vek) && |s.img| < U64 && bs > 0
    ensures |s'.img| == |s.img| && Frozen(s'.img, bs, sblock) == Frozen(s.img, bs, sblock)
    ensures View(s', bs, sblock, vek, target) == View(s, bs, sblock, vek, target)
  {
    PinnedBlocksSurvive(s, s', bs, sblock, vek, sblock);
    if Frozen(s.img, bs, sblock).Ok? {
      var vol := Frozen(s.img, bs, sblock).value;
      var t, t' :| OmapIs(s, bs, t) && OmapIs(s', bs, t') && SameUpTo(Records(t, ALL), Records(t', ALL), vol.xid);
      var f, g := Virtual(s.img, bs, vek, t.id, vol.xid), Virtual(s'.img, bs, vek, t'.id, vol.xid);
      forall x | x in View(s, bs, sblock, vek, target).visited ensures f(x) == g(x) {
        SameNode(s, s', bs, sblock, vek, t, t', x);
      }
      SameWalk(f, g, Keyed(target), vol.rootTreeOid, 0, {});
    }
  }

  /** The set of blocks the snapshot reaches is itself unchanged, so later transactions owe it the same care. */
  lemma {:induction false} StepKeepsPinned(s: State, s': State, bs: nat, sblock: nat, vek: Option<Cipher>, paddr: nat)
    requires Step(s, s', bs, sblock, vek) && |s.img| < U64 && bs > 0
    ensures Pinned(s', bs, sblock, vek, paddr) <==> Pinned(s, bs, sblock, vek, paddr)
  {
    StepKeepsView(s, s', bs, sblock, vek, None);
    if Frozen(s.img, bs, sblock).Ok? {
      var xid := Frozen(s.img, bs, sblock).value.xid;
      var t, t' :| OmapIs(s, bs, t) && OmapIs(s', bs, t') && SameUpTo(Records(t, ALL), Records(t', ALL), xid);
      forall oid
        ensures Entered(s', bs, sblock, vek, oid) <==> Entered(s, bs, sblock, vek, oid)
        ensures LivesIn(s', bs, t'.id, xid, oid, paddr) <==> LivesIn(s, bs, t.id, xid, oid, paddr)
      {
        forall target ensures View(s', bs, sblock, vek, target) == View(s, bs, sblock, vek, target) {
          StepKeepsView(s, s', bs, sblock, vek, target);
        }
        SameResolution(s, s', bs, t, t', oid, xid);
      }
    }
  }

  // ---------- every run ----------

  ghost predicate Run(states: seq<State>, bs: nat, sblock: nat, vek: Option<Cipher>) {
    forall i :: 0 <= i < |states| - 1 ==> Step(states[i], states[i + 1], bs, sblock, vek)
  }

  /**
   Snapshot isolation: after any number of transactions, walking the mounted
   snapshot through the then-live object map gives exactly the walk it gave at
   first: the same records in the same order, or the same error.
   */
  lemma {:induction false} SnapshotIsolation(states: seq<State>, bs: nat, sblock: nat, vek: Option<Cipher>, target: Option<nat>)
    requires states != [] && Run(states, bs, sblock, vek) && |states[0].img| < U64 && bs > 0
    ensures View(states[|states| - 1], bs, sblock, vek, target) == View(states[0], bs, sblock, vek, target)
    ensures |states[|states| - 1].img| == |states[0].img|
    decreases |states|
  {
    if |states| > 1 {
      var before := states[..|states| - 1];
      forall i | 0 <= i < |before| - 1 ensures Step(before[i], before[i + 1], bs, sblock, vek) {
        assert before[i] == states[i] && before[i + 1] == states[i + 1];
      }
      SnapshotIsolation(before, bs, sblock, vek, target);
      var last := |states| - 1;
      assert Step(states[last - 1], states[last - 1 + 1], bs, sblock, vek);
      StepKeepsView(states[last - 1], states[last], bs, sblock, vek, target);
    }
  }
}
