/** Resolution of the live checkpoint from the descriptor ring (core/src/checkpoint.rs). */
module Checkpoint {
  import opened Results
  import opened Bytes
  import opened Object
  import Damage

  const NX_MAGIC: nat := 0x4253_584E
  const MIN_BLOCK_SIZE: nat := 4096
  const MAX_BLOCK_SIZE: nat := 65536
  const MAX_COUNT: nat := 4096
  const TYPE_SUPERBLOCK: nat := 1
  const TYPE_MAP: nat := 0xc
  const MAP_LEN: nat := 40
  const MAP_OFF: nat := 40

  datatype Mapping = Mapping(objType: nat, subtype: nat, oid: nat, paddr: nat)

  /** The chosen superblock's slot in the ring (its block is `descBase + slot`), its transaction, and the mappings of its map blocks. */
  datatype Live = Live(slot: nat, xid: nat, mappings: seq<Mapping>)

  /** The fields of the bootstrap superblock that locate the ring. */
  datatype Bootstrap = Bootstrap(blockSize: nat, descBase: nat, descBlocks: nat, descIsTree: bool)

  /** A ring slot: the block's bytes, or nothing when it lies past the image. */
  type Slot = Option<seq<Byte>>

  function ReadSlot(img: seq<Byte>, bs: nat, paddr: nat): Slot {
    if paddr * bs >= U64 then None else Slice(img, paddr * bs, paddr * bs + bs)
  }

  function Ring(img: seq<Byte>, bs: nat, base: nat, n: nat): (ring: seq<Slot>)
    ensures |ring| == n
  {
    seq(n, (i: nat) => ReadSlot(img, bs, base + i))
  }

  // ---------- what a slot is ----------

  function TypeOf(buf: seq<Byte>): nat { LeU32(buf, 24) % 0x1_0000 }
  function XidOf(buf: seq<Byte>): nat { LeU64(buf, 16) }
  function MagicOf(buf: seq<Byte>): nat { LeU32(buf, 32) }

  /** A readable block typed as a container superblock, valid or not. */
  predicate Typed(s: Slot) {
    s.Some? && |s.value| >= 32 && TypeOf(s.value) == TYPE_SUPERBLOCK
  }

  /** A valid container superblock. */
  predicate Superblock(s: Slot) {
    Typed(s) && MagicOf(s.value) == NX_MAGIC && Verifies(s.value)
  }

  /** A valid checkpoint-map block of the transaction. */
  predicate MapBlock(s: Slot, xid: nat) {
    s.Some? && |s.value| >= 32 && TypeOf(s.value) == TYPE_MAP && XidOf(s.value) == xid && Verifies(s.value)
  }

  function MappingAt(buf: seq<Byte>, m: nat): Mapping {
    var off := MAP_OFF + m * MAP_LEN;
    Mapping(LeU32(buf, off), LeU32(buf, off + 4), LeU64(buf, off + 24), LeU64(buf, off + 32))
  }

  function FirstMappings(buf: seq<Byte>, n: nat): seq<Mapping> {
    if n == 0 then [] else FirstMappings(buf, n - 1) + [MappingAt(buf, n - 1)]
  }

  function CountOf(buf: seq<Byte>): nat {
    if LeU32(buf, 36) <= MAX_COUNT then LeU32(buf, 36) else MAX_COUNT
  }

  function SlotMappings(s: Slot, xid: nat): seq<Mapping> {
    if MapBlock(s, xid) then FirstMappings(s.value, CountOf(s.value)) else []
  }

  // ---------- the two passes ----------

  /** The slot with the greatest transaction among the valid superblocks, the first of equals. */
  function Best(ring: seq<Slot>): (k: Option<nat>)
    ensures k.Some? ==> k.value < |ring| && Superblock(ring[k.value])
  {
    if ring == [] then None else
    var n := |ring| - 1;
    var best := Best(ring[..n]);
    if Superblock(ring[n]) && (best.None? || XidOf(ring[n].value) > XidOf(ring[best.value].value)) then Some(n)
    else best
  }

  /** How many slots could be read. */
  function Readable(ring: seq<Slot>): nat {
    if ring == [] then 0 else Readable(ring[..|ring| - 1]) + if ring[|ring| - 1].Some? then 1 else 0
  }

  /** The magic of the last block typed as a superblock. */
  function LastMagic(ring: seq<Slot>): nat {
    if ring == [] then 0
    else if Typed(ring[|ring| - 1]) then MagicOf(ring[|ring| - 1].value)
    else LastMagic(ring[..|ring| - 1])
  }

  function Gather(ring: seq<Slot>, f: Slot -> seq<Mapping>): seq<Mapping> {
    if ring == [] then [] else Gather(ring[..|ring| - 1], f) + f(ring[|ring| - 1])
  }

  function Of(xid: nat): Slot -> seq<Mapping> {
    (s: Slot) => SlotMappings(s, xid)
  }

  /** The mappings of every map block of the transaction, in ring order. */
  function Mappings(ring: seq<Slot>, xid: nat): seq<Mapping> {
    Gather(ring, Of(xid))
  }

  function Resolve(ring: seq<Slot>): Result<Live> {
    match Best(ring)
    case None => Err(NoValidSuperblock(Readable(ring), LastMagic(ring)))
    case Some(k) => Ok(Live(k, XidOf(ring[k].value), Mappings(ring, XidOf(ring[k].value))))
  }

  function ResolveFrom(img: seq<Byte>, boot: Bootstrap): Result<Live> {
    if boot.descIsTree then Err(CheckpointTreeUnsupported)
    else if !(MIN_BLOCK_SIZE <= boot.blockSize <= MAX_BLOCK_SIZE) then
      Err(FieldOutOfRange(BlockSizeField, boot.blockSize, MAX_BLOCK_SIZE))
    else Resolve(Ring(img, boot.blockSize, boot.descBase, boot.descBlocks))
  }

  lemma {:induction false} PrefixStep(ring: seq<Slot>, i: nat)
    requires i < |ring|
    ensures ring[..i + 1][..i] == ring[..i] && ring[..i + 1][i] == ring[i]
  {
  }

  /** One more slot of the first pass. */
  lemma {:induction false} ScanStep(ring: seq<Slot>, i: nat)
    requires i < |ring|
    ensures Best(ring[..i + 1]) ==
            var best := Best(ring[..i]);
            if Superblock(ring[i]) && (best.None? || XidOf(ring[i].value) > XidOf(ring[best.value].value)) then Some(i) else best
    ensures Readable(ring[..i + 1]) == Readable(ring[..i]) + if ring[i].Some? then 1 else 0
    ensures LastMagic(ring[..i + 1]) == if Typed(ring[i]) then MagicOf(ring[i].value) else LastMagic(ring[..i])
  {
    PrefixStep(ring, i);
  }

  /** First pass. */
  method ScanSuperblocks(img: seq<Byte>, bs: nat, base: nat, n: nat)
    returns (best: Option<nat>, checked: nat, lastMagic: nat)
    ensures var ring := Ring(img, bs, base, n);
            best == Best(ring) && checked == Readable(ring) && lastMagic == LastMagic(ring)
  {
    best, checked, lastMagic := None, 0, 0;
    var bestXid := 0;
    ghost var ring := Ring(img, bs, base, n);
    for i := 0 to n
      invariant best == Best(ring[..i]) && checked == Readable(ring[..i]) && lastMagic == LastMagic(ring[..i])
      invariant best.Some? ==> bestXid == XidOf(ring[best.value].value)
    {
      ScanStep(ring, i);
      var s := ReadSlot(img, bs, base + i);
      if s.None? {
        continue;
      }
      checked := checked + 1;
      var buf := s.value;
      if |buf| < 32 || TypeOf(buf) != TYPE_SUPERBLOCK {
        continue;
      }
      lastMagic := MagicOf(buf);
      if lastMagic != NX_MAGIC || !Verifies(buf) {
        continue;
      }
      if best.None? || XidOf(buf) > bestXid {
        best, bestXid := Some(i), XidOf(buf);
      }
    }
    assert ring[..n] == ring;
  }

  method AppendMappings(s: Slot, xid: nat, before: seq<Mapping>) returns (out: seq<Mapping>)
    ensures out == before + SlotMappings(s, xid)
  {
    out := before;
    if MapBlock(s, xid) {
      for m := 0 to CountOf(s.value)
        invariant out == before + FirstMappings(s.value, m)
      {
        out := out + [MappingAt(s.value, m)];
      }
    }
  }

  lemma {:induction false} MappingsStep(ring: seq<Slot>, i: nat, xid: nat)
    requires i < |ring|
    ensures Mappings(ring[..i + 1], xid) == Mappings(ring[..i], xid) + SlotMappings(ring[i], xid)
  {
    PrefixStep(ring, i);
  }

  /** Second pass. */
  method CollectMappings(img: seq<Byte>, bs: nat, base: nat, n: nat, xid: nat) returns (out: seq<Mapping>)
    ensures out == Mappings(Ring(img, bs, base, n), xid)
  {
    out := [];
    ghost var ring := Ring(img, bs, base, n);
    for i := 0 to n
      invariant out == Mappings(ring[..i], xid)
    {
      MappingsStep(ring, i, xid);
      out := AppendMappings(ReadSlot(img, bs, base + i), xid, out);
    }
    assert ring[..n] == ring;
  }

  /** `resolve_live_checkpoint`. */
  method ResolveLiveCheckpoint(img: seq<Byte>, boot: Bootstrap) returns (r: Result<Live>)
    ensures r == ResolveFrom(img, boot)
  {
    if boot.descIsTree {
      return Err(CheckpointTreeUnsupported);
    }
    var bs := boot.blockSize;
    if !(MIN_BLOCK_SIZE <= bs <= MAX_BLOCK_SIZE) {
      return Err(FieldOutOfRange(BlockSizeField, bs, MAX_BLOCK_SIZE));
    }
    var best, checked, lastMagic := ScanSuperblocks(img, bs, boot.descBase, boot.descBlocks);
    if best.None? {
      return Err(NoValidSuperblock(checked, lastMagic));
    }
    ghost var ring := Ring(img, bs, boot.descBase, boot.descBlocks);
    var chosen := ReadSlot(img, bs, boot.descBase + best.value);
    assert chosen == ring[best.value];
    var mappings := CollectMappings(img, bs, boot.descBase, boot.descBlocks, XidOf(chosen.value));
    return Ok(Live(best.value, XidOf(chosen.value), mappings));
  }

  // ---------- the choice is exact ----------

  /** Slot k holds the newest valid superblock, the first of equals. */
  ghost predicate Newest(ring: seq<Slot>, k: nat) {
    && k < |ring| && Superblock(ring[k])
    && (forall j :: 0 <= j < |ring| && Superblock(ring[j]) ==> XidOf(ring[j].value) <= XidOf(ring[k].value))
    && (forall j :: 0 <= j < k && Superblock(ring[j]) ==> XidOf(ring[j].value) < XidOf(ring[k].value))
  }

  /** No valid superblock is newer than the best, and an earlier one is strictly older. */
  lemma {:induction false} BestBeats(ring: seq<Slot>, j: nat)
    requires j < |ring| && Superblock(ring[j])
    ensures Best(ring).Some? && XidOf(ring[j].value) <= XidOf(ring[Best(ring).value].value)
    ensures j < Best(ring).value ==> XidOf(ring[j].value) < XidOf(ring[Best(ring).value].value)
  {
    var n := |ring| - 1;
    if j < n {
      BestBeats(ring[..n], j);
    }
  }

  lemma {:induction false} BestIsNewest(ring: seq<Slot>)
    ensures match Best(ring)
            case Some(k) => Newest(ring, k)
            case None => forall j :: 0 <= j < |ring| ==> !Superblock(ring[j])
  {
    forall j | 0 <= j < |ring| && Superblock(ring[j])
      ensures Best(ring).Some? && XidOf(ring[j].value) <= XidOf(ring[Best(ring).value].value)
      ensures j < Best(ring).value ==> XidOf(ring[j].value) < XidOf(ring[Best(ring).value].value)
    {
      BestBeats(ring, j);
    }
  }

  /** Being the newest determines the slot. */
  lemma {:induction false} NewestIsBest(ring: seq<Slot>, k: nat)
    requires Newest(ring, k)
    ensures Best(ring) == Some(k)
  {
    BestIsNewest(ring);
  }

  /**
   Resolution fails exactly when the ring holds no valid superblock, and
   otherwise returns the newest one, the first of equals, with all the mappings
   of its own map blocks.
   */
  lemma {:induction false} ResolveExact(ring: seq<Slot>)
    ensures Resolve(ring).Err? <==> forall j :: 0 <= j < |ring| ==> !Superblock(ring[j])
    ensures Resolve(ring).Err? ==> Resolve(ring).error.NoValidSuperblock?
    ensures Resolve(ring).Ok? ==>
              var live := Resolve(ring).value;
              && Newest(ring, live.slot) && live.xid == XidOf(ring[live.slot].value)
              && forall j, m :: 0 <= j < |ring| && MapBlock(ring[j], live.xid) && 0 <= m < CountOf(ring[j].value)
                                ==> MappingAt(ring[j].value, m) in live.mappings
  {
    BestIsNewest(ring);
    if Resolve(ring).Ok? {
      var live := Resolve(ring).value;
      forall j, m | 0 <= j < |ring| && MapBlock(ring[j], live.xid) && 0 <= m < CountOf(ring[j].value)
        ensures MappingAt(ring[j].value, m) in live.mappings
      {
        MappingCollected(ring, live.xid, j, m);
      }
    }
  }

  /** Slot i of the ring on the image is a valid superblock. */
  predicate SuperblockAt(img: seq<Byte>, boot: Bootstrap, i: nat) {
    Superblock(ReadSlot(img, boot.blockSize, boot.descBase + i))
  }

  /** On an image resolution succeeds exactly for a contiguous ring at a block size of 4096 to 65536 that holds a valid superblock. */
  lemma {:induction false} ResolvesIff(img: seq<Byte>, boot: Bootstrap)
    ensures ResolveFrom(img, boot).Ok? <==>
              && !boot.descIsTree && 4096 <= boot.blockSize <= 65536
              && exists i: nat :: i < boot.descBlocks && SuperblockAt(img, boot, i)
  {
    var ring := Ring(img, boot.blockSize, boot.descBase, boot.descBlocks);
    ResolveExact(ring);
    forall i: nat | i < |ring| ensures Superblock(ring[i]) == SuperblockAt(img, boot, i) {
    }
  }

  lemma {:induction false} MappingListed(buf: seq<Byte>, n: nat, m: nat)
    requires m < n
    ensures MappingAt(buf, m) in FirstMappings(buf, n)
  {
    if m < n - 1 {
      MappingListed(buf, n - 1, m);
    }
  }

  lemma {:induction false} MappingCollected(ring: seq<Slot>, xid: nat, j: nat, m: nat)
    requires j < |ring| && MapBlock(ring[j], xid) && m < CountOf(ring[j].value)
    ensures MappingAt(ring[j].value, m) in Mappings(ring, xid)
    decreases |ring|
  {
    var n := |ring| - 1;
    if j < n {
      MappingCollected(ring[..n], xid, j, m);
    } else {
      MappingListed(ring[j].value, CountOf(ring[j].value), m);
    }
  }

  /** Every mapping returned was read from a valid map block of the very transaction chosen. */
  lemma {:induction false} MappingSource(ring: seq<Slot>, xid: nat, x: Mapping) returns (j: nat)
    requires x in Mappings(ring, xid)
    ensures j < |ring| && MapBlock(ring[j], xid) && x in FirstMappings(ring[j].value, CountOf(ring[j].value))
  {
    var n := |ring| - 1;
    if x in Mappings(ring[..n], xid) {
      j := MappingSource(ring[..n], xid, x);
    } else {
      j := n;
    }
  }

  // ---------- losing the newest checkpoint ----------

  /** Damage to one slot that leaves no valid superblock there. */
  ghost predicate Lost(ring: seq<Slot>, after: seq<Slot>, k: nat) {
    k < |ring| == |after| && after == ring[k := after[k]] && !Superblock(after[k])
  }

  /**
   When the newest superblock is lost, resolution falls back to the newest of the
   others, and fails only if there was no other.
   */
  lemma {:induction false} FallsBack(ring: seq<Slot>, after: seq<Slot>)
    requires Resolve(ring).Ok? && |after| == |ring| && Lost(ring, after, Resolve(ring).value.slot)
    ensures Resolve(after).Err? <==>
              forall j :: 0 <= j < |ring| && j != Resolve(ring).value.slot ==> !Superblock(ring[j])
    ensures Resolve(after).Ok? ==>
              var was, now := Resolve(ring).value, Resolve(after).value;
              && now.slot != was.slot && now.xid <= was.xid && after[now.slot] == ring[now.slot]
              && forall j :: 0 <= j < |ring| && j != was.slot && Superblock(ring[j]) ==> XidOf(ring[j].value) <= now.xid
  {
    ResolveExact(ring);
    ResolveExact(after);
    var k := Resolve(ring).value.slot;
    assert forall j :: 0 <= j < |ring| && j != k ==> after[j] == ring[j];
  }

  /** A change of two neighbouring words of the newest superblock, wherever they lie, is such a loss unless it escapes the checksum. */
  lemma {:induction false} BurstLoses(ring: seq<Slot>, bad: seq<Byte>, w: nat)
    requires Resolve(ring).Ok?
    requires var block := ring[Resolve(ring).value.slot].value;
             Damage.Within(block, bad, w, 2) && !Damage.PairEscapes(block, bad, w)
    ensures Lost(ring, ring[Resolve(ring).value.slot := Some(bad)], Resolve(ring).value.slot)
  {
    Damage.PairExact(ring[Resolve(ring).value.slot].value, bad, w);
  }

  /** The same for three neighbouring words, which any 8 bytes of the block lie within. */
  lemma {:induction false} WideBurstLoses(ring: seq<Slot>, bad: seq<Byte>, w: nat)
    requires Resolve(ring).Ok?
    requires var block := ring[Resolve(ring).value.slot].value;
             Damage.Within(block, bad, w, 3) && !Damage.TripleEscapes(block, bad, w)
    ensures Lost(ring, ring[Resolve(ring).value.slot := Some(bad)], Resolve(ring).value.slot)
  {
    Damage.TripleExact(ring[Resolve(ring).value.slot].value, bad, w);
  }

  // ---------- where the ring starts does not matter ----------

  lemma {:induction false} GatherSnoc(ring: seq<Slot>, s: Slot, f: Slot -> seq<Mapping>)
    ensures Gather(ring + [s], f) == Gather(ring, f) + f(s)
  {
    assert (ring + [s])[..|ring|] == ring;
  }

  lemma {:induction false} GatherConcat(a: seq<Slot>, b: seq<Slot>, f: Slot -> seq<Mapping>)
    ensures Gather(a + b, f) == Gather(a, f) + Gather(b, f)
  {
    if b == [] {
      assert a + b == a;
    } else {
      var n := |b| - 1;
      var front, last := b[..n], b[n];
      GatherConcat(a, front, f);
      GatherSnoc(a + front, last, f);
      Regroup(a, front, [last]);
      assert front + [last] == b;
      Regroup(Gather(a, f), Gather(front, f), f(last));
    }
  }

  /** The transaction found, and its mappings up to order, are the same however the ring is rotated. */
  lemma {:induction false} RotationIndependent(a: seq<Slot>, b: seq<Slot>)
    ensures Resolve(a + b).Ok? <==> Resolve(b + a).Ok?
    ensures Resolve(a + b).Ok? ==>
              && Resolve(a + b).value.xid == Resolve(b + a).value.xid
              && multiset(Resolve(a + b).value.mappings) == multiset(Resolve(b + a).value.mappings)
  {
    NoNewer(a, b);
    NoNewer(b, a);
    if Resolve(a + b).Ok? {
      var xid := Resolve(a + b).value.xid;
      GatherConcat(a, b, Of(xid));
      GatherConcat(b, a, Of(xid));
    }
  }

  /** No two valid superblocks share a transaction. */
  ghost predicate DistinctXids(ring: seq<Slot>) {
    forall i, j :: 0 <= i < j < |ring| && Superblock(ring[i]) && Superblock(ring[j]) ==>
                     XidOf(ring[i].value) != XidOf(ring[j].value)
  }

  /** With distinct transactions the very same superblock is found however the ring is rotated. */
  lemma {:induction false} RotationFindsSameBlock(a: seq<Slot>, b: seq<Slot>)
    requires DistinctXids(a + b) && Resolve(a + b).Ok?
    ensures Resolve(b + a).Ok? && (b + a)[Resolve(b + a).value.slot] == (a + b)[Resolve(a + b).value.slot]
  {
    RotationIndependent(a, b);
    var i, k := Resolve(a + b).value.slot, Resolve(b + a).value.slot;
    var j := if k < |b| then |a| + k else k - |b|;
    assert (a + b)[j] == (b + a)[k];
    SameXidSameSlot(a + b, i, j);
  }

  lemma {:induction false} SameXidSameSlot(ring: seq<Slot>, i: nat, j: nat)
    requires DistinctXids(ring) && i < |ring| && j < |ring| && Superblock(ring[i]) && Superblock(ring[j])
    requires XidOf(ring[i].value) == XidOf(ring[j].value)
    ensures i == j
  {
  }

  lemma {:induction false} NoNewer(a: seq<Slot>, b: seq<Slot>)
    ensures Resolve(a + b).Ok? ==> Resolve(b + a).Ok? && Resolve(a + b).value.xid <= Resolve(b + a).value.xid
  {
    if Resolve(a + b).Ok? {
      var k := Resolve(a + b).value.slot;
      BestBeats(b + a, if k < |a| then |b| + k else k - |a|);
    }
  }

  // ---------- committing checkpoints ----------

  /** The ring and the last checkpoint that was committed to it. */
  datatype State = State(ring: seq<Slot>, live: Live)

  ghost predicate Sound(s: State) {
    Resolve(s.ring) == Ok(s.live)
  }

  /** A slot the live checkpoint does not need. */
  predicate Spare(s: State, i: nat) {
    i < |s.ring| && i != s.live.slot && !MapBlock(s.ring[i], s.live.xid)
  }

  /** Anything but a valid superblock or a map of the live transaction: new maps, data, torn writes. */
  predicate Draft(s: State, b: Slot) {
    !Superblock(b) && !MapBlock(b, s.live.xid)
  }

  ghost predicate Stages(s: State, s': State, i: nat) {
    Spare(s, i) && |s'.ring| == |s.ring| && Draft(s, s'.ring[i]) && s'.ring == s.ring[i := s'.ring[i]] && s'.live == s.live
  }

  ghost predicate Commits(s: State, s': State, i: nat) {
    && Spare(s, i) && |s'.ring| == |s.ring| && s'.ring == s.ring[i := s'.ring[i]]
    && Superblock(s'.ring[i]) && XidOf(s'.ring[i].value) > s.live.xid
    && s'.live == Live(i, XidOf(s'.ring[i].value), Mappings(s'.ring, XidOf(s'.ring[i].value)))
  }

  /** One block write of the copy-on-write protocol. */
  ghost predicate Step(s: State, s': State) {
    exists i: nat :: Stages(s, s', i) || Commits(s, s', i)
  }

  ghost predicate Run(t: seq<State>) {
    t != [] && forall n :: 0 <= n < |t| - 1 ==> Step(t[n], t[n + 1])
  }

  lemma {:induction false} MappingsUntouched(ring: seq<Slot>, i: nat, b: Slot, xid: nat)
    requires i < |ring| && !MapBlock(ring[i], xid) && !MapBlock(b, xid)
    ensures Mappings(ring[i := b], xid) == Mappings(ring, xid)
    decreases |ring|
  {
    var n := |ring| - 1;
    if i < n {
      assert ring[i := b][..n] == ring[..n][i := b];
      MappingsUntouched(ring[..n], i, b, xid);
    } else {
      assert ring[i := b][..n] == ring[..n];
    }
  }

  lemma {:induction false} StageKeepsLive(s: State, s': State, i: nat)
    requires Sound(s) && Stages(s, s', i)
    ensures Sound(s')
  {
    ResolveExact(s.ring);
    NewestIsBest(s'.ring, s.live.slot);
    MappingsUntouched(s.ring, i, s'.ring[i], s.live.xid);
  }

  lemma {:induction false} CommitSwitches(s: State, s': State, i: nat)
    requires Sound(s) && Commits(s, s', i)
    ensures Sound(s')
  {
    ResolveExact(s.ring);
    NewestIsBest(s'.ring, i);
  }

  /**
   Crash safety of the ring: whatever prefix of the protocol reached the disk, at
   every point resolution returns the last checkpoint whose superblock was
   written, with exactly the mappings it had when it was committed.
   */
  lemma {:induction false} CrashSafe(t: seq<State>, n: nat)
    requires Run(t) && Sound(t[0]) && n < |t|
    ensures Resolve(t[n].ring) == Ok(t[n].live)
    ensures t[0].live.xid <= t[n].live.xid
  {
    if n > 0 {
      CrashSafe(t, n - 1);
      var s, s' := t[n - 1], t[n];
      assert Step(t[n - 1], t[n - 1 + 1]);
      var i: nat :| Stages(s, s', i) || Commits(s, s', i);
      if Stages(s, s', i) {
        StageKeepsLive(s, s', i);
      } else {
        CommitSwitches(s, s', i);
      }
    }
  }

  // ---------- the layout of a map block ----------

  ghost predicate Fits(x: Mapping) {
    x.objType < 0x1_0000_0000 && x.subtype < 0x1_0000_0000 && x.oid < U64 && x.paddr < U64
  }

  /** One mapping on disk; the size, padding and file-system oid in between are not read. */
  function Printed(x: Mapping, between: seq<Byte>): seq<Byte> {
    LeBytes(x.objType, 4) + (LeBytes(x.subtype, 4) + (between + (LeBytes(x.oid, 8) + LeBytes(x.paddr, 8))))
  }

  lemma {:induction false} MappingOf(buf: seq<Byte>, m: nat, x: Mapping, between: seq<Byte>)
    requires Fits(x) && |between| == 16 && At(buf, MAP_OFF + m * MAP_LEN, Printed(x, between))
    ensures MappingAt(buf, m) == x
  {
    var off := MAP_OFF + m * MAP_LEN;
    var u, o, p := LeBytes(x.subtype, 4), LeBytes(x.oid, 8), LeBytes(x.paddr, 8);
    Pow256Values();
    FieldThen(buf, off, x.objType, 4, u + (between + (o + p)));
    FieldThen(buf, off + 4, x.subtype, 4, between + (o + p));
    AtSplit(buf, off + 8, between, o + p);
    FieldThen(buf, off + 24, x.oid, 8, p);
    ReadAt(buf, off + 32, x.paddr, 8);
  }

  /** Mapping m is on disk in its place. */
  ghost predicate InPlace(buf: seq<Byte>, m: nat, x: Mapping) {
    Fits(x) && exists between: seq<Byte> ::
      |between| == 16 && At(buf, MAP_OFF + m * MAP_LEN, Printed(x, between))
  }

  lemma {:induction false} ReadsBack(buf: seq<Byte>, m: nat, x: Mapping)
    requires InPlace(buf, m, x)
    ensures MappingAt(buf, m) == x
  {
    var between: seq<Byte> :| |between| == 16 && At(buf, MAP_OFF + m * MAP_LEN, Printed(x, between));
    MappingOf(buf, m, x, between);
  }

  /** A map block laid out as the format says is read back mapping by mapping. */
  lemma {:induction false} MapRoundTrip(buf: seq<Byte>, xs: seq<Mapping>)
    requires forall m :: 0 <= m < |xs| ==> InPlace(buf, m, xs[m])
    ensures FirstMappings(buf, |xs|) == xs
  {
    if xs != [] {
      var n := |xs| - 1;
      MapRoundTrip(buf, xs[..n]);
      ReadsBack(buf, n, xs[n]);
    }
  }
}
