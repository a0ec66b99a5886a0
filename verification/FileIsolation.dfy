/** Paths and file contents of a mounted snapshot under copy-on-write (core/src/snapshot.rs, dir.rs, extent.rs). */
module FileIsolation {
  import opened Results
  import opened Bytes
  import opened BTree
  import opened VolumeCrypto
  import opened Arith
  import opened Snapshot
  import Dir
  import opened Extent

  // ---------- what the mounted snapshot gives ----------

  /** Opening a path in the mounted snapshot: the inode record, or the error. */
  function OpenIn(s: State, bs: nat, sblock: nat, vek: Option<Cipher>, path: seq<Byte>): Result<seq<Byte>> {
    var vol :- Mount(s.img, bs, s.omapOid, sblock);
    Dir.Opened(Dir.Walked(s.img, bs, vol, vek), vol.xid, path)
  }

  function ListIn(s: State, bs: nat, sblock: nat, vek: Option<Cipher>, parent: nat): Result<seq<Dir.DirEntry>> {
    var vol :- Mount(s.img, bs, s.omapOid, sblock);
    Dir.DirOf(Dir.Walked(s.img, bs, vol, vek), parent)
  }

  function ExtentsIn(s: State, bs: nat, sblock: nat, vek: Option<Cipher>, stream: nat): Result<seq<FileExtent>> {
    var vol :- Mount(s.img, bs, s.omapOid, sblock);
    StreamExtents(s.img, bs, vol, vek, stream)
  }

  /** Reading a stream of the mounted snapshot. */
  function ReadIn(s: State, bs: nat, sblock: nat, vek: Option<Cipher>, stream: nat, size: nat): Result<seq<Byte>>
    requires bs > 0 && GoodKey(vek)
  {
    var vol :- Mount(s.img, bs, s.omapOid, sblock);
    StreamBytes(s.img, bs, vol, vek, stream, size)
  }

  // ---------- the data blocks of the snapshot ----------

  /** The block is one of those that hold the extent. */
  predicate HoldsData(e: FileExtent, bs: nat, paddr: nat)
    requires bs > 0
  {
    e.phys != 0 && e.phys <= paddr < e.phys + CeilDiv(e.len, bs)
  }

  /** The block holds file data of the mounted snapshot. */
  ghost predicate PinnedData(s: State, bs: nat, sblock: nat, vek: Option<Cipher>, paddr: nat)
    requires bs > 0
  {
    exists stream, e :: DataOf(s, bs, sblock, vek, stream, e) && HoldsData(e, bs, paddr)
  }

  ghost predicate DataOf(s: State, bs: nat, sblock: nat, vek: Option<Cipher>, stream: nat, e: FileExtent) {
    ExtentsIn(s, bs, sblock, vek, stream).Ok? && e in ExtentsIn(s, bs, sblock, vek, stream).value
  }

  /** A transaction that overwrites neither metadata nor file data of the snapshot. */
  ghost predicate FileStep(s: State, s': State, bs: nat, sblock: nat, vek: Option<Cipher>)
    requires bs > 0
  {
    && Step(s, s', bs, sblock, vek)
    && exists ws :: s'.img == WrittenAll(s.img, bs, ws) &&
         forall w: Write :: w in ws ==> |w.data| == bs && !PinnedData(s, bs, sblock, vek, w.paddr)
  }

  // ---------- writes outside an extent ----------

  lemma {:induction false} WriteOutside(img: seq<Byte>, bs: nat, w: Write, at: nat, off: nat, n: nat)
    requires |w.data| == bs && at == w.paddr * bs && (at + bs <= off || off + n <= at)
    ensures |Written(img, bs, w)| == |img| && ReadBytes(Written(img, bs, w), off, n) == ReadBytes(img, off, n)
  {
    var img' := Written(img, bs, w);
    if at + bs <= |img| && n > 0 && off + n <= |img| {
      assert img'[off..off + n] == img[off..off + n];
    }
  }

  /** An extent's bytes are read from the blocks that hold it. */
  lemma {:induction false} SpanInBlocks(bs: nat, vek: Option<Cipher>, e: FileExtent, n: nat)
    requires bs > 0 && n <= e.len
    ensures Span(bs, vek, e, n) <= CeilDiv(e.len, bs) * bs
  {
    CeilCovers(e.len, bs);
    CeilMonotone(n, e.len, bs);
  }

  lemma {:induction false} ApartFromExtent(e: FileExtent, bs: nat, paddr: nat, at: nat, off: nat, len: nat)
    requires bs > 0 && e.phys != 0 && !HoldsData(e, bs, paddr) && at == paddr * bs && off == e.phys * bs
    requires len <= CeilDiv(e.len, bs) * bs
    ensures at + bs <= off || off + len <= at
  {
    if paddr < e.phys {
      Apart(paddr, e.phys, bs);
    } else {
      var c := CeilDiv(e.len, bs);
      Distribute(e.phys, c, bs);
      if e.phys + c < paddr {
        Apart(e.phys + c, paddr, bs);
      }
    }
  }

  lemma {:induction false} WritesOutside(img: seq<Byte>, bs: nat, ws: seq<Write>, e: FileExtent, off: nat, len: nat)
    requires bs > 0 && e.phys != 0 && off == e.phys * bs && len <= CeilDiv(e.len, bs) * bs
    requires forall w: Write :: w in ws ==> |w.data| == bs && !HoldsData(e, bs, w.paddr)
    ensures ReadBytes(WrittenAll(img, bs, ws), off, len) == ReadBytes(img, off, len)
    decreases |ws|
  {
    if ws != [] {
      var w := ws[0];
      assert w in ws;
      ApartFromExtent(e, bs, w.paddr, w.paddr * bs, off, len);
      WriteOutside(img, bs, w, w.paddr * bs, off, len);
      WritesOutside(Written(img, bs, w), bs, ws[1..], e, off, len);
    }
  }

  /** The extent delivers the same from both images, however much of it is asked for. */
  ghost predicate SameData(img: seq<Byte>, img': seq<Byte>, bs: nat, vek: Option<Cipher>, e: FileExtent)
    requires bs > 0 && GoodKey(vek)
  {
    e.phys != 0 ==> forall n: nat :: n <= e.len ==> ExtentBytes(img', bs, vek, e, n) == ExtentBytes(img, bs, vek, e, n)
  }

  lemma {:induction false} WritesKeepExtent(img: seq<Byte>, bs: nat, vek: Option<Cipher>, ws: seq<Write>, e: FileExtent)
    requires bs > 0 && GoodKey(vek)
    requires forall w: Write :: w in ws ==> |w.data| == bs && !HoldsData(e, bs, w.paddr)
    ensures SameData(img, WrittenAll(img, bs, ws), bs, vek, e)
  {
    if e.phys != 0 {
      forall n: nat | n <= e.len
        ensures ExtentBytes(WrittenAll(img, bs, ws), bs, vek, e, n) == ExtentBytes(img, bs, vek, e, n)
      {
        SpanInBlocks(bs, vek, e, n);
        WritesOutside(img, bs, ws, e, e.phys * bs, Span(bs, vek, e, n));
      }
    }
  }

  lemma {:induction false} SameAssembly(img: seq<Byte>, img': seq<Byte>, bs: nat, vek: Option<Cipher>, es: seq<FileExtent>, out: seq<Byte>)
    requires bs > 0 && GoodKey(vek) && forall e :: e in es ==> SameData(img, img', bs, vek, e)
    ensures LayAll(img', bs, vek, es, out) == LayAll(img, bs, vek, es, out)
    decreases |es|
  {
    if es != [] {
      var n := |es| - 1;
      SameAssembly(img, img', bs, vek, es[..n], out);
      assert es[n] in es;
    }
  }

  // ---------- one step ----------

  /** The walks of the mounted snapshot are its views. */
  lemma {:induction false} WalkedIsView(s: State, bs: nat, sblock: nat, vek: Option<Cipher>, oid: nat)
    requires Mount(s.img, bs, s.omapOid, sblock).Ok?
    ensures Dir.Walked(s.img, bs, Mount(s.img, bs, s.omapOid, sblock).value, vek)(oid) == Collected(View(s, bs, sblock, vek, Some(oid)))
  {
  }

  lemma {:induction false} SameFollow(a: Dir.Records, b: Dir.Records, xid: nat, start: nat, names: seq<seq<Byte>>)
    requires forall oid: nat :: a(oid) == b(oid)
    ensures Dir.Follow(a, xid, start, names) == Dir.Follow(b, xid, start, names)
    decreases |names|
  {
    if names != [] && a(start).Ok? {
      var next := Dir.FirstNamed(Dir.Listing(a(start).value, start), names[0]);
      if next.Some? {
        SameFollow(a, b, xid, next.value, names[1..]);
      }
    }
  }

  lemma {:induction false} SameOpened(a: Dir.Records, b: Dir.Records, xid: nat, path: seq<Byte>)
    requires forall oid: nat :: a(oid) == b(oid)
    ensures Dir.Opened(a, xid, path) == Dir.Opened(b, xid, path)
  {
    SameFollow(a, b, xid, Dir.ROOT_DIR, Dir.Components(path));
  }

  /** No transaction changes a path, a listing or the extents of a stream in the mounted snapshot. */
  lemma {:induction false} StepKeepsNames(s: State, s': State, bs: nat, sblock: nat, vek: Option<Cipher>, path: seq<Byte>, oid: nat)
    requires Step(s, s', bs, sblock, vek) && |s.img| < U64 && bs > 0
    ensures OpenIn(s', bs, sblock, vek, path) == OpenIn(s, bs, sblock, vek, path)
    ensures ListIn(s', bs, sblock, vek, oid) == ListIn(s, bs, sblock, vek, oid)
    ensures ExtentsIn(s', bs, sblock, vek, oid) == ExtentsIn(s, bs, sblock, vek, oid)
  {
    StepKeepsView(s, s', bs, sblock, vek, None);
    if Frozen(s.img, bs, sblock).Ok? {
      var vol, vol' := Mount(s.img, bs, s.omapOid, sblock).value, Mount(s'.img, bs, s'.omapOid, sblock).value;
      var a, b := Dir.Walked(s.img, bs, vol, vek), Dir.Walked(s'.img, bs, vol', vek);
      forall o: nat ensures a(o) == b(o) {
        StepKeepsView(s, s', bs, sblock, vek, Some(o));
        WalkedIsView(s, bs, sblock, vek, o);
        WalkedIsView(s', bs, sblock, vek, o);
      }
      SameOpened(a, b, vol.xid, path);
      assert a(oid) == b(oid);
    }
  }

  /** A transaction that spares the data blocks changes no byte of any file of the mounted snapshot. */
  lemma {:induction false} FileStepKeepsBytes(s: State, s': State, bs: nat, sblock: nat, vek: Option<Cipher>, stream: nat, size: nat)
    requires bs > 0 && FileStep(s, s', bs, sblock, vek) && |s.img| < U64 && GoodKey(vek)
    ensures ReadIn(s', bs, sblock, vek, stream, size) == ReadIn(s, bs, sblock, vek, stream, size)
  {
    StepKeepsView(s, s', bs, sblock, vek, None);
    StepKeepsNames(s, s', bs, sblock, vek, [], stream);
    if ExtentsIn(s, bs, sblock, vek, stream).Ok? {
      var es := ExtentsIn(s, bs, sblock, vek, stream).value;
      forall e | e in es ensures SameData(s.img, s'.img, bs, vek, e) {
        DataSurvives(s, s', bs, sblock, vek, stream, e);
      }
      SameAssembly(s.img, s'.img, bs, vek, es, Zeros(size));
    }
  }

  lemma {:induction false} DataSurvives(s: State, s': State, bs: nat, sblock: nat, vek: Option<Cipher>, stream: nat, e: FileExtent)
    requires bs > 0 && FileStep(s, s', bs, sblock, vek) && GoodKey(vek) && DataOf(s, bs, sblock, vek, stream, e)
    ensures SameData(s.img, s'.img, bs, vek, e)
  {
    var ws :| s'.img == WrittenAll(s.img, bs, ws) &&
      forall w: Write :: w in ws ==> |w.data| == bs && !PinnedData(s, bs, sblock, vek, w.paddr);
    WritesKeepExtent(s.img, bs, vek, ws, e);
  }

  /** The data blocks themselves are unchanged as a set, so later transactions owe them the same care. */
  lemma {:induction false} StepKeepsPinnedData(s: State, s': State, bs: nat, sblock: nat, vek: Option<Cipher>, paddr: nat)
    requires Step(s, s', bs, sblock, vek) && |s.img| < U64 && bs > 0
    ensures PinnedData(s', bs, sblock, vek, paddr) <==> PinnedData(s, bs, sblock, vek, paddr)
  {
    forall stream: nat, e ensures DataOf(s', bs, sblock, vek, stream, e) <==> DataOf(s, bs, sblock, vek, stream, e) {
      StepKeepsNames(s, s', bs, sblock, vek, [], stream);
    }
  }

  // ---------- every run ----------

  ghost predicate FileRun(states: seq<State>, bs: nat, sblock: nat, vek: Option<Cipher>)
    requires bs > 0
  {
    forall i :: 0 <= i < |states| - 1 ==> FileStep(states[i], states[i + 1], bs, sblock, vek)
  }

  lemma {:induction false} LastStep(states: seq<State>, bs: nat, sblock: nat, vek: Option<Cipher>, before: seq<State>)
    requires bs > 0 && |states| > 1 && FileRun(states, bs, sblock, vek) && before == states[..|states| - 1]
    ensures FileRun(before, bs, sblock, vek) && before[0] == states[0]
    ensures FileStep(before[|before| - 1], states[|states| - 1], bs, sblock, vek)
  {
    forall i | 0 <= i < |before| - 1 ensures FileStep(before[i], before[i + 1], bs, sblock, vek) {
      assert before[i] == states[i] && before[i + 1] == states[i + 1];
    }
    var last := |states| - 2;
    assert FileStep(states[last], states[last + 1], bs, sblock, vek);
  }

  /**
   File isolation: after any number of transactions, opening a path, listing a
   directory and reading a file of the mounted snapshot give what they gave at
   first, or the same error.
   */
  lemma {:induction false} FilesAreIsolated(states: seq<State>, bs: nat, sblock: nat, vek: Option<Cipher>,
                                            path: seq<Byte>, oid: nat, size: nat)
    requires bs > 0 && states != [] && FileRun(states, bs, sblock, vek) && |states[0].img| < U64 && GoodKey(vek)
    ensures var first, last := states[0], states[|states| - 1];
            && OpenIn(last, bs, sblock, vek, path) == OpenIn(first, bs, sblock, vek, path)
            && ListIn(last, bs, sblock, vek, oid) == ListIn(first, bs, sblock, vek, oid)
            && ReadIn(last, bs, sblock, vek, oid, size) == ReadIn(first, bs, sblock, vek, oid, size)
            && |last.img| == |first.img|
    decreases |states|
  {
    if |states| > 1 {
      var before := states[..|states| - 1];
      LastStep(states, bs, sblock, vek, before);
      FilesAreIsolated(before, bs, sblock, vek, path, oid, size);
      var s, s' := before[|before| - 1], states[|states| - 1];
      StepKeepsView(s, s', bs, sblock, vek, None);
      StepKeepsNames(s, s', bs, sblock, vek, path, oid);
      FileStepKeepsBytes(s, s', bs, sblock, vek, oid, size);
    }
  }
}
