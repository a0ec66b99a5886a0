/** File extents and the assembly of file bytes (core/src/extent.rs). */
module Extent {
  import opened Results
  import opened Bytes
  import opened BTree
  import opened FsTree
  import opened VolumeCrypto
  import opened Arith

  const FILE_EXTENT: nat := 8
  const MAX_FILE_BYTES: nat := 0x4_0000_0000
  const LEN_RANGE: nat := 0x100_0000_0000_0000

  datatype FileExtent = FileExtent(offset: nat, len: nat, phys: nat, cryptoId: nat)

  // ---------- collecting and ordering ----------

  function ParseExtent(e: Entry): FileExtent {
    FileExtent(LeU64(e.key, 8), LeU64(e.value, 0) % LEN_RANGE, LeU64(e.value, 8), LeU64(e.value, 16))
  }

  predicate IsExtent(e: Entry, stream: nat) {
    KeyType(e.key) == FILE_EXTENT && KeyOid(e.key) == stream
  }

  /** The extents among the records of a walk, in the order shown. */
  function ExtentsOf(rs: seq<Entry>, stream: nat): seq<FileExtent>
    decreases |rs|
  {
    if rs == [] then [] else
    var sofar, e := ExtentsOf(rs[..|rs| - 1], stream), rs[|rs| - 1];
    if IsExtent(e, stream) then sofar + [ParseExtent(e)] else sofar
  }

  /** The extents of a stream, or the error its walk stops with. */
  function StreamExtents(img: seq<Byte>, bs: nat, vol: Volume, vek: Option<Cipher>, stream: nat): Result<seq<FileExtent>> {
    var rs :- Collected(WalkFsTree(img, bs, vol, vek, Some(stream)));
    Ok(SortByOffset(ExtentsOf(rs, stream)))
  }

  method ListExtents(img: seq<Byte>, bs: nat, vol: Volume, vek: Option<Cipher>, stream: nat) returns (r: Result<seq<FileExtent>>)
    ensures r == StreamExtents(img, bs, vol, vek, stream)
  {
    var rs := ForEachFsRecord(img, bs, vol, vek, Some(stream));
    if rs.Err? {
      return Err(rs.error);
    }
    var out := CollectExtents(rs.value, stream);
    return Ok(SortByOffset(out));
  }

  /** The callback of `list_extents`, over the records shown. */
  method CollectExtents(rs: seq<Entry>, stream: nat) returns (out: seq<FileExtent>)
    ensures out == ExtentsOf(rs, stream)
  {
    out := [];
    for i := 0 to |rs|
      invariant out == ExtentsOf(rs[..i], stream)
    {
      assert rs[..i + 1][..i] == rs[..i];
      if IsExtent(rs[i], stream) {
        out := out + [ParseExtent(rs[i])];
      }
    }
    assert rs[..|rs|] == rs;
  }

  lemma {:induction false} ExtentsConcat(a: seq<Entry>, b: seq<Entry>, stream: nat)
    ensures ExtentsOf(a + b, stream) == ExtentsOf(a, stream) + ExtentsOf(b, stream)
    decreases |b|
  {
    if b == [] {
      assert a + b == a;
    } else {
      var n := |b| - 1;
      ExtentsConcat(a, b[..n], stream);
      assert (a + b)[..|a| + n] == a + b[..n];
    }
  }

  lemma {:induction false} ExtentsOfFilter(rs: seq<Entry>, stream: nat)
    ensures ExtentsOf(Filter(rs, For(stream)), stream) == ExtentsOf(rs, stream)
  {
    if rs != [] {
      var one, tail := [rs[0]], Filter(rs[1..], For(stream));
      ExtentsOfFilter(rs[1..], stream);
      ExtentsConcat(one, rs[1..], stream);
      ExtentsConcat(one, tail, stream);
      assert rs == one + rs[1..] && one[..0] == [];
      if For(stream)(rs[0]) {
        assert Filter(rs, For(stream)) == one + tail;
      } else {
        assert Filter(rs, For(stream)) == tail && ExtentsOf(one, stream) == [];
      }
    }
  }

  /** On an image whose fs-tree is walkable: a stream's extents are those of the flat list of its records. */
  lemma {:induction false} ImageExtentsAreFlat(img: seq<Byte>, bs: nat, vol: Volume, vek: Option<Cipher>, t: Tree, stream: nat)
    requires HoldsTree(img, bs, vol, vek, t) && OidBounds(t)
    ensures StreamExtents(img, bs, vol, vek, stream) == Ok(SortByOffset(ExtentsOf(Records(t, ALL), stream)))
  {
    var fetch := Virtual(img, bs, vek, OpenOmap(img, bs, vol.omapOid).value, vol.xid);
    KeyedWalkIsFilteredWalk(fetch, t, stream);
    WalkOfTree(fetch, ALL, t, 0, {});
    ExtentsOfFilter(Visit(fetch, Keyed(Some(stream)), t.id, 0, {}).out, stream);
    ExtentsOfFilter(Records(t, ALL), stream);
  }

  /** Insert after every extent that does not start later: stable. */
  function Insert(e: FileExtent, sorted: seq<FileExtent>): seq<FileExtent> {
    if sorted == [] || e.offset < sorted[0].offset then [e] + sorted else [sorted[0]] + Insert(e, sorted[1..])
  }

  /** `sort_by_key(|e| e.logical_offset)`. */
  function SortByOffset(es: seq<FileExtent>): seq<FileExtent> {
    if es == [] then [] else Insert(es[|es| - 1], SortByOffset(es[..|es| - 1]))
  }

  ghost predicate Ascending(es: seq<FileExtent>) {
    forall i, j :: 0 <= i <= j < |es| ==> es[i].offset <= es[j].offset
  }

  lemma {:induction false} InsertSorts(e: FileExtent, sorted: seq<FileExtent>)
    requires Ascending(sorted)
    ensures Ascending(Insert(e, sorted))
    ensures multiset(Insert(e, sorted)) == multiset(sorted) + multiset{e}
  {
    if sorted != [] && e.offset >= sorted[0].offset {
      var h, rest := sorted[0], sorted[1..];
      InsertSorts(e, rest);
      assert sorted == [h] + rest;
      LowestFirst(h, rest, e, Insert(e, rest));
    }
  }

  lemma {:induction false} LowestFirst(h: FileExtent, rest: seq<FileExtent>, e: FileExtent, out: seq<FileExtent>)
    requires Ascending([h] + rest) && h.offset <= e.offset && Ascending(out) && multiset(out) == multiset(rest) + multiset{e}
    ensures Ascending([h] + out)
  {
    forall i | 0 <= i < |out| ensures h.offset <= out[i].offset {
      assert out[i] in multiset(out);
      if out[i] != e {
        assert out[i] in rest;
        var j :| 0 <= j < |rest| && rest[j] == out[i];
        assert ([h] + rest)[j + 1] == rest[j] && ([h] + rest)[0] == h;
      }
    }
  }

  lemma {:induction false} SortSorts(es: seq<FileExtent>)
    ensures Ascending(SortByOffset(es)) && multiset(SortByOffset(es)) == multiset(es)
  {
    if es != [] {
      var n := |es| - 1;
      SortSorts(es[..n]);
      InsertSorts(es[n], SortByOffset(es[..n]));
      assert es == es[..n] + [es[n]];
    }
  }

  /** The extents that start at x, in order. */
  function StartingAt(es: seq<FileExtent>, x: nat): seq<FileExtent> {
    if es == [] then [] else (if es[0].offset == x then [es[0]] else []) + StartingAt(es[1..], x)
  }

  lemma {:induction false} StartingAtSnoc(es: seq<FileExtent>, e: FileExtent, x: nat)
    ensures StartingAt(es + [e], x) == StartingAt(es, x) + if e.offset == x then [e] else []
  {
    if es == [] {
      assert es + [e] == [e] && [e][1..] == [];
    } else {
      StartingAtSnoc(es[1..], e, x);
      assert (es + [e])[1..] == es[1..] + [e] && (es + [e])[0] == es[0];
    }
  }

  lemma {:induction false} NoneStart(es: seq<FileExtent>, x: nat)
    requires forall e :: e in es ==> e.offset != x
    ensures StartingAt(es, x) == []
  {
    if es != [] {
      NoneStart(es[1..], x);
    }
  }

  lemma {:induction false} InsertStable(e: FileExtent, sorted: seq<FileExtent>, x: nat)
    requires Ascending(sorted)
    ensures StartingAt(Insert(e, sorted), x) == StartingAt(sorted, x) + if e.offset == x then [e] else []
  {
    if sorted == [] || e.offset < sorted[0].offset {
      assert ([e] + sorted)[1..] == sorted;
      if e.offset == x {
        NoneStart(sorted, x);
      }
    } else {
      InsertStable(e, sorted[1..], x);
      assert ([sorted[0]] + Insert(e, sorted[1..]))[1..] == Insert(e, sorted[1..]);
    }
  }

  /** Extents with equal offsets keep their order, so the one recorded last still wins. */
  lemma {:induction false} SortStable(es: seq<FileExtent>, x: nat)
    ensures StartingAt(SortByOffset(es), x) == StartingAt(es, x)
  {
    if es != [] {
      var n := |es| - 1;
      SortStable(es[..n], x);
      SortSorts(es[..n]);
      InsertStable(es[n], SortByOffset(es[..n]), x);
      StartingAtSnoc(es[..n], es[n], x);
      assert es == es[..n] + [es[n]];
    }
  }

  // ---------- the bytes of one extent ----------

  /** `read_exact` of n bytes at an offset; reading nothing always succeeds. */
  function ReadBytes(img: seq<Byte>, off: nat, n: nat): Result<seq<Byte>> {
    if n == 0 then Ok([]) else if off + n <= |img| then Ok(img[off..off + n]) else Err(Io)
  }

  function CeilDiv(n: nat, d: nat): nat
    requires d > 0
  {
    (n + d - 1) / d
  }

  /** Whether this extent's data is decrypted. */
  predicate Decrypts(vek: Option<Cipher>, e: FileExtent) {
    vek.Some? && e.cryptoId != 0
  }

  ghost predicate GoodKey(vek: Option<Cipher>) {
    vek.Some? ==> LengthPreserving(vek.value)
  }

  /** How many bytes are read to deliver n: whole blocks when they must be decrypted. */
  function Span(bs: nat, vek: Option<Cipher>, e: FileExtent, n: nat): (m: nat)
    requires bs > 0
    ensures m >= n
  {
    if Decrypts(vek, e) then
      CeilCovers(n, bs);
      CeilDiv(n, bs) * bs
    else n
  }

  lemma {:induction false} CeilCovers(n: nat, d: nat)
    requires d > 0
    ensures n <= CeilDiv(n, d) * d < n + d
  {
    Quotient(n + d - 1, d);
  }

  /** The first n bytes of an extent. Encrypted data is read in whole blocks, decrypted, then cut. */
  function ExtentBytes(img: seq<Byte>, bs: nat, vek: Option<Cipher>, e: FileExtent, n: nat): (r: Result<seq<Byte>>)
    requires bs > 0 && GoodKey(vek)
    ensures r.Ok? ==> |r.value| == n
  {
    if e.phys * bs >= U64 then Err(FieldOutOfRange(PhysBlockField, e.phys, (U64 - 1) / bs)) else
    var raw :- ReadBytes(img, e.phys * bs, Span(bs, vek, e, n));
    if Decrypts(vek, e) then
      var f := ExtentCipher(vek.value, e.cryptoId, bs);
      ExtentCipherLength(vek.value, e.cryptoId, bs);
      ChunksLength(raw, f, bs, 0);
      Ok(InChunks(raw, f, bs, 0)[..n])
    else Ok(raw)
  }

  // ---------- assembling a stream ----------

  /** Holes and extents past the end are skipped. */
  predicate Contributes(e: FileExtent, size: nat) {
    e.offset < size && e.phys != 0
  }

  function Place(out: seq<Byte>, start: nat, bytes: seq<Byte>): seq<Byte>
    requires start + |bytes| <= |out|
  {
    out[..start] + bytes + out[start + |bytes|..]
  }

  /** The part of an extent inside the logical size. */
  function CopyLen(e: FileExtent, size: nat): nat
    requires e.offset < size
  {
    Min(e.len, size - e.offset)
  }

  /** One extent laid over the buffer. */
  function Lay(img: seq<Byte>, bs: nat, vek: Option<Cipher>, e: FileExtent, out: seq<Byte>): (r: Result<seq<Byte>>)
    requires bs > 0 && GoodKey(vek)
    ensures r.Ok? ==> |r.value| == |out|
  {
    if !Contributes(e, |out|) then Ok(out) else
    var bytes :- ExtentBytes(img, bs, vek, e, CopyLen(e, |out|));
    Ok(Place(out, e.offset, bytes))
  }

  function LayAll(img: seq<Byte>, bs: nat, vek: Option<Cipher>, es: seq<FileExtent>, out: seq<Byte>): (r: Result<seq<Byte>>)
    requires bs > 0 && GoodKey(vek)
    ensures r.Ok? ==> |r.value| == |out|
    decreases |es|
  {
    if es == [] then Ok(out) else
    var sofar :- LayAll(img, bs, vek, es[..|es| - 1], out);
    Lay(img, bs, vek, es[|es| - 1], sofar)
  }

  /** The bytes of a stream. */
  function StreamBytes(img: seq<Byte>, bs: nat, vol: Volume, vek: Option<Cipher>, stream: nat, size: nat): Result<seq<Byte>>
    requires bs > 0 && GoodKey(vek)
  {
    if size > MAX_FILE_BYTES then Err(FieldOutOfRange(SizeField, size, MAX_FILE_BYTES)) else
    var es :- StreamExtents(img, bs, vol, vek, stream);
    LayAll(img, bs, vek, es, Zeros(size))
  }

  /** `copy_from_slice` into part of a buffer. */
  method CopyInto(a: array<Byte>, start: nat, bytes: seq<Byte>)
    requires start + |bytes| <= a.Length
    modifies a
    ensures a[..] == Place(old(a[..]), start, bytes)
  {
    ghost var was := a[..];
    for j := 0 to |bytes|
      invariant forall k :: 0 <= k < a.Length ==> a[k] == if start <= k < start + j then bytes[k - start] else was[k]
    {
      a[start + j] := bytes[j];
    }
  }

  /** Decrypt a buffer in place, block by block (`chunks_mut`). */
  method DecryptInPlace(tmp: array<Byte>, f: Cipher, bs: nat)
    requires bs > 0 && LengthPreserving(f)
    modifies tmp
    ensures tmp[..] == InChunks(old(tmp[..]), f, bs, 0)
  {
    ghost var was := tmp[..];
    var lo, i := 0, 0;
    assert was[0..] == was;
    while lo < tmp.Length
      invariant 0 <= lo <= tmp.Length && 0 <= i
      invariant tmp[lo..] == was[lo..]
      invariant InChunks(was, f, bs, 0) == tmp[..lo] + InChunks(was[lo..], f, bs, i)
    {
      var hi := if lo + bs < tmp.Length then lo + bs else tmp.Length;
      ghost var head := tmp[..lo];
      ghost var now := tmp[..];
      SameSlice(now, was, lo, hi);
      var block := f(tmp[lo..hi], i);
      Chunk(was, f, bs, lo, hi, i);
      CopyInto(tmp, lo, block);
      PlaceParts(now, lo, block);
      Regroup(head, block, InChunks(was[hi..], f, bs, i + 1));
      lo, i := hi, i + 1;
    }
  }

  lemma {:induction false} SameSlice(a: seq<Byte>, b: seq<Byte>, lo: nat, hi: nat)
    requires lo <= hi <= |a| == |b| && a[lo..] == b[lo..]
    ensures a[lo..hi] == b[lo..hi] && a[hi..] == b[hi..]
  {
    assert a[lo..hi] == a[lo..][..hi - lo] && b[lo..hi] == b[lo..][..hi - lo];
    assert a[hi..] == a[lo..][hi - lo..] && b[hi..] == b[lo..][hi - lo..];
  }

  lemma {:induction false} PlaceParts(out: seq<Byte>, start: nat, bytes: seq<Byte>)
    requires start + |bytes| <= |out|
    ensures var p := Place(out, start, bytes);
            |p| == |out| && p[..start + |bytes|] == out[..start] + bytes && p[start + |bytes|..] == out[start + |bytes|..]
  {
  }

  /** The chunk of `was` at lo..hi is decrypted on its own. */
  lemma {:induction false} Chunk(was: seq<Byte>, f: Cipher, bs: nat, lo: nat, hi: nat, i: nat)
    requires bs > 0 && lo < hi <= |was| && hi == (if lo + bs < |was| then lo + bs else |was|)
    ensures InChunks(was[lo..], f, bs, i) == f(was[lo..hi], i) + InChunks(was[hi..], f, bs, i + 1)
  {
    if lo + bs < |was| {
      assert was[lo..][..bs] == was[lo..hi] && was[lo..][bs..] == was[hi..];
    } else {
      assert was[lo..hi] == was[lo..] && was[hi..] == [];
    }
  }

  /** The bytes of one extent, read and decrypted through a temporary buffer. */
  method ReadExtent(img: seq<Byte>, bs: nat, vek: Option<Cipher>, e: FileExtent, n: nat) returns (r: Result<seq<Byte>>)
    requires bs > 0 && GoodKey(vek)
    ensures r == ExtentBytes(img, bs, vek, e, n)
  {
    if e.phys * bs >= U64 {
      return Err(FieldOutOfRange(PhysBlockField, e.phys, (U64 - 1) / bs));
    }
    var raw := ReadBytes(img, e.phys * bs, Span(bs, vek, e, n));
    if raw.Err? {
      return Err(raw.error);
    }
    if !Decrypts(vek, e) {
      return raw;
    }
    var tmp := new Byte[|raw.value|](i requires 0 <= i < |raw.value| => raw.value[i]);
    assert tmp[..] == raw.value;
    ExtentCipherLength(vek.value, e.cryptoId, bs);
    DecryptInPlace(tmp, ExtentCipher(vek.value, e.cryptoId, bs), bs);
    ChunksLength(raw.value, ExtentCipher(vek.value, e.cryptoId, bs), bs, 0);
    assert tmp[..n] == tmp[..][..n];
    return Ok(tmp[..n]);
  }

  /** `read_stream`. */
  method ReadStream(img: seq<Byte>, bs: nat, vol: Volume, vek: Option<Cipher>, stream: nat, size: nat) returns (r: Result<seq<Byte>>)
    requires bs > 0 && GoodKey(vek)
    ensures r == StreamBytes(img, bs, vol, vek, stream, size)
  {
    if size > MAX_FILE_BYTES {
      return Err(FieldOutOfRange(SizeField, size, MAX_FILE_BYTES));
    }
    var es := ListExtents(img, bs, vol, vek, stream);
    if es.Err? {
      return Err(es.error);
    }
    r := AssembleExtents(img, bs, vek, es.value, size);
  }

  /** The loop over the extents, into a zeroed buffer. */
  method AssembleExtents(img: seq<Byte>, bs: nat, vek: Option<Cipher>, es: seq<FileExtent>, size: nat) returns (r: Result<seq<Byte>>)
    requires bs > 0 && GoodKey(vek)
    ensures r == LayAll(img, bs, vek, es, Zeros(size))
  {
    var out := new Byte[size](i => 0);
    assert out[..] == Zeros(size);
    for i := 0 to |es|
      invariant LayAll(img, bs, vek, es[..i], Zeros(size)) == Ok(out[..])
    {
      assert es[..i + 1][..i] == es[..i];
      var e := es[i];
      if Contributes(e, size) {
        var bytes := ReadExtent(img, bs, vek, e, CopyLen(e, size));
        if bytes.Err? {
          ErrorStays(img, bs, vek, es, i, Zeros(size), bytes.error);
          return Err(bytes.error);
        }
        CopyInto(out, e.offset, bytes.value);
      }
    }
    assert es[..|es|] == es;
    return Ok(out[..]);
  }

  /** The first extent that fails decides the result. */
  lemma {:induction false} ErrorStays(img: seq<Byte>, bs: nat, vek: Option<Cipher>, es: seq<FileExtent>, i: nat, out: seq<Byte>, err: Error)
    requires bs > 0 && GoodKey(vek) && i < |es| && LayAll(img, bs, vek, es[..i + 1], out) == Err(err)
    ensures LayAll(img, bs, vek, es, out) == Err(err)
    decreases |es|
  {
    if i + 1 == |es| {
      assert es[..i + 1] == es;
    } else {
      var init := es[..|es| - 1];
      assert init[..i + 1] == es[..i + 1];
      ErrorStays(img, bs, vek, init, i, out, err);
    }
  }

  // ---------- what a stream is, byte by byte ----------

  /** Byte r of the block at lo, decrypted as block i. */
  function DecryptedIn(img: seq<Byte>, lo: nat, f: Cipher, bs: nat, i: nat, r: nat): Byte {
    var plain := f(if lo + bs <= |img| then img[lo..lo + bs] else [], i);
    if r < |plain| then plain[r] else 0
  }

  /** Byte j of blocks stored from `at` on, each decrypted on its own. */
  function DecryptedByte(img: seq<Byte>, at: nat, f: Cipher, bs: nat, j: nat): Byte
    requires bs > 0
  {
    DecryptedIn(img, at + (j / bs) * bs, f, bs, j / bs, j % bs)
  }

  /** Byte j of an extent: the physical byte, or the byte of its own decrypted block. */
  function SourceByte(img: seq<Byte>, bs: nat, vek: Option<Cipher>, e: FileExtent, j: nat): Byte
    requires bs > 0
  {
    var at := e.phys * bs;
    if Decrypts(vek, e) then DecryptedByte(img, at, ExtentCipher(vek.value, e.cryptoId, bs), bs, j)
    else if at + j < |img| then img[at + j] else 0
  }

  /** The extent maps logical byte k to stored data. */
  predicate Covers(e: FileExtent, k: nat) {
    e.phys != 0 && e.offset <= k < e.offset + e.len
  }

  /** Logical byte k: from the last extent that covers it, zero where none does. */
  function ByteAt(img: seq<Byte>, bs: nat, vek: Option<Cipher>, es: seq<FileExtent>, k: nat): Byte
    requires bs > 0
    decreases |es|
  {
    if es == [] then 0
    else if Covers(es[|es| - 1], k) then SourceByte(img, bs, vek, es[|es| - 1], k - es[|es| - 1].offset)
    else ByteAt(img, bs, vek, es[..|es| - 1], k)
  }

  /** Byte j of whole blocks decrypted one by one is a byte of its own block, which starts at lo. */
  lemma {:induction false} ChunkByte(data: seq<Byte>, f: Cipher, bs: nat, i: nat, lo: nat, j: nat)
    requires bs > 0 && LengthPreserving(f) && lo == i * bs && lo + bs <= |data| && lo <= j < lo + bs
    ensures j < |InChunks(data, f, bs, 0)| && InChunks(data, f, bs, 0)[j] == f(data[lo..lo + bs], i)[j - lo]
  {
    var a, block, b := data[..lo], data[lo..lo + bs], data[lo + bs..];
    assert data == a + (block + b);
    ChunksSplit(a, block + b, f, bs, 0, i);
    FirstChunk(block, b, f, bs, i);
    ChunksLength(a, f, bs, 0);
    ChunksLength(data, f, bs, 0);
  }

  lemma {:induction false} BlockOfByte(j: nat, bs: nat, m: nat, total: nat)
    requires bs > 0 && total == m * bs && j < total
    ensures var lo := (j / bs) * bs;
            lo <= j < lo + bs && j % bs == j - lo && lo + bs <= total
  {
    Quotient(j, bs);
    QuotientIs(j, m, bs);
    Apart(j / bs, m, bs);
  }

  /** The same for blocks read from the image at `at`. */
  lemma {:induction false} ImageChunkByteIn(img: seq<Byte>, at: nat, f: Cipher, bs: nat, total: nat, i: nat, lo: nat, j: nat)
    requires bs > 0 && LengthPreserving(f) && at + total <= |img|
    requires lo == i * bs && lo <= j < lo + bs && lo + bs <= total
    ensures var plain := InChunks(img[at..at + total], f, bs, 0);
            j < |plain| && plain[j] == DecryptedIn(img, at + lo, f, bs, i, j - lo)
  {
    var raw := img[at..at + total];
    ChunkByte(raw, f, bs, i, lo, j);
    SliceOfSlice(img, at, at + total, lo, lo + bs);
  }

  lemma {:induction false} ImageChunkByte(img: seq<Byte>, at: nat, f: Cipher, bs: nat, m: nat, total: nat, j: nat)
    requires bs > 0 && LengthPreserving(f) && total == m * bs && at + total <= |img| && j < total
    ensures var plain := InChunks(img[at..at + total], f, bs, 0);
            j < |plain| && plain[j] == DecryptedByte(img, at, f, bs, j)
  {
    BlockOfByte(j, bs, m, total);
    ImageChunkByteIn(img, at, f, bs, total, j / bs, (j / bs) * bs, j);
  }

  lemma {:induction false} DeliveredByte(img: seq<Byte>, bs: nat, vek: Option<Cipher>, e: FileExtent, n: nat, j: nat)
    requires bs > 0 && GoodKey(vek) && ExtentBytes(img, bs, vek, e, n).Ok? && j < n
    ensures ExtentBytes(img, bs, vek, e, n).value[j] == SourceByte(img, bs, vek, e, j)
  {
    if Decrypts(vek, e) {
      ExtentCipherLength(vek.value, e.cryptoId, bs);
      CeilCovers(n, bs);
      ImageChunkByte(img, e.phys * bs, ExtentCipher(vek.value, e.cryptoId, bs), bs, CeilDiv(n, bs), Span(bs, vek, e, n), j);
    }
  }

  lemma {:induction false} LayPointwise(img: seq<Byte>, bs: nat, vek: Option<Cipher>, e: FileExtent, out: seq<Byte>, k: nat)
    requires bs > 0 && GoodKey(vek) && Lay(img, bs, vek, e, out).Ok? && k < |out|
    ensures Lay(img, bs, vek, e, out).value[k] ==
              if Covers(e, k) then SourceByte(img, bs, vek, e, k - e.offset) else out[k]
  {
    if Contributes(e, |out|) {
      var n := CopyLen(e, |out|);
      if e.offset <= k < e.offset + n {
        DeliveredByte(img, bs, vek, e, n, k - e.offset);
      }
    }
  }

  /**
   The assembled stream has exactly the logical size, and every byte is the
   stored (decrypted) byte of the last extent that maps it, or zero in a hole.
   */
  lemma {:induction false} AssembledPointwise(img: seq<Byte>, bs: nat, vek: Option<Cipher>, es: seq<FileExtent>, size: nat)
    requires bs > 0 && GoodKey(vek) && LayAll(img, bs, vek, es, Zeros(size)).Ok?
    ensures var out := LayAll(img, bs, vek, es, Zeros(size)).value;
            |out| == size && forall k :: 0 <= k < size ==> out[k] == ByteAt(img, bs, vek, es, k)
    decreases |es|
  {
    if es != [] {
      var init, e := es[..|es| - 1], es[|es| - 1];
      AssembledPointwise(img, bs, vek, init, size);
      var sofar := LayAll(img, bs, vek, init, Zeros(size)).value;
      forall k | 0 <= k < size
        ensures LayAll(img, bs, vek, es, Zeros(size)).value[k] == ByteAt(img, bs, vek, es, k)
      {
        LayPointwise(img, bs, vek, e, sofar, k);
      }
    }
  }

  // ---------- when it succeeds ----------

  /** The part of this extent inside the logical size can be addressed and read. */
  predicate Readable(img: seq<Byte>, bs: nat, vek: Option<Cipher>, e: FileExtent, size: nat)
    requires bs > 0
  {
    Contributes(e, size) ==>
      && e.phys * bs < U64
      && var m := Span(bs, vek, e, CopyLen(e, size));
         m == 0 || e.phys * bs + m <= |img|
  }

  lemma {:induction false} LaysIffReadable(img: seq<Byte>, bs: nat, vek: Option<Cipher>, e: FileExtent, out: seq<Byte>)
    requires bs > 0 && GoodKey(vek)
    ensures Lay(img, bs, vek, e, out).Ok? <==> Readable(img, bs, vek, e, |out|)
  {
  }

  lemma {:induction false} SucceedsIffReadable(img: seq<Byte>, bs: nat, vek: Option<Cipher>, es: seq<FileExtent>, size: nat)
    requires bs > 0 && GoodKey(vek)
    ensures LayAll(img, bs, vek, es, Zeros(size)).Ok? <==> forall e :: e in es ==> Readable(img, bs, vek, e, size)
    decreases |es|
  {
    if es != [] {
      var init, e := es[..|es| - 1], es[|es| - 1];
      SucceedsIffReadable(img, bs, vek, init, size);
      assert es == init + [e];
      assert forall x :: x in es <==> x in init || x == e;
      if LayAll(img, bs, vek, init, Zeros(size)).Ok? {
        LaysIffReadable(img, bs, vek, e, LayAll(img, bs, vek, init, Zeros(size)).value);
      }
    }
  }

  /** A stream can be read exactly up to 16 GiB, when its walk succeeds and every extent's part inside the size can be read. */
  lemma {:induction false} ReadsIff(img: seq<Byte>, bs: nat, vol: Volume, vek: Option<Cipher>, stream: nat, size: nat)
    requires bs > 0 && GoodKey(vek)
    ensures StreamBytes(img, bs, vol, vek, stream, size).Ok? <==>
              && size <= 0x4_0000_0000 && StreamExtents(img, bs, vol, vek, stream).Ok?
              && forall e :: e in StreamExtents(img, bs, vol, vek, stream).value ==> Readable(img, bs, vek, e, size)
  {
    if StreamExtents(img, bs, vol, vek, stream).Ok? {
      SucceedsIffReadable(img, bs, vek, StreamExtents(img, bs, vol, vek, stream).value, size);
    }
  }

  // ---------- consequences ----------

  /** No two data extents map the same logical byte. */
  ghost predicate Disjoint(es: seq<FileExtent>) {
    forall i, j, k: nat :: 0 <= i < |es| && 0 <= j < |es| && Covers(es[i], k) && Covers(es[j], k) ==> es[i] == es[j]
  }

  lemma {:induction false} ByteOfCovering(img: seq<Byte>, bs: nat, vek: Option<Cipher>, es: seq<FileExtent>, k: nat, e: FileExtent)
    requires bs > 0 && Disjoint(es) && e in es && Covers(e, k)
    ensures ByteAt(img, bs, vek, es, k) == SourceByte(img, bs, vek, e, k - e.offset)
    decreases |es|
  {
    var init, last := es[..|es| - 1], es[|es| - 1];
    var i :| 0 <= i < |es| && es[i] == e;
    if !Covers(last, k) {
      assert init[i] == e;
      ByteOfCovering(img, bs, vek, init, k, e);
    }
  }

  lemma {:induction false} ByteOfHole(img: seq<Byte>, bs: nat, vek: Option<Cipher>, es: seq<FileExtent>, k: nat)
    requires bs > 0 && forall e :: e in es ==> !Covers(e, k)
    ensures ByteAt(img, bs, vek, es, k) == 0
    decreases |es|
  {
    if es != [] {
      assert es[|es| - 1] in es;
      ByteOfHole(img, bs, vek, es[..|es| - 1], k);
    }
  }

  /** Disjoint extents assemble to the same bytes, or all fail to, in whatever order they are listed. */
  lemma {:induction false} OrderDoesNotMatter(img: seq<Byte>, bs: nat, vek: Option<Cipher>, a: seq<FileExtent>, b: seq<FileExtent>, size: nat)
    requires bs > 0 && GoodKey(vek) && Disjoint(a) && multiset(a) == multiset(b)
    ensures LayAll(img, bs, vek, a, Zeros(size)).Ok? <==> LayAll(img, bs, vek, b, Zeros(size)).Ok?
    ensures LayAll(img, bs, vek, a, Zeros(size)).Ok? ==>
              LayAll(img, bs, vek, a, Zeros(size)) == LayAll(img, bs, vek, b, Zeros(size))
  {
    forall e ensures e in a <==> e in b {
      assert e in a <==> e in multiset(a);
      assert e in b <==> e in multiset(b);
    }
    SucceedsIffReadable(img, bs, vek, a, size);
    SucceedsIffReadable(img, bs, vek, b, size);
    if LayAll(img, bs, vek, a, Zeros(size)).Ok? {
      AssembledPointwise(img, bs, vek, a, size);
      AssembledPointwise(img, bs, vek, b, size);
      DisjointToo(a, b);
      forall k | 0 <= k < size ensures ByteAt(img, bs, vek, a, k) == ByteAt(img, bs, vek, b, k) {
        if e :| e in a && Covers(e, k) {
          ByteOfCovering(img, bs, vek, a, k, e);
          ByteOfCovering(img, bs, vek, b, k, e);
        } else {
          ByteOfHole(img, bs, vek, a, k);
          ByteOfHole(img, bs, vek, b, k);
        }
      }
      assert LayAll(img, bs, vek, a, Zeros(size)).value == LayAll(img, bs, vek, b, Zeros(size)).value;
    }
  }

  lemma {:induction false} DisjointToo(a: seq<FileExtent>, b: seq<FileExtent>)
    requires Disjoint(a) && forall e :: e in a <==> e in b
    ensures Disjoint(b)
  {
    forall i, j, k: nat | 0 <= i < |b| && 0 <= j < |b| && Covers(b[i], k) && Covers(b[j], k) ensures b[i] == b[j] {
      assert b[i] in a && b[j] in a;
    }
  }

  /** Sorting the records by offset, as the reader does, therefore makes no difference for disjoint extents. */
  lemma {:induction false} SortingDoesNotMatter(img: seq<Byte>, bs: nat, vek: Option<Cipher>, es: seq<FileExtent>, size: nat)
    requires bs > 0 && GoodKey(vek) && Disjoint(es) && LayAll(img, bs, vek, es, Zeros(size)).Ok?
    ensures LayAll(img, bs, vek, SortByOffset(es), Zeros(size)) == LayAll(img, bs, vek, es, Zeros(size))
  {
    SortSorts(es);
    OrderDoesNotMatter(img, bs, vek, es, SortByOffset(es), size);
  }

  lemma {:induction false} CeilMonotone(a: nat, b: nat, d: nat)
    requires d > 0 && a <= b
    ensures CeilDiv(a, d) * d <= CeilDiv(b, d) * d && (a == 0 ==> CeilDiv(a, d) * d == 0)
  {
    var x, y := CeilDiv(a, d), CeilDiv(b, d);
    QuotientIs(a + d - 1, y + 1, d);
    Quotient(b + d - 1, d);
    Distribute(y, 1, d);
    assert x <= y;
    if x < y {
      Apart(x, y, d);
    }
    if a == 0 {
      QuotientIs(d - 1, 0, d);
    }
  }

  lemma {:induction false} ShorterIsReadable(img: seq<Byte>, bs: nat, vek: Option<Cipher>, e: FileExtent, small: nat, size: nat)
    requires bs > 0 && small <= size && Readable(img, bs, vek, e, size)
    ensures Readable(img, bs, vek, e, small)
  {
    if Contributes(e, small) {
      CeilMonotone(CopyLen(e, small), CopyLen(e, size), bs);
    }
  }

  lemma {:induction false} ShorterIsPrefix(img: seq<Byte>, bs: nat, vek: Option<Cipher>, es: seq<FileExtent>, small: nat, size: nat)
    requires bs > 0 && GoodKey(vek) && small <= size && LayAll(img, bs, vek, es, Zeros(size)).Ok?
    ensures LayAll(img, bs, vek, es, Zeros(small)) == Ok(LayAll(img, bs, vek, es, Zeros(size)).value[..small])
  {
    SucceedsIffReadable(img, bs, vek, es, size);
    SucceedsIffReadable(img, bs, vek, es, small);
    forall e | e in es ensures Readable(img, bs, vek, e, small) {
      ShorterIsReadable(img, bs, vek, e, small, size);
    }
    AssembledPointwise(img, bs, vek, es, small);
    AssembledPointwise(img, bs, vek, es, size);
    assert LayAll(img, bs, vek, es, Zeros(small)).value == LayAll(img, bs, vek, es, Zeros(size)).value[..small];
  }

  /** Reading a stream at a smaller logical size succeeds too and gives a prefix. */
  lemma {:induction false} ShorterReadIsPrefix(img: seq<Byte>, bs: nat, vol: Volume, vek: Option<Cipher>, stream: nat, small: nat, size: nat)
    requires bs > 0 && GoodKey(vek) && small <= size && StreamBytes(img, bs, vol, vek, stream, size).Ok?
    ensures StreamBytes(img, bs, vol, vek, stream, small) == Ok(StreamBytes(img, bs, vol, vek, stream, size).value[..small])
  {
    ShorterIsPrefix(img, bs, vek, StreamExtents(img, bs, vol, vek, stream).value, small, size);
  }

  /** An encrypted extent is what decrypting its blocks in one sweep from its first sector gives, cut to length. */
  lemma {:induction false} ExtentIsOneArea(img: seq<Byte>, bs: nat, spb: nat, c: Cipher, e: FileExtent, n: nat)
    requires LengthPreserving(c) && spb > 0 && bs == spb * SECTOR && e.cryptoId != 0
    requires n > 0 ==> (e.cryptoId + (CeilDiv(n, bs) - 1)) * spb < U64
    requires ExtentBytes(img, bs, Some(c), e, n).Ok?
    ensures var raw := ReadBytes(img, e.phys * bs, CeilDiv(n, bs) * bs).value;
            var area := DecryptArea(raw, c, e.cryptoId * spb);
            n <= |area| && ExtentBytes(img, bs, Some(c), e, n).value == area[..n]
  {
    var m := CeilDiv(n, bs);
    CeilMonotone(0, n, bs);
    CeilCovers(n, bs);
    var raw := ReadBytes(img, e.phys * bs, m * bs).value;
    ChunksLength(raw, c, SECTOR, e.cryptoId * spb);
    BlocksAreOneArea(raw, c, e.cryptoId, spb, bs, if n == 0 then 0 else m);
  }

  /** An extent whose blocks were enciphered sector by sector from `cryptoId * (bs / 512)` on delivers the plaintext. */
  lemma {:induction false} ExtentDeciphers(img: seq<Byte>, bs: nat, spb: nat, c: Cipher, enc: Cipher, e: FileExtent, n: nat, plain: seq<Byte>)
    requires LengthPreserving(c) && LengthPreserving(enc) && Undoes(c, enc) && spb > 0 && bs == spb * 512 && e.cryptoId != 0
    requires n > 0 ==> (e.cryptoId + (CeilDiv(n, bs) - 1)) * spb < U64
    requires e.phys * bs < U64 && ReadBytes(img, e.phys * bs, CeilDiv(n, bs) * bs) == Ok(Encipher(plain, enc, e.cryptoId * spb))
    ensures n <= |plain| && ExtentBytes(img, bs, Some(c), e, n) == Ok(plain[..n])
  {
    ExtentIsOneArea(img, bs, spb, c, e, n);
    Deciphers(plain, enc, c, e.cryptoId * spb);
  }
}
