/** The decmpfs header, its dispatch, inline payloads and zlib resource forks (core/src/compression.rs). */
module Decmpfs {
  import opened Results
  import opened Bytes
  import opened Compression

  const MAGIC: nat := 0x636d_7066
  const HEADER_LEN: nat := 16

  datatype Algorithm = Uncompressed | Zlib | Lzvn | Lzfse | LzBitmap
  datatype Storage = Inline | ResourceFork
  datatype Kind = Kind(algorithm: Algorithm, storage: Storage)

  /** The type table of the format library. */
  type Classify = nat -> Option<Kind>

  type Inflate = seq<Byte> -> Result<seq<Byte>>

  /** The codec libraries. */
  datatype Codecs = Codecs(inflate: Inflate, lzvn: Codec, lzfse: Inflate)

  // ---------- zlib resource forks ----------

  function CheckedBeU32(data: seq<Byte>, off: nat): Result<nat> {
    if off + 4 <= |data| then Ok(BeVal(data[off..off + 4])) else Err(Decmpfs(ReadOutOfBounds))
  }

  /** The stored bytes of table entry i. */
  function StoredBlock(fork: seq<Byte>, table: nat, i: nat): Result<seq<Byte>> {
    var offset :- CheckedU32(fork, table + 4 + i * 8);
    var size :- CheckedU32(fork, table + 4 + i * 8 + 4);
    var start := table + offset;
    if start + size > |fork| then Err(Decmpfs(ChunkOutOfBounds)) else Ok(fork[start..start + size])
  }

  function ZlibFrom(fork: seq<Byte>, inflate: Inflate, table: nat, n: nat, i: nat, out: seq<Byte>): Result<seq<Byte>>
    decreases n - i
  {
    if i >= n then Ok(out) else
    var block :- StoredBlock(fork, table, i);
    var decoded :- inflate(block);
    ZlibFrom(fork, inflate, table, n, i + 1, out + decoded)
  }

  /** `decode_zlib_resource_fork`. */
  function DecodeZlib(fork: seq<Byte>, inflate: Inflate): Result<seq<Byte>> {
    var header :- CheckedBeU32(fork, 0);
    var n :- CheckedU32(fork, header + 4);
    ZlibFrom(fork, inflate, header + 4, n, 0, [])
  }

  method DecodeZlibFork(fork: seq<Byte>, inflate: Inflate) returns (r: Result<seq<Byte>>)
    ensures r == DecodeZlib(fork, inflate)
  {
    var header := CheckedBeU32(fork, 0);
    if header.Err? {
      return Err(header.error);
    }
    var table := header.value + 4;
    var n := CheckedU32(fork, table);
    if n.Err? {
      return Err(n.error);
    }
    var out: seq<Byte> := [];
    for i := 0 to n.value
      invariant DecodeZlib(fork, inflate) == ZlibFrom(fork, inflate, table, n.value, i, out)
    {
      var block := StoredBlock(fork, table, i);
      if block.Err? {
        return Err(block.error);
      }
      var decoded := inflate(block.value);
      if decoded.Err? {
        return Err(decoded.error);
      }
      out := out + decoded.value;
    }
    return Ok(out);
  }

  function Concat(pieces: seq<seq<Byte>>): seq<Byte> {
    if pieces == [] then [] else pieces[0] + Concat(pieces[1..])
  }

  type Encoder = seq<Byte> -> seq<Byte>

  function ZlibTable(pieces: seq<seq<Byte>>, enc: Encoder, at: nat): (b: seq<Byte>)
    ensures |b| == 8 * |pieces|
  {
    if pieces == [] then [] else
    LeBytes(at, 4) + (LeBytes(|enc(pieces[0])|, 4) + ZlibTable(pieces[1..], enc, at + |enc(pieces[0])|))
  }

  function ZlibBody(pieces: seq<seq<Byte>>, enc: Encoder): seq<Byte> {
    if pieces == [] then [] else enc(pieces[0]) + ZlibBody(pieces[1..], enc)
  }

  /** A fork: resource header, size prefix, block count, block table, blocks. */
  function ZlibFork(head: seq<Byte>, prefix: seq<Byte>, pieces: seq<seq<Byte>>, enc: Encoder): seq<Byte> {
    head + (prefix + (LeBytes(|pieces|, 4) + (ZlibTable(pieces, enc, 4 + 8 * |pieces|) + ZlibBody(pieces, enc))))
  }

  /** Table entry i holds a block that inflates to the piece. */
  ghost predicate Holds(fork: seq<Byte>, inflate: Inflate, table: nat, i: nat, piece: seq<Byte>) {
    var block := StoredBlock(fork, table, i);
    block.Ok? && inflate(block.value) == Ok(piece)
  }

  ghost predicate HoldsAll(fork: seq<Byte>, inflate: Inflate, table: nat, i: nat, pieces: seq<seq<Byte>>)
    decreases |pieces|
  {
    pieces == [] || (Holds(fork, inflate, table, i, pieces[0]) && HoldsAll(fork, inflate, table, i + 1, pieces[1..]))
  }

  lemma {:induction false} HeldDecodes(fork: seq<Byte>, inflate: Inflate, table: nat, i: nat, pieces: seq<seq<Byte>>, out: seq<Byte>)
    requires HoldsAll(fork, inflate, table, i, pieces)
    ensures ZlibFrom(fork, inflate, table, i + |pieces|, i, out) == Ok(out + Concat(pieces))
    decreases |pieces|
  {
    if pieces == [] {
      assert out + [] == out;
    } else {
      HeldDecodes(fork, inflate, table, i + 1, pieces[1..], out + pieces[0]);
      Regroup(out, pieces[0], Concat(pieces[1..]));
    }
  }

  /** Every piece inflates back from its encoding. */
  ghost predicate Inflates(inflate: Inflate, enc: Encoder) {
    forall p: seq<Byte> :: InflatesAt(inflate, enc, p)
  }

  ghost predicate InflatesAt(inflate: Inflate, enc: Encoder, p: seq<Byte>) {
    inflate(enc(p)) == Ok(p)
  }

  lemma {:induction false} EntryHolds(fork: seq<Byte>, inflate: Inflate, enc: Encoder, table: nat, i: nat, at: nat,
                                      p: seq<Byte>, entries: seq<Byte>, blocks: seq<Byte>)
    requires InflatesAt(inflate, enc, p) && |fork| < 0x1_0000_0000
    requires At(fork, table + 4 + i * 8, LeBytes(at, 4) + (LeBytes(|enc(p)|, 4) + entries))
    requires At(fork, table + at, enc(p) + blocks)
    ensures Holds(fork, inflate, table, i, p)
    ensures At(fork, table + 4 + (i + 1) * 8, entries) && At(fork, table + at + |enc(p)|, blocks)
  {
    Pow256Values();
    AtSplit(fork, table + at, enc(p), blocks);
    FieldThen(fork, table + 4 + i * 8, at, 4, LeBytes(|enc(p)|, 4) + entries);
    FieldThen(fork, table + 4 + i * 8 + 4, |enc(p)|, 4, entries);
  }

  lemma {:induction false} TableStep(fork: seq<Byte>, inflate: Inflate, enc: Encoder, table: nat, i: nat, at: nat, next: nat, pieces: seq<seq<Byte>>)
    requires pieces != [] && InflatesAt(inflate, enc, pieces[0]) && next == at + |enc(pieces[0])| && |fork| < 0x1_0000_0000
    requires At(fork, table + 4 + i * 8, ZlibTable(pieces, enc, at)) && At(fork, table + at, ZlibBody(pieces, enc))
    ensures Holds(fork, inflate, table, i, pieces[0])
    ensures At(fork, table + 4 + (i + 1) * 8, ZlibTable(pieces[1..], enc, next)) && At(fork, table + next, ZlibBody(pieces[1..], enc))
  {
    var p, rest := pieces[0], pieces[1..];
    EntryHolds(fork, inflate, enc, table, i, at, p, ZlibTable(rest, enc, next), ZlibBody(rest, enc));
  }

  lemma {:induction false} TableHolds(fork: seq<Byte>, inflate: Inflate, enc: Encoder, table: nat, i: nat, at: nat, pieces: seq<seq<Byte>>)
    requires Inflates(inflate, enc) && |fork| < 0x1_0000_0000
    requires At(fork, table + 4 + i * 8, ZlibTable(pieces, enc, at)) && At(fork, table + at, ZlibBody(pieces, enc))
    ensures HoldsAll(fork, inflate, table, i, pieces)
    decreases |pieces|
  {
    if pieces != [] {
      var p, rest := pieces[0], pieces[1..];
      assert InflatesAt(inflate, enc, p);
      var next := at + |enc(p)|;
      TableStep(fork, inflate, enc, table, i, at, next, pieces);
      TableHolds(fork, inflate, enc, table, i + 1, next, rest);
    }
  }

  /**
   Any list of pieces, any codec that inflates what it encoded, any resource
   header that states its own size: the fork decodes to the pieces in order.
   */
  lemma {:induction false} ZlibRoundTrip(head: seq<Byte>, prefix: seq<Byte>, pieces: seq<seq<Byte>>, inflate: Inflate, enc: Encoder)
    requires Inflates(inflate, enc) && 4 <= |head| < 0x1_0000_0000 && head[..4] == BeBytes(|head|, 4) && |prefix| == 4
    requires |ZlibFork(head, prefix, pieces, enc)| < 0x1_0000_0000
    ensures DecodeZlib(ZlibFork(head, prefix, pieces, enc), inflate) == Ok(Concat(pieces))
  {
    var fork, n := ZlibFork(head, prefix, pieces, enc), |pieces|;
    ZlibParts(fork, head, prefix, n, ZlibTable(pieces, enc, 4 + 8 * n), ZlibBody(pieces, enc));
    var none: seq<Byte> := [];
    TableHolds(fork, inflate, enc, |head| + 4, 0, 4 + 8 * n, pieces);
    HeldDecodes(fork, inflate, |head| + 4, 0, pieces, none);
    assert none + Concat(pieces) == Concat(pieces);
  }

  /** The header, the count, the table and the blocks sit where they are looked for. */
  lemma {:induction false} ZlibParts(fork: seq<Byte>, head: seq<Byte>, prefix: seq<Byte>, n: nat, table: seq<Byte>, body: seq<Byte>)
    requires 4 <= |head| < 0x1_0000_0000 && head[..4] == BeBytes(|head|, 4) && |prefix| == 4 && n < 0x1_0000_0000 && |table| == 8 * n
    requires fork == head + (prefix + (LeBytes(n, 4) + (table + body)))
    ensures CheckedBeU32(fork, 0) == Ok(|head|) && CheckedU32(fork, |head| + 4) == Ok(n)
    ensures At(fork, |head| + 8, table) && At(fork, |head| + 8 + 8 * n, body)
  {
    Pow256Values();
    BeRoundTrip(|head|, 4);
    assert fork[0..4] == head[..4];
    assert At(fork, 0, head + (prefix + (LeBytes(n, 4) + (table + body))));
    AtSplit(fork, 0, head, prefix + (LeBytes(n, 4) + (table + body)));
    AtSplit(fork, |head|, prefix, LeBytes(n, 4) + (table + body));
    FieldThen(fork, |head| + 4, n, 4, table + body);
    AtSplit(fork, |head| + 8, table, body);
  }

  // ---------- dispatch ----------

  /** The bytes after a one-byte marker. */
  function AfterMarker(payload: seq<Byte>): seq<Byte> {
    if payload == [] then [] else payload[1..]
  }

  /** `decode_inline`. */
  function DecodeInline(codecs: Codecs, algorithm: Algorithm, payload: seq<Byte>, size: nat, kind: nat): Result<seq<Byte>> {
    match algorithm
    case Uncompressed => Ok(if kind == 9 then AfterMarker(payload) else payload)
    case Zlib => if payload != [] && payload[0] == 0xff then Ok(payload[1..]) else codecs.inflate(payload)
    case Lzvn => if payload != [] && payload[0] == 0x06 then Ok(payload[1..]) else codecs.lzvn(payload, size)
    case Lzfse => codecs.lzfse(payload)
    case LzBitmap => Err(Decmpfs(UnroutedAlgorithm))
  }

  /** The chunk codec of an algorithm stored in chunks. */
  function ChunkCodec(codecs: Codecs, algorithm: Algorithm): Codec {
    (chunk: seq<Byte>, wanted: nat) =>
      match algorithm
      case Lzvn => codecs.lzvn(chunk, wanted)
      case Lzfse => codecs.lzfse(chunk)
      case Uncompressed => Ok(chunk)
      case _ => Err(Decmpfs(UnroutedAlgorithm))
  }

  /** `decode_resource_fork`. */
  function DecodeFork(codecs: Codecs, algorithm: Algorithm, fork: seq<Byte>, size: nat): Result<seq<Byte>> {
    match algorithm
    case Zlib => DecodeZlib(fork, codecs.inflate)
    case LzBitmap => Err(Decmpfs(UnroutedAlgorithm))
    case _ => DecodeChunked(fork, ChunkCodec(codecs, algorithm), size)
  }

  function Payload(codecs: Codecs, k: Kind, header: seq<Byte>, fork: Option<seq<Byte>>): Result<seq<Byte>>
    requires |header| >= HEADER_LEN
  {
    var size := LeU64(header, 8);
    match k.storage
    case Inline => DecodeInline(codecs, k.algorithm, header[HEADER_LEN..], size, LeU32(header, 4))
    case ResourceFork =>
      match fork
      case None => Err(Decmpfs(NoFork))
      case Some(f) => DecodeFork(codecs, k.algorithm, f, size)
  }

  /** `decompress_decmpfs`. */
  function Decompress(codecs: Codecs, classify: Classify, header: seq<Byte>, fork: Option<seq<Byte>>): Result<seq<Byte>> {
    if |header| < HEADER_LEN then Err(Decmpfs(HeaderTooShort))
    else if LeU32(header, 0) != MAGIC then Err(Decmpfs(BadMagic))
    else match classify(LeU32(header, 4))
      case None => Err(Decmpfs(if LeU32(header, 4) == 5 then DedupStore else UnknownType))
      case Some(k) =>
        if k.algorithm == LzBitmap then Err(Decmpfs(NoPublicFormat)) else
        var out :- Payload(codecs, k, header, fork);
        if |out| == LeU64(header, 8) then Ok(out) else Err(Decmpfs(LengthMismatch))
  }

  /** A header and what follows it in the attribute. */
  function Header(kind: nat, size: nat, payload: seq<Byte>): seq<Byte> {
    LeBytes(0x636d_7066, 4) + (LeBytes(kind, 4) + (LeBytes(size, 8) + payload))
  }

  lemma {:induction false} HeaderReads(kind: nat, size: nat, payload: seq<Byte>)
    requires kind < 0x1_0000_0000 && size < U64
    ensures var h := Header(kind, size, payload);
            && |h| == HEADER_LEN + |payload| && LeU32(h, 0) == MAGIC && LeU32(h, 4) == kind && LeU64(h, 8) == size
            && h[HEADER_LEN..] == payload
  {
    var h := Header(kind, size, payload);
    Pow256Values();
    assert At(h, 0, LeBytes(MAGIC, 4) + (LeBytes(kind, 4) + (LeBytes(size, 8) + payload)));
    FieldThen(h, 0, MAGIC, 4, LeBytes(kind, 4) + (LeBytes(size, 8) + payload));
    FieldThen(h, 4, kind, 4, LeBytes(size, 8) + payload);
    FieldThen(h, 8, size, 8, payload);
  }

  /** The decoder gives back the payload's content exactly when its length is the declared one. */
  lemma {:induction false} HeaderDecides(codecs: Codecs, classify: Classify, kind: nat, size: nat, payload: seq<Byte>,
                                         fork: Option<seq<Byte>>, k: Kind, out: seq<Byte>)
    requires kind < 0x1_0000_0000 && size < U64 && classify(kind) == Some(k) && k.algorithm != LzBitmap
    requires |Header(kind, size, payload)| >= HEADER_LEN && Payload(codecs, k, Header(kind, size, payload), fork) == Ok(out)
    ensures Decompress(codecs, classify, Header(kind, size, payload), fork) ==
            if |out| == size then Ok(out) else Err(Decmpfs(LengthMismatch))
  {
    HeaderReads(kind, size, payload);
  }

  /** The encoder's own codec gives back what it made of a chunk; the encoder of uncompressed chunks changes nothing. */
  ghost predicate EncodesChunk(codecs: Codecs, algorithm: Algorithm, enc: Encoder, chunk: seq<Byte>) {
    0 < |chunk| <= 65536 ==>
      match algorithm
      case Lzvn => codecs.lzvn(enc(chunk), |chunk|) == Ok(chunk)
      case Lzfse => codecs.lzfse(enc(chunk)) == Ok(chunk)
      case _ => enc(chunk) == chunk
  }

  ghost predicate EncodesChunks(codecs: Codecs, algorithm: Algorithm, enc: Encoder) {
    forall chunk: seq<Byte> :: EncodesChunk(codecs, algorithm, enc, chunk)
  }

  /** A file in chunks, behind its header: LZVN, LZFSE or uncompressed. */
  lemma {:induction false} ChunkedFileRoundTrip(codecs: Codecs, classify: Classify, kind: nat, payload: seq<Byte>, algorithm: Algorithm,
                                                data: seq<Byte>, enc: Encoder, pad: nat)
    requires kind < 0x1_0000_0000 && |data| < U64 && classify(kind) == Some(Kind(algorithm, ResourceFork))
    requires algorithm in {Lzvn, Lzfse, Uncompressed}
    requires EncodesChunks(codecs, algorithm, enc) && |Fork(data, enc, pad)| < 0x1_0000_0000
    ensures Decompress(codecs, classify, Header(kind, |data|, payload), Some(Fork(data, enc, pad))) == Ok(data)
  {
    forall chunk: seq<Byte> ensures InvertsAt(ChunkCodec(codecs, algorithm), enc, chunk) {
      assert EncodesChunk(codecs, algorithm, enc, chunk);
    }
    HeaderReads(kind, |data|, payload);
    ForkRoundTrip(data, ChunkCodec(codecs, algorithm), enc, pad);
    HeaderDecides(codecs, classify, kind, |data|, payload, Some(Fork(data, enc, pad)), Kind(algorithm, ResourceFork), data);
  }

  /** A zlib file, behind its header. */
  lemma {:induction false} ZlibFileRoundTrip(codecs: Codecs, classify: Classify, kind: nat, payload: seq<Byte>,
                                             head: seq<Byte>, prefix: seq<Byte>, pieces: seq<seq<Byte>>, enc: Encoder)
    requires kind < 0x1_0000_0000 && |Concat(pieces)| < U64 && classify(kind) == Some(Kind(Zlib, ResourceFork))
    requires Inflates(codecs.inflate, enc) && 4 <= |head| < 0x1_0000_0000 && head[..4] == BeBytes(|head|, 4) && |prefix| == 4
    requires |ZlibFork(head, prefix, pieces, enc)| < 0x1_0000_0000
    ensures Decompress(codecs, classify, Header(kind, |Concat(pieces)|, payload), Some(ZlibFork(head, prefix, pieces, enc))) ==
            Ok(Concat(pieces))
  {
    var data, fork := Concat(pieces), ZlibFork(head, prefix, pieces, enc);
    HeaderReads(kind, |data|, payload);
    ZlibRoundTrip(head, prefix, pieces, codecs.inflate, enc);
    HeaderDecides(codecs, classify, kind, |data|, payload, Some(fork), Kind(Zlib, ResourceFork), data);
  }

  /** A codec's decoder, given the size of the file. */
  function Decoder(codecs: Codecs, algorithm: Algorithm): Codec {
    (payload: seq<Byte>, size: nat) =>
      match algorithm
      case Zlib => codecs.inflate(payload)
      case Lzvn => codecs.lzvn(payload, size)
      case Lzfse => codecs.lzfse(payload)
      case _ => Err(Decmpfs(UnroutedAlgorithm))
  }

  /** The payload starts with the byte that announces bytes stored as they are. */
  predicate Marked(algorithm: Algorithm, payload: seq<Byte>) {
    && payload != []
    && ((algorithm == Zlib && payload[0] == 0xff) || (algorithm == Lzvn && payload[0] == 0x06))
  }

  /**
   A file encoded into the attribute by an encoder the codec inverts decodes to
   its bytes, unless the encoding happens to start with the marker byte: then
   the rest of the encoding is taken for the file, and comes back as such if
   its length is the file's.
   */
  lemma {:induction false} InlineFileRoundTrip(codecs: Codecs, classify: Classify, kind: nat, algorithm: Algorithm,
                                               data: seq<Byte>, enc: Encoder, fork: Option<seq<Byte>>)
    requires kind < 0x1_0000_0000 && |data| < U64 && classify(kind) == Some(Kind(algorithm, Inline))
    requires algorithm in {Zlib, Lzvn, Lzfse} && Decoder(codecs, algorithm)(enc(data), |data|) == Ok(data)
    ensures Decompress(codecs, classify, Header(kind, |data|, enc(data)), fork) ==
            if !Marked(algorithm, enc(data)) then Ok(data)
            else if |enc(data)| == |data| + 1 then Ok(enc(data)[1..])
            else Err(Decmpfs(LengthMismatch))
  {
    var payload := enc(data);
    HeaderReads(kind, |data|, payload);
    var out := if Marked(algorithm, payload) then payload[1..] else data;
    HeaderDecides(codecs, classify, kind, |data|, payload, fork, Kind(algorithm, Inline), out);
  }

  /** A file's bytes as they are, behind a marker byte where the type has one; that of type 9 is not looked at. */
  function Verbatim(kind: nat, algorithm: Algorithm, mark: Byte, data: seq<Byte>): seq<Byte> {
    match algorithm
    case Zlib => [0xff] + data
    case Lzvn => [0x06] + data
    case _ => if kind == 9 then [mark] + data else data
  }

  lemma {:induction false} VerbatimFileRoundTrip(codecs: Codecs, classify: Classify, kind: nat, algorithm: Algorithm,
                                                 mark: Byte, data: seq<Byte>, fork: Option<seq<Byte>>)
    requires kind < 0x1_0000_0000 && |data| < U64 && classify(kind) == Some(Kind(algorithm, Inline))
    requires algorithm in {Uncompressed, Zlib, Lzvn}
    ensures Decompress(codecs, classify, Header(kind, |data|, Verbatim(kind, algorithm, mark, data)), fork) == Ok(data)
  {
    var payload := Verbatim(kind, algorithm, mark, data);
    HeaderReads(kind, |data|, payload);
    assert ([0xff] + data)[1..] == data && ([0x06] + data)[1..] == data && ([mark] + data)[1..] == data;
    HeaderDecides(codecs, classify, kind, |data|, payload, fork, Kind(algorithm, Inline), data);
  }
}
