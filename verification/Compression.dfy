/** Transparent decompression of chunked resource forks (core/src/compression.rs). Codecs are parameters. */
module Compression {
  import opened Results
  import opened Bytes

  /** A chunk decoder, told how many bytes are still wanted. */
  type Codec = (seq<Byte>, nat) -> Result<seq<Byte>>

  const CHUNK: nat := 65536

  /** A little-endian u32 whose absence is an error. */
  function CheckedU32(data: seq<Byte>, off: nat): Result<nat> {
    if off + 4 <= |data| then Ok(LeU32(data, off)) else Err(Decmpfs(ReadOutOfBounds))
  }

  function Wanted(size: nat, have: nat): nat
    requires have < size
  {
    if size - have < CHUNK then size - have else CHUNK
  }

  /** The chunks from slot i on, the next one starting at src. */
  function DecodeFrom(fork: seq<Byte>, dec: Codec, size: nat, slots: nat, i: nat, src: nat, out: seq<Byte>): Result<seq<Byte>>
    decreases slots - i
  {
    if i >= slots || |out| >= size then Ok(out) else
    var end :- CheckedU32(fork, 4 + i * 4);
    if end < src then Err(Decmpfs(EndGoesBackward))
    else if end > |fork| then Err(Decmpfs(ChunkOutOfBounds))
    else
      var decoded :- dec(fork[src..end], Wanted(size, |out|));
      DecodeFrom(fork, dec, size, slots, i + 1, end, out + decoded)
  }

  /** `decode_chunked_resource_fork`. */
  function DecodeChunked(fork: seq<Byte>, dec: Codec, size: nat): Result<seq<Byte>> {
    var header :- CheckedU32(fork, 0);
    if header / 4 == 0 then Err(Decmpfs(HeaderTooSmall))
    else DecodeFrom(fork, dec, size, header / 4 - 1, 0, header, [])
  }

  /** The fork branch of `decompress_decmpfs`: a decoded length other than the declared one is refused. */
  function Decompressed(fork: seq<Byte>, dec: Codec, size: nat): Result<seq<Byte>> {
    var out :- DecodeChunked(fork, dec, size);
    if |out| == size then Ok(out) else Err(Decmpfs(LengthMismatch))
  }

  method DecodeChunkedFork(fork: seq<Byte>, dec: Codec, size: nat) returns (r: Result<seq<Byte>>)
    ensures r == DecodeChunked(fork, dec, size)
  {
    var header := CheckedU32(fork, 0);
    if header.Err? {
      return Err(header.error);
    }
    if header.value / 4 == 0 {
      return Err(Decmpfs(HeaderTooSmall));
    }
    var slots := header.value / 4 - 1;
    var out: seq<Byte> := [];
    var src: nat := header.value;
    for i := 0 to slots
      invariant DecodeChunked(fork, dec, size) == DecodeFrom(fork, dec, size, slots, i, src, out)
    {
      if |out| >= size {
        break;
      }
      var end := CheckedU32(fork, 4 + i * 4);
      if end.Err? {
        return Err(end.error);
      }
      if end.value < src {
        return Err(Decmpfs(EndGoesBackward));
      }
      if end.value > |fork| {
        return Err(Decmpfs(ChunkOutOfBounds));
      }
      var decoded := dec(fork[src..end.value], Wanted(size, |out|));
      if decoded.Err? {
        return Err(decoded.error);
      }
      out := out + decoded.value;
      src := end.value;
    }
    return Ok(out);
  }

  // ---------- the layout it inverts ----------

  function Head(data: seq<Byte>): seq<Byte> {
    if |data| <= 65536 then data else data[..65536]
  }

  function Tail(data: seq<Byte>): seq<Byte> {
    if |data| <= 65536 then [] else data[65536..]
  }

  function ChunkCount(data: seq<Byte>): nat
    decreases |data|
  {
    if data == [] then 0 else 1 + ChunkCount(Tail(data))
  }

  /** The encoded chunks, one after the other. */
  function Body(data: seq<Byte>, enc: seq<Byte> -> seq<Byte>): seq<Byte>
    decreases |data|
  {
    if data == [] then [] else enc(Head(data)) + Body(Tail(data), enc)
  }

  /** The end offset of every chunk, the first starting at `at`. */
  function Ends(data: seq<Byte>, enc: seq<Byte> -> seq<Byte>, at: nat): (b: seq<Byte>)
    ensures |b| == 4 * ChunkCount(data)
    decreases |data|
  {
    if data == [] then [] else
    var end := at + |enc(Head(data))|;
    LeBytes(end, 4) + Ends(Tail(data), enc, end)
  }

  function HeaderSize(data: seq<Byte>, pad: nat): nat {
    4 * (1 + ChunkCount(data) + pad)
  }

  /** A fork holding data in 65536-byte chunks, with `pad` unused zero slots in its table. */
  function Fork(data: seq<Byte>, enc: seq<Byte> -> seq<Byte>, pad: nat): seq<Byte> {
    LeBytes(HeaderSize(data, pad), 4) + Ends(data, enc, HeaderSize(data, pad)) + LeBytes(0, 4 * pad) + Body(data, enc)
  }

  /** Decoding what was encoded gives it back, for every chunk that occurs. */
  ghost predicate Inverts(dec: Codec, enc: seq<Byte> -> seq<Byte>) {
    forall chunk :: InvertsAt(dec, enc, chunk)
  }

  ghost predicate InvertsAt(dec: Codec, enc: seq<Byte> -> seq<Byte>, chunk: seq<Byte>) {
    0 < |chunk| <= 65536 ==> dec(enc(chunk), |chunk|) == Ok(chunk)
  }

  /** The table from slot i on and the body from src on hold the chunks of `rest`. */
  ghost predicate Pending(fork: seq<Byte>, enc: seq<Byte> -> seq<Byte>, i: nat, src: nat, rest: seq<Byte>) {
    At(fork, 4 + i * 4, Ends(rest, enc, src)) && At(fork, src, Body(rest, enc)) && |fork| < 0x1_0000_0000
  }

  lemma {:induction false} PendingStep(fork: seq<Byte>, enc: seq<Byte> -> seq<Byte>, i: nat, src: nat, rest: seq<Byte>, end: nat)
    requires rest != [] && Pending(fork, enc, i, src, rest) && end == src + |enc(Head(rest))|
    ensures CheckedU32(fork, 4 + i * 4) == Ok(end) && src <= end <= |fork| && fork[src..end] == enc(Head(rest))
    ensures Pending(fork, enc, i + 1, end, Tail(rest))
  {
    NextChunk(fork, src, enc(Head(rest)), Body(Tail(rest), enc));
    NextSlot(fork, i, end, Ends(Tail(rest), enc, end));
  }

  /** Slot i says that the chunk at src ends at `end`, and it decodes to `piece`. */
  ghost predicate StepTo(fork: seq<Byte>, dec: Codec, size: nat, i: nat, src: nat, have: nat, piece: seq<Byte>, end: nat) {
    && CheckedU32(fork, 4 + i * 4) == Ok(end) && src <= end <= |fork| && have < size
    && dec(fork[src..end], Wanted(size, have)) == Ok(piece)
  }

  /** From slot i on the fork steps through the chunks of `rest`, and then has `size` bytes. */
  ghost predicate Follows(fork: seq<Byte>, dec: Codec, size: nat, slots: nat, i: nat, src: nat, have: nat, rest: seq<Byte>)
    decreases |rest|
  {
    if rest == [] then have >= size else
    i < slots && exists end: nat ::
      && StepTo(fork, dec, size, i, src, have, Head(rest), end)
      && Follows(fork, dec, size, slots, i + 1, end, have + |Head(rest)|, Tail(rest))
  }

  lemma {:induction false} FollowsDecodes(fork: seq<Byte>, dec: Codec, size: nat, slots: nat,
                                          i: nat, src: nat, out: seq<Byte>, rest: seq<Byte>)
    requires Follows(fork, dec, size, slots, i, src, |out|, rest)
    ensures DecodeFrom(fork, dec, size, slots, i, src, out) == Ok(out + rest)
    decreases |rest|
  {
    if rest == [] {
      assert out + rest == out;
    } else {
      var end: nat :| StepTo(fork, dec, size, i, src, |out|, Head(rest), end) &&
        Follows(fork, dec, size, slots, i + 1, end, |out| + |Head(rest)|, Tail(rest));
      FollowsDecodes(fork, dec, size, slots, i + 1, end, out + Head(rest), Tail(rest));
      Rejoin(out, rest);
    }
  }

  lemma {:induction false} Rejoin(out: seq<Byte>, rest: seq<Byte>)
    ensures (out + Head(rest)) + Tail(rest) == out + rest
  {
    assert rest == Head(rest) + Tail(rest);
  }

  lemma {:induction false} PendingFollows(fork: seq<Byte>, dec: Codec, enc: seq<Byte> -> seq<Byte>, size: nat, slots: nat,
                                          i: nat, src: nat, have: nat, rest: seq<Byte>)
    requires Inverts(dec, enc) && size == have + |rest| && i + ChunkCount(rest) <= slots
    requires Pending(fork, enc, i, src, rest)
    ensures Follows(fork, dec, size, slots, i, src, have, rest)
    decreases |rest|
  {
    if rest != [] {
      var end := src + |enc(Head(rest))|;
      PendingStep(fork, enc, i, src, rest, end);
      assert InvertsAt(dec, enc, Head(rest));
      assert StepTo(fork, dec, size, i, src, have, Head(rest), end);
      PendingFollows(fork, dec, enc, size, slots, i + 1, end, have + |Head(rest)|, Tail(rest));
    }
  }

  lemma {:induction false} NextSlot(fork: seq<Byte>, i: nat, end: nat, more: seq<Byte>)
    requires At(fork, 4 + i * 4, LeBytes(end, 4) + more) && end < 0x1_0000_0000
    ensures CheckedU32(fork, 4 + i * 4) == Ok(end) && At(fork, 4 + (i + 1) * 4, more)
  {
    Pow256Values();
    FieldThen(fork, 4 + i * 4, end, 4, more);
  }

  lemma {:induction false} NextChunk(fork: seq<Byte>, src: nat, coded: seq<Byte>, more: seq<Byte>)
    requires At(fork, src, coded + more)
    ensures src + |coded| <= |fork| && fork[src..src + |coded|] == coded && At(fork, src + |coded|, more)
  {
    AtSplit(fork, src, coded, more);
  }

  /** The table and the body sit where the header says. */
  lemma {:induction false} ForkParts(data: seq<Byte>, enc: seq<Byte> -> seq<Byte>, pad: nat)
    requires |Fork(data, enc, pad)| < 0x1_0000_0000
    ensures var fork, h := Fork(data, enc, pad), HeaderSize(data, pad);
            CheckedU32(fork, 0) == Ok(h) && At(fork, 4, Ends(data, enc, h)) && At(fork, h, Body(data, enc))
  {
    var h := HeaderSize(data, pad);
    var a, t, z, b := LeBytes(h, 4), Ends(data, enc, h), LeBytes(0, 4 * pad), Body(data, enc);
    var fork := Fork(data, enc, pad);
    assert fork == a + t + z + b;
    Pow256Values();
    assert At(fork, 0, a) && At(fork, 4, t) && At(fork, h, b);
    ReadAt(fork, 0, h, 4);
  }

  /**
   For any data, any codec that decodes what it encoded and any number of
   padding slots, decoding the fork returns the data.
   */
  lemma {:induction false} ForkRoundTrip(data: seq<Byte>, dec: Codec, enc: seq<Byte> -> seq<Byte>, pad: nat)
    requires Inverts(dec, enc) && |Fork(data, enc, pad)| < 0x1_0000_0000
    ensures Decompressed(Fork(data, enc, pad), dec, |data|) == Ok(data)
  {
    var fork, h := Fork(data, enc, pad), HeaderSize(data, pad);
    ForkParts(data, enc, pad);
    var none: seq<Byte> := [];
    PendingFollows(fork, dec, enc, |data|, ChunkCount(data) + pad, 0, h, |none|, data);
    FollowsDecodes(fork, dec, |data|, ChunkCount(data) + pad, 0, h, none, data);
    assert none + data == data;
    assert h / 4 - 1 == ChunkCount(data) + pad;
  }

  // ---------- what any success means ----------

  /** Consecutive chunks of the fork between these cuts, decoded and concatenated. */
  function Pieces(fork: seq<Byte>, dec: Codec, size: nat, cuts: seq<nat>, out: seq<Byte>): Option<seq<Byte>>
    decreases |cuts|
  {
    if |cuts| < 2 then Some(out)
    else if !(cuts[0] <= cuts[1] <= |fork| && |out| < size) then None
    else
      match dec(fork[cuts[0]..cuts[1]], Wanted(size, |out|))
      case Err(_) => None
      case Ok(decoded) => Pieces(fork, dec, size, cuts[1..], out + decoded)
  }

  lemma {:induction false} CutsOf(fork: seq<Byte>, dec: Codec, size: nat, slots: nat, i: nat, src: nat, out: seq<Byte>)
    returns (cuts: seq<nat>)
    requires DecodeFrom(fork, dec, size, slots, i, src, out).Ok?
    ensures cuts != [] && cuts[0] == src
    ensures forall k :: 1 <= k < |cuts| ==> CheckedU32(fork, 4 + (i + k - 1) * 4) == Ok(cuts[k])
    ensures Pieces(fork, dec, size, cuts, out) == Some(DecodeFrom(fork, dec, size, slots, i, src, out).value)
    decreases slots - i
  {
    if i >= slots || |out| >= size {
      cuts := [src];
    } else {
      var end := CheckedU32(fork, 4 + i * 4).value;
      var decoded := dec(fork[src..end], Wanted(size, |out|)).value;
      var rest := CutsOf(fork, dec, size, slots, i + 1, end, out + decoded);
      cuts := [src] + rest;
      assert cuts[1..] == rest;
      forall k | 1 <= k < |cuts| ensures CheckedU32(fork, 4 + (i + k - 1) * 4) == Ok(cuts[k]) {
        assert cuts[k] == rest[k - 1];
        if k > 1 {
          assert i + 1 + (k - 1) - 1 == i + k - 1;
        }
      }
    }
  }

  /**
   Whenever decompression succeeds, the chunks consumed are contiguous from the
   end of the header, each ends where its slot says, their decodings make up
   the result, and the result has the declared size.
   */
  lemma {:induction false} SuccessIsContiguous(fork: seq<Byte>, dec: Codec, size: nat) returns (cuts: seq<nat>)
    requires Decompressed(fork, dec, size).Ok?
    ensures cuts != [] && CheckedU32(fork, 0) == Ok(cuts[0])
    ensures forall k :: 1 <= k < |cuts| ==> CheckedU32(fork, 4 * k) == Ok(cuts[k])
    ensures Pieces(fork, dec, size, cuts, []) == Some(Decompressed(fork, dec, size).value)
    ensures |Decompressed(fork, dec, size).value| == size
  {
    var h := CheckedU32(fork, 0).value;
    cuts := CutsOf(fork, dec, size, h / 4 - 1, 0, h, []);
    forall k | 1 <= k < |cuts| ensures CheckedU32(fork, 4 * k) == Ok(cuts[k]) {
      assert 4 + (0 + k - 1) * 4 == 4 * k;
    }
  }
}
