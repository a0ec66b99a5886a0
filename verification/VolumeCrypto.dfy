/** The sector arithmetic around AES-XTS (core/src/encryption.rs). The cipher itself is a parameter. */
module VolumeCrypto {
  import opened Bytes
  import opened Arith

  /** Decrypt one unit of data (a sector, or a block) given its index. */
  type Cipher = (seq<Byte>, nat) -> seq<Byte>

  /** XTS turns a sector into a sector of the same length. */
  ghost predicate LengthPreserving(c: Cipher) {
    forall s, i :: |c(s, i)| == |s|
  }

  const SECTOR: nat := 512

  /** Cut data into chunks (the last may be short) and decrypt chunk k under index i + k. */
  function InChunks(data: seq<Byte>, c: Cipher, size: nat, i: nat): seq<Byte>
    requires size > 0
    decreases |data|
  {
    if data == [] then []
    else if |data| <= size then c(data, i)
    else c(data[..size], i) + InChunks(data[size..], c, size, i + 1)
  }

  /** `decrypt_area`: consecutive sectors under consecutive sector indices. */
  function DecryptArea(data: seq<Byte>, c: Cipher, first: nat): seq<Byte> {
    InChunks(data, c, SECTOR, first)
  }

  /** `decrypt_volume_area`: the stored tweak counts blocks; zero means not encrypted. */
  function DecryptVolumeArea(data: seq<Byte>, c: Cipher, tweakBlock: nat, bs: nat): seq<Byte> {
    if tweakBlock == 0 || bs < SECTOR then data
    else DecryptArea(data, c, Saturated(tweakBlock * (bs / SECTOR)))
  }

  /** Block i of an extent is decrypted with tweak cryptoId + i. */
  function ExtentCipher(c: Cipher, cryptoId: nat, bs: nat): Cipher {
    (block: seq<Byte>, i: nat) => DecryptVolumeArea(block, c, Saturated(cryptoId + i), bs)
  }

  lemma {:induction false} ChunksLength(data: seq<Byte>, c: Cipher, size: nat, i: nat)
    requires LengthPreserving(c) && size > 0
    ensures |InChunks(data, c, size, i)| == |data|
    decreases |data|
  {
    if |data| > size {
      ChunksLength(data[size..], c, size, i + 1);
    }
  }

  lemma {:induction false} ExtentCipherLength(c: Cipher, cryptoId: nat, bs: nat)
    requires LengthPreserving(c)
    ensures LengthPreserving(ExtentCipher(c, cryptoId, bs))
  {
    forall s, i ensures |ExtentCipher(c, cryptoId, bs)(s, i)| == |s| {
      var tweak := Saturated(cryptoId + i);
      NonNegative(tweak, bs / SECTOR);
      assert ExtentCipher(c, cryptoId, bs)(s, i) == DecryptVolumeArea(s, c, tweak, bs);
      ChunksLength(s, c, SECTOR, Saturated(tweak * (bs / SECTOR)));
    }
  }

  lemma {:induction false} FirstChunk(h: seq<Byte>, t: seq<Byte>, c: Cipher, size: nat, i: nat)
    requires |h| == size > 0
    ensures InChunks(h + t, c, size, i) == c(h, i) + InChunks(t, c, size, i + 1)
  {
    if t == [] {
      assert h + t == h;
    } else {
      assert (h + t)[..size] == h && (h + t)[size..] == t;
    }
  }

  lemma {:induction false} OneLess(n: nat, d: nat)
    requires n > 0
    ensures (n - 1) * d == n * d - d && n * d >= d
  {
    assert n * d == (n - 1) * d + d;
  }

  /** Data splits at any whole number of chunks, the second part continuing the count: chunks decrypt independently. */
  lemma {:induction false} ChunksSplit(a: seq<Byte>, b: seq<Byte>, c: Cipher, size: nat, i: nat, n: nat)
    requires size > 0 && |a| == n * size
    ensures InChunks(a + b, c, size, i) == InChunks(a, c, size, i) + InChunks(b, c, size, i + n)
    decreases n
  {
    if n == 0 {
      assert a == [] && a + b == b;
    } else {
      OneLess(n, size);
      var h, t := a[..size], a[size..];
      ChunksSplit(t, b, c, size, i + 1, n - 1);
      FirstChunk(h, t + b, c, size, i);
      FirstChunk(h, t, c, size, i);
      assert a + b == h + (t + b) && a == h + t;
      Regroup(c(h, i), InChunks(t, c, size, i + 1), InChunks(b, c, size, i + n));
    }
  }

  lemma {:induction false} TweakFits(k: nat, spb: nat)
    requires spb > 0 && k * spb < U64
    ensures k < U64
  {
    assert k <= k * spb;
  }

  /** One block, when its tweak does not saturate. */
  lemma {:induction false} BlockIsArea(block: seq<Byte>, c: Cipher, cryptoId: nat, spb: nat, bs: nat, i: nat)
    requires cryptoId > 0 && spb > 0 && bs == spb * SECTOR && (cryptoId + i) * spb < U64
    ensures ExtentCipher(c, cryptoId, bs)(block, i) == DecryptArea(block, c, (cryptoId + i) * spb)
  {
    var k := cryptoId + i;
    TweakFits(k, spb);
    VolumeArea(block, c, k, spb, bs);
    assert Saturated(cryptoId + i) == k;
  }

  lemma {:induction false} VolumeArea(block: seq<Byte>, c: Cipher, tweak: nat, spb: nat, bs: nat)
    requires tweak > 0 && spb > 0 && bs == spb * SECTOR && tweak * spb < U64
    ensures DecryptVolumeArea(block, c, tweak, bs) == DecryptArea(block, c, tweak * spb)
  {
    assert bs / SECTOR == spb;
    assert Saturated(tweak * (bs / SECTOR)) == tweak * spb;
  }

  lemma {:induction false} NextBlock(k: nat, n: nat, spb: nat)
    requires (k + n) * spb < U64
    ensures k * spb < U64 && k * spb + spb == (k + 1) * spb
  {
    assert (k + n) * spb == k * spb + n * spb;
  }

  /** Blocks i..i+n-1 are each decrypted as m sectors, block k from sector start(k) on. */
  ghost predicate BlockwiseSectors(f: Cipher, c: Cipher, start: nat -> nat, m: nat, i: nat, n: nat) {
    forall k :: i <= k < i + n ==> start(k + 1) == start(k) + m && forall b :: f(b, k) == InChunks(b, c, SECTOR, start(k))
  }

  /** Then decrypting block after block is decrypting sector after sector. */
  lemma {:induction false} BlockwiseIsSectorwise(data: seq<Byte>, f: Cipher, c: Cipher, start: nat -> nat, m: nat, bs: nat, i: nat, n: nat)
    requires bs == m * SECTOR > 0 && |data| <= n * bs && BlockwiseSectors(f, c, start, m, i, n)
    ensures InChunks(data, f, bs, i) == InChunks(data, c, SECTOR, start(i))
    decreases n
  {
    if data != [] {
      OneLess(n, bs);
      assert forall b :: f(b, i) == InChunks(b, c, SECTOR, start(i));
      if |data| > bs {
        var h, t := data[..bs], data[bs..];
        BlockwiseIsSectorwise(t, f, c, start, m, bs, i + 1, n - 1);
        ChunksSplit(h, t, c, SECTOR, start(i), m);
        assert data == h + t;
        FirstChunk(h, t, f, bs, i);
      }
    }
  }

  /**
   Decrypting an extent of at most n blocks one by one with tweak cryptoId + i
   is decrypting it once from sector cryptoId * sectors-per-block, as long as
   no tweak saturates.
   */
  lemma {:induction false} BlocksAreOneArea(data: seq<Byte>, c: Cipher, cryptoId: nat, spb: nat, bs: nat, n: nat)
    requires cryptoId > 0 && spb > 0 && bs == spb * SECTOR && |data| <= n * bs
    requires n > 0 ==> (cryptoId + (n - 1)) * spb < U64
    ensures InChunks(data, ExtentCipher(c, cryptoId, bs), bs, 0) == DecryptArea(data, c, cryptoId * spb)
  {
    var f, start := ExtentCipher(c, cryptoId, bs), (k: nat) => StartSector(cryptoId, spb, k);
    forall k | 0 <= k < n
      ensures start(k + 1) == start(k) + spb && forall b :: f(b, k) == InChunks(b, c, SECTOR, start(k))
    {
      ExtentBlock(c, cryptoId, spb, bs, k, n);
    }
    BlockwiseIsSectorwise(data, f, c, start, spb, bs, 0, n);
    assert start(0) == cryptoId * spb;
  }

  function StartSector(cryptoId: nat, spb: nat, k: nat): nat {
    (cryptoId + k) * spb
  }

  lemma {:induction false} ExtentBlock(c: Cipher, cryptoId: nat, spb: nat, bs: nat, k: nat, n: nat)
    requires cryptoId > 0 && spb > 0 && bs == spb * SECTOR && k < n
    requires (cryptoId + (n - 1)) * spb < U64
    ensures StartSector(cryptoId, spb, k + 1) == StartSector(cryptoId, spb, k) + spb
    ensures forall b :: ExtentCipher(c, cryptoId, bs)(b, k) == InChunks(b, c, SECTOR, StartSector(cryptoId, spb, k))
  {
    NextBlock(cryptoId + k, n - 1 - k, spb);
    forall b ensures ExtentCipher(c, cryptoId, bs)(b, k) == InChunks(b, c, SECTOR, StartSector(cryptoId, spb, k)) {
      BlockIsArea(b, c, cryptoId, spb, bs, k);
    }
  }

  // ---------- enciphering, sector by sector ----------

  /** The decryption undoes the encryption of every sector under the same index. */
  ghost predicate Undoes(c: Cipher, enc: Cipher) {
    forall s, i :: c(enc(s, i), i) == s
  }

  /** The sector that holds byte j. */
  function SectorEnd(n: nat, lo: nat): nat {
    if lo + 512 < n then lo + 512 else n
  }

  function EncipheredByte(plain: seq<Byte>, enc: Cipher, first: nat, j: nat): Byte
    requires LengthPreserving(enc) && j < |plain|
  {
    var k := j / 512;
    enc(plain[512 * k..SectorEnd(|plain|, 512 * k)], first + k)[j - 512 * k]
  }

  /** Sector k of the plaintext is enciphered under index first + k. */
  function Encipher(plain: seq<Byte>, enc: Cipher, first: nat): (data: seq<Byte>)
    requires LengthPreserving(enc)
    ensures |data| == |plain|
  {
    seq(|plain|, j requires 0 <= j < |plain| => EncipheredByte(plain, enc, first, j))
  }

  lemma {:induction false} EncipheredSector(plain: seq<Byte>, enc: Cipher, first: nat, k: nat, lo: nat, hi: nat)
    requires LengthPreserving(enc) && lo == 512 * k < |plain| && hi == SectorEnd(|plain|, lo)
    ensures Encipher(plain, enc, first)[lo..hi] == enc(plain[lo..hi], first + k)
  {
    var data, sector := Encipher(plain, enc, first), enc(plain[lo..hi], first + k);
    forall j | 0 <= j < hi - lo ensures data[lo..hi][j] == sector[j] {
      assert (lo + j) / 512 == k;
      assert data[lo + j] == EncipheredByte(plain, enc, first, lo + j);
    }
  }

  lemma {:induction false} DecipherFrom(plain: seq<Byte>, enc: Cipher, c: Cipher, first: nat, k: nat, lo: nat)
    requires LengthPreserving(enc) && Undoes(c, enc) && lo == 512 * k <= |plain|
    ensures InChunks(Encipher(plain, enc, first)[lo..], c, SECTOR, first + k) == plain[lo..]
    decreases |plain| - lo
  {
    var data := Encipher(plain, enc, first);
    if lo < |plain| {
      var hi := SectorEnd(|plain|, lo);
      EncipheredSector(plain, enc, first, k, lo, hi);
      assert c(data[lo..hi], first + k) == plain[lo..hi];
      if hi < |plain| {
        DecipherFrom(plain, enc, c, first, k + 1, hi);
        FirstChunk(data[lo..hi], data[hi..], c, SECTOR, first + k);
        assert data[lo..] == data[lo..hi] + data[hi..] && plain[lo..] == plain[lo..hi] + plain[hi..];
      } else {
        assert data[lo..] == data[lo..hi] && plain[lo..] == plain[lo..hi];
      }
    }
  }

  /** Decrypting an area gives back what was enciphered sector by sector from the same index. */
  lemma {:induction false} Deciphers(plain: seq<Byte>, enc: Cipher, c: Cipher, first: nat)
    requires LengthPreserving(enc) && Undoes(c, enc)
    ensures DecryptArea(Encipher(plain, enc, first), c, first) == plain
  {
    DecipherFrom(plain, enc, c, first, 0, 0);
    assert plain[0..] == plain && Encipher(plain, enc, first)[0..] == Encipher(plain, enc, first);
  }

  /** A block enciphered from sector `tweak * (bs / 512)` on decrypts under that tweak. */
  lemma {:induction false} BlockDeciphers(plain: seq<Byte>, enc: Cipher, c: Cipher, tweak: nat, bs: nat)
    requires LengthPreserving(enc) && Undoes(c, enc) && tweak > 0 && bs >= 512 && tweak * (bs / 512) < U64
    ensures DecryptVolumeArea(Encipher(plain, enc, tweak * (bs / 512)), c, tweak, bs) == plain
  {
    Deciphers(plain, enc, c, tweak * (bs / 512));
  }
}
