# A verified model of the APFS read path

This project models how `apfs-core` reads an APFS container, and proves what its
guarded or fast algorithms compute on every image and every run. An image is a
sequence of bytes; a block read is a slice of it, or an I/O error. On top of
that the modules follow the reader:

- `Results`, `Bytes`, `Arith`: errors, bounds-checked little-endian fields, and
  the small toolkit (`At`) the codec proofs use.
- `Object`, `Damage`: the Fletcher-64 checksum, and which damage it sees.
  `Image`: block reads behind it.
- `BTreeNode`: bytes to node entries. `BTree`: guarded walks and the one-path
  lookup over any graph of nodes.
- `Omap`, `Separators`, `FsTree`, `Snapshot`, `SnapTree`, `Dir`: versioned
  lookup and exactly when it is right, the pruned fs-tree walk, snapshots, and
  path resolution.
- `FileIsolation`: paths and file contents of a mounted snapshot while the live
  volume is rewritten.
- `Runs`, `Spaceman`, `Enumeration`: free-space runs against the per-block
  predicate, on well-formed and on any geometry.
- `VolumeCrypto`, `Extent`, `Compression`, `Decmpfs`: file assembly, tweak
  arithmetic, chunked and zlib resource forks, inline payloads. Ciphers and
  codecs are parameters with stated laws.
- `Ber`, `Keybag`: the two BER readers (lengths as in section 8.1.3 of ITU-T
  X.690) and the three keybag walkers.
- `Checkpoint`, `Reaper`, `XFields`, `Integrity`: the checkpoint ring, the reap
  list chain, extended fields, and duplicate object ids.
- `Printers`, `Disk`: writing objects, nodes and whole images, checksums stamped.
  `Bitmaps`, `FsItems`, `Encrypted`, `PrintedRing`, `PrintedReaper`: allocation
  bitmaps, file-system records, encrypted volumes, checkpoint rings and reap
  lists written field by field, and what the readers make of them.
- `Witnesses`, `FileWitnesses`: the images that show each finding.

A loop of the source is a method here, tied by its `ensures` to a function; what
the source promises is then proved about that function. A layout that the source
only reads is also written here as a printer, with the format's own offsets, bits
and numbers, so that what a reader returns can be stated over what was written
and not over the reader's own decoding.

## Findings

Some properties one would expect do not hold of the code; the model keeps the
code's behaviour and states the exact condition.

- `is_block_free` takes a missing bitmap byte for free, `free_block_runs` for
  allocated. `Witnesses.LongChunkDisagrees` gives, at every block size, an image
  on which they differ. On geometry where no chunk-info block lists more chunks
  than `sm_chunks_per_cib`, `Spaceman.EnumerationAgrees` proves that they agree
  on every block if and only if no block's bit lies past its bitmap, which 8
  blocks per bitmap byte rule out (`Spaceman.StandardBitmapsSuffice`).
- Neither function checks that a chunk-info block keeps to `sm_chunks_per_cib`.
  When one lists more, the enumerator takes the surplus for the chunks that
  follow. `Witnesses.OverListingDisagrees` gives an image on which the blocks of
  a whole chunk are listed as free and the predicate fails on each of them;
  `Witnesses.OverListingOverlaps` gives one on which the runs overlap and report
  3n free blocks on a device of 2n, so they are not the maximal ascending runs
  the documentation promises. `Enumeration.EnumerationHolds` says exactly what is
  listed on any geometry, and `Enumeration.AgreementExact` that the two agree on
  a block if and only if, when its bit lies past the bitmap, a surplus entry
  lists it, and when a surplus entry lists it, the predicate finds it free.
- The snapshot-metadata walk keeps the root's block number and its descendants'
  virtual oids in one visited set. `Witnesses.AliasedImageIsRefused` gives images
  of a tree without a cycle that is refused as one; `SnapTree.WalkedUnlessAliased`
  proves that this happens if and only if a descendant's oid equals the root's
  block number.
- `parse_wrapped_kek` keeps the last value of a tag and `ber_find` the first.
  `Ber.ReadersDisagree` gives blobs on which both succeed and differ;
  `Ber.ReadersAgree` proves that they agree if and only if first and last value
  coincide.
- The point lookup is not right on every sorted tree whose separators are lower
  bounds (`Witnesses.LowSeparatorImageLoses`). `Separators.LookupRightIffExact`
  proves when it is: every lookup returns the floor of the full scan if and only
  if, at every index node and every child after the first, the separators up to
  that child are at or below the child's first key, and one of them equals it or
  belongs to a later object than the last record of the child before. A separator
  need not be its subtree's minimum, and the first one of a node need not even be
  a bound when the separators ascend (`Separators.AscendingCase`).
- Fletcher-64 misses some short damage. Past the checksum field, two aligned
  words may be changed unseen exactly when each goes between 0 and 2^32 - 1 or
  stays (`Damage.OnesUnseen`). Inside the field nothing may change. Across its
  edge, the high check word and word 2 may change together when the change of
  word 2, times one less than the number of words, vanishes modulo 2^32 - 1:
  two stamped blocks of 4096 bytes differ in bytes 4 to 11 alone
  (`Damage.EdgeBurstUnseen`). `Damage.PairExact` is the condition for two aligned
  words anywhere in the block, `Damage.TripleExact` for three, and
  `Damage.UnalignedBurst` for 8 bytes that do not start on a word: nothing
  visible changes, or the first part turns from ones to zeros and the last from
  zeros to ones, or back, with the middle word making up for it.
- A directory key without a hash is taken for one with a hash when its name is
  long: it reads back right if and only if its length, NUL included, is below
  1024 or a multiple of 1024 (`FsItems.PlainName`).
- The depth guard admits trees of 64 levels, not just 63 (`BTree.GuardIsExact`).

## Model

| member | source | states |
|---|---|---|
| Bytes.LeRoundTrip | core/src/bytes.rs:12-37 | a number written in n little-endian bytes reads back |
| Bytes.BeRoundTrip | core/src/encryption.rs:228-239 | so does one written in n big-endian bytes |
| Object.Fletcher64Checksum | core/src/object.rs:85-113 | the two-sum loop computes the closed form: the plain and the weighted sum of the words modulo 2^32 - 1, packed into two check words |
| Object.TwoWordChecksum | core/src/object.rs:85-113 | the checksum of a block of any two words, worked out in numbers |
| Object.CheckWordRange | core/src/object.rs:110-113 | each check word lies in 1..2^32 - 1 and the checksum is exactly the pair of them |
| Object.CheckWordsCancel | core/src/object.rs:85-113 | appending the two check words drives both sums to zero modulo 2^32 - 1 |
| Object.SameChecksum | core/src/object.rs:85-113 | two word lists have the same checksum iff both their sums are congruent |
| Object.PairChange | core/src/object.rs:85-113 | changing any two words keeps the checksum iff the changes cancel in both sums |
| Object.BurstDetected | core/src/object.rs:85-113 | changing two neighbouring words keeps the checksum iff each is congruent to what it replaces |
| Object.SwapDetected | core/src/object.rs:85-113 | swapping two words keeps the checksum iff their difference times their distance vanishes modulo 2^32 - 1 |
| Object.StampVerifies | core/src/object.rs:29-113 | writing the computed checksum into a block makes it verify and changes nothing else |
| Object.CorruptionDetected | core/src/object.rs:29-113 | a verified block with two aligned words changed past the checksum field verifies again iff both words are indistinguishable (equal, or 0 against 2^32 - 1) |
| Damage.VerifiesIff | core/src/object.rs:29-113 | a block verifies iff its check words are non-zero and cancel both sums |
| Damage.DamageExact | core/src/object.rs:29-113 | any damage to a verified block, wherever it lies, escapes iff the changes of both sums and of the check words cancel |
| Damage.PairExact | core/src/object.rs:29-113 | two aligned words changed anywhere, check words included: escapes iff the field is unchanged (words 0 and 1), or the stated residues vanish (words 1 and 2), or both words are indistinguishable |
| Damage.TripleExact | core/src/object.rs:29-113 | the same for three aligned words, which any 8 bytes of a block lie within |
| Damage.UnalignedBurst | core/src/object.rs:29-113 | 8 bytes past the field that start inside a word: escapes iff nothing visible changes, or the outer parts flip between ones and zeros in opposite ways and the middle word makes up for it |
| Damage.OnesForZero | core/src/object.rs:85-113 | in every verified block a zero word past the field turned into 2^32 - 1 goes unseen |
| Damage.OnesUnseen | core/src/object.rs:85-113 | a stamped block on which this happens |
| Damage.EdgeBurstUnseen | core/src/object.rs:85-113 | two different stamped blocks of 4096 bytes that differ in bytes 4 to 11 alone |
| BTree.Walker.Descend | core/src/btree.rs:392-449 | the recursive descent leaves exactly the visited set, records and result that the walk function gives |
| BTree.ForEachLeafEntry | core/src/btree.rs:267-288 | the walk from a fresh visited set |
| BTree.GuardIsExact | core/src/btree.rs:267-288 | on every graph the full walk ends, and succeeds iff what the root reaches is a readable tree of at most 64 levels; it then entered exactly the reachable nodes |
| BTree.WalkOfTree | core/src/btree.rs:392-449 | any walk, pruned or not, of such a tree succeeds and yields exactly the kept leaf records, left to right |
| BTree.TreeOfWalk | core/src/btree.rs:392-449 | conversely a successful full walk comes from such a tree, each leaf shown once |
| BTree.PruneKeepsWanted | core/src/dir.rs:240-281 | pruning that skips only subtrees without wanted records keeps all wanted records in order |
| BTree.SameWalk | core/src/dir.rs:180-281 | a walk, successful or not, depends only on the nodes it enters |
| BTree.FindLeaf | core/src/btree.rs:335-390 | the one-path loop with its visited set and step cap lands where the recursive search does |
| BTree.LandOnTree | core/src/btree.rs:335-390 | the lookup lands on a contiguous part of the full scan that holds the last record at or below the target whenever there is one |
| BTreeNode.ReadNodeEntries | core/src/btree.rs:174-250 | the table-of-contents loop: slots past the table stop it, entries outside the node are skipped |
| BTreeNode.EntriesInsideNode | core/src/btree.rs:174-250 | on arbitrary bytes every key and value handed out is a slice of the node |
| BTreeNode.NodeRoundTrip | core/src/btree.rs:112-250 | any entry list that fits, laid out with forward keys and backward values, reads back as itself for every flags word: bit 0 adds a 40-byte footer, bit 1 makes a leaf at any level, bit 2 makes 4-byte slots with sizes 16/16 at an object-map leaf and 16/8 at an index, the other bits do nothing |
| Disk.NodeAt | core/src/btree.rs:293-317 | any nodes that fit are realized by an image: block p, stamped, fetches as node p |
| Omap.Resolve | core/src/omap.rs:168-212 | the leaf callback loop over the leaf found |
| Omap.ResolveIsFloor | core/src/omap.rs:168-212 | on any readable tree sorted by (oid, xid) with exact separators the lookup returns the newest mapping at or before xid among all leaf entries, and OmapUnresolved exactly when there is none |
| Omap.ResolveRefinesScan | core/src/omap.rs:168-212 | hence one-path lookup equals scanning every leaf and keeping the newest candidate |
| Omap.NewestIsFirst | core/src/omap.rs:191-211 | of the mappings with equal keys in the leaf found, the first is returned |
| Omap.MappingReads | core/src/omap.rs:185-205 | a mapping written with any flags, size and block decodes to all five fields |
| Omap.ResolvesPrinted | core/src/omap.rs:168-212 | a tree of written mappings resolves an object to the newest of them at or before the transaction, or to none when there is none |
| Disk.MappingsAt | core/src/omap.rs:168-212 | so does a leaf of written mappings on an image |
| Omap.LowSeparatorLoses | core/src/btree.rs:371-383 | a family of trees with a separator that is only a lower bound, on which the lookup reports a held mapping as unresolved |
| Separators.LandIsLanding | core/src/btree.rs:335-390 | on any readable tree without repeated ids the guarded search lands on the leaf that picking children leads to |
| Separators.FloorIffServes | core/src/omap.rs:168-212 | the newest candidate of one leaf is the floor of the whole scan iff that leaf holds a candidate as new as any |
| Separators.ExactServes | core/src/btree.rs:371-383 | exact separators route every lookup to a leaf that serves it |
| Separators.ServedNeedsExact | core/src/btree.rs:371-383 | conversely, serving every lookup between the first and last key forces exact separators at every index node |
| Separators.LookupRightIffExact | core/src/omap.rs:168-212 | on any readable tree without empty subtrees, sorted with unique keys, every lookup gives the floor of the full scan iff the separators of every index node are exact |
| Separators.AscendingCase | core/src/btree.rs:371-373 | with ascending separators exactness is about separator i alone: at or below child i's first key, and equal to it or of a later object than the last record of child i - 1 |
| Witnesses.LowSeparatorImageLoses | core/src/btree.rs:371-383 | the losing family on images, at every block size from 256 to 65536 |
| FsTree.ForEachFsRecord | core/src/dir.rs:132-164 | opening the object map and walking the fs-tree, in full or keyed |
| FsTree.KeyedWalkIsFilteredWalk | core/src/dir.rs:175-281 | when child oids lie within their separators, both ends inclusive, and the full walk succeeds, the keyed walk succeeds and shows the same records of the target in the same order |
| Encrypted.EncryptedVolume | core/src/dir.rs:211-245 | an image of a volume whose fs-tree root is enciphered sector by sector from its own block number on under a mapping with bit 2 of its flags set, or in the clear under one without: with any cipher that undoes the encryption the tree is there |
| Encrypted.EncryptedNodeOpens | core/src/dir.rs:211-245 | its walks, full or keyed, show the records written |
| Encrypted.EncryptedVolumeShows | core/src/dir.rs:290-400 | its paths open and its directories list as the records were written |
| Snapshot.SameResolution | core/src/omap.rs:168-212 | object maps that agree up to a transaction resolve every oid alike at it, however they are laid out |
| Snapshot.StepKeepsView | core/src/snapshot.rs:170-181 | no copy-on-write transaction changes any walk, full or keyed, of the mounted snapshot |
| Snapshot.StepKeepsPinned | core/src/snapshot.rs:170-181 | nor the set of blocks the snapshot reaches |
| Snapshot.SnapshotIsolation | core/src/snapshot.rs:170-181 | over every run, walking the snapshot through the then-live object map gives the same records in the same order, or the same error |
| Witnesses.TransactionExists | core/src/snapshot.rs:170-181 | for any block size from 960 to 65536, fs-tree oid, transactions and record lists that fit, there is an image of a snapshot and a transaction meeting the hypotheses, with the snapshot showing the one list and the live volume the other |
| FileIsolation.StepKeepsNames | core/src/snapshot.rs:170-181 | no copy-on-write transaction changes a path, a listing or a stream's extents in the mounted snapshot |
| FileIsolation.FileStepKeepsBytes | core/src/extent.rs:107-174 | one that spares the snapshot's data blocks too changes no byte of any of its files |
| FileIsolation.StepKeepsPinnedData | core/src/extent.rs:71-95 | nor the set of those data blocks |
| FileIsolation.FilesAreIsolated | core/src/snapshot.rs:170-181 | over every such run, opening a path, listing a directory and reading a file of the mounted snapshot give what they gave at first, or the same error |
| FileWitnesses.FileTransactionExists | core/src/snapshot.rs:170-181 | images of such a transaction, for any block size from 960 to 65536 and any records that keep no data where it writes |
| FileWitnesses.OverwrittenDataShows | core/src/extent.rs:107-174 | images of a transaction that spares the metadata only, after which a file of the snapshot reads differently |
| SnapTree.ForEachSnapRecord | core/src/snapshot.rs:191-219 | opening the object map, the root by block number, its descendants by oid |
| SnapTree.DescendChildren | core/src/snapshot.rs:292-307 | the loop over the root's children with the root's block number already visited |
| SnapTree.WalkedUnlessAliased | core/src/snapshot.rs:224-309 | a snapshot-metadata tree is walked in full, left to right, iff no descendant's oid equals the root's block number, and else refused as a cycle |
| Witnesses.AliasedImageIsRefused | core/src/snapshot.rs:224-309 | an image of a two-level tree, walked in full for every oid of its leaf but the root's block number |
| Dir.ListDir | core/src/dir.rs:290-309 | the keyed walk of the directory, then its entries in record order |
| Dir.LookupChild | core/src/dir.rs:316-343 | the first entry of the listing with the name |
| Dir.OpenPath | core/src/dir.rs:350-400 | the component loop from inode 2 is a fold over first-named entries, then an inode load; every step walks the volume |
| Dir.ComponentsJoin | core/src/dir.rs:381-400 | joining paths with a slash joins their component lists |
| Dir.FollowConcat | core/src/dir.rs:381-400 | following two component lists in turn is following their concatenation |
| Dir.PathsCompose | core/src/dir.rs:381-400 | opening p/q is resolving p, then q from there |
| Dir.SlashesChangeNothing | core/src/dir.rs:381-400 | leading, trailing and doubled slashes change nothing |
| Dir.KeyedNavigationIsFlat | core/src/dir.rs:290-400 | opening a path with pruned walks of a tree equals searching the flat list of all its records at every component |
| Dir.ImageNavigationIsFlat | core/src/dir.rs:290-400 | so it does on every image whose fs-tree is walkable with oids within their separators, and so does every listing |
| FsItems.KeyReads | core/src/fsrecord.rs:76-81 | a record key splits into 4 bits of type and 60 of object id |
| FsItems.NameReads | core/src/dir.rs:62-84 | a hashed name key reads back; a plain one iff its length is below 1024 or a multiple of it |
| FsItems.LinkReads | core/src/dir.rs:86-96 | a directory record reads back: parent, name, target, date and flags |
| FsItems.ExtentReads | core/src/extent.rs:71-95 | an extent record reads back: stream, offset, length below its flags, block and crypto id |
| FsItems.FirstNamedExact | core/src/dir.rs:316-343 | looking a name up gives the first entry of exactly that name, and nothing iff no entry has it |
| FsItems.WordsSplit | core/src/dir.rs:381-400 | words without slashes, joined with slashes, split back into the words |
| FsItems.FirstInodeExact | core/src/dir.rs:350-400 | the inode loaded is the first inode record of exactly that object |
| FsItems.OpenedExact | core/src/dir.rs:350-400 | opening a path gives an inode iff following its words from directory 2, by first links of the name, ends at an object with that first inode record |
| FsItems.OpenFailure | core/src/dir.rs:350-400 | a path that does not open reports the object where it failed: a directory without the next word, or an end without an inode |
| FsItems.ImageShowsItems | core/src/dir.rs:290-400 | so it does on every image whose walkable fs-tree holds written records; its listings and extents are those written |
| Extent.ImageExtentsAreFlat | core/src/extent.rs:71-95 | there a stream's extents are those of the flat list, sorted by offset |
| Runs.ScanExact | core/src/spaceman.rs:165-190 | scanning bits with an open-run state yields maximal runs that cover exactly the free ones |
| Runs.PushMaximal | core/src/spaceman.rs:195-206 | appending a run at or past the end, coalesced with the last, keeps the list maximal while no end reaches 2^64 |
| Runs.PushHas | core/src/spaceman.rs:195-206 | wherever the new run lies, the list then covers exactly the old blocks and the new run |
| Runs.InByPosition | core/src/spaceman.rs:229-294 | a block is covered iff some run of the list holds it |
| Runs.MaximalByPosition | core/src/spaceman.rs:192-206 | in a maximal list every run is non-empty and ends before any later one starts, with a gap |
| Runs.MaximalUnique | core/src/spaceman.rs:195-206 | a maximal run list is determined by the blocks it covers |
| Runs.LengthsCount | core/src/spaceman.rs:229-294 | the lengths of a maximal list count the blocks covered |
| Spaceman.ScanFreeRuns | core/src/spaceman.rs:165-190 | the bitmap loop computes that scan, bytes past the end counting as allocated |
| Spaceman.FreeRunsExact | core/src/spaceman.rs:165-190 | the runs of a bitmap are maximal and cover exactly its free bits |
| Bitmaps.PackedRuns | core/src/spaceman.rs:165-190 | on a bitmap packed eight blocks to a byte, lowest bit first, the runs are the maximal runs of the blocks with the wanted value |
| Bitmaps.PackedBlock | core/src/spaceman.rs:143-152 | there the predicate answers with the block's own bit |
| Spaceman.AppendChunk | core/src/spaceman.rs:272-289 | one chunk's runs appended at its base |
| Spaceman.AppendChunks | core/src/spaceman.rs:258-291 | the chunks of one chunk-info block, ending at the device's end |
| Spaceman.EnumerateFreeRuns | core/src/spaceman.rs:229-294 | the nested loops over chunk-info blocks and chunks |
| Spaceman.EnumerationExact | core/src/spaceman.rs:229-294 | on geometry whose chunk-info blocks list no more than their share, the runs are ascending, disjoint and maximal across chunk boundaries, and a block is in a run iff its bit says free |
| Spaceman.EnumerationCounts | core/src/spaceman.rs:229-294 | there the run lengths add up to the number of free blocks |
| Spaceman.EnumerationSucceeds | core/src/spaceman.rs:229-294 | the enumeration succeeds iff the geometry is usable and every chunk-info block, and every bitmap listed for a chunk on the device, can be read |
| Spaceman.ReadingsDiffer | core/src/spaceman.rs:143-152 | predicate and enumerator disagree on exactly the blocks whose bit lies past the bitmap, which only the predicate calls free |
| Spaceman.EnumerationAgrees | core/src/spaceman.rs:77-152 | when no chunk-info block lists more chunks than its share, enumeration and predicate agree on every block iff no bit lies past its bitmap |
| Enumeration.EnumerationLists | core/src/spaceman.rs:229-294 | on any geometry a block is in a run iff some chunk-info entry for a chunk on the device shows it free |
| Enumeration.EnumerationHolds | core/src/spaceman.rs:229-294 | that is, iff its own chunk's bit says free or a surplus entry lists it |
| Enumeration.AgreementExact | core/src/spaceman.rs:77-294 | on any geometry enumeration and predicate agree on a block iff a bit past the bitmap implies a surplus listing, and a surplus listing implies free by the predicate |
| Enumeration.ShareSuffices | core/src/spaceman.rs:229-294 | chunk-info blocks that keep to their share list nothing in surplus |
| Spaceman.StandardBitmapsSuffice | core/src/spaceman.rs:143-152 | at most 8 blocks per bitmap byte rule that out |
| Spaceman.ImageAgrees | core/src/spaceman.rs:77-294 | so on any image with at most 8 blocks per bitmap byte and no surplus entries the two agree on every block, and the run lengths add up to the number of blocks the predicate calls free |
| Bitmaps.DeviceRoundTrip | core/src/spaceman.rs:77-294 | any allocation of any number of blocks, written on an image at block sizes from 96 to 65536: the predicate answers for every block with its own bit, and the enumeration is the maximal list of exactly the free blocks |
| Witnesses.LongChunkDisagrees | core/src/spaceman.rs:147-175 | at every block size from 104 to 65536, an image with 8 blocks per chunk more than a bitmap block has bits: the enumeration succeeds and they disagree on a block |
| Witnesses.OverListingDisagrees | core/src/spaceman.rs:77-294 | at those block sizes and every chunk size, an image whose chunk-info block lists two chunks instead of one: the second is enumerated as free and the predicate fails on each of its blocks |
| Witnesses.OverListingOverlaps | core/src/spaceman.rs:208-294 | with a second chunk-info block, an image whose runs overlap and add up to more than the device holds |
| VolumeCrypto.ChunksSplit | core/src/encryption.rs:661-684 | decryption in sectors splits at any whole number of sectors, the index carrying on |
| VolumeCrypto.BlocksAreOneArea | core/src/encryption.rs:661-684 | decrypting block i with tweak crypto id + i equals decrypting the whole extent once from sector crypto id times sectors per block |
| VolumeCrypto.BlockDeciphers | core/src/encryption.rs:661-684 | a block enciphered sector by sector from tweak times sectors per block on decrypts under that tweak |
| Extent.ListExtents | core/src/extent.rs:71-95 | the keyed walk of the stream, then its extents, stably sorted by offset |
| Extent.SortSorts | core/src/extent.rs:93-95 | the sort is ascending and a permutation |
| Extent.SortStable | core/src/extent.rs:93-95 | extents with equal offsets keep their order |
| Extent.CopyInto | core/src/extent.rs:168-170 | copying into part of a buffer in place |
| Extent.DecryptInPlace | core/src/extent.rs:155-167 | decrypting a buffer in place block by block |
| Extent.ReadExtent | core/src/extent.rs:134-171 | one extent's bytes: whole blocks read and decrypted, then cut |
| Extent.ReadStream | core/src/extent.rs:107-174 | the size cap, the extents of the stream, and their assembly |
| Extent.AssembleExtents | core/src/extent.rs:124-174 | the loop over extents into a zeroed buffer of the logical size |
| Extent.AssembledPointwise | core/src/extent.rs:107-174 | byte k is the physical byte, or the byte of its own decrypted block, of the last extent covering k, and zero in a hole; the length is the logical size |
| Extent.SucceedsIffReadable | core/src/extent.rs:107-174 | reading succeeds iff every extent's part inside the logical size is addressable and on the image |
| Extent.ReadsIff | core/src/extent.rs:107-174 | a stream can be read iff its size is at most 16 GiB, its walk succeeds and every extent can be read |
| Extent.OrderDoesNotMatter | core/src/extent.rs:107-174 | disjoint extents give the same bytes, or all fail, in any order |
| Extent.SortingDoesNotMatter | core/src/extent.rs:71-174 | so the sort makes no difference for them |
| Extent.ShorterReadIsPrefix | core/src/extent.rs:107-174 | reading at a smaller logical size succeeds and gives a prefix |
| Extent.ExtentIsOneArea | core/src/extent.rs:147-171 | an encrypted extent is one sweep over its blocks, cut to length |
| Extent.ExtentDeciphers | core/src/extent.rs:134-171 | an extent enciphered from crypto id times sectors per block on delivers its plaintext, cut to length |
| Compression.DecodeChunkedFork | core/src/compression.rs:218-263 | the slot loop over the fork |
| Compression.ForkRoundTrip | core/src/compression.rs:218-263 | any data in 65536-byte chunks, any codec that decodes what it encoded, any number of zero padding slots: decoding returns the data |
| Compression.SuccessIsContiguous | core/src/compression.rs:218-263 | on any success the chunks are contiguous from the header, end where their slots say, make up the result, and the result has the declared size |
| Decmpfs.DecodeZlibFork | core/src/compression.rs:182-214 | the block-table loop |
| Decmpfs.ZlibRoundTrip | core/src/compression.rs:182-214 | any pieces behind any resource header that states its own size, with any codec that inflates what it encoded: the fork decodes to the pieces in order |
| Decmpfs.ChunkedFileRoundTrip | core/src/compression.rs:77-174 | an LZVN or LZFSE file in a resource fork, encoded for that very codec, or an uncompressed one, decodes to its bytes |
| Decmpfs.ZlibFileRoundTrip | core/src/compression.rs:77-174 | so does a zlib file |
| Decmpfs.InlineFileRoundTrip | core/src/compression.rs:77-153 | so does a file encoded into the attribute, unless the encoding starts with the marker byte: then the rest of it is returned if its length is the file's, and refused otherwise |
| Decmpfs.VerbatimFileRoundTrip | core/src/compression.rs:77-153 | so does a file stored as it is, behind the marker byte of its type if it has one |
| Ber.BerFind | core/src/encryption.rs:307-335 | the lookup loop |
| Ber.ReadIterations | core/src/encryption.rs:228-239 | the count is the big-endian value, at most 2^32 - 1 |
| Ber.ParseWrappedKek | core/src/encryption.rs:155-255 | the item loop with its size checks and missing-field errors |
| Ber.FindIsFirst | core/src/encryption.rs:307-335 | on a blob of items the lookup returns the first value of the tag |
| Ber.ParseIsLast | core/src/encryption.rs:155-255 | a successful item loop keeps the last value of each tag |
| Ber.ParseExact | core/src/encryption.rs:155-255 | the parse succeeds iff the blob is a list of well-formed items of permitted sizes in which the three tags occur, and then returns the last values, the count clamped to 32 bits |
| Ber.ReadersAgree | core/src/encryption.rs:155-335 | key of 40 and salt of 16 bytes; the two readers agree iff first and last value coincide, in particular for tags that occur once |
| Ber.EncodeRoundTrip | core/src/encryption.rs:155-335 | any item list in any mix of the three length forms is the item list of its encoding |
| Ber.ReadersRoundTrip | core/src/encryption.rs:155-335 | on any encoded item list the lookup finds the first value of a tag, and the parse accepts exactly the complete lists and returns the last values |
| Ber.KekRoundTrip | core/src/encryption.rs:155-255 | a wrapped key written with tags 0x83, 0x84 and 0x85 and a big-endian count of 1 to 8 bytes parses back, a count past 32 bits cut to the largest |
| Ber.ReadersDisagree | core/src/encryption.rs:155-335 | for any two different keys a blob on which both readers succeed and return different ones |
| Keybag.ReadKeybag | core/src/encryption.rs:86-124 | the tags present, once each and in first-seen order, iff some entry carries them; the unknown tags with their offsets, in order; whether key material or a hint is there |
| Keybag.VolumeRecords | core/src/encryption.rs:442-520 | the loop computes a fold over the same entries |
| Keybag.FindKekObject | core/src/encryption.rs:723-745 | the loop returns the first object offered by the same entries |
| Keybag.FirstKekSkips | core/src/encryption.rs:723-745 | entries that offer no object never hide one that does |
| Keybag.NeverCrossesVolumes | core/src/encryption.rs:442-520 | a volume's records depend on the entries with its UUID alone |
| Keybag.RecordsExact | core/src/encryption.rs:442-520 | they are found iff the volume's key and extent entries are all well-formed and there is one of each; the last of each wins and the key is 40 bytes |
| Keybag.LayoutRoundTrip | core/src/encryption.rs:86-124 | any laid-out entry list is walked entry by entry at its 16-byte-aligned offsets, data whole, up to the count cap |
| Keybag.RecordsRoundTrip | core/src/encryption.rs:442-520 | a written bag gives a volume the key (item 0x83 of the nested 0xa3 object of its last entry tagged 2) and the extent (its last entry tagged 3) |
| Keybag.StateOfBag | core/src/encryption.rs:86-124 | the observed state in tag numbers: encrypted iff tag 1, 2 or 3 occurs, a hint iff 4, the others outside the five listed with their offsets |
| Keybag.KekOfBag | core/src/encryption.rs:723-745 | the key-encryption key is the nested object of the first entry tagged 1 or 3 |
| Checkpoint.ScanSuperblocks | core/src/checkpoint.rs:91-119 | first pass: best slot, readable blocks, last magic seen |
| Checkpoint.CollectMappings | core/src/checkpoint.rs:129-155 | second pass: the mappings of the transaction's map blocks in ring order |
| Checkpoint.ResolveLiveCheckpoint | core/src/checkpoint.rs:62-161 | both passes behind the descriptor-tree and block-size checks |
| Checkpoint.ResolveExact | core/src/checkpoint.rs:91-161 | fails iff the ring holds no valid superblock; else the greatest transaction, the first slot on ties, and every mapping of its valid map blocks |
| Checkpoint.ResolvesIff | core/src/checkpoint.rs:62-161 | on an image resolution succeeds iff the ring is contiguous, the block size is 4096 to 65536 and some slot of the ring holds a valid superblock |
| PrintedRing.ImageResolves | core/src/checkpoint.rs:62-161 | on every image whose ring was written from superblocks, map blocks, other objects and damaged blocks: the first written superblock of the greatest written transaction with the mappings written for it in ring order, and failure, with the count and the last magic, iff none was written |
| Checkpoint.MappingSource | core/src/checkpoint.rs:129-155 | every mapping returned comes from a valid map block of that very transaction |
| Checkpoint.NewestIsBest | core/src/checkpoint.rs:91-126 | being the newest, first of equals, determines the slot |
| Checkpoint.FallsBack | core/src/checkpoint.rs:91-126 | when the newest superblock is lost the newest of the others is found, and resolution fails only if there was no other |
| Checkpoint.BurstLoses | core/src/checkpoint.rs:112-114 | a change of two aligned words anywhere in the newest superblock is such a loss unless it meets the escape condition |
| Checkpoint.WideBurstLoses | core/src/checkpoint.rs:112-114 | so is a change of three aligned words |
| Checkpoint.RotationIndependent | core/src/checkpoint.rs:91-161 | rotating the ring keeps the transaction found and its mappings up to order |
| Checkpoint.RotationFindsSameBlock | core/src/checkpoint.rs:91-126 | with distinct transactions it keeps the very superblock found |
| Checkpoint.CrashSafe | core/src/checkpoint.rs:1-15 | over every run of writes that spare the live checkpoint's blocks, torn ones included, resolution returns the last checkpoint whose superblock was written, with its mappings |
| Checkpoint.MapRoundTrip | core/src/checkpoint.rs:144-154 | a laid-out map block reads back mapping by mapping |
| Reaper.PendingObjects | core/src/reaper.rs:26-93 | the chain loop with its seen set |
| Reaper.CycleNeverEnds | core/src/reaper.rs:65-70 | a chain that returns to a list never ends |
| Reaper.ChainExact | core/src/reaper.rs:65-92 | the walk returns all entries in chain order iff the chain ends within 4096 lists, and the guard fires iff 4096 lists were readable and the chain goes on |
| Reaper.PendingExact | core/src/reaper.rs:49-93 | the same of an image: the object in progress, then the non-zero entries of the whole chain |
| PrintedReaper.FirstMapping | core/src/reaper.rs:65-80 | a list is found through the first mapping of its oid |
| PrintedReaper.PendingRoundTrip | core/src/reaper.rs:26-93 | a reaper and a chain of at most 4096 lists written on any image: the object in progress, then the non-empty slots, list after list |
| XFields.ParseXFields | core/src/fsrecord.rs:103-148 | the descriptor loop |
| XFields.TruncationIsPrefix | core/src/fsrecord.rs:103-148 | cutting a blob anywhere yields a prefix of its fields: exactly those before the first value that crosses the cut |
| XFields.BlobRoundTrip | core/src/fsrecord.rs:103-148 | any list of at most 4096 fields with 8-byte-padded values and any descriptor flags parses back, whatever follows |
| Integrity.DuplicateOids | forensic/src/integrity.rs:37-51 | an oid is reported, once and in order of first mention, iff it maps to two distinct blocks |

## Left out

- Checkpoint.ScanSuperblocks: does not model overflow of the descriptor base plus index, nor I/O errors other than reading past the image.
- Checkpoint.CrashSafe: the writer's protocol is taken from the format's description, since the repository only reads; only the ring is modelled, not the checkpoint data area.
- Ber.ParseWrappedKek: end offsets are unbounded numbers, so the checked addition of offset and length cannot overflow here.
- Dir.ListDir: names are byte strings cut at the first NUL; lossy UTF-8 decoding is not modelled.
- Dir.OpenPath: an inode is its raw record value; `Inode::parse` is a flat field decoder.
- Extent.ReadStream: a negative or oversized length conversion cannot occur, since sizes are unbounded naturals.
- AES, XTS, AES-KW, PBKDF2, SHA, LZVN, LZFSE and zlib internals: ciphers and codecs are parameters, length-preserving or inverse to an encoder as each lemma states.
- Decmpfs.ChunkedFileRoundTrip: the type table and the header offsets 4 and 8 come from a format library that is not part of this model; the table is a parameter, the offsets follow Apple's decmpfs header.
- `unlock_volume` and `unlock_with_volume_keybag`: straight-line key handling over library ciphers.
- `list_snapshots` and `resolve_snapshot_xid`: filters over the records that `SnapTree.ForEachSnapRecord` shows.
- Flat field decoding in `container.rs`, `volume.rs`, `inode.rs`, `sealed.rs`, `xattr.rs`: constant offsets, only easy members.
- `fusion.rs` and the space manager's CAB tier: refused by the source.
- The other forensic audits, finding codes and severities: tables and one-branch checks.
- `Read + Seek` plumbing, the `Mutex` and the VFS adapter: an image is a value and a read is a lookup that may fail.
