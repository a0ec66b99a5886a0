/** Reading blocks of an image: seek, `read_exact`, and the checksum gate in front of every node. */
module Image {
  import opened Results
  import opened Bytes
  import opened Object
  import opened BTree
  import opened BTreeNode

  /** `paddr.saturating_mul(block_size)`. */
  function ByteOffset(paddr: nat, bs: nat): nat {
    Saturated(paddr * bs)
  }

  /** The bytes of a block, or an I/O error when it is not wholly inside the image. */
  function ReadBlock(img: seq<Byte>, bs: nat, paddr: nat): Result<seq<Byte>> {
    var off := ByteOffset(paddr, bs);
    match Slice(img, off, off + bs)
    case Some(buf) => Ok(buf)
    case None => Err(Io)
  }

  /** The mismatch report names the object's own oid when the block is long enough to hold one. */
  function Mismatch(buf: seq<Byte>, paddr: nat): Error {
    ChecksumMismatch(if |buf| >= 32 then LeU64(buf, 8) else paddr, Stored(buf), Fletcher64(buf))
  }

  /** Checksum before trust. */
  function Verified(buf: seq<Byte>, paddr: nat): Result<seq<Byte>> {
    if Verifies(buf) then Ok(buf) else Err(Mismatch(buf, paddr))
  }

  /** `read_obj_block`: a block, trusted only once its checksum verifies. */
  function ReadObject(img: seq<Byte>, bs: nat, paddr: nat): Result<seq<Byte>> {
    var buf :- ReadBlock(img, bs, paddr);
    if Verifies(buf) then Ok(buf) else Err(ChecksumMismatch(LeU64(buf, 8), Stored(buf), Fletcher64(buf)))
  }

  /** A node of a physically stored tree; an unaddressable block is skipped like an empty leaf. */
  function ReadNode(img: seq<Byte>, bs: nat, subtype: Subtype, paddr: nat): Result<Node> {
    if paddr * bs >= U64 then Ok(Leaf([])) else
    var buf :- ReadBlock(img, bs, paddr);
    var node :- Verified(buf, paddr);
    Ok(ParseNode(node, subtype))
  }

  /** The graph of a physically stored tree: node ids are block numbers. */
  function Physical(img: seq<Byte>, bs: nat, subtype: Subtype): Fetch {
    (paddr: nat) => ReadNode(img, bs, subtype, paddr)
  }
}
