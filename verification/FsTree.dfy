/**
 The volume fs-tree: a virtual tree whose node oids are resolved through the
 object map, walked in full or keyed to one object id (core/src/dir.rs).
 */
module FsTree {
  import opened Results
  import opened Bytes
  import opened Object
  import opened BTree
  import Node = BTreeNode
  import opened Image
  import Omap
  import opened VolumeCrypto

  // ---------- record keys (core/src/fsrecord.rs) ----------

  const OID_RANGE: nat := 0x1000_0000_0000_0000

  /** The low 60 bits of `obj_id_and_type`. */
  function KeyOid(key: seq<Byte>): nat {
    LeU64(key, 0) % OID_RANGE
  }

  /** The top 4 bits of `obj_id_and_type`. */
  function KeyType(key: seq<Byte>): nat {
    LeU64(key, 0) / OID_RANGE
  }

  /** Whether a record belongs to object `oid`. */
  function For(oid: nat): Entry -> bool {
    (e: Entry) => KeyOid(e.key) == oid
  }

  // ---------- the graph a walk sees ----------

  /** The fields of a volume superblock that navigation uses. */
  datatype Volume = Volume(xid: nat, omapOid: nat, rootTreeOid: nat)

  const OBJECT_TYPE_OMAP: nat := 0xb

  /** `ObjectMap::parse`, reduced to the root of the object-map tree. */
  function ParseOmap(block: seq<Byte>): Result<nat> {
    if |block| < 56 then Err(UnexpectedObjectType(OBJECT_TYPE_OMAP, 0))
    else if LeU32(block, 24) % 0x1_0000 != OBJECT_TYPE_OMAP then Err(UnexpectedObjectType(OBJECT_TYPE_OMAP, LeU32(block, 24)))
    else if !Verifies(block) then Err(ChecksumMismatch(LeU64(block, 8), Stored(block), Fletcher64(block)))
    else Ok(LeU64(block, 48))
  }

  function OpenOmap(img: seq<Byte>, bs: nat, omapOid: nat): Result<nat> {
    var block :- ReadBlock(img, bs, omapOid);
    ParseOmap(block)
  }

  /** `OMAP_VAL_ENCRYPTED` in the mapping's flags. */
  predicate IsEncrypted(flags: nat) {
    (flags / 4) % 2 == 1
  }

  /** A block as the walk reads it: decrypted when the mapping says so and a key is held, then checksummed. */
  function OpenNode(buf: seq<Byte>, bs: nat, vek: Option<Cipher>, entry: Omap.OmapEntry): Result<BTree.Node> {
    var plain := if IsEncrypted(entry.flags) && vek.Some? then DecryptVolumeArea(buf, vek.value, entry.paddr, bs) else buf;
    var node :- Verified(plain, entry.paddr);
    Ok(Node.ParseNode(node, Node.FsTree))
  }

  function ReadVirtual(img: seq<Byte>, bs: nat, vek: Option<Cipher>, omapRoot: nat, xid: nat, oid: nat): Result<BTree.Node> {
    var entry :- Omap.Resolved(Physical(img, bs, Node.Omap), omapRoot, oid, xid);
    var buf :- ReadBlock(img, bs, entry.paddr);
    OpenNode(buf, bs, vek, entry)
  }

  /** The graph of a virtual tree: node ids are oids, resolved at one transaction. */
  function Virtual(img: seq<Byte>, bs: nat, vek: Option<Cipher>, omapRoot: nat, xid: nat): Fetch {
    (oid: nat) => ReadVirtual(img, bs, vek, omapRoot, xid, oid)
  }

  // ---------- pruning to one object id ----------

  /** Whether a child with keys in [sep, next) can hold records of `target`; the upper bound is inclusive. */
  predicate ChildMayContain(sep: nat, next: Option<nat>, target: nat) {
    sep <= target && (next.None? || next.value >= target)
  }

  function NextOid(es: seq<Entry>, i: nat): Option<nat> {
    if i + 1 < |es| then Some(KeyOid(es[i + 1].key)) else None
  }

  /** A keyed walk descends the children that may hold the target, a full walk all of them. */
  function Keyed(target: Option<nat>): Keep {
    match target
    case None => ALL
    case Some(oid) => (es: seq<Entry>, i: nat) => i < |es| && ChildMayContain(KeyOid(es[i].key), NextOid(es, i), oid)
  }

  /** `walk_fs_tree`: open the object map, then descend from the root oid. */
  function WalkFsTree(img: seq<Byte>, bs: nat, vol: Volume, vek: Option<Cipher>, target: Option<nat>): Walk {
    match OpenOmap(img, bs, vol.omapOid)
    case Err(e) => Walk(Err(e), {}, [])
    case Ok(root) => Visit(Virtual(img, bs, vek, root, vol.xid), Keyed(target), vol.rootTreeOid, 0, {})
  }

  method ForEachFsRecord(img: seq<Byte>, bs: nat, vol: Volume, vek: Option<Cipher>, target: Option<nat>)
    returns (r: Result<seq<Entry>>)
    ensures r == Collected(WalkFsTree(img, bs, vol, vek, target))
  {
    var root := OpenOmap(img, bs, vol.omapOid);
    if root.Err? {
      return Err(root.error);
    }
    r := ForEachLeafEntry(Virtual(img, bs, vek, root.value, vol.xid), Keyed(target), vol.rootTreeOid);
  }

  /** Every record's oid lies between its child's separator oid and the next one, both ends inclusive. */
  ghost predicate WithinBounds(rs: seq<Entry>, low: nat, high: Option<nat>) {
    forall r :: r in rs ==> low <= KeyOid(r.key) && (high.Some? ==> KeyOid(r.key) <= high.value)
  }

  ghost predicate OidBounds(t: Tree)
    decreases t, 0
  {
    t.TNode? ==> OidBoundsAll(t.entries, t.kids, 0)
  }

  ghost predicate OidBoundsAll(es: seq<Entry>, kids: seq<Tree>, i: nat)
    decreases kids, 0
  {
    kids != [] ==>
      && i < |es|
      && WithinBounds(Records(kids[0], ALL), KeyOid(es[i].key), NextOid(es, i))
      && OidBounds(kids[0])
      && OidBoundsAll(es, kids[1..], i + 1)
  }

  lemma {:induction false} FilterNone(rs: seq<Entry>, want: Entry -> bool)
    requires forall r :: r in rs ==> !want(r)
    ensures Filter(rs, want) == []
  {
    if rs != [] {
      FilterNone(rs[1..], want);
    }
  }

  lemma {:induction false} BoundsMakePruningSafe(t: Tree, oid: nat)
    requires OidBounds(t)
    ensures SkipsOnlyUnwanted(t, Keyed(Some(oid)), For(oid))
    decreases t, 0
  {
    if t.TNode? {
      BoundsMakePruningSafeAll(t.entries, t.kids, 0, oid);
    }
  }

  lemma {:induction false} BoundsMakePruningSafeAll(es: seq<Entry>, kids: seq<Tree>, i: nat, oid: nat)
    requires OidBoundsAll(es, kids, i)
    ensures SkipsOnlyUnwantedAll(es, kids, i, Keyed(Some(oid)), For(oid))
    decreases kids, 0
  {
    if kids != [] {
      if !Keyed(Some(oid))(es, i) {
        FilterNone(Records(kids[0], ALL), For(oid));
      }
      BoundsMakePruningSafe(kids[0], oid);
      BoundsMakePruningSafeAll(es, kids[1..], i + 1, oid);
    }
  }

  /**
   When child oids lie within their separator bounds and the full walk
   succeeds, the keyed walk succeeds too and shows the same records of the
   target, in the same order.
   */
  lemma {:induction false} KeyedWalkIsFilteredWalk(fetch: Fetch, t: Tree, oid: nat)
    requires Walkable(fetch, t, 0, {}) && OidBounds(t)
    ensures var full, keyed := Visit(fetch, ALL, t.id, 0, {}), Visit(fetch, Keyed(Some(oid)), t.id, 0, {});
            && full.result.Ok? && keyed.result.Ok?
            && Filter(keyed.out, For(oid)) == Filter(full.out, For(oid))
            && keyed.visited <= full.visited
  {
    WalkOfTree(fetch, ALL, t, 0, {});
    WalkOfTree(fetch, Keyed(Some(oid)), t, 0, {});
    BoundsMakePruningSafe(t, oid);
    PruneKeepsWanted(t, Keyed(Some(oid)), For(oid));
    IdsOfKept(t, Keyed(Some(oid)));
  }

  /** The volume's object map opens, and its fs-tree unfolds from the root oid to t. */
  ghost predicate HoldsTree(img: seq<Byte>, bs: nat, vol: Volume, vek: Option<Cipher>, t: Tree) {
    && OpenOmap(img, bs, vol.omapOid).Ok? && t.id == vol.rootTreeOid
    && Walkable(Virtual(img, bs, vek, OpenOmap(img, bs, vol.omapOid).value, vol.xid), t, 0, {})
  }
}
